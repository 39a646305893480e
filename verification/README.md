# URL shortener: identifier assignment and lookup

This project models the core of a small URL-shortener service. The service
keeps one MongoDB collection of documents `{original_url, short_url}`.

- `POST /api/shorturl` checks the submitted URL. It must parse with
  `new URL` and its host must resolve with `dns.lookup`. The handler then
  answers with the document that already holds the URL. If there is none,
  it saves a new document whose `short_url` is the document count plus one.
- `GET /api/shorturl/:short_url` turns the path segment into a number with
  JavaScript's `parseInt`. It redirects to the `original_url` of the
  document with that `short_url`, or answers with the not-found error.

Files:

- `Wrappers.dfy`: `Option`.
- `ParseInt.dfy` (module `EcmaParseInt`): `parseInt` with no radix argument,
  as section 19.2.5 of ECMA-262 defines it. It skips leading white space,
  reads an optional sign and an optional `0x` prefix, then the longest run
  of digits. `None` is NaN. There is also the decimal rendering a client
  uses to write the short link.
- `UrlStore.dfy` (module `UrlStore`): the document type, `findOne` as a
  search over the sequence of documents, the invariants, and the class
  `UrlCollection` whose only write, `Save`, appends.
- `Shortener.dfy` (module `Shortener`): the POST handler as the method
  `Shorten`, which changes the collection step by step. The method is
  proved against the function `CreateOrFetch`. The GET handler is the
  function `Lookup`, which only reads. The lemmas state the properties of
  both handlers.
- `Sequential.dfy` (module `Sequential`): many submissions handled one
  after another, and a concrete session.

`new URL`, `dns.lookup` and the availability of the database are outside
the model. Each is a boolean of `Environment`, given per request. The DNS
answer can differ from one request to the next, so it is an input of the
request and not a function of the URL.

Two behaviours of the code are worth knowing when reading the lemmas.
A path segment that is not an integer is not always "not found": `parseInt`
reads a leading numeral, so `12abc` looks up id 12 and `0x1A` looks up 26
(`ParseDecimalPrefix`, `ParseHex`). Only a segment with no leading
numeral gives NaN. In the model NaN matches no document, so the reply is
not-found; the code itself answers with the server error there, because
Mongoose refuses to cast NaN (see "Left out"). And the validity gate runs
before the search by URL: a stored URL whose host no longer resolves is
answered with `invalid url`, so idempotence holds only for requests that
pass the gate (`Idempotent` requires `Accepts(env)`, and distinct URLs, which sequential operation keeps).

## Model

| member | source | states |
|---|---|---|
| `EcmaParseInt.TrimStart` | index.js:92 | the result is a suffix of the input, everything dropped is white space or a line terminator, and the result does not start with either |
| `EcmaParseInt.DigitPrefixLength` | index.js:92 | the length of the longest prefix of digits of the radix: every character before it is a digit and the character at it is not |
| `EcmaParseInt.DecimalString` | index.js:78-81 | the decimal digits of a `short_url`, at least one, with no leading zero, as a client writes the number it received into a short link |
| `EcmaParseInt.ValueOfDecimalString` | index.js:92 | reading the decimal digits of n gives back n |
| `EcmaParseInt.DigitPrefixOfDigits` | index.js:92 | a run of digits followed by a non-digit is read exactly up to the non-digit |
| `EcmaParseInt.ParseDigits` | index.js:92 | steps 11-14: NaN exactly when the text does not start with a digit of the radix; the value it reads is given by `ParseDigitsOfRun` |
| `EcmaParseInt.ParseInt` | index.js:92 | NaN exactly when no digit of the radix follows the leading white space, the optional sign and the optional `0x` prefix (radix 16 after `0x`, 10 otherwise); the values it gives are stated by `ParseIntOfUnsignedDecimal`, `ParseIntOfHexPrefix`, `ParseIntNegates`, `ParseIntPlus` and `ParseIntSkipsWhiteSpace` |
| `EcmaParseInt.ParseDigitsOfRun` | index.js:92 | a non-empty run of digits followed by a non-digit is read back as the run's value |
| `EcmaParseInt.ParseIntOfUnsignedDecimal` | index.js:92 | text starting with a decimal digit and no `0x` prefix is read in radix 10, with no sign |
| `EcmaParseInt.ParseIntOfHexPrefix` | index.js:92 | text starting with `0x` or `0X` is read in radix 16 from the character after the prefix |
| `EcmaParseInt.ParseHex` | index.js:92 | for every non-empty run of hex digits z and text that does not continue it, `parseInt("0x" + z + rest)` is the hexadecimal value of z |
| `EcmaParseInt.ParseDecimalPrefix` | index.js:92 | `parseInt` of a decimal numeral followed by text that does not continue it is the numeral's value (`"42abc"` gives 42) |
| `EcmaParseInt.ParseDecimal` | index.js:92 | `parseInt` inverts the decimal rendering of every non-negative integer |
| `EcmaParseInt.UnsignedDigits` | index.js:92 | text that starts with a digit passes the white-space and sign steps unchanged and is not negative |
| `EcmaParseInt.MinusThenDigits` | index.js:92 | a minus sign before such text marks the result negative and leaves the text after it |
| `EcmaParseInt.ParseIntNegates` | index.js:92 | a minus sign in front of text that starts with a digit negates the value read from that text and keeps NaN as NaN |
| `EcmaParseInt.TrimStartSkipsWhiteSpace` | index.js:92 | trimming ignores any white space put in front |
| `EcmaParseInt.ParseIntSkipsWhiteSpace` | index.js:92 | leading white space does not change what `parseInt` returns |
| `EcmaParseInt.ParseIntBlank` | index.js:92 | blank input, the empty string included, is NaN |
| `EcmaParseInt.ParseIntNaN` | index.js:92 | input whose first non-blank character is neither a sign nor a decimal digit is NaN, whatever blanks come before it |
| `EcmaParseInt.ParseIntPlus` | index.js:92 | a plus sign in front of text that starts with a digit leaves the result unchanged |
| `EcmaParseInt.ParseHexExample` | index.js:92 | the prefix `0x` selects radix 16: `"0x1A"` gives 26 |
| `EcmaParseInt.ParseBareHexPrefix` | index.js:92 | `"0x"` with no digits after it is NaN |
| `UrlStore.Matches` | index.js:62 | the meaning of a `findOne` filter; a NaN `short_url` matches no document |
| `UrlStore.FindOne` | index.js:62 | a found document is in the collection and satisfies the filter; nothing is found exactly when no document satisfies it |
| `UrlStore.FindOneByShortUrl` | index.js:95 | with ids 1..N, the search by `short_url` k finds the k-th saved document, and finds nothing for k outside 1..N or for NaN |
| `UrlStore.FindOneByOriginalUrl` | index.js:62 | with distinct URLs, the search by `original_url` finds the one document holding it |
| `UrlStore.UrlCollection.constructor` | index.js:27-32 | the collection starts empty |
| `UrlStore.UrlCollection.Save` | index.js:76 | saving appends the new document after all earlier ones and changes nothing else |
| `Shortener.CreateOrFetch` | index.js:44-88 | the reply is a document, `invalid url` or the server error; a returned document holds exactly the submitted URL and is in the collection afterwards; the collection is unchanged or gains exactly `{url, count + 1}` at its end, and only when that is the reply |
| `Shortener.Shorten` | index.js:44-88 | the handler's reply and new collection are those of `CreateOrFetch`, and it keeps ids 1..N and distinct URLs |
| `Shortener.Lookup` | index.js:91-104 | the reply is a redirect, not-found or the server error; the server error exactly when the collection fails; a redirect goes to the URL of a document whose `short_url` is the parsed segment; not-found exactly when no document has that `short_url`, NaN included |
| `Shortener.RejectsInvalidUrl` | index.js:48-58 | a URL that does not parse, or whose host does not resolve, is answered with `invalid url` and nothing is saved |
| `Shortener.StoreFailureSavesNothing` | index.js:83-86 | a failing collection gives the server error and nothing is saved |
| `Shortener.FetchesExisting` | index.js:62-67 | a URL already stored is answered with its own document, and nothing is saved |
| `Shortener.CreatesNew` | index.js:71-81 | a new URL is saved as `{url, count + 1}` after all earlier documents, and that document is the reply |
| `Shortener.CreateOrFetchKeepsWellFormed` | index.js:62-76 | ids 1..N in save order and pairwise distinct URLs survive every request, whatever its outcome |
| `Shortener.Idempotent` | index.js:62-67 | in a collection with distinct URLs, submitting the same URL again, past the gate, gives the same reply and saves nothing more |
| `Sequential.IdempotentAfterReplay` | index.js:62-76 | in a collection with ids 1..N and distinct URLs, submitting a URL again after any run of other submissions gives the same reply as the first time |
| `Shortener.LookupDense` | index.js:92-99 | with ids 1..N, a lookup redirects to the k-th saved URL exactly when the segment parses to k in 1..N, and is not-found otherwise |
| `Shortener.LookupFindsStored` | index.js:92-99 | in a collection with ids 1..N, the short link of every stored document redirects to its URL |
| `Shortener.RoundTrip` | index.js:71-99 | once a POST answers with `short_url` k, a GET of the short link written with k redirects to the submitted URL |
| `Sequential.FirstSeen` | index.js:62-76 | the distinct submitted URLs: every submitted URL is in it and none twice |
| `Sequential.FirstIndex` | index.js:62-76 | the position of the first submission of a URL: it holds the URL and no earlier position does |
| `Sequential.FirstSeenOrder` | index.js:62-76 | the URLs of `FirstSeen` are in the order of their first submission |
| `Sequential.FirstSeenOfDistinct` | index.js:62-76 | when no URL is submitted twice, `FirstSeen` is the submissions themselves |
| `Sequential.Replay` | index.js:44-88 | a run of POSTs one after another, each passing the gate with the collection available: the earlier documents are kept as they were, and at most one document is added per submission |
| `Sequential.ReplayKeepsWellFormed` | index.js:62-76 | ids 1..N and distinct URLs survive any run of such submissions |
| `Sequential.StoredStaysReachable` | index.js:71-99 | in a collection with ids 1..N, a document once saved is still reached by its short link after any later run of submissions |
| `Sequential.ReplayKeepsDense` | index.js:71-76 | ids 1..N survive any run of submissions, repeated URLs included |
| `Sequential.ReplayNumbersFirstSeen` | index.js:62-76 | after submissions one at a time from an empty collection, each one passing the gate with the collection available, the i-th document is the i-th distinct URL in first-seen order with `short_url` i + 1 |
| `Sequential.ReplayNumbersDistinct` | index.js:62-76 | N distinct URLs submitted one at a time into an empty collection, each passing the gate with the collection available, get ids 1..N in submission order |
| `Sequential.UnknownIdExample` | index.js:95-98 | with ids 1..N and fewer than 999999 documents, a GET of `999999` is not-found |
| `Sequential.ExampleLookupHit` | index.js:95-99 | after the POST of `https://example.com` into an empty collection, a GET of `1` redirects to it |
| `Sequential.ExampleLookupText` | index.js:92-98 | a GET of `abc` is not-found, in any collection |

## Left out

- Express setup, middleware, CORS, body parsing, static files, the `/` and `/api/hello` routes and `app.listen` (index.js:1-17, 35-41, 106-108): framework plumbing.
- The MongoDB connection (index.js:19-24). `findOne`, `countDocuments` and `save` act on an in-memory sequence. `FindOne` promises some matching document and no particular one, since `findOne` without a sort promises no order.
- Mongoose casts query values against the schema, and its Number cast refuses NaN. Such a query would fail and reach the catch branch (index.js:100-103) with the server error. The model does not include Mongoose's casting: NaN is a filter value that matches no document, so `Lookup` answers not-found.
- `new URL` (the WHATWG URL parser) and `dns.lookup` (index.js:49, 55) are foreign calls. Their answers are the inputs `urlParses` and `hostResolves`. A missing `url` field makes `new URL` throw, which is `urlParses` being false.
- A `url` value that is not a string, which the JSON body parser can produce, is outside the model. `Shorten` takes a string. A one-element array, for instance, passes `new URL` and reaches Mongoose as an array, where the outcome depends on Mongoose's casting.
- Store failures are one input per request (`storeAvailable`). The model does not say which of `findOne`, `countDocuments` or `save` failed: all three reach the same catch branch, and the model assumes a failed `save` stores nothing.
- Concurrency: the count-then-save sequence (index.js:71-76) is not atomic. Two concurrent submissions of new URLs can read the same count and save the same `short_url`. Every statement here is about requests handled one at a time.
- HTTP status codes, JSON shaping and `console.error` logging (index.js:84-85, 101-102). The constructors of `Response` stand for the replies.
- ParseInt: the result is the exact integer. The rounding to a JavaScript Number above 2^53 is not modelled, nor the approximation ECMA-262 allows for more than 20 significant digits, nor the sign of zero (`"-0"` gives 0).
- DecimalString: every integer is written in plain digits. JavaScript switches to exponent form from 10^21 on, which the model does not produce.
- Express decodes the path segment before the handler sees it. `Lookup` takes the decoded segment.
