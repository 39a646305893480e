/**
 * The two request handlers of the URL shortener: create-or-fetch
 * (`POST /api/shorturl`) and lookup (`GET /api/shorturl/:short_url`).
 */
module Shortener {
  import opened Wrappers
  import opened UrlStore
  import opened EcmaParseInt

  /**
   * What the collaborators outside the model answer during one POST request:
   * whether `new URL(url)` accepts the string, whether `dns.lookup` resolves
   * its host, and whether the collection answers the calls the handler makes.
   */
  datatype Environment = Environment(urlParses: bool, hostResolves: bool, storeAvailable: bool)

  /** The replies the two handlers send. */
  datatype Response =
    | UrlJson(mapping: Mapping)  // {original_url, short_url}
    | RedirectTo(url: string)    // an HTTP redirect to url
    | InvalidUrl                 // {error: 'invalid url'}
    | NoShortUrl                 // {error: 'No short URL found for the given input'}
    | ServerError                // status 500, {error: 'server error'}

  /** The reply to one request together with the collection after it. */
  datatype Exchange = Exchange(response: Response, docs: seq<Mapping>)

  predicate Accepts(env: Environment) {
    env.urlParses && env.hostResolves && env.storeAvailable
  }

  /**
   * Create-or-fetch, one request at a time: reject a URL that does not parse
   * or whose host does not resolve; otherwise answer with the document that
   * already holds the URL, or save a new one numbered after the count.
   */
  function CreateOrFetch(docs: seq<Mapping>, url: string, env: Environment): (r: Exchange)
    ensures r.response.UrlJson? || r.response == InvalidUrl || r.response == ServerError
    ensures r.response.UrlJson? ==> r.response.mapping.originalUrl == url
    ensures r.response.UrlJson? ==> r.response.mapping in r.docs
    ensures r.docs == docs || r.docs == docs + [Mapping(url, |docs| + 1)]
    ensures r.docs != docs ==> r.response == UrlJson(Mapping(url, |docs| + 1))
  {
    if !env.urlParses || !env.hostResolves then Exchange(InvalidUrl, docs)
    else if !env.storeAvailable then Exchange(ServerError, docs)
    else match FindOne(docs, ByOriginalUrl(url))
      case Some(existing) => Exchange(UrlJson(existing), docs)
      case None =>
        var m := Mapping(url, |docs| + 1);
        Exchange(UrlJson(m), docs + [m])
  }

  /**
   * The POST handler, step by step on the shared collection: the validity
   * gate, `findOne` by URL, `countDocuments`, then `save` of the new document.
   */
  method Shorten(store: UrlCollection, url: string, env: Environment) returns (response: Response)
    modifies store
    ensures Exchange(response, store.docs) == CreateOrFetch(old(store.docs), url, env)
    ensures old(WellFormed(store.docs)) ==> WellFormed(store.docs)
  {
    if !env.urlParses {
      return InvalidUrl;
    }
    if !env.hostResolves {
      return InvalidUrl;
    }
    if !env.storeAvailable {
      return ServerError;
    }
    var existing := FindOne(store.docs, ByOriginalUrl(url));
    if existing.Some? {
      return UrlJson(existing.value);
    }
    var count := |store.docs|;
    var newUrl := Mapping(url, count + 1);
    store.Save(newUrl);
    response := UrlJson(newUrl);
    if old(WellFormed(store.docs)) {
      CreateOrFetchKeepsWellFormed(old(store.docs), url, env);
    }
  }

  /**
   * The GET handler: `parseInt` of the path segment, then `findOne` by
   * `short_url`; a redirect to the stored URL, or the not-found reply.
   * It only reads the collection.
   */
  function Lookup(docs: seq<Mapping>, segment: string, storeAvailable: bool): (r: Response)
    ensures r.RedirectTo? || r == NoShortUrl || r == ServerError
    ensures r == ServerError <==> !storeAvailable
    ensures r.RedirectTo? ==> ParseInt(segment).Some? && Mapping(r.url, ParseInt(segment).value) in docs
    ensures r == NoShortUrl <==>
      storeAvailable && forall i :: 0 <= i < |docs| ==> ParseInt(segment) != Some(docs[i].shortUrl)
  {
    var shortUrl := ParseInt(segment);
    if !storeAvailable then ServerError
    else match FindOne(docs, ByShortUrl(shortUrl))
      case None => NoShortUrl
      case Some(found) => RedirectTo(found.originalUrl)
  }

  /** A URL that does not parse, or whose host does not resolve, is refused and nothing is saved. */
  lemma RejectsInvalidUrl(docs: seq<Mapping>, url: string, env: Environment)
    requires !env.urlParses || !env.hostResolves
    ensures CreateOrFetch(docs, url, env) == Exchange(InvalidUrl, docs)
  {
  }

  /** A failing collection gives the server error and nothing is saved. */
  lemma StoreFailureSavesNothing(docs: seq<Mapping>, url: string, env: Environment)
    requires env.urlParses && env.hostResolves && !env.storeAvailable
    ensures CreateOrFetch(docs, url, env) == Exchange(ServerError, docs)
  {
  }

  /** A URL already stored is answered with its own document, and nothing is saved. */
  lemma FetchesExisting(docs: seq<Mapping>, url: string, env: Environment, i: int)
    requires Accepts(env) && DistinctUrls(docs)
    requires 0 <= i < |docs| && docs[i].originalUrl == url
    ensures CreateOrFetch(docs, url, env) == Exchange(UrlJson(docs[i]), docs)
  {
    FindOneByOriginalUrl(docs, i);
  }

  /** A new URL gets `short_url` count + 1, appended after every earlier document. */
  lemma CreatesNew(docs: seq<Mapping>, url: string, env: Environment)
    requires Accepts(env)
    requires forall i :: 0 <= i < |docs| ==> docs[i].originalUrl != url
    ensures var m := Mapping(url, |docs| + 1);
      CreateOrFetch(docs, url, env) == Exchange(UrlJson(m), docs + [m])
  {
    assert FindOne(docs, ByOriginalUrl(url)).None?;
  }

  /** Dense ids and distinct URLs survive every request, whatever its outcome. */
  lemma CreateOrFetchKeepsWellFormed(docs: seq<Mapping>, url: string, env: Environment)
    requires WellFormed(docs)
    ensures WellFormed(CreateOrFetch(docs, url, env).docs)
  {
    var after := CreateOrFetch(docs, url, env).docs;
    if after != docs {
      assert FindOne(docs, ByOriginalUrl(url)).None?;
      assert forall i :: 0 <= i < |docs| ==> docs[i].originalUrl != url;
    }
  }

  /** Submitting the same URL again gives the same reply and saves nothing more. */
  lemma Idempotent(docs: seq<Mapping>, url: string, env: Environment)
    requires Accepts(env) && DistinctUrls(docs)
    ensures var first := CreateOrFetch(docs, url, env);
      CreateOrFetch(first.docs, url, env) == first
  {
    var first := CreateOrFetch(docs, url, env);
    if first.docs != docs {
      var m := Mapping(url, |docs| + 1);
      assert forall i :: 0 <= i < |docs| ==> !Matches(docs[i], ByOriginalUrl(url));
      assert Matches(first.docs[|docs|], ByOriginalUrl(url));
      var again := FindOne(first.docs, ByOriginalUrl(url));
      var j :| 0 <= j < |first.docs| && first.docs[j] == again.value;
      assert j == |docs|;
    }
  }

  /** With dense ids, a lookup redirects exactly when the segment parses to an id in 1..N. */
  lemma LookupDense(docs: seq<Mapping>, segment: string)
    requires DenseIds(docs)
    ensures Lookup(docs, segment, true) ==
      if ParseInt(segment).Some? && 1 <= ParseInt(segment).value <= |docs|
      then RedirectTo(docs[ParseInt(segment).value - 1].originalUrl)
      else NoShortUrl
  {
    FindOneByShortUrl(docs, ParseInt(segment));
  }

  /**
   * Every stored document stays reachable: a GET of the short link written
   * with its `short_url` redirects to its `original_url`.
   */
  lemma LookupFindsStored(docs: seq<Mapping>, i: int)
    requires DenseIds(docs) && 0 <= i < |docs|
    ensures Lookup(docs, DecimalString(i + 1), true) == RedirectTo(docs[i].originalUrl)
  {
    ParseDecimal(i + 1);
    LookupDense(docs, DecimalString(i + 1));
  }

  /**
   * Round trip: once a POST answers with `short_url` k, a GET of the short
   * link written with k redirects to the submitted URL.
   */
  lemma RoundTrip(docs: seq<Mapping>, url: string, env: Environment, k: nat)
    requires WellFormed(docs)
    requires CreateOrFetch(docs, url, env).response.UrlJson?
    requires CreateOrFetch(docs, url, env).response.mapping.shortUrl == k
    ensures Lookup(CreateOrFetch(docs, url, env).docs, DecimalString(k), true) == RedirectTo(url)
  {
    var ex := CreateOrFetch(docs, url, env);
    CreateOrFetchKeepsWellFormed(docs, url, env);
    var j :| 0 <= j < |ex.docs| && ex.docs[j] == ex.response.mapping;
    assert k == j + 1 && ex.docs[j].originalUrl == url;
    LookupFindsStored(ex.docs, j);
  }
}
