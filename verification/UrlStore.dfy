/**
 * The `urls` collection behind the Mongoose model `Url`: documents
 * `{original_url, short_url}`, read with `findOne` and `countDocuments` and
 * extended with `save`. Nothing in the application updates or deletes a
 * document, so the collection only grows.
 */
module UrlStore {
  import opened Wrappers

  /** One document of the collection: the schema `{original_url: String, short_url: Number}`. */
  datatype Mapping = Mapping(originalUrl: string, shortUrl: int)

  /**
   * The two query filters the handlers pass to `findOne`. A `short_url`
   * of `None` is NaN, which is equal to no number.
   */
  datatype Filter = ByOriginalUrl(url: string) | ByShortUrl(id: Option<int>)

  /** The meaning of a filter; NaN is equal to no `short_url`, so it matches nothing. */
  predicate Matches(m: Mapping, f: Filter): (b: bool)
    ensures f == ByShortUrl(None) ==> !b
  {
    match f
    case ByOriginalUrl(url) => m.originalUrl == url
    case ByShortUrl(id) => id == Some(m.shortUrl)
  }

  /** `findOne(filter)`: some document that satisfies the filter, or none when no document does. */
  function FindOne(docs: seq<Mapping>, f: Filter): (r: Option<Mapping>)
    ensures r.Some? ==> r.value in docs && Matches(r.value, f)
    ensures r.None? <==> forall i :: 0 <= i < |docs| ==> !Matches(docs[i], f)
  {
    if docs == [] then None
    else if Matches(docs[0], f) then Some(docs[0])
    else FindOne(docs[1..], f)
  }

  /** The `short_url`s are 1, 2, ..., N in the order the documents were saved. */
  ghost predicate DenseIds(docs: seq<Mapping>) {
    forall i :: 0 <= i < |docs| ==> docs[i].shortUrl == i + 1
  }

  /** No two documents hold the same `original_url`. */
  ghost predicate DistinctUrls(docs: seq<Mapping>) {
    forall i, j :: 0 <= i < j < |docs| ==> docs[i].originalUrl != docs[j].originalUrl
  }

  ghost predicate WellFormed(docs: seq<Mapping>) {
    DenseIds(docs) && DistinctUrls(docs)
  }

  /** With dense ids, `findOne({short_url: k})` finds the k-th saved document, and nothing for NaN or outside 1..N. */
  lemma FindOneByShortUrl(docs: seq<Mapping>, id: Option<int>)
    requires DenseIds(docs)
    ensures FindOne(docs, ByShortUrl(id)) ==
      if id.Some? && 1 <= id.value <= |docs| then Some(docs[id.value - 1]) else None
  {
    var r := FindOne(docs, ByShortUrl(id));
    if id.Some? && 1 <= id.value <= |docs| {
      assert Matches(docs[id.value - 1], ByShortUrl(id));
      var j :| 0 <= j < |docs| && docs[j] == r.value;
    } else {
      forall i | 0 <= i < |docs| ensures !Matches(docs[i], ByShortUrl(id)) {
      }
    }
  }

  /** With distinct URLs, `findOne({original_url: u})` finds the one document holding u. */
  lemma FindOneByOriginalUrl(docs: seq<Mapping>, i: int)
    requires DistinctUrls(docs) && 0 <= i < |docs|
    ensures FindOne(docs, ByOriginalUrl(docs[i].originalUrl)) == Some(docs[i])
  {
    var f := ByOriginalUrl(docs[i].originalUrl);
    assert Matches(docs[i], f);
    var r := FindOne(docs, f);
    var j :| 0 <= j < |docs| && docs[j] == r.value;
    assert j == i;
  }

  /** The collection itself, shared by all requests. Its only write is `save`, which appends. */
  class UrlCollection {
    var docs: seq<Mapping>

    /** A collection with no documents yet. */
    constructor ()
      ensures docs == []
    {
      docs := [];
    }

    /** `save()` of a new document: it goes after every document already there. */
    method Save(m: Mapping)
      modifies this
      ensures docs == old(docs) + [m]
    {
      docs := docs + [m];
    }
  }
}
