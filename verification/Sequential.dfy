/**
 * Many submissions handled one after another, each request finishing
 * before the next one starts.
 */
module Sequential {
  import opened UrlStore
  import opened Shortener
  import opened EcmaParseInt

  const AllAccept := Environment(true, true, true)

  /** The collection after `urls` are submitted in order, every one accepted by the validity gate. */
  function Replay(docs: seq<Mapping>, urls: seq<string>): (r: seq<Mapping>)
    ensures |docs| <= |r| <= |docs| + |urls|
    ensures r[..|docs|] == docs
  {
    if urls == [] then docs
    else CreateOrFetch(Replay(docs, urls[..|urls| - 1]), urls[|urls| - 1], AllAccept).docs
  }

  /** The distinct URLs of `urls`, each at the place of its first occurrence. */
  function FirstSeen(urls: seq<string>): (r: seq<string>)
    ensures forall u :: u in r <==> u in urls
    ensures forall i, j :: 0 <= i < j < |r| ==> r[i] != r[j]
  {
    if urls == [] then []
    else
      var init := urls[..|urls| - 1];
      var u := urls[|urls| - 1];
      assert urls == init + [u];
      var prev := FirstSeen(init);
      if u in prev then prev else prev + [u]
  }

  /**
   * Starting from an empty collection, the i-th document is the i-th
   * distinct URL in order of first submission, with `short_url` i + 1.
   */
  lemma {:induction false} ReplayNumbersFirstSeen(urls: seq<string>)
    ensures var d := Replay([], urls); var f := FirstSeen(urls);
      |d| == |f| && forall i :: 0 <= i < |d| ==> d[i] == Mapping(f[i], i + 1)
  {
    if urls != [] {
      var init := urls[..|urls| - 1];
      var u := urls[|urls| - 1];
      ReplayNumbersFirstSeen(init);
      var d := Replay([], init);
      var f := FirstSeen(init);
      if u in f {
        var j :| 0 <= j < |f| && f[j] == u;
        assert Matches(d[j], ByOriginalUrl(u));
      } else {
        assert forall i :: 0 <= i < |d| ==> !Matches(d[i], ByOriginalUrl(u));
      }
    }
  }

  /** An id beyond the number of documents is not found: parseInt("999999") is 999999. */
  lemma UnknownIdExample(docs: seq<Mapping>)
    requires DenseIds(docs) && |docs| < 999999
    ensures Lookup(docs, "999999", true) == NoShortUrl
  {
    assert DecimalString(9) == "9";
    assert DecimalString(99) == "99";
    assert DecimalString(999) == "999";
    assert DecimalString(9999) == "9999";
    assert DecimalString(99999) == "99999";
    assert DecimalString(999999) == "999999";
    ParseDecimal(999999);
    LookupDense(docs, "999999");
  }

  /** The position of the first submission of `u`. */
  function FirstIndex(urls: seq<string>, u: string): (k: nat)
    requires u in urls
    ensures k < |urls| && urls[k] == u
    ensures forall j :: 0 <= j < k ==> urls[j] != u
  {
    if urls[0] == u then 0 else 1 + FirstIndex(urls[1..], u)
  }

  /** Adding a submission at the end does not move the first submission of an earlier URL. */
  lemma FirstIndexExtend(init: seq<string>, u: string, x: string)
    requires x in init
    ensures FirstIndex(init + [u], x) == FirstIndex(init, x)
  {
    var urls := init + [u];
    var k1 := FirstIndex(urls, x);
    var k2 := FirstIndex(init, x);
    assert urls[k2] == x;
    assert k1 <= k2;
    assert init[k1] == x;
  }

  /** Every URL of `r` was submitted, and `r` lists them in the order of their first submission. */
  ghost predicate InSubmissionOrder(r: seq<string>, urls: seq<string>)
  {
    && (forall x :: x in r ==> x in urls)
    && (forall i, j :: 0 <= i < j < |r| ==> FirstIndex(urls, r[i]) < FirstIndex(urls, r[j]))
  }

  /** `FirstSeen` lists the distinct URLs in the order of their first submission. */
  lemma {:induction false} FirstSeenOrder(urls: seq<string>)
    ensures InSubmissionOrder(FirstSeen(urls), urls)
  {
    if urls != [] {
      var init := urls[..|urls| - 1];
      var u := urls[|urls| - 1];
      assert urls == init + [u];
      FirstSeenOrder(init);
      var prev := FirstSeen(init);
      assert InSubmissionOrder(prev, init);
      var r := FirstSeen(urls);
      assert r == if u in prev then prev else prev + [u];
      forall i, j | 0 <= i < j < |r|
        ensures FirstIndex(urls, r[i]) < FirstIndex(urls, r[j])
      {
        assert r[i] == prev[i];
        FirstIndexExtend(init, u, prev[i]);
        if j < |prev| {
          assert r[j] == prev[j];
          FirstIndexExtend(init, u, prev[j]);
          assert FirstIndex(init, prev[i]) < FirstIndex(init, prev[j]);
        } else {
          assert r[j] == u && u !in init;
          assert FirstIndex(urls, u) == |init|;
        }
      }
    }
  }

  /** When no URL is submitted twice, the distinct URLs are the submissions themselves. */
  lemma {:induction false} FirstSeenOfDistinct(urls: seq<string>)
    requires forall i, j :: 0 <= i < j < |urls| ==> urls[i] != urls[j]
    ensures FirstSeen(urls) == urls
  {
    if urls != [] {
      var init := urls[..|urls| - 1];
      var u := urls[|urls| - 1];
      assert urls == init + [u];
      FirstSeenOfDistinct(init);
      assert u !in init;
    }
  }

  /**
   * N distinct URLs submitted one after another into an empty collection
   * get the ids 1..N in submission order.
   */
  lemma ReplayNumbersDistinct(urls: seq<string>)
    requires forall i, j :: 0 <= i < j < |urls| ==> urls[i] != urls[j]
    ensures |Replay([], urls)| == |urls|
    ensures forall i :: 0 <= i < |urls| ==> Replay([], urls)[i] == Mapping(urls[i], i + 1)
  {
    ReplayNumbersFirstSeen(urls);
    FirstSeenOfDistinct(urls);
  }

  /**
   * A document, once saved, is still reachable after any later run of
   * submissions: its short link redirects to its URL.
   */
  lemma StoredStaysReachable(docs: seq<Mapping>, urls: seq<string>, i: int)
    requires DenseIds(docs) && 0 <= i < |docs|
    ensures Lookup(Replay(docs, urls), DecimalString(i + 1), true) == RedirectTo(docs[i].originalUrl)
  {
    ReplayKeepsDense(docs, urls);
    var r := Replay(docs, urls);
    assert r[i] == r[..|docs|][i];
    LookupFindsStored(r, i);
  }

  /** Ids 1..N survive any run of submissions, whether or not the URLs repeat. */
  lemma {:induction false} ReplayKeepsDense(docs: seq<Mapping>, urls: seq<string>)
    requires DenseIds(docs)
    ensures DenseIds(Replay(docs, urls))
  {
    if urls != [] {
      ReplayKeepsDense(docs, urls[..|urls| - 1]);
      var prev := Replay(docs, urls[..|urls| - 1]);
      var next := CreateOrFetch(prev, urls[|urls| - 1], AllAccept).docs;
      assert next == prev || next == prev + [Mapping(urls[|urls| - 1], |prev| + 1)];
    }
  }

  /**
   * Submitting a URL again after any run of other submissions gives the
   * same reply as the first time.
   */
  lemma IdempotentAfterReplay(docs: seq<Mapping>, url: string, urls: seq<string>)
    requires WellFormed(docs)
    ensures var first := CreateOrFetch(docs, url, AllAccept);
      CreateOrFetch(Replay(first.docs, urls), url, AllAccept).response == first.response
  {
    var first := CreateOrFetch(docs, url, AllAccept);
    CreateOrFetchKeepsWellFormed(docs, url, AllAccept);
    var m := first.response.mapping;
    var i :| 0 <= i < |first.docs| && first.docs[i] == m;
    var r := Replay(first.docs, urls);
    ReplayKeepsWellFormed(first.docs, urls);
    assert r[i] == r[..|first.docs|][i];
    FetchesExisting(r, url, AllAccept, i);
  }

  lemma {:induction false} ReplayKeepsWellFormed(docs: seq<Mapping>, urls: seq<string>)
    requires WellFormed(docs)
    ensures WellFormed(Replay(docs, urls))
  {
    if urls != [] {
      ReplayKeepsWellFormed(docs, urls[..|urls| - 1]);
      CreateOrFetchKeepsWellFormed(Replay(docs, urls[..|urls| - 1]), urls[|urls| - 1], AllAccept);
    }
  }

  /** In the collection the session below builds, a GET of `1` redirects to the stored URL. */
  lemma ExampleLookupHit(docs: seq<Mapping>)
    requires docs == [Mapping("https://example.com", 1)]
    ensures Lookup(docs, "1", true) == RedirectTo("https://example.com")
  {
    LookupFindsStored(docs, 0);
    var link := DecimalString(1);
    assert link == "1";
  }

  /** A GET of `abc` is not found: parseInt gives NaN, which matches no document. */
  lemma ExampleLookupText(docs: seq<Mapping>)
    ensures Lookup(docs, "abc", true) == NoShortUrl
  {
    assert [] + "abc" == "abc";
    ParseIntNaN([], "abc");
  }

  /**
   * The concrete session: two POSTs of one URL give the same reply, a URL
   * that does not parse is refused, and a GET of its id redirects.
   */
  method ExampleSession()
  {
    var store := new UrlCollection();
    var url := "https://example.com";
    var r1 := Shorten(store, url, AllAccept);
    assert r1 == UrlJson(Mapping(url, 1));
    var r2 := Shorten(store, url, AllAccept);
    assert r2 == r1;
    var r3 := Shorten(store, "not-a-url", Environment(false, false, true));
    assert r3 == InvalidUrl && store.docs == [Mapping(url, 1)];
    ExampleLookupHit(store.docs);
    assert Lookup(store.docs, "1", true) == RedirectTo(url);
  }
}
