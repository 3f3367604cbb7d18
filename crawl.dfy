/**
 * The crawl step the e-mail and the phone plugin share: the stored
 * endpoints newest first, at most fifty of them, each turned back into
 * a Wayback timestamp and handed to an extractor.
 */
module Crawl {
  import opened PyStr
  import opened Sorting
  import opened Wayback
  import opened Reconcile

  /** `MAX_URLS`: at most this many archived pages are crawled. */
  const MAX_URLS: nat := 50

  /** `sorted(..., key=snapshot, reverse=True)`: `a` may precede `b` when its snapshot is not smaller. */
  predicate SnapshotDesc(a: EndpointRow, b: EndpointRow) {
    Le(b.snapshot, a.snapshot)
  }

  lemma SnapshotDescPreorder()
    ensures TotalPreorder(SnapshotDesc)
  {
    forall a: EndpointRow, b: EndpointRow ensures SnapshotDesc(a, b) || SnapshotDesc(b, a) {
      LeFacts(a.snapshot, b.snapshot, b.snapshot);
    }
    forall a: EndpointRow, b: EndpointRow, c: EndpointRow | SnapshotDesc(a, b) && SnapshotDesc(b, c)
      ensures SnapshotDesc(a, c)
    {
      LeFacts(c.snapshot, b.snapshot, a.snapshot);
    }
  }

  /** `_get_endpoints`: the stored endpoints, newest snapshot first; equal snapshots keep their order. */
  function NewestFirst(eps: seq<EndpointRow>): (r: seq<EndpointRow>)
    ensures SortedBy(r, SnapshotDesc)
    ensures multiset(r) == multiset(eps) && |r| == |eps|
    ensures forall e :: TiesOf(r, SnapshotDesc, e) == TiesOf(eps, SnapshotDesc, e)
  {
    SnapshotDescPreorder();
    SortBy(eps, SnapshotDesc)
  }

  /**
   * `snapshot.replace("-", "") + "000000"`: a stored snapshot date as a
   * Wayback timestamp at midnight. No dash is left before the six zeros,
   * and a snapshot without dashes is kept as it is.
   */
  function WaybackTimestamp(snapshot: string): (ts: string)
    ensures |ts| >= 6 && ts[|ts| - 6..] == "000000" && |ts| <= |snapshot| + 6
    ensures !HasChar(ts[..|ts| - 6], '-')
    ensures !HasChar(snapshot, '-') ==> ts == snapshot + "000000"
  {
    var d := RemoveAll(snapshot, "-");
    RemoveCharGone(snapshot, '-');
    DashFreeKept(snapshot);
    assert (d + "000000")[..|d|] == d;
    d + "000000"
  }

  lemma DashFreeKept(snapshot: string)
    ensures !HasChar(snapshot, '-') ==> RemoveAll(snapshot, "-") == snapshot
  {
    if !HasChar(snapshot, '-') {
      RemoveAllAbsent(snapshot, "-");
    }
  }

  /** An archived page to fetch: Wayback timestamp and URL. */
  datatype Target = Target(timestamp: string, url: string)

  /** `self._get_endpoints(domain)[:MAX_URLS]`, as timestamps and URLs. */
  function Targets(eps: seq<EndpointRow>): (ts: seq<Target>)
    ensures |ts| == if |eps| < MAX_URLS then |eps| else MAX_URLS
    ensures forall i :: 0 <= i < |ts| ==>
              ts[i] == Target(WaybackTimestamp(NewestFirst(eps)[i].snapshot), NewestFirst(eps)[i].url)
  {
    var sorted := NewestFirst(eps);
    var n := if |sorted| < MAX_URLS then |sorted| else MAX_URLS;
    seq(n, i requires 0 <= i < n => Target(WaybackTimestamp(sorted[i].snapshot), sorted[i].url))
  }

  /** The crawled endpoints are the newest: none left out has a later snapshot than one taken. */
  lemma TargetsAreNewest(eps: seq<EndpointRow>, i: int, j: int)
    requires 0 <= i < |Targets(eps)| <= j < |eps|
    ensures Le(NewestFirst(eps)[j].snapshot, NewestFirst(eps)[i].snapshot)
  {
    assert SnapshotDesc(NewestFirst(eps)[i], NewestFirst(eps)[j]);
  }

  /** A snapshot date written by the endpoint lookup turns back into its day's Wayback timestamp at midnight. */
  lemma TimestampRoundTrip(ts: string)
    requires |ts| >= 8 && !HasChar(ts[..8], '-')
    ensures WaybackTimestamp(SnapshotIso(ts)) == ts[..8] + "000000"
  {
    var d := ts[..8];
    assert SnapshotIso(ts) == FormatSourceDate(d);
    FormattedDateDigits(d);
  }

  /** The rows the extractor returns for each target, in crawl order. */
  function CrawlRows(targets: seq<Target>, extract: Target -> seq<ContactRow>): seq<ContactRow> {
    if targets == [] then []
    else CrawlRows(targets[..|targets| - 1], extract) + extract(targets[|targets| - 1])
  }

  /** The crawl loop: `all_entries.extend(extract(ts, url))` for each target. */
  method CollectCrawl(eps: seq<EndpointRow>, extract: Target -> seq<ContactRow>) returns (all: seq<ContactRow>)
    ensures all == CrawlRows(Targets(eps), extract)
  {
    var targets := Targets(eps);
    all := [];
    var i := 0;
    while i < |targets|
      invariant 0 <= i <= |targets|
      invariant all == CrawlRows(targets[..i], extract)
    {
      assert targets[..i + 1][..i] == targets[..i];
      all := all + extract(targets[i]);
      i := i + 1;
    }
    assert targets[..i] == targets;
  }

  /** Each crawled row is one the extractor returned for one of the targets. */
  lemma {:induction false} CrawlRowsFrom(targets: seq<Target>, extract: Target -> seq<ContactRow>, r: ContactRow)
    requires r in CrawlRows(targets, extract)
    ensures exists i :: 0 <= i < |targets| && r in extract(targets[i])
    decreases |targets|
  {
    var init := targets[..|targets| - 1];
    var last := targets[|targets| - 1];
    if r in extract(last) {
      assert targets[|targets| - 1] == last;
    } else {
      CrawlRowsFrom(init, extract, r);
      var i :| 0 <= i < |init| && r in extract(init[i]);
      assert targets[i] == init[i];
    }
  }
}
