/**
 * The endpoint three-way merge of the Wayback lookup: paths from the CDX
 * snapshot list, from archived robots.txt files and from archived
 * sitemap.xml files are keyed, deduplicated per source, merged keeping
 * the newest snapshot per key, and ordered with the domain root first.
 *
 * The fetched data are inputs: the CDX hits with the path `urlparse` found
 * in each URL, the `Disallow`/`Allow` matches of each robots.txt snapshot,
 * and the `<loc>` texts and paths of each sitemap snapshot.
 */
module Wayback {
  import opened Wrappers
  import opened PyStr
  import opened Dicts
  import opened Sorting
  import opened Config

  /** Static-file suffixes CDX paths must not end in (compared lower-cased). */
  const EXCLUDE_SUFFIXES: seq<string> := [".js", ".css", ".jpg", ".jpeg", ".png", ".gif", ".svg", ".ico"]

  /** A row of the endpoint table: URL, snapshot date (`YYYY-MM-DD`), scan date. */
  datatype EndpointRow = EndpointRow(url: string, snapshot: string, scanned: string)

  /** One CDX snapshot: its timestamp, the original URL and the path of that URL. */
  datatype CdxHit = CdxHit(timestamp: string, original: string, path: string)

  /** A robots.txt snapshot and the paths of its rules; `None` when fetching it failed. */
  datatype RobotsSnapshot = RobotsSnapshot(timestamp: string, matches: Option<seq<string>>)

  /** A sitemap `<loc>`: its text and the path of the URL it holds. */
  datatype SitemapLoc = SitemapLoc(text: string, path: string)

  /** A sitemap.xml snapshot and its locations; `None` when fetching or parsing failed. */
  datatype SitemapSnapshot = SitemapSnapshot(timestamp: string, locs: Option<seq<SitemapLoc>>)

  /** What one inner iteration of an extractor looks at: whether it is skipped, its key, its row. */
  datatype Candidate = Candidate(usable: bool, key: string, row: EndpointRow)

  /** `f"{ts[:4]}-{ts[4:6]}-{ts[6:8]}"` */
  function SnapshotIso(ts: string): (r: string)
    ensures |ts| >= 8 ==> r == ts[..4] + "-" + ts[4..6] + "-" + ts[6..8]
  {
    Slice(ts, 0, 4) + "-" + Slice(ts, 4, 6) + "-" + Slice(ts, 6, 8)
  }

  // ---------------------------------------------------------------------
  // CDX: the newest snapshot per path
  // ---------------------------------------------------------------------

  /** A CDX path is skipped when it is empty, names a static file, or is itself an archive path. */
  predicate CdxSkipped(pathNorm: string) {
    pathNorm == [] || EndsWithAny(Lower(pathNorm), EXCLUDE_SUFFIXES) || Contains(pathNorm, "/web/")
  }

  function CdxCandidate(h: CdxHit, today: string): (c: Candidate)
    ensures c.usable <==> !CdxSkipped(RStripChar(h.path, '/'))
    ensures c.key == Lower(RStripChar(h.path, '/'))
    ensures c.row == EndpointRow(h.original, SnapshotIso(h.timestamp), today)
  {
    var pathNorm := RStripChar(h.path, '/');
    Candidate(!CdxSkipped(pathNorm), Lower(pathNorm), EndpointRow(h.original, SnapshotIso(h.timestamp), today))
  }

  function CdxCandidates(hits: seq<CdxHit>, today: string): (cs: seq<Candidate>)
    ensures |cs| == |hits| && forall i :: 0 <= i < |hits| ==> cs[i] == CdxCandidate(hits[i], today)
  {
    seq(|hits|, i requires 0 <= i < |hits| => CdxCandidate(hits[i], today))
  }

  /** One pass of the CDX loop: a new key, or a strictly later snapshot string, takes the slot. */
  function CdxStep(seen: Dict<string, EndpointRow>, c: Candidate): (d: Dict<string, EndpointRow>)
    ensures seen.Valid() ==> d.Valid()
  {
    if !c.usable then seen
    else if c.key !in seen.items || Lt(seen.items[c.key].snapshot, c.row.snapshot) then seen.Set(c.key, c.row)
    else seen
  }

  /** The `seen` dict after the CDX loop has seen `cs`. */
  function CdxFold(cs: seq<Candidate>): (d: Dict<string, EndpointRow>)
    ensures d.Valid()
  {
    if cs == [] then Empty() else CdxStep(CdxFold(cs[..|cs| - 1]), cs[|cs| - 1])
  }

  /** Candidate `i` holds the newest snapshot of its key, and is the first one that does. */
  ghost predicate NewestFor(cs: seq<Candidate>, i: int) {
    && 0 <= i < |cs| && cs[i].usable
    && (forall j :: 0 <= j < |cs| && cs[j].usable && cs[j].key == cs[i].key ==> Le(cs[j].row.snapshot, cs[i].row.snapshot))
    && (forall j :: 0 <= j < i && cs[j].usable && cs[j].key == cs[i].key ==> Lt(cs[j].row.snapshot, cs[i].row.snapshot))
  }

  /** The keys a fold can end up with: those of the usable candidates. */
  ghost predicate HasUsable(cs: seq<Candidate>, k: string) {
    exists i :: 0 <= i < |cs| && cs[i].usable && cs[i].key == k
  }

  lemma HasUsableExtend(cs: seq<Candidate>, c: Candidate, k: string)
    ensures HasUsable(cs + [c], k) <==> HasUsable(cs, k) || (c.usable && c.key == k)
  {
    var all := cs + [c];
    assert forall j :: 0 <= j < |cs| ==> all[j] == cs[j];
    if HasUsable(all, k) && !(c.usable && c.key == k) {
      var i :| 0 <= i < |all| && all[i].usable && all[i].key == k;
      assert i < |cs|;
    }
    if HasUsable(cs, k) {
      var i :| 0 <= i < |cs| && cs[i].usable && cs[i].key == k;
      assert all[i] == cs[i];
    }
    if c.usable && c.key == k { assert all[|cs|] == c; }
  }

  lemma NewestExtend(cs: seq<Candidate>, i: int, c: Candidate)
    requires NewestFor(cs, i)
    requires c.usable && c.key == cs[i].key ==> Le(c.row.snapshot, cs[i].row.snapshot)
    ensures NewestFor(cs + [c], i)
  {
    var all := cs + [c];
    assert forall j :: 0 <= j < |cs| ==> all[j] == cs[j];
  }

  lemma NewestFirst(cs: seq<Candidate>, c: Candidate)
    requires c.usable && !HasUsable(cs, c.key)
    ensures NewestFor(cs + [c], |cs|)
  {
    var all := cs + [c];
    assert forall j :: 0 <= j < |cs| ==> all[j] == cs[j];
    LeFacts(c.row.snapshot, c.row.snapshot, c.row.snapshot);
    assert forall j :: 0 <= j < |cs| ==> !(cs[j].usable && cs[j].key == c.key);
  }

  lemma NewestNewer(cs: seq<Candidate>, i: int, c: Candidate)
    requires NewestFor(cs, i)
    requires c.usable && c.key == cs[i].key && Lt(cs[i].row.snapshot, c.row.snapshot)
    ensures NewestFor(cs + [c], |cs|)
  {
    var all := cs + [c];
    var top := cs[i].row.snapshot;
    var s := c.row.snapshot;
    LtAsymmetric(top, s);
    LeFacts(s, s, s);
    forall j | 0 <= j < |all| && all[j].usable && all[j].key == c.key
      ensures Le(all[j].row.snapshot, s)
      ensures j < |cs| ==> Lt(all[j].row.snapshot, s)
    {
      if j < |cs| {
        assert all[j] == cs[j];
        var sj := cs[j].row.snapshot;
        assert Le(sj, top);
        LtTotal(sj, top);
        if sj != top { LtTransitive(sj, top, s); }
        LtAsymmetric(sj, s);
      }
    }
  }

  /** `_extract_from_cdx` keeps one entry per path key: the first hit with the greatest snapshot date. */
  lemma {:induction false} CdxFoldNewest(cs: seq<Candidate>, k: string)
    ensures k in CdxFold(cs).items <==> HasUsable(cs, k)
    ensures k in CdxFold(cs).items ==> exists i :: NewestFor(cs, i) && cs[i].key == k && CdxFold(cs).items[k] == cs[i].row
    decreases |cs|
  {
    if cs != [] {
      var init := cs[..|cs| - 1];
      var c := cs[|cs| - 1];
      assert cs == init + [c];
      var prev := CdxFold(init);
      CdxFoldNewest(init, k);
      HasUsableExtend(init, c, k);
      if k in CdxFold(cs).items {
        if !c.usable || c.key != k {
          var i :| NewestFor(init, i) && init[i].key == k && prev.items[k] == init[i].row;
          NewestExtend(init, i, c);
        } else if k !in prev.items {
          NewestFirst(init, c);
        } else {
          var i :| NewestFor(init, i) && init[i].key == k && prev.items[k] == init[i].row;
          if Lt(prev.items[k].snapshot, c.row.snapshot) {
            NewestNewer(init, i, c);
          } else {
            NewestExtend(init, i, c);
          }
        }
      }
    }
  }

  /** `_extract_from_cdx` over already-fetched hits. */
  method ExtractFromCdx(hits: seq<CdxHit>, today: string) returns (seen: Dict<string, EndpointRow>)
    ensures seen == CdxFold(CdxCandidates(hits, today))
    ensures forall k :: k in seen.items <==> HasUsable(CdxCandidates(hits, today), k)
  {
    ghost var cs := CdxCandidates(hits, today);
    seen := Empty();
    var n := 0;
    while n < |hits|
      invariant 0 <= n <= |hits|
      invariant seen == CdxFold(cs[..n])
    {
      var h := hits[n];
      var pathNorm := RStripChar(h.path, '/');
      assert cs[..n + 1][..n] == cs[..n];
      if !(pathNorm == [] || EndsWithAny(Lower(pathNorm), EXCLUDE_SUFFIXES) || Contains(pathNorm, "/web/")) {
        var key := Lower(pathNorm);
        var snapshotIso := SnapshotIso(h.timestamp);
        if key !in seen.items || Lt(seen.items[key].snapshot, snapshotIso) {
          seen := seen.Set(key, EndpointRow(h.original, snapshotIso, today));
        }
      }
      n := n + 1;
    }
    assert cs[..n] == cs;
    forall k ensures k in seen.items <==> HasUsable(cs, k) {
      CdxFoldNewest(cs, k);
    }
  }

  // ---------------------------------------------------------------------
  // robots.txt and sitemap.xml: the first occurrence per path
  // ---------------------------------------------------------------------

  /** One pass of the robots or sitemap loop: only a usable candidate with a new key is stored. */
  function FirstStep(entries: Dict<string, EndpointRow>, c: Candidate): (d: Dict<string, EndpointRow>)
    ensures entries.Valid() ==> d.Valid()
  {
    if !c.usable || c.key in entries.items then entries else entries.Set(c.key, c.row)
  }

  /** The dict after the loop has seen `cs`, starting from `d`. */
  function FirstFrom(d: Dict<string, EndpointRow>, cs: seq<Candidate>): (r: Dict<string, EndpointRow>)
    ensures d.Valid() ==> r.Valid()
  {
    if cs == [] then d else FirstStep(FirstFrom(d, cs[..|cs| - 1]), cs[|cs| - 1])
  }

  function FirstFold(cs: seq<Candidate>): (d: Dict<string, EndpointRow>)
    ensures d.Valid()
  {
    FirstFrom(Empty(), cs)
  }

  lemma {:induction false} FirstFromConcat(d: Dict<string, EndpointRow>, a: seq<Candidate>, b: seq<Candidate>)
    ensures FirstFrom(d, a + b) == FirstFrom(FirstFrom(d, a), b)
    decreases |b|
  {
    if b == [] {
      assert a + b == a;
    } else {
      var init := b[..|b| - 1];
      assert (a + b)[..|a + b| - 1] == a + init;
      FirstFromConcat(d, a, init);
    }
  }

  /** Candidate `i` is the first usable one of its key. */
  ghost predicate FirstFor(cs: seq<Candidate>, i: int) {
    && 0 <= i < |cs| && cs[i].usable
    && forall j :: 0 <= j < i ==> !(cs[j].usable && cs[j].key == cs[i].key)
  }

  /** The robots and sitemap extractors keep, per key, the row of the first usable candidate. */
  lemma {:induction false} FirstFoldFirst(cs: seq<Candidate>, k: string)
    ensures k in FirstFold(cs).items <==> HasUsable(cs, k)
    ensures k in FirstFold(cs).items ==> exists i :: FirstFor(cs, i) && cs[i].key == k && FirstFold(cs).items[k] == cs[i].row
    decreases |cs|
  {
    if cs != [] {
      var init := cs[..|cs| - 1];
      var c := cs[|cs| - 1];
      assert cs == init + [c];
      assert forall j :: 0 <= j < |init| ==> cs[j] == init[j];
      assert FirstFold(cs) == FirstStep(FirstFold(init), c);
      FirstFoldFirst(init, k);
      HasUsableExtend(init, c, k);
      if k in FirstFold(cs).items {
        if k in FirstFold(init).items {
          var i :| FirstFor(init, i) && init[i].key == k && FirstFold(init).items[k] == init[i].row;
          assert FirstFor(cs, i);
        } else {
          assert FirstFor(cs, |init|);
        }
      }
    }
  }

  /** A robots rule path: the match stripped, without trailing '/'. */
  function RobotsPath(m: string): string {
    RStripChar(Strip(m), '/')
  }

  /** Robots paths with wildcards, query marks or end anchors are skipped. */
  predicate RobotsUsable(path: string) {
    path != [] && !HasChar(path, '*') && !HasChar(path, '?') && !HasChar(path, '$')
  }

  function RobotsCandidate(domain: string, iso: string, m: string, today: string): (c: Candidate)
    ensures c.usable <==> RobotsUsable(RobotsPath(m))
    ensures c.key == Lower(RobotsPath(m))
    ensures c.row == EndpointRow("https://" + domain + RobotsPath(m), iso, today)
  {
    var path := RobotsPath(m);
    Candidate(RobotsUsable(path), Lower(path), EndpointRow("https://" + domain + path, iso, today))
  }

  function RobotsMatches(domain: string, iso: string, ms: seq<string>, today: string): (cs: seq<Candidate>)
    ensures |cs| == |ms| && forall i :: 0 <= i < |ms| ==> cs[i] == RobotsCandidate(domain, iso, ms[i], today)
  {
    seq(|ms|, i requires 0 <= i < |ms| => RobotsCandidate(domain, iso, ms[i], today))
  }

  /** The candidates of one robots snapshot; a failed fetch contributes none. */
  function RobotsSnapshotCandidates(domain: string, snap: RobotsSnapshot, today: string): seq<Candidate> {
    match snap.matches
    case None => []
    case Some(ms) => RobotsMatches(domain, SnapshotIso(snap.timestamp), ms, today)
  }

  /** The candidates of all robots snapshots in fetch order. */
  function RobotsCandidates(domain: string, snaps: seq<RobotsSnapshot>, today: string): seq<Candidate> {
    if snaps == [] then []
    else RobotsCandidates(domain, snaps[..|snaps| - 1], today) + RobotsSnapshotCandidates(domain, snaps[|snaps| - 1], today)
  }

  function SitemapCandidate(iso: string, loc: SitemapLoc, today: string): (c: Candidate)
    ensures c.usable <==> RStripChar(loc.path, '/') != []
    ensures c.key == Lower(RStripChar(loc.path, '/'))
    ensures c.row == EndpointRow(Strip(loc.text), iso, today)
  {
    var path := RStripChar(loc.path, '/');
    Candidate(path != [], Lower(path), EndpointRow(Strip(loc.text), iso, today))
  }

  function SitemapLocs(iso: string, locs: seq<SitemapLoc>, today: string): (cs: seq<Candidate>)
    ensures |cs| == |locs| && forall i :: 0 <= i < |locs| ==> cs[i] == SitemapCandidate(iso, locs[i], today)
  {
    seq(|locs|, i requires 0 <= i < |locs| => SitemapCandidate(iso, locs[i], today))
  }

  /** The candidates of one sitemap snapshot; a failed fetch or parse contributes none. */
  function SitemapSnapshotCandidates(snap: SitemapSnapshot, today: string): seq<Candidate> {
    match snap.locs
    case None => []
    case Some(locs) => SitemapLocs(SnapshotIso(snap.timestamp), locs, today)
  }

  /** The candidates of all sitemap snapshots in fetch order. */
  function SitemapCandidates(snaps: seq<SitemapSnapshot>, today: string): seq<Candidate> {
    if snaps == [] then []
    else SitemapCandidates(snaps[..|snaps| - 1], today) + SitemapSnapshotCandidates(snaps[|snaps| - 1], today)
  }

  /** The inner loop of `_extract_from_robots`: the rules of one snapshot. */
  method AddRobotsRules(entries: Dict<string, EndpointRow>, domain: string, snapshotIso: string, ms: seq<string>, today: string)
    returns (out: Dict<string, EndpointRow>)
    ensures out == FirstFrom(entries, RobotsMatches(domain, snapshotIso, ms, today))
  {
    out := entries;
    var j := 0;
    while j < |ms|
      invariant 0 <= j <= |ms|
      invariant out == FirstFrom(entries, RobotsMatches(domain, snapshotIso, ms[..j], today))
    {
      var path := RStripChar(Strip(ms[j]), '/');
      var key := Lower(path);
      assert RobotsMatches(domain, snapshotIso, ms[..j + 1], today)[..j] == RobotsMatches(domain, snapshotIso, ms[..j], today);
      if !(path == [] || HasChar(path, '*') || HasChar(path, '?') || HasChar(path, '$') || key in out.items) {
        out := out.Set(key, EndpointRow("https://" + domain + path, snapshotIso, today));
      }
      j := j + 1;
    }
    assert ms[..j] == ms;
  }

  /** `_extract_from_robots` over already-fetched snapshots. */
  method ExtractFromRobots(domain: string, snaps: seq<RobotsSnapshot>, today: string)
    returns (entries: Dict<string, EndpointRow>)
    ensures entries == FirstFold(RobotsCandidates(domain, snaps, today))
  {
    entries := Empty();
    var n := 0;
    while n < |snaps|
      invariant 0 <= n <= |snaps|
      invariant entries == FirstFold(RobotsCandidates(domain, snaps[..n], today))
    {
      var snap := snaps[n];
      assert snaps[..n + 1][..n] == snaps[..n];
      ghost var before := RobotsCandidates(domain, snaps[..n], today);
      assert RobotsCandidates(domain, snaps[..n + 1], today) == before + RobotsSnapshotCandidates(domain, snap, today);
      FirstFromConcat(Empty(), before, RobotsSnapshotCandidates(domain, snap, today));
      if snap.matches.Some? {
        var snapshotIso := SnapshotIso(snap.timestamp);
        entries := AddRobotsRules(entries, domain, snapshotIso, snap.matches.value, today);
      }
      n := n + 1;
    }
    assert snaps[..n] == snaps;
  }

  /** The inner loop of `_extract_from_sitemap`: the locations of one snapshot. */
  method AddSitemapLocs(entries: Dict<string, EndpointRow>, snapshotIso: string, locs: seq<SitemapLoc>, today: string)
    returns (out: Dict<string, EndpointRow>)
    ensures out == FirstFrom(entries, SitemapLocs(snapshotIso, locs, today))
  {
    out := entries;
    var j := 0;
    while j < |locs|
      invariant 0 <= j <= |locs|
      invariant out == FirstFrom(entries, SitemapLocs(snapshotIso, locs[..j], today))
    {
      var urlText := Strip(locs[j].text);
      var path := RStripChar(locs[j].path, '/');
      var key := Lower(path);
      assert SitemapLocs(snapshotIso, locs[..j + 1], today)[..j] == SitemapLocs(snapshotIso, locs[..j], today);
      if !(path == [] || key in out.items) {
        out := out.Set(key, EndpointRow(urlText, snapshotIso, today));
      }
      j := j + 1;
    }
    assert locs[..j] == locs;
  }

  /** `_extract_from_sitemap` over already-fetched and parsed snapshots. */
  method ExtractFromSitemap(snaps: seq<SitemapSnapshot>, today: string)
    returns (entries: Dict<string, EndpointRow>)
    ensures entries == FirstFold(SitemapCandidates(snaps, today))
  {
    entries := Empty();
    var n := 0;
    while n < |snaps|
      invariant 0 <= n <= |snaps|
      invariant entries == FirstFold(SitemapCandidates(snaps[..n], today))
    {
      var snap := snaps[n];
      assert snaps[..n + 1][..n] == snaps[..n];
      ghost var before := SitemapCandidates(snaps[..n], today);
      assert SitemapCandidates(snaps[..n + 1], today) == before + SitemapSnapshotCandidates(snap, today);
      FirstFromConcat(Empty(), before, SitemapSnapshotCandidates(snap, today));
      if snap.locs.Some? {
        var snapshotIso := SnapshotIso(snap.timestamp);
        entries := AddSitemapLocs(entries, snapshotIso, snap.locs.value, today);
      }
      n := n + 1;
    }
    assert snaps[..n] == snaps;
  }

  // ---------------------------------------------------------------------
  // The merge: a later source overwrites only with a strictly later snapshot
  // ---------------------------------------------------------------------

  /** One pass of the merge loop for key `k` of `source`. */
  function MergeStep(combined: Dict<string, EndpointRow>, source: Dict<string, EndpointRow>, k: string)
    : (d: Dict<string, EndpointRow>)
    requires k in source.items
    ensures combined.Valid() ==> d.Valid()
  {
    if k !in combined.items || Lt(combined.items[k].snapshot, source.items[k].snapshot) then combined.Set(k, source.items[k])
    else combined
  }

  /** The merge loop over the keys `ks` of `source`. */
  function MergeFrom(combined: Dict<string, EndpointRow>, source: Dict<string, EndpointRow>, ks: seq<string>)
    : (d: Dict<string, EndpointRow>)
    requires forall i :: 0 <= i < |ks| ==> ks[i] in source.items
    ensures combined.Valid() ==> d.Valid()
  {
    if ks == [] then combined else MergeStep(MergeFrom(combined, source, ks[..|ks| - 1]), source, ks[|ks| - 1])
  }

  /** `for key, val in source.items(): ...` */
  function Merge(combined: Dict<string, EndpointRow>, source: Dict<string, EndpointRow>): (d: Dict<string, EndpointRow>)
    requires source.Valid()
    ensures combined.Valid() ==> d.Valid()
  {
    MergeFrom(combined, source, source.keys)
  }

  /** The entry a key holds after `source` is merged into `combined`. */
  function Merged(combined: Dict<string, EndpointRow>, source: Dict<string, EndpointRow>, k: string): EndpointRow
    requires k in combined.items || k in source.items
  {
    if k in source.items && (k !in combined.items || Lt(combined.items[k].snapshot, source.items[k].snapshot))
    then source.items[k]
    else combined.items[k]
  }

  lemma {:induction false} MergeFromSpec(c: Dict<string, EndpointRow>, s: Dict<string, EndpointRow>, ks: seq<string>)
    requires forall i :: 0 <= i < |ks| ==> ks[i] in s.items
    requires forall i, j :: 0 <= i < j < |ks| ==> ks[i] != ks[j]
    ensures forall k :: k in MergeFrom(c, s, ks).items <==> k in c.items || k in ks
    ensures forall k :: k in MergeFrom(c, s, ks).items ==>
              MergeFrom(c, s, ks).items[k] == (if k in ks then Merged(c, s, k) else c.items[k])
    ensures |c.keys| <= |MergeFrom(c, s, ks).keys| && MergeFrom(c, s, ks).keys[..|c.keys|] == c.keys
    decreases |ks|
  {
    if ks != [] {
      var init := ks[..|ks| - 1];
      var k' := ks[|ks| - 1];
      assert ks == init + [k'];
      MergeFromSpec(c, s, init);
      assert forall i :: 0 <= i < |init| ==> init[i] == ks[i];
      assert k' !in init;
      var prev := MergeFrom(c, s, init);
      assert prev.keys[..|c.keys|] == c.keys;
      var next := MergeFrom(c, s, ks);
      assert next.keys[..|prev.keys|] == prev.keys;
      assert next.keys[..|c.keys|] == prev.keys[..|c.keys|];
    }
  }

  /** Merging keeps every key of both dicts, gives each the newer entry, and keeps the existing key order. */
  lemma MergeSpec(c: Dict<string, EndpointRow>, s: Dict<string, EndpointRow>)
    requires s.Valid()
    ensures forall k :: k in Merge(c, s).items <==> k in c.items || k in s.items
    ensures forall k :: k in Merge(c, s).items ==> Merge(c, s).items[k] == Merged(c, s, k)
    ensures |c.keys| <= |Merge(c, s).keys| && Merge(c, s).keys[..|c.keys|] == c.keys
  {
    MergeFromSpec(c, s, s.keys);
  }

  /** A merged entry is never older (as a snapshot string) than either side's entry. */
  lemma MergedIsNewest(c: Dict<string, EndpointRow>, s: Dict<string, EndpointRow>, k: string)
    requires k in c.items || k in s.items
    ensures Merged(c, s, k) == (if k in s.items && (k !in c.items || Lt(c.items[k].snapshot, s.items[k].snapshot))
                                then s.items[k] else c.items[k])
    ensures k in c.items ==> Le(c.items[k].snapshot, Merged(c, s, k).snapshot)
    ensures k in s.items ==> Le(s.items[k].snapshot, Merged(c, s, k).snapshot)
  {
    if k in c.items { LeFacts(c.items[k].snapshot, c.items[k].snapshot, c.items[k].snapshot); }
    if k in s.items { LeFacts(s.items[k].snapshot, s.items[k].snapshot, s.items[k].snapshot); }
    if k in c.items && k in s.items {
      LtTotal(c.items[k].snapshot, s.items[k].snapshot);
      if Lt(c.items[k].snapshot, s.items[k].snapshot) { LtAsymmetric(c.items[k].snapshot, s.items[k].snapshot); }
    }
  }

  /** The inner merge loop over the entries of one source. */
  method MergeInto(combined: Dict<string, EndpointRow>, source: Dict<string, EndpointRow>)
    returns (out: Dict<string, EndpointRow>)
    requires source.Valid()
    ensures out == Merge(combined, source)
  {
    out := combined;
    var j := 0;
    while j < |source.keys|
      invariant 0 <= j <= |source.keys|
      invariant out == MergeFrom(combined, source, source.keys[..j])
    {
      var key := source.keys[j];
      var val := source.items[key];
      assert source.keys[..j + 1][..j] == source.keys[..j] && source.keys[..j + 1][j] == key;
      assert MergeFrom(combined, source, source.keys[..j + 1]) == MergeStep(out, source, key);
      if key !in out.items || Lt(out.items[key].snapshot, val.snapshot) {
        out := out.Set(key, val);
      }
      j := j + 1;
    }
    assert source.keys[..j] == source.keys;
  }

  /** `for source in (robots, sitemap)`: the sources merged in turn. */
  function MergeAll(combined: Dict<string, EndpointRow>, sources: seq<Dict<string, EndpointRow>>)
    : (d: Dict<string, EndpointRow>)
    requires forall i :: 0 <= i < |sources| ==> sources[i].Valid()
    ensures combined.Valid() ==> d.Valid()
  {
    if sources == [] then combined else Merge(MergeAll(combined, sources[..|sources| - 1]), sources[|sources| - 1])
  }

  // ---------------------------------------------------------------------
  // Ordering: the domain root first, then newest first and by URL
  // ---------------------------------------------------------------------

  /** `e[col_url].rstrip("/") == f"https://{domain}"` */
  predicate IsRoot(e: EndpointRow, domain: string) {
    RStripChar(e.url, '/') == "https://" + domain
  }

  /** `int(e[col_snapshot].replace("-", ""))`, when it does not raise. */
  predicate SnapParses(e: EndpointRow) {
    PyInt(RemoveAll(e.snapshot, "-")).Some?
  }

  function SnapValue(e: EndpointRow): int {
    match PyInt(RemoveAll(e.snapshot, "-"))
    case Some(v) => v
    case None => 0
  }

  /**
   * `a` may precede `b` under the key `(-int(snapshot), url.lower())`: a
   * later snapshot first, and on equal snapshots the lower-cased URL in
   * ascending order.
   */
  predicate NewerFirst(a: EndpointRow, b: EndpointRow) {
    SnapValue(a) > SnapValue(b) || (SnapValue(a) == SnapValue(b) && Le(Lower(a.url), Lower(b.url)))
  }

  lemma NewerFirstPreorder()
    ensures TotalPreorder(NewerFirst)
  {
    forall a: EndpointRow, b: EndpointRow ensures NewerFirst(a, b) || NewerFirst(b, a) {
      LeFacts(Lower(a.url), Lower(b.url), Lower(b.url));
    }
    forall a: EndpointRow, b: EndpointRow, c: EndpointRow | NewerFirst(a, b) && NewerFirst(b, c)
      ensures NewerFirst(a, c)
    {
      LeFacts(Lower(a.url), Lower(b.url), Lower(c.url));
    }
  }

  /** The single row returned when no source found anything. */
  function EmptyPlaceholder(today: string): (e: EndpointRow)
    ensures e.url == NO_DATA_FOUND_TEXT && e.snapshot == "0000-00-00" && e.scanned == today
  {
    EndpointRow(NO_DATA_FOUND_TEXT, "0000-00-00", today)
  }

  /** `next((e for e in entries if root), None)`: the first root entry. */
  function FirstRoot(entries: seq<EndpointRow>, domain: string): (r: Option<EndpointRow>)
    ensures r.None? <==> forall i :: 0 <= i < |entries| ==> !IsRoot(entries[i], domain)
    ensures r.Some? ==> exists i :: 0 <= i < |entries| && entries[i] == r.value && IsRoot(r.value, domain)
                                    && forall j :: 0 <= j < i ==> !IsRoot(entries[j], domain)
  {
    if entries == [] then None
    else if IsRoot(entries[0], domain) then Some(entries[0])
    else
      var r := FirstRoot(entries[1..], domain);
      assert r.Some? ==> exists i :: 1 <= i < |entries| && entries[i] == r.value && IsRoot(r.value, domain)
                                     && forall j :: 0 <= j < i ==> !IsRoot(entries[j], domain) by {
        if r.Some? {
          var i :| 0 <= i < |entries[1..]| && entries[1..][i] == r.value && IsRoot(r.value, domain)
                   && forall j :: 0 <= j < i ==> !IsRoot(entries[1..][j], domain);
          assert entries[i + 1] == r.value;
          forall j | 0 <= j < i + 1 ensures !IsRoot(entries[j], domain) {
            if j > 0 { assert entries[j] == entries[1..][j - 1]; }
          }
        }
      }
      r
  }

  /**
   * The entries that are not the root, each as often as it occurs; that
   * they stay in their order is `NonRootConcat`.
   */
  function NonRoot(entries: seq<EndpointRow>, domain: string): (r: seq<EndpointRow>)
    ensures forall e :: e in r <==> e in entries && !IsRoot(e, domain)
    ensures multiset(r) <= multiset(entries)
    ensures forall e :: multiset(r)[e] == if IsRoot(e, domain) then 0 else multiset(entries)[e]
  {
    if entries == [] then []
    else if IsRoot(entries[0], domain) then
      assert entries == [entries[0]] + entries[1..];
      NonRoot(entries[1..], domain)
    else
      assert entries == [entries[0]] + entries[1..];
      [entries[0]] + NonRoot(entries[1..], domain)
  }

  /** The filter distributes over concatenation, so it keeps the entries in their order. */
  lemma {:induction false} NonRootConcat(a: seq<EndpointRow>, b: seq<EndpointRow>, domain: string)
    ensures NonRoot(a + b, domain) == NonRoot(a, domain) + NonRoot(b, domain)
    decreases |a|
  {
    if a == [] {
      assert a + b == b;
    } else {
      assert (a + b)[0] == a[0] && (a + b)[1..] == a[1..] + b;
      NonRootConcat(a[1..], b, domain);
    }
  }

  /** `any(int(...) raises for e in others)` */
  predicate SomeSnapFails(others: seq<EndpointRow>) {
    exists e :: e in others && !SnapParses(e)
  }

  /**
   * The final ordering of `combine_all`. With no entries the result is the
   * placeholder. Otherwise the first root entry (if any) comes first, other
   * root entries are dropped, and the rest are sorted newest first, then by
   * lower-cased URL; `int()` raising on a snapshot is the error.
   */
  function Order(entries: seq<EndpointRow>, domain: string, today: string): (r: Result<seq<EndpointRow>, string>)
    ensures entries == [] ==> r == Ok([EmptyPlaceholder(today)])
    ensures r.Err? <==> entries != [] && SomeSnapFails(NonRoot(entries, domain))
  {
    if entries == [] then Ok([EmptyPlaceholder(today)])
    else
      var others := NonRoot(entries, domain);
      if SomeSnapFails(others) then Err("ValueError: invalid literal for int()")
      else
        NewerFirstPreorder();
        var sorted := SortBy(others, NewerFirst);
        match FirstRoot(entries, domain)
        case Some(m) => Ok([m] + sorted)
        case None => Ok(sorted)
  }

  /**
   * What the ordering promises: the root pinned first, the rest sorted, a
   * permutation of the non-root entries, and entries with the same key
   * keep their input order.
   */
  lemma OrderSpec(entries: seq<EndpointRow>, domain: string, today: string)
    requires entries != [] && Order(entries, domain, today).Ok?
    ensures var r := Order(entries, domain, today).value;
            var pinned := FirstRoot(entries, domain);
            var rest := if pinned.Some? then r[1..] else r;
            && (pinned.Some? ==> r != [] && r[0] == pinned.value)
            && SortedBy(rest, NewerFirst)
            && multiset(rest) == multiset(NonRoot(entries, domain))
            && (forall i :: 0 <= i < |rest| ==> !IsRoot(rest[i], domain))
            && (forall e :: TiesOf(rest, NewerFirst, e) == TiesOf(NonRoot(entries, domain), NewerFirst, e))
  {
    var others := NonRoot(entries, domain);
    NewerFirstPreorder();
    var sorted := SortBy(others, NewerFirst);
    forall i | 0 <= i < |sorted| ensures !IsRoot(sorted[i], domain) {
      assert sorted[i] in multiset(sorted);
    }
    match FirstRoot(entries, domain)
    case Some(m) => assert ([m] + sorted)[1..] == sorted;
    case None =>
  }

  // ---------------------------------------------------------------------
  // combine_all
  // ---------------------------------------------------------------------

  /** The merged dict: CDX, then robots, then sitemap. */
  function Combined(domain: string, hits: seq<CdxHit>, robots: seq<RobotsSnapshot>, sitemaps: seq<SitemapSnapshot>,
                    today: string): (d: Dict<string, EndpointRow>)
    ensures d.Valid()
  {
    Merge(Merge(CdxFold(CdxCandidates(hits, today)), FirstFold(RobotsCandidates(domain, robots, today))),
          FirstFold(SitemapCandidates(sitemaps, today)))
  }

  lemma MergeAllPair(c: Dict<string, EndpointRow>, a: Dict<string, EndpointRow>, b: Dict<string, EndpointRow>)
    requires a.Valid() && b.Valid()
    ensures MergeAll(c, [a, b]) == Merge(Merge(c, a), b)
  {
    var s := [a, b];
    assert s[..1] == [a] && [a][..0] == [];
    assert MergeAll(c, [a]) == Merge(MergeAll(c, []), a);
    assert MergeAll(c, s) == Merge(MergeAll(c, s[..1]), b);
  }

  /** `for source in (robots, sitemap): ...`: the outer merge loop. */
  method MergeSources(cdx: Dict<string, EndpointRow>, sources: seq<Dict<string, EndpointRow>>)
    returns (combined: Dict<string, EndpointRow>)
    requires cdx.Valid() && forall j :: 0 <= j < |sources| ==> sources[j].Valid()
    ensures combined == MergeAll(cdx, sources)
  {
    combined := cdx;
    var i := 0;
    while i < |sources|
      invariant 0 <= i <= |sources|
      invariant combined == MergeAll(cdx, sources[..i])
    {
      assert sources[..i + 1][..i] == sources[..i];
      combined := MergeInto(combined, sources[i]);
      i := i + 1;
    }
    assert sources[..i] == sources;
  }

  /**
   * `combine_all` over already-fetched inputs: the three extractions, the
   * merge, and the ordering of the merged values.
   */
  method CombineAll(domain: string, hits: seq<CdxHit>, robots: seq<RobotsSnapshot>, sitemaps: seq<SitemapSnapshot>,
                    today: string) returns (result: Result<seq<EndpointRow>, string>)
    ensures result == Order(Combined(domain, hits, robots, sitemaps, today).Values(), domain, today)
  {
    var combined := ExtractFromCdx(hits, today);
    var robotsEntries := ExtractFromRobots(domain, robots, today);
    var sitemapEntries := ExtractFromSitemap(sitemaps, today);
    ghost var cdx := combined;
    combined := MergeSources(combined, [robotsEntries, sitemapEntries]);
    MergeAllPair(cdx, robotsEntries, sitemapEntries);
    assert combined == Combined(domain, hits, robots, sitemaps, today);
    var allEntries := combined.Values();
    assert allEntries == Combined(domain, hits, robots, sitemaps, today).Values();
    result := Order(allEntries, domain, today);
  }

  /** Every key of the merged dict comes from some source, and its entry is at least as new as each source's entry. */
  lemma CombinedNewest(domain: string, hits: seq<CdxHit>, robots: seq<RobotsSnapshot>, sitemaps: seq<SitemapSnapshot>,
                       today: string, k: string)
    ensures var cdx := CdxFold(CdxCandidates(hits, today));
            var rob := FirstFold(RobotsCandidates(domain, robots, today));
            var sit := FirstFold(SitemapCandidates(sitemaps, today));
            var d := Combined(domain, hits, robots, sitemaps, today);
            && (k in d.items <==> k in cdx.items || k in rob.items || k in sit.items)
            && (k in d.items ==>
                 && ((k in cdx.items && d.items[k] == cdx.items[k]) || (k in rob.items && d.items[k] == rob.items[k])
                     || (k in sit.items && d.items[k] == sit.items[k]))
                 && (k in cdx.items ==> Le(cdx.items[k].snapshot, d.items[k].snapshot))
                 && (k in rob.items ==> Le(rob.items[k].snapshot, d.items[k].snapshot))
                 && (k in sit.items ==> Le(sit.items[k].snapshot, d.items[k].snapshot)))
  {
    var cdx := CdxFold(CdxCandidates(hits, today));
    var rob := FirstFold(RobotsCandidates(domain, robots, today));
    var sit := FirstFold(SitemapCandidates(sitemaps, today));
    var m1 := Merge(cdx, rob);
    var d := Merge(m1, sit);
    assert Combined(domain, hits, robots, sitemaps, today) == d;
    MergeSpec(cdx, rob);
    MergeSpec(m1, sit);
    if k in m1.items {
      MergedIsNewest(cdx, rob, k);
    }
    if k in d.items {
      MergedIsNewest(m1, sit, k);
      if k in m1.items && m1.items[k] != d.items[k] {
        // the sitemap entry won: it is newer than the cdx/robots winner
        if k in cdx.items { LeFacts(cdx.items[k].snapshot, m1.items[k].snapshot, d.items[k].snapshot); }
        if k in rob.items { LeFacts(rob.items[k].snapshot, m1.items[k].snapshot, d.items[k].snapshot); }
      }
    }
  }
}
