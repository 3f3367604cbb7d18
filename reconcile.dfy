/**
 * The reconciliation steps the e-mail and the phone plugin share: keep the
 * newest entry per key, sort by key, drop placeholder rows, set the leak
 * status, and fall back to one placeholder row when nothing is left.
 */
module Reconcile {
  import opened PyStr
  import opened Dicts
  import opened Sorting
  import opened Dates
  import opened Config

  /** A row of the e-mail or phone table: value, leak status, source date, scan date. */
  datatype ContactRow = ContactRow(value: string, leaked: string, sourceDate: string, scanned: string)

  /** `_parse_date` of the row's source-date column. */
  function SourceDate(e: ContactRow): DateTime {
    ParseDate(e.sourceDate)
  }

  // ---------------------------------------------------------------------
  // Keeping the newest entry per key
  // ---------------------------------------------------------------------

  /** One pass of the `latest` loop: a new key, or a strictly newer date, takes the slot. */
  function Step(latest: Dict<string, ContactRow>, e: ContactRow, key: ContactRow -> string): (d: Dict<string, ContactRow>)
    ensures latest.Valid() ==> d.Valid()
  {
    var k := key(e);
    if k !in latest.items || After(SourceDate(e), SourceDate(latest.items[k])) then latest.Set(k, e)
    else latest
  }

  /** The `latest` dict after the loop has seen `entries`. */
  function Latest(entries: seq<ContactRow>, key: ContactRow -> string): (d: Dict<string, ContactRow>)
    ensures d.Valid()
    ensures forall k :: k in d.items ==> key(d.items[k]) == k
  {
    if entries == [] then Empty()
    else Step(Latest(entries[..|entries| - 1], key), entries[|entries| - 1], key)
  }

  /**
   * Entry `i` is the one `_deduplicate` keeps for its key: no entry with the
   * same key has a later source date, and every earlier one has an earlier
   * date (on a tie the first entry wins).
   */
  ghost predicate KeptFor(entries: seq<ContactRow>, key: ContactRow -> string, i: int) {
    && 0 <= i < |entries|
    && (forall j :: 0 <= j < |entries| && key(entries[j]) == key(entries[i]) ==>
          !After(SourceDate(entries[j]), SourceDate(entries[i])))
    && (forall j :: 0 <= j < i && key(entries[j]) == key(entries[i]) ==>
          After(SourceDate(entries[i]), SourceDate(entries[j])))
  }

  /** The keys of `latest` are exactly the keys of the entries seen. */
  lemma {:induction false} LatestDomain(entries: seq<ContactRow>, key: ContactRow -> string)
    ensures forall k :: k in Latest(entries, key).items <==> exists i :: 0 <= i < |entries| && key(entries[i]) == k
    decreases |entries|
  {
    if entries != [] {
      var n := |entries| - 1;
      var init := entries[..n];
      LatestDomain(init, key);
      StepDomain(Latest(init, key), entries[n], key);
      forall k ensures k in Latest(entries, key).items <==> exists i :: 0 <= i < |entries| && key(entries[i]) == k {
        KeySeenSnoc(entries, init, key, k);
      }
    }
  }

  /** One pass of the loop adds the key of the entry and no other. */
  lemma StepDomain(latest: Dict<string, ContactRow>, e: ContactRow, key: ContactRow -> string)
    ensures Step(latest, e, key).items.Keys == latest.items.Keys + {key(e)}
  {
  }

  /** Some entry has key `k` exactly when an earlier one has it or the last one has it. */
  lemma KeySeenSnoc(entries: seq<ContactRow>, init: seq<ContactRow>, key: ContactRow -> string, k: string)
    requires entries != [] && init == entries[..|entries| - 1]
    ensures (exists i :: 0 <= i < |entries| && key(entries[i]) == k) <==>
      (exists i :: 0 <= i < |init| && key(init[i]) == k) || key(entries[|entries| - 1]) == k
  {
    var n := |entries| - 1;
    if exists i :: 0 <= i < |entries| && key(entries[i]) == k {
      var i :| 0 <= i < |entries| && key(entries[i]) == k;
      if i < n { assert entries[..n][i] == entries[i]; }
    }
    if exists i :: 0 <= i < n && key(entries[..n][i]) == k {
      var i :| 0 <= i < n && key(entries[..n][i]) == k;
      assert entries[..n][i] == entries[i];
    }
  }

  /** A kept entry stays kept when an entry with another key, or an entry that is not newer, arrives. */
  lemma KeptForExtend(entries: seq<ContactRow>, key: ContactRow -> string, i: int, e: ContactRow)
    requires KeptFor(entries, key, i)
    requires key(e) == key(entries[i]) ==> !After(SourceDate(e), SourceDate(entries[i]))
    ensures KeptFor(entries + [e], key, i)
  {
    var all := entries + [e];
    assert forall j :: 0 <= j < |entries| ==> all[j] == entries[j];
  }

  /** The first entry of its key is kept when nothing earlier shares the key. */
  lemma KeptForFirst(entries: seq<ContactRow>, key: ContactRow -> string, e: ContactRow)
    requires forall j :: 0 <= j < |entries| ==> key(entries[j]) != key(e)
    ensures KeptFor(entries + [e], key, |entries|)
  {
    var all := entries + [e];
    assert forall j :: 0 <= j < |entries| ==> all[j] == entries[j];
    AfterStrictTotal(SourceDate(e), SourceDate(e), SourceDate(e));
  }

  /** An entry strictly newer than the kept one takes over. */
  lemma KeptForNewer(entries: seq<ContactRow>, key: ContactRow -> string, i: int, e: ContactRow)
    requires KeptFor(entries, key, i)
    requires key(e) == key(entries[i]) && After(SourceDate(e), SourceDate(entries[i]))
    ensures KeptFor(entries + [e], key, |entries|)
  {
    var all := entries + [e];
    var de := SourceDate(e);
    var di := SourceDate(entries[i]);
    forall j | 0 <= j < |all| && key(all[j]) == key(e)
      ensures !After(SourceDate(all[j]), de)
      ensures j < |entries| ==> After(de, SourceDate(all[j]))
    {
      AfterStrictTotal(de, de, de);
      if j < |entries| {
        assert all[j] == entries[j];
        AfterStrictTotal(SourceDate(all[j]), di, de);
        AfterStrictTotal(de, di, SourceDate(all[j]));
      }
    }
  }

  /** The slot of every key holds the entry `KeptFor` picks. */
  lemma {:induction false} LatestWinner(entries: seq<ContactRow>, key: ContactRow -> string, k: string)
    requires k in Latest(entries, key).items
    ensures exists i :: KeptFor(entries, key, i) && Latest(entries, key).items[k] == entries[i]
    decreases |entries|
  {
    var n := |entries| - 1;
    var init := entries[..n];
    var e := entries[n];
    assert entries == init + [e];
    if k in Latest(init, key).items {
      LatestWinner(init, key, k);
      var i :| KeptFor(init, key, i) && Latest(init, key).items[k] == init[i];
      WinnerKept(init, e, key, k, i);
    } else {
      WinnerFirst(init, e, key, k);
    }
  }

  /** A key already in the dict keeps a kept entry in its slot after one more pass. */
  lemma WinnerKept(init: seq<ContactRow>, e: ContactRow, key: ContactRow -> string, k: string, i: int)
    requires k in Latest(init, key).items
    requires KeptFor(init, key, i) && Latest(init, key).items[k] == init[i]
    ensures exists j :: KeptFor(init + [e], key, j) && Step(Latest(init, key), e, key).items[k] == (init + [e])[j]
  {
    var prev := Latest(init, key);
    assert key(init[i]) == k;
    if k != key(e) {
      KeptForExtend(init, key, i, e);
      assert (init + [e])[i] == init[i];
    } else if After(SourceDate(e), SourceDate(init[i])) {
      KeptForNewer(init, key, i, e);
      assert (init + [e])[|init|] == e;
    } else {
      KeptForExtend(init, key, i, e);
      assert (init + [e])[i] == init[i];
    }
  }

  /** A key seen for the first time gets the new entry, which is kept. */
  lemma WinnerFirst(init: seq<ContactRow>, e: ContactRow, key: ContactRow -> string, k: string)
    requires k !in Latest(init, key).items && k in Step(Latest(init, key), e, key).items
    ensures KeptFor(init + [e], key, |init|) && Step(Latest(init, key), e, key).items[k] == e
  {
    StepNewKey(Latest(init, key), e, key, k);
    LatestDomain(init, key);
    KeptForFirst(init, key, e);
  }

  /** A key missing before one pass is present after it only as the entry's own key, holding the entry. */
  lemma StepNewKey(latest: Dict<string, ContactRow>, e: ContactRow, key: ContactRow -> string, k: string)
    requires k !in latest.items && k in Step(latest, e, key).items
    ensures k == key(e) && Step(latest, e, key).items[k] == e
  {
  }

  /** At most one entry is kept per key. */
  lemma KeptForUnique(entries: seq<ContactRow>, key: ContactRow -> string, i: int, j: int)
    requires KeptFor(entries, key, i) && KeptFor(entries, key, j)
    requires key(entries[i]) == key(entries[j])
    ensures i == j
  {
  }

  /** The keys of a list of rows, in order. */
  function Keys(rows: seq<ContactRow>, key: ContactRow -> string): (ks: seq<string>)
    ensures |ks| == |rows| && forall i :: 0 <= i < |rows| ==> ks[i] == key(rows[i])
  {
    seq(|rows|, i requires 0 <= i < |rows| => key(rows[i]))
  }

  /**
   * `sorted(latest.values(), key=key)`. Every kept entry's key is its dict
   * key and the keys are distinct, so this lists the entries of the keys in
   * ascending order.
   */
  function SortedValues(latest: Dict<string, ContactRow>): (r: seq<ContactRow>)
    requires latest.Valid()
  {
    var ks := SortedUnique(latest.keys);
    seq(|ks|, i requires 0 <= i < |ks| => latest.items[ks[i]])
  }

  /** What `sorted(latest.values(), ...)` promises once the loop has seen all entries. */
  lemma SortedLatest(entries: seq<ContactRow>, key: ContactRow -> string)
    ensures StrictlySorted(Keys(SortedValues(Latest(entries, key)), key))
    ensures forall k :: k in Keys(SortedValues(Latest(entries, key)), key) <==> k in Keys(entries, key)
    ensures forall r :: r in SortedValues(Latest(entries, key)) ==> exists i :: KeptFor(entries, key, i) && r == entries[i]
    ensures forall i :: KeptFor(entries, key, i) ==> entries[i] in SortedValues(Latest(entries, key))
  {
    SortedLatestKeys(entries, key);
    SortedLatestRows(entries, key);
  }

  /** The sorted values carry each key of the input once, in ascending order. */
  lemma SortedLatestKeys(entries: seq<ContactRow>, key: ContactRow -> string)
    ensures StrictlySorted(Keys(SortedValues(Latest(entries, key)), key))
    ensures forall k :: k in Keys(SortedValues(Latest(entries, key)), key) <==> k in Keys(entries, key)
  {
    var latest := Latest(entries, key);
    LatestDomain(entries, key);
    SortedValuesKeys(latest, key);
    forall k ensures k in Keys(entries, key) <==> exists i :: 0 <= i < |entries| && key(entries[i]) == k {
      InKeys(entries, key, k);
    }
  }

  /** A key occurs in `Keys(rows, key)` exactly when some row has it. */
  lemma InKeys(rows: seq<ContactRow>, key: ContactRow -> string, k: string)
    ensures k in Keys(rows, key) <==> exists i :: 0 <= i < |rows| && key(rows[i]) == k
  {
    if k in Keys(rows, key) {
      var i :| 0 <= i < |rows| && Keys(rows, key)[i] == k;
      assert key(rows[i]) == k;
    }
    if exists i :: 0 <= i < |rows| && key(rows[i]) == k {
      var i :| 0 <= i < |rows| && key(rows[i]) == k;
      assert Keys(rows, key)[i] == k;
    }
  }

  /** When every slot holds a row of its own key, the sorted values carry the sorted keys. */
  lemma SortedValuesKeys(latest: Dict<string, ContactRow>, key: ContactRow -> string)
    requires latest.Valid() && forall k :: k in latest.items ==> key(latest.items[k]) == k
    ensures Keys(SortedValues(latest), key) == SortedUnique(latest.keys)
  {
  }

  /** The sorted values are exactly the kept entries. */
  lemma SortedLatestRows(entries: seq<ContactRow>, key: ContactRow -> string)
    ensures forall r :: r in SortedValues(Latest(entries, key)) ==> exists i :: KeptFor(entries, key, i) && r == entries[i]
    ensures forall i :: KeptFor(entries, key, i) ==> entries[i] in SortedValues(Latest(entries, key))
  {
    var latest := Latest(entries, key);
    var result := SortedValues(latest);
    var ks := SortedUnique(latest.keys);
    LatestDomain(entries, key);
    assert Keys(result, key) == ks;
    forall r | r in result ensures exists i :: KeptFor(entries, key, i) && r == entries[i] {
      var p :| 0 <= p < |result| && result[p] == r;
      LatestWinner(entries, key, ks[p]);
    }
    forall i | KeptFor(entries, key, i) ensures entries[i] in result {
      var k := key(entries[i]);
      assert k in latest.items by { assert Keys(entries, key)[i] == k; }
      var p :| 0 <= p < |ks| && ks[p] == k;
      LatestWinner(entries, key, k);
      var j :| KeptFor(entries, key, j) && latest.items[k] == entries[j];
      KeptForUnique(entries, key, i, j);
      assert result[p] == entries[i];
    }
  }

  /**
   * `_deduplicate` / `_deduplicate_phones`: the newest entry per key, with
   * ties going to the first entry seen, sorted ascending by key. Kept
   * entries are the input rows themselves, not re-keyed copies.
   */
  method Deduplicate(entries: seq<ContactRow>, key: ContactRow -> string) returns (result: seq<ContactRow>)
    ensures StrictlySorted(Keys(result, key))
    ensures forall k :: k in Keys(result, key) <==> k in Keys(entries, key)
    ensures forall r :: r in result ==> exists i :: KeptFor(entries, key, i) && r == entries[i]
    ensures forall i :: KeptFor(entries, key, i) ==> entries[i] in result
  {
    var latest := LatestLoop(entries, key);
    result := SortedValues(latest);
    SortedLatest(entries, key);
  }

  /** The `latest` loop of `_deduplicate`. */
  method LatestLoop(entries: seq<ContactRow>, key: ContactRow -> string) returns (latest: Dict<string, ContactRow>)
    ensures latest == Latest(entries, key)
  {
    latest := Empty<string, ContactRow>();
    var n := 0;
    while n < |entries|
      invariant 0 <= n <= |entries|
      invariant latest == Latest(entries[..n], key)
    {
      var e := entries[n];
      var k := key(e);
      assert entries[..n + 1][..n] == entries[..n];
      assert Latest(entries[..n + 1], key) == Step(latest, e, key);
      if k !in latest.items || After(SourceDate(e), SourceDate(latest.items[k])) {
        latest := latest.Set(k, e);
      }
      n := n + 1;
    }
    assert entries[..n] == entries;
  }

  /**
   * When every source date parses to `datetime.min` (as every ISO date the
   * row builders write does), no later entry is strictly newer, so the entry
   * kept for a key is the first one seen.
   */
  lemma FirstSeenWins(entries: seq<ContactRow>, key: ContactRow -> string, i: int)
    requires forall j :: 0 <= j < |entries| ==> SourceDate(entries[j]) == MinDate
    requires KeptFor(entries, key, i)
    ensures forall j :: 0 <= j < i ==> key(entries[j]) != key(entries[i])
  {
    AfterStrictTotal(MinDate, MinDate, MinDate);
  }

  // ---------------------------------------------------------------------
  // The row builders' date column
  // ---------------------------------------------------------------------

  /** The source-date rewrite of both row builders: `YYYYMMDD` gains dashes, an empty date becomes `0000-00-00`. */
  function FormatSourceDate(d: string): (r: string)
    ensures |d| == 8 ==> r == d[..4] + "-" + d[4..6] + "-" + d[6..]
    ensures d == [] ==> r == "0000-00-00"
    ensures d != [] && |d| != 8 ==> r == d
  {
    if d != [] && |d| == 8 then d[..4] + "-" + d[4..6] + "-" + d[6..]
    else if d == [] then "0000-00-00"
    else d
  }

  /**
   * A built row's source date, when the source gave eight characters or
   * nothing, has its dash at index 4 and so parses to `datetime.min`.
   */
  lemma FormattedDateIsMin(d: string)
    requires |d| == 8 || d == []
    ensures ParseDate(FormatSourceDate(d)) == MinDate
  {
    IsoDateParsesToMin(FormatSourceDate(d));
  }

  /** The dashes come out again: removing them gives back an eight-character date without dashes. */
  lemma FormattedDateDigits(d: string)
    requires |d| == 8 && !HasChar(d, '-')
    ensures RemoveAll(FormatSourceDate(d), "-") == d
  {
    var a, b, c := d[..4], d[4..6], d[6..];
    AbsentInSlice(d, 0, 4, '-');
    AbsentInSlice(d, 4, 6, '-');
    AbsentInSlice(d, 6, 8, '-');
    assert d[0..4] == a && d[4..6] == b && d[6..8] == c;
    calc {
      RemoveAll(FormatSourceDate(d), "-");
      { assert FormatSourceDate(d) == a + ("-" + (b + ("-" + c))); }
      RemoveAll(a + ("-" + (b + ("-" + c))), "-");
      { RemoveCharConcat(a, "-" + (b + ("-" + c)), "-"); }
      RemoveAll(a, "-") + RemoveAll("-" + (b + ("-" + c)), "-");
      { RemoveCharConcat("-", b + ("-" + c), "-"); RemoveSelfChar("-"); }
      RemoveAll(a, "-") + RemoveAll(b + ("-" + c), "-");
      { RemoveCharConcat(b, "-" + c, "-"); RemoveCharConcat("-", c, "-"); }
      RemoveAll(a, "-") + RemoveAll(b, "-") + RemoveAll(c, "-");
      { RemoveAllAbsent(a, "-"); RemoveAllAbsent(b, "-"); RemoveAllAbsent(c, "-"); }
      a + b + c;
      { assert d == d[..4] + d[4..6] + d[6..]; }
      d;
    }
  }

  // ---------------------------------------------------------------------
  // Placeholder filter, enrichment, fallback
  // ---------------------------------------------------------------------

  /** A row that is not a placeholder: a non-empty value without `NO_DATA_FOUND_TEXT`. */
  predicate IsReal(e: ContactRow) {
    e.value != [] && !Contains(e.value, NO_DATA_FOUND_TEXT)
  }

  /**
   * The list comprehension that drops placeholder rows: every real row as
   * often as it occurs, no placeholder. That it keeps the order is
   * `DropPlaceholdersConcat` and `DropPlaceholdersSorted`.
   */
  function DropPlaceholders(rows: seq<ContactRow>): (r: seq<ContactRow>)
    ensures |r| <= |rows|
    ensures forall e :: e in r <==> e in rows && IsReal(e)
    ensures forall e :: multiset(r)[e] == if IsReal(e) then multiset(rows)[e] else 0
  {
    if rows == [] then []
    else
      assert rows == [rows[0]] + rows[1..];
      if IsReal(rows[0]) then [rows[0]] + DropPlaceholders(rows[1..])
      else DropPlaceholders(rows[1..])
  }

  /** The filter distributes over concatenation, so it keeps the rows in their order. */
  lemma {:induction false} DropPlaceholdersConcat(a: seq<ContactRow>, b: seq<ContactRow>)
    ensures DropPlaceholders(a + b) == DropPlaceholders(a) + DropPlaceholders(b)
    decreases |a|
  {
    if a == [] {
      assert a + b == b;
    } else {
      var x, rest := a[0], a[1..];
      var h := if IsReal(x) then [x] else [];
      assert a == [x] + rest;
      assert a + b == [x] + (rest + b);
      calc {
        DropPlaceholders(a + b);
        DropPlaceholders([x] + (rest + b));
        { DropPlaceholdersCons(x, rest + b); }
        h + DropPlaceholders(rest + b);
        { DropPlaceholdersConcat(rest, b); }
        h + (DropPlaceholders(rest) + DropPlaceholders(b));
        (h + DropPlaceholders(rest)) + DropPlaceholders(b);
        { DropPlaceholdersCons(x, rest); }
        DropPlaceholders([x] + rest) + DropPlaceholders(b);
        DropPlaceholders(a) + DropPlaceholders(b);
      }
    }
  }

  lemma DropPlaceholdersCons(x: ContactRow, rest: seq<ContactRow>)
    ensures DropPlaceholders([x] + rest) == (if IsReal(x) then [x] else []) + DropPlaceholders(rest)
  {
    assert ([x] + rest)[0] == x && ([x] + rest)[1..] == rest;
  }

  /** Rows in strictly ascending key order stay in strictly ascending key order. */
  lemma {:induction false} DropPlaceholdersSorted(rows: seq<ContactRow>, key: ContactRow -> string)
    requires StrictlySorted(Keys(rows, key))
    ensures StrictlySorted(Keys(DropPlaceholders(rows), key))
    decreases |rows|
  {
    if rows != [] {
      SortedTail(rows, key);
      DropPlaceholdersSorted(rows[1..], key);
      if IsReal(rows[0]) {
        RealHeadSorted(rows, key);
      } else {
        assert DropPlaceholders(rows) == DropPlaceholders(rows[1..]);
      }
    }
  }

  lemma SortedTail(rows: seq<ContactRow>, key: ContactRow -> string)
    requires rows != [] && StrictlySorted(Keys(rows, key))
    ensures StrictlySorted(Keys(rows[1..], key))
  {
    var ks, ts := Keys(rows, key), Keys(rows[1..], key);
    forall i, j | 0 <= i < j < |ts| ensures Lt(ts[i], ts[j]) {
      assert ts[i] == ks[i + 1] && ts[j] == ks[j + 1];
    }
  }

  lemma RealHeadSorted(rows: seq<ContactRow>, key: ContactRow -> string)
    requires rows != [] && IsReal(rows[0]) && StrictlySorted(Keys(rows, key))
    requires StrictlySorted(Keys(DropPlaceholders(rows[1..]), key))
    ensures StrictlySorted(Keys(DropPlaceholders(rows), key))
  {
    var x, tail := rows[0], DropPlaceholders(rows[1..]);
    assert rows == [x] + rows[1..];
    DropPlaceholdersCons(x, rows[1..]);
    HeadBelowRest(rows, key);
    ConsSorted(key(x), Keys(tail, key), tail, key);
    KeysCons(x, tail, key);
  }

  lemma KeysCons(x: ContactRow, rest: seq<ContactRow>, key: ContactRow -> string)
    ensures Keys([x] + rest, key) == [key(x)] + Keys(rest, key)
  {
  }

  /** The first row's key is below the key of every real row after it. */
  lemma HeadBelowRest(rows: seq<ContactRow>, key: ContactRow -> string)
    requires rows != [] && StrictlySorted(Keys(rows, key))
    ensures forall e :: e in DropPlaceholders(rows[1..]) ==> Lt(key(rows[0]), key(e))
  {
    var rest := rows[1..];
    forall e | e in DropPlaceholders(rest) ensures Lt(key(rows[0]), key(e)) {
      var q :| 0 <= q < |rest| && rest[q] == e;
      assert Keys(rows, key)[q + 1] == key(e) && Keys(rows, key)[0] == key(rows[0]);
    }
  }

  lemma ConsSorted(k: string, ks: seq<string>, tail: seq<ContactRow>, key: ContactRow -> string)
    requires ks == Keys(tail, key) && StrictlySorted(ks)
    requires forall e :: e in tail ==> Lt(k, key(e))
    ensures StrictlySorted([k] + ks)
  {
    forall i, j | 0 <= i < j < |[k] + ks| ensures Lt(([k] + ks)[i], ([k] + ks)[j]) {
      if i == 0 {
        assert ([k] + ks)[j] == key(tail[j - 1]) && tail[j - 1] in tail;
      } else {
        assert ([k] + ks)[i] == ks[i - 1] && ([k] + ks)[j] == ks[j - 1];
      }
    }
  }

  /** The leak-status loop: each row's leak column becomes `isLeaked` of its value. */
  method Enrich(rows: seq<ContactRow>, isLeaked: string -> string) returns (out: seq<ContactRow>)
    ensures |out| == |rows|
    ensures forall i :: 0 <= i < |rows| ==> out[i] == rows[i].(leaked := isLeaked(rows[i].value))
  {
    out := rows;
    var i := 0;
    while i < |out|
      invariant 0 <= i <= |out| == |rows|
      invariant forall j :: 0 <= j < i ==> out[j] == rows[j].(leaked := isLeaked(rows[j].value))
      invariant forall j :: i <= j < |out| ==> out[j] == rows[j]
    {
      out := out[i := out[i].(leaked := isLeaked(out[i].value))];
      i := i + 1;
    }
  }

  /** The values `is_leaked` can return. */
  predicate IsLeakStatus(s: string) {
    s == "Ja" || s == "Nein" || s == NO_API_CREDITS_TEXT
  }

  /**
   * The key reads the value column only, as `clean_fn(entry[mail_key])`
   * and `entry[phone_key]` do, so setting the leak status keeps it.
   */
  ghost predicate ValueKey(key: ContactRow -> string) {
    forall e: ContactRow, l: string :: key(e.(leaked := l)) == key(e)
  }

  /**
   * The real rows of a deduplicated scan, each with its leak status set, are
   * exactly the real kept entries with their leak status set.
   */
  lemma EnrichedMembers(entries: seq<ContactRow>, key: ContactRow -> string, isLeaked: string -> string,
                        deduped: seq<ContactRow>, valid: seq<ContactRow>)
    requires forall r :: r in deduped ==> exists i :: KeptFor(entries, key, i) && r == entries[i]
    requires forall i :: KeptFor(entries, key, i) ==> entries[i] in deduped
    requires |valid| == |DropPlaceholders(deduped)|
    requires forall p :: 0 <= p < |valid| ==>
               valid[p] == DropPlaceholders(deduped)[p].(leaked := isLeaked(DropPlaceholders(deduped)[p].value))
    ensures forall r :: r in valid ==>
              IsReal(r) && r.leaked == isLeaked(r.value)
              && exists i :: KeptFor(entries, key, i) && r == entries[i].(leaked := isLeaked(entries[i].value))
    ensures forall i :: KeptFor(entries, key, i) && IsReal(entries[i]) ==>
              entries[i].(leaked := isLeaked(entries[i].value)) in valid
  {
    var kept := DropPlaceholders(deduped);
    forall r | r in valid
      ensures IsReal(r) && r.leaked == isLeaked(r.value)
      ensures exists i :: KeptFor(entries, key, i) && r == entries[i].(leaked := isLeaked(entries[i].value))
    {
      var p :| 0 <= p < |valid| && valid[p] == r;
      assert kept[p] in kept;
    }
    forall i | KeptFor(entries, key, i) && IsReal(entries[i])
      ensures entries[i].(leaked := isLeaked(entries[i].value)) in valid
    {
      assert entries[i] in deduped;
      var p :| 0 <= p < |kept| && kept[p] == entries[i];
      assert valid[p] == entries[i].(leaked := isLeaked(entries[i].value));
    }
  }

  /** Setting the leak status keeps the strictly ascending key order of the real rows. */
  lemma EnrichedSorted(key: ContactRow -> string, isLeaked: string -> string,
                       deduped: seq<ContactRow>, valid: seq<ContactRow>)
    requires ValueKey(key)
    requires StrictlySorted(Keys(deduped, key))
    requires |valid| == |DropPlaceholders(deduped)|
    requires forall p :: 0 <= p < |valid| ==>
               valid[p] == DropPlaceholders(deduped)[p].(leaked := isLeaked(DropPlaceholders(deduped)[p].value))
    ensures StrictlySorted(Keys(valid, key))
  {
    var kept := DropPlaceholders(deduped);
    DropPlaceholdersSorted(deduped, key);
    assert Keys(valid, key) == Keys(kept, key) by {
      forall p | 0 <= p < |valid| ensures key(valid[p]) == key(kept[p]) {
        assert valid[p] == kept[p].(leaked := isLeaked(kept[p].value));
      }
    }
  }

  /**
   * Steps "deduplicate" to "fallback" of a contact scan. The result is never
   * empty; it is the single placeholder exactly when no real row survives.
   * Otherwise it holds exactly the real kept entries, each with its leak
   * status set, one per key in ascending key order.
   */
  method Reconcile(entries: seq<ContactRow>, key: ContactRow -> string, isLeaked: string -> string,
                   placeholder: ContactRow) returns (rows: seq<ContactRow>)
    requires !IsReal(placeholder)
    requires ValueKey(key)
    ensures rows != []
    ensures rows == [placeholder] <==> forall i :: KeptFor(entries, key, i) ==> !IsReal(entries[i])
    ensures rows != [placeholder] ==> forall r :: r in rows ==>
              IsReal(r) && r.leaked == isLeaked(r.value)
              && exists i :: KeptFor(entries, key, i) && r == entries[i].(leaked := isLeaked(entries[i].value))
    ensures forall i :: KeptFor(entries, key, i) && IsReal(entries[i]) ==>
              entries[i].(leaked := isLeaked(entries[i].value)) in rows
    ensures rows != [placeholder] ==> StrictlySorted(Keys(rows, key))
    ensures (forall v :: IsLeakStatus(isLeaked(v))) ==> forall r :: r in rows ==> r == placeholder || IsLeakStatus(r.leaked)
  {
    var deduped := Deduplicate(entries, key);
    var kept := DropPlaceholders(deduped);
    var valid := Enrich(kept, isLeaked);
    if valid == [] {
      forall i | KeptFor(entries, key, i) ensures !IsReal(entries[i]) {
        assert entries[i] in deduped;
      }
      valid := [placeholder];
    } else {
      EnrichedMembers(entries, key, isLeaked, deduped, valid);
      EnrichedSorted(key, isLeaked, deduped, valid);
      assert valid[0] != placeholder;
      ghost var i :| KeptFor(entries, key, i) && valid[0] == entries[i].(leaked := isLeaked(entries[i].value));
      assert IsReal(entries[i]);
    }
    rows := valid;
  }
}
