/**
 * The crt.sh certificate lookup: every JSON entry of the response becomes
 * one table row (SAN names joined, wildcard flag, dates cut at the `T`),
 * and every failure becomes a single placeholder row.
 */
module CertificateLookup {
  import opened Wrappers
  import opened PyStr
  import opened Config

  /** A result row: column heading to cell text. */
  type Row = map<string, string>

  /** One JSON object of the crt.sh answer; a key the object lacks is `None`. */
  datatype CrtEntry = CrtEntry(
    issuerName: Option<string>,
    entryTimestamp: Option<string>,
    notBefore: Option<string>,
    notAfter: Option<string>,
    nameValue: Option<string>)

  /** What the HTTP request produced: an exception, or a status and the decoded JSON list. */
  datatype Response =
    | Timeout
    | RequestError
    | Http(status: int, entries: seq<CrtEntry>)

  /** `entry.get(key, default)` */
  function GetOr(v: Option<string>, default: string): string {
    if v.Some? then v.value else default
  }

  // ---------------------------------------------------------------------
  // The placeholder row
  // ---------------------------------------------------------------------

  /** `_generate_empty_certificate_entry(columns)` */
  function Placeholder(columns: seq<string>, today: string): (r: Row)
    requires |columns| >= 1
    ensures r.Keys == set c | c in columns
    ensures r[columns[|columns| - 1]] == today
    ensures forall c :: c in r && c != columns[|columns| - 1] ==> r[c] == NO_DATA_FOUND_TEXT
  {
    var init := columns[..|columns| - 1];
    var blank := map c | c in init :: NO_DATA_FOUND_TEXT;
    assert columns == init + [columns[|columns| - 1]];
    blank[columns[|columns| - 1] := today]
  }

  // ---------------------------------------------------------------------
  // The cells of one entry
  // ---------------------------------------------------------------------

  /** `entry.get(key, NO_DATA_FOUND_TEXT).split("T")[0]` */
  function DateOf(timestamp: Option<string>): (r: string)
    ensures forall i :: 0 <= i < |r| ==> r[i] != 'T'
    ensures StartsWith(GetOr(timestamp, NO_DATA_FOUND_TEXT), r)
  {
    BeforeFirst(GetOr(timestamp, NO_DATA_FOUND_TEXT), 'T')
  }

  /** An ISO timestamp keeps its date part. */
  lemma DateOfTimestamp(date: string, time: string)
    requires forall i :: 0 <= i < |date| ==> date[i] != 'T'
    ensures DateOf(Some(date + "T" + time)) == date
  {
    var s := date + "T" + time;
    var r := DateOf(Some(s));
    assert s[|date|] == 'T';
    assert forall i :: 0 <= i < |date| ==> s[i] == date[i];
    assert |r| == |date|;
    assert s[..|date|] == date;
  }

  /** A missing timestamp shows the no-data text, which holds no `T`. */
  lemma DateOfMissing()
    ensures DateOf(None) == NO_DATA_FOUND_TEXT
  {
    NoDataHasNoT();
    BeforeFirstAbsent(NO_DATA_FOUND_TEXT, 'T');
  }

  lemma NoDataHasNoT()
    ensures forall i :: 0 <= i < |NO_DATA_FOUND_TEXT| ==> NO_DATA_FOUND_TEXT[i] != 'T'
  {
  }

  /** Text without `c` is kept whole. */
  lemma BeforeFirstAbsent(s: string, c: char)
    requires forall i :: 0 <= i < |s| ==> s[i] != c
    ensures BeforeFirst(s, c) == s
  {
    var r := BeforeFirst(s, c);
    assert |r| == |s|;
  }

  /** `entry.get("name_value", "").splitlines()`: the names of the certificate. */
  function Names(entry: CrtEntry): seq<string> {
    SplitLines(GetOr(entry.nameValue, ""))
  }

  /** `any(name.startswith("*.") for name in names)` */
  function AnyWildcard(names: seq<string>): (r: bool)
    ensures r <==> exists i :: 0 <= i < |names| && StartsWith(names[i], "*.")
  {
    if names == [] then false
    else if StartsWith(names[0], "*.") then true
    else
      var r := AnyWildcard(names[1..]);
      assert forall i :: 1 <= i < |names| ==> names[i] == names[1..][i - 1];
      r
  }

  /** The wildcard column. */
  function WildcardFlag(names: seq<string>): (r: string)
    ensures r == "Ja" <==> exists i :: 0 <= i < |names| && StartsWith(names[i], "*.")
    ensures r == "Nein" <==> !exists i :: 0 <= i < |names| && StartsWith(names[i], "*.")
  {
    if AnyWildcard(names) then "Ja" else "Nein"
  }

  /** The domain column: the names joined with `", "`, or the no-data text when there are none. */
  function Domains(names: seq<string>): string {
    if names == [] then NO_DATA_FOUND_TEXT else Join(names, ", ")
  }

  /** Where `parts[i]` sits inside `sep.join(parts)`. */
  lemma {:induction false} JoinOffset(parts: seq<string>, sep: string, i: nat) returns (k: nat)
    requires i < |parts|
    ensures k + |parts[i]| <= |Join(parts, sep)|
    ensures Join(parts, sep)[k..k + |parts[i]|] == parts[i]
  {
    if |parts| == 1 {
      k := 0;
    } else if i == 0 {
      k := 0;
      assert Join(parts, sep) == parts[0] + (sep + Join(parts[1..], sep));
    } else {
      var rest := Join(parts[1..], sep);
      var k0 := JoinOffset(parts[1..], sep, i - 1);
      assert parts[1..][i - 1] == parts[i];
      var head := parts[0] + sep;
      assert Join(parts, sep) == head + rest;
      k := |head| + k0;
      assert Join(parts, sep)[k..k + |parts[i]|] == rest[k0..k0 + |parts[i]|];
    }
  }

  /** Every name of the certificate appears in the domain column. */
  lemma DomainsListEveryName(names: seq<string>, i: nat)
    requires i < |names|
    ensures Contains(Domains(names), names[i])
  {
    var k := JoinOffset(names, ", ", i);
    ContainsAt(Domains(names), names[i], k);
  }

  /** A certificate for one name shows just that name. */
  lemma DomainsOfOneName(name: string)
    ensures Domains([name]) == name
  {
  }

  /** The row of one entry; `columns` names the seven cells in order, later duplicates winning. */
  function CertRow(columns: seq<string>, entry: CrtEntry, today: string): Row
    requires |columns| >= 7
  {
    var names := Names(entry);
    map[columns[0] := Domains(names)]
      [columns[1] := GetOr(entry.issuerName, NO_DATA_FOUND_TEXT)]
      [columns[2] := DateOf(entry.entryTimestamp)]
      [columns[3] := DateOf(entry.notBefore)]
      [columns[4] := DateOf(entry.notAfter)]
      [columns[5] := WildcardFlag(names)]
      [columns[6] := today]
  }

  /** With seven distinct headings each cell holds its own field, and no other column is present. */
  lemma CertRowCells(columns: seq<string>, entry: CrtEntry, today: string)
    requires |columns| >= 7
    requires forall i, j :: 0 <= i < j < 7 ==> columns[i] != columns[j]
    ensures CertRow(columns, entry, today).Keys == set i | 0 <= i < 7 :: columns[i]
    ensures CertRow(columns, entry, today)[columns[0]] == Domains(Names(entry))
    ensures CertRow(columns, entry, today)[columns[1]] == GetOr(entry.issuerName, NO_DATA_FOUND_TEXT)
    ensures CertRow(columns, entry, today)[columns[2]] == DateOf(entry.entryTimestamp)
    ensures CertRow(columns, entry, today)[columns[3]] == DateOf(entry.notBefore)
    ensures CertRow(columns, entry, today)[columns[4]] == DateOf(entry.notAfter)
    ensures CertRow(columns, entry, today)[columns[5]] == "Ja" <==>
      exists i :: 0 <= i < |Names(entry)| && StartsWith(Names(entry)[i], "*.")
    ensures CertRow(columns, entry, today)[columns[6]] == today
  {
    var r := CertRow(columns, entry, today);
    assert columns[0] in r;
    assert r.Keys == {columns[0], columns[1], columns[2], columns[3], columns[4], columns[5], columns[6]};
  }

  // ---------------------------------------------------------------------
  // The whole lookup
  // ---------------------------------------------------------------------

  /** One row per entry, in order. */
  function Rows(columns: seq<string>, entries: seq<CrtEntry>, today: string): seq<Row>
    requires |columns| >= 7
  {
    if entries == [] then []
    else Rows(columns, entries[..|entries| - 1], today) + [CertRow(columns, entries[|entries| - 1], today)]
  }

  lemma {:induction false} RowsExact(columns: seq<string>, entries: seq<CrtEntry>, today: string)
    requires |columns| >= 7
    ensures |Rows(columns, entries, today)| == |entries|
    ensures forall i :: 0 <= i < |entries| ==> Rows(columns, entries, today)[i] == CertRow(columns, entries[i], today)
  {
    if entries != [] {
      var n := |entries| - 1;
      var init := entries[..n];
      RowsExact(columns, init, today);
      RowsSnoc(columns, init, entries[n], Rows(columns, init, today), today);
      assert entries == init + [entries[n]];
    }
  }

  lemma RowsSnoc(columns: seq<string>, init: seq<CrtEntry>, e: CrtEntry, rows: seq<Row>, today: string)
    requires |columns| >= 7
    requires rows == Rows(columns, init, today) && |rows| == |init|
    requires forall i :: 0 <= i < |init| ==> rows[i] == CertRow(columns, init[i], today)
    ensures |Rows(columns, init + [e], today)| == |init| + 1
    ensures forall i :: 0 <= i < |init| + 1 ==> Rows(columns, init + [e], today)[i] == CertRow(columns, (init + [e])[i], today)
  {
    assert (init + [e])[..|init|] == init;
    var all := Rows(columns, init + [e], today);
    assert all == rows + [CertRow(columns, e, today)];
    forall i | 0 <= i < |init| + 1 ensures all[i] == CertRow(columns, (init + [e])[i], today) {
      if i < |init| {
        assert (init + [e])[i] == init[i];
      }
    }
  }

  /** One more entry adds its row at the end. */
  lemma RowsPrefixStep(columns: seq<string>, entries: seq<CrtEntry>, i: nat, today: string)
    requires |columns| >= 7 && i < |entries|
    ensures Rows(columns, entries[..i + 1], today) == Rows(columns, entries[..i], today) + [CertRow(columns, entries[i], today)]
  {
    assert entries[..i + 1][..i] == entries[..i];
  }

  /** Whether the response takes the placeholder path. */
  predicate Failed(response: Response) {
    !response.Http? || response.status != 200 || response.entries == []
  }

  /** `get_certificates(domain, columns)` as a function of the HTTP outcome. */
  function Certificates(response: Response, columns: seq<string>, today: string): seq<Row>
    requires |columns| >= 7
  {
    if Failed(response) then [Placeholder(columns, today)]
    else Rows(columns, response.entries, today)
  }

  /** A timeout, a request error, a status other than 200 or an empty list give exactly the placeholder. */
  lemma FailureGivesPlaceholder(response: Response, columns: seq<string>, today: string)
    requires |columns| >= 7
    requires response.Timeout? || response.RequestError? || (response.Http? && (response.status != 200 || response.entries == []))
    ensures Certificates(response, columns, today) == [Placeholder(columns, today)]
  {
  }

  /** A successful non-empty answer gives exactly one row per entry, in order. */
  lemma OneRowPerEntry(entries: seq<CrtEntry>, columns: seq<string>, today: string)
    requires |columns| >= 7 && entries != []
    ensures |Certificates(Http(200, entries), columns, today)| == |entries|
    ensures forall i :: 0 <= i < |entries| ==>
      Certificates(Http(200, entries), columns, today)[i] == CertRow(columns, entries[i], today)
  {
    RowsExact(columns, entries, today);
  }

  /** The lookup never returns an empty list. */
  lemma NeverEmpty(response: Response, columns: seq<string>, today: string)
    requires |columns| >= 7
    ensures Certificates(response, columns, today) != []
  {
    if !Failed(response) {
      RowsExact(columns, response.entries, today);
    }
  }

  /** `get_certificates`: the row loop over the decoded entries. */
  method GetCertificates(response: Response, columns: seq<string>, today: string) returns (certs: seq<Row>)
    requires |columns| >= 7
    ensures certs == Certificates(response, columns, today)
  {
    if !response.Http? {
      return [Placeholder(columns, today)];
    }
    if response.status != 200 {
      return [Placeholder(columns, today)];
    }
    var raw := response.entries;
    if raw == [] {
      return [Placeholder(columns, today)];
    }
    certs := [];
    for i := 0 to |raw|
      invariant certs == Rows(columns, raw[..i], today)
    {
      var entry := raw[i];
      var issuer := GetOr(entry.issuerName, NO_DATA_FOUND_TEXT);
      var entryTs := DateOf(entry.entryTimestamp);
      var nbTs := DateOf(entry.notBefore);
      var naTs := DateOf(entry.notAfter);
      var names := Names(entry);
      var flag := WildcardFlag(names);
      var joined := Domains(names);
      var row := map[columns[0] := joined][columns[1] := issuer][columns[2] := entryTs]
        [columns[3] := nbTs][columns[4] := naTs][columns[5] := flag][columns[6] := today];
      assert row == CertRow(columns, entry, today);
      RowsPrefixStep(columns, raw, i, today);
      certs := certs + [row];
    }
    assert raw[..|raw|] == raw;
  }
}
