/**
 * The DNS plugin: one instance per resource-record type. A scan clears the
 * stored snapshot of the domain, looks the records up through `dig`, shapes
 * them into rows by type and persists every row it returns.
 */
module DnsPlugin {
  import opened Wrappers
  import opened PyStr
  import opened Dicts
  import opened Config
  import opened DigLookup

  /** A result row: column name to cell value. */
  type Record = map<string, string>

  const SCANNED_AT: string := "Gescannt am"

  const RECORD_DESCRIPTIONS: map<string, string> := map[
    "A" := "Zeigt, unter welcher IPv4-Adresse die Domain erreichbar ist.",
    "AAAA" := "Zeigt, unter welcher IPv6-Adresse die Domain erreichbar ist.",
    "MX" := "Listet die Mailserver (Mail Exchange) auf, die den E-Mail-Empfang übernehmen. "
      + "Server mit niedrigerer Zahl (Priorität) werden zuerst genutzt.",
    "NS" := "Gibt an, welche Nameserver autoritativ für die Domain sind.",
    "TXT" := "Enthält frei definierbare Texte, z. B. für SPF, DKIM oder "
      + "Verifizierungs-Einträge (Google-Site-Verification u. ä.).",
    "SOA" := "Start-of-Authority-Eintrag mit primärem Nameserver, Hostmaster-Adresse, "
      + "Serial-Nummer und diversen Zeitparametern (Refresh, Retry, Expire, TTL).",
    "PTR" := "Ermöglicht Reverse-DNS (IP → Hostname); wichtig für Logging und Mail."
  ]

  const SOA_FIELDS: seq<string> := ["Primärer NS", "Hostmaster", "Serial", "Refresh", "Retry", "Expire", "Min. TTL"]
  const MX_SERVER: string := "Mailserver"
  const MX_PRIORITY: string := "Priorität"
  const PTR_IP: string := "IP-Adresse"
  const PTR_DOMAIN: string := "PTR-Domain"
  const DEFAULT_COLUMNS: seq<string> := ["Wert", SCANNED_AT]

  const RECORD_COLUMNS: map<string, seq<string>> := map[
    "A" := ["IPv4-Adresse", SCANNED_AT],
    "AAAA" := ["IPv6-Adresse", SCANNED_AT],
    "MX" := [MX_SERVER, MX_PRIORITY, SCANNED_AT],
    "NS" := ["Nameserver", SCANNED_AT],
    "TXT" := ["TXT-Record", SCANNED_AT],
    "SOA" := SOA_FIELDS + [SCANNED_AT],
    "PTR" := [PTR_IP, PTR_DOMAIN, SCANNED_AT]
  ]

  // ---------------------------------------------------------------------
  // Configuration
  // ---------------------------------------------------------------------

  /** The fields `Plugin.__init__` sets; none of them changes afterwards. */
  datatype DnsConfig = DnsConfig(recordType: string, name: string, description: string, columns: seq<string>)

  /** Every column list has a value column first and ends with the scan date. */
  predicate ValidConfig(p: DnsConfig) {
    |p.columns| >= 2 && p.columns[0] != SCANNED_AT && p.columns[|p.columns| - 1] == SCANNED_AT
  }

  /** `Plugin.__init__(record_type)` */
  function Configure(recordType: string): (p: DnsConfig)
    ensures p.recordType == Upper(recordType)
    ensures p.name == p.recordType + "-Record"
    ensures p.recordType in RECORD_DESCRIPTIONS ==> p.description == RECORD_DESCRIPTIONS[p.recordType]
    ensures p.recordType !in RECORD_DESCRIPTIONS ==> p.description == p.recordType + "-DNS-Record"
    ensures p.recordType in RECORD_COLUMNS ==> p.columns == RECORD_COLUMNS[p.recordType]
    ensures p.recordType !in RECORD_COLUMNS ==> p.columns == DEFAULT_COLUMNS
    ensures ValidConfig(p)
  {
    var t := Upper(recordType);
    DnsConfig(
      t,
      t + "-Record",
      if t in RECORD_DESCRIPTIONS then RECORD_DESCRIPTIONS[t] else t + "-DNS-Record",
      if t in RECORD_COLUMNS then RECORD_COLUMNS[t] else DEFAULT_COLUMNS)
  }

  /** The record type is case-insensitive: spellings that agree when lower-cased configure the same plugin. */
  lemma ConfigureIgnoresCase(a: string, b: string)
    requires Lower(a) == Lower(b)
    ensures Configure(a) == Configure(b)
  {
    UpperOfLower(a);
    UpperOfLower(b);
  }

  /** The lookup types `scan` asks `get_dns_records` for: PTR needs the A and AAAA answers as well. */
  function LookupTypes(recordType: string): (types: seq<string>)
    ensures recordType in types
    ensures recordType == "PTR" ==> types == ["A", "AAAA", "PTR"]
    ensures recordType != "PTR" ==> types == [recordType]
  {
    if recordType == "PTR" then ["A", "AAAA", "PTR"] else [recordType]
  }

  /** The table a plugin persists into. */
  function TableName(recordType: string): string {
    Lower(recordType) + "_record"
  }

  // ---------------------------------------------------------------------
  // Row shapes
  // ---------------------------------------------------------------------

  /**
   * The rows the helpers build, one constructor per dict shape; `Cells`
   * gives the dict itself.
   */
  datatype DnsRow =
    | PtrRow(ip: string, ptr: string, scanned: string)
    | SoaRow(fields: seq<string>, scanned: string)
    | MxRow(server: string, priority: string, scanned: string)
    | ValueRow(column: string, value: string, scanned: string)
    | PlaceholderRow(columns: seq<string>, scanned: string)

  /** `columns[:-1]` */
  function AllButLast(columns: seq<string>): (init: seq<string>)
    ensures forall c :: c in init ==> c in columns
  {
    if columns == [] then [] else columns[..|columns| - 1]
  }

  /** The dict a row stands for: column name to cell value. */
  function Cells(row: DnsRow): (r: Record)
    ensures SCANNED_AT in r && r[SCANNED_AT] == row.scanned
  {
    match row
    case PtrRow(ip, ptr, date) => map[PTR_IP := ip, PTR_DOMAIN := ptr, SCANNED_AT := date]
    case SoaRow(fields, date) =>
      (map i | 0 <= i < |SOA_FIELDS| && i < |fields| :: SOA_FIELDS[i] := fields[i])[SCANNED_AT := date]
    case MxRow(server, priority, date) => map[MX_SERVER := server, MX_PRIORITY := priority, SCANNED_AT := date]
    case ValueRow(column, value, date) => map[column := value][SCANNED_AT := date]
    case PlaceholderRow(columns, date) =>
      var init := AllButLast(columns);
      (map c | c in init :: NO_DATA_FOUND_TEXT)[SCANNED_AT := date]
  }

  /**
   * The rows a helper's loop builds: for every value in order, the row
   * `build` makes of it, if any.
   */
  function Collect(values: seq<string>, build: string -> Option<DnsRow>): seq<DnsRow> {
    if values == [] then []
    else
      var last := build(values[|values| - 1]);
      Collect(values[..|values| - 1], build) + (if last.Some? then [last.value] else [])
  }

  /** A row is collected exactly when some value builds it. */
  lemma {:induction false} CollectExact(values: seq<string>, build: string -> Option<DnsRow>, r: DnsRow)
    ensures |Collect(values, build)| <= |values|
    ensures r in Collect(values, build) <==> exists v :: v in values && build(v) == Some(r)
  {
    if values != [] {
      var init := values[..|values| - 1];
      var v := values[|values| - 1];
      assert values == init + [v];
      CollectExact(init, build, r);
      if r in Collect(init, build) {
        var w :| w in init && build(w) == Some(r);
        assert w in values;
      }
      if exists w :: w in values && build(w) == Some(r) {
        var w :| w in values && build(w) == Some(r);
        if w != v { assert w in init; }
      }
    }
  }

  /** When every value builds a row, row `i` is the row of value `i`. */
  lemma {:induction false} CollectTotal(values: seq<string>, build: string -> Option<DnsRow>)
    requires forall v :: v in values ==> build(v).Some?
    ensures |Collect(values, build)| == |values|
    ensures forall i :: 0 <= i < |values| ==> Collect(values, build)[i] == build(values[i]).value
  {
    if values != [] {
      var init := values[..|values| - 1];
      assert forall v :: v in init ==> v in values;
      CollectTotal(init, build);
      forall i | 0 <= i < |values| ensures Collect(values, build)[i] == build(values[i]).value {
        if i < |init| { assert values[i] == init[i]; }
      }
    }
  }

  /** The helper loops distribute over concatenation: rows come out in the order of their values. */
  lemma {:induction false} CollectConcat(a: seq<string>, b: seq<string>, build: string -> Option<DnsRow>)
    ensures Collect(a + b, build) == Collect(a, build) + Collect(b, build)
    decreases |b|
  {
    if b == [] {
      assert a + b == a;
    } else {
      var init := b[..|b| - 1];
      assert (a + b)[..|a + b| - 1] == a + init && (a + b)[|a + b| - 1] == b[|b| - 1];
      CollectConcat(a, init, build);
    }
  }

  lemma CollectSnoc(values: seq<string>, build: string -> Option<DnsRow>, i: nat)
    requires i < |values|
    ensures Collect(values[..i + 1], build) ==
      Collect(values[..i], build) + (if build(values[i]).Some? then [build(values[i]).value] else [])
  {
    assert values[..i + 1][..i] == values[..i];
  }

  /** The values `_scan_ptr` skips. */
  predicate IsPlaceholderPtr(p: string) {
    p == NO_DATA_FOUND_TEXT || p == NO_DATA_SCANNED_TEXT
  }

  function PtrBuilder(ip: string, date: string): string -> Option<DnsRow> {
    p => if IsPlaceholderPtr(p) then None else Some(PtrRow(ip, p, date))
  }

  /** The rows of one address: one per PTR name that is not a placeholder, in order. */
  function PtrRowsOf(ip: string, ptrs: seq<string>, date: string): seq<DnsRow> {
    Collect(ptrs, PtrBuilder(ip, date))
  }

  /** The rows of the addresses `keys`, in order. */
  function PtrRowsFrom(keys: seq<string>, items: map<string, seq<string>>, date: string): seq<DnsRow>
    requires forall k :: k in keys ==> k in items
  {
    if keys == [] then []
    else
      var init := keys[..|keys| - 1];
      var ip := keys[|keys| - 1];
      assert keys == init + [ip];
      PtrRowsFrom(init, items, date) + PtrRowsOf(ip, items[ip], date)
  }

  /** The rows of one address are exactly its real PTR names. */
  lemma PtrRowsOfExact(ip: string, ptrs: seq<string>, date: string, r: DnsRow)
    ensures r in PtrRowsOf(ip, ptrs, date) <==> r.PtrRow? && r.ip == ip && r.ptr in ptrs && !IsPlaceholderPtr(r.ptr) && r.scanned == date
  {
    CollectExact(ptrs, PtrBuilder(ip, date), r);
    if r.PtrRow? && r.ip == ip && r.ptr in ptrs && !IsPlaceholderPtr(r.ptr) && r.scanned == date {
      assert PtrBuilder(ip, date)(r.ptr) == Some(r);
    }
  }

  /** `_scan_ptr` finds one row per (address, name) pair with a real name, and no other rows. */
  lemma {:induction false} PtrRowsFromExact(keys: seq<string>, items: map<string, seq<string>>, date: string, r: DnsRow)
    requires forall k :: k in keys ==> k in items
    ensures r in PtrRowsFrom(keys, items, date) <==>
      r.PtrRow? && r.ip in keys && r.ptr in items[r.ip] && !IsPlaceholderPtr(r.ptr) && r.scanned == date
  {
    if keys != [] {
      var init := keys[..|keys| - 1];
      var ip := keys[|keys| - 1];
      assert keys == init + [ip];
      PtrRowsFromExact(init, items, date, r);
      PtrRowsOfExact(ip, items[ip], date, r);
    }
  }

  /** What `_scan_ptr` appends to a result list holding `prior`. */
  function PtrRows(prior: seq<DnsRow>, ptr: Dict<string, seq<string>>, date: string): (rows: seq<DnsRow>)
    requires ptr.Valid()
    ensures prior == [] ==> rows != []
  {
    var found := PtrRowsFrom(ptr.keys, ptr.items, date);
    if prior == [] && found == [] then [PtrRow(NO_DATA_FOUND_TEXT, NO_DATA_FOUND_TEXT, date)] else found
  }

  /** A raw SOA answer `_scan_soa` turns into a row: at least seven fields. */
  predicate IsSoaAnswer(v: string) {
    |SplitWhitespace(v)| >= 7
  }

  /** The row of the fields of a SOA answer: the first seven in column order, if there are that many. */
  function SoaOfFields(parts: seq<string>, date: string): Option<DnsRow> {
    if |parts| >= 7 then Some(SoaRow(parts[..7], date)) else None
  }

  /** The row of a SOA answer. */
  function SoaRowOf(v: string, date: string): DnsRow
    requires IsSoaAnswer(v)
  {
    SoaOfFields(SplitWhitespace(v), date).value
  }

  function SoaBuilder(date: string): string -> Option<DnsRow> {
    v => SoaOfFields(SplitWhitespace(v), date)
  }

  /** The rows `_scan_soa` builds from the raw answers, in order. */
  function SoaRowsFrom(values: seq<string>, date: string): seq<DnsRow> {
    Collect(values, SoaBuilder(date))
  }

  /**
   * `_scan_soa` keeps exactly the answers of at least seven fields, and no
   * more rows than answers; `SoaRowsInOrder` gives the order.
   */
  lemma SoaRowsFromExact(values: seq<string>, date: string, r: DnsRow)
    ensures |SoaRowsFrom(values, date)| <= |values|
    ensures r in SoaRowsFrom(values, date) <==> exists v :: v in values && IsSoaAnswer(v) && r == SoaRowOf(v, date)
  {
    CollectExact(values, SoaBuilder(date), r);
    if exists v :: v in values && IsSoaAnswer(v) && r == SoaRowOf(v, date) {
      var v :| v in values && IsSoaAnswer(v) && r == SoaRowOf(v, date);
      assert SoaBuilder(date)(v) == Some(r);
    }
    if r in SoaRowsFrom(values, date) {
      var v :| v in values && SoaBuilder(date)(v) == Some(r);
      assert IsSoaAnswer(v) && r == SoaRowOf(v, date);
    }
  }

  /** One row per SOA answer, in the order of the answers: the loop distributes over `+`, one answer at a time. */
  lemma SoaRowsInOrder(a: seq<string>, b: seq<string>, v: string, date: string)
    ensures SoaRowsFrom(a + b, date) == SoaRowsFrom(a, date) + SoaRowsFrom(b, date)
    ensures SoaRowsFrom([v], date) == if IsSoaAnswer(v) then [SoaRowOf(v, date)] else []
  {
    CollectConcat(a, b, SoaBuilder(date));
    assert [v][..0] == [];
    assert SoaRowsFrom([v], date) == Collect([], SoaBuilder(date)) + (if SoaBuilder(date)(v).Some? then [SoaBuilder(date)(v).value] else []);
  }

  /** What `_scan_soa` appends to a result list holding `prior`. */
  function SoaRows(prior: seq<DnsRow>, columns: seq<string>, values: seq<string>, date: string): (rows: seq<DnsRow>)
    ensures prior == [] ==> rows != []
  {
    var found := SoaRowsFrom(values, date);
    if prior == [] && found == [] then [PlaceholderRow(columns, date)] else found
  }

  /** The row `_scan_mx` builds from one raw answer: `preference server`, or the whole text as the server. */
  function MxRowOf(raw: string, date: string): DnsRow {
    var parts := SplitWhitespace(raw);
    if |parts| == 2 then MxRow(parts[1], parts[0], date) else MxRow(raw, NO_DATA_FOUND_TEXT, date)
  }

  function MxBuilder(date: string): string -> Option<DnsRow> {
    raw => Some(MxRowOf(raw, date))
  }

  /** `_scan_mx`: one row per raw answer, in order. */
  function MxRows(values: seq<string>, date: string): seq<DnsRow> {
    Collect(values, MxBuilder(date))
  }

  function ValueBuilder(column: string, date: string): string -> Option<DnsRow> {
    v => Some(ValueRow(column, v, date))
  }

  /** `_scan_simple`: one row per value, in order. */
  function SimpleRows(column: string, values: seq<string>, date: string): seq<DnsRow> {
    Collect(values, ValueBuilder(column, date))
  }

  /** `_scan_mx` emits exactly one row per raw answer, at its position. */
  lemma MxRowsExact(values: seq<string>, date: string)
    ensures |MxRows(values, date)| == |values|
    ensures forall i :: 0 <= i < |values| ==> MxRows(values, date)[i] == MxRowOf(values[i], date)
  {
    CollectTotal(values, MxBuilder(date));
  }

  /** `_scan_simple` emits exactly one row per value, at its position. */
  lemma SimpleRowsExact(column: string, values: seq<string>, date: string)
    ensures |SimpleRows(column, values, date)| == |values|
    ensures forall i :: 0 <= i < |values| ==> SimpleRows(column, values, date)[i] == ValueRow(column, values[i], date)
  {
    CollectTotal(values, ValueBuilder(column, date));
  }

  /** The PTR part of the looked-up records: `dns_data.get("PTR", {})`. */
  function PtrDict(dns: DnsRecords): Dict<string, seq<string>> {
    if dns.ptr.Some? then dns.ptr.value else Empty()
  }

  /** Both dicts of a lookup are well formed. */
  ghost predicate WellFormed(dns: DnsRecords) {
    dns.records.Valid() && PtrDict(dns).Valid()
  }

  /** The rows a scan returns, by record type. */
  function ScanRows(p: DnsConfig, dns: DnsRecords, date: string): seq<DnsRow>
    requires ValidConfig(p) && WellFormed(dns)
  {
    match p.recordType
    case "PTR" => PtrRows([], PtrDict(dns), date)
    case "SOA" => SoaRows([], p.columns, Get(dns.records, "SOA"), date)
    case "MX" => MxRows(Get(dns.records, "MX"), date)
    case _ => SimpleRows(p.columns[0], Get(dns.records, p.recordType), date)
  }

  // ---------------------------------------------------------------------
  // Properties of the row shapes
  // ---------------------------------------------------------------------

  /** A well-formed MX answer `preference server` gives exactly those two cells. */
  lemma MxAnswerRoundTrip(preference: string, server: string, date: string)
    requires IsToken(preference) && IsToken(server)
    ensures MxRowOf(preference + " " + server, date) == MxRow(server, preference, date)
  {
    assert Join([preference, server], " ") == preference + " " + server;
    SplitJoinedTokens([preference, server]);
  }

  /** An answer of a single field is taken as the server, with no priority. */
  lemma MxSingleFieldAnswer(server: string, date: string)
    requires IsToken(server)
    ensures MxRowOf(server, date) == MxRow(server, NO_DATA_FOUND_TEXT, date)
  {
    assert Join([server], " ") == server;
    SplitJoinedTokens([server]);
  }

  /** A SOA answer of seven fields fills the seven SOA columns in order. */
  lemma SoaAnswerRoundTrip(fields: seq<string>, date: string)
    requires |fields| == 7 && forall i :: 0 <= i < 7 ==> IsToken(fields[i])
    ensures SoaRowsFrom([Join(fields, " ")], date) == [SoaRow(fields, date)]
  {
    var answer := Join(fields, " ");
    SplitJoinedTokens(fields);
    assert fields[..7] == fields;
    assert SoaBuilder(date)(answer) == Some(SoaRow(fields, date));
    assert [answer][..0] == [];
    assert SoaRowsFrom([answer], date) == Collect([], SoaBuilder(date)) + [SoaRow(fields, date)];
  }

  /** The placeholder row's dict: every column but the last is the placeholder text, and the scan date. */
  lemma PlaceholderCells(columns: seq<string>, date: string, c: string)
    ensures c in Cells(PlaceholderRow(columns, date)) <==> c in AllButLast(columns) || c == SCANNED_AT
    ensures c in Cells(PlaceholderRow(columns, date)) && c != SCANNED_AT ==> Cells(PlaceholderRow(columns, date))[c] == NO_DATA_FOUND_TEXT
  {
  }

  /** With the records `get_dns_records` returns, every plugin's scan yields at least one row. */
  lemma ScanNeverEmpty(recordType: string, domain: string, dig: seq<string> -> Option<string>, date: string)
    ensures WellFormed(Lookup(domain, LookupTypes(Configure(recordType).recordType), dig))
    ensures ScanRows(Configure(recordType), Lookup(domain, LookupTypes(Configure(recordType).recordType), dig), date) != []
  {
    var p := Configure(recordType);
    var types := LookupTypes(p.recordType);
    var dns := Lookup(domain, types, dig);
    if p.recordType != "PTR" {
      assert p.recordType in dns.records.items;
    }
  }

  /** Every row of a scan carries the scan date. */
  lemma ScanRowsDated(p: DnsConfig, dns: DnsRecords, date: string, r: DnsRow)
    requires ValidConfig(p) && WellFormed(dns)
    requires r in ScanRows(p, dns, date)
    ensures r.scanned == date
  {
    match p.recordType
    case "PTR" => PtrRowsFromExact(PtrDict(dns).keys, PtrDict(dns).items, date, r);
    case "SOA" => SoaRowsFromExact(Get(dns.records, "SOA"), date, r);
    case "MX" =>
      var values := Get(dns.records, "MX");
      MxRowsExact(values, date);
      var i :| 0 <= i < |values| && MxRows(values, date)[i] == r;
    case _ =>
      var values := Get(dns.records, p.recordType);
      SimpleRowsExact(p.columns[0], values, date);
      var i :| 0 <= i < |values| && SimpleRows(p.columns[0], values, date)[i] == r;
  }

  // ---------------------------------------------------------------------
  // Persistence and the scan
  // ---------------------------------------------------------------------

  /** One persisted row: the domain it belongs to and its value. */
  datatype StoredRecord = StoredRecord(domain: string, value: DnsRow)

  function Stored(domain: string, rows: seq<DnsRow>): seq<StoredRecord>
  {
    if rows == [] then [] else Stored(domain, rows[..|rows| - 1]) + [StoredRecord(domain, rows[|rows| - 1])]
  }

  /** The stored rows of every domain but `domain`, in order. */
  function Without(rows: seq<StoredRecord>, domain: string): (kept: seq<StoredRecord>)
    ensures forall s :: s in kept <==> s in rows && s.domain != domain
  {
    if rows == [] then []
    else
      var init := rows[..|rows| - 1];
      var last := rows[|rows| - 1];
      assert rows == init + [last];
      if last.domain == domain then Without(init, domain) else Without(init, domain) + [last]
  }

  /** One table the plugins write to: `DELETE ... WHERE domain` and `insert_record`. */
  class Table {
    const name: string
    var rows: seq<StoredRecord>

    /** `create_standard_table`: a new table is empty. */
    constructor(name: string)
      ensures this.name == name && rows == []
    {
      this.name := name;
      rows := [];
    }

    method DeleteDomain(domain: string)
      modifies this
      ensures rows == Without(old(rows), domain)
    {
      rows := Without(rows, domain);
    }

    method Insert(domain: string, value: DnsRow)
      modifies this
      ensures rows == old(rows) + [StoredRecord(domain, value)]
    {
      rows := rows + [StoredRecord(domain, value)];
    }
  }

  lemma StoredAppend(domain: string, rows: seq<DnsRow>, r: DnsRow)
    ensures Stored(domain, rows + [r]) == Stored(domain, rows) + [StoredRecord(domain, r)]
  {
    assert (rows + [r])[..|rows|] == rows;
  }

  lemma {:induction false} StoredConcat(domain: string, a: seq<DnsRow>, b: seq<DnsRow>)
    ensures Stored(domain, a + b) == Stored(domain, a) + Stored(domain, b)
    decreases |b|
  {
    if b == [] {
      assert a + b == a;
    } else {
      var init := b[..|b| - 1];
      var last := b[|b| - 1];
      assert b == init + [last];
      assert a + b == (a + init) + [last];
      calc {
        Stored(domain, a + b);
        Stored(domain, (a + init) + [last]);
        { StoredAppend(domain, a + init, last); }
        Stored(domain, a + init) + [StoredRecord(domain, last)];
        { StoredConcat(domain, a, init); }
        Stored(domain, a) + Stored(domain, init) + [StoredRecord(domain, last)];
        { StoredAppend(domain, init, last); }
        Stored(domain, a) + Stored(domain, b);
      }
    }
  }

  lemma PtrRowsFromSnoc(keys: seq<string>, items: map<string, seq<string>>, i: nat, date: string)
    requires i < |keys| && forall k :: k in keys ==> k in items
    ensures PtrRowsFrom(keys[..i + 1], items, date) == PtrRowsFrom(keys[..i], items, date) + PtrRowsOf(keys[i], items[keys[i]], date)
  {
    assert keys[..i + 1][..i] == keys[..i];
  }

  /** The inner loop of `_scan_ptr`: the rows of one address. */
  method ScanPtrsOf(ip: string, ptrList: seq<string>, domain: string, scanDate: string, table: Table)
    returns (added: seq<DnsRow>)
    modifies table
    ensures added == PtrRowsOf(ip, ptrList, scanDate)
    ensures table.rows == old(table.rows) + Stored(domain, added)
  {
    added := [];
    assert Stored(domain, added) == [];
    var j := 0;
    while j < |ptrList|
      invariant 0 <= j <= |ptrList|
      invariant added == PtrRowsOf(ip, ptrList[..j], scanDate)
      invariant table.rows == old(table.rows) + Stored(domain, added)
    {
      CollectSnoc(ptrList, PtrBuilder(ip, scanDate), j);
      var p := ptrList[j];
      if !IsPlaceholderPtr(p) {
        var entry := PtrRow(ip, p, scanDate);
        StoredAppend(domain, added, entry);
        table.Insert(domain, entry);
        added := added + [entry];
      }
      j := j + 1;
    }
    assert ptrList[..j] == ptrList;
  }

  /** The outer loop of `_scan_ptr`: the rows of every address, in order. */
  method ScanPtrAddresses(ptr: Dict<string, seq<string>>, domain: string, scanDate: string, table: Table)
    returns (added: seq<DnsRow>)
    requires forall k :: k in ptr.keys ==> k in ptr.items
    modifies table
    ensures added == PtrRowsFrom(ptr.keys, ptr.items, scanDate)
    ensures table.rows == old(table.rows) + Stored(domain, added)
  {
    added := [];
    assert Stored(domain, added) == [];
    var i := 0;
    while i < |ptr.keys|
      invariant 0 <= i <= |ptr.keys|
      invariant added == PtrRowsFrom(ptr.keys[..i], ptr.items, scanDate)
      invariant table.rows == old(table.rows) + Stored(domain, added)
    {
      PtrRowsFromSnoc(ptr.keys, ptr.items, i, scanDate);
      var ip := ptr.keys[i];
      var rows := ScanPtrsOf(ip, ptr.items[ip], domain, scanDate, table);
      StoredConcat(domain, added, rows);
      added := added + rows;
      i := i + 1;
    }
    assert ptr.keys[..i] == ptr.keys;
  }

  /** `_scan_ptr`: appends and persists one row per real PTR name, or the placeholder on an empty result list. */
  method ScanPtr(ptr: Dict<string, seq<string>>, domain: string, scanDate: string, results: seq<DnsRow>,
                 table: Table)
    returns (out: seq<DnsRow>)
    requires ptr.Valid()
    modifies table
    ensures out == results + PtrRows(results, ptr, scanDate)
    ensures table.rows == old(table.rows) + Stored(domain, PtrRows(results, ptr, scanDate))
  {
    var added := ScanPtrAddresses(ptr, domain, scanDate, table);
    if results == [] && added == [] {
      var placeholder := PtrRow(NO_DATA_FOUND_TEXT, NO_DATA_FOUND_TEXT, scanDate);
      StoredAppend(domain, added, placeholder);
      table.Insert(domain, placeholder);
      added := added + [placeholder];
    }
    out := results + added;
  }

  /** The loop of `_scan_soa`: one row per answer of at least seven fields. */
  method ScanSoaAnswers(values: seq<string>, domain: string, scanDate: string, table: Table)
    returns (added: seq<DnsRow>)
    modifies table
    ensures added == SoaRowsFrom(values, scanDate)
    ensures table.rows == old(table.rows) + Stored(domain, added)
  {
    added := [];
    assert Stored(domain, added) == [];
    var i := 0;
    while i < |values|
      invariant 0 <= i <= |values|
      invariant added == SoaRowsFrom(values[..i], scanDate)
      invariant table.rows == old(table.rows) + Stored(domain, added)
    {
      CollectSnoc(values, SoaBuilder(scanDate), i);
      var parts := SplitWhitespace(values[i]);
      assert SoaBuilder(scanDate)(values[i]) == SoaOfFields(parts, scanDate);
      if |parts| >= 7 {
        var entry := SoaRow(parts[..7], scanDate);
        StoredAppend(domain, added, entry);
        table.Insert(domain, entry);
        added := added + [entry];
      }
      i := i + 1;
    }
    assert values[..i] == values;
  }

  /** `_scan_soa`: appends and persists one row per seven-field answer, or the placeholder on an empty result list. */
  method ScanSoa(columns: seq<string>, values: seq<string>, domain: string, scanDate: string, results: seq<DnsRow>,
                 table: Table)
    returns (out: seq<DnsRow>)
    modifies table
    ensures out == results + SoaRows(results, columns, values, scanDate)
    ensures table.rows == old(table.rows) + Stored(domain, SoaRows(results, columns, values, scanDate))
  {
    var added := ScanSoaAnswers(values, domain, scanDate, table);
    if results == [] && added == [] {
      var placeholder := PlaceholderRow(columns, scanDate);
      StoredAppend(domain, added, placeholder);
      table.Insert(domain, placeholder);
      added := added + [placeholder];
    }
    out := results + added;
  }

  /** `_scan_mx`: appends and persists one row per raw answer. */
  method ScanMx(values: seq<string>, domain: string, scanDate: string, results: seq<DnsRow>, table: Table)
    returns (out: seq<DnsRow>)
    modifies table
    ensures out == results + MxRows(values, scanDate)
    ensures table.rows == old(table.rows) + Stored(domain, MxRows(values, scanDate))
  {
    var added: seq<DnsRow> := [];
    assert Stored(domain, added) == [];
    var i := 0;
    while i < |values|
      invariant 0 <= i <= |values|
      invariant added == MxRows(values[..i], scanDate)
      invariant table.rows == old(table.rows) + Stored(domain, added)
    {
      assert values[..i + 1][..i] == values[..i];
      var entry := MxRowOf(values[i], scanDate);
      StoredAppend(domain, added, entry);
      table.Insert(domain, entry);
      added := added + [entry];
      i := i + 1;
    }
    assert values[..i] == values;
    out := results + added;
  }

  /** `_scan_simple`: appends and persists one row per value, keyed by the first column. */
  method ScanSimple(column: string, values: seq<string>, domain: string, scanDate: string, results: seq<DnsRow>,
                    table: Table)
    returns (out: seq<DnsRow>)
    modifies table
    ensures out == results + SimpleRows(column, values, scanDate)
    ensures table.rows == old(table.rows) + Stored(domain, SimpleRows(column, values, scanDate))
  {
    var added: seq<DnsRow> := [];
    assert Stored(domain, added) == [];
    var i := 0;
    while i < |values|
      invariant 0 <= i <= |values|
      invariant added == SimpleRows(column, values[..i], scanDate)
      invariant table.rows == old(table.rows) + Stored(domain, added)
    {
      assert values[..i + 1][..i] == values[..i];
      var entry := ValueRow(column, values[i], scanDate);
      StoredAppend(domain, added, entry);
      table.Insert(domain, entry);
      added := added + [entry];
      i := i + 1;
    }
    assert values[..i] == values;
    out := results + added;
  }

  /**
   * `Plugin.scan`: the stored snapshot of the domain is replaced by exactly
   * the rows returned, and those are the rows of the looked-up records.
   */
  method Scan(p: DnsConfig, domain: string, today: string, dig: seq<string> -> Option<string>, table: Table)
    returns (results: seq<DnsRow>)
    requires ValidConfig(p) && table.name == TableName(p.recordType)
    modifies table
    ensures results == ScanRows(p, Lookup(domain, LookupTypes(p.recordType), dig), today)
    ensures table.rows == Without(old(table.rows), domain) + Stored(domain, results)
  {
    table.DeleteDomain(domain);
    var dns := GetDnsRecords(domain, Some(LookupTypes(p.recordType)), dig);
    assert RequestedTypes(Some(LookupTypes(p.recordType))) == LookupTypes(p.recordType);
    var empty: seq<DnsRow> := [];
    match p.recordType
    case "PTR" => results := ScanPtr(PtrDict(dns), domain, today, empty, table);
    case "SOA" => results := ScanSoa(p.columns, Get(dns.records, "SOA"), domain, today, empty, table);
    case "MX" => results := ScanMx(Get(dns.records, "MX"), domain, today, empty, table);
    case _ => results := ScanSimple(p.columns[0], Get(dns.records, p.recordType), domain, today, empty, table);
  }
}
