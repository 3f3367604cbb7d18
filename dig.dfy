/**
 * The post-processing around the `dig` command line tool. `dig` itself is
 * a parameter: it maps an argument list to what the process printed, or to
 * `None` when starting it raised.
 */
module DigLookup {
  import opened Wrappers
  import opened PyStr
  import opened Sorting
  import opened Dicts
  import opened Config

  /** `DEFAULT_TYPES` */
  const DEFAULT_TYPES: seq<string> := ["A", "AAAA", "MX", "NS", "TXT", "SOA", "PTR"]

  /** The non-empty lines, in order. */
  function NonEmptyLines(lines: seq<string>): (r: seq<string>)
    ensures forall l :: l in r <==> l in lines && l != []
  {
    if lines == [] then []
    else
      var rest := NonEmptyLines(lines[1..]);
      assert forall l :: l in lines <==> l == lines[0] || l in lines[1..];
      if lines[0] != [] then [lines[0]] + rest else rest
  }

  /** `_run_dig` given the process output: sorted, distinct, non-empty lines; nothing when it raised. */
  function RunDig(stdout: Option<string>): (lines: seq<string>)
    ensures StrictlySorted(lines)
    ensures stdout.None? ==> lines == []
    ensures stdout.Some? ==> forall l :: l in lines <==> l in SplitLines(Strip(stdout.value)) && l != []
    ensures forall l :: l in lines ==> l != []
  {
    match stdout
    case None => []
    case Some(out) => SortedUnique(NonEmptyLines(SplitLines(Strip(out))))
  }

  /** `result or [NO_DATA_FOUND_TEXT]`: an empty answer becomes the placeholder. */
  function OrPlaceholder(lines: seq<string>): (r: seq<string>)
    ensures r != []
    ensures lines != [] ==> r == lines
    ensures lines == [] ==> r == [NO_DATA_FOUND_TEXT]
  {
    if lines == [] then [NO_DATA_FOUND_TEXT] else lines
  }

  /** `_run_dig(["dig", domain, rtype, "+short"])` */
  function Query(dig: seq<string> -> Option<string>, domain: string, rtype: string): seq<string> {
    RunDig(dig(["dig", domain, rtype, "+short"]))
  }

  /** `_run_dig(["dig", "-x", ip, "+short"])` */
  function ReverseQuery(dig: seq<string> -> Option<string>, ip: string): seq<string> {
    RunDig(dig(["dig", "-x", ip, "+short"]))
  }

  /** The dict comprehension of `_collect_ptr_records`: one key per distinct address, first occurrence first. */
  function PtrFold(ips: seq<string>, dig: seq<string> -> Option<string>): (d: Dict<string, seq<string>>)
    ensures d.Valid()
    ensures forall k :: k in d.items <==> k in ips
    ensures forall k :: k in d.items ==> d.items[k] == OrPlaceholder(ReverseQuery(dig, k))
  {
    if ips == [] then Empty()
    else
      var init := ips[..|ips| - 1];
      var ip := ips[|ips| - 1];
      assert ips == init + [ip];
      PtrFold(init, dig).Set(ip, OrPlaceholder(ReverseQuery(dig, ip)))
  }

  /** `_collect_ptr_records`: no addresses give the single placeholder entry. */
  function CollectPtrRecords(ips: seq<string>, dig: seq<string> -> Option<string>): (d: Dict<string, seq<string>>)
    ensures d.Valid()
    ensures ips == [] ==> d.keys == [NO_DATA_FOUND_TEXT] && d.items == map[NO_DATA_FOUND_TEXT := [NO_DATA_FOUND_TEXT]]
    ensures ips != [] ==> forall k :: k in d.items <==> k in ips
    ensures ips != [] ==> forall k :: k in d.items ==> d.items[k] == OrPlaceholder(ReverseQuery(dig, k))
    ensures forall k :: k in d.items ==> d.items[k] != []
  {
    if ips == [] then Empty().Set(NO_DATA_FOUND_TEXT, [NO_DATA_FOUND_TEXT]) else PtrFold(ips, dig)
  }

  /** `record_types or DEFAULT_TYPES` */
  function RequestedTypes(recordTypes: Option<seq<string>>): (types: seq<string>)
    ensures recordTypes.None? || recordTypes.value == [] ==> types == DEFAULT_TYPES
    ensures recordTypes.Some? && recordTypes.value != [] ==> types == recordTypes.value
  {
    if recordTypes.None? || recordTypes.value == [] then DEFAULT_TYPES else recordTypes.value
  }

  /** What the first loop of `get_dns_records` builds: every requested type but `PTR`, with its answer or the placeholder. */
  function RecordsFor(domain: string, types: seq<string>, dig: seq<string> -> Option<string>): (d: Dict<string, seq<string>>)
    ensures d.Valid()
    ensures forall t :: t in d.items <==> t in types && t != "PTR"
    ensures forall t :: t in d.items ==> d.items[t] == OrPlaceholder(Query(dig, domain, t))
  {
    if types == [] then Empty()
    else
      var init := types[..|types| - 1];
      var t := types[|types| - 1];
      assert types == init + [t];
      var d := RecordsFor(domain, init, dig);
      if t == "PTR" then d else d.Set(t, OrPlaceholder(Query(dig, domain, t)))
  }

  /** `dns_records.get(k, [])` */
  function Get(d: Dict<string, seq<string>>, k: string): seq<string> {
    if k in d.items then d.items[k] else []
  }

  /** The values other than the placeholder, in order. */
  function WithoutPlaceholder(vs: seq<string>): (r: seq<string>)
    ensures forall v :: v in r <==> v in vs && v != NO_DATA_FOUND_TEXT
  {
    if vs == [] then []
    else
      var rest := WithoutPlaceholder(vs[1..]);
      assert forall v :: v in vs <==> v == vs[0] || v in vs[1..];
      if vs[0] != NO_DATA_FOUND_TEXT then [vs[0]] + rest else rest
  }

  /** The addresses the PTR lookups start from: the A answers, then the AAAA answers, without placeholders. */
  function PtrAddresses(records: Dict<string, seq<string>>): seq<string> {
    WithoutPlaceholder(Get(records, "A")) + WithoutPlaceholder(Get(records, "AAAA"))
  }

  /** The PTR lookups start from exactly the real A and AAAA answers of the requested types. */
  lemma PtrAddressesFrom(domain: string, types: seq<string>, dig: seq<string> -> Option<string>, ip: string)
    ensures ip in PtrAddresses(RecordsFor(domain, types, dig)) <==>
      ip != NO_DATA_FOUND_TEXT &&
      (("A" in types && ip in Query(dig, domain, "A")) || ("AAAA" in types && ip in Query(dig, domain, "AAAA")))
  {
    var records := RecordsFor(domain, types, dig);
    if "A" in types { assert "A" in records.items; }
    if "AAAA" in types { assert "AAAA" in records.items; }
  }

  /** The result of `get_dns_records`: the plain records, and the nested PTR mapping when `PTR` was requested. */
  datatype DnsRecords = DnsRecords(records: Dict<string, seq<string>>, ptr: Option<Dict<string, seq<string>>>)

  /** What `get_dns_records` returns for the given requested types. */
  function Lookup(domain: string, types: seq<string>, dig: seq<string> -> Option<string>): (dns: DnsRecords)
    ensures dns.ptr.Some? <==> "PTR" in types
  {
    var records := RecordsFor(domain, types, dig);
    DnsRecords(records, if "PTR" in types then Some(CollectPtrRecords(PtrAddresses(records), dig)) else None)
  }

  /** `get_dns_records` */
  method GetDnsRecords(domain: string, recordTypes: Option<seq<string>>, dig: seq<string> -> Option<string>)
    returns (dns: DnsRecords)
    ensures dns == Lookup(domain, RequestedTypes(recordTypes), dig)
  {
    var types := RequestedTypes(recordTypes);
    var records := Empty<string, seq<string>>();
    var i := 0;
    while i < |types|
      invariant 0 <= i <= |types|
      invariant records == RecordsFor(domain, types[..i], dig)
    {
      assert types[..i + 1][..i] == types[..i];
      var rtype := types[i];
      if rtype != "PTR" {
        var result := Query(dig, domain, rtype);
        records := records.Set(rtype, OrPlaceholder(result));
      }
      i := i + 1;
    }
    assert types[..i] == types;
    var ptr := None;
    if "PTR" in types {
      var ips := PtrAddresses(records);
      ptr := Some(CollectPtrRecords(ips, dig));
    }
    dns := DnsRecords(records, ptr);
  }
}
