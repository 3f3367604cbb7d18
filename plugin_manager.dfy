/**
 * The registry of plugin instances: one instance per attribute key, the
 * same instance again under the lower-case spelling of its key, an
 * exact-key lookup and the listing of the distinct instances.
 */
module PluginManager {
  import opened Wrappers
  import opened PyStr
  import opened Dicts
  import DnsPlugin

  /** What an instance is; the DNS plugin carries the fields its constructor sets. */
  datatype PluginKind =
    | Dns(config: DnsPlugin.DnsConfig)
    | Subdomain | Certificate | Endpoint | Email | Phone | Service

  /** A plugin instance: `id(p)` tells instances apart, so this is an object. */
  class Plugin {
    const kind: PluginKind

    constructor(kind: PluginKind)
      ensures this.kind == kind
    {
      this.kind := kind;
    }
  }

  /** The keys of `_plugin_registry`, in registration order. */
  const KEYS: seq<string> :=
    ["A", "AAAA", "MX", "NS", "TXT", "SOA", "PTR", "SUBDOMAIN", "CERTIFICATE", "ENDPOINT", "EMAIL", "PHONE", "SERVICE"]

  /** The number of DNS keys at the front of `KEYS`. */
  const DNS_KEY_COUNT: nat := 7

  /** The plugin registered under each key. */
  function KindOf(key: string): PluginKind {
    match key
    case "SUBDOMAIN" => Subdomain
    case "CERTIFICATE" => Certificate
    case "ENDPOINT" => Endpoint
    case "EMAIL" => Email
    case "PHONE" => Phone
    case "SERVICE" => Service
    case _ => Dns(DnsPlugin.Configure(key))
  }

  // ---------------------------------------------------------------------
  // Keys and their aliases
  // ---------------------------------------------------------------------

  /** A key made of upper-case ASCII letters. */
  predicate UpperWord(k: string) {
    k != [] && forall i :: 0 <= i < |k| ==> 'A' <= k[i] <= 'Z'
  }

  /** The lower-case alias of an upper-case key is never itself an upper-case key. */
  lemma AliasIsNoKey(a: string, b: string)
    requires UpperWord(a) && UpperWord(b)
    ensures Lower(a) != b
  {
    assert Lower(a)[0] == LowerChar(a[0]);
  }

  /** Distinct upper-case keys have distinct aliases. */
  lemma AliasesDistinct(a: string, b: string)
    requires UpperWord(a) && UpperWord(b) && a != b
    ensures Lower(a) != Lower(b)
  {
    if |a| == |b| {
      var i :| 0 <= i < |a| && a[i] != b[i];
      assert Lower(a)[i] != Lower(b)[i];
    }
  }

  /** Registry keys: distinct upper-case words. */
  predicate WellFormedKeys(keys: seq<string>) {
    && (forall i :: 0 <= i < |keys| ==> UpperWord(keys[i]))
    && (forall i, j :: 0 <= i < j < |keys| ==> keys[i] != keys[j])
  }

  lemma KeysWellFormed()
    ensures WellFormedKeys(KEYS)
  {
  }

  /** The lower-case aliases of well-formed keys are new keys and differ from each other. */
  lemma KeyAliasesFresh(keys: seq<string>)
    requires WellFormedKeys(keys)
    ensures forall i, j :: 0 <= i < |keys| && 0 <= j < |keys| ==> Lower(keys[i]) != keys[j]
    ensures forall i, j :: 0 <= i < j < |keys| ==> Lower(keys[i]) != Lower(keys[j])
  {
    forall i, j | 0 <= i < |keys| && 0 <= j < |keys| ensures Lower(keys[i]) != keys[j] {
      AliasIsNoKey(keys[i], keys[j]);
    }
    forall i, j | 0 <= i < j < |keys| ensures Lower(keys[i]) != Lower(keys[j]) {
      AliasesDistinct(keys[i], keys[j]);
    }
  }

  // ---------------------------------------------------------------------
  // The dict literal with distinct keys
  // ---------------------------------------------------------------------

  /** No element occurs twice. */
  predicate Distinct<K(==)>(s: seq<K>) {
    forall i, j :: 0 <= i < j < |s| ==> s[i] != s[j]
  }

  /** A prefix of a list without repetitions has none either. */
  lemma DistinctPrefix<K>(s: seq<K>, n: nat)
    requires Distinct(s) && n <= |s|
    ensures Distinct(s[..n])
  {
    assert forall i :: 0 <= i < n ==> s[..n][i] == s[i];
  }

  /** A dict literal with distinct keys: key `i` holds value `i`. */
  function Registered<K(!new), V>(keys: seq<K>, values: seq<V>): (r: Dict<K, V>)
    requires |keys| == |values| && Distinct(keys)
    ensures r.Valid() && r.keys == keys
    ensures forall i :: 0 <= i < |keys| ==> r.items[keys[i]] == values[i]
  {
    var items := map i | 0 <= i < |keys| :: keys[i] := values[i];
    assert forall k :: k in items <==> k in keys;
    Dict(keys, items)
  }

  /** Assigning a new key to a dict literal gives the literal with that key added at the end. */
  lemma RegisteredSnoc<K(!new), V>(keys: seq<K>, values: seq<V>, k: K, v: V)
    requires |keys| == |values| && Distinct(keys + [k])
    ensures Distinct(keys)
    ensures Registered(keys + [k], values + [v]) == Registered(keys, values).Set(k, v)
  {
    var ks := keys + [k];
    assert forall i :: 0 <= i < |keys| ==> ks[i] == keys[i];
    assert k !in keys by {
      forall i | 0 <= i < |keys| ensures keys[i] != k {
        assert ks[i] != ks[|keys|];
      }
    }
    var a := Registered(ks, values + [v]);
    var d := Registered(keys, values);
    var b := d.Set(k, v);
    assert a.keys == b.keys;
    forall x | x in a.items ensures x in b.items && a.items[x] == b.items[x] {
      var i :| 0 <= i < |ks| && ks[i] == x;
      if i < |keys| {
        assert a.items[x] == values[i] == d.items[x];
      } else {
        assert x == k && a.items[x] == (values + [v])[i] == v;
      }
    }
    assert a.items == b.items;
  }

  // ---------------------------------------------------------------------
  // The listing of distinct instances
  // ---------------------------------------------------------------------

  /** `list({id(p): p for p in ps}.values())`: every instance once, at its first occurrence. */
  function DistinctInstances(ps: seq<Plugin>): (r: seq<Plugin>)
    ensures forall i :: 0 <= i < |r| ==> r[i] in ps
    ensures forall i :: 0 <= i < |ps| ==> ps[i] in r
    ensures forall i, j :: 0 <= i < j < |r| ==> r[i] != r[j]
  {
    if ps == [] then []
    else
      var init := ps[..|ps| - 1];
      var last := ps[|ps| - 1];
      assert ps == init + [last];
      var r := DistinctInstances(init);
      if last in r then r else r + [last]
  }

  /** Repeating instances that were already listed adds nothing. */
  lemma {:induction false} DistinctRepeated(xs: seq<Plugin>, ys: seq<Plugin>)
    requires forall i, j :: 0 <= i < j < |xs| ==> xs[i] != xs[j]
    requires forall i :: 0 <= i < |ys| ==> ys[i] in xs
    ensures DistinctInstances(xs + ys) == xs
    decreases |ys|
  {
    if ys == [] {
      assert xs + ys == xs;
      DistinctOfDistinct(xs);
    } else {
      var init := ys[..|ys| - 1];
      assert xs + ys == (xs + init) + [ys[|ys| - 1]];
      DistinctRepeated(xs, init);
    }
  }

  /** A list without repetitions lists itself. */
  lemma {:induction false} DistinctOfDistinct(xs: seq<Plugin>)
    requires forall i, j :: 0 <= i < j < |xs| ==> xs[i] != xs[j]
    ensures DistinctInstances(xs) == xs
  {
    if xs != [] {
      var init := xs[..|xs| - 1];
      DistinctOfDistinct(init);
      assert xs[|xs| - 1] !in init;
      assert xs == init + [xs[|xs| - 1]];
    }
  }

  // ---------------------------------------------------------------------
  // The registry
  // ---------------------------------------------------------------------

  /** The lower-case alias of each key, in order. */
  function Aliases(keys: seq<string>): (r: seq<string>)
    ensures |r| == |keys|
    ensures forall i :: 0 <= i < |keys| ==> r[i] == Lower(keys[i])
  {
    seq(|keys|, i requires 0 <= i < |keys| => Lower(keys[i]))
  }

  /** Well-formed keys followed by their aliases repeat nothing. */
  lemma AliasedKeysDistinct(keys: seq<string>)
    requires WellFormedKeys(keys)
    ensures Distinct(keys + Aliases(keys))
  {
    KeyAliasesFresh(keys);
    var s := keys + Aliases(keys);
    var n := |keys|;
    forall i, j | 0 <= i < j < |s| ensures s[i] != s[j] {
      if j < n {
        assert s[i] == keys[i] && s[j] == keys[j];
      } else if i < n {
        assert s[i] == keys[i] && s[j] == Lower(keys[j - n]);
      } else {
        assert s[i] == Lower(keys[i - n]) && s[j] == Lower(keys[j - n]);
      }
    }
  }

  /**
   * A registry built from `keys` and `instances` by the dict literal and the
   * lower-case alias loop: the keys in order, then their aliases in order,
   * each alias holding the instance of its key.
   */
  function RegistryOf(keys: seq<string>, instances: seq<Plugin>): (r: Dict<string, Plugin>)
    requires |keys| == |instances| && WellFormedKeys(keys)
    ensures r.Valid()
    ensures r.keys == keys + Aliases(keys)
    ensures r.Values() == instances + instances
  {
    AliasedKeysDistinct(keys);
    Registered(keys + Aliases(keys), instances + instances)
  }

  /** `_plugin_registry` after the alias loop, given the thirteen instances it was built with. */
  function Registry(instances: seq<Plugin>): Dict<string, Plugin>
    requires |instances| == |KEYS|
  {
    KeysWellFormed();
    RegistryOf(KEYS, instances)
  }

  /** `get_plugin`: exact-key lookup. */
  function GetPlugin(registry: Dict<string, Plugin>, attribute: string): (p: Option<Plugin>)
    ensures p.Some? <==> attribute in registry.items
    ensures p.Some? ==> p.value == registry.items[attribute]
  {
    if attribute in registry.items then Some(registry.items[attribute]) else None
  }

  /** `get_all_plugins` */
  function GetAllPlugins(registry: Dict<string, Plugin>): seq<Plugin>
    requires registry.Valid()
  {
    DistinctInstances(registry.Values())
  }

  /** Every key and its lower-case alias find the same instance. */
  lemma AliasFindsSameInstance(keys: seq<string>, instances: seq<Plugin>, i: nat)
    requires |keys| == |instances| && WellFormedKeys(keys) && i < |keys|
    ensures GetPlugin(RegistryOf(keys, instances), keys[i]) == Some(instances[i])
    ensures GetPlugin(RegistryOf(keys, instances), Lower(keys[i])) == Some(instances[i])
  {
    var r := RegistryOf(keys, instances);
    var n := |keys|;
    var vs := r.Values();
    assert r.keys[i] == keys[i] && vs[i] == instances[i];
    assert r.keys[n + i] == Lower(keys[i]) && vs[n + i] == instances[i];
  }

  /** The lookup is exact: only the registered keys and their lower-case aliases are found. */
  lemma GetPluginExact(keys: seq<string>, instances: seq<Plugin>, attribute: string)
    requires |keys| == |instances| && WellFormedKeys(keys)
    ensures GetPlugin(RegistryOf(keys, instances), attribute).Some? <==>
      exists i :: 0 <= i < |keys| && (attribute == keys[i] || attribute == Lower(keys[i]))
  {
    var r := RegistryOf(keys, instances);
    if attribute in r.items {
      var j :| 0 <= j < |r.keys| && r.keys[j] == attribute;
      if j >= |keys| {
        assert attribute == Aliases(keys)[j - |keys|] == Lower(keys[j - |keys|]);
      } else {
        assert attribute == keys[j];
      }
    }
    if exists i :: 0 <= i < |keys| && (attribute == keys[i] || attribute == Lower(keys[i])) {
      var i :| 0 <= i < |keys| && (attribute == keys[i] || attribute == Lower(keys[i]));
      AliasFindsSameInstance(keys, instances, i);
    }
  }

  /** A spelling that starts upper-case and has a character that is not (such as `Email`) is never registered. */
  lemma MixedCaseNotFound(keys: seq<string>, instances: seq<Plugin>, attribute: string, k: nat)
    requires |keys| == |instances| && WellFormedKeys(keys)
    requires 0 < k < |attribute| && 'A' <= attribute[0] <= 'Z' && !('A' <= attribute[k] <= 'Z')
    ensures GetPlugin(RegistryOf(keys, instances), attribute) == None
  {
    GetPluginExact(keys, instances, attribute);
    forall i | 0 <= i < |keys| ensures attribute != keys[i] && attribute != Lower(keys[i]) {
      assert UpperWord(keys[i]);
      if |Lower(keys[i])| > 0 {
        assert Lower(keys[i])[0] == LowerChar(keys[i][0]);
      }
    }
  }

  /** `get_plugin("Email")` is `None`. */
  lemma EmailSpellingNotFound(instances: seq<Plugin>)
    requires |instances| == |KEYS|
    ensures GetPlugin(Registry(instances), "Email") == None
  {
    KeysWellFormed();
    var attribute := "Email";
    assert 'A' <= attribute[0] <= 'Z' && !('A' <= attribute[1] <= 'Z');
    MixedCaseNotFound(KEYS, instances, attribute, 1);
  }

  /** With distinct instances, the listing holds each of them once, in registration order. */
  lemma AllPluginsInOrder(keys: seq<string>, instances: seq<Plugin>)
    requires |keys| == |instances| && WellFormedKeys(keys)
    requires forall i, j :: 0 <= i < j < |instances| ==> instances[i] != instances[j]
    ensures GetAllPlugins(RegistryOf(keys, instances)) == instances
  {
    DistinctRepeated(instances, instances);
  }

  /** Looking up the registry: a key or its alias finds that key's instance, and nothing else is found. */
  lemma RegistryLookup(instances: seq<Plugin>, attribute: string)
    requires |instances| == |KEYS|
    ensures GetPlugin(Registry(instances), attribute).Some? <==>
              exists i :: 0 <= i < |KEYS| && (attribute == KEYS[i] || attribute == Lower(KEYS[i]))
    ensures forall i :: 0 <= i < |KEYS| && (attribute == KEYS[i] || attribute == Lower(KEYS[i])) ==>
              GetPlugin(Registry(instances), attribute) == Some(instances[i])
  {
    KeysWellFormed();
    GetPluginExact(KEYS, instances, attribute);
    forall i | 0 <= i < |KEYS| && (attribute == KEYS[i] || attribute == Lower(KEYS[i]))
      ensures GetPlugin(Registry(instances), attribute) == Some(instances[i])
    {
      AliasFindsSameInstance(KEYS, instances, i);
    }
  }

  lemma ValidLookup(entries: Dict<string, Plugin>, instances: seq<Plugin>, attribute: string)
    ensures |instances| == |KEYS| && entries == Registry(instances) ==>
              && (GetPlugin(entries, attribute).Some? <==>
                    exists i :: 0 <= i < |KEYS| && (attribute == KEYS[i] || attribute == Lower(KEYS[i])))
              && forall i :: 0 <= i < |KEYS| && (attribute == KEYS[i] || attribute == Lower(KEYS[i])) ==>
                   GetPlugin(entries, attribute) == Some(instances[i])
  {
    if |instances| == |KEYS| {
      RegistryLookup(instances, attribute);
    }
  }

  lemma ValidListing(entries: Dict<string, Plugin>, instances: seq<Plugin>)
    requires entries.Valid()
    ensures && |instances| == |KEYS| && entries == Registry(instances)
            && (forall i, j :: 0 <= i < j < |instances| ==> instances[i] != instances[j])
            ==> GetAllPlugins(entries) == instances
  {
    if |instances| == |KEYS| {
      KeysWellFormed();
      if (forall i, j :: 0 <= i < j < |instances| ==> instances[i] != instances[j]) {
        AllPluginsInOrder(KEYS, instances);
      }
    }
  }

  /** The thirteen instances of the registry: a DNS plugin per record type, then one of each other kind. */
  predicate RegisteredKinds(instances: seq<Plugin>) {
    |instances| == |KEYS| && forall i :: 0 <= i < |KEYS| ==> instances[i].kind == KindOf(KEYS[i])
  }

  /** The seven DNS keys each hold a DNS plugin configured for exactly that record type. */
  lemma DnsKeysHoldDnsPlugins(instances: seq<Plugin>, i: nat)
    requires RegisteredKinds(instances) && i < DNS_KEY_COUNT
    ensures GetPlugin(Registry(instances), KEYS[i]).Some?
    ensures GetPlugin(Registry(instances), KEYS[i]).value.kind.Dns?
    ensures GetPlugin(Registry(instances), KEYS[i]).value.kind.config.recordType == KEYS[i]
  {
    KeysWellFormed();
    AliasFindsSameInstance(KEYS, instances, i);
    DnsKeysUpper(i);
  }

  /** Each DNS key is its own upper-case spelling and is registered with a DNS plugin. */
  lemma DnsKeysUpper(i: nat)
    requires i < DNS_KEY_COUNT
    ensures KindOf(KEYS[i]) == Dns(DnsPlugin.Configure(KEYS[i]))
    ensures Upper(KEYS[i]) == KEYS[i]
  {
    var k := KEYS[i];
    assert |k| < 5;
    ShortKeyIsDns(k);
    KeysWellFormed();
    UpperOfUpperWord(k);
  }

  /** Every non-DNS key has at least five letters, so a shorter key is a DNS record type. */
  lemma ShortKeyIsDns(k: string)
    requires |k| < 5
    ensures KindOf(k) == Dns(DnsPlugin.Configure(k))
  {
  }

  /** `upper()` leaves an upper-case word unchanged. */
  lemma UpperOfUpperWord(k: string)
    requires UpperWord(k)
    ensures Upper(k) == k
  {
    forall j | 0 <= j < |k| ensures Upper(k)[j] == k[j] {
      assert 'A' <= k[j] <= 'Z';
    }
  }

  /** The keys of the dict literal and the first `i` aliases repeat nothing. */
  lemma AliasPrefixDistinct(keys: seq<string>, i: nat)
    requires WellFormedKeys(keys) && i <= |keys|
    ensures Distinct(keys + Aliases(keys)[..i])
  {
    AliasedKeysDistinct(keys);
    var all := keys + Aliases(keys);
    assert keys + Aliases(keys)[..i] == all[..|keys| + i];
    DistinctPrefix(all, |keys| + i);
  }

  /** The registry after the first `i` turns of the alias loop. */
  function AliasStage<V>(keys: seq<string>, values: seq<V>, i: nat): Dict<string, V>
    requires WellFormedKeys(keys) && |values| == |keys| && i <= |keys|
  {
    AliasPrefixDistinct(keys, i);
    Registered(keys + Aliases(keys)[..i], values + values[..i])
  }

  /** Before the loop the registry is the dict literal; after it, every alias is in. */
  lemma AliasStageEnds(keys: seq<string>, values: seq<Plugin>)
    requires WellFormedKeys(keys) && |values| == |keys|
    ensures keys == keys + Aliases(keys)[..0] && values == values + values[..0]
    ensures AliasStage(keys, values, 0) == Registered(keys, values)
    ensures AliasStage(keys, values, |keys|) == RegistryOf(keys, values)
  {
    AliasedKeysDistinct(keys);
    assert keys + Aliases(keys)[..0] == keys && values + values[..0] == values;
    assert Aliases(keys)[..|keys|] == Aliases(keys) && values[..|keys|] == values;
  }

  /**
   * One turn of the alias loop: after the first `i` aliases, the key `keys[i]`
   * still holds its value, and assigning it to the alias of `keys[i]` adds
   * that alias to the literal.
   */
  lemma AliasLoopStep<V>(keys: seq<string>, values: seq<V>, i: nat)
    requires WellFormedKeys(keys) && |values| == |keys| && i < |keys|
    ensures keys[i] in AliasStage(keys, values, i).items
    ensures AliasStage(keys, values, i).items[keys[i]] == values[i]
    ensures AliasStage(keys, values, i + 1) == AliasStage(keys, values, i).Set(Lower(keys[i]), values[i])
  {
    AliasPrefixDistinct(keys, i);
    AliasPrefixDistinct(keys, i + 1);
    var ks := keys + Aliases(keys)[..i];
    var vs := values + values[..i];
    assert ks[i] == keys[i] && vs[i] == values[i];
    assert keys + Aliases(keys)[..i + 1] == ks + [Lower(keys[i])];
    assert values + values[..i + 1] == vs + [values[i]];
    RegisteredSnoc(ks, vs, Lower(keys[i]), values[i]);
  }

  /** One new instance per registered key, of the kind registered under it. */
  method NewInstances() returns (all: seq<Plugin>)
    ensures RegisteredKinds(all)
    ensures forall i, j :: 0 <= i < j < |all| ==> all[i] != all[j]
    ensures forall i :: 0 <= i < |all| ==> fresh(all[i])
  {
    all := [];
    for n := 0 to |KEYS|
      invariant |all| == n
      invariant forall i :: 0 <= i < n ==> all[i].kind == KindOf(KEYS[i]) && fresh(all[i])
      invariant forall i, j :: 0 <= i < j < n ==> all[i] != all[j]
    {
      var p := new Plugin(KindOf(KEYS[n]));
      all := all + [p];
    }
  }

  /**
   * The registry as the program holds it: building it creates the thirteen
   * instances, registers them and runs the alias loop.
   */
  class PluginRegistry {
    var entries: Dict<string, Plugin>
    ghost var instances: seq<Plugin>

    /** The thirteen distinct instances of the registered kinds, under their keys and aliases. */
    ghost predicate Valid()
      reads this
    {
      && RegisteredKinds(instances)
      && (forall i, j :: 0 <= i < j < |instances| ==> instances[i] != instances[j])
      && entries == Registry(instances)
    }

    constructor()
      ensures Valid()
      ensures RegisteredKinds(instances)
      ensures forall i, j :: 0 <= i < j < |instances| ==> instances[i] != instances[j]
      ensures entries == Registry(instances)
    {
      var all := NewInstances();
      KeysWellFormed();
      entries := Registered(KEYS, all);
      instances := all;
      new;
      AddAliases(all);
    }

    /**
     * The module-level alias loop, over a snapshot of the keys of the dict
     * literal: `entries[key.lower()] = entries[key]` for each key in turn.
     */
    method AddAliases(ghost values: seq<Plugin>)
      requires |entries.keys| == |values| && WellFormedKeys(entries.keys)
      requires entries == Registered(entries.keys, values)
      modifies this
      ensures entries == RegistryOf(old(entries.keys), values)
      ensures instances == old(instances)
    {
      var keys := entries.keys;
      AliasStageEnds(keys, values);
      var i := 0;
      while i < |keys|
        invariant 0 <= i <= |keys|
        invariant entries == AliasStage(keys, values, i)
        invariant instances == old(instances)
      {
        var key := keys[i];
        AliasLoopStep(keys, values, i);
        entries := entries.Set(Lower(key), entries.items[key]);
        i := i + 1;
      }
    }

    /**
     * `get_plugin(attribute)`: found exactly for a registered key or its
     * lower-case alias, and then it is that key's instance.
     */
    function Get(attribute: string): (p: Option<Plugin>)
      reads this
      ensures p == GetPlugin(entries, attribute)
      ensures Valid() ==> (p.Some? <==> exists i :: 0 <= i < |KEYS| && (attribute == KEYS[i] || attribute == Lower(KEYS[i])))
      ensures Valid() ==> forall i :: 0 <= i < |KEYS| && (attribute == KEYS[i] || attribute == Lower(KEYS[i])) ==>
                p == Some(instances[i])
    {
      ValidLookup(entries, instances, attribute);
      GetPlugin(entries, attribute)
    }

    /** `get_all_plugins()`: the thirteen instances, once each, in registration order. */
    function All(): (ps: seq<Plugin>)
      reads this
      requires entries.Valid()
      ensures ps == GetAllPlugins(entries)
      ensures Valid() ==> ps == instances
    {
      ValidListing(entries, instances);
      GetAllPlugins(entries)
    }
  }
}
