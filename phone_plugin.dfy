/**
 * The reconciliation part of the phone plugin's scan. Unlike the e-mail
 * plugin, rows are keyed by the phone string exactly as found.
 */
module PhonePlugin {
  import opened Reconcile
  import opened Sorting
  import opened Crawl
  import opened Wayback
  import opened PhoneUtils

  /** The dedup key of a phone row: the raw phone string, not normalised again. */
  function PhoneKey(e: ContactRow): string {
    e.value
  }

  /** Two spellings of a number are different keys, so deduplication keeps both rows. */
  lemma RawKeysKeepSpellings(a: ContactRow, b: ContactRow)
    requires a.value != b.value
    ensures a in SortedValues(Latest([a, b], PhoneKey))
    ensures b in SortedValues(Latest([a, b], PhoneKey))
  {
    var entries := [a, b];
    assert KeptFor(entries, PhoneKey, 0);
    assert KeptFor(entries, PhoneKey, 1);
    SortedLatest(entries, PhoneKey);
  }

  /**
   * `Plugin.scan` without the database: the crawled rows, then the WHOIS
   * rows, reconciled with the raw phone string as key.
   */
  method Scan(endpoints: seq<EndpointRow>, extract: Target -> seq<ContactRow>,
              whoisRows: seq<ContactRow>, isLeaked: string -> string, today: string)
    returns (entries: seq<ContactRow>, rows: seq<ContactRow>)
    ensures entries == CrawlRows(Targets(endpoints), extract) + whoisRows
    ensures rows != []
    ensures rows == [GenerateFallbackPhoneEntry(today)] <==> forall i :: KeptFor(entries, PhoneKey, i) ==> !IsReal(entries[i])
    ensures rows != [GenerateFallbackPhoneEntry(today)] ==> forall r :: r in rows ==>
              IsReal(r) && r.leaked == isLeaked(r.value)
              && exists i :: KeptFor(entries, PhoneKey, i) && r == entries[i].(leaked := isLeaked(entries[i].value))
    ensures forall i :: KeptFor(entries, PhoneKey, i) && IsReal(entries[i]) ==>
              entries[i].(leaked := isLeaked(entries[i].value)) in rows
    ensures rows != [GenerateFallbackPhoneEntry(today)] ==> StrictlySorted(Keys(rows, PhoneKey))
  {
    var crawled := CollectCrawl(endpoints, extract);
    entries := crawled + whoisRows;
    assert ValueKey(PhoneKey) by {
      forall e: ContactRow, l: string ensures PhoneKey(e.(leaked := l)) == PhoneKey(e) {
        assert e.(leaked := l).value == e.value;
      }
    }
    rows := Reconcile.Reconcile(entries, PhoneKey, isLeaked, GenerateFallbackPhoneEntry(today));
  }
}
