/**
 * The reconciliation part of the e-mail plugin's scan: addresses are keyed
 * by their cleaned form, the newest row per address is kept, placeholders
 * are dropped, the leak status is filled in and an empty result becomes
 * one placeholder row.
 */
module EmailPlugin {
  import opened PyStr
  import opened Dates
  import opened Reconcile
  import opened Sorting
  import opened Crawl
  import opened Wayback
  import opened EmailUtils

  /** `_clean_email`: drop every `%20`, strip, lower-case. */
  function CleanEmail(raw: string): (r: string)
    ensures IsStripped(r) && Strip(r) == r
    ensures IsLower(r) && Lower(r) == r
    ensures |r| <= |raw|
  {
    var s := Strip(RemoveAll(raw, "%20"));
    LowerKeepsStripped(s);
    LowerIsLower(s);
    StripOfStripped(Lower(s));
    Lower(s)
  }

  /** Cleaning is not idempotent: removing one `%20` can create another. */
  lemma CleanEmailNotIdempotent()
    ensures CleanEmail("%2%200") == "%20"
    ensures CleanEmail(CleanEmail("%2%200")) == ""
  {
    CleanOnce();
    CleanTwice();
  }

  lemma CleanOnce()
    ensures CleanEmail("%2%200") == "%20"
  {
    RemoveInner();
    var t := "%20";
    assert IsStripped(t) by { assert !IsSpace(t[0]) && !IsSpace(t[2]); }
    StripOfStripped(t);
    assert IsLower(t);
    LowerOfLower(t);
  }

  lemma RemoveInner()
    ensures RemoveAll("%2%200", "%20") == "%20"
  {
    var s := "%2%200";
    assert s[2..] == "%200" && s[2..][3..] == "0";
    assert StartsWith(s[2..], "%20");
    assert RemoveAll("0", "%20") == "0";
    assert RemoveAll(s[2..], "%20") == "0";
    assert RemoveAll(s[1..], "%20") == "20";
  }

  lemma CleanTwice()
    ensures CleanEmail("%20") == ""
  {
    var t := "%20";
    assert StartsWith(t, "%20") && t[3..] == [];
    assert RemoveAll(t, "%20") == [];
  }

  /** An address that is already lower-case, stripped and free of `%` is its own cleaned form. */
  lemma CleanEmailKeepsCanonical(a: string)
    requires IsLower(a) && IsStripped(a) && !HasChar(a, '%')
    ensures CleanEmail(a) == a
  {
    RemoveAllAbsent(a, "%20");
    StripOfStripped(a);
    LowerOfLower(a);
  }

  /**
   * The dedup key of an e-mail row: its cleaned address. Spellings that
   * differ only in case or surrounding blanks share a key.
   */
  function EmailKey(e: ContactRow): (k: string)
    ensures IsStripped(k) && IsLower(k)
    ensures |k| <= |e.value|
  {
    CleanEmail(e.value)
  }

  /** A source date in the `YYYY-MM-DD` shape the row builders write. */
  predicate IsoShaped(d: string) {
    |d| > 4 && d[4] == '-'
  }

  /** The row builder always writes an ISO-shaped source date for 8-character or empty input. */
  lemma BuiltRowIsoShaped(email: string, d: string, today: string)
    requires |d| == 8 || d == []
    ensures IsoShaped(InsertDataInEmailColumns(email, d, today).sourceDate)
  {
  }

  /**
   * Because every ISO date parses to the minimum, no kept row is ever
   * replaced: the row kept for an address is the first one seen for it.
   */
  lemma IsoDatesKeepFirstSeen(entries: seq<ContactRow>, i: int)
    requires forall j :: 0 <= j < |entries| ==> IsoShaped(entries[j].sourceDate)
    requires KeptFor(entries, EmailKey, i)
    ensures forall j :: 0 <= j < i ==> EmailKey(entries[j]) != EmailKey(entries[i])
  {
    forall j | 0 <= j < |entries| ensures SourceDate(entries[j]) == MinDate {
      IsoDateParsesToMin(entries[j].sourceDate);
    }
    FirstSeenWins(entries, EmailKey, i);
  }

  /**
   * `Plugin.scan` without the database: the crawled rows, then the WHOIS
   * rows, then the crt.sh rows, reconciled with the cleaned address as key.
   * `extract`, `isLeaked` and the two lookups are the network adapters.
   */
  method Scan(endpoints: seq<EndpointRow>, extract: Target -> seq<ContactRow>,
              whoisRows: seq<ContactRow>, crtshRows: seq<ContactRow>,
              isLeaked: string -> string, today: string)
    returns (entries: seq<ContactRow>, rows: seq<ContactRow>)
    ensures entries == CrawlRows(Targets(endpoints), extract) + whoisRows + crtshRows
    ensures rows != []
    ensures rows == [GenerateEmptyEmailEntry(today)] <==> forall i :: KeptFor(entries, EmailKey, i) ==> !IsReal(entries[i])
    ensures rows != [GenerateEmptyEmailEntry(today)] ==> forall r :: r in rows ==>
              IsReal(r) && r.leaked == isLeaked(r.value)
              && exists i :: KeptFor(entries, EmailKey, i) && r == entries[i].(leaked := isLeaked(entries[i].value))
    ensures forall i :: KeptFor(entries, EmailKey, i) && IsReal(entries[i]) ==>
              entries[i].(leaked := isLeaked(entries[i].value)) in rows
    ensures rows != [GenerateEmptyEmailEntry(today)] ==> StrictlySorted(Keys(rows, EmailKey))
  {
    var crawled := CollectCrawl(endpoints, extract);
    entries := crawled + whoisRows + crtshRows;
    assert ValueKey(EmailKey) by {
      forall e: ContactRow, l: string ensures EmailKey(e.(leaked := l)) == EmailKey(e) {
        assert e.(leaked := l).value == e.value;
      }
    }
    rows := Reconcile.Reconcile(entries, EmailKey, isLeaked, GenerateEmptyEmailEntry(today));
  }
}
