# Digital-twin scanner core in Dafny

This project models the reconciliation and row-shaping layer of the
digital-twin backend's scanner plugins. Each plugin collects one kind of
security-relevant attribute of a domain, shapes what it found into table
rows and persists them as that domain's current snapshot:

- e-mail addresses and phone numbers: crawled from archived pages, merged
  with WHOIS and crt.sh hits, deduplicated by key with the newest source
  date winning, placeholder rows dropped, leak status filled in, and a
  single placeholder row when nothing is left;
- archived endpoints: CDX, robots.txt and sitemap.xml extraction, the
  merge that keeps the newest snapshot per path, and the final ordering
  with the site root pinned first;
- subdomains from Sublist3r's output file;
- DNS records through `dig`, one plugin instance per record type, and the
  per-type row builders that replace the stored snapshot;
- certificates from crt.sh;
- the plugin registry: upper-case keys, lower-case aliases, exact lookup
  and the listing of distinct instances.

Layout, one module per file:

- `Wrappers`, `Config`, `PyStr`, `Dicts`, `Sorting` and `Dates` give the
  Python semantics the plugins rely on: `str` methods, insertion-ordered
  `dict`, the stable `sorted`, and `datetime.strptime(s[:8], "%Y%m%d")`
  with its fallback to `datetime.min`.
- `Reconcile` holds the steps the e-mail and phone plugins share.
- `Crawl` holds the crawl over stored endpoints.
- `EmailUtils`, `EmailPlugin`, `PhoneUtils` and `PhonePlugin` are the two
  contact plugins.
- `Wayback` is the endpoint lookup and `Sublist3r` the subdomain runner.
- `DigLookup` and `DnsPlugin` are the DNS side.
- `CertificateLookup` is the crt.sh lookup and `PluginManager` the
  registry.

Code that works step by step is modelled imperatively:

- the dedup loop, the leak-status loop, the extractor loops and the merge
  loops are methods with loop invariants, proved against the functions
  that specify them;
- a DNS table is a class whose methods delete and append rows;
- the registry is a class whose alias loop updates its dict.

Network, subprocess and database access appear only as parameters. The
parameters are the HTTP outcome, `dig`'s output, the content of
Sublist3r's output file, and the rows an adapter returned. `date.today()`
is the parameter `today`.

Where the code and the design description disagree, the model follows
the code:

- `_clean_email` is not idempotent. Removing `%20` can create a new
  `%20`: `"%2%200"` cleans to `"%20"`, which cleans to `""` (see
  `EmailPlugin.CleanEmailNotIdempotent`).
- The deduplication is described as keeping the newest entry. The row
  builders write source dates as `YYYY-MM-DD`. `_parse_date` parses the
  first eight characters with `%Y%m%d`, and such a date has a dash at
  index 4, so it parses to `datetime.min`. No row is then strictly newer,
  and the first row seen for a key is kept (see
  `Reconcile.FirstSeenWins` and `EmailPlugin.IsoDatesKeepFirstSeen`).
  For rows that carry undashed dates, the newest-wins property holds as
  described (`Reconcile.Deduplicate`).
- `get_plugin` is described as case-insensitive. It is an exact lookup.
  Only the upper-case key and its all-lower-case alias are found;
  `"Email"` finds nothing (see `PluginManager.GetPluginExact` and
  `PluginManager.EmailSpellingNotFound`).

## Model

| member | source | states |
|---|---|---|
| Dates.ParseDate | Backend/plugins/email/email_plugin.py:224-229 | `_parse_date` always yields a real calendar date: a parsed one, or `datetime.min` when parsing fails |
| Dates.AfterStrictTotal | Backend/plugins/email/email_plugin.py:128-130 | the `>` used to compare source dates is irreflexive, asymmetric, transitive and total |
| Dates.ParsedNeedsDigits | Backend/plugins/email/email_plugin.py:224-229 | a date other than `datetime.min` comes from text of at least six characters whose first five are digits |
| Dates.IsoDateParsesToMin | Backend/plugins/email/email_plugin.py:224-229 | text with a dash at index 4 (as `YYYY-MM-DD`) always parses to `datetime.min` |
| Dates.CompactRoundTrip | Backend/plugins/phone/phone_plugin.py:141-146 | an eight-digit `YYYYMMDD` rendering of a valid date parses back to that date, whatever text follows it |
| Dates.BacktrackingExample | Backend/plugins/phone/phone_plugin.py:141-146 | `"2023110"` parses as 2023-01-10: `%m` backs off to one digit so the rest matches |
| Dates.LeapDayExample | Backend/plugins/phone/phone_plugin.py:141-146 | 29 February parses in a leap year |
| Dates.NoLeapDayExample | Backend/plugins/phone/phone_plugin.py:141-146 | 29 February of a common year is rejected and becomes `datetime.min` |
| Sorting.SortBy | Backend/plugins/phone/phone_plugin.py:156 | `sorted(..., key=...)` yields a list ordered by the key that is a permutation of its input, and is stable: for every element, the elements that sort equal to it appear in their input order |
| Sorting.InsertStable | Backend/plugins/email/email_plugin.py:146 | inserting an element into a sorted list puts it after every element that sorts equal to it, so the equal elements keep their order |
| Sorting.SortedUnique | Backend/plugins/subdomain/sublist3r_runner.py:75-84 | `sorted(set(xs))` is strictly ascending and holds exactly the elements of `xs` |
| Sorting.StrictlySortedUnique | Backend/plugins/dns/dig_lookup.py:47 | two strictly ascending lists with the same elements are equal, so `sorted(set(...))` is determined by the set |
| Reconcile.Latest | Backend/plugins/email/email_plugin.py:119-131 | the `latest` dict is well formed and every slot holds an entry whose key is its slot's key |
| Reconcile.LatestDomain | Backend/plugins/email/email_plugin.py:121-131 | the `latest` dict has a slot exactly for each key some entry has |
| Reconcile.LatestWinner | Backend/plugins/email/email_plugin.py:128-131 | each slot holds the entry no same-key entry is newer than, with ties going to the first entry seen |
| Reconcile.KeptForUnique | Backend/plugins/email/email_plugin.py:128-131 | at most one entry is kept per key |
| Reconcile.KeptForNewer | Backend/plugins/email/email_plugin.py:128-131 | an entry strictly newer than the kept one of its key replaces it |
| Reconcile.KeptForExtend | Backend/plugins/email/email_plugin.py:128-131 | the kept entry stays kept when the next entry has another key or is not newer |
| Reconcile.KeptForFirst | Backend/plugins/email/email_plugin.py:128-131 | the first entry of a key is kept until a newer one arrives |
| Reconcile.Keys | Backend/plugins/email/email_plugin.py:134 | the key column of a row list, entry by entry |
| Reconcile.SortedLatest | Backend/plugins/email/email_plugin.py:133-134 | after the loop the sorted values have strictly ascending keys, cover every input key, and are exactly the kept entries |
| Reconcile.Deduplicate | Backend/plugins/email/email_plugin.py:118-134 | `_deduplicate`: strictly ascending keys, one row per input key, every row a kept input row, and every kept row present |
| Reconcile.LatestLoop | Backend/plugins/phone/phone_plugin.py:162-171 | the imperative `latest` loop computes the dict of the fold `Latest` |
| Reconcile.FirstSeenWins | Backend/plugins/phone/phone_plugin.py:168-171 | when every source date parses to `datetime.min`, the kept row for a key is the first one with that key |
| Reconcile.FormatSourceDate | Backend/plugins/email/utils.py:114-120 | an eight-character source date gains dashes, an empty one becomes `0000-00-00`, any other is kept as is |
| Reconcile.FormattedDateIsMin | Backend/plugins/email/utils.py:114-120 | every date the row builders write for eight-character or empty input parses to `datetime.min` |
| Reconcile.FormattedDateDigits | Backend/plugins/phone/utils.py:107-108 | removing the dashes again gives back an undashed eight-character date |
| Reconcile.DropPlaceholders | Backend/plugins/email/email_plugin.py:176-181 | keeps exactly the rows with a non-empty value that does not contain the no-data text, each as often as it occurs, and never adds rows |
| Reconcile.DropPlaceholdersConcat | Backend/plugins/email/email_plugin.py:176-181 | the filter of a concatenation is the concatenation of the filters, so the comprehension keeps the rows in their order |
| Reconcile.DropPlaceholdersSorted | Backend/plugins/email/email_plugin.py:176-181 | rows in strictly ascending key order are still in strictly ascending key order after the filter |
| Reconcile.Enrich | Backend/plugins/email/email_plugin.py:184-185 | each row's leak column becomes `is_leaked` of its value; row count, order and every other column are unchanged |
| Reconcile.Reconcile | Backend/plugins/email/email_plugin.py:173-189 | for a key that reads only the value column, as both plugins' keys do: never empty; the single placeholder exactly when no kept row is real; otherwise every row is a real kept row with its leak status set, every real kept row is there, and the keys are strictly ascending (one row per key); a leak column only ever holds an `is_leaked` answer |
| Crawl.SnapshotDescPreorder | Backend/plugins/email/email_plugin.py:146 | "snapshot not smaller" is a total preorder, so the reverse sort is well defined |
| Crawl.NewestFirst | Backend/plugins/phone/phone_plugin.py:148-156 | `_get_endpoints` orders endpoints newest snapshot first, is a permutation of them, and endpoints whose snapshots compare equal keep their stored order |
| Crawl.WaybackTimestamp | Backend/plugins/email/email_plugin.py:161 | the timestamp ends in six zeros, has no dash before them, and is the snapshot itself plus the zeros when the snapshot has no dash |
| Crawl.Targets | Backend/plugins/email/email_plugin.py:158-161 | at most `MAX_URLS` (50) targets; target `i` is the `i`-th newest endpoint's URL and its timestamp |
| Crawl.TargetsAreNewest | Backend/plugins/email/email_plugin.py:158 | no endpoint left out of the crawl has a later snapshot than one crawled |
| Crawl.TimestampRoundTrip | Backend/plugins/email/email_plugin.py:161 | a snapshot date the endpoint lookup wrote from a Wayback timestamp turns back into that day's timestamp at 000000 |
| Crawl.CollectCrawl | Backend/plugins/email/email_plugin.py:157-166 | the crawl loop collects the extractor's rows for each target, in crawl order |
| Crawl.CrawlRowsFrom | Backend/plugins/phone/phone_plugin.py:90-94 | every crawled row comes from the extractor's answer for one of the targets |
| EmailUtils.LoadValidTlds | Backend/plugins/email/utils.py:34-43 | `VALID_TLDS` holds exactly the stripped, lower-cased non-blank non-comment lines, and is empty when the file is missing |
| EmailUtils.TldWithoutDot | Backend/plugins/email/utils.py:62-66 | `IsValidEmailTld`, the predicate of `is_valid_email_tld`: without a dot, the whole lower-cased address is what is looked up |
| EmailUtils.TldAfterLastDot | Backend/plugins/email/utils.py:62-66 | `IsValidEmailTld`: with a dot, exactly the lower-cased text after the last dot decides |
| EmailUtils.FilterEmails | Backend/plugins/email/utils.py:86-91 | the result holds exactly the raw matches whose TLD is known |
| EmailUtils.InsertDataInEmailColumns | Backend/plugins/email/utils.py:114-122 | the row holds the address, the no-data leak status, the formatted source date and the scan date |
| EmailUtils.GenerateEmptyEmailEntry | Backend/plugins/email/utils.py:140-145 | the placeholder row, which the placeholder filter drops |
| EmailPlugin.CleanEmail | Backend/plugins/email/email_plugin.py:93-95 | the cleaned address is stripped, lower-case and no longer than the raw one |
| EmailPlugin.CleanEmailNotIdempotent | Backend/plugins/email/email_plugin.py:95 | cleaning twice can differ from cleaning once |
| EmailPlugin.CleanEmailKeepsCanonical | Backend/plugins/email/email_plugin.py:95 | a lower-case, stripped address without `%` is its own cleaned form |
| EmailPlugin.EmailKey | Backend/plugins/email/email_plugin.py:122-123 | the dedup and sort key of an e-mail row is stripped and lower case, so spellings that differ in case or surrounding blanks share a key |
| EmailPlugin.BuiltRowIsoShaped | Backend/plugins/email/utils.py:114-120 | the builder's source date has a dash at index 4 for eight-character or empty input |
| EmailPlugin.IsoDatesKeepFirstSeen | Backend/plugins/email/email_plugin.py:118-131 | with ISO-shaped source dates, the row kept for an address is the first one seen for it |
| EmailPlugin.Scan | Backend/plugins/email/email_plugin.py:152-195 | candidates are the crawled rows, then WHOIS, then crt.sh; the result is never empty, is the placeholder exactly when no kept row is real, and otherwise holds exactly the real kept rows with leak status set, in strictly ascending order of cleaned address |
| PhoneUtils.SeparatorsRemoved | Backend/plugins/phone/utils.py:45 | no space, dash or slash survives the substitution |
| PhoneUtils.Compacted | Backend/plugins/phone/utils.py:45 | the compacted number has no separator and no surrounding whitespace |
| PhoneUtils.RewritePrefix | Backend/plugins/phone/utils.py:46-50 | `0041` becomes `+41`, otherwise a leading `0` becomes `+41`, otherwise nothing changes; the result never starts with `0` |
| PhoneUtils.NormalizePhoneNumber | Backend/plugins/phone/utils.py:45-50 | a normalised number never starts with `0` and has no separators |
| PhoneUtils.NormalizeWithoutPadding | Backend/plugins/phone/utils.py:45-50 | for input without surrounding whitespace, normalising is the prefix rewrite of the compacted digits |
| PhoneUtils.NormalizeMobileExample | Backend/plugins/phone/utils.py:40-41 | `"079 123 45 67"` normalises to `"+41791234567"` |
| PhoneUtils.NormalizeInternationalExample | Backend/plugins/phone/utils.py:42-43 | `"0041 44 123 45 67"` normalises to `"+41441234567"` |
| PhoneUtils.ValidAfterNormalizing | Backend/plugins/phone/utils.py:53-55 | `IsValidSwissNumber`, the predicate of `is_valid_swiss_number`: a normalised number passes the check exactly when a rewritten prefix is not followed by `00`, or an unrewritten number passes it itself |
| PhoneUtils.ExtractPhoneNumbers | Backend/plugins/phone/utils.py:76-81 | the result holds exactly the normalised hits that pass the Swiss-number check |
| PhoneUtils.InsertDataInPhoneColumns | Backend/plugins/phone/utils.py:107-114 | the row holds the number, the no-data leak status, the dashed or defaulted source date and the scan date |
| PhoneUtils.GenerateFallbackPhoneEntry | Backend/plugins/phone/utils.py:121-126 | the placeholder row, which the placeholder filter drops |
| PhonePlugin.RawKeysKeepSpellings | Backend/plugins/phone/phone_plugin.py:168 | `PhoneKey`, the key `entry[phone_key]`, is the raw string: two spellings of one number are different keys, so both rows survive deduplication |
| PhonePlugin.Scan | Backend/plugins/phone/phone_plugin.py:84-122 | candidates are the crawled rows, then WHOIS; the result is never empty, is the placeholder exactly when no kept row is real, and otherwise holds exactly the real kept rows with leak status set, in strictly ascending order of the raw number |
| Wayback.SnapshotIso | Backend/plugins/endpoint/waybackmachine_lookup.py:85 | a timestamp of at least eight characters becomes `YYYY-MM-DD` |
| Wayback.CdxCandidate | Backend/plugins/endpoint/waybackmachine_lookup.py:75-91 | a hit is skipped when its normalised path is empty, a static file or an archive path; its key is the lower-cased path; its row holds the hit's URL and date |
| Wayback.CdxCandidates | Backend/plugins/endpoint/waybackmachine_lookup.py:74-85 | one candidate per hit, in hit order |
| Wayback.CdxFold | Backend/plugins/endpoint/waybackmachine_lookup.py:69-92 | the `seen` dict of the CDX loop is well formed; its content is stated by `CdxFoldNewest` |
| Wayback.CdxFoldNewest | Backend/plugins/endpoint/waybackmachine_lookup.py:86-91 | the CDX dict has exactly the keys of usable hits; each holds the first hit with the greatest snapshot date |
| Wayback.ExtractFromCdx | Backend/plugins/endpoint/waybackmachine_lookup.py:69-92 | the CDX loop computes the fold, and its keys are those of the usable hits |
| Wayback.FirstFromConcat | Backend/plugins/endpoint/waybackmachine_lookup.py:106-131 | the first-wins loop over two snapshots' rules is the loop over the first, then over the second |
| Wayback.FirstFold | Backend/plugins/endpoint/waybackmachine_lookup.py:123-131 | the dict of the robots and sitemap loops is well formed; its content is stated by `FirstFoldFirst` |
| Wayback.FirstFoldFirst | Backend/plugins/endpoint/waybackmachine_lookup.py:123-131 | the robots and sitemap dicts have exactly the keys of usable candidates; each holds its first usable candidate's row |
| Wayback.RobotsCandidate | Backend/plugins/endpoint/waybackmachine_lookup.py:116-130 | a rule is skipped when its path is empty or holds `*`, `?` or `$`; its key is the lower-cased path; its URL is the domain plus the path |
| Wayback.RobotsMatches | Backend/plugins/endpoint/waybackmachine_lookup.py:115 | one candidate per rule match, in match order |
| Wayback.SitemapCandidate | Backend/plugins/endpoint/waybackmachine_lookup.py:159-168 | a location is skipped when its path is empty; its key is the lower-cased path; its row holds the stripped location text |
| Wayback.SitemapLocs | Backend/plugins/endpoint/waybackmachine_lookup.py:158 | one candidate per location, in document order |
| Wayback.AddRobotsRules | Backend/plugins/endpoint/waybackmachine_lookup.py:115-131 | the inner robots loop applies the first-wins fold to one snapshot's rules |
| Wayback.ExtractFromRobots | Backend/plugins/endpoint/waybackmachine_lookup.py:98-134 | `_extract_from_robots` is the first-wins fold over every fetched snapshot's rules |
| Wayback.AddSitemapLocs | Backend/plugins/endpoint/waybackmachine_lookup.py:157-168 | the inner sitemap loop applies the first-wins fold to one snapshot's locations |
| Wayback.ExtractFromSitemap | Backend/plugins/endpoint/waybackmachine_lookup.py:140-171 | `_extract_from_sitemap` is the first-wins fold over every parsed snapshot's locations |
| Wayback.Merge | Backend/plugins/endpoint/waybackmachine_lookup.py:213-216 | merging a well-formed source into a well-formed dict gives a well-formed dict; its content is stated by `MergeSpec` |
| Wayback.MergeSpec | Backend/plugins/endpoint/waybackmachine_lookup.py:213-216 | merging keeps every key of both dicts, gives each the strictly newer entry, and keeps the existing key order as a prefix |
| Wayback.MergedIsNewest | Backend/plugins/endpoint/waybackmachine_lookup.py:215-216 | the merged entry is the source's only when it is strictly newer, and is never older than either side's entry |
| Wayback.MergeInto | Backend/plugins/endpoint/waybackmachine_lookup.py:214-216 | the inner merge loop computes the merge of one source |
| Wayback.MergeAllPair | Backend/plugins/endpoint/waybackmachine_lookup.py:213 | merging `(robots, sitemap)` is merging robots, then sitemap |
| Wayback.MergeSources | Backend/plugins/endpoint/waybackmachine_lookup.py:213-216 | the outer merge loop merges the sources in turn |
| Wayback.NewerFirstPreorder | Backend/plugins/endpoint/waybackmachine_lookup.py:239-245 | `NewerFirst`, the order of the key `(-int(snapshot), url.lower())`, is a total preorder: later snapshot first, then lower-cased URL |
| Wayback.EmptyPlaceholder | Backend/plugins/endpoint/waybackmachine_lookup.py:220-227 | the empty-result row holds the no-data URL, `0000-00-00` and the scan date |
| Wayback.FirstRoot | Backend/plugins/endpoint/waybackmachine_lookup.py:230-233 | `IsRoot` is the test `rstrip("/") == f"https://{domain}"`; this is the first entry whose URL without trailing slashes is the domain root, or none exactly when there is no such entry |
| Wayback.NonRoot | Backend/plugins/endpoint/waybackmachine_lookup.py:234-236 | exactly the entries that are not the root, each as often as it occurs in the entries |
| Wayback.NonRootConcat | Backend/plugins/endpoint/waybackmachine_lookup.py:234-236 | the filter of a concatenation is the concatenation of the filters, so the comprehension keeps the entries in their order |
| Wayback.Order | Backend/plugins/endpoint/waybackmachine_lookup.py:218-247 | no entries give the placeholder; otherwise the ordering fails exactly when some non-root snapshot is not an integer once its dashes are removed |
| Wayback.OrderSpec | Backend/plugins/endpoint/waybackmachine_lookup.py:229-247 | the root entry is pinned first; the rest are sorted newest first with ties by lower-cased URL, are a permutation of the non-root entries, none is the root, and entries with equal sort keys keep their order among the non-root entries |
| Wayback.Combined | Backend/plugins/endpoint/waybackmachine_lookup.py:204-216 | the merged dict of the three extractions is well formed |
| Wayback.CombineAll | Backend/plugins/endpoint/waybackmachine_lookup.py:177-247 | `combine_all` orders the values of CDX merged with robots and then sitemap |
| Wayback.CombinedNewest | Backend/plugins/endpoint/waybackmachine_lookup.py:204-216 | the merged dict has exactly the keys of the three sources; each entry comes from one of them and is at least as new as each source's entry |
| Sublist3r.SubdomainOf | Backend/plugins/subdomain/sublist3r_runner.py:76 | the raw line's `www.` prefix is dropped, otherwise leading whitespace is; the result is lower-case |
| Sublist3r.IndentedWwwKept | Backend/plugins/subdomain/sublist3r_runner.py:76 | an indented `www.` is kept, because the prefix test looks at the raw line |
| Sublist3r.LineSubdomains | Backend/plugins/subdomain/sublist3r_runner.py:75-79 | exactly the subdomains of the non-blank lines |
| Sublist3r.Subdomains | Backend/plugins/subdomain/sublist3r_runner.py:75-84 | strictly ascending, lower-case, and exactly the subdomains of the non-blank lines |
| Sublist3r.NoSubdomainsIff | Backend/plugins/subdomain/sublist3r_runner.py:75-79 | there is no subdomain exactly when every line is blank |
| Sublist3r.PlaceholderNotLower | Backend/plugins/subdomain/sublist3r_runner.py:98-99 | the placeholder text is not lower-case, so it never equals a subdomain |
| Sublist3r.RowsOf | Backend/plugins/subdomain/sublist3r_runner.py:82-85 | the subdomain column lists the subdomains in order and every row carries the scan date |
| Sublist3r.GetSubdomains | Backend/plugins/subdomain/sublist3r_runner.py:69-101 | never empty and dated; the placeholder exactly when every line is blank or the file is missing; otherwise the column is the sorted distinct subdomains |
| DigLookup.NonEmptyLines | Backend/plugins/dns/dig_lookup.py:47 | exactly the non-empty lines |
| DigLookup.RunDig | Backend/plugins/dns/dig_lookup.py:45-50 | strictly ascending distinct non-empty lines of the stripped output, or nothing when the process raised |
| DigLookup.OrPlaceholder | Backend/plugins/dns/dig_lookup.py:111 | an empty answer becomes the single placeholder, a non-empty one is kept |
| DigLookup.PtrFold | Backend/plugins/dns/dig_lookup.py:72-75 | one key per distinct address, holding its reverse lookup or the placeholder |
| DigLookup.CollectPtrRecords | Backend/plugins/dns/dig_lookup.py:69-75 | no addresses give the placeholder mapping; otherwise exactly the addresses, each with a non-empty answer |
| DigLookup.RequestedTypes | Backend/plugins/dns/dig_lookup.py:102 | `None` or an empty list falls back to `DEFAULT_TYPES` |
| DigLookup.RecordsFor | Backend/plugins/dns/dig_lookup.py:106-111 | one entry per requested type other than `PTR`, holding its answer or the placeholder |
| DigLookup.WithoutPlaceholder | Backend/plugins/dns/dig_lookup.py:115-120 | exactly the values that are not the placeholder |
| DigLookup.PtrAddressesFrom | Backend/plugins/dns/dig_lookup.py:114-120 | the PTR lookups start from exactly the real A and AAAA answers of the requested types |
| DigLookup.Lookup | Backend/plugins/dns/dig_lookup.py:114-123 | the nested PTR mapping is present exactly when `PTR` was requested |
| DigLookup.GetDnsRecords | Backend/plugins/dns/dig_lookup.py:81-123 | `get_dns_records` computes the lookup of the requested or default types |
| DnsPlugin.Configure | Backend/plugins/dns/dns_plugin.py:88-96 | the record type is upper-cased; name, description and columns come from the tables or their defaults; every column list starts with a value and ends with the scan date |
| DnsPlugin.ConfigureIgnoresCase | Backend/plugins/dns/dns_plugin.py:89 | spellings that agree once lower-cased configure the same plugin |
| DnsPlugin.LookupTypes | Backend/plugins/dns/dns_plugin.py:130-132 | a PTR plugin asks for A, AAAA and PTR; any other asks for its own type |
| DnsPlugin.AllButLast | Backend/plugins/dns/dns_plugin.py:207 | `columns[:-1]` keeps only columns of the list |
| DnsPlugin.Cells | Backend/plugins/dns/dns_plugin.py:164-245 | every row's dict has the scan-date column |
| DnsPlugin.CollectExact | Backend/plugins/dns/dns_plugin.py:190-204 | a helper loop emits a row exactly when some value builds it, and at most one per value |
| DnsPlugin.CollectConcat | Backend/plugins/dns/dns_plugin.py:160-232 | a helper loop over two lists of values emits the rows of the first, then those of the second |
| DnsPlugin.CollectTotal | Backend/plugins/dns/dns_plugin.py:221-245 | when every value builds a row, row `i` is the row of value `i` |
| DnsPlugin.PtrRowsOfExact | Backend/plugins/dns/dns_plugin.py:161-168 | one address yields exactly its real PTR names |
| DnsPlugin.PtrRowsFromExact | Backend/plugins/dns/dns_plugin.py:159-170 | `_scan_ptr` yields one row per address and real name, and no other rows |
| DnsPlugin.PtrRows | Backend/plugins/dns/dns_plugin.py:159-180 | an empty result list always gets at least the placeholder |
| DnsPlugin.SoaRowsFromExact | Backend/plugins/dns/dns_plugin.py:190-204 | `_scan_soa` keeps exactly the answers of at least seven fields, and emits no more rows than answers |
| DnsPlugin.SoaRowsInOrder | Backend/plugins/dns/dns_plugin.py:190-204 | the SOA loop over two lists of answers is the loop over the first then the second, and one answer gives its row exactly when it has seven fields: one row per such answer, in order |
| DnsPlugin.SoaRows | Backend/plugins/dns/dns_plugin.py:190-211 | an empty result list always gets at least the placeholder |
| DnsPlugin.MxRowsExact | Backend/plugins/dns/dns_plugin.py:221-232 | `_scan_mx` emits exactly one row per raw answer, at its position |
| DnsPlugin.SimpleRowsExact | Backend/plugins/dns/dns_plugin.py:242-245 | `_scan_simple` emits exactly one row per value, at its position |
| DnsPlugin.MxAnswerRoundTrip | Backend/plugins/dns/dns_plugin.py:222-230 | `MxRowOf`, the row of one raw answer: an answer `preference server` fills exactly those two cells |
| DnsPlugin.MxSingleFieldAnswer | Backend/plugins/dns/dns_plugin.py:224-225 | a one-field answer is the server, with the no-data priority |
| DnsPlugin.SoaAnswerRoundTrip | Backend/plugins/dns/dns_plugin.py:191-202 | a seven-field answer fills the seven SOA columns in order |
| DnsPlugin.PlaceholderCells | Backend/plugins/dns/dns_plugin.py:207-209 | the placeholder dict has every column but the last set to the no-data text, and the scan date |
| DnsPlugin.ScanNeverEmpty | Backend/plugins/dns/dns_plugin.py:129-146 | with what the lookup returns, the PTR and SOA scans always yield at least one row, and so do MX and the rest, which always get an answer or the placeholder |
| DnsPlugin.ScanRowsDated | Backend/plugins/dns/dns_plugin.py:136-146 | every row of `ScanRows`, the dispatch on the record type, carries the scan date |
| DnsPlugin.Without | Backend/plugins/dns/dns_plugin.py:124-127 | the delete keeps exactly the stored rows of other domains |
| DnsPlugin.Table.constructor | Backend/plugins/dns/dns_plugin.py:98-100 | a new table is empty and has the requested name |
| DnsPlugin.Table.DeleteDomain | Backend/plugins/dns/dns_plugin.py:124-127 | `DELETE ... WHERE domain` removes exactly that domain's rows |
| DnsPlugin.Table.Insert | Backend/plugins/dns/dns_plugin.py:170 | `insert_record` appends one row for the domain |
| DnsPlugin.StoredConcat | Backend/plugins/dns/dns_plugin.py:169-170 | persisting two batches is persisting their concatenation |
| DnsPlugin.ScanPtrsOf | Backend/plugins/dns/dns_plugin.py:161-170 | the inner PTR loop appends and persists exactly one address's real names |
| DnsPlugin.ScanPtrAddresses | Backend/plugins/dns/dns_plugin.py:160-170 | the outer PTR loop appends and persists the rows of every address, in order |
| DnsPlugin.ScanPtr | Backend/plugins/dns/dns_plugin.py:151-180 | `_scan_ptr` appends and persists the PTR rows, or the placeholder on an empty result list |
| DnsPlugin.ScanSoaAnswers | Backend/plugins/dns/dns_plugin.py:190-204 | the SOA loop appends and persists one row per seven-field answer |
| DnsPlugin.ScanSoa | Backend/plugins/dns/dns_plugin.py:182-211 | `_scan_soa` appends and persists the SOA rows, or the placeholder on an empty result list |
| DnsPlugin.ScanMx | Backend/plugins/dns/dns_plugin.py:213-232 | `_scan_mx` appends and persists one row per answer |
| DnsPlugin.ScanSimple | Backend/plugins/dns/dns_plugin.py:234-245 | `_scan_simple` appends and persists one row per value |
| DnsPlugin.Scan | Backend/plugins/dns/dns_plugin.py:105-146 | the domain's stored snapshot is replaced by exactly the rows returned, which are the type's rows of the looked-up records |
| CertificateLookup.Placeholder | Backend/plugins/certificate/crtsh_lookup.py:31-47 | one cell per column: the last holds the scan date, every other holds the no-data text |
| CertificateLookup.DateOf | Backend/plugins/certificate/crtsh_lookup.py:90-92 | the date part has no `T` and is a prefix of the field or its default |
| CertificateLookup.DateOfTimestamp | Backend/plugins/certificate/crtsh_lookup.py:90-92 | an ISO timestamp keeps exactly its date |
| CertificateLookup.DateOfMissing | Backend/plugins/certificate/crtsh_lookup.py:90-92 | a missing timestamp shows the no-data text |
| CertificateLookup.AnyWildcard | Backend/plugins/certificate/crtsh_lookup.py:96 | true exactly when some name starts with `*.` |
| CertificateLookup.WildcardFlag | Backend/plugins/certificate/crtsh_lookup.py:96-106 | `Ja` exactly when some name is a wildcard, `Nein` exactly when none is |
| CertificateLookup.DomainsListEveryName | Backend/plugins/certificate/crtsh_lookup.py:95-97 | every name of the certificate appears in the domain column |
| CertificateLookup.DomainsOfOneName | Backend/plugins/certificate/crtsh_lookup.py:97 | a certificate for one name shows just that name |
| CertificateLookup.CertRowCells | Backend/plugins/certificate/crtsh_lookup.py:88-109 | `CertRow`, the row of one entry: with seven distinct headings each cell holds its own field, and no other column is present |
| CertificateLookup.RowsExact | Backend/plugins/certificate/crtsh_lookup.py:86-109 | one row per entry, at its position |
| CertificateLookup.FailureGivesPlaceholder | Backend/plugins/certificate/crtsh_lookup.py:77-84 | a timeout, a request error, a status other than 200 or an empty list give exactly the placeholder |
| CertificateLookup.OneRowPerEntry | Backend/plugins/certificate/crtsh_lookup.py:82-111 | `Certificates`, the lookup on a given response: a successful non-empty answer gives exactly one row per entry, in order |
| CertificateLookup.NeverEmpty | Backend/plugins/certificate/crtsh_lookup.py:53-120 | the lookup never returns an empty list |
| CertificateLookup.GetCertificates | Backend/plugins/certificate/crtsh_lookup.py:75-120 | the row loop computes the rows of the response, or the placeholder on every failure path |
| PluginManager.Plugin.constructor | Backend/plugins/plugin_manager.py:27-40 | a new instance of the given kind |
| PluginManager.KeysWellFormed | Backend/plugins/plugin_manager.py:25-41 | the thirteen keys are distinct upper-case words |
| PluginManager.KeyAliasesFresh | Backend/plugins/plugin_manager.py:45-46 | no alias is itself a key, and distinct keys have distinct aliases |
| PluginManager.Registered | Backend/plugins/plugin_manager.py:25-41 | a dict literal with distinct keys is well formed, keeps its key order, and key `i` holds value `i` |
| PluginManager.RegisteredSnoc | Backend/plugins/plugin_manager.py:46 | assigning a new key to a literal gives the literal with that key at the end |
| PluginManager.DistinctInstances | Backend/plugins/plugin_manager.py:78 | every instance once, each one taken from the input, none missing |
| PluginManager.DistinctRepeated | Backend/plugins/plugin_manager.py:78 | repeating instances already listed adds nothing |
| PluginManager.Aliases | Backend/plugins/plugin_manager.py:45-46 | alias `i` is the lower-case spelling of key `i` |
| PluginManager.AliasedKeysDistinct | Backend/plugins/plugin_manager.py:45-46 | keys followed by their aliases repeat nothing |
| PluginManager.RegistryOf | Backend/plugins/plugin_manager.py:25-46 | the registry lists the keys, then their aliases; its values are the instances twice over |
| PluginManager.GetPlugin | Backend/plugins/plugin_manager.py:51-65 | an instance is found exactly for a registered key, and it is that key's instance |
| PluginManager.AliasFindsSameInstance | Backend/plugins/plugin_manager.py:45-65 | a key and its lower-case alias find the same instance |
| PluginManager.GetPluginExact | Backend/plugins/plugin_manager.py:51-65 | the lookup succeeds exactly for a key or the all-lower-case spelling of a key |
| PluginManager.RegistryLookup | Backend/plugins/plugin_manager.py:25-65 | in the module's registry a key or its alias finds the instance created for that key, and nothing else is found |
| PluginManager.MixedCaseNotFound | Backend/plugins/plugin_manager.py:65 | a spelling that starts upper-case and has a later character that is not upper-case is never found |
| PluginManager.EmailSpellingNotFound | Backend/plugins/plugin_manager.py:65 | `get_plugin("Email")` is `None` |
| PluginManager.AllPluginsInOrder | Backend/plugins/plugin_manager.py:68-78 | with distinct instances, the listing holds each once, in registration order, aliases adding nothing |
| PluginManager.DnsKeysHoldDnsPlugins | Backend/plugins/plugin_manager.py:27-33 | each of the seven DNS keys holds a DNS plugin configured for exactly that record type |
| PluginManager.DnsKeysUpper | Backend/plugins/plugin_manager.py:27-33 | each DNS key is already its upper-case spelling, so the plugin's record type is the key |
| PluginManager.AliasLoopStep | Backend/plugins/plugin_manager.py:45-46 | each turn of the alias loop finds the key still holding its instance and adds exactly that key's alias |
| PluginManager.AliasStageEnds | Backend/plugins/plugin_manager.py:25-46 | the alias loop starts from the dict literal and ends with every alias in |
| PluginManager.NewInstances | Backend/plugins/plugin_manager.py:25-41 | thirteen new, distinct instances of the kinds registered under the keys |
| PluginManager.PluginRegistry.constructor | Backend/plugins/plugin_manager.py:25-46 | the module's registry: distinct new instances of the registered kinds, the literal and every alias, which together are the object's invariant `Valid` |
| PluginManager.PluginRegistry.AddAliases | Backend/plugins/plugin_manager.py:45-46 | the alias loop over a snapshot of the keys turns the literal into the full registry and leaves the instances alone |
| PluginManager.PluginRegistry.Get | Backend/plugins/plugin_manager.py:51-65 | on a valid registry the lookup finds an instance exactly for a registered key or its all-lower-case alias, and then it is the instance created for that key |
| PluginManager.PluginRegistry.All | Backend/plugins/plugin_manager.py:68-78 | on a valid registry the listing is the thirteen instances, each once, in registration order |

## Left out

- HTTP requests, `subprocess` calls and database access are not modelled. Their outcomes are parameters: the crt.sh response, `dig`'s output, Sublist3r's output file, the fetched CDX hits and robots and sitemap snapshots, and the rows an adapter returned.
- `time.sleep`, `random` and logging or `print` output have no effect on the rows and are left out.
- `date.today()` is the parameter `today`.
- Regular expressions are not modelled. The e-mail and phone patterns' matches, the robots URL matches and the sitemap `<loc>` elements are inputs.
- XML parsing and `urlparse` are not modelled. The URL path of a hit or location is an input beside its text.
- `_fetch_snapshots` is not modelled: its sorting, its slicing and the CDX JSON shape. Its hits are inputs, in the order it returns them.
- `str.lower`, `str.upper`, `str.isspace` and digit recognition are modelled on ASCII only. Non-ASCII case mapping, spaces and digits are not.
- `EmailPlugin.Scan` and `PhonePlugin.Scan` do not model table clearing and persistence. The DNS plugin's table class shows that pattern.
- In the e-mail and phone scans, the in-place update of entry dicts is modelled on values (`ContactRow`). The aliasing between the list `_deduplicate` returns and the candidates is not captured.
- A row with a source-date column missing (`entry.get(date_key, "")`) is not modelled. Every row of these plugins' builders carries all four columns.
- The extractor adapters `extract_emails_from_url` and `extract_phone_numbers_from_url`, the WHOIS and crt.sh contact lookups, and `is_leaked` itself are parameters.
- `EmailUtils.LoadValidTlds`: the lines of the file are taken as given, without the file's encoding or line-ending handling.
- `Wayback.SitemapCandidate`: a `<loc>` without text raises in the source; the model assumes every location has text.
- `CertificateLookup.GetCertificates`: several response shapes are not modelled.
  - A body that is not valid JSON makes `requests` raise its `JSONDecodeError`, a `RequestException`; the model counts it as `RequestError`.
  - A JSON value that is not a list is not modelled.
  - A field holding `null` is not modelled.
  - Fewer than seven column headings are excluded by a precondition. The source raises `IndexError` on them as soon as there is an entry; on its failure paths it needs only one heading.
- `CertificateLookup.Rows` and `DnsPlugin.Cells` give rows as maps. The order of a dict's columns is not captured.
- The plugins' `get` methods (reading stored rows back) and the `description`/`name` fields of plugins other than DNS are not modelled.
- `PluginManager.NewInstances`: instances of the non-DNS plugins carry only their kind, not their constructors' state.
- `Dates.ParseDate`: only the `%Y%m%d` format is modelled, and only ASCII digits.
