/**
 * The helpers of the e-mail plugin: the TLD list and the plausibility
 * filter applied to regular-expression matches, and the two row builders.
 */
module EmailUtils {
  import opened Wrappers
  import opened PyStr
  import opened Config
  import opened Reconcile

  /** A line of the TLD file that counts: not blank and not a `#` comment. */
  predicate TldLine(l: string) {
    Strip(l) != [] && !StartsWith(l, "#")
  }

  /**
   * `VALID_TLDS`: the stripped, lower-cased counting lines of the TLD file.
   * `None` stands for a missing file, which leaves the set empty.
   */
  function LoadValidTlds(file: Option<seq<string>>): (tlds: set<string>)
    ensures file.None? ==> tlds == {}
    ensures forall t :: t in tlds ==> t != [] && IsLower(t) && IsStripped(t)
    ensures file.Some? ==> forall l :: l in file.value && TldLine(l) ==> Lower(Strip(l)) in tlds
    ensures file.Some? ==> forall t :: t in tlds ==> exists l :: l in file.value && TldLine(l) && t == Lower(Strip(l))
  {
    match file
    case None => {}
    case Some(lines) =>
      var tlds := set l | l in lines && TldLine(l) :: Lower(Strip(l));
      assert forall t :: t in tlds ==> t != [] && IsLower(t) && IsStripped(t) by {
        forall t | t in tlds ensures t != [] && IsLower(t) && IsStripped(t) {
          var l :| l in lines && TldLine(l) && t == Lower(Strip(l));
          LowerIsLower(Strip(l));
          LowerKeepsStripped(Strip(l));
        }
      }
      tlds
  }

  /** `is_valid_email_tld`: the lower-cased text after the last '.' is a known TLD. */
  predicate IsValidEmailTld(tlds: set<string>, address: string) {
    Lower(AfterLast(address, '.')) in tlds
  }

  /** Without a '.', the whole lower-cased address is what is looked up. */
  lemma TldWithoutDot(tlds: set<string>, address: string)
    requires !HasChar(address, '.')
    ensures IsValidEmailTld(tlds, address) <==> Lower(address) in tlds
  {
    var r := AfterLast(address, '.');
    assert r == address;
  }

  /** With a '.', the part after the last one is looked up, whatever precedes it. */
  lemma TldAfterLastDot(tlds: set<string>, prefix: string, tld: string)
    requires !HasChar(tld, '.')
    ensures IsValidEmailTld(tlds, prefix + "." + tld) <==> Lower(tld) in tlds
  {
    var a := prefix + "." + tld;
    var r := AfterLast(a, '.');
    assert a[|a| - |tld| - 1] == '.';
    assert a[|a| - |tld|..] == tld;
  }

  /** The filter of `extract_emails_from_text`: the raw matches whose TLD is known. */
  function FilterEmails(tlds: set<string>, rawMatches: seq<string>): (valid: set<string>)
    ensures forall m :: m in valid <==> m in rawMatches && IsValidEmailTld(tlds, m)
  {
    set m | m in rawMatches && IsValidEmailTld(tlds, m)
  }

  /** `insert_data_in_email_columns` with `date.today().isoformat()` as `today`. */
  function InsertDataInEmailColumns(email: string, sourceDate: string, today: string): (row: ContactRow)
    ensures row.value == email && row.leaked == NO_DATA_FOUND_TEXT && row.scanned == today
    ensures row.sourceDate == FormatSourceDate(sourceDate)
  {
    ContactRow(email, NO_DATA_FOUND_TEXT, FormatSourceDate(sourceDate), today)
  }

  /** `generate_empty_email_entry`: the placeholder row, which the placeholder filter would drop. */
  function GenerateEmptyEmailEntry(today: string): (row: ContactRow)
    ensures row.value == NO_DATA_FOUND_TEXT && row.leaked == NO_DATA_FOUND_TEXT
    ensures row.sourceDate == "0000-00-00" && row.scanned == today
    ensures !IsReal(row)
  {
    ContainsSelf(NO_DATA_FOUND_TEXT);
    ContactRow(NO_DATA_FOUND_TEXT, NO_DATA_FOUND_TEXT, "0000-00-00", today)
  }
}
