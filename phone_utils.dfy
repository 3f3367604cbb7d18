/**
 * The helpers of the phone plugin: Swiss number normalisation, the
 * plausibility check, the filter over regular-expression hits and the two
 * row builders.
 */
module PhoneUtils {
  import opened PyStr
  import opened Config
  import opened Reconcile

  /** The characters `re.sub(r"[ \-\/]", "", raw)` removes. */
  predicate IsSeparator(c: char) {
    c == ' ' || c == '-' || c == '/'
  }

  /** `re.sub(r"[ \-\/]", "", s)`: `s` without its separators, the rest in order. */
  function RemoveSeparators(s: string): string {
    if s == [] then []
    else if IsSeparator(s[0]) then RemoveSeparators(s[1..])
    else [s[0]] + RemoveSeparators(s[1..])
  }

  /** No separator is left. */
  lemma {:induction false} SeparatorsRemoved(s: string)
    ensures forall i :: 0 <= i < |RemoveSeparators(s)| ==> !IsSeparator(RemoveSeparators(s)[i])
    decreases |s|
  {
    if s != [] {
      SeparatorsRemoved(s[1..]);
    }
  }

  /** The separator-free, stripped digits the prefix rules look at. */
  function Compacted(raw: string): (d: string)
    ensures forall i :: 0 <= i < |d| ==> !IsSeparator(d[i])
    ensures IsStripped(d)
  {
    SeparatorsRemoved(raw);
    StrippedKeepsNoSeparator(RemoveSeparators(raw));
    Strip(RemoveSeparators(raw))
  }

  /** Stripping a separator-free text leaves it separator-free. */
  lemma StrippedKeepsNoSeparator(c: string)
    requires forall i :: 0 <= i < |c| ==> !IsSeparator(c[i])
    ensures forall i :: 0 <= i < |Strip(c)| ==> !IsSeparator(Strip(c)[i])
  {
    var l := LStrip(c);
    assert forall i :: 0 <= i < |l| ==> l[i] == c[|c| - |l| + i];
    var d := RStrip(l);
    assert d == Strip(c);
    assert forall i :: 0 <= i < |d| ==> d[i] == l[i];
  }

  /** The prefix rules of `normalize_phone_number`: `0041…` and a leading `0` become `+41…`, anything else stays. */
  function RewritePrefix(d: string): (r: string)
    ensures StartsWith(d, "0041") ==> r == "+41" + d[4..]
    ensures !StartsWith(d, "0041") && StartsWith(d, "0") ==> r == "+41" + d[1..]
    ensures !StartsWith(d, "0") ==> r == d
    ensures !StartsWith(r, "0")
    ensures (forall i :: 0 <= i < |d| ==> !IsSeparator(d[i])) ==> forall i :: 0 <= i < |r| ==> !IsSeparator(r[i])
  {
    if StartsWith(d, "0041") then
      var r := "+" + d[2..];
      assert r[..1] == "+";
      assert d[2] == '4' && d[3] == '1';
      assert r == "+41" + d[4..];
      assert forall i :: 3 <= i < |r| ==> r[i] == d[i + 1];
      r
    else if StartsWith(d, "0") then
      var r := "+41" + d[1..];
      assert r[..1] == "+";
      assert forall i :: 3 <= i < |r| ==> r[i] == d[i - 2];
      r
    else d
  }

  /** `normalize_phone_number`: the prefix rules applied to the compacted number. */
  function NormalizePhoneNumber(raw: string): (r: string)
    ensures !StartsWith(r, "0")
    ensures forall i :: 0 <= i < |r| ==> !IsSeparator(r[i])
  {
    RewritePrefix(Compacted(raw))
  }

  /** Removing separators works character by character, so it distributes over `+`. */
  lemma {:induction false} RemoveSeparatorsConcat(x: string, y: string)
    ensures RemoveSeparators(x + y) == RemoveSeparators(x) + RemoveSeparators(y)
    decreases |x|
  {
    if x == [] {
      assert x + y == y;
    } else {
      assert (x + y)[1..] == x[1..] + y;
      RemoveSeparatorsConcat(x[1..], y);
    }
  }

  /** For a number whose separator-free form has no surrounding whitespace, only the prefix rules act. */
  lemma NormalizeWithoutPadding(raw: string, d: string)
    requires RemoveSeparators(raw) == d && IsStripped(d)
    ensures NormalizePhoneNumber(raw) == RewritePrefix(d)
  {
    StripOfStripped(d);
  }

  lemma RewriteMobileExample()
    ensures RewritePrefix("0791234567") == "+41791234567"
  {
    var d := "0791234567";
    assert StartsWith(d, "0") by { assert d[..1] == "0"; }
    assert !StartsWith(d, "0041") by { assert d[1] != '0'; }
    assert d[1..] == "791234567";
    assert "+41" + "791234567" == "+41791234567";
  }

  lemma RemoveMobileExample()
    ensures RemoveSeparators("079" + " 123" + " 45" + " 67") == "0791234567"
  {
    var p1, p2, p3, p4 := "079", " 123", " 45", " 67";
    RemoveSeparatorsConcat(p1 + p2 + p3, p4);
    RemoveSeparatorsConcat(p1 + p2, p3);
    RemoveSeparatorsConcat(p1, p2);
    MobilePieces();
    assert "079" + "123" + "45" + "67" == "0791234567";
  }

  lemma MobilePieces()
    ensures RemoveSeparators("079") == "079" && RemoveSeparators(" 123") == "123"
    ensures RemoveSeparators(" 45") == "45" && RemoveSeparators(" 67") == "67"
  {
    assert RemoveSeparators(" 123") == "123";
  }

  /** The first example of the docstring, `"079 123 45 67"`, written piece by piece. */
  lemma NormalizeMobileExample()
    ensures NormalizePhoneNumber("079" + " 123" + " 45" + " 67") == "+41791234567"
  {
    RemoveMobileExample();
    NormalizeWithoutPadding("079" + " 123" + " 45" + " 67", "0791234567");
    RewriteMobileExample();
  }

  lemma RewriteInternationalExample()
    ensures RewritePrefix("0041441234567") == "+41441234567"
  {
    var d := "0041441234567";
    assert StartsWith(d, "0041") by { assert d[..4] == "0041"; }
    assert d[4..] == "441234567";
    assert "+41" + "441234567" == "+41441234567";
  }

  lemma RemoveInternationalExample()
    ensures RemoveSeparators("0041" + " 44" + " 123" + " 45" + " 67") == "0041441234567"
  {
    var p1, p2, p3, p4, p5 := "0041", " 44", " 123", " 45", " 67";
    RemoveSeparatorsConcat(p1 + p2 + p3 + p4, p5);
    RemoveSeparatorsConcat(p1 + p2 + p3, p4);
    RemoveSeparatorsConcat(p1 + p2, p3);
    RemoveSeparatorsConcat(p1, p2);
    InternationalPieces();
    assert "0041" + "44" + "123" + "45" + "67" == "0041441234567";
  }

  lemma InternationalPieces()
    ensures RemoveSeparators("0041") == "0041" && RemoveSeparators(" 44") == "44"
    ensures RemoveSeparators(" 123") == "123" && RemoveSeparators(" 45") == "45" && RemoveSeparators(" 67") == "67"
  {
    CountryCodeKept();
    SpacedPiece('4', '4');
    SpacedPiece('4', '5');
    SpacedPiece('6', '7');
    SpacedTriple();
  }

  lemma CountryCodeKept()
    ensures RemoveSeparators("0041") == "0041"
  {
    assert RemoveSeparators("1") == "1";
    assert RemoveSeparators("41") == "41";
    assert RemoveSeparators("041") == "041";
  }

  /** A space and two digits lose the space. */
  lemma SpacedPiece(a: char, b: char)
    requires !IsSeparator(a) && !IsSeparator(b)
    ensures RemoveSeparators([' ', a, b]) == [a, b]
  {
    assert RemoveSeparators([b]) == [b];
    assert RemoveSeparators([a, b]) == [a, b];
  }

  lemma SpacedTriple()
    ensures RemoveSeparators(" 123") == "123"
  {
    assert RemoveSeparators("3") == "3";
    assert RemoveSeparators("23") == "23";
    assert RemoveSeparators("123") == "123";
  }

  /** The second example of the docstring, `"0041 44 123 45 67"`, written piece by piece. */
  lemma NormalizeInternationalExample()
    ensures NormalizePhoneNumber("0041" + " 44" + " 123" + " 45" + " 67") == "+41441234567"
  {
    RemoveInternationalExample();
    NormalizeWithoutPadding("0041" + " 44" + " 123" + " 45" + " 67", "0041441234567");
    RewriteInternationalExample();
  }

  /** `is_valid_swiss_number`. */
  predicate IsValidSwissNumber(n: string) {
    StartsWith(n, "+41") && !StartsWith(n, "+4100")
  }

  lemma PrefixedStartsWith(x: string, p: string, q: string)
    ensures StartsWith(p + x, p + q) <==> StartsWith(x, q)
  {
    if StartsWith(x, q) {
      assert (p + x)[..|p + q|] == p + x[..|q|];
    }
    if StartsWith(p + x, p + q) {
      assert x[..|q|] == (p + x)[..|p + q|][|p|..];
    }
  }

  /**
   * Which inputs the check accepts after normalisation: a number that was
   * rewritten to `+41` is accepted unless the rest starts with `00`.
   */
  lemma ValidAfterNormalizing(raw: string)
    ensures var d := Compacted(raw);
      IsValidSwissNumber(NormalizePhoneNumber(raw)) <==>
        if StartsWith(d, "0041") then !StartsWith(d[4..], "00")
        else if StartsWith(d, "0") then !StartsWith(d[1..], "00")
        else IsValidSwissNumber(d)
  {
    var d := Compacted(raw);
    assert NormalizePhoneNumber(raw) == RewritePrefix(d);
    if StartsWith(d, "0041") {
      PrefixedStartsWith(d[4..], "+41", "00");
      assert StartsWith("+41" + d[4..], "+41");
      assert "+41" + "00" == "+4100";
    } else if StartsWith(d, "0") {
      PrefixedStartsWith(d[1..], "+41", "00");
      assert StartsWith("+41" + d[1..], "+41");
      assert "+41" + "00" == "+4100";
    }
  }

  /** The set comprehension of `extract_phone_numbers` over the regular-expression hits. */
  function ExtractPhoneNumbers(rawHits: seq<string>): (numbers: set<string>)
    ensures forall n :: n in numbers ==> IsValidSwissNumber(n) && exists h :: h in rawHits && n == NormalizePhoneNumber(h)
    ensures forall h :: h in rawHits && IsValidSwissNumber(NormalizePhoneNumber(h)) ==> NormalizePhoneNumber(h) in numbers
  {
    set h | h in rawHits && IsValidSwissNumber(NormalizePhoneNumber(h)) :: NormalizePhoneNumber(h)
  }

  /** `insert_data_in_phone_columns` with `date.today().isoformat()` as `today`. */
  function InsertDataInPhoneColumns(phone: string, sourceDate: string, today: string): (row: ContactRow)
    ensures row.value == phone && row.leaked == NO_DATA_FOUND_TEXT && row.scanned == today
    ensures |sourceDate| == 8 ==> row.sourceDate == sourceDate[..4] + "-" + sourceDate[4..6] + "-" + sourceDate[6..]
    ensures sourceDate == [] ==> row.sourceDate == "0000-00-00"
    ensures sourceDate != [] && |sourceDate| != 8 ==> row.sourceDate == sourceDate
  {
    ContactRow(phone, NO_DATA_FOUND_TEXT, FormatSourceDate(sourceDate), today)
  }

  /**
   * `generate_fallback_phone_entry`: the placeholder row, which the
   * placeholder filter would drop. The phone utilities define it apart from
   * the e-mail utilities' `generate_empty_email_entry`; the two build the
   * same row, and each plugin uses its own.
   */
  function GenerateFallbackPhoneEntry(today: string): (row: ContactRow)
    ensures row.value == NO_DATA_FOUND_TEXT && row.leaked == NO_DATA_FOUND_TEXT
    ensures row.sourceDate == "0000-00-00" && row.scanned == today
    ensures !IsReal(row)
  {
    ContainsSelf(NO_DATA_FOUND_TEXT);
    ContactRow(NO_DATA_FOUND_TEXT, NO_DATA_FOUND_TEXT, "0000-00-00", today)
  }
}
