/**
 * The part of the Sublist3r runner that turns the tool's output file into
 * table rows: one row per distinct subdomain, sorted, or one placeholder.
 */
module Sublist3r {
  import opened Wrappers
  import opened PyStr
  import opened Sorting
  import opened Config

  /** The subdomain a non-blank output line stands for. */
  function SubdomainOf(line: string): (sub: string)
    ensures IsLower(sub)
    ensures StartsWith(line, "www.") ==> sub == Lower(line[4..])
    ensures !StartsWith(line, "www.") ==> sub == Lower(LStrip(line))
  {
    var cleaned := Lower(LStrip(line));
    LowerIsLower(LStrip(line));
    if StartsWith(line, "www.") then
      assert LStrip(line) == line;
      LowerAppend(line[..4], line[4..]);
      assert line == line[..4] + line[4..];
      Drop(cleaned, 4)
    else cleaned
  }

  /** Only the raw line's exact lower-case `www.` prefix is removed; an indented one stays. */
  lemma IndentedWwwKept(x: string)
    ensures SubdomainOf(" www." + x) == "www." + Lower(x)
  {
    var line := " www." + x;
    assert !StartsWith(line, "www.") by { assert line[0] == ' '; }
    IndentedStrip(x);
    LowerAppend("www.", x);
    assert Lower("www.") == "www.";
  }

  lemma IndentedStrip(x: string)
    ensures LStrip(" www." + x) == "www." + x
  {
    var line := " www." + x;
    assert line[1..] == "www." + x;
    assert ("www." + x)[0] == 'w';
  }

  /** The subdomains of the non-blank lines, in line order, duplicates included. */
  function LineSubdomains(lines: seq<string>): (subs: seq<string>)
    ensures forall s :: s in subs <==> exists l :: l in lines && Strip(l) != [] && s == SubdomainOf(l)
  {
    if lines == [] then []
    else
      var rest := LineSubdomains(lines[1..]);
      assert forall l :: l in lines <==> l == lines[0] || l in lines[1..];
      if Strip(lines[0]) != [] then [SubdomainOf(lines[0])] + rest else rest
  }

  /** The set comprehension `subs` sorted: distinct, ascending, and exactly the subdomains of the non-blank lines. */
  function Subdomains(lines: seq<string>): (subs: seq<string>)
    ensures StrictlySorted(subs)
    ensures forall s :: s in subs <==> exists l :: l in lines && Strip(l) != [] && s == SubdomainOf(l)
    ensures forall s :: s in subs ==> IsLower(s)
  {
    SortedUnique(LineSubdomains(lines))
  }

  /** A row of the subdomain table: the subdomain and the scan date. */
  datatype SubdomainRow = SubdomainRow(subdomain: string, scanned: string)

  /** The placeholder text is not lower-case, so it never collides with a subdomain. */
  lemma PlaceholderNotLower()
    ensures !IsLower(NO_DATA_FOUND_TEXT)
  {
    assert NO_DATA_FOUND_TEXT[0] == 'K';
  }

  /** There is no subdomain exactly when every line is blank. */
  lemma NoSubdomainsIff(lines: seq<string>)
    ensures Subdomains(lines) == [] <==> forall l :: l in lines ==> Strip(l) == []
  {
    var subs := Subdomains(lines);
    if subs == [] {
      assert forall l :: l in lines && Strip(l) != [] ==> SubdomainOf(l) in subs;
    } else {
      assert subs[0] in subs;
    }
  }

  /** The subdomain column of a table. */
  function Column(rows: seq<SubdomainRow>): (col: seq<string>)
    ensures |col| == |rows| && forall i :: 0 <= i < |rows| ==> col[i] == rows[i].subdomain
  {
    seq(|rows|, i requires 0 <= i < |rows| => rows[i].subdomain)
  }

  /** `[{columns[0]: sub, columns[1]: today} for sub in subs]`. */
  function RowsOf(subs: seq<string>, today: string): (rows: seq<SubdomainRow>)
    ensures Column(rows) == subs
    ensures forall r :: r in rows ==> r.scanned == today
  {
    var rows := seq(|subs|, i requires 0 <= i < |subs| => SubdomainRow(subs[i], today));
    assert Column(rows) == subs;
    rows
  }

  /** The lines `output.splitlines()` gives; a missing file gives none. */
  function OutputLines(output: Option<string>): seq<string> {
    if output.Some? then SplitLines(output.value) else []
  }

  /**
   * `get_subdomains` after the tool has run: `output` is the file's text,
   * `None` when the file is missing. The result is never empty; it is the
   * placeholder exactly when every line is blank, and otherwise its
   * subdomain column is the sorted distinct subdomains.
   */
  function GetSubdomains(output: Option<string>, today: string): (rows: seq<SubdomainRow>)
    ensures rows != []
    ensures forall r :: r in rows ==> r.scanned == today
    ensures rows == [SubdomainRow(NO_DATA_FOUND_TEXT, today)] <==> forall l :: l in OutputLines(output) ==> Strip(l) == []
    ensures rows != [SubdomainRow(NO_DATA_FOUND_TEXT, today)] ==> Column(rows) == Subdomains(OutputLines(output))
    ensures StrictlySorted(Column(rows))
  {
    var lines := OutputLines(output);
    var subs := Subdomains(lines);
    NoSubdomainsIff(lines);
    if subs == [] then
      [SubdomainRow(NO_DATA_FOUND_TEXT, today)]
    else
      var rows := RowsOf(subs, today);
      PlaceholderNotLower();
      assert subs[0] in subs;
      assert rows[0].subdomain == subs[0];
      rows
  }
}
