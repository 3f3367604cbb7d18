/**
 * The parts of Python's `str` that the plugins rely on, on `seq<char>`:
 * whitespace stripping, ASCII case mapping, prefix/suffix/substring tests,
 * `replace(pat, "")`, `split()`, `splitlines()`, `join`, slicing with
 * clamping, and the code-point lexicographic order of `<`.
 */
module PyStr {
  import opened Wrappers

  // ---------------------------------------------------------------------
  // Character classes
  // ---------------------------------------------------------------------

  /** The characters for which Python's `str.isspace()` holds. */
  predicate IsSpace(c: char) {
    c == ' ' || c == '\t' || c == '\n' || c == '\r' || c == '\U{B}' || c == '\U{C}'
    || ('\U{1C}' <= c <= '\U{1F}') || c == '\U{85}' || c == '\U{A0}' || c == '\U{1680}'
    || ('\U{2000}' <= c <= '\U{200A}') || c == '\U{2028}' || c == '\U{2029}'
    || c == '\U{202F}' || c == '\U{205F}' || c == '\U{3000}'
  }

  /** The line boundaries recognised by `str.splitlines()` (`\r\n` is handled in SplitLines). */
  predicate IsLineBreak(c: char) {
    c == '\n' || c == '\r' || c == '\U{B}' || c == '\U{C}' || c == '\U{1C}' || c == '\U{1D}'
    || c == '\U{1E}' || c == '\U{85}' || c == '\U{2028}' || c == '\U{2029}'
  }

  predicate IsDigit(c: char) { '0' <= c <= '9' }

  function LowerChar(c: char): (r: char)
    ensures !('A' <= r <= 'Z')
    ensures !('A' <= c <= 'Z') ==> r == c
  {
    if 'A' <= c <= 'Z' then (c as int + 32) as char else c
  }

  function UpperChar(c: char): (r: char)
    ensures !('a' <= r <= 'z')
    ensures !('a' <= c <= 'z') ==> r == c
  {
    if 'a' <= c <= 'z' then (c as int - 32) as char else c
  }

  // ---------------------------------------------------------------------
  // Case mapping
  // ---------------------------------------------------------------------

  /** `s.lower()` on ASCII letters. */
  function Lower(s: string): (r: string)
    ensures |r| == |s|
    ensures forall i :: 0 <= i < |s| ==> r[i] == LowerChar(s[i])
  {
    seq(|s|, i requires 0 <= i < |s| => LowerChar(s[i]))
  }

  /** `s.upper()` on ASCII letters. */
  function Upper(s: string): (r: string)
    ensures |r| == |s|
    ensures forall i :: 0 <= i < |s| ==> r[i] == UpperChar(s[i])
  {
    seq(|s|, i requires 0 <= i < |s| => UpperChar(s[i]))
  }

  predicate IsLower(s: string) {
    forall i :: 0 <= i < |s| ==> !('A' <= s[i] <= 'Z')
  }

  lemma LowerIsLower(s: string)
    ensures IsLower(Lower(s)) && Lower(Lower(s)) == Lower(s)
  {
  }

  lemma LowerOfLower(s: string)
    requires IsLower(s)
    ensures Lower(s) == s
  {
  }

  /** Upper-casing ignores a prior lower-casing: the two spellings name the same thing. */
  lemma UpperOfLower(s: string)
    ensures Upper(Lower(s)) == Upper(s)
  {
    assert forall i :: 0 <= i < |s| ==> UpperChar(LowerChar(s[i])) == UpperChar(s[i]);
  }

  lemma LowerAppend(a: string, b: string)
    ensures Lower(a + b) == Lower(a) + Lower(b)
  {
  }

  // ---------------------------------------------------------------------
  // Stripping
  // ---------------------------------------------------------------------

  /** `s.lstrip()`. */
  function LStrip(s: string): (r: string)
    ensures |r| <= |s| && r == s[|s| - |r|..]
    ensures r == [] || !IsSpace(r[0])
    ensures forall i :: 0 <= i < |s| - |r| ==> IsSpace(s[i])
  {
    if |s| > 0 && IsSpace(s[0]) then LStrip(s[1..]) else s
  }

  /** `s.rstrip()`. */
  function RStrip(s: string): (r: string)
    ensures |r| <= |s| && r == s[..|r|]
    ensures r == [] || !IsSpace(r[|r| - 1])
    ensures forall i :: |r| <= i < |s| ==> IsSpace(s[i])
  {
    if |s| > 0 && IsSpace(s[|s| - 1]) then RStrip(s[..|s| - 1]) else s
  }

  /** `s.strip()`. */
  function Strip(s: string): (r: string)
    ensures |r| <= |s|
    ensures r == [] || (!IsSpace(r[0]) && !IsSpace(r[|r| - 1]))
  {
    RStrip(LStrip(s))
  }

  /** A string is blank when `s.strip()` is empty, i.e. every character is whitespace. */
  lemma StripEmptyIff(s: string)
    ensures Strip(s) == [] <==> forall i :: 0 <= i < |s| ==> IsSpace(s[i])
  {
    var l := LStrip(s);
    if l != [] {
      assert l[0] == s[|s| - |l|];
      assert !IsSpace(s[|s| - |l|]);
      assert |RStrip(l)| > 0;
    }
  }

  /** No whitespace at either end: what `strip()` returns. */
  predicate IsStripped(s: string) {
    s == [] || (!IsSpace(s[0]) && !IsSpace(s[|s| - 1]))
  }

  lemma StripOfStripped(s: string)
    requires IsStripped(s)
    ensures Strip(s) == s
  {
  }

  /** Lower-casing leaves whitespace where it is. */
  lemma LowerKeepsStripped(s: string)
    requires IsStripped(s)
    ensures IsStripped(Lower(s))
  {
  }

  /** `s.rstrip(c)` for a single character `c`. */
  function RStripChar(s: string, c: char): (r: string)
    ensures |r| <= |s| && r == s[..|r|]
    ensures r == [] || r[|r| - 1] != c
    ensures forall i :: |r| <= i < |s| ==> s[i] == c
  {
    if |s| > 0 && s[|s| - 1] == c then RStripChar(s[..|s| - 1], c) else s
  }

  // ---------------------------------------------------------------------
  // Prefix, suffix and substring tests
  // ---------------------------------------------------------------------

  /** `s.startswith(p)`. */
  predicate StartsWith(s: string, p: string) {
    |p| <= |s| && s[..|p|] == p
  }

  /** `s.endswith(p)`. */
  predicate EndsWith(s: string, p: string) {
    |p| <= |s| && s[|s| - |p|..] == p
  }

  /** `s.endswith(tuple(ps))`. */
  predicate EndsWithAny(s: string, ps: seq<string>) {
    exists i :: 0 <= i < |ps| && EndsWith(s, ps[i])
  }

  /** `p in s` for strings. */
  predicate Contains(s: string, p: string)
    decreases |s|
  {
    StartsWith(s, p) || (|s| > 0 && Contains(s[1..], p))
  }

  lemma ContainsSelf(s: string)
    ensures Contains(s, s)
  {
  }

  /** `p in s` when `p` occurs at offset `k`. */
  lemma {:induction false} ContainsAt(s: string, p: string, k: nat)
    requires k + |p| <= |s| && s[k..k + |p|] == p
    ensures Contains(s, p)
    decreases k
  {
    if k > 0 {
      assert s[1..][k - 1..k - 1 + |p|] == p;
      ContainsAt(s[1..], p, k - 1);
    }
  }

  /** `c in s` for a single character. */
  predicate HasChar(s: string, c: char) {
    exists i :: 0 <= i < |s| && s[i] == c
  }

  // ---------------------------------------------------------------------
  // Replacement and filtering
  // ---------------------------------------------------------------------

  /** `s.replace(p, "")`: occurrences are removed left to right without overlap. */
  function RemoveAll(s: string, p: string): (r: string)
    requires |p| > 0
    ensures |r| <= |s|
    decreases |s|
  {
    if StartsWith(s, p) then RemoveAll(s[|p|..], p)
    else if s == [] then []
    else [s[0]] + RemoveAll(s[1..], p)
  }

  /** Removing the occurrences of `p` never introduces a character that `s` lacks. */
  lemma {:induction false} RemoveAllChars(s: string, p: string, c: char)
    requires |p| > 0
    requires !HasChar(s, c)
    ensures !HasChar(RemoveAll(s, p), c)
    decreases |s|
  {
    if StartsWith(s, p) {
      assert !HasChar(s[|p|..], c) by {
        forall i | 0 <= i < |s[|p|..]| ensures s[|p|..][i] != c { assert s[|p|..][i] == s[i + |p|]; }
      }
      RemoveAllChars(s[|p|..], p, c);
    } else if s != [] {
      assert !HasChar(s[1..], c) by {
        forall i | 0 <= i < |s[1..]| ensures s[1..][i] != c { assert s[1..][i] == s[i + 1]; }
      }
      RemoveAllChars(s[1..], p, c);
      var r := RemoveAll(s, p);
      assert r == [s[0]] + RemoveAll(s[1..], p);
      forall i | 0 <= i < |r| ensures r[i] != c {
        if i > 0 { assert r[i] == RemoveAll(s[1..], p)[i - 1]; }
      }
    }
  }

  /** `s.replace(p, "")` leaves `s` alone when the first character of `p` does not occur in it. */
  lemma {:induction false} RemoveAllAbsent(s: string, p: string)
    requires |p| > 0 && !HasChar(s, p[0])
    ensures RemoveAll(s, p) == s
    decreases |s|
  {
    if s != [] {
      assert s[0] != p[0];
      assert !HasChar(s[1..], p[0]) by {
        forall i | 0 <= i < |s[1..]| ensures s[1..][i] != p[0] { assert s[1..][i] == s[i + 1]; }
      }
      RemoveAllAbsent(s[1..], p);
      assert s == [s[0]] + s[1..];
    }
  }

  /** Removing a one-character pattern works character by character, so it distributes over `+`. */
  lemma {:induction false} RemoveCharConcat(x: string, y: string, p: string)
    requires |p| == 1
    ensures RemoveAll(x + y, p) == RemoveAll(x, p) + RemoveAll(y, p)
    decreases |x|
  {
    if x != [] {
      assert (x + y)[1..] == x[1..] + y;
      assert StartsWith(x + y, p) <==> StartsWith(x, p);
      RemoveCharConcat(x[1..], y, p);
    } else {
      assert x + y == y;
    }
  }

  /** After `s.replace(c, "")` for a single character `c`, no `c` is left. */
  lemma {:induction false} RemoveCharGone(s: string, c: char)
    ensures !HasChar(RemoveAll(s, [c]), c)
    decreases |s|
  {
    if StartsWith(s, [c]) {
      RemoveCharGone(s[1..], c);
    } else if s != [] {
      RemoveCharGone(s[1..], c);
      var r := RemoveAll(s, [c]);
      assert s[0] != c by { assert s[..1] == [s[0]]; }
      assert r == [s[0]] + RemoveAll(s[1..], [c]);
      forall i | 0 <= i < |r| ensures r[i] != c {
        if i > 0 { assert r[i] == RemoveAll(s[1..], [c])[i - 1]; }
      }
    }
  }

  /** A slice of a dash-free string (or one free of any character `c`) is free of it too. */
  lemma AbsentInSlice(s: string, i: nat, j: nat, c: char)
    requires i <= j <= |s| && !HasChar(s, c)
    ensures !HasChar(s[i..j], c)
  {
  }

  lemma RemoveSelfChar(p: string)
    requires |p| == 1
    ensures RemoveAll(p, p) == []
  {
    assert StartsWith(p, p);
    assert p[|p|..] == [];
  }

  // ---------------------------------------------------------------------
  // Slicing
  // ---------------------------------------------------------------------

  /** Python's `s[i:j]` for `0 <= i <= j`: both bounds are clamped to `len(s)`. */
  function Slice(s: string, i: nat, j: nat): (r: string)
    requires i <= j
    ensures |r| == (if j <= |s| then j else |s|) - (if i <= |s| then i else |s|)
  {
    var hi := if j <= |s| then j else |s|;
    var lo := if i <= |s| then i else |s|;
    s[lo..hi]
  }

  /** Python's `s[:n]`. */
  function Take(s: string, n: nat): (r: string)
    ensures |r| == (if n <= |s| then n else |s|) && r == s[..|r|]
  {
    if n <= |s| then s[..n] else s
  }

  /** Python's `s[n:]`. */
  function Drop(s: string, n: nat): (r: string)
    ensures r == if n <= |s| then s[n..] else []
  {
    if n <= |s| then s[n..] else []
  }

  // ---------------------------------------------------------------------
  // Splitting and joining
  // ---------------------------------------------------------------------

  /** `s.split()`: maximal runs of non-whitespace characters, in order. */
  function SplitWhitespace(s: string): seq<string> {
    FieldsFrom(s, [])
  }

  /** The fields of `s` when the partial field `cur` precedes it. */
  function FieldsFrom(s: string, cur: string): seq<string>
    decreases |s|
  {
    if s == [] then (if cur == [] then [] else [cur])
    else if IsSpace(s[0]) then (if cur == [] then FieldsFrom(s[1..], []) else [cur] + FieldsFrom(s[1..], []))
    else FieldsFrom(s[1..], cur + [s[0]])
  }

  /** A non-empty run of non-whitespace characters: one field of `split()`. */
  predicate IsToken(s: string) {
    s != [] && forall i :: 0 <= i < |s| ==> !IsSpace(s[i])
  }

  /** Non-whitespace characters extend the partial field. */
  lemma {:induction false} FieldsFromRun(p: string, rest: string, cur: string)
    requires forall i :: 0 <= i < |p| ==> !IsSpace(p[i])
    ensures FieldsFrom(p + rest, cur) == FieldsFrom(rest, cur + p)
    decreases |p|
  {
    if p == [] {
      assert p + rest == rest && cur + p == cur;
    } else {
      assert (p + rest)[0] == p[0];
      assert (p + rest)[1..] == p[1..] + rest;
      FieldsFromRun(p[1..], rest, cur + [p[0]]);
      assert cur + [p[0]] + p[1..] == cur + p;
    }
  }

  /** `" ".join` of fields splits back into the same fields. */
  lemma {:induction false} SplitJoinedTokens(parts: seq<string>)
    requires forall i :: 0 <= i < |parts| ==> IsToken(parts[i])
    ensures SplitWhitespace(Join(parts, " ")) == parts
  {
    if parts == [] {
      assert Join(parts, " ") == [];
    } else if |parts| == 1 {
      var p := parts[0];
      assert IsToken(p);
      assert Join(parts, " ") == p + [];
      FieldsFromRun(p, [], []);
      assert [] + p == p;
    } else {
      var head := parts[0];
      var more := parts[1..];
      assert IsToken(head);
      assert forall i :: 0 <= i < |more| ==> IsToken(more[i]) by {
        forall i | 0 <= i < |more| ensures IsToken(more[i]) { assert more[i] == parts[i + 1]; }
      }
      var tail := Join(more, " ");
      assert Join(parts, " ") == head + (" " + tail);
      calc {
        SplitWhitespace(Join(parts, " "));
        FieldsFrom(head + (" " + tail), []);
        { FieldsFromRun(head, " " + tail, []); assert [] + head == head; }
        FieldsFrom(" " + tail, head);
        { assert (" " + tail)[1..] == tail; }
        [head] + FieldsFrom(tail, []);
        { SplitJoinedTokens(more); }
        [head] + more;
      }
      assert parts == [head] + more;
    }
  }

  /** The length of the first line, up to its line boundary or the end of `s`. */
  function LineLength(s: string): (n: nat)
    ensures n <= |s|
    ensures forall i :: 0 <= i < n ==> !IsLineBreak(s[i])
    ensures n < |s| ==> IsLineBreak(s[n])
  {
    if s == [] || IsLineBreak(s[0]) then 0 else 1 + LineLength(s[1..])
  }

  /** `s.splitlines()`: the lines without their boundaries; a final boundary adds no empty line. */
  function SplitLines(s: string): (r: seq<string>)
    ensures forall i, k :: 0 <= i < |r| && 0 <= k < |r[i]| ==> !IsLineBreak(r[i][k])
    decreases |s|
  {
    if s == [] then []
    else
      var n := LineLength(s);
      if n == |s| then [s]
      else
        var width := if s[n] == '\r' && n + 1 < |s| && s[n + 1] == '\n' then 2 else 1;
        [s[..n]] + SplitLines(s[n + width..])
  }

  /** `sep.join(parts)`. */
  function Join(parts: seq<string>, sep: string): string {
    if parts == [] then []
    else if |parts| == 1 then parts[0]
    else parts[0] + sep + Join(parts[1..], sep)
  }

  /** `s.split(c)[0]`: the text before the first `c`, or all of `s`. */
  function BeforeFirst(s: string, c: char): (r: string)
    ensures |r| <= |s| && r == s[..|r|]
    ensures forall i :: 0 <= i < |r| ==> s[i] != c
    ensures |r| < |s| ==> s[|r|] == c
  {
    if s == [] || s[0] == c then [] else [s[0]] + BeforeFirst(s[1..], c)
  }

  /** `s.rsplit(c, 1)[-1]`: the text after the last `c`, or all of `s`. */
  function AfterLast(s: string, c: char): (r: string)
    ensures |r| <= |s| && r == s[|s| - |r|..]
    ensures forall i :: 0 <= i < |r| ==> r[i] != c
    ensures |r| < |s| ==> s[|s| - |r| - 1] == c
  {
    if s == [] || s[|s| - 1] == c then [] else AfterLast(s[..|s| - 1], c) + [s[|s| - 1]]
  }

  // ---------------------------------------------------------------------
  // Python's `int(s)` for base-10 text
  // ---------------------------------------------------------------------

  /** The value of a run of ASCII digits and underscores, ignoring the underscores. */
  function DigitsValue(s: string): nat {
    if s == [] then 0
    else if s[|s| - 1] == '_' then DigitsValue(s[..|s| - 1])
    else DigitsValue(s[..|s| - 1]) * 10 + (s[|s| - 1] as int - '0' as int) % 10
  }

  /** The literal shape `int()` accepts after the sign: digits, single underscores only between digits. */
  predicate DecimalLiteral(s: string) {
    && s != [] && IsDigit(s[0]) && IsDigit(s[|s| - 1])
    && (forall i :: 0 <= i < |s| ==> IsDigit(s[i]) || s[i] == '_')
    && (forall i :: 0 <= i < |s| - 1 ==> !(s[i] == '_' && s[i + 1] == '_'))
  }

  /** `int(s)` on a base-10 string: `None` where Python raises `ValueError`. */
  function PyInt(s: string): Option<int> {
    var t := Strip(s);
    if t != [] && (t[0] == '+' || t[0] == '-') then
      if DecimalLiteral(t[1..]) then Some(if t[0] == '-' then -(DigitsValue(t[1..]) as int) else DigitsValue(t[1..]))
      else None
    else if DecimalLiteral(t) then Some(DigitsValue(t))
    else None
  }

  /** A non-empty run of ASCII digits always converts. */
  lemma PyIntOfDigits(s: string)
    requires s != [] && forall i :: 0 <= i < |s| ==> IsDigit(s[i])
    ensures PyInt(s).Some?
  {
    assert !IsSpace(s[0]) && !IsSpace(s[|s| - 1]);
    StripOfStripped(s);
    assert DecimalLiteral(s);
  }

  // ---------------------------------------------------------------------
  // Order: Python compares strings by code point, lexicographically
  // ---------------------------------------------------------------------

  /** `a < b` on Python strings. */
  predicate Lt(a: string, b: string) {
    if a == [] then b != []
    else if b == [] then false
    else if a[0] != b[0] then a[0] < b[0]
    else Lt(a[1..], b[1..])
  }

  /** `a <= b` on Python strings. */
  predicate Le(a: string, b: string) {
    !Lt(b, a)
  }

  lemma {:induction false} LtIrreflexive(a: string)
    ensures !Lt(a, a)
  {
    if a != [] { LtIrreflexive(a[1..]); }
  }

  lemma {:induction false} LtTransitive(a: string, b: string, c: string)
    requires Lt(a, b) && Lt(b, c)
    ensures Lt(a, c)
  {
    if a != [] && b != [] && c != [] && a[0] == b[0] && b[0] == c[0] {
      LtTransitive(a[1..], b[1..], c[1..]);
    }
  }

  lemma {:induction false} LtTotal(a: string, b: string)
    ensures a == b || Lt(a, b) || Lt(b, a)
  {
    if a != [] && b != [] && a[0] == b[0] {
      LtTotal(a[1..], b[1..]);
      if a[1..] == b[1..] {
        assert a == [a[0]] + a[1..] && b == [b[0]] + b[1..];
      }
    }
  }

  lemma LtAsymmetric(a: string, b: string)
    requires Lt(a, b)
    ensures !Lt(b, a) && a != b
  {
    LtIrreflexive(a);
    if Lt(b, a) { LtTransitive(a, b, a); }
  }

  /** `<=` on strings is a total preorder, and equality is its symmetric part. */
  lemma LeFacts(a: string, b: string, c: string)
    ensures Le(a, b) || Le(b, a)
    ensures Le(a, b) && Le(b, c) ==> Le(a, c)
    ensures Le(a, b) && Le(b, a) ==> a == b
    ensures Le(a, a)
  {
    LtTotal(a, b);
    LtTotal(b, c);
    if Lt(a, b) { LtAsymmetric(a, b); }
    LtTotal(a, c);
    LtIrreflexive(a);
    if Le(a, b) && Le(b, c) && Lt(c, a) {
      if a == b { } else if b == c { } else {
        LtTransitive(a, b, c);
        LtAsymmetric(a, c);
      }
    }
    if Le(a, b) && Le(b, a) && a != b { }
  }
}
