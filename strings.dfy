/**
 * The string operations the handlers rely on: JavaScript's `trim`, SQLite's
 * ASCII-only `UPPER`, and the comma join that `Array.prototype.toString`
 * applies to a validation error path.
 */
module Strings {

  /** LineTerminator of ECMA-262: what `.` in a regular expression does not match. */
  predicate IsLineTerminator(c: char) {
    c == '\n' || c == '\r' || c == '\U{2028}' || c == '\U{2029}'
  }

  /** WhiteSpace or LineTerminator of ECMA-262: what `trim` removes and `\s` matches. */
  predicate IsJsSpace(c: char) {
    || c == '\t' || c == '\U{000B}' || c == '\U{000C}' || c == ' '
    || c == '\U{00A0}' || c == '\U{FEFF}' || c == '\U{1680}'
    || ('\U{2000}' <= c <= '\U{200A}')
    || c == '\U{202F}' || c == '\U{205F}' || c == '\U{3000}'
    || IsLineTerminator(c)
  }

  /** Every character is white space (the empty string included). */
  predicate Blank(s: string) {
    forall i :: 0 <= i < |s| ==> IsJsSpace(s[i])
  }

  /** Neither end of the string is white space. */
  predicate Trimmed(s: string) {
    s == [] || (!IsJsSpace(s[0]) && !IsJsSpace(s[|s| - 1]))
  }

  /** `s` with its leading white space removed. */
  function TrimStart(s: string): (r: string)
    ensures |r| <= |s| && r == s[|s| - |r|..]
    ensures Blank(s[..|s| - |r|])
    ensures r == [] || !IsJsSpace(r[0])
  {
    if s != [] && IsJsSpace(s[0]) then TrimStart(s[1..]) else s
  }

  /** `s` with its trailing white space removed. */
  function TrimEnd(s: string): (r: string)
    ensures |r| <= |s| && r == s[..|r|]
    ensures Blank(s[|r|..])
    ensures r == [] || !IsJsSpace(r[|r| - 1])
  {
    if s != [] && IsJsSpace(s[|s| - 1]) then TrimEnd(s[..|s| - 1]) else s
  }

  /** `String.prototype.trim`. */
  function Trim(s: string): (r: string)
    ensures |r| <= |s|
    ensures Trimmed(r)
    ensures r == [] <==> Blank(s)
    ensures Trimmed(s) ==> r == s
  {
    var t := TrimStart(s);
    assert t == [] <==> Blank(s) by {
      if t == [] {
        assert s[..|s| - |t|] == s;
      } else {
        assert !IsJsSpace(s[|s| - |t|]);
      }
    }
    TrimEnd(t)
  }

  lemma {:induction false} TrimIdempotent(s: string)
    ensures Trim(Trim(s)) == Trim(s)
  {
  }

  /** SQLite's built-in `UPPER` folds only the ASCII letters. */
  function UpperChar(c: char): (u: char)
    ensures 'a' <= c <= 'z' ==> 'A' <= u <= 'Z' && u as int == c as int - 32
    ensures !('a' <= c <= 'z') ==> u == c
  {
    if 'a' <= c <= 'z' then (c as int - 32) as char else c
  }

  function Upper(s: string): (r: string)
    ensures |r| == |s|
    ensures forall i :: 0 <= i < |s| ==> r[i] == UpperChar(s[i])
  {
    if s == [] then [] else [UpperChar(s[0])] + Upper(s[1..])
  }

  /** `UPPER(a) = UPPER(b)`: the test every uniqueness query applies. */
  predicate SameIgnoringCase(a: string, b: string) {
    Upper(a) == Upper(b)
  }

  lemma {:induction false} UpperIdempotent(s: string)
    ensures Upper(Upper(s)) == Upper(s)
  {
  }

  /** `SameIgnoringCase` is an equivalence relation, so "already exists" is a property of a class of spellings. */
  lemma SameIgnoringCaseIsEquivalence(a: string, b: string, c: string)
    ensures SameIgnoringCase(a, a)
    ensures SameIgnoringCase(a, b) ==> SameIgnoringCase(b, a)
    ensures SameIgnoringCase(a, b) && SameIgnoringCase(b, c) ==> SameIgnoringCase(a, c)
  {
  }

  /** Two strings that are equal ignoring case have the same length. */
  lemma SameIgnoringCaseLength(a: string, b: string)
    requires SameIgnoringCase(a, b)
    ensures |a| == |b|
  {
    assert |Upper(a)| == |Upper(b)|;
  }

  /** `Array.prototype.toString`: the elements joined with commas. */
  function JoinComma(path: seq<string>): string {
    if |path| == 0 then "" else if |path| == 1 then path[0] else path[0] + "," + JoinComma(path[1..])
  }

  /** `String.prototype.split(",")`: the pieces between commas. */
  function SplitComma(s: string): (r: seq<string>)
    ensures |r| >= 1
  {
    if s == [] then [""]
    else if s[0] == ',' then [""] + SplitComma(s[1..])
    else
      var rest := SplitComma(s[1..]);
      [[s[0]] + rest[0]] + rest[1..]
  }

  lemma {:induction false} SplitNoComma(a: string)
    requires ',' !in a
    ensures SplitComma(a) == [a]
  {
    if a != [] {
      SplitNoComma(a[1..]);
      assert [a[0]] + a[1..] == a;
    }
  }

  lemma {:induction false} SplitAtFirstComma(a: string, b: string)
    requires ',' !in a
    ensures SplitComma(a + "," + b) == [a] + SplitComma(b)
  {
    if a == [] {
      assert a + "," + b == [','] + b;
      assert (a + "," + b)[1..] == b;
    } else {
      assert (a + "," + b)[1..] == a[1..] + "," + b;
      SplitAtFirstComma(a[1..], b);
      assert [a[0]] + a[1..] == a;
    }
  }

  /**
   * The key of an error body names its path unambiguously: when no path
   * element holds a comma, splitting the key at commas gives the path back.
   */
  lemma {:induction false} JoinCommaRoundTrip(path: seq<string>)
    requires |path| >= 1
    requires forall i :: 0 <= i < |path| ==> ',' !in path[i]
    ensures SplitComma(JoinComma(path)) == path
  {
    if |path| == 1 {
      SplitNoComma(path[0]);
    } else {
      JoinCommaRoundTrip(path[1..]);
      SplitAtFirstComma(path[0], JoinComma(path[1..]));
    }
  }
}
