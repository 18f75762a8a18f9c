/** The string operations the registry grammars are built from: split, partition and strip, with
    the laws by which printed text is read back.  A text is a sequence of characters; white
    space is what str.strip() removes.  Splitting is on one character and keeps empty pieces,
    and partition cuts at the first occurrence, as Python's do. */
module Text {
  import opened Prelude

  /** What str.strip() removes and \s matches. */
  predicate IsSpace(c: char) {
    || '\t' <= c <= '\r' || '\U{1C}' <= c <= ' ' || c == '\U{85}' || c == '\U{A0}' || c == '\U{1680}'
    || '\U{2000}' <= c <= '\U{200A}' || c == '\U{2028}' || c == '\U{2029}' || c == '\U{202F}'
    || c == '\U{205F}' || c == '\U{3000}'
  }

  predicate Lacks(s: string, c: char) {
    forall i :: 0 <= i < |s| ==> s[i] != c
  }

  // ---------------------------------------------------------------------------
  // Partition at the first separator
  // ---------------------------------------------------------------------------

  /** str.partition: None when the separator is absent. */
  function Cut(s: string, c: char): (r: Option<(string, string)>)
    ensures r.None? <==> Lacks(s, c)
    ensures r.Some? ==> Lacks(r.value.0, c) && s == r.value.0 + [c] + r.value.1
    ensures r.Some? ==> |r.value.0| + 1 + |r.value.1| == |s|
  {
    if s == "" then None
    else if s[0] == c then
      assert s == "" + [c] + s[1..];
      Some(("", s[1..]))
    else
      match Cut(s[1..], c)
      case None => None
      case Some(p) =>
        assert s == [s[0]] + s[1..];
        Some(([s[0]] + p.0, p.1))
  }

  lemma CutAt(a: string, c: char, b: string)
    requires Lacks(a, c)
    ensures Cut(a + [c] + b, c) == Some((a, b))
  {
    var s := a + [c] + b;
    assert s[|a|] == c;
    var r := Cut(s, c).value;
    assert s[|r.0|] == c;
    assert forall i :: 0 <= i < |r.0| ==> s[i] == r.0[i];
    assert forall i :: 0 <= i < |a| ==> s[i] == a[i];
    assert |r.0| == |a|;
    assert r.0 == s[..|a|] == a;
    assert r.1 == s[|a| + 1..] == b;
  }

  // ---------------------------------------------------------------------------
  // Split and join
  // ---------------------------------------------------------------------------

  function Split(s: string, c: char): (parts: seq<string>)
    ensures |parts| >= 1
    decreases |s|
  {
    match Cut(s, c)
    case None => [s]
    case Some(p) => [p.0] + Split(p.1, c)
  }

  function Glue(parts: seq<string>, c: char): string {
    if |parts| == 0 then "" else if |parts| == 1 then parts[0] else parts[0] + [c] + Glue(parts[1..], c)
  }

  predicate AllLack(parts: seq<string>, c: char) {
    forall i :: 0 <= i < |parts| ==> Lacks(parts[i], c)
  }

  lemma {:induction false} SplitGlue(parts: seq<string>, c: char)
    requires |parts| >= 1 && AllLack(parts, c)
    ensures Split(Glue(parts, c), c) == parts
  {
    if |parts| > 1 {
      CutAt(parts[0], c, Glue(parts[1..], c));
      SplitGlue(parts[1..], c);
    }
  }

  lemma {:induction false} GlueSplit(s: string, c: char)
    ensures Glue(Split(s, c), c) == s && AllLack(Split(s, c), c)
    decreases |s|
  {
    var r := Cut(s, c);
    if r.Some? {
      GlueSplit(r.value.1, c);
      assert Split(s, c)[1..] == Split(r.value.1, c);
    }
  }

  lemma {:induction false} GlueLacks(parts: seq<string>, c: char, d: char)
    requires c != d && AllLack(parts, d)
    ensures Lacks(Glue(parts, c), d)
  {
    if |parts| > 1 {
      GlueLacks(parts[1..], c, d);
    }
  }

  // ---------------------------------------------------------------------------
  // Strip
  // ---------------------------------------------------------------------------

  function StripLeft(s: string): string {
    if s != "" && IsSpace(s[0]) then StripLeft(s[1..]) else s
  }

  function StripRight(s: string): string {
    if s != "" && IsSpace(s[|s| - 1]) then StripRight(s[..|s| - 1]) else s
  }

  function Strip(s: string): string {
    StripRight(StripLeft(s))
  }

  /** No white space at either end. */
  predicate Trim(s: string) {
    s != "" ==> !IsSpace(s[0]) && !IsSpace(s[|s| - 1])
  }

  lemma StripKeeps(s: string)
    requires Trim(s)
    ensures Strip(s) == s
  {
  }

  lemma {:induction false} StripLeftShape(s: string)
    ensures StripLeft(s) != "" ==> !IsSpace(StripLeft(s)[0])
    ensures |StripLeft(s)| <= |s| && s[|s| - |StripLeft(s)|..] == StripLeft(s)
  {
    if s != "" && IsSpace(s[0]) {
      StripLeftShape(s[1..]);
    }
  }

  lemma {:induction false} StripRightShape(s: string)
    ensures StripRight(s) != "" ==> !IsSpace(StripRight(s)[|StripRight(s)| - 1])
    ensures |StripRight(s)| <= |s| && s[..|StripRight(s)|] == StripRight(s)
  {
    if s != "" && IsSpace(s[|s| - 1]) {
      StripRightShape(s[..|s| - 1]);
    }
  }

  /** How much white space strip takes from the front. */
  function Margin(s: string): int {
    |s| - |StripLeft(s)|
  }

  lemma StretchTrims(s: string, t: string, u: string)
    requires |u| <= |t| <= |s| && s[|s| - |t|..] == t && t[..|u|] == u
    requires t != "" ==> !IsSpace(t[0])
    requires u != "" ==> !IsSpace(u[|u| - 1])
    ensures s[|s| - |t|..|s| - |t| + |u|] == u && Trim(u)
  {
    if u != "" {
      assert u[0] == t[..|u|][0];
    }
  }

  /** What is left is a stretch of the text with no white space at either end. */
  lemma StripShape(s: string)
    ensures Trim(Strip(s))
    ensures 0 <= Margin(s) <= Margin(s) + |Strip(s)| <= |s| && s[Margin(s)..Margin(s) + |Strip(s)|] == Strip(s)
  {
    var t := StripLeft(s);
    var u := StripRight(t);
    StripLeftShape(s);
    StripRightShape(t);
    StretchTrims(s, t, u);
  }

  lemma StripLacks(s: string, c: char)
    requires Lacks(s, c)
    ensures Lacks(Strip(s), c)
  {
    StripShape(s);
    var k := Margin(s);
    assert forall i :: 0 <= i < |Strip(s)| ==> Strip(s)[i] == s[k + i];
  }

  lemma {:induction false} LeftIsSpace(s: string)
    ensures forall i :: 0 <= i < Margin(s) ==> IsSpace(s[i])
  {
    if s != "" && IsSpace(s[0]) {
      LeftIsSpace(s[1..]);
      assert forall i :: 1 <= i < Margin(s) ==> s[i] == s[1..][i - 1];
    }
  }

  lemma {:induction false} RightIsSpace(s: string)
    ensures |StripRight(s)| <= |s| && forall i :: |StripRight(s)| <= i < |s| ==> IsSpace(s[i])
  {
    if s != "" && IsSpace(s[|s| - 1]) {
      RightIsSpace(s[..|s| - 1]);
    }
  }

  /** What strip takes away is all white space. */
  lemma StripTakesSpace(s: string)
    ensures forall i :: 0 <= i < |s| && !(Margin(s) <= i < Margin(s) + |Strip(s)|) ==> IsSpace(s[i])
  {
    var t := StripLeft(s);
    StripLeftShape(s);
    LeftIsSpace(s);
    RightIsSpace(t);
    assert forall i :: Margin(s) <= i < |s| ==> s[i] == t[i - Margin(s)];
  }
}
