/** How a Postgres CHECK is brought to one spelling before it is read
    (src/catalogue/field_constraints.py _normalise and _strip_parens): the CHECK keyword and
    every cast removed, white space collapsed, outer parentheses dropped.  All three work on
    characters; none of them knows what a quoted literal is. */
module CheckText {
  import opened Prelude
  import opened Text

  // ---------------------------------------------------------------------------
  // Casts
  // ---------------------------------------------------------------------------

  predicate Letter(c: char) { 'a' <= c <= 'z' || 'A' <= c <= 'Z' || c == '_' }

  predicate Word(c: char) { Letter(c) || '0' <= c <= '9' }

  /** What a cast's type name goes on over: note the space. */
  predicate TypeChar(c: char) { Word(c) || c == ' ' }

  predicate CastAt(s: string, i: int) {
    0 <= i && i + 2 < |s| && s[i] == ':' && s[i + 1] == ':' && Letter(s[i + 2])
  }

  function TypeRun(s: string): (n: nat)
    ensures n <= |s|
  {
    if s != "" && TypeChar(s[0]) then 1 + TypeRun(s[1..]) else 0
  }

  /** The text after the cast that `s` starts with. */
  function AfterCast(s: string): (r: string)
    requires CastAt(s, 0)
    ensures |r| < |s|
  {
    var t := s[2 + TypeRun(s[2..])..];
    if |t| >= 2 && t[0] == '[' && t[1] == ']' then t[2..] else t
  }

  function RemoveCasts(s: string): string
    decreases |s|
  {
    if s == "" then "" else if CastAt(s, 0) then RemoveCasts(AfterCast(s)) else [s[0]] + RemoveCasts(s[1..])
  }

  /** A text in which no cast starts, whatever follows it. */
  predicate Inert(s: string) {
    (s != "" ==> s[|s| - 1] != ':') && forall i :: 0 <= i < |s| ==> !CastAt(s, i)
  }

  lemma InertTail(a: string, rest: string)
    requires Inert(a) && a != ""
    ensures Inert(a[1..]) && !CastAt(a + rest, 0)
  {
    assert !CastAt(a, 0);
    assert forall i :: 0 <= i < |a| - 1 ==> !CastAt(a, i + 1) && (CastAt(a[1..], i) ==> CastAt(a, i + 1));
  }

  lemma RemoveOne(c: char, rest: string)
    requires !CastAt([c] + rest, 0)
    ensures RemoveCasts([c] + rest) == [c] + RemoveCasts(rest)
  {
    assert ([c] + rest)[1..] == rest;
  }

  lemma HeadAndTail(a: string, rest: string)
    requires a != ""
    ensures a + rest == [a[0]] + (a[1..] + rest)
  {
  }

  lemma {:induction false} InertStays(a: string, rest: string)
    requires Inert(a)
    ensures RemoveCasts(a + rest) == a + RemoveCasts(rest)
  {
    if a == "" {
      assert a + rest == rest;
    } else {
      InertTail(a, rest);
      HeadAndTail(a, rest);
      RemoveOne(a[0], a[1..] + rest);
      InertStays(a[1..], rest);
      HeadAndTail(a, RemoveCasts(rest));
    }
  }

  lemma InertWithoutColon(s: string)
    requires Lacks(s, ':')
    ensures Inert(s)
  {
  }

  predicate CastFree(s: string) {
    forall i :: 0 <= i < |s| ==> !CastAt(s, i)
  }

  lemma {:induction false} RemovingShortens(s: string)
    ensures |RemoveCasts(s)| <= |s| && (|RemoveCasts(s)| == |s| ==> RemoveCasts(s) == s)
    decreases |s|
  {
    if s != "" {
      RemovingShortens(if CastAt(s, 0) then AfterCast(s) else s[1..]);
      assert s == [s[0]] + s[1..];
    }
  }

  /** Quotes protect nothing: a text survives exactly when no cast starts anywhere in it. */
  lemma {:induction false} UntouchedWithoutCasts(s: string)
    ensures RemoveCasts(s) == s <==> CastFree(s)
    decreases |s|
  {
    if s != "" {
      if CastAt(s, 0) {
        RemovingShortens(AfterCast(s));
      } else {
        UntouchedWithoutCasts(s[1..]);
        assert s == [s[0]] + s[1..];
        assert forall i :: 1 <= i < |s| ==> (CastAt(s, i) <==> CastAt(s[1..], i - 1));
        assert forall j :: 0 <= j < |s| - 1 ==> (CastAt(s[1..], j) <==> CastAt(s, j + 1));
        assert RemoveCasts(s)[1..] == RemoveCasts(s[1..]);
      }
    }
  }

  predicate TypeName(s: string) {
    s != "" && Letter(s[0]) && forall i :: 0 <= i < |s| ==> TypeChar(s[i])
  }

  /** What follows a printed cast: the end, or a bracket or comma. */
  predicate Stops(rest: string) {
    rest == "" || rest[0] in {')', ',', ']'}
  }

  lemma {:induction false} TypeRunIs(name: string, rest: string)
    requires (forall i :: 0 <= i < |name| ==> TypeChar(name[i])) && Stops(rest)
    ensures TypeRun(name + rest) == |name|
  {
    var s := name + rest;
    if name != "" {
      assert s[0] == name[0] && s[1..] == name[1..] + rest;
      TypeRunIs(name[1..], rest);
    }
  }

  /** A cast that is followed by the end, a bracket or a comma disappears alone. */
  lemma CastVanishes(name: string, rest: string)
    requires TypeName(name) && Stops(rest)
    ensures RemoveCasts("::" + name + rest) == RemoveCasts(rest)
  {
    var s := "::" + name + rest;
    assert s[2..] == name + rest;
    assert s[2] == name[0];
    TypeRunIs(name, rest);
    assert s[2 + |name|..] == rest;
  }

  // ---------------------------------------------------------------------------
  // White space
  // ---------------------------------------------------------------------------

  lemma StripLeftShorter(s: string)
    ensures |StripLeft(s)| <= |s| && (s != "" && IsSpace(s[0]) ==> |StripLeft(s)| < |s|)
  {
    StripLeftShape(s);
    if s != "" {
      StripLeftShape(s[1..]);
    }
  }

  function Collapse(s: string): string
    decreases |s|
  {
    if s == "" then ""
    else if IsSpace(s[0]) then
      StripLeftShorter(s);
      " " + Collapse(StripLeft(s))
    else [s[0]] + Collapse(s[1..])
  }

  /** Only single blanks. */
  predicate Calm(s: string) {
    && (forall i :: 0 <= i < |s| && IsSpace(s[i]) ==> s[i] == ' ')
    && (forall i :: 0 <= i < |s| - 1 && IsSpace(s[i]) ==> !IsSpace(s[i + 1]))
  }

  lemma {:induction false} CalmStays(s: string)
    requires Calm(s)
    ensures Collapse(s) == s
    decreases |s|
  {
    if s != "" {
      if IsSpace(s[0]) {
        assert s[1..] == "" || !IsSpace(s[1..][0]);
        assert StripLeft(s) == s[1..];
      }
      CalmStays(s[1..]);
      assert s == [s[0]] + s[1..];
    }
  }

  lemma {:induction false} CollapseIsCalm(s: string)
    ensures Calm(Collapse(s)) && (s != "" && !IsSpace(s[0]) ==> Collapse(s) != "" && !IsSpace(Collapse(s)[0]))
    decreases |s|
  {
    if s != "" {
      if IsSpace(s[0]) {
        StripLeftShorter(s);
        StripLeftShape(s);
        CollapseIsCalm(StripLeft(s));
      } else {
        CollapseIsCalm(s[1..]);
      }
    }
  }

  /** A text survives exactly when its blanks are single. */
  lemma UntouchedWhenCalm(s: string)
    ensures Collapse(s) == s <==> Calm(s)
  {
    CollapseIsCalm(s);
    if Calm(s) {
      CalmStays(s);
    }
  }

  lemma {:induction false} CollapsingShortens(s: string)
    ensures |Collapse(s)| <= |s|
    decreases |s|
  {
    if s != "" {
      if IsSpace(s[0]) {
        StripLeftShorter(s);
        CollapsingShortens(StripLeft(s));
      } else {
        CollapsingShortens(s[1..]);
      }
    }
  }

  /** Collapsing goes past a calm text, unless blanks meet where it ends. */
  lemma {:induction false} CalmPasses(a: string, rest: string)
    requires Calm(a)
    requires a != "" && IsSpace(a[|a| - 1]) && rest != "" ==> !IsSpace(rest[0])
    ensures Collapse(a + rest) == a + Collapse(rest)
  {
    if a == "" {
      assert a + rest == rest;
    } else {
      HeadAndTail(a, rest);
      assert (a + rest)[1..] == a[1..] + rest;
      CalmPasses(a[1..], rest);
      if IsSpace(a[0]) {
        assert a[1..] != "" ==> !IsSpace(a[1..][0]);
        assert StripLeft(a + rest) == a[1..] + rest;
      }
      HeadAndTail(a, Collapse(rest));
    }
  }

  // ---------------------------------------------------------------------------
  // Both at once
  // ---------------------------------------------------------------------------

  /** What casts and runs of blanks leave of a text. */
  function Clear(s: string): string {
    Collapse(RemoveCasts(s))
  }

  /** A text survives both exactly when it has neither casts nor runs of blanks. */
  lemma UntouchedWhenClear(s: string)
    ensures |Clear(s)| <= |s|
    ensures Clear(s) == s <==> CastFree(s) && Calm(s)
  {
    RemovingShortens(s);
    CollapsingShortens(RemoveCasts(s));
    UntouchedWithoutCasts(s);
    UntouchedWhenCalm(s);
  }

  /** Single blanks, and none at either end. */
  predicate Neat(s: string) {
    s != "" && Trim(s) && Calm(s)
  }

  lemma NeatConcat(a: string, b: string)
    requires Neat(a) && Neat(b)
    ensures Neat(a + b) && Neat(a + " " + b)
  {
    var s, t := a + b, a + " " + b;
    assert forall i :: 0 <= i < |s| ==> s[i] == if i < |a| then a[i] else b[i - |a|];
    assert forall i :: 0 <= i < |t| ==> t[i] == if i < |a| then a[i] else if i == |a| then ' ' else b[i - |a| - 1];
  }

  // ---------------------------------------------------------------------------
  // The normal spelling
  // ---------------------------------------------------------------------------

  predicate SaysCheck(s: string) {
    && |s| >= 6
    && s[0] in {'C', 'c'} && s[1] in {'H', 'h'} && s[2] in {'E', 'e'} && s[3] in {'C', 'c'} && s[4] in {'K', 'k'}
    && s[5] == ' '
  }

  function Normalise(expr: string): string {
    var inner := Strip(expr);
    var bare := if SaysCheck(inner) then Strip(inner[6..]) else inner;
    Strip(Collapse(RemoveCasts(bare)))
  }

  // ---------------------------------------------------------------------------
  // Outer parentheses
  // ---------------------------------------------------------------------------

  function Step(c: char): int {
    if c == '(' then 1 else if c == ')' then -1 else 0
  }

  function Depth(s: string): int {
    if s == "" then 0 else Depth(s[..|s| - 1]) + Step(s[|s| - 1])
  }

  predicate ClosesAt(s: string, i: nat)
    requires i < |s|
  {
    Depth(s[..i + 1]) == 0
  }

  predicate ClosesEarly(s: string) {
    exists i: nat :: i < |s| - 1 && ClosesAt(s, i)
  }

  predicate Wrapped(s: string) {
    |s| >= 2 && s[0] == '(' && s[|s| - 1] == ')'
  }

  lemma StripShorter(s: string)
    ensures |Strip(s)| <= |s|
  {
    StripShape(s);
  }

  function Unwrapped(s: string): (r: string)
    decreases |s|
  {
    StripShorter(s);
    var t := Strip(s);
    if Wrapped(t) && !ClosesEarly(t) then Unwrapped(t[1..|t| - 1]) else t
  }

  method StripParens(expr: string) returns (r: string)
    ensures r == Unwrapped(expr)
  {
    StripShape(expr);
    StripTwice(expr);
    var s := Strip(expr);
    while |s| >= 2 && s[0] == '(' && s[|s| - 1] == ')'
      invariant Trim(s) && Unwrapped(s) == Unwrapped(expr)
      decreases |s|
    {
      UnwrapOnce(s);
      var early := FindsEarlyClose(s);
      if early {
        return s;
      }
      s := Strip(s[1..|s| - 1]);
    }
    StripKeeps(s);
    return s;
  }

  /** The depth scan: whether the first parenthesis is closed before the end. */
  method FindsEarlyClose(s: string) returns (early: bool)
    ensures early == ClosesEarly(s)
  {
    var depth := 0;
    for i := 0 to |s|
      invariant depth == Depth(s[..i])
      invariant forall k: nat :: k < i && k < |s| - 1 ==> !ClosesAt(s, k)
    {
      assert s[..i + 1][..i] == s[..i];
      depth := depth + (if s[i] == '(' then 1 else 0) - (if s[i] == ')' then 1 else 0);
      if depth == 0 && i < |s| - 1 {
        assert ClosesAt(s, i);
        return true;
      }
    }
    return false;
  }

  lemma UnwrapOnce(s: string)
    requires Trim(s) && Wrapped(s)
    ensures ClosesEarly(s) ==> Unwrapped(s) == s
    ensures var inner := s[1..|s| - 1];
            && Trim(Strip(inner)) && |Strip(inner)| < |s|
            && (!ClosesEarly(s) ==> Unwrapped(Strip(inner)) == Unwrapped(s))
  {
    StripKeeps(s);
    StripShape(s[1..|s| - 1]);
    StripTwice(s[1..|s| - 1]);
  }

  lemma StripTwice(s: string)
    ensures Unwrapped(Strip(s)) == Unwrapped(s)
  {
    StripShape(s);
    StripKeeps(Strip(s));
  }

  lemma {:induction false} UnwrappedIsTrim(s: string)
    ensures Trim(Unwrapped(s))
    ensures var r := Unwrapped(s); Wrapped(r) ==> ClosesEarly(r)
    decreases |s|
  {
    StripShape(s);
    var t := Strip(s);
    if Wrapped(t) && !ClosesEarly(t) {
      UnwrappedIsTrim(t[1..|t| - 1]);
    }
  }

  /** Dropping outer parentheses twice is dropping them once. */
  lemma UnwrappingIsIdempotent(s: string)
    ensures Unwrapped(Unwrapped(s)) == Unwrapped(s)
  {
    UnwrappedIsTrim(s);
    StripKeeps(Unwrapped(s));
  }

  // ---------------------------------------------------------------------------
  // Balance
  // ---------------------------------------------------------------------------

  predicate NeverBelow(s: string, low: int) {
    forall n: nat :: n <= |s| ==> Depth(s[..n]) >= low
  }

  predicate Balanced(s: string) {
    NeverBelow(s, 0) && Depth(s) == 0
  }

  lemma {:induction false} DepthConcat(a: string, b: string)
    ensures Depth(a + b) == Depth(a) + Depth(b)
  {
    if b == "" {
      assert a + b == a;
    } else {
      assert (a + b)[..|a + b| - 1] == a + b[..|b| - 1];
      DepthConcat(a, b[..|b| - 1]);
    }
  }

  lemma DepthOfPrefix(a: string, b: string, n: nat)
    requires n <= |a| + |b|
    ensures Depth((a + b)[..n]) == if n <= |a| then Depth(a[..n]) else Depth(a) + Depth(b[..n - |a|])
  {
    if n <= |a| {
      assert (a + b)[..n] == a[..n];
    } else {
      assert (a + b)[..n] == a + b[..n - |a|];
      DepthConcat(a, b[..n - |a|]);
    }
  }

  lemma BalancedConcat(a: string, b: string)
    requires Balanced(a) && Balanced(b)
    ensures Balanced(a + b)
  {
    DepthConcat(a, b);
    forall n: nat | n <= |a + b| ensures Depth((a + b)[..n]) >= 0 {
      DepthOfPrefix(a, b, n);
    }
  }

  lemma {:induction false} DepthWithout(s: string)
    requires Lacks(s, '(') && Lacks(s, ')')
    ensures Depth(s) == 0
  {
    if s != "" {
      DepthWithout(s[..|s| - 1]);
    }
  }

  lemma BalancedWithout(s: string)
    requires Lacks(s, '(') && Lacks(s, ')')
    ensures Balanced(s)
  {
    forall n: nat | n <= |s| ensures Depth(s[..n]) >= 0 {
      DepthWithout(s[..n]);
    }
    DepthWithout(s);
  }

  lemma NeverBelowParts(a: string, b: string, low: int)
    requires NeverBelow(a + b, low)
    ensures NeverBelow(a, low) && NeverBelow(b, low - Depth(a))
  {
    forall n: nat | n <= |a| ensures Depth(a[..n]) >= low {
      assert a[..n] == (a + b)[..n];
    }
    forall n: nat | n <= |b| ensures Depth(b[..n]) >= low - Depth(a) {
      assert a + b[..n] == (a + b)[..|a| + n];
      DepthConcat(a, b[..n]);
    }
  }

  lemma NeverBelowJoined(a: string, b: string, low: int)
    requires NeverBelow(a, low) && NeverBelow(b, low - Depth(a))
    ensures NeverBelow(a + b, low)
  {
    forall n: nat | n <= |a + b| ensures Depth((a + b)[..n]) >= low {
      DepthOfPrefix(a, b, n);
      if n <= |a| {
        assert Depth(a[..n]) >= low;
      } else {
        assert Depth(b[..n - |a|]) >= low - Depth(a);
      }
    }
  }

  lemma NeverBelowConcat(a: string, b: string, low: int)
    ensures NeverBelow(a + b, low) <==> NeverBelow(a, low) && NeverBelow(b, low - Depth(a))
  {
    assert NeverBelow(a + b, low) ==> NeverBelow(a, low) && NeverBelow(b, low - Depth(a)) by {
      if NeverBelow(a + b, low) {
        NeverBelowParts(a, b, low);
      }
    }
    assert NeverBelow(a, low) && NeverBelow(b, low - Depth(a)) ==> NeverBelow(a + b, low) by {
      if NeverBelow(a, low) && NeverBelow(b, low - Depth(a)) {
        NeverBelowJoined(a, b, low);
      }
    }
  }

  lemma NeverBelowFlat(s: string, low: int)
    requires Lacks(s, '(') && Lacks(s, ')')
    ensures Depth(s) == 0 && (NeverBelow(s, low) <==> low <= 0)
  {
    forall n: nat | n <= |s| ensures Depth(s[..n]) == 0 {
      DepthWithout(s[..n]);
    }
    DepthWithout(s);
    assert Depth(s[..0]) == 0;
  }

  /** Two texts whose parentheses come in the same order. */
  ghost predicate SameProfile(a: string, b: string) {
    Depth(a) == Depth(b) && forall low: int :: NeverBelow(a, low) <==> NeverBelow(b, low)
  }

  lemma ProfileConcat(a: string, b: string, c: string, d: string)
    requires SameProfile(a, b) && SameProfile(c, d)
    ensures SameProfile(a + c, b + d)
  {
    DepthConcat(a, c);
    DepthConcat(b, d);
    forall low: int ensures NeverBelow(a + c, low) <==> NeverBelow(b + d, low) {
      NeverBelowConcat(a, c, low);
      NeverBelowConcat(b, d, low);
    }
  }

  lemma ProfileFlat(a: string, b: string)
    requires Lacks(a, '(') && Lacks(a, ')') && Lacks(b, '(') && Lacks(b, ')')
    ensures SameProfile(a, b)
  {
    forall low: int ensures NeverBelow(a, low) <==> NeverBelow(b, low) {
      NeverBelowFlat(a, low);
      NeverBelowFlat(b, low);
    }
    DepthWithout(a);
    DepthWithout(b);
  }

  lemma {:induction false} TypeRunFlat(s: string)
    ensures Lacks(s[..TypeRun(s)], '(') && Lacks(s[..TypeRun(s)], ')') && Lacks(s[..TypeRun(s)], '\'')
  {
    if TypeRun(s) > 0 {
      TypeRunFlat(s[1..]);
      assert s[..TypeRun(s)] == [s[0]] + s[1..][..TypeRun(s[1..])];
    }
  }

  /** A cast holds no parenthesis and no quote. */
  lemma CastIsFlat(s: string) returns (cast: string)
    requires CastAt(s, 0)
    ensures s == cast + AfterCast(s) && Lacks(cast, '(') && Lacks(cast, ')') && Lacks(cast, '\'')
  {
    var n := TypeRun(s[2..]);
    var name, t := s[2..][..n], s[2 + n..];
    TypeRunFlat(s[2..]);
    assert s == "::" + name + t;
    if AfterCast(s) == t {
      cast := "::" + name;
    } else {
      cast := "::" + name + "[]";
      assert t == "[]" + t[2..];
    }
  }

  lemma {:induction false} RemovingKeepsProfile(s: string)
    ensures SameProfile(RemoveCasts(s), s)
    decreases |s|
  {
    if s != "" {
      if CastAt(s, 0) {
        var cast := CastIsFlat(s);
        RemovingKeepsProfile(AfterCast(s));
        ProfileFlat("", cast);
        ProfileConcat("", cast, RemoveCasts(s), AfterCast(s));
        assert "" + RemoveCasts(s) == RemoveCasts(s);
      } else {
        RemovingKeepsProfile(s[1..]);
        ProfileConcat([s[0]], [s[0]], RemoveCasts(s[1..]), s[1..]);
        assert s == [s[0]] + s[1..];
      }
    }
  }

  lemma {:induction false} CollapsingKeepsProfile(s: string)
    ensures SameProfile(Collapse(s), s)
    decreases |s|
  {
    if s != "" {
      if IsSpace(s[0]) {
        StripLeftShorter(s);
        StripLeftShape(s);
        LeftIsSpace(s);
        var margin := s[..Margin(s)];
        CollapsingKeepsProfile(StripLeft(s));
        ProfileFlat(" ", margin);
        ProfileConcat(" ", margin, Collapse(StripLeft(s)), StripLeft(s));
        assert s == margin + StripLeft(s);
      } else {
        CollapsingKeepsProfile(s[1..]);
        ProfileConcat([s[0]], [s[0]], Collapse(s[1..]), s[1..]);
        assert s == [s[0]] + s[1..];
      }
    }
  }

  /** Neither casts nor blanks hold a parenthesis. */
  lemma ClearKeepsProfile(s: string)
    ensures SameProfile(Clear(s), s)
  {
    RemovingKeepsProfile(s);
    CollapsingKeepsProfile(RemoveCasts(s));
  }

  function Parens(s: string): string {
    "(" + s + ")"
  }

  lemma DepthOne(c: char)
    ensures Depth([c]) == Step(c)
  {
    assert [c][..0] == "";
  }

  /** Inside the parentheses around a balanced text the depth never returns to zero. */
  lemma DepthInParens(s: string, n: nat)
    requires 1 <= n <= |s| + 1
    ensures Depth(Parens(s)[..n]) == 1 + Depth(s[..n - 1])
  {
    assert Parens(s)[..n] == "(" + s[..n - 1];
    DepthConcat("(", s[..n - 1]);
    DepthOne('(');
  }

  lemma ParensBalanced(s: string)
    requires Balanced(s)
    ensures Balanced(Parens(s)) && !ClosesEarly(Parens(s))
  {
    var p := Parens(s);
    forall n: nat | n <= |p| ensures Depth(p[..n]) >= 0 && (1 <= n <= |s| + 1 ==> Depth(p[..n]) >= 1) && (n == |p| ==> Depth(p[..n]) == 0) {
      if 1 <= n <= |s| + 1 {
        DepthInParens(s, n);
      } else if n == |p| {
        DepthInParens(s, n - 1);
        assert s[..|s|] == s;
        assert p[..n][..n - 1] == p[..n - 1] && p[..n][n - 1] == ')';
      }
    }
    assert p[..|p|] == p;
  }

  lemma Unwrap(s: string)
    requires Balanced(s)
    ensures Unwrapped(Parens(s)) == Unwrapped(s)
  {
    ParensBalanced(s);
    StripKeeps(Parens(s));
    assert Parens(s)[1..|Parens(s)| - 1] == s;
  }

  lemma BalancedPieces(a: string, b: string, c: string)
    requires Balanced(a + b + c) && Depth(a) == 0 && Depth(c) == 0
    ensures Balanced(b)
  {
    DepthConcat(a + b, c);
    DepthConcat(a, b);
    forall n: nat | n <= |b| ensures Depth(b[..n]) >= 0 {
      MiddleDepth(a, b, c, n);
    }
  }

  lemma MiddleDepth(a: string, b: string, c: string, n: nat)
    requires NeverBelow(a + b + c, 0) && Depth(a) == 0 && n <= |b|
    ensures Depth(b[..n]) >= 0
  {
    DepthConcat(a, b[..n]);
    assert (a + b + c)[..|a| + n] == a + b[..n];
  }

  lemma StripBalanced(s: string)
    requires Balanced(s)
    ensures Balanced(Strip(s))
  {
    StripShape(s);
    StripTakesSpace(s);
    MiddleBalanced(s, Margin(s), Margin(s) + |Strip(s)|);
  }

  lemma SpaceIsFlat(s: string)
    requires forall i :: 0 <= i < |s| ==> IsSpace(s[i])
    ensures Depth(s) == 0
  {
    DepthWithout(s);
  }

  lemma MiddleBalanced(s: string, k: nat, e: nat)
    requires Balanced(s) && k <= e <= |s|
    requires forall i :: 0 <= i < |s| && !(k <= i < e) ==> IsSpace(s[i])
    ensures Balanced(s[k..e])
  {
    var a, b, c := s[..k], s[k..e], s[e..];
    assert s == a + b + c;
    SpaceIsFlat(a);
    SpaceIsFlat(c);
    BalancedPieces(a, b, c);
  }

  lemma InsideBalanced(t: string)
    requires Wrapped(t) && Balanced(t) && !ClosesEarly(t)
    ensures Balanced(t[1..|t| - 1])
  {
    var s := t[1..|t| - 1];
    assert t == Parens(s);
    forall n: nat | n <= |s| ensures Depth(s[..n]) >= 0 {
      DepthInParens(s, n + 1);
      assert !ClosesAt(t, n);
      assert Depth(t[..n + 1]) >= 0;
    }
    DepthInParens(s, |s| + 1);
    assert s[..|s|] == s;
    assert t[..|t| - 1] == t[..|s| + 1];
  }

  /** A balanced expression stays balanced. */
  lemma {:induction false} UnwrappingKeepsBalance(s: string)
    requires Balanced(s)
    ensures Balanced(Unwrapped(s))
    decreases |s|
  {
    StripShape(s);
    StripBalanced(s);
    var t := Strip(s);
    if Wrapped(t) && !ClosesEarly(t) {
      InsideBalanced(t);
      UnwrappingKeepsBalance(t[1..|t| - 1]);
    }
  }
}
