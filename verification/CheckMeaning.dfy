/** When the shape read out of a Postgres CHECK accepts exactly the values the check accepts
    (src/catalogue/field_constraints.py parse_check).  The forms whose meaning is kept are told
    apart from those whose meaning is lost by a condition on the check alone, with a value and a
    database to show every loss. */
module CheckMeaning {
  import opened Prelude
  import opened Text
  import opened CheckText
  import opened CheckTranslation
  import opened CheckReading

  // ---------------------------------------------------------------------------
  // Quotes are counted: neither clearing nor escaping can hide one
  // ---------------------------------------------------------------------------

  function Ticks(s: string): nat {
    if s == "" then 0 else (if s[0] == '\'' then 1 else 0) + Ticks(s[1..])
  }

  lemma {:induction false} TicksConcat(a: string, b: string)
    ensures Ticks(a + b) == Ticks(a) + Ticks(b)
  {
    if a == "" {
      assert a + b == b;
    } else {
      assert (a + b)[1..] == a[1..] + b;
      TicksConcat(a[1..], b);
    }
  }

  lemma {:induction false} NoTicks(s: string)
    ensures Ticks(s) == 0 <==> Lacks(s, '\'')
  {
    if s != "" {
      NoTicks(s[1..]);
      assert s == [s[0]] + s[1..];
      assert Lacks(s, '\'') ==> Lacks(s[1..], '\'');
    }
  }

  lemma TicksOne(c: char, s: string)
    ensures Ticks([c] + s) == (if c == '\'' then 1 else 0) + Ticks(s)
  {
    assert ([c] + s)[1..] == s;
  }

  lemma {:induction false} TicksOfRemoving(s: string)
    ensures Ticks(RemoveCasts(s)) == Ticks(s)
    decreases |s|
  {
    if s != "" {
      if CastAt(s, 0) {
        var cast := CastIsFlat(s);
        TicksOfRemoving(AfterCast(s));
        TicksConcat(cast, AfterCast(s));
        NoTicks(cast);
      } else {
        TicksOfRemoving(s[1..]);
        TicksOne(s[0], RemoveCasts(s[1..]));
      }
    }
  }

  lemma {:induction false} TicksOfCollapsing(s: string)
    ensures Ticks(Collapse(s)) == Ticks(s)
    decreases |s|
  {
    if s != "" {
      if IsSpace(s[0]) {
        StripLeftShorter(s);
        StripLeftShape(s);
        LeftIsSpace(s);
        var margin := s[..Margin(s)];
        assert s == margin + StripLeft(s);
        TicksOfCollapsing(StripLeft(s));
        TicksConcat(margin, StripLeft(s));
        NoTicks(margin);
        TicksOne(' ', Collapse(StripLeft(s)));
      } else {
        TicksOfCollapsing(s[1..]);
        TicksOne(s[0], Collapse(s[1..]));
      }
    }
  }

  lemma TicksOfClear(s: string)
    ensures Ticks(Clear(s)) == Ticks(s)
  {
    TicksOfRemoving(s);
    TicksOfCollapsing(RemoveCasts(s));
  }

  lemma {:induction false} TicksOfEscape(s: string)
    ensures Ticks(Escape(s)) == 2 * Ticks(s)
  {
    if s != "" {
      TicksOfEscape(s[1..]);
      TicksConcat(if s[0] == '\'' then "''" else [s[0]], Escape(s[1..]));
      TicksOne('\'', "'");
      TicksOne(s[0], "");
      assert "''" == ['\''] + "'" && [s[0]] == [s[0]] + "";
    }
  }

  lemma {:induction false} EscapeIsVerbatim(t: string)
    requires Lacks(t, '\'')
    ensures Escape(t) == t
  {
    if t != "" {
      EscapeIsVerbatim(t[1..]);
      assert t == [t[0]] + t[1..];
    }
  }

  // ---------------------------------------------------------------------------
  // Meaning
  // ---------------------------------------------------------------------------

  predicate IsWhole(x: real) { x.Floor as real == x }

  /** An integer column holds whole numbers, and a literal without a point is one. */
  ghost predicate IntegerColumn(db: Database) {
    (forall v :: IsWhole(db.number(v))) && (forall s :: Whole(s) ==> IsWhole(db.decimal(s)))
  }

  predicate Agrees(db: Database, e: Check, subject: string, isInteger: bool, v: string) {
    var shape := ParseCheck(db, Definition(e, subject), subject, isInteger);
    shape.Some? ==> (Accepts(db, shape.value, v) <==> Passes(db, e, v))
  }

  /** Whatever the database and the non-null value: if a shape is returned for the printed
      check, the value satisfies the shape exactly when it satisfies the check. */
  ghost predicate Preserves(e: Check, subject: string, isInteger: bool) {
    forall db: Database, v: string :: (isInteger ==> IntegerColumn(db)) ==> Agrees(db, e, subject, isInteger, v)
  }

  /** Neither cast nor run of blanks. */
  predicate Verbatim(s: string) { CastFree(s) && Calm(s) }

  /** The quoted texts of a single check come through as they are. */
  predicate Legible(e: Check) {
    match e
    case Matches(l) => Verbatim(l.text) && Lacks(l.text, '\'')
    case OneOf(ls) => forall i :: 0 <= i < |ls| ==> Verbatim(ls[i].text)
    case Is(l) => Verbatim(l.text)
    case _ => true
  }

  predicate Meets(db: Database, p: Check, isInteger: bool, v: string) {
    var shape := ShapeOf(db, Tamed(p), isInteger);
    shape.Some? ==> (Accepts(db, shape.value, v) <==> Passes(db, p, v))
  }

  ghost predicate Means(p: Check, isInteger: bool) {
    forall db: Database, v: string :: (isInteger ==> IntegerColumn(db)) ==> Meets(db, p, isInteger, v)
  }

  lemma StrictIsNext(x: real, n: real)
    requires IsWhole(x) && IsWhole(n)
    ensures x > n <==> x >= n + 1.0
  {
    assert x > n <==> x.Floor > n.Floor;
  }

  lemma AmongTexts(ls: seq<Literal>, v: string)
    ensures v in Texts(ls) <==> exists i :: 0 <= i < |ls| && ls[i].text == v
  {
    assert forall i :: 0 <= i < |ls| ==> Texts(ls)[i] == ls[i].text;
  }

  lemma LegibleIsTame(p: Check)
    requires Legible(p) && Quotes(p)
    ensures Tamed(p) == p
  {
    match p
    case Matches(l) => UntouchedWhenClear(l.text);
    case OneOf(ls) =>
      forall i | 0 <= i < |ls| ensures TameAll(ls)[i] == ls[i] {
        UntouchedWhenClear(ls[i].text);
      }
    case Is(l) => UntouchedWhenClear(l.text);
  }

  lemma RangeMeans(db: Database, h: Check, u: Checks, isInteger: bool, v: string)
    ensures Meets(db, All(h, u), isInteger, v)
  {
    assert Tamed(h).AtLeast? <==> h.AtLeast?;
    assert TamedAll(u).Last? <==> u.Last?;
    assert Tamed(u.check).AtMost? <==> u.check.AtMost?;
    if h.AtLeast? && u.Last? && u.check.AtMost? {
      assert Tamed(All(h, u)) == All(h, u);
      assert PassesAll(db, u, v) == Passes(db, u.check, v);
      assert u == Last(AtMost(u.check.n)) && h == AtLeast(h.n);
    } else {
      assert ShapeOf(db, Tamed(All(h, u)), isInteger).None?;
    }
  }

  lemma ShapeMeans(db: Database, p: Check, isInteger: bool, v: string)
    requires isInteger ==> IntegerColumn(db)
    requires Legible(p)
    ensures Meets(db, p, isInteger, v)
  {
    if Quotes(p) {
      LegibleIsTame(p);
    }
    match p
    case Matches(l) => EscapeIsVerbatim(l.text);
    case OneOf(ls) => AmongTexts(ls, v);
    case All(h, u) => RangeMeans(db, h, u, isInteger, v);
    case Above(n) =>
      if isInteger && Whole(n.digits) {
        StrictIsNext(db.number(v), db.decimal(n.digits));
      }
    case _ =>
  }

  /** A database in which one pattern matches everything and no other matches anything. */
  function Only(pattern: string): (db: Database)
    ensures IntegerColumn(db)
  {
    Database((p, v) => p == pattern, v => 0.0, s => 0.0, (t, v) => false)
  }

  lemma PatternVerbatim(t: string)
    ensures Escape(Clear(t)) == t <==> Verbatim(t) && Lacks(t, '\'')
  {
    TicksOfEscape(Clear(t));
    TicksOfClear(t);
    NoTicks(t);
    NoTicks(Clear(t));
    UntouchedWhenClear(t);
    if Lacks(t, '\'') {
      EscapeIsVerbatim(Clear(t));
    }
  }

  function Cleared(xs: seq<string>): (ys: seq<string>)
    ensures |ys| == |xs| && forall i :: 0 <= i < |xs| ==> ys[i] == Clear(xs[i])
  {
    seq(|xs|, i requires 0 <= i < |xs| => Clear(xs[i]))
  }

  predicate SameTexts(xs: seq<string>, ys: seq<string>) {
    (forall x | x in xs :: x in ys) && (forall y | y in ys :: y in xs)
  }

  lemma ComesFrom(xs: seq<string>, t: string) returns (u: string)
    requires SameTexts(xs, Cleared(xs)) && t in xs
    ensures u in xs && Clear(u) == t && Calm(t)
  {
    assert t in Cleared(xs);
    var i :| 0 <= i < |xs| && Cleared(xs)[i] == t;
    u := xs[i];
    CollapseIsCalm(RemoveCasts(u));
  }

  lemma CastShortens(u: string)
    requires Calm(u)
    ensures !CastFree(u) ==> |Clear(u)| < |u|
    ensures CastFree(u) ==> Clear(u) == u
  {
    UntouchedWhenClear(u);
    UntouchedWithoutCasts(u);
    RemovingShortens(u);
    CollapsingShortens(RemoveCasts(u));
  }

  /** A text with a cast is the clearing of a longer one, which again has a cast: no finite list
      of texts holds all of them. */
  lemma {:induction false} CastsRunOut(xs: seq<string>, t: string, bound: nat)
    requires SameTexts(xs, Cleared(xs)) && t in xs && !CastFree(t) && forall x :: x in xs ==> |x| <= bound
    ensures false
    decreases bound - |t|
  {
    var u := ComesFrom(xs, t);
    var w := ComesFrom(xs, u);
    CastShortens(u);
    CastsRunOut(xs, u, bound);
  }

  lemma {:induction false} Longest(xs: seq<string>) returns (bound: nat)
    ensures forall x :: x in xs ==> |x| <= bound
  {
    bound := 0;
    if xs != [] {
      var rest := Longest(xs[1..]);
      bound := if rest < |xs[0]| then |xs[0]| else rest;
      assert xs == [xs[0]] + xs[1..];
    }
  }

  /** Clearing texts leaves the set of them what it was only by leaving each of them alone. */
  lemma ClearedAreTheSame(xs: seq<string>)
    ensures SameTexts(xs, Cleared(xs)) <==> forall i :: 0 <= i < |xs| ==> Verbatim(xs[i])
  {
    if SameTexts(xs, Cleared(xs)) {
      var bound := Longest(xs);
      forall i | 0 <= i < |xs| ensures Verbatim(xs[i]) {
        var u := ComesFrom(xs, xs[i]);
        if !CastFree(xs[i]) {
          CastsRunOut(xs, xs[i], bound);
        }
      }
    }
    if forall i :: 0 <= i < |xs| ==> Verbatim(xs[i]) {
      forall i | 0 <= i < |xs| ensures Cleared(xs)[i] == xs[i] {
        UntouchedWhenClear(xs[i]);
      }
      assert Cleared(xs) == xs;
    }
  }

  lemma TextsOfTame(ls: seq<Literal>)
    ensures Texts(TameAll(ls)) == Cleared(Texts(ls))
  {
  }

  lemma VocabularyNeedsVerbatim(ls: seq<Literal>, isInteger: bool)
    requires Means(OneOf(ls), isInteger)
    ensures Legible(OneOf(ls))
  {
    var db := Only("");
    forall x ensures x in Texts(ls) <==> x in Cleared(Texts(ls)) {
      assert Meets(db, OneOf(ls), isInteger, x);
      AmongTexts(ls, x);
      TextsOfTame(ls);
    }
    ClearedAreTheSame(Texts(ls));
    assert forall i :: 0 <= i < |ls| ==> Texts(ls)[i] == ls[i].text;
  }

  /** The meaning of a check that is read as a single one is kept exactly when its quoted texts
      come through. */
  lemma MeansExactly(p: Check, isInteger: bool)
    ensures Means(p, isInteger) <==> Legible(p)
  {
    if Legible(p) {
      forall db: Database, v: string | isInteger ==> IntegerColumn(db) ensures Meets(db, p, isInteger, v) {
        ShapeMeans(db, p, isInteger, v);
      }
    }
    if Means(p, isInteger) {
      match p
      case Matches(l) =>
        assert Meets(Only(l.text), p, isInteger, "");
        PatternVerbatim(l.text);
      case OneOf(ls) => VocabularyNeedsVerbatim(ls, isInteger);
      case Is(l) =>
        assert Meets(Only(""), p, isInteger, l.text);
        UntouchedWhenClear(l.text);
      case _ =>
    }
  }

  // ---------------------------------------------------------------------------
  // Three or more alternatives, the first one a pattern or a value
  // ---------------------------------------------------------------------------

  /** The printed check ends with a quote. */
  predicate EndsQuoted(c: Check) {
    c.Matches? || c.Is? || (c.Other? && c.text != "" && c.text[|c.text| - 1] == '\'')
  }

  lemma NumberLast(n: Number)
    requires CleanNumber(n)
    ensures NumberText(n, false) != "" && NumberText(n, false)[|NumberText(n, false)| - 1] != '\''
  {
    NumeralLacks(n.digits);
    assert n.kind.Some? ==> NumberText(n, false) == Parens(n.digits);
  }

  lemma LastChar(c: Check, subject: string)
    requires Name(subject) && Clean(c, subject)
    ensures Plain(c, subject) != "" && (Plain(c, subject)[|Plain(c, subject)| - 1] == '\'' <==> EndsQuoted(c))
  {
    match c
    case All(_, u) => AllIsJoined(u, " AND ", subject);
    case Any(_, u) => AllIsJoined(u, " OR ", subject);
    case AtLeast(n) => NumberLast(n);
    case AtMost(n) => NumberLast(n);
    case Above(n) => NumberLast(n);
    case _ =>
  }

  lemma {:induction false} FinalOfTamed(es: Checks)
    ensures Final(TamedAll(es)) == Tamed(Final(es)) && (EndsQuoted(Final(TamedAll(es))) <==> EndsQuoted(Final(es)))
  {
    if es.More? {
      FinalOfTamed(es.rest);
    }
  }

  lemma EndsInQuote(operand: string, t: Checks, subject: string)
    requires Name(subject) && CleanAll(t, subject)
    ensures Ends(operand + Others(t, subject), "'") <==> EndsQuoted(Final(t))
  {
    var text, last := operand + Others(t, subject), Plain(Final(t), subject);
    FinalIsClean(t, subject, Orderly);
    LastChar(Final(t), subject);
    JoinedEnds(t, subject);
    assert text == (operand + ") OR (" + Before(t, subject)) + last;
    assert text[|text| - 1] == last[|last| - 1];
    assert text[|text| - 1..] == [text[|text| - 1]];
  }

  function Nulls(h: Check, t: Checks): Check { Any(Missing, More(h, t)) }

  lemma ParsesMany(db: Database, h: Check, t: Checks, subject: string, isInteger: bool)
    requires Name(subject) && Clean(h, subject) && CleanAll(t, subject) && Paired(h) && EveryTextOf(t, Balanced)
    ensures ParseCheck(db, Definition(Nulls(h, t), subject), subject, isInteger)
            == ShapeOfMany(Tamed(h), TamedAll(t), subject)
  {
    assert CleanAll(More(h, t), subject) && EveryTextOf(More(h, t), Balanced);
    ParsesStructure(db, Nulls(h, t), subject, isInteger);
    assert Tamed(Nulls(h, t)) == Any(Missing, More(Tamed(h), TamedAll(t)));
  }

  /** The text behind the operator, up to the quote that ends the last alternative. */
  function Swallowed(l: Literal, t: Checks, subject: string): string {
    var text := Escape(l.text) + "'" + Others(t, subject);
    text[..|text| - 1]
  }

  lemma SwallowedParts(l: Literal, t: Checks, subject: string)
    ensures exists rest :: Swallowed(l, t, subject) == Escape(l.text) + ("')" + rest)
  {
    var others := Others(t, subject);
    var text := Escape(l.text) + "'" + others;
    var rest := others[1..|others| - 1];
    assert others == ")" + rest + others[|others| - 1..];
    assert text == Escape(l.text) + ("')" + rest) + others[|others| - 1..];
    assert Swallowed(l, t, subject) == Escape(l.text) + ("')" + rest);
  }

  /** The joined text holds one quote more than the pattern could. */
  lemma SwallowedTicks(l: Literal, t: Checks, subject: string)
    ensures Ticks(Swallowed(Tame(l), t, subject)) > Ticks(l.text)
  {
    SwallowedParts(Tame(l), t, subject);
    var rest :| Swallowed(Tame(l), t, subject) == Escape(Clear(l.text)) + ("')" + rest);
    TicksConcat(Escape(Clear(l.text)), "')" + rest);
    TicksOfEscape(Clear(l.text));
    TicksOfClear(l.text);
    TicksOne('\'', ")" + rest);
    assert "')" + rest == ['\''] + (")" + rest);
  }

  lemma {:induction false} UnescapeAfter(t: string, z: string)
    ensures Unescape(Escape(t) + z) == t + Unescape(z)
  {
    if t == "" {
      assert Escape(t) + z == z;
    } else {
      UnescapeAfter(t[1..], z);
      assert t == [t[0]] + t[1..];
      UnescapeStep(t[0], Escape(t[1..]) + z);
      assert Escape(t) + z == (if t[0] == '\'' then "''" else [t[0]]) + (Escape(t[1..]) + z);
      assert t + Unescape(z) == [t[0]] + (t[1..] + Unescape(z));
    }
  }

  lemma UnescapedTicks(l: Literal, t: Checks, subject: string)
    ensures Ticks(Unescape(Swallowed(Tame(l), t, subject))) > Ticks(l.text)
  {
    SwallowedParts(Tame(l), t, subject);
    var rest :| Swallowed(Tame(l), t, subject) == Escape(Clear(l.text)) + ("')" + rest);
    UnescapeAfter(Clear(l.text), "')" + rest);
    TicksConcat(Clear(l.text), Unescape("')" + rest));
    TicksOfClear(l.text);
    assert ("')" + rest)[1..] == ")" + rest;
    TicksOne('\'', Unescape(")" + rest));
  }

  lemma PatternSwallows(l: Literal, t: Checks, subject: string)
    requires Name(subject) && CleanAll(t, subject)
    ensures ShapeOfMany(Matches(l), t, subject)
            == if EndsQuoted(Final(t)) then Some(NO_SHAPE.(pattern := Some(Swallowed(l, t, subject)))) else None
  {
    EndsInQuote(Operand(Matches(l)), t, subject);
  }

  lemma ValueSwallows(l: Literal, t: Checks, subject: string)
    requires Name(subject) && CleanAll(t, subject)
    ensures ShapeOfMany(Is(l), t, subject)
            == if EndsQuoted(Final(t)) then Some(NO_SHAPE.(allowed := Some([Unescape(Swallowed(l, t, subject))]))) else None
  {
    EndsInQuote(Operand(Is(l)), t, subject);
  }

  /** A printed check all of whose literals are paired, with h the first alternative to NULL. */
  predicate Printable(h: Check, t: Checks, subject: string) {
    Name(subject) && Clean(h, subject) && CleanAll(t, subject) && Paired(h) && EveryTextOf(t, Balanced)
  }

  /** `(S IS NULL) OR (S ~ '...') OR ... '...')`: what stands between the first quote and the last
      is published as the pattern, or as the value. */
  lemma Swallows(db: Database, h: Check, t: Checks, subject: string, isInteger: bool)
    requires Printable(h, t, subject)
    ensures var shape := ParseCheck(db, Definition(Nulls(h, t), subject), subject, isInteger);
            && (h.Matches? ==> shape == if EndsQuoted(Final(t))
                               then Some(NO_SHAPE.(pattern := Some(Swallowed(Tame(h.pattern), TamedAll(t), subject)))) else None)
            && (h.Is? ==> shape == if EndsQuoted(Final(t))
                          then Some(NO_SHAPE.(allowed := Some([Unescape(Swallowed(Tame(h.value), TamedAll(t), subject))]))) else None)
  {
    ParsesMany(db, h, t, subject, isInteger);
    TamedAreClean(t, subject);
    FinalOfTamed(t);
    if h.Matches? {
      PatternSwallows(Tame(h.pattern), TamedAll(t), subject);
    } else if h.Is? {
      ValueSwallows(Tame(h.value), TamedAll(t), subject);
    }
  }

  lemma FirstPasses(db: Database, h: Check, t: Checks, v: string)
    requires Passes(db, h, v)
    ensures Passes(db, Nulls(h, t), v)
  {
    assert PassesAny(db, More(h, t), v);
  }

  /** `(S IS NULL) OR (S = 'x') OR ... '...')`: the text between the first and the last quote is
      published as the only value, so the check admits x and the shape does not. */
  lemma ThirdAlternativeIsLost(db: Database, x: Literal, t: Checks, subject: string, isInteger: bool)
    requires Printable(Is(x), t, subject) && EndsQuoted(Final(t))
    ensures var e := Nulls(Is(x), t);
            var shape := ParseCheck(db, Definition(e, subject), subject, isInteger);
            shape.Some? && Passes(db, e, x.text) && !Accepts(db, shape.value, x.text)
  {
    Swallows(db, Is(x), t, subject, isInteger);
    UnescapedTicks(x, TamedAll(t), subject);
    FirstPasses(db, Is(x), t, x.text);
  }

  lemma PatternIsLost(l: Literal, t: Checks, subject: string, isInteger: bool)
    requires Printable(Matches(l), t, subject) && EndsQuoted(Final(t))
    ensures !Agrees(Only(l.text), Nulls(Matches(l), t), subject, isInteger, "")
  {
    Swallows(Only(l.text), Matches(l), t, subject, isInteger);
    SwallowedTicks(l, TamedAll(t), subject);
    FirstPasses(Only(l.text), Matches(l), t, "");
  }

  // ---------------------------------------------------------------------------
  // Three or more alternatives, the first one a vocabulary
  // ---------------------------------------------------------------------------

  /** What a database can tell about one value. */
  datatype Term = Value(text: string) | Pattern(text: string) | Reaches(digits: string) | Exceeds(digits: string) | Fact(text: string)

  function Terms(e: Check): set<Term>
    decreases e
  {
    match e
    case Matches(l) => {Pattern(l.text)}
    case OneOf(ls) => Values(Texts(ls))
    case Is(l) => {Value(l.text)}
    case AtLeast(n) => {Reaches(n.digits), Exceeds(n.digits)}
    case AtMost(n) => {Reaches(n.digits), Exceeds(n.digits)}
    case Above(n) => {Reaches(n.digits), Exceeds(n.digits)}
    case Missing => {}
    case All(h, t) => Terms(h) + TermsOf(t)
    case Any(h, t) => Terms(h) + TermsOf(t)
    case Not(p) => Terms(p)
    case Other(text) => {Fact(text)}
  }

  function TermsOf(es: Checks): set<Term>
    decreases es
  {
    Terms(es.check) + if es.More? then TermsOf(es.rest) else {}
  }

  function Values(texts: seq<string>): set<Term> {
    set i | 0 <= i < |texts| :: Value(texts[i])
  }

  /** The check, decided by the terms that are true of a value. */
  predicate Holds(row: set<Term>, e: Check)
    decreases e
  {
    match e
    case Matches(l) => Pattern(l.text) in row
    case OneOf(ls) => exists i :: 0 <= i < |ls| && Value(ls[i].text) in row
    case Is(l) => Value(l.text) in row
    case AtLeast(n) => Reaches(n.digits) in row
    case AtMost(n) => Exceeds(n.digits) !in row
    case Above(n) => Exceeds(n.digits) in row
    case Missing => false
    case All(h, t) => Holds(row, h) && HoldsAll(row, t)
    case Any(h, t) => Holds(row, h) || HoldsAny(row, t)
    case Not(p) => !Holds(row, p)
    case Other(text) => Fact(text) in row
  }

  predicate HoldsAll(row: set<Term>, es: Checks)
    decreases es
  {
    Holds(row, es.check) && (es.More? ==> HoldsAll(row, es.rest))
  }

  predicate HoldsAny(row: set<Term>, es: Checks)
    decreases es
  {
    Holds(row, es.check) || (es.More? && HoldsAny(row, es.rest))
  }

  /** One value at most, and what is above a number reaches it. */
  predicate Possible(row: set<Term>) {
    && (forall x, y | x in row && y in row :: x.Value? && y.Value? ==> x == y)
    && (forall x | x in row :: x.Exceeds? ==> Reaches(x.digits) in row)
  }

  /** A truth table over the terms the check mentions: it holds in the rows of the listed texts
      and in no other. */
  predicate Lists(e: Check, texts: seq<string>) {
    forall row: set<Term> | row <= Terms(e) + Values(texts) ::
      Possible(row) ==> (Holds(row, e) <==> exists i :: 0 <= i < |texts| && Value(texts[i]) in row)
  }

  // The rows are what databases can say

  predicate Sees(db: Database, v: string, x: Term) {
    match x
    case Value(text) => v == text
    case Pattern(text) => db.matches(text, v)
    case Reaches(digits) => db.number(v) >= db.decimal(digits)
    case Exceeds(digits) => db.number(v) > db.decimal(digits)
    case Fact(text) => db.other(text, v)
  }

  function RowOf(db: Database, v: string, terms: set<Term>): set<Term> {
    set x | x in terms && Sees(db, v, x)
  }

  lemma {:induction false} RowDecides(db: Database, v: string, e: Check, terms: set<Term>)
    requires Terms(e) <= terms
    ensures Holds(RowOf(db, v, terms), e) <==> Passes(db, e, v)
    decreases e
  {
    match e
    case OneOf(ls) =>
      assert forall i :: 0 <= i < |ls| ==> Texts(ls)[i] == ls[i].text;
      assert forall i :: 0 <= i < |ls| ==> Value(Texts(ls)[i]) in terms;
      assert forall i :: 0 <= i < |ls| ==> (Value(ls[i].text) in RowOf(db, v, terms) <==> ls[i].text == v);
    case All(h, t) =>
      RowDecides(db, v, h, terms);
      RowDecidesAll(db, v, t, terms);
    case Any(h, t) =>
      RowDecides(db, v, h, terms);
      RowDecidesAll(db, v, t, terms);
    case Not(p) => RowDecides(db, v, p, terms);
    case _ =>
  }

  lemma {:induction false} RowDecidesAll(db: Database, v: string, es: Checks, terms: set<Term>)
    requires TermsOf(es) <= terms
    ensures HoldsAll(RowOf(db, v, terms), es) <==> PassesAll(db, es, v)
    ensures HoldsAny(RowOf(db, v, terms), es) <==> PassesAny(db, es, v)
    decreases es
  {
    RowDecides(db, v, es.check, terms);
    if es.More? {
      RowDecidesAll(db, v, es.rest, terms);
    }
  }

  predicate Closed(terms: set<Term>) {
    forall x | x in terms :: x.Exceeds? ==> Reaches(x.digits) in terms
  }

  lemma {:induction false} TermsAreClosed(e: Check)
    ensures Closed(Terms(e))
    decreases e
  {
    match e
    case All(h, t) =>
      TermsAreClosed(h);
      TermsOfAreClosed(t);
    case Any(h, t) =>
      TermsAreClosed(h);
      TermsOfAreClosed(t);
    case Not(p) => TermsAreClosed(p);
    case _ =>
  }

  lemma {:induction false} TermsOfAreClosed(es: Checks)
    ensures Closed(TermsOf(es))
    decreases es
  {
    TermsAreClosed(es.check);
    if es.More? {
      TermsOfAreClosed(es.rest);
    }
  }

  lemma RowIsPossible(db: Database, v: string, terms: set<Term>)
    requires Closed(terms)
    ensures Possible(RowOf(db, v, terms)) && RowOf(db, v, terms) <= terms
  {
  }

  lemma {:induction false} FreshText(terms: set<Term>) returns (v: string)
    ensures forall x | x in terms :: x.Value? ==> |x.text| < |v|
  {
    v := "0";
    if terms != {} {
      var x :| x in terms;
      var w := FreshText(terms - {x});
      v := if x.Value? then w + x.text + "0" else w;
      assert forall y | y in terms :: y == x || y in terms - {x};
    }
  }

  /** Every possible row is some database's view of some value. */
  lemma Realised(row: set<Term>, terms: set<Term>) returns (db: Database, v: string)
    requires row <= terms && Possible(row)
    ensures IntegerColumn(db) && RowOf(db, v, terms) == row
  {
    db := Database((p, w) => Pattern(p) in row, w => 0.0,
                   d => if Exceeds(d) in row then -1.0 else if Reaches(d) in row then 0.0 else 1.0,
                   (t, w) => Fact(t) in row);
    if x :| x in row && x.Value? {
      v := x.text;
    } else {
      v := FreshText(terms);
    }
    forall x | x in terms ensures Sees(db, v, x) <==> x in row {
    }
  }

  /** The texts the reader lists for `(S IS NULL) OR (S = ANY (...)) OR ...`. */
  function Found(ls: seq<Literal>, t: Checks, subject: string): seq<string> {
    FoundIn(TameAll(ls), TamedAll(t), subject)
  }

  lemma ParsesVocabulary(db: Database, ls: seq<Literal>, t: Checks, subject: string, isInteger: bool)
    requires Printable(OneOf(ls), t, subject)
    ensures ParseCheck(db, Definition(Nulls(OneOf(ls), t), subject), subject, isInteger)
            == if Found(ls, t, subject) == [] then None else Some(NO_SHAPE.(allowed := Some(Found(ls, t, subject))))
  {
    ParsesMany(db, OneOf(ls), t, subject, isInteger);
  }

  lemma RowListsTexts(db: Database, v: string, texts: seq<string>, terms: set<Term>)
    requires Values(texts) <= terms
    ensures (exists i :: 0 <= i < |texts| && Value(texts[i]) in RowOf(db, v, terms)) <==> v in texts
  {
    assert forall i :: 0 <= i < |texts| ==> Value(texts[i]) in terms;
    assert forall i :: 0 <= i < |texts| ==> (Value(texts[i]) in RowOf(db, v, terms) <==> texts[i] == v);
  }

  predicate Admits(db: Database, e: Check, texts: seq<string>, v: string) {
    v in texts <==> Passes(db, e, v)
  }

  lemma RowAdmits(db: Database, v: string, e: Check, texts: seq<string>, terms: set<Term>)
    requires terms == Terms(e) + Values(texts)
    ensures (Holds(RowOf(db, v, terms), e) <==> exists i :: 0 <= i < |texts| && Value(texts[i]) in RowOf(db, v, terms))
            <==> Admits(db, e, texts, v)
  {
    RowDecides(db, v, e, terms);
    RowListsTexts(db, v, texts, terms);
  }

  lemma ListsForAll(e: Check, texts: seq<string>, db: Database, v: string)
    requires Lists(e, texts)
    ensures Admits(db, e, texts, v)
  {
    var terms := Terms(e) + Values(texts);
    TermsAreClosed(e);
    RowIsPossible(db, v, terms);
    RowAdmits(db, v, e, texts, terms);
  }

  ghost predicate AlwaysAdmits(e: Check, texts: seq<string>, isInteger: bool) {
    forall db: Database, v: string :: (isInteger ==> IntegerColumn(db)) ==> Admits(db, e, texts, v)
  }

  /** The listed texts are what the check accepts exactly when the truth table says so. */
  lemma ListsExactly(e: Check, texts: seq<string>, isInteger: bool)
    ensures Lists(e, texts) <==> AlwaysAdmits(e, texts, isInteger)
  {
    if Lists(e, texts) {
      forall db: Database, v: string ensures Admits(db, e, texts, v) {
        ListsForAll(e, texts, db, v);
      }
    }
    if AlwaysAdmits(e, texts, isInteger) {
      var terms := Terms(e) + Values(texts);
      forall row: set<Term> | row <= terms && Possible(row)
        ensures Holds(row, e) <==> exists i :: 0 <= i < |texts| && Value(texts[i]) in row
      {
        var db, v := Realised(row, terms);
        RowAdmits(db, v, e, texts, terms);
        assert Admits(db, e, texts, v);
      }
    }
  }

  lemma VocabularyAgrees(db: Database, ls: seq<Literal>, t: Checks, subject: string, isInteger: bool, v: string)
    requires Printable(OneOf(ls), t, subject)
    ensures Agrees(db, Nulls(OneOf(ls), t), subject, isInteger, v)
            <==> Found(ls, t, subject) == [] || Admits(db, Nulls(OneOf(ls), t), Found(ls, t, subject), v)
  {
    ParsesVocabulary(db, ls, t, subject, isInteger);
  }

  lemma VocabularyExactly(ls: seq<Literal>, t: Checks, subject: string, isInteger: bool)
    requires Printable(OneOf(ls), t, subject)
    ensures Preserves(Nulls(OneOf(ls), t), subject, isInteger)
            <==> Found(ls, t, subject) == [] || Lists(Nulls(OneOf(ls), t), Found(ls, t, subject))
  {
    ListsExactly(Nulls(OneOf(ls), t), Found(ls, t, subject), isInteger);
    forall db: Database, v: string
      ensures Agrees(db, Nulls(OneOf(ls), t), subject, isInteger, v)
              <==> Found(ls, t, subject) == [] || Admits(db, Nulls(OneOf(ls), t), Found(ls, t, subject), v)
    {
      VocabularyAgrees(db, ls, t, subject, isInteger, v);
    }
    if Preserves(Nulls(OneOf(ls), t), subject, isInteger) && Found(ls, t, subject) != [] {
      forall db: Database, v: string | isInteger ==> IntegerColumn(db)
        ensures Admits(db, Nulls(OneOf(ls), t), Found(ls, t, subject), v)
      {
        assert Agrees(db, Nulls(OneOf(ls), t), subject, isInteger, v);
      }
    }
  }

  // ---------------------------------------------------------------------------
  // The exact condition
  // ---------------------------------------------------------------------------

  /** Whether the shape read from the printed check means the check, told from the check alone:
      - a single check, or one alternative to NULL, must have quoted texts that come through;
      - behind a pattern or a value no further alternative may end the text with a quote;
      - a vocabulary with further alternatives must list what they accept. */
  predicate Faithful(e: Check, subject: string) {
    match e
    case Any(Missing, Last(p)) => Legible(p)
    case Any(Missing, More(Matches(_), t)) => !EndsQuoted(Final(t))
    case Any(Missing, More(Is(_), t)) => !EndsQuoted(Final(t))
    case Any(Missing, More(OneOf(ls), t)) => Found(ls, t, subject) == [] || Lists(e, Found(ls, t, subject))
    case Any(Missing, More(_, _)) => true
    case _ => Legible(e)
  }

  lemma SingleExactly(e: Check, p: Check, subject: string, isInteger: bool)
    requires Name(subject) && Clean(e, subject) && Paired(e)
    requires e == Nullable(p) || (e == p && !(e.Any? && e.head.Missing?))
    ensures Preserves(e, subject, isInteger) <==> Legible(p)
  {
    MeansExactly(p, isInteger);
    forall db: Database, v: string ensures Agrees(db, e, subject, isInteger, v) <==> Meets(db, p, isInteger, v) {
      ParsesStructure(db, e, subject, isInteger);
      SingleTranslation(db, e, p, subject, isInteger);
      NullablePasses(db, p, v);
    }
  }

  lemma SingleTranslation(db: Database, e: Check, p: Check, subject: string, isInteger: bool)
    requires e == Nullable(p) || (e == p && !(e.Any? && e.head.Missing?))
    ensures Translation(db, Tamed(e), subject, isInteger) == ShapeOf(db, Tamed(p), isInteger)
  {
    if e == Nullable(p) {
      assert Tamed(e) == Nullable(Tamed(p));
    } else {
      assert Tamed(e).Any? ==> e.Any? && Tamed(e).head == Tamed(e.head) && !Tamed(e.head).Missing?;
    }
  }

  lemma ManyExactly(h: Check, t: Checks, subject: string, isInteger: bool)
    requires Printable(h, t, subject)
    ensures Preserves(Nulls(h, t), subject, isInteger) <==> Faithful(Nulls(h, t), subject)
  {
    match h
    case Matches(l) =>
      if EndsQuoted(Final(t)) {
        PatternIsLost(l, t, subject, isInteger);
      } else {
        NothingIsRead(h, t, subject, isInteger);
      }
    case Is(x) =>
      if EndsQuoted(Final(t)) {
        ThirdAlternativeIsLost(Only(""), x, t, subject, isInteger);
        assert !Agrees(Only(""), Nulls(h, t), subject, isInteger, x.text);
      } else {
        NothingIsRead(h, t, subject, isInteger);
      }
    case OneOf(ls) => VocabularyExactly(ls, t, subject, isInteger);
    case _ => NothingIsRead(h, t, subject, isInteger);
  }

  lemma NothingIsRead(h: Check, t: Checks, subject: string, isInteger: bool)
    requires Printable(h, t, subject) && !h.OneOf? && ((h.Matches? || h.Is?) ==> !EndsQuoted(Final(t)))
    ensures Preserves(Nulls(h, t), subject, isInteger)
  {
    forall db: Database, v: string ensures Agrees(db, Nulls(h, t), subject, isInteger, v) {
      if h.Matches? || h.Is? {
        Swallows(db, h, t, subject, isInteger);
      } else {
        ParsesMany(db, h, t, subject, isInteger);
      }
    }
  }

  /** For every printed check whose quoted parentheses pair up: in all databases and for all
      non-null values the returned shape accepts what the check accepts, if and only if. */
  lemma PreservesMeaning(e: Check, subject: string, isInteger: bool)
    requires Name(subject) && Clean(e, subject) && Paired(e)
    ensures Preserves(e, subject, isInteger) <==> Faithful(e, subject)
  {
    match e
    case Any(Missing, Last(p)) => SingleExactly(e, p, subject, isInteger);
    case Any(Missing, More(h, t)) =>
      assert CleanAll(More(h, t), subject) && EveryTextOf(More(h, t), Balanced);
      ManyExactly(h, t, subject, isInteger);
    case _ => SingleExactly(e, e, subject, isInteger);
  }

  lemma QuotedAgrees(db: Database, e: Check, subject: string, isInteger: bool, nullable: bool, v: string)
    requires Name(subject) && Clean(e, subject) && Quotes(e)
    ensures Agrees(db, if nullable then Nullable(e) else e, subject, isInteger, v)
            <==> (Exposed(e, subject, nullable) ==> Meets(db, e, isInteger, v))
  {
    ReadsQuotedCheck(db, e, subject, isInteger, nullable);
    NullablePasses(db, e, v);
  }

  lemma NullablePasses(db: Database, e: Check, v: string)
    ensures Passes(db, Nullable(e), v) <==> Passes(db, e, v)
  {
    assert Passes(db, Nullable(e), v) <==> PassesAny(db, Last(e), v);
    assert PassesAny(db, Last(e), v) <==> Passes(db, e, v);
  }

  /** One pattern, value or vocabulary, bare or as the alternative to NULL, with any quoted texts
      at all: the meaning is kept exactly when the texts come through or the reader does not get
      down to them. */
  lemma QuotedCheckExactly(e: Check, subject: string, isInteger: bool, nullable: bool)
    requires Name(subject) && Clean(e, subject) && Quotes(e)
    ensures Preserves(if nullable then Nullable(e) else e, subject, isInteger)
            <==> (Exposed(e, subject, nullable) ==> Legible(e))
  {
    var whole := if nullable then Nullable(e) else e;
    MeansExactly(e, isInteger);
    forall db: Database, v: string
      ensures Agrees(db, whole, subject, isInteger, v) <==> (Exposed(e, subject, nullable) ==> Meets(db, e, isInteger, v))
    {
      QuotedAgrees(db, e, subject, isInteger, nullable, v);
    }
    if Preserves(whole, subject, isInteger) && Exposed(e, subject, nullable) {
      forall db: Database, v: string | isInteger ==> IntegerColumn(db) ensures Meets(db, e, isInteger, v) {
        assert Agrees(db, whole, subject, isInteger, v);
      }
    }
  }

  // ---------------------------------------------------------------------------
  // A vocabulary with plain alternatives: the truth table spelled out
  // ---------------------------------------------------------------------------

  predicate Vocabulary(c: Check) { c.Is? || c.OneOf? || c.Missing? }

  predicate EachIs(es: Checks, good: Check -> bool) {
    good(es.check) && (es.More? ==> EachIs(es.rest, good))
  }

  predicate Atom(c: Check) { OpOf(c).Some? }

  function TextsIn(c: Check): seq<string> {
    match c
    case Is(l) => [l.text]
    case OneOf(ls) => Texts(ls)
    case _ => []
  }

  function TextsOf(es: Checks): seq<string> {
    TextsIn(es.check) + if es.More? then TextsOf(es.rest) else []
  }

  function EscapeAll(xs: seq<string>): (ys: seq<string>)
    ensures |ys| == |xs| && forall i :: 0 <= i < |xs| ==> ys[i] == Escape(xs[i])
  {
    seq(|xs|, i requires 0 <= i < |xs| => Escape(xs[i]))
  }

  // What the search for literals finds

  lemma {:induction false} SkipsPlain(a: string, post: string)
    requires Lacks(a, '\'')
    ensures FindAll(a + post) == FindAll(post)
  {
    if a == "" {
      assert a + post == post;
    } else {
      assert (a + post)[1..] == a[1..] + post;
      SkipsPlain(a[1..], post);
    }
  }

  lemma {:induction false} ClosesBefore(s: string, post: string)
    requires Lacks(post, '\'')
    ensures Close(s + post) == Close(s)
    decreases |s| + |post|
  {
    if s == "" {
      assert s + post == post;
      if post != "" {
        ClosesBefore("", post[1..]);
        assert "" + post[1..] == post[1..];
      }
    } else {
      assert (s + post)[1..] == s[1..] + post;
      ClosesBefore(s[1..], post);
      if |s| >= 2 {
        assert (s + post)[2..] == s[2..] + post;
        ClosesBefore(s[2..], post);
      }
    }
  }

  lemma {:induction false} FindsBefore(s: string, post: string)
    requires Lacks(post, '\'')
    ensures FindAll(s + post) == FindAll(s)
    decreases |s|
  {
    if s == "" {
      SkipsPlain(post, "");
      assert s + post == post + "";
    } else {
      assert (s + post)[1..] == s[1..] + post;
      ClosesBefore(s[1..], post);
      FindsBefore(s[1..], post);
      var close := Close(s[1..]);
      if s[0] == '\'' && close.Some? {
        var n := close.value;
        assert (s[1..] + post)[..n] == s[1..][..n];
        assert (s[1..] + post)[n + 1..] == s[1..][n + 1..] + post;
        FindsBefore(s[1..][n + 1..], post);
      }
    }
  }

  lemma CommaThrough(l: Literal, more: string, post: string)
    ensures FindAll(Quote(l) + ", " + more + post) == [Escape(l.text)] + FindAll(more + post)
  {
    FindFirst(l, ", " + (more + post));
    SkipsPlain(", ", more + post);
    Regroup(Quote(l), ", ", more, post);
    Together(Quote(l), ", ", more + post);
  }

  lemma TextsSplit(ls: seq<Literal>)
    requires ls != []
    ensures EscapeAll(Texts(ls)) == [Escape(ls[0].text)] + EscapeAll(Texts(ls[1..]))
  {
  }

  lemma {:induction false} FindsThrough(ls: seq<Literal>, post: string)
    requires post == "" || post[0] != '\''
    ensures FindAll(LiteralsText(ls, false) + post) == EscapeAll(Texts(ls)) + FindAll(post)
  {
    if |ls| == 0 {
      assert LiteralsText(ls, false) + post == post;
    } else if |ls| == 1 {
      FindsOne(ls, post);
    } else {
      var more := LiteralsText(ls[1..], false);
      TextsSplit(ls);
      FindsThrough(ls[1..], post);
      CommaThrough(ls[0], more, post);
      LiteralsSplit(ls);
    }
  }

  lemma LiteralsSplit(ls: seq<Literal>)
    requires |ls| > 1
    ensures LiteralsText(ls, false) == Quote(ls[0]) + ", " + LiteralsText(ls[1..], false)
  {
    assert LiteralText(ls[0], false) == Quote(ls[0]);
  }

  lemma FindsOne(ls: seq<Literal>, post: string)
    requires |ls| == 1 && (post == "" || post[0] != '\'')
    ensures FindAll(LiteralsText(ls, false) + post) == EscapeAll(Texts(ls)) + FindAll(post)
  {
    assert LiteralText(ls[0], false) == Quote(ls[0]);
    FindFirst(ls[0], post);
    assert EscapeAll(Texts(ls)) == [Escape(ls[0].text)];
  }

  lemma FindsInValue(l: Literal, post: string, subject: string)
    requires Name(subject) && (post == "" || post[0] != '\'')
    ensures FindAll(subject + " = " + Quote(l) + post) == [Escape(l.text)] + FindAll(post)
  {
    NeatName(subject);
    SkipsPlain(subject + " = ", Quote(l) + post);
    FindFirst(l, post);
    Together(subject + " = ", Quote(l), post);
  }

  lemma FindsInList(ls: seq<Literal>, post: string, subject: string)
    requires Name(subject)
    ensures FindAll(subject + " = ANY (ARRAY[" + LiteralsText(ls, false) + "])" + post) == EscapeAll(Texts(ls)) + FindAll(post)
  {
    var p, x := subject + " = ANY (ARRAY[", LiteralsText(ls, false);
    NeatName(subject);
    SkipsPlain(p, x + ("])" + post));
    FindsThrough(ls, "])" + post);
    SkipsPlain("])", post);
    assert p + x + "])" + post == p + (x + ("])" + post));
  }

  lemma FindsIn(c: Check, post: string, subject: string)
    requires Name(subject) && Vocabulary(c) && (post == "" || post[0] != '\'')
    ensures FindAll(Plain(c, subject) + post) == EscapeAll(TextsIn(c)) + FindAll(post)
  {
    match c
    case Is(l) =>
      FindsInValue(l, post, subject);
      assert LiteralText(l, false) == Quote(l);
      assert EscapeAll([l.text]) == [Escape(l.text)];
    case OneOf(ls) => FindsInList(ls, post, subject);
    case Missing =>
      NeatName(subject);
      SkipsPlain(subject + " IS NULL", post);
  }

  lemma EscapeAllConcat(xs: seq<string>, ys: seq<string>)
    ensures EscapeAll(xs + ys) == EscapeAll(xs) + EscapeAll(ys)
  {
  }

  lemma {:induction false} FindsInAll(es: Checks, subject: string)
    requires Name(subject) && EachIs(es, Vocabulary)
    ensures FindAll(Joined(es, " OR ", subject)) == EscapeAll(TextsOf(es))
  {
    if es.Last? {
      FindsIn(es.check, "", subject);
      assert Plain(es.check, subject) + "" == Plain(es.check, subject);
    } else {
      FindsInAll(es.rest, subject);
      FindsIn(es.check, Others(es.rest, subject), subject);
      SkipsPlain(") OR (", Joined(es.rest, " OR ", subject));
      BodyIsJoined(es.check, es.rest, subject);
      EscapeAllConcat(TextsIn(es.check), TextsOf(es.rest));
    }
  }

  lemma UnescapesAll(xs: seq<string>)
    ensures UnescapeAll(EscapeAll(xs)) == xs
  {
    forall i | 0 <= i < |xs| ensures Unescape(EscapeAll(xs)[i]) == xs[i] {
      UnescapeUndoes(xs[i]);
    }
  }

  lemma LastTwo(c: Check, subject: string)
    requires Name(subject) && Clean(c, subject) && Atom(c)
    ensures |Plain(c, subject)| >= 2 && (Ends(Plain(c, subject), "])") <==> c.OneOf?)
  {
    var s := Plain(c, subject);
    PlainSplits(c, subject);
    assert |s| >= 2 && s[|s| - 2..] == [s[|s| - 2], s[|s| - 1]];
    match c
    case AtLeast(n) => NumberIsNoList(subject + " >= ", n);
    case AtMost(n) => NumberIsNoList(subject + " <= ", n);
    case Above(n) => NumberIsNoList(subject + " > ", n);
    case OneOf(ls) => assert s == subject + " = ANY (ARRAY[" + LiteralsText(ls, false) + "])";
    case Missing => assert s[|s| - 1] == 'L';
    case _ => assert s[|s| - 1] == '\'';
  }

  lemma EndsList(s: string)
    requires |s| >= 2
    ensures Ends(s, "])") <==> s[|s| - 2] == ']' && s[|s| - 1] == ')'
  {
    assert s[|s| - 2..] == [s[|s| - 2], s[|s| - 1]];
  }

  lemma DigitsEnd(digits: string)
    requires Numeral(digits)
    ensures digits != "" && digits[|digits| - 1] != ']' && digits[|digits| - 1] != ')'
  {
    assert Unsigned(digits)[|Unsigned(digits)| - 1] == digits[|digits| - 1];
  }

  lemma NumberIsNoList(prefix: string, n: Number)
    requires CleanNumber(n) && prefix != ""
    ensures !Ends(prefix + NumberText(n, false), "])")
  {
    var s := prefix + NumberText(n, false);
    DigitsEnd(n.digits);
    EndsList(s);
    if n.kind.Some? {
      assert NumberText(n, false) == Parens(n.digits);
      assert s[|s| - 2] == n.digits[|n.digits| - 1];
    } else {
      assert s[|s| - 1] == n.digits[|n.digits| - 1];
    }
  }

  lemma EndsAfter(a: string, b: string)
    requires |b| >= 2
    ensures Ends(a + b, "])") <==> Ends(b, "])")
  {
    assert (a + b)[|a + b| - 2..] == b[|b| - 2..];
  }

  lemma {:induction false} FinalIs(es: Checks, good: Check -> bool)
    requires EachIs(es, good)
    ensures good(Final(es))
  {
    if es.More? {
      FinalIs(es.rest, good);
    }
  }

  /** With plain alternatives the list is read exactly when the last one is a vocabulary too. */
  lemma ListIsRead(ls: seq<Literal>, t: Checks, subject: string)
    requires Name(subject) && CleanAll(t, subject) && EachIs(t, Atom)
    ensures Ends(Operand(OneOf(ls)) + Others(t, subject), "])") <==> Final(t).OneOf?
  {
    FinalIsClean(t, subject, Orderly);
    FinalIs(t, Atom);
    LastTwo(Final(t), subject);
    JoinedEnds(t, subject);
    EndsAfter(Operand(OneOf(ls)) + (") OR (" + Before(t, subject)), Plain(Final(t), subject));
    Around(Operand(OneOf(ls)), ") OR (", Before(t, subject), Plain(Final(t), subject));
  }

  lemma FindsUpTo(a: string, b: string, text: string)
    requires text == a + "])" + b && Ends(text, "])")
    ensures FindAll(text[..|text| - 2]) == FindAll(a + ("])" + b))
  {
    assert text == text[..|text| - 2] + "])";
    FindsBefore(text[..|text| - 2], "])");
    assert a + "])" + b == a + ("])" + b);
  }

  lemma FindsFirst(ls: seq<Literal>, t: Checks, subject: string)
    requires Ends(Operand(OneOf(ls)) + Others(t, subject), "])")
    ensures FoundIn(ls, t, subject) == UnescapeAll(EscapeAll(Texts(ls)) + FindAll("])" + Others(t, subject)))
  {
    var others := Others(t, subject);
    var text := LiteralsText(ls, false) + "])" + others;
    assert text == Operand(OneOf(ls)) + others;
    FindsUpTo(LiteralsText(ls, false), others, text);
    FindsThrough(ls, "])" + others);
  }

  lemma FindsBehind(t: Checks, joined: string, subject: string)
    requires Name(subject) && EachIs(t, Vocabulary) && joined == Joined(t, " OR ", subject)
    ensures FindAll("])" + Others(t, subject)) == EscapeAll(TextsOf(t))
  {
    FindsInAll(t, subject);
    FindsBehindGlue(joined);
  }

  lemma FindsBehindGlue(joined: string)
    ensures FindAll("])" + (") OR (" + joined)) == FindAll(joined)
  {
    SkipsPlain(") OR (", joined);
    SkipsPlain("])", ") OR (" + joined);
  }

  /** All quoted texts of the vocabularies, in order. */
  lemma FoundAreTexts(ls: seq<Literal>, t: Checks, subject: string)
    requires Name(subject) && CleanAll(t, subject) && EachIs(t, Vocabulary) && EachIs(t, Atom) && Final(t).OneOf?
    ensures FoundIn(ls, t, subject) == Texts(ls) + TextsOf(t)
  {
    ListIsRead(ls, t, subject);
    FindsFirst(ls, t, subject);
    FindsBehind(t, Joined(t, " OR ", subject), subject);
    EscapeAllConcat(Texts(ls), TextsOf(t));
    UnescapesAll(Texts(ls) + TextsOf(t));
  }

  // The two ways a plain alternative can go

  lemma TextsOfTamed(c: Check)
    ensures TextsIn(Tamed(c)) == Cleared(TextsIn(c))
  {
  }

  lemma {:induction false} TextsOfAllTamed(es: Checks)
    ensures TextsOf(TamedAll(es)) == Cleared(TextsOf(es))
  {
    TextsOfTamed(es.check);
    if es.More? {
      TextsOfAllTamed(es.rest);
      ClearedConcat(TextsIn(es.check), TextsOf(es.rest));
    }
  }

  lemma {:induction false} TamedAreAtoms(es: Checks)
    requires EachIs(es, Atom)
    ensures EachIs(TamedAll(es), Atom)
  {
    if es.More? {
      TamedAreAtoms(es.rest);
    }
  }

  lemma {:induction false} TamedAreVocabulary(es: Checks)
    requires EachIs(es, Vocabulary)
    ensures EachIs(TamedAll(es), Vocabulary)
  {
    if es.More? {
      TamedAreVocabulary(es.rest);
    }
  }

  lemma PassesVocabulary(db: Database, c: Check, v: string)
    requires Vocabulary(c)
    ensures Passes(db, c, v) <==> v in TextsIn(c)
  {
    if c.OneOf? {
      AmongTexts(c.values, v);
    }
  }

  lemma {:induction false} PassesVocabularies(db: Database, es: Checks, v: string)
    requires EachIs(es, Vocabulary)
    ensures PassesAny(db, es, v) <==> v in TextsOf(es)
  {
    PassesVocabulary(db, es.check, v);
    if es.More? {
      PassesVocabularies(db, es.rest, v);
    }
  }

  /** A plain check that is no vocabulary passes some value outside any list. */
  lemma {:induction false} PassesUnlisted(es: Checks, v: string) returns (db: Database)
    requires EachIs(es, Atom) && !EachIs(es, Vocabulary)
    ensures IntegerColumn(db) && PassesAny(db, es, v)
  {
    if Vocabulary(es.check) {
      db := PassesUnlisted(es.rest, v);
    } else {
      db := Database((p, w) => true, w => 0.0, d => if es.check.Above? then -1.0 else 0.0, (t, w) => false);
      assert Passes(db, es.check, v);
    }
  }

  lemma ClearedConcat(xs: seq<string>, ys: seq<string>)
    ensures Cleared(xs + ys) == Cleared(xs) + Cleared(ys)
  {
  }

  lemma FoundIsCleared(ls: seq<Literal>, t: Checks, subject: string)
    requires Name(subject) && CleanAll(t, subject) && EachIs(t, Vocabulary) && EachIs(t, Atom) && Final(t).OneOf?
    ensures Found(ls, t, subject) == Cleared(Texts(ls) + TextsOf(t))
  {
    TextsOfAllTamed(t);
    TamedAreAtoms(t);
    TamedAreVocabulary(t);
    FinalOfTamed(t);
    TamedAreClean(t, subject);
    FoundAreTexts(TameAll(ls), TamedAll(t), subject);
    TextsOfTame(ls);
    ClearedConcat(Texts(ls), TextsOf(t));
  }

  lemma FoundWhenRead(ls: seq<Literal>, t: Checks, subject: string)
    requires Name(subject) && CleanAll(t, subject) && EachIs(t, Atom) && ls != []
    ensures Found(ls, t, subject) != [] <==> Final(t).OneOf?
  {
    TamedAreAtoms(t);
    FinalOfTamed(t);
    TamedAreClean(t, subject);
    ListIsRead(TameAll(ls), TamedAll(t), subject);
    if Final(t).OneOf? {
      FindsFirst(TameAll(ls), TamedAll(t), subject);
    }
  }

  lemma ManyPasses(db: Database, ls: seq<Literal>, t: Checks, v: string)
    ensures Passes(db, Nulls(OneOf(ls), t), v) <==> v in Texts(ls) || PassesAny(db, t, v)
  {
    AmongTexts(ls, v);
    assert Passes(db, Nulls(OneOf(ls), t), v) <==> PassesAny(db, More(OneOf(ls), t), v);
    assert PassesAny(db, More(OneOf(ls), t), v) <==> Passes(db, OneOf(ls), v) || PassesAny(db, t, v);
  }

  lemma ListsVocabularies(ls: seq<Literal>, t: Checks, subject: string, isInteger: bool)
    requires Printable(OneOf(ls), t, subject) && EachIs(t, Vocabulary) && EachIs(t, Atom) && Final(t).OneOf?
    ensures AlwaysAdmits(Nulls(OneOf(ls), t), Found(ls, t, subject), isInteger)
            <==> forall i :: 0 <= i < |Texts(ls) + TextsOf(t)| ==> Verbatim((Texts(ls) + TextsOf(t))[i])
  {
    var e, xs := Nulls(OneOf(ls), t), Texts(ls) + TextsOf(t);
    FoundIsCleared(ls, t, subject);
    ClearedAreTheSame(xs);
    forall db: Database, v: string ensures Admits(db, e, Found(ls, t, subject), v) <==> (v in Cleared(xs) <==> v in xs) {
      ManyPasses(db, ls, t, v);
      PassesVocabularies(db, t, v);
    }
    if AlwaysAdmits(e, Found(ls, t, subject), isInteger) {
      forall v ensures v in Cleared(xs) <==> v in xs {
        assert Admits(Only(""), e, Found(ls, t, subject), v);
      }
    }
  }

  lemma MissesOthers(ls: seq<Literal>, t: Checks, subject: string, isInteger: bool)
    requires Printable(OneOf(ls), t, subject) && EachIs(t, Atom) && !EachIs(t, Vocabulary)
    ensures !AlwaysAdmits(Nulls(OneOf(ls), t), Found(ls, t, subject), isInteger)
  {
    var bound := Longest(Found(ls, t, subject));
    var v := seq(bound + 1, _ => '0');
    var db := PassesUnlisted(t, v);
    ManyPasses(db, ls, t, v);
    assert !Admits(db, Nulls(OneOf(ls), t), Found(ls, t, subject), v);
  }

  /** `(S IS NULL) OR (S = ANY (...)) OR ...` with patterns, values, vocabularies and bounds for
      alternatives: no meaning is lost exactly when the last alternative is no vocabulary, so that
      nothing is read, or all alternatives are values and vocabularies whose texts come through. */
  lemma PlainAlternatives(ls: seq<Literal>, t: Checks, subject: string, isInteger: bool)
    requires Printable(OneOf(ls), t, subject) && EachIs(t, Atom) && ls != []
    ensures Preserves(Nulls(OneOf(ls), t), subject, isInteger)
            <==> (Final(t).OneOf? ==>
                    EachIs(t, Vocabulary) && forall x :: x in Texts(ls) + TextsOf(t) ==> Verbatim(x))
  {
    var xs := Texts(ls) + TextsOf(t);
    VocabularyExactly(ls, t, subject, isInteger);
    ListsExactly(Nulls(OneOf(ls), t), Found(ls, t, subject), isInteger);
    FoundWhenRead(ls, t, subject);
    if Final(t).OneOf? {
      if EachIs(t, Vocabulary) {
        ListsVocabularies(ls, t, subject, isInteger);
        assert forall i :: 0 <= i < |xs| ==> xs[i] in xs;
      } else {
        MissesOthers(ls, t, subject, isInteger);
      }
    }
  }

  // ---------------------------------------------------------------------------
  // What is read, and what the losses look like
  // ---------------------------------------------------------------------------

  predicate Readable(p: Check, isInteger: bool) {
    match p
    case OneOf(ls) => ls != []
    case Above(n) => isInteger && Whole(n.digits)
    case All(h, t) => h.AtLeast? && t.Last? && t.check.AtMost?
    case _ => p.Matches? || p.Is? || p.AtLeast? || p.AtMost?
  }

  /** Exactly these forms are read, and their nullable form gives the same shape: nothing falls to
      a rule that the reader has an expression for. */
  lemma EveryShapeIsRead(db: Database, p: Check, subject: string, isInteger: bool)
    requires Name(subject) && Clean(p, subject) && Paired(p) && !(p.Any? && p.head.Missing?)
    ensures ParseCheck(db, Definition(p, subject), subject, isInteger).Some? <==> Readable(p, isInteger)
    ensures ParseCheck(db, Definition(Nullable(p), subject), subject, isInteger)
            == ParseCheck(db, Definition(p, subject), subject, isInteger)
  {
    ParsesStructure(db, p, subject, isInteger);
    ParsesNullable(db, p, subject, isInteger);
    SingleTranslation(db, p, p, subject, isInteger);
    ShapeOfTamed(db, p, isInteger);
  }

  lemma ParsesNullable(db: Database, p: Check, subject: string, isInteger: bool)
    requires Name(subject) && Clean(p, subject) && Paired(p)
    ensures ParseCheck(db, Definition(Nullable(p), subject), subject, isInteger) == ShapeOf(db, Tamed(p), isInteger)
  {
    assert CleanAll(Last(p), subject) && EveryTextOf(Last(p), Balanced);
    ParsesStructure(db, Nullable(p), subject, isInteger);
    SingleTranslation(db, Nullable(p), p, subject, isInteger);
  }

  lemma ShapeOfTamed(db: Database, p: Check, isInteger: bool)
    ensures ShapeOf(db, Tamed(p), isInteger).Some? <==> Readable(p, isInteger)
  {
    if p.All? {
      assert Tamed(p.head).AtLeast? <==> p.head.AtLeast?;
      assert TamedAll(p.tail).Last? <==> p.tail.Last?;
      assert Tamed(p.tail.check).AtMost? <==> p.tail.check.AtMost?;
    }
  }

  /** For one text the parentheses of the text decide. */
  lemma ExposedText(l: Literal, subject: string)
    requires Name(subject)
    ensures Exposed(Matches(l), subject, false) <==> NeverBelow(l.text, 0)
    ensures Exposed(Is(l), subject, false) <==> NeverBelow(l.text, 0)
    ensures Exposed(Matches(l), subject, true) <==> NeverBelow(l.text, -1) && Depth(l.text) >= 0
    ensures Exposed(Is(l), subject, true) <==> NeverBelow(l.text, -1) && Depth(l.text) >= 0
  {
    TextProfile(l, subject);
  }

  /** The pattern is published verbatim exactly when it holds no quote, no cast and no run of
      blanks, and closes no parenthesis it has not opened. */
  lemma PatternIsVerbatim(db: Database, l: Literal, subject: string, isInteger: bool)
    requires Name(subject) && TypeName(l.kind)
    ensures ParseCheck(db, Definition(Matches(l), subject), subject, isInteger) == Some(NO_SHAPE.(pattern := Some(l.text)))
            <==> NeverBelow(l.text, 0) && Verbatim(l.text) && Lacks(l.text, '\'')
  {
    ReadsQuotedCheck(db, Matches(l), subject, isInteger, false);
    ExposedText(l, subject);
    PatternVerbatim(l.text);
  }

  /** `S = 'a::b'` is published as the vocabulary of the one value a. */
  lemma CastInValueIsLost(subject: string, isInteger: bool)
    requires Name(subject)
    ensures !Preserves(Is(Literal("a::b", "text")), subject, isInteger)
  {
    var l := Literal("a::b", "text");
    ExposedText(l, subject);
    BalancedWithout(l.text);
    QuotedCheckExactly(Is(l), subject, isInteger, false);
    assert CastAt(l.text, 1);
  }

  // A parenthesis left open in a pattern

  /** The body that is left when the brackets of two conjuncts are taken for one pair. */
  function Joint(a: string, b: string): string { a + (")" + (" AND " + ("(" + b))) }

  lemma JointText(a: string, b: string)
    ensures Parens(a) + " AND " + Parens(b) == Parens(Joint(a, b))
  {
  }

  lemma RestStaysUp(b: string, low: int)
    requires Balanced(b) && low <= 0
    ensures NeverBelow(" AND " + ("(" + b), low)
  {
    NeverBelowFlat(" AND ", low);
    NeverBelowConcat(" AND ", "(" + b, low);
    NeverBelowConcat(['('], b, low);
    NeverBelowOne('(', low);
    DepthOne('(');
    StaysAbove(b, low - 1);
  }

  /** Above zero where it starts closing, the joint text never falls below zero. */
  lemma JointStaysUp(a: string, b: string)
    requires NeverBelow(a, 0) && Balanced(b) && Depth(a) >= 1
    ensures NeverBelow(Joint(a, b), 0)
  {
    var rest, low := " AND " + ("(" + b), 0 - Depth(a);
    RestStaysUp(b, low + 1);
    NeverBelowOne(')', low);
    DepthOne(')');
    NeverBelowConcat([')'], rest, low);
    NeverBelowConcat(a, [')'] + rest, 0);
  }

  lemma StaysAbove(s: string, low: int)
    requires NeverBelow(s, 0) && low <= 0
    ensures NeverBelow(s, low)
  {
  }

  lemma JoinsPatterns(a: string, b: string, p: string, x: string, y: string)
    requires a == p + (x + "'") && b == p + (y + "'")
    ensures Joint(a, b) == p + (x + ("') AND (" + p + y) + "'")
  {
    assert "'" + (")" + (" AND " + "(")) == "') AND (";
    assert Joint(a, b) == p + x + ("'" + (")" + (" AND " + "("))) + p + y + "'";
  }

  lemma ReadsAsOnePattern(db: Database, subject: string, m: string, isInteger: bool)
    requires Name(subject)
    ensures var body := subject + " ~ '" + (m + "'");
            && ReadShape(db, body, subject, isInteger) == Some(NO_SHAPE.(pattern := Some(m)))
            && Between(body, NullPrefix(subject), ")").None? && Unwrapped(body) == body
  {
    var body := subject + " ~ '" + (m + "'");
    BetweenMiddle(subject + " ~ '", m, "'");
    assert body[|body| - 1] == '\'' && body[..|subject|] == subject;
    StartsWithName(body, subject);
    StartsAgree(body, NullPrefix(subject));
    assert body[0] == subject[0] && Word(subject[0]) && NullPrefix(subject)[0] == '(';
  }

  function JoinedPattern(l: Literal, m: Literal, subject: string): string {
    Escape(Clear(l.text)) + ("') AND (" + (subject + " ~ '") + Escape(Clear(m.text)))
  }

  lemma JointIsPattern(l: Literal, m: Literal, subject: string)
    ensures Joint(Plain(Matches(Tame(l)), subject), Plain(Matches(Tame(m)), subject))
            == subject + " ~ '" + (JoinedPattern(l, m, subject) + "'")
  {
    PlainSplits(Matches(Tame(l)), subject);
    PlainSplits(Matches(Tame(m)), subject);
    JoinsPatterns(Plain(Matches(Tame(l)), subject), Plain(Matches(Tame(m)), subject), subject + " ~ '",
                  Escape(Clear(l.text)), Escape(Clear(m.text)));
  }

  lemma DropsThree(u: string)
    requires NeverBelow(u, 0)
    ensures Unwrapped(Parens(Parens(Parens(u)))) == Unwrapped(u)
  {
    NeverBelowEnd(u, 0);
    NeverBelowParens(u);
    NeverBelowEnd(Parens(u), 0);
    StaysAbove(u, -1);
    NeverBelowParens(Parens(u));
    StaysAbove(Parens(u), -1);
    UnwrapsOne(u);
    UnwrapsOne(Parens(u));
    UnwrapsOne(Parens(Parens(u)));
  }

  function TwoPatterns(l: Literal, m: Literal): Check { All(Matches(l), Last(Matches(m))) }

  lemma TwoPatternsText(l: Literal, m: Literal, subject: string)
    ensures Plain(Tamed(TwoPatterns(l, m)), subject)
            == Parens(Joint(Plain(Matches(Tame(l)), subject), Plain(Matches(Tame(m)), subject)))
  {
    PrintedParts(Last(Matches(Tame(m))), " AND ", subject, false);
    assert Tamed(Matches(l)) == Matches(Tame(l)) && Tamed(Matches(m)) == Matches(Tame(m));
    assert TamedAll(Last(Matches(m))) == Last(Tamed(Matches(m)));
    assert Tamed(TwoPatterns(l, m)) == All(Matches(Tame(l)), Last(Matches(Tame(m))));
    JointText(Plain(Matches(Tame(l)), subject), Plain(Matches(Tame(m)), subject));
  }

  lemma PatternProfile(l: Literal, subject: string)
    requires Name(subject)
    ensures SameProfile(Plain(Matches(Tame(l)), subject), l.text)
  {
    PlainProfile(Matches(l), subject);
    TextProfile(l, subject);
  }

  lemma TwoPatternsPaired(l: Literal, m: Literal, subject: string)
    requires TypeName(l.kind) && TypeName(m.kind)
    ensures Clean(TwoPatterns(l, m), subject)
    ensures Balanced(l.text) && Balanced(m.text) ==> Paired(TwoPatterns(l, m))
  {
    assert Clean(Matches(m), subject) && CleanAll(Last(Matches(m)), subject);
    if Balanced(l.text) && Balanced(m.text) {
      assert EveryText(Matches(m), Balanced) && EveryTextOf(Last(Matches(m)), Balanced);
    }
  }

  /** `(S ~ '...(...') AND (S ~ '...')`: as soon as the first pattern leaves a parenthesis open the
      two patterns and everything between them are published as one pattern; otherwise nothing
      is read. */
  lemma UnpairedParenthesisJoinsPatterns(db: Database, l: Literal, m: Literal, subject: string, isInteger: bool)
    requires Name(subject) && TypeName(l.kind) && TypeName(m.kind) && NeverBelow(l.text, 0) && Balanced(m.text)
    ensures ParseCheck(db, Definition(TwoPatterns(l, m), subject), subject, isInteger)
            == if Depth(l.text) >= 1 then Some(NO_SHAPE.(pattern := Some(JoinedPattern(l, m, subject)))) else None
  {
    if Depth(l.text) >= 1 {
      var a, b := Plain(Matches(Tame(l)), subject), Plain(Matches(Tame(m)), subject);
      TwoPatternsPaired(l, m, subject);
      ParseBody(db, TwoPatterns(l, m), subject, isInteger);
      TwoPatternsText(l, m, subject);
      PatternProfile(l, subject);
      PatternProfile(m, subject);
      JointStaysUp(a, b);
      DropsThree(Joint(a, b));
      JointIsPattern(l, m, subject);
      ReadsAsOnePattern(db, subject, JoinedPattern(l, m, subject), isInteger);
    } else {
      NeverBelowEnd(l.text, 0);
      TwoPatternsPaired(l, m, subject);
      EveryShapeIsRead(db, TwoPatterns(l, m), subject, isInteger);
    }
  }

  /** The joined pattern is neither of the two. */
  lemma JoinedPatternIsLost(l: Literal, m: Literal, subject: string, isInteger: bool)
    requires Name(subject) && TypeName(l.kind) && TypeName(m.kind) && NeverBelow(l.text, 0) && Balanced(m.text)
    requires Depth(l.text) >= 1
    ensures !Preserves(TwoPatterns(l, m), subject, isInteger)
  {
    var joined := JoinedPattern(l, m, subject);
    var db := Database((p, v) => p != joined, v => 0.0, s => 0.0, (t, v) => false);
    UnpairedParenthesisJoinsPatterns(db, l, m, subject, isInteger);
    JoinedTicks(l, m, subject);
    TwoPass(db, l, m);
    assert !Agrees(db, TwoPatterns(l, m), subject, isInteger, "");
  }

  lemma TwoPass(db: Database, l: Literal, m: Literal)
    ensures Passes(db, TwoPatterns(l, m), "") <==> db.matches(l.text, "") && db.matches(m.text, "")
  {
    assert PassesAll(db, Last(Matches(m)), "") == Passes(db, Matches(m), "");
  }

  lemma JoinedTicks(l: Literal, m: Literal, subject: string)
    ensures Ticks(JoinedPattern(l, m, subject)) > Ticks(l.text) + Ticks(m.text)
  {
    var x, y, middle := Escape(Clear(l.text)), Escape(Clear(m.text)), "') AND (" + (subject + " ~ '");
    TicksConcat(x, middle + y);
    TicksConcat(middle, y);
    TicksOne('\'', ") AND (" + (subject + " ~ '"));
    assert middle == ['\''] + (") AND (" + (subject + " ~ '"));
    TicksOfEscape(Clear(l.text));
    TicksOfEscape(Clear(m.text));
    TicksOfClear(l.text);
    TicksOfClear(m.text);
    assert JoinedPattern(l, m, subject) == x + (middle + y);
  }

  /** `(S ~ 'a(b') AND (S ~ 'c')` is one such check. */
  lemma OpenParenthesisIsLost(subject: string, isInteger: bool)
    requires Name(subject)
    ensures !Preserves(TwoPatterns(Literal("a(b", "text"), Literal("c", "text")), subject, isInteger)
  {
    var l, m := Literal("a(b", "text"), Literal("c", "text");
    assert l.text == "a" + (['('] + "b");
    BalancedWithout("a");
    BalancedWithout("b");
    BalancedWithout("c");
    NeverBelowConcat("a", ['('] + "b", 0);
    NeverBelowConcat(['('], "b", 0);
    NeverBelowOne('(', 0);
    DepthOne('(');
    StaysAbove("b", -1);
    DepthConcat("a", ['('] + "b");
    DepthConcat(['('], "b");
    JoinedPatternIsLost(l, m, subject, isInteger);
  }
}
