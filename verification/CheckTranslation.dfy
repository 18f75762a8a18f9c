/** Reading field-level shapes out of Postgres CHECK constraints (src/catalogue/field_constraints.py
    parse_check and _merge), against the meaning of the checks as Postgres prints them.  The
    printer and the meaning of an expression are definitions of this module's own; the reader is
    the source's, branch by branch: what it looks for in the normalised text, in which order,
    and what it makes of it.  A check it returns no shape for is left unparsed. */
module CheckTranslation {
  import opened Prelude
  import opened Text
  import opened CheckText

  // ---------------------------------------------------------------------------
  // Shapes
  // ---------------------------------------------------------------------------

  datatype Shape = Shape(pattern: Option<string>, allowed: Option<seq<string>>, min: Option<real>, max: Option<real>)

  const NO_SHAPE := Shape(None, None, None, None)

  /** What the database does with a non-null value: match a pattern, read a number, decide a
      check this reader knows nothing of.  `decimal` reads a numeric literal. */
  datatype Database = Database(
    matches: (string, string) -> bool, number: string -> real, decimal: string -> real, other: (string, string) -> bool)

  predicate Accepts(db: Database, shape: Shape, v: string) {
    && (shape.pattern.Some? ==> db.matches(shape.pattern.value, v))
    && (shape.allowed.Some? ==> v in shape.allowed.value)
    && (shape.min.Some? ==> db.number(v) >= shape.min.value)
    && (shape.max.Some? ==> db.number(v) <= shape.max.value)
  }

  // ---------------------------------------------------------------------------
  // The regular expressions
  // ---------------------------------------------------------------------------

  predicate Starts(s: string, p: string) { |p| <= |s| && s[..|p|] == p }

  /** `^prefix(.*)suffix$`; a normal spelling holds no newline. */
  function Between(s: string, prefix: string, suffix: string): Option<string> {
    if Starts(s, prefix) && |prefix| + |suffix| <= |s| && s[|s| - |suffix|..] == suffix
    then Some(s[|prefix|..|s| - |suffix|]) else None
  }

  predicate Digit(c: char) { '0' <= c <= '9' }

  function Unsigned(s: string): string { if s != "" && s[0] == '-' then s[1..] else s }

  /** -?[\d.]+ */
  predicate Numeral(s: string) {
    Unsigned(s) != "" && forall i :: 0 <= i < |Unsigned(s)| ==> Digit(Unsigned(s)[i]) || Unsigned(s)[i] == '.'
  }

  /** -?\d+ */
  predicate Whole(s: string) {
    Unsigned(s) != "" && forall i :: 0 <= i < |Unsigned(s)| ==> Digit(Unsigned(s)[i])
  }

  /** A numeral, with the parentheses a removed cast leaves behind. */
  function Bare(s: string): string {
    var t := if s != "" && s[0] == '(' then s[1..] else s;
    if t != "" && t[|t| - 1] == ')' then t[..|t| - 1] else t
  }

  function Bound(db: Database, body: string, prefix: string): Option<real> {
    if Starts(body, prefix) && Numeral(Bare(body[|prefix|..])) then Some(db.decimal(Bare(body[|prefix|..]))) else None
  }

  function Range(db: Database, body: string, subject: string): Option<(real, real)> {
    match Between(body, "(" + subject + " >= ", ")")
    case None => None
    case Some(x) =>
      match Cut(x, ' ')
      case None => None
      case Some(p) =>
        if p.0 == "" || p.0[|p.0| - 1] != ')' || !Numeral(Bare(p.0[..|p.0| - 1])) then None
        else
          var high := Bound(db, p.1, "AND (" + subject + " <= ");
          if high.None? then None else Some((db.decimal(Bare(p.0[..|p.0| - 1])), high.value))
  }

  /** Where the literal whose text starts here closes: a doubled quote is part of it, unless it
      could not be closed otherwise. */
  function Close(s: string): (r: Option<nat>)
    ensures r.Some? ==> r.value < |s|
    decreases |s|
  {
    if s == "" then None
    else if s[0] != '\'' then
      var further := Close(s[1..]);
      if further.Some? then Some(further.value + 1) else None
    else if |s| >= 2 && s[1] == '\'' then
      var further := Close(s[2..]);
      if further.Some? then Some(further.value + 2) else Some(0)
    else Some(0)
  }

  /** The quoted literals, left to right. */
  function FindAll(s: string): seq<string>
    decreases |s|
  {
    if s == "" then []
    else if s[0] != '\'' || Close(s[1..]).None? then FindAll(s[1..])
    else
      var n := Close(s[1..]).value;
      [s[1..][..n]] + FindAll(s[1..][n + 1..])
  }

  function Unescape(s: string): string {
    if s == "" then ""
    else if |s| >= 2 && s[0] == '\'' && s[1] == '\'' then "'" + Unescape(s[2..])
    else [s[0]] + Unescape(s[1..])
  }

  function UnescapeAll(values: seq<string>): seq<string> {
    seq(|values|, i requires 0 <= i < |values| => Unescape(values[i]))
  }

  // ---------------------------------------------------------------------------
  // The reader
  // ---------------------------------------------------------------------------

  function ReadShape(db: Database, body: string, subject: string, isInteger: bool): Option<Shape> {
    var pattern := Between(body, subject + " ~ '", "'");
    var any := Between(body, subject + " = ANY (ARRAY[", "])");
    var equal := Between(body, subject + " = '", "'");
    var range := Range(db, body, subject);
    var low, high := Bound(db, body, subject + " >= "), Bound(db, body, subject + " <= ");
    if pattern.Some? then Some(NO_SHAPE.(pattern := pattern))
    else if any.Some? then
      (if FindAll(any.value) == [] then None else Some(NO_SHAPE.(allowed := Some(UnescapeAll(FindAll(any.value))))))
    else if equal.Some? then Some(NO_SHAPE.(allowed := Some([Unescape(equal.value)])))
    else if range.Some? then Some(NO_SHAPE.(min := Some(range.value.0), max := Some(range.value.1)))
    else if low.Some? then Some(NO_SHAPE.(min := low))
    else if high.Some? then Some(NO_SHAPE.(max := high))
    else if isInteger && Starts(body, subject + " > ") && Whole(Bare(body[|subject| + 3..]))
    then Some(NO_SHAPE.(min := Some(db.decimal(Bare(body[|subject| + 3..])) + 1.0)))
    else None
  }

  function ParseCheck(db: Database, expression: string, subject: string, isInteger: bool): Option<Shape> {
    var body := Unwrapped(Normalise(expression));
    var rest := Between(body, "(" + subject + " IS NULL) OR (", ")");
    ReadShape(db, if rest.Some? then Unwrapped(rest.value) else body, subject, isInteger)
  }

  // ---------------------------------------------------------------------------
  // Checks, as Postgres prints and decides them
  // ---------------------------------------------------------------------------

  datatype Literal = Literal(text: string, kind: string)

  datatype Number = Number(digits: string, kind: Option<string>)

  datatype Check =
    | Matches(pattern: Literal)
    | OneOf(values: seq<Literal>)
    | Is(value: Literal)
    | AtLeast(n: Number)
    | AtMost(n: Number)
    | Above(n: Number)
    | Missing
    | All(head: Check, tail: Checks)
    | Any(head: Check, tail: Checks)
    | Not(part: Check)
    | Other(text: string)

  datatype Checks = Last(check: Check) | More(check: Check, rest: Checks)

  /** Whether a row with the non-null value v passes. */
  predicate Passes(db: Database, e: Check, v: string)
    decreases e
  {
    match e
    case Matches(l) => db.matches(l.text, v)
    case OneOf(ls) => exists i :: 0 <= i < |ls| && ls[i].text == v
    case Is(l) => v == l.text
    case AtLeast(n) => db.number(v) >= db.decimal(n.digits)
    case AtMost(n) => db.number(v) <= db.decimal(n.digits)
    case Above(n) => db.number(v) > db.decimal(n.digits)
    case Missing => false
    case All(h, t) => Passes(db, h, v) && PassesAll(db, t, v)
    case Any(h, t) => Passes(db, h, v) || PassesAny(db, t, v)
    case Not(p) => !Passes(db, p, v)
    case Other(text) => db.other(text, v)
  }

  predicate PassesAll(db: Database, es: Checks, v: string)
    decreases es
  {
    Passes(db, es.check, v) && (es.More? ==> PassesAll(db, es.rest, v))
  }

  predicate PassesAny(db: Database, es: Checks, v: string)
    decreases es
  {
    Passes(db, es.check, v) || (es.More? && PassesAny(db, es.rest, v))
  }

  function Escape(s: string): string {
    if s == "" then "" else (if s[0] == '\'' then "''" else [s[0]]) + Escape(s[1..])
  }

  function Quote(l: Literal): string { "'" + Escape(l.text) + "'" }

  function CastText(kind: string, casts: bool): string { if casts then "::" + kind else "" }

  function LiteralText(l: Literal, casts: bool): string { Quote(l) + CastText(l.kind, casts) }

  function LiteralsText(ls: seq<Literal>, casts: bool): string {
    if |ls| == 0 then "" else if |ls| == 1 then LiteralText(ls[0], casts)
    else LiteralText(ls[0], casts) + ", " + LiteralsText(ls[1..], casts)
  }

  function NumberText(n: Number, casts: bool): string {
    if n.kind.None? then n.digits else Parens(n.digits) + CastText(n.kind.value, casts)
  }

  /** The inside of a printed check, with its casts or without them. */
  function Printed(e: Check, subject: string, casts: bool): string
    decreases e
  {
    match e
    case Matches(l) => subject + " ~ " + LiteralText(l, casts)
    case OneOf(ls) => subject + " = ANY (ARRAY[" + LiteralsText(ls, casts) + "])"
    case Is(l) => subject + " = " + LiteralText(l, casts)
    case AtLeast(n) => subject + " >= " + NumberText(n, casts)
    case AtMost(n) => subject + " <= " + NumberText(n, casts)
    case Above(n) => subject + " > " + NumberText(n, casts)
    case Missing => subject + " IS NULL"
    case All(h, t) => Parens(Printed(h, subject, casts)) + " AND " + PrintedAll(t, " AND ", subject, casts)
    case Any(h, t) => Parens(Printed(h, subject, casts)) + " OR " + PrintedAll(t, " OR ", subject, casts)
    case Not(p) => "NOT " + Parens(Printed(p, subject, casts))
    case Other(text) => text
  }

  function PrintedAll(es: Checks, sep: string, subject: string, casts: bool): string
    decreases es
  {
    Parens(Printed(es.check, subject, casts)) + if es.Last? then "" else sep + PrintedAll(es.rest, sep, subject, casts)
  }

  /** pg_get_constraintdef. */
  function Definition(e: Check, subject: string): string {
    "CHECK " + Parens(Parens(Printed(e, subject, true)))
  }

  // ---------------------------------------------------------------------------
  // What the reader is proved for
  // ---------------------------------------------------------------------------

  predicate Name(s: string) {
    s != "" && s != "NOT" && forall i :: 0 <= i < |s| ==> Word(s[i])
  }

  /** Text the normaliser leaves alone: no cast starts in it, its blanks are single, its
      parentheses pair up. */
  predicate Quiet(s: string) {
    Inert(s) && Calm(s) && Balanced(s)
  }

  predicate CleanNumber(n: Number) { Numeral(n.digits) && (n.kind.Some? ==> TypeName(n.kind.value)) }

  /** A check of a form the reader has no expression for. */
  predicate Foreign(text: string, subject: string) {
    && Quiet(text) && Neat(text) && text[0] != '('
    && !Starts(text, subject + " ~ ") && !Starts(text, subject + " = ") && !Starts(text, subject + " >= ")
    && !Starts(text, subject + " <= ") && !Starts(text, subject + " > ") && !Starts(text, subject + " IS NULL")
  }

  /** As Postgres prints it: numbers are numerals and types have names.  What a quoted literal
      says is not restricted. */
  predicate Clean(e: Check, subject: string)
    decreases e
  {
    match e
    case Matches(l) => TypeName(l.kind)
    case OneOf(ls) => forall i :: 0 <= i < |ls| ==> TypeName(ls[i].kind)
    case Is(l) => TypeName(l.kind)
    case AtLeast(n) => CleanNumber(n)
    case AtMost(n) => CleanNumber(n)
    case Above(n) => CleanNumber(n)
    case Missing => true
    case All(h, t) => Clean(h, subject) && CleanAll(t, subject)
    case Any(h, t) => Clean(h, subject) && CleanAll(t, subject)
    case Not(p) => Clean(p, subject)
    case Other(text) => Foreign(text, subject)
  }

  predicate CleanAll(es: Checks, subject: string)
    decreases es
  {
    Clean(es.check, subject) && (es.More? ==> CleanAll(es.rest, subject))
  }

  /** Every quoted text in the check is of the given kind. */
  predicate EveryText(e: Check, good: string -> bool)
    decreases e
  {
    match e
    case Matches(l) => good(l.text)
    case OneOf(ls) => forall i :: 0 <= i < |ls| ==> good(ls[i].text)
    case Is(l) => good(l.text)
    case All(h, t) => EveryText(h, good) && EveryTextOf(t, good)
    case Any(h, t) => EveryText(h, good) && EveryTextOf(t, good)
    case Not(p) => EveryText(p, good)
    case _ => true
  }

  predicate EveryTextOf(es: Checks, good: string -> bool)
    decreases es
  {
    EveryText(es.check, good) && (es.More? ==> EveryTextOf(es.rest, good))
  }

  /** No quoted text leaves a parenthesis unpaired. */
  predicate Paired(e: Check) { EveryText(e, Balanced) }

  predicate Orderly(s: string) { Calm(s) && Balanced(s) }

  // ---------------------------------------------------------------------------
  // The check whose quoted texts have lost their casts and runs of blanks
  // ---------------------------------------------------------------------------

  function Tame(l: Literal): Literal { l.(text := Clear(l.text)) }

  function TameAll(ls: seq<Literal>): (tame: seq<Literal>)
    ensures |tame| == |ls| && forall i :: 0 <= i < |ls| ==> tame[i] == Tame(ls[i])
  {
    seq(|ls|, i requires 0 <= i < |ls| => Tame(ls[i]))
  }

  function Tamed(e: Check): Check
    decreases e
  {
    match e
    case Matches(l) => Matches(Tame(l))
    case OneOf(ls) => OneOf(TameAll(ls))
    case Is(l) => Is(Tame(l))
    case All(h, t) => All(Tamed(h), TamedAll(t))
    case Any(h, t) => Any(Tamed(h), TamedAll(t))
    case Not(p) => Not(Tamed(p))
    case _ => e
  }

  function TamedAll(es: Checks): Checks
    decreases es
  {
    if es.Last? then Last(Tamed(es.check)) else More(Tamed(es.check), TamedAll(es.rest))
  }

  lemma {:induction false} TamedIsClean(e: Check, subject: string)
    requires Clean(e, subject)
    ensures Clean(Tamed(e), subject) && (Paired(e) ==> EveryText(Tamed(e), Orderly))
    decreases e
  {
    match e
    case Matches(l) => TextIsOrderly(l.text);
    case OneOf(ls) =>
      forall i | 0 <= i < |ls| ensures Balanced(ls[i].text) ==> Orderly(TameAll(ls)[i].text) {
        TextIsOrderly(ls[i].text);
      }
    case Is(l) => TextIsOrderly(l.text);
    case All(h, t) =>
      TamedIsClean(h, subject);
      TamedAreClean(t, subject);
    case Any(h, t) =>
      TamedIsClean(h, subject);
      TamedAreClean(t, subject);
    case Not(p) => TamedIsClean(p, subject);
    case _ =>
  }

  lemma {:induction false} TamedAreClean(es: Checks, subject: string)
    requires CleanAll(es, subject)
    ensures CleanAll(TamedAll(es), subject) && (EveryTextOf(es, Balanced) ==> EveryTextOf(TamedAll(es), Orderly))
    decreases es
  {
    TamedIsClean(es.check, subject);
    if es.More? {
      TamedAreClean(es.rest, subject);
    }
  }

  lemma TextIsOrderly(s: string)
    ensures Calm(Clear(s)) && (Balanced(s) ==> Orderly(Clear(s)))
  {
    CollapseIsCalm(RemoveCasts(s));
    ClearKeepsProfile(s);
  }

  // ---------------------------------------------------------------------------
  // Casts and runs of blanks vanish from a printed check
  // ---------------------------------------------------------------------------

  /** Clearing `a`, whatever of the given kind follows, leaves `b`. */
  predicate Becomes(a: string, b: string, rest: string) {
    Clear(a + rest) == b + Clear(rest)
  }

  /** Starts with neither a blank nor a cast. */
  predicate Firm(s: string) {
    s != "" && !IsSpace(s[0]) && !CastAt(s, 0)
  }

  lemma Stays(a: string, rest: string)
    requires Inert(a) && Calm(a) && (Firm(rest) || (a != "" && !IsSpace(a[|a| - 1])))
    ensures Becomes(a, a, rest)
  {
    InertStays(a, rest);
    CalmPasses(a, RemoveCasts(rest));
  }

  lemma Then(a: string, b: string, c: string, d: string, rest: string)
    requires Becomes(a, b, c + rest) && Becomes(c, d, rest)
    ensures Becomes(a + c, b + d, rest)
  {
    assert a + c + rest == a + (c + rest);
    assert b + d + Clear(rest) == b + (d + Clear(rest));
  }

  // Inside quotes: a quote is no part of a cast, and no blank

  /** A quoted text from behind its opening quote, and what follows. */
  function InQuotes(t: string, z: string): string { Escape(t) + ("'" + z) }

  lemma InQuotesStep(t: string, z: string)
    ensures t == "" ==> InQuotes(t, z) == ['\''] + z
    ensures t != "" && t[0] == '\'' ==> InQuotes(t, z) == ['\''] + (['\''] + InQuotes(t[1..], z))
    ensures t != "" && t[0] != '\'' ==> InQuotes(t, z) == [t[0]] + InQuotes(t[1..], z)
  {
  }

  lemma InQuotesPrepend(c: char, t: string, z: string)
    ensures c != '\'' ==> InQuotes([c] + t, z) == [c] + InQuotes(t, z)
    ensures c == '\'' ==> InQuotes([c] + t, z) == ['\''] + (['\''] + InQuotes(t, z))
  {
    InQuotesStep([c] + t, z);
    assert ([c] + t)[1..] == t;
  }

  lemma {:induction false} TypeRunInQuotes(t: string, z: string)
    ensures TypeRun(InQuotes(t, z)) == TypeRun(t)
    ensures InQuotes(t, z)[TypeRun(t)..] == InQuotes(t[TypeRun(t)..], z)
  {
    InQuotesStep(t, z);
    if t != "" && TypeChar(t[0]) {
      TypeRunInQuotes(t[1..], z);
      assert InQuotes(t, z)[1..] == InQuotes(t[1..], z);
      assert InQuotes(t, z)[TypeRun(t)..] == InQuotes(t[1..], z)[TypeRun(t[1..])..];
      assert t[TypeRun(t)..] == t[1..][TypeRun(t[1..])..];
    } else {
      assert t[0..] == t && InQuotes(t, z)[0..] == InQuotes(t, z);
    }
  }

  lemma StartsPair(s: string, c: char, d: char)
    ensures Starts(s, [c, d]) <==> |s| >= 2 && s[0] == c && s[1] == d
  {
    assert |s| >= 2 ==> s[..2] == [s[0], s[1]];
  }

  /** Two unquoted characters at the start. */
  lemma PairInQuotes(t: string, z: string, c: char, d: char)
    requires c != '\'' && d != '\''
    ensures Starts(InQuotes(t, z), [c, d]) <==> Starts(t, [c, d])
    ensures Starts(t, [c, d]) ==> InQuotes(t, z)[2..] == InQuotes(t[2..], z)
  {
    var s := InQuotes(t, z);
    StartsPair(s, c, d);
    StartsPair(t, c, d);
    InQuotesStep(t, z);
    if t != "" && t[0] == c {
      InQuotesStep(t[1..], z);
      assert s[1..] == InQuotes(t[1..], z);
      assert s[1] == InQuotes(t[1..], z)[0];
      assert s[1] == d <==> |t| > 1 && t[1] == d;
      if |t| > 1 && t[1] == d {
        assert t[1..][1..] == t[2..];
        assert s == [c] + ([d] + InQuotes(t[2..], z));
      }
    }
  }

  lemma CastInQuotes(t: string, z: string)
    ensures CastAt(InQuotes(t, z), 0) <==> CastAt(t, 0)
    ensures CastAt(t, 0) ==> AfterCast(InQuotes(t, z)) == InQuotes(AfterCast(t), z)
  {
    var s := InQuotes(t, z);
    PairInQuotes(t, z, ':', ':');
    StartsAgree(s, "::");
    StartsAgree(t, "::");
    if Starts(t, "::") {
      InQuotesStep(t[2..], z);
      assert |s| > 2 ==> s[2] == s[2..][0];
      assert |t| > 2 ==> t[2] == t[2..][0];
      if CastAt(t, 0) {
        AfterCastInQuotes(t, z);
      }
    }
  }

  lemma AfterCastInQuotes(t: string, z: string)
    requires CastAt(t, 0) && CastAt(InQuotes(t, z), 0) && InQuotes(t, z)[2..] == InQuotes(t[2..], z)
    ensures AfterCast(InQuotes(t, z)) == InQuotes(AfterCast(t), z)
  {
    var s, n := InQuotes(t, z), TypeRun(t[2..]);
    TypeRunInQuotes(t[2..], z);
    assert s[2 + n..] == s[2..][n..];
    assert t[2 + n..] == t[2..][n..];
    PairInQuotes(t[2 + n..], z, '[', ']');
    StartsAgree(t[2 + n..], "[]");
    StartsAgree(s[2 + n..], "[]");
  }

  lemma {:induction false} CastsInQuotes(t: string, z: string)
    ensures RemoveCasts(InQuotes(t, z)) == InQuotes(RemoveCasts(t), RemoveCasts(z))
    decreases |t|
  {
    CastInQuotes(t, z);
    InQuotesStep(t, z);
    if t == "" {
      RemoveOne('\'', z);
      InQuotesStep("", RemoveCasts(z));
    } else if CastAt(t, 0) {
      CastsInQuotes(AfterCast(t), z);
    } else {
      CastsInQuotes(t[1..], z);
      InQuotesPrepend(t[0], RemoveCasts(t[1..]), RemoveCasts(z));
      if t[0] == '\'' {
        RemoveOne('\'', ['\''] + InQuotes(t[1..], z));
        RemoveOne('\'', InQuotes(t[1..], z));
      } else {
        RemoveOne(t[0], InQuotes(t[1..], z));
      }
    }
  }

  lemma {:induction false} MarginInQuotes(t: string, z: string)
    ensures StripLeft(InQuotes(t, z)) == InQuotes(StripLeft(t), z)
  {
    InQuotesStep(t, z);
    if t != "" && IsSpace(t[0]) {
      MarginInQuotes(t[1..], z);
      assert InQuotes(t, z)[1..] == InQuotes(t[1..], z);
    }
  }

  lemma CollapseOne(c: char, s: string)
    requires !IsSpace(c)
    ensures Collapse([c] + s) == [c] + Collapse(s)
  {
    assert ([c] + s)[1..] == s;
  }

  lemma {:induction false} BlanksInQuotes(t: string, z: string)
    ensures Collapse(InQuotes(t, z)) == InQuotes(Collapse(t), Collapse(z))
    decreases |t|
  {
    InQuotesStep(t, z);
    if t == "" {
      CollapseOne('\'', z);
      InQuotesStep("", Collapse(z));
    } else if IsSpace(t[0]) {
      StripLeftShorter(t);
      MarginInQuotes(t, z);
      BlanksInQuotes(StripLeft(t), z);
      InQuotesPrepend(' ', Collapse(StripLeft(t)), Collapse(z));
    } else {
      BlanksInQuotes(t[1..], z);
      InQuotesPrepend(t[0], Collapse(t[1..]), Collapse(z));
      if t[0] == '\'' {
        CollapseOne('\'', ['\''] + InQuotes(t[1..], z));
        CollapseOne('\'', InQuotes(t[1..], z));
      } else {
        CollapseOne(t[0], InQuotes(t[1..], z));
      }
    }
  }

  lemma ClearInQuotes(t: string, z: string)
    ensures Clear(['\''] + InQuotes(t, z)) == ['\''] + InQuotes(Clear(t), Clear(z))
  {
    CastsInQuotes(t, z);
    RemoveOne('\'', InQuotes(t, z));
    BlanksInQuotes(RemoveCasts(t), RemoveCasts(z));
    CollapseOne('\'', InQuotes(RemoveCasts(t), RemoveCasts(z)));
  }

  lemma CastGoes(kind: string, rest: string)
    requires TypeName(kind) && Stops(rest)
    ensures Clear(CastText(kind, true) + rest) == Clear(rest)
  {
    CastVanishes(kind, rest);
  }

  lemma QuoteOpens(l: Literal, z: string)
    ensures Quote(l) + z == ['\''] + InQuotes(l.text, z)
  {
  }

  lemma LiteralUncast(l: Literal, rest: string)
    requires TypeName(l.kind) && Stops(rest)
    ensures Becomes(LiteralText(l, true), LiteralText(Tame(l), false), rest)
  {
    var z := CastText(l.kind, true) + rest;
    QuoteOpens(l, z);
    assert LiteralText(l, true) + rest == Quote(l) + z;
    ClearInQuotes(l.text, z);
    CastGoes(l.kind, rest);
    QuoteOpens(Tame(l), Clear(rest));
    assert LiteralText(Tame(l), false) == Quote(Tame(l));
  }

  lemma LiteralsOpen(ls: seq<Literal>)
    requires ls != []
    ensures LiteralsText(ls, true) != "" && LiteralsText(ls, true)[0] == '\''
  {
  }

  lemma {:induction false} LiteralsUncast(ls: seq<Literal>, rest: string)
    requires (forall i :: 0 <= i < |ls| ==> TypeName(ls[i].kind)) && Stops(rest)
    ensures Becomes(LiteralsText(ls, true), LiteralsText(TameAll(ls), false), rest)
  {
    if |ls| == 0 {
      assert "" + rest == rest && "" + Clear(rest) == Clear(rest);
    } else if |ls| == 1 {
      LiteralUncast(ls[0], rest);
    } else {
      assert TameAll(ls)[1..] == TameAll(ls[1..]);
      var more, less := LiteralsText(ls[1..], true), LiteralsText(TameAll(ls[1..]), false);
      LiteralsUncast(ls[1..], rest);
      InertWithoutColon(", ");
      LiteralsOpen(ls[1..]);
      Stays(", ", more + rest);
      Then(", ", ", ", more, less, rest);
      LiteralUncast(ls[0], ", " + more + rest);
      Then(LiteralText(ls[0], true), LiteralText(Tame(ls[0]), false), ", " + more, ", " + less, rest);
      Together(LiteralText(ls[0], true), ", ", more);
      Together(LiteralText(Tame(ls[0]), false), ", ", less);
    }
  }

  lemma NumeralLacks(s: string)
    requires Numeral(s)
    ensures Lacks(s, ':') && Lacks(s, '(') && Lacks(s, ')') && Lacks(s, ' ') && Lacks(s, '\'') && Neat(s) && Quiet(s)
  {
    assert forall i :: 0 <= i < |s| ==> Digit(s[i]) || s[i] == '.' || s[i] == '-';
    InertWithoutColon(s);
    BalancedWithout(s);
  }

  lemma CastBehindGoes(p: string, kind: string, rest: string)
    requires Inert(p) && Calm(p) && p != "" && !IsSpace(p[|p| - 1]) && TypeName(kind) && Stops(rest)
    ensures Becomes(p + CastText(kind, true), p, rest)
  {
    var z := CastText(kind, true) + rest;
    CastVanishes(kind, rest);
    InertStays(p, z);
    CalmPasses(p, RemoveCasts(rest));
    assert p + CastText(kind, true) + rest == p + z;
  }

  lemma NumberUncast(n: Number, rest: string)
    requires CleanNumber(n) && Stops(rest)
    ensures Becomes(NumberText(n, true), NumberText(n, false), rest)
    ensures Firm(NumberText(n, true) + rest)
  {
    NumeralLacks(n.digits);
    if n.kind.None? {
      Stays(n.digits, rest);
    } else {
      var p := Parens(n.digits);
      InertWithoutColon(p);
      NeatParens(n.digits);
      CastBehindGoes(p, n.kind.value, rest);
      assert NumberText(n, true) == p + CastText(n.kind.value, true);
      assert NumberText(n, false) == p + "" == p;
    }
  }

  lemma NeatParens(s: string)
    requires Neat(s)
    ensures Neat(Parens(s))
  {
    var p := Parens(s);
    assert forall i :: 0 <= i < |p| ==> p[i] == if i == 0 then '(' else if i <= |s| then s[i - 1] else ')';
  }

  lemma NeatName(subject: string)
    requires Name(subject)
    ensures Neat(subject) && Lacks(subject, ':') && Lacks(subject, '(') && Lacks(subject, ')') && Lacks(subject, '\'')
  {
    assert forall i :: 0 <= i < |subject| ==> Word(subject[i]);
  }

  /** The subject and an operator in front of an operand. */
  lemma OperandUncast(subject: string, operator: string, a: string, b: string, rest: string)
    requires Name(subject) && Lacks(operator, ':') && Calm(operator) && operator != "" && Becomes(a, b, rest)
    requires Firm(a + rest) || !IsSpace(operator[|operator| - 1])
    ensures Becomes(subject + operator + a, subject + operator + b, rest)
  {
    var s := subject + operator;
    NeatName(subject);
    InertWithoutColon(s);
    assert forall i :: 0 <= i < |s| ==> s[i] == if i < |subject| then subject[i] else operator[i - |subject|];
    Stays(s, a + rest);
    Then(s, s, a, b, rest);
  }

  lemma ParensUncast(a: string, b: string, rest: string)
    requires Becomes(a, b, ")" + rest)
    ensures Becomes(Parens(a), Parens(b), rest)
  {
    InertWithoutColon("(");
    InertWithoutColon(")");
    Stays(")", rest);
    Then(a, b, ")", ")", rest);
    Stays("(", a + ")" + rest);
    Then("(", "(", a + ")", b + ")", rest);
    assert Parens(a) == "(" + (a + ")") && Parens(b) == "(" + (b + ")");
  }

  lemma OneOfUncast(ls: seq<Literal>, subject: string, rest: string)
    requires Name(subject) && (forall i :: 0 <= i < |ls| ==> TypeName(ls[i].kind))
    ensures Becomes(Printed(OneOf(ls), subject, true), Plain(OneOf(TameAll(ls)), subject), rest)
  {
    LiteralsUncast(ls, "])" + rest);
    BracketUncast(subject, LiteralsText(ls, true), LiteralsText(TameAll(ls), false), rest);
  }

  lemma ArrayOperator(subject: string)
    ensures Lacks(" = ANY (ARRAY[", ':') && Calm(" = ANY (ARRAY[")
    ensures Inert("])") && Calm("])")
  {
    InertWithoutColon("])");
  }

  lemma BracketUncast(subject: string, more: string, less: string, rest: string)
    requires Name(subject) && Becomes(more, less, "])" + rest)
    ensures Becomes(subject + " = ANY (ARRAY[" + more + "])", subject + " = ANY (ARRAY[" + less + "])", rest)
  {
    var p, q, open := more + "])", less + "])", " = ANY (ARRAY[";
    ArrayOperator(subject);
    Stays("])", rest);
    Then(more, less, "])", "])", rest);
    OperandUncast(subject, open, p, q, rest);
    Together(subject + open, more, "])");
    Together(subject + open, less, "])");
  }

  lemma ListUncast(h0: string, h1: string, sep: string, t0: string, t1: string, rest: string)
    requires sep in {" AND ", " OR "} && t0 != "" && t0[0] == '('
    requires Becomes(h0, h1, ")" + (sep + t0 + rest)) && Becomes(t0, t1, rest)
    ensures Becomes(Parens(h0) + sep + t0, Parens(h1) + sep + t1, rest)
  {
    InertWithoutColon(sep);
    Stays(sep, t0 + rest);
    Then(sep, sep, t0, t1, rest);
    ParensUncast(h0, h1, sep + t0 + rest);
    Then(Parens(h0), Parens(h1), sep + t0, sep + t1, rest);
    Together(Parens(h0), sep, t0);
    Together(Parens(h1), sep, t1);
  }

  lemma Together(a: string, b: string, c: string)
    ensures a + b + c == a + (b + c)
  {
  }

  function Plain(e: Check, subject: string): string { Printed(e, subject, false) }

  lemma QuoteUncast(subject: string, operator: string, l: Literal, rest: string)
    requires Name(subject) && TypeName(l.kind) && Stops(rest) && operator in {" ~ ", " = "}
    ensures Becomes(subject + operator + LiteralText(l, true), subject + operator + LiteralText(Tame(l), false), rest)
  {
    LiteralUncast(l, rest);
    assert LiteralText(l, true)[0] == '\'';
    OperandUncast(subject, operator, LiteralText(l, true), LiteralText(Tame(l), false), rest);
  }

  lemma BoundUncast(subject: string, operator: string, n: Number, rest: string)
    requires Name(subject) && CleanNumber(n) && Stops(rest) && operator in {" >= ", " <= ", " > "}
    ensures Becomes(subject + operator + NumberText(n, true), subject + operator + NumberText(n, false), rest)
  {
    NumberUncast(n, rest);
    OperandUncast(subject, operator, NumberText(n, true), NumberText(n, false), rest);
  }

  lemma MissingUncast(subject: string, rest: string)
    requires Name(subject)
    ensures Becomes(subject + " IS NULL", subject + " IS NULL", rest)
  {
    NeatName(subject);
    InertWithoutColon("NULL");
    Stays("NULL", rest);
    OperandUncast(subject, " IS ", "NULL", "NULL", rest);
    assert subject + " IS " + "NULL" == subject + " IS NULL";
  }

  lemma {:induction false} Uncast(e: Check, subject: string, rest: string)
    requires Name(subject) && Clean(e, subject) && Stops(rest)
    ensures Becomes(Printed(e, subject, true), Plain(Tamed(e), subject), rest)
    decreases e
  {
    match e
    case Matches(l) => QuoteUncast(subject, " ~ ", l, rest);
    case OneOf(ls) => OneOfUncast(ls, subject, rest);
    case Is(l) => QuoteUncast(subject, " = ", l, rest);
    case AtLeast(n) => BoundUncast(subject, " >= ", n, rest);
    case AtMost(n) => BoundUncast(subject, " <= ", n, rest);
    case Above(n) => BoundUncast(subject, " > ", n, rest);
    case Missing => MissingUncast(subject, rest);
    case All(h, t) =>
      AllUncast(t, " AND ", subject, rest);
      Uncast(h, subject, ")" + (" AND " + PrintedAll(t, " AND ", subject, true) + rest));
      ListUncast(Printed(h, subject, true), Plain(Tamed(h), subject), " AND ",
                 PrintedAll(t, " AND ", subject, true), PrintedAll(TamedAll(t), " AND ", subject, false), rest);
    case Any(h, t) =>
      AllUncast(t, " OR ", subject, rest);
      Uncast(h, subject, ")" + (" OR " + PrintedAll(t, " OR ", subject, true) + rest));
      ListUncast(Printed(h, subject, true), Plain(Tamed(h), subject), " OR ",
                 PrintedAll(t, " OR ", subject, true), PrintedAll(TamedAll(t), " OR ", subject, false), rest);
    case Not(p) =>
      Uncast(p, subject, ")" + rest);
      ParensUncast(Printed(p, subject, true), Plain(Tamed(p), subject), rest);
      InertWithoutColon("NOT ");
      Stays("NOT ", Parens(Printed(p, subject, true)) + rest);
      Then("NOT ", "NOT ", Parens(Printed(p, subject, true)), Parens(Plain(Tamed(p), subject)), rest);
    case Other(text) => Stays(text, rest);
  }

  lemma {:induction false} AllUncast(es: Checks, sep: string, subject: string, rest: string)
    requires Name(subject) && CleanAll(es, subject) && Stops(rest) && sep in {" AND ", " OR "}
    ensures Becomes(PrintedAll(es, sep, subject, true), PrintedAll(TamedAll(es), sep, subject, false), rest)
    ensures PrintedAll(es, sep, subject, true) != "" && PrintedAll(es, sep, subject, true)[0] == '('
    decreases es
  {
    var h0, h1 := Printed(es.check, subject, true), Plain(Tamed(es.check), subject);
    PrintedParts(es, sep, subject, true);
    PrintedParts(TamedAll(es), sep, subject, false);
    if es.Last? {
      Uncast(es.check, subject, ")" + rest);
      ParensUncast(h0, h1, rest);
    } else {
      var t0, t1 := PrintedAll(es.rest, sep, subject, true), PrintedAll(TamedAll(es.rest), sep, subject, false);
      AllUncast(es.rest, sep, subject, rest);
      Uncast(es.check, subject, ")" + (sep + t0 + rest));
      ListUncast(h0, h1, sep, t0, t1, rest);
    }
  }

  lemma PrintedParts(es: Checks, sep: string, subject: string, casts: bool)
    ensures es.Last? ==> PrintedAll(es, sep, subject, casts) == Parens(Printed(es.check, subject, casts))
    ensures es.More? ==> PrintedAll(es, sep, subject, casts)
                         == Parens(Printed(es.check, subject, casts)) + sep + PrintedAll(es.rest, sep, subject, casts)
  {
  }

  // ---------------------------------------------------------------------------
  // With paired parentheses the cleared text is in normal form
  // ---------------------------------------------------------------------------

  predicate Tidy(s: string) { Neat(s) && Balanced(s) }

  lemma TidyConcat(a: string, b: string)
    requires Tidy(a) && Tidy(b)
    ensures Tidy(a + b) && Tidy(a + " " + b)
  {
    NeatConcat(a, b);
    BalancedConcat(a, b);
    BalancedWithout(" ");
    BalancedConcat(a, " ");
    BalancedConcat(a + " ", b);
  }

  /** Words with a blank on either side. */
  lemma TidyBetween(a: string, word: string, b: string)
    requires Tidy(a) && Tidy(word) && Tidy(b)
    ensures Tidy(a + (" " + word + " ") + b)
  {
    TidyConcat(a, word);
    TidyConcat(a + " " + word, b);
    assert a + (" " + word + " ") + b == a + " " + word + " " + b;
  }

  lemma TidyPlain(s: string)
    requires s != "" && Lacks(s, '(') && Lacks(s, ')')
    requires forall i :: 0 <= i < |s| ==> !IsSpace(s[i])
    ensures Tidy(s)
  {
    BalancedWithout(s);
  }

  lemma TidyParens(s: string)
    requires Tidy(s)
    ensures Tidy(Parens(s))
  {
    ParensBalanced(s);
    NeatParens(s);
  }

  lemma {:induction false} EscapeKeepsProfile(s: string)
    ensures SameProfile(Escape(s), s)
  {
    if s != "" {
      EscapeKeepsProfile(s[1..]);
      var front := if s[0] == '\'' then "''" else [s[0]];
      if s[0] == '\'' {
        ProfileFlat(front, "'");
      }
      ProfileConcat(front, [s[0]], Escape(s[1..]), s[1..]);
      assert s == [s[0]] + s[1..];
    }
  }

  lemma CalmConcat(a: string, b: string)
    requires Calm(a) && Calm(b) && (a != "" && b != "" && IsSpace(a[|a| - 1]) ==> !IsSpace(b[0]))
    ensures Calm(a + b)
  {
    var s := a + b;
    assert forall i :: 0 <= i < |s| ==> s[i] == if i < |a| then a[i] else b[i - |a|];
  }

  lemma {:induction false} EscapeKeepsCalm(s: string)
    requires Calm(s)
    ensures Calm(Escape(s)) && (s != "" ==> Escape(s) != "" && Escape(s)[0] == s[0])
  {
    if s != "" {
      var rest := s[1..];
      EscapeKeepsCalm(rest);
      assert rest != "" ==> rest[0] == s[1];
      assert rest == "" ==> Escape(rest) == "";
      CalmConcat(if s[0] == '\'' then "''" else [s[0]], Escape(rest));
    }
  }

  lemma QuoteTidy(l: Literal)
    requires Orderly(l.text)
    ensures Tidy(Quote(l)) && Tidy(LiteralText(l, false))
  {
    var x := Escape(l.text);
    EscapeKeepsProfile(l.text);
    EscapeKeepsCalm(l.text);
    BalancedWithout("'");
    BalancedConcat("'", x);
    BalancedConcat("'" + x, "'");
    assert forall i :: 0 <= i < |Quote(l)| ==> Quote(l)[i] == if 0 < i <= |x| then x[i - 1] else '\'';
    assert LiteralText(l, false) == Quote(l);
  }

  lemma CommaTidy(a: string, b: string)
    requires Tidy(a) && Tidy(b)
    ensures Tidy(a + ", " + b)
  {
    TidyPlain(",");
    TidyConcat(a, ",");
    TidyConcat(a + ",", b);
    assert a + ", " + b == a + "," + " " + b;
  }

  lemma {:induction false} LiteralsTidy(ls: seq<Literal>)
    requires forall i :: 0 <= i < |ls| ==> Orderly(ls[i].text)
    ensures ls != [] ==> Tidy(LiteralsText(ls, false))
  {
    if |ls| > 0 {
      QuoteTidy(ls[0]);
      if |ls| > 1 {
        LiteralsTidy(ls[1..]);
        CommaTidy(LiteralText(ls[0], false), LiteralsText(ls[1..], false));
      }
    }
  }

  lemma NumberTidy(n: Number)
    requires CleanNumber(n)
    ensures Tidy(NumberText(n, false))
  {
    NumeralLacks(n.digits);
    if n.kind.Some? {
      TidyParens(n.digits);
      assert NumberText(n, false) == Parens(n.digits);
    }
  }

  lemma BracketTidy(s: string)
    requires s == "" || Tidy(s)
    ensures Tidy(Parens("ARRAY[" + s + "]"))
  {
    TidyPlain("ARRAY[");
    TidyPlain("]");
    TidyConcat("ARRAY[", "]");
    assert "ARRAY[" + "" + "]" == "ARRAY[" + "]";
    if s != "" {
      TidyConcat("ARRAY[", s);
      TidyConcat("ARRAY[" + s, "]");
    }
    TidyParens("ARRAY[" + s + "]");
  }

  lemma NameTidy(subject: string)
    requires Name(subject)
    ensures Tidy(subject)
  {
    assert forall i :: 0 <= i < |subject| ==> Word(subject[i]);
    TidyPlain(subject);
  }

  lemma OperandTidy(subject: string, operator: string, spaced: string, operand: string)
    requires Name(subject) && Tidy(operand)
    requires operator != "" && Lacks(operator, '(') && Lacks(operator, ')') && spaced == " " + operator + " "
    requires forall i :: 0 <= i < |operator| ==> !IsSpace(operator[i])
    ensures Tidy(subject + spaced + operand)
  {
    NameTidy(subject);
    TidyPlain(operator);
    TidyBetween(subject, operator, operand);
  }

  lemma LiteralOperand(subject: string, l: Literal)
    requires Name(subject) && Orderly(l.text)
    ensures Tidy(subject + " ~ " + LiteralText(l, false)) && Tidy(subject + " = " + LiteralText(l, false))
  {
    QuoteTidy(l);
    OperandTidy(subject, "~", " ~ ", LiteralText(l, false));
    OperandTidy(subject, "=", " = ", LiteralText(l, false));
  }

  lemma NumberOperand(subject: string, n: Number)
    requires Name(subject) && CleanNumber(n)
    ensures Tidy(subject + " >= " + NumberText(n, false)) && Tidy(subject + " <= " + NumberText(n, false))
    ensures Tidy(subject + " > " + NumberText(n, false))
  {
    NumberTidy(n);
    OperandTidy(subject, ">=", " >= ", NumberText(n, false));
    OperandTidy(subject, "<=", " <= ", NumberText(n, false));
    OperandTidy(subject, ">", " > ", NumberText(n, false));
  }

  lemma MissingTidy(subject: string)
    requires Name(subject)
    ensures Tidy(subject + " IS NULL")
  {
    TidyPlain("NULL");
    OperandTidy(subject, "IS", " IS ", "NULL");
    assert subject + " IS " + "NULL" == subject + " IS NULL";
  }

  lemma AtomTidy(e: Check, subject: string)
    requires Name(subject) && Clean(e, subject) && EveryText(e, Orderly) && !e.All? && !e.Any? && !e.Not?
    ensures Tidy(Plain(e, subject))
  {
    match e
    case Matches(l) => LiteralOperand(subject, l);
    case OneOf(ls) => OneOfTidy(ls, subject);
    case Is(l) => LiteralOperand(subject, l);
    case AtLeast(n) => NumberOperand(subject, n);
    case AtMost(n) => NumberOperand(subject, n);
    case Above(n) => NumberOperand(subject, n);
    case Missing => MissingTidy(subject);
    case Other(text) =>
  }

  lemma AnyTidy(list: string)
    requires Tidy(list)
    ensures Tidy("ANY " + list)
  {
    TidyPlain("ANY");
    TidyConcat("ANY", list);
    assert "ANY" + " " + list == "ANY " + list;
  }

  lemma ListTidy(ls: seq<Literal>)
    requires forall i :: 0 <= i < |ls| ==> Orderly(ls[i].text)
    ensures Tidy("ANY " + Parens("ARRAY[" + LiteralsText(ls, false) + "]"))
  {
    LiteralsTidy(ls);
    BracketTidy(LiteralsText(ls, false));
    AnyTidy(Parens("ARRAY[" + LiteralsText(ls, false) + "]"));
  }

  lemma ListInPlace(subject: string, inner: string)
    ensures subject + " = " + ("ANY " + Parens("ARRAY[" + inner + "]")) == subject + " = ANY (ARRAY[" + inner + "])"
  {
    assert "ANY " + Parens("ARRAY[" + inner + "]") == "ANY (ARRAY[" + inner + "])";
    assert " = " + "ANY (ARRAY[" == " = ANY (ARRAY[";
  }

  lemma OneOfTidy(ls: seq<Literal>, subject: string)
    requires Name(subject) && forall i :: 0 <= i < |ls| ==> Orderly(ls[i].text)
    ensures Tidy(Plain(OneOf(ls), subject))
  {
    ListTidy(ls);
    OperandTidy(subject, "=", " = ", "ANY " + Parens("ARRAY[" + LiteralsText(ls, false) + "]"));
    ListInPlace(subject, LiteralsText(ls, false));
  }

  lemma SepTidy(sep: string, a: string, b: string)
    requires sep in {" AND ", " OR "} && Tidy(a) && Tidy(b)
    ensures Tidy(a + sep + b)
  {
    TidyPlain("AND");
    TidyPlain("OR");
    TidyBetween(a, if sep == " AND " then "AND" else "OR", b);
    assert " " + "AND" + " " == " AND " && " " + "OR" + " " == " OR ";
  }

  lemma {:induction false} PlainTidy(e: Check, subject: string)
    requires Name(subject) && Clean(e, subject) && EveryText(e, Orderly)
    ensures Tidy(Plain(e, subject))
    decreases e
  {
    match e
    case All(h, t) =>
      PlainTidy(h, subject);
      TidyParens(Plain(h, subject));
      AllTidy(t, " AND ", subject);
      SepTidy(" AND ", Parens(Plain(h, subject)), PrintedAll(t, " AND ", subject, false));
    case Any(h, t) =>
      PlainTidy(h, subject);
      TidyParens(Plain(h, subject));
      AllTidy(t, " OR ", subject);
      SepTidy(" OR ", Parens(Plain(h, subject)), PrintedAll(t, " OR ", subject, false));
    case Not(p) =>
      PlainTidy(p, subject);
      TidyParens(Plain(p, subject));
      TidyPlain("NOT");
      TidyConcat("NOT", Parens(Plain(p, subject)));
      assert Plain(e, subject) == "NOT" + " " + Parens(Plain(p, subject));
    case _ => AtomTidy(e, subject);
  }

  lemma {:induction false} AllTidy(es: Checks, sep: string, subject: string)
    requires Name(subject) && CleanAll(es, subject) && EveryTextOf(es, Orderly) && sep in {" AND ", " OR "}
    ensures Tidy(PrintedAll(es, sep, subject, false))
    decreases es
  {
    PlainTidy(es.check, subject);
    TidyParens(Plain(es.check, subject));
    PrintedParts(es, sep, subject, false);
    if es.More? {
      AllTidy(es.rest, sep, subject);
      SepTidy(sep, Parens(Plain(es.check, subject)), PrintedAll(es.rest, sep, subject, false));
    }
  }

  // ---------------------------------------------------------------------------
  // So the reader sees the inside of the check, cleared
  // ---------------------------------------------------------------------------

  lemma ListSettled(h: string, sep: string, t: string)
    requires Balanced(h) && Tidy(Parens(h) + sep + t) && sep != ""
    ensures Unwrapped(Parens(h) + sep + t) == Parens(h) + sep + t
  {
    var s := Parens(h) + sep + t;
    StripKeeps(s);
    ParensBalanced(h);
    assert s[..|Parens(h)|] == Parens(h);
    assert ClosesAt(s, |Parens(h)| - 1);
  }

  /** No parentheses are left to drop. */
  lemma PlainSettled(e: Check, subject: string)
    requires Name(subject) && Clean(e, subject) && EveryText(e, Orderly)
    ensures Unwrapped(Plain(e, subject)) == Plain(e, subject)
  {
    var s := Plain(e, subject);
    PlainTidy(e, subject);
    StripKeeps(s);
    match e
    case All(h, t) =>
      PlainTidy(h, subject);
      ListSettled(Plain(h, subject), " AND ", PrintedAll(t, " AND ", subject, false));
    case Any(h, t) =>
      PlainTidy(h, subject);
      ListSettled(Plain(h, subject), " OR ", PrintedAll(t, " OR ", subject, false));
    case Not(p) => assert s[0] == 'N';
    case Other(text) =>
    case _ => assert s[0] == subject[0] && Word(subject[0]);
  }

  lemma DefinitionText(x: string)
    ensures var d := "CHECK " + Parens(x); Trim(d) && SaysCheck(d) && d[6..] == Parens(x)
    ensures Trim(Parens(x))
  {
    var d := "CHECK " + Parens(x);
    assert d[0] == 'C' && d[1] == 'H' && d[2] == 'E' && d[3] == 'C' && d[4] == 'K' && d[5] == ' ';
    assert d[|d| - 1] == ')' && d[6..] == Parens(x);
  }

  lemma NormalText(x: string, p: string)
    requires Clear(Parens(x)) == Parens(p)
    ensures Normalise("CHECK " + Parens(x)) == Parens(p)
  {
    DefinitionText(x);
    StripKeeps("CHECK " + Parens(x));
    StripKeeps(Parens(x));
    StripKeeps(Parens(p));
  }

  /** Normalising a printed definition clears every quoted text of casts and runs of blanks and
      the rest of all casts, and does nothing else, whatever the quoted texts are. */
  lemma NormalDefinition(e: Check, subject: string)
    requires Name(subject) && Clean(e, subject)
    ensures Normalise(Definition(e, subject)) == Parens(Parens(Plain(Tamed(e), subject)))
  {
    var x, p := Printed(e, subject, true), Plain(Tamed(e), subject);
    Uncast(e, subject, ")" + (")" + ""));
    ParensUncast(x, p, ")" + "");
    ParensUncast(Parens(x), Parens(p), "");
    assert Parens(Parens(x)) + "" == Parens(Parens(x)) && Parens(Parens(p)) + Clear("") == Parens(Parens(p));
    NormalText(Parens(x), Parens(p));
  }

  /** Where quoted parentheses pair up, dropping the outer ones gives the cleared check. */
  lemma BodyOfDefinition(e: Check, subject: string)
    requires Name(subject) && Clean(e, subject) && Paired(e)
    ensures Unwrapped(Normalise(Definition(e, subject))) == Plain(Tamed(e), subject)
  {
    var p := Plain(Tamed(e), subject);
    NormalDefinition(e, subject);
    TamedIsClean(e, subject);
    PlainTidy(Tamed(e), subject);
    TidyParens(p);
    Unwrap(Parens(p));
    Unwrap(p);
    PlainSettled(Tamed(e), subject);
  }

  // ---------------------------------------------------------------------------
  // What the reader makes of each form
  // ---------------------------------------------------------------------------

  function Texts(ls: seq<Literal>): seq<string> {
    seq(|ls|, i requires 0 <= i < |ls| => ls[i].text)
  }

  /** The shape of a check, read off its structure instead of its text. */
  function ShapeOf(db: Database, e: Check, isInteger: bool): Option<Shape> {
    match e
    case Matches(l) => Some(NO_SHAPE.(pattern := Some(Escape(l.text))))
    case OneOf(ls) => if ls == [] then None else Some(NO_SHAPE.(allowed := Some(Texts(ls))))
    case Is(l) => Some(NO_SHAPE.(allowed := Some([l.text])))
    case AtLeast(n) => Some(NO_SHAPE.(min := Some(db.decimal(n.digits))))
    case AtMost(n) => Some(NO_SHAPE.(max := Some(db.decimal(n.digits))))
    case Above(n) => if isInteger && Whole(n.digits) then Some(NO_SHAPE.(min := Some(db.decimal(n.digits) + 1.0))) else None
    case All(AtLeast(a), Last(AtMost(b))) => Some(NO_SHAPE.(min := Some(db.decimal(a.digits)), max := Some(db.decimal(b.digits))))
    case _ => None
  }

  datatype Operator = Tilde | AnyArray | Equal | Ge | Le | Gt | IsNull

  function OpText(op: Operator): string {
    match op
    case Tilde => " ~ '"
    case AnyArray => " = ANY (ARRAY["
    case Equal => " = '"
    case Ge => " >= "
    case Le => " <= "
    case Gt => " > "
    case IsNull => " IS NULL"
  }

  function OpOf(e: Check): Option<Operator> {
    match e
    case Matches(_) => Some(Tilde)
    case OneOf(_) => Some(AnyArray)
    case Is(_) => Some(Equal)
    case AtLeast(_) => Some(Ge)
    case AtMost(_) => Some(Le)
    case Above(_) => Some(Gt)
    case Missing => Some(IsNull)
    case _ => None
  }

  function Operand(e: Check): string
    requires OpOf(e).Some?
  {
    match e
    case Matches(l) => Escape(l.text) + "'"
    case OneOf(ls) => LiteralsText(ls, false) + "])"
    case Is(l) => Escape(l.text) + "'"
    case AtLeast(n) => NumberText(n, false)
    case AtMost(n) => NumberText(n, false)
    case Above(n) => NumberText(n, false)
    case Missing => ""
  }

  lemma Regroup(a: string, b: string, c: string, d: string)
    ensures a + b + (c + d) == a + (b + c) + d
    ensures a + b + c + d == a + b + (c + d)
  {
  }

  lemma QuoteSplits(subject: string, l: Literal)
    ensures subject + " ~ " + LiteralText(l, false) == subject + " ~ '" + (Escape(l.text) + "'")
    ensures subject + " = " + LiteralText(l, false) == subject + " = '" + (Escape(l.text) + "'")
  {
    var tail := Escape(l.text) + "'";
    assert LiteralText(l, false) == "'" + tail;
    Regroup(subject, " ~ ", "'", tail);
    Regroup(subject, " = ", "'", tail);
    assert " ~ " + "'" == " ~ '" && " = " + "'" == " = '";
  }

  lemma PlainSplits(e: Check, subject: string)
    requires OpOf(e).Some?
    ensures Plain(e, subject) == subject + OpText(OpOf(e).value) + Operand(e)
  {
    match e
    case Matches(l) => QuoteSplits(subject, l);
    case Is(l) => QuoteSplits(subject, l);
    case OneOf(ls) => Regroup(subject, " = ANY (ARRAY[", LiteralsText(ls, false), "])");
    case _ =>
  }

  lemma StartsAgree(s: string, p: string)
    ensures Starts(s, p) <==> |p| <= |s| && forall i :: 0 <= i < |p| ==> s[i] == p[i]
  {
  }

  lemma StartsAfter(a: string, s: string, p: string)
    ensures Starts(a + s, a + p) <==> Starts(s, p)
  {
    StartsAgree(a + s, a + p);
    StartsAgree(s, p);
    assert forall i :: 0 <= i < |s| ==> (a + s)[|a| + i] == s[i];
    assert forall i :: 0 <= i < |p| ==> (a + p)[|a| + i] == p[i];
    if Starts(a + s, a + p) {
      forall i | 0 <= i < |p| ensures s[i] == p[i] {
        assert (a + s)[|a| + i] == (a + p)[|a| + i];
      }
    }
  }

  lemma OperatorsDiffer(one: Operator, x: string, two: Operator)
    ensures Starts(OpText(one) + x, OpText(two)) <==> one == two
  {
    var s, p := OpText(one) + x, OpText(two);
    StartsAgree(s, p);
    assert s[0] == ' ' && s[1] == OpText(one)[1] && s[2] == OpText(one)[2];
    if one in {AnyArray, Equal} && two in {AnyArray, Equal} && one != two {
      assert s[3] == OpText(one)[3];
    }
  }

  lemma NotIsNoName(x: string, subject: string, op: Operator)
    requires Name(subject)
    ensures !Starts("NOT (" + x, subject + OpText(op))
  {
    var s, p, n := "NOT (" + x, subject + OpText(op), |subject|;
    StartsAgree(s, p);
    assert p[n] == ' ';
    assert forall i :: 0 <= i < n ==> p[i] == subject[i];
    assert n > 3 ==> Word(subject[3]);
    assert s[0] == 'N' && s[1] == 'O' && s[2] == 'T' && s[3] == ' ';
    assert n == 3 && subject[0] == 'N' && subject[1] == 'O' && subject[2] == 'T' ==> subject == "NOT";
  }

  /** A plain check starts with the subject and an operator exactly when that is its form. */
  lemma PlainStarts(e: Check, subject: string, op: Operator)
    requires Name(subject) && Clean(e, subject)
    ensures Starts(Plain(e, subject), subject + OpText(op)) <==> OpOf(e) == Some(op)
  {
    if OpOf(e).Some? {
      AtomStarts(e, subject, op);
    } else if e.Other? {
      ForeignStarts(e.text, subject, op);
    } else if e.Not? {
      NotIsNoName(Plain(e.part, subject) + ")", subject, op);
      assert Plain(e, subject) == "NOT (" + (Plain(e.part, subject) + ")");
    } else {
      ListStarts(e, subject, op);
    }
  }

  lemma AtomStarts(e: Check, subject: string, op: Operator)
    requires OpOf(e).Some?
    ensures Starts(Plain(e, subject), subject + OpText(op)) <==> OpOf(e) == Some(op)
  {
    PlainSplits(e, subject);
    var rest := OpText(OpOf(e).value) + Operand(e);
    OperatorsDiffer(OpOf(e).value, Operand(e), op);
    StartsAfter(subject, rest, OpText(op));
    assert Plain(e, subject) == subject + rest;
  }

  lemma ListStarts(e: Check, subject: string, op: Operator)
    requires Name(subject) && (e.All? || e.Any?)
    ensures !Starts(Plain(e, subject), subject + OpText(op))
  {
    var s, p := Plain(e, subject), subject + OpText(op);
    StartsAgree(s, p);
    assert p[0] == subject[0] && Word(subject[0]);
    assert s[0] == '(';
  }

  lemma StartsShorter(s: string, p: string, q: string)
    requires Starts(s, p + q)
    ensures Starts(s, p)
  {
    assert s[..|p|] == s[..|p + q|][..|p|];
  }

  lemma ForeignStarts(text: string, subject: string, op: Operator)
    requires Foreign(text, subject)
    ensures !Starts(text, subject + OpText(op))
  {
    if Starts(text, subject + OpText(op)) {
      match op
      case Tilde =>
        assert subject + OpText(op) == subject + " ~ " + "'";
        StartsShorter(text, subject + " ~ ", "'");
      case AnyArray =>
        assert subject + OpText(op) == subject + " = " + "ANY (ARRAY[";
        StartsShorter(text, subject + " = ", "ANY (ARRAY[");
      case Equal =>
        assert subject + OpText(op) == subject + " = " + "'";
        StartsShorter(text, subject + " = ", "'");
      case _ =>
    }
  }

  // The four operands

  lemma UnescapeStep(c: char, x: string)
    ensures c != '\'' ==> Unescape([c] + x) == [c] + Unescape(x)
    ensures Unescape("''" + x) == "'" + Unescape(x)
  {
    assert ([c] + x)[1..] == x;
    assert ("''" + x)[2..] == x;
  }

  lemma {:induction false} UnescapeUndoes(t: string)
    ensures Unescape(Escape(t)) == t
  {
    if t != "" {
      UnescapeUndoes(t[1..]);
      UnescapeStep(t[0], Escape(t[1..]));
      assert t == [t[0]] + t[1..];
    }
  }

  lemma {:induction false} CloseEscaped(t: string, post: string)
    requires post == "" || post[0] != '\''
    ensures Close(Escape(t) + "'" + post) == Some(|Escape(t)|)
  {
    var s := Escape(t) + "'" + post;
    if t == "" {
      assert s == "'" + post;
    } else {
      var rest := Escape(t[1..]) + "'" + post;
      CloseEscaped(t[1..], post);
      if t[0] == '\'' {
        assert s == "''" + rest && s[2..] == rest;
      } else {
        assert s == [t[0]] + rest && s[1..] == rest;
      }
    }
  }

  lemma FindStep(content: string, post: string)
    requires Close(content + "'" + post) == Some(|content|)
    ensures FindAll("'" + (content + "'" + post)) == [content] + FindAll(post)
  {
    var tail := content + "'" + post;
    var s := "'" + tail;
    assert s[1..] == tail && s[0] == '\'';
    assert tail[..|content|] == content;
    assert tail[|content| + 1..] == post;
  }

  lemma FindFirst(l: Literal, post: string)
    requires post == "" || post[0] != '\''
    ensures FindAll(Quote(l) + post) == [Escape(l.text)] + FindAll(post)
  {
    CloseEscaped(l.text, post);
    FindStep(Escape(l.text), post);
    QuoteInFront(Escape(l.text), post);
  }

  lemma QuoteInFront(content: string, post: string)
    ensures "'" + content + "'" + post == "'" + (content + "'" + post)
  {
  }

  function Escapes(ls: seq<Literal>): seq<string> {
    seq(|ls|, i requires 0 <= i < |ls| => Escape(ls[i].text))
  }

  lemma {:induction false} FindsLiterals(ls: seq<Literal>)
    ensures FindAll(LiteralsText(ls, false)) == Escapes(ls)
  {
    if |ls| > 0 {
      var post := if |ls| == 1 then "" else ", " + LiteralsText(ls[1..], false);
      FindFirst(ls[0], post);
      assert LiteralText(ls[0], false) == Quote(ls[0]);
      assert LiteralsText(ls, false) == Quote(ls[0]) + post;
      if |ls| > 1 {
        FindsLiterals(ls[1..]);
        assert post[1..] == " " + LiteralsText(ls[1..], false) && post[1..][1..] == LiteralsText(ls[1..], false);
      }
      assert Escapes(ls) == [Escape(ls[0].text)] + Escapes(ls[1..]);
    }
  }

  lemma UnescapesLiterals(ls: seq<Literal>)
    ensures UnescapeAll(Escapes(ls)) == Texts(ls)
  {
    forall i | 0 <= i < |ls| ensures Unescape(Escapes(ls)[i]) == ls[i].text {
      UnescapeUndoes(ls[i].text);
    }
  }

  lemma BareOf(d: string)
    requires d != "" && Lacks(d, '(') && Lacks(d, ')')
    ensures Bare(d) == d && Bare(Parens(d)) == d
  {
    var p := Parens(d);
    assert d[0] != '(' && d[|d| - 1] != ')';
    assert p[0] == '(' && p[1..] == d + ")";
    assert (d + ")")[..|d|] == d;
  }

  lemma BareNumber(n: Number)
    requires CleanNumber(n)
    ensures Bare(NumberText(n, false)) == n.digits
  {
    NumeralLacks(n.digits);
    BareOf(n.digits);
    if n.kind.Some? {
      assert NumberText(n, false) == Parens(n.digits);
    }
  }

  // Each expression on a plain check

  lemma BetweenMiddle(p: string, m: string, q: string)
    ensures Between(p + (m + q), p, q) == Some(m)
  {
    var s := p + (m + q);
    assert s[..|p|] == p && s[|s| - |q|..] == q && s[|p|..|s| - |q|] == m;
  }

  lemma PatternOf(e: Check, subject: string)
    requires Name(subject) && Clean(e, subject)
    ensures Between(Plain(e, subject), subject + " ~ '", "'") == if e.Matches? then Some(Escape(e.pattern.text)) else None
  {
    PlainStarts(e, subject, Tilde);
    if e.Matches? {
      PlainSplits(e, subject);
      BetweenMiddle(subject + " ~ '", Escape(e.pattern.text), "'");
    }
  }

  lemma AnyOf(e: Check, subject: string)
    requires Name(subject) && Clean(e, subject)
    ensures Between(Plain(e, subject), subject + " = ANY (ARRAY[", "])") == if e.OneOf? then Some(LiteralsText(e.values, false)) else None
  {
    PlainStarts(e, subject, AnyArray);
    if e.OneOf? {
      PlainSplits(e, subject);
      BetweenMiddle(subject + " = ANY (ARRAY[", LiteralsText(e.values, false), "])");
    }
  }

  lemma EqualOf(e: Check, subject: string)
    requires Name(subject) && Clean(e, subject)
    ensures Between(Plain(e, subject), subject + " = '", "'") == if e.Is? then Some(Escape(e.value.text)) else None
  {
    PlainStarts(e, subject, Equal);
    if e.Is? {
      PlainSplits(e, subject);
      BetweenMiddle(subject + " = '", Escape(e.value.text), "'");
    }
  }

  lemma BoundIs(db: Database, prefix: string, n: Number)
    requires CleanNumber(n)
    ensures Bound(db, prefix + NumberText(n, false), prefix) == Some(db.decimal(n.digits))
    ensures Bare((prefix + NumberText(n, false))[|prefix|..]) == n.digits
  {
    var s := prefix + NumberText(n, false);
    assert s[..|prefix|] == prefix && s[|prefix|..] == NumberText(n, false);
    BareNumber(n);
  }

  lemma LowOf(db: Database, e: Check, subject: string)
    requires Name(subject) && Clean(e, subject)
    ensures Bound(db, Plain(e, subject), subject + " >= ") == if e.AtLeast? then Some(db.decimal(e.n.digits)) else None
  {
    PlainStarts(e, subject, Ge);
    if e.AtLeast? {
      BoundIs(db, subject + " >= ", e.n);
    } else {
      NoBound(db, Plain(e, subject), subject + " >= ");
    }
  }

  lemma NoBound(db: Database, body: string, prefix: string)
    requires !Starts(body, prefix)
    ensures Bound(db, body, prefix).None?
  {
  }

  lemma TopOf(db: Database, e: Check, subject: string)
    requires Name(subject) && Clean(e, subject)
    ensures Bound(db, Plain(e, subject), subject + " <= ") == if e.AtMost? then Some(db.decimal(e.n.digits)) else None
  {
    PlainStarts(e, subject, Le);
    if e.AtMost? {
      BoundIs(db, subject + " <= ", e.n);
    } else {
      NoBound(db, Plain(e, subject), subject + " <= ");
    }
  }

  lemma StrictOf(db: Database, e: Check, subject: string)
    requires Name(subject) && Clean(e, subject)
    ensures Starts(Plain(e, subject), subject + " > ") <==> e.Above?
    ensures e.Above? ==> Bare(Plain(e, subject)[|subject| + 3..]) == e.n.digits
  {
    PlainStarts(e, subject, Gt);
    if e.Above? {
      BoundIs(db, subject + " > ", e.n);
    }
  }

  // The range expression, on conjunctions and everything else

  lemma StartsThrough(a: string, tail: string, p: string)
    requires (tail != "" ==> tail[0] == ')') && Lacks(p, ')')
    ensures Starts(a + tail, p) <==> Starts(a, p)
  {
    StartsAgree(a + tail, p);
    StartsAgree(a, p);
    assert forall i :: 0 <= i < |a| ==> (a + tail)[i] == a[i];
    assert tail != "" ==> (a + tail)[|a|] == ')';
    assert tail == "" ==> a + tail == a;
    assert |a| < |p| ==> p[|a|] != ')';
  }

  lemma BracketText(a: string, rest: string, subject: string, op: string)
    ensures Parens(a) + rest == "(" + (a + (")" + rest))
    ensures "(" + subject + op == "(" + (subject + op)
  {
  }

  /** A bracketed plain check starts as its inside does. */
  lemma ParensStarts(e: Check, subject: string, op: Operator, rest: string)
    requires Name(subject) && Clean(e, subject) && Lacks(OpText(op), ')')
    ensures Starts(Parens(Plain(e, subject)) + rest, "(" + subject + OpText(op)) <==> OpOf(e) == Some(op)
  {
    var a, p := Plain(e, subject), subject + OpText(op);
    BracketText(a, rest, subject, OpText(op));
    PlainStarts(e, subject, op);
    LacksClosing(subject, op);
    StartsThrough(a, ")" + rest, p);
    StartsAfter("(", a + (")" + rest), p);
  }

  lemma LacksClosing(subject: string, op: Operator)
    requires Name(subject) && Lacks(OpText(op), ')')
    ensures Lacks(subject + OpText(op), ')')
  {
    assert forall i :: 0 <= i < |subject| ==> Word(subject[i]);
  }

  lemma NoBracket(e: Check, subject: string, p: string)
    requires Name(subject) && Clean(e, subject) && !e.All? && !e.Any? && p != "" && p[0] == '('
    ensures !Starts(Plain(e, subject), p)
  {
    StartsAgree(Plain(e, subject), p);
    if OpOf(e).Some? {
      PlainSplits(e, subject);
      assert Plain(e, subject)[0] == subject[0] && Word(subject[0]);
    }
  }

  /** PrintedAll, from its opening bracket to its closing one. */
  function Joined(es: Checks, sep: string, subject: string): string {
    if es.Last? then Plain(es.check, subject)
    else Plain(es.check, subject) + ")" + sep + "(" + Joined(es.rest, sep, subject)
  }

  lemma {:induction false} AllIsJoined(es: Checks, sep: string, subject: string)
    ensures PrintedAll(es, sep, subject, false) == "(" + Joined(es, sep, subject) + ")"
  {
    if es.More? {
      AllIsJoined(es.rest, sep, subject);
    }
  }

  lemma NumberLacks(n: Number)
    requires CleanNumber(n)
    ensures Lacks(NumberText(n, false), ' ')
  {
    NumeralLacks(n.digits);
    if n.kind.Some? {
      assert NumberText(n, false) == Parens(n.digits);
    }
  }

  lemma RangeText(p: string, number: string, word: string, t: string)
    ensures Parens(p + number) + (" " + word + " ") + ("(" + t + ")") == "(" + p + (number + ")" + " " + (word + " (" + t) + ")")
  {
  }

  /** `(S >= A) AND (...)` divides at the blank behind the first number. */
  lemma RangeDivides(n: Number, word: string, t: string, subject: string)
    requires CleanNumber(n) && Lacks(word, ' ')
    ensures var body := Parens(subject + " >= " + NumberText(n, false)) + (" " + word + " ") + ("(" + t + ")");
            var x := Between(body, "(" + subject + " >= ", ")");
            x.Some? && Cut(x.value, ' ') == Some((NumberText(n, false) + ")", word + " (" + t))
  {
    var a, b := NumberText(n, false) + ")", word + " (" + t;
    NumberLacks(n);
    RangeText(subject + " >= ", NumberText(n, false), word, t);
    assert "(" + (subject + " >= ") == "(" + subject + " >= ";
    BetweenMiddle("(" + subject + " >= ", a + " " + b, ")");
    CutAt(a, ' ', b);
  }

  lemma LowNumber(n: Number)
    requires CleanNumber(n)
    ensures var a := NumberText(n, false) + ")"; a[|a| - 1] == ')' && Bare(a[..|a| - 1]) == n.digits
  {
    var a := NumberText(n, false) + ")";
    assert a[..|a| - 1] == NumberText(n, false);
    BareNumber(n);
  }

  lemma NotNumeral(s: string, i: nat)
    requires 0 < i < |s| - 1 && s[i] == ' '
    ensures !Numeral(Bare(s))
  {
    var t := if s[0] == '(' then s[1..] else s;
    var j := if s[0] == '(' then i - 1 else i;
    assert t[j] == ' ' && j < |t| - 1;
    assert Bare(s)[j] == ' ';
    if Unsigned(Bare(s)) != Bare(s) {
      assert j > 0;
      assert Unsigned(Bare(s))[j - 1] == ' ';
    }
  }

  /** A number with more conjuncts or alternatives behind it is no numeral. */
  lemma NumberThenMore(n: Number, more: string)
    requires CleanNumber(n) && |more| > 2 && more[1] == ' '
    ensures !Numeral(Bare(NumberText(n, false) + more))
  {
    var s, k := NumberText(n, false) + more, |NumberText(n, false)|;
    NumeralLacks(n.digits);
    assert s[k + 1] == ' ';
    NotNumeral(s, k + 1);
  }

  /** What follows the first conjunct of the rest. */
  function Behind(es: Checks, subject: string): string {
    if es.Last? then "" else ") AND (" + Joined(es.rest, " AND ", subject)
  }

  lemma JoinedSplits(es: Checks, subject: string)
    ensures Joined(es, " AND ", subject) == Plain(es.check, subject) + Behind(es, subject)
    ensures Behind(es, subject) != "" ==> Behind(es, subject)[0] == ')'
  {
    if es.More? {
      assert ")" + " AND " + "(" == ") AND (";
    } else {
      assert Plain(es.check, subject) + "" == Plain(es.check, subject);
    }
  }

  lemma HighStarts(es: Checks, subject: string)
    requires Name(subject) && CleanAll(es, subject)
    ensures Starts("AND (" + Joined(es, " AND ", subject), "AND (" + (subject + " <= ")) <==> es.check.AtMost?
  {
    JoinedSplits(es, subject);
    StartsAfter("AND (", Joined(es, " AND ", subject), subject + " <= ");
    PlainStarts(es.check, subject, Le);
    StartsThrough(Plain(es.check, subject), Behind(es, subject), subject + " <= ");
  }

  lemma AfterHigh(es: Checks, subject: string)
    requires es.check.AtMost?
    ensures ("AND (" + Joined(es, " AND ", subject))[|"AND (" + (subject + " <= ")|..]
            == NumberText(es.check.n, false) + Behind(es, subject)
  {
    JoinedSplits(es, subject);
    var number, behind := NumberText(es.check.n, false), Behind(es, subject);
    assert "AND (" + (subject + " <= " + number + behind) == "AND (" + (subject + " <= ") + (number + behind);
  }

  /** The second half of a range is there exactly when the rest is one upper bound. */
  lemma HighOf(db: Database, es: Checks, subject: string)
    requires Name(subject) && CleanAll(es, subject)
    ensures Bound(db, "AND (" + Joined(es, " AND ", subject), "AND (" + subject + " <= ")
            == if es.Last? && es.check.AtMost? then Some(db.decimal(es.check.n.digits)) else None
  {
    assert "AND (" + (subject + " <= ") == "AND (" + subject + " <= ";
    HighStarts(es, subject);
    if es.check.AtMost? {
      AfterHigh(es, subject);
      if es.Last? {
        assert NumberText(es.check.n, false) + "" == NumberText(es.check.n, false);
        BareNumber(es.check.n);
      } else {
        NumberThenMore(es.check.n, ") AND (" + Joined(es.rest, " AND ", subject));
      }
    } else {
      NoBound(db, "AND (" + Joined(es, " AND ", subject), "AND (" + subject + " <= ");
    }
  }

  /** With the first number divided off, what is left decides. */
  lemma RangeFrom(db: Database, n: Number, sep: string, word: string, printed: string, inside: string, half: string, subject: string)
    requires CleanNumber(n) && Lacks(word, ' ')
    requires sep == " " + word + " " && printed == "(" + inside + ")" && half == word + " (" + inside
    ensures var body := Parens(subject + " >= " + NumberText(n, false)) + sep + printed;
            var high := Bound(db, half, "AND (" + subject + " <= ");
            Range(db, body, subject) == if high.None? then None else Some((db.decimal(n.digits), high.value))
  {
    RangeDivides(n, word, inside, subject);
    LowNumber(n);
  }

  lemma NoRange(db: Database, body: string, subject: string)
    requires !Starts(body, "(" + subject + " >= ")
    ensures Range(db, body, subject).None?
  {
  }

  lemma Words(inside: string)
    ensures " AND " == " " + "AND" + " " && "AND (" + inside == "AND" + " (" + inside && Lacks("AND", ' ')
    ensures " OR " == " " + "OR" + " " && "OR (" + inside == "OR" + " (" + inside && Lacks("OR", ' ')
  {
  }

  lemma RangeAfterLow(db: Database, n: Number, t: Checks, subject: string)
    requires Name(subject) && CleanNumber(n) && CleanAll(t, subject)
    ensures Range(db, Parens(subject + " >= " + NumberText(n, false)) + " AND " + PrintedAll(t, " AND ", subject, false), subject)
            == if t.Last? && t.check.AtMost? then Some((db.decimal(n.digits), db.decimal(t.check.n.digits))) else None
  {
    var inside := Joined(t, " AND ", subject);
    AllIsJoined(t, " AND ", subject);
    Words(inside);
    RangeFrom(db, n, " AND ", "AND", PrintedAll(t, " AND ", subject, false), inside, "AND (" + inside, subject);
    HighOf(db, t, subject);
  }

  lemma NoRangeAfterLow(db: Database, n: Number, t: Checks, subject: string)
    requires Name(subject) && CleanNumber(n) && CleanAll(t, subject)
    ensures Range(db, Parens(subject + " >= " + NumberText(n, false)) + " OR " + PrintedAll(t, " OR ", subject, false), subject).None?
  {
    var inside := Joined(t, " OR ", subject);
    AllIsJoined(t, " OR ", subject);
    Words(inside);
    RangeFrom(db, n, " OR ", "OR", PrintedAll(t, " OR ", subject, false), inside, "OR (" + inside, subject);
    StartsAgree("OR (" + inside, "AND (" + subject + " <= ");
    assert ("OR (" + inside)[0] == 'O';
    NoBound(db, "OR (" + inside, "AND (" + subject + " <= ");
  }

  lemma NoRangeOtherwise(db: Database, h: Check, sep: string, printed: string, subject: string)
    requires Name(subject) && Clean(h, subject) && !h.AtLeast?
    ensures Range(db, Parens(Plain(h, subject)) + sep + printed, subject).None?
  {
    ParensStarts(h, subject, Ge, sep + printed);
    assert Parens(Plain(h, subject)) + sep + printed == Parens(Plain(h, subject)) + (sep + printed);
    NoRange(db, Parens(Plain(h, subject)) + sep + printed, subject);
  }

  function Both(db: Database, h: Check, t: Checks): Option<(real, real)> {
    if h.AtLeast? && t.Last? && t.check.AtMost? then Some((db.decimal(h.n.digits), db.decimal(t.check.n.digits))) else None
  }

  lemma RangeOfList(db: Database, h: Check, t: Checks, left: string, subject: string)
    requires Name(subject) && Clean(h, subject) && CleanAll(t, subject) && left == Plain(h, subject)
    ensures Range(db, Parens(left) + " AND " + PrintedAll(t, " AND ", subject, false), subject) == Both(db, h, t)
    ensures Range(db, Parens(left) + " OR " + PrintedAll(t, " OR ", subject, false), subject) == None
  {
    if h.AtLeast? {
      assert left == subject + " >= " + NumberText(h.n, false);
      RangeAfterLow(db, h.n, t, subject);
      NoRangeAfterLow(db, h.n, t, subject);
    } else {
      NoRangeOtherwise(db, h, " AND ", PrintedAll(t, " AND ", subject, false), subject);
      NoRangeOtherwise(db, h, " OR ", PrintedAll(t, " OR ", subject, false), subject);
    }
  }

  lemma RangeOf(db: Database, e: Check, subject: string)
    requires Name(subject) && Clean(e, subject)
    ensures Range(db, Plain(e, subject), subject) == if e.All? then Both(db, e.head, e.tail) else None
  {
    match e
    case All(h, t) => RangeOfList(db, h, t, Plain(h, subject), subject);
    case Any(h, t) => RangeOfList(db, h, t, Plain(h, subject), subject);
    case _ =>
      NoBracket(e, subject, "(" + subject + " >= ");
      NoRange(db, Plain(e, subject), subject);
  }

  /** On the plain text of a check the expressions find exactly what its structure says. */
  lemma ReadsStructure(db: Database, e: Check, subject: string, isInteger: bool)
    requires Name(subject) && Clean(e, subject)
    ensures ReadShape(db, Plain(e, subject), subject, isInteger) == ShapeOf(db, e, isInteger)
  {
    PatternOf(e, subject);
    AnyOf(e, subject);
    EqualOf(e, subject);
    RangeOf(db, e, subject);
    LowOf(db, e, subject);
    TopOf(db, e, subject);
    StrictOf(db, e, subject);
    match e
    case OneOf(ls) =>
      FindsLiterals(ls);
      UnescapesLiterals(ls);
    case Is(l) => UnescapeUndoes(l.text);
    case _ =>
  }

  // ---------------------------------------------------------------------------
  // Nullable columns: `(S IS NULL) OR (...)`
  // ---------------------------------------------------------------------------

  function NullPrefix(subject: string): string { "(" + subject + " IS NULL) OR (" }

  lemma NullHead(h: Check, sep: string, printed: string, subject: string)
    requires Name(subject) && Clean(h, subject) && !h.Missing?
    ensures !Starts(Parens(Plain(h, subject)) + sep + printed, NullPrefix(subject))
  {
    var body, p := Parens(Plain(h, subject)) + sep + printed, "(" + subject + " IS NULL";
    ParensStarts(h, subject, IsNull, sep + printed);
    assert body == Parens(Plain(h, subject)) + (sep + printed);
    assert NullPrefix(subject) == p + ") OR (";
    if Starts(body, NullPrefix(subject)) {
      StartsShorter(body, p, ") OR (");
    }
  }

  lemma NullAnd(printed: string, subject: string)
    ensures !Starts(Parens(subject + " IS NULL") + " AND " + printed, NullPrefix(subject))
  {
    var body, n := Parens(subject + " IS NULL") + " AND " + printed, |subject| + 8;
    StartsAgree(body, NullPrefix(subject));
    assert |Parens(subject + " IS NULL")| == n + 2;
    assert body[n + 3] == 'A';
    assert NullPrefix(subject)[n + 3] == 'O';
  }

  lemma NotNullOr(e: Check, subject: string)
    requires Name(subject) && Clean(e, subject) && !(e.Any? && e.head.Missing?)
    ensures Between(Plain(e, subject), NullPrefix(subject), ")").None?
  {
    match e
    case Any(h, t) => NullHead(h, " OR ", PrintedAll(t, " OR ", subject, false), subject);
    case All(h, t) =>
      if h.Missing? {
        NullAnd(PrintedAll(t, " AND ", subject, false), subject);
      } else {
        NullHead(h, " AND ", PrintedAll(t, " AND ", subject, false), subject);
      }
    case _ => NoBracket(e, subject, NullPrefix(subject));
  }

  lemma NullOrText(subject: string, inside: string)
    ensures Parens(subject + " IS NULL") + " OR " + ("(" + inside + ")") == NullPrefix(subject) + (inside + ")")
  {
    var a := "(" + subject + " IS NULL";
    assert Parens(subject + " IS NULL") == a + ")";
    assert ")" + " OR " + "(" == ") OR (";
    assert NullPrefix(subject) == a + ") OR (";
    assert a + ")" + " OR " + ("(" + inside + ")") == a + (")" + " OR " + "(") + (inside + ")");
  }

  lemma NullOr(t: Checks, subject: string)
    ensures Between(Plain(Any(Missing, t), subject), NullPrefix(subject), ")") == Some(Joined(t, " OR ", subject))
  {
    var inside := Joined(t, " OR ", subject);
    AllIsJoined(t, " OR ", subject);
    NullOrText(subject, inside);
    assert Plain(Missing, subject) == subject + " IS NULL";
    assert Plain(Any(Missing, t), subject) == Parens(subject + " IS NULL") + " OR " + PrintedAll(t, " OR ", subject, false);
    BetweenMiddle(NullPrefix(subject), inside, ")");
  }
}
