/** Whole checks through the reader (src/catalogue/field_constraints.py parse_check).  A check whose
    quoted parentheses pair up is read by its structure, with the text of a nullable column of three
    or more alternatives taken for one body; a single quoted check is read, whatever its text, as
    far as its parentheses let the outer ones be dropped.  What the shape then means is the
    concern of CheckMeaning. */
module CheckReading {
  import opened Prelude
  import opened Text
  import opened CheckText
  import opened CheckTranslation

  // ---------------------------------------------------------------------------
  // `(S IS NULL) OR (...) OR (...)`: the reader sees `...) OR (...` as one body
  // ---------------------------------------------------------------------------

  predicate Ends(s: string, q: string) { |q| <= |s| && s[|s| - |q|..] == q }

  function Final(es: Checks): Check {
    if es.Last? then es.check else Final(es.rest)
  }

  function Others(t: Checks, subject: string): string { ") OR (" + Joined(t, " OR ", subject) }

  function Body(h: Check, t: Checks, subject: string): string { Plain(h, subject) + Others(t, subject) }

  lemma BodyIsJoined(h: Check, t: Checks, subject: string)
    ensures Joined(More(h, t), " OR ", subject) == Body(h, t, subject)
  {
    assert ")" + " OR " + "(" == ") OR (";
  }

  /** What stands before the last alternative. */
  function Before(es: Checks, subject: string): string {
    if es.Last? then "" else Plain(es.check, subject) + (") OR (" + Before(es.rest, subject))
  }

  lemma {:induction false} JoinedEnds(es: Checks, subject: string)
    ensures Joined(es, " OR ", subject) == Before(es, subject) + Plain(Final(es), subject)
  {
    if es.More? {
      JoinedEnds(es.rest, subject);
      BodyIsJoined(es.check, es.rest, subject);
    }
  }

  lemma {:induction false} FinalIsClean(es: Checks, subject: string, good: string -> bool)
    ensures CleanAll(es, subject) ==> Clean(Final(es), subject)
    ensures EveryTextOf(es, good) ==> EveryText(Final(es), good)
  {
    if es.More? {
      FinalIsClean(es.rest, subject, good);
    }
  }

  lemma NoEarlyStart(h: Check, subject: string)
    requires Name(subject) && Clean(h, subject) && !h.All? && !h.Any?
    ensures Plain(h, subject) != "" && Plain(h, subject)[0] != '('
  {
    if OpOf(h).Some? {
      PlainSplits(h, subject);
      assert Plain(h, subject)[0] == subject[0] && Word(subject[0]);
    }
  }

  lemma ClosesBehind(h: string, rest: string)
    requires Balanced(h) && rest != ""
    ensures ClosesEarly(Parens(h) + rest)
  {
    var s := Parens(h) + rest;
    ParensBalanced(h);
    assert s[..|Parens(h)|] == Parens(h);
    assert ClosesAt(s, |Parens(h)| - 1);
  }

  lemma TrimsAround(a: string, b: string, c: string)
    requires Neat(a) && Neat(c)
    ensures Trim(a + b + c) && (a + b + c)[0] == a[0]
  {
    var s := a + b + c;
    assert s[|s| - 1] == c[|c| - 1];
  }

  lemma Around(a: string, x: string, y: string, c: string)
    ensures a + (x + (y + c)) == a + (x + y) + c
  {
  }

  lemma BodyTrims(h: Check, t: Checks, subject: string)
    requires Name(subject) && Clean(h, subject) && CleanAll(t, subject)
    requires EveryText(h, Orderly) && EveryTextOf(t, Orderly)
    ensures Trim(Body(h, t, subject)) && Plain(h, subject) != "" && Body(h, t, subject)[0] == Plain(h, subject)[0]
  {
    PlainTidy(h, subject);
    FinalIsClean(t, subject, Orderly);
    PlainTidy(Final(t), subject);
    JoinedEnds(t, subject);
    Around(Plain(h, subject), ") OR (", Before(t, subject), Plain(Final(t), subject));
    TrimsAround(Plain(h, subject), ") OR (" + Before(t, subject), Plain(Final(t), subject));
  }

  lemma ListBody(x: string, sep: string, printed: string, others: string)
    requires Balanced(x) && others != ""
    ensures ClosesEarly(Parens(x) + sep + printed + others)
  {
    ClosesBehind(x, sep + printed + others);
    assert Parens(x) + sep + printed + others == Parens(x) + (sep + printed + others);
  }

  /** No parentheses are dropped from it. */
  lemma BodySettled(h: Check, t: Checks, subject: string)
    requires Name(subject) && Clean(h, subject) && CleanAll(t, subject)
    requires EveryText(h, Orderly) && EveryTextOf(t, Orderly)
    ensures Unwrapped(Body(h, t, subject)) == Body(h, t, subject)
  {
    var s := Body(h, t, subject);
    BodyTrims(h, t, subject);
    StripKeeps(s);
    match h
    case All(x, u) =>
      PlainTidy(x, subject);
      ListBody(Plain(x, subject), " AND ", PrintedAll(u, " AND ", subject, false), Others(t, subject));
    case Any(x, u) =>
      PlainTidy(x, subject);
      ListBody(Plain(x, subject), " OR ", PrintedAll(u, " OR ", subject, false), Others(t, subject));
    case _ => NoEarlyStart(h, subject);
  }

  /** What the vocabulary expression finds: every quoted literal up to the last bracket. */
  function FoundIn(ls: seq<Literal>, t: Checks, subject: string): seq<string> {
    var text := Operand(OneOf(ls)) + Others(t, subject);
    if Ends(text, "])") then UnescapeAll(FindAll(text[..|text| - 2])) else []
  }

  /** The shape of `(S IS NULL) OR (h) OR ...`. */
  function ShapeOfMany(h: Check, t: Checks, subject: string): Option<Shape> {
    match h
    case Matches(_) =>
      var text := Operand(h) + Others(t, subject);
      if Ends(text, "'") then Some(NO_SHAPE.(pattern := Some(text[..|text| - 1]))) else None
    case OneOf(ls) =>
      if FoundIn(ls, t, subject) == [] then None else Some(NO_SHAPE.(allowed := Some(FoundIn(ls, t, subject))))
    case Is(_) =>
      var text := Operand(h) + Others(t, subject);
      if Ends(text, "'") then Some(NO_SHAPE.(allowed := Some([Unescape(text[..|text| - 1])]))) else None
    case _ => None
  }

  lemma BodyStarts(h: Check, t: Checks, subject: string, op: Operator)
    requires Name(subject) && Clean(h, subject)
    ensures Starts(Body(h, t, subject), subject + OpText(op)) <==> OpOf(h) == Some(op)
  {
    PlainStarts(h, subject, op);
    LacksClosing(subject, op);
    StartsThrough(Plain(h, subject), Others(t, subject), subject + OpText(op));
  }

  lemma BodySplits(h: Check, t: Checks, subject: string)
    requires OpOf(h).Some?
    ensures Body(h, t, subject) == subject + OpText(OpOf(h).value) + (Operand(h) + Others(t, subject))
  {
    PlainSplits(h, subject);
  }

  lemma BetweenEnds(p: string, text: string, q: string)
    requires |q| <= |text|
    ensures Between(p + text, p, q) == if Ends(text, q) then Some(text[..|text| - |q|]) else None
  {
    var s := p + text;
    assert s[..|p|] == p;
    assert s[|s| - |q|..] == text[|text| - |q|..];
    assert s[|p|..|s| - |q|] == text[..|text| - |q|];
  }

  lemma NoNumber(db: Database, n: Number, others: string, prefix: string, body: string)
    requires CleanNumber(n) && |others| > 2 && others[1] == ' ' && body == prefix + (NumberText(n, false) + others)
    ensures Bound(db, body, prefix).None? && !Whole(Bare(body[|prefix|..]))
  {
    assert body[|prefix|..] == NumberText(n, false) + others;
    NumberThenMore(n, others);
  }

  lemma BlankAfter(db: Database, s: string, p: string, i: nat)
    requires |p| < i < |s| - 1 && s[i] == ' '
    ensures Bound(db, s, p).None?
  {
    assert s[|p|..][i - |p|] == ' ';
    NotNumeral(s[|p|..], i - |p|);
  }

  /** What is left behind the first number of `(S >= A) AND ...) OR (...` is no upper bound. */
  lemma NoHighText(db: Database, joined: string, rest: string, left: string, all: string, subject: string)
    requires Name(subject) && |rest| > 4 && rest[0] == ')' && rest[2] == ' '
    requires all == "AND (" + (joined + rest) && left == all[..|all| - 1]
    ensures Bound(db, left, "AND (" + subject + " <= ").None?
  {
    var p := "AND (" + (subject + " <= ");
    assert p == "AND (" + subject + " <= ";
    if Starts(left, p) {
      HighStartsInside(joined, rest, left, all, subject);
      var i := 5 + |joined| + 2;
      assert left[i] == all[i] == (joined + rest)[i - 5];
      BlankAfter(db, left, p, i);
    } else {
      NoBound(db, left, p);
    }
  }

  lemma OthersBehind(t: Checks, subject: string)
    ensures var rest := ")" + Others(t, subject); |rest| > 4 && rest[0] == ')' && rest[2] == ' '
  {
  }

  lemma NoHighBound(db: Database, u: Checks, t: Checks, subject: string, all: string)
    requires Name(subject) && CleanAll(u, subject)
    requires all == "AND (" + Joined(u, " AND ", subject) + ")" + Others(t, subject)
    ensures Bound(db, all[..|all| - 1], "AND (" + subject + " <= ").None?
  {
    var joined, others := Joined(u, " AND ", subject), Others(t, subject);
    OthersBehind(t, subject);
    Together("AND (" + joined, ")", others);
    Together("AND (", joined, ")" + others);
    NoHighText(db, joined, ")" + others, all[..|all| - 1], all, subject);
  }

  lemma HighStartsInside(joined: string, rest: string, left: string, all: string, subject: string)
    requires Name(subject) && rest != "" && rest[0] == ')' && all == "AND (" + (joined + rest)
    requires Starts(left, "AND (" + (subject + " <= ")) && |left| < |all| && left == all[..|left|]
    ensures |subject + " <= "| <= |joined|
  {
    StartsShorterText(all, left, "AND (" + (subject + " <= "));
    StartsAfter("AND (", joined + rest, subject + " <= ");
    LacksClosing(subject, Le);
    StartsThrough(joined, rest, subject + " <= ");
  }

  lemma StartsShorterText(all: string, left: string, p: string)
    requires |left| <= |all| && left == all[..|left|] && Starts(left, p)
    ensures Starts(all, p)
  {
    assert all[..|p|] == left[..|p|];
  }

  lemma RangeOfCut(db: Database, body: string, x: string, a: string, left: string, subject: string)
    requires Between(body, "(" + subject + " >= ", ")") == Some(x) && Cut(x, ' ') == Some((a, left))
    requires Bound(db, left, "AND (" + subject + " <= ").None?
    ensures Range(db, body, subject).None?
  {
  }

  lemma NoHighAfterOr(db: Database, left: string, subject: string)
    requires left != "" && left[0] == 'O'
    ensures Bound(db, left, "AND (" + subject + " <= ").None?
  {
    StartsAgree(left, "AND (" + subject + " <= ");
    NoBound(db, left, "AND (" + subject + " <= ");
  }

  lemma WithoutLast(a: string, all: string)
    requires all != ""
    ensures (a + " " + all)[..|a + " " + all| - 1] == a + " " + all[..|all| - 1]
  {
  }

  lemma RangeNeedsBoth(db: Database, n: Number, all: string, body: string, subject: string)
    requires CleanNumber(n) && |all| > 2
    requires body == "(" + subject + " >= " + (NumberText(n, false) + ")" + " " + all)
    requires all[0] == 'O' || Bound(db, all[..|all| - 1], "AND (" + subject + " <= ").None?
    ensures Range(db, body, subject).None?
  {
    var a, left, p := NumberText(n, false) + ")", all[..|all| - 1], "(" + subject + " >= ";
    NumberLacks(n);
    CutAt(a, ' ', left);
    BetweenEnds(p, a + " " + all, ")");
    WithoutLast(a, all);
    if all[0] == 'O' {
      NoHighAfterOr(db, left, subject);
    }
    if Between(body, p, ")").Some? {
      RangeOfCut(db, body, a + " " + left, a, left, subject);
    }
  }

  lemma ListBodyText(low: string, sep: string, word: string, joined: string, others: string, subject: string)
    requires sep == " " + word + " "
    ensures Parens(subject + " >= " + low) + sep + ("(" + joined + ")") + others
            == "(" + subject + " >= " + (low + ")" + " " + (word + " (" + joined + ")" + others))
  {
  }

  /** The range expression takes nothing that has further alternatives behind it. */
  lemma NoRangeInList(db: Database, n: Number, u: Checks, t: Checks, word: string, sep: string, subject: string)
    requires Name(subject) && CleanNumber(n) && CleanAll(u, subject)
    requires (word == "AND" && sep == " AND ") || (word == "OR" && sep == " OR ")
    ensures Range(db, Parens(subject + " >= " + NumberText(n, false)) + sep + PrintedAll(u, sep, subject, false) + Others(t, subject),
                  subject).None?
  {
    var joined, low := Joined(u, sep, subject), NumberText(n, false);
    var all := word + " (" + joined + ")" + Others(t, subject);
    AllIsJoined(u, sep, subject);
    ListBodyText(low, sep, word, joined, Others(t, subject), subject);
    if word == "AND" {
      assert "AND" + " (" == "AND (";
      NoHighBound(db, u, t, subject, all);
    }
    RangeNeedsBoth(db, n, all, "(" + subject + " >= " + (low + ")" + " " + all), subject);
  }

  lemma NoRangeElsewhere(db: Database, x: Check, sep: string, printed: string, others: string, subject: string)
    requires Name(subject) && Clean(x, subject) && !x.AtLeast?
    ensures Range(db, Parens(Plain(x, subject)) + sep + printed + others, subject).None?
  {
    var rest := sep + printed + others;
    ParensStarts(x, subject, Ge, rest);
    assert Parens(Plain(x, subject)) + sep + printed + others == Parens(Plain(x, subject)) + rest;
    NoRange(db, Parens(Plain(x, subject)) + rest, subject);
  }

  lemma NoRangeUnbracketed(db: Database, body: string, subject: string)
    requires body != "" && body[0] != '('
    ensures Range(db, body, subject).None?
  {
    StartsAgree(body, "(" + subject + " >= ");
    NoRange(db, body, subject);
  }

  lemma NoRangeOfList(db: Database, x: Check, u: Checks, t: Checks, sep: string, subject: string)
    requires Name(subject) && Clean(x, subject) && CleanAll(u, subject) && sep in {" AND ", " OR "}
    ensures Range(db, Parens(Plain(x, subject)) + sep + PrintedAll(u, sep, subject, false) + Others(t, subject), subject).None?
  {
    if x.AtLeast? {
      NoRangeInList(db, x.n, u, t, if sep == " AND " then "AND" else "OR", sep, subject);
    } else {
      NoRangeElsewhere(db, x, sep, PrintedAll(u, sep, subject, false), Others(t, subject), subject);
    }
  }

  lemma NoRangeOfMany(db: Database, h: Check, t: Checks, subject: string)
    requires Name(subject) && Clean(h, subject) && CleanAll(t, subject)
    ensures Range(db, Body(h, t, subject), subject).None?
  {
    match h
    case All(x, u) => NoRangeOfList(db, x, u, t, " AND ", subject);
    case Any(x, u) => NoRangeOfList(db, x, u, t, " OR ", subject);
    case _ =>
      NoEarlyStart(h, subject);
      NoRangeUnbracketed(db, Body(h, t, subject), subject);
  }

  /** None of the expressions matches but the one for the first alternative's operator. */
  lemma NoStart(h: Check, t: Checks, body: string, subject: string, op: Operator)
    requires Name(subject) && Clean(h, subject) && body == Body(h, t, subject) && OpOf(h) != Some(op)
    ensures !Starts(body, subject + OpText(op))
  {
    BodyStarts(h, t, subject, op);
  }

  lemma QuotedOfMany(h: Check, t: Checks, subject: string, q: string)
    requires OpOf(h) in {Some(Tilde), Some(AnyArray), Some(Equal)} && |q| <= 2
    ensures var text := Operand(h) + Others(t, subject);
            Between(Body(h, t, subject), subject + OpText(OpOf(h).value), q)
            == if Ends(text, q) then Some(text[..|text| - |q|]) else None
  {
    BodySplits(h, t, subject);
    BetweenEnds(subject + OpText(OpOf(h).value), Operand(h) + Others(t, subject), q);
  }

  lemma NoBoundOfMany(db: Database, h: Check, t: Checks, body: string, subject: string, op: Operator, prefix: string)
    requires Name(subject) && Clean(h, subject) && body == Body(h, t, subject)
    requires op == Ge || op == Le || op == Gt
    requires prefix == subject + OpText(op)
    ensures Bound(db, body, prefix).None? && (!Starts(body, prefix) || !Whole(Bare(body[|prefix|..])))
  {
    if OpOf(h) == Some(op) {
      BodySplits(h, t, subject);
      assert Operand(h) == NumberText(h.n, false);
      NoNumber(db, h.n, Others(t, subject), prefix, body);
    } else {
      NoStart(h, t, body, subject, op);
    }
  }

  function QuotedShape(pattern: Option<string>, any: Option<string>, equal: Option<string>): Option<Shape> {
    if pattern.Some? then Some(NO_SHAPE.(pattern := pattern))
    else if any.Some? then
      (if FindAll(any.value) == [] then None else Some(NO_SHAPE.(allowed := Some(UnescapeAll(FindAll(any.value))))))
    else if equal.Some? then Some(NO_SHAPE.(allowed := Some([Unescape(equal.value)])))
    else None
  }

  /** Where only the quoted expressions can match, they decide. */
  lemma ReadsQuoted(db: Database, body: string, subject: string, isInteger: bool)
    requires Range(db, body, subject).None?
    requires Bound(db, body, subject + " >= ").None? && Bound(db, body, subject + " <= ").None?
    requires !Starts(body, subject + " > ") || !Whole(Bare(body[|subject + " > "|..]))
    ensures ReadShape(db, body, subject, isInteger)
            == QuotedShape(Between(body, subject + " ~ '", "'"), Between(body, subject + " = ANY (ARRAY[", "])"),
                           Between(body, subject + " = '", "'"))
  {
  }

  lemma PatternOfMany(h: Check, t: Checks, body: string, subject: string)
    requires Name(subject) && Clean(h, subject) && body == Body(h, t, subject)
    ensures Between(body, subject + " ~ '", "'")
            == if h.Matches? && Ends(Operand(h) + Others(t, subject), "'")
               then Some((Operand(h) + Others(t, subject))[..|Operand(h) + Others(t, subject)| - 1]) else None
  {
    if h.Matches? {
      QuotedOfMany(h, t, subject, "'");
    } else {
      NoStart(h, t, body, subject, Tilde);
    }
  }

  lemma AnyOfMany(h: Check, t: Checks, body: string, subject: string)
    requires Name(subject) && Clean(h, subject) && body == Body(h, t, subject)
    ensures Between(body, subject + " = ANY (ARRAY[", "])")
            == if h.OneOf? && Ends(Operand(h) + Others(t, subject), "])")
               then Some((Operand(h) + Others(t, subject))[..|Operand(h) + Others(t, subject)| - 2]) else None
  {
    if h.OneOf? {
      QuotedOfMany(h, t, subject, "])");
    } else {
      NoStart(h, t, body, subject, AnyArray);
    }
  }

  lemma EqualOfMany(h: Check, t: Checks, body: string, subject: string)
    requires Name(subject) && Clean(h, subject) && body == Body(h, t, subject)
    ensures Between(body, subject + " = '", "'")
            == if h.Is? && Ends(Operand(h) + Others(t, subject), "'")
               then Some((Operand(h) + Others(t, subject))[..|Operand(h) + Others(t, subject)| - 1]) else None
  {
    if h.Is? {
      QuotedOfMany(h, t, subject, "'");
    } else {
      NoStart(h, t, body, subject, Equal);
    }
  }

  lemma QuotedShapeOfMany(h: Check, t: Checks, subject: string, text: string)
    requires OpOf(h).Some? ==> text == Operand(h) + Others(t, subject)
    ensures ShapeOfMany(h, t, subject)
            == QuotedShape(if h.Matches? && Ends(text, "'") then Some(text[..|text| - 1]) else None,
                           if h.OneOf? && Ends(text, "])") then Some(text[..|text| - 2]) else None,
                           if h.Is? && Ends(text, "'") then Some(text[..|text| - 1]) else None)
  {
  }

  lemma NothingNumeric(db: Database, h: Check, t: Checks, body: string, subject: string)
    requires Name(subject) && Clean(h, subject) && CleanAll(t, subject) && body == Body(h, t, subject)
    ensures Range(db, body, subject).None?
    ensures Bound(db, body, subject + " >= ").None? && Bound(db, body, subject + " <= ").None?
    ensures !Starts(body, subject + " > ") || !Whole(Bare(body[|subject + " > "|..]))
  {
    NoRangeOfMany(db, h, t, subject);
    NoBoundOfMany(db, h, t, body, subject, Ge, subject + " >= ");
    NoBoundOfMany(db, h, t, body, subject, Le, subject + " <= ");
    NoBoundOfMany(db, h, t, body, subject, Gt, subject + " > ");
  }

  /** On a body with further alternatives behind the first, the expressions find this. */
  lemma ReadsAlternatives(db: Database, h: Check, t: Checks, body: string, subject: string, isInteger: bool)
    requires Name(subject) && Clean(h, subject) && CleanAll(t, subject) && body == Body(h, t, subject)
    ensures ReadShape(db, body, subject, isInteger) == ShapeOfMany(h, t, subject)
  {
    NothingNumeric(db, h, t, body, subject);
    ReadsQuoted(db, body, subject, isInteger);
    PatternOfMany(h, t, body, subject);
    AnyOfMany(h, t, body, subject);
    EqualOfMany(h, t, body, subject);
    QuotedShapeOfMany(h, t, subject, if OpOf(h).Some? then Operand(h) + Others(t, subject) else "");
  }

  // ---------------------------------------------------------------------------
  // The shape of a whole check with paired parentheses
  // ---------------------------------------------------------------------------

  /** The shape read off the structure of a whole check. */
  function Translation(db: Database, e: Check, subject: string, isInteger: bool): Option<Shape> {
    match e
    case Any(Missing, Last(p)) => ShapeOf(db, p, isInteger)
    case Any(Missing, More(h, t)) => ShapeOfMany(h, t, subject)
    case _ => ShapeOf(db, e, isInteger)
  }

  /** Reading the text of a printed check gives the shape its structure has. */
  lemma ParsesStructure(db: Database, e: Check, subject: string, isInteger: bool)
    requires Name(subject) && Clean(e, subject) && Paired(e)
    ensures ParseCheck(db, Definition(e, subject), subject, isInteger) == Translation(db, Tamed(e), subject, isInteger)
  {
    var e' := Tamed(e);
    BodyOfDefinition(e, subject);
    TamedIsClean(e, subject);
    assert "(" + subject + " IS NULL) OR (" == NullPrefix(subject);
    if e'.Any? && e'.head.Missing? {
      NullOr(e'.tail, subject);
      if e'.tail.Last? {
        PlainSettled(e'.tail.check, subject);
        ReadsStructure(db, e'.tail.check, subject, isInteger);
      } else {
        BodyIsJoined(e'.tail.check, e'.tail.rest, subject);
        BodySettled(e'.tail.check, e'.tail.rest, subject);
        ReadsAlternatives(db, e'.tail.check, e'.tail.rest, Body(e'.tail.check, e'.tail.rest, subject), subject, isInteger);
      }
    } else {
      NotNullOr(e', subject);
      ReadsStructure(db, e', subject, isInteger);
    }
  }

  // ---------------------------------------------------------------------------
  // One quoted check, its text unrestricted: how far the parentheses are dropped
  // ---------------------------------------------------------------------------

  lemma {:induction false} Crosses(s: string, n: nat) returns (m: nat)
    requires n <= |s| && Depth(s[..n]) < 0
    ensures m <= n && Depth(s[..m]) == -1
  {
    if Depth(s[..n]) == -1 {
      m := n;
    } else {
      assert s[..n][..n - 1] == s[..n - 1];
      m := Crosses(s, n - 1);
    }
  }

  /** The outer pair is a pair exactly when nothing inside closes it. */
  lemma ParensClose(s: string)
    ensures ClosesEarly(Parens(s)) <==> !NeverBelow(s, 0)
  {
    if ClosesEarly(Parens(s)) {
      var i: nat :| i < |Parens(s)| - 1 && ClosesAt(Parens(s), i);
      DepthInParens(s, i + 1);
      assert Depth(s[..i]) == -1;
    }
    if !NeverBelow(s, 0) {
      var n: nat :| n <= |s| && Depth(s[..n]) < 0;
      var m := Crosses(s, n);
      DepthInParens(s, m + 1);
      assert ClosesAt(Parens(s), m);
    }
  }

  lemma NeverBelowOne(c: char, low: int)
    ensures NeverBelow([c], low) <==> low <= 0 && low <= Step(c)
  {
    DepthOne(c);
    assert [c][..0] == "" && [c][..1] == [c];
    if low <= 0 && low <= Step(c) {
      forall n: nat | n <= 1 ensures Depth([c][..n]) >= low {
        assert n == 0 || n == 1;
      }
    }
  }

  lemma NeverBelowOpening(s: string, low: int)
    ensures NeverBelow(['('] + s, low) <==> low <= 0 && NeverBelow(s, low - 1)
  {
    DepthOne('(');
    NeverBelowOne('(', low);
    NeverBelowConcat(['('], s, low);
  }

  lemma NeverBelowClosing(s: string, low: int)
    ensures NeverBelow(s + [')'], low) <==> NeverBelow(s, low) && Depth(s) > low
  {
    NeverBelowOne(')', low - Depth(s));
    NeverBelowConcat(s, [')'], low);
    NeverBelowEnd(s, low);
  }

  lemma NeverBelowEnd(s: string, low: int)
    ensures NeverBelow(s, low) ==> Depth(s) >= low
  {
    assert s[..|s|] == s;
    assert NeverBelow(s, low) ==> Depth(s[..|s|]) >= low;
  }

  lemma NeverBelowParens(s: string)
    ensures NeverBelow(Parens(s), 0) <==> NeverBelow(s, -1) && Depth(s) >= 0
  {
    assert Parens(s) == ['('] + (s + [')']);
    NeverBelowOpening(s + [')'], 0);
    NeverBelowClosing(s, -1);
  }

  /** Two pairs around a settled text are dropped both or not both. */
  lemma UnwrapsTwice(x: string)
    requires Unwrapped(x) == x
    ensures NeverBelow(x, 0) ==> Unwrapped(Parens(Parens(x))) == x
    ensures !NeverBelow(x, 0) ==> Unwrapped(Parens(Parens(x))) == Parens(x) || Unwrapped(Parens(Parens(x))) == Parens(Parens(x))
  {
    UnwrapsOne(x);
    UnwrapsOne(Parens(x));
    NeverBelowParens(x);
    assert NeverBelow(x, 0) ==> Depth(x[..|x|]) >= 0;
    assert x[..|x|] == x;
  }

  lemma UnwrapsOne(x: string)
    ensures Unwrapped(Parens(x)) == if NeverBelow(x, 0) then Unwrapped(x) else Parens(x)
  {
    ParensClose(x);
    StripKeeps(Parens(x));
    assert Parens(x)[1..|Parens(x)| - 1] == x;
  }

  predicate Quotes(e: Check) { e.Matches? || e.Is? || e.OneOf? }

  function Nullable(e: Check): Check { Any(Missing, Last(e)) }

  lemma StartsWithName(s: string, subject: string)
    requires Name(subject) && Starts(s, subject) && !IsSpace(s[|s| - 1])
    ensures Unwrapped(s) == s
  {
    assert s[0] == subject[0] && Word(subject[0]);
    StripKeeps(s);
  }

  lemma QuotedEnds(e: Check)
    requires Quotes(e)
    ensures Operand(e) != "" && !IsSpace(Operand(e)[|Operand(e)| - 1])
  {
  }

  lemma SettledText(subject: string, op: string, operand: string)
    requires Name(subject) && operand != "" && !IsSpace(operand[|operand| - 1])
    ensures Unwrapped(subject + op + operand) == subject + op + operand
  {
    var s := subject + op + operand;
    assert s[..|subject|] == subject && s[|s| - 1] == operand[|operand| - 1];
    StartsWithName(s, subject);
  }

  lemma QuotedSettled(e: Check, subject: string)
    requires Name(subject) && Quotes(e)
    ensures Unwrapped(Plain(e, subject)) == Plain(e, subject)
  {
    PlainSplits(e, subject);
    QuotedEnds(e);
    SettledText(subject, OpText(OpOf(e).value), Operand(e));
  }

  /** Nothing is read where an opening parenthesis is left and no range follows it. */
  lemma NothingInBrackets(db: Database, body: string, subject: string, isInteger: bool)
    requires Name(subject) && body != "" && body[0] == '(' && !Starts(body, "(" + subject + " >= ")
    ensures ReadShape(db, body, subject, isInteger) == None
  {
    forall p | p != "" ensures !Starts(body, subject + p) {
      StartsAgree(body, subject + p);
      assert (subject + p)[0] == subject[0] && Word(subject[0]);
    }
    NoRange(db, body, subject);
    assert !Starts(body, subject + " ~ '") && !Starts(body, subject + " = ANY (ARRAY[") && !Starts(body, subject + " = '");
    assert !Starts(body, subject + " >= ") && !Starts(body, subject + " <= ") && !Starts(body, subject + " > ");
  }

  lemma DoubleOpen(body: string, subject: string, p: string)
    requires Name(subject) && |body| >= 2 && body[1] == '('
    ensures !Starts(body, "(" + subject + p)
  {
    StartsAgree(body, "(" + subject + p);
    assert ("(" + subject + p)[1] == subject[0] && Word(subject[0]);
  }

  lemma NotNullPrefix(body: string, subject: string)
    requires !Starts(body, "(" + subject + " IS NULL")
    ensures Between(body, NullPrefix(subject), ")").None?
  {
    assert NullPrefix(subject) == "(" + subject + " IS NULL" + ") OR (";
    if Starts(body, NullPrefix(subject)) {
      StartsShorter(body, "(" + subject + " IS NULL", ") OR (");
    }
  }

  lemma NothingInDouble(db: Database, body: string, subject: string, isInteger: bool)
    requires Name(subject) && |body| >= 2 && body[0] == '(' && body[1] == '('
    ensures ReadShape(db, body, subject, isInteger) == None && Between(body, NullPrefix(subject), ")").None?
  {
    DoubleOpen(body, subject, " >= ");
    DoubleOpen(body, subject, " IS NULL");
    NothingInBrackets(db, body, subject, isInteger);
    NotNullPrefix(body, subject);
  }

  lemma NothingInSingle(db: Database, e: Check, subject: string, isInteger: bool)
    requires Name(subject) && Clean(e, subject) && Quotes(e)
    ensures ReadShape(db, Parens(Plain(e, subject)), subject, isInteger) == None
    ensures Between(Parens(Plain(e, subject)), NullPrefix(subject), ")").None?
  {
    var body := Parens(Plain(e, subject));
    ParensStarts(e, subject, Ge, "");
    ParensStarts(e, subject, IsNull, "");
    assert body + "" == body;
    NothingInBrackets(db, body, subject, isInteger);
    NotNullPrefix(body, subject);
  }

  lemma ParseBody(db: Database, e: Check, subject: string, isInteger: bool)
    requires Name(subject) && Clean(e, subject)
    ensures var body := Unwrapped(Parens(Parens(Plain(Tamed(e), subject))));
            var rest := Between(body, NullPrefix(subject), ")");
            ParseCheck(db, Definition(e, subject), subject, isInteger)
            == ReadShape(db, if rest.Some? then Unwrapped(rest.value) else body, subject, isInteger)
  {
    NormalDefinition(e, subject);
    assert "(" + subject + " IS NULL) OR (" == NullPrefix(subject);
  }

  lemma ReadsBare(db: Database, e: Check, subject: string, isInteger: bool)
    requires Name(subject) && Clean(e, subject) && Quotes(e)
    ensures ParseCheck(db, Definition(e, subject), subject, isInteger)
            == if NeverBelow(Plain(Tamed(e), subject), 0) then ShapeOf(db, Tamed(e), isInteger) else None
  {
    var p := Plain(Tamed(e), subject);
    TamedIsClean(e, subject);
    ParseBody(db, e, subject, isInteger);
    QuotedSettled(Tamed(e), subject);
    UnwrapsTwice(p);
    if NeverBelow(p, 0) {
      NotNullOr(Tamed(e), subject);
      ReadsStructure(db, Tamed(e), subject, isInteger);
    } else {
      NothingInSingle(db, Tamed(e), subject, isInteger);
      NothingInDouble(db, Parens(Parens(p)), subject, isInteger);
    }
  }

  lemma NullableText(e: Check, subject: string)
    ensures Plain(Nullable(e), subject) == Parens(subject + " IS NULL") + " OR " + Parens(Plain(e, subject))
  {
    PrintedParts(Last(e), " OR ", subject, false);
    assert Plain(Missing, subject) == subject + " IS NULL";
  }

  lemma BehindBalanced(a: string, b: string)
    requires Balanced(a)
    ensures NeverBelow(a + b, 0) <==> NeverBelow(b, 0)
  {
    NeverBelowConcat(a, b, 0);
  }

  lemma NullableNeverBelow(first: string, p: string)
    requires Balanced(first)
    ensures NeverBelow(first + " OR " + Parens(p), 0) <==> NeverBelow(p, -1) && Depth(p) >= 0
  {
    BalancedWithout(" OR ");
    BalancedConcat(first, " OR ");
    BehindBalanced(first + " OR ", Parens(p));
    NeverBelowParens(p);
  }

  lemma NullableSettled(p: string, subject: string)
    requires Name(subject)
    ensures var x := Parens(subject + " IS NULL") + " OR " + Parens(p);
            Unwrapped(x) == x && (NeverBelow(x, 0) <==> NeverBelow(p, -1) && Depth(p) >= 0)
  {
    var missing := subject + " IS NULL";
    MissingTidy(subject);
    ListCloses(missing, " OR ", Parens(p));
    StripKeeps(Parens(missing) + " OR " + Parens(p));
    ParensBalanced(missing);
    NullableNeverBelow(Parens(missing), p);
  }

  lemma ListCloses(h: string, sep: string, t: string)
    requires Balanced(h) && t != ""
    ensures ClosesEarly(Parens(h) + sep + t)
  {
    ClosesBehind(h, sep + t);
    assert Parens(h) + sep + t == Parens(h) + (sep + t);
  }

  lemma ReadsNullable(db: Database, e: Check, subject: string, isInteger: bool)
    requires Name(subject) && Clean(e, subject) && Quotes(e)
    ensures ParseCheck(db, Definition(Nullable(e), subject), subject, isInteger)
            == if NeverBelow(Plain(Tamed(e), subject), -1) && Depth(Plain(Tamed(e), subject)) >= 0
               then ShapeOf(db, Tamed(e), isInteger) else None
  {
    var p := Plain(Tamed(e), subject);
    var x := Parens(subject + " IS NULL") + " OR " + Parens(p);
    TamedIsClean(e, subject);
    ParseBody(db, Nullable(e), subject, isInteger);
    assert Tamed(Nullable(e)) == Nullable(Tamed(e));
    NullableText(Tamed(e), subject);
    NullableSettled(p, subject);
    UnwrapsTwice(x);
    if NeverBelow(x, 0) {
      NullOr(Last(Tamed(e)), subject);
      assert Joined(Last(Tamed(e)), " OR ", subject) == p;
      QuotedSettled(Tamed(e), subject);
      ReadsStructure(db, Tamed(e), subject, isInteger);
    } else {
      assert x[0] == '(';
      NothingInDouble(db, Parens(x), subject, isInteger);
      NothingInDouble(db, Parens(Parens(x)), subject, isInteger);
    }
  }

  // Clearing moves no parenthesis, so the printed check decides

  lemma QuoteProfile(l: Literal)
    ensures SameProfile(LiteralText(Tame(l), false), LiteralText(l, false)) && SameProfile(LiteralText(l, false), l.text)
  {
    LiteralProfile(l);
    LiteralProfile(Tame(l));
    ClearKeepsProfile(l.text);
  }

  lemma LiteralProfile(l: Literal)
    ensures SameProfile(LiteralText(l, false), l.text)
  {
    EscapeKeepsProfile(l.text);
    ProfileFlat("'", "");
    ProfileConcat("'", "", Escape(l.text), l.text);
    ProfileConcat("'" + Escape(l.text), "" + l.text, "'", "");
    assert "" + l.text + "" == l.text;
    assert LiteralText(l, false) == "'" + Escape(l.text) + "'";
  }

  lemma {:induction false} LiteralsProfile(ls: seq<Literal>)
    ensures SameProfile(LiteralsText(TameAll(ls), false), LiteralsText(ls, false))
  {
    if |ls| > 0 {
      QuoteProfile(ls[0]);
      if |ls| > 1 {
        LiteralsProfile(ls[1..]);
        assert TameAll(ls)[1..] == TameAll(ls[1..]);
        ProfileConcat(LiteralText(Tame(ls[0]), false), LiteralText(ls[0], false), ", ", ", ");
        ProfileConcat(LiteralText(Tame(ls[0]), false) + ", ", LiteralText(ls[0], false) + ", ",
                      LiteralsText(TameAll(ls[1..]), false), LiteralsText(ls[1..], false));
      }
    }
  }

  lemma PlainProfile(e: Check, subject: string)
    requires Quotes(e)
    ensures SameProfile(Plain(Tamed(e), subject), Plain(e, subject))
  {
    match e
    case Matches(l) =>
      QuoteProfile(l);
      ProfileConcat(subject + " ~ ", subject + " ~ ", LiteralText(Tame(l), false), LiteralText(l, false));
    case Is(l) =>
      QuoteProfile(l);
      ProfileConcat(subject + " = ", subject + " = ", LiteralText(Tame(l), false), LiteralText(l, false));
    case OneOf(ls) =>
      var p, a, b := subject + " = ANY (ARRAY[", LiteralsText(TameAll(ls), false), LiteralsText(ls, false);
      LiteralsProfile(ls);
      ProfileConcat(p, p, a, b);
      ProfileConcat(p + a, p + b, "])", "])");
  }

  /** For one text the printed check never falls below where the text does not. */
  lemma TextProfile(l: Literal, subject: string)
    requires Name(subject)
    ensures SameProfile(Plain(Is(l), subject), l.text) && SameProfile(Plain(Matches(l), subject), l.text)
  {
    NeatName(subject);
    QuoteProfile(l);
    ProfileFlat(subject + " = ", "");
    ProfileFlat(subject + " ~ ", "");
    ProfileConcat(subject + " = ", "", LiteralText(l, false), l.text);
    ProfileConcat(subject + " ~ ", "", LiteralText(l, false), l.text);
    assert "" + l.text == l.text;
  }

  /** Whether the reader gets down to a quoted check: no parenthesis of its texts, nor of the
      list, closes one that stands around it. */
  predicate Exposed(e: Check, subject: string, nullable: bool) {
    if nullable then NeverBelow(Plain(e, subject), -1) && Depth(Plain(e, subject)) >= 0
    else NeverBelow(Plain(e, subject), 0)
  }

  lemma ReadsQuotedCheck(db: Database, e: Check, subject: string, isInteger: bool, nullable: bool)
    requires Name(subject) && Clean(e, subject) && Quotes(e)
    ensures ParseCheck(db, Definition(if nullable then Nullable(e) else e, subject), subject, isInteger)
            == if Exposed(e, subject, nullable) then ShapeOf(db, Tamed(e), isInteger) else None
  {
    PlainProfile(e, subject);
    ReadsBare(db, e, subject, isInteger);
    ReadsNullable(db, e, subject, isInteger);
  }
}
