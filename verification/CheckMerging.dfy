/** Several constraints on one column (_merge in src/catalogue/field_constraints.py). */
module CheckMerging {
  import opened Prelude
  import opened CheckText
  import opened CheckTranslation
  import opened CheckMeaning

  /** Python's `or`: an empty text or tuple gives way. */
  function OrElse<T>(a: Option<seq<T>>, b: Option<seq<T>>): Option<seq<T>> {
    if a.Some? && a.value != [] then a else b
  }

  function Merge(base: Shape, other: Option<Shape>): Shape {
    match other
    case None => base
    case Some(o) => Shape(OrElse(o.pattern, base.pattern), OrElse(o.allowed, base.allowed),
                          if o.min.None? then base.min else o.min, if o.max.None? then base.max else o.max)
  }

  predicate Disjoint(a: Shape, b: Shape) {
    && (a.pattern.None? || b.pattern.None?) && (a.allowed.None? || b.allowed.None?)
    && (a.min.None? || b.min.None?) && (a.max.None? || b.max.None?)
  }

  ghost predicate EmptyMatches(db: Database) {
    forall v :: db.matches("", v)
  }

  predicate ConjoinsAt(db: Database, a: Shape, b: Shape, v: string) {
    Accepts(db, Merge(a, Some(b)), v) <==> Accepts(db, a, v) && Accepts(db, b, v)
  }

  /** Merging is conjunction in every database whose empty pattern matches everything. */
  ghost predicate Conjoins(a: Shape, b: Shape) {
    forall db: Database, v: string :: EmptyMatches(db) ==> ConjoinsAt(db, a, b, v)
  }

  function Either<T>(a: Option<T>, b: Option<T>): Option<T> { if a.Some? then a else b }

  predicate Contradict(low: Option<real>, high: Option<real>) {
    low.Some? && high.Some? && low.value > high.value
  }

  /** A database in which every pattern matches and every value reads as the given number. */
  function Lenient(x: real): (db: Database)
    ensures EmptyMatches(db)
  {
    Database((p, v) => true, v => x, s => 0.0, (t, v) => false)
  }

  function NumberWithin(low: Option<real>, high: Option<real>): (x: real)
    ensures !Contradict(low, high) ==> (low.Some? ==> x >= low.value) && (high.Some? ==> x <= high.value)
  {
    if low.Some? then low.value else if high.Some? then high.value else 0.0
  }

  /** On disjoint facets merging is conjunction, unless the later shape is an empty vocabulary:
      that is dropped instead of refusing every value, which shows unless the bounds already
      refuse every value. */
  lemma MergeIsConjunction(a: Shape, b: Shape)
    requires Disjoint(a, b)
    ensures Conjoins(a, b)
            <==> b.allowed != Some([]) || Contradict(Either(a.min, b.min), Either(a.max, b.max))
  {
    var low, high := Either(a.min, b.min), Either(a.max, b.max);
    if b.allowed == Some([]) && !Contradict(low, high) {
      var db := Lenient(NumberWithin(low, high));
      assert !ConjoinsAt(db, a, b, "");
    }
  }

  function MergeAll(shapes: seq<Option<Shape>>): Shape {
    if shapes == [] then NO_SHAPE else Merge(MergeAll(shapes[..|shapes| - 1]), shapes[|shapes| - 1])
  }

  predicate AllDisjoint(shapes: seq<Option<Shape>>) {
    forall i, j | 0 <= i < j < |shapes| :: shapes[i].Some? && shapes[j].Some? ==> Disjoint(shapes[i].value, shapes[j].value)
  }

  lemma {:induction false} MergedIsDisjoint(shapes: seq<Option<Shape>>, b: Shape)
    requires forall i :: 0 <= i < |shapes| && shapes[i].Some? ==> Disjoint(shapes[i].value, b)
    ensures Disjoint(MergeAll(shapes), b)
  {
    if shapes != [] {
      MergedIsDisjoint(shapes[..|shapes| - 1], b);
    }
  }

  predicate AcceptedBy(db: Database, shape: Option<Shape>, v: string) {
    shape.Some? ==> Accepts(db, shape.value, v)
  }

  /** Any number of shapes on disjoint facets, merged one after the other. */
  lemma {:induction false} MergingAllIsConjunction(db: Database, shapes: seq<Option<Shape>>, v: string)
    requires EmptyMatches(db) && AllDisjoint(shapes)
    requires forall i :: 0 <= i < |shapes| && shapes[i].Some? ==> shapes[i].value.allowed != Some([])
    ensures Accepts(db, MergeAll(shapes), v) <==> forall i :: 0 <= i < |shapes| ==> AcceptedBy(db, shapes[i], v)
  {
    if shapes != [] {
      var front, last := shapes[..|shapes| - 1], shapes[|shapes| - 1];
      MergingAllIsConjunction(db, front, v);
      assert forall i :: 0 <= i < |shapes| ==> shapes[i] == if i < |front| then front[i] else last;
      if last.Some? {
        MergedIsDisjoint(front, last.value);
        MergeIsConjunction(MergeAll(front), last.value);
        assert ConjoinsAt(db, MergeAll(front), last.value, v);
      }
    }
  }

  /** What is read from a text is never an empty vocabulary. */
  lemma ParsedIsNeverEmpty(db: Database, expression: string, subject: string, isInteger: bool)
    ensures var shape := ParseCheck(db, expression, subject, isInteger);
            shape.Some? ==> shape.value.allowed != Some([])
  {
  }

  /** A check with the noun it is printed with: the column, or VALUE for its domain. */
  datatype Constraint = Constraint(check: Check, subject: string)

  function Parsed(db: Database, cs: seq<Constraint>, isInteger: bool): (shapes: seq<Option<Shape>>)
    ensures |shapes| == |cs|
    ensures forall i :: 0 <= i < |cs| ==>
              shapes[i] == ParseCheck(db, Definition(cs[i].check, cs[i].subject), cs[i].subject, isInteger)
  {
    seq(|cs|, i requires 0 <= i < |cs| => ParseCheck(db, Definition(cs[i].check, cs[i].subject), cs[i].subject, isInteger))
  }

  predicate Sound(c: Constraint) {
    Name(c.subject) && Clean(c.check, c.subject) && Paired(c.check) && Faithful(c.check, c.subject)
  }

  /** The constraints published for a column accept a non-null value exactly when the value
      satisfies every check a shape was read from. */
  lemma PublishedMeansTheChecks(db: Database, cs: seq<Constraint>, isInteger: bool, v: string)
    requires EmptyMatches(db) && (isInteger ==> IntegerColumn(db))
    requires forall i :: 0 <= i < |cs| ==> Sound(cs[i])
    requires AllDisjoint(Parsed(db, cs, isInteger))
    ensures Accepts(db, MergeAll(Parsed(db, cs, isInteger)), v)
            <==> forall i :: 0 <= i < |cs| && Parsed(db, cs, isInteger)[i].Some? ==> Passes(db, cs[i].check, v)
  {
    var shapes := Parsed(db, cs, isInteger);
    forall i | 0 <= i < |cs|
      ensures shapes[i].Some? ==> shapes[i].value.allowed != Some([]) && (AcceptedBy(db, shapes[i], v) <==> Passes(db, cs[i].check, v))
    {
      ParsedIsNeverEmpty(db, Definition(cs[i].check, cs[i].subject), cs[i].subject, isInteger);
      PreservesMeaning(cs[i].check, cs[i].subject, isInteger);
      assert Agrees(db, cs[i].check, cs[i].subject, isInteger, v);
    }
    MergingAllIsConjunction(db, shapes, v);
  }

  // ---------------------------------------------------------------------------
  // On one facet the later constraint replaces the earlier
  // ---------------------------------------------------------------------------

  /** Bounds conjoin exactly when the later one is not the weaker. */
  lemma LaterBoundWins(x: real, later: real)
    ensures Conjoins(NO_SHAPE.(min := Some(x)), NO_SHAPE.(min := Some(later))) <==> x <= later
    ensures Conjoins(NO_SHAPE.(max := Some(x)), NO_SHAPE.(max := Some(later))) <==> later <= x
  {
    var db := Lenient(later);
    if later < x {
      assert !ConjoinsAt(db, NO_SHAPE.(min := Some(x)), NO_SHAPE.(min := Some(later)), "");
    }
    if x < later {
      assert !ConjoinsAt(db, NO_SHAPE.(max := Some(x)), NO_SHAPE.(max := Some(later)), "");
    }
  }

  /** Vocabularies conjoin exactly when the later one only narrows the earlier; an empty later one
      is dropped. */
  lemma LaterVocabularyWins(xs: seq<string>, later: seq<string>)
    ensures Conjoins(NO_SHAPE.(allowed := Some(xs)), NO_SHAPE.(allowed := Some(later)))
            <==> if later == [] then xs == [] else forall x :: x in later ==> x in xs
  {
    var a, b, db := NO_SHAPE.(allowed := Some(xs)), NO_SHAPE.(allowed := Some(later)), Lenient(0.0);
    if later == [] && xs != [] {
      assert !ConjoinsAt(db, a, b, xs[0]);
    }
    if later != [] && !(forall x :: x in later ==> x in xs) {
      var x :| x in later && x !in xs;
      assert !ConjoinsAt(db, a, b, x);
    }
  }

  /** Patterns conjoin in every database only when they are the same or one is empty. */
  lemma LaterPatternWins(p: string, later: string)
    ensures Conjoins(NO_SHAPE.(pattern := Some(p)), NO_SHAPE.(pattern := Some(later)))
            <==> p == later || p == "" || later == ""
  {
    if p != later && p != "" && later != "" {
      var db := Database((q, v) => q != p, v => 0.0, s => 0.0, (t, v) => false);
      assert EmptyMatches(db);
      assert !ConjoinsAt(db, NO_SHAPE.(pattern := Some(p)), NO_SHAPE.(pattern := Some(later)), "");
    }
  }
}
