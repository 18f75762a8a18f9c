/** The shareholding pattern (ShareholdingPatternExtractor in
    src/extraction/entity_master_types.py): each table row becomes up to two facts, one for the
    document's own financial year and one for the year before. */
module Shareholding {
  import opened Prelude
  import opened FiscalYear
  import Chains
  import Supersession

  // Reading a percentage or a share count is a parameter; None is a cell that does not read.

  type Window = (Day, Day)

  datatype HolderRow = HolderRow(holder: string, shares: string, currentPct: string, priorPct: string, pledged: string)

  datatype Fact = Fact(holder: string, shares: Option<real>, pct: real, pledged: bool, window: Window)

  datatype Readers = Readers(decimal: string -> Option<real>, strip: string -> string, isYes: string -> bool)

  /** A column whose percentage does not read is passed over; a share count that is there and
      does not read raises, and takes the whole write with it. */
  predicate Raises(rd: Readers, row: HolderRow, pctText: string) {
    rd.decimal(pctText).Some? && row.shares != "" && rd.decimal(row.shares).None?
  }

  predicate RowRaises(rd: Readers, row: HolderRow) {
    Raises(rd, row, row.currentPct) || Raises(rd, row, row.priorPct)
  }

  /** One column of one row, if its percentage reads. */
  function FactOf(rd: Readers, row: HolderRow, pctText: string, window: Window): seq<Fact> {
    match rd.decimal(pctText)
    case None => []
    case Some(pct) =>
      [Fact(rd.strip(row.holder), if row.shares == "" then None else rd.decimal(row.shares), pct, rd.isYes(row.pledged), window)]
  }

  function FactsOf(rd: Readers, row: HolderRow, current: Window, prior: Window): seq<Fact> {
    FactOf(rd, row, row.currentPct, current) + FactOf(rd, row, row.priorPct, prior)
  }

  /** The facts of rows none of which raises. */
  function Expand(rd: Readers, rows: seq<HolderRow>, current: Window, prior: Window): seq<Fact> {
    if rows == [] then []
    else Expand(rd, rows[..|rows| - 1], current, prior) + FactsOf(rd, rows[|rows| - 1], current, prior)
  }

  /** The inner loop, over the two columns of one row. */
  method ExpandRow(rd: Readers, row: HolderRow, current: Window, prior: Window) returns (r: Option<seq<Fact>>)
    ensures r.None? <==> RowRaises(rd, row)
    ensures r.Some? ==> r.value == FactsOf(rd, row, current, prior)
  {
    var facts: seq<Fact> := [];
    for k := 0 to 2
      invariant k == 0 ==> facts == []
      invariant k == 1 ==> facts == FactOf(rd, row, row.currentPct, current) && !Raises(rd, row, row.currentPct)
      invariant k == 2 ==> facts == FactsOf(rd, row, current, prior) && !RowRaises(rd, row)
    {
      var pctText, window := if k == 0 then row.currentPct else row.priorPct, if k == 0 then current else prior;
      var pct := rd.decimal(pctText);
      if pct.None? {
        continue;
      }
      var shares := if row.shares == "" then None else rd.decimal(row.shares);
      if row.shares != "" && shares.None? {
        return None;
      }
      facts := facts + [Fact(rd.strip(row.holder), shares, pct.value, rd.isYes(row.pledged), window)];
    }
    return Some(facts);
  }

  /** The outer loop, over the rows.  None is the exception, after which the transaction leaves
      nothing behind. */
  method ExpandRows(rd: Readers, rows: seq<HolderRow>, current: Window, prior: Window) returns (r: Option<seq<Fact>>)
    ensures r.None? <==> exists i :: 0 <= i < |rows| && RowRaises(rd, rows[i])
    ensures r.Some? ==> r.value == Expand(rd, rows, current, prior)
  {
    var facts: seq<Fact> := [];
    for i := 0 to |rows|
      invariant facts == Expand(rd, rows[..i], current, prior)
      invariant forall j :: 0 <= j < i ==> !RowRaises(rd, rows[j])
    {
      assert rows[..i + 1][..i] == rows[..i];
      var more := ExpandRow(rd, rows[i], current, prior);
      if more.None? {
        return None;
      }
      facts := facts + more.value;
    }
    assert rows[..|rows|] == rows;
    return Some(facts);
  }

  // ---------------------------------------------------------------------------
  // What is true on a day
  // ---------------------------------------------------------------------------

  /** The facts whose window holds the day, in order. */
  function ValidOn(facts: seq<Fact>, day: Day): seq<Fact> {
    if facts == [] then []
    else
      var last := facts[|facts| - 1];
      ValidOn(facts[..|facts| - 1], day) + if InWindow(day, last.window) then [last] else []
  }

  lemma {:induction false} ValidOnConcat(a: seq<Fact>, b: seq<Fact>, day: Day)
    ensures ValidOn(a + b, day) == ValidOn(a, day) + ValidOn(b, day)
  {
    if b == [] {
      assert a + b == a;
    } else {
      ValidOnConcat(a, b[..|b| - 1], day);
      assert (a + b)[..|a + b| - 1] == a + b[..|b| - 1];
    }
  }

  lemma ValidOnOne(rd: Readers, row: HolderRow, pctText: string, window: Window, day: Day)
    ensures ValidOn(FactOf(rd, row, pctText, window), day) == if InWindow(day, window) then FactOf(rd, row, pctText, window) else []
  {
    var facts := FactOf(rd, row, pctText, window);
    if facts != [] {
      assert facts[..|facts| - 1] == [];
    }
  }

  /** One column of every row. */
  function Column(rd: Readers, rows: seq<HolderRow>, ofCurrent: bool, window: Window): seq<Fact> {
    if rows == [] then []
    else
      var row := rows[|rows| - 1];
      Column(rd, rows[..|rows| - 1], ofCurrent, window) + FactOf(rd, row, if ofCurrent then row.currentPct else row.priorPct, window)
  }

  lemma {:induction false} OneColumnADay(rd: Readers, rows: seq<HolderRow>, current: Window, prior: Window, day: Day)
    requires !(InWindow(day, current) && InWindow(day, prior))
    ensures ValidOn(Expand(rd, rows, current, prior), day)
            == if InWindow(day, current) then Column(rd, rows, true, current)
               else if InWindow(day, prior) then Column(rd, rows, false, prior)
               else []
  {
    if rows != [] {
      var front, row := rows[..|rows| - 1], rows[|rows| - 1];
      OneColumnADay(rd, front, current, prior, day);
      ValidOnConcat(Expand(rd, front, current, prior), FactsOf(rd, row, current, prior), day);
      ValidOnConcat(FactOf(rd, row, row.currentPct, current), FactOf(rd, row, row.priorPct, prior), day);
      ValidOnOne(rd, row, row.currentPct, current, day);
      ValidOnOne(rd, row, row.priorPct, prior, day);
    }
  }

  /** The two windows the extractor derives from the document's date. */
  predicate Windows(asOf: Day, startMonth: int, current: Window, prior: Window) {
    var (s, e) := FyContaining(asOf, startMonth);
    FyBounds(s, e, startMonth) == Some(current) && FyBounds(s - 1, e - 1, startMonth) == Some(prior)
  }

  lemma WindowsDoNotMeet(asOf: Day, startMonth: int, current: Window, prior: Window, day: Day)
    requires IsDate(asOf) && IsDate(day) && 1 <= startMonth <= 12 && Windows(asOf, startMonth, current, prior)
    ensures !(InWindow(day, current) && InWindow(day, prior))
  {
    var (s, e) := FyContaining(asOf, startMonth);
    OneFinancialYear(day, startMonth, s);
    OneFinancialYear(day, startMonth, s - 1);
  }

  /** After a shareholding document is recorded or supersedes its predecessor, the current facts
      of its key valid on any day are one column of its rows, in row order: the current one in
      the financial year of its date, the prior one in the year before, none otherwise. */
  lemma RecordedPattern(rd: Readers, tables: Supersession.FactTables, s: Supersession.Silver<Fact>, snap: Supersession.Snapshot<Fact>,
                        now: int, rows: seq<HolderRow>, asOf: Day, startMonth: int, current: Window, prior: Window, day: Day)
    requires Supersession.Inv(tables, s) && tables(snap.key.masterType).Some?
    requires IsDate(asOf) && IsDate(day) && 1 <= startMonth <= 12 && Windows(asOf, startMonth, current, prior)
    requires snap.rows == Expand(rd, rows, current, prior)
    ensures var after := Supersession.RecordOrSupersede(tables, s, snap, now);
            ValidOn(Supersession.CurrentFacts(after.records, after.facts, snap.key), day)
            == if InWindow(day, current) then Column(rd, rows, true, current)
               else if InWindow(day, prior) then Column(rd, rows, false, prior)
               else []
  {
    Supersession.SnapshotReplacesFacts(tables, s, snap, now, snap.key);
    WindowsDoNotMeet(asOf, startMonth, current, prior, day);
    OneColumnADay(rd, rows, current, prior, day);
  }
}
