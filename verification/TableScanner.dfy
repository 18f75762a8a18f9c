/** The windowed table-row scanner (src/extraction/tablevalue.py): from each physical line the
    shortest window of at most eight lines that the row pattern matches whole and whose
    columns all coerce. */
module TableScanner {
  import opened Prelude

  // The pattern and the coercions are parameters; lines arrive stripped and non-blank.

  const MAX_WINDOW_LINES: nat := 8

  datatype Column = Column(name: string, kind: string)

  /** `fullmatch` gives the named groups of a whole match, or None. */
  datatype TableSpec<V> = TableSpec(
    fullmatch: string -> Option<map<string, string>>,
    columns: seq<Column>,
    coerce: (string, string) -> Option<V>)

  /** What parsing the spec guarantees: every column is a group of every match. */
  ghost predicate GroupsMatchColumns<V>(spec: TableSpec<V>) {
    forall text :: spec.fullmatch(text).Some? ==>
      forall c :: c in spec.columns ==> c.name in spec.fullmatch(text).value
  }

  type TableRow<V> = map<string, V>

  function Joined(lines: seq<string>): string {
    if |lines| == 0 then "" else if |lines| == 1 then lines[0] else lines[0] + " " + Joined(lines[1..])
  }

  predicate CoercesCleanly<V>(spec: TableSpec<V>, groups: map<string, string>)
    requires forall c :: c in spec.columns ==> c.name in groups
  {
    forall c :: c in spec.columns ==> spec.coerce(c.kind, groups[c.name]).Some?
  }

  predicate AcceptsText<V>(spec: TableSpec<V>, text: string)
    requires GroupsMatchColumns(spec)
  {
    spec.fullmatch(text).Some? && CoercesCleanly(spec, spec.fullmatch(text).value)
  }

  predicate Accepts<V>(spec: TableSpec<V>, lines: seq<string>, start: nat, end: nat)
    requires GroupsMatchColumns(spec) && start <= end <= |lines|
  {
    AcceptsText(spec, Joined(lines[start..end]))
  }

  function LastEnd(lines: seq<string>, start: nat): nat {
    if |lines| < start + MAX_WINDOW_LINES then |lines| else start + MAX_WINDOW_LINES
  }

  /** No window from `start` that ends before `end` is a row. */
  ghost predicate NoneBefore<V>(spec: TableSpec<V>, lines: seq<string>, start: nat, end: nat)
    requires GroupsMatchColumns(spec)
  {
    forall e :: start < e < end && e <= |lines| ==> !Accepts(spec, lines, start, e)
  }

  ghost predicate IsRow<V>(spec: TableSpec<V>, lines: seq<string>, start: nat, end: nat)
    requires GroupsMatchColumns(spec)
  {
    start < end <= LastEnd(lines, start) && Accepts(spec, lines, start, end) && NoneBefore(spec, lines, start, end)
  }

  ghost predicate StartsNoRow<V>(spec: TableSpec<V>, lines: seq<string>, start: nat)
    requires GroupsMatchColumns(spec)
  {
    NoneBefore(spec, lines, start, LastEnd(lines, start) + 1)
  }

  // ---------------------------------------------------------------------------
  // The scan
  // ---------------------------------------------------------------------------

  function Search<V>(spec: TableSpec<V>, lines: seq<string>, start: nat, end: nat): (r: Option<nat>)
    requires GroupsMatchColumns(spec) && start < end <= |lines| + 1
    requires NoneBefore(spec, lines, start, end)
    ensures r.Some? ==> IsRow(spec, lines, start, r.value)
    ensures r.None? ==> StartsNoRow(spec, lines, start)
    decreases LastEnd(lines, start) + 1 - end
  {
    if end > LastEnd(lines, start) then None
    else if Accepts(spec, lines, start, end) then Some(end)
    else Search(spec, lines, start, end + 1)
  }

  function Locate<V>(spec: TableSpec<V>, lines: seq<string>, start: nat): (r: Option<nat>)
    requires GroupsMatchColumns(spec) && start < |lines|
    ensures r.Some? ==> IsRow(spec, lines, start, r.value)
    ensures r.None? ==> StartsNoRow(spec, lines, start)
  {
    Search(spec, lines, start, start + 1)
  }

  datatype Window = Window(start: nat, end: nat)

  /** The windows found from line i on: skip a line that starts no row, jump over a row. */
  function Scan<V>(spec: TableSpec<V>, lines: seq<string>, i: nat): seq<Window>
    requires GroupsMatchColumns(spec) && i <= |lines|
    decreases |lines| - i
  {
    if i == |lines| then []
    else
      match Locate(spec, lines, i)
      case None => Scan(spec, lines, i + 1)
      case Some(end) => [Window(i, end)] + Scan(spec, lines, end)
  }

  ghost predicate Reads<V>(spec: TableSpec<V>, lines: seq<string>, w: Window, row: TableRow<V>)
    requires GroupsMatchColumns(spec)
  {
    && w.start < w.end <= |lines| && Accepts(spec, lines, w.start, w.end)
    && var groups := spec.fullmatch(Joined(lines[w.start..w.end])).value;
       && row.Keys == (set c | c in spec.columns :: c.name)
       && forall c :: c in spec.columns ==> (exists d :: d in spec.columns && d.name == c.name
                                              && Some(row[c.name]) == spec.coerce(d.kind, groups[c.name]))
  }

  method LocateRow<V>(spec: TableSpec<V>, physical: seq<string>, start: nat) returns (end: Option<nat>)
    requires GroupsMatchColumns(spec) && start < |physical|
    ensures end == Locate(spec, physical, start)
  {
    for e := start + 1 to LastEnd(physical, start) + 1
      invariant NoneBefore(spec, physical, start, e)
      invariant Locate(spec, physical, start) == Search(spec, physical, start, e)
    {
      var candidate := Joined(physical[start..e]);
      var groups := spec.fullmatch(candidate);
      if groups.Some? && CoercesCleanly(spec, groups.value) {
        return Some(e);
      }
    }
    end := None;
  }

  /** The rows of the table in document order.  The branch for a column that fails to coerce
      is there, as in the original, but no row is ever dropped by it: rows and windows pair up. */
  method ParseTableRows<V>(spec: TableSpec<V>, physical: seq<string>) returns (rows: seq<TableRow<V>>)
    requires GroupsMatchColumns(spec)
    ensures var windows := Scan(spec, physical, 0);
            && |rows| == |windows|
            && forall k :: 0 <= k < |rows| ==> Reads(spec, physical, windows[k], rows[k])
  {
    rows := [];
    var i := 0;
    ghost var found: seq<Window> := [];
    while i < |physical|
      invariant i <= |physical|
      invariant Scan(spec, physical, 0) == found + Scan(spec, physical, i)
      invariant |rows| == |found| && forall k :: 0 <= k < |rows| ==> Reads(spec, physical, found[k], rows[k])
      decreases |physical| - i
    {
      var end := LocateRow(spec, physical, i);
      if end.None? {
        i := i + 1;
        continue;
      }
      var groups := spec.fullmatch(Joined(physical[i..end.value])).value;
      var row, ok := ReadRow(spec, groups);
      if ok {
        rows := rows + [row];
      }
      found := found + [Window(i, end.value)];
      i := end.value;
    }
  }

  method ReadRow<V>(spec: TableSpec<V>, groups: map<string, string>) returns (row: TableRow<V>, ok: bool)
    requires forall c :: c in spec.columns ==> c.name in groups
    ensures ok <==> CoercesCleanly(spec, groups)
    ensures ok ==> row.Keys == (set c | c in spec.columns :: c.name)
    ensures ok ==> forall c :: c in spec.columns ==>
              exists d :: d in spec.columns && d.name == c.name && Some(row[c.name]) == spec.coerce(d.kind, groups[c.name])
  {
    row, ok := map[], true;
    for k := 0 to |spec.columns|
      invariant row.Keys == (set c | c in spec.columns[..k] :: c.name)
      invariant forall c :: c in spec.columns[..k] ==> spec.coerce(c.kind, groups[c.name]).Some?
      invariant forall name :: name in row ==>
                  exists d :: d in spec.columns[..k] && d.name == name && Some(row[name]) == spec.coerce(d.kind, groups[name])
    {
      var column := spec.columns[k];
      assert spec.columns[..k + 1] == spec.columns[..k] + [column];
      var value := spec.coerce(column.kind, groups[column.name]);
      if value.None? {
        return map[], false;
      }
      row := row[column.name := value.value];
    }
    assert spec.columns[..|spec.columns|] == spec.columns;
  }

  // ---------------------------------------------------------------------------
  // What the scan finds
  // ---------------------------------------------------------------------------

  ghost predicate Inside(ws: seq<Window>, i: int) {
    exists k :: 0 <= k < |ws| && ws[k].start <= i < ws[k].end
  }

  /** Said without a scan: rows of at most eight lines, each the shortest at its start, in
      order and disjoint, and no line outside them starts a row. */
  ghost predicate Greedy<V>(spec: TableSpec<V>, lines: seq<string>, from: nat, ws: seq<Window>)
    requires GroupsMatchColumns(spec)
  {
    && (forall k :: 0 <= k < |ws| ==> from <= ws[k].start && IsRow(spec, lines, ws[k].start, ws[k].end))
    && (forall k, l :: 0 <= k < l < |ws| ==> ws[k].end <= ws[l].start)
    && (forall i :: from <= i < |lines| && !Inside(ws, i) ==> StartsNoRow(spec, lines, i))
  }

  lemma InsideCons(ws: seq<Window>, i: int)
    requires ws != []
    ensures Inside(ws, i) <==> ws[0].start <= i < ws[0].end || Inside(ws[1..], i)
  {
    assert forall k :: 0 <= k < |ws[1..]| ==> ws[1..][k] == ws[k + 1];
    assert Inside(ws[1..], i) ==> exists k :: 0 < k < |ws| && ws[k].start <= i < ws[k].end by {
      if k :| 0 <= k < |ws[1..]| && ws[1..][k].start <= i < ws[1..][k].end {
        assert ws[k + 1].start <= i < ws[k + 1].end;
      }
    }
    assert forall k :: 0 < k < |ws| ==> ws[k] == ws[1..][k - 1];
  }

  lemma {:induction false} ScanIsGreedy<V>(spec: TableSpec<V>, lines: seq<string>, i: nat)
    requires GroupsMatchColumns(spec) && i <= |lines|
    ensures Greedy(spec, lines, i, Scan(spec, lines, i))
    decreases |lines| - i
  {
    if i < |lines| {
      match Locate(spec, lines, i)
      case None =>
        ScanIsGreedy(spec, lines, i + 1);
      case Some(end) =>
        ScanIsGreedy(spec, lines, end);
        var rest := Scan(spec, lines, end);
        var ws := Scan(spec, lines, i);
        assert ws[0] == Window(i, end) && forall k :: 0 < k < |ws| ==> ws[k] == rest[k - 1];
        forall l | i <= l < |lines| && !Inside(ws, l)
          ensures StartsNoRow(spec, lines, l)
        {
          InsideCons(ws, l);
          assert ws[1..] == rest;
        }
    }
  }

  /** And nothing else fits that description: the scan's answer is the only greedy one. */
  lemma {:induction false} GreedyIsScan<V>(spec: TableSpec<V>, lines: seq<string>, i: nat, ws: seq<Window>)
    requires GroupsMatchColumns(spec) && i <= |lines| && Greedy(spec, lines, i, ws)
    ensures ws == Scan(spec, lines, i)
    decreases |lines| - i
  {
    if ws != [] && ws[0].start == i {
      var end := ws[0].end;
      assert Locate(spec, lines, i) == Some(end) by {
        OneShortest(spec, lines, i, end);
      }
      var rest := ws[1..];
      assert forall k :: 0 <= k < |rest| ==> rest[k] == ws[k + 1];
      forall l | end <= l < |lines| && !Inside(rest, l)
        ensures StartsNoRow(spec, lines, l)
      {
        InsideCons(ws, l);
      }
      GreedyIsScan(spec, lines, end, rest);
      assert ws == [ws[0]] + rest;
    } else if i < |lines| {
      assert forall k :: 0 < k < |ws| ==> ws[0].end <= ws[k].start;
      assert !Inside(ws, i);
      OneShortest(spec, lines, i, i + 1);
      GreedyIsScan(spec, lines, i + 1, ws);
    }
  }

  lemma OneShortest<V>(spec: TableSpec<V>, lines: seq<string>, start: nat, end: nat)
    requires GroupsMatchColumns(spec) && start < |lines|
    ensures IsRow(spec, lines, start, end) ==> Locate(spec, lines, start) == Some(end)
    ensures StartsNoRow(spec, lines, start) ==> Locate(spec, lines, start).None?
  {
  }

  // ---------------------------------------------------------------------------
  // Decisions are local
  // ---------------------------------------------------------------------------

  lemma SameDecision<V>(spec: TableSpec<V>, lines: seq<string>, more: seq<string>, start: nat)
    requires GroupsMatchColumns(spec) && start + MAX_WINDOW_LINES <= |lines|
    ensures Locate(spec, lines + more, start) == Locate(spec, lines, start)
  {
    forall e: nat | start < e <= start + MAX_WINDOW_LINES
      ensures Accepts(spec, lines + more, start, e) == Accepts(spec, lines, start, e)
    {
      assert (lines + more)[start..e] == lines[start..e];
    }
    match Locate(spec, lines, start)
    case None => OneShortest(spec, lines + more, start, start + 1);
    case Some(end) => OneShortest(spec, lines + more, start, end);
  }

  lemma StartsFrom<V>(spec: TableSpec<V>, lines: seq<string>, i: nat)
    requires GroupsMatchColumns(spec) && i <= |lines|
    ensures forall k :: 0 <= k < |Scan(spec, lines, i)| ==> i <= Scan(spec, lines, i)[k].start
  {
    ScanIsGreedy(spec, lines, i);
  }

  /** Lines added at the end change no decision made at least eight lines before the old end:
      both scans agree on their first k windows, and all others start within the last seven
      old lines or later. */
  lemma {:induction false} AppendingIsLocal<V>(spec: TableSpec<V>, lines: seq<string>, more: seq<string>, i: nat) returns (k: nat)
    requires GroupsMatchColumns(spec) && i <= |lines|
    ensures var a, b := Scan(spec, lines, i), Scan(spec, lines + more, i);
            && k <= |a| && k <= |b| && a[..k] == b[..k]
            && (forall j :: k <= j < |a| ==> a[j].start + MAX_WINDOW_LINES > |lines|)
            && (forall j :: k <= j < |b| ==> b[j].start + MAX_WINDOW_LINES > |lines|)
    decreases |lines| - i
  {
    if i + MAX_WINDOW_LINES <= |lines| {
      SameDecision(spec, lines, more, i);
      match Locate(spec, lines, i)
      case None =>
        k := AppendingIsLocal(spec, lines, more, i + 1);
      case Some(end) =>
        var k' := AppendingIsLocal(spec, lines, more, end);
        k := k' + 1;
        var a, b := Scan(spec, lines, i), Scan(spec, lines + more, i);
        var a', b' := Scan(spec, lines, end), Scan(spec, lines + more, end);
        assert a[..k] == [Window(i, end)] + a'[..k'] && b[..k] == [Window(i, end)] + b'[..k'];
    } else {
      k := 0;
      StartsFrom(spec, lines, i);
      StartsFrom(spec, lines + more, i);
    }
  }
}
