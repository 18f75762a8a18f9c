/** The outer grammar both registry cells share: `key=value` clauses separated by semicolons
    (src/silver/contract.py parse_contract, src/extraction/spec.py parse_extraction_spec).
    Blank chunks are skipped; a chunk without an equals sign, an unknown key and a repeated key
    are faults, and the first fault met, chunk by chunk from the left, is the one reported. */
module Clauses {
  import opened Prelude
  import opened Text

  datatype Fault =
    | NotKeyValue(chunk: string)
    | UnknownClause(key: string)
    | DuplicateClause(key: string)
    | MissingClause(key: string)
    | BadDirection(text: string)
    | BadCounterparty(text: string)
    | BadToken(token: string)
    | BadName(name: string)
    | UnknownType(name: string, kind: string)
    | DeclaredTwice(name: string)
    | HalfTable
    | UnquotedPattern
    | InvalidPattern
    | NoColumns
    | GroupMismatch

  type Table = map<string, string>

  /** One chunk, already stripped, entered into the clauses read so far. */
  function AddClause(keys: set<string>, clauses: Table, chunk: string): Result<Table, Fault> {
    if chunk == "" then Ok(clauses)
    else
      match Cut(chunk, '=')
      case None => Err(NotKeyValue(chunk))
      case Some(p) =>
        var key := Strip(p.0);
        if key !in keys then Err(UnknownClause(key))
        else if key in clauses then Err(DuplicateClause(key))
        else Ok(clauses[key := Strip(p.1)])
  }

  /** The chunks in order; the first fault wins. */
  function ReadClauses(keys: set<string>, chunks: seq<string>): Result<Table, Fault> {
    if |chunks| == 0 then Ok(map[])
    else
      var before := ReadClauses(keys, chunks[..|chunks| - 1]);
      if before.Err? then before else AddClause(keys, before.value, Strip(chunks[|chunks| - 1]))
  }

  function ClausesOf(keys: set<string>, raw: string): Result<Table, Fault> {
    ReadClauses(keys, Split(raw, ';'))
  }

  lemma {:induction false} FaultStays(keys: set<string>, chunks: seq<string>, n: nat)
    requires n <= |chunks| && ReadClauses(keys, chunks[..n]).Err?
    ensures ReadClauses(keys, chunks) == ReadClauses(keys, chunks[..n])
    decreases |chunks|
  {
    if n == |chunks| {
      assert chunks[..n] == chunks;
    } else {
      var front := chunks[..|chunks| - 1];
      assert front[..n] == chunks[..n];
      FaultStays(keys, front, n);
    }
  }

  method ParseClauses(keys: set<string>, raw: string) returns (r: Result<Table, Fault>)
    ensures r == ClausesOf(keys, raw)
  {
    var chunks := Split(raw, ';');
    var clauses: Table := map[];
    for i := 0 to |chunks|
      invariant ReadClauses(keys, chunks[..i]) == Ok(clauses)
    {
      assert chunks[..i + 1][..i] == chunks[..i];
      var chunk := Strip(chunks[i]);
      ghost var entered := AddClause(keys, clauses, chunk);
      assert ReadClauses(keys, chunks[..i + 1]) == entered;
      if entered.Err? {
        FaultStays(keys, chunks, i + 1);
      }
      if chunk == "" {
        continue;
      }
      var pair := Cut(chunk, '=');
      if pair.None? {
        return Err(NotKeyValue(chunk));
      }
      var key := Strip(pair.value.0);
      if key !in keys {
        return Err(UnknownClause(key));
      }
      if key in clauses {
        return Err(DuplicateClause(key));
      }
      clauses := clauses[key := Strip(pair.value.1)];
    }
    assert chunks[..|chunks|] == chunks;
    return Ok(clauses);
  }

  // ---------------------------------------------------------------------------
  // What an accepted cell's clauses look like
  // ---------------------------------------------------------------------------

  /** A clause value as it comes out of a cell. */
  predicate Value(v: string) {
    Trim(v) && Lacks(v, ';')
  }

  lemma CutLacks(s: string, c: char, d: char)
    requires Cut(s, c).Some? && Lacks(s, d)
    ensures Lacks(Cut(s, c).value.0, d) && Lacks(Cut(s, c).value.1, d)
  {
    var p := Cut(s, c).value;
    assert forall i :: 0 <= i < |p.0| ==> p.0[i] == s[i];
    assert forall i :: 0 <= i < |p.1| ==> p.1[i] == s[|p.0| + 1 + i];
  }

  lemma {:induction false} AcceptedClauses(keys: set<string>, chunks: seq<string>)
    requires AllLack(chunks, ';') && ReadClauses(keys, chunks).Ok?
    ensures var m := ReadClauses(keys, chunks).value; m.Keys <= keys && forall k :: k in m ==> Value(m[k])
  {
    if |chunks| > 0 {
      AcceptedClauses(keys, chunks[..|chunks| - 1]);
      var last := chunks[|chunks| - 1];
      var chunk := Strip(last);
      StripLacks(last, ';');
      if chunk != "" {
        CutLacks(chunk, '=', ';');
        var value := Cut(chunk, '=').value.1;
        StripShape(value);
        StripLacks(value, ';');
      }
    }
  }

  // ---------------------------------------------------------------------------
  // Printing and reading back
  // ---------------------------------------------------------------------------

  datatype Entry = Entry(key: string, text: string)

  predicate Plain(key: string) {
    key != "" && forall i :: 0 <= i < |key| ==> 'a' <= key[i] <= 'z' || key[i] == '_'
  }

  predicate Printable(keys: set<string>, entries: seq<Entry>) {
    && (forall i :: 0 <= i < |entries| ==> Plain(entries[i].key) && entries[i].key in keys && Value(entries[i].text))
    && (forall i, j :: 0 <= i < j < |entries| ==> entries[i].key != entries[j].key)
  }

  function Chunk(e: Entry): string {
    e.key + "=" + e.text
  }

  function Chunks(entries: seq<Entry>): seq<string> {
    seq(|entries|, i requires 0 <= i < |entries| => Chunk(entries[i]))
  }

  function PrintClauses(entries: seq<Entry>): string {
    Glue(Chunks(entries), ';')
  }

  function TableOf(entries: seq<Entry>): (m: Table)
    ensures forall k :: k in m ==> exists i :: 0 <= i < |entries| && entries[i].key == k
  {
    if |entries| == 0 then map[] else TableOf(entries[..|entries| - 1])[entries[|entries| - 1].key := entries[|entries| - 1].text]
  }

  lemma {:induction false} TableHolds(entries: seq<Entry>, i: nat)
    requires forall j, k :: 0 <= j < k < |entries| ==> entries[j].key != entries[k].key
    requires i < |entries|
    ensures entries[i].key in TableOf(entries) && TableOf(entries)[entries[i].key] == entries[i].text
  {
    if i < |entries| - 1 {
      TableHolds(entries[..|entries| - 1], i);
    }
  }

  lemma ChunkReads(keys: set<string>, clauses: Table, e: Entry)
    requires Plain(e.key) && e.key in keys && e.key !in clauses && Value(e.text)
    ensures Lacks(Chunk(e), ';') && Strip(Chunk(e)) == Chunk(e)
    ensures AddClause(keys, clauses, Chunk(e)) == Ok(clauses[e.key := e.text])
  {
    StripKeeps(e.key);
    StripKeeps(e.text);
    assert Trim(Chunk(e)) by {
      assert Chunk(e)[0] == e.key[0];
      assert e.text != "" ==> Chunk(e)[|Chunk(e)| - 1] == e.text[|e.text| - 1];
    }
    StripKeeps(Chunk(e));
    CutAt(e.key, '=', e.text);
  }

  lemma {:induction false} EntriesRead(keys: set<string>, entries: seq<Entry>)
    requires Printable(keys, entries)
    ensures AllLack(Chunks(entries), ';') && ReadClauses(keys, Chunks(entries)) == Ok(TableOf(entries))
  {
    if |entries| > 0 {
      var front, last := entries[..|entries| - 1], entries[|entries| - 1];
      EntriesRead(keys, front);
      assert Chunks(entries)[..|entries| - 1] == Chunks(front);
      assert last.key !in TableOf(front);
      ChunkReads(keys, TableOf(front), last);
      assert forall i :: 0 <= i < |front| ==> Chunks(entries)[i] == Chunks(front)[i];
    }
  }

  /** Printing any legal clauses and reading the cell gives the clauses back. */
  lemma ClausesRoundTrip(keys: set<string>, entries: seq<Entry>)
    requires |entries| >= 1 && Printable(keys, entries)
    ensures ClausesOf(keys, PrintClauses(entries)) == Ok(TableOf(entries))
  {
    EntriesRead(keys, entries);
    SplitGlue(Chunks(entries), ';');
  }
}
