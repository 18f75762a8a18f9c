/** The per-document-type field contract (src/silver/contract.py): the grammar of the registry's
    `field_contract` cell, with a canonical printer as its partner. */
module Contract {
  import opened Prelude
  import opened Text
  import opened Clauses

  datatype Direction = Inward | Outward | Internal

  datatype Counterparty = Required | Optional | Foreign

  datatype Attribute = Attribute(name: string, kind: string, required: bool)

  datatype FieldContract = FieldContract(
    direction: Direction, counterparty: Counterparty, doc: seq<Attribute>, line: seq<Attribute>)

  const CLAUSE_KEYS: set<string> := {"direction", "counterparty", "doc", "line"}

  const ATTR_TYPES: set<string> := {"text", "date", "money", "qty", "rate", "int", "gstin", "hsn", "hash64"}

  function DirectionOf(text: string): Option<Direction> {
    if text == "INWARD" then Some(Inward)
    else if text == "OUTWARD" then Some(Outward)
    else if text == "INTERNAL" then Some(Internal)
    else None
  }

  function DirectionText(d: Direction): string {
    match d
    case Inward => "INWARD"
    case Outward => "OUTWARD"
    case Internal => "INTERNAL"
  }

  function CounterpartyOf(text: string): Option<Counterparty> {
    if text == "REQUIRED" then Some(Required)
    else if text == "OPTIONAL" then Some(Optional)
    else if text == "FOREIGN" then Some(Foreign)
    else None
  }

  function CounterpartyText(c: Counterparty): string {
    match c
    case Required => "REQUIRED"
    case Optional => "OPTIONAL"
    case Foreign => "FOREIGN"
  }

  // ---------------------------------------------------------------------------
  // Attribute lists
  // ---------------------------------------------------------------------------

  predicate NameChar(c: char) { 'a' <= c <= 'z' || '0' <= c <= '9' || c == '_' }

  /** [a-z][a-z0-9_]* */
  predicate LegalName(name: string) {
    name != "" && 'a' <= name[0] <= 'z' && forall i :: 0 <= i < |name| ==> NameChar(name[i])
  }

  /** What the pattern with its `$` accepts: one newline after a legal name passes too. */
  predicate MatchesName(name: string) {
    LegalName(name) || (name != "" && name[|name| - 1] == '\n' && LegalName(name[..|name| - 1]))
  }

  /** One stripped, non-empty token `name:type[!]`. */
  function ParseAttribute(types: set<string>, token: string): Result<Attribute, Fault>
    requires token != ""
  {
    var required := token[|token| - 1] == '!';
    var body := if required then token[..|token| - 1] else token;
    match Cut(body, ':')
    case None => Err(BadToken(token))
    case Some(p) =>
      if !MatchesName(p.0) then Err(BadName(p.0))
      else if p.1 !in types then Err(UnknownType(p.0, p.1))
      else Ok(Attribute(p.0, p.1, required))
  }

  function Names(attributes: seq<Attribute>): set<string> {
    set a | a in attributes :: a.name
  }

  function AddAttribute(types: set<string>, out: seq<Attribute>, token: string): Result<seq<Attribute>, Fault> {
    if token == "" then Ok(out)
    else
      match ParseAttribute(types, token)
      case Err(fault) => Err(fault)
      case Ok(a) => if a.name in Names(out) then Err(DeclaredTwice(a.name)) else Ok(out + [a])
  }

  function ReadAttributes(types: set<string>, tokens: seq<string>): Result<seq<Attribute>, Fault> {
    if |tokens| == 0 then Ok([])
    else
      var before := ReadAttributes(types, tokens[..|tokens| - 1]);
      if before.Err? then before else AddAttribute(types, before.value, Strip(tokens[|tokens| - 1]))
  }

  function AttributesOf(types: set<string>, raw: string): Result<seq<Attribute>, Fault> {
    ReadAttributes(types, Split(raw, ','))
  }

  lemma {:induction false} FaultStays(types: set<string>, tokens: seq<string>, n: nat)
    requires n <= |tokens| && ReadAttributes(types, tokens[..n]).Err?
    ensures ReadAttributes(types, tokens) == ReadAttributes(types, tokens[..n])
    decreases |tokens|
  {
    if n == |tokens| {
      assert tokens[..n] == tokens;
    } else {
      assert tokens[..|tokens| - 1][..n] == tokens[..n];
      FaultStays(types, tokens[..|tokens| - 1], n);
    }
  }

  lemma NextToken(types: set<string>, tokens: seq<string>, i: nat)
    requires i < |tokens| && ReadAttributes(types, tokens[..i]).Ok?
    ensures var added := AddAttribute(types, ReadAttributes(types, tokens[..i]).value, Strip(tokens[i]));
            && ReadAttributes(types, tokens[..i + 1]) == added
            && (added.Err? ==> ReadAttributes(types, tokens) == added)
  {
    assert tokens[..i + 1][..i] == tokens[..i];
    if ReadAttributes(types, tokens[..i + 1]).Err? {
      FaultStays(types, tokens, i + 1);
    }
  }

  /** One token appended to the list, whose names so far are `seen`. */
  method AppendAttribute(types: set<string>, out: seq<Attribute>, seen: set<string>, token: string)
    returns (r: Result<seq<Attribute>, Fault>, grown: set<string>)
    requires seen == Names(out)
    ensures r == AddAttribute(types, out, token) && (r.Ok? ==> grown == Names(r.value))
  {
    if token == "" {
      return Ok(out), seen;
    }
    var parsed := ParseAttribute(types, token);
    if parsed.Err? {
      return Err(parsed.error), seen;
    }
    if parsed.value.name in seen {
      return Err(DeclaredTwice(parsed.value.name)), seen;
    }
    return Ok(out + [parsed.value]), seen + {parsed.value.name};
  }

  method ParseAttributes(types: set<string>, raw: string) returns (r: Result<seq<Attribute>, Fault>)
    ensures r == AttributesOf(types, raw)
  {
    var tokens := Split(raw, ',');
    var out: seq<Attribute>, seen: set<string> := [], {};
    for i := 0 to |tokens|
      invariant ReadAttributes(types, tokens[..i]) == Ok(out) && seen == Names(out)
    {
      NextToken(types, tokens, i);
      var added, grown := AppendAttribute(types, out, seen, Strip(tokens[i]));
      if added.Err? {
        return Err(added.error);
      }
      out, seen := added.value, grown;
    }
    assert tokens[..|tokens|] == tokens;
    return Ok(out);
  }

  // ---------------------------------------------------------------------------
  // The whole cell
  // ---------------------------------------------------------------------------

  function Get(clauses: Table, key: string): string {
    if key in clauses then clauses[key] else ""
  }

  function Interpret(types: set<string>, clauses: Table): Result<FieldContract, Fault> {
    if "direction" !in clauses then Err(MissingClause("direction"))
    else if "counterparty" !in clauses then Err(MissingClause("counterparty"))
    else
      var direction, counterparty := DirectionOf(clauses["direction"]), CounterpartyOf(clauses["counterparty"]);
      if direction.None? then Err(BadDirection(clauses["direction"]))
      else if counterparty.None? then Err(BadCounterparty(clauses["counterparty"]))
      else
        var doc, line := AttributesOf(types, Get(clauses, "doc")), AttributesOf(types, Get(clauses, "line"));
        if doc.Err? then Err(doc.error)
        else if line.Err? then Err(line.error)
        else Ok(FieldContract(direction.value, counterparty.value, doc.value, line.value))
  }

  function ContractOf(raw: string): Result<FieldContract, Fault> {
    var clauses := ClausesOf(CLAUSE_KEYS, raw);
    if clauses.Err? then Err(clauses.error) else Interpret(ATTR_TYPES, clauses.value)
  }

  method ParseContract(raw: string) returns (r: Result<FieldContract, Fault>)
    ensures r == ContractOf(raw)
  {
    var clauses := ParseClauses(CLAUSE_KEYS, raw);
    if clauses.Err? {
      return Err(clauses.error);
    }
    for i := 0 to 2
      invariant i >= 1 ==> "direction" in clauses.value
      invariant i >= 2 ==> "counterparty" in clauses.value
    {
      var mandatory := ["direction", "counterparty"][i];
      if mandatory !in clauses.value {
        return Err(MissingClause(mandatory));
      }
    }
    var direction := DirectionOf(clauses.value["direction"]);
    if direction.None? {
      return Err(BadDirection(clauses.value["direction"]));
    }
    var counterparty := CounterpartyOf(clauses.value["counterparty"]);
    if counterparty.None? {
      return Err(BadCounterparty(clauses.value["counterparty"]));
    }
    var doc := ParseAttributes(ATTR_TYPES, Get(clauses.value, "doc"));
    if doc.Err? {
      return Err(doc.error);
    }
    var line := ParseAttributes(ATTR_TYPES, Get(clauses.value, "line"));
    if line.Err? {
      return Err(line.error);
    }
    return Ok(FieldContract(direction.value, counterparty.value, doc.value, line.value));
  }

  // ---------------------------------------------------------------------------
  // The canonical printer
  // ---------------------------------------------------------------------------

  function AttributeText(a: Attribute): string {
    a.name + ":" + a.kind + (if a.required then "!" else "")
  }

  function AttributeTexts(attributes: seq<Attribute>): seq<string> {
    seq(|attributes|, i requires 0 <= i < |attributes| => AttributeText(attributes[i]))
  }

  function AttributesText(attributes: seq<Attribute>): string {
    Glue(AttributeTexts(attributes), ',')
  }

  function Entries(c: FieldContract): seq<Entry> {
    [Entry("direction", DirectionText(c.direction)), Entry("counterparty", CounterpartyText(c.counterparty)),
     Entry("doc", AttributesText(c.doc)), Entry("line", AttributesText(c.line))]
  }

  function ContractText(c: FieldContract): string {
    PrintClauses(Entries(c))
  }

  predicate WellFormedAttributes(types: set<string>, attributes: seq<Attribute>) {
    && (forall i :: 0 <= i < |attributes| ==> MatchesName(attributes[i].name) && attributes[i].kind in types)
    && (forall i, j :: 0 <= i < j < |attributes| ==> attributes[i].name != attributes[j].name)
  }

  predicate WellFormed(types: set<string>, c: FieldContract) {
    WellFormedAttributes(types, c.doc) && WellFormedAttributes(types, c.line)
  }

  predicate KindChars(kind: string) {
    kind != "" && forall i :: 0 <= i < |kind| ==> 'a' <= kind[i] <= 'z' || '0' <= kind[i] <= '9'
  }

  predicate PlainTypes(types: set<string>) {
    forall kind :: kind in types ==> KindChars(kind)
  }

  lemma AttrTypesArePlain()
    ensures PlainTypes(ATTR_TYPES)
  {
  }

  predicate TokenChar(c: char) { NameChar(c) || c == '\n' || c == ':' || c == '!' }

  lemma TokenShape(a: Attribute)
    requires MatchesName(a.name) && KindChars(a.kind)
    ensures var token := AttributeText(a);
            && token != "" && Trim(token)
            && (forall i :: 0 <= i < |token| ==> TokenChar(token[i]))
            && (token[|token| - 1] == '!' <==> a.required)
            && (if a.required then token[..|token| - 1] else token) == a.name + ":" + a.kind
  {
    var token, body := AttributeText(a), a.name + ":" + a.kind;
    assert token[0] == a.name[0];
    assert body[|body| - 1] == a.kind[|a.kind| - 1];
    assert forall i :: 0 <= i < |a.name| ==> TokenChar(a.name[i]);
    assert forall i :: 0 <= i < |a.kind| ==> TokenChar(a.kind[i]);
    assert forall i :: 0 <= i < |token| ==>
      token[i] == if i < |a.name| then a.name[i] else if i == |a.name| then ':' else if i < |body| then a.kind[i - |a.name| - 1] else '!';
  }

  /** A printed attribute is one token, and that token reads back as the attribute. */
  lemma AttributeReads(types: set<string>, a: Attribute)
    requires PlainTypes(types) && MatchesName(a.name) && a.kind in types
    ensures ParseAttribute(types, AttributeText(a)) == Ok(a)
  {
    TokenShape(a);
    assert Lacks(a.name, ':');
    CutAt(a.name, ':', a.kind);
  }

  lemma AddReads(types: set<string>, front: seq<Attribute>, last: Attribute)
    requires PlainTypes(types) && MatchesName(last.name) && last.kind in types
    requires last.name !in Names(front)
    ensures AddAttribute(types, front, Strip(AttributeText(last))) == Ok(front + [last])
  {
    TokenShape(last);
    StripKeeps(AttributeText(last));
    AttributeReads(types, last);
  }

  lemma FrontIsWellFormed(types: set<string>, attributes: seq<Attribute>)
    requires attributes != [] && WellFormedAttributes(types, attributes)
    ensures var front, last := attributes[..|attributes| - 1], attributes[|attributes| - 1];
            WellFormedAttributes(types, front) && MatchesName(last.name) && last.kind in types && last.name !in Names(front)
  {
  }

  lemma {:induction false} AttributesRead(types: set<string>, attributes: seq<Attribute>)
    requires PlainTypes(types) && WellFormedAttributes(types, attributes)
    ensures ReadAttributes(types, AttributeTexts(attributes)) == Ok(attributes)
  {
    if |attributes| > 0 {
      var front, last := attributes[..|attributes| - 1], attributes[|attributes| - 1];
      FrontIsWellFormed(types, attributes);
      AttributesRead(types, front);
      assert AttributeTexts(attributes)[..|front|] == AttributeTexts(front);
      AddReads(types, front, last);
      assert front + [last] == attributes;
    }
  }

  lemma {:induction false} GlueEnds(parts: seq<string>)
    requires forall i :: 0 <= i < |parts| ==> parts[i] != "" && Trim(parts[i])
    ensures Trim(Glue(parts, ','))
    ensures parts != [] ==> Glue(parts, ',') != ""
  {
    if |parts| > 1 {
      GlueEnds(parts[1..]);
      var rest := Glue(parts[1..], ',');
      var s := Glue(parts, ',');
      assert s[0] == parts[0][0] && s[|s| - 1] == rest[|rest| - 1];
    }
  }

  lemma AttributesTextIsValue(types: set<string>, attributes: seq<Attribute>)
    requires PlainTypes(types) && WellFormedAttributes(types, attributes)
    ensures Value(AttributesText(attributes)) && AllLack(AttributeTexts(attributes), ',')
  {
    var parts := AttributeTexts(attributes);
    forall i | 0 <= i < |parts|
      ensures parts[i] != "" && Trim(parts[i]) && Lacks(parts[i], ',') && Lacks(parts[i], ';')
    {
      TokenShape(attributes[i]);
    }
    GlueEnds(parts);
    GlueLacks(parts, ',', ';');
  }

  lemma AttributesRoundTrip(types: set<string>, attributes: seq<Attribute>)
    requires PlainTypes(types) && WellFormedAttributes(types, attributes)
    ensures AttributesOf(types, AttributesText(attributes)) == Ok(attributes)
  {
    AttributesRead(types, attributes);
    AttributesTextIsValue(types, attributes);
    if attributes == [] {
      EmptyList(types);
    } else {
      SplitGlue(AttributeTexts(attributes), ',');
    }
  }

  lemma EmptyList(types: set<string>)
    ensures Split("", ',') == [""] && ReadAttributes(types, [""]) == Ok([])
  {
    assert [""][..0] == [];
  }

  lemma KeysArePlain()
    ensures Plain("direction") && Plain("counterparty") && Plain("doc") && Plain("line")
    ensures "direction" != "counterparty" && "direction" != "doc" && "direction" != "line"
    ensures "counterparty" != "doc" && "counterparty" != "line" && "doc" != "line"
  {
  }

  lemma WordsRead(d: Direction, c: Counterparty)
    ensures Value(DirectionText(d)) && DirectionOf(DirectionText(d)) == Some(d)
    ensures Value(CounterpartyText(c)) && CounterpartyOf(CounterpartyText(c)) == Some(c)
  {
  }

  lemma EntriesArePrintable(types: set<string>, c: FieldContract)
    requires PlainTypes(types) && WellFormed(types, c)
    ensures Printable(CLAUSE_KEYS, Entries(c))
  {
    AttributesTextIsValue(types, c.doc);
    AttributesTextIsValue(types, c.line);
    WordsRead(c.direction, c.counterparty);
    KeysArePlain();
    FourPrintable(CLAUSE_KEYS, Entries(c));
  }

  predicate Readable(keys: set<string>, e: Entry) {
    Plain(e.key) && e.key in keys && Value(e.text)
  }

  lemma FourPrintable(keys: set<string>, e: seq<Entry>)
    requires |e| == 4 && Readable(keys, e[0]) && Readable(keys, e[1]) && Readable(keys, e[2]) && Readable(keys, e[3])
    requires e[0].key != e[1].key && e[0].key != e[2].key && e[0].key != e[3].key
    requires e[1].key != e[2].key && e[1].key != e[3].key && e[2].key != e[3].key
    ensures Printable(keys, e)
  {
    forall i | 0 <= i < 4 ensures Readable(keys, e[i]) {
    }
  }

  lemma FourHeld(keys: set<string>, e: seq<Entry>)
    requires |e| == 4 && Printable(keys, e)
    ensures var m := TableOf(e);
            && e[0].key in m && m[e[0].key] == e[0].text && e[1].key in m && m[e[1].key] == e[1].text
            && e[2].key in m && m[e[2].key] == e[2].text && e[3].key in m && m[e[3].key] == e[3].text
  {
    TableHolds(e, 0);
    TableHolds(e, 1);
    TableHolds(e, 2);
    TableHolds(e, 3);
  }

  lemma EntriesInterpret(types: set<string>, c: FieldContract)
    requires PlainTypes(types) && WellFormed(types, c)
    requires Printable(CLAUSE_KEYS, Entries(c))
    ensures Interpret(types, TableOf(Entries(c))) == Ok(c)
  {
    AttributesTextIsValue(types, c.doc);
    AttributesTextIsValue(types, c.line);
    WordsRead(c.direction, c.counterparty);
    KeysArePlain();
    FourHeld(CLAUSE_KEYS, Entries(c));
    AttributesRoundTrip(types, c.doc);
    AttributesRoundTrip(types, c.line);
  }

  /** Parsing the canonical print of a well-formed contract returns it. */
  lemma ParseUndoesPrint(c: FieldContract)
    requires WellFormed(ATTR_TYPES, c)
    ensures ContractOf(ContractText(c)) == Ok(c)
  {
    AttrTypesArePlain();
    EntriesArePrintable(ATTR_TYPES, c);
    EntriesInterpret(ATTR_TYPES, c);
    ClausesRoundTrip(CLAUSE_KEYS, Entries(c));
  }

  // ---------------------------------------------------------------------------
  // Every accepted cell is well formed, and printing it is stable
  // ---------------------------------------------------------------------------

  lemma AddKeepsWellFormed(types: set<string>, out: seq<Attribute>, token: string)
    requires WellFormedAttributes(types, out) && AddAttribute(types, out, token).Ok?
    ensures WellFormedAttributes(types, AddAttribute(types, out, token).value)
  {
    assert forall i :: 0 <= i < |out| ==> out[i].name in Names(out);
  }

  lemma {:induction false} AcceptedAttributes(types: set<string>, tokens: seq<string>)
    requires ReadAttributes(types, tokens).Ok?
    ensures WellFormedAttributes(types, ReadAttributes(types, tokens).value)
  {
    if |tokens| > 0 {
      AcceptedAttributes(types, tokens[..|tokens| - 1]);
      AddKeepsWellFormed(types, ReadAttributes(types, tokens[..|tokens| - 1]).value, Strip(tokens[|tokens| - 1]));
    }
  }

  lemma AcceptedIsWellFormed(raw: string)
    requires ContractOf(raw).Ok?
    ensures WellFormed(ATTR_TYPES, ContractOf(raw).value)
  {
    var clauses := ClausesOf(CLAUSE_KEYS, raw).value;
    AcceptedAttributes(ATTR_TYPES, Split(Get(clauses, "doc"), ','));
    AcceptedAttributes(ATTR_TYPES, Split(Get(clauses, "line"), ','));
  }

  /** The contracts the parser can return are exactly the well-formed ones, and printing what
      was parsed and parsing that again changes nothing. */
  lemma PrintThenParseIsStable(raw: string, c: FieldContract)
    ensures ContractOf(raw).Ok? ==> ContractOf(ContractText(ContractOf(raw).value)) == ContractOf(raw)
    ensures (exists text :: ContractOf(text) == Ok(c)) <==> WellFormed(ATTR_TYPES, c)
  {
    if ContractOf(raw).Ok? {
      AcceptedIsWellFormed(raw);
      ParseUndoesPrint(ContractOf(raw).value);
    }
    if WellFormed(ATTR_TYPES, c) {
      ParseUndoesPrint(c);
    }
    forall text | ContractOf(text) == Ok(c) ensures WellFormed(ATTR_TYPES, c) {
      AcceptedIsWellFormed(text);
    }
  }

  // ---------------------------------------------------------------------------
  // Names: `$` also matches before a final newline
  // ---------------------------------------------------------------------------

  predicate NewlineColonAt(s: string, i: int) {
    0 <= i < |s| - 1 && s[i] == '\n' && s[i + 1] == ':'
  }

  predicate NewlineColon(s: string) {
    exists i :: 0 <= i < |s| && NewlineColonAt(s, i)
  }

  lemma TokenIsNameAndKind(types: set<string>, token: string)
    requires PlainTypes(types) && token != "" && ParseAttribute(types, token).Ok?
    ensures AttributeText(ParseAttribute(types, token).value) == token
  {
    var required := token[|token| - 1] == '!';
    var body := if required then token[..|token| - 1] else token;
    assert token == body + if required then "!" else "";
  }

  lemma OnlyColon(name: string, rest: string)
    requires name != "" && Lacks(name, ':') && Lacks(rest, ':')
    ensures NewlineColon(name + ":" + rest) <==> name[|name| - 1] == '\n'
  {
    var s, n := name + ":" + rest, |name|;
    assert forall i :: 0 <= i < n ==> s[i] == name[i];
    assert forall i :: 0 <= i < |rest| ==> s[n + 1 + i] == rest[i];
    assert forall i :: 0 <= i < |s| && s[i] == ':' ==> i == n;
    if name[n - 1] == '\n' {
      assert NewlineColonAt(s, n - 1);
    }
  }

  lemma MatchedName(name: string)
    requires MatchesName(name)
    ensures Lacks(name, ':') && (LegalName(name) <==> name[|name| - 1] != '\n')
  {
  }

  /** In an accepted token the name is legal unless a newline stands before the colon. */
  lemma TokenName(types: set<string>, token: string)
    requires PlainTypes(types) && token != "" && ParseAttribute(types, token).Ok?
    ensures token[0] != ':'
    ensures LegalName(ParseAttribute(types, token).value.name) <==> !NewlineColon(token)
  {
    TokenIsNameAndKind(types, token);
    var a := ParseAttribute(types, token).value;
    var rest := a.kind + if a.required then "!" else "";
    assert KindChars(a.kind);
    MatchedName(a.name);
    OnlyColon(a.name, rest);
    assert token == a.name + ":" + rest;
  }

  /** Stripping does not hide a newline before a colon from an accepted token. */
  lemma StripKeepsNewlineColon(part: string)
    requires Strip(part) != "" ==> Strip(part)[0] != ':'
    ensures NewlineColon(part) <==> NewlineColon(Strip(part))
  {
    var token, k := Strip(part), Margin(part);
    StripShape(part);
    StripTakesSpace(part);
    assert forall i :: 0 <= i < |token| ==> part[k + i] == token[i];
    if NewlineColon(part) {
      var i :| 0 <= i < |part| && NewlineColonAt(part, i);
      assert !IsSpace(part[i + 1]);
      assert NewlineColonAt(token, i - k);
    }
    if NewlineColon(token) {
      var i :| 0 <= i < |token| && NewlineColonAt(token, i);
      assert NewlineColonAt(part, k + i);
    }
  }

  lemma NewlineColonShifts(s: string, part: string, k: nat)
    requires k + |part| <= |s| && forall i :: 0 <= i < |part| ==> s[k + i] == part[i]
    ensures NewlineColon(part) ==> NewlineColon(s)
  {
    if NewlineColon(part) {
      var i :| 0 <= i < |part| && NewlineColonAt(part, i);
      assert NewlineColonAt(s, k + i);
    }
  }

  lemma NewlineColonConcat(a: string, b: string)
    ensures NewlineColon(a + "," + b) <==> NewlineColon(a) || NewlineColon(b)
  {
    var s, n := a + "," + b, |a| + 1;
    NewlineColonShifts(s, a, 0);
    NewlineColonShifts(s, b, n);
    if NewlineColon(s) {
      var i :| 0 <= i < |s| && NewlineColonAt(s, i);
      assert s[|a|] == ',';
      assert if i < |a| then NewlineColonAt(a, i) else NewlineColonAt(b, i - n);
    }
  }

  lemma {:induction false} NewlineColonGlue(parts: seq<string>)
    ensures NewlineColon(Glue(parts, ',')) <==> exists i :: 0 <= i < |parts| && NewlineColon(parts[i])
  {
    if |parts| > 1 {
      NewlineColonConcat(parts[0], Glue(parts[1..], ','));
      NewlineColonGlue(parts[1..]);
      assert forall i :: 1 <= i < |parts| ==> parts[i] == parts[1..][i - 1];
    }
  }

  predicate AllLegal(attributes: seq<Attribute>) {
    forall i :: 0 <= i < |attributes| ==> LegalName(attributes[i].name)
  }

  predicate AnyNewlineColon(parts: seq<string>) {
    exists i :: 0 <= i < |parts| && NewlineColon(parts[i])
  }

  lemma PartNames(types: set<string>, out: seq<Attribute>, part: string)
    requires PlainTypes(types) && AddAttribute(types, out, Strip(part)).Ok?
    ensures AllLegal(AddAttribute(types, out, Strip(part)).value) <==> AllLegal(out) && !NewlineColon(part)
  {
    var token := Strip(part);
    if token == "" {
      StripKeepsNewlineColon(part);
    } else {
      TokenName(types, token);
      StripKeepsNewlineColon(part);
      var a := ParseAttribute(types, token).value;
      assert (out + [a])[|out|] == a;
      assert forall i :: 0 <= i < |out| ==> (out + [a])[i] == out[i];
    }
  }

  lemma {:induction false} TokenNames(types: set<string>, parts: seq<string>)
    requires PlainTypes(types) && ReadAttributes(types, parts).Ok?
    ensures AllLegal(ReadAttributes(types, parts).value) <==> !AnyNewlineColon(parts)
  {
    if |parts| > 0 {
      var front, last := parts[..|parts| - 1], parts[|parts| - 1];
      TokenNames(types, front);
      PartNames(types, ReadAttributes(types, front).value, last);
      OneMore(front, last);
      assert front + [last] == parts;
    }
  }

  lemma OneMore(front: seq<string>, last: string)
    ensures AnyNewlineColon(front + [last]) <==> AnyNewlineColon(front) || NewlineColon(last)
  {
    var parts := front + [last];
    assert parts[|front|] == last;
    assert forall i :: 0 <= i < |front| ==> parts[i] == front[i];
  }

  /** An accepted attribute list has only legal names exactly when its text has no newline
      directly before a colon. */
  lemma NamesAreLegal(raw: string)
    requires AttributesOf(ATTR_TYPES, raw).Ok?
    ensures AllLegal(AttributesOf(ATTR_TYPES, raw).value) <==> !NewlineColon(raw)
  {
    AttrTypesArePlain();
    TokenNames(ATTR_TYPES, Split(raw, ','));
    GlueSplit(raw, ',');
    NewlineColonGlue(Split(raw, ','));
  }

  lemma NewlineToken()
    ensures var token := "a\n:text";
            Split(token, ',') == [token] && Strip(token) == token && Cut(token, ':') == Some(("a\n", "text"))
  {
    var token := "a\n:text";
    assert Lacks(token, ',');
    StripKeeps(token);
    CutAt("a\n", ':', "text");
    assert "a\n" + [':'] + "text" == token;
  }

  /** There is such a text: `a`, a newline, `:text` is accepted with the name `a` and newline. */
  lemma NewlineNameIsAccepted()
    ensures AttributesOf(ATTR_TYPES, "a\n:text") == Ok([Attribute("a\n", "text", false)])
    ensures !AllLegal(AttributesOf(ATTR_TYPES, "a\n:text").value)
  {
    var token := "a\n:text";
    NewlineToken();
    assert "a\n"[..1] == "a" && LegalName("a") && MatchesName("a\n");
    assert ParseAttribute(ATTR_TYPES, token) == Ok(Attribute("a\n", "text", false));
    assert [token][..0] == [] && ReadAttributes(ATTR_TYPES, []) == Ok([]);
    var a, none: seq<Attribute> := Attribute("a\n", "text", false), [];
    assert a.name !in Names(none) && none + [a] == [a];
    assert AddAttribute(ATTR_TYPES, none, token) == Ok([a]);
    assert ReadAttributes(ATTR_TYPES, [token]) == AddAttribute(ATTR_TYPES, [], Strip(token));
    assert "a\n"[1] == '\n' && !NameChar('\n');
    assert !LegalName([Attribute("a\n", "text", false)][0].name);
  }
}
