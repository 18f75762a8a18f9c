/** GSTR-3B statements (src/silver/gstn_returns/gstr3b.py): fixed boxes, two lists of rows with
    closed vocabularies, and the same whole-statement supersession. */
module Gstr3b {
  import opened Prelude
  import opened Hashing
  import Bitemporal
  import Statements

  const ITC_AVL_TYPES: set<string> := {"IMPG", "IMPS", "ISRC", "ISD", "OTH"}
  const ITC_REV_INELG_TYPES: set<string> := {"RUL", "OTH"}
  const INWARD_SUPPLY_TYPES: set<string> := {"GST", "NONGST"}

  /** Decimals are their printed text. */
  type Amount = string

  datatype ItcDetail = ItcDetail(box: string, itcType: string, igst: Amount, cgst: Amount, sgst: Amount, cess: Amount)

  datatype InwardSupply = InwardSupply(supplyType: string, interState: Amount, intraState: Amount)

  datatype Five = Five(taxable: Amount, igst: Amount, cgst: Amount, sgst: Amount, cess: Amount)
  datatype Three = Three(taxable: Amount, igst: Amount, cess: Amount)
  datatype Four = Four(igst: Amount, cgst: Amount, sgst: Amount, cess: Amount)

  datatype Boxes = Boxes(osupDet: Five, osupZero: Three, osupNilExempt: Amount, isupRev: Five, osupNongst: Amount, itcNet: Four, interest: Four)

  datatype Statement = Statement(
    gstin: string, returnPeriod: string, arn: Option<string>, filingDate: Option<string>, filingStatus: Option<string>,
    boxes: Boxes, itcDetail: seq<ItcDetail>, inwardSupply: seq<InwardSupply>)

  // ---------------------------------------------------------------------------
  // The payload and its parse
  // ---------------------------------------------------------------------------

  datatype ItcRow = ItcRow(ty: string, iamt: Option<Amount>, camt: Option<Amount>, samt: Option<Amount>, csamt: Option<Amount>)

  datatype InwardRow = InwardRow(ty: string, inter: Option<Amount>, intra: Option<Amount>)

  /** `boxes` holds the fixed amounts, each absent one already zero. */
  datatype Payload = Payload(
    gstin: string, retPeriod: string, arn: Option<string>, filingDate: Option<string>, filingStatus: Option<string>,
    boxes: Boxes, unregistered: seq<string>, composition: seq<string>, uin: seq<string>,
    available: seq<ItcRow>, reversed: seq<ItcRow>, ineligible: seq<ItcRow>, inward: seq<InwardRow>)

  datatype Refusal = Malformed | PeriodMismatch(found: string) | UnparsedInterState | UnknownType(box: string, ty: string)

  function OrZero(a: Option<Amount>): Amount { if a.None? then "0" else a.value }

  function DetailOf(box: string, row: ItcRow): ItcDetail {
    ItcDetail(box, row.ty, OrZero(row.iamt), OrZero(row.camt), OrZero(row.samt), OrZero(row.csamt))
  }

  /** The rows of one box, or the first type outside its vocabulary. */
  function ItcRows(box: string, rows: seq<ItcRow>, allowed: set<string>): Result<seq<ItcDetail>, Refusal> {
    if rows == [] then Ok([])
    else
      var before, row := ItcRows(box, rows[..|rows| - 1], allowed), rows[|rows| - 1];
      if before.Err? then before
      else if row.ty !in allowed then Err(UnknownType(box, row.ty))
      else Ok(before.value + [DetailOf(box, row)])
  }

  function SupplyOf(row: InwardRow): InwardSupply { InwardSupply(row.ty, OrZero(row.inter), OrZero(row.intra)) }

  function InwardRows(rows: seq<InwardRow>, allowed: set<string>): Result<seq<InwardSupply>, Refusal> {
    if rows == [] then Ok([])
    else
      var before, row := InwardRows(rows[..|rows| - 1], allowed), rows[|rows| - 1];
      if before.Err? then before
      else if row.ty !in allowed then Err(UnknownType("inward_sup", row.ty))
      else Ok(before.value + [SupplyOf(row)])
  }

  /** A box is accepted exactly when every type is of its vocabulary, and then row by row. */
  lemma {:induction false} ItcRowsAccepted(box: string, rows: seq<ItcRow>, allowed: set<string>)
    ensures ItcRows(box, rows, allowed).Ok? <==> forall i :: 0 <= i < |rows| ==> rows[i].ty in allowed
    ensures ItcRows(box, rows, allowed).Ok? ==>
              && |ItcRows(box, rows, allowed).value| == |rows|
              && forall i :: 0 <= i < |rows| ==> ItcRows(box, rows, allowed).value[i] == DetailOf(box, rows[i])
  {
    if rows != [] {
      ItcRowsAccepted(box, rows[..|rows| - 1], allowed);
    }
  }

  lemma {:induction false} InwardRowsAccepted(rows: seq<InwardRow>, allowed: set<string>)
    ensures InwardRows(rows, allowed).Ok? <==> forall i :: 0 <= i < |rows| ==> rows[i].ty in allowed
    ensures InwardRows(rows, allowed).Ok? ==>
              && |InwardRows(rows, allowed).value| == |rows|
              && forall i :: 0 <= i < |rows| ==> InwardRows(rows, allowed).value[i] == SupplyOf(rows[i])
  {
    if rows != [] {
      InwardRowsAccepted(rows[..|rows| - 1], allowed);
    }
  }

  lemma {:induction false} ItcFaultStays(box: string, rows: seq<ItcRow>, allowed: set<string>, n: nat)
    requires n <= |rows| && ItcRows(box, rows[..n], allowed).Err?
    ensures ItcRows(box, rows, allowed) == ItcRows(box, rows[..n], allowed)
    decreases |rows|
  {
    if n == |rows| {
      assert rows[..n] == rows;
    } else {
      assert rows[..|rows| - 1][..n] == rows[..n];
      ItcFaultStays(box, rows[..|rows| - 1], allowed, n);
    }
  }

  lemma {:induction false} InwardFaultStays(rows: seq<InwardRow>, allowed: set<string>, n: nat)
    requires n <= |rows| && InwardRows(rows[..n], allowed).Err?
    ensures InwardRows(rows, allowed) == InwardRows(rows[..n], allowed)
    decreases |rows|
  {
    if n == |rows| {
      assert rows[..n] == rows;
    } else {
      assert rows[..|rows| - 1][..n] == rows[..n];
      InwardFaultStays(rows[..|rows| - 1], allowed, n);
    }
  }

  method ParseItcRows(box: string, rows: seq<ItcRow>, allowed: set<string>) returns (r: Result<seq<ItcDetail>, Refusal>)
    ensures r == ItcRows(box, rows, allowed)
  {
    var out: seq<ItcDetail> := [];
    for i := 0 to |rows|
      invariant ItcRows(box, rows[..i], allowed) == Ok(out)
    {
      assert rows[..i + 1][..i] == rows[..i];
      if rows[i].ty !in allowed {
        ItcFaultStays(box, rows, allowed, i + 1);
        return Err(UnknownType(box, rows[i].ty));
      }
      out := out + [DetailOf(box, rows[i])];
    }
    assert rows[..|rows|] == rows;
    return Ok(out);
  }

  method ParseInwardSupply(rows: seq<InwardRow>, allowed: set<string>) returns (r: Result<seq<InwardSupply>, Refusal>)
    ensures r == InwardRows(rows, allowed)
  {
    var out: seq<InwardSupply> := [];
    for i := 0 to |rows|
      invariant InwardRows(rows[..i], allowed) == Ok(out)
    {
      assert rows[..i + 1][..i] == rows[..i];
      if rows[i].ty !in allowed {
        InwardFaultStays(rows, allowed, i + 1);
        return Err(UnknownType("inward_sup", rows[i].ty));
      }
      out := out + [SupplyOf(rows[i])];
    }
    assert rows[..|rows|] == rows;
    return Ok(out);
  }

  /** The statement a payload stands for; `expected` is the month and year of the period asked for. */
  function StatementOf(payload: Option<Payload>, expected: string): Result<Statement, Refusal> {
    match payload
    case None => Err(Malformed)
    case Some(p) =>
      if p.retPeriod != expected then Err(PeriodMismatch(p.retPeriod))
      else if p.unregistered != [] || p.composition != [] || p.uin != [] then Err(UnparsedInterState)
      else
        var avl, rev := ItcRows("AVAILED", p.available, ITC_AVL_TYPES), ItcRows("REVERSED", p.reversed, ITC_REV_INELG_TYPES);
        var inelg, inward := ItcRows("INELIGIBLE", p.ineligible, ITC_REV_INELG_TYPES), InwardRows(p.inward, INWARD_SUPPLY_TYPES);
        if avl.Err? then Err(avl.error) else if rev.Err? then Err(rev.error)
        else if inelg.Err? then Err(inelg.error) else if inward.Err? then Err(inward.error)
        else Ok(Statement(p.gstin, p.retPeriod, p.arn, p.filingDate, p.filingStatus, p.boxes,
                          avl.value + rev.value + inelg.value, inward.value))
  }

  method ParseGstr3b(payload: Option<Payload>, expected: string) returns (r: Result<Statement, Refusal>)
    ensures r == StatementOf(payload, expected)
  {
    if payload.None? {
      return Err(Malformed);
    }
    var p := payload.value;
    if p.retPeriod != expected {
      return Err(PeriodMismatch(p.retPeriod));
    }
    if p.unregistered != [] || p.composition != [] || p.uin != [] {
      return Err(UnparsedInterState);
    }
    var avl := ParseItcRows("AVAILED", p.available, ITC_AVL_TYPES);
    if avl.Err? {
      return Err(avl.error);
    }
    var rev := ParseItcRows("REVERSED", p.reversed, ITC_REV_INELG_TYPES);
    if rev.Err? {
      return Err(rev.error);
    }
    var inelg := ParseItcRows("INELIGIBLE", p.ineligible, ITC_REV_INELG_TYPES);
    if inelg.Err? {
      return Err(inelg.error);
    }
    var inward := ParseInwardSupply(p.inward, INWARD_SUPPLY_TYPES);
    if inward.Err? {
      return Err(inward.error);
    }
    return Ok(Statement(p.gstin, p.retPeriod, p.arn, p.filingDate, p.filingStatus, p.boxes,
                        avl.value + rev.value + inelg.value, inward.value));
  }

  // ---------------------------------------------------------------------------
  // Content identity
  // ---------------------------------------------------------------------------

  function OrEmpty(text: Option<string>): string { if text.None? then "" else text.value }

  function FiveParts(a: Five): seq<string> { [a.taxable, a.igst, a.cgst, a.sgst, a.cess] }

  function FourParts(a: Four): seq<string> { [a.igst, a.cgst, a.sgst, a.cess] }

  function BoxParts(b: Boxes): seq<string> {
    FiveParts(b.osupDet) + [b.osupZero.taxable, b.osupZero.igst, b.osupZero.cess] + [b.osupNilExempt]
    + FiveParts(b.isupRev) + [b.osupNongst] + FourParts(b.itcNet) + FourParts(b.interest)
  }

  function HeaderParts(s: Statement): seq<string> {
    [s.gstin, s.returnPeriod, OrEmpty(s.arn)] + BoxParts(s.boxes)
  }

  function DetailParts(d: ItcDetail): seq<string> { [d.box, d.itcType, d.igst, d.cgst, d.sgst, d.cess] }

  function SupplyParts(s: InwardSupply): seq<string> { [s.supplyType, s.interState, s.intraState] }

  function DetailRows(ds: seq<ItcDetail>): seq<Statements.Parts> {
    seq(|ds|, i requires 0 <= i < |ds| => DetailParts(ds[i]))
  }

  function SupplyRows(ss: seq<InwardSupply>): seq<Statements.Parts> {
    seq(|ss|, i requires 0 <= i < |ss| => SupplyParts(ss[i]))
  }

  function DocumentHash(sha: Sha, s: Statement): string {
    Statements.StatementHash(sha, HeaderParts(s), DetailRows(s.itcDetail), SupplyRows(s.inwardSupply))
  }

  predicate Clean(s: Statement) {
    && Fields(HeaderParts(s))
    && (forall i :: 0 <= i < |s.itcDetail| ==> Fields(DetailParts(s.itcDetail[i])))
    && (forall i :: 0 <= i < |s.inwardSupply| ==> Fields(SupplyParts(s.inwardSupply[i])))
  }

  /** Equal as far as the hash can tell: the filing date and status are not in it. */
  predicate SameContent(a: Statement, b: Statement) {
    && a.gstin == b.gstin && a.returnPeriod == b.returnPeriod && OrEmpty(a.arn) == OrEmpty(b.arn)
    && a.boxes == b.boxes && a.itcDetail == b.itcDetail && a.inwardSupply == b.inwardSupply
  }

  lemma SplitEqual<T>(a: seq<T>, b: seq<T>, c: seq<T>, d: seq<T>)
    requires |a| == |c|
    ensures a + b == c + d <==> a == c && b == d
  {
    if a + b == c + d {
      assert (a + b)[..|a|] == a && (c + d)[..|a|] == c;
      assert (a + b)[|a|..] == b && (c + d)[|a|..] == d;
    }
  }

  lemma FiveAgree(a: Five, b: Five)
    ensures FiveParts(a) == FiveParts(b) <==> a == b
  {
    var p, q := FiveParts(a), FiveParts(b);
    assert p == q ==> p[0] == q[0] && p[1] == q[1] && p[2] == q[2] && p[3] == q[3] && p[4] == q[4];
  }

  lemma FourAgree(a: Four, b: Four)
    ensures FourParts(a) == FourParts(b) <==> a == b
  {
    var p, q := FourParts(a), FourParts(b);
    assert p == q ==> p[0] == q[0] && p[1] == q[1] && p[2] == q[2] && p[3] == q[3];
  }

  /** The twenty-three amounts, laid end to end without names, still determine the boxes. */
  lemma BoxesAgree(a: Boxes, b: Boxes)
    ensures BoxParts(a) == BoxParts(b) <==> a == b
  {
    var a1, b1 := FiveParts(a.osupDet), FiveParts(b.osupDet);
    var a2, b2 := [a.osupZero.taxable, a.osupZero.igst, a.osupZero.cess], [b.osupZero.taxable, b.osupZero.igst, b.osupZero.cess];
    var a3, b3 := a1 + a2 + [a.osupNilExempt], b1 + b2 + [b.osupNilExempt];
    var a4, b4 := a3 + FiveParts(a.isupRev), b3 + FiveParts(b.isupRev);
    var a5, b5 := a4 + [a.osupNongst], b4 + [b.osupNongst];
    var a6, b6 := a5 + FourParts(a.itcNet), b5 + FourParts(b.itcNet);
    SplitEqual(a6, FourParts(a.interest), b6, FourParts(b.interest));
    SplitEqual(a5, FourParts(a.itcNet), b5, FourParts(b.itcNet));
    SplitEqual(a4, [a.osupNongst], b4, [b.osupNongst]);
    SplitEqual(a3, FiveParts(a.isupRev), b3, FiveParts(b.isupRev));
    SplitEqual(a1 + a2, [a.osupNilExempt], b1 + b2, [b.osupNilExempt]);
    SplitEqual(a1, a2, b1, b2);
    FiveAgree(a.osupDet, b.osupDet);
    FiveAgree(a.isupRev, b.isupRev);
    FourAgree(a.itcNet, b.itcNet);
    FourAgree(a.interest, b.interest);
    assert a2 == b2 ==> a2[0] == b2[0] && a2[1] == b2[1] && a2[2] == b2[2];
    assert [a.osupNongst] == [b.osupNongst] ==> [a.osupNongst][0] == [b.osupNongst][0];
    assert [a.osupNilExempt] == [b.osupNilExempt] ==> [a.osupNilExempt][0] == [b.osupNilExempt][0];
  }

  lemma HeadersAgree(a: Statement, b: Statement)
    ensures |HeaderParts(a)| == 26
    ensures HeaderParts(a) == HeaderParts(b)
            <==> a.gstin == b.gstin && a.returnPeriod == b.returnPeriod && OrEmpty(a.arn) == OrEmpty(b.arn) && a.boxes == b.boxes
  {
    var p, q := [a.gstin, a.returnPeriod, OrEmpty(a.arn)], [b.gstin, b.returnPeriod, OrEmpty(b.arn)];
    SplitEqual(p, BoxParts(a.boxes), q, BoxParts(b.boxes));
    BoxesAgree(a.boxes, b.boxes);
    assert p == q ==> p[0] == q[0] && p[1] == q[1] && p[2] == q[2];
  }

  lemma DetailAgrees(a: ItcDetail, b: ItcDetail)
    ensures DetailParts(a) == DetailParts(b) <==> a == b
  {
    var p, q := DetailParts(a), DetailParts(b);
    assert p == q ==> p[0] == q[0] && p[1] == q[1] && p[2] == q[2] && p[3] == q[3] && p[4] == q[4] && p[5] == q[5];
  }

  lemma SupplyAgrees(a: InwardSupply, b: InwardSupply)
    ensures SupplyParts(a) == SupplyParts(b) <==> a == b
  {
    var p, q := SupplyParts(a), SupplyParts(b);
    assert p == q ==> p[0] == q[0] && p[1] == q[1] && p[2] == q[2];
  }

  lemma DetailRowsAgree(a: seq<ItcDetail>, b: seq<ItcDetail>)
    ensures DetailRows(a) == DetailRows(b) <==> a == b
  {
    if DetailRows(a) == DetailRows(b) {
      assert |a| == |DetailRows(a)| == |b|;
      forall i | 0 <= i < |a| ensures a[i] == b[i] {
        assert DetailRows(a)[i] == DetailRows(b)[i];
        DetailAgrees(a[i], b[i]);
      }
    }
  }

  lemma SupplyRowsAgree(a: seq<InwardSupply>, b: seq<InwardSupply>)
    ensures SupplyRows(a) == SupplyRows(b) <==> a == b
  {
    if SupplyRows(a) == SupplyRows(b) {
      assert |a| == |SupplyRows(a)| == |b|;
      forall i | 0 <= i < |a| ensures a[i] == b[i] {
        assert SupplyRows(a)[i] == SupplyRows(b)[i];
        SupplyAgrees(a[i], b[i]);
      }
    }
  }

  /** The flat hash over twenty-six header parts, six-part rows and three-part rows determines
      the amounts and both lists. */
  lemma DocumentHashIsIdentity(sha: Sha, a: Statement, b: Statement)
    requires Ideal(sha) && Clean(a) && Clean(b)
    ensures DocumentHash(sha, a) == DocumentHash(sha, b) <==> SameContent(a, b)
  {
    HeadersAgree(a, b);
    HeadersAgree(b, a);
    DetailRowsAgree(a.itcDetail, b.itcDetail);
    SupplyRowsAgree(a.inwardSupply, b.inwardSupply);
    Statements.StatementHashIdentifies(sha, HeaderParts(a), DetailRows(a.itcDetail), SupplyRows(a.inwardSupply),
                                       HeaderParts(b), DetailRows(b.itcDetail), SupplyRows(b.inwardSupply), 6, 3);
  }

  /** A statement refiled with another date or status is taken as unchanged. */
  lemma FilingIsNotSeen(sha: Sha, s: Statement, date: Option<string>, status: Option<string>)
    ensures DocumentHash(sha, s.(filingDate := date, filingStatus := status)) == DocumentHash(sha, s)
  {
    assert HeaderParts(s.(filingDate := date, filingStatus := status)) == HeaderParts(s);
  }

  // ---------------------------------------------------------------------------
  // The load
  // ---------------------------------------------------------------------------

  datatype Child = OfDetail(detail: ItcDetail) | OfSupply(supply: InwardSupply)

  function ChildrenOf(s: Statement): seq<Child> {
    seq(|s.itcDetail| + |s.inwardSupply|, i requires 0 <= i < |s.itcDetail| + |s.inwardSupply| =>
      if i < |s.itcDetail| then OfDetail(s.itcDetail[i]) else OfSupply(s.inwardSupply[i - |s.itcDetail|]))
  }

  function RowCountOf(s: Statement): nat { |s.itcDetail| + |s.inwardSupply| }

  lemma HashIdentifies(sha: Sha, hashOf: Statement -> string)
    requires Ideal(sha) && forall s :: hashOf(s) == DocumentHash(sha, s)
    ensures Statements.Identifies(hashOf, Clean, SameContent)
  {
    forall a, b | Clean(a) && Clean(b) ensures hashOf(a) == hashOf(b) <==> SameContent(a, b) {
      DocumentHashIsIdentity(sha, a, b);
    }
  }

  /** One payload: refused, unchanged, or stored with one batch exactly when the live statement
      of the entity, GSTIN and period differs in its hashed content. */
  method Load(loader: Statements.StatementLoader<Statement, Child>, sha: Sha, key: Statements.Key, end: int, ingest: nat,
              contentHash: string, payload: Option<Payload>, expected: string, now: int) returns (r: Result<Statements.LoadOutcome, Refusal>)
    requires loader.Valid() && Statements.Configured(loader, s => DocumentHash(sha, s), ChildrenOf, RowCountOf)
    requires Ideal(sha) && Bitemporal.Chained(loader.headers)
    requires StatementOf(payload, expected).Ok? ==> Statements.AllClean(loader.headers, StatementOf(payload, expected).value, Clean)
    modifies loader
    ensures loader.Valid() && Bitemporal.Chained(loader.headers)
    ensures r.Ok? <==> StatementOf(payload, expected).Ok?
    ensures r.Err? ==> r.error == StatementOf(payload, expected).error
                       && loader.headers == old(loader.headers) && loader.batches == old(loader.batches) && loader.children == old(loader.children)
    ensures r.Ok? ==>
              var s := StatementOf(payload, expected).value;
              && r.value.rowCount == |s.itcDetail| + |s.inwardSupply|
              && (r.value.inserted <==> !Statements.AlreadyLive(old(loader.headers), key, s, SameContent))
              && |loader.batches| == |old(loader.batches)| + (if r.value.inserted then 1 else 0)
              && (!r.value.inserted ==> loader.headers == old(loader.headers) && loader.children == old(loader.children))
              && Statements.AlreadyLive(loader.headers, key, s, SameContent)
  {
    var parsed := ParseGstr3b(payload, expected);
    if parsed.Err? {
      return Err(parsed.error);
    }
    HashIdentifies(sha, loader.hashOf);
    var outcome := Statements.LoadContent(loader, key, end, ingest, contentHash, parsed.value, now, Clean, SameContent);
    return Ok(outcome);
  }
}
