/** The GSTIN check character, a Luhn construction over 36 symbols (gstin_checksum and mk_gstin in
    reference/B-Documents/inafin_mock_categoryB/_generator/core.py): every second symbol is
    doubled, the two base-36 digits of each product are added up, and the check character brings
    the total to a multiple of 36.  The payload may have any even length; the generator's has
    fourteen symbols. */
module GstinCheck {
  import opened Prelude

  const ALPHABET := "0123456789ABCDEFGHIJKLMNOPQRSTUVWXYZ"

  type Symbol = v: nat | v < 36

  /** CH.index; None is its ValueError. */
  function IndexOf(c: char): Option<Symbol> {
    if '0' <= c <= '9' then Some((c as int) - ('0' as int))
    else if 'A' <= c <= 'Z' then Some((c as int) - ('A' as int) + 10)
    else None
  }

  function CharAt(v: Symbol): char {
    ALPHABET[v]
  }

  lemma IndexOfAlphabet(v: Symbol)
    ensures IndexOf(CharAt(v)) == Some(v)
  {
    assert forall i :: 0 <= i < 10 ==> ALPHABET[i] as int == ('0' as int) + i;
    assert forall i :: 10 <= i < 36 ==> ALPHABET[i] as int == ('A' as int) + i - 10;
  }

  function Symbols(s: string): (r: Option<seq<Symbol>>)
    ensures r.Some? ==> |r.value| == |s|
  {
    if s == [] then Some([])
    else
      var before := Symbols(s[..|s| - 1]);
      var last := IndexOf(s[|s| - 1]);
      if before.Some? && last.Some? then Some(before.value + [last.value]) else None
  }

  lemma {:induction false} SymbolsRead(s: string)
    ensures Symbols(s).Some? <==> forall i :: 0 <= i < |s| ==> IndexOf(s[i]).Some?
    ensures Symbols(s).Some? ==> forall i :: 0 <= i < |s| ==> IndexOf(s[i]) == Some(Symbols(s).value[i])
  {
    if s != [] {
      SymbolsRead(s[..|s| - 1]);
    }
  }

  /** What position i adds to the total: the symbol itself, or at odd positions the sum of the
      two base-36 digits of its double. */
  function Term(i: nat, v: Symbol): nat {
    if !Odd(i) then v else if v < 18 then 2 * v else 2 * v - 35
  }

  predicate Odd(i: nat) {
    i != 0 && !Odd(i - 1)
  }

  lemma {:induction false} OddIsParity(i: nat)
    ensures Odd(i) <==> i % 2 == 1
  {
    if i > 0 {
      OddIsParity(i - 1);
    }
  }

  lemma DigitsOfProduct(i: nat, v: Symbol)
    ensures var a := (if i % 2 == 1 then 2 else 1) * v;
            a / 36 + a % 36 == Term(i, v)
  {
    OddIsParity(i);
  }

  function Total(vs: seq<Symbol>): nat {
    if vs == [] then 0 else Total(vs[..|vs| - 1]) + Term(|vs| - 1, vs[|vs| - 1])
  }

  /** None when a character is outside the alphabet. */
  method GstinChecksum(payload: string) returns (r: Option<char>)
    ensures r.Some? <==> Symbols(payload).Some?
    ensures r.Some? ==>
              && IndexOf(r.value).Some?
              && Vanishes(Total(Symbols(payload).value) + IndexOf(r.value).value)
  {
    var total := 0;
    ghost var vs: seq<Symbol> := [];
    for i := 0 to |payload|
      invariant Symbols(payload[..i]) == Some(vs)
      invariant total == Total(vs)
    {
      SymbolsNext(payload, i);
      var v := IndexOf(payload[i]);
      if v.None? {
        SymbolsRead(payload);
        return None;
      }
      var term := Contribution(i, v.value);
      total := total + term;
      TotalNext(vs, v.value);
      vs := vs + [v.value];
    }
    assert payload[..|payload|] == payload;
    var check := (36 - total % 36) % 36;
    CheckCompletes(total);
    IndexOfAlphabet(check);
    r := Some(CharAt(check));
  }

  /** The digits, in base 36, of the weighted character. */
  method Contribution(i: nat, v: Symbol) returns (term: nat)
    ensures term == Term(i, v)
  {
    var f: nat := if i % 2 == 1 then 2 else 1;
    var a: nat := f * v;
    term := a / 36 + a % 36;
    DigitsOfProduct(i, v);
  }

  lemma SymbolsNext(s: string, i: nat)
    requires i < |s| && Symbols(s[..i]).Some?
    ensures Symbols(s[..i + 1]) == if IndexOf(s[i]).Some? then Some(Symbols(s[..i]).value + [IndexOf(s[i]).value]) else None
  {
    assert s[..i + 1][..i] == s[..i];
  }

  lemma TotalNext(vs: seq<Symbol>, v: Symbol)
    ensures Total(vs + [v]) == Total(vs) + Term(|vs|, v)
  {
    assert (vs + [v])[..|vs|] == vs;
  }

  lemma CheckCompletes(total: nat)
    ensures 0 <= (36 - total % 36) % 36 < 36
    ensures (total + (36 - total % 36) % 36) % 36 == 0
  {
    var r := total % 36;
    assert total == 36 * (total / 36) + r;
    if r == 0 {
      assert (36 - r) % 36 == 0;
    } else {
      assert (36 - r) % 36 == 36 - r;
      assert total + (36 - r) == 36 * (total / 36 + 1);
    }
  }

  predicate Vanishes(total: nat) {
    total % 36 == 0
  }

  /** A code is a payload of even length and its check character. */
  ghost predicate ValidCode(code: string) {
    && Odd(|code|)
    && Symbols(code).Some?
    && var vs := Symbols(code).value;
       Vanishes(Total(vs[..|vs| - 1]) + vs[|vs| - 1])
  }

  /** The check character stands at an even position, so it counts once: a code is valid when
      the weighted total of all of it vanishes. */
  lemma ValidWhenTotalVanishes(code: string)
    requires Odd(|code|) && Symbols(code).Some?
    ensures ValidCode(code) <==> Vanishes(Total(Symbols(code).value))
  {
    var vs := Symbols(code).value;
    var n := |vs| - 1;
    assert Total(vs) == Total(vs[..n]) + vs[n];
  }

  lemma CompletedPayloadIsValid(payload: string, check: char)
    requires !Odd(|payload|) && Symbols(payload).Some? && IndexOf(check).Some?
    requires Vanishes(Total(Symbols(payload).value) + IndexOf(check).value)
    ensures ValidCode(payload + [check])
  {
    var code := payload + [check];
    assert code[..|payload|] == payload && code[..|code|] == code;
    SymbolsNext(code, |payload|);
    OneMoreSymbol(Symbols(payload).value, IndexOf(check).value);
  }

  lemma OneMoreSymbol(vs: seq<Symbol>, v: Symbol)
    ensures (vs + [v])[..|vs + [v]| - 1] == vs && (vs + [v])[|vs + [v]| - 1] == v
  {
  }

  /** state + PAN + entity + "Z" and its check character: a valid code whenever those parts make
      an even payload, as the fourteen characters of a GSTIN do. */
  method MkGstin(state: string, pan: string, entity: string) returns (gstin: Option<string>)
    ensures gstin.Some? <==> Symbols(state + pan + entity + "Z").Some?
    ensures gstin.Some? ==>
              && |gstin.value| == |state| + |pan| + |entity| + 2
              && gstin.value[..|gstin.value| - 1] == state + pan + entity + "Z"
              && (!Odd(|gstin.value| - 1) ==> ValidCode(gstin.value))
  {
    var base := state + pan + entity + "Z";
    var check := GstinChecksum(base);
    if check.None? {
      return None;
    }
    if !Odd(|base|) {
      CompletedPayloadIsValid(base, check.value);
    }
    assert (base + [check.value])[..|base|] == base;
    gstin := Some(base + [check.value]);
  }

  // ---------------------------------------------------------------------------
  // Error detection
  // ---------------------------------------------------------------------------

  lemma {:induction false} TotalOfUpdate(vs: seq<Symbol>, i: nat, v: Symbol)
    requires i < |vs|
    ensures Total(vs[i := v]) == Total(vs) - Term(i, vs[i]) + Term(i, v)
  {
    var n := |vs| - 1;
    if i < n {
      TotalOfUpdate(vs[..n], i, v);
      assert vs[i := v][..n] == vs[..n][i := v];
    } else {
      assert vs[i := v][..n] == vs[..n];
    }
  }

  /** At each position the 36 symbols contribute 36 different residues. */
  lemma TermIsInjective(i: nat, v: Symbol, w: Symbol)
    requires v != w
    ensures Term(i, v) != Term(i, w) && Term(i, v) < 36 && Term(i, w) < 36
  {
  }

  /** Two multiples of 36 less than 36 apart are equal. */
  lemma NearMultiples(a: nat, b: nat)
    requires Vanishes(a) && -36 < a - b < 36
    ensures Vanishes(b) <==> a == b
  {
    assert a == 36 * (a / 36);
    assert b == 36 * (b / 36) + b % 36;
  }

  lemma SymbolsOfUpdate(code: string, i: nat, c: char)
    requires i < |code| && Symbols(code).Some? && IndexOf(c).Some?
    ensures Symbols(code[i := c]) == Some(Symbols(code).value[i := IndexOf(c).value])
  {
    var code' := code[i := c];
    SymbolsRead(code);
    SymbolsRead(code');
    assert forall k :: 0 <= k < |code'| ==> IndexOf(code'[k]).Some?;
    assert Symbols(code').value == Symbols(code).value[i := IndexOf(c).value];
  }

  lemma SubstitutedTotal(vs: seq<Symbol>, i: nat, v: Symbol)
    requires i < |vs| && vs[i] != v && Vanishes(Total(vs))
    ensures !Vanishes(Total(vs[i := v]))
  {
    TotalOfUpdate(vs, i, v);
    TermIsInjective(i, vs[i], v);
    NearMultiples(Total(vs), Total(vs[i := v]));
  }

  lemma DifferentCharacters(a: char, b: char)
    requires a != b && IndexOf(a).Some? && IndexOf(b).Some?
    ensures IndexOf(a) != IndexOf(b)
  {
  }

  /** Any single character typed wrong, the check character included, is detected. */
  lemma DetectsSubstitution(code: string, i: nat, c: char)
    requires ValidCode(code) && i < |code| && c != code[i]
    ensures !ValidCode(code[i := c])
  {
    if IndexOf(c).Some? {
      var vs := Symbols(code).value;
      var v := IndexOf(c).value;
      SymbolsRead(code);
      DifferentCharacters(code[i], c);
      SymbolsOfUpdate(code, i, c);
      ValidWhenTotalVanishes(code);
      ValidWhenTotalVanishes(code[i := c]);
      SubstitutedTotal(vs, i, v);
    } else {
      SymbolsRead(code[i := c]);
      assert code[i := c][i] == c;
    }
  }

  lemma SwappedTerms(v: Symbol, w: Symbol, i: nat)
    requires v != w
    ensures -36 < Term(i, v) + Term(i + 1, w) - Term(i, w) - Term(i + 1, v) < 36
    ensures Term(i, v) + Term(i + 1, w) == Term(i, w) + Term(i + 1, v)
            <==> (v == 0 && w == 35) || (v == 35 && w == 0)
  {
    assert (i + 1) % 2 == 0 <==> i % 2 == 1;
  }

  function Swap<T>(s: seq<T>, i: nat): seq<T>
    requires i + 1 < |s|
  {
    s[i := s[i + 1]][i + 1 := s[i]]
  }

  lemma TotalOfSwap(vs: seq<Symbol>, i: nat)
    requires i + 1 < |vs| && vs[i] != vs[i + 1]
    ensures -36 < Total(vs) - Total(Swap(vs, i)) < 36
    ensures Total(vs) == Total(Swap(vs, i)) <==> (vs[i] == 0 && vs[i + 1] == 35) || (vs[i] == 35 && vs[i + 1] == 0)
  {
    TotalOfUpdate(vs, i, vs[i + 1]);
    TotalOfUpdate(vs[i := vs[i + 1]], i + 1, vs[i]);
    SwappedTerms(vs[i], vs[i + 1], i);
  }

  lemma SymbolsOfSwap(code: string, i: nat)
    requires i + 1 < |code| && Symbols(code).Some?
    ensures Symbols(Swap(code, i)) == Some(Swap(Symbols(code).value, i))
  {
    SymbolsRead(code);
    SymbolsOfUpdate(code, i, code[i + 1]);
    SymbolsOfUpdate(code[i := code[i + 1]], i + 1, code[i]);
  }

  /** Swapping two different neighbours goes unnoticed exactly when they are '0' and 'Z'. */
  lemma DetectsTransposition(code: string, i: nat)
    requires ValidCode(code) && i + 1 < |code| && code[i] != code[i + 1]
    ensures ValidCode(Swap(code, i)) <==> {code[i], code[i + 1]} == {'0', 'Z'}
  {
    var vs := Symbols(code).value;
    SymbolsRead(code);
    DifferentCharacters(code[i], code[i + 1]);
    SymbolsOfSwap(code, i);
    TotalOfSwap(vs, i);
    ValidWhenTotalVanishes(code);
    ValidWhenTotalVanishes(Swap(code, i));
    NearMultiples(Total(vs), Total(Swap(vs, i)));
    SamePair(vs[i], vs[i + 1], code[i], code[i + 1]);
  }

  lemma SamePair(v: Symbol, w: Symbol, a: char, b: char)
    requires IndexOf(a) == Some(v) && IndexOf(b) == Some(w)
    ensures (v == 0 && w == 35) || (v == 35 && w == 0) <==> {a, b} == {'0', 'Z'}
  {
    assert IndexOf('0') == Some(0) && IndexOf('Z') == Some(35);
    assert {a, b} == {'0', 'Z'} ==> a in {'0', 'Z'} && b in {'0', 'Z'} && '0' in {a, b} && 'Z' in {a, b};
  }
}
