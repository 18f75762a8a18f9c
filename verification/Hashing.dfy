/** Content identity: sha256 over the field values joined by the unit separator. */
module Hashing {

  // The hash is a parameter.  What is assumed of it, where anything is, is `Ideal`: no two
  // texts collide, and no digest contains the separator (a hex digest does not).

  const SEPARATOR := '\U{1F}'

  type Sha = string -> string

  ghost predicate Ideal(sha: Sha) {
    && (forall x, y :: sha(x) == sha(y) ==> x == y)
    && (forall x :: SEPARATOR !in sha(x))
  }

  predicate Fields(parts: seq<string>) {
    forall p :: p in parts ==> SEPARATOR !in p
  }

  function Join(parts: seq<string>): string {
    if |parts| == 0 then ""
    else if |parts| == 1 then parts[0]
    else parts[0] + [SEPARATOR] + Join(parts[1..])
  }

  function HashOf(sha: Sha, parts: seq<string>): string {
    sha(Join(parts))
  }

  /** The first separator of a joined text is where its first field ends. */
  lemma FirstField(x: string, y: string, r: string, q: string)
    requires SEPARATOR !in x && SEPARATOR !in y
    requires x + [SEPARATOR] + r == y + [SEPARATOR] + q
    ensures x == y && r == q
  {
    var s, t := x + [SEPARATOR] + r, y + [SEPARATOR] + q;
    assert s[|x|] == SEPARATOR && t[|y|] == SEPARATOR;
    assert forall i :: 0 <= i < |x| ==> s[i] == x[i] && x[i] in x;
    assert forall i :: 0 <= i < |y| ==> t[i] == y[i] && y[i] in y;
    assert |x| == |y|;
    assert s[..|x|] == x && t[..|y|] == y;
    assert s[|x| + 1..] == r && t[|y| + 1..] == q;
  }

  /** Joining loses nothing, except that no field and one empty field look alike. */
  lemma {:induction false} JoinIsInjective(a: seq<string>, b: seq<string>)
    requires Fields(a) && Fields(b)
    ensures Join(a) == Join(b) <==> a == b || (a in {[], [""]} && b in {[], [""]})
  {
    if |a| > 1 && |b| > 1 {
      if Join(a) == Join(b) {
        FirstField(a[0], b[0], Join(a[1..]), Join(b[1..]));
        JoinIsInjective(a[1..], b[1..]);
        assert a == [a[0]] + a[1..] && b == [b[0]] + b[1..];
      }
    } else if |a| > 1 {
      assert Join(a)[|a[0]|] == SEPARATOR;
      assert |b| == 1 ==> b[0] in b;
    } else if |b| > 1 {
      assert Join(b)[|b[0]|] == SEPARATOR;
      assert |a| == 1 ==> a[0] in a;
    } else {
      assert |a| == 1 ==> a == [a[0]];
      assert |b| == 1 ==> b == [b[0]];
    }
  }

  lemma HashIdentifiesFields(sha: Sha, a: seq<string>, b: seq<string>)
    requires Ideal(sha) && Fields(a) && Fields(b) && a != [] && b != []
    ensures HashOf(sha, a) == HashOf(sha, b) <==> a == b
  {
    JoinIsInjective(a, b);
  }
}
