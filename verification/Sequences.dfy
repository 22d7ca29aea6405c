/** Small facts about sequences and remainders that several components share. */
module Sequences {

  type byte = x: int | 0 <= x < 0x100

  datatype Option<+T> = None | Some(value: T)

  function Min(a: int, b: int): int {
    if a <= b then a else b
  }

  /** The concatenation of a list of lists. */
  function Flat<T>(ss: seq<seq<T>>): seq<T> {
    if ss == [] then [] else ss[0] + Flat(ss[1..])
  }

  lemma {:induction false} FlatAppend<T>(a: seq<seq<T>>, b: seq<seq<T>>)
    ensures Flat(a + b) == Flat(a) + Flat(b)
  {
    if a == [] {
      assert a + b == b;
    } else {
      assert (a + b)[1..] == a[1..] + b;
      FlatAppend(a[1..], b);
    }
  }

  lemma FlatSingle<T>(s: seq<T>)
    ensures Flat([s]) == s
  {
    assert Flat([s]) == s + Flat([s][1..]);
  }

  lemma FlatCons<T>(s: seq<T>, a: seq<seq<T>>)
    ensures Flat([s] + a) == s + Flat(a)
  {
    assert ([s] + a)[1..] == a;
  }

  lemma FlatSnoc<T>(a: seq<seq<T>>, s: seq<T>)
    ensures Flat(a + [s]) == Flat(a) + s
  {
    FlatAppend(a, [s]);
    FlatSingle(s);
  }

  lemma Regroup<T>(a: seq<T>, b: seq<T>, c: seq<T>)
    ensures a + (b + c) == (a + b) + c
  {
  }

  /** Copies `src` into `dest` from `at` on. */
  method CopyTo<T>(dest: array<T>, at: nat, src: seq<T>)
    requires at + |src| <= dest.Length
    modifies dest
    ensures dest[..at] == old(dest[..at])
    ensures dest[at..at + |src|] == src
    ensures dest[at + |src|..] == old(dest[at + |src|..])
    ensures forall i :: 0 <= i < dest.Length && !(at <= i < at + |src|) ==> dest[i] == old(dest[i])
  {
    forall i | at <= i < at + |src| {
      dest[i] := src[i - at];
    }
  }

  // ---- Multiples and remainders ---------------------------------------------------

  lemma TimesLe(a: int, b: int, c: int)
    requires a <= b && 0 <= c
    ensures a * c <= b * c
  {
    assert 0 <= (b - a) * c;
  }

  lemma Quotient(x: int, q: int, r: int, d: int)
    requires 0 <= r < d && x == q * d + r
    ensures x / d == q && x % d == r
  {
    var q', r' := x / d, x % d;
    assert x == q' * d + r';
    if q' < q {
      TimesLe(q' + 1, q, d);
    } else if q < q' {
      TimesLe(q + 1, q', d);
    }
  }
}
