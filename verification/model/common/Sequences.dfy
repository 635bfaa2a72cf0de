/** Regrouping of concatenations, so that proofs name the one they need. */
module Sequences {
  lemma Assoc<T>(a: seq<T>, b: seq<T>, c: seq<T>)
    ensures a + (b + c) == a + b + c
  {
  }

  lemma Assoc4<T>(a: seq<T>, b: seq<T>, c: seq<T>, d: seq<T>)
    ensures a + (b + c + d) == a + b + c + d
  {
  }

  lemma Regroup<T>(a: seq<T>, b: seq<T>, c: seq<T>, d: seq<T>)
    ensures a + (b + (c + d)) == a + b + c + d
  {
    Assoc(b, c, d);
    Assoc4(a, b, c, d);
  }

  lemma Units<T>(a: seq<T>)
    ensures a + [] == a && [] + a == a
  {
  }

  lemma TakeDrop<T>(s: seq<T>, n: nat)
    requires n <= |s|
    ensures s == s[..n] + s[n..]
  {
  }

  lemma TakeDropAfterFirst<T>(s: seq<T>, n: nat)
    requires 1 + n <= |s|
    ensures s == [s[0]] + s[1..][..n] + s[1..][n..]
  {
    TakeDrop(s[1..], n);
    assert s == [s[0]] + s[1..];
    Assoc([s[0]], s[1..][..n], s[1..][n..]);
  }

  lemma MoveFirst<T>(done: seq<T>, items: seq<T>)
    requires items != []
    ensures done + items == done + [items[0]] + items[1..]
  {
  }
}
