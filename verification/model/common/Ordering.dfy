/** Lexicographic order of byte strings, and sorted lists without repetitions. */
module Ordering {
  import opened Bytes

  /** Byte-wise lexicographic order: std::string's operator< and the order of Rust strings. */
  predicate Less(a: bytes, b: bytes) {
    if b == [] then false
    else if a == [] then true
    else if a[0] != b[0] then a[0] < b[0]
    else Less(a[1..], b[1..])
  }

  ghost predicate StrictTotal<T(!new)>(less: (T, T) -> bool) {
    && (forall a :: !less(a, a))
    && (forall a, b, c :: less(a, b) && less(b, c) ==> less(a, c))
    && (forall a, b :: less(a, b) || a == b || less(b, a))
  }

  /** Like a strict total order, but two elements may tie, as records with equal keys do. */
  ghost predicate StrictWeak<T(!new)>(less: (T, T) -> bool) {
    && (forall a :: !less(a, a))
    && (forall a, b, c :: less(a, b) && less(b, c) ==> less(a, c))
    && (forall a, b, c :: less(a, c) ==> less(a, b) || less(b, c))
  }

  lemma TotalIsWeak<T(!new)>(less: (T, T) -> bool)
    requires StrictTotal(less)
    ensures StrictWeak(less)
  {
    forall a, b, c | less(a, c) ensures less(a, b) || less(b, c) {
      assert less(a, b) || a == b || less(b, a);
    }
  }

  lemma {:induction false} LessIrreflexive(a: bytes)
    ensures !Less(a, a)
  {
    if a != [] {
      LessIrreflexive(a[1..]);
    }
  }

  lemma {:induction false} LessTransitive(a: bytes, b: bytes, c: bytes)
    requires Less(a, b) && Less(b, c)
    ensures Less(a, c)
  {
    if a != [] && a[0] == b[0] == c[0] {
      LessTransitive(a[1..], b[1..], c[1..]);
    }
  }

  lemma {:induction false} LessTotal(a: bytes, b: bytes)
    ensures Less(a, b) || a == b || Less(b, a)
  {
    if a != [] && b != [] && a[0] == b[0] {
      LessTotal(a[1..], b[1..]);
      assert a == [a[0]] + a[1..] && b == [b[0]] + b[1..];
    }
  }

  lemma LessStrictTotal()
    ensures StrictTotal(Less)
  {
    forall a ensures !Less(a, a) {
      LessIrreflexive(a);
    }
    forall a, b, c | Less(a, b) && Less(b, c) ensures Less(a, c) {
      LessTransitive(a, b, c);
    }
    forall a, b ensures Less(a, b) || a == b || Less(b, a) {
      LessTotal(a, b);
    }
  }

  /** Strictly ascending: sorted and without repetitions. */
  predicate Ascending<T(!new)>(less: (T, T) -> bool, s: seq<T>) {
    forall i, j :: 0 <= i < j < |s| ==> less(s[i], s[j])
  }

  predicate Sorted<T(!new)>(less: (T, T) -> bool, s: seq<T>) {
    forall i, j :: 0 <= i < j < |s| ==> !less(s[j], s[i])
  }

  // ---- std::sort, then std::unique and erase ----

  function Insert<T>(less: (T, T) -> bool, x: T, s: seq<T>): (r: seq<T>)
    ensures multiset(r) == multiset(s) + multiset{x}
  {
    if s == [] then [x]
    else if less(s[0], x) then
      assert s == [s[0]] + s[1..];
      [s[0]] + Insert(less, x, s[1..])
    else [x] + s
  }

  function Sort<T>(less: (T, T) -> bool, s: seq<T>): (r: seq<T>)
    ensures multiset(r) == multiset(s)
  {
    if s == [] then []
    else
      assert s == [s[0]] + s[1..];
      Insert(less, s[0], Sort(less, s[1..]))
  }

  /** The first of each run of equal elements. */
  function Unique<T(==,!new)>(s: seq<T>): (r: seq<T>)
    ensures |r| <= |s|
    ensures forall x :: x in r <==> x in s
  {
    if |s| < 2 then s
    else if s[0] == s[1] then
      assert s == [s[0]] + s[1..];
      Unique(s[1..])
    else
      assert s == [s[0]] + s[1..];
      [s[0]] + Unique(s[1..])
  }

  function SortUnique<T(==,!new)>(less: (T, T) -> bool, s: seq<T>): seq<T> {
    Unique(Sort(less, s))
  }

  lemma {:induction false} InsertSorted<T(!new)>(less: (T, T) -> bool, x: T, s: seq<T>)
    requires StrictWeak(less) && Sorted(less, s)
    ensures Sorted(less, Insert(less, x, s))
  {
    if s != [] && less(s[0], x) {
      var more := Insert(less, x, s[1..]);
      InsertSorted(less, x, s[1..]);
      forall j | 0 <= j < |more| ensures !less(more[j], s[0]) {
        assert more[j] in multiset(more);
        if more[j] in s[1..] {
          var i :| 1 <= i < |s| && s[i] == more[j];
        }
      }
    }
  }

  lemma {:induction false} SortSorted<T(!new)>(less: (T, T) -> bool, s: seq<T>)
    requires StrictWeak(less)
    ensures Sorted(less, Sort(less, s))
  {
    if s != [] {
      SortSorted(less, s[1..]);
      InsertSorted(less, s[0], Sort(less, s[1..]));
    }
  }

  lemma {:induction false} UniqueAscending<T(!new)>(less: (T, T) -> bool, s: seq<T>)
    requires StrictTotal(less) && Sorted(less, s)
    ensures Ascending(less, Unique(s))
  {
    if |s| >= 2 {
      UniqueAscending(less, s[1..]);
      if s[0] != s[1] {
        var more := Unique(s[1..]);
        forall j | 0 <= j < |more| ensures less(s[0], more[j]) {
          assert more[j] in s[1..];
          var i :| 0 <= i < |s[1..]| && s[1..][i] == more[j];
          assert !less(s[i + 1], s[0]);
          assert !less(s[1], s[0]) && (i > 0 ==> !less(s[i + 1], s[1]));
        }
      }
    }
  }

  /** Sorting and dropping repetitions keeps the elements and leaves a strictly ascending list. */
  lemma SortUniqueAscending<T(!new)>(less: (T, T) -> bool, s: seq<T>)
    requires StrictTotal(less)
    ensures Ascending(less, SortUnique(less, s))
    ensures forall x :: x in SortUnique(less, s) <==> x in s
  {
    TotalIsWeak(less);
    SortSorted(less, s);
    UniqueAscending(less, Sort(less, s));
    forall x ensures x in Sort(less, s) <==> x in s {
      assert x in multiset(Sort(less, s)) <==> x in multiset(s);
    }
  }

  /** A strictly ascending list is left as it is. */
  lemma {:induction false} SortUniqueFixed<T(!new)>(less: (T, T) -> bool, s: seq<T>)
    requires StrictTotal(less) && Ascending(less, s)
    ensures SortUnique(less, s) == s
  {
    SortFixed(less, s);
    UniqueFixed(less, s);
  }

  lemma {:induction false} SortFixed<T(!new)>(less: (T, T) -> bool, s: seq<T>)
    requires StrictTotal(less) && Ascending(less, s)
    ensures Sort(less, s) == s
  {
    hide StrictTotal;
    if s != [] {
      SortFixed(less, s[1..]);
      assert s == [s[0]] + s[1..];
      if |s| > 1 {
        Asymmetric(less, s[0], s[1]);
      }
    }
  }

  lemma Asymmetric<T(!new)>(less: (T, T) -> bool, a: T, b: T)
    requires StrictTotal(less) && less(a, b)
    ensures !less(b, a)
  {
  }

  lemma {:induction false} UniqueFixed<T(!new)>(less: (T, T) -> bool, s: seq<T>)
    requires StrictTotal(less) && Ascending(less, s)
    ensures Unique(s) == s
  {
    if |s| >= 2 {
      assert less(s[0], s[1]) && s[0] != s[1];
      UniqueFixed(less, s[1..]);
      assert s == [s[0]] + s[1..];
    }
  }
}
