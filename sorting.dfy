/**
 * `Array.prototype.sort` with a consistent comparator, modelled as a stable insertion
 * sort: elements go in the order of the comparator's strict "before" relation `lt`,
 * and elements that compare equal keep their input order.
 */
module Sorting {
  import opened Seqs

  /** `lt` is a strict weak order: asymmetric, and "not before" is transitive. */
  ghost predicate WeakOrder<T(!new)>(lt: (T, T) -> bool) {
    && (forall a, b :: lt(a, b) ==> !lt(b, a))
    && (forall a, b, c :: !lt(a, b) && !lt(b, c) ==> !lt(a, c))
  }

  /** No element is strictly before an element to its left. */
  predicate Sorted<T>(s: seq<T>, lt: (T, T) -> bool) {
    forall i, j :: 0 <= i < j < |s| ==> !lt(s[j], s[i])
  }

  /** Neither goes before the other: the comparator returns 0. */
  predicate Tied<T>(lt: (T, T) -> bool, a: T, b: T) {
    !lt(a, b) && !lt(b, a)
  }

  /** The elements tied with `z`. */
  function TiedWith<T>(lt: (T, T) -> bool, z: T): T -> bool {
    y => Tied(lt, y, z)
  }

  /** Ascending by an integer key (`(a, b) => key(a) - key(b)`). */
  function ByKey<T>(key: T -> int): (T, T) -> bool {
    (x, y) => key(x) < key(y)
  }

  /** Descending by an integer key (`(a, b) => key(b) - key(a)`). */
  function ByKeyDesc<T>(key: T -> int): (T, T) -> bool {
    (x, y) => key(x) > key(y)
  }

  lemma ByKeyWeak<T(!new)>(key: T -> int)
    ensures WeakOrder(ByKey(key))
  {
  }

  lemma ByKeyDescWeak<T(!new)>(key: T -> int)
    ensures WeakOrder(ByKeyDesc(key))
  {
  }

  /** Places `x` in front of the first element not strictly before it. */
  function Insert<T(==)>(x: T, s: seq<T>, lt: (T, T) -> bool): (r: seq<T>)
    ensures multiset(r) == multiset(s) + multiset{x}
    ensures |r| == |s| + 1
  {
    if s == [] || !lt(s[0], x) then [x] + s
    else
      assert s == [s[0]] + s[1..];
      [s[0]] + Insert(x, s[1..], lt)
  }

  function Sort<T(==)>(s: seq<T>, lt: (T, T) -> bool): (r: seq<T>)
    ensures multiset(r) == multiset(s)
    ensures |r| == |s|
  {
    if s == [] then []
    else
      assert s == [s[0]] + s[1..];
      Insert(s[0], Sort(s[1..], lt), lt)
  }

  lemma {:induction false} InsertSorted<T(!new)>(x: T, s: seq<T>, lt: (T, T) -> bool)
    requires WeakOrder(lt) && Sorted(s, lt)
    ensures Sorted(Insert(x, s, lt), lt)
  {
    var r := Insert(x, s, lt);
    if s == [] || !lt(s[0], x) {
      assert r == [x] + s;
      forall j | 0 < j < |r|
        ensures !lt(r[j], x)
      {
        if j > 1 {
          assert !lt(s[j - 1], s[0]);
        }
      }
    } else {
      var t := Insert(x, s[1..], lt);
      assert Sorted(s[1..], lt);
      InsertSorted(x, s[1..], lt);
      assert r == [s[0]] + t;
      forall j | 0 <= j < |t|
        ensures !lt(t[j], s[0])
      {
        assert t[j] in multiset(t);
        if t[j] != x {
          assert t[j] in multiset(s[1..]);
          var k :| 0 <= k < |s[1..]| && s[1..][k] == t[j];
          assert s[k + 1] == t[j];
        }
      }
    }
  }

  /** The sort orders its output by `lt`. */
  lemma {:induction false} SortSorted<T(!new)>(s: seq<T>, lt: (T, T) -> bool)
    requires WeakOrder(lt)
    ensures Sorted(Sort(s, lt), lt)
  {
    if s != [] {
      SortSorted(s[1..], lt);
      InsertSorted(s[0], Sort(s[1..], lt), lt);
    }
  }

  /** One instance of the transitivity of "not before". */
  lemma NotBeforeTrans<T(!new)>(lt: (T, T) -> bool, a: T, b: T, c: T)
    requires WeakOrder(lt)
    requires !lt(a, b) && !lt(b, c)
    ensures !lt(a, c)
  {
  }

  /** `filter` over a list with a known head. */
  lemma FilterCons<T>(x: T, s: seq<T>, f: T -> bool)
    ensures Filter([x] + s, f) == (if f(x) then [x] else []) + Filter(s, f)
  {
    assert ([x] + s)[0] == x;
    assert ([x] + s)[1..] == s;
  }

  lemma {:induction false} InsertKeepsTies<T(!new)>(x: T, s: seq<T>, lt: (T, T) -> bool, z: T)
    requires WeakOrder(lt)
    ensures Filter(Insert(x, s, lt), TiedWith(lt, z))
         == (if Tied(lt, x, z) then [x] else []) + Filter(s, TiedWith(lt, z))
  {
    if s == [] || !lt(s[0], x) {
      FilterCons(x, s, TiedWith(lt, z));
    } else {
      InsertKeepsTies(x, s[1..], lt, z);
      if Tied(lt, x, z) {
        HeadNotTied(lt, s[0], x, z);
      }
      InsertTiesStep(x, s, lt, z);
    }
  }

  /** The induction step of `InsertKeepsTies`, when `x` goes past the head of `s`. */
  lemma InsertTiesStep<T>(x: T, s: seq<T>, lt: (T, T) -> bool, z: T)
    requires s != [] && lt(s[0], x)
    requires Tied(lt, x, z) ==> !Tied(lt, s[0], z)
    requires Filter(Insert(x, s[1..], lt), TiedWith(lt, z))
          == (if Tied(lt, x, z) then [x] else []) + Filter(s[1..], TiedWith(lt, z))
    ensures Filter(Insert(x, s, lt), TiedWith(lt, z))
         == (if Tied(lt, x, z) then [x] else []) + Filter(s, TiedWith(lt, z))
  {
    var p := TiedWith(lt, z);
    FilterInsertPast(x, s, lt, p);
    var rest := Filter(s[1..], p);
    assert Filter(s, p) == (if p(s[0]) then [s[0]] else []) + rest;
    SwapSingletons(s[0], x, p(s[0]), Tied(lt, x, z), rest);
  }

  /** At most one of two optional singletons is present, so their order does not matter. */
  lemma SwapSingletons<T>(h: T, x: T, ph: bool, px: bool, rest: seq<T>)
    requires px ==> !ph
    ensures (if ph then [h] else []) + ((if px then [x] else []) + rest)
         == (if px then [x] else []) + ((if ph then [h] else []) + rest)
  {
  }

  /** `filter` of an insertion that goes past the head of `s`. */
  lemma FilterInsertPast<T>(x: T, s: seq<T>, lt: (T, T) -> bool, p: T -> bool)
    requires s != [] && lt(s[0], x)
    ensures Filter(Insert(x, s, lt), p)
         == (if p(s[0]) then [s[0]] else []) + Filter(Insert(x, s[1..], lt), p)
  {
    assert Insert(x, s, lt) == [s[0]] + Insert(x, s[1..], lt);
    FilterCons(s[0], Insert(x, s[1..], lt), p);
  }

  /** An element strictly before `x` is not tied with anything `x` is tied with. */
  lemma HeadNotTied<T(!new)>(lt: (T, T) -> bool, h: T, x: T, z: T)
    requires WeakOrder(lt)
    requires lt(h, x) && Tied(lt, x, z)
    ensures !Tied(lt, h, z)
  {
    if !lt(h, z) {
      NotBeforeTrans(lt, h, z, x);
    }
  }

  /**
   * Stability: the elements that compare equal to any `z` come out in the order
   * they went in.
   */
  lemma {:induction false} SortStable<T(!new)>(s: seq<T>, lt: (T, T) -> bool, z: T)
    requires WeakOrder(lt)
    ensures Filter(Sort(s, lt), TiedWith(lt, z)) == Filter(s, TiedWith(lt, z))
  {
    if s != [] {
      SortStable(s[1..], lt, z);
      InsertKeepsTies(s[0], Sort(s[1..], lt), lt, z);
    }
  }

  /** Sorting a duplicate-free list keeps it duplicate-free. */
  lemma SortDistinct<T>(s: seq<T>, lt: (T, T) -> bool)
    requires Distinct(s)
    ensures Distinct(Sort(s, lt))
  {
    forall x
      ensures multiset(Sort(s, lt))[x] <= 1
    {
      DistinctMultiplicity(s, x);
    }
    MultiplicityDistinct(Sort(s, lt));
  }
}
