/**
 * A JavaScript object used as a dictionary of counters (`counts[k] = (counts[k] || 0) + 1`):
 * its keys in insertion order, and the count stored under each key.
 */
module Histogram {
  import opened Seqs

  datatype Counts<K> = Counts(order: seq<K>, count: map<K, nat>)

  /** Keys listed once each, exactly the stored ones, and every stored count at least 1. */
  ghost predicate WellFormed<K>(c: Counts<K>) {
    && Distinct(c.order)
    && (forall k :: k in c.order ==> k in c.count)
    && (forall k :: k in c.count ==> k in c.order && c.count[k] >= 1)
  }

  /** `{}`. */
  function Empty<K>(): Counts<K> {
    Counts([], map[])
  }

  /** `c[k] || 0`: the count of `k`, 0 when the key is missing. */
  function Get<K>(c: Counts<K>, k: K): nat {
    if k in c.count then c.count[k] else 0
  }

  /** `c[k] = (c[k] || 0) + 1`: a new key goes to the end of the key order. */
  function Bump<K>(c: Counts<K>, k: K): (r: Counts<K>)
    ensures Get(r, k) == Get(c, k) + 1
    ensures k in c.count ==> r.order == c.order
    ensures k !in c.count ==> r.order == c.order + [k]
  {
    if k in c.count then Counts(c.order, c.count[k := c.count[k] + 1])
    else Counts(c.order + [k], c.count[k := 1])
  }

  /** A bump keeps the key list and the stored keys in step. */
  lemma BumpWellFormed<K>(c: Counts<K>, k: K)
    requires WellFormed(c)
    ensures WellFormed(Bump(c, k))
  {
  }

  /** A bump changes only the bumped key's count. */
  lemma BumpGet<K>(c: Counts<K>, k: K, x: K)
    ensures Get(Bump(c, k), x) == Get(c, x) + (if x == k then 1 else 0)
  {
  }

  /** The counters left by bumping each element of `xs` in turn, starting from `{}`. */
  function Of<K>(xs: seq<K>): (r: Counts<K>)
    ensures |r.order| <= |xs|
  {
    if xs == [] then Empty() else Bump(Of(xs[..|xs| - 1]), xs[|xs| - 1])
  }

  /** Counters built by bumping are well formed. */
  lemma {:induction false} OfWellFormed<K>(xs: seq<K>)
    ensures WellFormed(Of(xs))
  {
    if xs != [] {
      OfWellFormed(xs[..|xs| - 1]);
      BumpWellFormed(Of(xs[..|xs| - 1]), xs[|xs| - 1]);
    }
  }

  /** Counting one more element is one more `Bump`. */
  lemma OfSnoc<K>(xs: seq<K>, x: K)
    ensures Of(xs + [x]) == Bump(Of(xs), x)
  {
    assert (xs + [x])[..|xs|] == xs;
  }

  /** `xs.forEach(x => c[x] = (c[x] || 0) + 1)` on the counters of `before`. */
  method BumpAll<K>(c: Counts<K>, ghost before: seq<K>, xs: seq<K>) returns (r: Counts<K>)
    requires c == Of(before)
    ensures r == Of(before + xs)
  {
    r := c;
    var m := 0;
    assert before + xs[..0] == before;
    while m < |xs|
      invariant 0 <= m <= |xs|
      invariant r == Of(before + xs[..m])
    {
      assert before + xs[..m + 1] == (before + xs[..m]) + [xs[m]];
      OfSnoc(before + xs[..m], xs[m]);
      r := Bump(r, xs[m]);
      m := m + 1;
    }
    assert xs[..|xs|] == xs;
  }

  /** The sum of the counts of `keys`. */
  function SumOver<K>(keys: seq<K>, c: Counts<K>): nat {
    if keys == [] then 0 else SumOver(keys[..|keys| - 1], c) + Get(c, keys[|keys| - 1])
  }

  /** `Object.values(c).reduce((acc, curr) => acc + curr, 0)`. */
  function Total<K>(c: Counts<K>): nat {
    SumOver(c.order, c)
  }

  /** Each count is the number of times its key was bumped; a key never bumped reads 0. */
  lemma {:induction false} OfGet<K>(xs: seq<K>, k: K)
    ensures Get(Of(xs), k) == multiset(xs)[k]
  {
    if xs != [] {
      OfGet(xs[..|xs| - 1], k);
      BumpGet(Of(xs[..|xs| - 1]), xs[|xs| - 1], k);
      assert xs == xs[..|xs| - 1] + [xs[|xs| - 1]];
    }
  }

  /** The keys appear in the order in which they were first bumped. */
  lemma {:induction false} OfOrder<K>(xs: seq<K>)
    ensures Of(xs).order == Dedupe(xs)
  {
    if xs != [] {
      var p := xs[..|xs| - 1];
      OfOrder(p);
      OfWellFormed(p);
    }
  }

  /** Raising the count of one key raises a sum over keys by that key's multiplicity. */
  lemma {:induction false} SumOverBump<K>(keys: seq<K>, c: Counts<K>, k: K)
    ensures SumOver(keys, Bump(c, k)) == SumOver(keys, c) + multiset(keys)[k]
  {
    if keys != [] {
      var p := keys[..|keys| - 1];
      SumOverBump(p, c, k);
      BumpGet(c, k, keys[|keys| - 1]);
      assert keys == p + [keys[|keys| - 1]];
    }
  }

  /** One bump adds one to the total. */
  lemma TotalBump<K>(c: Counts<K>, k: K)
    requires WellFormed(c)
    ensures Total(Bump(c, k)) == Total(c) + 1
  {
    var r := Bump(c, k);
    DistinctMultiplicity(c.order, k);
    SumOverBump(c.order, c, k);
    if k !in c.count {
      assert r.order[..|r.order| - 1] == c.order;
    }
  }

  /** The total of the counters is the number of bumps. */
  lemma {:induction false} OfTotal<K>(xs: seq<K>)
    ensures Total(Of(xs)) == |xs|
  {
    if xs != [] {
      OfTotal(xs[..|xs| - 1]);
      OfWellFormed(xs[..|xs| - 1]);
      TotalBump(Of(xs[..|xs| - 1]), xs[|xs| - 1]);
    }
  }

  /** The total of `{}` is 0. */
  lemma TotalEmpty<K>()
    ensures Total(Empty<K>()) == 0
  {
  }

  /** `Object.entries(c)`: key/count pairs in key order. */
  function Entries<K>(c: Counts<K>): (r: seq<(K, nat)>)
    ensures |r| == |c.order|
    ensures forall i :: 0 <= i < |r| ==> r[i] == (c.order[i], Get(c, c.order[i]))
  {
    seq(|c.order|, i requires 0 <= i < |c.order| => (c.order[i], Get(c, c.order[i])))
  }

  /** `axis.map(k => c[k] || 0)`: one count per axis entry, 0 for a key `c` lacks. */
  function Series<K>(axis: seq<K>, c: Counts<K>): (r: seq<nat>)
    ensures |r| == |axis|
    ensures WellFormed(c) ==> forall i :: 0 <= i < |axis| ==> (r[i] == 0 <==> axis[i] !in c.order)
    ensures forall i :: 0 <= i < |axis| && axis[i] in c.count ==> r[i] == c.count[axis[i]]
  {
    seq(|axis|, i requires 0 <= i < |axis| => Get(c, axis[i]))
  }
}
