/**
 `error_buckets` of metal/analysis.py: one pass over zip(gold, pred) that
 appends, under the key (gold[i], pred[i]), either the position i or the item
 X[i]. The result is a `defaultdict(list)`: it has a key only for pairs that
 occur, and reading a missing key yields the empty list (`Lookup`).
 */
module Buckets {
  import opened Counting

  /** The positions i < |ps| with ps[i] == key, collected as the loop does. */
  function Positions(ps: seq<Pair>, key: Pair): (r: seq<nat>)
    ensures forall j :: 0 <= j < |r| ==> r[j] < |ps|
  {
    if ps == [] then []
    else
      var n := |ps| - 1;
      Positions(ps[..n], key) + (if ps[n] == key then [n] else [])
  }

  /** Positions lists exactly the positions holding key, in increasing order,
      and so has as many entries as the key has occurrences. */
  lemma {:induction false} PositionsSpec(ps: seq<Pair>, key: Pair)
    ensures forall j :: 0 <= j < |Positions(ps, key)| ==>
      Positions(ps, key)[j] < |ps| && ps[Positions(ps, key)[j]] == key
    ensures forall i :: 0 <= i < |ps| && ps[i] == key ==> i in Positions(ps, key)
    ensures forall j, j' :: 0 <= j < j' < |Positions(ps, key)| ==>
      Positions(ps, key)[j] < Positions(ps, key)[j']
    ensures |Positions(ps, key)| == multiset(ps)[key]
  {
    if ps != [] {
      var n := |ps| - 1;
      assert ps == ps[..n] + [ps[n]];
      PositionsSpec(ps[..n], key);
    }
  }

  /** Every key has as many positions as occurrences. */
  lemma PositionsCount(ps: seq<Pair>)
    ensures forall key :: |Positions(ps, key)| == multiset(ps)[key]
  {
    forall key ensures |Positions(ps, key)| == multiset(ps)[key] {
      PositionsSpec(ps, key);
    }
  }

  /** The buckets of positions that the loop builds over ps. */
  function BucketsOf(ps: seq<Pair>): map<Pair, seq<nat>>
  {
    map key | key in ps :: Positions(ps, key)
  }

  /** Reading a `defaultdict(list)`: a missing key reads as the empty list. */
  function Lookup<T>(b: map<Pair, seq<T>>, key: Pair): seq<T>
  {
    if key in b then b[key] else []
  }

  /** The items at the given positions, in the same order. */
  function Gather<T>(items: seq<T>, idx: seq<nat>): (r: seq<T>)
    requires forall j :: 0 <= j < |idx| ==> idx[j] < |items|
  {
    seq(|idx|, j requires 0 <= j < |idx| => items[idx[j]])
  }

  /** The buckets of items: the bucket of positions with each position i
      replaced by items[i]. */
  function ItemBucketsOf<T>(ps: seq<Pair>, items: seq<T>): map<Pair, seq<T>>
    requires |ps| <= |items|
  {
    var b := BucketsOf(ps);
    map key | key in b :: Gather(items, b[key])
  }

  lemma PositionsSnoc(ps: seq<Pair>, x: Pair, key: Pair)
    ensures Positions(ps + [x], key) == Positions(ps, key) + (if x == key then [|ps|] else [])
  {
    assert (ps + [x])[..|ps|] == ps;
  }

  /** One more step of the loop adds the key x and no other. */
  lemma BucketKeysSnoc(ps: seq<Pair>, x: Pair)
    ensures BucketsOf(ps + [x]).Keys == BucketsOf(ps).Keys + {x}
  {
    var qs := ps + [x];
    forall key ensures key in qs <==> key in ps || key == x {
      assert key in qs <==> key in multiset(qs);
      assert key in ps <==> key in multiset(ps);
      assert multiset(qs) == multiset(ps) + multiset{x};
    }
  }

  /** One more step of the loop: the position |ps| is appended to the bucket
      of x and every other bucket stays as it was. */
  lemma BucketsOfSnoc(ps: seq<Pair>, x: Pair)
    ensures BucketsOf(ps + [x]) == BucketsOf(ps)[x := Lookup(BucketsOf(ps), x) + [|ps|]]
  {
    var before := BucketsOf(ps);
    var lhs, rhs := BucketsOf(ps + [x]), before[x := Lookup(before, x) + [|ps|]];
    BucketKeysSnoc(ps, x);
    forall key | key in lhs ensures lhs[key] == rhs[key] {
      PositionsSnoc(ps, x, key);
      if key !in before {
        PositionsSpec(ps, key);
      }
    }
  }

  /** Grouping positions (error_buckets with X = None): the loop computes
      BucketsOf over the zipped labels. */
  method IndexBuckets(gold: seq<Label>, pred: seq<Label>) returns (buckets: map<Pair, seq<nat>>)
    ensures buckets == BucketsOf(Zip(gold, pred))
  {
    ghost var ps := Zip(gold, pred);
    buckets := map[];
    assert ps[..0] == [];
    for i := 0 to Min(|gold|, |pred|)
      invariant buckets == BucketsOf(ps[..i])
    {
      var key := (gold[i], pred[i]);
      BucketsOfSnoc(ps[..i], key);
      assert ps[..i + 1] == ps[..i] + [key];
      buckets := buckets[key := Lookup(buckets, key) + [i]];
    }
    assert ps[..|ps|] == ps;
  }

  /** Outcome of grouping items: `X[i]` raises IndexError at the first
      position the item sequence does not reach. */
  datatype Outcome<T> = Ok(value: T) | IndexError(index: nat)

  lemma ItemBucketsOfSnoc<T>(ps: seq<Pair>, x: Pair, items: seq<T>)
    requires |ps| < |items|
    ensures ItemBucketsOf(ps + [x], items)
      == ItemBucketsOf(ps, items)[x := Lookup(ItemBucketsOf(ps, items), x) + [items[|ps|]]]
  {
    BucketsOfSnoc(ps, x);
    var before := BucketsOf(ps);
    assert Gather(items, Lookup(before, x) + [|ps|]) == Gather(items, Lookup(before, x)) + [items[|ps|]];
  }

  /** The bucket of items under a key holds, entry by entry, the items at the
      positions of the index bucket under that key. */
  lemma ItemBucketsOfSpec<T>(ps: seq<Pair>, items: seq<T>)
    requires |ps| <= |items|
    ensures ItemBucketsOf(ps, items).Keys == BucketsOf(ps).Keys
    ensures forall key :: key in BucketsOf(ps) ==>
      |ItemBucketsOf(ps, items)[key]| == |BucketsOf(ps)[key]| &&
      forall j :: 0 <= j < |BucketsOf(ps)[key]| ==>
        ItemBucketsOf(ps, items)[key][j] == items[BucketsOf(ps)[key][j]]
  {
  }

  /** Grouping items (error_buckets with X given): the bucket of a key holds
      X[i] for exactly the positions i of the index bucket, in the same order;
      an item sequence shorter than the zipped labels fails at index |X|. */
  method ItemBuckets<T>(gold: seq<Label>, pred: seq<Label>, items: seq<T>)
    returns (r: Outcome<map<Pair, seq<T>>>)
    ensures r.IndexError? <==> |items| < Min(|gold|, |pred|)
    ensures r.IndexError? ==> r.index == |items|
    ensures r.Ok? ==> r.value.Keys == BucketsOf(Zip(gold, pred)).Keys
    ensures r.Ok? ==> forall key :: key in r.value ==>
      |r.value[key]| == |BucketsOf(Zip(gold, pred))[key]| &&
      forall j :: 0 <= j < |r.value[key]| ==>
        r.value[key][j] == items[BucketsOf(Zip(gold, pred))[key][j]]
  {
    ghost var ps := Zip(gold, pred);
    var buckets: map<Pair, seq<T>> := map[];
    assert ps[..0] == [];
    for i := 0 to Min(|gold|, |pred|)
      invariant i <= |items|
      invariant buckets == ItemBucketsOf(ps[..i], items)
    {
      if i >= |items| {
        return IndexError(i);
      }
      var key := (gold[i], pred[i]);
      ItemBucketsOfSnoc(ps[..i], key, items);
      assert ps[..i + 1] == ps[..i] + [key];
      buckets := buckets[key := Lookup(buckets, key) + [items[i]]];
    }
    assert ps[..|ps|] == ps;
    ItemBucketsOfSpec(ps, items);
    r := Ok(buckets);
  }

  /** A strictly increasing sequence holds each of its entries once. */
  lemma IncreasingHoldsOnce(b: seq<nat>, i: nat)
    requires forall j, j' :: 0 <= j < j' < |b| ==> b[j] < b[j']
    requires i in b
    ensures multiset(b)[i] == 1
  {
    var j :| 0 <= j < |b| && b[j] == i;
    assert b == b[..j] + [i] + b[j + 1..];
    forall t | 0 <= t < |b| && t != j ensures b[t] != i {
      if t < j { assert b[t] < b[j]; } else { assert b[j] < b[t]; }
    }
    assert i !in b[..j] && i !in b[j + 1..];
    assert multiset(b) == multiset(b[..j]) + multiset{i} + multiset(b[j + 1..]);
  }

  /** A position lies only in the bucket of the key it holds. */
  lemma PositionOnlyInOwnBucket(ps: seq<Pair>, key: Pair, i: nat)
    requires i < |ps| && ps[i] != key
    ensures i !in Positions(ps, key)
  {
    PositionsSpec(ps, key);
  }

  /** Each position i < min(|gold|, |pred|) lies in exactly one bucket, the
      one keyed (gold[i], pred[i]), and occurs there once. */
  lemma EachPositionOnce(gold: seq<Label>, pred: seq<Label>, i: nat)
    requires i < Min(|gold|, |pred|)
    ensures multiset(Lookup(BucketsOf(Zip(gold, pred)), (gold[i], pred[i])))[i] == 1
    ensures forall key :: key != (gold[i], pred[i]) ==> i !in Lookup(BucketsOf(Zip(gold, pred)), key)
  {
    var ps := Zip(gold, pred);
    var key := (gold[i], pred[i]);
    assert ps[i] == key;
    var own := Positions(ps, key);
    PositionsSpec(ps, key);
    assert key in ps;
    assert Lookup(BucketsOf(ps), key) == own;
    IncreasingHoldsOnce(own, i);
    forall other | other != key ensures i !in Lookup(BucketsOf(ps), other) {
      if other in ps {
        PositionOnlyInOwnBucket(ps, other, i);
      }
    }
  }

  /** A key has a bucket exactly when its pair occurs at some position: no
      zero-filling. */
  lemma BucketKeysOccur(gold: seq<Label>, pred: seq<Label>, key: Pair)
    ensures key in BucketsOf(Zip(gold, pred)) <==>
      exists i :: 0 <= i < Min(|gold|, |pred|) && key == (gold[i], pred[i])
  {
    var ps := Zip(gold, pred);
    if key in ps {
      var i :| 0 <= i < |ps| && ps[i] == key;
      assert key == (gold[i], pred[i]);
    }
    if exists i :: 0 <= i < Min(|gold|, |pred|) && key == (gold[i], pred[i]) {
      var i :| 0 <= i < Min(|gold|, |pred|) && key == (gold[i], pred[i]);
      assert ps[i] == key;
    }
  }

  /** The bucket sizes form the counter of the zipped labels: the size of the
      bucket of a key is the number of positions where that pair occurs. */
  lemma BucketSizesAreCounts(ps: seq<Pair>)
    ensures (map key | key in BucketsOf(ps) :: |BucketsOf(ps)[key]|) == CountMap(multiset(ps))
  {
    var sizes := map key | key in BucketsOf(ps) :: |BucketsOf(ps)[key]|;
    assert sizes.Keys == CountMap(multiset(ps)).Keys by {
      forall key ensures key in ps <==> key in multiset(ps) { }
    }
    forall key | key in sizes ensures sizes[key] == multiset(ps)[key] {
      PositionsSpec(ps, key);
    }
  }

  /** The sizes of all buckets add up to min(|gold|, |pred|). */
  lemma BucketSizesSum(gold: seq<Label>, pred: seq<Label>)
    ensures MapSum(map key | key in BucketsOf(Zip(gold, pred)) :: |BucketsOf(Zip(gold, pred))[key]|)
      == Min(|gold|, |pred|)
  {
    var ps := Zip(gold, pred);
    BucketSizesAreCounts(ps);
    CountMapTotal(multiset(ps));
  }
}
