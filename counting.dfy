/**
 Labels, label pairs and the counting vocabulary shared by the bucketing
 function and the confusion matrix of metal/analysis.py.

 A key is the pair (gold label, predicted label), in that order: both the
 bucketing loop and `ConfusionMatrix.add` build their keys by zipping gold
 with pred. A `Counter` of such keys is a multiset: a key that was never
 counted reads as 0, exactly like a missing key of Python's `Counter`.
 */
module Counting {

  /** A class label; 0 is the conventional "null" (abstained / unlabelled) label. */
  type Label = nat

  /** A counter or bucket key: (gold label, predicted label). */
  type Pair = (Label, Label)

  function Min(a: nat, b: nat): nat { if a <= b then a else b }

  /** Python's `zip(gold, pred)`: pairs position by position and silently stops
      at the end of the shorter input (there is no length check). */
  function Zip(gold: seq<Label>, pred: seq<Label>): (ps: seq<Pair>)
    ensures |ps| == Min(|gold|, |pred|)
    ensures forall i :: 0 <= i < |ps| ==> ps[i].0 == gold[i] && ps[i].1 == pred[i]
  {
    seq(Min(|gold|, |pred|), i requires 0 <= i < Min(|gold|, |pred|) => (gold[i], pred[i]))
  }

  /** When the first halves have equal lengths, zipping the concatenations is
      the concatenation of the two zips. */
  lemma ZipAppend(g1: seq<Label>, p1: seq<Label>, g2: seq<Label>, p2: seq<Label>)
    requires |g1| == |p1|
    ensures Zip(g1 + g2, p1 + p2) == Zip(g1, p1) + Zip(g2, p2)
  {
    var whole, left, right := Zip(g1 + g2, p1 + p2), Zip(g1, p1), Zip(g2, p2);
    assert |whole| == |left| + |right|;
    forall i | 0 <= i < |whole|
      ensures whole[i] == (left + right)[i]
    {
      if i >= |g1| {
        assert (g1 + g2)[i] == g2[i - |g1|] && (p1 + p2)[i] == p2[i - |p1|];
      }
    }
  }

  /** Without equal first halves the truncation of the first zip shifts the
      pairing: adding [1, 2] / [3] and then [5] / [6] does not count the same
      pairs as adding [1, 2, 5] / [3, 6] at once. */
  lemma ZipAppendNeedsAlignedHalves()
    ensures multiset(Zip([1, 2] + [5], [3] + [6])) != multiset(Zip([1, 2], [3])) + multiset(Zip([5], [6]))
  {
    var whole := Zip([1, 2] + [5], [3] + [6]);
    assert whole[1] == (2, 6);
    assert (2, 6) in multiset(whole);
    var parts := Zip([1, 2], [3]) + Zip([5], [6]);
    assert parts == [(1, 3), (5, 6)];
    assert multiset(Zip([1, 2], [3])) + multiset(Zip([5], [6])) == multiset(parts);
    assert (2, 6) !in multiset(parts);
  }

  /** The distinct keys of a counter: the keys of `Counter.items()`. */
  function Keys(c: multiset<Pair>): set<Pair>
  {
    set p | p in c
  }

  lemma KeysNonEmpty(c: multiset<Pair>)
    requires c != multiset{}
    ensures Keys(c) != {}
  {
    var p :| p in c;
    assert p in Keys(c);
  }

  /** The largest label occurring in any key: `max(max(tup) for tup in keys)`. */
  ghost function MaxLabel(keys: set<Pair>): (top: Label)
    requires keys != {}
    ensures forall p :: p in keys ==> p.0 <= top && p.1 <= top
    ensures exists p :: p in keys && (p.0 == top || p.1 == top)
  {
    var p :| p in keys;
    var here := if p.0 < p.1 then p.1 else p.0;
    if keys == {p} then here
    else
      var rest := MaxLabel(keys - {p});
      if here < rest then rest else here
  }

  /** The side `k` of the square matrix `compile` builds: one more than the
      largest label, so that label 0 has its own row and column. */
  ghost function Width(c: multiset<Pair>): (k: nat)
    requires c != multiset{}
    ensures k >= 1
    ensures forall p :: p in c ==> p.0 < k && p.1 < k
  {
    KeysNonEmpty(c);
    assert forall p :: p in c ==> p in Keys(c);
    MaxLabel(Keys(c)) + 1
  }

  /** Sum of the values of a dictionary over the given keys. */
  ghost function SumOver(m: map<Pair, nat>, ks: set<Pair>): nat
    requires ks <= m.Keys
  {
    if ks == {} then 0
    else
      var k :| k in ks;
      m[k] + SumOver(m, ks - {k})
  }

  /** Sum of all values of a dictionary, `sum(d.values())`. */
  ghost function MapSum(m: map<Pair, nat>): nat
  {
    SumOver(m, m.Keys)
  }

  /** The sum does not depend on which key the definition peels off first. */
  lemma {:induction false} SumOverRemove(m: map<Pair, nat>, ks: set<Pair>, x: Pair)
    requires ks <= m.Keys && x in ks
    ensures SumOver(m, ks) == m[x] + SumOver(m, ks - {x})
  {
    var y :| y in ks && SumOver(m, ks) == m[y] + SumOver(m, ks - {y});
    if y != x {
      SumOverRemove(m, ks - {y}, x);
      SumOverRemove(m, ks - {x}, y);
      assert ks - {y} - {x} == ks - {x} - {y};
    }
  }

  /** Summing over keys only reads the values at those keys. */
  lemma {:induction false} SumOverAgree(m: map<Pair, nat>, m': map<Pair, nat>, ks: set<Pair>)
    requires ks <= m.Keys && ks <= m'.Keys
    requires forall k :: k in ks ==> m[k] == m'[k]
    ensures SumOver(m, ks) == SumOver(m', ks)
    decreases ks
  {
    if ks != {} {
      var k :| k in ks;
      SumOverRemove(m, ks, k);
      SumOverRemove(m', ks, k);
      SumOverAgree(m, m', ks - {k});
    }
  }

  /** The counter seen as a dictionary from key to positive count. */
  function CountMap(c: multiset<Pair>): (d: map<Pair, nat>)
    ensures d.Keys == Keys(c)
    ensures forall k :: k in d ==> d[k] == c[k] && d[k] > 0
  {
    map k | k in c :: c[k]
  }

  /** The counts of a counter sum to the number of items counted. */
  lemma {:induction false} CountMapTotal(c: multiset<Pair>)
    ensures MapSum(CountMap(c)) == |c|
    decreases |c|
  {
    var d := CountMap(c);
    if c == multiset{} {
      assert d.Keys == {};
    } else {
      var x :| x in c;
      var c0 := c - multiset{x};
      assert |c0| == |c| - 1;
      var d0 := CountMap(c0);
      CountMapTotal(c0);
      var others := d.Keys - {x};
      SumOverRemove(d, d.Keys, x);
      assert MapSum(d) == c[x] + SumOver(d, others);
      assert others <= d0.Keys by {
        forall k | k in others ensures k in d0 {
          assert c0[k] == c[k];
        }
      }
      assert forall k :: k in others ==> d[k] == d0[k];
      SumOverAgree(d, d0, others);
      if x in c0 {
        SumOverRemove(d0, d0.Keys, x);
        assert d0.Keys - {x} == others;
        assert d0[x] == c[x] - 1;
      } else {
        assert d0.Keys == others;
        assert c[x] == 1;
      }
    }
  }
}
