/** Largest-remainder apportionment, as the question generator scales a mix and splits a request over its
    windows. Shares are exact rationals. */
module Apportionment {
  import opened Wrappers

  function Total(w: seq<real>): (r: real)
  {
    if w == [] then 0.0 else Total(w[..|w| - 1]) + w[|w| - 1]
  }

  function Sum(s: seq<int>): (r: int)
  {
    if s == [] then 0 else Sum(s[..|s| - 1]) + s[|s| - 1]
  }

  predicate AreWeights(w: seq<real>)
  {
    |w| > 0 && Total(w) > 0.0 && forall i :: 0 <= i < |w| ==> w[i] >= 0.0
  }

  function Share(c: real, a: real, t: real): (q: real)
    requires t > 0.0
    ensures c >= 0.0 && a >= 0.0 ==> q >= 0.0
  {
    c * a / t
  }

  /** The exact share of weight `i` in `n`. */
  function Quota(n: nat, w: seq<real>, i: nat): (q: real)
    requires AreWeights(w) && i < |w|
    ensures q >= 0.0
  {
    Share(n as real, w[i], Total(w))
  }

  function Part(n: nat, w: seq<real>, i: nat): (f: int)
    requires AreWeights(w) && i < |w|
    ensures f >= 0
  {
    Quota(n, w, i).Floor
  }

  function Remainder(n: nat, w: seq<real>, i: nat): (r: real)
    requires AreWeights(w) && i < |w|
    ensures 0.0 <= r < 1.0
  {
    Quota(n, w, i) - Part(n, w, i) as real
  }

  /** `i` is rounded up before `j`: the larger remainder first, ties to the earlier one. */
  predicate Before(n: nat, w: seq<real>, i: nat, j: nat)
    requires AreWeights(w) && i < |w| && j < |w|
  {
    Remainder(n, w, i) > Remainder(n, w, j) || (Remainder(n, w, i) == Remainder(n, w, j) && i < j)
  }

  /** The apportionment of `n`: the whole of it is handed out, each share is its quota rounded down or up,
      nothing that came out even is rounded up, and what is rounded up comes before what is not. */
  predicate IsApportionment(n: nat, w: seq<real>, out: seq<int>)
    requires AreWeights(w)
  {
    && |out| == |w| && Sum(out) == n
    && (forall i :: 0 <= i < |w| ==> Part(n, w, i) <= out[i] <= Part(n, w, i) + 1)
    && (forall i :: 0 <= i < |w| && out[i] > Part(n, w, i) ==> Remainder(n, w, i) > 0.0)
    && (forall i, j :: 0 <= i < |w| && 0 <= j < |w| && out[i] > Part(n, w, i) && out[j] == Part(n, w, j) ==>
          Before(n, w, i, j))
  }

  // ----- sums -----------------------------------------------------------------------------------

  function Quotas(n: nat, w: seq<real>): (q: seq<real>)
    requires AreWeights(w)
    ensures |q| == |w|
  {
    seq(|w|, i requires 0 <= i < |w| => Quota(n, w, i))
  }

  function Parts(n: nat, w: seq<real>): (f: seq<int>)
    requires AreWeights(w)
    ensures |f| == |w|
  {
    seq(|w|, i requires 0 <= i < |w| => Part(n, w, i))
  }

  function Remainders(n: nat, w: seq<real>): (r: seq<real>)
    requires AreWeights(w)
    ensures |r| == |w|
  {
    seq(|w|, i requires 0 <= i < |w| => Remainder(n, w, i))
  }

  lemma SharesAddUp(c: real, a: real, b: real, t: real)
    requires t > 0.0
    ensures Share(c, a, t) + Share(c, b, t) == Share(c, a + b, t)
  {
  }

  lemma FullShare(c: real, t: real)
    requires t > 0.0
    ensures Share(c, 0.0, t) == 0.0 && Share(c, t, t) == c
  {
  }

  lemma {:induction false} QuotasAddUp(n: nat, w: seq<real>, k: nat)
    requires AreWeights(w) && k <= |w|
    ensures Total(Quotas(n, w)[..k]) == Share(n as real, Total(w[..k]), Total(w))
    decreases k
  {
    FullShare(n as real, Total(w));
    hide Share;
    if k > 0 {
      QuotasAddUp(n, w, k - 1);
      assert Quotas(n, w)[..k][..k - 1] == Quotas(n, w)[..k - 1] && w[..k][..k - 1] == w[..k - 1];
      SharesAddUp(n as real, Total(w[..k - 1]), w[k - 1], Total(w));
    }
  }

  lemma {:induction false} PartsAddUp(n: nat, w: seq<real>, k: nat)
    requires AreWeights(w) && k <= |w|
    ensures Sum(Parts(n, w)[..k]) as real + Total(Remainders(n, w)[..k]) == Total(Quotas(n, w)[..k])
    decreases k
  {
    if k > 0 {
      PartsAddUp(n, w, k - 1);
      assert Parts(n, w)[..k][..k - 1] == Parts(n, w)[..k - 1];
      assert Remainders(n, w)[..k][..k - 1] == Remainders(n, w)[..k - 1];
      assert Quotas(n, w)[..k][..k - 1] == Quotas(n, w)[..k - 1];
    }
  }

  /** What is left after rounding down is exactly the sum of the remainders. */
  lemma LeftOver(n: nat, w: seq<real>)
    requires AreWeights(w)
    ensures (n - Sum(Parts(n, w))) as real == Total(Remainders(n, w))
  {
    QuotasAddUp(n, w, |w|);
    PartsAddUp(n, w, |w|);
    FullShare(n as real, Total(w));
    assert Quotas(n, w)[..|w|] == Quotas(n, w) && w[..|w|] == w;
    assert Parts(n, w)[..|w|] == Parts(n, w) && Remainders(n, w)[..|w|] == Remainders(n, w);
  }

  // ----- rounding order -------------------------------------------------------------------------

  /** `order` with `i` put in after everything that comes before it: one step of the stable sort. */
  function Insert(n: nat, w: seq<real>, order: seq<nat>, i: nat): (r: seq<nat>)
    requires AreWeights(w) && i < |w| && forall k :: 0 <= k < |order| ==> order[k] < |w|
    ensures forall k :: 0 <= k < |r| ==> r[k] < |w|
    ensures |r| == |order| + 1
  {
    if order == [] || Before(n, w, i, order[0]) then [i] + order
    else
      [order[0]] + Insert(n, w, order[1..], i)
  }

  /** The indices below `k`, sorted by remainder. */
  function Order(n: nat, w: seq<real>, k: nat): (order: seq<nat>)
    requires AreWeights(w) && k <= |w|
    ensures forall j :: 0 <= j < |order| ==> order[j] < |w|
  {
    if k == 0 then [] else Insert(n, w, Order(n, w, k - 1), k - 1)
  }

  predicate IsSorted(n: nat, w: seq<real>, order: seq<nat>)
    requires AreWeights(w) && forall j :: 0 <= j < |order| ==> order[j] < |w|
  {
    forall i, j :: 0 <= i < j < |order| ==> Before(n, w, order[i], order[j])
  }

  lemma {:induction false} InsertSorts(n: nat, w: seq<real>, order: seq<nat>, i: nat)
    requires AreWeights(w) && i < |w| && forall j :: 0 <= j < |order| ==> order[j] < |w|
    requires IsSorted(n, w, order) && i !in order
    ensures IsSorted(n, w, Insert(n, w, order, i))
    ensures forall j :: j in Insert(n, w, order, i) <==> j == i || j in order
  {
    hide Remainder, AreWeights;
    var r := Insert(n, w, order, i);
    if order == [] || Before(n, w, i, order[0]) {
      assert r == [i] + order;
      forall j | 0 <= j < |order| ensures Before(n, w, i, order[j]) {
        if j > 0 { assert Before(n, w, order[0], order[j]); }
      }
    } else {
      InsertSorts(n, w, order[1..], i);
      var rest := Insert(n, w, order[1..], i);
      forall j | 0 <= j < |rest| ensures Before(n, w, order[0], rest[j]) {
        assert rest[j] in rest;
      }
      assert order == [order[0]] + order[1..];
    }
  }

  lemma {:induction false} OrderIsSorted(n: nat, w: seq<real>, k: nat)
    requires AreWeights(w) && k <= |w|
    ensures IsSorted(n, w, Order(n, w, k)) && |Order(n, w, k)| == k
    ensures forall j :: j in Order(n, w, k) <==> 0 <= j < k
  {
    hide Before, Insert, AreWeights;
    if k > 0 {
      OrderIsSorted(n, w, k - 1);
      InsertSorts(n, w, Order(n, w, k - 1), k - 1);
    }
  }

  // ----- how many are rounded up ----------------------------------------------------------------

  /** The indices below `k` whose quota is not a whole number. */
  function Uneven(n: nat, w: seq<real>, k: nat): (s: set<nat>)
    requires AreWeights(w) && k <= |w|
  {
    set i: nat | i < k && Remainder(n, w, i) > 0.0
  }

  lemma {:induction false} RemaindersBound(n: nat, w: seq<real>, k: nat)
    requires AreWeights(w) && k <= |w|
    ensures 0.0 <= Total(Remainders(n, w)[..k]) <= |Uneven(n, w, k)| as real
    ensures Total(Remainders(n, w)[..k]) < k as real || k == 0
    decreases k
  {
    hide Remainder, Quota, Part;
    if k > 0 {
      RemaindersBound(n, w, k - 1);
      assert Remainders(n, w)[..k][..k - 1] == Remainders(n, w)[..k - 1];
      var more := if Remainder(n, w, k - 1) > 0.0 then {k - 1} else {};
      assert Uneven(n, w, k) == Uneven(n, w, k - 1) + more;
    }
  }

  lemma {:induction false} PrefixSize(order: seq<nat>, k: nat)
    requires k <= |order|
    ensures |set j | 0 <= j < k :: order[j]| <= k
  {
    if k > 0 {
      PrefixSize(order, k - 1);
      assert (set j | 0 <= j < k :: order[j]) == (set j | 0 <= j < k - 1 :: order[j]) + {order[k - 1]};
    }
  }

  lemma SubsetSize<T>(a: set<T>, b: set<T>)
    requires a <= b
    ensures |a| <= |b|
  {
    assert b == a + (b - a);
  }

  /** Only uneven quotas are reached before the left-over is spent. */
  lemma LeftOverStaysUneven(n: nat, w: seq<real>, j: nat)
    requires AreWeights(w) && j < n - Sum(Parts(n, w))
    ensures j < |w| && |Order(n, w, |w|)| == |w| && Remainder(n, w, Order(n, w, |w|)[j]) > 0.0
  {
    hide AreWeights, Part, Quota, Remainder, Order, Sum, Total;
    var order := Order(n, w, |w|);
    LeftOver(n, w);
    RemaindersBound(n, w, |w|);
    assert Remainders(n, w)[..|w|] == Remainders(n, w);
    OrderIsSorted(n, w, |w|);
    forall k | j <= k < |order| ensures Remainder(n, w, order[k]) <= Remainder(n, w, order[j]) {
      if k > j { assert Before(n, w, order[j], order[k]); }
    }
    if Remainder(n, w, order[j]) == 0.0 {
      var early := set k | 0 <= k < j :: order[k];
      forall i | i in Uneven(n, w, |w|) ensures i in early {
        assert i in order;
        var k :| 0 <= k < |order| && order[k] == i;
        assert k < j;
      }
      SubsetSize(Uneven(n, w, |w|), early);
      PrefixSize(order, j);
    }
  }

  // ----- the code -------------------------------------------------------------------------------

  lemma {:induction false} SumUpdate(s: seq<int>, i: nat, v: int)
    requires i < |s|
    ensures Sum(s[i := v]) == Sum(s) - s[i] + v
    decreases |s|
  {
    var n := |s| - 1;
    if i == n {
      assert s[i := v][..n] == s[..n];
    } else {
      assert s[i := v][..n] == s[..n][i := v];
      SumUpdate(s[..n], i, v);
    }
  }

  predicate IsPermutation(order: seq<nat>, k: nat)
  {
    && |order| == k && (forall i :: 0 <= i < k ==> order[i] < k)
    && (forall i, j :: 0 <= i < j < k ==> order[i] != order[j])
  }

  lemma OrderFacts(n: nat, w: seq<real>)
    requires AreWeights(w)
    ensures IsPermutation(Order(n, w, |w|), |w|)
    ensures 0 <= n - Sum(Parts(n, w)) < |w|
  {
    hide Remainder, Part;
    OrderIsSorted(n, w, |w|);
    LeftOver(n, w);
    RemaindersBound(n, w, |w|);
    assert Remainders(n, w)[..|w|] == Remainders(n, w);
    var order := Order(n, w, |w|);
    forall i, j | 0 <= i < j < |w| ensures order[i] != order[j] {
      assert Before(n, w, order[i], order[j]);
    }
  }

  /** Splits `n` over the weights (largest remainder, ties to the earlier one). */
  method Allocate(n: nat, weights: seq<real>) returns (out: seq<int>)
    requires AreWeights(weights)
    ensures IsApportionment(n, weights, out)
  {
    hide AreWeights, Order, Parts, Part, Before, Sum, Total, Wrapped;
    var parts, order := Parts(n, weights), Order(n, weights, |weights|);
    OrderFacts(n, weights);
    out := parts;
    var left := n - Sum(out);
    var i := 0;
    while left > 0
      invariant 0 <= i && left == n - Sum(parts) - i && left >= 0
      invariant |out| == |weights| && Sum(out) == Sum(parts) + i
      invariant forall k :: 0 <= k < i ==> out[order[k]] == parts[order[k]] + 1
      invariant forall k :: i <= k < |order| ==> out[order[k]] == parts[order[k]]
      decreases left
    {
      var at := order[Wrapped(i, |order|)];
      SumUpdate(out, at, out[at] + 1);
      out := out[at := out[at] + 1];
      i, left := i + 1, left - 1;
    }
    PartsAt(n, weights);
    HandedOut(n, weights, out, i);
  }

  /** `i % n`. */
  function Wrapped(i: nat, n: nat): (r: nat)
    requires n > 0
    ensures r < n && (i < n ==> r == i)
  {
    i % n
  }

  lemma PartsAt(n: nat, w: seq<real>)
    requires AreWeights(w)
    ensures forall i :: 0 <= i < |w| ==> Parts(n, w)[i] == Part(n, w, i)
  {
  }

  lemma HandedOut(n: nat, w: seq<real>, out: seq<int>, i: nat)
    requires AreWeights(w) && |out| == |w| && Sum(out) == n && i == n - Sum(Parts(n, w)) && i <= |w|
    requires |Order(n, w, |w|)| == |w|
    requires var order := Order(n, w, |w|);
             && (forall k :: 0 <= k < i ==> out[order[k]] == Part(n, w, order[k]) + 1)
             && (forall k :: i <= k < |order| ==> out[order[k]] == Part(n, w, order[k]))
    ensures IsApportionment(n, w, out)
  {
    var order := Order(n, w, |w|);
    OrderIsSorted(n, w, |w|);
    hide Part, Remainder, Order, Total, Sum;
    forall k | 0 <= k < i ensures Remainder(n, w, order[k]) > 0.0 {
      LeftOverStaysUneven(n, w, k);
    }
    forall j | 0 <= j < |w|
      ensures Part(n, w, j) <= out[j] <= Part(n, w, j) + 1
      ensures out[j] > Part(n, w, j) ==> Remainder(n, w, j) > 0.0
    {
      var _ := Position(order, j);
    }
    forall a, b | 0 <= a < |w| && 0 <= b < |w| && out[a] > Part(n, w, a) && out[b] == Part(n, w, b)
      ensures Before(n, w, a, b)
    {
      var k := Position(order, a);
      var l := Position(order, b);
    }
  }

  /** The parts, with one more for each of the first `i` in order. */
  lemma {:induction false} HandOut(n: nat, w: seq<real>, i: nat) returns (out: seq<int>)
    requires AreWeights(w) && i <= |w| && IsPermutation(Order(n, w, |w|), |w|)
    ensures |out| == |w| && Sum(out) == Sum(Parts(n, w)) + i
    ensures var (parts, order) := (Parts(n, w), Order(n, w, |w|));
      && (forall k :: 0 <= k < i ==> out[order[k]] == parts[order[k]] + 1)
      && (forall k :: i <= k < |order| ==> out[order[k]] == parts[order[k]])
    decreases i
  {
    hide AreWeights, Order, Parts, Sum;
    if i == 0 {
      out := Parts(n, w);
    } else {
      var before := HandOut(n, w, i - 1);
      var at := Order(n, w, |w|)[i - 1];
      SumUpdate(before, at, before[at] + 1);
      out := before[at := before[at] + 1];
    }
  }

  lemma PermutationSize(order: seq<nat>, k: nat)
    requires IsPermutation(order, k)
    ensures |order| == k && forall i :: 0 <= i < k ==> order[i] < k
  {
  }

  /** There is an apportionment by any weights. */
  lemma ApportionmentExists(n: nat, w: seq<real>)
    requires AreWeights(w)
    ensures exists out :: IsApportionment(n, w, out)
  {
    hide AreWeights, Order, Parts, Part, Before, Sum, IsApportionment, IsPermutation;
    OrderFacts(n, w);
    PartsAt(n, w);
    var left := n - Sum(Parts(n, w));
    var out := HandOut(n, w, left);
    var (parts, order) := (Parts(n, w), Order(n, w, |w|));
    PermutationSize(order, |w|);
    forall k | 0 <= k < |order| ensures parts[order[k]] == Part(n, w, order[k]) { assert 0 <= order[k] < |w|; }
    HandedOut(n, w, out, left);
  }

  lemma Position(order: seq<nat>, j: nat) returns (k: nat)
    requires j in order
    ensures k < |order| && order[k] == j
  {
    k :| k < |order| && order[k] == j;
  }

  // ----- scaling a mix --------------------------------------------------------------------------

  function Reals(mix: seq<int>): (w: seq<real>)
  {
    seq(|mix|, i requires 0 <= i < |mix| => mix[i] as real)
  }

  lemma {:induction false} TotalOfReals(mix: seq<int>)
    ensures Total(Reals(mix)) == Sum(mix) as real
  {
    if mix != [] {
      assert Reals(mix)[..|mix| - 1] == Reals(mix[..|mix| - 1]);
      TotalOfReals(mix[..|mix| - 1]);
    }
  }

  lemma {:induction false} SumIsPositive(mix: seq<int>)
    requires forall i :: 0 <= i < |mix| ==> mix[i] >= 0
    ensures Sum(mix) >= 0
  {
    if mix != [] { SumIsPositive(mix[..|mix| - 1]); }
  }

  /** Scales a mix to a target total, keeping the proportions; throws when the mix asks for nothing. */
  method ScaleMix(mix: seq<int>, target: Option<nat>) returns (r: Option<seq<int>>)
    requires forall i :: 0 <= i < |mix| ==> mix[i] >= 0
    ensures r.None? <==> Sum(mix) == 0
    ensures r.Some? && (target.None? || target.value == Sum(mix)) ==> r.value == mix
    ensures r.Some? && target.Some? && target.value != Sum(mix) ==>
              AreWeights(Reals(mix)) && IsApportionment(target.value, Reals(mix), r.value)
  {
    var sum := Sum(mix);
    if sum == 0 {
      return None;
    }
    if target.None? || target.value == sum {
      return Some(mix);
    }
    TotalOfReals(mix);
    SumIsPositive(mix);
    var out := Allocate(target.value, Reals(mix));
    r := Some(out);
  }

  // ----- what an apportionment determines -------------------------------------------------------

  /** A weight of zero gets nothing, and a quota that is a whole number is met exactly. */
  lemma EvenQuotasAreExact(n: nat, w: seq<real>, out: seq<int>, i: nat)
    requires AreWeights(w) && IsApportionment(n, w, out) && i < |w|
    ensures Remainder(n, w, i) == 0.0 ==> out[i] as real == Quota(n, w, i)
    ensures w[i] == 0.0 ==> out[i] == 0
  {
    if w[i] == 0.0 {
      FullShare(n as real, Total(w));
    }
    hide Share;
  }

  lemma {:induction false} SumIsMonotone(a: seq<int>, b: seq<int>, i: nat)
    requires |a| == |b| && i <= |a| && forall j :: 0 <= j < |a| ==> a[j] >= b[j]
    ensures Sum(a) >= Sum(b)
    ensures i < |a| && a[i] > b[i] ==> Sum(a) > Sum(b)
  {
    var k := |a| - 1;
    if a != [] { SumIsMonotone(a[..k], b[..k], if i < k then i else k); }
  }

  lemma BeforeIsAsymmetric(n: nat, w: seq<real>, i: nat, j: nat)
    requires AreWeights(w) && i < |w| && j < |w|
    ensures !(Before(n, w, i, j) && Before(n, w, j, i))
  {
  }

  /** Two apportionments cannot each prefer the other's loser. */
  lemma NoneBelow(n: nat, w: seq<real>, a: seq<int>, b: seq<int>, i: nat, j: nat)
    requires AreWeights(w) && IsApportionment(n, w, a) && IsApportionment(n, w, b) && i < |w| && j < |w|
    requires a[i] > b[i]
    ensures a[j] >= b[j]
  {
    hide AreWeights, Part, Remainder, Sum, Before;
    BeforeIsAsymmetric(n, w, i, j);
  }

  lemma NeverAbove(n: nat, w: seq<real>, a: seq<int>, b: seq<int>, i: nat)
    requires AreWeights(w) && IsApportionment(n, w, a) && IsApportionment(n, w, b) && i < |w|
    ensures a[i] <= b[i]
  {
    hide AreWeights, Part, Remainder, Sum, Before;
    if a[i] > b[i] {
      forall j | 0 <= j < |w| ensures a[j] >= b[j] {
        NoneBelow(n, w, a, b, i, j);
      }
      SumIsMonotone(a, b, i);
    }
  }

  /** The total, the bounds and the rounding order leave no choice: there is one apportionment. */
  lemma ApportionmentIsUnique(n: nat, w: seq<real>, a: seq<int>, b: seq<int>)
    requires AreWeights(w) && IsApportionment(n, w, a) && IsApportionment(n, w, b)
    ensures a == b
  {
    hide AreWeights, Part, Remainder, Sum, Before;
    forall i | 0 <= i < |w| ensures a[i] == b[i] {
      NeverAbove(n, w, a, b, i);
      NeverAbove(n, w, b, a, i);
    }
  }
}
