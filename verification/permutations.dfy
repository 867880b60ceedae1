/** The recursive `permutations(arr)` of the exact solver: every ordering of
    the waypoint indices, each produced once per choice of head element. */
module Permutations {
  import opened Seqs

  function Factorial(k: nat): nat {
    if k == 0 then 1 else k * Factorial(k - 1)
  }

  /** `perms.map(perm => [x, ...perm])` */
  function PrefixAll(x: nat, perms: seq<seq<nat>>): (r: seq<seq<nat>>)
    ensures |r| == |perms|
    ensures forall t | 0 <= t < |perms| :: r[t] == [x] + perms[t]
  {
    seq(|perms|, t requires 0 <= t < |perms| => [x] + perms[t])
  }

  /** `permutations(arr)`: a one-element list holding `arr` itself when it has
      at most one element, otherwise the orderings that start with each
      element in turn. */
  function AllPermutations(arr: seq<nat>): (r: seq<seq<nat>>)
    ensures |r| == Factorial(|arr|)
    ensures forall p: seq<nat> | p in r :: multiset(p) == multiset(arr)
    decreases |arr|, |arr| + 1
  {
    if |arr| <= 1 then [arr] else HeadsFrom(arr, 0)
  }

  /** The orderings whose head is `arr[i]`, then those for heads after `i`. */
  function HeadsFrom(arr: seq<nat>, i: nat): (r: seq<seq<nat>>)
    requires |arr| >= 2 && i <= |arr|
    ensures |r| == (|arr| - i) * Factorial(|arr| - 1)
    ensures forall p: seq<nat> | p in r :: multiset(p) == multiset(arr)
    decreases |arr|, |arr| - i
  {
    if i == |arr| then []
    else
      var rest := RemoveAt(arr, i);
      var here := PrefixAll(arr[i], AllPermutations(rest));
      var later := HeadsFrom(arr, i + 1);
      PrefixKeepsElements(arr, i, AllPermutations(rest));
      CountStep(|arr| - i, Factorial(|arr| - 1));
      assert forall p: seq<nat> | p in here + later :: p in here || p in later;
      here + later
  }

  lemma CountStep(a: nat, f: nat)
    requires a >= 1
    ensures f + (a - 1) * f == a * f
  {
  }

  lemma PrefixKeepsElements(arr: seq<nat>, i: nat, perms: seq<seq<nat>>)
    requires i < |arr|
    requires forall p: seq<nat> | p in perms :: multiset(p) == multiset(RemoveAt(arr, i))
    ensures forall p: seq<nat> | p in PrefixAll(arr[i], perms) :: multiset(p) == multiset(arr)
  {
    var here := PrefixAll(arr[i], perms);
    forall p: seq<nat> | p in here
      ensures multiset(p) == multiset(arr)
    {
      var t :| 0 <= t < |here| && here[t] == p;
      assert p == [arr[i]] + perms[t];
      assert perms[t] in perms;
    }
  }

  /** Every ordering of `arr` is produced: whatever has the same elements
      with the same multiplicities appears in `permutations(arr)`. */
  lemma {:induction false} AllPermutationsComplete(arr: seq<nat>, p: seq<nat>)
    requires multiset(p) == multiset(arr)
    ensures p in AllPermutations(arr)
    decreases |arr|
  {
    assert |p| == |multiset(p)| == |arr|;
    if |arr| == 0 {
    } else if |arr| == 1 {
      assert p[0] in multiset(arr);
      assert p == [p[0]] && arr == [arr[0]];
    } else {
      assert p[0] in multiset(arr);
      var i :| 0 <= i < |arr| && arr[i] == p[0];
      var rest := RemoveAt(arr, i);
      assert p == [p[0]] + p[1..];
      assert multiset(p) == multiset{p[0]} + multiset(p[1..]);
      assert multiset(p[1..]) == multiset(p) - multiset{p[0]};
      assert multiset(rest) == multiset(arr) - multiset{arr[i]};
      AllPermutationsComplete(rest, p[1..]);
      HeadsFromContains(arr, 0, i, p[1..]);
    }
  }

  lemma {:induction false} HeadsFromContains(arr: seq<nat>, j: nat, i: nat, q: seq<nat>)
    requires |arr| >= 2 && j <= i < |arr|
    requires q in AllPermutations(RemoveAt(arr, i))
    ensures [arr[i]] + q in HeadsFrom(arr, j)
    decreases i - j
  {
    if j < i {
      HeadsFromContains(arr, j + 1, i, q);
    } else {
      var perms := AllPermutations(RemoveAt(arr, i));
      var t :| 0 <= t < |perms| && perms[t] == q;
      assert PrefixAll(arr[i], perms)[t] == [arr[i]] + q;
    }
  }
}
