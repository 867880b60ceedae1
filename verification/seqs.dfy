/** Sequence helpers shared by both route searches. */
module Seqs {

  /** Removing the element at index `i`: `splice(i, 1)` on an array, or
      `[...arr.slice(0, i), ...arr.slice(i + 1)]`. */
  function RemoveAt<T>(s: seq<T>, i: nat): (r: seq<T>)
    requires i < |s|
    ensures |r| == |s| - 1
    ensures multiset(r) + multiset{s[i]} == multiset(s)
    ensures forall j | 0 <= j < |r| :: r[j] == if j < i then s[j] else s[j + 1]
  {
    assert s == s[..i] + [s[i]] + s[i + 1..];
    s[..i] + s[i + 1..]
  }

  /** A non-empty sequence is its front followed by its last element. */
  lemma FrontLast<T>(q: seq<T>)
    requires |q| > 0
    ensures q == q[..|q| - 1] + [q[|q| - 1]]
  {
  }

  /** Gluing `q` minus its first element onto `p`, split before `q`'s last
      element. */
  lemma GlueFrontLast<T>(p: seq<T>, q: seq<T>)
    requires |q| >= 2
    ensures p + q[1..] == (p + q[..|q| - 1][1..]) + [q[|q| - 1]]
  {
    assert q[1..] == q[..|q| - 1][1..] + [q[|q| - 1]];
  }
}
