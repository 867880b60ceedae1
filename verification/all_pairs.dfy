/** The distance matrix of the exact solver: the symmetric fill from road
    queries, the Floyd-Warshall relaxation with next-hop pointers, and path
    reconstruction from those pointers (`calculateFloydWarshallRoute`). */
module AllPairs {
  import opened Wrappers
  import opened Geo
  import opened Seqs

  predicate IsSquare<T>(m: seq<seq<T>>, n: nat) {
    |m| == n && forall i | 0 <= i < n :: |m[i]| == n
  }

  predicate ZeroDiagonal(d: seq<seq<Dist>>, n: nat)
    requires IsSquare(d, n)
  {
    forall i | 0 <= i < n :: d[i][i] == Fin(0.0)
  }

  predicate Symmetric(d: seq<seq<Dist>>, n: nat)
    requires IsSquare(d, n)
  {
    forall i, j | 0 <= i < n && 0 <= j < n :: d[i][j] == d[j][i]
  }

  /** `next[i][j]` is null exactly on the diagonal and otherwise names a node. */
  predicate NextWellFormed(nx: seq<seq<Option<nat>>>, n: nat)
    requires IsSquare(nx, n)
  {
    forall i, j | 0 <= i < n && 0 <= j < n ::
      (nx[i][j].None? <==> i == j) && (nx[i][j].Some? ==> nx[i][j].value < n)
  }

  /** Every entry is at most the corresponding entry of `d0`. */
  predicate Below(d: seq<seq<Dist>>, d0: seq<seq<Dist>>, n: nat)
    requires IsSquare(d, n) && IsSquare(d0, n)
  {
    forall i, j | 0 <= i < n && 0 <= j < n :: Le(d[i][j], d0[i][j])
  }

  /** The triangle inequality through every intermediate node below `k`. */
  predicate TriangleThrough(d: seq<seq<Dist>>, n: nat, k: nat)
    requires IsSquare(d, n)
  {
    forall i, j, m | 0 <= i < n && 0 <= j < n && 0 <= m < k && m < n ::
      Le(d[i][j], Add(d[i][m], d[m][j]))
  }

  /** An entry that still equals its starting value keeps its starting next-hop. */
  predicate KeepsNext(d: seq<seq<Dist>>, nx: seq<seq<Option<nat>>>,
                      d0: seq<seq<Dist>>, nx0: seq<seq<Option<nat>>>, n: nat)
    requires IsSquare(d, n) && IsSquare(nx, n) && IsSquare(d0, n) && IsSquare(nx0, n)
  {
    forall i, j | 0 <= i < n && 0 <= j < n :: d[i][j] == d0[i][j] ==> nx[i][j] == nx0[i][j]
  }

  /** What the fill stores at (a, b): zero on the diagonal, otherwise the one
      road query made for the pair, lower index first. */
  function Direct(pts: seq<LatLng>, road: Road, a: nat, b: nat): Dist
    requires a < |pts| && b < |pts|
  {
    if a == b then Fin(0.0)
    else if a < b then road(pts[a], pts[b]).dist
    else road(pts[b], pts[a]).dist
  }

  /** The initial next-hop: none on the diagonal, the target itself elsewhere. */
  function DirectNext(a: nat, b: nat): Option<nat> {
    if a == b then None else Some(b)
  }

  /** Cells (a, b) the fill has written once row `i` is done up to column `j`. */
  predicate Written(a: nat, b: nat, i: nat, j: nat) {
    var lo := if a < b then a else b;
    var hi := if a < b then b else a;
    lo < i || (lo == i && hi < j)
  }

  /** The fill loop: one road query per unordered pair i < j, written to both
      cells; zero and a null next-hop on the diagonal. */
  method FillMatrices(pts: seq<LatLng>, road: Road)
    returns (dist: seq<seq<Dist>>, next: seq<seq<Option<nat>>>)
    ensures IsSquare(dist, |pts|) && IsSquare(next, |pts|)
    ensures ZeroDiagonal(dist, |pts|) && Symmetric(dist, |pts|)
    ensures forall i, j | 0 <= i < j < |pts| :: dist[i][j] == road(pts[i], pts[j]).dist
    ensures NextWellFormed(next, |pts|)
    ensures forall i | 0 <= i < |pts| :: next[i][i] == None
    ensures forall i, j | 0 <= i < |pts| && 0 <= j < |pts| && i != j :: next[i][j] == Some(j)
  {
    var n := |pts|;
    dist := seq(n, _ => seq(n, _ => Inf));
    next := seq(n, _ => seq(n, _ => None));
    for i := 0 to n
      invariant IsSquare(dist, n) && IsSquare(next, n)
      invariant forall a, b | 0 <= a < n && 0 <= b < n ::
        if Written(a, b, i, i) then dist[a][b] == Direct(pts, road, a, b) && next[a][b] == DirectNext(a, b)
        else dist[a][b] == Inf && next[a][b] == None
    {
      dist := dist[i := dist[i][i := Fin(0.0)]];
      for j := i + 1 to n
        invariant IsSquare(dist, n) && IsSquare(next, n)
        invariant forall a, b | 0 <= a < n && 0 <= b < n ::
          if Written(a, b, i, j) then dist[a][b] == Direct(pts, road, a, b) && next[a][b] == DirectNext(a, b)
          else dist[a][b] == Inf && next[a][b] == None
      {
        var roadDist := road(pts[i], pts[j]).dist;
        dist := dist[i := dist[i][j := roadDist]];
        dist := dist[j := dist[j][i := roadDist]];
        next := next[i := next[i][j := Some(j)]];
        next := next[j := next[j][i := Some(i)]];
      }
    }
  }

  /** Relaxing (i, j) through `k`: the sum of the two legs through `k`. */
  function Via(d: seq<seq<Dist>>, n: nat, k: nat, i: nat, j: nat): Dist
    requires IsSquare(d, n) && k < n && i < n && j < n
  {
    Add(d[i][k], d[k][j])
  }

  /** The entry after round `k`: the legs through `k` when strictly shorter. */
  function RoundDist(d: seq<seq<Dist>>, n: nat, k: nat, i: nat, j: nat): Dist
    requires IsSquare(d, n) && k < n && i < n && j < n
  {
    if Less(Via(d, n, k, i, j), d[i][j]) then Via(d, n, k, i, j) else d[i][j]
  }

  /** The next-hop after round `k`: the first hop towards `k` on an improvement. */
  function RoundNext(d: seq<seq<Dist>>, nx: seq<seq<Option<nat>>>, n: nat, k: nat, i: nat, j: nat): Option<nat>
    requires IsSquare(d, n) && IsSquare(nx, n) && k < n && i < n && j < n
  {
    if Less(Via(d, n, k, i, j), d[i][j]) then nx[i][k] else nx[i][j]
  }

  /** (d, nx) is (dk, nk) after relaxing every pair through `k`. */
  predicate IsRound(d: seq<seq<Dist>>, nx: seq<seq<Option<nat>>>,
                    dk: seq<seq<Dist>>, nk: seq<seq<Option<nat>>>, n: nat, k: nat)
    requires IsSquare(d, n) && IsSquare(nx, n) && IsSquare(dk, n) && IsSquare(nk, n) && k < n
  {
    forall i, j | 0 <= i < n && 0 <= j < n ::
      d[i][j] == RoundDist(dk, n, k, i, j) && nx[i][j] == RoundNext(dk, nk, n, k, i, j)
  }

  /** What holds of the matrices once rounds 0 .. k-1 are done. */
  predicate Relaxed(d: seq<seq<Dist>>, nx: seq<seq<Option<nat>>>,
                    d0: seq<seq<Dist>>, nx0: seq<seq<Option<nat>>>, n: nat, k: nat)
  {
    && IsSquare(d, n) && IsSquare(nx, n) && IsSquare(d0, n) && IsSquare(nx0, n)
    && ZeroDiagonal(d, n) && NextWellFormed(nx, n)
    && Below(d, d0, n) && TriangleThrough(d, n, k) && KeepsNext(d, nx, d0, nx0, n)
    && (Symmetric(d0, n) ==> Symmetric(d, n))
  }

  lemma LessLeTrans(a: Dist, b: Dist, c: Dist)
    ensures Less(a, b) && Le(b, c) ==> Less(a, c)
    ensures Le(a, b) && Le(b, c) ==> Le(a, c)
  {
  }

  lemma AddMono(a: Dist, b: Dist, a': Dist, b': Dist)
    requires Le(a, a') && Le(b, b')
    ensures Le(Add(a, b), Add(a', b'))
  {
  }

  /** Adding a distance never makes a sum shorter. */
  lemma AddGrows(a: Dist, b: Dist)
    ensures Le(a, Add(a, b)) && Le(b, Add(a, b))
  {
  }

  /** With a zero diagonal, round `k` leaves row `k` and column `k` alone. */
  lemma RoundFixesPivot(dk: seq<seq<Dist>>, n: nat, k: nat, a: nat)
    requires IsSquare(dk, n) && ZeroDiagonal(dk, n) && k < n && a < n
    ensures !Less(Via(dk, n, k, a, k), dk[a][k]) && !Less(Via(dk, n, k, k, a), dk[k][a])
  {
  }

  /** The triangle inequality through one node survives a round, and the
      round adds the inequality through `k` itself. */
  lemma RoundTriangleAt(dk: seq<seq<Dist>>, d: seq<seq<Dist>>, n: nat, k: nat, i: nat, j: nat, m: nat)
    requires IsSquare(dk, n) && IsSquare(d, n) && ZeroDiagonal(dk, n) && k < n
    requires i < n && j < n && m <= k
    requires TriangleThrough(dk, n, k)
    requires forall a, b | 0 <= a < n && 0 <= b < n :: d[a][b] == RoundDist(dk, n, k, a, b)
    ensures Le(d[i][j], Add(d[i][m], d[m][j]))
  {
    RoundFixesPivot(dk, n, k, i);
    RoundFixesPivot(dk, n, k, j);
    assert d[i][k] == dk[i][k] && d[k][j] == dk[k][j];
    var through := Add(dk[i][k], dk[k][j]);
    assert Le(d[i][j], through);
    assert Le(d[i][j], dk[i][j]);
    if m < k {
      var left := d[i][m];
      var right := d[m][j];
      assert Le(dk[i][j], Add(dk[i][m], dk[m][j]));
      assert Le(dk[k][j], Add(dk[k][m], dk[m][j]));
      assert Le(dk[i][k], Add(dk[i][m], dk[m][k]));
      if left == dk[i][m] && right == dk[m][j] {
        LessLeTrans(d[i][j], dk[i][j], Add(left, right));
      } else if left == dk[i][m] {
        assert right == Add(dk[m][k], dk[k][j]);
        AddAssoc(dk[i][m], dk[m][k], dk[k][j]);
        AddMono(dk[i][k], dk[k][j], Add(dk[i][m], dk[m][k]), dk[k][j]);
        LessLeTrans(d[i][j], through, Add(left, right));
      } else if right == dk[m][j] {
        assert left == Add(dk[i][k], dk[k][m]);
        AddAssoc(dk[i][k], dk[k][m], dk[m][j]);
        AddMono(dk[i][k], dk[k][j], dk[i][k], Add(dk[k][m], dk[m][j]));
        LessLeTrans(d[i][j], through, Add(left, right));
      } else {
        assert left == Add(dk[i][k], dk[k][m]) && right == Add(dk[m][k], dk[k][j]);
        AddGrows(dk[i][k], dk[k][m]);
        AddGrows(dk[m][k], dk[k][j]);
        AddMono(dk[i][k], dk[k][j], left, right);
        LessLeTrans(d[i][j], through, Add(left, right));
      }
    }
  }

  lemma RoundKeepsRelaxed(d: seq<seq<Dist>>, nx: seq<seq<Option<nat>>>,
                          dk: seq<seq<Dist>>, nk: seq<seq<Option<nat>>>,
                          d0: seq<seq<Dist>>, nx0: seq<seq<Option<nat>>>, n: nat, k: nat)
    requires k < n && Relaxed(dk, nk, d0, nx0, n, k)
    requires IsSquare(d, n) && IsSquare(nx, n) && IsRound(d, nx, dk, nk, n, k)
    ensures Relaxed(d, nx, d0, nx0, n, k + 1)
  {
    RoundTriangle(d, dk, n, k);
    RoundBelow(d, nx, dk, nk, d0, nx0, n, k);
    RoundDiagonal(d, dk, n, k);
    if Symmetric(d0, n) {
      RoundSymmetric(d, nx, dk, nk, n, k);
    }
  }

  lemma RoundTriangle(d: seq<seq<Dist>>, dk: seq<seq<Dist>>, n: nat, k: nat)
    requires k < n && IsSquare(dk, n) && ZeroDiagonal(dk, n) && TriangleThrough(dk, n, k)
    requires IsSquare(d, n)
    requires forall a, b | 0 <= a < n && 0 <= b < n :: d[a][b] == RoundDist(dk, n, k, a, b)
    ensures TriangleThrough(d, n, k + 1)
  {
    forall i, j, m | 0 <= i < n && 0 <= j < n && 0 <= m < k + 1 && m < n
      ensures Le(d[i][j], Add(d[i][m], d[m][j]))
    {
      RoundTriangleAt(dk, d, n, k, i, j, m);
    }
  }

  lemma RoundBelow(d: seq<seq<Dist>>, nx: seq<seq<Option<nat>>>,
                   dk: seq<seq<Dist>>, nk: seq<seq<Option<nat>>>,
                   d0: seq<seq<Dist>>, nx0: seq<seq<Option<nat>>>, n: nat, k: nat)
    requires k < n && Relaxed(dk, nk, d0, nx0, n, k)
    requires IsSquare(d, n) && IsSquare(nx, n) && IsRound(d, nx, dk, nk, n, k)
    ensures Below(d, d0, n) && KeepsNext(d, nx, d0, nx0, n) && NextWellFormed(nx, n)
  {
    forall i, j | 0 <= i < n && 0 <= j < n
      ensures Le(d[i][j], d0[i][j])
      ensures d[i][j] == d0[i][j] ==> nx[i][j] == nx0[i][j]
      ensures (nx[i][j].None? <==> i == j) && (nx[i][j].Some? ==> nx[i][j].value < n)
    {
      RoundFixesPivot(dk, n, k, i);
      LessLeTrans(d[i][j], dk[i][j], d0[i][j]);
    }
  }

  lemma RoundDiagonal(d: seq<seq<Dist>>, dk: seq<seq<Dist>>, n: nat, k: nat)
    requires k < n && IsSquare(dk, n) && ZeroDiagonal(dk, n)
    requires IsSquare(d, n)
    requires forall a, b | 0 <= a < n && 0 <= b < n :: d[a][b] == RoundDist(dk, n, k, a, b)
    ensures ZeroDiagonal(d, n)
  {
    forall i | 0 <= i < n
      ensures d[i][i] == Fin(0.0)
    {
      assert !Less(Via(dk, n, k, i, i), dk[i][i]);
    }
  }

  lemma RoundSymmetric(d: seq<seq<Dist>>, nx: seq<seq<Option<nat>>>,
                       dk: seq<seq<Dist>>, nk: seq<seq<Option<nat>>>, n: nat, k: nat)
    requires k < n && IsSquare(dk, n) && IsSquare(nk, n) && Symmetric(dk, n)
    requires IsSquare(d, n) && IsSquare(nx, n) && IsRound(d, nx, dk, nk, n, k)
    ensures Symmetric(d, n)
  {
    forall i, j | 0 <= i < n && 0 <= j < n
      ensures d[i][j] == d[j][i]
    {
      assert Via(dk, n, k, i, j) == Via(dk, n, k, j, i);
    }
  }

  /** The innermost loop for one row `i` of round `k`: each (i, j) whose
      route through `k` is strictly shorter takes it, with the next-hop
      towards `k`. Every other row is left alone. */
  method RelaxRow(d0: seq<seq<Dist>>, nx0: seq<seq<Option<nat>>>, n: nat, k: nat, i: nat)
    returns (d: seq<seq<Dist>>, nx: seq<seq<Option<nat>>>)
    requires IsSquare(d0, n) && IsSquare(nx0, n) && k < n && i < n
    requires d0[k][k] == Fin(0.0)
    ensures IsSquare(d, n) && IsSquare(nx, n)
    ensures forall b | 0 <= b < n ::
      d[i][b] == RoundDist(d0, n, k, i, b) && nx[i][b] == RoundNext(d0, nx0, n, k, i, b)
    ensures forall a | 0 <= a < n && a != i :: d[a] == d0[a] && nx[a] == nx0[a]
  {
    d, nx := d0, nx0;
    for j := 0 to n
      invariant IsSquare(d, n) && IsSquare(nx, n)
      invariant forall a | 0 <= a < n && a != i :: d[a] == d0[a] && nx[a] == nx0[a]
      invariant forall b | 0 <= b < j ::
        d[i][b] == RoundDist(d0, n, k, i, b) && nx[i][b] == RoundNext(d0, nx0, n, k, i, b)
      invariant forall b | j <= b < n :: d[i][b] == d0[i][b] && nx[i][b] == nx0[i][b]
    {
      assert d[i][k] == d0[i][k] && nx[i][k] == nx0[i][k];
      assert d[k][j] == d0[k][j];
      if Less(Add(d[i][k], d[k][j]), d[i][j]) {
        d := d[i := d[i][j := Add(d[i][k], d[k][j])]];
        nx := nx[i := nx[i][j := nx[i][k]]];
      }
    }
  }

  /** One round of the middle loop: every row relaxed through `k`. Row `k`
      and column `k` do not move during the round, so relaxing in place
      gives the same matrix as relaxing a copy. */
  method RelaxRound(d0: seq<seq<Dist>>, nx0: seq<seq<Option<nat>>>, n: nat, k: nat)
    returns (d: seq<seq<Dist>>, nx: seq<seq<Option<nat>>>)
    requires IsSquare(d0, n) && IsSquare(nx0, n) && ZeroDiagonal(d0, n) && k < n
    ensures IsSquare(d, n) && IsSquare(nx, n) && IsRound(d, nx, d0, nx0, n, k)
  {
    d, nx := d0, nx0;
    for i := 0 to n
      invariant IsSquare(d, n) && IsSquare(nx, n)
      invariant forall a, b | 0 <= a < i && 0 <= b < n ::
        d[a][b] == RoundDist(d0, n, k, a, b) && nx[a][b] == RoundNext(d0, nx0, n, k, a, b)
      invariant forall a | i <= a < n :: d[a] == d0[a] && nx[a] == nx0[a]
    {
      PivotRowStable(d, nx, d0, nx0, n, k, i);
      var d', nx' := RelaxRow(d, nx, n, k, i);
      forall b | 0 <= b < n
        ensures d'[i][b] == RoundDist(d0, n, k, i, b) && nx'[i][b] == RoundNext(d0, nx0, n, k, i, b)
      {
        SameInputsSameRound(d, nx, d0, nx0, n, k, i, b);
      }
      d, nx := d', nx';
    }
  }

  /** Part way through round `k`, the pivot row still holds its values from
      the start of the round. */
  lemma PivotRowStable(d: seq<seq<Dist>>, nx: seq<seq<Option<nat>>>,
                       d0: seq<seq<Dist>>, nx0: seq<seq<Option<nat>>>, n: nat, k: nat, i: nat)
    requires IsSquare(d, n) && IsSquare(nx, n) && IsSquare(d0, n) && IsSquare(nx0, n)
    requires ZeroDiagonal(d0, n) && k < n && i < n
    requires forall a, b | 0 <= a < i && 0 <= b < n ::
        d[a][b] == RoundDist(d0, n, k, a, b) && nx[a][b] == RoundNext(d0, nx0, n, k, a, b)
    requires forall a | i <= a < n :: d[a] == d0[a] && nx[a] == nx0[a]
    ensures forall b | 0 <= b < n :: d[k][b] == d0[k][b]
    ensures d[k][k] == Fin(0.0)
  {
    forall b | 0 <= b < n
      ensures d[k][b] == d0[k][b]
    {
      if k < i {
        RoundFixesPivot(d0, n, k, b);
      }
    }
  }

  lemma SameInputsSameRound(d: seq<seq<Dist>>, nx: seq<seq<Option<nat>>>,
                            d0: seq<seq<Dist>>, nx0: seq<seq<Option<nat>>>, n: nat, k: nat, i: nat, b: nat)
    requires IsSquare(d, n) && IsSquare(nx, n) && IsSquare(d0, n) && IsSquare(nx0, n)
    requires k < n && i < n && b < n
    requires d[i] == d0[i] && nx[i] == nx0[i] && d[k][b] == d0[k][b]
    ensures RoundDist(d, n, k, i, b) == RoundDist(d0, n, k, i, b)
    ensures RoundNext(d, nx, n, k, i, b) == RoundNext(d0, nx0, n, k, i, b)
  {
  }

  /** Round `k` applied to a whole distance matrix. */
  function RoundMatrix(d: seq<seq<Dist>>, n: nat, k: nat): (r: seq<seq<Dist>>)
    requires IsSquare(d, n) && k < n
    ensures IsSquare(r, n)
    ensures forall i, j | 0 <= i < n && 0 <= j < n :: r[i][j] == RoundDist(d, n, k, i, j)
  {
    seq(n, i requires 0 <= i < n => seq(n, j requires 0 <= j < n => RoundDist(d, n, k, i, j)))
  }

  /** Round `k` applied to a whole next-hop matrix. */
  function RoundNextMatrix(d: seq<seq<Dist>>, nx: seq<seq<Option<nat>>>, n: nat, k: nat): (r: seq<seq<Option<nat>>>)
    requires IsSquare(d, n) && IsSquare(nx, n) && k < n
    ensures IsSquare(r, n)
    ensures forall i, j | 0 <= i < n && 0 <= j < n :: r[i][j] == RoundNext(d, nx, n, k, i, j)
  {
    seq(n, i requires 0 <= i < n => seq(n, j requires 0 <= j < n => RoundNext(d, nx, n, k, i, j)))
  }

  /** The distances once the pivots 0 .. k-1 have been relaxed, one round
      after the other, starting from `d0`. */
  function RelaxUpTo(d0: seq<seq<Dist>>, n: nat, k: nat): (r: seq<seq<Dist>>)
    requires IsSquare(d0, n) && k <= n
    ensures IsSquare(r, n)
    decreases k
  {
    if k == 0 then d0 else RoundMatrix(RelaxUpTo(d0, n, k - 1), n, k - 1)
  }

  /** The next-hops once the pivots 0 .. k-1 have been relaxed. */
  function RelaxNextUpTo(d0: seq<seq<Dist>>, nx0: seq<seq<Option<nat>>>, n: nat, k: nat): (r: seq<seq<Option<nat>>>)
    requires IsSquare(d0, n) && IsSquare(nx0, n) && k <= n
    ensures IsSquare(r, n)
    decreases k
  {
    if k == 0 then nx0 else RoundNextMatrix(RelaxUpTo(d0, n, k - 1), RelaxNextUpTo(d0, nx0, n, k - 1), n, k - 1)
  }

  /** A round described cell by cell is the round as a matrix. */
  lemma IsRoundIsRoundMatrix(d: seq<seq<Dist>>, nx: seq<seq<Option<nat>>>,
                             dk: seq<seq<Dist>>, nk: seq<seq<Option<nat>>>, n: nat, k: nat)
    requires IsSquare(d, n) && IsSquare(nx, n) && IsSquare(dk, n) && IsSquare(nk, n) && k < n
    requires IsRound(d, nx, dk, nk, n, k)
    ensures d == RoundMatrix(dk, n, k) && nx == RoundNextMatrix(dk, nk, n, k)
  {
    var rd, rn := RoundMatrix(dk, n, k), RoundNextMatrix(dk, nk, n, k);
    forall i | 0 <= i < n
      ensures d[i] == rd[i] && nx[i] == rn[i]
    {
      assert forall j | 0 <= j < n :: d[i][j] == rd[i][j] && nx[i][j] == rn[i][j];
    }
  }

  /** The Floyd-Warshall triple loop, in place: for each intermediate `k`,
      every (i, j) whose route through `k` is strictly shorter takes that
      route and the next-hop towards `k`. The result is exactly `n` rounds
      of relaxation (see `RelaxationIsShortestWalk` for what that means). */
  method FloydWarshall(dist: seq<seq<Dist>>, next: seq<seq<Option<nat>>>, n: nat)
    returns (d: seq<seq<Dist>>, nx: seq<seq<Option<nat>>>)
    requires IsSquare(dist, n) && IsSquare(next, n)
    requires ZeroDiagonal(dist, n) && NextWellFormed(next, n)
    ensures d == RelaxUpTo(dist, n, n) && nx == RelaxNextUpTo(dist, next, n, n)
    ensures IsSquare(d, n) && IsSquare(nx, n)
    ensures ZeroDiagonal(d, n) && NextWellFormed(nx, n)
    ensures Below(d, dist, n)
    ensures forall i, j, k | 0 <= i < n && 0 <= j < n && 0 <= k < n ::
      Le(d[i][j], Add(d[i][k], d[k][j]))
    ensures Symmetric(dist, n) ==> Symmetric(d, n)
    ensures KeepsNext(d, nx, dist, next, n)
  {
    d, nx := dist, next;
    for k := 0 to n
      invariant Relaxed(d, nx, dist, next, n, k)
      invariant d == RelaxUpTo(dist, n, k) && nx == RelaxNextUpTo(dist, next, n, k)
    {
      var d', nx' := RelaxRound(d, nx, n, k);
      RoundKeepsRelaxed(d', nx', d, nx, dist, next, n, k);
      IsRoundIsRoundMatrix(d', nx', d, nx, n, k);
      d, nx := d', nx';
    }
  }

  predicate InRange(p: seq<nat>, n: nat) {
    forall t | 0 <= t < |p| :: p[t] < n
  }

  /** The cost of walking the nodes of `p` in order over the matrix `m`. */
  function PathCost(m: seq<seq<Dist>>, n: nat, p: seq<nat>): Dist
    requires IsSquare(m, n) && InRange(p, n)
    decreases |p|
  {
    if |p| < 2 then Fin(0.0)
    else Add(PathCost(m, n, p[..|p| - 1]), m[p[|p| - 2]][p[|p| - 1]])
  }

  /** Walk costs only shrink when every entry does. */
  lemma {:induction false} PathCostMono(d: seq<seq<Dist>>, d0: seq<seq<Dist>>, n: nat, p: seq<nat>)
    requires IsSquare(d, n) && IsSquare(d0, n) && InRange(p, n)
    requires Below(d, d0, n)
    ensures Le(PathCost(d, n, p), PathCost(d0, n, p))
    decreases |p|
  {
    if |p| >= 2 {
      PathCostMono(d, d0, n, p[..|p| - 1]);
      AddMono(PathCost(d, n, p[..|p| - 1]), d[p[|p| - 2]][p[|p| - 1]],
              PathCost(d0, n, p[..|p| - 1]), d0[p[|p| - 2]][p[|p| - 1]]);
    }
  }

  /** A relaxed matrix (zero diagonal, below the fill, triangle inequality
      everywhere) bounds the distance between two nodes by the fill's cost of
      every walk between them. This is the lower half of
      `RelaxationIsShortestWalk`. */
  lemma {:induction false} ShortestBelowWalk(d: seq<seq<Dist>>, d0: seq<seq<Dist>>, n: nat, p: seq<nat>)
    requires IsSquare(d, n) && IsSquare(d0, n) && InRange(p, n) && |p| > 0
    requires ZeroDiagonal(d, n) && Below(d, d0, n)
    requires forall i, j, k | 0 <= i < n && 0 <= j < n && 0 <= k < n ::
      Le(d[i][j], Add(d[i][k], d[k][j]))
    ensures Le(d[p[0]][p[|p| - 1]], PathCost(d0, n, p))
    decreases |p|
  {
    if |p| >= 2 {
      var p' := p[..|p| - 1];
      var a, b, c := p[0], p[|p| - 2], p[|p| - 1];
      ShortestBelowWalk(d, d0, n, p');
      assert p'[0] == a && p'[|p'| - 1] == b;
      AddMono(d[a][b], d[b][c], PathCost(d0, n, p'), d0[b][c]);
      LessLeTrans(d[a][c], Add(d[a][b], d[b][c]), PathCost(d0, n, p));
    }
  }

  /** `p` is a walk from `i` to `j` over the nodes below `n`. */
  predicate IsWalk(p: seq<nat>, n: nat, i: nat, j: nat) {
    |p| > 0 && p[0] == i && p[|p| - 1] == j && InRange(p, n)
  }

  /** One more step at the end of a walk adds that step's cost. */
  lemma PathCostSnoc(m: seq<seq<Dist>>, n: nat, p: seq<nat>, x: nat)
    requires IsSquare(m, n) && InRange(p, n) && |p| > 0 && x < n
    ensures InRange(p + [x], n)
    ensures PathCost(m, n, p + [x]) == Add(PathCost(m, n, p), m[p[|p| - 1]][x])
  {
    var px := p + [x];
    assert px[..|px| - 1] == p;
  }

  /** Joining a walk that ends at `x` to one that starts at `x` adds their costs. */
  lemma {:induction false} PathCostJoin(m: seq<seq<Dist>>, n: nat, p: seq<nat>, q: seq<nat>)
    requires IsSquare(m, n) && InRange(p, n) && InRange(q, n)
    requires |p| > 0 && |q| > 0 && p[|p| - 1] == q[0]
    ensures InRange(p + q[1..], n)
    ensures PathCost(m, n, p + q[1..]) == Add(PathCost(m, n, p), PathCost(m, n, q))
    decreases |q|
  {
    if |q| == 1 {
      assert p + q[1..] == p;
    } else {
      var q', x := q[..|q| - 1], q[|q| - 1];
      var pre := p + q'[1..];
      PathCostJoin(m, n, p, q');
      GlueFrontLast(p, q);
      FrontLast(q);
      assert pre[|pre| - 1] == q'[|q'| - 1];
      PathCostSnoc(m, n, pre, x);
      PathCostSnoc(m, n, q', x);
      AddAssoc(PathCost(m, n, p), PathCost(m, n, q'), m[q'[|q'| - 1]][x]);
    }
  }

  /** Two walks meeting at `x` join into one walk whose cost is the sum. */
  lemma WalkJoin(m: seq<seq<Dist>>, n: nat, w1: seq<nat>, w2: seq<nat>, i: nat, x: nat, j: nat)
    requires IsSquare(m, n) && IsWalk(w1, n, i, x) && IsWalk(w2, n, x, j)
    ensures IsWalk(w1 + w2[1..], n, i, j)
    ensures PathCost(m, n, w1 + w2[1..]) == Add(PathCost(m, n, w1), PathCost(m, n, w2))
  {
    PathCostJoin(m, n, w1, w2);
    if |w2| == 1 {
      assert w1 + w2[1..] == w1;
    } else {
      assert (w1 + w2[1..])[|w1 + w2[1..]| - 1] == w2[|w2| - 1];
    }
  }

  /** Rounds only ever replace an entry by the cost of a walk over `d0`:
      every entry after `k` rounds is what some walk from `i` to `j` costs. */
  lemma {:induction false} RelaxedIsWalkCost(d0: seq<seq<Dist>>, n: nat, k: nat, i: nat, j: nat)
    returns (w: seq<nat>)
    requires IsSquare(d0, n) && k <= n && i < n && j < n
    ensures IsWalk(w, n, i, j) && PathCost(d0, n, w) == RelaxUpTo(d0, n, k)[i][j]
    decreases k, 1
  {
    if k == 0 {
      w := EdgeWalk(d0, n, i, j);
    } else {
      var dk := RelaxUpTo(d0, n, k - 1);
      assert RelaxUpTo(d0, n, k)[i][j] == RoundDist(dk, n, k - 1, i, j);
      if Less(Via(dk, n, k - 1, i, j), dk[i][j]) {
        w := ViaWalk(d0, n, k - 1, i, j);
      } else {
        w := RelaxedIsWalkCost(d0, n, k - 1, i, j);
      }
    }
  }

  /** The detour through pivot `k` after `k` rounds is also the cost of a
      walk: the walk to `k` followed by the walk from `k`. */
  lemma {:induction false} ViaWalk(d0: seq<seq<Dist>>, n: nat, k: nat, i: nat, j: nat)
    returns (w: seq<nat>)
    requires IsSquare(d0, n) && k < n && i < n && j < n
    ensures IsWalk(w, n, i, j) && PathCost(d0, n, w) == Via(RelaxUpTo(d0, n, k), n, k, i, j)
    decreases k + 1, 0
  {
    var w1 := RelaxedIsWalkCost(d0, n, k, i, k);
    var w2 := RelaxedIsWalkCost(d0, n, k, k, j);
    WalkJoin(d0, n, w1, w2, i, k, j);
    w := w1 + w2[1..];
  }

  /** The one-step walk costs its matrix entry. */
  lemma EdgeWalk(m: seq<seq<Dist>>, n: nat, i: nat, j: nat) returns (w: seq<nat>)
    requires IsSquare(m, n) && i < n && j < n
    ensures w == [i, j]
    ensures IsWalk(w, n, i, j) && PathCost(m, n, w) == m[i][j]
  {
    w := [i, j];
    assert w[..1] == [i];
  }

  /** What the distance rounds keep, without the next-hops: a zero diagonal,
      entries never above the start, and the triangle inequality through
      every pivot relaxed so far. */
  lemma RelaxUpToShortens(d0: seq<seq<Dist>>, n: nat, k: nat)
    requires IsSquare(d0, n) && ZeroDiagonal(d0, n) && k <= n
    ensures ZeroDiagonal(RelaxUpTo(d0, n, k), n) && Below(RelaxUpTo(d0, n, k), d0, n)
    ensures TriangleThrough(RelaxUpTo(d0, n, k), n, k)
  {
    var d := d0;
    for m := 0 to k
      invariant d == RelaxUpTo(d0, n, m)
      invariant ZeroDiagonal(d, n) && Below(d, d0, n) && TriangleThrough(d, n, m)
    {
      RoundShortens(d, d0, n, m);
      d := RoundMatrix(d, n, m);
    }
  }

  /** One round on the matrix keeps what the rounds before it kept. */
  lemma RoundShortens(dk: seq<seq<Dist>>, d0: seq<seq<Dist>>, n: nat, k: nat)
    requires IsSquare(dk, n) && IsSquare(d0, n) && k < n
    requires ZeroDiagonal(dk, n) && Below(dk, d0, n) && TriangleThrough(dk, n, k)
    ensures ZeroDiagonal(RoundMatrix(dk, n, k), n) && Below(RoundMatrix(dk, n, k), d0, n)
    ensures TriangleThrough(RoundMatrix(dk, n, k), n, k + 1)
  {
    var d := RoundMatrix(dk, n, k);
    RoundTriangle(d, dk, n, k);
    RoundDiagonal(d, dk, n, k);
    RoundStaysBelow(dk, d0, n, k);
  }

  /** A round never raises an entry, so it stays below the start. */
  lemma RoundStaysBelow(dk: seq<seq<Dist>>, d0: seq<seq<Dist>>, n: nat, k: nat)
    requires IsSquare(dk, n) && IsSquare(d0, n) && k < n && Below(dk, d0, n)
    ensures Below(RoundMatrix(dk, n, k), d0, n)
  {
    var d := RoundMatrix(dk, n, k);
    forall i, j | 0 <= i < n && 0 <= j < n
      ensures Le(d[i][j], d0[i][j])
    {
      LessLeTrans(d[i][j], dk[i][j], d0[i][j]);
    }
  }

  /** Floyd-Warshall's theorem for this loop: after all `n` rounds, entry
      (i, j) is the least cost over `d0` of a walk from `i` to `j`. No walk
      costs less, and some walk costs exactly that. */
  lemma RelaxationIsShortestWalk(d0: seq<seq<Dist>>, n: nat, i: nat, j: nat, p: seq<nat>)
    returns (w: seq<nat>)
    requires IsSquare(d0, n) && ZeroDiagonal(d0, n) && i < n && j < n
    requires IsWalk(p, n, i, j)
    ensures Le(RelaxUpTo(d0, n, n)[i][j], PathCost(d0, n, p))
    ensures IsWalk(w, n, i, j) && PathCost(d0, n, w) == RelaxUpTo(d0, n, n)[i][j]
  {
    RelaxUpToShortens(d0, n, n);
    ShortestBelowWalk(RelaxUpTo(d0, n, n), d0, n, p);
    w := RelaxedIsWalkCost(d0, n, n, i, j);
  }

  /** `p` leads from `i` to `j` by following `next[.][j]` pointers. */
  predicate FollowsNext(nx: seq<seq<Option<nat>>>, n: nat, p: seq<nat>, i: nat, j: nat) {
    && IsSquare(nx, n) && j < n
    && |p| > 0 && p[0] == i && p[|p| - 1] == j && InRange(p, n)
    && forall t | 0 <= t < |p| - 1 :: p[t] < n && p[t] != j && nx[p[t]][j] == Some(p[t + 1])
  }

  /** The loop of `getPath` after its null check, with `fuel` bounding the
      number of hops: `None` means the pointers did not reach `j` in time. */
  function Follow(nx: seq<seq<Option<nat>>>, n: nat, i: nat, j: nat, fuel: nat): (r: Option<seq<nat>>)
    requires IsSquare(nx, n) && NextWellFormed(nx, n) && i < n && j < n
    ensures r.Some? ==> FollowsNext(nx, n, r.value, i, j)
    decreases fuel
  {
    if i == j then Some([i])
    else if fuel == 0 then None
    else
      match Follow(nx, n, nx[i][j].value, j, fuel - 1)
      case None => None
      case Some(p) => Some([i] + p)
  }

  /** `getPath(i, j)`: empty when `next[i][j]` is null, otherwise the nodes
      from `i` to `j` along next-hop pointers. */
  function GetPath(nx: seq<seq<Option<nat>>>, n: nat, i: nat, j: nat, fuel: nat): (r: Option<seq<nat>>)
    requires IsSquare(nx, n) && NextWellFormed(nx, n) && i < n && j < n
    ensures nx[i][j].None? ==> r == Some([])
    ensures nx[i][j].Some? && r.Some? ==> FollowsNext(nx, n, r.value, i, j)
  {
    if nx[i][j].None? then Some([]) else Follow(nx, n, i, j, fuel)
  }

  /** More fuel never changes a path once one is found: the fuel only decides
      whether the pointer walk ends, never where it goes. */
  lemma {:induction false} FollowFuelIrrelevant(nx: seq<seq<Option<nat>>>, n: nat, i: nat, j: nat, fuel: nat)
    requires IsSquare(nx, n) && NextWellFormed(nx, n) && i < n && j < n
    requires Follow(nx, n, i, j, fuel).Some?
    ensures Follow(nx, n, i, j, fuel + 1) == Follow(nx, n, i, j, fuel)
    decreases fuel
  {
    if i != j {
      FollowFuelIrrelevant(nx, n, nx[i][j].value, j, fuel - 1);
    }
  }

  /** The filled matrix as a value: `Direct` at every cell. */
  function DirectMatrix(pts: seq<LatLng>, road: Road): (m: seq<seq<Dist>>)
    ensures IsSquare(m, |pts|)
    ensures forall a, b | 0 <= a < |pts| && 0 <= b < |pts| :: m[a][b] == Direct(pts, road, a, b)
  {
    seq(|pts|, a requires 0 <= a < |pts| =>
      seq(|pts|, b requires 0 <= b < |pts| => Direct(pts, road, a, b)))
  }

  /** The fill's postcondition pins the whole matrix down. */
  lemma FillIsDirect(dist: seq<seq<Dist>>, pts: seq<LatLng>, road: Road)
    requires IsSquare(dist, |pts|) && ZeroDiagonal(dist, |pts|) && Symmetric(dist, |pts|)
    requires forall i, j | 0 <= i < j < |pts| :: dist[i][j] == road(pts[i], pts[j]).dist
    ensures dist == DirectMatrix(pts, road)
  {
    var m := DirectMatrix(pts, road);
    forall a | 0 <= a < |pts|
      ensures dist[a] == m[a]
    {
      forall b | 0 <= b < |pts|
        ensures dist[a][b] == m[a][b]
      {
        if b < a {
          assert dist[a][b] == dist[b][a];
        }
      }
    }
  }
}
