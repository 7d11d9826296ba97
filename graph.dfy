/**
  The distance matrix between vending machines (createGraph) and the facts the
  generator keeps about it. Entry [i][j] is the distance from machine i to
  machine j in hundredths of a meter; 0 means the two are not connected.
 */
module Graphs {
  import opened Distances

  type Matrix = seq<seq<int>>

  /** The matrix value together with how many rand() values the generator has
      drawn when it holds. */
  datatype State = State(g: Matrix, pos: nat)

  predicate IsSquare(g: Matrix)
  {
    forall a :: 0 <= a < |g| ==> |g[a]| == |g|
  }

  predicate Symmetric(g: Matrix)
    requires IsSquare(g)
  {
    forall a, b :: 0 <= a < |g| && 0 <= b < |g| ==> g[a][b] == g[b][a]
  }

  predicate ZeroDiagonal(g: Matrix)
    requires IsSquare(g)
  {
    forall a :: 0 <= a < |g| ==> g[a][a] == 0
  }

  /** Every entry is "no edge" or a distance the generator can draw. */
  predicate WeightsValid(g: Matrix)
    requires IsSquare(g)
  {
    forall a, b :: 0 <= a < |g| && 0 <= b < |g| ==> g[a][b] == 0 || IsWeight(g[a][b])
  }

  /** The shape of every matrix the generator produces: square, symmetric,
      without self-loops, every edge weight in range. */
  predicate WellFormed(g: Matrix)
  {
    IsSquare(g) && Symmetric(g) && ZeroDiagonal(g) && WeightsValid(g)
  }

  /** The machine whose row this is has a connection. */
  predicate HasEdge(row: seq<int>)
  {
    exists b :: 0 <= b < |row| && row[b] > 0
  }

  /** No machine is isolated. */
  predicate AllConnected(g: Matrix)
  {
    forall a :: 0 <= a < |g| ==> HasEdge(g[a])
  }

  predicate IsZero(g: Matrix)
  {
    forall a, b :: 0 <= a < |g| && 0 <= b < |g[a]| ==> g[a][b] == 0
  }

  /** The zero matrix, as createGraph leaves it, has the generator's shape. */
  lemma ZeroIsWellFormed(g: Matrix)
    requires IsSquare(g) && IsZero(g)
    ensures WellFormed(g)
  {
  }

  /** The edge between `a` and `b` set to `w` in both directions. */
  function Link(g: Matrix, a: nat, b: nat, w: int): (r: Matrix)
    requires IsSquare(g) && a < |g| && b < |g|
    ensures IsSquare(r) && |r| == |g|
    ensures r[a][b] == w && r[b][a] == w
    ensures forall x, y :: 0 <= x < |g| && 0 <= y < |g| && !(x == a && y == b) && !(x == b && y == a) ==>
              r[x][y] == g[x][y]
  {
    var h := g[a := g[a][b := w]];
    h[b := h[b][a := w]]
  }

  /** Linking two distinct machines with a drawn distance keeps the
      generator's shape. */
  lemma LinkKeepsWellFormed(g: Matrix, a: nat, b: nat, w: int)
    requires WellFormed(g) && a < |g| && b < |g| && a != b && IsWeight(w)
    ensures WellFormed(Link(g, a, b, w))
  {
    var r := Link(g, a, b, w);
    forall x, y | 0 <= x < |g| && 0 <= y < |g|
      ensures r[x][y] == r[y][x]
    {
      if !(x == a && y == b) && !(x == b && y == a) {
        assert r[x][y] == g[x][y] && r[y][x] == g[y][x];
      }
    }
    forall x | 0 <= x < |g|
      ensures r[x][x] == 0
    {
      assert r[x][x] == g[x][x];
    }
  }

  /** The matrix held by the array `m`. */
  ghost function Cells(m: array2<int>): (g: Matrix)
    reads m
    ensures |g| == m.Length0
    ensures forall a :: 0 <= a < m.Length0 ==> |g[a]| == m.Length1
    ensures forall a, b :: 0 <= a < m.Length0 && 0 <= b < m.Length1 ==> g[a][b] == m[a, b]
  {
    seq(m.Length0, a requires 0 <= a < m.Length0 reads m =>
      seq(m.Length1, b requires 0 <= b < m.Length1 reads m => m[a, b]))
  }

  /** createGraph: a fresh n-by-n matrix, every entry 0. */
  method CreateGraph(n: nat) returns (m: array2<int>)
    ensures fresh(m)
    ensures m.Length0 == n && m.Length1 == n
    ensures IsZero(Cells(m)) && WellFormed(Cells(m))
  {
    m := new int[n, n];
    for i := 0 to n
      invariant forall a, b :: 0 <= a < i && 0 <= b < n ==> m[a, b] == 0
    {
      for j := 0 to n
        invariant forall a, b :: 0 <= a < i && 0 <= b < n ==> m[a, b] == 0
        invariant forall b :: 0 <= b < j ==> m[i, b] == 0
      {
        m[i, j] := 0;
      }
    }
    ZeroIsWellFormed(Cells(m));
  }

  /** The edge write: `w` goes to [i][j] and is mirrored into [j][i]. */
  method SetEdge(m: array2<int>, i: nat, j: nat, w: int)
    requires m.Length0 == m.Length1 && i < m.Length0 && j < m.Length0
    modifies m
    ensures Cells(m) == Link(old(Cells(m)), i, j, w)
  {
    ghost var before := Cells(m);
    m[i, j] := w;
    m[j, i] := m[i, j];
    ghost var expected := Link(before, i, j, w);
    forall a | 0 <= a < m.Length0
      ensures Cells(m)[a] == expected[a]
    {
      assert forall b :: 0 <= b < m.Length0 ==> Cells(m)[a][b] == expected[a][b];
    }
  }
}
