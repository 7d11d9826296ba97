/**
  The fill pass (fillGraph): each unordered pair of machines is visited once,
  row after row, and gets a drawn distance with the chance `p` percent; the
  repair pass follows.
 */
module Fill {
  import opened Random
  import opened Distances
  import opened Graphs
  import opened Repair

  /** The visit of cell (i, j). Only a cell above the diagonal holding less
      than MinDist meters is considered; for it one rand() % 100 is drawn, and
      when it is below `p` a distance is drawn and written to [i][j] and
      [j][i]. */
  function FillCell(s: State, stream: nat -> nat, p: int, i: nat, j: nat): (r: State)
    requires IsSquare(s.g) && i < |s.g| && j < |s.g|
    ensures IsSquare(r.g) && |r.g| == |s.g| && s.pos <= r.pos
    ensures r.g[i][j] == r.g[j][i] || r.g == s.g
    ensures forall x, y :: 0 <= x < |s.g| && 0 <= y < |s.g| && !(i < j && x == i && y == j) && !(i < j && x == j && y == i) ==>
              r.g[x][y] == s.g[x][y]
  {
    if s.g[i][j] < MinDist * Scale && i != j && i < j then
      if stream(s.pos) % 100 < p then
        State(Link(s.g, i, j, Distance(stream(s.pos + 1), stream(s.pos + 2))), s.pos + 3)
      else
        State(s.g, s.pos + 1)
    else
      s
  }

  /** The state once the cells before (i, j) in row-major order have been
      visited: rows 0 .. i-1 whole, then (i, 0) .. (i, j-1). */
  function FillTo(s: State, stream: nat -> nat, p: int, i: nat, j: nat): (r: State)
    requires IsSquare(s.g) && i <= |s.g| && j <= |s.g| && (i == |s.g| ==> j == 0)
    ensures IsSquare(r.g) && |r.g| == |s.g| && s.pos <= r.pos
    decreases i, j
  {
    if j > 0 then FillCell(FillTo(s, stream, p, i, j - 1), stream, p, i, j - 1)
    else if i > 0 then FillTo(s, stream, p, i - 1, |s.g|)
    else s
  }

  /** The whole fill pass. */
  function FillPass(s: State, stream: nat -> nat, p: int): (r: State)
    requires IsSquare(s.g)
    ensures IsSquare(r.g) && |r.g| == |s.g| && s.pos <= r.pos
  {
    FillTo(s, stream, p, |s.g|, 0)
  }

  /** fillGraph: the fill pass, then the repair pass. */
  ghost function Generate(s: State, stream: nat -> nat, p: int): (r: State)
    requires IsSquare(s.g) && Escapes(stream, |s.g|)
    ensures IsSquare(r.g) && |r.g| == |s.g| && s.pos <= r.pos
    ensures AllConnected(r.g)
  {
    RepairAll(FillPass(s, stream, p), stream)
  }

  /** The fill pass keeps the generator's shape: it writes only pairs i < j,
      mirrors every write, and writes only drawn distances. */
  lemma {:induction false} FillKeepsWellFormed(s: State, stream: nat -> nat, p: int, i: nat, j: nat)
    requires WellFormed(s.g) && i <= |s.g| && j <= |s.g| && (i == |s.g| ==> j == 0)
    ensures WellFormed(FillTo(s, stream, p, i, j).g)
    decreases i, j
  {
    if j > 0 {
      FillKeepsWellFormed(s, stream, p, i, j - 1);
      var before := FillTo(s, stream, p, i, j - 1);
      if before.g[i][j - 1] < MinDist * Scale && i != j - 1 && i < j - 1 && stream(before.pos) % 100 < p {
        LinkKeepsWellFormed(before.g, i, j - 1, Distance(stream(before.pos + 1), stream(before.pos + 2)));
      }
    } else if i > 0 {
      FillKeepsWellFormed(s, stream, p, i - 1, |s.g|);
    }
  }

  /** A pair above the diagonal that has not been visited yet still holds
      its initial value, in both directions. */
  lemma {:induction false} FillLeavesUnvisited(s: State, stream: nat -> nat, p: int, i: nat, j: nat, a: nat, b: nat)
    requires IsSquare(s.g) && i <= |s.g| && j <= |s.g| && (i == |s.g| ==> j == 0)
    requires a < b < |s.g| && (i < a || (i == a && j <= b))
    ensures FillTo(s, stream, p, i, j).g[a][b] == s.g[a][b]
    ensures FillTo(s, stream, p, i, j).g[b][a] == s.g[b][a]
    decreases i, j
  {
    if j > 0 {
      FillLeavesUnvisited(s, stream, p, i, j - 1, a, b);
    } else if i > 0 {
      FillLeavesUnvisited(s, stream, p, i - 1, |s.g|, a, b);
    }
  }

  /** A pair above the diagonal that has been visited keeps the value its
      visit left: later visits write other pairs only. */
  lemma {:induction false} FillKeepsVisited(s: State, stream: nat -> nat, p: int, i: nat, j: nat, a: nat, b: nat)
    requires IsSquare(s.g) && i <= |s.g| && j <= |s.g| && (i == |s.g| ==> j == 0)
    requires a < b < |s.g| && (a < i || (a == i && b < j))
    ensures FillTo(s, stream, p, i, j).g[a][b] == FillTo(s, stream, p, a, b + 1).g[a][b]
    decreases i, j
  {
    if j > 0 {
      if !(a == i && b == j - 1) {
        FillKeepsVisited(s, stream, p, i, j - 1, a, b);
      }
    } else if i > 0 {
      FillKeepsVisited(s, stream, p, i - 1, |s.g|, a, b);
    }
  }

  /** A pair without an edge is decided by its own draw: when its visit
      comes the entry is still 0, so the `< MIN_DIST` guard holds; the pair
      then gets the distance drawn next if and only if its draw of
      rand() % 100 is below `p`, and stays 0 otherwise. */
  lemma FillDecidesPair(s: State, stream: nat -> nat, p: int, a: nat, b: nat)
    requires IsSquare(s.g) && a < b < |s.g| && s.g[a][b] == 0
    ensures var v := FillTo(s, stream, p, a, b);
            && v.g[a][b] == 0
            && FillPass(s, stream, p).g[a][b] ==
               (if stream(v.pos) % 100 < p then Distance(stream(v.pos + 1), stream(v.pos + 2)) else 0)
    ensures FillPass(s, stream, p).g[a][b] > 0 <==> stream(FillTo(s, stream, p, a, b).pos) % 100 < p
  {
    FillLeavesUnvisited(s, stream, p, a, b, a, b);
    FillKeepsVisited(s, stream, p, |s.g|, 0, a, b);
  }

  /** With a chance of 0 percent or less the fill pass writes nothing. */
  lemma {:induction false} FillWithoutChance(s: State, stream: nat -> nat, p: int, i: nat, j: nat)
    requires IsSquare(s.g) && i <= |s.g| && j <= |s.g| && (i == |s.g| ==> j == 0)
    requires p <= 0
    ensures FillTo(s, stream, p, i, j).g == s.g
    decreases i, j
  {
    if j > 0 {
      FillWithoutChance(s, stream, p, i, j - 1);
    } else if i > 0 {
      FillWithoutChance(s, stream, p, i - 1, |s.g|);
    }
  }

  /** With a chance of 100 percent or more the fill pass connects every pair
      of distinct machines. */
  lemma FillCertainIsComplete(s: State, stream: nat -> nat, p: int)
    requires WellFormed(s.g) && p >= 100
    ensures forall a, b :: 0 <= a < |s.g| && 0 <= b < |s.g| && a != b ==> IsWeight(FillPass(s, stream, p).g[a][b])
  {
    var r := FillPass(s, stream, p);
    FillKeepsWellFormed(s, stream, p, |s.g|, 0);
    forall a, b | 0 <= a < b < |s.g|
      ensures IsWeight(r.g[a][b])
    {
      FillLeavesUnvisited(s, stream, p, a, b, a, b);
      FillKeepsVisited(s, stream, p, |s.g|, 0, a, b);
    }
    forall a, b | 0 <= a < |s.g| && 0 <= b < |s.g| && a != b
      ensures IsWeight(r.g[a][b])
    {
      if b < a {
        assert r.g[a][b] == r.g[b][a];
      }
    }
  }

  /** What fillGraph guarantees: from a well-formed matrix (the zero matrix
      of createGraph is one) it makes a well-formed matrix in which no
      machine is isolated. */
  lemma GenerateGuarantees(s: State, stream: nat -> nat, p: int)
    requires WellFormed(s.g) && Escapes(stream, |s.g|)
    ensures WellFormed(Generate(s, stream, p).g)
    ensures AllConnected(Generate(s, stream, p).g)
  {
    FillKeepsWellFormed(s, stream, p, |s.g|, 0);
    RepairAllConnects(FillPass(s, stream, p), stream);
  }

  /** With a chance of 0 percent or less every edge comes from the repair
      pass, run on the unchanged matrix. */
  lemma GenerateWithoutChance(s: State, stream: nat -> nat, p: int)
    requires IsSquare(s.g) && Escapes(stream, |s.g|) && p <= 0
    ensures Generate(s, stream, p) == RepairAll(State(s.g, FillPass(s, stream, p).pos), stream)
  {
    FillWithoutChance(s, stream, p, |s.g|, 0);
  }

  /** One turn of fillGraph's inner loop: cell (i, j) is visited in place. */
  method VisitCell(m: array2<int>, p: int, rng: Rand, i: nat, j: nat)
    requires m.Length0 == m.Length1 && i < m.Length0 && j < m.Length0
    modifies m, rng
    ensures State(Cells(m), rng.pos) == FillCell(State(old(Cells(m)), old(rng.pos)), rng.stream, p, i, j)
  {
    if m[i, j] < MinDist * Scale && i != j && i < j {
      var coin := rng.Next();
      if coin % 100 < p {
        var w := RandomFloat(rng);
        SetEdge(m, i, j, w);
      }
    }
  }

  /** The nested loops of fillGraph: every cell is visited in row-major
      order. */
  method FillPairs(m: array2<int>, p: int, rng: Rand)
    requires m.Length0 == m.Length1
    modifies m, rng
    ensures State(Cells(m), rng.pos) == FillPass(State(old(Cells(m)), old(rng.pos)), rng.stream, p)
  {
    var n := m.Length0;
    ghost var start := State(Cells(m), rng.pos);
    for i := 0 to n
      invariant State(Cells(m), rng.pos) == FillTo(start, rng.stream, p, i, 0)
    {
      for j := 0 to n
        invariant State(Cells(m), rng.pos) == FillTo(start, rng.stream, p, i, j)
      {
        VisitCell(m, p, rng, i, j);
      }
    }
  }

  /** fillGraph: the matrix and the stream position afterwards are those of
      the fill pass followed by the repair pass. */
  method FillGraph(m: array2<int>, p: int, rng: Rand)
    requires m.Length0 == m.Length1
    requires Escapes(rng.stream, m.Length0)
    modifies m, rng
    ensures State(Cells(m), rng.pos) == Generate(State(old(Cells(m)), old(rng.pos)), rng.stream, p)
    ensures AllConnected(Cells(m))
    ensures WellFormed(old(Cells(m))) ==> WellFormed(Cells(m))
  {
    ghost var start := State(Cells(m), rng.pos);
    FillPairs(m, p, rng);
    ValidateGraph(m, rng);
    if WellFormed(start.g) {
      GenerateGuarantees(start, rng.stream, p);
    }
  }
}
