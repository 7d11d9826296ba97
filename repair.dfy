/**
  The repair pass (validateGraph): every machine with no connection gets an
  edge of a drawn distance to a randomly drawn other machine.
 */
module Repair {
  import opened Random
  import opened Distances
  import opened Graphs

  /** The repair of row `i`. A row holding a positive entry is left as it is.
      Otherwise rand() % n is drawn until it is not `i`, then a distance is
      drawn and written in both directions. */
  ghost function RepairRow(s: State, stream: nat -> nat, i: nat): (r: State)
    requires IsSquare(s.g) && i < |s.g| && Escapes(stream, |s.g|)
    ensures IsSquare(r.g) && |r.g| == |s.g| && s.pos <= r.pos
    ensures HasEdge(r.g[i])
  {
    if HasEdge(s.g[i]) then s
    else
      var n := |s.g|;
      assert EscapesAt(stream, n, s.pos, i);
      var t: nat :| s.pos <= t && stream(t) % n != i;
      var k := Retry(stream, n, i, s.pos, t);
      var j := stream(k) % n;
      var r := State(Link(s.g, i, j, Distance(stream(k + 1), stream(k + 2))), k + 3);
      assert r.g[i][j] > 0;
      r
  }

  /** The matrix after rows 0 .. i-1 have been repaired, one after another. */
  ghost function RepairTo(s: State, stream: nat -> nat, i: nat): (r: State)
    requires IsSquare(s.g) && i <= |s.g| && Escapes(stream, |s.g|)
    ensures IsSquare(r.g) && |r.g| == |s.g| && s.pos <= r.pos
  {
    if i == 0 then s else RepairRow(RepairTo(s, stream, i - 1), stream, i - 1)
  }

  /** The whole repair pass. */
  ghost function RepairAll(s: State, stream: nat -> nat): (r: State)
    requires IsSquare(s.g) && Escapes(stream, |s.g|)
    ensures IsSquare(r.g) && |r.g| == |s.g| && s.pos <= r.pos
    ensures AllConnected(r.g)
  {
    RepairToConnects(s, stream, |s.g|);
    RepairTo(s, stream, |s.g|)
  }

  /** A row that already has a positive entry is not written. */
  lemma RepairRowSkipsConnected(s: State, stream: nat -> nat, i: nat)
    requires IsSquare(s.g) && i < |s.g| && Escapes(stream, |s.g|)
    requires HasEdge(s.g[i])
    ensures RepairRow(s, stream, i) == s
  {
  }

  /** An isolated row gets exactly one edge, to a machine other than itself,
      of a drawn distance, written in both directions; the partner is the
      first draw after the repair began that is not the row itself. */
  lemma RepairRowLinksIsolated(s: State, stream: nat -> nat, i: nat)
    requires IsSquare(s.g) && i < |s.g| && Escapes(stream, |s.g|)
    requires !HasEdge(s.g[i])
    ensures var r := RepairRow(s, stream, i);
            var k := r.pos - 3;
            var j := stream(k) % |s.g|;
            && FirstEscape(stream, |s.g|, i, s.pos, k)
            && j != i
            && r.g == Link(s.g, i, j, Distance(stream(k + 1), stream(k + 2)))
  {
  }

  /** The repair of an isolated row, given the position of the draw that ends
      its redraw loop. */
  lemma RepairRowAt(s: State, stream: nat -> nat, i: nat, k: nat)
    requires IsSquare(s.g) && i < |s.g| && Escapes(stream, |s.g|)
    requires !HasEdge(s.g[i]) && FirstEscape(stream, |s.g|, i, s.pos, k)
    ensures RepairRow(s, stream, i) ==
            State(Link(s.g, i, stream(k) % |s.g|, Distance(stream(k + 1), stream(k + 2))), k + 3)
  {
    RepairRowLinksIsolated(s, stream, i);
    FirstEscapeUnique(stream, |s.g|, i, s.pos, k, RepairRow(s, stream, i).pos - 3);
  }

  /** A repair only adds edges: every entry that was positive stays
      positive. */
  lemma RepairRowKeepsEdges(s: State, stream: nat -> nat, i: nat, a: nat, b: nat)
    requires IsSquare(s.g) && i < |s.g| && Escapes(stream, |s.g|)
    requires a < |s.g| && b < |s.g| && s.g[a][b] > 0
    ensures RepairRow(s, stream, i).g[a][b] > 0
  {
    if !HasEdge(s.g[i]) {
      RepairRowLinksIsolated(s, stream, i);
    }
  }

  /** The repair of a row keeps the generator's shape. */
  lemma RepairRowKeepsWellFormed(s: State, stream: nat -> nat, i: nat)
    requires WellFormed(s.g) && i < |s.g| && Escapes(stream, |s.g|)
    ensures WellFormed(RepairRow(s, stream, i).g)
  {
    if !HasEdge(s.g[i]) {
      RepairRowLinksIsolated(s, stream, i);
      var r := RepairRow(s, stream, i);
      var k := r.pos - 3;
      LinkKeepsWellFormed(s.g, i, stream(k) % |s.g|, Distance(stream(k + 1), stream(k + 2)));
    }
  }

  lemma {:induction false} RepairToKeepsWellFormed(s: State, stream: nat -> nat, i: nat)
    requires WellFormed(s.g) && i <= |s.g| && Escapes(stream, |s.g|)
    ensures WellFormed(RepairTo(s, stream, i).g)
  {
    if i > 0 {
      var before := RepairTo(s, stream, i - 1);
      RepairToKeepsWellFormed(s, stream, i - 1);
      RepairRowKeepsWellFormed(before, stream, i - 1);
      assert RepairTo(s, stream, i) == RepairRow(before, stream, i - 1);
    }
  }

  /** Repairs only add edges: once rows 0 .. i-1 are repaired, each of them
      has a connection, whatever later repairs write. */
  lemma {:induction false} RepairToConnects(s: State, stream: nat -> nat, i: nat)
    requires IsSquare(s.g) && i <= |s.g| && Escapes(stream, |s.g|)
    ensures forall a :: 0 <= a < i ==> HasEdge(RepairTo(s, stream, i).g[a])
  {
    if i > 0 {
      RepairToConnects(s, stream, i - 1);
      var before := RepairTo(s, stream, i - 1);
      var after := RepairTo(s, stream, i);
      forall a | 0 <= a < i
        ensures HasEdge(after.g[a])
      {
        if a < i - 1 {
          var b :| 0 <= b < |before.g[a]| && before.g[a][b] > 0;
          RepairRowKeepsEdges(before, stream, i - 1, a, b);
        }
      }
    }
  }

  /** After the repair pass no machine is isolated, and a well-formed matrix
      stays well-formed. */
  lemma RepairAllConnects(s: State, stream: nat -> nat)
    requires IsSquare(s.g) && Escapes(stream, |s.g|)
    ensures AllConnected(RepairAll(s, stream).g)
    ensures WellFormed(s.g) ==> WellFormed(RepairAll(s, stream).g)
  {
    RepairToConnects(s, stream, |s.g|);
    if WellFormed(s.g) {
      RepairToKeepsWellFormed(s, stream, |s.g|);
    }
  }

  /** The scan of row `i` for a positive entry. */
  method ScanRow(m: array2<int>, i: nat) returns (hasConnection: bool)
    requires i < m.Length0
    ensures hasConnection <==> HasEdge(Cells(m)[i])
  {
    hasConnection := false;
    for j := 0 to m.Length1
      invariant hasConnection <==> exists b :: 0 <= b < j && m[i, b] > 0
    {
      if m[i, j] > 0 {
        hasConnection := true;
      }
    }
  }

  /** The partner draw: rand() % n is drawn, and drawn again for as long as
      it is `i`; the partner is the first draw from here on that is not `i`. */
  method DrawPartner(rng: Rand, n: nat, i: nat) returns (randJ: nat)
    requires i < n && Escapes(rng.stream, n)
    modifies rng
    ensures old(rng.pos) < rng.pos
    ensures FirstEscape(rng.stream, n, i, old(rng.pos), rng.pos - 1)
    ensures randJ == rng.stream(rng.pos - 1) % n && randJ != i && randJ < n
  {
    ghost var k0 := rng.pos;
    assert EscapesAt(rng.stream, n, k0, i);
    ghost var t: nat :| k0 <= t && rng.stream(t) % n != i;
    var r := rng.Next();
    randJ := r % n;
    while randJ == i
      invariant k0 < rng.pos <= t + 1
      invariant randJ == rng.stream(rng.pos - 1) % n
      invariant forall q :: k0 <= q < rng.pos - 1 ==> rng.stream(q) % n == i
      decreases t + 1 - rng.pos
    {
      r := rng.Next();
      randJ := r % n;
    }
  }

  /** The branch of validateGraph for an isolated machine `i`: a partner
      other than `i` is drawn, then a distance, written in both directions. */
  method LinkIsolated(m: array2<int>, rng: Rand, i: nat)
    requires m.Length0 == m.Length1 && i < m.Length0
    requires Escapes(rng.stream, m.Length0)
    modifies m, rng
    ensures rng.pos >= old(rng.pos) + 3
    ensures FirstEscape(rng.stream, m.Length0, i, old(rng.pos), rng.pos - 3)
    ensures Cells(m) == Link(old(Cells(m)), i, rng.stream(rng.pos - 3) % m.Length0, Distance(rng.stream(rng.pos - 2), rng.stream(rng.pos - 1)))
  {
    var randJ := DrawPartner(rng, m.Length0, i);
    var w := RandomFloat(rng);
    SetEdge(m, i, randJ, w);
  }

  /** One turn of validateGraph's loop: row `i` is repaired in place. */
  method RepairRowInPlace(m: array2<int>, rng: Rand, i: nat)
    requires m.Length0 == m.Length1 && i < m.Length0
    requires Escapes(rng.stream, m.Length0)
    modifies m, rng
    ensures State(Cells(m), rng.pos) == RepairRow(State(old(Cells(m)), old(rng.pos)), rng.stream, i)
  {
    ghost var s := State(Cells(m), rng.pos);
    var hasConnection := ScanRow(m, i);
    if !hasConnection {
      LinkIsolated(m, rng, i);
      ghost var k := rng.pos - 3;
      ghost var after := State(Cells(m), rng.pos);
      assert after == State(Link(s.g, i, rng.stream(k) % m.Length0, Distance(rng.stream(k + 1), rng.stream(k + 2))), k + 3);
      RepairRowAt(s, rng.stream, i, k);
    } else {
      RepairRowSkipsConnected(s, rng.stream, i);
    }
  }

  /** validateGraph: the matrix and the stream position afterwards are those
      of the repair pass. */
  method ValidateGraph(m: array2<int>, rng: Rand)
    requires m.Length0 == m.Length1
    requires Escapes(rng.stream, m.Length0)
    modifies m, rng
    ensures State(Cells(m), rng.pos) == RepairAll(State(old(Cells(m)), old(rng.pos)), rng.stream)
    ensures AllConnected(Cells(m))
    ensures WellFormed(old(Cells(m))) ==> WellFormed(Cells(m))
  {
    ghost var start := State(Cells(m), rng.pos);
    for i := 0 to m.Length0
      invariant State(Cells(m), rng.pos) == RepairTo(start, rng.stream, i)
    {
      RepairRowInPlace(m, rng, i);
    }
    RepairAllConnects(start, rng.stream);
  }
}
