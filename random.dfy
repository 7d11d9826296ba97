/**
  The C library's rand(), as the generator uses it: a process-wide source whose
  successive calls return successive values of a fixed stream. The stream is
  injected, so every run of the generator is determined by it.
 */
module Random {

  class Rand {
    /** The values that the first, second, ... call of rand() return. */
    const stream: nat -> nat
    /** How many values have been drawn so far. */
    var pos: nat

    constructor (stream: nat -> nat)
      ensures this.stream == stream && pos == 0
    {
      this.stream := stream;
      pos := 0;
    }

    /** One call of rand(). */
    method Next() returns (r: nat)
      modifies this
      ensures r == stream(old(pos))
      ensures pos == old(pos) + 1
    {
      r := stream(pos);
      pos := pos + 1;
    }
  }

  /** From position `k` on, the stream still holds a draw that, taken modulo
      `n`, is not node `i`: a loop that redraws `rand() % n` while it equals
      `i` stops. */
  ghost predicate EscapesAt(stream: nat -> nat, n: nat, k: nat, i: nat)
  {
    n > 0 && exists t: nat :: k <= t && stream(t) % n != i
  }

  /** Every redraw loop over `n` nodes stops, whenever it starts and whichever
      node it avoids. */
  ghost predicate Escapes(stream: nat -> nat, n: nat)
  {
    forall k: nat, i: nat :: i < n ==> EscapesAt(stream, n, k, i)
  }

  /** `k` is the first position at or after `from` whose draw, modulo `n`,
      is not `i`. */
  ghost predicate FirstEscape(stream: nat -> nat, n: nat, i: nat, from: nat, k: nat)
    requires n > 0
  {
    from <= k && stream(k) % n != i &&
    forall q :: from <= q < k ==> stream(q) % n == i
  }

  /** The position of the draw that ends the redraw loop (which draws again
      while the draw modulo `n` is `i`) begun at position `k`; `t` is any
      position known to end it. */
  function Retry(stream: nat -> nat, n: nat, i: nat, k: nat, t: nat): (r: nat)
    requires n > 0 && k <= t && stream(t) % n != i
    ensures r <= t
    ensures FirstEscape(stream, n, i, k, r)
    decreases t - k
  {
    if stream(k) % n != i then k else Retry(stream, n, i, k + 1, t)
  }

  /** The first escape is unique, whatever witness `t` bounded the search. */
  lemma FirstEscapeUnique(stream: nat -> nat, n: nat, i: nat, from: nat, k1: nat, k2: nat)
    requires n > 0
    requires FirstEscape(stream, n, i, from, k1) && FirstEscape(stream, n, i, from, k2)
    ensures k1 == k2
  {
  }

  /** With a single node every draw modulo 1 is node 0, so the redraw loop
      for node 0 never stops: no stream escapes for one node. */
  lemma SingleNodeNeverEscapes(stream: nat -> nat)
    ensures !Escapes(stream, 1)
  {
    assert forall t: nat :: stream(t) % 1 == 0;
    assert !EscapesAt(stream, 1, 0, 0);
  }

  /** For two or more nodes the requirement can be met: a stream alternating
      0, 1, 0, 1, ... escapes for every node. */
  lemma AlternatingEscapes(n: nat)
    requires n >= 2
    ensures Escapes((k: nat) => k % 2, n)
  {
    var stream: nat -> nat := (k: nat) => k % 2;
    forall k: nat, i: nat | i < n
      ensures EscapesAt(stream, n, k, i)
    {
      var t: nat := if i == k % 2 then k + 1 else k;
      assert stream(t) == t % 2 && t % 2 != i;
      assert 0 % n == 0 && 1 % n == 1;
      assert k <= t && stream(t) % n != i;
      assert EscapesAt(stream, n, k, i);
    }
  }
}
