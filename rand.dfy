/**
 * The random source a roll draws from: anything that answers `Intn(n)` with a
 * value in [0, n). A source may keep state between draws, as the sequential
 * test source does, so it is a class whose `state` each draw replaces.
 * Which value a draw gives, and which state follows, is fixed by the source's
 * `step` function of the current state and the bound; any deterministic
 * source, and any sequence of outcomes of a real generator, has this shape.
 */
module RandSource {

  /** One draw: from a state and a bound, the value drawn and the next state. */
  type Step = (nat, int) -> (int, nat)

  /** The contract every source must keep: a draw with bound n > 0 lies in [0, n). */
  ghost predicate Honest(step: Step)
  {
    forall s: nat, n: int :: n > 0 ==> 0 <= step(s, n).0 < n
  }

  /** The state after k draws with bound n, starting from state s. */
  function After(step: Step, s: nat, n: int, k: nat): nat
  {
    if k == 0 then s else step(After(step, s, n, k - 1), n).1
  }

  /** The values of k successive draws with bound n from state s, in draw order. */
  function Draws(step: Step, s: nat, n: int, k: nat): (r: seq<int>)
    ensures |r| == k
  {
    if k == 0 then [] else Draws(step, s, n, k - 1) + [step(After(step, s, n, k - 1), n).0]
  }

  /** Every draw of an honest source lies in [0, n). */
  lemma {:induction false} DrawsInRange(step: Step, s: nat, n: int, k: nat)
    requires Honest(step) && n > 0
    ensures forall i :: 0 <= i < k ==> 0 <= Draws(step, s, n, k)[i] < n
  {
    if k > 0 {
      DrawsInRange(step, s, n, k - 1);
      var t := After(step, s, n, k - 1);
      assert 0 <= step(t, n).0 < n;
    }
  }

  class Rand {
    const step: Step
    var state: nat

    ghost predicate Valid()
    {
      Honest(step)
    }

    constructor (step: Step, seed: nat)
      requires Honest(step)
      ensures Valid() && this.step == step && state == seed
    {
      this.step := step;
      state := seed;
    }

    /** Draws a value, in [0, n) for an honest source, and moves to the next state. */
    method Intn(n: int) returns (v: int)
      requires n > 0
      modifies this
      ensures Valid() ==> 0 <= v < n
      ensures (v, state) == step(old(state), n)
    {
      v, state := step(state, n).0, step(state, n).1;
    }
  }

  /** The constant test source: every draw is the largest allowed value, n - 1. */
  function MaxStep(s: nat, n: int): (r: (int, nat))
    ensures n > 0 ==> 0 <= r.0 < n
    ensures r.0 == n - 1 && r.1 == s
  {
    (n - 1, s)
  }

  /**
   * The sequential test source: its state is a counter; a draw gives the
   * counter modulo n and increments it. The counter starts at zero and only
   * grows, so Go's truncating `%` and Dafny's `%` agree on it.
   */
  function IterStep(s: nat, n: int): (r: (int, nat))
    ensures n > 0 ==> 0 <= r.0 < n
    ensures s < n ==> r.0 == s
    ensures r.1 == s + 1
  {
    (if n > 0 then s % n else 0, s + 1)
  }

  lemma TestSourcesHonest()
    ensures Honest(MaxStep) && Honest(IterStep)
  {
  }
}
