/**
 * The schedule both public-code loops follow (routes/tournament.py and
 * routes/match.py): the code length starts at 6, and after every 10
 * consecutive colliding candidates it grows by one and the try counter
 * restarts. Attempts are numbered from 1.
 */
module CodeLoop {

  const InitialLength: int := 6
  const MaxTries: int := 10

  /** The characters `random.choices` picks in one call: `draw(i)` indexes the alphabet for position i. */
  type Draws = nat -> nat

  /** The random source: `rand(k)` is what the k-th attempt draws. */
  type Oracle = nat -> Draws

  /** The length passed to `generate_uuid` on attempt k. */
  function LengthAt(k: nat): int
    requires k >= 1
  {
    InitialLength + (k - 1) / MaxTries
  }

  /** The value of `tries` right after attempt k has incremented it. */
  function TriesAt(k: nat): int
    requires k >= 1
  {
    (k - 1) % MaxTries + 1
  }

  /**
   * One step of the loop: the length stays and `tries` grows by one while
   * fewer than 10 tries were made at that length; otherwise the length grows
   * by one and `tries` restarts at 1. `tries` stays within 1..10 and the
   * length never decreases.
   */
  lemma Step(k: nat)
    requires k >= 1
    ensures 1 <= TriesAt(k) <= MaxTries
    ensures TriesAt(k) < MaxTries ==> LengthAt(k + 1) == LengthAt(k) && TriesAt(k + 1) == TriesAt(k) + 1
    ensures TriesAt(k) >= MaxTries ==> LengthAt(k + 1) == LengthAt(k) + 1 && TriesAt(k + 1) == 1
  {
  }

  /** The first ten attempts use length 6, and attempt k never uses a shorter length than attempt j < k. */
  lemma Schedule(j: nat, k: nat)
    requires 1 <= j <= k
    ensures k <= MaxTries ==> LengthAt(k) == InitialLength
    ensures LengthAt(j) <= LengthAt(k)
  {
  }

  /** An attempt whose length is at most `bound` has number at most 10 * (bound - 5). */
  lemma AttemptsForLength(k: nat, bound: int)
    requires k >= 1 && LengthAt(k) <= bound
    ensures k <= MaxTries * (bound - InitialLength + 1)
  {
  }
}
