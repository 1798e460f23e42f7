/** The score-driven difficulty progression of `updateScore`. */
module Difficulty {

  // Numeric literals rather than named constants appear in products below, so that
  // the arithmetic stays linear for the verifier.
  const SpeedCap: int := 540
  const IntervalFloor: int := 360

  /** Fall speed (pixels per second) for a score: grows by 8 per point until it is capped
      at 540, which happens from score 50 on. */
  function SpeedFor(score: int): (v: int)
    ensures v <= SpeedCap
    ensures score <= 50 ==> v == 140 + 8 * score
    ensures score >= 50 ==> v == SpeedCap
  {
    if SpeedCap <= 140 + score * 8 then SpeedCap else 140 + score * 8
  }

  /** Spawn interval (milliseconds) for a score: shrinks by 12 per point until it reaches
      the floor of 360, which happens from score 50 on. */
  function IntervalFor(score: int): (v: int)
    ensures v >= IntervalFloor
    ensures score <= 49 ==> v == 950 - 12 * score
    ensures score >= 50 ==> v == IntervalFloor
  {
    if IntervalFloor >= 950 - score * 12 then IntervalFloor else 950 - score * 12
  }

  /** A higher score never slows the fall nor lengthens the spawn interval. */
  lemma ProgressionMonotone(a: int, b: int)
    requires a <= b
    ensures SpeedFor(a) <= SpeedFor(b)
    ensures IntervalFor(a) >= IntervalFor(b)
  {
  }
}
