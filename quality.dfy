/**
 * The adaptive JPEG quality controller of the capture loop: after every
 * encode the quality for the next frame moves by 5, clamped to [1, 100],
 * with a 10 KiB dead band under the size budget.
 *
 * The comparisons are those of the C++ source, where the encoded size is a
 * `size_t` and the budget an `int`: the budget (and the budget minus the
 * slack) is converted to `size_t` before comparing, so a small or negative
 * budget turns into a huge unsigned bound.
 */
module Quality {
  import opened Common

  const InitialQuality: int := 100
  const MinQuality: int := 1
  const MaxQuality: int := 100
  const QualityStep: int := 5
  /** The dead band: the size must be this far under the budget before quality rises. */
  const Slack: int := 10 * 1024

  predicate InRange(q: int) {
    MinQuality <= q <= MaxQuality
  }

  /** The budget minus the slack is still an `int` (otherwise the subtraction overflows). */
  predicate BudgetComputable(maxSize: int) {
    InInt32(maxSize) && InInt32(maxSize - Slack)
  }

  function Max(a: int, b: int): int { if a < b then b else a }
  function Min(a: int, b: int): int { if a < b then a else b }

  /** The quality used for the next frame, given the size of the frame just encoded. */
  function NextQuality(q: int, size: nat, maxSize: int): int
    requires BudgetComputable(maxSize)
  {
    if size > ToSizeT(maxSize) then Max(MinQuality, q - QualityStep)
    else if size < ToSizeT(maxSize - Slack) then Min(MaxQuality, q + QualityStep)
    else q
  }

  /** The quality after the controller has seen each of `sizes` in turn, starting from `q`. */
  function QualityAfter(q: int, sizes: seq<nat>, maxSize: int): int
    requires BudgetComputable(maxSize)
    decreases |sizes|
  {
    if sizes == [] then q
    else QualityAfter(NextQuality(q, sizes[0], maxSize), sizes[1..], maxSize)
  }

  /** One step keeps the quality in [1, 100]. */
  lemma NextQualityInRange(q: int, size: nat, maxSize: int)
    requires BudgetComputable(maxSize) && InRange(q)
    ensures InRange(NextQuality(q, size, maxSize))
  {
  }

  /** Starting anywhere in [1, 100], every sequence of encoded sizes keeps the quality in [1, 100]. */
  lemma {:induction false} QualityAfterInRange(q: int, sizes: seq<nat>, maxSize: int)
    requires BudgetComputable(maxSize) && InRange(q)
    ensures InRange(QualityAfter(q, sizes, maxSize))
    decreases |sizes|
  {
    if sizes != [] {
      NextQualityInRange(q, sizes[0], maxSize);
      QualityAfterInRange(NextQuality(q, sizes[0], maxSize), sizes[1..], maxSize);
    }
  }

  /**
   * For a budget of at least 10 KiB exactly one of three outcomes holds:
   * over budget lowers by 5 (floor 1), more than 10 KiB under raises by 5
   * (ceiling 100), anything in between leaves the quality alone.
   */
  lemma BudgetRule(q: int, size: nat, maxSize: int)
    requires BudgetComputable(maxSize) && Slack <= maxSize && size < SizeTModulus
    ensures size > maxSize ==> NextQuality(q, size, maxSize) == Max(MinQuality, q - QualityStep)
    ensures size < maxSize - Slack ==> NextQuality(q, size, maxSize) == Min(MaxQuality, q + QualityStep)
    ensures maxSize - Slack <= size <= maxSize ==> NextQuality(q, size, maxSize) == q
  {
  }

  /**
   * A budget under 10 KiB has no dead band: `maxSize - Slack` is negative and
   * converts to a huge `size_t`, so every size not over the budget raises the quality.
   */
  lemma SmallBudgetHasNoDeadBand(q: int, size: nat, maxSize: int)
    requires 0 <= maxSize < Slack && size <= maxSize
    ensures BudgetComputable(maxSize)
    ensures NextQuality(q, size, maxSize) == Min(MaxQuality, q + QualityStep)
  {
  }

  /**
   * A negative budget converts to a `size_t` near 2^64, so no realistic
   * frame is ever over it: the quality never goes down.
   */
  lemma NegativeBudgetNeverLowers(q: int, size: nat, maxSize: int)
    requires BudgetComputable(maxSize) && maxSize < 0 && size < SizeTModulus / 2
    ensures NextQuality(q, size, maxSize) == Min(MaxQuality, q + QualityStep)
  {
  }

  /** While every frame is over a non-negative budget, the quality falls by 5 per frame down to 1. */
  lemma {:induction false} SustainedOverBudget(q: int, sizes: seq<nat>, maxSize: int)
    requires BudgetComputable(maxSize) && 0 <= maxSize && MinQuality <= q
    requires forall i :: 0 <= i < |sizes| ==> sizes[i] > maxSize
    ensures QualityAfter(q, sizes, maxSize) == Max(MinQuality, q - QualityStep * |sizes|)
    decreases |sizes|
  {
    if sizes != [] {
      var q' := NextQuality(q, sizes[0], maxSize);
      assert q' == Max(MinQuality, q - QualityStep);
      SustainedOverBudget(q', sizes[1..], maxSize);
    }
  }

  /** While every frame is more than 10 KiB under the budget, the quality rises by 5 per frame up to 100. */
  lemma {:induction false} SustainedUnderBudget(q: int, sizes: seq<nat>, maxSize: int)
    requires BudgetComputable(maxSize) && Slack <= maxSize && q <= MaxQuality
    requires forall i :: 0 <= i < |sizes| ==> sizes[i] < maxSize - Slack
    ensures QualityAfter(q, sizes, maxSize) == Min(MaxQuality, q + QualityStep * |sizes|)
    decreases |sizes|
  {
    if sizes != [] {
      var q' := NextQuality(q, sizes[0], maxSize);
      assert q' == Min(MaxQuality, q + QualityStep);
      SustainedUnderBudget(q', sizes[1..], maxSize);
    }
  }

  /** Frames that all land in the dead band never move the quality (the hysteresis). */
  lemma {:induction false} DeadBandHolds(q: int, sizes: seq<nat>, maxSize: int)
    requires BudgetComputable(maxSize) && Slack <= maxSize
    requires forall i :: 0 <= i < |sizes| ==> maxSize - Slack <= sizes[i] <= maxSize
    ensures QualityAfter(q, sizes, maxSize) == q
    decreases |sizes|
  {
    if sizes != [] {
      DeadBandHolds(q, sizes[1..], maxSize);
    }
  }

  /** Feeding two runs of sizes one after the other is feeding their concatenation. */
  lemma {:induction false} QualityAfterAppend(q: int, a: seq<nat>, b: seq<nat>, maxSize: int)
    requires BudgetComputable(maxSize)
    ensures QualityAfter(q, a + b, maxSize) == QualityAfter(QualityAfter(q, a, maxSize), b, maxSize)
    decreases |a|
  {
    if a == [] {
      assert a + b == b;
    } else {
      assert (a + b)[0] == a[0];
      assert (a + b)[1..] == a[1..] + b;
      QualityAfterAppend(NextQuality(q, a[0], maxSize), a[1..], b, maxSize);
    }
  }
}
