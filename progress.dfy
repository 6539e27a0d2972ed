/** The simulated progress indicator: while a real comparison runs, an
    interval timer raises the shown progress by ten per tick and holds it
    at ninety; only the real result sets it to one hundred. */
module Progress {

  /** The value a comparison starts the indicator at. */
  const START: int := 0
  /** The value the ticker holds at. */
  const CAP: int := 90
  /** The increment of one tick. */
  const STEP: int := 10

  /** One tick of the interval: `prev >= 90 ? 90 : prev + 10`. */
  function Step(prev: int): (next: int)
    ensures prev >= CAP ==> next == CAP
    ensures prev < CAP ==> prev < next
    ensures prev % STEP == 0 ==> next <= CAP && next % STEP == 0
  {
    if prev >= CAP then CAP else prev + STEP
  }

  /** Whether the tick that sees `prev` also clears its own interval. */
  predicate StopsTicker(prev: int)
    ensures StopsTicker(prev) ==> Step(prev) == CAP
    ensures !StopsTicker(prev) ==> Step(prev) > prev
  {
    prev >= CAP
  }

  /** The value after `n` ticks from `p`. */
  function Ticks(p: int, n: nat): (r: int)
    ensures p % STEP == 0 ==> r % STEP == 0 && (n > 0 ==> r <= CAP)
    ensures p <= CAP && p % STEP == 0 ==> p <= r <= CAP
  {
    if n == 0 then p else Step(Ticks(p, n - 1))
  }

  function Min(a: int, b: int): int
  {
    if a <= b then a else b
  }

  /** From the start value, `n` ticks show `min(10 n, 90)`. */
  lemma {:induction false} TicksFromStart(n: nat)
    ensures Ticks(START, n) == Min(STEP * n, CAP)
  {
    if n > 0 {
      TicksFromStart(n - 1);
    }
  }

  /** The ticked sequence never decreases and never exceeds the cap. */
  lemma TicksMonotoneAndBounded(m: nat, n: nat)
    requires m <= n
    ensures START <= Ticks(START, m) <= Ticks(START, n) <= CAP
  {
    TicksFromStart(m);
    TicksFromStart(n);
  }

  /** After nine ticks the indicator sits at the cap and stays there. */
  lemma TicksReachCap(n: nat)
    requires n >= 9
    ensures Ticks(START, n) == CAP
  {
  }

  /** Ticking alone never shows one hundred. */
  lemma TicksNeverComplete(n: nat)
    ensures Ticks(START, n) != 100
  {
  }

  /** Every value reachable by ticking from the start is a multiple of ten
      in [0, 90], and a tick from any such value stays among them. */
  lemma StepKeepsGrid(p: int)
    requires 0 <= p <= 100 && p % 10 == 0
    ensures 0 <= Step(p) <= CAP && Step(p) % 10 == 0
    ensures p <= CAP ==> p <= Step(p)
  {
  }

  /** A tick that sees the completed value 100 pulls the indicator back to
      90: ticking is not monotone across completion. */
  lemma StaleTickPullsBack()
    ensures Step(100) == CAP && Step(100) < 100 && StopsTicker(100)
  {
  }
}
