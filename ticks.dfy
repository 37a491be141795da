/** The world's three tick cursors and the arithmetic that moves them: `tick` (the confirmed
    present), `pastTick` (the oldest retained history) and `futurTick` (the forecast horizon).
    Every function here computes with C# `uint` semantics, so sums and differences wrap
    modulo 2^32 exactly where the engine's unchecked arithmetic does. */
module Ticks {
  import opened Common

  /** `tick += steps`: the new confirmed tick, wrapping past `uint.MaxValue`. */
  function AdvanceTick(tick: uint32, steps: uint32): (r: uint32)
    ensures tick + steps <= MaxU32 ==> r == tick + steps
    ensures tick + steps > MaxU32 ==> r == tick + steps - Modulus && r < tick
  {
    Wrap(tick + steps)
  }

  /** The overflow guard of `Step`: it looks at the already wrapped tick, so it fires only
      when the exact sum lands on `uint.MaxValue`, never when the sum overflows. */
  function TickLimitReached(tick: uint32, steps: uint32): (r: bool)
    ensures r <==> tick + steps == MaxU32
    ensures tick + steps > MaxU32 ==> !r
  {
    AdvanceTick(tick, steps) == MaxU32
  }

  /** The retention window `keepTicks`, clipped so that it never reaches below tick 0. */
  function ClampKeep(keepTicks: uint32, tick: uint32): (k: uint32)
    ensures k <= tick && k <= keepTicks
    ensures k == keepTicks || k == tick
  {
    if keepTicks > tick then tick else keepTicks
  }

  /** `pastTick` after `Step`: the later of the old bound and `tick - keepTicks`. */
  function PastAfterStep(tick: uint32, keepTicks: uint32, pastTick: uint32): (p: uint32)
    ensures p >= pastTick
    ensures p >= tick - keepTicks
    ensures p == pastTick || p == tick - Min(keepTicks, tick)
    ensures pastTick <= tick ==> p <= tick
  {
    Max(tick - ClampKeep(keepTicks, tick), pastTick)
  }

  /** How many future ticks `Step` solves, given the already advanced `tick`.
      Behind the horizon it closes the gap and adds `min(foreseeTicks, bufferingTicks)`;
      otherwise it takes at most `bufferingTicks` ticks, computing the fresh lookahead
      `tick + foreseeTicks - futurTick` in `uint`, which wraps when the horizon already
      lies beyond `tick + foreseeTicks`. */
  function Lookahead(tick: uint32, futurTick: uint32, foreseeTicks: uint32, bufferingTicks: uint32): (n: uint32)
    ensures futurTick < tick && tick + Min(foreseeTicks, bufferingTicks) <= MaxU32 ==>
              n == tick - futurTick + Min(foreseeTicks, bufferingTicks)
    ensures futurTick >= tick ==> n <= bufferingTicks
    ensures futurTick >= tick && futurTick <= tick + foreseeTicks <= MaxU32 ==>
              n <= tick + foreseeTicks - futurTick && (n == bufferingTicks || n == tick + foreseeTicks - futurTick)
    ensures futurTick >= tick && tick + foreseeTicks < futurTick ==>
              n == Min(Modulus - (futurTick - tick - foreseeTicks), bufferingTicks)
  {
    if futurTick < tick then
      Wrap(tick - futurTick + Min(foreseeTicks, bufferingTicks))
    else
      Min(Wrap(tick + foreseeTicks - futurTick), bufferingTicks)
  }

  /** The horizon after `n` executions of `futurTick++`. */
  function AdvanceHorizon(futurTick: uint32, n: nat): (f: uint32)
    ensures futurTick + n <= MaxU32 ==> f == futurTick + n
  {
    Wrap(futurTick + n)
  }

  /** One more `futurTick++` moves the horizon one further. */
  lemma HorizonStep(futurTick: uint32, n: nat)
    ensures AdvanceHorizon(futurTick, n + 1) == Wrap(AdvanceHorizon(futurTick, n) + 1)
  {
    var x := futurTick + n;
    var q := x / Modulus;
    assert x == q * Modulus + x % Modulus;
    if x % Modulus + 1 == Modulus {
      assert x + 1 == (q + 1) * Modulus;
    } else {
      assert x + 1 == q * Modulus + (x % Modulus + 1);
    }
  }

  /** `pastTick` after `RollBack(toTick, keepTicks)`: first pulled down to the new tick,
      then raised to `toTick - keepTicks`. */
  function PastAfterRollBack(toTick: uint32, keepTicks: uint32, pastTick: uint32): (p: uint32)
    ensures toTick - Min(keepTicks, toTick) <= p <= toTick
    ensures pastTick <= toTick ==> p >= pastTick
    ensures pastTick > toTick ==> p == toTick
    ensures p == toTick - Min(keepTicks, toTick) || p == Min(pastTick, toTick)
  {
    var clipped := if pastTick > toTick then toTick else pastTick;
    Max(toTick - ClampKeep(keepTicks, toTick), clipped)
  }

  /** The horizon after a body reports an external change from `fromTick` on:
      pulled back to the change, but never below the confirmed tick. */
  function FuturAfterExternalChange(tick: uint32, futurTick: uint32, fromTick: uint32): (f: uint32)
    ensures tick <= f && Min(futurTick, fromTick) <= f
    ensures f <= Max(tick, futurTick) && f <= Max(tick, fromTick)
    ensures f == tick || f == futurTick || f == fromTick
  {
    Max(tick, Min(futurTick, fromTick))
  }

  /** The cursor ordering the engine aims for at rest. */
  predicate Ordered(pastTick: uint32, tick: uint32, futurTick: uint32) {
    pastTick <= tick <= futurTick
  }

  /** A `Step` that neither overflows the tick nor wraps the horizon keeps
      `pastTick <= tick <= futurTick`. */
  lemma StepKeepsOrdered(pastTick: uint32, tick: uint32, futurTick: uint32,
                         steps: uint32, foreseeTicks: uint32, bufferingTicks: uint32, keepTicks: uint32)
    requires Ordered(pastTick, tick, futurTick)
    requires tick + steps + foreseeTicks <= MaxU32
    requires futurTick + bufferingTicks <= MaxU32
    ensures var t := AdvanceTick(tick, steps);
            var n := Lookahead(t, futurTick, foreseeTicks, bufferingTicks);
            !TickLimitReached(tick, steps) ==>
            Ordered(PastAfterStep(t, keepTicks, pastTick), t, AdvanceHorizon(futurTick, n))
  {
    var t := AdvanceTick(tick, steps);
    var n := Lookahead(t, futurTick, foreseeTicks, bufferingTicks);
    if futurTick < t {
      assert futurTick + n == t + Min(foreseeTicks, bufferingTicks);
    } else if t + foreseeTicks < futurTick {
      assert n <= bufferingTicks;
    }
  }

  /** With the horizon no further than `tick + foreseeTicks`, one `Step` brings the horizon to
      at least the new tick and at most `foreseeTicks` beyond it; behind the tick it lands
      exactly `min(foreseeTicks, bufferingTicks)` ahead. */
  lemma LookaheadCatchesUp(tick: uint32, futurTick: uint32, foreseeTicks: uint32, bufferingTicks: uint32)
    requires futurTick <= tick + foreseeTicks <= MaxU32
    ensures var n := Lookahead(tick, futurTick, foreseeTicks, bufferingTicks);
            && futurTick + n <= MaxU32
            && tick <= AdvanceHorizon(futurTick, n) <= tick + foreseeTicks
            && (futurTick < tick ==> AdvanceHorizon(futurTick, n) == tick + Min(foreseeTicks, bufferingTicks))
            && (tick <= futurTick ==> n <= bufferingTicks)
  {
  }

  /** Without lookahead (`foreseeTicks == bufferingTicks == 0`) the horizon tracks the tick. */
  lemma NoLookaheadTracksTick(tick: uint32, futurTick: uint32)
    requires futurTick <= tick
    ensures AdvanceHorizon(futurTick, Lookahead(tick, futurTick, 0, 0)) == tick
  {
  }

  /** As written, a `Step` whose sum passes `uint.MaxValue` wraps the tick instead of failing:
      from tick 1, `Step(uint.MaxValue)` lands on tick 0 without raising the overflow error. */
  lemma TickOverflowWrapsSilently()
    ensures AdvanceTick(1, MaxU32) == 0 && !TickLimitReached(1, MaxU32)
  {
  }

  /** As written, after a rollback leaves the horizon ahead of `tick + foreseeTicks`, the
      wrapped subtraction makes `Step` solve `bufferingTicks` more ticks although no lookahead
      is wanted: tick 6, horizon 10, no foresight, buffer 3 solves 3 ticks up to 13. */
  lemma LookaheadWrapsAfterRollBack()
    ensures Lookahead(6, 10, 0, 3) == 3 && AdvanceHorizon(10, 3) == 13
  {
  }

  /** The same wrap needs no rollback: a step with foresight 10 from tick 0 leaves the horizon
      at 11, and a following step with no foresight and a buffer of 3 still solves 3 ticks,
      up to 14. */
  lemma LookaheadWrapsWhenForesightShrinks()
    ensures AdvanceTick(0, 1) == 1 && Lookahead(1, 0, 10, 10) == 11 && AdvanceHorizon(0, 11) == 11
    ensures AdvanceTick(1, 1) == 2 && Lookahead(2, 11, 0, 3) == 3 && AdvanceHorizon(11, 3) == 14
  {
  }
}
