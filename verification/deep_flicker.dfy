/**
 * The flicker of a light near the front of the forest, stripped of its
 * timers. The strength of a light falls linearly with its depth and vanishes
 * at the front-layer cutoff. A light with no strength is frozen at the
 * origin. Otherwise every tick is a pure step over (offset, stall deadline,
 * draws consumed), given the current time. It stays put while stalled,
 * sometimes enters a stall, and otherwise takes a damped, clamped
 * random-walk step. Each tick also yields the delay until the next one.
 *
 * A light's generator is `rngFromSeed(seed)`, seen as its draw stream; the
 * state records how many draws have been consumed, so after `n` draws the
 * generator is `Advance(rngFromSeed(seed), n)`, and a `randBetween` call on
 * it is a Lerp of draw `n` (SeededRng.RandBetweenAt).
 */
module DeepFlicker {

  import Numeric
  import SeededRng
  import UxSpec

  // ---------------------------------------------------------------------
  // Strength
  // ---------------------------------------------------------------------

  /** 0 beyond the cutoff; otherwise `clamp(1 - depth01 / cutoff, 0, 1)`. */
  function Strength(depth01: real): (r: real)
    ensures 0.0 <= r <= 1.0
    ensures r == 0.0 <==> depth01 >= UxSpec.FrontLayerCutoff
    ensures r == 1.0 <==> depth01 <= 0.0
    ensures 0.0 <= depth01 <= UxSpec.FrontLayerCutoff ==> r == 1.0 - depth01 / UxSpec.FrontLayerCutoff
  {
    if depth01 > UxSpec.FrontLayerCutoff then 0.0
    else Numeric.Clamp(1.0 - depth01 / UxSpec.FrontLayerCutoff, 0.0, 1.0)
  }

  /** A deeper light never flickers more strongly. */
  lemma StrengthAntitone(a: real, b: real)
    requires a <= b
    ensures Strength(b) <= Strength(a)
  {
    if b <= UxSpec.FrontLayerCutoff {
      Numeric.ClampMonotone(1.0 - b / UxSpec.FrontLayerCutoff, 1.0 - a / UxSpec.FrontLayerCutoff, 0.0, 1.0);
    }
  }

  // ---------------------------------------------------------------------
  // The tick
  // ---------------------------------------------------------------------

  datatype Offset = Offset(x: real, y: real)

  /** The state a tick reads and writes: the offset, the stall deadline and the draws consumed. */
  datatype Flicker = Flicker(offset: Offset, stallUntil: real, drawn: nat)

  /** Below this draw a tick enters a stall. */
  const StallChance: real := 0.22

  /** Each walk step pulls the offset back towards the origin by this factor. */
  const Damping: real := 0.9

  /** Both offset axes are clamped into [-MaxOffset, MaxOffset]. */
  const MaxOffset: real := 2.0

  predicate InBounds(o: Offset) {
    -MaxOffset <= o.x <= MaxOffset && -MaxOffset <= o.y <= MaxOffset
  }

  /** `randBetween(rand, updateIntervalMs[0], updateIntervalMs[1])` on draw `n`. */
  function NextDelay(s: SeededRng.Stream, n: nat): (d: real)
    requires SeededRng.UnitStream(s)
    ensures UxSpec.UpdateIntervalLo <= d < UxSpec.UpdateIntervalHi
  {
    Numeric.Lerp(UxSpec.UpdateIntervalLo, UxSpec.UpdateIntervalHi, s(n))
  }

  /** `randBetween(rand, walkRangePx[0], walkRangePx[1]) * strength` on draw `n`. */
  function Amplitude(s: SeededRng.Stream, n: nat, strength: real): (amp: real)
    requires SeededRng.UnitStream(s)
    requires 0.0 < strength <= 1.0
    ensures 0.0 < amp < UxSpec.WalkRangeHi
    ensures UxSpec.WalkRangeLo * strength <= amp
  {
    var range := Numeric.Lerp(UxSpec.WalkRangeLo, UxSpec.WalkRangeHi, s(n));
    Numeric.ScaleRangeClosed(range, strength);
    AmplitudeLowerBound(range, strength);
    Numeric.Scale(range, strength)
  }

  lemma AmplitudeLowerBound(range: real, strength: real)
    requires UxSpec.WalkRangeLo <= range && 0.0 < strength
    ensures UxSpec.WalkRangeLo * strength <= Numeric.Scale(range, strength)
    ensures 0.0 < Numeric.Scale(range, strength)
  {
    assert (range - UxSpec.WalkRangeLo) * strength >= 0.0;
  }

  /** One damped, clamped walk axis: `clamp((cur + d) * 0.9, -2, 2)`. */
  function WalkAxis(cur: real, d: real): (r: real)
    ensures -MaxOffset <= r <= MaxOffset
    ensures -MaxOffset <= (cur + d) * Damping <= MaxOffset ==> r == (cur + d) * Damping
  {
    Numeric.Clamp((cur + d) * Damping, -MaxOffset, MaxOffset)
  }

  /**
   * One tick at time `now` of a light with the given depth (whose strength
   * is positive, or no tick would ever be scheduled): the next state and the
   * delay until the next tick.
   */
  function Tick(s: SeededRng.Stream, depth01: real, st: Flicker, now: real): (r: (Flicker, real))
    requires SeededRng.UnitStream(s)
    requires Strength(depth01) > 0.0
    // still stalled: nothing changes but one draw is consumed
    ensures now < st.stallUntil ==> r.0 == st.(drawn := st.drawn + 1)
    // entering a stall: the offset is kept, the deadline is 1 to 3 seconds away, three draws
    ensures now >= st.stallUntil && s(st.drawn) < StallChance ==>
      && r.0.offset == st.offset && r.0.drawn == st.drawn + 3
      && UxSpec.StallLo <= r.0.stallUntil - now < UxSpec.StallHi
    // walking: the deadline is kept, five draws
    ensures now >= st.stallUntil && s(st.drawn) >= StallChance ==>
      r.0.stallUntil == st.stallUntil && r.0.drawn == st.drawn + 5
    ensures InBounds(st.offset) ==> InBounds(r.0.offset)
    ensures UxSpec.UpdateIntervalLo <= r.1 < UxSpec.UpdateIntervalHi
  {
    var n := st.drawn;
    if now < st.stallUntil then
      (st.(drawn := n + 1), NextDelay(s, n))
    else if s(n) < StallChance then
      var stall := Numeric.Lerp(UxSpec.StallLo, UxSpec.StallHi, s(n + 1));
      (st.(stallUntil := now + stall, drawn := n + 3), NextDelay(s, n + 2))
    else
      var amp := Amplitude(s, n + 1, Strength(depth01));
      var dx := Numeric.Lerp(-amp, amp, s(n + 2));
      var dy := Numeric.Lerp(-amp, amp, s(n + 3));
      var next := Offset(WalkAxis(st.offset.x, dx), WalkAxis(st.offset.y, dy));
      (st.(offset := next, drawn := n + 5), NextDelay(s, n + 4))
  }

  /**
   * A walk step draws an amplitude in [0.4, 0.6) times the strength from
   * draw `n + 1`, the x step from draw `n + 2` and the y step from draw
   * `n + 3`, each in [-amp, amp), and moves to the damped sum clamped into
   * [-2, 2].
   */
  lemma TickWalks(s: SeededRng.Stream, depth01: real, st: Flicker, now: real)
    requires SeededRng.UnitStream(s) && Strength(depth01) > 0.0
    requires now >= st.stallUntil && s(st.drawn) >= StallChance
    ensures var st' := Tick(s, depth01, st, now).0;
      var n := st.drawn;
      var amp := Amplitude(s, n + 1, Strength(depth01));
      var dx, dy := Numeric.Lerp(-amp, amp, s(n + 2)), Numeric.Lerp(-amp, amp, s(n + 3));
      && UxSpec.WalkRangeLo * Strength(depth01) <= amp < UxSpec.WalkRangeHi
      && -amp <= dx < amp && -amp <= dy < amp
      && st'.offset == Offset(WalkAxis(st.offset.x, dx), WalkAxis(st.offset.y, dy))
    ensures Tick(s, depth01, st, now).1 == NextDelay(s, st.drawn + 4)
  {
  }

  /*
   * The lemmas below read a tick on a light's own generator, after
   * `n` draws, as the source's sequence of calls on that generator: `rand()`
   * on draw `n` decides the stall, and every `randBetween` takes the next
   * draw. The generator ends after as many draws as the state records.
   */

  /** While stalled, the delay is the one `randBetween` on draw `n`. */
  lemma StalledTickIsRandCalls(g: SeededRng.Rng, depth01: real, st: Flicker, now: real)
    requires Strength(depth01) > 0.0
    requires now < st.stallUntil
    ensures var r := Tick(SeededRng.DrawStream(g), depth01, st, now);
      && r.0.drawn == st.drawn + 1
      && SeededRng.RandBetween(SeededRng.Advance(g, st.drawn), UxSpec.UpdateIntervalLo, UxSpec.UpdateIntervalHi)
           == (SeededRng.Advance(g, st.drawn + 1), r.1)
  {
    SeededRng.RandBetweenAt(g, st.drawn, UxSpec.UpdateIntervalLo, UxSpec.UpdateIntervalHi);
  }

  /**
   * Once a stall is over, the tick stalls again exactly when `rand()` is
   * below the chance; the stall length is then `randBetween` on draw
   * `n + 1` and the delay `randBetween` on draw `n + 2`.
   */
  lemma StallTickIsRandCalls(g: SeededRng.Rng, depth01: real, st: Flicker, now: real)
    requires Strength(depth01) > 0.0
    requires now >= st.stallUntil
    ensures var n := st.drawn;
      var r := Tick(SeededRng.DrawStream(g), depth01, st, now);
      && (SeededRng.Next(SeededRng.Advance(g, n)).1 < StallChance <==> r.0.drawn == n + 3)
      && (r.0.drawn == n + 3 ==>
            && SeededRng.RandBetween(SeededRng.Advance(g, n + 1), UxSpec.StallLo, UxSpec.StallHi).1 == r.0.stallUntil - now
            && SeededRng.RandBetween(SeededRng.Advance(g, n + 2), UxSpec.UpdateIntervalLo, UxSpec.UpdateIntervalHi)
                 == (SeededRng.Advance(g, n + 3), r.1))
  {
    var n := st.drawn;
    if SeededRng.Next(SeededRng.Advance(g, n)).1 < StallChance {
      StallingTickIsRandCalls(g, depth01, st, now);
    } else {
      WalkTickDelay(g, depth01, st, now);
    }
  }

  /** A stalling tick makes three draws: the stall length and then the delay. */
  lemma StallingTickIsRandCalls(g: SeededRng.Rng, depth01: real, st: Flicker, now: real)
    requires Strength(depth01) > 0.0
    requires now >= st.stallUntil && SeededRng.Next(SeededRng.Advance(g, st.drawn)).1 < StallChance
    ensures var n := st.drawn;
      var r := Tick(SeededRng.DrawStream(g), depth01, st, now);
      && r.0.drawn == n + 3
      && SeededRng.RandBetween(SeededRng.Advance(g, n + 1), UxSpec.StallLo, UxSpec.StallHi).1 == r.0.stallUntil - now
      && SeededRng.RandBetween(SeededRng.Advance(g, n + 2), UxSpec.UpdateIntervalLo, UxSpec.UpdateIntervalHi)
           == (SeededRng.Advance(g, n + 3), r.1)
  {
    var n := st.drawn;
    StallTickSteps(g, depth01, st, now);
    SeededRng.RandBetweenAt(g, n + 1, UxSpec.StallLo, UxSpec.StallHi);
    SeededRng.RandBetweenAt(g, n + 2, UxSpec.UpdateIntervalLo, UxSpec.UpdateIntervalHi);
  }

  /** The stalling tick in terms of the draw stream of the generator. */
  lemma StallTickSteps(g: SeededRng.Rng, depth01: real, st: Flicker, now: real)
    requires Strength(depth01) > 0.0
    requires now >= st.stallUntil && SeededRng.Next(SeededRng.Advance(g, st.drawn)).1 < StallChance
    ensures var s, n := SeededRng.DrawStream(g), st.drawn;
      var r := Tick(s, depth01, st, now);
      && r.0.drawn == n + 3
      && r.0.stallUntil - now == Numeric.Lerp(UxSpec.StallLo, UxSpec.StallHi, s(n + 1))
      && r.1 == NextDelay(s, n + 2)
  {
    SeededRng.NextAt(g, st.drawn);
  }

  /**
   * Otherwise the tick walks: the amplitude is `randBetween` on draw `n + 1`
   * (see `AmplitudeIsRandCall`), and the steps along x and y are
   * `randBetween(-amp, amp)` on draws `n + 2` and `n + 3`.
   */
  lemma WalkTickIsRandCalls(g: SeededRng.Rng, depth01: real, st: Flicker, now: real)
    requires Strength(depth01) > 0.0
    requires now >= st.stallUntil
    ensures var n := st.drawn;
      var s := SeededRng.DrawStream(g);
      var amp := Amplitude(s, n + 1, Strength(depth01));
      SeededRng.Next(SeededRng.Advance(g, n)).1 >= StallChance ==>
      Tick(s, depth01, st, now).0.offset == Offset(
        WalkAxis(st.offset.x, SeededRng.RandBetween(SeededRng.Advance(g, n + 2), -amp, amp).1),
        WalkAxis(st.offset.y, SeededRng.RandBetween(SeededRng.Advance(g, n + 3), -amp, amp).1))
  {
    if SeededRng.Next(SeededRng.Advance(g, st.drawn)).1 >= StallChance {
      WalkTickSteps(g, depth01, st, now);
      StepsAreRandCalls(g, st.drawn + 1, Strength(depth01));
    }
  }

  /** The walking offset in terms of the draw stream of the generator. */
  lemma WalkTickSteps(g: SeededRng.Rng, depth01: real, st: Flicker, now: real)
    requires Strength(depth01) > 0.0
    requires now >= st.stallUntil && SeededRng.Next(SeededRng.Advance(g, st.drawn)).1 >= StallChance
    ensures var n := st.drawn;
      var s := SeededRng.DrawStream(g);
      var amp := Amplitude(s, n + 1, Strength(depth01));
      Tick(s, depth01, st, now).0.offset == Offset(
        WalkAxis(st.offset.x, Numeric.Lerp(-amp, amp, s(n + 2))),
        WalkAxis(st.offset.y, Numeric.Lerp(-amp, amp, s(n + 3))))
  {
    SeededRng.NextAt(g, st.drawn);
    TickWalks(SeededRng.DrawStream(g), depth01, st, now);
  }

  /** The two steps of a walk are the `randBetween` calls after the amplitude's draw `n`. */
  lemma StepsAreRandCalls(g: SeededRng.Rng, n: nat, strength: real)
    requires 0.0 < strength <= 1.0
    ensures var s := SeededRng.DrawStream(g);
      var amp := Amplitude(s, n, strength);
      && SeededRng.RandBetween(SeededRng.Advance(g, n + 1), -amp, amp).1 == Numeric.Lerp(-amp, amp, s(n + 1))
      && SeededRng.RandBetween(SeededRng.Advance(g, n + 2), -amp, amp).1 == Numeric.Lerp(-amp, amp, s(n + 2))
  {
    var amp := Amplitude(SeededRng.DrawStream(g), n, strength);
    SeededRng.RandBetweenAt(g, n + 1, -amp, amp);
    SeededRng.RandBetweenAt(g, n + 2, -amp, amp);
  }

  /** A walking tick makes five draws; its delay is `randBetween` on draw `n + 4`. */
  lemma WalkDelayIsRandCall(g: SeededRng.Rng, depth01: real, st: Flicker, now: real)
    requires Strength(depth01) > 0.0
    requires now >= st.stallUntil
    ensures var n := st.drawn;
      var r := Tick(SeededRng.DrawStream(g), depth01, st, now);
      SeededRng.Next(SeededRng.Advance(g, n)).1 >= StallChance ==>
      && r.0.drawn == n + 5
      && SeededRng.RandBetween(SeededRng.Advance(g, n + 4), UxSpec.UpdateIntervalLo, UxSpec.UpdateIntervalHi)
           == (SeededRng.Advance(g, n + 5), r.1)
  {
    if SeededRng.Next(SeededRng.Advance(g, st.drawn)).1 >= StallChance {
      WalkTickDelay(g, depth01, st, now);
    }
  }

  /** The same, for a tick whose first draw is known to send it walking. */
  lemma WalkTickDelay(g: SeededRng.Rng, depth01: real, st: Flicker, now: real)
    requires Strength(depth01) > 0.0
    requires now >= st.stallUntil && SeededRng.Next(SeededRng.Advance(g, st.drawn)).1 >= StallChance
    ensures var n := st.drawn;
      var r := Tick(SeededRng.DrawStream(g), depth01, st, now);
      && r.0.drawn == n + 5
      && SeededRng.RandBetween(SeededRng.Advance(g, n + 4), UxSpec.UpdateIntervalLo, UxSpec.UpdateIntervalHi)
           == (SeededRng.Advance(g, n + 5), r.1)
  {
    var s, n := SeededRng.DrawStream(g), st.drawn;
    SeededRng.NextAt(g, n);
    TickWalks(s, depth01, st, now);
    SeededRng.RandBetweenAt(g, n + 4, UxSpec.UpdateIntervalLo, UxSpec.UpdateIntervalHi);
  }

  /** The amplitude read from draw `n` is `randBetween` on a generator after `n` draws, times the strength. */
  lemma AmplitudeIsRandCall(g: SeededRng.Rng, n: nat, strength: real)
    requires 0.0 < strength <= 1.0
    ensures Amplitude(SeededRng.DrawStream(g), n, strength)
      == Numeric.Scale(SeededRng.RandBetween(SeededRng.Advance(g, n), UxSpec.WalkRangeLo, UxSpec.WalkRangeHi).1, strength)
  {
    SeededRng.RandBetweenAt(g, n, UxSpec.WalkRangeLo, UxSpec.WalkRangeHi);
  }

  // ---------------------------------------------------------------------
  // Mounting and running
  // ---------------------------------------------------------------------

  /** A light either never moves, or starts at the origin and ticks after an initial delay. */
  datatype Mounted = Frozen(offset: Offset) | Running(state: Flicker, firstDelay: real)

  /**
   * The effect: a light with no strength shows the origin and schedules
   * nothing; otherwise the first tick comes after `randBetween(rand, 120, 240)`,
   * the first draw.
   */
  function Mount(s: SeededRng.Stream, depth01: real): (m: Mounted)
    requires SeededRng.UnitStream(s)
    ensures m.Frozen? <==> depth01 >= UxSpec.FrontLayerCutoff
    ensures m.Frozen? ==> m.offset == Offset(0.0, 0.0)
    ensures m.Running? ==>
      && m.state == Flicker(Offset(0.0, 0.0), 0.0, 1)
      && 120.0 <= m.firstDelay < 240.0
  {
    if Strength(depth01) <= 0.0 then Frozen(Offset(0.0, 0.0))
    else Running(Flicker(Offset(0.0, 0.0), 0.0, 1), Numeric.Lerp(120.0, 240.0, s(0)))
  }

  /**
   * Ticks at the given times, in order: the final state and every delay
   * scheduled. Starting in bounds (the origin, in particular) the offset
   * stays within [-2, 2]; every delay lies in [250, 330); and each tick
   * consumes between one and five draws.
   */
  function Run(s: SeededRng.Stream, depth01: real, st: Flicker, times: seq<real>): (r: (Flicker, seq<real>))
    requires SeededRng.UnitStream(s) && Strength(depth01) > 0.0
    ensures |r.1| == |times|
    ensures InBounds(st.offset) ==> InBounds(r.0.offset)
    ensures st.drawn + |times| <= r.0.drawn <= st.drawn + 5 * |times|
    ensures forall i :: 0 <= i < |r.1| ==> UxSpec.UpdateIntervalLo <= r.1[i] < UxSpec.UpdateIntervalHi
    decreases |times|
  {
    if |times| == 0 then (st, [])
    else
      var (st', delay) := Tick(s, depth01, st, times[0]);
      var (last, delays) := Run(s, depth01, st', times[1..]);
      (last, [delay] + delays)
  }

  /** A mounted light that runs, from its first state, never leaves [-2, 2]. */
  lemma MountedRunStaysInBounds(s: SeededRng.Stream, depth01: real, times: seq<real>)
    requires SeededRng.UnitStream(s)
    requires Mount(s, depth01).Running?
    ensures Strength(depth01) > 0.0
    ensures InBounds(Run(s, depth01, Mount(s, depth01).state, times).0.offset)
  {
  }
}
