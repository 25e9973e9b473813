/**
 * The pour schedule of `print_steps` in pourover.py: a bloom row, then a
 * first pass that pours the bloom amount again, then the remaining water
 * spread evenly over fixed time increments, clamped to (pour time, total
 * water) once the next increment would overshoot. Rows are returned as
 * (timestamp in seconds, cumulative grams) instead of being printed.
 * Python floats are exact reals here.
 */
module PourSchedule {
  import opened Rounding

  /** Coffee holds twice its weight in water during the bloom. */
  const BloomFactor: int := 2

  /** `water_for_bloom`. */
  function WaterForBloom(coffee: int): int {
    coffee * BloomFactor
  }

  /** Pour time, bloom time and step increment, in seconds. */
  datatype Timing = Timing(pour: int, bloom: int, increment: int)

  /**
   * The timings the loop is modelled for: a positive increment and a bloom
   * that ends before the last pour. An increment of zero, or a bloom that
   * ends at the pour time, divides by zero on the first pass.
   */
  predicate ValidTiming(t: Timing) {
    t.increment > 0 && t.pour > t.bloom
  }

  /** The loop variables between passes: `timer`, `water_remaining`, `water_per_step`. */
  datatype Pour = Pour(timer: int, remaining: real, perStep: real)

  /** The loop guard: the water still to pour rounds to a positive amount. */
  predicate Pouring(p: Pour) {
    Round(p.remaining) > 0
  }

  /** The row a pass prints: its timestamp and the water poured so far, rounded. */
  function Row(water: int, p: Pour): (int, int) {
    (p.timer, Round(water as real - p.remaining))
  }

  /** The loop variables before the first pass, right after the bloom row. */
  function Start(water: int, coffee: int): Pour {
    Pour(0, (water - WaterForBloom(coffee)) as real, 0.0)
  }

  /**
   * The first pass: the bloom amount is poured a second time, the timer
   * jumps to the end of the bloom, and what is left is divided among the
   * increments up to the pour time.
   */
  function FirstPass(coffee: int, t: Timing, p: Pour): Pour
    requires t.increment != 0 && t.pour != t.bloom
  {
    var remaining := p.remaining - WaterForBloom(coffee) as real;
    var stepCount := (t.pour - t.bloom) as real / t.increment as real;
    Pour(t.bloom, remaining, remaining / stepCount)
  }

  /**
   * A later pass: jump to the pour time with nothing left when the next
   * increment would overshoot it, otherwise advance one increment and pour
   * one share.
   */
  function LaterPass(t: Timing, p: Pour): Pour {
    if p.timer + t.increment > t.pour then Pour(t.pour, 0.0, p.perStep)
    else Pour(p.timer + t.increment, p.remaining - p.perStep, p.perStep)
  }

  /** The rows printed from a state after the first pass up to the end of the loop. */
  function Continue(water: int, t: Timing, p: Pour): seq<(int, int)>
    requires ValidTiming(t) && p.timer <= t.pour
    decreases t.pour - p.timer + (if Pouring(p) then 1 else 0)
  {
    [Row(water, p)] + (if Pouring(p) then Continue(water, t, LaterPass(t, p)) else [])
  }

  /**
   * The timing matters only once the loop is entered, that is, when the
   * water left after the bloom rounds to a positive amount; otherwise only
   * the bloom row is printed, whatever the timing.
   */
  predicate Runs(water: int, coffee: int, t: Timing) {
    Pouring(Start(water, coffee)) ==> ValidTiming(t)
  }

  /**
   * The rows `print_steps` prints, in order, starting with the bloom row,
   * with the first pass taken exactly once: the corrected loop. The loop as
   * written recognises its first pass by a timer of zero instead, and
   * prints the same rows whenever the bloom time is positive or not a
   * multiple of the increment (`AsWrittenAgrees`).
   */
  function Schedule(water: int, coffee: int, t: Timing): seq<(int, int)>
    requires Runs(water, coffee, t)
  {
    var start := Start(water, coffee);
    [(0, WaterForBloom(coffee))] +
    (if Pouring(start) then Continue(water, t, FirstPass(coffee, t, start)) else [])
  }

  /** The rows still to come in the loop of `Steps`. */
  function Pending(water: int, coffee: int, t: Timing, p: Pour, first: bool): seq<(int, int)>
    requires Pouring(p) ==> ValidTiming(t)
    requires !first ==> p.timer <= t.pour
  {
    if !Pouring(p) then []
    else if first then Continue(water, t, FirstPass(coffee, t, p))
    else Continue(water, t, LaterPass(t, p))
  }

  /**
   * The loop of `print_steps`, collecting rows instead of printing them.
   * The first pass is the one right after the bloom row.
   */
  method Steps(water: int, coffee: int, t: Timing) returns (rows: seq<(int, int)>)
    requires Runs(water, coffee, t)
    ensures rows == Schedule(water, coffee, t)
    ensures rows[0] == (0, WaterForBloom(coffee))
    ensures !ValidTiming(t) ==> rows == [(0, WaterForBloom(coffee))]
    ensures ValidTiming(t) ==> |rows| <= (t.pour - t.bloom) / t.increment + 3
    ensures rows[|rows| - 1].1 >= water
  {
    var bloomWater := WaterForBloom(coffee);
    var p := Pour(0, (water - bloomWater) as real, 0.0);
    rows := [(p.timer, bloomWater)];
    var first := true;
    while Pouring(p)
      invariant first ==> p == Start(water, coffee) && rows == [(0, bloomWater)]
      invariant !first ==> ValidTiming(t) && p.timer <= t.pour
      invariant rows + Pending(water, coffee, t, p, first) == Schedule(water, coffee, t)
      decreases (if first then 1 else 0), t.pour - p.timer + (if Pouring(p) then 1 else 0)
    {
      if first {
        p := FirstPass(coffee, t, p);
        first := false;
      } else {
        p := LaterPass(t, p);
      }
      rows := rows + [Row(water, p)];
    }
    assert rows == Schedule(water, coffee, t);
    ScheduleOpening(water, coffee, t);
    if ValidTiming(t) {
      ScheduleBound(water, coffee, t);
    }
    ScheduleTarget(water, coffee, t);
  }

  // ---------------------------------------------------------------------
  // The loop after its first pass

  /** The water left to pour after the bloom amount has been subtracted twice. */
  function AfterFirstPass(water: int, coffee: int): int {
    water - 2 * WaterForBloom(coffee)
  }

  /**
   * What holds of the loop variables after the first pass: the timer lies
   * between the end of the bloom and the pour time, the water still to
   * pour is the first-pass remainder in proportion to the time still left,
   * and one step pours that remainder's share of one increment.
   */
  predicate Tracking(water: int, coffee: int, t: Timing, p: Pour) {
    ValidTiming(t) && t.bloom <= p.timer <= t.pour &&
    p.remaining * (t.pour - t.bloom) as real ==
      AfterFirstPass(water, coffee) as real * (t.pour - p.timer) as real &&
    p.perStep * (t.pour - t.bloom) as real ==
      AfterFirstPass(water, coffee) as real * t.increment as real
  }

  lemma FirstPassTracks(water: int, coffee: int, t: Timing)
    requires ValidTiming(t)
    ensures Tracking(water, coffee, t, FirstPass(coffee, t, Start(water, coffee)))
  {
    var span := (t.pour - t.bloom) as real;
    var inc := t.increment as real;
    var stepCount := span / inc;
    assert stepCount * inc == span;
    var p := FirstPass(coffee, t, Start(water, coffee));
    var r1 := AfterFirstPass(water, coffee) as real;
    assert p.remaining == r1;
    assert p.perStep * stepCount == r1;
    calc {
      p.perStep * span;
      p.perStep * (stepCount * inc);
      (p.perStep * stepCount) * inc;
      r1 * inc;
    }
  }

  lemma LaterPassTracks(water: int, coffee: int, t: Timing, p: Pour)
    requires Tracking(water, coffee, t, p)
    ensures Tracking(water, coffee, t, LaterPass(t, p))
  {
    if p.timer + t.increment <= t.pour {
      var span := (t.pour - t.bloom) as real;
      var r1 := AfterFirstPass(water, coffee) as real;
      calc {
        (p.remaining - p.perStep) * span;
        p.remaining * span - p.perStep * span;
        r1 * (t.pour - p.timer) as real - r1 * t.increment as real;
        r1 * (t.pour - (p.timer + t.increment)) as real;
      }
    }
  }

  /** At the pour time nothing is left; with a positive remainder nothing goes negative. */
  lemma TrackingFacts(water: int, coffee: int, t: Timing, p: Pour)
    requires Tracking(water, coffee, t, p)
    ensures p.timer == t.pour ==> p.remaining == 0.0 && !Pouring(p)
    ensures AfterFirstPass(water, coffee) > 0 ==> p.remaining >= 0.0 && p.perStep > 0.0
  {
    var span := (t.pour - t.bloom) as real;
    var r1 := AfterFirstPass(water, coffee) as real;
    RoundOfInt(0);
    if p.timer == t.pour {
      assert p.remaining * span == 0.0;
    }
    if r1 > 0.0 {
      assert r1 * (t.pour - p.timer) as real >= 0.0;
      assert r1 * t.increment as real > 0.0;
    }
  }

  /** Nothing is left to pour once the loop has jumped to the pour time. */
  lemma ClampedStops(t: Timing, p: Pour)
    requires p.timer + t.increment > t.pour
    ensures !Pouring(LaterPass(t, p))
  {
    RoundOfInt(0);
  }

  lemma {:induction false} MulAtLeast(d: int, i: int)
    requires d >= 1 && i > 0
    ensures d * i >= i
  {
    if d > 1 {
      MulAtLeast(d - 1, i);
      assert d * i == (d - 1) * i + i;
    }
  }

  /** Integer division is unique: a quotient and remainder in range are the ones `/` gives. */
  lemma DivUnique(x: int, i: int, q: int, r: int)
    requires i > 0 && 0 <= r < i && x == q * i + r
    ensures x / i == q
  {
    var q' := x / i;
    var r' := x % i;
    assert x == q' * i + r';
    if q' < q {
      MulAtLeast(q - q', i);
      assert false;
    } else if q' > q {
      MulAtLeast(q' - q, i);
      assert false;
    }
  }

  /** One increment less of time leaves one step fewer. */
  lemma DivOneLess(x: int, i: int)
    requires i > 0
    ensures (x - i) / i == x / i - 1
  {
    var q := x / i;
    var r := x % i;
    assert x == q * i + r;
    DivUnique(x - i, i, q - 1, r);
  }

  /**
   * One pass after the first: the loop variables keep tracking, the timer
   * strictly advances, and with a positive remainder the water still to
   * pour does not grow.
   */
  lemma LaterPassFacts(water: int, coffee: int, t: Timing, p: Pour)
    requires Tracking(water, coffee, t, p) && Pouring(p)
    ensures Tracking(water, coffee, t, LaterPass(t, p))
    ensures p.timer < LaterPass(t, p).timer
    ensures AfterFirstPass(water, coffee) > 0 ==> LaterPass(t, p).remaining <= p.remaining
  {
    TrackingFacts(water, coffee, t, p);
    LaterPassTracks(water, coffee, t, p);
  }

  lemma {:induction false} ContinueLength(water: int, t: Timing, p: Pour)
    requires ValidTiming(t) && p.timer <= t.pour
    ensures |Continue(water, t, p)| <= (t.pour - p.timer) / t.increment + 2
    decreases t.pour - p.timer + (if Pouring(p) then 1 else 0)
  {
    if Pouring(p) {
      var next := LaterPass(t, p);
      if p.timer + t.increment > t.pour {
        ClampedStops(t, p);
      } else {
        ContinueLength(water, t, next);
        DivOneLess(t.pour - p.timer, t.increment);
      }
    }
  }

  /**
   * When the next increment would overshoot, the loop prints one more row,
   * exactly the pour time with all the water, and stops.
   */
  lemma ClampIsFinal(water: int, t: Timing, p: Pour)
    requires ValidTiming(t) && p.timer <= t.pour && Pouring(p)
    requires p.timer + t.increment > t.pour
    ensures Continue(water, t, p) == [Row(water, p), (t.pour, water)]
  {
    ClampedStops(t, p);
    RoundOfInt(water);
    assert water as real - 0.0 == water as real;
  }

  // ---------------------------------------------------------------------
  // Shapes of a sequence of rows

  /** Every timestamp lies in [lo, hi]. */
  predicate TimesWithin(rows: seq<(int, int)>, lo: int, hi: int) {
    forall i :: 0 <= i < |rows| ==> lo <= rows[i].0 <= hi
  }

  /** Timestamps strictly increase from row to row. */
  predicate TimesIncrease(rows: seq<(int, int)>) {
    forall i, j :: 0 <= i < j < |rows| ==> rows[i].0 < rows[j].0
  }

  /** Every cumulative amount lies in [lo, hi]. */
  predicate GramsWithin(rows: seq<(int, int)>, lo: int, hi: int) {
    forall i :: 0 <= i < |rows| ==> lo <= rows[i].1 <= hi
  }

  /** Cumulative amounts never decrease from row to row. */
  predicate GramsGrow(rows: seq<(int, int)>) {
    forall i, j :: 0 <= i < j < |rows| ==> rows[i].1 <= rows[j].1
  }

  /** A row stamped with the pour time is the last row and has poured the target. */
  predicate EndsAtPour(rows: seq<(int, int)>, pour: int, water: int) {
    forall i :: 0 <= i < |rows| && rows[i].0 == pour ==> i == |rows| - 1 && rows[i].1 == water
  }

  lemma ConsTimes(row: (int, int), tail: seq<(int, int)>, lo: int, hi: int)
    requires row.0 < lo && row.0 <= hi && TimesWithin(tail, lo, hi) && TimesIncrease(tail)
    ensures TimesWithin([row] + tail, row.0, hi) && TimesIncrease([row] + tail)
  {
    var rows := [row] + tail;
    assert forall i :: 1 <= i < |rows| ==> rows[i] == tail[i - 1];
  }

  lemma ConsGrams(row: (int, int), tail: seq<(int, int)>, hi: int)
    requires row.1 <= hi && GramsWithin(tail, row.1, hi) && GramsGrow(tail)
    ensures GramsWithin([row] + tail, row.1, hi) && GramsGrow([row] + tail)
  {
    var rows := [row] + tail;
    assert forall i :: 1 <= i < |rows| ==> rows[i] == tail[i - 1];
  }

  lemma ConsEndsAtPour(row: (int, int), tail: seq<(int, int)>, pour: int, water: int)
    requires row.0 != pour && EndsAtPour(tail, pour, water)
    ensures EndsAtPour([row] + tail, pour, water)
  {
    var rows := [row] + tail;
    assert forall i :: 1 <= i < |rows| ==> rows[i] == tail[i - 1];
  }

  /** The rows after the first one are the tail the first one was put in front of. */
  lemma DropHead(row: (int, int), tail: seq<(int, int)>)
    ensures ([row] + tail)[1..] == tail
  {
  }

  // ---------------------------------------------------------------------
  // The rows printed from a tracking state

  /**
   * From a tracking state, timestamps start at the current timer, strictly
   * increase and never pass the pour time.
   */
  lemma {:induction false} ContinueTimes(water: int, coffee: int, t: Timing, p: Pour)
    requires Tracking(water, coffee, t, p)
    ensures TimesWithin(Continue(water, t, p), p.timer, t.pour)
    ensures TimesIncrease(Continue(water, t, p))
    decreases t.pour - p.timer + (if Pouring(p) then 1 else 0)
  {
    if Pouring(p) {
      var next := LaterPass(t, p);
      LaterPassFacts(water, coffee, t, p);
      ContinueTimes(water, coffee, t, next);
      ConsTimes(Row(water, p), Continue(water, t, next), next.timer, t.pour);
    } else {
      ConsTimes(Row(water, p), [], p.timer + 1, t.pour);
    }
  }

  /**
   * From a tracking state, a row stamped with the pour time is the last
   * one and has poured exactly the target water.
   */
  lemma {:induction false} ContinueAtPour(water: int, coffee: int, t: Timing, p: Pour)
    requires Tracking(water, coffee, t, p)
    ensures EndsAtPour(Continue(water, t, p), t.pour, water)
    decreases t.pour - p.timer + (if Pouring(p) then 1 else 0)
  {
    TrackingFacts(water, coffee, t, p);
    if p.timer == t.pour {
      RoundOfInt(water);
      assert water as real - p.remaining == water as real;
      assert Continue(water, t, p) == [Row(water, p)];
    } else if Pouring(p) {
      var next := LaterPass(t, p);
      LaterPassFacts(water, coffee, t, p);
      ContinueAtPour(water, coffee, t, next);
      ConsEndsAtPour(Row(water, p), Continue(water, t, next), t.pour, water);
    } else {
      assert Continue(water, t, p) == [Row(water, p)];
    }
  }

  /** From a tracking state with water left after the first pass, the last row reaches the target. */
  lemma {:induction false} ContinueTarget(water: int, coffee: int, t: Timing, p: Pour)
    requires Tracking(water, coffee, t, p) && AfterFirstPass(water, coffee) > 0
    ensures |Continue(water, t, p)| >= 1
    ensures Continue(water, t, p)[|Continue(water, t, p)| - 1].1 == water
    decreases t.pour - p.timer + (if Pouring(p) then 1 else 0)
  {
    TrackingFacts(water, coffee, t, p);
    if Pouring(p) {
      LaterPassFacts(water, coffee, t, p);
      ContinueTarget(water, coffee, t, LaterPass(t, p));
    } else {
      RoundPositive(p.remaining);
      RoundNear(water as real - p.remaining, water);
    }
  }

  /**
   * From a tracking state with water left after the first pass, the
   * cumulative grams start at the current row's, never decrease and never
   * exceed the target.
   */
  lemma {:induction false} ContinueGrams(water: int, coffee: int, t: Timing, p: Pour)
    requires Tracking(water, coffee, t, p) && AfterFirstPass(water, coffee) > 0
    ensures GramsWithin(Continue(water, t, p), Row(water, p).1, water)
    ensures GramsGrow(Continue(water, t, p))
    decreases t.pour - p.timer + (if Pouring(p) then 1 else 0)
  {
    TrackingFacts(water, coffee, t, p);
    RoundOfInt(water);
    RoundMonotone(water as real - p.remaining, water as real);
    if Pouring(p) {
      var next := LaterPass(t, p);
      LaterPassFacts(water, coffee, t, p);
      ContinueGrams(water, coffee, t, next);
      RoundMonotone(water as real - p.remaining, water as real - next.remaining);
      ConsGrams(Row(water, p), Continue(water, t, next), water);
    } else {
      ConsGrams(Row(water, p), [], water);
    }
  }

  /**
   * With `g` seconds left before the pour time, the time from the last
   * timer strictly before the pour time to the pour time itself.
   */
  function LastGap(g: int, increment: int): int
    requires increment > 0
  {
    g - ((g - 1) / increment) * increment
  }

  /** The last gap is positive, at most the time left, and the whole time left when one increment covers it. */
  lemma LastGapRange(g: int, inc: int)
    requires g >= 1 && inc > 0
    ensures 1 <= LastGap(g, inc) <= g
    ensures g <= inc ==> LastGap(g, inc) == g
  {
    var m := (g - 1) / inc;
    assert m * inc + (g - 1) % inc == g - 1;
    if g <= inc {
      assert m == 0;
    }
  }

  /** One increment later, the last gap before the pour time is the same. */
  lemma LastGapShift(g: int, inc: int)
    requires g > inc > 0
    ensures LastGap(g - inc, inc) == LastGap(g, inc)
  {
    var m := (g - 1) / inc;
    DivOneLess(g - 1, inc);
    assert (g - inc - 1) / inc == m - 1;
    assert (m - 1) * inc == m * inc - inc;
  }

  /**
   * The water still to pour is the first-pass remainder in proportion to
   * the time left: it is at least half a gram exactly when twice the
   * remainder times the time left reaches the pouring span.
   */
  lemma HalfGramLeft(remaining: real, r1: int, g: int, span: int)
    requires span > 0 && remaining * span as real == r1 as real * g as real
    ensures remaining >= 0.5 <==> 2 * r1 * g >= span
  {
    assert (2 * r1 * g) as real == 2.0 * (r1 as real * g as real);
    assert 2.0 * (remaining * span as real) == (2.0 * remaining) * span as real;
  }

  /** With a positive remainder, a shorter time left never needs less than the longer one to reach the span. */
  lemma ShorterGapSmaller(r1: int, gap: int, g: int, span: int)
    requires r1 > 0 && 0 <= gap <= g && 2 * r1 * g < span
    ensures 2 * r1 * gap < span
  {
    assert r1 * gap <= r1 * g;
  }

  /**
   * From a tracking state before the pour time, with water left after the
   * first pass, the last row is stamped with the pour time exactly when at
   * least half a gram is still to pour at the last timer before the pour
   * time, which lies `LastGap` seconds before it.
   */
  lemma {:induction false} ContinueEndsAtPour(water: int, coffee: int, t: Timing, p: Pour)
    requires Tracking(water, coffee, t, p) && AfterFirstPass(water, coffee) > 0 && p.timer < t.pour
    ensures Continue(water, t, p)[|Continue(water, t, p)| - 1].0 == t.pour <==>
            2 * AfterFirstPass(water, coffee) * LastGap(t.pour - p.timer, t.increment) >= t.pour - t.bloom
    decreases t.pour - p.timer
  {
    var r1 := AfterFirstPass(water, coffee);
    var g := t.pour - p.timer;
    var span := t.pour - t.bloom;
    LastGapRange(g, t.increment);
    HalfGramLeft(p.remaining, r1, g, span);
    RoundPositive(p.remaining);
    var rows := Continue(water, t, p);
    if !Pouring(p) {
      assert rows == [Row(water, p)];
      ShorterGapSmaller(r1, LastGap(g, t.increment), g, span);
    } else if p.timer + t.increment > t.pour {
      ClampIsFinal(water, t, p);
    } else if p.timer + t.increment == t.pour {
      var next := LaterPass(t, p);
      LaterPassTracks(water, coffee, t, p);
      TrackingFacts(water, coffee, t, next);
      assert Continue(water, t, next) == [Row(water, next)];
      assert rows == [Row(water, p), Row(water, next)];
    } else {
      var next := LaterPass(t, p);
      LaterPassFacts(water, coffee, t, p);
      ContinueEndsAtPour(water, coffee, t, next);
      LastGapShift(g, t.increment);
      var tail := Continue(water, t, next);
      assert rows == [Row(water, p)] + tail;
      assert rows[|rows| - 1] == tail[|tail| - 1];
    }
  }

  // ---------------------------------------------------------------------
  // Properties of the whole schedule

  /**
   * The first row pours twice the coffee at time 0. That row is the whole
   * schedule exactly when the bloom already uses up the water. Otherwise
   * the second row, at the end of the bloom, has poured four times the
   * coffee, because the first pass pours the bloom amount again; when that
   * uses up the water the schedule ends there, even past the target.
   */
  lemma ScheduleOpening(water: int, coffee: int, t: Timing)
    requires Runs(water, coffee, t)
    ensures var rows := Schedule(water, coffee, t);
            |rows| >= 1 && rows[0] == (0, 2 * coffee) &&
            (|rows| == 1 <==> water - 2 * coffee <= 0) &&
            (water - 2 * coffee > 0 ==> rows[1] == (t.bloom, 4 * coffee)) &&
            (water - 4 * coffee <= 0 < water - 2 * coffee ==> |rows| == 2)
  {
    var start := Start(water, coffee);
    RoundOfInt(water - 2 * coffee);
    if Pouring(start) {
      var p := FirstPass(coffee, t, start);
      assert p.remaining == (water - 4 * coffee) as real;
      assert water as real - p.remaining == (4 * coffee) as real;
      RoundOfInt(4 * coffee);
      RoundOfInt(water - 4 * coffee);
    }
  }

  /** The loop makes at most (pour - bloom) / increment + 2 passes. */
  lemma ScheduleBound(water: int, coffee: int, t: Timing)
    requires ValidTiming(t)
    ensures |Schedule(water, coffee, t)| <= (t.pour - t.bloom) / t.increment + 3
  {
    var start := Start(water, coffee);
    if Pouring(start) {
      ContinueLength(water, t, FirstPass(coffee, t, start));
    }
  }

  /** With water left after the bloom, the schedule is the bloom row followed by the loop's rows. */
  lemma ScheduleSplits(water: int, coffee: int, t: Timing)
    requires ValidTiming(t) && water - 2 * coffee > 0
    ensures Schedule(water, coffee, t)[1..] ==
            Continue(water, t, FirstPass(coffee, t, Start(water, coffee)))
    ensures Tracking(water, coffee, t, FirstPass(coffee, t, Start(water, coffee)))
  {
    RoundOfInt(water - 2 * coffee);
    FirstPassTracks(water, coffee, t);
    DropHead((0, 2 * coffee), Continue(water, t, FirstPass(coffee, t, Start(water, coffee))));
  }

  /**
   * After the bloom row, timestamps strictly increase from the end of the
   * bloom and never pass the pour time; with a non-negative bloom time
   * every timestamp lies between 0 and the pour time.
   */
  lemma ScheduleTimes(water: int, coffee: int, t: Timing)
    requires ValidTiming(t)
    ensures Schedule(water, coffee, t)[0].0 == 0
    ensures TimesWithin(Schedule(water, coffee, t)[1..], t.bloom, t.pour)
    ensures TimesIncrease(Schedule(water, coffee, t)[1..])
    ensures t.bloom >= 0 ==> TimesWithin(Schedule(water, coffee, t), 0, t.pour)
  {
    ScheduleOpening(water, coffee, t);
    var rows := Schedule(water, coffee, t);
    if water - 2 * coffee > 0 {
      ScheduleSplits(water, coffee, t);
      ContinueTimes(water, coffee, t, FirstPass(coffee, t, Start(water, coffee)));
      assert forall i :: 1 <= i < |rows| ==> rows[i] == rows[1..][i - 1];
    } else {
      assert rows[1..] == [];
    }
  }

  /** With a non-negative bloom time, timestamps never decrease over the whole schedule. */
  lemma ScheduleTimesNeverDecrease(water: int, coffee: int, t: Timing)
    requires ValidTiming(t) && t.bloom >= 0
    ensures forall i, j :: 0 <= i < j < |Schedule(water, coffee, t)| ==>
              Schedule(water, coffee, t)[i].0 <= Schedule(water, coffee, t)[j].0
  {
    ScheduleTimes(water, coffee, t);
    var rows := Schedule(water, coffee, t);
    forall i, j | 0 <= i < j < |rows|
      ensures rows[i].0 <= rows[j].0
    {
      if i > 0 {
        assert rows[i] == rows[1..][i - 1] && rows[j] == rows[1..][j - 1];
      }
    }
  }

  /**
   * A row after the bloom row that reaches the pour time, whether by the
   * clamp or by exact increments, is the last row and has poured exactly
   * the target water.
   */
  lemma ScheduleAtPour(water: int, coffee: int, t: Timing)
    requires ValidTiming(t)
    ensures EndsAtPour(Schedule(water, coffee, t)[1..], t.pour, water)
  {
    ScheduleOpening(water, coffee, t);
    if water - 2 * coffee > 0 {
      ScheduleSplits(water, coffee, t);
      ContinueAtPour(water, coffee, t, FirstPass(coffee, t, Start(water, coffee)));
    } else {
      assert Schedule(water, coffee, t)[1..] == [];
    }
  }

  /**
   * The last row has poured at least the target water, and exactly the
   * target whenever the water exceeds both the single and the double bloom.
   */
  lemma ScheduleTarget(water: int, coffee: int, t: Timing)
    requires Runs(water, coffee, t)
    ensures Schedule(water, coffee, t)[|Schedule(water, coffee, t)| - 1].1 >= water
    ensures water > 2 * coffee && water > 4 * coffee ==>
            Schedule(water, coffee, t)[|Schedule(water, coffee, t)| - 1].1 == water
  {
    ScheduleOpening(water, coffee, t);
    if water - 2 * coffee > 0 && AfterFirstPass(water, coffee) > 0 {
      ScheduleSplits(water, coffee, t);
      ContinueTarget(water, coffee, t, FirstPass(coffee, t, Start(water, coffee)));
    }
  }

  /**
   * When the water exceeds both the single and the double bloom, the
   * cumulative grams after the bloom row start at four times the coffee,
   * never decrease and never exceed the target; with non-negative coffee
   * they never decrease from the bloom row on.
   */
  lemma ScheduleGrams(water: int, coffee: int, t: Timing)
    requires ValidTiming(t) && water > 2 * coffee && water > 4 * coffee
    ensures GramsWithin(Schedule(water, coffee, t)[1..], 4 * coffee, water)
    ensures GramsGrow(Schedule(water, coffee, t)[1..])
    ensures coffee >= 0 ==> GramsGrow(Schedule(water, coffee, t))
  {
    ScheduleOpening(water, coffee, t);
    ScheduleSplits(water, coffee, t);
    var p := FirstPass(coffee, t, Start(water, coffee));
    ContinueGrams(water, coffee, t, p);
    assert Row(water, p).1 == 4 * coffee;
    var rows := Schedule(water, coffee, t);
    if coffee >= 0 {
      ConsGrams(rows[0], rows[1..], water);
      assert rows == [rows[0]] + rows[1..];
    }
  }

  /**
   * Once the loop is entered, the schedule ends with the pour time and the
   * full amount of water exactly when water is left after the double bloom
   * and, at the last increment before the pour time, at least half a gram
   * is still to pour. Otherwise the loop stops earlier, when the water still
   * to pour rounds to zero.
   */
  lemma ScheduleEndsAtPour(water: int, coffee: int, t: Timing)
    requires ValidTiming(t) && water > 2 * coffee
    ensures Schedule(water, coffee, t)[|Schedule(water, coffee, t)| - 1] == (t.pour, water) <==>
            AfterFirstPass(water, coffee) > 0 &&
            2 * AfterFirstPass(water, coffee) * LastGap(t.pour - t.bloom, t.increment) >= t.pour - t.bloom
  {
    ScheduleOpening(water, coffee, t);
    ScheduleSplits(water, coffee, t);
    var rows := Schedule(water, coffee, t);
    var p := FirstPass(coffee, t, Start(water, coffee));
    if AfterFirstPass(water, coffee) <= 0 {
      assert rows[|rows| - 1] == (t.bloom, 4 * coffee);
    } else {
      ContinueEndsAtPour(water, coffee, t, p);
      ScheduleAtPour(water, coffee, t);
      var tail := rows[1..];
      assert tail == Continue(water, t, p);
      assert rows[|rows| - 1] == tail[|tail| - 1];
    }
  }

  /**
   * The default brew, 210 g of water and 15 g of coffee poured over 2:30
   * with a 30 s bloom and 10 s increments, ends at 2:30 with all 210 g.
   */
  lemma DefaultBrewEndsAtPour()
    ensures Schedule(210, 15, Timing(150, 30, 10))[|Schedule(210, 15, Timing(150, 30, 10))| - 1] == (150, 210)
  {
    ScheduleEndsAtPour(210, 15, Timing(150, 30, 10));
  }

  /**
   * A small remainder after the double bloom stops the loop before the pour
   * time even when the increment divides the pouring span: 62 g of water and
   * 15 g of coffee leave 2 g, and the last row, though it has poured all
   * 62 g, is stamped before 2:30.
   */
  lemma SmallRemainderStopsEarly()
    ensures var rows := Schedule(62, 15, Timing(150, 30, 10));
            rows[|rows| - 1].0 < 150 && rows[|rows| - 1].1 == 62
  {
    var t := Timing(150, 30, 10);
    ScheduleEndsAtPour(62, 15, t);
    ScheduleTarget(62, 15, t);
    ScheduleTimes(62, 15, t);
    var rows := Schedule(62, 15, t);
    assert rows[|rows| - 1] == rows[1..][|rows| - 2];
  }

  // ---------------------------------------------------------------------
  // The loop as the source writes it

  /** The loop body as written: a timer of zero is taken to mean the first pass. */
  function StepAsWritten(coffee: int, t: Timing, p: Pour): Pour
    requires t.increment != 0 && t.pour != t.bloom
  {
    if p.timer == 0 then FirstPass(coffee, t, p) else LaterPass(t, p)
  }

  /** The rows the loop as written prints in at most `fuel` passes from `p`. */
  function RunAsWritten(water: int, coffee: int, t: Timing, p: Pour, fuel: nat): seq<(int, int)>
    requires t.increment != 0 && t.pour != t.bloom
    decreases fuel
  {
    if fuel == 0 || !Pouring(p) then []
    else
      var next := StepAsWritten(coffee, t, p);
      [Row(water, next)] + RunAsWritten(water, coffee, t, next, fuel - 1)
  }

  /**
   * The timer of the loop as written cannot come back to zero when the bloom
   * time is positive or is not a multiple of the increment.
   */
  predicate TimerAvoidsZero(t: Timing)
    requires t.increment > 0
  {
    t.bloom > 0 || t.bloom % t.increment != 0
  }

  /** Adding the divisor leaves the remainder unchanged. */
  lemma ModShift(x: int, i: int)
    requires i > 0
    ensures (x + i) % i == x % i
  {
    DivUnique(x + i, i, x / i + 1, x % i);
  }

  /** The timer is the bloom time plus a whole number of increments. */
  predicate Aligned(t: Timing, x: int)
    requires t.increment > 0
  {
    t.bloom <= x && x % t.increment == t.bloom % t.increment
  }

  /** An aligned timer is not zero, and stays aligned one increment on. */
  lemma AlignedFacts(t: Timing, x: int)
    requires ValidTiming(t) && TimerAvoidsZero(t) && Aligned(t, x)
    ensures x != 0 && Aligned(t, x + t.increment)
  {
    ModShift(x, t.increment);
  }

  /**
   * From a pass whose timer is the bloom time plus whole increments, the
   * loop as written prints what the corrected loop prints.
   */
  lemma {:induction false} ContinueAsWritten(water: int, coffee: int, t: Timing, p: Pour, fuel: nat)
    requires ValidTiming(t) && TimerAvoidsZero(t)
    requires Aligned(t, p.timer) && p.timer <= t.pour
    requires fuel >= (t.pour - p.timer) / t.increment + 1
    ensures Continue(water, t, p) == [Row(water, p)] + RunAsWritten(water, coffee, t, p, fuel)
    decreases t.pour - p.timer + (if Pouring(p) then 1 else 0)
  {
    if Pouring(p) {
      AlignedFacts(t, p.timer);
      var next := LaterPass(t, p);
      assert RunAsWritten(water, coffee, t, p, fuel) ==
             [Row(water, next)] + RunAsWritten(water, coffee, t, next, fuel - 1);
      if p.timer + t.increment > t.pour {
        ClampedStops(t, p);
      } else {
        DivOneLess(t.pour - p.timer, t.increment);
        ContinueAsWritten(water, coffee, t, next, fuel - 1);
      }
    }
  }

  /**
   * When the bloom time is positive or not a multiple of the increment, the
   * loop as written, given enough passes, prints exactly the schedule: its
   * timer is zero only before the first pass.
   */
  lemma AsWrittenAgrees(water: int, coffee: int, t: Timing, fuel: nat)
    requires ValidTiming(t) && TimerAvoidsZero(t)
    requires fuel >= (t.pour - t.bloom) / t.increment + 2
    ensures Schedule(water, coffee, t) ==
            [(0, 2 * coffee)] + RunAsWritten(water, coffee, t, Start(water, coffee), fuel)
  {
    var start := Start(water, coffee);
    if Pouring(start) {
      ContinueAsWritten(water, coffee, t, FirstPass(coffee, t, start), fuel - 1);
    }
  }

  /**
   * A negative bloom time that is not a multiple of the increment: with
   * 210 g of water, 15 g of coffee, a bloom of -5 s, 10 s increments and a
   * pour time of 20 s, both loops print the same five rows.
   */
  lemma NegativeBloomAgrees()
    ensures Schedule(210, 15, Timing(20, -5, 10)) ==
            [(0, 30)] + RunAsWritten(210, 15, Timing(20, -5, 10), Start(210, 15), 10)
  {
    AsWrittenAgrees(210, 15, Timing(20, -5, 10), 10);
  }

  /**
   * A negative bloom time that is a multiple of the increment also brings
   * the timer of the loop as written back to zero: with 210 g of water,
   * 15 g of coffee, a bloom of -10 s and 10 s increments, its third row
   * goes back to -10 s and pours the bloom water once more, where the
   * corrected loop moves on to 10 s.
   */
  lemma TimerReturnsToZero()
    ensures RunAsWritten(210, 15, Timing(150, -10, 10), Start(210, 15), 3) == [(-10, 60), (0, 69), (-10, 99)]
    ensures Schedule(210, 15, Timing(150, -10, 10))[1..4] == [(-10, 60), (0, 69), (10, 79)]
  {
    var t := Timing(150, -10, 10);
    var s0 := Start(210, 15);
    assert s0 == Pour(0, 180.0, 0.0);
    RoundOfInt(180);
    var s1 := FirstPass(15, t, s0);
    assert s1 == Pour(-10, 150.0, 9.375);
    RoundOfInt(150);
    RoundOfInt(60);
    var s2 := LaterPass(t, s1);
    assert s2 == Pour(0, 140.625, 9.375);
    RoundNear(140.625, 141);
    RoundNear(69.375, 69);
    var again := FirstPass(15, t, s2);
    assert again == Pour(-10, 110.625, 6.9140625);
    RoundNear(110.625, 111);
    RoundNear(99.375, 99);
    var s3 := LaterPass(t, s2);
    assert s3 == Pour(10, 131.25, 9.375);
    RoundNear(131.25, 131);
    RoundNear(78.75, 79);
    assert RunAsWritten(210, 15, t, s0, 3) == [Row(210, s1), Row(210, s2), Row(210, again)];
    var tail := Continue(210, t, s3);
    assert Schedule(210, 15, t) == [(0, 30), Row(210, s1), Row(210, s2)] + tail;
    assert tail[0] == Row(210, s3);
  }

  lemma {:induction false} StallsFrom(water: int, t: Timing, p: Pour, fuel: nat)
    requires ValidTiming(t) && t.bloom == 0 && water >= 1
    requires p.timer == 0 && p.remaining == water as real
    ensures var rows := RunAsWritten(water, 0, t, p, fuel);
            |rows| == fuel && forall i :: 0 <= i < fuel ==> rows[i] == (0, 0)
    decreases fuel
  {
    if fuel > 0 {
      RoundOfInt(water);
      RoundOfInt(0);
      var next := StepAsWritten(0, t, p);
      assert next.timer == 0 && next.remaining == water as real;
      StallsFrom(water, t, next, fuel - 1);
      var rows := RunAsWritten(water, 0, t, p, fuel);
      var tail := RunAsWritten(water, 0, t, next, fuel - 1);
      assert forall i :: 1 <= i < fuel ==> rows[i] == tail[i - 1];
    }
  }

  /**
   * With a bloom time of zero and no coffee, the loop as written never
   * stops: every pass takes the first-pass branch again, leaves the
   * remaining water unchanged and prints (0, 0), however many passes run.
   */
  lemma BloomZeroStalls(water: int, t: Timing, fuel: nat)
    requires ValidTiming(t) && t.bloom == 0 && water >= 1
    ensures var rows := RunAsWritten(water, 0, t, Start(water, 0), fuel);
            |rows| == fuel && forall i :: 0 <= i < fuel ==> rows[i] == (0, 0)
  {
    StallsFrom(water, t, Start(water, 0), fuel);
  }
}
