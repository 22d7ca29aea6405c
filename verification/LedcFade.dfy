/**
 Fading a PWM duty. The hardware moves the duty in a segment of equal steps;
 longer fades are chained by an interrupt service, which ends with one jump
 when less than a step is left.
 */
module LedcFade {
  import opened Sequences

  const STEP_MAX: nat := 1023
  const FIELD_MAX: nat := 1023

  /** What the hardware is configured to do. */
  datatype Segment = Segment(duty: nat, up: bool, steps: nat, cycle: nat, scale: nat)

  /** The driver's record of a fade. */
  datatype Fade = Fade(target: nat, up: bool, cycle: nat, scale: nat) {
    /** How far `duty` is from the target, in the direction of the fade. */
    function Delta(duty: int): int {
      if up then target - duty else duty - target
    }

    /** An upper bound of the PWM periods that are still needed. */
    function Budget(delta: int): int
      requires 0 < scale && 0 <= delta
    {
      delta / scale * cycle + if delta % scale > 0 then 1 else 0
    }
  }

  /** How many whole steps a segment makes. */
  function StepsFor(delta: int, scale: nat): nat
    requires 0 < scale && 0 <= delta
  {
    if delta / scale > STEP_MAX then STEP_MAX else delta / scale
  }

  function Dist(a: nat, b: nat): nat {
    if a > b then a - b else b - a
  }

  /** From `a`, by way of `seen`, straight to `b` and not beyond. */
  ghost predicate Straight(a: int, seen: seq<int>, b: int, up: bool) {
    && (forall i :: 0 <= i < |seen| ==> if up then a <= seen[i] <= b else b <= seen[i] <= a)
    && (forall i, j :: 0 <= i < j < |seen| ==> if up then seen[i] <= seen[j] else seen[j] <= seen[i])
  }

  // ---- Arithmetic --------------------------------------------------------------------

  /** After `s` whole steps of `scale`, as many fewer are left. */
  lemma StepsLeft(delta: nat, scale: nat, s: nat)
    requires 0 < scale && s <= delta / scale
    ensures s * scale <= delta
    ensures (delta - s * scale) / scale == delta / scale - s
    ensures (delta - s * scale) % scale == delta % scale
  {
    var q, r := delta / scale, delta % scale;
    assert delta == q * scale + r;
    TimesLe(s, q, scale);
    assert (q - s) * scale == q * scale - s * scale;
    Quotient(delta - s * scale, q - s, r, scale);
  }

  lemma BudgetSteps(f: Fade, delta: nat, s: nat)
    requires 0 < f.scale && s <= delta / f.scale
    ensures s * f.scale <= delta && f.Budget(delta - s * f.scale) + s * f.cycle == f.Budget(delta)
  {
    StepsLeft(delta, f.scale, s);
    var q := delta / f.scale;
    assert (q - s) * f.cycle + s * f.cycle == q * f.cycle;
  }

  lemma BudgetJump(f: Fade, delta: nat)
    requires 0 < delta <= f.scale && 0 < f.cycle
    ensures f.Budget(delta) >= 1
  {
    if delta == f.scale {
      Quotient(delta, 1, 0, f.scale);
    } else {
      Quotient(delta, 0, delta, f.scale);
    }
  }

  lemma AtLeastOne(delta: nat, scale: nat)
    requires 0 < scale <= delta
    ensures 1 <= delta / scale
  {
    var q, r := delta / scale, delta % scale;
    assert delta == q * scale + r;
    if q <= 0 {
      TimesLe(q, 0, scale);
    }
  }

  lemma BudgetDone(f: Fade)
    requires 0 < f.scale
    ensures f.Budget(0) == 0
  {
    Quotient(0, 0, 0, f.scale);
  }

  /** How a fade of `delta` within `total` periods is set up. */
  function ScaleFor(delta: nat, total: nat): nat
    requires 0 < total
  {
    if total > delta then 1 else (delta + total - 1) / total
  }

  function CycleFor(delta: nat, total: nat): nat
    requires 0 < delta
  {
    if total > delta then total / delta else 1
  }

  lemma Ceiling(delta: nat, total: nat)
    requires 0 < total <= delta
    ensures var c := (delta + total - 1) / total; 0 < c <= delta && delta <= c * total
  {
    var x := delta + total - 1;
    var c, r := x / total, x % total;
    assert x == c * total + r;
    TimesLe(1, total, delta);
    assert (delta + 1) * total == total * delta + total;
    if c > delta {
      TimesLe(delta + 1, c, total);
    } else if c <= 0 {
      TimesLe(c, 0, total);
    }
  }

  /** Steps of a size with which `total` of them suffice. */
  lemma StepsSuffice(delta: nat, scale: nat, total: nat)
    requires 0 < scale && delta <= scale * total
    ensures delta / scale + (if delta % scale > 0 then 1 else 0) <= total
  {
    var q, r := delta / scale, delta % scale;
    assert delta == q * scale + r;
    if q > total {
      TimesLe(total + 1, q, scale);
    }
  }

  lemma CycleSuffices(delta: nat, total: nat)
    requires 0 < delta <= total
    ensures 0 < total / delta && delta * (total / delta) <= total
  {
    var q, r := total / delta, total % delta;
    assert total == q * delta + r;
    if q <= 0 {
      TimesLe(q, 0, delta);
    }
  }

  /** The parameters chosen for a fade keep it within its time. */
  lemma BudgetFits(f: Fade, delta: nat, total: nat)
    requires 0 < delta && 0 < total && f.scale == ScaleFor(delta, total) && f.cycle == CycleFor(delta, total)
    ensures 0 < f.cycle && 0 < f.scale <= delta
    ensures f.Budget(delta) <= total
  {
    if total > delta {
      CycleSuffices(delta, total);
      Quotient(delta, delta, 0, 1);
    } else {
      Ceiling(delta, total);
      StepsSuffice(delta, f.scale, total);
    }
  }

  /** Extending a straight way by steps that do not pass the target. */
  lemma StraightOn(a: int, seen: seq<int>, at: int, next: int, up: bool)
    requires Straight(a, seen, at, up) && if up then a <= at <= next else next <= at <= a
    ensures Straight(a, seen + [next], next, up)
  {
  }

  // ---- The driver and the hardware ------------------------------------------------------

  datatype Result = Ok | InvalidArg

  class Channel {
    const maxDuty: nat
    const freq: nat

    // The hardware: the duty, the periods and duties so far, the configuration.
    var duty: nat
    var config: Segment
    var periods: nat
    var seen: seq<int>

    // The driver's record, and whether the end of a segment interrupts.
    var fade: Fade
    var armed: bool

    constructor (max: nat, frequency: nat)
      ensures maxDuty == max && freq == frequency && duty == 0 && seen == []
      ensures config == Segment(0, true, 0, 0, 0)
    {
      maxDuty, freq, duty, periods, seen := max, frequency, 0, 0, [];
      config, fade, armed := Segment(0, true, 0, 0, 0), Fade(0, true, 0, 0), false;
    }

    /** The hardware runs through the configured segment. */
    method PlaySegment(ghost from: int)
      requires config.up || config.steps * config.scale <= config.duty
      requires config.duty == duty || config.scale == 0
      requires Straight(from, seen, duty, config.up)
      requires if config.up then from <= duty <= config.duty else config.duty <= duty <= from
      modifies this`duty, this`periods, this`seen
      ensures duty == if config.up then config.duty + config.steps * config.scale
                      else config.duty - config.steps * config.scale
      ensures periods == old(periods) + config.steps * config.cycle
      ensures Straight(from, seen, duty, config.up)
      ensures if config.up then from <= duty else duty <= from
    {
      duty := config.duty;
      for i := 0 to config.steps
        invariant duty == if config.up then config.duty + i * config.scale else config.duty - i * config.scale
        invariant periods == old(periods) + i * config.cycle
        invariant Straight(from, seen, duty, config.up)
        invariant if config.up then from <= duty else duty <= from
      {
        Times(i, config.steps, config.scale, config.cycle);
        var next := if config.up then duty + config.scale else duty - config.scale;
        StraightOn(from, seen, duty, next, config.up);
        duty := next;
        periods := periods + config.cycle;
        seen := seen + [next];
      }
    }

    /** The configured segment is the longest one of the fade from here. */
    ghost predicate AtSegment()
      reads this
    {
      && 0 < fade.scale && 0 < fade.cycle && fade.Delta(duty) >= fade.scale
      && config == Segment(duty, fade.up, StepsFor(fade.Delta(duty), fade.scale), fade.cycle, fade.scale)
    }

    /** The configured segment is the jump that ends the fade. */
    ghost predicate AtJump()
      reads this
    {
      && 0 < fade.scale && 0 < fade.cycle && 0 < fade.Delta(duty) <= fade.scale
      && config == Segment(fade.target, fade.up, 1, 1, 0)
    }

    /** Playing the segment costs what it takes off the budget, and does not overshoot. */
    method Advance(ghost from: int)
      requires AtSegment() || AtJump()
      requires Straight(from, seen, duty, fade.up) && if fade.up then from <= duty else duty <= from
      modifies this`duty, this`periods, this`seen
      ensures 0 <= fade.Delta(duty) < old(fade.Delta(duty))
      ensures periods + fade.Budget(fade.Delta(duty)) <= old(periods + fade.Budget(fade.Delta(duty)))
      ensures Straight(from, seen, duty, fade.up) && if fade.up then from <= duty else duty <= from
    {
      ghost var delta := fade.Delta(duty);
      if AtSegment() {
        BudgetSteps(fade, delta, config.steps);
        Quotient(fade.scale, 1, 0, fade.scale);
        AtLeastOne(delta, fade.scale);
        TimesLe(1, config.steps, fade.scale);
      } else {
        BudgetJump(fade, delta);
        BudgetDone(fade);
      }
      PlaySegment(from);
    }

    /** The interrupt service at the end of a segment; tells whether it starts another. */
    method FadeIsr() returns (again: bool)
      requires fade.Delta(duty) >= 0
      modifies this`config
      ensures again <==> duty != fade.target && fade.scale != 0
      ensures again && 0 < fade.cycle ==> AtSegment() || AtJump()
      ensures !again ==> config == old(config)
    {
      if duty == fade.target || fade.scale == 0 {
        return false;
      }
      var delta := if fade.up then fade.target - duty else duty - fade.target;
      var step := StepsFor(delta, fade.scale);
      if delta > fade.scale {
        config := Segment(duty, fade.up, step, fade.cycle, fade.scale);
      } else {
        config := Segment(fade.target, fade.up, 1, 1, 0);
      }
      return true;
    }

    /**
     A whole fade: the chain of segments reaches the target exactly, on a
     straight way, within the budget.
     */
    method FadeStart()
      requires AtSegment() && armed
      modifies this`duty, this`periods, this`seen, this`config
      ensures duty == fade.target
      ensures periods <= old(periods + fade.Budget(fade.Delta(duty)))
      ensures Straight(old(duty), seen, duty, fade.up)
    {
      ghost var from := duty;
      seen := [];
      Advance(from);
      var again := FadeIsr();
      while again
        invariant again ==> AtSegment() || AtJump()
        invariant !again ==> duty == fade.target
        invariant 0 <= fade.Delta(duty)
        invariant periods + fade.Budget(fade.Delta(duty)) <= old(periods + fade.Budget(fade.Delta(duty)))
        invariant Straight(from, seen, duty, fade.up) && if fade.up then from <= duty else duty <= from
        decreases fade.Delta(duty)
      {
        Advance(from);
        again := FadeIsr();
      }
      BudgetDone(fade);
    }

    /** Configures a segment, unless a parameter does not fit its register field. */
    method SetFade(d: nat, up: bool, steps: nat, cycle: nat, scale: nat) returns (res: Result)
      modifies this`config, this`armed
      ensures res == Ok <==> steps <= FIELD_MAX && cycle <= FIELD_MAX && scale <= FIELD_MAX
      ensures config == if res == Ok then Segment(d, up, steps, cycle, scale) else old(config)
    {
      if steps > FIELD_MAX || cycle > FIELD_MAX || scale > FIELD_MAX {
        return InvalidArg;
      }
      armed := false;
      config := Segment(d, up, steps, cycle, scale);
      return Ok;
    }

    /** Prepares a fade with a given step. A parameter that does not fit goes unreported. */
    method SetFadeWithStep(target: nat, scale: nat, cycle: nat) returns (res: Result)
      requires 0 < scale
      modifies this`fade, this`config, this`armed
      ensures res == InvalidArg <==> target > maxDuty
      ensures res == Ok && target != duty ==>
                && armed && fade == Fade(target, target > duty, cycle, scale)
                && (cycle <= FIELD_MAX && scale <= FIELD_MAX ==>
                      config == Segment(duty, target > duty, StepsFor(Dist(target, duty), scale), cycle, scale))
                && (cycle > FIELD_MAX || scale > FIELD_MAX ==> config == old(config))
      ensures target == duty || res == InvalidArg ==> config == old(config) && fade == old(fade)
    {
      if target > maxDuty {
        return InvalidArg;
      }
      armed := false;
      if target == duty {
        return Ok;
      }
      var up := duty <= target;
      fade := Fade(target, up, cycle, scale);
      var steps := StepsFor(if up then target - duty else duty - target, scale);
      var _ := SetFade(duty, up, steps, cycle, scale);
      armed := true;
      return Ok;
    }

    /** Configures the duty to be set at once. */
    method SetDuty(d: nat) returns (res: Result)
      modifies this`config, this`armed
      ensures res == Ok && !armed && config == Segment(d, true, 1, 1, 0)
    {
      armed := false;
      config := Segment(d, true, 1, 1, 0);
      return Ok;
    }

    method Choose(delta: nat, total: nat) returns (scale: nat, cycle: nat)
      requires 0 < delta && 0 < total
      ensures scale == ScaleFor(delta, total) && cycle == CycleFor(delta, total)
    {
      if total > delta {
        scale := 1;
        cycle := total / delta;
      } else {
        cycle := 1;
        scale := (delta + total - 1) / total;
      }
    }

    /** The driver's product is unsigned and wraps around at 32 bits, also for a negative time. */
    function TotalCycles(ms: int): nat {
      ms * freq % 0x1_0000_0000 / 1000
    }

    /**
     Prepares a fade within a given time. The fade is set up exactly when its
     step and its periods per step fit their register fields.
     */
    method SetFadeWithTime(target: nat, ms: int) returns (res: Result)
      modifies this`fade, this`config, this`armed
      ensures res == InvalidArg <==> target > maxDuty
      ensures var delta, total := Dist(target, duty), TotalCycles(ms);
              res == Ok && 0 < delta && 0 < total ==>
                && armed
                && fade == Fade(target, target > duty, CycleFor(delta, total), ScaleFor(delta, total))
                && fade.Budget(delta) <= total
                && if CycleFor(delta, total) <= FIELD_MAX && ScaleFor(delta, total) <= FIELD_MAX then AtSegment()
                   else config == old(config)
      ensures res == Ok && target != duty && TotalCycles(ms) == 0 ==>
                !armed && config == Segment(target, true, 1, 1, 0)
    {
      if target > maxDuty {
        return InvalidArg;
      }
      var delta := if target > duty then target - duty else duty - target;
      if delta == 0 {
        return Ok;
      }
      var total := TotalCycles(ms);
      if total == 0 {
        res := SetDuty(target);
        return;
      }
      var scale, cycle := Choose(delta, total);
      BudgetFits(Fade(target, target > duty, cycle, scale), delta, total);
      res := SetFadeWithStep(target, scale, cycle);
    }

    /**
     A fade within a given time, set up and started: it ends at the target,
     never beyond it on the way, and takes no more periods than it was given.
     */
    method FadeInTime(target: nat, ms: int) returns (res: Result)
      requires target != duty && 0 < TotalCycles(ms)
      requires CycleFor(Dist(target, duty), TotalCycles(ms)) <= FIELD_MAX
      requires ScaleFor(Dist(target, duty), TotalCycles(ms)) <= FIELD_MAX
      modifies this
      ensures res == InvalidArg <==> target > maxDuty
      ensures res == Ok ==>
                && duty == target && periods <= old(periods) + TotalCycles(ms)
                && Straight(old(duty), seen, target, target > old(duty))
    {
      res := SetFadeWithTime(target, ms);
      if res == Ok {
        FadeStart();
      }
    }
  }

  lemma Times(i: nat, n: nat, scale: nat, cycle: nat)
    requires i < n
    ensures (i + 1) * scale == i * scale + scale <= n * scale
    ensures (i + 1) * cycle == i * cycle + cycle
  {
    TimesLe(i + 1, n, scale);
  }

  /**
   A fade by one step within 300 ms at 5 kHz would need 1500 periods in that
   step: it is reported as set up, but the hardware's configuration is the old one.
   */
  method SlowFadeIsNotSetUp() returns (channel: Channel, res: Result)
    ensures fresh(channel) && res == Ok && channel.armed && channel.fade.target == 1
    ensures channel.duty == 0 && channel.config == Segment(0, true, 0, 0, 0)
  {
    channel := new Channel(8191, 5000);
    assert channel.TotalCycles(300) == 1500 && CycleFor(1, 1500) == 1500 && ScaleFor(1, 1500) == 1;
    res := channel.SetFadeWithTime(1, 300);
  }
}
