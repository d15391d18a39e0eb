/**
 * The terminal animation on the landing page: a tick counter runs from 0
 * to the end of a fixed timeline, one step per interval, and what the
 * terminal shows is read off the tick. Reduced motion stops the interval
 * and the hover/focus restart. The interval's 100 ms period is not
 * modelled; a firing is an explicit step.
 */
module Animations {
  const InstallCmd := "fua create magic-app"

  /** The timeline, in ticks. */
  const TimeCommandEnter := |InstallCmd|
  const TimeCommandRun := TimeCommandEnter + 3
  const TimeCommandEnd := TimeCommandRun + 3
  const TimeWindowOpen := TimeCommandEnd + 1
  const TimeEnd := TimeWindowOpen + 1

  lemma TimelineConstants()
    ensures TimeCommandEnter == 20 && TimeCommandRun == 23 && TimeCommandEnd == 26
    ensures TimeWindowOpen == 27 && TimeEnd == 28
  {
  }

  /** The interval's update `prev >= timeEnd ? prev : prev + 1`. */
  function NextTick(prev: int): (t: int)
    ensures t >= prev
    ensures prev <= TimeEnd ==> t <= TimeEnd
    ensures prev < TimeEnd ==> t == prev + 1
    ensures prev >= TimeEnd ==> t == prev
  {
    if prev >= TimeEnd then prev else prev + 1
  }

  /** The tick after `n` firings. */
  function Ticks(t: int, n: nat): int
    decreases n
  {
    if n == 0 then t else Ticks(NextTick(t), n - 1)
  }

  /** From any tick in the timeline, `n` firings reach `min(t + n, timeEnd)`. */
  lemma {:induction false} TicksClamp(t: int, n: nat)
    requires 0 <= t <= TimeEnd
    ensures Ticks(t, n) == if t + n < TimeEnd then t + n else TimeEnd
    decreases n
  {
    if n > 0 {
      TicksClamp(NextTick(t), n - 1);
    }
  }

  /** `useState(prefersReduced ? timeEnd : 0)` */
  function InitialTick(prefersReduced: bool): (t: int)
    ensures 0 <= t <= TimeEnd
    ensures t == TimeEnd <==> prefersReduced
    ensures t == 0 <==> !prefersReduced
  {
    if prefersReduced then TimeEnd else 0
  }

  /* ---------------- what the terminal shows ---------------- */

  function Min(a: int, b: int): int {
    if a < b then a else b
  }

  /** `installCmd.substring(0, Math.min(tick, timeCommandEnter))` */
  function TypedText(tick: int): (r: string)
    ensures tick <= 0 ==> r == ""
    ensures 0 <= tick <= TimeCommandEnter ==> |r| == tick
    ensures tick >= TimeCommandEnter ==> r == InstallCmd
    ensures r == InstallCmd[..|r|]
  {
    var k := Min(tick, TimeCommandEnter);
    InstallCmd[..if k < 0 then 0 else k]
  }

  /** The blinking cursor is drawn while the command is being typed. */
  predicate CursorShown(tick: int) {
    tick < TimeCommandEnter
  }

  const ItemNames := ["Passion", "Innovation", "Efficiency"]

  /** The pieces of the terminal's content, in order. */
  datatype Line = Command(text: string, cursor: bool) | Space | Response(items: seq<string>)

  /** Item `k` (from 1) of the response is shown once the tick passes `timeCommandRun + k`. */
  function ShownItems(tick: int): (r: seq<string>)
    ensures |r| <= 3 && r == ItemNames[..|r|]
    ensures 1 <= |r| <==> tick > TimeCommandRun + 1
    ensures 2 <= |r| <==> tick > TimeCommandRun + 2
    ensures 3 <= |r| <==> tick > TimeCommandRun + 3
  {
    (if tick > TimeCommandRun + 1 then [ItemNames[0]] else [])
    + (if tick > TimeCommandRun + 2 then [ItemNames[1]] else [])
    + (if tick > TimeCommandRun + 3 then [ItemNames[2]] else [])
  }

  /** The `lines` memo: the command, then a space once it is typed, then the response once it runs. */
  method BuildLines(tick: int) returns (out: seq<Line>)
    ensures |out| >= 1 && out[0] == Command(TypedText(tick), CursorShown(tick))
    ensures Space in out <==> tick >= TimeCommandEnter
    ensures (exists i :: 0 <= i < |out| && out[i].Response?) <==> tick > TimeCommandRun
    ensures tick > TimeCommandRun ==> out[|out| - 1] == Response(ShownItems(tick))
    ensures |out| == 1 + (if tick >= TimeCommandEnter then 1 else 0) + (if tick > TimeCommandRun then 1 else 0)
  {
    out := [];
    out := out + [Command(TypedText(tick), CursorShown(tick))];
    if tick >= TimeCommandEnter {
      out := out + [Space];
    }
    assert forall i :: 0 <= i < |out| ==> !out[i].Response?;
    if tick > TimeCommandRun {
      out := out + [Response(ShownItems(tick))];
      assert out[|out| - 1].Response?;
    }
  }

  /** The preview window is shown once the tick passes `timeWindowOpen`. */
  predicate WindowShown(tick: int) {
    tick > TimeWindowOpen
  }

  /** At the end of the timeline everything is shown and the cursor is gone. */
  lemma FinalFrame()
    ensures TypedText(TimeEnd) == InstallCmd && !CursorShown(TimeEnd)
    ensures ShownItems(TimeEnd) == ItemNames
    ensures WindowShown(TimeEnd)
  {
  }

  /** At tick 0 nothing is typed and only the cursor shows. */
  lemma BlankFrame()
    ensures TypedText(0) == "" && CursorShown(0)
    ensures ShownItems(0) == [] && !WindowShown(0)
  {
  }

  /* ---------------- the component's state ---------------- */

  /**
   * The component's state: the tick, the reduced-motion preference the
   * media-query hook reports, and whether an interval is running.
   */
  class Terminal {
    var tick: int
    var reduced: bool
    var running: bool

    /** The timeline stays within bounds and an interval runs exactly when the effect starts one. */
    predicate Valid()
      reads this
    {
      0 <= tick <= TimeEnd && running == (!reduced && tick < TimeEnd)
    }

    /**
     * The first render: the preference hook starts at `false`, so the
     * tick starts at 0 whatever the real preference is; the effect then
     * starts the interval.
     */
    constructor Mount()
      ensures Valid()
      ensures tick == 0 && !reduced && running
    {
      reduced := false;
      tick := InitialTick(false);
      running := true;
    }

    /** The interval effect, re-run whenever `tick` or the preference changes. */
    method Effect()
      modifies this`running
      ensures running == (!reduced && tick < TimeEnd)
    {
      running := false;
      if reduced {
        return;
      }
      if tick >= TimeEnd {
        return;
      }
      running := true;
    }

    /** The media query reports a preference; the tick is left as it is (as written). */
    method MediaChange(matches: bool)
      requires Valid()
      modifies this
      ensures Valid()
      ensures reduced == matches && tick == old(tick)
    {
      reduced := matches;
      Effect();
    }

    /** The media query reports a preference, and a reduced one jumps to the final frame. */
    method MediaChangeIntended(matches: bool)
      requires Valid()
      modifies this
      ensures Valid()
      ensures reduced == matches
      ensures matches ==> tick == TimeEnd
      ensures !matches ==> tick == old(tick)
    {
      reduced := matches;
      if matches {
        tick := TimeEnd;
      }
      Effect();
    }

    /** One firing of the interval, if one is running. */
    method Fire()
      requires Valid()
      modifies this
      ensures Valid()
      ensures reduced == old(reduced)
      ensures old(running) ==> tick == NextTick(old(tick))
      ensures !old(running) ==> tick == old(tick)
    {
      if running {
        tick := NextTick(tick);
        Effect();
      }
    }

    /** `restart`: back to 0 only when motion is allowed and the timeline has ended. */
    method Restart()
      requires Valid()
      modifies this
      ensures Valid()
      ensures reduced == old(reduced)
      ensures !old(reduced) && old(tick) >= TimeEnd ==> tick == 0 && running
      ensures old(reduced) || old(tick) < TimeEnd ==> tick == old(tick) && running == old(running)
    {
      if reduced {
        return;
      }
      if tick >= TimeEnd {
        tick := 0;
        Effect();
      }
    }

    /** `n` firings in a row. */
    method Run(n: nat)
      requires Valid()
      modifies this
      ensures Valid()
      ensures reduced == old(reduced)
      ensures !reduced ==> tick == Ticks(old(tick), n)
      ensures reduced ==> tick == old(tick)
    {
      var i := 0;
      while i < n
        invariant 0 <= i <= n
        invariant Valid()
        invariant reduced == old(reduced)
        invariant !reduced ==> tick == Ticks(old(tick), i)
        invariant reduced ==> tick == old(tick)
      {
        Fire();
        if !reduced {
          TicksStep(old(tick), i);
        }
        i := i + 1;
      }
    }
  }

  /** One more firing after `n`. */
  lemma {:induction false} TicksStep(t: int, n: nat)
    ensures Ticks(t, n + 1) == NextTick(Ticks(t, n))
    decreases n
  {
    if n > 0 {
      TicksStep(NextTick(t), n - 1);
    }
  }

  /** With motion allowed, a full run from mount ends on the final frame. */
  method PlayThrough() returns (t: Terminal)
    ensures t.Valid() && t.tick == TimeEnd && WindowShown(t.tick)
  {
    t := new Terminal.Mount();
    t.Run(TimeEnd);
    TicksClamp(0, TimeEnd);
  }

  /**
   * With reduced motion the hook reports it only after the first render,
   * when the tick has already started at 0: the interval stops, `restart`
   * does nothing, and the terminal stays on its blank first frame.
   */
  method ReducedMotionStaysBlank(n: nat) returns (t: Terminal)
    ensures t.Valid() && t.reduced
    ensures t.tick == 0 && !WindowShown(t.tick) && TypedText(t.tick) == ""
  {
    t := new Terminal.Mount();
    t.MediaChange(true);
    t.Run(n);
    t.Restart();
  }

  /** With the preference applied to the tick, reduced motion shows the final frame and keeps it. */
  method ReducedMotionShowsFinalFrame(n: nat) returns (t: Terminal)
    ensures t.Valid() && t.reduced
    ensures t.tick == TimeEnd && WindowShown(t.tick) && TypedText(t.tick) == InstallCmd
  {
    t := new Terminal.Mount();
    t.MediaChangeIntended(true);
    t.Run(n);
    t.Restart();
    FinalFrame();
  }
}
