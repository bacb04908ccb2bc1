/**
What a slot can look like between the first and the last word of a write, read as the
inverter reads it: each word takes effect as it lands.
 */
module Transients {
  import opened Inverter
  import opened Blending
  import opened Schedule

  /** The window runs at minute m, read within one day (an end of 00:00 is end-of-day). */
  predicate Runs(w: TimedWindow, m: nat) {
    !w.IsZero() && MinuteOfDay(w.start) <= m < EndMinuteOfDay(w.end)
  }

  // ------------------------------------------------------------- both directions

  /** A slot is never armed in both directions on the way to a slot that is not. */
  lemma BlendKeepsOneDirection(from: TimedSlot, to: TimedSlot, p: int)
    requires to.Both() ==> from.Both()
    ensures BlendSlot(from, to, p).Both() ==> from.Both()
  {
  }

  lemma DesiredKeepsOneDirection(cfg: Config, slots: TimedSlots, now: nat, i: int)
    requires 0 <= i <= 2
    ensures Desired(cfg, slots, now)[i].Both() ==> slots[i].Both()
  {
  }

  // -------------------------------------------------------------------- clearing

  /** The window b ends no later than w does, and is unset or runs forwards. */
  predicate Shrunk(b: TimedWindow, w: TimedWindow) {
    MinuteOfDay(b.end) <= MinuteOfDay(w.end) && (b.IsZero() || MinuteOfDay(b.start) < MinuteOfDay(b.end))
  }

  predicate Forwards(w: TimedWindow) {
    w.InRange() && MinuteOfDay(w.start) < MinuteOfDay(w.end)
  }

  lemma ShrunkStartHour(w: TimedWindow)
    requires Forwards(w)
    ensures Shrunk(TimedWindow(Clock(0, w.start.minute), w.end), w)
  {
  }

  lemma ShrunkStart(w: TimedWindow)
    requires Forwards(w)
    ensures Shrunk(TimedWindow(MIDNIGHT, w.end), w)
  {
  }

  lemma ShrunkEndHour(w: TimedWindow)
    requires Forwards(w)
    ensures Shrunk(TimedWindow(MIDNIGHT, Clock(0, w.end.minute)), w)
  {
  }

  /** Part-way through a clear the window is unset, or still forwards and over no later. */
  lemma ClearShrinks(w: TimedWindow, p: int)
    requires Forwards(w)
    ensures Shrunk(Blend(w, UNSET, p), w)
  {
    if p <= 0 {
      assert Blend(w, UNSET, p) == w;
    } else if p == 1 {
      ShrunkStartHour(w);
      assert Blend(w, UNSET, p) == TimedWindow(Clock(0, w.start.minute), w.end);
    } else if p == 2 {
      ShrunkStart(w);
      assert Blend(w, UNSET, p) == TimedWindow(MIDNIGHT, w.end);
    } else if p == 3 {
      ShrunkEndHour(w);
      assert Blend(w, UNSET, p) == TimedWindow(MIDNIGHT, Clock(0, w.end.minute));
    } else {
      assert Blend(w, UNSET, p) == UNSET;
    }
  }

  /** Clearing a window that is over never makes it cover the present minute. */
  lemma SafeClear(w: TimedWindow, m: nat, p: int)
    requires Forwards(w) && MinuteOfDay(w.end) <= m < MINUTES_PER_DAY
    ensures !Covers(Blend(w, UNSET, p), m)
  {
    ClearShrinks(w, p);
  }

  lemma MidnightStartCovers(end: Clock, m: nat)
    requires m < MinuteOfDay(end) < MINUTES_PER_DAY
    ensures Covers(TimedWindow(MIDNIGHT, end), m)
  {
    hide MinuteOfDay;
  }

  /** No word of a clear makes the window cover minute m exactly when the window is over by m. */
  lemma ClearExactly(w: TimedWindow, m: nat)
    requires Forwards(w) && m < MINUTES_PER_DAY
    ensures (forall p :: 0 <= p <= 4 ==> !Covers(Blend(w, UNSET, p), m)) <==> MinuteOfDay(w.end) <= m
  {
    hide Covers, MinuteOfDay;
    if MinuteOfDay(w.end) <= m {
      forall p | 0 <= p <= 4 ensures !Covers(Blend(w, UNSET, p), m) {
        SafeClear(w, m, p);
      }
    } else {
      assert Blend(w, UNSET, 2) == TimedWindow(MIDNIGHT, w.end);
      MidnightStartCovers(w.end, m);
    }
  }

  /** Clearing the end before the start would make every such window run on to midnight. */
  lemma EndFirstClearFires(w: TimedWindow, m: nat)
    requires Forwards(w) && 0 < MinuteOfDay(w.start) && MinuteOfDay(w.end) <= m < MINUTES_PER_DAY
    ensures Covers(TimedWindow(w.start, UNSET.end), m)
  {
  }

  // ----------------------------------------------------------------- programming

  lemma HourOrder(a: Clock, b: Clock)
    requires a.InRange() && b.InRange()
    ensures MinuteOfDay(a) < MinuteOfDay(Clock(b.hour, 0)) <==> a.hour < b.hour
  {
  }

  lemma HalfWritten(w: TimedWindow)
    ensures Blend(UNSET, w, 0) == UNSET
    ensures Blend(UNSET, w, 1) == TimedWindow(Clock(w.start.hour, 0), MIDNIGHT)
    ensures Blend(UNSET, w, 2) == TimedWindow(w.start, MIDNIGHT)
    ensures Blend(UNSET, w, 3) == TimedWindow(w.start, Clock(w.end.hour, 0))
    ensures Blend(UNSET, w, 4) == w
  {
  }

  lemma StartOnlyRuns(start: Clock)
    requires start.InRange()
    ensures !Inverted(TimedWindow(start, MIDNIGHT))
  {
  }

  lemma EndHourInverts(w: TimedWindow)
    requires Forwards(w)
    ensures Inverted(TimedWindow(w.start, Clock(w.end.hour, 0))) <==> w.start.hour == w.end.hour && w.end.hour != 0
  {
    HourOrder(w.start, w.end);
    if w.end.hour == 0 {
      StartOnlyRuns(w.start);
    }
  }

  /** Programming an empty slot: when the half-written window is never one that cannot run. */
  lemma ProgramNeverInverts(w: TimedWindow)
    requires Forwards(w)
    ensures (forall p :: 0 <= p <= 4 ==> !Inverted(Blend(UNSET, w, p)))
        <==> w.start.hour != w.end.hour || w.end.hour == 0
  {
    HalfWritten(w);
    StartOnlyRuns(Clock(w.start.hour, 0));
    StartOnlyRuns(w.start);
    EndHourInverts(w);
    assert !Inverted(w);
    forall p | 0 <= p <= 4 && p != 3 ensures !Inverted(Blend(UNSET, w, p)) {
      assert p == 0 || p == 1 || p == 2 || p == 4;
    }
  }

  ghost predicate Contains(outer: TimedWindow, inner: TimedWindow) {
    forall m :: Runs(inner, m) ==> Runs(outer, m)
  }

  /** With only its start written, the window runs from then, or earlier, to midnight. */
  lemma StartOnlyContains(w: TimedWindow, p: int)
    requires Forwards(w)
    requires p == 1 || p == 2
    ensures !Blend(UNSET, w, p).IsZero() ==> Contains(Blend(UNSET, w, p), w)
  {
    var b := Blend(UNSET, w, p);
    assert b == TimedWindow(Clock(w.start.hour, if p == 1 then 0 else w.start.minute), MIDNIGHT);
    assert MinuteOfDay(b.start) <= MinuteOfDay(w.start) by {
      if p == 2 {
        assert b.start == w.start;
      }
    }
  }

  lemma EndHourOnly(w: TimedWindow)
    requires Forwards(w)
    ensures var third := TimedWindow(w.start, Clock(w.end.hour, 0));
            third.IsZero() || Contains(third, w) <==> w.end.minute == 0 || w.end.hour == 0
  {
    var cut := Clock(w.end.hour, 0);
    var third := TimedWindow(w.start, cut);
    if w.end.minute == 0 {
      assert third == w;
    } else if w.end.hour == 0 {
      assert cut == MIDNIGHT;
    } else {
      EndHourBefore(w);
      assert !Contains(third, w);
    }
  }

  lemma EndHourBefore(w: TimedWindow)
    requires Forwards(w) && w.end.minute > 0 && w.end.hour > 0
    ensures var last := MinuteOfDay(w.end) - 1;
            Runs(w, last) && !Runs(TimedWindow(w.start, Clock(w.end.hour, 0)), last)
  {
  }

  /** After p words of programming w into an empty slot, the slot is unset or contains w. */
  ghost predicate ContainsTarget(w: TimedWindow, p: int) {
    Blend(UNSET, w, p).IsZero() || Contains(Blend(UNSET, w, p), w)
  }

  lemma ContainsTargetAt(w: TimedWindow, p: int)
    requires Forwards(w) && 1 <= p <= 4
    ensures ContainsTarget(w, p) <==> p != 3 || w.end.minute == 0 || w.end.hour == 0
  {
    HalfWritten(w);
    if p == 1 || p == 2 {
      StartOnlyContains(w, p);
    } else if p == 3 {
      EndHourOnly(w);
    }
  }

  /** Programming an empty slot: when the half-written window, once set, always contains the target. */
  lemma ProgramContainsTarget(w: TimedWindow)
    requires Forwards(w)
    ensures (forall p :: 1 <= p <= 4 ==> ContainsTarget(w, p)) <==> w.end.minute == 0 || w.end.hour == 0
  {
    ContainsTargetAt(w, 3);
    forall p | 1 <= p <= 4 ensures ContainsTarget(w, p) <==> p != 3 || w.end.minute == 0 || w.end.hour == 0 {
      ContainsTargetAt(w, p);
    }
  }

  /** Replacing a window in place: when some half-written end is later than both ends. */
  lemma ReplaceOvershoots(before: TimedWindow, after: TimedWindow)
    requires before.InRange() && after.InRange()
    ensures (exists p :: 0 <= p <= 4 && MinuteOfDay(Blend(before, after, p).end) > MinuteOfDay(before.end)
                      && MinuteOfDay(Blend(before, after, p).end) > MinuteOfDay(after.end))
       <==> before.end.hour < after.end.hour && after.end.minute < before.end.minute
  {
    var third := Blend(before, after, 3);
    assert third.end == Clock(after.end.hour, before.end.minute);
    forall p | 0 <= p <= 4 && p != 3 ensures Blend(before, after, p).end == before.end
        || Blend(before, after, p).end == after.end {
    }
    if before.end.hour < after.end.hour && after.end.minute < before.end.minute {
      assert MinuteOfDay(third.end) > MinuteOfDay(before.end) && MinuteOfDay(third.end) > MinuteOfDay(after.end);
    }
  }

  /** 14:07-14:15 into an empty slot passes through 14:07-14:00. */
  lemma InvertedTransientExample()
    ensures Inverted(Blend(UNSET, TimedWindow(Clock(14, 7), Clock(14, 15)), 3))
  {
    ProgramNeverInverts(TimedWindow(Clock(14, 7), Clock(14, 15)));
  }

  /** 14:02-14:30 replaced by 14:07-15:00 passes through 14:07-15:30. */
  lemma OvershootExample()
    ensures Blend(TimedWindow(Clock(14, 2), Clock(14, 30)), TimedWindow(Clock(14, 7), Clock(15, 0)), 3)
         == TimedWindow(Clock(14, 7), Clock(15, 30))
  {
  }
}
