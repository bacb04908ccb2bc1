/**
Runs of schedule reconciles. A visit is one reconcile at one minute, stopped by the link
after some number of the twenty-four schedule words hold their desired value; a complete
visit is one that got through all of them.
 */
module Visits {
  import opened Inverter
  import opened Blending
  import opened Schedule
  import opened Transients

  datatype Visit = Visit(now: nat, words: nat) {
    predicate Complete() {
      words >= ALL_WORDS
    }
  }

  function After(cfg: Config, slots: TimedSlots, v: Visit): TimedSlots {
    BlendSlots(slots, Desired(cfg, slots, v.now), v.words)
  }

  function AfterAll(cfg: Config, slots: TimedSlots, visits: seq<Visit>): TimedSlots
    decreases |visits|
  {
    if visits == [] then slots else AfterAll(cfg, After(cfg, slots, visits[0]), visits[1..])
  }

  lemma {:induction false} AfterAppend(cfg: Config, slots: TimedSlots, front: seq<Visit>, back: seq<Visit>)
    ensures AfterAll(cfg, slots, front + back) == AfterAll(cfg, AfterAll(cfg, slots, front), back)
    decreases |front|
  {
    if front == [] {
      assert front + back == back;
    } else {
      assert (front + back)[1..] == front[1..] + back;
      AfterAppend(cfg, After(cfg, slots, front[0]), front[1..], back);
    }
  }

  // ------------------------------------------------------------------ convergence

  /** How many registers differ from the schedule the manager would now want. */
  function Measure(cfg: Config, slots: TimedSlots, now: nat): nat {
    Distance(Desired(cfg, slots, now), slots)
  }

  lemma KeptBlendNoFurther(w: TimedWindow, now: nat, p: int)
    ensures var b := Blend(w, Kept(w, now), p);
            WindowDistance(Kept(b, now), b) <= WindowDistance(Kept(w, now), b)
  {
    if Live(w, now) {
      assert Blend(w, Kept(w, now), p) == w;
    }
  }

  lemma BoostNoFurther(slot: TimedSlot, now: nat, p: int)
    ensures var b := BlendSlot(slot, Running(slot, now), p);
            SlotDistance(Running(b, now), b) <= SlotDistance(Running(slot, now), b)
  {
    var last := ChargeLast(Running(slot, now));
    var charge := Blend(slot.charge, Kept(slot.charge, now), if last then p - 4 else p);
    var discharge := Blend(slot.discharge, Kept(slot.discharge, now), if last then p else p - 4);
    assert BlendSlot(slot, Running(slot, now), p) == TimedSlot(charge, discharge);
    KeptBlendNoFurther(slot.charge, now, if last then p - 4 else p);
    KeptBlendNoFurther(slot.discharge, now, if last then p else p - 4);
  }

  lemma SlotDistanceSelf(slot: TimedSlot)
    ensures SlotDistance(slot, slot) == 0
  {
  }

  lemma SlotNoFurther(cfg: Config, slots: TimedSlots, v: Visit, i: int)
    requires 0 <= i <= 2
    ensures var next := After(cfg, slots, v);
            SlotDistance(Desired(cfg, next, v.now)[i], next[i]) <= SlotDistance(Desired(cfg, slots, v.now)[i], next[i])
  {
    var next := After(cfg, slots, v);
    SlotDistanceSelf(next[i]);
    if i == 2 {
      BoostNoFurther(slots[2], v.now, v.words - 2 * SLOT_WORDS);
    } else if cfg.Asserts() {
      assert Desired(cfg, next, v.now)[i] == Desired(cfg, slots, v.now)[i];
    } else {
      assert Desired(cfg, next, v.now)[i] == next[i];
    }
  }

  lemma DistanceMonotone(a: TimedSlots, b: TimedSlots, c: TimedSlots)
    requires SlotDistance(a[0], c[0]) <= SlotDistance(b[0], c[0])
    requires SlotDistance(a[1], c[1]) <= SlotDistance(b[1], c[1])
    requires SlotDistance(a[2], c[2]) <= SlotDistance(b[2], c[2])
    ensures Distance(a, c) <= Distance(b, c)
  {
  }

  /** Wherever the link cuts it, a visit takes every register it changed off the recomputed measure. */
  lemma VisitLowersMeasure(cfg: Config, slots: TimedSlots, v: Visit)
    ensures var next := After(cfg, slots, v);
            Measure(cfg, next, v.now) + Distance(next, slots) <= Measure(cfg, slots, v.now)
  {
    var want := Desired(cfg, slots, v.now);
    var next := After(cfg, slots, v);
    var again := Desired(cfg, next, v.now);
    BlendTowards(slots, want, v.words);
    SlotNoFurther(cfg, slots, v, 0);
    SlotNoFurther(cfg, slots, v, 1);
    SlotNoFurther(cfg, slots, v, 2);
    DistanceMonotone(again, want, next);
  }

  /** The visits of one minute, each stopped after the given number of words. */
  function Sweep(cfg: Config, slots: TimedSlots, now: nat, cuts: seq<nat>): TimedSlots
    decreases |cuts|
  {
    if cuts == [] then slots else Sweep(cfg, After(cfg, slots, Visit(now, cuts[0])), now, cuts[1..])
  }

  /** Registers changed over the whole sweep, every change counted. */
  function Changed(cfg: Config, slots: TimedSlots, now: nat, cuts: seq<nat>): nat
    decreases |cuts|
  {
    if cuts == [] then 0
    else
      var next := After(cfg, slots, Visit(now, cuts[0]));
      Distance(next, slots) + Changed(cfg, next, now, cuts[1..])
  }

  /** Every visit of the sweep changed a register, unless there was nothing left to change. */
  predicate Progresses(cfg: Config, slots: TimedSlots, now: nat, cuts: seq<nat>)
    decreases |cuts|
  {
    cuts == [] ||
    var next := After(cfg, slots, Visit(now, cuts[0]));
    (Measure(cfg, slots, now) == 0 || next != slots) && Progresses(cfg, next, now, cuts[1..])
  }

  /** Registers changed in one minute, however often it is retried, never exceed those that differed. */
  lemma {:induction false} SweepWear(cfg: Config, slots: TimedSlots, now: nat, cuts: seq<nat>)
    ensures Measure(cfg, Sweep(cfg, slots, now, cuts), now) + Changed(cfg, slots, now, cuts) <= Measure(cfg, slots, now)
    ensures Measure(cfg, slots, now) <= ALL_WORDS
    decreases |cuts|
  {
    DistanceBound(Desired(cfg, slots, now), slots);
    if cuts != [] {
      VisitLowersMeasure(cfg, slots, Visit(now, cuts[0]));
      SweepWear(cfg, After(cfg, slots, Visit(now, cuts[0])), now, cuts[1..]);
    }
  }

  /** As many progressing visits as registers differed, at most 24, reach the desired schedule. */
  lemma {:induction false} SweepConverges(cfg: Config, slots: TimedSlots, now: nat, cuts: seq<nat>)
    requires Progresses(cfg, slots, now, cuts) && |cuts| >= Measure(cfg, slots, now)
    ensures var last := Sweep(cfg, slots, now, cuts); Desired(cfg, last, now) == last
    decreases |cuts|
  {
    DistanceBound(Desired(cfg, slots, now), slots);
    if cuts != [] {
      var next := After(cfg, slots, Visit(now, cuts[0]));
      VisitLowersMeasure(cfg, slots, Visit(now, cuts[0]));
      DistanceBound(next, slots);
      SweepConverges(cfg, next, now, cuts[1..]);
    }
  }

  // -------------------------------------------------------- the life of one boost

  /** Slot 3 is visited on its own: the tariff slots before it only use up words. */
  lemma BoostSlotAfter(cfg: Config, slots: TimedSlots, v: Visit)
    ensures After(cfg, slots, v)[2] == BlendSlot(slots[2], Running(slots[2], v.now), v.words - 2 * SLOT_WORDS)
  {
  }

  /** A boost as planned at T: it starts at T's minute and ends later that day. */
  predicate Planned(w: TimedWindow, T: nat) {
    Forwards(w) && MinuteOfDay(w.start) == MinuteOf(T)
  }

  function Length(w: TimedWindow): nat
    requires Forwards(w)
  {
    MinuteOfDay(w.end) - MinuteOfDay(w.start)
  }

  /** Within the day of T, the minute advances with the time; within the next, it starts over. */
  lemma {:induction false} SameDay(T: nat, now: nat)
    requires T <= now && MinuteOf(T) + (now - T) < MINUTES_PER_DAY
    ensures MinuteOf(now) == MinuteOf(T) + (now - T)
    decreases T
  {
    if T >= MINUTES_PER_DAY {
      SameDay(T - MINUTES_PER_DAY, now - MINUTES_PER_DAY);
    }
  }

  lemma {:induction false} NextDay(T: nat, now: nat)
    requires T <= now && MINUTES_PER_DAY <= MinuteOf(T) + (now - T) < 2 * MINUTES_PER_DAY
    ensures MinuteOf(now) == MinuteOf(T) + (now - T) - MINUTES_PER_DAY
    decreases T
  {
    if T >= MINUTES_PER_DAY {
      NextDay(T - MINUTES_PER_DAY, now - MINUTES_PER_DAY);
    } else {
      assert MinuteOf(now) == MinuteOf(now - MINUTES_PER_DAY);
    }
  }

  lemma VisitKeepsLive(cfg: Config, slots: TimedSlots, mode: Mode, w: TimedWindow, v: Visit)
    requires slots[2] == SlotFor(mode, w) && Live(w, v.now)
    ensures After(cfg, slots, v)[2] == slots[2]
  {
    BoostSlotAfter(cfg, slots, v);
    assert Running(slots[2], v.now) == slots[2];
  }

  /** While it lasts, a boost is untouched by every reconcile. */
  lemma {:induction false} BoostUntouched(cfg: Config, slots: TimedSlots, mode: Mode, w: TimedWindow, T: nat,
      visits: seq<Visit>)
    requires Planned(w, T) && slots[2] == SlotFor(mode, w)
    requires forall v :: v in visits ==> T <= v.now < T + Length(w)
    ensures AfterAll(cfg, slots, visits)[2] == slots[2]
    decreases |visits|
  {
    if visits != [] {
      var v := visits[0];
      assert v in visits;
      SameDay(T, v.now);
      VisitKeepsLive(cfg, slots, mode, w, v);
      BoostUntouched(cfg, After(cfg, slots, v), mode, w, T, visits[1..]);
    }
  }

  /** Neither window of the slot ends after minute e (a missing end, 00:00, counts as minute 0). */
  predicate EndsBy(slot: TimedSlot, e: nat) {
    MinuteOfDay(slot.charge.end) <= e && MinuteOfDay(slot.discharge.end) <= e
  }

  lemma ClearEndsNoLater(w: TimedWindow, p: int)
    ensures MinuteOfDay(Blend(w, UNSET, p).end) <= MinuteOfDay(w.end)
  {
    assert p == 3 ==> Blend(w, UNSET, p).end == Clock(0, w.end.minute);
  }

  lemma KeptEndsNoLater(w: TimedWindow, now: nat, p: int)
    ensures MinuteOfDay(Blend(w, Kept(w, now), p).end) <= MinuteOfDay(w.end)
  {
    if Live(w, now) {
      assert Blend(w, w, p) == w;
    } else {
      ClearEndsNoLater(w, p);
    }
  }

  lemma VisitEndsNoLater(cfg: Config, slots: TimedSlots, v: Visit, e: nat)
    requires EndsBy(slots[2], e)
    ensures EndsBy(After(cfg, slots, v)[2], e)
  {
    BoostSlotAfter(cfg, slots, v);
    KeptEndsNoLater(slots[2].charge, v.now, v.words - 16);
    KeptEndsNoLater(slots[2].charge, v.now, v.words - 20);
    KeptEndsNoLater(slots[2].discharge, v.now, v.words - 16);
    KeptEndsNoLater(slots[2].discharge, v.now, v.words - 20);
  }

  /** No run of reconciles, however cut, ever moves an end in slot 3 later. */
  lemma {:induction false} RunEndsNoLater(cfg: Config, slots: TimedSlots, visits: seq<Visit>, e: nat)
    requires EndsBy(slots[2], e)
    ensures EndsBy(AfterAll(cfg, slots, visits)[2], e)
    decreases |visits|
  {
    if visits != [] {
      VisitEndsNoLater(cfg, slots, visits[0], e);
      RunEndsNoLater(cfg, After(cfg, slots, visits[0]), visits[1..], e);
    }
  }

  /** A complete visit after every end has passed empties the slot. */
  lemma LateVisitEmpties(cfg: Config, slots: TimedSlots, v: Visit, e: nat)
    requires EndsBy(slots[2], e) && e <= MinuteOf(v.now) && v.Complete()
    ensures After(cfg, slots, v)[2] == EMPTY
  {
    BoostSlotAfter(cfg, slots, v);
    assert Running(slots[2], v.now) == EMPTY;
  }

  lemma {:induction false} EmptyStaysEmpty(cfg: Config, slots: TimedSlots, visits: seq<Visit>)
    requires slots[2] == EMPTY
    ensures AfterAll(cfg, slots, visits)[2] == EMPTY
    decreases |visits|
  {
    if visits != [] {
      BoostSlotAfter(cfg, slots, visits[0]);
      EmptyStaysEmpty(cfg, After(cfg, slots, visits[0]), visits[1..]);
    }
  }

  lemma EmptyFrom(cfg: Config, slots: TimedSlots, visits: seq<Visit>, i: nat)
    requires i <= |visits| && AfterAll(cfg, slots, visits[..i])[2] == EMPTY
    ensures AfterAll(cfg, slots, visits)[2] == EMPTY
  {
    assert visits == visits[..i] + visits[i..];
    AfterAppend(cfg, slots, visits[..i], visits[i..]);
    EmptyStaysEmpty(cfg, AfterAll(cfg, slots, visits[..i]), visits[i..]);
  }

  lemma AfterNext(cfg: Config, slots: TimedSlots, visits: seq<Visit>, i: nat)
    requires i < |visits|
    ensures AfterAll(cfg, slots, visits[..i + 1]) == After(cfg, AfterAll(cfg, slots, visits[..i]), visits[i])
  {
    assert visits[..i + 1] == visits[..i] + [visits[i]];
    AfterAppend(cfg, slots, visits[..i], [visits[i]]);
    var before := AfterAll(cfg, slots, visits[..i]);
    assert AfterAll(cfg, before, [visits[i]]) == AfterAll(cfg, After(cfg, before, visits[i]), []);
  }

  // ------------------------------------------------------------ how long it lingers

  /** Visits come in time order, none before `from`. */
  predicate Ordered(visits: seq<Visit>, from: nat) {
    && (forall i :: 0 <= i < |visits| ==> from <= visits[i].now)
    && (forall i, j :: 0 <= i < j < |visits| ==> visits[i].now <= visits[j].now)
  }

  predicate CompleteWithin(visits: seq<Visit>, t: nat, gap: nat) {
    exists i :: 0 <= i < |visits| && visits[i].Complete() && t <= visits[i].now < t + gap
  }

  /** Between `from` and `until`, every `gap` minutes hold a complete visit. */
  ghost predicate Regular(visits: seq<Visit>, from: nat, until: nat, gap: nat) {
    forall t :: from <= t && t + gap <= until ==> CompleteWithin(visits, t, gap)
  }

  /** Each visit leaves slot 3's words alone or writes all of them. */
  predicate Whole(visits: seq<Visit>) {
    forall v :: v in visits ==> v.words <= 2 * SLOT_WORDS || v.Complete()
  }

  /** The run sees the boost planned at T, then a complete visit at least every gap minutes past its end. */
  ghost predicate Watched(slots: TimedSlots, visits: seq<Visit>, mode: Mode, w: TimedWindow, T: nat, gap: nat)
    requires Forwards(w)
  {
    slots[2] == SlotFor(mode, w) && Ordered(visits, T) && Regular(visits, T, T + Length(w) + gap, gap)
  }

  /** One gap after its end, the boost is gone in every run, wherever its visits were cut. */
  ghost predicate GoneDespiteFaults(cfg: Config, mode: Mode, w: TimedWindow, T: nat, gap: nat)
    requires Planned(w, T)
  {
    forall slots, visits :: Watched(slots, visits, mode, w, T, gap) ==> AfterAll(cfg, slots, visits)[2] == EMPTY
  }

  /** The same over the runs in which no visit stops inside slot 3. */
  ghost predicate GoneWhenWhole(cfg: Config, mode: Mode, w: TimedWindow, T: nat, gap: nat)
    requires Planned(w, T)
  {
    forall slots, visits :: Watched(slots, visits, mode, w, T, gap) && Whole(visits)
        ==> AfterAll(cfg, slots, visits)[2] == EMPTY
  }

  lemma SeenAfterEnd(slots: TimedSlots, visits: seq<Visit>, mode: Mode, w: TimedWindow, T: nat, gap: nat)
      returns (i: nat)
    requires Planned(w, T) && Watched(slots, visits, mode, w, T, gap)
    ensures i < |visits| && visits[i].Complete() && T + Length(w) <= visits[i].now < T + Length(w) + gap
  {
    var over := T + Length(w);
    assert CompleteWithin(visits, over, gap);
    i :| 0 <= i < |visits| && visits[i].Complete() && over <= visits[i].now < over + gap;
  }

  lemma GoneSameDay(cfg: Config, slots: TimedSlots, visits: seq<Visit>, mode: Mode, w: TimedWindow, T: nat, gap: nat)
    requires Planned(w, T) && Watched(slots, visits, mode, w, T, gap)
    requires MinuteOfDay(w.end) + gap <= MINUTES_PER_DAY
    ensures AfterAll(cfg, slots, visits)[2] == EMPTY
  {
    var i := SeenAfterEnd(slots, visits, mode, w, T, gap);
    var e := MinuteOfDay(w.end);
    RunEndsNoLater(cfg, slots, visits[..i], e);
    SameDay(T, visits[i].now);
    LateVisitEmpties(cfg, AfterAll(cfg, slots, visits[..i]), visits[i], e);
    AfterNext(cfg, slots, visits, i);
    EmptyFrom(cfg, slots, visits, i + 1);
  }

  lemma {:induction false} WholeKeepsOrEmpties(cfg: Config, slots: TimedSlots, visits: seq<Visit>)
    requires Whole(visits) && !slots[2].Both()
    ensures AfterAll(cfg, slots, visits)[2] == slots[2] || AfterAll(cfg, slots, visits)[2] == EMPTY
    decreases |visits|
  {
    if visits != [] {
      var v := visits[0];
      assert v in visits;
      BoostSlotAfter(cfg, slots, v);
      var next := After(cfg, slots, v);
      assert next[2] == slots[2] || next[2] == Running(slots[2], v.now);
      assert Running(slots[2], v.now) == slots[2] || Running(slots[2], v.now) == EMPTY;
      WholeKeepsOrEmpties(cfg, next, visits[1..]);
    }
  }

  lemma OverWithinADay(w: TimedWindow, T: nat, now: nat)
    requires Planned(w, T) && T + Length(w) <= now < T + MINUTES_PER_DAY
    ensures !Live(w, now)
  {
    if MinuteOf(T) + (now - T) < MINUTES_PER_DAY {
      SameDay(T, now);
    } else {
      NextDay(T, now);
    }
  }

  lemma OverEmpties(cfg: Config, slots: TimedSlots, mode: Mode, w: TimedWindow, v: Visit)
    requires slots[2] == SlotFor(mode, w) || slots[2] == EMPTY
    requires !Live(w, v.now) && v.Complete()
    ensures After(cfg, slots, v)[2] == EMPTY
  {
    BoostSlotAfter(cfg, slots, v);
    assert Running(slots[2], v.now) == EMPTY;
  }

  lemma GoneWithinADay(cfg: Config, slots: TimedSlots, visits: seq<Visit>, mode: Mode, w: TimedWindow, T: nat, gap: nat)
    requires Planned(w, T) && Watched(slots, visits, mode, w, T, gap) && Whole(visits)
    requires Length(w) + gap <= MINUTES_PER_DAY
    ensures AfterAll(cfg, slots, visits)[2] == EMPTY
  {
    var i := SeenAfterEnd(slots, visits, mode, w, T, gap);
    var now := visits[i].now;
    var before := AfterAll(cfg, slots, visits[..i]);
    WholeKeepsOrEmpties(cfg, slots, visits[..i]);
    OverWithinADay(w, T, now);
    assert before[2] == SlotFor(mode, w) || before[2] == EMPTY;
    OverEmpties(cfg, before, mode, w, visits[i]);
    AfterNext(cfg, slots, visits, i);
    EmptyFrom(cfg, slots, visits, i + 1);
  }

  /** A complete visit in every minute of the boost. */
  function Minutely(T: nat, length: nat): seq<Visit> {
    seq(length, k requires 0 <= k < length => Visit(T + k, ALL_WORDS))
  }

  lemma WatchedMinutely(slots: TimedSlots, mode: Mode, w: TimedWindow, T: nat, gap: nat, tail: seq<Visit>)
    requires Planned(w, T) && slots[2] == SlotFor(mode, w) && gap >= 1
    requires Ordered(tail, T + Length(w)) && CompleteWithin(tail, T + Length(w), gap)
    ensures Watched(slots, Minutely(T, Length(w)) + tail, mode, w, T, gap)
  {
    var head := Minutely(T, Length(w));
    var visits := head + tail;
    forall t | T <= t && t + gap <= T + Length(w) + gap
      ensures CompleteWithin(visits, t, gap)
    {
      if t < T + Length(w) {
        assert visits[t - T] == Visit(t, ALL_WORDS);
      } else {
        var i :| 0 <= i < |tail| && tail[i].Complete() && t <= tail[i].now < t + gap;
        assert visits[|head| + i] == tail[i];
      }
    }
  }

  lemma MinutelyKeeps(cfg: Config, slots: TimedSlots, mode: Mode, w: TimedWindow, T: nat, tail: seq<Visit>)
    requires Planned(w, T) && slots[2] == SlotFor(mode, w)
    ensures AfterAll(cfg, slots, Minutely(T, Length(w)) + tail)
        == AfterAll(cfg, AfterAll(cfg, slots, Minutely(T, Length(w))), tail)
    ensures AfterAll(cfg, slots, Minutely(T, Length(w)))[2] == slots[2]
  {
    AfterAppend(cfg, slots, Minutely(T, Length(w)), tail);
    BoostUntouched(cfg, slots, mode, w, T, Minutely(T, Length(w)));
  }

  /** The word count of a visit that is cut once slot 3's start has been cleared. */
  function StartCleared(mode: Mode): nat {
    if mode == Discharge then 2 * SLOT_WORDS + 6 else 2 * SLOT_WORDS + 2
  }

  lemma StartClearedLeaves(mode: Mode, w: TimedWindow)
    requires mode != Off
    ensures BlendSlot(SlotFor(mode, w), EMPTY, StartCleared(mode) - 2 * SLOT_WORDS)
        == SlotFor(mode, TimedWindow(MIDNIGHT, w.end))
  {
    assert Blend(w, UNSET, 2) == TimedWindow(MIDNIGHT, w.end);
  }

  lemma AfterTwo(cfg: Config, slots: TimedSlots, a: Visit, b: Visit)
    ensures AfterAll(cfg, slots, [a, b]) == After(cfg, After(cfg, slots, a), b)
  {
    var both := [a, b];
    AfterNext(cfg, slots, both, 0);
    AfterNext(cfg, slots, both, 1);
    assert both[..0] == [] && both[..2] == both;
  }

  lemma OverThenLive(w: TimedWindow, over: nat, midnight: nat)
    requires Forwards(w) && MinuteOf(over) == MinuteOfDay(w.end) && MinuteOf(midnight) == 0
    ensures !Live(w, over) && Live(TimedWindow(MIDNIGHT, w.end), midnight)
  {
  }

  /** Cut part-way through its clear to a window that is live when next visited, a boost stays as that window. */
  lemma RemnantKept(cfg: Config, slots: TimedSlots, mode: Mode, w: TimedWindow, r: TimedWindow, cut: Visit, last: Visit)
    requires slots[2] == SlotFor(mode, w) && !Live(w, cut.now) && Live(r, last.now)
    requires BlendSlot(SlotFor(mode, w), EMPTY, cut.words - 2 * SLOT_WORDS) == SlotFor(mode, r)
    ensures AfterAll(cfg, slots, [cut, last])[2] == SlotFor(mode, r)
  {
    BoostSlotAfter(cfg, slots, cut);
    assert Running(slots[2], cut.now) == EMPTY;
    VisitKeepsLive(cfg, After(cfg, slots, cut), mode, r, last);
    AfterTwo(cfg, slots, cut, last);
  }

  lemma MidnightAhead(w: TimedWindow, T: nat, gap: nat)
    requires Planned(w, T) && MinuteOfDay(w.end) + gap > MINUTES_PER_DAY
    ensures var over, midnight := T + Length(w), T + MINUTES_PER_DAY - MinuteOf(T);
            && over <= midnight < over + gap
            && MinuteOf(over) == MinuteOfDay(w.end) && MinuteOf(midnight) == 0
  {
    SameDay(T, T + Length(w));
    NextDay(T, T + MINUTES_PER_DAY - MinuteOf(T));
  }

  /** The run that outlives its boost w as the window r: cut just after the end, next complete at midnight. */
  lemma LingeringRun(cfg: Config, slots: TimedSlots, mode: Mode, w: TimedWindow, r: TimedWindow, T: nat, gap: nat,
      midnight: nat) returns (visits: seq<Visit>)
    requires Planned(w, T) && gap >= 1 && slots[2] == SlotFor(mode, w)
    requires T + Length(w) <= midnight < T + Length(w) + gap
    requires !Live(w, T + Length(w)) && Live(r, midnight)
    requires BlendSlot(SlotFor(mode, w), EMPTY, StartCleared(mode) - 2 * SLOT_WORDS) == SlotFor(mode, r)
    ensures Watched(slots, visits, mode, w, T, gap)
    ensures AfterAll(cfg, slots, visits)[2] == SlotFor(mode, r)
  {
    hide MinuteOfDay, Live;
    var tail := [Visit(T + Length(w), StartCleared(mode)), Visit(midnight, ALL_WORDS)];
    assert tail[1].Complete() && tail[1].now == midnight;
    WatchedMinutely(slots, mode, w, T, gap, tail);
    MinutelyKeeps(cfg, slots, mode, w, T, tail);
    RemnantKept(cfg, AfterAll(cfg, slots, Minutely(T, Length(w))), mode, w, r, tail[0], tail[1]);
    visits := Minutely(T, Length(w)) + tail;
  }

  /** A schedule that holds nothing but the boost. */
  function BoostOnly(mode: Mode, w: TimedWindow): TimedSlots {
    [EMPTY, EMPTY, SlotFor(mode, w)]
  }

  lemma LingersPastMidnight(cfg: Config, mode: Mode, w: TimedWindow, T: nat, gap: nat) returns (visits: seq<Visit>)
    requires mode != Off && Planned(w, T) && gap >= 1
    requires MinuteOfDay(w.end) + gap > MINUTES_PER_DAY
    ensures Watched(BoostOnly(mode, w), visits, mode, w, T, gap)
    ensures AfterAll(cfg, BoostOnly(mode, w), visits)[2] != EMPTY
  {
    hide Live;
    var over, midnight := T + Length(w), T + MINUTES_PER_DAY - MinuteOf(T);
    MidnightAhead(w, T, gap);
    OverThenLive(w, over, midnight);
    StartClearedLeaves(mode, w);
    visits := LingeringRun(cfg, BoostOnly(mode, w), mode, w, TimedWindow(MIDNIGHT, w.end), T, gap, midnight);
    assert w.end != MIDNIGHT;
  }

  /**
  A boost is gone one gap after its end, whatever the link does to the visits, exactly when
  that gap ends by midnight. A visit cut across midnight can leave a remnant that reads as live.
   */
  lemma BoostLifetime(cfg: Config, mode: Mode, w: TimedWindow, T: nat, gap: nat)
    requires mode != Off && Planned(w, T) && gap >= 1
    ensures GoneDespiteFaults(cfg, mode, w, T, gap) <==> MinuteOfDay(w.end) + gap <= MINUTES_PER_DAY
  {
    if MinuteOfDay(w.end) + gap <= MINUTES_PER_DAY {
      forall slots, visits | Watched(slots, visits, mode, w, T, gap)
        ensures AfterAll(cfg, slots, visits)[2] == EMPTY
      {
        GoneSameDay(cfg, slots, visits, mode, w, T, gap);
      }
    } else {
      var _ := LingersPastMidnight(cfg, mode, w, T, gap);
    }
  }

  lemma LiveTomorrow(w: TimedWindow, T: nat)
    requires Planned(w, T)
    ensures Live(w, T + MINUTES_PER_DAY)
  {
    NextDay(T, T + MINUTES_PER_DAY);
  }

  lemma LingersIntoNextDay(cfg: Config, mode: Mode, w: TimedWindow, T: nat, gap: nat)
    requires mode != Off && Planned(w, T) && gap >= 1
    requires Length(w) + gap > MINUTES_PER_DAY
    ensures !GoneWhenWhole(cfg, mode, w, T, gap)
  {
    hide Live, MinuteOf, MinuteOfDay, After, AfterAll;
    var slots := BoostOnly(mode, w);
    var tomorrow := T + MINUTES_PER_DAY;
    var tail := [Visit(tomorrow, ALL_WORDS)];
    assert tail[0].Complete();
    assert CompleteWithin(tail, T + Length(w), gap);
    WatchedMinutely(slots, mode, w, T, gap, tail);
    MinutelyKeeps(cfg, slots, mode, w, T, tail);
    LiveTomorrow(w, T);
    var before := AfterAll(cfg, slots, Minutely(T, Length(w)));
    VisitKeepsLive(cfg, before, mode, w, tail[0]);
    AfterOne(cfg, before, tail[0]);
    assert w.end != MIDNIGHT;
  }

  lemma AfterOne(cfg: Config, slots: TimedSlots, v: Visit)
    ensures AfterAll(cfg, slots, [v]) == After(cfg, slots, v)
  {
    assert AfterAll(cfg, slots, [v]) == AfterAll(cfg, After(cfg, slots, v), []);
  }

  /** With no visit cut inside slot 3, the boost is gone exactly when length and gap fit in a day. */
  lemma WholeBoostLifetime(cfg: Config, mode: Mode, w: TimedWindow, T: nat, gap: nat)
    requires mode != Off && Planned(w, T) && gap >= 1
    ensures GoneWhenWhole(cfg, mode, w, T, gap) <==> Length(w) + gap <= MINUTES_PER_DAY
  {
    if Length(w) + gap <= MINUTES_PER_DAY {
      forall slots, visits | Watched(slots, visits, mode, w, T, gap) && Whole(visits)
        ensures AfterAll(cfg, slots, visits)[2] == EMPTY
      {
        GoneWithinADay(cfg, slots, visits, mode, w, T, gap);
      }
    } else {
      LingersIntoNextDay(cfg, mode, w, T, gap);
    }
  }

  // --------------------------------------------------------------- partial programs

  /**
  What an interrupted boost command, and the reconciles after it, may leave at minute m: one
  window of the commanded direction, ending no later than planned, that either has the planned
  start or is already over.
   */
  predicate Remnant(slot: TimedSlot, mode: Mode, w: TimedWindow, m: nat) {
    var r := WindowFor(mode, slot);
    && slot == SlotFor(mode, r)
    && MinuteOfDay(r.end) <= MinuteOfDay(w.end)
    && (r.start == w.start || MinuteOfDay(r.end) <= m)
  }

  lemma ProgramLeavesRemnant(mode: Mode, w: TimedWindow, p: int, m: nat)
    requires mode != Off && Forwards(w) && p >= 0
    ensures Remnant(BlendSlot(EMPTY, SlotFor(mode, w), p), mode, w, m)
  {
    var b := Blend(UNSET, w, p - 4);
    HalfWritten(w);
    assert BlendSlot(EMPTY, SlotFor(mode, w), p) == SlotFor(mode, b);
    assert p - 4 < 3 ==> b.end == MIDNIGHT;
    assert p - 4 >= 2 ==> b.start == w.start;
    assert p - 4 == 3 ==> b.end == Clock(w.end.hour, 0);
    assert p - 4 >= 4 ==> b.end == w.end;
  }

  lemma VisitKeepsRemnant(cfg: Config, slots: TimedSlots, mode: Mode, w: TimedWindow, m: nat, v: Visit)
    requires mode != Off && Forwards(w) && Remnant(slots[2], mode, w, m)
    requires MinuteOfDay(w.start) <= MinuteOf(v.now) && m <= MinuteOf(v.now)
    ensures Remnant(After(cfg, slots, v)[2], mode, w, MinuteOf(v.now))
    ensures var r := WindowFor(mode, slots[2]);
            v.Complete() && Live(r, v.now) ==> After(cfg, slots, v)[2] == slots[2] && r.start == w.start
    ensures v.Complete() && !Live(WindowFor(mode, slots[2]), v.now) ==> After(cfg, slots, v)[2] == EMPTY
  {
    var r := WindowFor(mode, slots[2]);
    BoostSlotAfter(cfg, slots, v);
    if Live(r, v.now) {
      VisitKeepsLive(cfg, slots, mode, r, v);
    } else {
      assert Running(slots[2], v.now) == EMPTY;
      var p := if mode == Discharge then v.words - 20 else v.words - 16;
      assert After(cfg, slots, v)[2] == SlotFor(mode, Blend(r, UNSET, p));
      ClearEndsNoLater(r, p);
    }
  }

  /** The rest of the day on which a boost was commanded. */
  predicate RestOfDay(visits: seq<Visit>, T: nat) {
    Ordered(visits, T) && forall v :: v in visits ==> MinuteOf(T) + (v.now - T) < MINUTES_PER_DAY
  }

  /** The minute of the day after n visits of a run begun at T. */
  function MinuteAfter(visits: seq<Visit>, T: nat, n: nat): nat
    requires n <= |visits|
  {
    if n == 0 then MinuteOf(T) else MinuteOf(visits[n - 1].now)
  }

  lemma MinutesRise(visits: seq<Visit>, T: nat, n: nat)
    requires RestOfDay(visits, T) && n < |visits|
    ensures MinuteOf(T) <= MinuteAfter(visits, T, n) <= MinuteAfter(visits, T, n + 1)
  {
    assert visits[n] in visits;
    SameDay(T, visits[n].now);
    if n > 0 {
      assert visits[n - 1] in visits;
      SameDay(T, visits[n - 1].now);
    }
  }

  lemma {:induction false} RunKeepsRemnant(cfg: Config, slots: TimedSlots, mode: Mode, w: TimedWindow, T: nat,
      visits: seq<Visit>, n: nat)
    requires mode != Off && Planned(w, T) && RestOfDay(visits, T) && n <= |visits|
    requires Remnant(slots[2], mode, w, MinuteOf(T))
    ensures Remnant(AfterAll(cfg, slots, visits[..n])[2], mode, w, MinuteAfter(visits, T, n))
    decreases n
  {
    hide Remnant, MinuteOf, MinuteOfDay, After;
    if n == 0 {
      assert visits[..0] == [];
    } else {
      RunKeepsRemnant(cfg, slots, mode, w, T, visits, n - 1);
      MinutesRise(visits, T, n - 1);
      AfterNext(cfg, slots, visits, n - 1);
      VisitKeepsRemnant(cfg, AfterAll(cfg, slots, visits[..n - 1]), mode, w, MinuteAfter(visits, T, n - 1),
          visits[n - 1]);
    }
  }

  /**
  A boost command cut anywhere, into an empty slot, is healed by the next complete visit of the
  day, whatever was cut in between: the slot is empty, or holds one window of the commanded
  direction with the planned start, running now and ending no later than planned.
   */
  lemma PartialProgramHeals(cfg: Config, slots: TimedSlots, mode: Mode, w: TimedWindow, T: nat, p: nat,
      visits: seq<Visit>)
    requires mode != Off && Planned(w, T) && slots[2] == BlendSlot(EMPTY, SlotFor(mode, w), p)
    requires RestOfDay(visits, T) && visits != [] && visits[|visits| - 1].Complete()
    ensures var last := AfterAll(cfg, slots, visits)[2];
            var r := WindowFor(mode, last);
            last == EMPTY
            || (last == SlotFor(mode, r) && r.start == w.start && Live(r, visits[|visits| - 1].now)
                && r.end != MIDNIGHT && MinuteOfDay(r.end) <= MinuteOfDay(w.end))
  {
    var n := |visits| - 1;
    ProgramLeavesRemnant(mode, w, p, MinuteOf(T));
    RunKeepsRemnant(cfg, slots, mode, w, T, visits, n);
    MinutesRise(visits, T, n);
    AfterNext(cfg, slots, visits, n);
    assert visits[..n + 1] == visits;
    VisitKeepsRemnant(cfg, AfterAll(cfg, slots, visits[..n]), mode, w, MinuteAfter(visits, T, n), visits[n]);
  }
}
