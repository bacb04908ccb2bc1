/**
What an interrupted command leaves in slot 3, and what the next reconciles make of it: first over
any slot it was commanded into, then, for a slot that was empty, over reconciles cut as well.
 */
module Healing {
  import opened Inverter
  import opened Blending
  import opened Schedule
  import opened Transients
  import opened Visits

  // -------------------------------------------------------- the next complete reconcile

  /** How many of the four words of each direction a write of `to` has reached after p words. */
  function ChargeWords(to: TimedSlot, p: int): int {
    if ChargeLast(to) then p - 4 else p
  }

  function DischargeWords(to: TimedSlot, p: int): int {
    if ChargeLast(to) then p else p - 4
  }

  /** Somebody asked for the window r: it is none, the old x, or starts as the target w does and ends no later. */
  predicate Asked(r: TimedWindow, x: TimedWindow, w: TimedWindow) {
    || r.IsZero() || r == x
    || (!w.IsZero() && r.start == w.start && MinuteOfDay(r.end) <= MinuteOfDay(w.end))
  }

  predicate AskedSlot(slot: TimedSlot, was: TimedSlot, to: TimedSlot) {
    Asked(slot.charge, was.charge, to.charge) && Asked(slot.discharge, was.discharge, to.discharge)
  }

  /**
  The clocks under which q words of w over x spell a window nobody asked for. One word: another
  hour, and not the target's start with an early enough end. Two: another start, with an end that
  is the old one and too late. Three: the target's end hour with a later minute.
   */
  predicate Strays(x: TimedWindow, w: TimedWindow, q: int) {
    || (q == 1 && w.start.hour != x.start.hour
        && (w.IsZero() || x.start.minute != w.start.minute || MinuteOfDay(x.end) > MinuteOfDay(w.end)))
    || (q == 2 && w.start != x.start && (w.IsZero() || MinuteOfDay(x.end) > MinuteOfDay(w.end)))
    || (q == 3 && (w.start != x.start || w.end.hour != x.end.hour) && (w.IsZero() || x.end.minute > w.end.minute))
  }

  lemma StraysExactly(x: TimedWindow, w: TimedWindow, q: int)
    ensures !Blend(x, w, q).IsZero() ==> (Asked(Blend(x, w, q), x, w) <==> !Strays(x, w, q))
  {
    if q <= 0 {
      assert Blend(x, w, q) == x;
    } else if q >= 4 {
      assert Blend(x, w, q) == w;
    } else if q == 3 {
      assert Blend(x, w, 3) == TimedWindow(w.start, Clock(w.end.hour, x.end.minute));
    }
  }

  lemma KeptAsked(x: TimedWindow, w: TimedWindow, q: int, now: nat)
    ensures Asked(Kept(Blend(x, w, q), now), x, w) <==> !(Strays(x, w, q) && Live(Blend(x, w, q), now))
  {
    hide MinuteOfDay, Strays;
    StraysExactly(x, w, q);
  }

  lemma CompleteRuns(cfg: Config, slots: TimedSlots, v: Visit)
    requires v.Complete()
    ensures After(cfg, slots, v)[2] == Running(slots[2], v.now)
  {
    BoostSlotAfter(cfg, slots, v);
  }

  /**
  A write of any target over any slot, cut after p words: the next complete reconcile, whenever it
  comes, leaves a window nobody asked for exactly when the half-written one is such and is live then.
   */
  lemma NextVisitHeals(cfg: Config, slots: TimedSlots, was: TimedSlot, to: TimedSlot, p: int, v: Visit)
    requires slots[2] == BlendSlot(was, to, p) && v.Complete()
    ensures AskedSlot(After(cfg, slots, v)[2], was, to)
       <==> && !(Strays(was.charge, to.charge, ChargeWords(to, p)) && Live(slots[2].charge, v.now))
            && !(Strays(was.discharge, to.discharge, DischargeWords(to, p)) && Live(slots[2].discharge, v.now))
  {
    hide Asked, Strays, Live;
    CompleteRuns(cfg, slots, v);
    KeptAsked(was.charge, to.charge, ChargeWords(to, p), v.now);
    KeptAsked(was.discharge, to.discharge, DischargeWords(to, p), v.now);
  }

  // ------------------------------------------------- reconciles not cut inside slot 3

  /** The window is live at every complete visit. */
  predicate LiveThroughout(w: TimedWindow, visits: seq<Visit>) {
    forall v :: v in visits && v.Complete() ==> Live(w, v.now)
  }

  function KeptThroughout(w: TimedWindow, visits: seq<Visit>): TimedWindow {
    if LiveThroughout(w, visits) then w else UNSET
  }

  lemma KeptNext(w: TimedWindow, visits: seq<Visit>)
    requires visits != []
    ensures visits[0].Complete()
        ==> KeptThroughout(w, visits) == KeptThroughout(Kept(w, visits[0].now), visits[1..])
    ensures !visits[0].Complete() ==> KeptThroughout(w, visits) == KeptThroughout(w, visits[1..])
  {
    assert visits == [visits[0]] + visits[1..];
  }

  lemma {:induction false} WholeRun(cfg: Config, slots: TimedSlots, visits: seq<Visit>)
    requires Whole(visits)
    ensures AfterAll(cfg, slots, visits)[2]
         == TimedSlot(KeptThroughout(slots[2].charge, visits), KeptThroughout(slots[2].discharge, visits))
    decreases |visits|
  {
    hide Live, KeptThroughout;
    if visits == [] {
      KeptNothing(slots[2].charge);
      KeptNothing(slots[2].discharge);
    } else {
      var v := visits[0];
      assert v in visits;
      BoostSlotAfter(cfg, slots, v);
      KeptNext(slots[2].charge, visits);
      KeptNext(slots[2].discharge, visits);
      WholeRun(cfg, After(cfg, slots, v), visits[1..]);
    }
  }

  lemma KeptNothing(w: TimedWindow)
    ensures KeptThroughout(w, []) == w
  {
  }

  lemma ThroughoutAsked(x: TimedWindow, w: TimedWindow, q: int, visits: seq<Visit>)
    requires visits != [] && visits[|visits| - 1].Complete()
    ensures Asked(KeptThroughout(Blend(x, w, q), visits), x, w)
       <==> !(Strays(x, w, q) && LiveThroughout(Blend(x, w, q), visits))
  {
    hide MinuteOfDay, Strays;
    StraysExactly(x, w, q);
    assert visits[|visits| - 1] in visits;
  }

  /** A cut write leaves this in slot 3, and the visits from T on, none cut inside slot 3, end with a complete one. */
  predicate AfterCut(slots: TimedSlots, was: TimedSlot, to: TimedSlot, p: nat, visits: seq<Visit>, T: nat) {
    && slots[2] == BlendSlot(was, to, p) && Ordered(visits, T) && Whole(visits)
    && visits != [] && visits[|visits| - 1].Complete()
  }

  /** Over any run not cut inside slot 3, a stray window survives exactly if it is live at every complete visit. */
  lemma WholeHealing(cfg: Config, slots: TimedSlots, was: TimedSlot, to: TimedSlot, p: nat, visits: seq<Visit>, T: nat)
    requires AfterCut(slots, was, to, p, visits, T)
    ensures AskedSlot(AfterAll(cfg, slots, visits)[2], was, to)
       <==> && !(Strays(was.charge, to.charge, ChargeWords(to, p)) && LiveThroughout(slots[2].charge, visits))
            && !(Strays(was.discharge, to.discharge, DischargeWords(to, p))
                && LiveThroughout(slots[2].discharge, visits))
  {
    hide Asked, Strays, LiveThroughout, KeptThroughout;
    WholeRun(cfg, slots, visits);
    ThroughoutAsked(was.charge, to.charge, ChargeWords(to, p), visits);
    ThroughoutAsked(was.discharge, to.discharge, DischargeWords(to, p), visits);
  }

  // --------------------------------------------------- which commands may be interrupted

  /** The window runs at some minute of its day. */
  predicate Runnable(w: TimedWindow) {
    w.end != MIDNIGHT && MinuteOfDay(w.start) < MinuteOfDay(w.end)
  }

  /** No half-written state of w over x is a window nobody asked for and that some minute finds live. */
  predicate Clean(x: TimedWindow, w: TimedWindow) {
    if w.IsZero() then
      && (x.start == MIDNIGHT || x.end == MIDNIGHT)
      && (x.end.minute == 0 || (x.start == MIDNIGHT && x.end.hour == 0))
    else
      && (w.start.hour == x.start.hour
          || (w.start.minute == x.start.minute && MinuteOfDay(x.end) <= MinuteOfDay(w.end))
          || MinuteOfDay(x.end) <= MinuteOfDay(Clock(w.start.hour, x.start.minute)))
      && (w.start == x.start || MinuteOfDay(x.end) <= MinuteOfDay(w.end))
      && ((w.start == x.start && w.end.hour == x.end.hour) || x.end.minute <= w.end.minute)
  }

  /** A window a command may write: none, or one that runs forwards. */
  predicate Target(w: TimedWindow) {
    w.IsZero() || Forwards(w)
  }

  lemma MidnightFirst(c: Clock)
    requires c.InRange()
    ensures c == MIDNIGHT <==> MinuteOfDay(c) == 0
    ensures MinuteOfDay(Clock(0, c.minute)) == c.minute <= MinuteOfDay(c)
  {
  }

  lemma CleanOfClear(x: TimedWindow, q: int)
    requires x.InRange() && Clean(x, UNSET)
    ensures !(Strays(x, UNSET, q) && Runnable(Blend(x, UNSET, q)))
  {
    hide MinuteOfDay;
    if q == 3 {
      assert Blend(x, UNSET, 3) == TimedWindow(MIDNIGHT, Clock(0, x.end.minute));
    }
  }

  lemma CleanOfWrite(x: TimedWindow, w: TimedWindow, q: int)
    requires x.InRange() && Forwards(w) && Clean(x, w)
    ensures !(Strays(x, w, q) && Runnable(Blend(x, w, q)))
  {
    hide Forwards;
    assert !w.IsZero() by {
      NotZero(w);
    }
  }

  lemma NotZero(w: TimedWindow)
    requires Forwards(w)
    ensures !w.IsZero() && w.end != MIDNIGHT
  {
  }

  /** Where an unclean write strays. */
  lemma UncleanStrays(x: TimedWindow, w: TimedWindow) returns (q: int)
    requires x.InRange() && Target(w) && !Clean(x, w)
    ensures 1 <= q <= 3 && Strays(x, w, q) && Runnable(Blend(x, w, q))
  {
    if w.IsZero() {
      q := UncleanClear(x);
      assert w == UNSET;
    } else {
      q := UncleanWrite(x, w);
    }
  }

  lemma UncleanClear(x: TimedWindow) returns (q: int)
    requires x.InRange() && !Clean(x, UNSET)
    ensures 1 <= q <= 3 && Strays(x, UNSET, q) && Runnable(Blend(x, UNSET, q))
  {
    MidnightFirst(x.end);
    if x.start != MIDNIGHT && x.end != MIDNIGHT {
      q := 2;
      assert Blend(x, UNSET, 2) == TimedWindow(MIDNIGHT, x.end);
    } else {
      q := 3;
      assert Blend(x, UNSET, 3) == TimedWindow(MIDNIGHT, Clock(0, x.end.minute));
      assert MinuteOfDay(Clock(0, x.end.minute)) == x.end.minute;
    }
  }

  lemma UncleanWrite(x: TimedWindow, w: TimedWindow) returns (q: int)
    requires x.InRange() && Forwards(w) && !Clean(x, w)
    ensures 1 <= q <= 3 && Strays(x, w, q) && Runnable(Blend(x, w, q))
  {
    NotZero(w);
    if w.start != x.start && MinuteOfDay(x.end) > MinuteOfDay(w.end) {
      q := 2;
      assert Blend(x, w, 2) == TimedWindow(w.start, x.end);
    } else if !((w.start == x.start && w.end.hour == x.end.hour) || x.end.minute <= w.end.minute) {
      q := 3;
      LaterMinute(w, x.end.minute);
      assert Blend(x, w, 3) == TimedWindow(w.start, Clock(w.end.hour, x.end.minute));
    } else {
      q := 1;
      assert Blend(x, w, 1) == TimedWindow(Clock(w.start.hour, x.start.minute), x.end);
    }
  }

  lemma LaterMinute(w: TimedWindow, minute: Byte)
    requires Forwards(w) && minute > w.end.minute
    ensures Runnable(TimedWindow(w.start, Clock(w.end.hour, minute)))
  {
  }

  /** Whatever the cut and however late the next complete reconcile, slot 3 holds nothing nobody asked for. */
  ghost predicate Interruptible(cfg: Config, was: TimedSlot, to: TimedSlot, T: nat) {
    forall slots: TimedSlots, p: nat, visits: seq<Visit> :: AfterCut(slots, was, to, p, visits, T)
      ==> AskedSlot(AfterAll(cfg, slots, visits)[2], was, to)
  }

  /** A live window runs at some minute, and a runnable one is live at its start, on a day after T. */
  lemma LiveRuns(w: TimedWindow, now: nat)
    requires Live(w, now)
    ensures Runnable(w)
  {
  }

  lemma RunsLater(w: TimedWindow, T: nat) returns (now: nat)
    requires w.InRange() && Runnable(w)
    ensures T <= now && Live(w, now)
  {
    now := T + MINUTES_PER_DAY - MinuteOf(T) + MinuteOfDay(w.start);
    NextDay(T, now);
  }

  lemma CleanHeals(cfg: Config, slots: TimedSlots, was: TimedSlot, to: TimedSlot, p: nat, visits: seq<Visit>, T: nat)
    requires was.InRange() && Target(to.charge) && Target(to.discharge)
    requires Clean(was.charge, to.charge) && Clean(was.discharge, to.discharge)
    requires AfterCut(slots, was, to, p, visits, T)
    ensures AskedSlot(AfterAll(cfg, slots, visits)[2], was, to)
  {
    hide Clean, Strays, Asked, Live, Runnable, Forwards;
    WholeHealing(cfg, slots, was, to, p, visits, T);
    CleanNeverLive(was.charge, to.charge, ChargeWords(to, p), visits);
    CleanNeverLive(was.discharge, to.discharge, DischargeWords(to, p), visits);
  }

  lemma CleanNeverLive(x: TimedWindow, w: TimedWindow, q: int, visits: seq<Visit>)
    requires x.InRange() && Target(w) && Clean(x, w) && visits != [] && visits[|visits| - 1].Complete()
    ensures !(Strays(x, w, q) && LiveThroughout(Blend(x, w, q), visits))
  {
    hide Clean, Strays, Live, Runnable, Forwards, Blend;
    var v := visits[|visits| - 1];
    if LiveThroughout(Blend(x, w, q), visits) {
      assert v in visits && Live(Blend(x, w, q), v.now);
      LiveRuns(Blend(x, w, q), v.now);
      if w.IsZero() {
        assert w == UNSET;
        CleanOfClear(x, q);
      } else {
        CleanOfWrite(x, w, q);
      }
    }
  }

  lemma UncleanLingers(cfg: Config, was: TimedSlot, to: TimedSlot, T: nat) returns (p: nat, now: nat)
    requires was.InRange() && to.InRange() && Target(to.charge) && Target(to.discharge)
    requires !(Clean(was.charge, to.charge) && Clean(was.discharge, to.discharge))
    ensures T <= now && p <= SLOT_WORDS
    ensures var slots: TimedSlots := [EMPTY, EMPTY, BlendSlot(was, to, p)];
            && AfterCut(slots, was, to, p, [Visit(now, ALL_WORDS)], T)
            && !AskedSlot(AfterAll(cfg, slots, [Visit(now, ALL_WORDS)])[2], was, to)
  {
    hide Clean, Strays, Asked, Live, Runnable, Forwards;
    var charging := !Clean(was.charge, to.charge);
    var x := if charging then was.charge else was.discharge;
    var w := if charging then to.charge else to.discharge;
    var q := UncleanStrays(x, w);
    now := RunsLater(Blend(x, w, q), T);
    p := if ChargeLast(to) == charging then q + 4 else q;
    var slots: TimedSlots := [EMPTY, EMPTY, BlendSlot(was, to, p)];
    NextVisitHeals(cfg, slots, was, to, p, Visit(now, ALL_WORDS));
    AfterOne(cfg, slots, Visit(now, ALL_WORDS));
  }

  /**
  Which commands may be interrupted over which slot: cut anywhere, and followed by reconciles not
  cut inside slot 3, however late, a command leaves only what was asked for if and only if both its
  directions are clean.
   */
  lemma InterruptibleExactly(cfg: Config, was: TimedSlot, to: TimedSlot, T: nat)
    requires was.InRange() && to.InRange() && Target(to.charge) && Target(to.discharge)
    ensures Interruptible(cfg, was, to, T) <==> Clean(was.charge, to.charge) && Clean(was.discharge, to.discharge)
  {
    hide Clean, AskedSlot, AfterCut, AfterAll;
    if Clean(was.charge, to.charge) && Clean(was.discharge, to.discharge) {
      forall slots: TimedSlots, p: nat, visits: seq<Visit> | AfterCut(slots, was, to, p, visits, T)
        ensures AskedSlot(AfterAll(cfg, slots, visits)[2], was, to)
      {
        CleanHeals(cfg, slots, was, to, p, visits, T);
      }
    } else {
      var _, _ := UncleanLingers(cfg, was, to, T);
    }
  }

  /** Into an empty direction every command may be interrupted. */
  lemma CleanIntoEmpty(w: TimedWindow)
    requires Target(w)
    ensures Clean(UNSET, w)
  {
  }

  /**
  A replaced window whose half-written end is later than both ends is kept: the next complete
  visit within it leaves it, to the minute.
   */
  lemma OvershootKept(cfg: Config, slots: TimedSlots, mode: Mode, before: TimedWindow, after: TimedWindow, v: Visit)
    requires before.InRange() && Forwards(after) && slots[2] == SlotFor(mode, Blend(before, after, 3))
    requires before.end.hour < after.end.hour && after.end.minute < before.end.minute
    requires MinuteOfDay(after.start) <= MinuteOf(v.now) < MinuteOfDay(Clock(after.end.hour, before.end.minute))
    ensures After(cfg, slots, v)[2] == slots[2]
    ensures var end := MinuteOfDay(WindowFor(mode, slots[2]).end);
            end > MinuteOfDay(before.end) && end > MinuteOfDay(after.end)
  {
    var r := Blend(before, after, 3);
    assert r == TimedWindow(after.start, Clock(after.end.hour, before.end.minute));
    VisitKeepsLive(cfg, slots, mode, r, v);
  }

  const TEN_TO_HALF_PAST := TimedWindow(Clock(10, 5), Clock(10, 30))
  const TEN_TO_QUARTER_TO := TimedWindow(Clock(10, 10), Clock(10, 45))

  /**
  A charge held 10:05-10:30, a discharge commanded 10:10-10:45 and cut after one word: at 10:12 a
  charge 00:05-10:30 is kept.
   */
  lemma StrayDirectionExample(cfg: Config)
    ensures var left := BlendSlot(TimedSlot(TEN_TO_HALF_PAST, UNSET), TimedSlot(UNSET, TEN_TO_QUARTER_TO), 1);
            After(cfg, [EMPTY, EMPTY, left], Visit(612, ALL_WORDS))[2]
                == TimedSlot(TimedWindow(Clock(0, 5), Clock(10, 30)), UNSET)
  {
    var left := BlendSlot(TimedSlot(TEN_TO_HALF_PAST, UNSET), TimedSlot(UNSET, TEN_TO_QUARTER_TO), 1);
    assert left == SlotFor(Charge, TimedWindow(Clock(0, 5), Clock(10, 30)));
    VisitKeepsLive(cfg, [EMPTY, EMPTY, left], Charge, TimedWindow(Clock(0, 5), Clock(10, 30)), Visit(612, ALL_WORDS));
  }

  /** 23:40-23:45 cleared at 10:00 and cut after one word: 00:40-23:45 is kept. */
  lemma StrayClearExample(cfg: Config)
    ensures var left := BlendSlot(TimedSlot(TimedWindow(Clock(23, 40), Clock(23, 45)), UNSET), EMPTY, 1);
            After(cfg, [EMPTY, EMPTY, left], Visit(600, ALL_WORDS))[2]
                == TimedSlot(TimedWindow(Clock(0, 40), Clock(23, 45)), UNSET)
  {
    var left := BlendSlot(TimedSlot(TimedWindow(Clock(23, 40), Clock(23, 45)), UNSET), EMPTY, 1);
    assert left == SlotFor(Charge, TimedWindow(Clock(0, 40), Clock(23, 45)));
    VisitKeepsLive(cfg, [EMPTY, EMPTY, left], Charge, TimedWindow(Clock(0, 40), Clock(23, 45)), Visit(600, ALL_WORDS));
  }

  // ------------------------------------------------------ how long the healing holds

  /** The slot is empty, or carries a running window from the planned start, ending no later than planned. */
  predicate Healed(slot: TimedSlot, mode: Mode, w: TimedWindow, now: nat) {
    var r := WindowFor(mode, slot);
    slot == EMPTY
    || (slot == SlotFor(mode, r) && r.start == w.start && Live(r, now) && MinuteOfDay(r.end) <= MinuteOfDay(w.end))
  }

  /** However a command at T and the visits before `until` are cut, a complete visit finds or leaves the slot healed. */
  ghost predicate HealsUntil(cfg: Config, mode: Mode, w: TimedWindow, T: nat, until: nat) {
    forall slots: TimedSlots, p: nat, visits: seq<Visit> :: AfterCommand(slots, mode, w, p, visits, T, until)
      ==> Healed(AfterAll(cfg, slots, visits)[2], mode, w, visits[|visits| - 1].now)
  }

  predicate AfterCommand(slots: TimedSlots, mode: Mode, w: TimedWindow, p: nat, visits: seq<Visit>, T: nat,
      until: nat) {
    && slots[2] == BlendSlot(EMPTY, SlotFor(mode, w), p) && Ordered(visits, T)
    && visits != [] && visits[|visits| - 1].Complete() && visits[|visits| - 1].now < until
  }

  /** What a command at midnight leaves: every remnant starts at midnight too. */
  predicate FromMidnight(slot: TimedSlot, mode: Mode, w: TimedWindow) {
    var r := WindowFor(mode, slot);
    slot == SlotFor(mode, r) && r.start == MIDNIGHT && MinuteOfDay(r.end) <= MinuteOfDay(w.end)
  }

  /** A visit to a window that is not live clears some of its words. */
  lemma ClearsWords(cfg: Config, slots: TimedSlots, mode: Mode, r: TimedWindow, v: Visit) returns (p: int)
    requires mode != Off && slots[2] == SlotFor(mode, r) && !Live(r, v.now)
    ensures After(cfg, slots, v)[2] == SlotFor(mode, Blend(r, UNSET, p))
    ensures v.Complete() ==> After(cfg, slots, v)[2] == EMPTY
  {
    BoostSlotAfter(cfg, slots, v);
    assert Running(slots[2], v.now) == EMPTY;
    p := if mode == Discharge then v.words - 20 else v.words - 16;
  }

  lemma VisitKeepsMidnight(cfg: Config, slots: TimedSlots, mode: Mode, w: TimedWindow, v: Visit)
    requires mode != Off && FromMidnight(slots[2], mode, w)
    ensures FromMidnight(After(cfg, slots, v)[2], mode, w)
    ensures v.Complete() ==>
              || After(cfg, slots, v)[2] == EMPTY
              || (After(cfg, slots, v)[2] == slots[2] && Live(WindowFor(mode, slots[2]), v.now))
  {
    hide Live, MinuteOfDay, After;
    var r := WindowFor(mode, slots[2]);
    if Live(r, v.now) {
      VisitKeepsLive(cfg, slots, mode, r, v);
    } else {
      var p := ClearsWords(cfg, slots, mode, r, v);
      ClearEndsNoLater(r, p);
    }
  }

  lemma {:induction false} RunKeepsMidnight(cfg: Config, slots: TimedSlots, mode: Mode, w: TimedWindow,
      visits: seq<Visit>)
    requires mode != Off && FromMidnight(slots[2], mode, w)
    ensures FromMidnight(AfterAll(cfg, slots, visits)[2], mode, w)
    decreases |visits|
  {
    hide FromMidnight, After, MinuteOfDay, Live;
    if visits != [] {
      VisitKeepsMidnight(cfg, slots, mode, w, visits[0]);
      RunKeepsMidnight(cfg, After(cfg, slots, visits[0]), mode, w, visits[1..]);
    }
  }

  lemma ProgramFromMidnight(mode: Mode, w: TimedWindow, p: nat)
    requires mode != Off && w.start == MIDNIGHT
    ensures FromMidnight(BlendSlot(EMPTY, SlotFor(mode, w), p), mode, w)
  {
    var b := Blend(UNSET, w, p - 4);
    assert BlendSlot(EMPTY, SlotFor(mode, w), p) == SlotFor(mode, b);
    assert b.end == MIDNIGHT || b.end == Clock(w.end.hour, 0) || b.end == w.end;
  }

  lemma MidnightHeals(cfg: Config, slots: TimedSlots, mode: Mode, w: TimedWindow, visits: seq<Visit>)
    requires mode != Off && w.start == MIDNIGHT && FromMidnight(slots[2], mode, w)
    requires visits != [] && visits[|visits| - 1].Complete()
    ensures Healed(AfterAll(cfg, slots, visits)[2], mode, w, visits[|visits| - 1].now)
  {
    hide FromMidnight, Healed, After, AfterAll, Live;
    var n := |visits| - 1;
    RunKeepsMidnight(cfg, slots, mode, w, visits[..n]);
    AfterNext(cfg, slots, visits, n);
    assert visits[..n + 1] == visits;
    var before := AfterAll(cfg, slots, visits[..n]);
    VisitKeepsMidnight(cfg, before, mode, w, visits[n]);
    KeptFromMidnight(before[2], After(cfg, before, visits[n])[2], mode, w, visits[n].now);
  }

  lemma KeptFromMidnight(was: TimedSlot, slot: TimedSlot, mode: Mode, w: TimedWindow, now: nat)
    requires FromMidnight(was, mode, w) && w.start == MIDNIGHT
    requires slot == EMPTY || (slot == was && Live(WindowFor(mode, was), now))
    ensures Healed(slot, mode, w, now)
  {
  }

  /** A whole command, then a reconcile cut after its end and a complete one at midnight. */
  lemma OutlivesItsDay(cfg: Config, mode: Mode, w: TimedWindow, T: nat, until: nat) returns (visits: seq<Visit>)
    requires mode != Off && Planned(w, T) && MinuteOf(T) != 0 && MinuteOf(T) + (until - T) > MINUTES_PER_DAY
    ensures AfterCommand(BoostOnly(mode, w), mode, w, SLOT_WORDS, visits, T, until)
    ensures !Healed(AfterAll(cfg, BoostOnly(mode, w), visits)[2], mode, w, visits[|visits| - 1].now)
  {
    hide Live;
    var slots := BoostOnly(mode, w);
    var over, midnight := T + Length(w), T + MINUTES_PER_DAY - MinuteOf(T);
    var r := TimedWindow(MIDNIGHT, w.end);
    visits := [Visit(over, StartCleared(mode)), Visit(midnight, ALL_WORDS)];
    SameDay(T, over);
    NextDay(T, midnight);
    OverThenLive(w, over, midnight);
    StartClearedLeaves(mode, w);
    RemnantKept(cfg, slots, mode, w, r, visits[0], visits[1]);
    BlendSlotStart(EMPTY, SlotFor(mode, w));
    assert w.end != MIDNIGHT && w.start != MIDNIGHT;
    assert !Healed(SlotFor(mode, r), mode, w, midnight);
  }

  lemma OnTheDay(visits: seq<Visit>, T: nat, until: nat)
    requires Ordered(visits, T) && visits != [] && visits[|visits| - 1].now < until
    requires MinuteOf(T) + (until - T) <= MINUTES_PER_DAY
    ensures RestOfDay(visits, T)
  {
    forall v | v in visits ensures v.now < until {
      var i :| 0 <= i < |visits| && visits[i] == v;
    }
  }

  lemma HealsOnTheDay(cfg: Config, slots: TimedSlots, mode: Mode, w: TimedWindow, T: nat, p: nat, visits: seq<Visit>,
      until: nat)
    requires mode != Off && Planned(w, T) && AfterCommand(slots, mode, w, p, visits, T, until)
    requires MinuteOf(T) == 0 || MinuteOf(T) + (until - T) <= MINUTES_PER_DAY
    ensures Healed(AfterAll(cfg, slots, visits)[2], mode, w, visits[|visits| - 1].now)
  {
    hide Live, AfterAll, BlendSlot, FromMidnight;
    if MinuteOf(T) == 0 {
      assert w.start == MIDNIGHT;
      ProgramFromMidnight(mode, w, p);
      MidnightHeals(cfg, slots, mode, w, visits);
    } else {
      OnTheDay(visits, T, until);
      PartialProgramHeals(cfg, slots, mode, w, T, p, visits);
    }
  }

  /**
  How long an interrupted boost command is sure to heal. Faulty visits and a complete one later
  the same day leave nothing or the planned start with no later end; past midnight that fails for
  every boost but one commanded at midnight.
   */
  lemma HealingLasts(cfg: Config, mode: Mode, w: TimedWindow, T: nat, until: nat)
    requires mode != Off && Planned(w, T)
    ensures HealsUntil(cfg, mode, w, T, until) <==> MinuteOf(T) == 0 || MinuteOf(T) + (until - T) <= MINUTES_PER_DAY
  {
    hide MinuteOfDay, Live, AfterAll, Healed, BlendSlot;
    if MinuteOf(T) == 0 || MinuteOf(T) + (until - T) <= MINUTES_PER_DAY {
      forall slots: TimedSlots, p: nat, visits: seq<Visit> | AfterCommand(slots, mode, w, p, visits, T, until)
        ensures Healed(AfterAll(cfg, slots, visits)[2], mode, w, visits[|visits| - 1].now)
      {
        HealsOnTheDay(cfg, slots, mode, w, T, p, visits, until);
      }
    } else {
      var _ := OutlivesItsDay(cfg, mode, w, T, until);
    }
  }

  lemma EmptyPart(mode: Mode, w: TimedWindow, p: nat, slot: TimedSlot, now: nat)
    requires mode != Off && Forwards(w) && slot == BlendSlot(EMPTY, SlotFor(mode, w), p)
    ensures Healed(Running(slot, now), mode, w, now)
  {
    hide MinuteOfDay, MinuteOf, Forwards;
    var b := Blend(UNSET, w, p - 4);
    HalfWritten(w);
    assert slot == SlotFor(mode, b);
    assert b.end == MIDNIGHT || b.start == w.start;
    ProgramLeavesRemnant(mode, w, p, 0);
  }

  /** Into an empty slot 3, with no reconcile cut inside it, the healing has no time limit. */
  lemma WholeHeals(cfg: Config, slots: TimedSlots, mode: Mode, w: TimedWindow, p: nat, visits: seq<Visit>)
    requires mode != Off && Forwards(w) && slots[2] == BlendSlot(EMPTY, SlotFor(mode, w), p)
    requires Whole(visits) && visits != [] && visits[|visits| - 1].Complete()
    ensures Healed(AfterAll(cfg, slots, visits)[2], mode, w, visits[|visits| - 1].now)
  {
    hide MinuteOfDay, Live, After, AfterAll, BlendSlot, Healed;
    var n := |visits| - 1;
    var before := AfterAll(cfg, slots, visits[..n]);
    NotBoth(mode, w, p);
    WholeKeepsOrEmpties(cfg, slots, visits[..n]);
    AfterNext(cfg, slots, visits, n);
    assert visits[..n + 1] == visits;
    CompleteRuns(cfg, before, visits[n]);
    EmptyPart(mode, w, p, slots[2], visits[n].now);
    EmptyPart(mode, w, 0, EMPTY, visits[n].now);
  }

  lemma NotBoth(mode: Mode, w: TimedWindow, p: nat)
    ensures !BlendSlot(EMPTY, SlotFor(mode, w), p).Both()
    ensures BlendSlot(EMPTY, SlotFor(mode, w), 0) == EMPTY
  {
  }
}
