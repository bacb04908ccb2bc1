/**
The write path: the schedule diff, the reconcile, the routed commands and the setpoint read.
Each method of Handler is proved equal to a function of the link; the lemmas are about the
functions, for all fates of the frames.
 */
module Controls {
  import opened Wrappers
  import opened Inverter
  import opened WorkModes
  import opened Banks
  import opened Blending
  import opened Schedule
  import opened Visits
  import opened Links

  // ----------------------------------------------------------------------- the diff

  /** What a schedule's own registers look like, by address. */
  function Image(slots: TimedSlots): Bank {
    Overlay(map[], AllRegisters(slots))
  }

  /** The registers of the desired schedule whose value the current one does not have. */
  function Diff(desired: TimedSlots, current: TimedSlots): seq<Register> {
    Differing(AllRegisters(desired), Image(current))
  }

  lemma HoldsFromRegisters(bank: Bank, i: int, slot: TimedSlot)
    requires 0 <= i <= 2
    ensures (forall r :: r in TimedSlotWriteRegisters(i, slot) ==> Holds(bank, r)) <==> HoldsSlot(bank, i, slot)
  {
    var charge := TimedWindowRegisters(SlotBase(i) + CHARGE_OFFSET, slot.charge);
    var discharge := TimedWindowRegisters(SlotBase(i) + DISCHARGE_OFFSET, slot.discharge);
    var regs := TimedSlotWriteRegisters(i, slot);
    assert forall r :: r in regs <==> r in charge || r in discharge;
    assert (forall r :: r in charge ==> Holds(bank, r))
        <==> HoldsWindow(bank, SlotBase(i) + CHARGE_OFFSET, slot.charge) by {
      WindowFromRegisters(bank, SlotBase(i) + CHARGE_OFFSET, slot.charge);
    }
    assert (forall r :: r in discharge ==> Holds(bank, r))
        <==> HoldsWindow(bank, SlotBase(i) + DISCHARGE_OFFSET, slot.discharge) by {
      WindowFromRegisters(bank, SlotBase(i) + DISCHARGE_OFFSET, slot.discharge);
    }
  }

  lemma WindowFromRegisters(bank: Bank, first: int, w: TimedWindow)
    ensures (forall r :: r in TimedWindowRegisters(first, w) ==> Holds(bank, r)) <==> HoldsWindow(bank, first, w)
  {
    var regs := TimedWindowRegisters(first, w);
    assert regs[0] in regs && regs[1] in regs && regs[2] in regs && regs[3] in regs;
  }

  lemma HoldsFromAll(bank: Bank, slots: TimedSlots)
    ensures (forall r :: r in AllRegisters(slots) ==> Holds(bank, r)) <==> HoldsSlots(bank, slots)
  {
    HoldsFromRegisters(bank, 0, slots[0]);
    HoldsFromRegisters(bank, 1, slots[1]);
    HoldsFromRegisters(bank, 2, slots[2]);
    assert forall r :: r in AllRegisters(slots) <==>
      r in TimedSlotWriteRegisters(0, slots[0]) || r in TimedSlotWriteRegisters(1, slots[1])
          || r in TimedSlotWriteRegisters(2, slots[2]);
  }

  lemma OverlayAllHolds(bank: Bank, slots: TimedSlots)
    ensures HoldsSlots(Overlay(bank, AllRegisters(slots)), slots)
  {
    var regs := AllRegisters(slots);
    AllRegistersDistinct(slots);
    OverlayHoldsEach(bank, regs);
    HoldsFromAll(Overlay(bank, regs), slots);
  }

  /** The addresses of the timed-slot words. */
  predicate SlotAddress(a: int) {
    exists i :: 0 <= i <= 2 && SlotBase(i) + CHARGE_OFFSET <= a < SlotBase(i) + CHARGE_OFFSET + SLOT_WORDS
  }

  lemma AllRegistersAreSlotWords(slots: TimedSlots, r: Register)
    requires r in AllRegisters(slots)
    ensures SlotAddress(r.addr)
  {
    SlotRegistersDistinct(0, slots[0]);
    SlotRegistersDistinct(1, slots[1]);
    SlotRegistersDistinct(2, slots[2]);
  }

  lemma SlotWordsAgree(a: Bank, b: Bank, slots: TimedSlots, addr: int)
    requires HoldsSlots(a, slots) && HoldsSlots(b, slots) && SlotAddress(addr)
    ensures addr in a && addr in b && a[addr] == b[addr]
  {
  }

  /** Against a bank that holds the current slots, the diff is what that bank lacks. */
  lemma DiffOfBank(bank: Bank, desired: TimedSlots, current: TimedSlots)
    requires HoldsSlots(bank, current)
    ensures Diff(desired, current) == Differing(AllRegisters(desired), bank)
  {
    OverlayAllHolds(map[], current);
    forall r | r in AllRegisters(desired) ensures Holds(Image(current), r) <==> Holds(bank, r) {
      AllRegistersAreSlotWords(desired, r);
      SlotWordsAgree(Image(current), bank, current, r.addr);
    }
    DifferingAgrees(AllRegisters(desired), Image(current), bank);
  }

  /** The diff lists each register that must change, once, and writing it makes the schedule true. */
  lemma DiffExact(bank: Bank, desired: TimedSlots, current: TimedSlots)
    requires HoldsSlots(bank, current)
    ensures var diff := Diff(desired, current);
            && Distinct(diff) && |diff| == Distance(desired, current)
            && (forall r :: r in diff <==> r in AllRegisters(desired) && !Holds(bank, r))
            && HoldsSlots(Overlay(bank, diff), desired)
            && (diff == [] <==> desired == current)
  {
    var all := AllRegisters(desired);
    DiffOfBank(bank, desired, current);
    AllRegistersDistinct(desired);
    DifferingDistinct(all, bank);
    DifferingMembers(all, bank);
    DifferingIsDistance(bank, desired, current);
    assert all[..|all|] == all;
    OverlayDiffering(bank, all, |all|);
    OverlayAllHolds(bank, desired);
    DistanceBound(desired, current);
  }

  // ------------------------------------------------------------------ the reconcile

  function ReconcileSpec(f: Fates, s: Link, cfg: Config, enabled: bool, slots: TimedSlots, now: nat): Outcome {
    if !enabled then Outcome(s, false, None, 0)
    else SequenceSpec(f, s, Diff(Desired(cfg, slots, now), slots), false, 0)
  }

  /** The bank holds the schedule some visit of this minute leaves behind. */
  predicate HoldsVisit(bank: Bank, cfg: Config, slots: TimedSlots, now: nat) {
    exists k :: 0 <= k <= ALL_WORDS && HoldsSlots(bank, After(cfg, slots, Visit(now, k)))
  }

  lemma DiffPrefixIsVisit(bank: Bank, cfg: Config, slots: TimedSlots, now: nat, j: nat) returns (k: nat)
    requires HoldsSlots(bank, slots)
    requires j <= |Diff(Desired(cfg, slots, now), slots)|
    ensures var diff := Diff(Desired(cfg, slots, now), slots);
            && k <= ALL_WORDS && HoldsSlots(Overlay(bank, diff[..j]), After(cfg, slots, Visit(now, k)))
            && (j == |diff| ==> k == ALL_WORDS)
            && j == Distance(After(cfg, slots, Visit(now, k)), slots)
  {
    var want := Desired(cfg, slots, now);
    var all := AllRegisters(want);
    AllRegistersDistinct(want);
    DiffOfBank(bank, want, slots);
    assert all[..ALL_WORDS] == all;
    k := DifferingPrefix(bank, all, ALL_WORDS, j);
    PrefixBlends(bank, slots, want, k);
    var after := After(cfg, slots, Visit(now, k));
    DifferingAfterPrefix(bank, all, k, ALL_WORDS);
    DifferingIsDistance(bank, want, slots);
    DifferingIsDistance(Overlay(bank, all[..k]), want, after);
    BlendTowards(slots, want, k);
  }

  lemma {:induction false} DifferingAll(regs: seq<Register>, bank: Bank)
    requires forall r :: r in regs ==> !Holds(bank, r)
    ensures Differing(regs, bank) == regs
    decreases |regs|
  {
    if regs != [] {
      DifferingAll(regs[..|regs| - 1], bank);
      assert regs == regs[..|regs| - 1] + [regs[|regs| - 1]];
    }
  }

  /**
  A reconcile over the slots the bank holds is a visit: at every frame and at its end the bank
  holds the schedule after some number of words, all of them if it succeeds; and each write that
  landed is a word that changed.
   */
  lemma ReconcileIsVisit(f: Fates, s: Link, cfg: Config, slots: TimedSlots, now: nat) returns (v: Visit)
    requires HoldsSlots(s.bank, slots)
    ensures var out := ReconcileSpec(f, s, cfg, true, slots, now);
            var after := After(cfg, slots, v);
            && v.now == now && HoldsSlots(out.link.bank, after)
            && (out.err.None? ==> v.Complete())
            && Landings(out.link.trace) == Landings(s.trace) + Distance(after, slots)
            && WearSafe(out.link.trace, |s.trace|)
            && |s.trace| <= |out.link.trace|
            && (forall n :: |s.trace| <= n < |out.link.trace| ==> HoldsVisit(out.link.trace[n].bank, cfg, slots, now))
            && (Desired(cfg, slots, now) == slots ==> out.link == s && out.err.None?)
  {
    var diff := Diff(Desired(cfg, slots, now), slots);
    var out := ReconcileSpec(f, s, cfg, true, slots, now);
    DiffExact(s.bank, Desired(cfg, slots, now), slots);
    var cut := SequenceCut(f, s, diff, false, 0);
    var k := DiffPrefixIsVisit(s.bank, cfg, slots, now, cut);
    v := Visit(now, k);
    DifferingAll(diff[..cut], s.bank);
    forall n | |s.trace| <= n < |out.link.trace| ensures HoldsVisit(out.link.trace[n].bank, cfg, slots, now) {
      var j :| 0 <= j <= |diff| && out.link.trace[n].bank == Overlay(s.bank, diff[..j]);
      var kn := DiffPrefixIsVisit(s.bank, cfg, slots, now, j);
      assert HoldsSlots(out.link.trace[n].bank, After(cfg, slots, Visit(now, kn)));
    }
  }

  // ------------------------------------------------------------------- the commands

  type RTCWords = w: seq<Word> | |w| == RTC_REGISTER_COUNT witness [0, 0, 0, 0, 0, 0]

  function RTCRegisters(words: RTCWords): seq<Register> {
    seq(RTC_REGISTER_COUNT, k requires 0 <= k < RTC_REGISTER_COUNT => Register(REG_RTC_SET + k, words[k]))
  }

  /** A routed command. None is a payload its parser rejects. */
  datatype Command =
    | SetChargeCurrent(value: Option<Word>)
    | SetDischargeCurrent(value: Option<Word>)
    | OptimalIncome(run: Option<bool>)
    | BoostSelect(payload: string)
    | RTCSync
    | Unknown

  function GuardOneSpec(f: Fates, s: Link, addr: int, value: Word): Link {
    GuardSpec(f, s, addr, value).0
  }

  function OptimalIncomeSpec(f: Fates, s: Link, run: bool): Link {
    var (s1, current) := ReadOne(f, s, REG_WORK_MODE);
    if current.None? then s1 else GuardOneSpec(f, s1, REG_WORK_MODE, TimedWord(current.value, run))
  }

  /** Why a parsed boost command ended without programming the slot. */
  datatype BoostEnd = Programmed(out: Outcome) | ModeUnread | Stopped | Refused(reason: PlanError)

  function BoostSpec(f: Fates, s: Link, cfg: Config, mode: Mode, minutes: nat, now: nat): (Link, BoostEnd) {
    if mode == Off then
      var out := SequenceSpec(f, s, TimedSlotWriteRegisters(BOOST_SLOT, EMPTY), false, 0);
      (out.link, Programmed(out))
    else
      var (s1, current) := ReadOne(f, s, REG_WORK_MODE);
      if current.None? then (s1, ModeUnread)
      else if !IsTimed(current.value) then (s1, Stopped)
      else
        var plan := PlanBoost(mode, minutes, now, cfg);
        if plan.Failure? then (s1, Refused(plan.error))
        else
          var out := SequenceSpec(f, s1, TimedSlotWriteRegisters(BOOST_SLOT, plan.value), false, 0);
          (out.link, Programmed(out))
  }

  /** The link after a command, and whether the command touched the inverter. */
  function CommandSpec(f: Fates, s: Link, cfg: Config, enabled: bool, c: Command, now: nat, rtc: RTCWords): (Link,
      bool) {
    if !enabled then (s, false)
    else match c
      case SetChargeCurrent(None) => (s, false)
      case SetChargeCurrent(Some(w)) => (GuardOneSpec(f, s, REG_TIMED_CHARGE_CURRENT, w), true)
      case SetDischargeCurrent(None) => (s, false)
      case SetDischargeCurrent(Some(w)) => (GuardOneSpec(f, s, REG_TIMED_DISCHARGE_CURRENT, w), true)
      case OptimalIncome(None) => (s, false)
      case OptimalIncome(Some(run)) => (OptimalIncomeSpec(f, s, run), true)
      case BoostSelect(payload) =>
        var option := ParseBoostOption(payload);
        if option.None? then (s, false)
        else (BoostSpec(f, s, cfg, option.value.0, option.value.1, now).0, true)
      case RTCSync => (SequenceSpec(f, s, RTCRegisters(rtc), false, 0).link, true)
      case Unknown => (s, false)
  }

  /** The slot a boost command programs when it programs one. */
  function BoostTarget(cfg: Config, mode: Mode, minutes: nat, now: nat): TimedSlot {
    var plan := PlanBoost(mode, minutes, now, cfg);
    if mode == Off || plan.Failure? then EMPTY else plan.value
  }

  /** The bank holds the schedule with slot 3 part-way to the target. */
  predicate HoldsProgram(bank: Bank, slots: TimedSlots, to: TimedSlot) {
    exists p :: 0 <= p <= SLOT_WORDS && HoldsSlots(bank, slots[BOOST_SLOT := BlendSlot(slots[BOOST_SLOT], to, p)])
  }

  /** At every frame of a boost command, slot 3 is on its way to one slot and the rest is untouched. */
  lemma BoostIsProgram(f: Fates, s: Link, cfg: Config, mode: Mode, minutes: nat, now: nat, slots: TimedSlots)
    requires HoldsSlots(s.bank, slots)
    ensures var (t, end) := BoostSpec(f, s, cfg, mode, minutes, now);
            var to := BoostTarget(cfg, mode, minutes, now);
            && |s.trace| <= |t.trace| && HoldsProgram(t.bank, slots, to)
            && (forall n :: |s.trace| <= n < |t.trace| ==> HoldsProgram(t.trace[n].bank, slots, to))
            && (!end.Programmed? ==> t.bank == s.bank)
            && (end.Programmed? && end.out.err.None? ==> HoldsSlots(t.bank, slots[BOOST_SLOT := to]))
  {
    hide HoldsSlots, TimedSlotWriteRegisters, BlendSlot, PlanBoost, WearSafe, AckedSince, Landings, Differing, Overlay,
        IsTimed;
    var to := BoostTarget(cfg, mode, minutes, now);
    var (t, end) := BoostSpec(f, s, cfg, mode, minutes, now);
    var regs := TimedSlotWriteRegisters(BOOST_SLOT, to);
    SlotRegistersDistinct(BOOST_SLOT, to);
    BlendSlotStart(slots[BOOST_SLOT], to);
    assert slots[BOOST_SLOT := BlendSlot(slots[BOOST_SLOT], to, 0)] == slots;
    assert HoldsProgram(s.bank, slots, to);
    if end.Programmed? {
      var s1 := if mode == Off then s else ReadOne(f, s, REG_WORK_MODE).0;
      var cut := SequenceCut(f, s1, regs, false, 0);
      SlotPrefixBlends(s.bank, slots, BOOST_SLOT, to, cut);
      forall n | |s1.trace| <= n < |t.trace| ensures HoldsProgram(t.trace[n].bank, slots, to) {
        var j :| 0 <= j <= |regs| && t.trace[n].bank == Overlay(s.bank, regs[..j]);
        SlotPrefixBlends(s.bank, slots, BOOST_SLOT, to, j);
      }
      forall n | |s.trace| <= n < |s1.trace| ensures t.trace[n].bank == s.bank {
        assert t.trace[..|s1.trace|][n] == s1.trace[n];
      }
    }
  }

  /**
  Round trip of the select: a programmed, fully confirmed command reads back as its own option,
  and the boost read from the bank is the planned window, whatever the bank held before.
   */
  lemma SelectRoundTrip(f: Fates, s: Link, cfg: Config, payload: string, now: nat, slots: TimedSlots)
    requires ParseBoostOption(payload).Some? && BlockMapped(s.bank, REG_WORK_MODE, SETPOINT_BLOCK_COUNT)
    ensures var (mode, minutes) := ParseBoostOption(payload).value;
            var (t, end) := BoostSpec(f, s, cfg, mode, minutes, now);
            && BlockMapped(t.bank, REG_WORK_MODE, SETPOINT_BLOCK_COUNT)
            && (end.Programmed? && end.out.err.None? && SlotsOf(t.bank) == Success(slots) ==>
                  && BoostSelectState(slots) == Some(TrimSpace(payload))
                  && slots[BOOST_SLOT] == BoostTarget(cfg, mode, minutes, now)
                  && BoostOf(slots) == Boost(mode, WindowFor(mode, BoostTarget(cfg, mode, minutes, now))))
  {
    var (mode, minutes) := ParseBoostOption(payload).value;
    var (t, end) := BoostSpec(f, s, cfg, mode, minutes, now);
    var to := BoostTarget(cfg, mode, minutes, now);
    ParseBoostSound(payload);
    if end.Programmed? {
      var s1 := if mode == Off then s else ReadOne(f, s, REG_WORK_MODE).0;
      ProgramHolds(f, s1, to);
      if end.out.err.None? && SlotsOf(t.bank) == Success(slots) {
        DecodeInvertsEncode(t.bank, slots);
        assert slots[BOOST_SLOT] == to;
        OptionReadsBack(cfg, mode, minutes, now, slots);
      }
    }
  }

  lemma ProgramHolds(f: Fates, s: Link, to: TimedSlot)
    ensures var out := SequenceSpec(f, s, TimedSlotWriteRegisters(BOOST_SLOT, to), false, 0);
            && (out.err.None? ==> HoldsSlot(out.link.bank, BOOST_SLOT, to))
            && (forall a :: a in s.bank ==> a in out.link.bank)
  {
    var regs := TimedSlotWriteRegisters(BOOST_SLOT, to);
    var out := SequenceSpec(f, s, regs, false, 0);
    SlotRegistersDistinct(BOOST_SLOT, to);
    CutState(f, s, regs);
    var cut := SequenceCut(f, s, regs, false, 0);
    forall a | a in s.bank ensures a in out.link.bank {
      OverlayGrows(s.bank, regs[..cut], a);
    }
    if out.err.None? {
      forall r | r in regs ensures Holds(out.link.bank, r) {
        var i :| 0 <= i < |regs| && regs[i] == r;
      }
      HoldsFromRegisters(out.link.bank, BOOST_SLOT, to);
    }
  }

  lemma {:induction false} OverlayGrows(bank: Bank, regs: seq<Register>, a: int)
    requires a in bank
    ensures a in Overlay(bank, regs)
    decreases |regs|
  {
    if regs != [] {
      OverlayGrows(bank[regs[0].addr := regs[0].value], regs[1..], a);
    }
  }

  lemma RoundedLength(minutes: nat, length: int)
    requires minutes % BOOST_STEP == 0 && 0 < length && minutes - BOOST_STEP < length <= minutes
    ensures RoundUpToStep(length) == minutes
  {
    assert minutes == minutes / BOOST_STEP * BOOST_STEP;
  }

  lemma BoostReads(slots: TimedSlots, mode: Mode, w: TimedWindow)
    requires mode != Off && slots[BOOST_SLOT] == SlotFor(mode, w) && !w.IsZero()
    ensures BoostOf(slots) == Boost(mode, w)
  {
  }

  lemma StateReads(slots: TimedSlots, mode: Mode, w: TimedWindow, minutes: nat)
    requires mode != Off && BoostOf(slots) == Boost(mode, w) && minutes in BOOST_DURATIONS
    requires RoundUpToStep(EndMinuteOfDay(w.end) - MinuteOfDay(w.start)) == minutes
    ensures BoostSelectState(slots) == Some(BoostOption(mode, minutes))
  {
  }

  lemma DurationsOnGrid(minutes: nat)
    requires minutes in BOOST_DURATIONS
    ensures minutes % BOOST_STEP == 0
  {
  }

  lemma OptionReadsBack(cfg: Config, mode: Mode, minutes: nat, now: nat, slots: TimedSlots)
    requires slots[BOOST_SLOT] == BoostTarget(cfg, mode, minutes, now)
    requires mode != Off ==> minutes in BOOST_DURATIONS && PlanBoost(mode, minutes, now, cfg).Success?
    ensures BoostSelectState(slots) == Some(if mode == Off then "Off" else BoostOption(mode, minutes))
    ensures BoostOf(slots) == Boost(mode, WindowFor(mode, slots[BOOST_SLOT]))
  {
    if mode == Off {
      assert BoostOf(slots) == Boost(Off, UNSET);
    } else {
      PlanShape(mode, minutes, now, cfg);
      DurationsOnGrid(minutes);
      var w := WindowFor(mode, slots[BOOST_SLOT]);
      PlannedEnd(w);
      RoundedLength(minutes, MinuteOfDay(w.end) - MinuteOfDay(w.start));
      BoostReads(slots, mode, w);
      StateReads(slots, mode, w, minutes);
    }
  }

  lemma PlannedEnd(w: TimedWindow)
    requires MinuteOfDay(w.start) < MinuteOfDay(w.end)
    ensures !w.IsZero() && EndMinuteOfDay(w.end) == MinuteOfDay(w.end)
  {
  }

  // ------------------------------------------------------------------ the setpoints

  const REG_MAX_CHARGE_CURRENT := 43117
  const REG_MAX_DISCHARGE_CURRENT := 43118

  /** The control state read back from the inverter; currents are raw tenths of an amp. */
  datatype Setpoints = Setpoints(charge: Word, discharge: Word, maxCharge: Word, maxDischarge: Word,
      optimalIncome: bool, slots: TimedSlots)

  function SetpointsOf(regs: seq<Word>): Option<Setpoints> {
    if |regs| < SETPOINT_BLOCK_COUNT then None
    else
      var slots := DecodedSlots([Block(REG_WORK_MODE, regs)]);
      if slots.Failure? then None
      else Some(Setpoints(regs[REG_TIMED_CHARGE_CURRENT - REG_WORK_MODE],
          regs[REG_TIMED_DISCHARGE_CURRENT - REG_WORK_MODE],
                          regs[REG_MAX_CHARGE_CURRENT - REG_WORK_MODE], regs[REG_MAX_DISCHARGE_CURRENT - REG_WORK_MODE],
                          IsTimed(regs[0]), slots.value))
  }

  function ReadSetpointsSpec(f: Fates, s: Link): (Link, Option<Setpoints>) {
    var (next, reply) := ReadFrame(f, s, REG_WORK_MODE, SETPOINT_BLOCK_COUNT);
    (next, if reply.None? then None else SetpointsOf(reply.value))
  }

  /** Setpoints that were read are the bank's: its slots, currents, ceilings and timed bit. */
  lemma SetpointsAreTheBank(f: Fates, s: Link)
    ensures var (next, sp) := ReadSetpointsSpec(f, s);
            && next.bank == s.bank
            && (sp.Some? ==>
                  && BlockMapped(s.bank, REG_WORK_MODE, SETPOINT_BLOCK_COUNT)
                  && SlotsInRange(sp.value.slots) && HoldsSlots(s.bank, sp.value.slots)
                  && sp.value.optimalIncome == IsTimed(s.bank[REG_WORK_MODE])
                  && sp.value.charge == s.bank[REG_TIMED_CHARGE_CURRENT]
                  && sp.value.discharge == s.bank[REG_TIMED_DISCHARGE_CURRENT]
                  && sp.value.maxCharge == s.bank[REG_MAX_CHARGE_CURRENT]
                  && sp.value.maxDischarge == s.bank[REG_MAX_DISCHARGE_CURRENT])
  {
    var (next, sp) := ReadSetpointsSpec(f, s);
    if sp.Some? {
      DecodeInvertsEncode(s.bank, sp.value.slots);
    }
  }
}
