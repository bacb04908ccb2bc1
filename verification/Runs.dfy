/**
Whole runs: any sequence of commands and poll cycles, under any fates of their frames.
What holds here holds of every bank the inverter is ever left with, not only the last.
 */
module Runs {
  import opened Wrappers
  import opened Inverter
  import opened WorkModes
  import opened Banks
  import opened Blending
  import opened Schedule
  import opened Transients
  import opened Visits
  import opened Links
  import opened Controls

  /**
  A cycle is a published poll: the setpoint read, the clock sync if it drifted, the reconcile if the
  read was fresh. A poll whose publish failed, and the refresh after a command, only read.
   */
  datatype Event =
    | Commanded(c: Command, now: nat, rtc: RTCWords)
    | Cycle(now: nat, sync: Option<RTCWords>)
    | Reread

  /** What follows the setpoint read of a published poll. */
  function SettleSpec(f: Fates, s: Link, cfg: Config, enabled: bool, now: nat, sync: Option<RTCWords>,
      sp: Option<Setpoints>): Link {
    var s2 := if enabled && sync.Some? then SequenceSpec(f, s, RTCRegisters(sync.value), false, 0).link else s;
    if sp.None? then s2 else ReconcileSpec(f, s2, cfg, enabled, sp.value.slots, now).link
  }

  function CycleSpec(f: Fates, s: Link, cfg: Config, enabled: bool, now: nat, sync: Option<RTCWords>): Link {
    var (s1, sp) := ReadSetpointsSpec(f, s);
    SettleSpec(f, s1, cfg, enabled, now, sync, sp)
  }

  function EventSpec(f: Fates, s: Link, cfg: Config, enabled: bool, e: Event): Link {
    match e
    case Commanded(c, now, rtc) => CommandSpec(f, s, cfg, enabled, c, now, rtc).0
    case Cycle(now, sync) => CycleSpec(f, s, cfg, enabled, now, sync)
    case Reread => ReadSetpointsSpec(f, s).0
  }

  function RunSpec(f: Fates, s: Link, cfg: Config, enabled: bool, events: seq<Event>): Link
    decreases |events|
  {
    if events == [] then s else RunSpec(f, EventSpec(f, s, cfg, enabled, events[0]), cfg, enabled, events[1..])
  }

  // ------------------------------------------------------------- what a run may change

  predicate RTCAddress(a: int) {
    REG_RTC_SET <= a < REG_RTC_SET + RTC_REGISTER_COUNT
  }

  predicate Writable(a: int) {
    RTCAddress(a) || a == REG_WORK_MODE || a == REG_TIMED_CHARGE_CURRENT || a == REG_TIMED_DISCHARGE_CURRENT
        || SlotAddress(a)
  }

  /** Slot words alternate hour and minute from an odd address. */
  function FieldMax(a: int): Word {
    if a % 2 == 1 then MAX_HOUR else MAX_MINUTE
  }

  /** Slots can be decoded: every word of theirs is there and is a valid hour or minute. */
  predicate Decodable(b: Bank) {
    BlockMapped(b, REG_WORK_MODE, SETPOINT_BLOCK_COUNT) && forall a :: a in b && SlotAddress(a) ==> b[a] <= FieldMax(a)
  }

  /** b is the bank b0 but for the clock, the two currents, valid slot words and bit 1 of 43110. */
  predicate Kept(b0: Bank, b: Bank) {
    && b.Keys == b0.Keys && Decodable(b)
    && (forall a :: a in b0 && !Writable(a) ==> b[a] == b0[a])
    && SameButTimed(b0[REG_WORK_MODE], b[REG_WORK_MODE])
  }

  /** A register every sequence may carry: not the work mode, and a valid field if a slot word. */
  predicate Plain(r: Register) {
    Writable(r.addr) && r.addr != REG_WORK_MODE && (SlotAddress(r.addr) ==> r.value <= FieldMax(r.addr))
  }

  predicate KeptSince(b0: Bank, trace: seq<Frame>, n: nat) {
    forall i :: n <= i < |trace| ==> Kept(b0, trace[i].bank)
  }

  /** t continues s, keeps the bank at every frame, and wears flash safely. */
  predicate Continues(b0: Bank, s: Link, t: Link) {
    && |s.trace| <= |t.trace| && t.trace[..|s.trace|] == s.trace
    && KeptSince(b0, t.trace, |s.trace|) && Kept(b0, t.bank) && WearSafe(t.trace, |s.trace|)
  }

  lemma KeptReflexive(b: Bank)
    requires Decodable(b)
    ensures Kept(b, b)
  {
  }

  lemma WriteKeeps(b0: Bank, b: Bank, r: Register)
    requires Kept(b0, b) && r.addr in b
    requires Plain(r) || (r.addr == REG_WORK_MODE && SameButTimed(b[REG_WORK_MODE], r.value))
    ensures Kept(b0, b[r.addr := r.value])
  {
    hide SameButTimed;
    var next := b[r.addr := r.value];
    assert next.Keys == b.Keys;
    if r.addr == REG_WORK_MODE {
      SameButTimedTransitive(b0[REG_WORK_MODE], b[REG_WORK_MODE], r.value);
    }
  }

  lemma ContinuesCompose(b0: Bank, s: Link, t: Link, u: Link)
    requires Continues(b0, s, t) && Continues(b0, t, u)
    ensures Continues(b0, s, u)
  {
    assert u.trace[..|s.trace|] == t.trace[..|s.trace|];
    forall i | |s.trace| <= i < |t.trace| ensures u.trace[i] == t.trace[i] {
      assert u.trace[..|t.trace|][i] == t.trace[i];
    }
  }

  lemma StepContinues(b0: Bank, s: Link, t: Link, r: Register, wrote: bool, err: Option<GuardError>)
    requires Kept(b0, s.bank) && Stepped(s, t, r, wrote, err)
    requires Plain(r) || (r.addr == REG_WORK_MODE
        && (r.addr in s.bank ==> SameButTimed(s.bank[REG_WORK_MODE], r.value)))
    ensures Continues(b0, s, t)
  {
    if t.bank != s.bank {
      WriteKeeps(b0, s.bank, r);
    }
  }

  lemma ReadContinues(b0: Bank, s: Link, rd: Frame)
    requires Kept(b0, s.bank) && rd.Read? && rd.bank == s.bank
    ensures Continues(b0, s, Link(s.bank, s.trace + [rd]))
  {
  }

  lemma {:induction false} SequenceContinues(f: Fates, b0: Bank, s: Link, regs: seq<Register>, wrote: bool, at: nat)
    requires Kept(b0, s.bank) && forall r :: r in regs ==> Plain(r)
    ensures Continues(b0, s, SequenceSpec(f, s, regs, wrote, at).link)
    decreases |regs|
  {
    if regs != [] {
      var (next, w, err) := AttemptSpec(f, s, regs[0]);
      AttemptSteps(f, s, regs[0]);
      StepContinues(b0, s, next, regs[0], w, err);
      if err.None? {
        SequenceContinues(f, b0, next, regs[1..], wrote || w, at + 1);
        ContinuesCompose(b0, s, next, SequenceSpec(f, next, regs[1..], wrote || w, at + 1).link);
      }
    }
  }

  lemma SlotRegistersPlain(i: int, slot: TimedSlot)
    requires 0 <= i <= 2 && slot.InRange()
    ensures forall r :: r in TimedSlotWriteRegisters(i, slot) ==> Plain(r)
  {
  }

  lemma DiffPlain(desired: TimedSlots, current: TimedSlots)
    requires SlotsInRange(desired)
    ensures forall r :: r in Diff(desired, current) ==> Plain(r)
  {
    DifferingMembers(AllRegisters(desired), Image(current));
    SlotRegistersPlain(0, desired[0]);
    SlotRegistersPlain(1, desired[1]);
    SlotRegistersPlain(2, desired[2]);
  }

  lemma RTCPlain(words: RTCWords)
    ensures forall r :: r in RTCRegisters(words) ==> Plain(r) && !SlotAddress(r.addr)
  {
  }

  lemma BoostTargetInRange(cfg: Config, mode: Mode, minutes: nat, now: nat)
    ensures BoostTarget(cfg, mode, minutes, now).InRange()
    ensures !BoostTarget(cfg, mode, minutes, now).Both()
  {
    if mode != Off && PlanBoost(mode, minutes, now, cfg).Success? {
      PlanShape(mode, minutes, now, cfg);
    }
  }

  lemma GuardOneContinues(f: Fates, b0: Bank, s: Link, addr: int, value: Word)
    requires Kept(b0, s.bank)
    requires Plain(Register(addr, value)) || (addr == REG_WORK_MODE && SameButTimed(s.bank[REG_WORK_MODE], value))
    ensures Continues(b0, s, GuardOneSpec(f, s, addr, value))
  {
    GuardSteps(f, s, Register(addr, value));
    var (t, g) := GuardSpec(f, s, addr, value);
    StepContinues(b0, s, t, Register(addr, value), g.wrote, g.err);
  }

  lemma BoostContinues(f: Fates, b0: Bank, s: Link, cfg: Config, mode: Mode, minutes: nat, now: nat)
    requires Kept(b0, s.bank)
    ensures Continues(b0, s, BoostSpec(f, s, cfg, mode, minutes, now).0)
  {
    var to := BoostTarget(cfg, mode, minutes, now);
    BoostTargetInRange(cfg, mode, minutes, now);
    SlotRegistersPlain(BOOST_SLOT, to);
    if mode == Off {
      SequenceContinues(f, b0, s, TimedSlotWriteRegisters(BOOST_SLOT, EMPTY), false, 0);
    } else {
      var (s1, current) := ReadOne(f, s, REG_WORK_MODE);
      ReadContinues(b0, s, s1.trace[|s.trace|]);
      if BoostSpec(f, s, cfg, mode, minutes, now).1.Programmed? {
        SequenceContinues(f, b0, s1, TimedSlotWriteRegisters(BOOST_SLOT, to), false, 0);
        ContinuesCompose(b0, s, s1, BoostSpec(f, s, cfg, mode, minutes, now).0);
      }
    }
  }

  lemma OptimalIncomeContinues(f: Fates, b0: Bank, s: Link, run: bool)
    requires Kept(b0, s.bank)
    ensures Continues(b0, s, OptimalIncomeSpec(f, s, run))
  {
    var (s1, current) := ReadOne(f, s, REG_WORK_MODE);
    ReadContinues(b0, s, s1.trace[|s.trace|]);
    if current.Some? {
      TimedWordFlipsOneBit(current.value, run);
      GuardOneContinues(f, b0, s1, REG_WORK_MODE, TimedWord(current.value, run));
      ContinuesCompose(b0, s, s1, OptimalIncomeSpec(f, s, run));
    }
  }

  lemma CommandContinues(f: Fates, b0: Bank, s: Link, cfg: Config, enabled: bool, c: Command, now: nat, rtc: RTCWords)
    requires Kept(b0, s.bank)
    ensures Continues(b0, s, CommandSpec(f, s, cfg, enabled, c, now, rtc).0)
  {
    assert Continues(b0, s, s);
    match c
    case SetChargeCurrent(Some(w)) => GuardOneContinues(f, b0, s, REG_TIMED_CHARGE_CURRENT, w);
    case SetDischargeCurrent(Some(w)) => GuardOneContinues(f, b0, s, REG_TIMED_DISCHARGE_CURRENT, w);
    case OptimalIncome(Some(run)) => OptimalIncomeContinues(f, b0, s, run);
    case BoostSelect(payload) =>
      var option := ParseBoostOption(payload);
      if option.Some? {
        BoostContinues(f, b0, s, cfg, option.value.0, option.value.1, now);
      }
    case RTCSync =>
      RTCPlain(rtc);
      SequenceContinues(f, b0, s, RTCRegisters(rtc), false, 0);
    case _ =>
  }

  lemma ReconcileContinues(f: Fates, b0: Bank, s: Link, cfg: Config, enabled: bool, slots: TimedSlots, now: nat)
    requires Kept(b0, s.bank) && cfg.tou.InRange() && SlotsInRange(slots)
    ensures Continues(b0, s, ReconcileSpec(f, s, cfg, enabled, slots, now).link)
  {
    DesiredInRange(cfg, slots, now);
    DiffPlain(Desired(cfg, slots, now), slots);
    SequenceContinues(f, b0, s, Diff(Desired(cfg, slots, now), slots), false, 0);
  }

  /** The clock sync of a cycle leaves the slots the cycle read as they were. */
  lemma SyncLeavesSlots(f: Fates, s: Link, words: RTCWords, slots: TimedSlots)
    requires HoldsSlots(s.bank, slots)
    ensures HoldsSlots(SequenceSpec(f, s, RTCRegisters(words), false, 0).link.bank, slots)
  {
    var regs := RTCRegisters(words);
    var cut := SequenceCut(f, s, regs, false, 0);
    forall a | SlotAddress(a) && a in s.bank
      ensures a in Overlay(s.bank, regs[..cut]) && Overlay(s.bank, regs[..cut])[a] == s.bank[a]
    {
      OverlayUntouched(s.bank, regs[..cut], a);
    }
    HoldsByAddress(s.bank, Overlay(s.bank, regs[..cut]), slots);
  }

  lemma HoldsByAddress(a: Bank, b: Bank, slots: TimedSlots)
    requires HoldsSlots(a, slots)
    requires forall x :: SlotAddress(x) && x in a ==> x in b && b[x] == a[x]
    ensures HoldsSlots(b, slots)
  {
    forall i | 0 <= i <= 2 ensures HoldsSlot(b, i, slots[i]) {
      forall x | SlotBase(i) + CHARGE_OFFSET <= x < SlotBase(i) + CHARGE_OFFSET + SLOT_WORDS ensures SlotAddress(x) {
      }
    }
  }

  lemma SettleContinues(f: Fates, b0: Bank, s: Link, cfg: Config, enabled: bool, now: nat, sync: Option<RTCWords>,
      sp: Option<Setpoints>)
    requires Kept(b0, s.bank) && cfg.tou.InRange() && (sp.Some? ==> SlotsInRange(sp.value.slots))
    ensures Continues(b0, s, SettleSpec(f, s, cfg, enabled, now, sync, sp))
  {
    hide Plain, SequenceSpec, ReconcileSpec;
    var s2 := SettleSpec(f, s, cfg, enabled, now, sync, None);
    if enabled && sync.Some? {
      RTCPlain(sync.value);
      SequenceContinues(f, b0, s, RTCRegisters(sync.value), false, 0);
    }
    assert Continues(b0, s, s2);
    if sp.Some? {
      ReconcileContinues(f, b0, s2, cfg, enabled, sp.value.slots, now);
      ContinuesCompose(b0, s, s2, SettleSpec(f, s, cfg, enabled, now, sync, sp));
    }
  }

  lemma CycleContinues(f: Fates, b0: Bank, s: Link, cfg: Config, enabled: bool, now: nat, sync: Option<RTCWords>)
    requires Kept(b0, s.bank) && cfg.tou.InRange()
    ensures Continues(b0, s, CycleSpec(f, s, cfg, enabled, now, sync))
  {
    var (s1, sp) := ReadSetpointsSpec(f, s);
    SetpointsAreTheBank(f, s);
    ReadContinues(b0, s, s1.trace[|s.trace|]);
    SettleContinues(f, b0, s1, cfg, enabled, now, sync, sp);
    ContinuesCompose(b0, s, s1, SettleSpec(f, s1, cfg, enabled, now, sync, sp));
  }

  lemma RereadContinues(f: Fates, b0: Bank, s: Link)
    requires Kept(b0, s.bank)
    ensures Continues(b0, s, ReadSetpointsSpec(f, s).0)
  {
    ReadContinues(b0, s, ReadSetpointsSpec(f, s).0.trace[|s.trace|]);
  }

  /**
  The run invariant. From any decodable bank, through any commands and cycles and whatever the
  link does, every bank ever seen still decodes, differs from the first only in the clock, the
  currents, the slot words and bit 1 of 43110, and every write followed a differing read.
   */
  lemma {:induction false} RunKeepsBank(f: Fates, b0: Bank, s: Link, cfg: Config, enabled: bool, events: seq<Event>)
    requires Kept(b0, s.bank) && cfg.tou.InRange()
    ensures Continues(b0, s, RunSpec(f, s, cfg, enabled, events))
    decreases |events|
  {
    if events != [] {
      var t := EventSpec(f, s, cfg, enabled, events[0]);
      match events[0] {
        case Commanded(c, now, rtc) => CommandContinues(f, b0, s, cfg, enabled, c, now, rtc);
        case Cycle(now, sync) => CycleContinues(f, b0, s, cfg, enabled, now, sync);
        case Reread => RereadContinues(f, b0, s);
      }
      RunKeepsBank(f, b0, t, cfg, enabled, events[1..]);
      ContinuesCompose(b0, s, t, RunSpec(f, t, cfg, enabled, events[1..]));
    }
  }

  lemma DecodableWord(b: Bank, i: int, a: int)
    requires Decodable(b) && 0 <= i <= 2 && SlotBase(i) + CHARGE_OFFSET <= a < SlotBase(i) + CHARGE_OFFSET + SLOT_WORDS
    ensures a in b && b[a] <= if a % 2 == 1 then MAX_HOUR else MAX_MINUTE
  {
    assert SlotAddress(a);
  }

  lemma DecodableWindow(b: Bank, i: int, first: int)
    requires Decodable(b) && 0 <= i <= 2
    requires first == SlotBase(i) + CHARGE_OFFSET || first == SlotBase(i) + DISCHARGE_OFFSET
    ensures DecodeTimedWindow([Block(REG_WORK_MODE, BlockWords(b, REG_WORK_MODE, SETPOINT_BLOCK_COUNT))],
        first).Success?
  {
    DecodableWord(b, i, first);
    DecodableWord(b, i, first + 1);
    DecodableWord(b, i, first + 2);
    DecodableWord(b, i, first + 3);
    BlockReadsBank(b, first);
    BlockReadsBank(b, first + 1);
    BlockReadsBank(b, first + 2);
    BlockReadsBank(b, first + 3);
  }

  lemma DecodableSlot(b: Bank, i: int)
    requires Decodable(b) && 0 <= i <= 2
    ensures DecodeSlot([Block(REG_WORK_MODE, BlockWords(b, REG_WORK_MODE, SETPOINT_BLOCK_COUNT))], i).Success?
  {
    DecodableWindow(b, i, SlotBase(i) + CHARGE_OFFSET);
    DecodableWindow(b, i, SlotBase(i) + DISCHARGE_OFFSET);
  }

  /** Every bank of a run decodes. */
  lemma KeptDecodes(b0: Bank, b: Bank)
    requires Kept(b0, b)
    ensures SlotsOf(b).Success? && SlotsInRange(SlotsOf(b).value) && HoldsSlots(b, SlotsOf(b).value)
  {
    DecodableSlot(b, 0);
    DecodableSlot(b, 1);
    DecodableSlot(b, 2);
    DecodeInvertsEncode(b, SlotsOf(b).value);
  }

  /** The unconfirmed leading pairs of slots 2 and 3 are never changed. */
  lemma LeadingPairsKept(b0: Bank, b: Bank, i: int, a: int)
    requires Kept(b0, b) && 1 <= i <= 2 && SlotBase(i) <= a < SlotBase(i) + CHARGE_OFFSET && a in b0
    ensures b[a] == b0[a]
  {
  }

  // --------------------------------------------------------------- one direction at a time

  /** No slot is armed both ways in x unless it already was in b. */
  ghost predicate OneDirection(b: Bank, x: Bank) {
    forall was: TimedSlots, seen: TimedSlots, i: int ::
        HoldsSlots(b, was) && HoldsSlots(x, seen) && 0 <= i <= 2 && seen[i].Both() ==> was[i].Both()
  }

  /** t continues s, and at no frame of it is a slot armed both ways that was not so in s. */
  ghost predicate Narrow(s: Link, t: Link) {
    && |s.trace| <= |t.trace| && t.trace[..|s.trace|] == s.trace && OneDirection(s.bank, t.bank)
    && forall i :: |s.trace| <= i < |t.trace| ==> OneDirection(s.bank, t.trace[i].bank)
  }

  lemma ProgramOneDirection(b: Bank, x: Bank, slots: TimedSlots, to: TimedSlot)
    requires HoldsSlots(b, slots) && HoldsProgram(x, slots, to) && !to.Both()
    ensures OneDirection(b, x)
  {
    var p :| 0 <= p <= SLOT_WORDS && HoldsSlots(x, slots[BOOST_SLOT := BlendSlot(slots[BOOST_SLOT], to, p)]);
    BlendKeepsOneDirection(slots[BOOST_SLOT], to, p);
    OneDirectionBy(b, x, slots, slots[BOOST_SLOT := BlendSlot(slots[BOOST_SLOT], to, p)]);
  }

  lemma OneDirectionBy(b: Bank, x: Bank, slots: TimedSlots, now: TimedSlots)
    requires HoldsSlots(b, slots) && HoldsSlots(x, now)
    requires forall i :: 0 <= i <= 2 && now[i].Both() ==> slots[i].Both()
    ensures OneDirection(b, x)
  {
    forall was: TimedSlots, seen: TimedSlots, i: int | HoldsSlots(b, was) && HoldsSlots(x, seen) && 0 <= i <= 2
        && seen[i].Both()
      ensures was[i].Both()
    {
      HoldsUnique(b, was, slots);
      HoldsUnique(x, seen, now);
    }
  }

  lemma VisitOneDirection(b: Bank, x: Bank, cfg: Config, slots: TimedSlots, now: nat)
    requires HoldsSlots(b, slots) && HoldsVisit(x, cfg, slots, now)
    ensures OneDirection(b, x)
  {
    hide HoldsSlots;
    var k :| 0 <= k <= ALL_WORDS && HoldsSlots(x, After(cfg, slots, Visit(now, k)));
    var after := After(cfg, slots, Visit(now, k));
    forall i | 0 <= i <= 2 && after[i].Both() ensures slots[i].Both() {
      DesiredKeepsOneDirection(cfg, slots, now, i);
      BlendKeepsOneDirection(slots[i], Desired(cfg, slots, now)[i], k - i * SLOT_WORDS);
    }
    OneDirectionBy(b, x, slots, after);
  }

  lemma NarrowReflexive(s: Link)
    ensures Narrow(s, s)
  {
    forall was: TimedSlots, seen: TimedSlots | HoldsSlots(s.bank, was) && HoldsSlots(s.bank, seen) ensures was == seen {
      HoldsUnique(s.bank, was, seen);
    }
  }

  lemma OneDirectionVia(a: Bank, b: Bank, x: Bank, mid: TimedSlots)
    requires OneDirection(a, b) && OneDirection(b, x) && HoldsSlots(b, mid)
    ensures OneDirection(a, x)
  {
    forall was: TimedSlots, seen: TimedSlots, i: int | HoldsSlots(a, was) && HoldsSlots(x, seen) && 0 <= i <= 2
        && seen[i].Both()
      ensures was[i].Both()
    {
      assert mid[i].Both();
    }
  }

  lemma NarrowCompose(b0: Bank, s: Link, t: Link, u: Link)
    requires Narrow(s, t) && Narrow(t, u) && Kept(b0, t.bank)
    ensures Narrow(s, u)
  {
    KeptDecodes(b0, t.bank);
    var mid := SlotsOf(t.bank).value;
    assert u.trace[..|s.trace|] == t.trace[..|s.trace|];
    OneDirectionVia(s.bank, t.bank, u.bank, mid);
    forall i | |s.trace| <= i < |u.trace| ensures OneDirection(s.bank, u.trace[i].bank) {
      if i < |t.trace| {
        assert u.trace[..|t.trace|][i] == t.trace[i];
      } else {
        OneDirectionVia(s.bank, t.bank, u.trace[i].bank, mid);
      }
    }
  }

  /** x has the slot words of b. */
  predicate SameSlotWords(b: Bank, x: Bank) {
    x.Keys == b.Keys && forall a :: a in b && SlotAddress(a) ==> x[a] == b[a]
  }

  lemma SameSlotsOneDirection(b: Bank, x: Bank)
    requires SameSlotWords(b, x)
    ensures OneDirection(b, x)
  {
    forall was: TimedSlots, seen: TimedSlots, i: int | HoldsSlots(b, was) && HoldsSlots(x, seen) && 0 <= i <= 2
        && seen[i].Both()
      ensures was[i].Both()
    {
      HoldsByAddress(b, x, was);
      HoldsUnique(x, was, seen);
    }
  }

  lemma StepNarrow(s: Link, t: Link, r: Register, wrote: bool, err: Option<GuardError>)
    requires Stepped(s, t, r, wrote, err) && !SlotAddress(r.addr)
    ensures Narrow(s, t)
  {
    assert SameSlotWords(s.bank, t.bank);
    SameSlotsOneDirection(s.bank, s.bank);
    SameSlotsOneDirection(s.bank, t.bank);
  }

  lemma {:induction false} SequenceNarrow(f: Fates, b0: Bank, s: Link, regs: seq<Register>, wrote: bool, at: nat)
    requires Kept(b0, s.bank) && forall r :: r in regs ==> Plain(r) && !SlotAddress(r.addr)
    ensures Narrow(s, SequenceSpec(f, s, regs, wrote, at).link)
    decreases |regs|
  {
    NarrowReflexive(s);
    if regs != [] {
      var (next, w, err) := AttemptSpec(f, s, regs[0]);
      AttemptSteps(f, s, regs[0]);
      StepNarrow(s, next, regs[0], w, err);
      StepContinues(b0, s, next, regs[0], w, err);
      if err.None? {
        SequenceNarrow(f, b0, next, regs[1..], wrote || w, at + 1);
        NarrowCompose(b0, s, next, SequenceSpec(f, next, regs[1..], wrote || w, at + 1).link);
      }
    }
  }

  lemma ReadNarrow(s: Link, rd: Frame)
    requires rd.bank == s.bank
    ensures Narrow(s, Link(s.bank, s.trace + [rd]))
  {
    NarrowReflexive(s);
  }

  /** Whatever the link does, no frame of a reconcile arms a slot both ways that was not so before it. */
  lemma ReconcileNarrow(f: Fates, s: Link, cfg: Config, enabled: bool, slots: TimedSlots, now: nat)
    requires HoldsSlots(s.bank, slots)
    ensures Narrow(s, ReconcileSpec(f, s, cfg, enabled, slots, now).link)
  {
    NarrowReflexive(s);
    if enabled {
      var t := ReconcileSpec(f, s, cfg, true, slots, now).link;
      var v := ReconcileIsVisit(f, s, cfg, slots, now);
      var cut := SequenceCut(f, s, Diff(Desired(cfg, slots, now), slots), false, 0);
      forall n | |s.trace| <= n < |t.trace| ensures OneDirection(s.bank, t.trace[n].bank) {
        VisitOneDirection(s.bank, t.trace[n].bank, cfg, slots, now);
      }
      var k := DiffPrefixIsVisit(s.bank, cfg, slots, now, cut);
      assert HoldsVisit(t.bank, cfg, slots, now);
      VisitOneDirection(s.bank, t.bank, cfg, slots, now);
    }
  }

  /** Nor does any frame of a boost command, whichever option it carries. */
  lemma BoostNarrow(f: Fates, s: Link, cfg: Config, mode: Mode, minutes: nat, now: nat, slots: TimedSlots)
    requires HoldsSlots(s.bank, slots) && Decodable(s.bank)
    ensures Narrow(s, BoostSpec(f, s, cfg, mode, minutes, now).0)
  {
    var to := BoostTarget(cfg, mode, minutes, now);
    var t := BoostSpec(f, s, cfg, mode, minutes, now).0;
    BoostTargetInRange(cfg, mode, minutes, now);
    BoostIsProgram(f, s, cfg, mode, minutes, now, slots);
    KeptReflexive(s.bank);
    BoostContinues(f, s.bank, s, cfg, mode, minutes, now);
    ProgramOneDirection(s.bank, t.bank, slots, to);
    forall n | |s.trace| <= n < |t.trace| ensures OneDirection(s.bank, t.trace[n].bank) {
      ProgramOneDirection(s.bank, t.trace[n].bank, slots, to);
    }
  }

  lemma GuardOneNarrow(f: Fates, s: Link, addr: int, value: Word)
    requires !SlotAddress(addr)
    ensures Narrow(s, GuardOneSpec(f, s, addr, value))
  {
    GuardSteps(f, s, Register(addr, value));
    var (t, g) := GuardSpec(f, s, addr, value);
    StepNarrow(s, t, Register(addr, value), g.wrote, g.err);
  }

  lemma OptimalIncomeNarrow(f: Fates, b0: Bank, s: Link, run: bool)
    requires Kept(b0, s.bank)
    ensures Narrow(s, OptimalIncomeSpec(f, s, run))
  {
    var (s1, current) := ReadOne(f, s, REG_WORK_MODE);
    ReadNarrow(s, s1.trace[|s.trace|]);
    if current.Some? {
      GuardOneNarrow(f, s1, REG_WORK_MODE, TimedWord(current.value, run));
      NarrowCompose(b0, s, s1, OptimalIncomeSpec(f, s, run));
    }
  }

  lemma CommandNarrow(f: Fates, b0: Bank, s: Link, cfg: Config, enabled: bool, c: Command, now: nat, rtc: RTCWords)
    requires Kept(b0, s.bank)
    ensures Narrow(s, CommandSpec(f, s, cfg, enabled, c, now, rtc).0)
  {
    NarrowReflexive(s);
    match c
    case SetChargeCurrent(Some(w)) => GuardOneNarrow(f, s, REG_TIMED_CHARGE_CURRENT, w);
    case SetDischargeCurrent(Some(w)) => GuardOneNarrow(f, s, REG_TIMED_DISCHARGE_CURRENT, w);
    case OptimalIncome(Some(run)) => OptimalIncomeNarrow(f, b0, s, run);
    case BoostSelect(payload) =>
      var option := ParseBoostOption(payload);
      KeptDecodes(b0, s.bank);
      if option.Some? {
        BoostNarrow(f, s, cfg, option.value.0, option.value.1, now, SlotsOf(s.bank).value);
      }
    case RTCSync =>
      RTCPlain(rtc);
      SequenceNarrow(f, b0, s, RTCRegisters(rtc), false, 0);
    case _ =>
  }

  lemma SettleNarrow(f: Fates, b0: Bank, s: Link, cfg: Config, enabled: bool, now: nat, sync: Option<RTCWords>,
      sp: Option<Setpoints>)
    requires Kept(b0, s.bank) && (sp.Some? ==> HoldsSlots(s.bank, sp.value.slots))
    ensures Narrow(s, SettleSpec(f, s, cfg, enabled, now, sync, sp))
  {
    hide Narrow, Kept, Plain, SequenceSpec, ReconcileSpec, HoldsSlots;
    var s2 := SettleSpec(f, s, cfg, enabled, now, sync, None);
    NarrowReflexive(s);
    if enabled && sync.Some? {
      RTCPlain(sync.value);
      SequenceContinues(f, b0, s, RTCRegisters(sync.value), false, 0);
      SequenceNarrow(f, b0, s, RTCRegisters(sync.value), false, 0);
      if sp.Some? {
        SyncLeavesSlots(f, s, sync.value, sp.value.slots);
      }
    }
    if sp.Some? {
      ReconcileNarrow(f, s2, cfg, enabled, sp.value.slots, now);
      NarrowCompose(b0, s, s2, SettleSpec(f, s, cfg, enabled, now, sync, sp));
    }
  }

  lemma CycleNarrow(f: Fates, b0: Bank, s: Link, cfg: Config, enabled: bool, now: nat, sync: Option<RTCWords>)
    requires Kept(b0, s.bank)
    ensures Narrow(s, CycleSpec(f, s, cfg, enabled, now, sync))
  {
    var (s1, sp) := ReadSetpointsSpec(f, s);
    SetpointsAreTheBank(f, s);
    ReadNarrow(s, s1.trace[|s.trace|]);
    SettleNarrow(f, b0, s1, cfg, enabled, now, sync, sp);
    NarrowCompose(b0, s, s1, SettleSpec(f, s1, cfg, enabled, now, sync, sp));
  }

  lemma RereadNarrow(f: Fates, s: Link)
    ensures Narrow(s, ReadSetpointsSpec(f, s).0)
  {
    ReadNarrow(s, ReadSetpointsSpec(f, s).0.trace[|s.trace|]);
  }

  /**
  No transit through both windows. In every bank of every run, under any fates, a slot is armed
  in both directions only if it was so in the bank the run started from.
   */
  lemma {:induction false} RunNarrow(f: Fates, b0: Bank, s: Link, cfg: Config, enabled: bool, events: seq<Event>)
    requires Kept(b0, s.bank) && cfg.tou.InRange()
    ensures Narrow(s, RunSpec(f, s, cfg, enabled, events))
    decreases |events|
  {
    NarrowReflexive(s);
    if events != [] {
      var t := EventSpec(f, s, cfg, enabled, events[0]);
      match events[0] {
        case Commanded(c, now, rtc) =>
          CommandContinues(f, b0, s, cfg, enabled, c, now, rtc);
          CommandNarrow(f, b0, s, cfg, enabled, c, now, rtc);
        case Cycle(now, sync) =>
          CycleContinues(f, b0, s, cfg, enabled, now, sync);
          CycleNarrow(f, b0, s, cfg, enabled, now, sync);
        case Reread =>
          RereadContinues(f, b0, s);
          RereadNarrow(f, s);
      }
      RunNarrow(f, b0, t, cfg, enabled, events[1..]);
      NarrowCompose(b0, s, t, RunSpec(f, t, cfg, enabled, events[1..]));
    }
  }
}
