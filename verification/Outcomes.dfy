/**
What messages do to the inverter, in its own registers: what each key may write under any faults,
what it leaves behind when its frames are delivered, and when it leaves everything alone.
 */
module Outcomes {
  import opened Wrappers
  import opened Inverter
  import opened WorkModes
  import opened Banks
  import opened Blending
  import opened Schedule
  import opened Links
  import opened Controls
  import opened Topics
  import opened Runs

  /** From s on every frame is delivered. */
  ghost predicate Delivered(f: Fates, s: Link) {
    forall i :: i >= |s.trace| ==> f(i) == Deliver
  }

  /** t continues s and only reads. */
  predicate OnlyReads(s: Link, t: Link) {
    && |s.trace| <= |t.trace| && t.trace[..|s.trace|] == s.trace && t.bank == s.bank
    && forall i :: |s.trace| <= i < |t.trace| ==> t.trace[i].Read?
  }

  // ---------------------------------------------------------------- the register map

  /** Slot 1, 2 or 3 as the register map has it: from 43143, 43153 or 43163, charge words before discharge words. */
  lemma SlotByAddress(bank: Bank, i: int, slot: TimedSlot)
    requires 0 <= i <= 2
    ensures var a := 43143 + 10 * i;
            HoldsSlot(bank, i, slot)
            <==> && a in bank && bank[a] == slot.charge.start.hour
                 && a + 1 in bank && bank[a + 1] == slot.charge.start.minute
                 && a + 2 in bank && bank[a + 2] == slot.charge.end.hour
                 && a + 3 in bank && bank[a + 3] == slot.charge.end.minute
                 && a + 4 in bank && bank[a + 4] == slot.discharge.start.hour
                 && a + 5 in bank && bank[a + 5] == slot.discharge.start.minute
                 && a + 6 in bank && bank[a + 6] == slot.discharge.end.hour
                 && a + 7 in bank && bank[a + 7] == slot.discharge.end.minute
  {
  }

  /** The order of a slot's writes: discharge words first if only its charge window is set, else charge words first. */
  lemma WriteOrder(i: int, slot: TimedSlot)
    requires 0 <= i <= 2
    ensures var regs, a := TimedSlotWriteRegisters(i, slot), 43143 + 10 * i;
            var charge, discharge := slot.charge, slot.discharge;
            && |regs| == 8
            && forall k :: 0 <= k < 8 ==>
                 regs[k].addr == if charge != UNSET && discharge == UNSET then a + (k + 4) % 8 else a + k
  {
  }

  /** Setpoints that were read are these registers of the bank. */
  lemma SetpointsByAddress(f: Fates, s: Link)
    ensures var (next, sp) := ReadSetpointsSpec(f, s);
            && OnlyReads(s, next)
            && (sp.Some? ==>
                  && 43110 in s.bank && 43117 in s.bank && 43118 in s.bank && 43141 in s.bank && 43142 in s.bank
                  && (sp.value.optimalIncome <==> s.bank[43110] / 2 % 2 == 1)
                  && sp.value.maxCharge == s.bank[43117] && sp.value.maxDischarge == s.bank[43118]
                  && sp.value.charge == s.bank[43141] && sp.value.discharge == s.bank[43142]
                  && HoldsSlots(s.bank, sp.value.slots))
  {
    hide HoldsSlots, IsTimed;
    SetpointsAreTheBank(f, s);
    if ReadSetpointsSpec(f, s).1.Some? {
      TimedIsBit(s.bank[43110]);
    }
  }

  // ----------------------------------------------------------- delivered sequences

  /** With every frame delivered a sequence over registers the inverter has writes them all. */
  lemma {:induction false} SequenceDelivered(f: Fates, s: Link, regs: seq<Register>, wrote: bool, at: nat)
    requires Delivered(f, s) && Mapped(regs, s.bank)
    ensures var out := SequenceSpec(f, s, regs, wrote, at); out.err.None? && out.link.bank == Overlay(s.bank, regs)
    decreases |regs|
  {
    hide AttemptSpec;
    if regs != [] {
      assert regs[0] in regs;
      DeliveredAttempt(f, s, regs[0]);
      var (next, w, _) := AttemptSpec(f, s, regs[0]);
      SequenceDelivered(f, next, regs[1..], wrote || w, at + 1);
    }
  }

  /** A clock sync that reports no error leaves the words of the clock in registers 43000 to 43005, in order. */
  lemma RTCAtTheBank(f: Fates, s: Link, words: RTCWords)
    requires SequenceSpec(f, s, RTCRegisters(words), false, 0).err.None?
    ensures var bank := SequenceSpec(f, s, RTCRegisters(words), false, 0).link.bank;
            forall a :: 43000 <= a < 43006 ==> a in bank && bank[a] == words[a - 43000]
  {
    hide SequenceSpec;
    var regs := RTCRegisters(words);
    var bank := SequenceSpec(f, s, regs, false, 0).link.bank;
    CutState(f, s, regs);
    forall a | 43000 <= a < 43006 ensures a in bank && bank[a] == words[a - 43000] {
      assert Holds(bank, regs[a - 43000]);
    }
  }

  // ------------------------------------------------------------------- one register

  /** A guarded register, all frames delivered, holds its value and the others are as they were. */
  lemma GuardDelivered(f: Fates, s: Link, addr: int, value: Word)
    requires Delivered(f, s) && addr in s.bank
    ensures GuardOneSpec(f, s, addr, value).bank == s.bank[addr := value]
  {
    assert f(|s.trace|) == Deliver && f(|s.trace| + 1) == Deliver && f(|s.trace| + 2) == Deliver;
    DeliveredAttempt(f, s, Register(addr, value));
  }

  /**
  Optimal income, all frames delivered: bit 1 of 43110 as asked, its other bits and all other
  registers as before.
   */
  lemma OptimalIncomeAtTheBank(f: Fates, s: Link, run: bool)
    requires Delivered(f, s) && 43110 in s.bank
    ensures var bank := OptimalIncomeSpec(f, s, run).bank;
            && bank.Keys == s.bank.Keys && (forall a :: a in s.bank && a != 43110 ==> bank[a] == s.bank[a])
            && bank[43110] / 2 % 2 == (if run then 1 else 0)
            && bank[43110] / 4 == s.bank[43110] / 4 && bank[43110] % 2 == s.bank[43110] % 2
  {
    hide GuardOneSpec, TimedWord;
    var (s1, current) := ReadOne(f, s, REG_WORK_MODE);
    TimedWordFlipsOneBit(s.bank[43110], run);
    GuardDelivered(f, s1, 43110, TimedWord(s.bank[43110], run));
  }

  // ------------------------------------------------------------------------ boosts

  /**
  A boost command writes exactly if it is Off, or the work mode could be read, has bit 1 set, and the
  boost can be planned. Refused, whatever the link does, it leaves the bank alone and sends no write.
   */
  lemma BoostRefused(f: Fates, s: Link, cfg: Config, mode: Mode, minutes: nat, T: nat)
    ensures var (t, end) := BoostSpec(f, s, cfg, mode, minutes, T);
            && (end.Programmed?
                <==> mode == Off || (f(|s.trace|) == Deliver && 43110 in s.bank && s.bank[43110] / 2 % 2 == 1
                                     && PlanBoost(mode, minutes, T, cfg).Success?))
            && (!end.Programmed? ==> OnlyReads(s, t))
            && (end.ModeUnread? <==> mode != Off && !(f(|s.trace|) == Deliver && 43110 in s.bank))
            && (end.Stopped? <==>
                  mode != Off && f(|s.trace|) == Deliver && 43110 in s.bank && s.bank[43110] / 2 % 2 == 0)
            && (end.Refused? ==> PlanBoost(mode, minutes, T, cfg) == Failure(end.reason))
  {
    hide PlanBoost, SequenceSpec, TimedSlotWriteRegisters, IsTimed;
    if 43110 in s.bank {
      TimedIsBit(s.bank[43110]);
    }
  }

  /** The eight registers of slot 3 after a boost of the given mode and minutes from T. */
  predicate Armed(bank: Bank, mode: Mode, minutes: nat, T: nat) {
    && (forall a :: 43163 <= a <= 43170 ==> a in bank)
    && match mode
       case Off => forall a :: 43163 <= a <= 43170 ==> bank[a] == 0
       case Charge =>
         && (forall a :: 43167 <= a <= 43170 ==> bank[a] == 0)
         && Spans(bank[43163], bank[43164], bank[43165], bank[43166], minutes, T)
       case Discharge =>
         && (forall a :: 43163 <= a <= 43166 ==> bank[a] == 0)
         && Spans(bank[43167], bank[43168], bank[43169], bank[43170], minutes, T)
  }

  /**
  The clock words run from T's minute to a quarter-hour of the day, more than minutes - 15 and at
  most minutes on.
   */
  predicate Spans(startHour: Word, startMinute: Word, endHour: Word, endMinute: Word, minutes: nat, T: nat) {
    var start, end := startHour * 60 + startMinute, endHour * 60 + endMinute;
    && startHour <= 23 && startMinute <= 59 && endHour <= 23 && endMinute <= 59
    && start == T % 1440 && end % 15 == 0 && minutes - 15 < end - start <= minutes
  }

  lemma HeldIsArmed(bank: Bank, cfg: Config, mode: Mode, minutes: nat, T: nat)
    requires mode == Off || PlanBoost(mode, minutes, T, cfg).Success?
    requires HoldsSlot(bank, 2, BoostTarget(cfg, mode, minutes, T))
    ensures Armed(bank, mode, minutes, T)
  {
    hide PlanBoost, HoldsSlot;
    SlotByAddress(bank, 2, BoostTarget(cfg, mode, minutes, T));
    BoostTargetInRange(cfg, mode, minutes, T);
    if mode != Off {
      PlanInClocks(mode, minutes, T, cfg);
    }
  }

  /** A programmed boost that reports no error is in slot 3's registers, direction, start and end. */
  lemma BoostAtTheBank(f: Fates, s: Link, cfg: Config, mode: Mode, minutes: nat, T: nat)
    requires var end := BoostSpec(f, s, cfg, mode, minutes, T).1; end.Programmed? && end.out.err.None?
    ensures Armed(BoostSpec(f, s, cfg, mode, minutes, T).0.bank, mode, minutes, T)
  {
    hide PlanBoost, SequenceSpec, TimedSlotWriteRegisters, IsTimed, HoldsSlot, Armed;
    var s1 := if mode == Off then s else ReadOne(f, s, REG_WORK_MODE).0;
    ProgramHolds(f, s1, BoostTarget(cfg, mode, minutes, T));
    HeldIsArmed(BoostSpec(f, s, cfg, mode, minutes, T).0.bank, cfg, mode, minutes, T);
  }

  lemma SlotThreeMapped(bank: Bank, slot: TimedSlot)
    requires forall a :: 43163 <= a <= 43170 ==> a in bank
    ensures Mapped(TimedSlotWriteRegisters(BOOST_SLOT, slot), bank)
  {
    SlotRegistersDistinct(BOOST_SLOT, slot);
  }

  /** With its frames delivered, a boost command that is not refused is programmed and confirmed. */
  lemma BoostDelivered(f: Fates, s: Link, cfg: Config, mode: Mode, minutes: nat, T: nat)
    requires Delivered(f, s) && forall a :: 43163 <= a <= 43170 ==> a in s.bank
    requires mode == Off || (43110 in s.bank && s.bank[43110] / 2 % 2 == 1 && PlanBoost(mode, minutes, T, cfg).Success?)
    ensures var (t, end) := BoostSpec(f, s, cfg, mode, minutes, T);
            end.Programmed? && end.out.err.None? && Armed(t.bank, mode, minutes, T)
  {
    hide PlanBoost, SequenceSpec, TimedSlotWriteRegisters, IsTimed, Armed, Mapped;
    var to := BoostTarget(cfg, mode, minutes, T);
    var s1 := if mode == Off then s else ReadOne(f, s, REG_WORK_MODE).0;
    BoostRefused(f, s, cfg, mode, minutes, T);
    SlotThreeMapped(s.bank, to);
    SequenceDelivered(f, s1, TimedSlotWriteRegisters(BOOST_SLOT, to), false, 0);
    BoostAtTheBank(f, s, cfg, mode, minutes, T);
  }

  // ------------------------------------------------------------------- by its key

  /** The registers a key's command may write. */
  predicate MayWrite(key: string, a: int) {
    || (key == "set_charge_current" && a == 43141)
    || (key == "set_discharge_current" && a == 43142)
    || (key == "optimal_income" && a == 43110)
    || (key == "boost_select" && 43163 <= a <= 43170)
    || (key == "rtc_sync" && 43000 <= a <= 43005)
  }

  /** Every write from s on goes to a register the key may write. */
  predicate WritesFor(key: string, s: Link, t: Link) {
    forall i :: |s.trace| <= i < |t.trace| && t.trace[i].Write? ==> MayWrite(key, t.trace[i].addr)
  }

  lemma SequenceFor(key: string, f: Fates, s: Link, s1: Link, regs: seq<Register>)
    requires OnlyReads(s, s1) && forall r :: r in regs ==> MayWrite(key, r.addr)
    ensures WritesFor(key, s, SequenceSpec(f, s1, regs, false, 0).link)
  {
    hide MayWrite;
    var t := SequenceSpec(f, s1, regs, false, 0).link;
    SequenceWrites(f, s1, regs, false, 0);
    var _ := SequenceCut(f, s1, regs, false, 0);
    forall i | |s.trace| <= i < |s1.trace| ensures t.trace[i].Read? {
      assert t.trace[..|s1.trace|][i] == s1.trace[i];
    }
  }

  lemma GuardFor(key: string, f: Fates, s: Link, s1: Link, addr: int, value: Word)
    requires OnlyReads(s, s1) && MayWrite(key, addr)
    ensures WritesFor(key, s, GuardOneSpec(f, s1, addr, value))
  {
    hide MayWrite, WearSafe, BanksAmong, Landings, AckedSince;
    var r := Register(addr, value);
    var t := GuardOneSpec(f, s1, addr, value);
    GuardWrites(f, s1, r);
    GuardSteps(f, s1, r);
    forall i | |s.trace| <= i < |s1.trace| ensures t.trace[i].Read? {
      assert t.trace[..|s1.trace|][i] == s1.trace[i];
    }
  }

  lemma BoostFor(f: Fates, s: Link, cfg: Config, mode: Mode, minutes: nat, T: nat)
    ensures WritesFor("boost_select", s, BoostSpec(f, s, cfg, mode, minutes, T).0)
  {
    hide PlanBoost, SequenceSpec, IsTimed, TimedSlotWriteRegisters, OnlyReads, WritesFor;
    var to := BoostTarget(cfg, mode, minutes, T);
    var regs := TimedSlotWriteRegisters(BOOST_SLOT, to);
    BoostRefused(f, s, cfg, mode, minutes, T);
    if BoostSpec(f, s, cfg, mode, minutes, T).1.Programmed? {
      SlotRegistersDistinct(BOOST_SLOT, to);
      forall r | r in regs ensures MayWrite("boost_select", r.addr) {
      }
      var s1 := if mode == Off then s else ReadOne(f, s, REG_WORK_MODE).0;
      ModeRead(f, s);
      SequenceFor("boost_select", f, s, s1, regs);
    } else {
      ReadsWriteNothing("boost_select", s, BoostSpec(f, s, cfg, mode, minutes, T).0);
    }
  }

  lemma ModeRead(f: Fates, s: Link)
    ensures OnlyReads(s, s) && OnlyReads(s, ReadOne(f, s, REG_WORK_MODE).0)
  {
  }

  lemma ReadsWriteNothing(key: string, s: Link, t: Link)
    requires OnlyReads(s, t)
    ensures WritesFor(key, s, t)
  {
    hide MayWrite;
  }

  /** Whatever the link does, a message writes no register but its key's own. */
  lemma KeyWrites(f: Fates, s: Link, cfg: Config, enabled: bool, key: string, payload: string, amps: Amps, now: nat,
      rtc: RTCWords)
    ensures WritesFor(key, s, CommandSpec(f, s, cfg, enabled, KeyedCommand(key, payload, amps), now, rtc).0)
  {
    hide GuardSpec, SequenceSpec, BoostSpec, ParseBoostOption, ParseRunStop, TimedWord;
    if enabled {
      match KeyedCommand(key, payload, amps)
      case SetChargeCurrent(Some(w)) => GuardFor(key, f, s, s, REG_TIMED_CHARGE_CURRENT, w);
      case SetDischargeCurrent(Some(w)) => GuardFor(key, f, s, s, REG_TIMED_DISCHARGE_CURRENT, w);
      case OptimalIncome(Some(run)) =>
        var (s1, current) := ReadOne(f, s, REG_WORK_MODE);
        if current.Some? {
          GuardFor(key, f, s, s1, REG_WORK_MODE, TimedWord(current.value, run));
        }
      case BoostSelect(p) =>
        var option := ParseBoostOption(p);
        if option.Some? {
          BoostFor(f, s, cfg, option.value.0, option.value.1, now);
        }
      case RTCSync => SequenceFor(key, f, s, s, RTCRegisters(rtc));
      case _ =>
    }
  }

  /** The payload is one its key's parser takes. */
  ghost predicate Accepted(key: string, payload: string, amps: Amps) {
    || ((key == "set_charge_current" || key == "set_discharge_current") && amps(payload).Some?)
    || (key == "optimal_income" && (IsRun(TrimSpace(payload)) || IsStop(TrimSpace(payload))))
    || (key == "boost_select" && exists mode, minutes: nat :: Asks(TrimSpace(payload), mode, minutes))
    || key == "rtc_sync"
  }

  lemma BoostAccepted(payload: string)
    ensures ParseBoostOption(payload).Some? <==> exists mode, minutes: nat :: Asks(TrimSpace(payload), mode, minutes)
  {
    hide Asks, ParseBoostOption, TrimSpace;
    if ParseBoostOption(payload).Some? {
      var (mode, minutes) := ParseBoostOption(payload).value;
      ParseBoostAsks(payload, mode, minutes);
    }
    if exists mode, minutes: nat :: Asks(TrimSpace(payload), mode, minutes) {
      var mode, minutes: nat :| Asks(TrimSpace(payload), mode, minutes);
      ParseBoostAsks(payload, mode, minutes);
    }
  }

  /** A refresh follows exactly the messages of an enabled handler whose payload parses; no other sends a frame. */
  lemma RefreshExactly(f: Fates, s: Link, cfg: Config, enabled: bool, key: string, payload: string, amps: Amps,
      now: nat, rtc: RTCWords)
    ensures var (t, touched) := CommandSpec(f, s, cfg, enabled, KeyedCommand(key, payload, amps), now, rtc);
            && (touched <==> enabled && Accepted(key, payload, amps))
            && (!touched ==> t == s)
  {
    hide GuardOneSpec, OptimalIncomeSpec, SequenceSpec, BoostSpec, ParseBoostOption, ParseRunStop, TrimSpace, Asks,
        IsRun, IsStop;
    RunStopExact(payload);
    BoostAccepted(payload);
  }

  // -------------------------------------------------------------- message to bank

  lemma KeyOfTopic(topic: string, key: string)
    requires Topics.Carries(topic, key) && key != "" && '/' !in key
    ensures forall payload, amps :: CommandOf(topic, payload, amps) == KeyedCommand(key, payload, amps)
  {
    CommandKeyExact(topic, key);
  }

  /**
  From a message to slot 3: with frames delivered, an option's text arms what it says, from the
  present minute, unless it is refused; then nothing is written.
   */
  lemma BoostMessage(f: Fates, s: Link, cfg: Config, topic: string, payload: string, amps: Amps, mode: Mode,
      minutes: nat,
      now: nat, rtc: RTCWords)
    requires Delivered(f, s) && Topics.Carries(topic, "boost_select") && Asks(TrimSpace(payload), mode, minutes)
    requires 43110 in s.bank && forall a :: 43163 <= a <= 43170 ==> a in s.bank
    ensures var t := CommandSpec(f, s, cfg, true, CommandOf(topic, payload, amps), now, rtc).0;
            if mode == Off || (s.bank[43110] / 2 % 2 == 1 && PlanBoost(mode, minutes, now, cfg).Success?)
            then Armed(t.bank, mode, minutes, now) else OnlyReads(s, t)
  {
    hide Asks, TrimSpace, ParseBoostOption, PlanBoost, BoostSpec, Armed, OnlyReads;
    KeyOfTopic(topic, "boost_select");
    ParseBoostAsks(payload, mode, minutes);
    BoostRefused(f, s, cfg, mode, minutes, now);
    if mode == Off || (s.bank[43110] / 2 % 2 == 1 && PlanBoost(mode, minutes, now, cfg).Success?) {
      BoostDelivered(f, s, cfg, mode, minutes, now);
    }
  }

  /**
  From a message to the work mode: with frames delivered, "run" sets bit 1 of 43110, "stop" clears
  it, and nothing else moves.
   */
  lemma OptimalIncomeMessage(f: Fates, s: Link, cfg: Config, topic: string, payload: string, amps: Amps, now: nat,
      rtc: RTCWords)
    requires Delivered(f, s) && Topics.Carries(topic, "optimal_income") && 43110 in s.bank
    requires IsRun(TrimSpace(payload)) || IsStop(TrimSpace(payload))
    ensures var bank := CommandSpec(f, s, cfg, true, CommandOf(topic, payload, amps), now, rtc).0.bank;
            && bank.Keys == s.bank.Keys && (forall a :: a in s.bank && a != 43110 ==> bank[a] == s.bank[a])
            && bank[43110] / 2 % 2 == (if IsRun(TrimSpace(payload)) then 1 else 0)
            && bank[43110] / 4 == s.bank[43110] / 4 && bank[43110] % 2 == s.bank[43110] % 2
  {
    hide TrimSpace, ParseRunStop, OptimalIncomeSpec;
    KeyOfTopic(topic, "optimal_income");
    RunStopExact(payload);
    OptimalIncomeAtTheBank(f, s, IsRun(TrimSpace(payload)));
  }

  /**
  From a message to the currents: with frames delivered, the encoded amps are in 43141 or 43142 and
  nothing else moves.
   */
  lemma CurrentMessage(f: Fates, s: Link, cfg: Config, topic: string, payload: string, amps: Amps, charging: bool,
      now: nat, rtc: RTCWords)
    requires Delivered(f, s) && amps(payload).Some? && 43141 in s.bank && 43142 in s.bank
    requires Topics.Carries(topic, if charging then "set_charge_current" else "set_discharge_current")
    ensures CommandSpec(f, s, cfg, true, CommandOf(topic, payload, amps), now, rtc).0.bank
         == s.bank[(if charging then 43141 else 43142) := amps(payload).value]
  {
    hide GuardOneSpec;
    KeyOfTopic(topic, if charging then "set_charge_current" else "set_discharge_current");
    GuardDelivered(f, s, if charging then 43141 else 43142, amps(payload).value);
  }

  // ------------------------------------------------------------- polls and the switch

  /** With its frames delivered, a published poll leaves the clock it syncs and the schedule the manager wants. */
  lemma CycleDelivered(f: Fates, s: Link, cfg: Config, now: nat, sync: Option<RTCWords>, slots: TimedSlots)
    requires Delivered(f, s) && SlotsInRange(slots) && HoldsSlots(s.bank, slots)
    requires BlockMapped(s.bank, 43110, 61) && forall a :: 43000 <= a <= 43005 ==> a in s.bank
    ensures var bank := CycleSpec(f, s, cfg, true, now, sync).bank;
            && HoldsSlots(bank, Desired(cfg, slots, now))
            && (sync.Some? ==> forall a :: 43000 <= a < 43006 ==> a in bank && bank[a] == sync.value[a - 43000])
  {
    hide HoldsSlots, SequenceSpec, Desired, SlotsInRange, BlockMapped, DecodedSlots, BlockWords;
    var (s1, sp) := ReadSetpointsSpec(f, s);
    DecodeInvertsEncode(s.bank, slots);
    assert sp.Some? && sp.value.slots == slots;
    var s2 := if sync.Some? then SequenceSpec(f, s1, RTCRegisters(sync.value), false, 0).link else s1;
    if sync.Some? {
      SequenceDelivered(f, s1, RTCRegisters(sync.value), false, 0);
      RTCAtTheBank(f, s1, sync.value);
      SyncLeavesSlots(f, s1, sync.value, slots);
      var _ := SequenceCut(f, s1, RTCRegisters(sync.value), false, 0);
    }
    ReconcileDelivered(f, s2, cfg, slots, now);
    var bank := CycleSpec(f, s, cfg, true, now, sync).bank;
    assert bank == ReconcileSpec(f, s2, cfg, true, slots, now).link.bank;
    if sync.Some? {
      forall a | 43000 <= a < 43006 ensures a in bank && bank[a] == sync.value[a - 43000] {
        assert a in s2.bank && s2.bank[a] == sync.value[a - 43000];
      }
    }
  }

  lemma ReconcileDelivered(f: Fates, s: Link, cfg: Config, slots: TimedSlots, now: nat)
    requires Delivered(f, s) && HoldsSlots(s.bank, slots)
    ensures var t := ReconcileSpec(f, s, cfg, true, slots, now).link;
            && HoldsSlots(t.bank, Desired(cfg, slots, now))
            && forall a :: a in s.bank && a < 43100 ==> a in t.bank && t.bank[a] == s.bank[a]
  {
    hide HoldsSlots, SequenceSpec, Desired;
    var diff := Diff(Desired(cfg, slots, now), slots);
    DiffExact(s.bank, Desired(cfg, slots, now), slots);
    forall r | r in diff ensures r.addr in s.bank && r.addr > 43100 {
      DiffWordThere(s.bank, Desired(cfg, slots, now), slots, r);
    }
    SequenceDelivered(f, s, diff, false, 0);
    forall a | a in s.bank && a < 43100
      ensures a in Overlay(s.bank, diff) && Overlay(s.bank, diff)[a] == s.bank[a]
    {
      OverlayUntouched(s.bank, diff, a);
    }
  }

  lemma DiffWordThere(bank: Bank, want: TimedSlots, slots: TimedSlots, r: Register)
    requires HoldsSlots(bank, slots) && r in Diff(want, slots)
    ensures r.addr in bank && r.addr > 43100
  {
    DifferingMembers(AllRegisters(want), Image(slots));
    AllRegistersAreSlotWords(want, r);
    SlotWordsAgree(bank, bank, slots, r.addr);
  }

  lemma OnlyReadsCompose(s: Link, t: Link, u: Link)
    requires OnlyReads(s, t) && OnlyReads(t, u)
    ensures OnlyReads(s, u)
  {
    assert u.trace[..|s.trace|] == t.trace[..|s.trace|];
    forall i | |s.trace| <= i < |t.trace| ensures u.trace[i] == t.trace[i] {
      assert u.trace[..|t.trace|][i] == t.trace[i];
    }
  }

  /** The kill-switch: with controls off, no message and no poll ever writes, whatever the run. */
  lemma {:induction false} DisabledOnlyReads(f: Fates, s: Link, cfg: Config, events: seq<Event>)
    ensures OnlyReads(s, RunSpec(f, s, cfg, false, events))
    decreases |events|
  {
    hide OnlyReads;
    if events == [] {
      OnlyReadsItself(s);
    } else {
      var t := EventSpec(f, s, cfg, false, events[0]);
      DisabledEvent(f, s, cfg, events[0]);
      DisabledOnlyReads(f, t, cfg, events[1..]);
      OnlyReadsCompose(s, t, RunSpec(f, t, cfg, false, events[1..]));
    }
  }

  lemma OnlyReadsItself(s: Link)
    ensures OnlyReads(s, s)
  {
  }

  lemma DisabledEvent(f: Fates, s: Link, cfg: Config, e: Event)
    ensures OnlyReads(s, EventSpec(f, s, cfg, false, e))
  {
    hide BlockMapped, BlockWords, SetpointsOf;
  }
}
