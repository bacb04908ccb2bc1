/** The command handler: the imperative write path, method by method equal to its specification. */
module Handlers {
  import opened Wrappers
  import opened Inverter
  import opened WorkModes
  import opened Banks
  import opened Blending
  import opened Schedule
  import opened Links
  import opened Controls
  import opened Topics

  class Handler {
    const bus: Bus
    const cfg: Config
    const enabled: bool

    constructor (bus: Bus, cfg: Config, enabled: bool)
      ensures this.bus == bus && this.cfg == cfg && this.enabled == enabled
    {
      this.bus := bus;
      this.cfg := cfg;
      this.enabled := enabled;
    }

    /** Read-before-write on one register. */
    method Guard(addr: int, desired: Word) returns (r: GuardResult)
      modifies bus
      ensures (bus.View(), r) == GuardSpec(bus.fates, old(bus.View()), addr, desired)
    {
      var current := bus.ReadRegister(addr);
      if current.None? {
        return GuardResult(false, false, false, 0, 0, Some(CurrentUnread(addr)));
      }
      if current.value == desired {
        return GuardResult(true, false, false, current.value, current.value, None);
      }
      var acked := bus.WriteHolding(addr, desired);
      if !acked {
        return GuardResult(false, false, false, current.value, 0, Some(WriteRefused(addr)));
      }
      var reread := bus.ReadRegister(addr);
      if reread.None? {
        return GuardResult(false, true, false, current.value, 0, Some(ConfirmUnread(addr)));
      }
      if reread.value != desired {
        return GuardResult(false, true, false, current.value, reread.value, Some(NotConfirmed(addr)));
      }
      return GuardResult(false, true, true, current.value, reread.value, None);
    }

    /** Guards each register in order, retrying once in place and stopping at the first that still fails. */
    method WriteRegisters(regs: seq<Register>) returns (wrote: bool, err: Option<GuardError>, ghost at: nat)
      modifies bus
      ensures Outcome(bus.View(), wrote, err, at) == SequenceSpec(bus.fates, old(bus.View()), regs, false, 0)
    {
      wrote := false;
      at := 0;
      for k := 0 to |regs|
        invariant at == k
        invariant SequenceSpec(bus.fates, old(bus.View()), regs, false, 0)
            == SequenceSpec(bus.fates, bus.View(), regs[k..], wrote, k)
      {
        assert regs[k..][0] == regs[k] && regs[k..][1..] == regs[k + 1..];
        var r := Guard(regs[k].addr, regs[k].value);
        wrote := wrote || r.wrote;
        if r.err.Some? && !r.wrote {
          r := Guard(regs[k].addr, regs[k].value);
          wrote := wrote || r.wrote;
        }
        if r.err.Some? {
          return wrote, r.err, k;
        }
        at := k + 1;
      }
      return wrote, None, |regs|;
    }

    /** Lists the registers whose desired value the current schedule does not have, slot by slot. */
    method ScheduleDiff(desired: TimedSlots, current: TimedSlots) returns (diff: seq<Register>)
      ensures diff == Diff(desired, current)
    {
      diff := [];
      for i := 0 to 3
        invariant diff == Differing(SlotsListed(desired, i), Image(current))
      {
        var have := ByAddress(TimedSlotWriteRegisters(i, current[i]));
        var wanted := TimedSlotWriteRegisters(i, desired[i]);
        SlotImageAgrees(current, i, desired[i]);
        var differing := Mismatches(wanted, have);
        DifferingAgrees(wanted, have, Image(current));
        DifferingAppend(SlotsListed(desired, i), wanted, Image(current));
        diff := diff + differing;
      }
      AllListed(desired);
    }

    /** Makes the slots match the desired schedule; `slots` are those the poll has just read. */
    method Reconcile(slots: TimedSlots, now: nat) returns (wrote: bool, err: Option<GuardError>, ghost at: nat)
      modifies bus
      ensures Outcome(bus.View(), wrote, err, at) == ReconcileSpec(bus.fates, old(bus.View()), cfg, enabled, slots, now)
    {
      if !enabled {
        return false, None, 0;
      }
      var desired := Desired(cfg, slots, now);
      var diff := ScheduleDiff(desired, slots);
      if |diff| == 0 {
        return false, None, 0;
      }
      wrote, err, at := WriteRegisters(diff);
    }

    method SetOptimalIncome(payload: string) returns (routed: bool)
      modifies bus
      ensures routed == ParseRunStop(payload).Some?
      ensures bus.View() == if routed then OptimalIncomeSpec(bus.fates, old(bus.View()), ParseRunStop(payload).value)
          else old(bus.View())
    {
      var run := ParseRunStop(payload);
      if run.None? {
        return false;
      }
      var current := bus.ReadRegister(REG_WORK_MODE);
      if current.None? {
        return true;
      }
      var desired := TimedWord(current.value, run.value);
      var _ := Guard(REG_WORK_MODE, desired);
      return true;
    }

    method SetBoost(payload: string, now: nat) returns (routed: bool)
      modifies bus
      ensures routed == ParseBoostOption(payload).Some?
      ensures routed ==>
                var (mode, minutes) := ParseBoostOption(payload).value;
                bus.View() == BoostSpec(bus.fates, old(bus.View()), cfg, mode, minutes, now).0
      ensures !routed ==> bus.View() == old(bus.View())
    {
      var option := ParseBoostOption(payload);
      if option.None? {
        return false;
      }
      var (mode, minutes) := option.value;
      if mode == Off {
        var _, _, _ := WriteRegisters(TimedSlotWriteRegisters(BOOST_SLOT, EMPTY));
        return true;
      }
      var current := bus.ReadRegister(REG_WORK_MODE);
      if current.None? {
        return true;
      }
      if !DecodeWorkMode(current.value as bv16).timed {
        return true;
      }
      var plan := PlanBoost(mode, minutes, now, cfg);
      if plan.Failure? {
        return true;
      }
      var _, _, _ := WriteRegisters(TimedSlotWriteRegisters(BOOST_SLOT, plan.value));
      return true;
    }

    /** Writes the six clock registers; `words` encode the handler's clock. */
    method SyncRTC(words: RTCWords) returns (wrote: bool, err: Option<GuardError>, ghost at: nat)
      modifies bus
      ensures Outcome(bus.View(), wrote, err, at)
          == SequenceSpec(bus.fates, old(bus.View()), RTCRegisters(words), false, 0)
    {
      wrote, err, at := WriteRegisters(RTCRegisters(words));
    }

    method SetCurrent(addr: int, value: Option<Word>) returns (routed: bool)
      modifies bus
      ensures routed == value.Some?
      ensures bus.View() == if value.Some? then GuardOneSpec(bus.fates, old(bus.View()), addr, value.value)
          else old(bus.View())
    {
      if value.None? {
        return false;
      }
      var _ := Guard(addr, value.value);
      return true;
    }

    /** Dispatches on the key; true means the inverter was touched. */
    method Route(key: string, payload: string, amps: Amps, now: nat, rtc: RTCWords) returns (routed: bool)
      requires enabled
      modifies bus
      ensures (bus.View(), routed)
           == CommandSpec(bus.fates, old(bus.View()), cfg, true, KeyedCommand(key, payload, amps), now, rtc)
    {
      match key
      case "set_charge_current" => routed := SetCurrent(REG_TIMED_CHARGE_CURRENT, amps(payload));
      case "set_discharge_current" => routed := SetCurrent(REG_TIMED_DISCHARGE_CURRENT, amps(payload));
      case "optimal_income" => routed := SetOptimalIncome(payload);
      case "boost_select" => routed := SetBoost(payload, now);
      case "rtc_sync" =>
        var _, _, _ := SyncRTC(rtc);
        routed := true;
      case _ => routed := false;
    }

    /** Handles one message; true means the state is to be refreshed. */
    method OnMessage(topic: string, payload: string, amps: Amps, now: nat, rtc: RTCWords) returns (routed: bool)
      modifies bus
      ensures (bus.View(), routed)
           == CommandSpec(bus.fates, old(bus.View()), cfg, enabled, CommandOf(topic, payload, amps), now, rtc)
    {
      var key := CommandKey(topic);
      if key.None? || !enabled {
        return false;
      }
      routed := Route(key.value, payload, amps, now, rtc);
    }
  }

  /** Reads the control block in one frame and decodes it. */
  method ReadSetpoints(bus: Bus) returns (sp: Option<Setpoints>)
    modifies bus
    ensures (bus.View(), sp) == ReadSetpointsSpec(bus.fates, old(bus.View()))
  {
    var reply := bus.ReadHolding(REG_WORK_MODE, SETPOINT_BLOCK_COUNT);
    if reply.None? {
      return None;
    }
    var regs := reply.value;
    if |regs| < SETPOINT_BLOCK_COUNT {
      return None;
    }
    var slots := DecodeTimedSlots([Block(REG_WORK_MODE, regs)]);
    if slots.Failure? {
      return None;
    }
    return Some(Setpoints(regs[REG_TIMED_CHARGE_CURRENT - REG_WORK_MODE],
        regs[REG_TIMED_DISCHARGE_CURRENT - REG_WORK_MODE],
                          regs[REG_MAX_CHARGE_CURRENT - REG_WORK_MODE], regs[REG_MAX_DISCHARGE_CURRENT - REG_WORK_MODE],
                          DecodeWorkMode(regs[0] as bv16).timed, slots.value));
  }

  // --------------------------------------------------------- the diff's bookkeeping

  /** The write lists of the first i slots. */
  function SlotsListed(slots: TimedSlots, i: int): seq<Register>
    requires 0 <= i <= 3
  {
    if i == 0 then [] else SlotsListed(slots, i - 1) + TimedSlotWriteRegisters(i - 1, slots[i - 1])
  }

  lemma AllListed(slots: TimedSlots)
    ensures SlotsListed(slots, 3) == AllRegisters(slots)
  {
    assert SlotsListed(slots, 1) == TimedSlotWriteRegisters(0, slots[0]);
    assert SlotsListed(slots, 2) == SlotsListed(slots, 1) + TimedSlotWriteRegisters(1, slots[1]);
  }

  /** One slot's own address map agrees with the whole schedule's. */
  lemma SlotImage(slots: TimedSlots, i: int)
    requires 0 <= i <= 2
    ensures HoldsSlot(Overlay(map[], TimedSlotWriteRegisters(i, slots[i])), i, slots[i])
    ensures HoldsSlot(Image(slots), i, slots[i])
  {
    hide HoldsSlot, TimedSlotWriteRegisters;
    SlotRegistersDistinct(i, slots[i]);
    OverlayHoldsEach(map[], TimedSlotWriteRegisters(i, slots[i]));
    HoldsFromRegisters(Overlay(map[], TimedSlotWriteRegisters(i, slots[i])), i, slots[i]);
    OverlayAllHolds(map[], slots);
  }

  lemma SlotImageAgrees(slots: TimedSlots, i: int, to: TimedSlot)
    requires 0 <= i <= 2
    ensures var have := Overlay(map[], TimedSlotWriteRegisters(i, slots[i]));
            forall r :: r in TimedSlotWriteRegisters(i, to)
                ==> r.addr in have && (Holds(have, r) <==> Holds(Image(slots), r))
  {
    SlotImage(slots, i);
    SlotRegistersDistinct(i, to);
    var have := Overlay(map[], TimedSlotWriteRegisters(i, slots[i]));
    forall r | r in TimedSlotWriteRegisters(i, to) ensures r.addr in have
        && (Holds(have, r) <==> Holds(Image(slots), r)) {
      SlotWordAgrees(have, Image(slots), i, slots[i], r.addr);
    }
  }

  lemma SlotWordAgrees(a: Bank, b: Bank, i: int, slot: TimedSlot, addr: int)
    requires HoldsSlot(a, i, slot) && HoldsSlot(b, i, slot)
    requires SlotBase(i) + CHARGE_OFFSET <= addr < SlotBase(i) + CHARGE_OFFSET + SLOT_WORDS
    ensures addr in a && addr in b && a[addr] == b[addr]
  {
  }

  /** A register list as a map from address to value. */
  method ByAddress(regs: seq<Register>) returns (have: map<int, Word>)
    ensures have == Overlay(map[], regs)
  {
    have := map[];
    for j := 0 to |regs|
      invariant have == Overlay(map[], regs[..j])
    {
      OverlaySnoc(map[], regs, j);
      have := have[regs[j].addr := regs[j].value];
    }
    assert regs[..|regs|] == regs;
  }

  /** The wanted registers whose value is not the one held, in order. */
  method Mismatches(wanted: seq<Register>, have: map<int, Word>) returns (diff: seq<Register>)
    requires Mapped(wanted, have)
    ensures diff == Differing(wanted, have)
  {
    diff := [];
    for j := 0 to |wanted|
      invariant diff == Differing(wanted[..j], have)
    {
      DifferingSnoc(wanted, have, j);
      if wanted[j].value != have[wanted[j].addr] {
        diff := diff + [wanted[j]];
      }
    }
    assert wanted[..|wanted|] == wanted;
  }
}
