/** Boost commands lost on the way, over the link itself: what some faults leave, and what none can. */
module LostCommands {
  import opened Inverter
  import opened WorkModes
  import opened Banks
  import opened Blending
  import opened Schedule
  import opened Transients
  import opened Visits
  import opened Healing
  import opened Links
  import opened Controls
  import opened Runs
  import opened Polls
  import opened Realised

  /**
  A boost command on the link, lost anywhere, over an empty slot 3, then polled up to a poll that
  succeeds before midnight (or at any time, if it was commanded at midnight): the slot is empty or
  runs a window of the commanded direction from the planned start, ending no later than planned.
   */
  lemma {:induction false} LostCommandHeals(f: Fates, s: Link, cfg: Config, mode: Mode, minutes: nat, T: nat,
      slots: TimedSlots, polls: seq<Poll>, last: TimedSlots)
    requires HoldsSlots(s.bank, slots) && slots[2] == EMPTY && PlanBoost(mode, minutes, T, cfg).Success?
    requires InOrder(polls, T) && polls != []
        && (MinuteOf(T) == 0 || MinuteOf(T) + (polls[|polls| - 1].now - T) < MINUTES_PER_DAY)
    requires var t := BoostSpec(f, s, cfg, mode, minutes, T).0;
             && Succeeds(f, PollsSpec(f, t, cfg, polls[..|polls| - 1]), cfg, polls[|polls| - 1])
             && HoldsSlots(PollsSpec(f, t, cfg, polls).bank, last)
    ensures Healed(last[2], mode, WindowFor(mode, PlanBoost(mode, minutes, T, cfg).value), polls[|polls| - 1].now)
  {
    hide HoldsSlots, Succeeds, PlanBoost, BoostSpec, PollsSpec, MinuteOfDay, MinuteOf, Healed, Forwards, BlendSlot;
    var to := PlanBoost(mode, minutes, T, cfg).value;
    PlanForwards(mode, minutes, T, cfg);
    BoostIsProgram(f, s, cfg, mode, minutes, T, slots);
    var t := BoostSpec(f, s, cfg, mode, minutes, T).0;
    var p :| 0 <= p <= SLOT_WORDS && HoldsSlots(t.bank, slots[BOOST_SLOT := BlendSlot(slots[BOOST_SLOT], to, p)]);
    RemnantHeals(f, t, cfg, mode, WindowFor(mode, to), T, p, slots[BOOST_SLOT := BlendSlot(slots[BOOST_SLOT], to, p)],
        polls, last);
  }

  /** The polls that follow a program of w cut after p words. */
  lemma {:induction false} RemnantHeals(f: Fates, t: Link, cfg: Config, mode: Mode, w: TimedWindow, T: nat, p: nat,
      start: TimedSlots, polls: seq<Poll>, last: TimedSlots)
    requires polls != [] && Succeeds(f, PollsSpec(f, t, cfg, polls[..|polls| - 1]), cfg, polls[|polls| - 1])
    requires HoldsSlots(t.bank, start) && HoldsSlots(PollsSpec(f, t, cfg, polls).bank, last)
    requires InOrder(polls, T) && (MinuteOf(T) == 0 || MinuteOf(T) + (polls[|polls| - 1].now - T) < MINUTES_PER_DAY)
    requires mode != Off && Planned(w, T) && start[2] == BlendSlot(EMPTY, SlotFor(mode, w), p)
    ensures Healed(last[2], mode, w, polls[|polls| - 1].now)
  {
    hide *;
    var visits := PollsAreVisits(f, t, cfg, polls, start);
    assert visits[|visits| - 1].Complete();
    VisitsFollow(polls, visits, mode, w, p, start, T);
    HealsOnTheDay(cfg, start, mode, w, T, p, visits, polls[|polls| - 1].now + 1);
    HoldsUnique(PollsSpec(f, t, cfg, polls).bank, last, AfterAll(cfg, start, visits));
  }

  lemma VisitsFollow(polls: seq<Poll>, visits: seq<Visit>, mode: Mode, w: TimedWindow, p: nat, start: TimedSlots,
      T: nat)
    requires start[2] == BlendSlot(EMPTY, SlotFor(mode, w), p)
    requires InOrder(polls, T) && polls != [] && |visits| == |polls| && visits[|visits| - 1].Complete()
    requires forall i :: 0 <= i < |polls| ==> visits[i].now == polls[i].now
    ensures AfterCommand(start, mode, w, p, visits, T, polls[|polls| - 1].now + 1)
  {
    hide BlendSlot;
  }

  lemma PlanForwards(mode: Mode, minutes: nat, T: nat, cfg: Config)
    requires PlanBoost(mode, minutes, T, cfg).Success?
    ensures var slot := PlanBoost(mode, minutes, T, cfg).value;
            mode != Off && slot == SlotFor(mode, WindowFor(mode, slot)) && Planned(WindowFor(mode, slot), T)
  {
    PlanShape(mode, minutes, T, cfg);
  }

  // ---------------------------------------------------------- every cut really occurs

  /** The command has a slot to write. */
  predicate Writes(cfg: Config, mode: Mode, minutes: nat, T: nat) {
    mode == Off || PlanBoost(mode, minutes, T, cfg).Success?
  }

  lemma BoostLocal(f: Fates, g: Fates, s: Link, cfg: Config, mode: Mode, minutes: nat, T: nat)
    requires Agree(f, g, |s.trace|, |BoostSpec(f, s, cfg, mode, minutes, T).0.trace|)
    ensures BoostSpec(g, s, cfg, mode, minutes, T) == BoostSpec(f, s, cfg, mode, minutes, T)
  {
    hide PlanBoost, SequenceSpec, TimedSlotWriteRegisters, IsTimed, BlockMapped, BlockWords;
    if mode == Off {
      SequenceLocal(f, g, s, TimedSlotWriteRegisters(BOOST_SLOT, EMPTY), false, 0);
    } else {
      var s1 := ReadOne(f, s, REG_WORK_MODE).0;
      var plan := PlanBoost(mode, minutes, T, cfg);
      if plan.Success? {
        SequenceGrows(f, s1, TimedSlotWriteRegisters(BOOST_SLOT, plan.value), false, 0);
        if BoostSpec(f, s, cfg, mode, minutes, T).1.Programmed? {
          SequenceLocal(f, g, s1, TimedSlotWriteRegisters(BOOST_SLOT, plan.value), false, 0);
        }
      }
    }
  }

  /** Some faults stop the command after p words. */
  lemma ProgramRealised(s: Link, cfg: Config, mode: Mode, minutes: nat, T: nat, slots: TimedSlots, p: nat)
      returns (f: Fates)
    requires Writes(cfg, mode, minutes, T) && p <= SLOT_WORDS && Readable(s.bank, slots)
        && IsTimed(s.bank[REG_WORK_MODE])
    ensures var to := BoostTarget(cfg, mode, minutes, T);
            Readable(BoostSpec(f, s, cfg, mode, minutes, T).0.bank,
                slots[BOOST_SLOT := BlendSlot(slots[BOOST_SLOT], to, p)])
  {
    hide HoldsSlots, PlanBoost, SequenceSpec, TimedSlotWriteRegisters, BlendSlot, IsTimed, Overlay;
    var to := BoostTarget(cfg, mode, minutes, T);
    var regs := TimedSlotWriteRegisters(BOOST_SLOT, to);
    var delivered: Fates := (i: nat) => Deliver;
    var s1 := if mode == Off then s else ReadOne(delivered, s, REG_WORK_MODE).0;
    SlotWordsThere(s.bank, slots, to);
    CutRealised(s1, regs, p);
    var g: Fates :| SequenceSpec(g, s1, regs, false, 0).at == p
                 && SequenceSpec(g, s1, regs, false, 0).link.bank == Overlay(s1.bank, regs[..p]);
    f := (i: nat) => if mode != Off && i == |s.trace| then Deliver else g(i);
    SequenceLocal(g, f, s1, regs, false, 0);
    SlotPrefixBlends(s.bank, slots, BOOST_SLOT, to, p);
    forall a | a in s.bank ensures a in Overlay(s.bank, regs[..p]) {
      OverlayGrows(s.bank, regs[..p], a);
    }
    BoostTargetInRange(cfg, mode, minutes, T);
    BlendSlotInRange(slots[BOOST_SLOT], to, p);
  }

  lemma BlendSlotInRange(from: TimedSlot, to: TimedSlot, p: int)
    requires from.InRange() && to.InRange()
    ensures BlendSlot(from, to, p).InRange()
  {
  }

  lemma SlotWordsThere(bank: Bank, slots: TimedSlots, to: TimedSlot)
    requires HoldsSlots(bank, slots)
    ensures |TimedSlotWriteRegisters(BOOST_SLOT, to)| == SLOT_WORDS
        && Mapped(TimedSlotWriteRegisters(BOOST_SLOT, to), bank)
  {
    SlotRegistersDistinct(BOOST_SLOT, to);
    forall r | r in TimedSlotWriteRegisters(BOOST_SLOT, to) ensures r.addr in bank {
      assert SlotAddress(r.addr);
      SlotWordsMapped(bank, slots, r);
    }
  }

  /** Some faults cut the command after p words and then bring about the visits. */
  lemma CommandRealised(cfg: Config, mode: Mode, minutes: nat, T: nat, slots: TimedSlots, p: nat, visits: seq<Visit>)
      returns (f: Fates, s: Link)
    requires Writes(cfg, mode, minutes, T) && p <= SLOT_WORDS && SlotsInRange(slots) && cfg.tou.InRange()
    ensures var to := BoostTarget(cfg, mode, minutes, T);
            && HoldsSlots(s.bank, slots)
            && Realises(f, BoostSpec(f, s, cfg, mode, minutes, T).0, cfg,
                slots[BOOST_SLOT := BlendSlot(slots[BOOST_SLOT], to, p)], visits)
  {
    hide Realises, HoldsSlots, BoostSpec, BoostTarget, BlendSlot, PlainBank, SlotsInRange;
    s := Link(PlainBank(slots), []);
    PlainBankReadable(slots);
    PlainBankTimed(slots);
    TimedOnIsTimed();
    var g := ProgramRealised(s, cfg, mode, minutes, T, slots, p);
    var t := BoostSpec(g, s, cfg, mode, minutes, T).0;
    var start := slots[BOOST_SLOT := BlendSlot(slots[BOOST_SLOT], BoostTarget(cfg, mode, minutes, T), p)];
    var h := VisitsRealised(t, cfg, start, visits);
    f := (i: nat) => if i < |t.trace| then g(i) else h(i);
    BoostLocal(g, f, s, cfg, mode, minutes, T);
    RealisesLocal(h, f, t, cfg, start, visits);
  }

  // ------------------------------------------------------- how long the healing is sure

  /** A command at T over the schedule, lost anywhere, then polls up to one that succeeds before `until`. */
  ghost predicate LostRun(f: Fates, s: Link, cfg: Config, mode: Mode, minutes: nat, T: nat, slots: TimedSlots,
      polls: seq<Poll>, until: nat) {
    var t := BoostSpec(f, s, cfg, mode, minutes, T).0;
    && HoldsSlots(s.bank, slots) && InOrder(polls, T) && polls != [] && polls[|polls| - 1].now < until
    && Succeeds(f, PollsSpec(f, t, cfg, polls[..|polls| - 1]), cfg, polls[|polls| - 1])
  }

  ghost predicate HealsOnLink(cfg: Config, mode: Mode, minutes: nat, T: nat, until: nat)
    requires PlanBoost(mode, minutes, T, cfg).Success?
  {
    forall f: Fates, s: Link, slots: TimedSlots, polls: seq<Poll>, last: TimedSlots ::
      LostRun(f, s, cfg, mode, minutes, T, slots, polls, until) && slots[2] == EMPTY
      && HoldsSlots(PollsSpec(f, BoostSpec(f, s, cfg, mode, minutes, T).0, cfg, polls).bank, last)
      ==> Healed(last[2], mode, WindowFor(mode, PlanBoost(mode, minutes, T, cfg).value), polls[|polls| - 1].now)
  }

  lemma {:induction false} OutlivesOnLink(cfg: Config, mode: Mode, minutes: nat, T: nat, until: nat)
    requires PlanBoost(mode, minutes, T, cfg).Success? && cfg.tou.InRange()
    requires MinuteOf(T) != 0 && MinuteOf(T) + (until - T) > MINUTES_PER_DAY
    ensures !HealsOnLink(cfg, mode, minutes, T, until)
  {
    hide HoldsSlots, Succeeds, PlanBoost, BoostSpec, PollsSpec, MinuteOfDay, MinuteOf, Healed, Forwards, BlendSlot;
    var to := PlanBoost(mode, minutes, T, cfg).value;
    var w := WindowFor(mode, to);
    var none: TimedSlots := [EMPTY, EMPTY, EMPTY];
    PlanForwards(mode, minutes, T, cfg);
    var visits := OutlivesItsDay(cfg, mode, w, T, until);
    var f, s := CommandRealised(cfg, mode, minutes, T, none, SLOT_WORDS, visits);
    BlendSlotStart(EMPTY, to);
    assert none[BOOST_SLOT := to] == BoostOnly(mode, w);
    var polls := PollsAt(visits);
    var n := |visits| - 1;
    assert polls[..n] == PollsAt(visits[..n]);
    var t := BoostSpec(f, s, cfg, mode, minutes, T).0;
    assert Succeeds(f, PollsSpec(f, t, cfg, polls[..n]), cfg, polls[n]);
    assert LostRun(f, s, cfg, mode, minutes, T, none, polls, until);
    assert HoldsSlots(PollsSpec(f, t, cfg, polls).bank, AfterAll(cfg, BoostOnly(mode, w), visits));
  }

  /**
  How long a lost command over an empty slot 3 is sure to heal on the link, with any frames of the
  polls in between lost as well: exactly until midnight, or for good if it was commanded at midnight.
   */
  lemma {:induction false} HealingOnLink(cfg: Config, mode: Mode, minutes: nat, T: nat, until: nat)
    requires PlanBoost(mode, minutes, T, cfg).Success? && cfg.tou.InRange()
    ensures HealsOnLink(cfg, mode, minutes, T, until)
        <==> MinuteOf(T) == 0 || MinuteOf(T) + (until - T) <= MINUTES_PER_DAY
  {
    hide HoldsSlots, Succeeds, PlanBoost, BoostSpec, PollsSpec, MinuteOf, Healed, Forwards;
    if MinuteOf(T) == 0 || MinuteOf(T) + (until - T) <= MINUTES_PER_DAY {
      forall f: Fates, s: Link, slots: TimedSlots, polls: seq<Poll>, last: TimedSlots |
        LostRun(f, s, cfg, mode, minutes, T, slots, polls, until) && slots[2] == EMPTY
        && HoldsSlots(PollsSpec(f, BoostSpec(f, s, cfg, mode, minutes, T).0, cfg, polls).bank, last)
        ensures Healed(last[2], mode, WindowFor(mode, PlanBoost(mode, minutes, T, cfg).value), polls[|polls| - 1].now)
      {
        LostCommandHeals(f, s, cfg, mode, minutes, T, slots, polls, last);
      }
    } else {
      OutlivesOnLink(cfg, mode, minutes, T, until);
    }
  }

  // ------------------------------------------------ commands lost over a slot in use

  /** A command at T over the schedule, lost anywhere, then a poll that succeeds. */
  ghost predicate CutRun(f: Fates, s: Link, cfg: Config, mode: Mode, minutes: nat, T: nat, slots: TimedSlots,
      poll: Poll) {
    && HoldsSlots(s.bank, slots) && T <= poll.now
    && Succeeds(f, BoostSpec(f, s, cfg, mode, minutes, T).0, cfg, poll)
  }

  /** Whatever the command loses, the poll after it, if it succeeds, leaves in slot 3 only what was asked for. */
  ghost predicate LeavesAsked(cfg: Config, mode: Mode, minutes: nat, T: nat, was: TimedSlot) {
    forall f: Fates, s: Link, slots: TimedSlots, poll: Poll, last: TimedSlots ::
      CutRun(f, s, cfg, mode, minutes, T, slots, poll) && slots[2] == was
      && HoldsSlots(PollSpec(f, BoostSpec(f, s, cfg, mode, minutes, T).0, cfg, poll).bank, last)
      ==> AskedSlot(last[2], was, BoostTarget(cfg, mode, minutes, T))
  }

  lemma TargetShape(cfg: Config, mode: Mode, minutes: nat, T: nat)
    ensures var to := BoostTarget(cfg, mode, minutes, T);
            to.InRange() && Target(to.charge) && Target(to.discharge)
  {
    hide PlanBoost;
    BoostTargetInRange(cfg, mode, minutes, T);
    if mode != Off && PlanBoost(mode, minutes, T, cfg).Success? {
      PlanForwards(mode, minutes, T, cfg);
    }
  }

  lemma {:induction false} CutHeals(f: Fates, s: Link, cfg: Config, mode: Mode, minutes: nat, T: nat,
      slots: TimedSlots, poll: Poll, last: TimedSlots)
    requires CutRun(f, s, cfg, mode, minutes, T, slots, poll) && slots[2].InRange()
    requires HoldsSlots(PollSpec(f, BoostSpec(f, s, cfg, mode, minutes, T).0, cfg, poll).bank, last)
    requires var to := BoostTarget(cfg, mode, minutes, T);
             Clean(slots[2].charge, to.charge) && Clean(slots[2].discharge, to.discharge)
    ensures AskedSlot(last[2], slots[2], BoostTarget(cfg, mode, minutes, T))
  {
    hide HoldsSlots, Succeeds, BoostSpec, PollSpec, BoostTarget, BlendSlot, Clean, AskedSlot, After;
    var t := BoostSpec(f, s, cfg, mode, minutes, T).0;
    var to := BoostTarget(cfg, mode, minutes, T);
    TargetShape(cfg, mode, minutes, T);
    BoostIsProgram(f, s, cfg, mode, minutes, T, slots);
    var p :| 0 <= p <= SLOT_WORDS && HoldsSlots(t.bank, slots[BOOST_SLOT := BlendSlot(slots[BOOST_SLOT], to, p)]);
    var start := slots[BOOST_SLOT := BlendSlot(slots[BOOST_SLOT], to, p)];
    var v := PollIsVisit(f, t, cfg, poll, start);
    HoldsUnique(PollSpec(f, t, cfg, poll).bank, last, After(cfg, start, v));
    CleanHeals(cfg, start, slots[2], to, p, [v], T);
    AfterOne(cfg, start, v);
  }

  lemma {:induction false} StraysOnLink(cfg: Config, mode: Mode, minutes: nat, T: nat, was: TimedSlot)
    requires Writes(cfg, mode, minutes, T) && was.InRange() && cfg.tou.InRange()
    requires var to := BoostTarget(cfg, mode, minutes, T);
             !(Clean(was.charge, to.charge) && Clean(was.discharge, to.discharge))
    ensures !LeavesAsked(cfg, mode, minutes, T, was)
  {
    hide HoldsSlots, Succeeds, BoostSpec, PollSpec, BoostTarget, BlendSlot, Clean, AskedSlot, AfterAll;
    var to := BoostTarget(cfg, mode, minutes, T);
    TargetShape(cfg, mode, minutes, T);
    var p, now := UncleanLingers(cfg, was, to, T);
    var slots: TimedSlots := [EMPTY, EMPTY, was];
    var visits := [Visit(now, ALL_WORDS)];
    var f, s := CommandRealised(cfg, mode, minutes, T, slots, p, visits);
    assert slots[BOOST_SLOT := BlendSlot(was, to, p)] == [EMPTY, EMPTY, BlendSlot(was, to, p)];
    var t := BoostSpec(f, s, cfg, mode, minutes, T).0;
    var poll := PollAt(visits[0]);
    OnePoll(f, t, cfg, visits);
    assert visits[0].Complete();
    assert CutRun(f, s, cfg, mode, minutes, T, slots, poll);
  }

  lemma OnePoll(f: Fates, t: Link, cfg: Config, visits: seq<Visit>)
    requires |visits| == 1
    ensures PollsSpec(f, t, cfg, PollsAt(visits)) == PollSpec(f, t, cfg, PollAt(visits[0]))
    ensures PollsSpec(f, t, cfg, PollsAt(visits[..0])) == t
  {
    assert visits[..1] == visits && PollsAt(visits[..0]) == [];
    PollsNext(f, t, cfg, visits, 0);
  }

  /**
  Which commands may be lost over which slot. Whatever is lost of a boost command, Off included, the
  poll after it, if it succeeds, however late, leaves only what was asked for if and only if both
  directions are clean; otherwise some lost frame leaves a window nobody asked for.
   */
  lemma {:induction false} InterruptedOnLink(cfg: Config, mode: Mode, minutes: nat, T: nat, was: TimedSlot)
    requires Writes(cfg, mode, minutes, T) && was.InRange() && cfg.tou.InRange()
    ensures var to := BoostTarget(cfg, mode, minutes, T);
            LeavesAsked(cfg, mode, minutes, T, was)
            <==> Clean(was.charge, to.charge) && Clean(was.discharge, to.discharge)
  {
    hide HoldsSlots, Succeeds, BoostSpec, PollSpec, BoostTarget, Clean, AskedSlot;
    var to := BoostTarget(cfg, mode, minutes, T);
    if Clean(was.charge, to.charge) && Clean(was.discharge, to.discharge) {
      forall f: Fates, s: Link, slots: TimedSlots, poll: Poll, last: TimedSlots |
        CutRun(f, s, cfg, mode, minutes, T, slots, poll) && slots[2] == was
        && HoldsSlots(PollSpec(f, BoostSpec(f, s, cfg, mode, minutes, T).0, cfg, poll).bank, last)
        ensures AskedSlot(last[2], was, to)
      {
        CutHeals(f, s, cfg, mode, minutes, T, slots, poll, last);
      }
    } else {
      StraysOnLink(cfg, mode, minutes, T, was);
    }
  }
}
