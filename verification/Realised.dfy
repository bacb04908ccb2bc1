/**
From the visits back to the link: every run of visits is brought about by some pattern of faults,
so a run of visits that breaks a promise is a run of polls that does.
 */
module Realised {
  import opened Wrappers
  import opened Inverter
  import opened WorkModes
  import opened Banks
  import opened Blending
  import opened Schedule
  import opened Transients
  import opened Visits
  import opened Links
  import opened Controls
  import opened Polls

  lemma SlotWordsMapped(bank: Bank, slots: TimedSlots, r: Register)
    requires HoldsSlots(bank, slots) && SlotAddress(r.addr)
    ensures r.addr in bank
  {
    SlotWordsAgree(bank, bank, slots, r.addr);
  }

  /** Each visit of a minute is what some pattern of faults makes of the reconcile. */
  lemma VisitRealised(s: Link, cfg: Config, slots: TimedSlots, now: nat, k: nat) returns (f: Fates)
    requires HoldsSlots(s.bank, slots) && k <= ALL_WORDS
    ensures var out := ReconcileSpec(f, s, cfg, true, slots, now);
            HoldsSlots(out.link.bank, After(cfg, slots, Visit(now, k))) && (k == ALL_WORDS ==> out.err.None?)
  {
    hide HoldsSlots;
    var want := Desired(cfg, slots, now);
    var all := AllRegisters(want);
    var diff := Diff(want, slots);
    AllRegistersDistinct(want);
    DiffOfBank(s.bank, want, slots);
    DiffExact(s.bank, want, slots);
    assert all == all[..k] + all[k..];
    DifferingAppend(all[..k], all[k..], s.bank);
    var j := |Differing(all[..k], s.bank)|;
    assert diff[..j] == Differing(all[..k], s.bank);
    OverlayDiffering(s.bank, all, k);
    PrefixBlends(s.bank, slots, want, k);
    forall r | r in diff ensures r.addr in s.bank {
      AllRegistersAreSlotWords(want, r);
      SlotWordsMapped(s.bank, slots, r);
    }
    CutRealised(s, diff, j);
    f :| SequenceSpec(f, s, diff, false, 0).at == j
         && SequenceSpec(f, s, diff, false, 0).link.bank == Overlay(s.bank, diff[..j]);
    CutState(f, s, diff);
  }

  /** The published poll at the visit's minute, with no clock sync. */
  function PollAt(v: Visit): Poll {
    Poll(v.now, None, true)
  }

  /** The polls at the visits' minutes. */
  function PollsAt(visits: seq<Visit>): (polls: seq<Poll>)
    ensures |polls| == |visits|
  {
    seq(|visits|, i requires 0 <= i < |visits| => PollAt(visits[i]))
  }

  /** The bank can be read back, and what it reads as is the schedule it holds. */
  predicate Readable(bank: Bank, slots: TimedSlots) {
    BlockMapped(bank, REG_WORK_MODE, SETPOINT_BLOCK_COUNT) && SlotsInRange(slots) && HoldsSlots(bank, slots)
  }

  /** Under f the poll leaves what the visit leaves, and succeeds if the visit is complete. */
  ghost predicate Brings(f: Fates, s: Link, cfg: Config, slots: TimedSlots, v: Visit) {
    && Readable(PollSpec(f, s, cfg, PollAt(v)).bank, After(cfg, slots, v))
    && (v.Complete() ==> Succeeds(f, s, cfg, PollAt(v)))
  }

  lemma ReadDelivered(f: Fates, s: Link, slots: TimedSlots)
    requires Readable(s.bank, slots) && f(|s.trace|) == Deliver
    ensures var (s1, sp) := ReadSetpointsSpec(f, s);
            s1.bank == s.bank && |s1.trace| == |s.trace| + 1 && sp.Some? && sp.value.slots == slots
  {
    DecodeInvertsEncode(s.bank, slots);
  }

  lemma ReconcileKeepsMapped(f: Fates, s: Link, cfg: Config, slots: TimedSlots, now: nat)
    requires BlockMapped(s.bank, REG_WORK_MODE, SETPOINT_BLOCK_COUNT)
    ensures BlockMapped(ReconcileSpec(f, s, cfg, true, slots, now).link.bank, REG_WORK_MODE, SETPOINT_BLOCK_COUNT)
  {
    var diff := Diff(Desired(cfg, slots, now), slots);
    var cut := SequenceCut(f, s, diff, false, 0);
    forall a | a in s.bank ensures a in Overlay(s.bank, diff[..cut]) {
      OverlayGrows(s.bank, diff[..cut], a);
    }
  }

  lemma AfterAtMost(cfg: Config, slots: TimedSlots, v: Visit)
    ensures After(cfg, slots, v) == After(cfg, slots, Visit(v.now, if v.Complete() then ALL_WORDS else v.words))
  {
  }

  lemma PollRealised(s: Link, cfg: Config, slots: TimedSlots, v: Visit) returns (f: Fates)
    requires Readable(s.bank, slots) && cfg.tou.InRange()
    ensures Brings(f, s, cfg, slots, v)
  {
    hide HoldsSlots, SequenceSpec, After, BlockMapped;
    var delivered: Fates := (i: nat) => Deliver;
    ReadDelivered(delivered, s, slots);
    var s1 := ReadSetpointsSpec(delivered, s).0;
    var g := VisitRealised(s1, cfg, slots, v.now, if v.Complete() then ALL_WORDS else v.words);
    f := (i: nat) => if i == |s.trace| then Deliver else g(i);
    ReadDelivered(f, s, slots);
    assert ReadSetpointsSpec(f, s) == ReadSetpointsSpec(delivered, s);
    var diff := Diff(Desired(cfg, slots, v.now), slots);
    SequenceLocal(g, f, s1, diff, false, 0);
    ReconcileKeepsMapped(f, s1, cfg, slots, v.now);
    AfterAtMost(cfg, slots, v);
    DesiredInRange(cfg, slots, v.now);
    AfterInRange(cfg, slots, v);
  }

  lemma AfterInRange(cfg: Config, slots: TimedSlots, v: Visit)
    requires SlotsInRange(slots) && SlotsInRange(Desired(cfg, slots, v.now))
    ensures SlotsInRange(After(cfg, slots, v))
  {
    BlendInRange(slots, Desired(cfg, slots, v.now), v.words);
  }

  lemma PollGrows(f: Fates, s: Link, cfg: Config, v: Visit)
    ensures |s.trace| < |PollSpec(f, s, cfg, PollAt(v)).trace|
  {
    var (s1, sp) := ReadSetpointsSpec(f, s);
    if sp.Some? {
      SequenceGrows(f, s1, Diff(Desired(cfg, sp.value.slots, v.now), sp.value.slots), false, 0);
    }
  }

  lemma PollLocal(f: Fates, g: Fates, s: Link, cfg: Config, v: Visit)
    requires Agree(f, g, |s.trace|, |PollSpec(f, s, cfg, PollAt(v)).trace|)
    ensures PollSpec(g, s, cfg, PollAt(v)) == PollSpec(f, s, cfg, PollAt(v))
    ensures Succeeds(g, s, cfg, PollAt(v)) == Succeeds(f, s, cfg, PollAt(v))
  {
    PollGrows(f, s, cfg, v);
    var (s1, sp) := ReadSetpointsSpec(f, s);
    assert ReadSetpointsSpec(g, s) == (s1, sp);
    if sp.Some? {
      SequenceLocal(f, g, s1, Diff(Desired(cfg, sp.value.slots, v.now), sp.value.slots), false, 0);
    }
  }

  /** Under f, each poll of the run brings about its visit. */
  ghost predicate Realises(f: Fates, s: Link, cfg: Config, slots: TimedSlots, visits: seq<Visit>) {
    && Readable(PollsSpec(f, s, cfg, PollsAt(visits)).bank, AfterAll(cfg, slots, visits))
    && forall i :: 0 <= i < |visits| && visits[i].Complete()
        ==> Succeeds(f, PollsSpec(f, s, cfg, PollsAt(visits[..i])), cfg, PollAt(visits[i]))
  }

  lemma PollsNext(f: Fates, s: Link, cfg: Config, visits: seq<Visit>, n: nat)
    requires n < |visits|
    ensures PollsSpec(f, s, cfg, PollsAt(visits[..n + 1]))
         == PollSpec(f, PollsSpec(f, s, cfg, PollsAt(visits[..n])), cfg, PollAt(visits[n]))
  {
    var polls := PollsAt(visits[..n + 1]);
    assert polls[..n] == PollsAt(visits[..n]);
  }

  lemma {:induction false} PollsGrow(f: Fates, s: Link, cfg: Config, visits: seq<Visit>, i: nat, n: nat)
    requires i <= n <= |visits|
    ensures |PollsSpec(f, s, cfg, PollsAt(visits[..i])).trace| <= |PollsSpec(f, s, cfg, PollsAt(visits[..n])).trace|
    decreases n
  {
    hide PollsSpec, PollSpec;
    if i < n {
      PollsGrow(f, s, cfg, visits, i, n - 1);
      PollsNext(f, s, cfg, visits, n - 1);
      PollGrows(f, PollsSpec(f, s, cfg, PollsAt(visits[..n - 1])), cfg, visits[n - 1]);
    }
  }

  lemma {:induction false} PollsLocal(f: Fates, g: Fates, s: Link, cfg: Config, visits: seq<Visit>, n: nat)
    requires n <= |visits| && Agree(f, g, |s.trace|, |PollsSpec(f, s, cfg, PollsAt(visits[..n])).trace|)
    ensures PollsSpec(g, s, cfg, PollsAt(visits[..n])) == PollsSpec(f, s, cfg, PollsAt(visits[..n]))
    decreases n
  {
    hide PollSpec, Succeeds;
    if n > 0 {
      PollsGrow(f, s, cfg, visits, n - 1, n);
      PollsGrow(f, s, cfg, visits, 0, n - 1);
      assert PollsAt(visits[..0]) == [];
      PollsLocal(f, g, s, cfg, visits, n - 1);
      PollsNext(f, s, cfg, visits, n - 1);
      PollsNext(g, s, cfg, visits, n - 1);
      PollLocal(f, g, PollsSpec(f, s, cfg, PollsAt(visits[..n - 1])), cfg, visits[n - 1]);
    }
  }

  /** A realised run stays so under fates that agree on its frames. */
  lemma RealisesLocal(f: Fates, g: Fates, s: Link, cfg: Config, slots: TimedSlots, visits: seq<Visit>)
    requires Realises(f, s, cfg, slots, visits) && Agree(f, g, |s.trace|, |PollsSpec(f, s, cfg, PollsAt(visits)).trace|)
    ensures Realises(g, s, cfg, slots, visits)
    ensures PollsSpec(g, s, cfg, PollsAt(visits)) == PollsSpec(f, s, cfg, PollsAt(visits))
  {
    hide Succeeds, PollSpec, Readable;
    assert visits[..|visits|] == visits;
    PollsLocal(f, g, s, cfg, visits, |visits|);
    forall i | 0 <= i < |visits| && visits[i].Complete()
      ensures Succeeds(g, PollsSpec(g, s, cfg, PollsAt(visits[..i])), cfg, PollAt(visits[i]))
    {
      PollsGrow(f, s, cfg, visits, 0, i);
      assert PollsAt(visits[..0]) == [];
      PollsGrow(f, s, cfg, visits, i, |visits|);
      PollsGrow(f, s, cfg, visits, i + 1, |visits|);
      PollsNext(f, s, cfg, visits, i);
      PollsLocal(f, g, s, cfg, visits, i);
      PollLocal(f, g, PollsSpec(f, s, cfg, PollsAt(visits[..i])), cfg, visits[i]);
    }
  }

  /** Every run of visits is what some pattern of faults makes of polls at the same minutes. */
  lemma {:induction false} VisitsRealised(s: Link, cfg: Config, slots: TimedSlots, visits: seq<Visit>)
      returns (f: Fates)
    requires Readable(s.bank, slots) && cfg.tou.InRange()
    ensures Realises(f, s, cfg, slots, visits)
    decreases |visits|
  {
    hide Succeeds, PollSpec, Readable;
    if visits == [] {
      f := (i: nat) => Deliver;
      assert PollsAt(visits) == [];
    } else {
      var n := |visits| - 1;
      var front := visits[..n];
      var g := VisitsRealised(s, cfg, slots, front);
      var mid := PollsSpec(g, s, cfg, PollsAt(front));
      var h := PollRealised(mid, cfg, AfterAll(cfg, slots, front), visits[n]);
      f := (i: nat) => if i < |mid.trace| then g(i) else h(i);
      RealisesLocal(g, f, s, cfg, slots, front);
      PollLocal(h, f, mid, cfg, visits[n]);
      RealisesNext(f, s, cfg, slots, visits, n);
    }
  }

  lemma RealisesNext(f: Fates, s: Link, cfg: Config, slots: TimedSlots, visits: seq<Visit>, n: nat)
    requires n + 1 == |visits| && Realises(f, s, cfg, slots, visits[..n])
    requires Brings(f, PollsSpec(f, s, cfg, PollsAt(visits[..n])), cfg, AfterAll(cfg, slots, visits[..n]), visits[n])
    ensures Realises(f, s, cfg, slots, visits)
  {
    hide Succeeds, PollSpec, PollsSpec, AfterAll, Readable;
    assert visits[..n + 1] == visits;
    PollsNext(f, s, cfg, visits, n);
    AfterNext(cfg, slots, visits, n);
    forall i | 0 <= i < |visits| && visits[i].Complete()
      ensures Succeeds(f, PollsSpec(f, s, cfg, PollsAt(visits[..i])), cfg, PollAt(visits[i]))
    {
      if i < n {
        assert visits[..n][..i] == visits[..i];
      }
    }
  }

  // ------------------------------------------------------ the boost's life, exactly

  /** The link holds the boost at T and is polled with a success at least every gap minutes past its end. */
  ghost predicate BoostRun(f: Fates, s: Link, cfg: Config, polls: seq<Poll>, slots: TimedSlots, mode: Mode,
      w: TimedWindow, T: nat, gap: nat)
    requires Forwards(w)
  {
    HoldsSlots(s.bank, slots) && slots[2] == SlotFor(mode, w) && Attended(f, s, cfg, polls, T, T + Length(w) + gap, gap)
  }

  /** Whatever frames the link loses, slot 3 is empty one gap after the boost's end. */
  ghost predicate GoneOnLink(cfg: Config, mode: Mode, w: TimedWindow, T: nat, gap: nat)
    requires Planned(w, T)
  {
    forall f: Fates, s: Link, polls: seq<Poll>, slots: TimedSlots, last: TimedSlots ::
      BoostRun(f, s, cfg, polls, slots, mode, w, T, gap) && HoldsSlots(PollsSpec(f, s, cfg, polls).bank, last)
      ==> last[2] == EMPTY
  }

  lemma WatchedIsAttended(f: Fates, s: Link, cfg: Config, slots: TimedSlots, visits: seq<Visit>, mode: Mode,
      w: TimedWindow, T: nat, gap: nat)
    requires Planned(w, T) && Watched(slots, visits, mode, w, T, gap) && Realises(f, s, cfg, slots, visits)
    ensures Attended(f, s, cfg, PollsAt(visits), T, T + Length(w) + gap, gap)
  {
    hide Succeeds, PollsSpec, Readable;
    var polls := PollsAt(visits);
    forall t | T <= t && t + gap <= T + Length(w) + gap ensures SucceedsWithin(f, s, cfg, polls, t, gap) {
      assert CompleteWithin(visits, t, gap);
      var i :| 0 <= i < |visits| && visits[i].Complete() && t <= visits[i].now < t + gap;
      assert polls[..i] == PollsAt(visits[..i]) && polls[i] == PollAt(visits[i]);
      assert Succeeds(f, PollsSpec(f, s, cfg, polls[..i]), cfg, polls[i]);
    }
  }

  /** A control block that reads as timed mode, with every other word zero. */
  function Blanks(): seq<Register> {
    seq(SETPOINT_BLOCK_COUNT,
        n requires 0 <= n < SETPOINT_BLOCK_COUNT => Register(REG_WORK_MODE + n, if n == 0 then WORK_MODE_TIMED_ON
            else 0))
  }

  /** A bank that holds the schedule and nothing else. */
  function PlainBank(slots: TimedSlots): Bank {
    Overlay(Overlay(map[], Blanks()), AllRegisters(slots))
  }

  lemma PlainBankReadable(slots: TimedSlots)
    requires SlotsInRange(slots)
    ensures Readable(PlainBank(slots), slots)
  {
    hide HoldsSlots, SlotsInRange, AllRegisters;
    var blank := Overlay(map[], Blanks());
    OverlayHoldsEach(map[], Blanks());
    OverlayAllHolds(blank, slots);
    forall a | REG_WORK_MODE <= a < REG_WORK_MODE + SETPOINT_BLOCK_COUNT ensures a in PlainBank(slots) {
      assert Blanks()[a - REG_WORK_MODE] in Blanks();
      OverlayGrows(blank, AllRegisters(slots), a);
    }
  }

  lemma PlainBankTimed(slots: TimedSlots)
    ensures REG_WORK_MODE in PlainBank(slots) && PlainBank(slots)[REG_WORK_MODE] == WORK_MODE_TIMED_ON
  {
    hide AllRegisters, Blanks;
    BlankWorkMode();
    OverlayHoldsEach(map[], Blanks());
    forall r | r in AllRegisters(slots) ensures r.addr != REG_WORK_MODE {
      AllRegistersAreSlotWords(slots, r);
    }
    OverlayUntouched(Overlay(map[], Blanks()), AllRegisters(slots), REG_WORK_MODE);
  }

  lemma BlankWorkMode()
    ensures Distinct(Blanks()) && Register(REG_WORK_MODE, WORK_MODE_TIMED_ON) in Blanks()
  {
    assert Blanks()[0] == Register(REG_WORK_MODE, WORK_MODE_TIMED_ON);
  }

  lemma BoostOnlyInRange(mode: Mode, w: TimedWindow)
    requires w.InRange()
    ensures SlotsInRange(BoostOnly(mode, w))
  {
  }

  lemma LingersOnLink(cfg: Config, mode: Mode, w: TimedWindow, T: nat, gap: nat)
    requires mode != Off && Planned(w, T) && gap >= 1 && cfg.tou.InRange() && MinuteOfDay(w.end) + gap > MINUTES_PER_DAY
    ensures !GoneOnLink(cfg, mode, w, T, gap)
  {
    hide Succeeds, PollsSpec, HoldsSlots, PlainBank, Watched, Attended;
    var slots := BoostOnly(mode, w);
    var s := Link(PlainBank(slots), []);
    BoostOnlyInRange(mode, w);
    PlainBankReadable(slots);
    var visits := LingersPastMidnight(cfg, mode, w, T, gap);
    var f := VisitsRealised(s, cfg, slots, visits);
    WatchedIsAttended(f, s, cfg, slots, visits, mode, w, T, gap);
    assert BoostRun(f, s, cfg, PollsAt(visits), slots, mode, w, T, gap);
  }

  /**
  The life of a boost on the link, exactly: polled with a success at least every gap minutes, it is
  gone one gap after its end, whatever frames are lost on the way, if and only if that gap ends by
  midnight. Otherwise some pattern of lost frames leaves part of it running the next day.
   */
  lemma BoostLifetimeOnLink(cfg: Config, mode: Mode, w: TimedWindow, T: nat, gap: nat)
    requires mode != Off && Planned(w, T) && gap >= 1 && cfg.tou.InRange()
    ensures GoneOnLink(cfg, mode, w, T, gap) <==> MinuteOfDay(w.end) + gap <= MINUTES_PER_DAY
  {
    hide Succeeds, PollsSpec, HoldsSlots, Attended, MinuteOfDay;
    if MinuteOfDay(w.end) + gap <= MINUTES_PER_DAY {
      forall f: Fates, s: Link, polls: seq<Poll>, slots: TimedSlots, last: TimedSlots |
        BoostRun(f, s, cfg, polls, slots, mode, w, T, gap) && HoldsSlots(PollsSpec(f, s, cfg, polls).bank, last)
        ensures last[2] == EMPTY
      {
        BoostGoneFromLink(f, s, cfg, polls, slots, mode, w, T, gap, last);
      }
    } else {
      LingersOnLink(cfg, mode, w, T, gap);
    }
  }
}
