/** Poll cycles repeated within one minute: what they write in all, and where they settle. */
module Convergence {
  import opened Wrappers
  import opened Inverter
  import opened Banks
  import opened Blending
  import opened Schedule
  import opened Visits
  import opened Links
  import opened Controls
  import opened Runs

  /** Writes to a slot word that reached the bank. */
  function SlotLandings(trace: seq<Frame>): nat {
    if trace == [] then 0
    else
      var last := trace[|trace| - 1];
      SlotLandings(trace[..|trace| - 1]) + if last.Write? && last.landed && SlotAddress(last.addr) then 1 else 0
  }

  /**
  Over a stretch of the trace that writes slot words only, every landing is one of them; if it
  writes none, none is.
   */
  lemma {:induction false} SlotLandingsSince(trace: seq<Frame>, n: nat)
    requires n <= |trace|
    ensures (forall i :: n <= i < |trace| && trace[i].Write? ==> SlotAddress(trace[i].addr))
        ==> SlotLandings(trace) - SlotLandings(trace[..n]) == Landings(trace) - Landings(trace[..n])
    ensures (forall i :: n <= i < |trace| && trace[i].Write? ==> !SlotAddress(trace[i].addr))
        ==> SlotLandings(trace) == SlotLandings(trace[..n])
    decreases |trace|
  {
    if n == |trace| {
      assert trace[..n] == trace;
    } else {
      var front := trace[..|trace| - 1];
      SlotLandingsSince(front, n);
      assert front[..n] == trace[..n];
      assert forall i :: n <= i < |front| ==> front[i] == trace[i];
    }
  }

  lemma SequenceSlotLandings(f: Fates, s: Link, regs: seq<Register>)
    ensures var t := SequenceSpec(f, s, regs, false, 0).link;
            && ((forall r :: r in regs ==> SlotAddress(r.addr))
                  ==> SlotLandings(t.trace) - SlotLandings(s.trace) == Landings(t.trace) - Landings(s.trace))
            && ((forall r :: r in regs ==> !SlotAddress(r.addr)) ==> SlotLandings(t.trace) == SlotLandings(s.trace))
  {
    var t := SequenceSpec(f, s, regs, false, 0).link;
    var _ := SequenceCut(f, s, regs, false, 0);
    SequenceWrites(f, s, regs, false, 0);
    SlotLandingsSince(t.trace, |s.trace|);
  }

  /** Poll cycles at one minute, each with the clock sync it carried, if any. */
  function Cycles(f: Fates, s: Link, cfg: Config, now: nat, syncs: seq<Option<RTCWords>>): Link
    decreases |syncs|
  {
    if syncs == [] then s else Cycles(f, CycleSpec(f, s, cfg, true, now, syncs[0]), cfg, now, syncs[1..])
  }

  /** Each of the cycles landed a slot word. */
  predicate EachLands(f: Fates, s: Link, cfg: Config, now: nat, syncs: seq<Option<RTCWords>>)
    decreases |syncs|
  {
    syncs == [] ||
    var next := CycleSpec(f, s, cfg, true, now, syncs[0]);
    SlotLandings(next.trace) > SlotLandings(s.trace) && EachLands(f, next, cfg, now, syncs[1..])
  }

  lemma {:induction false} LandingsAddUp(f: Fates, s: Link, cfg: Config, now: nat, syncs: seq<Option<RTCWords>>)
    requires EachLands(f, s, cfg, now, syncs)
    ensures SlotLandings(Cycles(f, s, cfg, now, syncs).trace) >= SlotLandings(s.trace) + |syncs|
    decreases |syncs|
  {
    hide CycleSpec, SlotLandings;
    if syncs != [] {
      LandingsAddUp(f, CycleSpec(f, s, cfg, true, now, syncs[0]), cfg, now, syncs[1..]);
    }
  }

  lemma DiffIsSlotWords(want: TimedSlots, slots: TimedSlots)
    ensures forall r :: r in Diff(want, slots) ==> SlotAddress(r.addr)
  {
    DifferingMembers(AllRegisters(want), Image(slots));
    forall r | r in Diff(want, slots) ensures SlotAddress(r.addr) {
      AllRegistersAreSlotWords(want, r);
    }
  }

  /** The read and the clock sync of a cycle land no slot word and leave the slots. */
  lemma SyncLandsNone(f: Fates, s: Link, now: nat, sync: Option<RTCWords>, slots: TimedSlots)
    requires HoldsSlots(s.bank, slots)
    ensures var s1 := ReadSetpointsSpec(f, s).0;
            var s2 := if sync.Some? then SequenceSpec(f, s1, RTCRegisters(sync.value), false, 0).link else s1;
            HoldsSlots(s2.bank, slots) && SlotLandings(s2.trace) == SlotLandings(s.trace)
  {
    hide HoldsSlots, SlotAddress;
    var s1 := ReadSetpointsSpec(f, s).0;
    SetpointsAreTheBank(f, s);
    assert s1.trace[..|s.trace|] == s.trace;
    if sync.Some? {
      RTCPlain(sync.value);
      SequenceSlotLandings(f, s1, RTCRegisters(sync.value));
      SyncLeavesSlots(f, s1, sync.value, slots);
    }
  }

  /** One cycle, cut anywhere: the slot words it lands come off the registers still to be put right. */
  lemma CycleLowersMeasure(f: Fates, s: Link, cfg: Config, now: nat, sync: Option<RTCWords>, slots: TimedSlots)
      returns (after: TimedSlots)
    requires HoldsSlots(s.bank, slots)
    ensures var t := CycleSpec(f, s, cfg, true, now, sync);
            && HoldsSlots(t.bank, after)
            && SlotLandings(s.trace) <= SlotLandings(t.trace)
            && Measure(cfg, after, now) + SlotLandings(t.trace) <= Measure(cfg, slots, now) + SlotLandings(s.trace)
  {
    hide HoldsSlots, SlotLandings, SequenceSpec, Measure, Distance, After;
    var (s1, sp) := ReadSetpointsSpec(f, s);
    SetpointsAreTheBank(f, s);
    SyncLandsNone(f, s, now, sync, slots);
    if sp.None? {
      after := slots;
    } else {
      var s2 := if sync.Some? then SequenceSpec(f, s1, RTCRegisters(sync.value), false, 0).link else s1;
      HoldsUnique(s.bank, slots, sp.value.slots);
      var v := ReconcileIsVisit(f, s2, cfg, slots, now);
      after := After(cfg, slots, v);
      VisitLowersMeasure(cfg, slots, v);
      DiffIsSlotWords(Desired(cfg, slots, now), slots);
      SequenceSlotLandings(f, s2, Diff(Desired(cfg, slots, now), slots));
    }
  }

  /**
  However often the link cuts a minute's cycles, they land no more slot words in all than differed
  when the minute's first cycle began.
   */
  lemma {:induction false} CyclesWear(f: Fates, s: Link, cfg: Config, now: nat, syncs: seq<Option<RTCWords>>,
      slots: TimedSlots)
      returns (after: TimedSlots)
    requires HoldsSlots(s.bank, slots)
    ensures var t := Cycles(f, s, cfg, now, syncs);
            && HoldsSlots(t.bank, after)
            && Measure(cfg, after, now) + SlotLandings(t.trace) <= Measure(cfg, slots, now) + SlotLandings(s.trace)
    decreases |syncs|
  {
    hide Measure, CycleSpec, HoldsSlots, SlotLandings;
    if syncs == [] {
      after := slots;
    } else {
      var next := CycleLowersMeasure(f, s, cfg, now, syncs[0], slots);
      after := CyclesWear(f, CycleSpec(f, s, cfg, true, now, syncs[0]), cfg, now, syncs[1..], next);
    }
  }

  /**
  No more than 24 cycles of one minute can each land a slot word, and once as many have as
  registers differed, the bank holds the schedule the manager wants.
   */
  lemma CyclesSettle(f: Fates, s: Link, cfg: Config, now: nat, syncs: seq<Option<RTCWords>>, slots: TimedSlots)
      returns (after: TimedSlots)
    requires HoldsSlots(s.bank, slots) && EachLands(f, s, cfg, now, syncs)
    ensures HoldsSlots(Cycles(f, s, cfg, now, syncs).bank, after)
    ensures Measure(cfg, after, now) + |syncs| <= Measure(cfg, slots, now) <= ALL_WORDS
    ensures |syncs| == Measure(cfg, slots, now) ==> Desired(cfg, after, now) == after
  {
    hide HoldsSlots, CycleSpec, Desired, Distance, SlotLandings;
    MeasureBound(cfg, slots, now);
    LandingsAddUp(f, s, cfg, now, syncs);
    after := CyclesWear(f, s, cfg, now, syncs, slots);
    DistanceBound(Desired(cfg, after, now), after);
  }

  lemma MeasureBound(cfg: Config, slots: TimedSlots, now: nat)
    ensures Measure(cfg, slots, now) <= ALL_WORDS
  {
    DistanceBound(Desired(cfg, slots, now), slots);
  }

  /** A reconcile that succeeds leaves the desired schedule, and another at that minute sends no frame. */
  lemma SuccessSettles(f: Fates, s: Link, cfg: Config, slots: TimedSlots, now: nat)
    requires HoldsSlots(s.bank, slots) && ReconcileSpec(f, s, cfg, true, slots, now).err.None?
    ensures var t := ReconcileSpec(f, s, cfg, true, slots, now).link;
            var want := Desired(cfg, slots, now);
            && HoldsSlots(t.bank, want) && Desired(cfg, want, now) == want
            && ReconcileSpec(f, t, cfg, true, want, now).link == t
  {
    var want := Desired(cfg, slots, now);
    var t := ReconcileSpec(f, s, cfg, true, slots, now).link;
    var v := ReconcileIsVisit(f, s, cfg, slots, now);
    CompleteReaches(slots, want, v.words);
    VisitLowersMeasure(cfg, slots, v);
    DistanceBound(Desired(cfg, want, now), want);
    var _ := ReconcileIsVisit(f, t, cfg, want, now);
  }

  lemma CompleteReaches(from: TimedSlots, to: TimedSlots, k: nat)
    requires k >= ALL_WORDS
    ensures BlendSlots(from, to, k) == to
  {
    assert to == [to[0], to[1], to[2]];
  }
}
