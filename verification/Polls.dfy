/**
From the link to the visits: any run of poll cycles, under any fates, is a run of
visits, so what the visits promise the link keeps.
 */
module Polls {
  import opened Wrappers
  import opened Inverter
  import opened Blending
  import opened Schedule
  import opened Transients
  import opened Visits
  import opened Links
  import opened Controls
  import opened Runs

  /**
  A poll that read: when it ran, the clock sync if the inverter's clock had drifted, and whether
  its publish went out.
   */
  datatype Poll = Poll(now: nat, sync: Option<RTCWords>, published: bool)

  /** A poll whose publish failed stops at its setpoint read. */
  function PollSpec(f: Fates, s: Link, cfg: Config, p: Poll): Link {
    if p.published then CycleSpec(f, s, cfg, true, p.now, p.sync) else ReadSetpointsSpec(f, s).0
  }

  function PollsSpec(f: Fates, s: Link, cfg: Config, polls: seq<Poll>): Link
    decreases |polls|
  {
    if polls == [] then s
    else
      PollSpec(f, PollsSpec(f, s, cfg, polls[..|polls| - 1]), cfg, polls[|polls| - 1])
  }

  /** The setpoints this poll would reconcile, and the link it would reconcile them over. */
  function Synced(f: Fates, s: Link, p: Poll): Link {
    var s1 := ReadSetpointsSpec(f, s).0;
    if p.sync.Some? then SequenceSpec(f, s1, RTCRegisters(p.sync.value), false, 0).link else s1
  }

  /** The poll was published, read fresh setpoints and its reconcile reported no error. */
  predicate Succeeds(f: Fates, s: Link, cfg: Config, p: Poll) {
    var sp := ReadSetpointsSpec(f, s).1;
    p.published && sp.Some? && ReconcileSpec(f, Synced(f, s, p), cfg, true, sp.value.slots, p.now).err.None?
  }

  lemma SyncedHolds(f: Fates, s: Link, p: Poll, slots: TimedSlots)
    requires HoldsSlots(s.bank, slots)
    ensures HoldsSlots(Synced(f, s, p).bank, slots)
  {
    SetpointsAreTheBank(f, s);
    if p.sync.Some? {
      SyncLeavesSlots(f, ReadSetpointsSpec(f, s).0, p.sync.value, slots);
    }
  }

  lemma PollIsVisit(f: Fates, s: Link, cfg: Config, p: Poll, slots: TimedSlots) returns (v: Visit)
    requires HoldsSlots(s.bank, slots)
    ensures v.now == p.now && (Succeeds(f, s, cfg, p) ==> v.Complete())
    ensures HoldsSlots(PollSpec(f, s, cfg, p).bank, After(cfg, slots, v))
  {
    hide HoldsSlots;
    var sp := ReadSetpointsSpec(f, s).1;
    SyncedHolds(f, s, p, slots);
    SetpointsAreTheBank(f, s);
    if sp.None? || !p.published {
      v := Visit(p.now, 0);
      BlendEnds(slots, Desired(cfg, slots, p.now));
    } else {
      HoldsUnique(s.bank, slots, sp.value.slots);
      v := ReconcileIsVisit(f, Synced(f, s, p), cfg, slots, p.now);
    }
  }

  lemma PollsLast(f: Fates, s: Link, cfg: Config, polls: seq<Poll>)
    requires polls != []
    ensures PollsSpec(f, s, cfg, polls)
        == PollSpec(f, PollsSpec(f, s, cfg, polls[..|polls| - 1]), cfg, polls[|polls| - 1])
  {
  }

  /** Every run of polls, whatever the link does, is a run of visits at the same minutes. */
  lemma {:induction false} PollsAreVisits(f: Fates, s: Link, cfg: Config, polls: seq<Poll>, slots: TimedSlots)
      returns (visits: seq<Visit>)
    requires HoldsSlots(s.bank, slots)
    ensures |visits| == |polls| && HoldsSlots(PollsSpec(f, s, cfg, polls).bank, AfterAll(cfg, slots, visits))
    ensures forall i :: 0 <= i < |polls| ==> visits[i].now == polls[i].now
    ensures forall i ::
      0 <= i < |polls| && Succeeds(f, PollsSpec(f, s, cfg, polls[..i]), cfg, polls[i]) ==> visits[i].Complete()
    decreases |polls|
  {
    hide HoldsSlots, PollSpec, Succeeds, After;
    if polls == [] {
      visits := [];
    } else {
      hide PollsSpec, AfterAll;
      PollsLast(f, s, cfg, polls);
      var n := |polls| - 1;
      var front := PollsAreVisits(f, s, cfg, polls[..n], slots);
      var v := PollIsVisit(f, PollsSpec(f, s, cfg, polls[..n]), cfg, polls[n], AfterAll(cfg, slots, front));
      visits := front + [v];
      AfterNext(cfg, slots, visits, n);
      assert visits[..n] == front && visits[..n + 1] == visits;
      forall i | 0 <= i < |polls| && Succeeds(f, PollsSpec(f, s, cfg, polls[..i]), cfg, polls[i])
        ensures visits[i].Complete()
      {
        if i < n {
          assert polls[..n][..i] == polls[..i];
        }
      }
    }
  }

  predicate InOrder(polls: seq<Poll>, T: nat) {
    && (forall i :: 0 <= i < |polls| ==> T <= polls[i].now)
    && (forall i, j :: 0 <= i < j < |polls| ==> polls[i].now <= polls[j].now)
  }

  /** Polls come in time order from T, and every `gap` minutes up to `until` hold one that succeeds. */
  ghost predicate Attended(f: Fates, s: Link, cfg: Config, polls: seq<Poll>, T: nat, until: nat, gap: nat) {
    && InOrder(polls, T)
    && (forall t :: T <= t && t + gap <= until ==> SucceedsWithin(f, s, cfg, polls, t, gap))
  }

  ghost predicate SucceedsWithin(f: Fates, s: Link, cfg: Config, polls: seq<Poll>, t: nat, gap: nat) {
    exists i :: 0 <= i < |polls| && Succeeds(f, PollsSpec(f, s, cfg, polls[..i]), cfg, polls[i])
        && t <= polls[i].now < t + gap
  }

  /**
  The life of a boost on the link. A boost the bank holds from T, polled with a success at least
  every gap minutes until one gap after its end, has left slot 3 empty, whatever frames the link
  lost on the way, if that gap ends by midnight.
   */
  lemma BoostGoneFromLink(f: Fates, s: Link, cfg: Config, polls: seq<Poll>, slots: TimedSlots, mode: Mode,
      w: TimedWindow, T: nat, gap: nat, last: TimedSlots)
    requires HoldsSlots(s.bank, slots) && Planned(w, T) && slots[2] == SlotFor(mode, w)
    requires MinuteOfDay(w.end) + gap <= MINUTES_PER_DAY
    requires Attended(f, s, cfg, polls, T, T + Length(w) + gap, gap)
    requires HoldsSlots(PollsSpec(f, s, cfg, polls).bank, last)
    ensures last[2] == EMPTY
  {
    hide HoldsSlots, Succeeds;
    var visits := PollsAreVisits(f, s, cfg, polls, slots);
    forall t | T <= t && t + gap <= T + Length(w) + gap ensures CompleteWithin(visits, t, gap) {
      assert SucceedsWithin(f, s, cfg, polls, t, gap);
      var i :| 0 <= i < |polls| && Succeeds(f, PollsSpec(f, s, cfg, polls[..i]), cfg, polls[i])
          && t <= polls[i].now < t + gap;
      assert visits[i].Complete();
    }
    GoneSameDay(cfg, slots, visits, mode, w, T, gap);
    HoldsUnique(PollsSpec(f, s, cfg, polls).bank, last, AfterAll(cfg, slots, visits));
  }

  /** While a boost lasts, no poll changes it, whatever the link does. */
  lemma BoostKeptOnLink(f: Fates, s: Link, cfg: Config, polls: seq<Poll>, slots: TimedSlots, mode: Mode,
      w: TimedWindow, T: nat, last: TimedSlots)
    requires HoldsSlots(s.bank, slots) && Planned(w, T) && slots[2] == SlotFor(mode, w)
    requires forall i :: 0 <= i < |polls| ==> T <= polls[i].now < T + Length(w)
    requires HoldsSlots(PollsSpec(f, s, cfg, polls).bank, last)
    ensures last[2] == SlotFor(mode, w)
  {
    hide HoldsSlots;
    var visits := PollsAreVisits(f, s, cfg, polls, slots);
    forall v | v in visits ensures T <= v.now < T + Length(w) {
      var i :| 0 <= i < |visits| && visits[i] == v;
    }
    BoostUntouched(cfg, slots, mode, w, T, visits);
    HoldsUnique(PollsSpec(f, s, cfg, polls).bank, last, AfterAll(cfg, slots, visits));
  }

  // ----------------------------------------------------------------------- expiry

  /** No frame of a reconcile ever shows slot 3's expired charge or discharge window covering the minute it runs at. */
  lemma ExpiryNeverFires(f: Fates, s: Link, cfg: Config, slots: TimedSlots, now: nat, n: nat, seen: TimedSlots)
    requires HoldsSlots(s.bank, slots)
    requires var t := ReconcileSpec(f, s, cfg, true, slots, now).link.trace;
             |s.trace| <= n < |t| && HoldsSlots(t[n].bank, seen)
    ensures Forwards(slots[2].charge) && MinuteOfDay(slots[2].charge.end) <= MinuteOf(now)
        ==> !Covers(seen[2].charge, MinuteOf(now))
    ensures Forwards(slots[2].discharge) && MinuteOfDay(slots[2].discharge.end) <= MinuteOf(now)
        ==> !Covers(seen[2].discharge, MinuteOf(now))
  {
    hide HoldsSlots, After, ReconcileSpec, Live, Covers, Forwards, MinuteOfDay, Landings, WearSafe;
    var t := ReconcileSpec(f, s, cfg, true, slots, now).link.trace;
    var _ := ReconcileIsVisit(f, s, cfg, slots, now);
    assert HoldsVisit(t[n].bank, cfg, slots, now);
    var k :| 0 <= k <= ALL_WORDS && HoldsSlots(t[n].bank, After(cfg, slots, Visit(now, k)));
    HoldsUnique(t[n].bank, seen, After(cfg, slots, Visit(now, k)));
    ExpiredVisit(cfg, slots, Visit(now, k));
  }

  lemma ExpiredVisit(cfg: Config, slots: TimedSlots, v: Visit)
    ensures var slot := After(cfg, slots, v)[2];
            && (Forwards(slots[2].charge) && MinuteOfDay(slots[2].charge.end) <= MinuteOf(v.now)
                ==> !Covers(slot.charge, MinuteOf(v.now)))
            && (Forwards(slots[2].discharge) && MinuteOfDay(slots[2].discharge.end) <= MinuteOf(v.now)
                ==> !Covers(slot.discharge, MinuteOf(v.now)))
  {
    hide Live, Covers, Forwards, MinuteOfDay;
    BoostSlotAfter(cfg, slots, v);
    var last := ChargeLast(Running(slots[2], v.now));
    ExpiredWindow(slots[2].charge, v.now, if last then v.words - 20 else v.words - 16);
    ExpiredWindow(slots[2].discharge, v.now, if last then v.words - 16 else v.words - 20);
  }

  lemma ExpiredWindow(w: TimedWindow, now: nat, p: int)
    ensures Forwards(w) && MinuteOfDay(w.end) <= MinuteOf(now)
        ==> !Covers(Blend(w, Schedule.Kept(w, now), p), MinuteOf(now))
  {
    if Forwards(w) && MinuteOfDay(w.end) <= MinuteOf(now) {
      SafeClear(w, MinuteOf(now), p);
    }
  }
}
