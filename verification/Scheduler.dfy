/**
The poll loop and what it shares with the command path: the freshness flag, the state reader
that falls back to the cache, the gate before the reconcile, the last-good cache and the health
marks. One critical section at a time; Serialisation says why that is enough.
 */
module Schedulers {
  import opened Wrappers
  import opened Inverter
  import opened Links
  import opened Controls
  import opened Topics
  import opened Runs
  import opened Handlers
  import opened Health
  import opened History

  class Freshness {
    var stale: bool

    constructor ()
      ensures !stale
    {
      stale := false;
    }

    method MarkFresh()
      modifies this
      ensures !stale
    {
      stale := false;
    }

    method MarkStale()
      modifies this
      ensures stale
    {
      stale := true;
    }
  }

  /** How attempts k..limit end: with the first that is not a plain failure. */
  function CollectEnd(attempts: nat -> Attempt, k: nat, limit: nat): Attempt
    decreases limit + 1 - k
  {
    if k > limit then CollectFailed
    else if attempts(k) != CollectFailed then attempts(k)
    else CollectEnd(attempts, k + 1, limit)
  }

  /** Attempts k up to n merely fail. */
  predicate FailsUntil(attempts: nat -> Attempt, k: nat, n: nat) {
    forall j: nat :: k <= j < n ==> attempts(j) == CollectFailed
  }

  /** The end is a reading exactly when some attempt reads and all before it merely fail. */
  lemma {:induction false} CollectEndExactly(attempts: nat -> Attempt, k: nat, limit: nat, tel: Telemetry)
    ensures CollectEnd(attempts, k, limit) == Collected(tel)
       <==> exists n: nat :: k <= n <= limit && attempts(n) == Collected(tel) && FailsUntil(attempts, k, n)
    decreases limit + 1 - k
  {
    if k <= limit && attempts(k) == CollectFailed {
      CollectEndExactly(attempts, k + 1, limit, tel);
      if CollectEnd(attempts, k + 1, limit) == Collected(tel) {
        var n: nat :| k + 1 <= n <= limit && attempts(n) == Collected(tel) && FailsUntil(attempts, k + 1, n);
        assert FailsUntil(attempts, k, n);
      }
    } else if k <= limit {
      assert CollectEnd(attempts, k, limit) == attempts(k);
    }
  }

  /**
  It ends cancelled exactly when some allowed attempt is, and all before it merely fail, and in
  failure when all fail.
   */
  lemma {:induction false} CollectEndOtherwise(attempts: nat -> Attempt, k: nat, limit: nat)
    ensures CollectEnd(attempts, k, limit) == Cancelled
       <==> exists n: nat :: k <= n <= limit && attempts(n) == Cancelled && FailsUntil(attempts, k, n)
    ensures CollectEnd(attempts, k, limit) == CollectFailed <==> FailsUntil(attempts, k, limit + 1)
    decreases limit + 1 - k
  {
    if k <= limit && attempts(k) == CollectFailed {
      CollectEndOtherwise(attempts, k + 1, limit);
      if CollectEnd(attempts, k + 1, limit) == Cancelled {
        var n: nat :| k + 1 <= n <= limit && attempts(n) == Cancelled && FailsUntil(attempts, k + 1, n);
        assert FailsUntil(attempts, k, n);
      }
    } else if k <= limit {
      assert CollectEnd(attempts, k, limit) == attempts(k);
    }
  }

  class Scheduler {
    const handler: Handler
    const bus: Bus
    const freshness: Freshness
    const server: Server
    const maxRetries: nat
    const rtcSyncEnabled: bool
    const driftThreshold: int

    var tel: Telemetry
    var sp: Setpoints
    var have: bool

    /** Everything ever remembered, and every reconcile let through the gate with the bank it met. */
    ghost var remembered: seq<(Telemetry, Setpoints)>
    ghost var given: seq<(TimedSlots, Bank)>

    ghost predicate Valid()
      reads this, server
    {
      && bus == handler.bus && server.Valid()
      && (have <==> remembered != [])
      && (have ==> (tel, sp) == remembered[|remembered| - 1])
      && (!have ==> sp == NO_SETPOINTS)
    }

    /** Every reconcile let through was given the slots the bank held at that moment. */
    ghost predicate SeenSlots()
      reads this
    {
      forall k :: 0 <= k < |given| ==> HoldsSlots(given[k].1, given[k].0)
    }

    /** Everything the manager keeps, as one value. */
    ghost function View(): World
      reads this, bus, freshness, server
    {
      World(bus.View(), tel, sp, have, freshness.stale, server.history, server.log)
    }

    /** The clock sync a poll with this drift carries. */
    function SyncDue(drift: int, words: RTCWords): (due: Option<RTCWords>)
      ensures due.Some? <==> rtcSyncEnabled && (drift > driftThreshold || -drift > driftThreshold)
      ensures due.Some? ==> due.value == words
    {
      if !rtcSyncEnabled || (if drift < 0 then -drift else drift) <= driftThreshold then None else Some(words)
    }

    constructor (handler: Handler, freshness: Freshness, server: Server, maxRetries: int, rtcSyncEnabled: bool,
        driftThreshold: int)
      requires server.Valid()
      ensures Valid() && SeenSlots() && remembered == [] && given == []
      ensures this.maxRetries == if maxRetries < 0 then 0 else maxRetries
      ensures this.rtcSyncEnabled == rtcSyncEnabled && this.driftThreshold == driftThreshold
      ensures View() == World(handler.bus.View(), 0, NO_SETPOINTS, false, freshness.stale, server.history, server.log)
      ensures this.handler == handler && this.freshness == freshness && this.server == server
    {
      this.handler := handler;
      this.bus := handler.bus;
      this.freshness := freshness;
      this.server := server;
      this.maxRetries := if maxRetries < 0 then 0 else maxRetries;
      this.rtcSyncEnabled := rtcSyncEnabled;
      this.driftThreshold := driftThreshold;
      this.tel := 0;
      this.sp := NO_SETPOINTS;
      this.have := false;
      this.remembered := [];
      this.given := [];
    }

    /** The last remembered state, and whether there is one. */
    method LastState() returns (tel': Telemetry, sp': Setpoints, have': bool)
      requires Valid()
      ensures have' <==> remembered != []
      ensures have' ==> (tel', sp') == remembered[|remembered| - 1]
      ensures !have' ==> sp' == NO_SETPOINTS
    {
      return tel, sp, have;
    }

    method RememberState(tel': Telemetry, sp': Setpoints)
      requires Valid()
      modifies this`tel, this`sp, this`have, this`remembered
      ensures Valid() && remembered == old(remembered) + [(tel', sp')]
      ensures (tel, sp, have) == (tel', sp', true)
    {
      tel, sp, have := tel', sp', true;
      remembered := remembered + [(tel', sp')];
    }

    /** The setpoints to carry after a collect: the bank's, or the last known ones marked stale. */
    method ReadSetpointsOrReuse() returns (read: Setpoints)
      requires Valid()
      modifies bus, freshness
      ensures var (link, got) := ReadSetpointsSpec(bus.fates, old(bus.View()));
              && bus.View() == link && freshness.stale == got.None?
              && read == Carried(got, old(sp))
    {
      var _, known, _ := LastState();
      var got := ReadSetpoints(bus);
      if got.None? {
        freshness.MarkStale();
        return known;
      }
      freshness.MarkFresh();
      return got.value;
    }

    /**
    Collects up to maxRetries + 1 times. The first collect that reads is followed by one setpoint
    read; a cancelled run or a full set of failures reads nothing.
     */
    method ReadWithRetry(attempts: nat -> Attempt) returns (r: Option<(Telemetry, Setpoints)>, cancelled: bool)
      requires Valid()
      modifies bus, freshness
      ensures r.Some? <==> CollectEnd(attempts, 0, maxRetries).Collected?
      ensures cancelled <==> CollectEnd(attempts, 0, maxRetries).Cancelled?
      ensures r.Some? ==>
                var (link, got) := ReadSetpointsSpec(bus.fates, old(bus.View()));
                && bus.View() == link && freshness.stale == got.None?
                && r.value.1 == Carried(got, old(sp))
                && r.value.0 == CollectEnd(attempts, 0, maxRetries).tel
      ensures r.None? ==> bus.View() == old(bus.View()) && freshness.stale == old(freshness.stale)
    {
      for attempt := 0 to maxRetries + 1
        invariant CollectEnd(attempts, 0, maxRetries) == CollectEnd(attempts, attempt, maxRetries)
        invariant bus.View() == old(bus.View()) && freshness.stale == old(freshness.stale)
      {
        match attempts(attempt)
        case Collected(t) =>
          var read := ReadSetpointsOrReuse();
          return Some((t, read)), false;
        case Cancelled =>
          return None, true;
        case CollectFailed =>
      }
      return None, false;
    }

    /** Publishes and records the state; true when the publish reached its consumers. */
    method PublishState(publish: Publish, at: nat) returns (ok: bool)
      requires Valid()
      modifies server`last, server`log
      ensures Valid() && ok == publish.Published? && server.history == old(server.history)
      ensures server.log == Logged(old(server.log), publish, freshness.stale, at)
    {
      if !publish.NotBuilt? {
        var _ := server.RecordReading(true, freshness.stale, at);
      }
      return publish.Published?;
    }

    method MaybeSyncRTC(drift: int, words: RTCWords)
      requires Valid()
      modifies bus
      ensures var due := SyncDue(drift, words);
              bus.View() == if handler.enabled && due.Some?
                            then SequenceSpec(bus.fates, old(bus.View()), RTCRegisters(words), false, 0).link
                                else old(bus.View())
    {
      if !rtcSyncEnabled || !handler.enabled {
        return;
      }
      if (if drift < 0 then -drift else drift) <= driftThreshold {
        return;
      }
      var _, _, _ := handler.SyncRTC(words);
    }

    /** The gate: a stale cycle is skipped, a fresh one is passed on unchanged. */
    method MaybeReconcile(slots: TimedSlots, now: nat)
      requires Valid() && SeenSlots()
      requires !freshness.stale ==> HoldsSlots(bus.bank, slots)
      modifies bus, this`given
      ensures Valid() && SeenSlots()
      ensures bus.View() == if freshness.stale then old(bus.View())
                            else ReconcileSpec(bus.fates, old(bus.View()), handler.cfg, handler.enabled, slots,
                                now).link
      ensures given == if handler.enabled && !freshness.stale then old(given) + [(slots, old(bus.bank))] else old(given)
    {
      if handler.enabled && !freshness.stale {
        given := given + [(slots, bus.bank)];
        var _, _, _ := handler.Reconcile(slots, now);
      }
    }

    /** The end of a published poll: the clock sync, then the reconcile over the slots just read. */
    method Settle(drift: int, words: RTCWords, now: nat, ghost got: Option<Setpoints>)
      requires Valid() && SeenSlots() && freshness.stale == got.None?
      requires got.Some? ==> sp == got.value && HoldsSlots(bus.bank, got.value.slots)
      modifies bus, this`given
      ensures Valid() && SeenSlots()
      ensures bus.View()
           == SettleSpec(bus.fates, old(bus.View()), handler.cfg, handler.enabled, now, SyncDue(drift, words), got)
      ensures |given| == |old(given)| + if handler.enabled && got.Some? then 1 else 0
    {
      ghost var before := bus.View();
      MaybeSyncRTC(drift, words);
      if got.Some? {
        SyncLeavesSlots(bus.fates, before, words, got.value.slots);
      }
      MaybeReconcile(sp.slots, now);
    }

    /** The end of a poll that read: the publish, its health mark, and only if it went out the settling. */
    method Conclude(publish: Publish, drift: int, words: RTCWords, now: nat, ghost got: Option<Setpoints>)
      requires Valid() && SeenSlots() && freshness.stale == got.None?
      requires got.Some? ==> sp == got.value && HoldsSlots(bus.bank, got.value.slots)
      modifies bus, this`given, server
      ensures Valid() && SeenSlots()
      ensures server.history == old(server.history) + [publish.Published?]
      ensures server.log == Logged(old(server.log), publish, got.None?, now)
      ensures bus.View() == if publish.Published?
                            then SettleSpec(bus.fates, old(bus.View()), handler.cfg, handler.enabled, now,
                                SyncDue(drift, words), got)
                            else old(bus.View())
      ensures |given| == |old(given)| + if handler.enabled && got.Some? && publish.Published? then 1 else 0
    {
      hide HoldsSlots, Readiness, Recorded;
      var ok := PublishState(publish, now);
      if !ok {
        server.MarkFailure();
        return;
      }
      server.MarkSuccess();
      Settle(drift, words, now, got);
    }

    /**
    One poll. A collect that never succeeds marks a failure, or nothing if the run was cancelled;
    one that does is remembered before it is published, and only a published state goes on to the
    clock sync and the reconcile.
     */
    method Poll(attempts: nat -> Attempt, publish: Publish, drift: int, words: RTCWords, now: nat)
      requires Valid() && SeenSlots()
      modifies this, bus, freshness, server
      ensures Valid() && SeenSlots()
      ensures View() == PollStep(bus.fates, handler.cfg, handler.enabled, old(View()),
          CollectEnd(attempts, 0, maxRetries),
                                 publish, SyncDue(drift, words), now)
      ensures remembered == if CollectEnd(attempts, 0, maxRetries).Collected? then old(remembered) + [(tel, sp)]
          else old(remembered)
      ensures |given| > |old(given)|
          ==> CollectEnd(attempts, 0, maxRetries).Collected? && publish.Published? && !freshness.stale
    {
      hide ReadSetpointsSpec, SettleSpec, HoldsSlots, CollectEnd, Readiness, Recorded;
      var r, cancelled := ReadWithRetry(attempts);
      if r.None? {
        if !cancelled {
          server.MarkFailure();
        }
        return;
      }
      SetpointsAreTheBank(bus.fates, old(bus.View()));
      ghost var got := ReadSetpointsSpec(bus.fates, old(bus.View())).1;
      RememberState(r.value.0, r.value.1);
      Conclude(publish, drift, words, now, got);
    }

    /** Re-reads and republishes after a command; the cache takes the new state even if the publish failed. */
    method Refresh(collect: Attempt, publish: Publish, now: nat)
      requires Valid() && SeenSlots()
      modifies this`tel, this`sp, this`have, this`remembered, bus, freshness, server`last, server`log
      ensures Valid() && SeenSlots() && given == old(given)
      ensures View() == if collect.Collected? then ReadStep(bus.fates, old(View()), collect.tel, publish, now)
          else old(View())
      ensures remembered == if collect.Collected? then old(remembered) + [(tel, sp)] else old(remembered)
    {
      if !collect.Collected? {
        return;
      }
      var read := ReadSetpointsOrReuse();
      var _ := PublishState(publish, now);
      RememberState(collect.tel, read);
    }

    /** Routes one message and, if it touched the inverter, refreshes the state. */
    method ApplyCommand(topic: string, payload: string, amps: Amps, now: nat, rtc: RTCWords, collect: Attempt,
        publish: Publish)
      requires Valid() && SeenSlots()
      modifies this`tel, this`sp, this`have, this`remembered, bus, freshness, server`last, server`log
      ensures Valid() && SeenSlots() && given == old(given)
      ensures View() == CommandStep(bus.fates, handler.cfg, handler.enabled, old(View()),
          CommandOf(topic, payload, amps),
                                    now, rtc, collect, publish)
      ensures remembered == old(remembered) || remembered == old(remembered) + [(tel, sp)]
    {
      if !handler.enabled {
        return;
      }
      var routed := handler.OnMessage(topic, payload, amps, now, rtc);
      if routed {
        Refresh(collect, publish, now);
      }
    }
  }
}
