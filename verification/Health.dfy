/** Readiness and the last reading, kept by counters and proved against the history of calls. */
module Health {
  import opened Wrappers

  /** Readiness and the failure count after a history of poll outcomes (true is a success). */
  function Readiness(history: seq<bool>, threshold: nat): (bool, nat) {
    if history == [] then (false, 0)
    else
      var (ready, failures) := Readiness(history[..|history| - 1], threshold);
      if history[|history| - 1] then (true, 0)
      else (ready && failures + 1 < threshold, failures + 1)
  }

  /** The poll at i succeeded and every later one failed. */
  predicate LastSuccess(history: seq<bool>, i: int) {
    0 <= i < |history| && history[i] && forall j :: i < j < |history| ==> !history[j]
  }

  /** Ready exactly when some poll succeeded and fewer than `threshold` failures followed the last success. */
  lemma {:induction false} ReadyExactly(history: seq<bool>, threshold: nat)
    requires threshold >= 1
    ensures Readiness(history, threshold).0 <==> exists i :: LastSuccess(history, i) && |history| - 1 - i < threshold
    ensures forall i :: LastSuccess(history, i) ==> Readiness(history, threshold).1 == |history| - 1 - i
    ensures (forall i :: 0 <= i < |history| ==> !history[i]) ==> Readiness(history, threshold).1 == |history|
    decreases |history|
  {
    if history != [] {
      var n := |history| - 1;
      var front := history[..n];
      ReadyExactly(front, threshold);
      if history[n] {
        assert LastSuccess(history, n);
      } else {
        forall i | 0 <= i < n ensures LastSuccess(history, i) <==> LastSuccess(front, i) {
          assert front[i] == history[i];
          assert forall j :: i < j < n ==> front[j] == history[j];
        }
        forall i | LastSuccess(history, i) ensures LastSuccess(front, i) && Readiness(history, threshold).1 == n - i {
        }
        if exists i :: LastSuccess(history, i) && n - i < threshold {
          var i :| LastSuccess(history, i) && n - i < threshold;
          assert LastSuccess(front, i) && n - 1 - i < threshold;
        }
        if Readiness(history, threshold).0 {
          var i :| LastSuccess(front, i) && n - 1 - i < threshold;
          assert LastSuccess(history, i);
        }
      }
    }
  }

  /** A recorded reading: whether its setpoints were reused, and when it was recorded. */
  datatype Entry = Entry(stale: bool, at: nat)

  /** What the page shows of the last reading; no date while no setpoints were ever read. */
  datatype Reading = Reading(at: nat, setpointsAt: Option<nat>)

  function Recorded(log: seq<Entry>): Option<Reading> {
    if log == [] then None
    else
      var before := Recorded(log[..|log| - 1]);
      var e := log[|log| - 1];
      Some(Reading(e.at, if !e.stale then Some(e.at) else if before.Some? then before.value.setpointsAt else None))
  }

  predicate LastFresh(log: seq<Entry>, i: int) {
    0 <= i < |log| && !log[i].stale && forall j :: i < j < |log| ==> log[j].stale
  }

  /** The setpoints' date is that of the latest fresh reading, and there is none while all were stale. */
  lemma {:induction false} SetpointsDatedExactly(log: seq<Entry>)
    ensures Recorded(log).None? <==> log == []
    ensures log != [] ==> Recorded(log).value.at == log[|log| - 1].at
    ensures forall i :: LastFresh(log, i) ==> Recorded(log).value.setpointsAt == Some(log[i].at)
    ensures log != [] && (forall i :: 0 <= i < |log| ==> log[i].stale) ==> Recorded(log).value.setpointsAt == None
    decreases |log|
  {
    if log != [] {
      var n := |log| - 1;
      var front := log[..n];
      SetpointsDatedExactly(front);
      forall i | LastFresh(log, i) ensures Recorded(log).value.setpointsAt == Some(log[i].at) {
        if i < n {
          assert LastFresh(front, i);
        }
      }
    }
  }

  class Server {
    const threshold: nat
    var ready: bool
    var consecutiveFailures: nat
    var last: Option<Reading>
    ghost var history: seq<bool>
    ghost var log: seq<Entry>

    ghost predicate Valid()
      reads this
    {
      threshold >= 1 && (ready, consecutiveFailures) == Readiness(history, threshold) && last == Recorded(log)
    }

    constructor (failureThreshold: int)
      ensures Valid() && history == [] && log == []
      ensures threshold == if failureThreshold < 1 then 1 else failureThreshold
    {
      threshold := if failureThreshold < 1 then 1 else failureThreshold;
      ready := false;
      consecutiveFailures := 0;
      last := None;
      history := [];
      log := [];
    }

    method MarkSuccess()
      requires Valid()
      modifies this`ready, this`consecutiveFailures, this`history
      ensures Valid() && history == old(history) + [true]
    {
      ready := true;
      consecutiveFailures := 0;
      history := history + [true];
    }

    method MarkFailure()
      requires Valid()
      modifies this`ready, this`consecutiveFailures, this`history
      ensures Valid() && history == old(history) + [false]
    {
      assert (history + [false])[..|history|] == history;
      consecutiveFailures := consecutiveFailures + 1;
      if consecutiveFailures >= threshold {
        ready := false;
      }
      history := history + [false];
    }

    /** Records a reading whose document decoded; a document that does not is refused and changes nothing. */
    method RecordReading(decoded: bool, stale: bool, at: nat) returns (ok: bool)
      requires Valid()
      modifies this`last, this`log
      ensures Valid() && ok == decoded && log == if decoded then old(log) + [Entry(stale, at)] else old(log)
    {
      if !decoded {
        return false;
      }
      assert (log + [Entry(stale, at)])[..|log|] == log;
      var setpointsAt := Some(at);
      if stale {
        setpointsAt := None;
        if last.Some? {
          setpointsAt := last.value.setpointsAt;
        }
      }
      last := Some(Reading(at, setpointsAt));
      log := log + [Entry(stale, at)];
      return true;
    }
  }
}
