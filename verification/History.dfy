/**
What the manager as a whole knows after a history of polls and commands: the link, the last-good
cache, the health marks and the page's log, as one value stepped by whole critical sections.
 */
module History {
  import opened Wrappers
  import opened Inverter
  import opened Schedule
  import opened Links
  import opened Controls
  import opened Runs
  import opened Health

  /** Telemetry is opaque here: a tag for what one collect read. */
  type Telemetry = int

  /** One telemetry collect: it read something, failed, or the run was cancelled meanwhile. */
  datatype Attempt = Collected(tel: Telemetry) | CollectFailed | Cancelled

  /** What became of a state publish; without a publisher, or if the build failed, there is no document. */
  datatype Publish = Published | PublishFailed | NotBuilt

  const NO_SETPOINTS := Setpoints(0, 0, 0, 0, false, [EMPTY, EMPTY, EMPTY])

  datatype World = World(
    link: Link,
    tel: Telemetry,
    sp: Setpoints,
    have: bool,
    stale: bool,
    marks: seq<bool>,     // poll outcomes reported to the health server
    log: seq<Entry>)      // readings recorded for the page

  /** The page's log after a publish of state that was or was not stale. */
  function Logged(log: seq<Entry>, publish: Publish, stale: bool, at: nat): seq<Entry> {
    if publish.NotBuilt? then log else log + [Entry(stale, at)]
  }

  /** The setpoints that go with a reading: those read, or the last known. */
  function Carried(got: Option<Setpoints>, known: Setpoints): Setpoints {
    if got.Some? then got.value else known
  }

  /** A read, its place in the cache, and its document on the page. */
  function ReadStep(f: Fates, w: World, tel: Telemetry, publish: Publish, now: nat): World {
    var (link, got) := ReadSetpointsSpec(f, w.link);
    w.(link := link, tel := tel, sp := Carried(got, w.sp), have := true, stale := got.None?,
       log := Logged(w.log, publish, got.None?, now))
  }

  /** A poll, given how its collects ended. */
  function PollStep(f: Fates, cfg: Config, enabled: bool, w: World, end: Attempt, publish: Publish,
                    sync: Option<RTCWords>, now: nat): World
  {
    match end
    case Cancelled => w
    case CollectFailed => w.(marks := w.marks + [false])
    case Collected(tel) =>
      var read := ReadStep(f, w, tel, publish, now);
      if !publish.Published? then read.(marks := w.marks + [false])
      else
        var got := ReadSetpointsSpec(f, w.link).1;
        read.(marks := w.marks + [true], link := SettleSpec(f, read.link, cfg, enabled, now, sync, got))
  }

  /** A command, and the refresh after one that touched the inverter, if its collect read. */
  function CommandStep(f: Fates, cfg: Config, enabled: bool, w: World, c: Command, now: nat, rtc: RTCWords,
                       collect: Attempt, publish: Publish): World
  {
    var (link, touched) := CommandSpec(f, w.link, cfg, enabled, c, now, rtc);
    if touched && collect.Collected? then ReadStep(f, w.(link := link), collect.tel, publish, now)
    else w.(link := link)
  }

  datatype Turn =
    | PollTurn(end: Attempt, publish: Publish, sync: Option<RTCWords>, now: nat)
    | CommandTurn(c: Command, now: nat, rtc: RTCWords, end: Attempt, publish: Publish)

  function Step(f: Fates, cfg: Config, enabled: bool, w: World, turn: Turn): World {
    match turn
    case PollTurn(end, publish, sync, now) => PollStep(f, cfg, enabled, w, end, publish, sync, now)
    case CommandTurn(c, now, rtc, end, publish) => CommandStep(f, cfg, enabled, w, c, now, rtc, end, publish)
  }

  function Steps(f: Fates, cfg: Config, enabled: bool, w: World, turns: seq<Turn>): World
    decreases |turns|
  {
    if turns == [] then w
    else Step(f, cfg, enabled, Steps(f, cfg, enabled, w, turns[..|turns| - 1]), turns[|turns| - 1])
  }

  /** The manager at start-up, over the given bank. */
  function Fresh(bank: Bank): World {
    World(Link(bank, []), 0, NO_SETPOINTS, false, false, [], [])
  }

  // --------------------------------------------------------------- what a turn reads

  /** The setpoints a turn read from the inverter, if it got as far and the read succeeded. */
  function SetpointsRead(f: Fates, cfg: Config, enabled: bool, w: World, turn: Turn): Option<Setpoints> {
    if !turn.end.Collected? then None
    else match turn
      case PollTurn(_, _, _, _) => ReadSetpointsSpec(f, w.link).1
      case CommandTurn(c, now, rtc, _, _) =>
        var (link, touched) := CommandSpec(f, w.link, cfg, enabled, c, now, rtc);
        if touched then ReadSetpointsSpec(f, link).1 else None
  }

  /** The setpoints turn i of a history read. */
  function ReadAt(f: Fates, cfg: Config, enabled: bool, w: World, turns: seq<Turn>, i: nat): Option<Setpoints>
    requires i < |turns|
  {
    SetpointsRead(f, cfg, enabled, Steps(f, cfg, enabled, w, turns[..i]), turns[i])
  }

  lemma StepsNext(f: Fates, cfg: Config, enabled: bool, w: World, turns: seq<Turn>)
    requires turns != []
    ensures var n := |turns| - 1;
            && Steps(f, cfg, enabled, w, turns)
                == Step(f, cfg, enabled, Steps(f, cfg, enabled, w, turns[..n]), turns[n])
            && ReadAt(f, cfg, enabled, w, turns, n)
                == SetpointsRead(f, cfg, enabled, Steps(f, cfg, enabled, w, turns[..n]), turns[n])
  {
  }

  lemma ReadAtFront(f: Fates, cfg: Config, enabled: bool, w: World, turns: seq<Turn>, i: nat)
    requires i < |turns| - 1
    ensures ReadAt(f, cfg, enabled, w, turns[..|turns| - 1], i) == ReadAt(f, cfg, enabled, w, turns, i)
  {
    assert turns[..|turns| - 1][..i] == turns[..i];
  }

  /** A turn that read takes what it read into the cache; one that did not leaves it. */
  lemma StepCaches(f: Fates, cfg: Config, enabled: bool, w: World, turn: Turn)
    ensures var read, after := SetpointsRead(f, cfg, enabled, w, turn), Step(f, cfg, enabled, w, turn);
            && (w.have ==> after.have)
            && (read.Some? ==> after.have && after.sp == read.value)
            && (read.None? ==> after.sp == w.sp)
  {
    hide ReadSetpointsSpec, CommandSpec, SettleSpec;
  }

  /** Setpoints that were read were the bank's own at that moment. */
  lemma ReadsTheBank(f: Fates, cfg: Config, enabled: bool, w: World, turn: Turn)
    requires SetpointsRead(f, cfg, enabled, w, turn).Some?
    ensures var link := if turn.PollTurn? then w.link
        else CommandSpec(f, w.link, cfg, enabled, turn.c, turn.now, turn.rtc).0;
            HoldsSlots(link.bank, SetpointsRead(f, cfg, enabled, w, turn).value.slots)
  {
    var link := if turn.PollTurn? then w.link else CommandSpec(f, w.link, cfg, enabled, turn.c, turn.now, turn.rtc).0;
    SetpointsAreTheBank(f, link);
  }

  // ------------------------------------------------------------------- the cache

  /** The cache holds what the latest turn that read setpoints read, and is never lost. */
  lemma {:induction false} CacheIsLatest(f: Fates, cfg: Config, enabled: bool, w: World, turns: seq<Turn>, i: nat)
    requires i < |turns| && ReadAt(f, cfg, enabled, w, turns, i).Some?
    requires forall j :: i < j < |turns| ==> ReadAt(f, cfg, enabled, w, turns, j).None?
    ensures var after := Steps(f, cfg, enabled, w, turns);
            after.have && after.sp == ReadAt(f, cfg, enabled, w, turns, i).value
    decreases |turns|
  {
    hide Step, SetpointsRead;
    var n := |turns| - 1;
    StepsNext(f, cfg, enabled, w, turns);
    StepCaches(f, cfg, enabled, Steps(f, cfg, enabled, w, turns[..n]), turns[n]);
    if i < n {
      forall j | i <= j < n ensures ReadAt(f, cfg, enabled, w, turns[..n], j) == ReadAt(f, cfg, enabled, w, turns, j) {
        ReadAtFront(f, cfg, enabled, w, turns, j);
      }
      CacheIsLatest(f, cfg, enabled, w, turns[..n], i);
    }
  }

  lemma {:induction false} CacheUntilRead(f: Fates, cfg: Config, enabled: bool, w: World, turns: seq<Turn>)
    requires forall j :: 0 <= j < |turns| ==> ReadAt(f, cfg, enabled, w, turns, j).None?
    ensures Steps(f, cfg, enabled, w, turns).sp == w.sp
    decreases |turns|
  {
    hide Step, SetpointsRead;
    if turns != [] {
      var n := |turns| - 1;
      StepsNext(f, cfg, enabled, w, turns);
      StepCaches(f, cfg, enabled, Steps(f, cfg, enabled, w, turns[..n]), turns[n]);
      forall j | 0 <= j < n ensures ReadAt(f, cfg, enabled, w, turns[..n], j) == ReadAt(f, cfg, enabled, w, turns, j) {
        ReadAtFront(f, cfg, enabled, w, turns, j);
      }
      CacheUntilRead(f, cfg, enabled, w, turns[..n]);
    }
  }

  /** The turn reached the inverter's setpoints: its collect read, and if it was a command, the command was taken. */
  predicate Reads(f: Fates, cfg: Config, enabled: bool, w: World, turn: Turn) {
    turn.end.Collected? &&
    (turn.PollTurn? || CommandSpec(f, w.link, cfg, enabled, turn.c, turn.now, turn.rtc).1)
  }

  /** Turn i of a history read. */
  predicate DoesRead(f: Fates, cfg: Config, enabled: bool, w: World, turns: seq<Turn>, i: nat)
    requires i < |turns|
  {
    Reads(f, cfg, enabled, Steps(f, cfg, enabled, w, turns[..i]), turns[i])
  }

  lemma DoesReadFront(f: Fates, cfg: Config, enabled: bool, w: World, turns: seq<Turn>, i: nat)
    requires i < |turns| - 1
    ensures DoesRead(f, cfg, enabled, w, turns[..|turns| - 1], i) == DoesRead(f, cfg, enabled, w, turns, i)
    ensures ReadAt(f, cfg, enabled, w, turns[..|turns| - 1], i) == ReadAt(f, cfg, enabled, w, turns, i)
  {
    assert turns[..|turns| - 1][..i] == turns[..i];
  }

  lemma StepReads(f: Fates, cfg: Config, enabled: bool, w: World, turn: Turn)
    ensures var after := Step(f, cfg, enabled, w, turn);
            if Reads(f, cfg, enabled, w, turn)
            then && after.have && after.tel == turn.end.tel
                 && (after.stale <==> SetpointsRead(f, cfg, enabled, w, turn).None?)
            else (after.have, after.tel, after.stale) == (w.have, w.tel, w.stale)
  {
    hide ReadSetpointsSpec, CommandSpec, SettleSpec;
  }

  /**
  The telemetry in the cache is that of the latest turn that read, and the stale flag says whether
  that turn's setpoints were not.
   */
  lemma {:induction false} TelemetryIsLatest(f: Fates, cfg: Config, enabled: bool, w: World, turns: seq<Turn>, i: nat)
    requires i < |turns| && DoesRead(f, cfg, enabled, w, turns, i)
    requires forall j :: i < j < |turns| ==> !DoesRead(f, cfg, enabled, w, turns, j)
    ensures var after := Steps(f, cfg, enabled, w, turns);
            && after.have && after.tel == turns[i].end.tel
            && (after.stale <==> ReadAt(f, cfg, enabled, w, turns, i).None?)
    decreases |turns|
  {
    hide Step, SetpointsRead, Reads;
    var n := |turns| - 1;
    StepsNext(f, cfg, enabled, w, turns);
    StepReads(f, cfg, enabled, Steps(f, cfg, enabled, w, turns[..n]), turns[n]);
    assert DoesRead(f, cfg, enabled, w, turns, n)
        == Reads(f, cfg, enabled, Steps(f, cfg, enabled, w, turns[..n]), turns[n]);
    if i < n {
      forall j | i <= j < n
        ensures DoesRead(f, cfg, enabled, w, turns[..n], j) == DoesRead(f, cfg, enabled, w, turns, j)
      {
        DoesReadFront(f, cfg, enabled, w, turns, j);
      }
      DoesReadFront(f, cfg, enabled, w, turns, i);
      TelemetryIsLatest(f, cfg, enabled, w, turns[..n], i);
    }
  }

  // ------------------------------------------------------------------ readiness

  /** A poll that collected and was published. */
  predicate Succeeded(turn: Turn) {
    turn.PollTurn? && turn.end.Collected? && turn.publish.Published?
  }

  /** A poll whose collect failed, or whose publish did not go out. */
  predicate Failed(turn: Turn) {
    turn.PollTurn? && (turn.end.CollectFailed? || (turn.end.Collected? && !turn.publish.Published?))
  }

  /** How many polls failed from turn i on. */
  function FailuresFrom(turns: seq<Turn>, i: nat): nat
    decreases |turns|
  {
    if i >= |turns| then 0
    else FailuresFrom(turns[..|turns| - 1], i) + if Failed(turns[|turns| - 1]) then 1 else 0
  }

  predicate LatestSuccess(turns: seq<Turn>, i: int) {
    0 <= i < |turns| && Succeeded(turns[i]) && forall j :: i < j < |turns| ==> !Succeeded(turns[j])
  }

  lemma StepMarks(f: Fates, cfg: Config, enabled: bool, w: World, turn: Turn)
    ensures Step(f, cfg, enabled, w, turn).marks
         == w.marks + if Succeeded(turn) then [true] else if Failed(turn) then [false] else []
  {
    hide ReadSetpointsSpec, CommandSpec, SettleSpec;
  }

  lemma ReadinessNext(marks: seq<bool>, mark: bool, threshold: nat)
    ensures var (ready, failures) := Readiness(marks, threshold);
            Readiness(marks + [mark], threshold)
            == if mark then (true, 0) else (ready && failures + 1 < threshold, failures + 1)
  {
    assert (marks + [mark])[..|marks|] == marks;
  }

  lemma LatestFront(turns: seq<Turn>)
    requires turns != [] && !Succeeded(turns[|turns| - 1])
    ensures forall i :: LatestSuccess(turns, i) <==> LatestSuccess(turns[..|turns| - 1], i)
  {
    var front := turns[..|turns| - 1];
    forall i ensures LatestSuccess(turns, i) <==> LatestSuccess(front, i) {
      if LatestSuccess(front, i) {
        forall j | i < j < |turns| ensures !Succeeded(turns[j]) {
          if j < |front| {
            assert front[j] == turns[j];
          }
        }
      }
      if LatestSuccess(turns, i) {
        assert forall j :: i < j < |front| ==> front[j] == turns[j];
      }
    }
  }

  /** What the marks of a history say, turn by turn. */
  lemma {:induction false} MarksOfHistory(f: Fates, cfg: Config, enabled: bool, bank: Bank, turns: seq<Turn>,
      threshold: nat)
    requires threshold >= 1
    ensures var (ready, failures) := Readiness(Steps(f, cfg, enabled, Fresh(bank), turns).marks, threshold);
            && (ready <==> exists i :: LatestSuccess(turns, i) && FailuresFrom(turns, i + 1) < threshold)
            && (forall i :: LatestSuccess(turns, i) ==> failures == FailuresFrom(turns, i + 1))
    decreases |turns|
  {
    hide Step, Readiness, Succeeded, Failed;
    if turns == [] {
      EmptyHistoryUnready(threshold);
    } else {
      var n := |turns| - 1;
      var before := Steps(f, cfg, enabled, Fresh(bank), turns[..n]);
      MarksOfHistory(f, cfg, enabled, bank, turns[..n], threshold);
      StepsNext(f, cfg, enabled, Fresh(bank), turns);
      StepMarks(f, cfg, enabled, before, turns[n]);
      MarksNext(before.marks, turns, threshold);
    }
  }

  lemma EmptyHistoryUnready(threshold: nat)
    ensures !Readiness([], threshold).0
  {
  }

  lemma NotBoth(turn: Turn)
    ensures !(Succeeded(turn) && Failed(turn))
  {
  }

  /** What the marks say of n turns they say of n + 1. */
  lemma MarksNext(marks: seq<bool>, turns: seq<Turn>, threshold: nat)
    requires turns != [] && threshold >= 1
    requires var (ready, failures) := Readiness(marks, threshold); var front := turns[..|turns| - 1];
             && (ready <==> exists i :: LatestSuccess(front, i) && FailuresFrom(front, i + 1) < threshold)
             && (forall i :: LatestSuccess(front, i) ==> failures == FailuresFrom(front, i + 1))
    ensures var turn := turns[|turns| - 1];
            var added := if Succeeded(turn) then [true] else if Failed(turn) then [false] else [];
            var (ready, failures) := Readiness(marks + added, threshold);
            && (ready <==> exists i :: LatestSuccess(turns, i) && FailuresFrom(turns, i + 1) < threshold)
            && (forall i :: LatestSuccess(turns, i) ==> failures == FailuresFrom(turns, i + 1))
  {
    hide Readiness, Succeeded, Failed;
    var n := |turns| - 1;
    NotBoth(turns[n]);
    if Succeeded(turns[n]) {
      ReadinessNext(marks, true, threshold);
      assert LatestSuccess(turns, n) && FailuresFrom(turns, n + 1) == 0;
      assert forall i :: LatestSuccess(turns, i) ==> i == n;
    } else {
      LatestFront(turns);
      ReadinessNext(marks, false, threshold);
      assert marks + [] == marks;
      forall i | LatestSuccess(turns, i)
        ensures LatestSuccess(turns[..n], i)
        ensures FailuresFrom(turns, i + 1) == FailuresFrom(turns[..n], i + 1) + if Failed(turns[n]) then 1 else 0
      {
      }
      if exists i :: LatestSuccess(turns[..n], i) && FailuresFrom(turns[..n], i + 1) < threshold {
        var i :| LatestSuccess(turns[..n], i) && FailuresFrom(turns[..n], i + 1) < threshold;
        assert LatestSuccess(turns, i);
      }
    }
  }

  /**
  After any history the manager is ready exactly when some poll collected and was published, and
  fewer polls than the threshold have failed since the last that did. Cancelled polls and commands
  count as neither.
   */
  lemma ReadyAfterHistory(f: Fates, cfg: Config, enabled: bool, bank: Bank, turns: seq<Turn>, threshold: nat)
    requires threshold >= 1
    ensures Readiness(Steps(f, cfg, enabled, Fresh(bank), turns).marks, threshold).0
       <==> exists i :: LatestSuccess(turns, i) && FailuresFrom(turns, i + 1) < threshold
  {
    MarksOfHistory(f, cfg, enabled, bank, turns, threshold);
  }

  // -------------------------------------------------------------------- the page

  /** Turn i put a document on the page whose setpoints it had read from the inverter. */
  predicate Shows(f: Fates, cfg: Config, enabled: bool, w: World, turns: seq<Turn>, i: nat)
    requires i < |turns|
  {
    ReadAt(f, cfg, enabled, w, turns, i).Some? && !turns[i].publish.NotBuilt?
  }

  lemma ShowsFront(f: Fates, cfg: Config, enabled: bool, w: World, turns: seq<Turn>, i: nat)
    requires i < |turns| - 1
    ensures Shows(f, cfg, enabled, w, turns[..|turns| - 1], i) == Shows(f, cfg, enabled, w, turns, i)
  {
    ReadAtFront(f, cfg, enabled, w, turns, i);
  }

  /**
  What one turn adds to the page's log: nothing, a stale entry, or, exactly if it shows its own
  read, a fresh one.
   */
  lemma TurnLogs(f: Fates, cfg: Config, enabled: bool, w: World, turns: seq<Turn>)
    requires turns != []
    ensures var n := |turns| - 1;
            var before, after := Steps(f, cfg, enabled, w, turns[..n]).log, Steps(f, cfg, enabled, w, turns).log;
            if Shows(f, cfg, enabled, w, turns, n) then after == before + [Entry(false, turns[n].now)]
            else after == before || after == before + [Entry(true, turns[n].now)]
  {
    hide ReadSetpointsSpec, CommandSpec, SettleSpec;
    StepsNext(f, cfg, enabled, w, turns);
  }

  lemma RecordedNext(log: seq<Entry>, e: Entry)
    ensures var before, after := Recorded(log), Recorded(log + [e]);
            after == Some(Reading(e.at, if !e.stale then Some(e.at) else if before.Some?
                then before.value.setpointsAt else None))
  {
    assert (log + [e])[..|log|] == log;
  }

  /**
  The page dates its setpoints by the bank reads: they carry the time of the latest turn that read
  them from the inverter and got a document onto the page.
   */
  lemma {:induction false} PageDatedByReads(f: Fates, cfg: Config, enabled: bool, w: World, turns: seq<Turn>, i: nat)
    requires i < |turns| && Shows(f, cfg, enabled, w, turns, i)
    requires forall j :: i < j < |turns| ==> !Shows(f, cfg, enabled, w, turns, j)
    ensures var page := Recorded(Steps(f, cfg, enabled, w, turns).log);
            page.Some? && page.value.setpointsAt == Some(turns[i].now)
    decreases |turns|
  {
    hide Shows, Recorded, Steps;
    var n := |turns| - 1;
    var before := Steps(f, cfg, enabled, w, turns[..n]).log;
    TurnLogs(f, cfg, enabled, w, turns);
    RecordedNext(before, Entry(false, turns[n].now));
    RecordedNext(before, Entry(true, turns[n].now));
    if i < n {
      forall j | i <= j < n ensures Shows(f, cfg, enabled, w, turns[..n], j) == Shows(f, cfg, enabled, w, turns, j) {
        ShowsFront(f, cfg, enabled, w, turns, j);
      }
      PageDatedByReads(f, cfg, enabled, w, turns[..n], i);
    }
  }

  /** While no turn has shown setpoints of its own reading, the page has no date for them. */
  lemma {:induction false} PageUndated(f: Fates, cfg: Config, enabled: bool, bank: Bank, turns: seq<Turn>)
    requires forall j :: 0 <= j < |turns| ==> !Shows(f, cfg, enabled, Fresh(bank), turns, j)
    ensures var page := Recorded(Steps(f, cfg, enabled, Fresh(bank), turns).log);
            page.None? || page.value.setpointsAt == None
    decreases |turns|
  {
    hide Shows;
    if turns != [] {
      var n := |turns| - 1;
      TurnLogs(f, cfg, enabled, Fresh(bank), turns);
      RecordedNext(Steps(f, cfg, enabled, Fresh(bank), turns[..n]).log, Entry(true, turns[n].now));
      forall j | 0 <= j < n ensures Shows(f, cfg, enabled, Fresh(bank), turns[..n], j)
          == Shows(f, cfg, enabled, Fresh(bank), turns, j) {
        ShowsFront(f, cfg, enabled, Fresh(bank), turns, j);
      }
      PageUndated(f, cfg, enabled, bank, turns[..n]);
    }
  }

  /** The reading on the page is that of the latest turn that read and got a document built. */
  lemma {:induction false} PageIsLatest(f: Fates, cfg: Config, enabled: bool, w: World, turns: seq<Turn>, i: nat)
    requires i < |turns| && DoesRead(f, cfg, enabled, w, turns, i) && !turns[i].publish.NotBuilt?
    requires forall j :: i < j < |turns| ==> !(DoesRead(f, cfg, enabled, w, turns, j) && !turns[j].publish.NotBuilt?)
    ensures var page := Recorded(Steps(f, cfg, enabled, w, turns).log); page.Some? && page.value.at == turns[i].now
    decreases |turns|
  {
    hide DoesRead, Recorded, Steps;
    var n := |turns| - 1;
    var before := Steps(f, cfg, enabled, w, turns[..n]).log;
    TurnRecords(f, cfg, enabled, w, turns);
    RecordedNext(before, Entry(false, turns[n].now));
    RecordedNext(before, Entry(true, turns[n].now));
    if i < n {
      forall j | i <= j < n
        ensures DoesRead(f, cfg, enabled, w, turns[..n], j) == DoesRead(f, cfg, enabled, w, turns, j)
      {
        DoesReadFront(f, cfg, enabled, w, turns, j);
      }
      PageIsLatest(f, cfg, enabled, w, turns[..n], i);
    }
  }

  /** A turn records an entry exactly if it read and got a document built. */
  lemma TurnRecords(f: Fates, cfg: Config, enabled: bool, w: World, turns: seq<Turn>)
    requires turns != []
    ensures var n := |turns| - 1;
            var before, after := Steps(f, cfg, enabled, w, turns[..n]).log, Steps(f, cfg, enabled, w, turns).log;
            if DoesRead(f, cfg, enabled, w, turns, n) && !turns[n].publish.NotBuilt?
            then after == before + [Entry(false, turns[n].now)] || after == before + [Entry(true, turns[n].now)]
            else after == before
  {
    hide ReadSetpointsSpec, CommandSpec, SettleSpec;
    StepsNext(f, cfg, enabled, w, turns);
  }

  // -------------------------------------------------------------------- the link

  lemma {:induction false} RunAppend(f: Fates, s: Link, cfg: Config, enabled: bool, front: seq<Event>, back: seq<Event>)
    ensures RunSpec(f, s, cfg, enabled, front + back)
        == RunSpec(f, RunSpec(f, s, cfg, enabled, front), cfg, enabled, back)
    decreases |front|
  {
    if front == [] {
      assert front + back == back;
    } else {
      assert (front + back)[1..] == front[1..] + back;
      RunAppend(f, EventSpec(f, s, cfg, enabled, front[0]), cfg, enabled, front[1..], back);
    }
  }

  /** The events on the link that a turn amounts to. */
  function Events(f: Fates, cfg: Config, enabled: bool, w: World, turn: Turn): seq<Event> {
    match turn
    case PollTurn(end, publish, sync, now) =>
      if !end.Collected? then [] else if publish.Published? then [Cycle(now, sync)] else [Reread]
    case CommandTurn(c, now, rtc, end, publish) =>
      if CommandSpec(f, w.link, cfg, enabled, c, now, rtc).1 && end.Collected? then [Commanded(c, now, rtc), Reread]
      else [Commanded(c, now, rtc)]
  }

  lemma RunTwo(f: Fates, s: Link, cfg: Config, enabled: bool, a: Event, b: Event)
    ensures RunSpec(f, s, cfg, enabled, [a]) == EventSpec(f, s, cfg, enabled, a)
    ensures RunSpec(f, s, cfg, enabled, [a, b]) == EventSpec(f, EventSpec(f, s, cfg, enabled, a), cfg, enabled, b)
  {
    var t := EventSpec(f, s, cfg, enabled, a);
    assert RunSpec(f, s, cfg, enabled, [a]) == RunSpec(f, t, cfg, enabled, []);
    assert [a, b][1..] == [b];
    assert RunSpec(f, t, cfg, enabled, [b]) == RunSpec(f, EventSpec(f, t, cfg, enabled, b), cfg, enabled, []);
  }

  lemma TurnIsRun(f: Fates, cfg: Config, enabled: bool, w: World, turn: Turn)
    ensures Step(f, cfg, enabled, w, turn).link == RunSpec(f, w.link, cfg, enabled, Events(f, cfg, enabled, w, turn))
  {
    hide ReadSetpointsSpec, CommandSpec, SettleSpec, RunSpec;
    match turn
    case PollTurn(end, publish, sync, now) =>
      RunTwo(f, w.link, cfg, enabled, Cycle(now, sync), Reread);
      RunTwo(f, w.link, cfg, enabled, Reread, Reread);
      RunNone(f, w.link, cfg, enabled);
    case CommandTurn(c, now, rtc, end, publish) =>
      RunTwo(f, w.link, cfg, enabled, Commanded(c, now, rtc), Reread);
  }

  lemma RunNone(f: Fates, s: Link, cfg: Config, enabled: bool)
    ensures RunSpec(f, s, cfg, enabled, []) == s
  {
  }

  /** Whatever the manager does to the link is a run, so what holds of every run holds of every history. */
  lemma {:induction false} StepsAreRun(f: Fates, cfg: Config, enabled: bool, w: World, turns: seq<Turn>)
      returns (events: seq<Event>)
    ensures Steps(f, cfg, enabled, w, turns).link == RunSpec(f, w.link, cfg, enabled, events)
    decreases |turns|
  {
    hide Step, RunSpec, Events;
    if turns == [] {
      events := [];
      RunNone(f, w.link, cfg, enabled);
    } else {
      var n := |turns| - 1;
      var before := Steps(f, cfg, enabled, w, turns[..n]);
      var front := StepsAreRun(f, cfg, enabled, w, turns[..n]);
      TurnIsRun(f, cfg, enabled, before, turns[n]);
      events := front + Events(f, cfg, enabled, before, turns[n]);
      RunAppend(f, w.link, cfg, enabled, front, Events(f, cfg, enabled, before, turns[n]));
      StepsNext(f, cfg, enabled, w, turns);
    }
  }
}
