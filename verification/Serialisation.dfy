/**
The threads around the one link, step by step: polls and commands, which hold apiMu for a whole
critical section, the leaf mutexes taken inside it for one frame, one cache access or one status
update at a time, and LastState readers, which take only the cache mutex. Any number of each,
in any interleaving; the bank may be edited from outside while nobody holds apiMu.
 */
module Serialisation {
  import opened Wrappers
  import opened Inverter
  import opened Runs

  datatype Kind = Poller | Commander | Reader

  /** Where a thread is in its critical section. */
  datatype Stage =
    | Command       // a command's own frames
    | Collect       // a telemetry frame
    | Recall        // the last-known setpoints, from the cache
    | ReadSlots     // the setpoint frame, which also sets the freshness flag
    | Remember      // the cache takes the new state
    | Publish       // the status page takes the reading
    | Sync          // clock-sync frames
    | Gate          // the freshness gate
    | Reconcile     // the inner reconcile's frames
    | Done

  datatype Phase = Idle | WantsApi | Ready | WantsLeaf | InLeaf

  datatype Leaf = FrameMutex | CacheMutex | StatusMutex

  datatype Thread = Thread(kind: Kind, phase: Phase, stage: Stage, slots: TimedSlots)

  /** A frame on the link: whose it was, and in which critical section. */
  datatype Sent = Sent(tid: nat, section: nat)

  datatype State = State(
    api: Option<nat>,
    leaves: map<Leaf, nat>,           // the leaf mutexes that are held, and by whom
    threads: map<nat, Thread>,
    bank: Bank,
    cached: TimedSlots,
    stale: bool,
    section: nat,                     // critical sections begun so far
    owner: nat,                       // who began the latest
    log: seq<Sent>,
    given: seq<(TimedSlots, Bank)>)   // what the inner reconcile was given, and the bank then

  /** Environment choices of a step: did it go well, is the stage repeated, the bank a frame leaves. */
  datatype Choice = Choice(ok: bool, again: bool, bank: Bank)

  datatype Label =
    | Spawn(tid: nat, kind: Kind)
    | Begin(tid: nat)
    | TakeApi(tid: nat)
    | Ask(tid: nat)
    | TakeLeaf(tid: nat)
    | Leave(tid: nat, c: Choice)
    | Skip(tid: nat)
    | DropApi(tid: nat)
    | Edit(bank: Bank)

  function LeafOf(stage: Stage): Leaf {
    match stage
    case Recall => CacheMutex
    case Remember => CacheMutex
    case Publish => StatusMutex
    case _ => FrameMutex
  }

  function FirstStage(kind: Kind): Stage {
    match kind
    case Poller => Collect
    case Commander => Command
    case Reader => Recall
  }

  function With(s: State, t: nat, th: Thread): State {
    s.(threads := s.threads[t := th])
  }

  /** The bank's slots as the setpoint frame decodes them. */
  function Decoded(b: Bank): Option<TimedSlots> {
    if !BlockMapped(b, REG_WORK_MODE, SETPOINT_BLOCK_COUNT) then None
    else if SlotsOf(b).Failure? then None
    else Some(SlotsOf(b).value)
  }

  /** The thread's next stage once it leaves the leaf mutex of this one. */
  function StageAfter(th: Thread, c: Choice): Stage {
    match th.stage
    case Command => if c.again then Command else if c.ok then Collect else Done
    case Collect => if c.ok then Recall else if c.again then Collect else Done
    case Recall => if th.kind == Reader then Done else ReadSlots
    case ReadSlots => if th.kind == Poller then Remember else Publish
    case Remember => if th.kind == Poller then Publish else Done
    case Publish => if th.kind == Commander then Remember else if c.ok then Sync else Done
    case Sync => if c.again then Sync else Gate
    case Reconcile => if c.again then Reconcile else Done
    case Gate => Gate
    case Done => Done
  }

  /** The slots the thread carries after the stage. */
  function SlotsAfter(s: State, th: Thread, c: Choice): TimedSlots {
    match th.stage
    case Recall => s.cached
    case ReadSlots => if c.ok && Decoded(s.bank).Some? then Decoded(s.bank).value else th.slots
    case _ => th.slots
  }

  /** A frame of this stage may leave the bank so: only command and reconcile frames touch slot words. */
  predicate MayLeave(stage: Stage, b: Bank, after: Bank) {
    match stage
    case Command => true
    case Reconcile => true
    case Sync => SameSlotWords(b, after)
    case _ => after == b
  }

  /** Leaving the leaf mutex, with the stage's effect on the shared data. */
  function LeaveNext(s: State, t: nat, c: Choice): Option<State>
    requires t in s.threads
  {
    var th := s.threads[t];
    if th.phase != InLeaf || !MayLeave(th.stage, s.bank, c.bank) then None
    else
      var slots := SlotsAfter(s, th, c);
      var phase := if th.kind == Reader then Idle else Ready;
      var freed := s.(leaves := s.leaves - {LeafOf(th.stage)}, bank := c.bank,
                      stale := if th.stage == ReadSlots then !(c.ok && Decoded(s.bank).Some?) else s.stale,
                      cached := if th.stage == Remember then th.slots else s.cached,
                      log := if LeafOf(th.stage) == FrameMutex then s.log + [Sent(t, s.section)] else s.log);
      Some(With(freed, t, th.(phase := phase, stage := StageAfter(th, c), slots := slots)))
  }

  /** The steps that need no leaf mutex: a command, sync or reconcile with no frame to send, and the gate. */
  function SkipNext(s: State, t: nat): Option<State>
    requires t in s.threads
  {
    var th := s.threads[t];
    if th.phase != Ready then None
    else match th.stage
      case Command => Some(With(s, t, th.(stage := Done)))
      case Sync => Some(With(s, t, th.(stage := Gate)))
      case Reconcile => Some(With(s, t, th.(stage := Done)))
      case Gate =>
        if s.stale then Some(With(s, t, th.(stage := Done)))
        else Some(With(s.(given := s.given + [(th.slots, s.bank)]), t, th.(stage := Reconcile)))
      case _ => None
  }

  function Next(s: State, l: Label): Option<State> {
    match l
    case Edit(b) => if s.api.None? then Some(s.(bank := b)) else None
    case Spawn(t, kind) =>
      if t in s.threads then None else Some(With(s, t, Thread(kind, Idle, FirstStage(kind), [EMPTY, EMPTY, EMPTY])))
    case Begin(t) =>
      if t in s.threads && s.threads[t].phase == Idle
      then Some(With(s, t, s.threads[t].(phase := if s.threads[t].kind == Reader then WantsLeaf
          else WantsApi, stage := FirstStage(s.threads[t].kind))))
      else None
    case TakeApi(t) =>
      if t in s.threads && s.threads[t].phase == WantsApi && s.api.None?
      then Some(With(s.(api := Some(t), section := s.section + 1, owner := t), t, s.threads[t].(phase := Ready)))
      else None
    case Ask(t) =>
      if t in s.threads && s.threads[t].phase == Ready && s.threads[t].stage != Gate && s.threads[t].stage != Done
      then Some(With(s, t, s.threads[t].(phase := WantsLeaf)))
      else None
    case TakeLeaf(t) =>
      if t in s.threads && s.threads[t].phase == WantsLeaf && LeafOf(s.threads[t].stage) !in s.leaves
      then Some(With(s.(leaves := s.leaves[LeafOf(s.threads[t].stage) := t]), t, s.threads[t].(phase := InLeaf)))
      else None
    case Leave(t, c) => if t in s.threads then LeaveNext(s, t, c) else None
    case Skip(t) => if t in s.threads then SkipNext(s, t) else None
    case DropApi(t) =>
      if t in s.threads && s.threads[t].phase == Ready && s.threads[t].stage == Done
      then Some(With(s.(api := None), t, s.threads[t].(phase := Idle)))
      else None
  }

  function Run(s: State, labels: seq<Label>): Option<State>
    decreases |labels|
  {
    if labels == [] then Some(s)
    else
      var next := Next(s, labels[0]);
      if next.None? then None else Run(next.value, labels[1..])
  }

  function Start(bank: Bank): State {
    State(None, map[], map[], bank, [EMPTY, EMPTY, EMPTY], false, 0, 0, [], [])
  }

  // ------------------------------------------------------------------- the invariant

  /** The thread is inside its critical section. */
  predicate Critical(th: Thread) {
    th.kind != Reader && (th.phase == Ready || th.phase == WantsLeaf || th.phase == InLeaf)
  }

  predicate Shaped(th: Thread) {
    && (th.kind == Reader ==> th.phase != WantsApi && th.phase != Ready && (th.phase != Idle ==> th.stage == Recall))
    && (th.phase == WantsApi ==> th.stage == FirstStage(th.kind))
    && (th.phase == InLeaf || th.phase == WantsLeaf ==> th.stage != Gate && th.stage != Done)
    && (th.stage == Sync || th.stage == Gate || th.stage == Reconcile ==> th.kind == Poller)
  }

  /** apiMu is held by exactly the thread that is inside its critical section. */
  ghost predicate ApiInv(s: State) {
    && (forall t :: t in s.threads ==> Shaped(s.threads[t]))
    && (forall t :: t in s.threads ==> (Critical(s.threads[t]) <==> s.api == Some(t)))
    && (s.api.Some? ==> s.api.value in s.threads && s.api.value == s.owner)
  }

  /** The thread is inside the leaf mutex. */
  predicate InLeafOf(th: Thread, l: Leaf) {
    th.phase == InLeaf && LeafOf(th.stage) == l
  }

  /** Each leaf mutex is held by exactly the thread that is inside it. */
  ghost predicate LeafInv(s: State) {
    && (forall l ::
          l in s.leaves ==>
            s.leaves[l] in s.threads && InLeafOf(s.threads[s.leaves[l]], l))
    && (forall t :: t in s.threads && s.threads[t].phase == InLeaf ==>
          LeafOf(s.threads[t].stage) in s.leaves && s.leaves[LeafOf(s.threads[t].stage)] == t)
  }

  ghost predicate LockInv(s: State) {
    ApiInv(s) && LeafInv(s)
  }

  /** A poll past its setpoint frame: unless marked stale, it carries the bank's own slots. */
  predicate Carries(th: Thread) {
    Critical(th) && th.kind == Poller
        && (th.stage == Remember || th.stage == Publish || th.stage == Sync || th.stage == Gate)
  }

  ghost predicate SlotsFresh(s: State, th: Thread) {
    Carries(th) && !s.stale ==> HoldsSlots(s.bank, th.slots)
  }

  ghost predicate SlotsInv(s: State) {
    && (forall t :: t in s.threads ==> SlotsFresh(s, s.threads[t]))
    && (forall k :: 0 <= k < |s.given| ==> HoldsSlots(s.given[k].1, s.given[k].0))
  }

  /** Frames of one critical section are one thread's, and sections follow each other. */
  ghost predicate Sectioned(log: seq<Sent>, section: nat, owner: nat) {
    && (forall i :: 0 <= i < |log| ==> log[i].section <= section && (log[i].section == section ==> log[i].tid == owner))
    && (forall i, j :: 0 <= i < j < |log| ==> log[i].section <= log[j].section)
    && (forall i, j :: 0 <= i < j < |log| && log[i].section == log[j].section ==> log[i].tid == log[j].tid)
  }

  ghost predicate LogInv(s: State) {
    Sectioned(s.log, s.section, s.owner)
  }

  ghost predicate Inv(s: State) {
    LockInv(s) && SlotsInv(s) && LogInv(s)
  }

  lemma DecodedHolds(b: Bank)
    ensures Decoded(b).Some? ==> HoldsSlots(b, Decoded(b).value)
  {
    if Decoded(b).Some? {
      DecodeInvertsEncode(b, Decoded(b).value);
    }
  }

  /** A step that neither enters nor leaves a leaf mutex keeps them as LeafInv says. */
  lemma OutsideLeaves(s: State, u: State, t: nat, th: Thread)
    requires LeafInv(s) && u.leaves == s.leaves && u.threads == s.threads[t := th]
    requires th.phase != InLeaf && (t in s.threads ==> s.threads[t].phase != InLeaf)
    ensures LeafInv(u)
  {
    hide LeafOf;
  }

  lemma LeaveKeepsApi(s: State, t: nat, c: Choice)
    requires ApiInv(s) && t in s.threads && LeaveNext(s, t, c).Some?
    ensures ApiInv(LeaveNext(s, t, c).value)
  {
    hide HoldsSlots, Decoded, SameSlotWords, Sectioned;
  }

  lemma LeaveKeepsLeaves(s: State, t: nat, c: Choice)
    requires LeafInv(s) && t in s.threads && LeaveNext(s, t, c).Some?
    ensures LeafInv(LeaveNext(s, t, c).value)
  {
    hide HoldsSlots, Decoded, SameSlotWords, Sectioned, MayLeave, SlotsAfter;
  }

  lemma SameWordsHold(b: Bank, after: Bank, slots: TimedSlots)
    requires HoldsSlots(b, slots) && SameSlotWords(b, after)
    ensures HoldsSlots(after, slots)
  {
    HoldsByAddress(b, after, slots);
  }

  /** The leaving thread itself: what it carries past the stage is what the bank holds. */
  lemma LeaveCarries(s: State, t: nat, c: Choice)
    requires t in s.threads && SlotsFresh(s, s.threads[t]) && LeaveNext(s, t, c).Some?
    requires Shaped(s.threads[t])
    ensures SlotsFresh(LeaveNext(s, t, c).value, LeaveNext(s, t, c).value.threads[t])
  {
    hide HoldsSlots, SameSlotWords, Decoded;
    var th := s.threads[t];
    var u := LeaveNext(s, t, c).value;
    if Carries(u.threads[t]) && !u.stale {
      if th.stage == ReadSlots {
        DecodedHolds(s.bank);
      } else if th.stage == Sync {
        SameWordsHold(s.bank, u.bank, th.slots);
      } else {
        assert th.stage == Remember || th.stage == Publish;
        assert u.bank == s.bank;
      }
    }
  }

  lemma LeaveKeepsSlots(s: State, t: nat, c: Choice)
    requires LockInv(s) && SlotsInv(s) && t in s.threads && LeaveNext(s, t, c).Some?
    ensures SlotsInv(LeaveNext(s, t, c).value)
  {
    hide HoldsSlots, Decoded, SameSlotWords, Sectioned;
    var u := LeaveNext(s, t, c).value;
    LeaveCarries(s, t, c);
    forall x | x in u.threads && x != t ensures SlotsFresh(u, u.threads[x]) {
      assert u.threads[x] == s.threads[x];
      if s.threads[t].kind == Reader {
        assert u.bank == s.bank && u.stale == s.stale;
      } else {
        assert s.api == Some(t) && !Critical(s.threads[x]);
      }
    }
  }

  lemma LeaveKeepsLog(s: State, t: nat, c: Choice)
    requires LockInv(s) && LogInv(s) && t in s.threads && LeaveNext(s, t, c).Some?
    ensures LogInv(LeaveNext(s, t, c).value)
  {
    hide HoldsSlots, Decoded, SameSlotWords;
    var th := s.threads[t];
    if LeafOf(th.stage) == FrameMutex {
      assert th.kind != Reader && s.api == Some(t);
    }
  }

  lemma SkipKeepsLocks(s: State, t: nat)
    requires LockInv(s) && t in s.threads && SkipNext(s, t).Some?
    ensures LockInv(SkipNext(s, t).value)
  {
    hide LeafInv;
    var u := SkipNext(s, t).value;
    OutsideLeaves(s, u, t, u.threads[t]);
  }

  lemma SkipKeepsSlots(s: State, t: nat)
    requires LockInv(s) && SlotsInv(s) && t in s.threads && SkipNext(s, t).Some?
    ensures SlotsInv(SkipNext(s, t).value)
  {
    hide HoldsSlots, Decoded, SameSlotWords, Sectioned;
    var u := SkipNext(s, t).value;
    assert Shaped(s.threads[t]) && SlotsFresh(s, s.threads[t]);
    forall x | x in u.threads ensures SlotsFresh(u, u.threads[x]) {
      assert SlotsFresh(s, s.threads[x]);
    }
    forall k | 0 <= k < |u.given| ensures HoldsSlots(u.given[k].1, u.given[k].0) {
      if k == |s.given| {
        assert u.given[k] == (s.threads[t].slots, s.bank);
      }
    }
  }

  lemma SkipKeeps(s: State, t: nat)
    requires Inv(s) && t in s.threads && SkipNext(s, t).Some?
    ensures Inv(SkipNext(s, t).value)
  {
    SkipKeepsLocks(s, t);
    SkipKeepsSlots(s, t);
  }

  lemma SpawnKeeps(s: State, t: nat, kind: Kind)
    requires Inv(s) && t !in s.threads
    ensures Inv(Next(s, Spawn(t, kind)).value)
  {
    hide HoldsSlots, Decoded, SameSlotWords, Sectioned, LeafInv;
    var u := Next(s, Spawn(t, kind)).value;
    OutsideLeaves(s, u, t, u.threads[t]);
  }

  lemma BeginKeeps(s: State, t: nat)
    requires Inv(s) && Next(s, Begin(t)).Some?
    ensures Inv(Next(s, Begin(t)).value)
  {
    hide HoldsSlots, Decoded, SameSlotWords, Sectioned, LeafInv;
    var u := Next(s, Begin(t)).value;
    OutsideLeaves(s, u, t, u.threads[t]);
  }

  lemma TakeApiKeeps(s: State, t: nat)
    requires Inv(s) && Next(s, TakeApi(t)).Some?
    ensures Inv(Next(s, TakeApi(t)).value)
  {
    hide HoldsSlots, Decoded, SameSlotWords, LeafInv;
    var u := Next(s, TakeApi(t)).value;
    OutsideLeaves(s, u, t, u.threads[t]);
  }

  lemma AskKeeps(s: State, t: nat)
    requires Inv(s) && Next(s, Ask(t)).Some?
    ensures Inv(Next(s, Ask(t)).value)
  {
    hide HoldsSlots, Decoded, SameSlotWords, Sectioned, LeafInv;
    var u := Next(s, Ask(t)).value;
    OutsideLeaves(s, u, t, u.threads[t]);
  }

  lemma TakeLeafKeepsLeaves(s: State, t: nat)
    requires LeafInv(s) && Next(s, TakeLeaf(t)).Some?
    ensures LeafInv(Next(s, TakeLeaf(t)).value)
  {
    hide HoldsSlots, Decoded, SameSlotWords, Sectioned;
  }

  lemma TakeLeafKeeps(s: State, t: nat)
    requires Inv(s) && Next(s, TakeLeaf(t)).Some?
    ensures Inv(Next(s, TakeLeaf(t)).value)
  {
    hide HoldsSlots, Decoded, SameSlotWords, Sectioned, LeafInv;
    TakeLeafKeepsLeaves(s, t);
  }

  lemma DropApiKeeps(s: State, t: nat)
    requires Inv(s) && Next(s, DropApi(t)).Some?
    ensures Inv(Next(s, DropApi(t)).value)
  {
    hide HoldsSlots, Decoded, SameSlotWords, Sectioned, LeafInv;
    var u := Next(s, DropApi(t)).value;
    OutsideLeaves(s, u, t, u.threads[t]);
  }

  lemma EditKeeps(s: State, b: Bank)
    requires Inv(s) && Next(s, Edit(b)).Some?
    ensures Inv(Next(s, Edit(b)).value)
  {
  }

  lemma StepKeeps(s: State, l: Label)
    requires Inv(s) && Next(s, l).Some?
    ensures Inv(Next(s, l).value)
  {
    match l
    case Edit(b) => EditKeeps(s, b);
    case Spawn(t, kind) => SpawnKeeps(s, t, kind);
    case Begin(t) => BeginKeeps(s, t);
    case TakeApi(t) => TakeApiKeeps(s, t);
    case Ask(t) => AskKeeps(s, t);
    case TakeLeaf(t) => TakeLeafKeeps(s, t);
    case Leave(t, c) =>
      LeaveKeepsApi(s, t, c);
      LeaveKeepsLeaves(s, t, c);
      LeaveKeepsSlots(s, t, c);
      LeaveKeepsLog(s, t, c);
    case Skip(t) => SkipKeeps(s, t);
    case DropApi(t) => DropApiKeeps(s, t);
  }

  lemma {:induction false} RunKeeps(s: State, labels: seq<Label>)
    requires Inv(s) && Run(s, labels).Some?
    ensures Inv(Run(s, labels).value)
    decreases |labels|
  {
    if labels != [] {
      StepKeeps(s, labels[0]);
      RunKeeps(Next(s, labels[0]).value, labels[1..]);
    }
  }

  // --------------------------------------------------------------------- the theorems

  /** Over every interleaving, the inner reconcile is only ever given the slots the bank then holds. */
  lemma NeverUnseenSlots(bank: Bank, labels: seq<Label>)
    requires Run(Start(bank), labels).Some?
    ensures forall e :: e in Run(Start(bank), labels).value.given ==> HoldsSlots(e.1, e.0)
  {
    RunKeeps(Start(bank), labels);
  }

  /** Frames of two critical sections never interleave: between two frames of one, all are of it. */
  lemma SectionsNeverInterleave(bank: Bank, labels: seq<Label>, i: nat, j: nat, k: nat)
    requires Run(Start(bank), labels).Some?
    requires var log := Run(Start(bank), labels).value.log; i < j < k < |log| && log[i].section == log[k].section
    ensures var log := Run(Start(bank), labels).value.log; log[j] == log[i]
  {
    RunKeeps(Start(bank), labels);
  }

  /** A setpoint frame that goes well leaves its poll with the bank's own slots, and marks them fresh. */
  lemma FreshReadCarries(s: State, t: nat, slots: TimedSlots)
    requires t in s.threads && s.threads[t].phase == InLeaf && s.threads[t].stage == ReadSlots
    requires Decoded(s.bank) == Some(slots)
    ensures var next := LeaveNext(s, t, Choice(true, false, s.bank));
            && next.Some? && t in next.value.threads && !next.value.stale && next.value.threads[t].slots == slots
            && next.value.threads[t].stage == (if s.threads[t].kind == Poller then Remember else Publish)
  {
    hide Decoded, HoldsSlots, SameSlotWords;
  }

  /** The gate lets a poll through to the reconcile with its slots exactly when they are not stale. */
  lemma GateExactly(s: State, t: nat)
    requires t in s.threads && s.threads[t].phase == Ready && s.threads[t].stage == Gate
    ensures var next := Next(s, Skip(t));
            && next.Some?
            && next.value.threads[t].stage == (if s.stale then Done else Reconcile)
            && next.value.given == s.given + if s.stale then [] else [(s.threads[t].slots, s.bank)]
  {
  }

  predicate HoldsLeaf(s: State, t: nat) {
    exists l :: l in s.leaves && s.leaves[l] == t
  }

  /** Locks are taken in one order: apiMu with nothing held, a leaf mutex with at most apiMu held. */
  lemma LockOrder(bank: Bank, labels: seq<Label>, t: nat)
    requires Run(Start(bank), labels).Some? && t in Run(Start(bank), labels).value.threads
    ensures var s := Run(Start(bank), labels).value;
            && (s.threads[t].phase == WantsApi ==> s.api != Some(t) && !HoldsLeaf(s, t))
            && (s.threads[t].phase == WantsLeaf ==> !HoldsLeaf(s, t))
  {
    RunKeeps(Start(bank), labels);
  }

  /** The thread can take a step of its own. */
  ghost predicate CanStep(s: State, t: nat) {
    || Next(s, TakeApi(t)).Some? || Next(s, Ask(t)).Some? || Next(s, TakeLeaf(t)).Some?
    || Next(s, Skip(t)).Some? || Next(s, DropApi(t)).Some? || exists c :: Next(s, Leave(t, c)).Some?
  }

  lemma InLeafCanStep(s: State, t: nat)
    requires t in s.threads && s.threads[t].phase == InLeaf
    ensures CanStep(s, t)
  {
    assert SameSlotWords(s.bank, s.bank);
    assert Next(s, Leave(t, Choice(true, false, s.bank))).Some?;
  }

  /** Past apiMu a thread waits at most for one leaf mutex, whose holder can step. */
  lemma CriticalProgress(s: State, t: nat)
    requires Inv(s) && t in s.threads && s.threads[t].phase != Idle && s.threads[t].phase != WantsApi
    ensures CanStep(s, t) || exists u :: u in s.threads && s.threads[u].phase == InLeaf && CanStep(s, u)
  {
    hide HoldsSlots, Decoded, SameSlotWords, Sectioned;
    var th := s.threads[t];
    if th.phase == InLeaf {
      InLeafCanStep(s, t);
    } else if th.phase == WantsLeaf && LeafOf(th.stage) in s.leaves {
      InLeafCanStep(s, s.leaves[LeafOf(th.stage)]);
    } else if th.phase == Ready {
      if th.stage == Done {
        assert Next(s, DropApi(t)).Some?;
      } else if th.stage == Gate {
        assert Next(s, Skip(t)).Some?;
      } else {
        assert Next(s, Ask(t)).Some?;
      }
    } else {
      assert Next(s, TakeLeaf(t)).Some?;
    }
  }

  /** No reachable state is stuck: while any thread is not idle, some thread that is not idle can step. */
  lemma NeverStuck(bank: Bank, labels: seq<Label>, t: nat)
    requires Run(Start(bank), labels).Some?
    requires var s := Run(Start(bank), labels).value; t in s.threads && s.threads[t].phase != Idle
    ensures var s := Run(Start(bank), labels).value;
            exists u :: u in s.threads && s.threads[u].phase != Idle && CanStep(s, u)
  {
    var s := Run(Start(bank), labels).value;
    RunKeeps(Start(bank), labels);
    if s.threads[t].phase == WantsApi {
      if s.api.None? {
        assert CanStep(s, t);
      } else {
        CriticalProgress(s, s.api.value);
      }
    } else {
      CriticalProgress(s, t);
    }
  }

  // ---------------------------------------------------------------- the cache in a poll

  /** What the section's slots have to do with the cache, stage by stage. */
  predicate Cached(s: State, th: Thread) {
    && (th.stage == ReadSlots ==> th.slots == s.cached)
    && (th.stage == Remember && s.stale ==> th.slots == s.cached)
    && (th.kind == Commander && th.stage == Publish && s.stale ==> th.slots == s.cached)
    && (th.kind == Poller && (th.stage == Publish || th.stage == Sync || th.stage == Gate) ==> th.slots == s.cached)
  }

  ghost predicate CacheInv(s: State) {
    forall t :: t in s.threads && Critical(s.threads[t]) ==> Cached(s, s.threads[t])
  }

  lemma LeaveKeepsCache(s: State, t: nat, c: Choice)
    requires ApiInv(s) && CacheInv(s) && t in s.threads && LeaveNext(s, t, c).Some?
    ensures CacheInv(LeaveNext(s, t, c).value)
  {
    hide HoldsSlots, Decoded, SameSlotWords, Sectioned, MayLeave, LeafOf;
    var u := LeaveNext(s, t, c).value;
    forall x | x in u.threads && Critical(u.threads[x]) ensures Cached(u, u.threads[x]) {
      if x != t {
        assert u.threads[x] == s.threads[x];
        assert s.threads[t].kind == Reader;
        assert u.cached == s.cached && u.stale == s.stale;
      }
    }
  }

  lemma SkipKeepsCache(s: State, t: nat)
    requires CacheInv(s) && t in s.threads && SkipNext(s, t).Some?
    ensures CacheInv(SkipNext(s, t).value)
  {
    var u := SkipNext(s, t).value;
    forall x | x in u.threads && Critical(u.threads[x]) ensures Cached(u, u.threads[x]) {
      assert Critical(s.threads[x]) && Cached(s, s.threads[x]);
    }
  }

  lemma StepKeepsCache(s: State, l: Label)
    requires ApiInv(s) && CacheInv(s) && Next(s, l).Some?
    ensures CacheInv(Next(s, l).value)
  {
    hide ApiInv, LeaveNext, SkipNext, Cached;
    var u := Next(s, l).value;
    match l
    case Leave(t, c) => LeaveKeepsCache(s, t, c);
    case Skip(t) => SkipKeepsCache(s, t);
    case TakeApi(t) => AskedFirst(s, u, t);
    case Begin(t) => AskedFirst(s, u, t);
    case _ =>
      forall x | x in u.threads && Critical(u.threads[x]) ensures Cached(u, u.threads[x]) {
        SameCached(s, u, x);
      }
  }

  lemma SameCached(s: State, u: State, x: nat)
    requires CacheInv(s) && x in u.threads && Critical(u.threads[x]) && u.cached == s.cached && u.stale == s.stale
    requires x in s.threads && Critical(s.threads[x])
    requires s.threads[x].(phase := u.threads[x].phase) == u.threads[x]
    ensures Cached(u, u.threads[x])
  {
    assert Cached(s, s.threads[x]);
  }

  /** A thread that asks for apiMu, or has just got it, is at its first stage. */
  lemma AskedFirst(s: State, u: State, t: nat)
    requires ApiInv(s) && CacheInv(s) && t in s.threads
    requires Next(s, TakeApi(t)) == Some(u) || Next(s, Begin(t)) == Some(u)
    ensures CacheInv(u)
  {
    hide Cached;
    forall x | x in u.threads && Critical(u.threads[x]) ensures Cached(u, u.threads[x]) {
      if x == t {
        assert u.threads[x].stage == FirstStage(u.threads[x].kind);
        FirstCached(u, u.threads[x]);
      } else {
        SameCached(s, u, x);
      }
    }
  }

  lemma FirstCached(s: State, th: Thread)
    requires th.stage == Command || th.stage == Collect
    ensures Cached(s, th)
  {
  }

  lemma {:induction false} RunKeepsCache(s: State, labels: seq<Label>)
    requires Inv(s) && CacheInv(s) && Run(s, labels).Some?
    ensures CacheInv(Run(s, labels).value)
    decreases |labels|
  {
    hide CacheInv, ApiInv, SlotsInv, LogInv, LeafInv;
    if labels != [] {
      StepKeeps(s, labels[0]);
      StepKeepsCache(s, labels[0]);
      RunKeepsCache(Next(s, labels[0]).value, labels[1..]);
    }
  }

  /**
  A poll publishes, and goes on, only with the slots the cache then holds; a stale one carries
  those it held before.
   */
  lemma PublishesTheCache(bank: Bank, labels: seq<Label>, t: nat)
    requires Run(Start(bank), labels).Some?
    requires var s := Run(Start(bank), labels).value;
             t in s.threads && s.threads[t].kind == Poller && Critical(s.threads[t])
    ensures var s := Run(Start(bank), labels).value;
            var th := s.threads[t];
            && (th.stage == Publish || th.stage == Sync || th.stage == Gate ==> th.slots == s.cached)
            && (th.stage == Remember && s.stale ==> th.slots == s.cached)
  {
    RunKeepsCache(Start(bank), labels);
  }

  // ------------------------------------------------------------------ a poll gets there

  lemma {:induction false} RunAppend(s: State, front: seq<Label>, back: seq<Label>)
    requires Run(s, front).Some?
    ensures Run(s, front + back) == Run(Run(s, front).value, back)
    decreases |front|
  {
    hide Next;
    if front == [] {
      assert front + back == back;
    } else {
      assert (front + back)[1..] == front[1..] + back;
      RunAppend(Next(s, front[0]).value, front[1..], back);
    }
  }

  lemma RunOne(s: State, l: Label)
    requires Next(s, l).Some?
    ensures Run(s, [l]) == Next(s, l)
  {
    hide Next;
    assert Run(s, [l]) == Run(Next(s, l).value, []);
  }

  lemma Joined(s: State, front: seq<Label>, mid: State, back: seq<Label>, last: State)
    requires Run(s, front) == Some(mid) && Run(mid, back) == Some(last)
    ensures Run(s, front + back) == Some(last)
  {
    RunAppend(s, front, back);
  }

  /** Inside its section, with the inner mutexes free, a thread goes through one stage by itself. */
  lemma StageRuns(s: State, t: nat, c: Choice) returns (labels: seq<Label>, u: State)
    requires t in s.threads && s.threads[t].phase == Ready && s.threads[t].kind != Reader && s.leaves == map[]
    requires s.threads[t].stage != Gate && s.threads[t].stage != Done && MayLeave(s.threads[t].stage, s.bank, c.bank)
    ensures Run(s, labels) == Some(u) && u.leaves == map[] && u.api == s.api && u.bank == c.bank && u.given == s.given
    ensures t in u.threads && u.threads[t].kind == s.threads[t].kind && u.threads[t].phase == Ready
    ensures u.threads[t].stage == StageAfter(s.threads[t], c) && u.threads[t].slots == SlotsAfter(s, s.threads[t], c)
    ensures u.stale == if s.threads[t].stage == ReadSlots then !(c.ok && Decoded(s.bank).Some?) else s.stale
    ensures u.cached == if s.threads[t].stage == Remember then s.threads[t].slots else s.cached
  {
    hide MayLeave, Decoded, SlotsAfter, StageAfter;
    var a := Next(s, Ask(t)).value;
    var b := Next(a, TakeLeaf(t)).value;
    u := Next(b, Leave(t, c)).value;
    LeafSlots(s, b, s.threads[t], b.threads[t], c);
    RunOne(s, Ask(t));
    RunOne(a, TakeLeaf(t));
    RunOne(b, Leave(t, c));
    Joined(s, [Ask(t)], a, [TakeLeaf(t)], b);
    Joined(s, [Ask(t)] + [TakeLeaf(t)], b, [Leave(t, c)], u);
    labels := [Ask(t)] + [TakeLeaf(t)] + [Leave(t, c)];
    assert u.leaves == map[];
  }

  lemma LeafSlots(s: State, b: State, was: Thread, th: Thread, c: Choice)
    requires b.bank == s.bank && b.cached == s.cached && th == was.(phase := InLeaf)
    ensures SlotsAfter(b, th, c) == SlotsAfter(s, was, c) && StageAfter(th, c) == StageAfter(was, c)
  {
  }

  /**
  A poll that has apiMu and whose frames go well gets by itself from its collect to the reconcile,
  over the bank's slots.
   */
  lemma PollGetsThere(s: State, t: nat, slots: TimedSlots) returns (labels: seq<Label>)
    requires t in s.threads && s.threads[t] == Thread(Poller, Ready, Collect, s.threads[t].slots) && s.leaves == map[]
    requires Decoded(s.bank) == Some(slots)
    ensures var end := Run(s, labels);
            && end.Some? && t in end.value.threads && end.value.threads[t].stage == Reconcile
            && end.value.given == s.given + [(slots, s.bank)] && end.value.cached == slots && !end.value.stale
  {
    hide Decoded, Next, Run;
    var fine := Choice(true, false, s.bank);
    var l1, s1 := StageRuns(s, t, fine);
    var l2, s2 := StageRuns(s1, t, fine);
    var l3, s3 := StageRuns(s2, t, fine);
    var l4, s4 := StageRuns(s3, t, fine);
    var l5, s5 := StageRuns(s4, t, fine);
    var l6, s6 := GateOpens(s5, t);
    Joined(s, l1, s1, l2, s2);
    Joined(s, l1 + l2, s2, l3, s3);
    Joined(s, l1 + l2 + l3, s3, l4, s4);
    Joined(s, l1 + l2 + l3 + l4, s4, l5, s5);
    Joined(s, l1 + l2 + l3 + l4 + l5, s5, l6, s6);
    labels := l1 + l2 + l3 + l4 + l5 + l6;
  }

  /**
  A command that has apiMu and whose frames go well goes on by itself through its refresh, and ends
  with the slots it left in the bank in the cache.
   */
  lemma CommandGetsThere(s: State, t: nat, after: Bank, slots: TimedSlots) returns (labels: seq<Label>)
    requires t in s.threads && s.threads[t] == Thread(Commander, Ready, Command, s.threads[t].slots)
    requires s.leaves == map[] && Decoded(after) == Some(slots)
    ensures var end := Run(s, labels);
            && end.Some? && t in end.value.threads && end.value.threads[t].stage == Done
            && end.value.bank == after && end.value.cached == slots && !end.value.stale && end.value.given == s.given
  {
    hide Decoded, Next, Run;
    var fine := Choice(true, false, after);
    var l1, s1 := StageRuns(s, t, fine);
    var l2, s2 := StageRuns(s1, t, fine);
    var l3, s3 := StageRuns(s2, t, fine);
    var l4, s4 := StageRuns(s3, t, fine);
    var l5, s5 := StageRuns(s4, t, fine);
    var l6, s6 := StageRuns(s5, t, fine);
    Joined(s, l1, s1, l2, s2);
    Joined(s, l1 + l2, s2, l3, s3);
    Joined(s, l1 + l2 + l3, s3, l4, s4);
    Joined(s, l1 + l2 + l3 + l4, s4, l5, s5);
    Joined(s, l1 + l2 + l3 + l4 + l5, s5, l6, s6);
    labels := l1 + l2 + l3 + l4 + l5 + l6;
  }

  lemma GateOpens(s: State, t: nat) returns (labels: seq<Label>, u: State)
    requires t in s.threads && s.threads[t].phase == Ready && s.threads[t].stage == Sync && !s.stale
    ensures Run(s, labels) == Some(u) && t in u.threads && u.threads[t].stage == Reconcile
    ensures u.given == s.given + [(s.threads[t].slots, s.bank)] && u.cached == s.cached && !u.stale
  {
    var a := Next(s, Skip(t)).value;
    u := Next(a, Skip(t)).value;
    RunOne(s, Skip(t));
    RunOne(a, Skip(t));
    Joined(s, [Skip(t)], a, [Skip(t)], u);
    labels := [Skip(t)] + [Skip(t)];
  }
}
