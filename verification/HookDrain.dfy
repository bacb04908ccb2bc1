/**
The reconnect hook and its drain, as a state machine over the single steps of any number of
fireOnUp calls, each with the hook goroutine it may launch, and of any number of drains.
 */
module HookDrain {
  import opened Wrappers

  /** A fireOnUp call and its hook: from asking for the mutex to the wait group's Done. */
  datatype FirePc =
    | WantsMutex
    | HasMutex        // about to look at the hook and at hookClosing
    | Passed          // saw a hook and no closing; about to Add
    | Added           // counted; about to unlock
    | Unlocked        // about to start the goroutine
    | Running         // inside the hook
    | Returned        // about to call Done
    | Finished
    | Skipping        // saw no hook, or closing; about to unlock
    | Skipped

  datatype DrainPc =
    | DrainWants
    | DrainHas        // about to set hookClosing
    | DrainSet        // about to unlock
    | DrainCancels    // about to cancel the hook context
    | Waiting         // the helper goroutine is in Wait
    | DoneClosed      // Wait returned and done was closed
    | ThroughDone     // the drain returned because done was closed
    | TimedOut        // the drain returned because its context ended

  datatype Holder = Nobody | Fire(i: nat) | Drain(d: nat)

  datatype State = State(
    hasHook: bool,
    mutex: Holder,
    closing: bool,
    cancelled: bool,
    count: int,
    fires: map<nat, FirePc>,
    drains: map<nat, DrainPc>)

  datatype Label = NewFire(i: nat) | FireStep(i: nat) | NewDrain(d: nat) | DrainStep(d: nat) | Timeout(d: nat)

  const START := State(true, Nobody, false, false, 0, map[], map[])

  function WithFire(s: State, i: nat, pc: FirePc): State {
    s.(fires := s.fires[i := pc])
  }

  function WithDrain(s: State, d: nat, pc: DrainPc): State {
    s.(drains := s.drains[d := pc])
  }

  function FireNext(s: State, i: nat): Option<State>
    requires i in s.fires
  {
    match s.fires[i]
    case WantsMutex => if s.mutex == Nobody then Some(WithFire(s, i, HasMutex).(mutex := Fire(i))) else None
    case HasMutex => Some(WithFire(s, i, if !s.hasHook || s.closing then Skipping else Passed))
    case Skipping => Some(WithFire(s, i, Skipped).(mutex := Nobody))
    case Passed => Some(WithFire(s, i, Added).(count := s.count + 1))
    case Added => Some(WithFire(s, i, Unlocked).(mutex := Nobody))
    case Unlocked => Some(WithFire(s, i, Running))
    case Running => Some(WithFire(s, i, Returned))
    case Returned => Some(WithFire(s, i, Finished).(count := s.count - 1))
    case Finished => None
    case Skipped => None
  }

  function DrainNext(s: State, d: nat): Option<State>
    requires d in s.drains
  {
    match s.drains[d]
    case DrainWants => if s.mutex == Nobody then Some(WithDrain(s, d, DrainHas).(mutex := Drain(d))) else None
    case DrainHas => Some(WithDrain(s, d, DrainSet).(closing := true))
    case DrainSet => Some(WithDrain(s, d, DrainCancels).(mutex := Nobody))
    case DrainCancels => Some(WithDrain(s, d, Waiting).(cancelled := true))
    case Waiting => if s.count == 0 then Some(WithDrain(s, d, DoneClosed)) else None
    case DoneClosed => Some(WithDrain(s, d, ThroughDone))
    case ThroughDone => None
    case TimedOut => None
  }

  /** The state after a step, if the step can be taken. */
  function Next(s: State, l: Label): Option<State> {
    match l
    case NewFire(i) => if i in s.fires then None else Some(WithFire(s, i, WantsMutex))
    case NewDrain(d) => if d in s.drains then None else Some(WithDrain(s, d, DrainWants))
    case FireStep(i) => if i in s.fires then FireNext(s, i) else None
    case DrainStep(d) => if d in s.drains then DrainNext(s, d) else None
    case Timeout(d) =>
      if d in s.drains && (s.drains[d] == Waiting || s.drains[d] == DoneClosed) then Some(WithDrain(s, d, TimedOut))
          else None
  }

  function Run(s: State, labels: seq<Label>): Option<State>
    decreases |labels|
  {
    if labels == [] then Some(s)
    else
      var next := Next(s, labels[0]);
      if next.None? then None else Run(next.value, labels[1..])
  }

  // ------------------------------------------------------------------- the invariant

  /** The hook has been launched (counted) and has not finished. */
  predicate Active(pc: FirePc) {
    pc == Added || pc == Unlocked || pc == Running || pc == Returned
  }

  function Launched(s: State): set<nat> {
    set i | i in s.fires && Active(s.fires[i])
  }

  predicate FireHolds(pc: FirePc) {
    pc == HasMutex || pc == Passed || pc == Added || pc == Skipping
  }

  predicate DrainHolds(pc: DrainPc) {
    pc == DrainHas || pc == DrainSet
  }

  /** The drain has set hookClosing. */
  predicate HasSet(pc: DrainPc) {
    pc != DrainWants && pc != DrainHas
  }

  /** The mutex is held by exactly the call or drain that is between its Lock and its Unlock. */
  ghost predicate LockInv(s: State) {
    && (forall i :: i in s.fires ==> (FireHolds(s.fires[i]) <==> s.mutex == Fire(i)))
    && (forall d :: d in s.drains ==> (DrainHolds(s.drains[d]) <==> s.mutex == Drain(d)))
    && (s.mutex.Fire? ==> s.mutex.i in s.fires)
    && (s.mutex.Drain? ==> s.mutex.d in s.drains)
  }

  /** The drain has cancelled the hooks' context. */
  predicate HasCancelled(pc: DrainPc) {
    HasSet(pc) && pc != DrainSet && pc != DrainCancels
  }

  /**
  Every drain past its first store sees closing set, past its second the context cancelled, and no
  call has passed the check since.
   */
  ghost predicate ClosingInv(s: State) {
    && (forall d :: d in s.drains && HasSet(s.drains[d]) ==> s.closing)
    && (forall d :: d in s.drains && HasCancelled(s.drains[d]) ==> s.cancelled)
    && (forall i :: i in s.fires && s.fires[i] == Passed ==> !s.closing)
    && (forall i :: i in s.fires && (s.fires[i] == Skipping || s.fires[i] == Skipped) ==> !s.hasHook || s.closing)
    && (forall i :: i in s.fires && (s.fires[i] == Passed || Active(s.fires[i])) ==> s.hasHook)
  }

  ghost predicate CountInv(s: State) {
    && s.count == |Launched(s)|
    && (forall d :: d in s.drains && (s.drains[d] == DoneClosed || s.drains[d] == ThroughDone) ==> Launched(s) == {})
  }

  ghost predicate Inv(s: State) {
    LockInv(s) && ClosingInv(s) && CountInv(s)
  }

  /** A fireOnUp call that locks, unlocks, or does neither keeps the mutex where LockInv says. */
  lemma FireMoves(s: State, t: State, i: nat, pc: FirePc)
    requires LockInv(s) && i in s.fires && t.fires == s.fires[i := pc] && t.drains == s.drains
    requires || (t.mutex == s.mutex && FireHolds(pc) == FireHolds(s.fires[i]))
             || (s.mutex == Nobody && t.mutex == Fire(i) && FireHolds(pc))
             || (s.mutex == Fire(i) && t.mutex == Nobody && !FireHolds(pc))
    ensures LockInv(t)
  {
  }

  lemma FireKeepsLock(s: State, i: nat)
    requires LockInv(s) && i in s.fires && FireNext(s, i).Some?
    ensures LockInv(FireNext(s, i).value)
  {
    var t := FireNext(s, i).value;
    assert FireHolds(s.fires[i]) <==> s.mutex == Fire(i);
    hide LockInv;
    FireMoves(s, t, i, t.fires[i]);
  }

  lemma FireKeepsClosing(s: State, i: nat)
    requires ClosingInv(s) && i in s.fires && FireNext(s, i).Some?
    ensures ClosingInv(FireNext(s, i).value)
  {
  }

  lemma FireLaunches(s: State, i: nat)
    requires i in s.fires && FireNext(s, i).Some?
    ensures Launched(FireNext(s, i).value)
         == if s.fires[i] == Passed then Launched(s) + {i} else if s.fires[i] == Returned then Launched(s) - {i}
             else Launched(s)
    ensures s.fires[i] == Passed ==> i !in Launched(s)
    ensures s.fires[i] == Returned ==> i in Launched(s)
  {
  }

  lemma FireKeepsCount(s: State, i: nat)
    requires Inv(s) && i in s.fires && FireNext(s, i).Some?
    ensures CountInv(FireNext(s, i).value)
  {
    hide LockInv, Launched;
    var t := FireNext(s, i).value;
    FireLaunches(s, i);
    forall d | d in t.drains && (t.drains[d] == DoneClosed || t.drains[d] == ThroughDone)
      ensures Launched(t) == {}
    {
      assert HasSet(s.drains[d]);
    }
  }

  lemma DrainMoves(s: State, t: State, d: nat, pc: DrainPc)
    requires LockInv(s) && d in s.drains && t.drains == s.drains[d := pc] && t.fires == s.fires
    requires || (t.mutex == s.mutex && DrainHolds(pc) == DrainHolds(s.drains[d]))
             || (s.mutex == Nobody && t.mutex == Drain(d) && DrainHolds(pc))
             || (s.mutex == Drain(d) && t.mutex == Nobody && !DrainHolds(pc))
    ensures LockInv(t)
  {
  }

  lemma DrainKeepsLock(s: State, d: nat)
    requires LockInv(s) && d in s.drains && DrainNext(s, d).Some?
    ensures LockInv(DrainNext(s, d).value)
  {
    var t := DrainNext(s, d).value;
    assert DrainHolds(s.drains[d]) <==> s.mutex == Drain(d);
    hide LockInv;
    DrainMoves(s, t, d, t.drains[d]);
  }

  lemma DrainKeepsClosing(s: State, d: nat)
    requires LockInv(s) && ClosingInv(s) && d in s.drains && DrainNext(s, d).Some?
    ensures ClosingInv(DrainNext(s, d).value)
  {
    var t := DrainNext(s, d).value;
    if s.drains[d] == DrainHas {
      forall i | i in t.fires ensures t.fires[i] != Passed {
        assert s.mutex == Drain(d);
      }
    }
  }

  lemma DrainKeepsCount(s: State, d: nat)
    requires CountInv(s) && d in s.drains && DrainNext(s, d).Some?
    ensures CountInv(DrainNext(s, d).value) && Launched(DrainNext(s, d).value) == Launched(s)
  {
    assert Launched(DrainNext(s, d).value) == Launched(s);
  }

  /** t keeps the invariant, and closing stays set and lets no hook join. */
  ghost predicate Follows(s: State, t: State) {
    Inv(t) && (s.closing ==> t.closing && Launched(t) <= Launched(s))
  }

  lemma FireFollows(s: State, i: nat)
    requires Inv(s) && i in s.fires && FireNext(s, i).Some?
    ensures Follows(s, FireNext(s, i).value)
  {
    FireKeepsLock(s, i);
    FireKeepsClosing(s, i);
    FireKeepsCount(s, i);
    FireLaunches(s, i);
  }

  lemma DrainFollows(s: State, d: nat)
    requires Inv(s) && d in s.drains && DrainNext(s, d).Some?
    ensures Follows(s, DrainNext(s, d).value)
  {
    DrainKeepsLock(s, d);
    DrainKeepsClosing(s, d);
    DrainKeepsCount(s, d);
  }

  lemma NewFireFollows(s: State, i: nat)
    requires Inv(s) && i !in s.fires
    ensures Follows(s, WithFire(s, i, WantsMutex))
  {
    assert Launched(WithFire(s, i, WantsMutex)) == Launched(s);
  }

  lemma DrainMoveFollows(s: State, d: nat, pc: DrainPc)
    requires Inv(s) && ((d !in s.drains && pc == DrainWants)
        || (d in s.drains && HasCancelled(s.drains[d]) && pc == TimedOut))
    ensures Follows(s, WithDrain(s, d, pc))
  {
    assert Launched(WithDrain(s, d, pc)) == Launched(s);
  }

  lemma StepFollows(s: State, l: Label)
    requires Inv(s) && Next(s, l).Some?
    ensures Follows(s, Next(s, l).value)
  {
    match l
    case FireStep(i) => FireFollows(s, i);
    case DrainStep(d) => DrainFollows(s, d);
    case NewFire(i) => NewFireFollows(s, i);
    case NewDrain(d) => DrainMoveFollows(s, d, DrainWants);
    case Timeout(d) => DrainMoveFollows(s, d, TimedOut);
  }

  /**
  In every interleaving from the start: the count is the number of hooks launched and not
  finished, and once closing is set the launched hooks only ever leave, none joins.
   */
  lemma {:induction false} CountIsLaunched(s: State, labels: seq<Label>)
    requires Inv(s) && Run(s, labels).Some?
    ensures var t := Run(s, labels).value;
            && Inv(t) && t.count == |Launched(t)|
            && (s.closing ==> t.closing && Launched(t) <= Launched(s))
    decreases |labels|
  {
    if labels != [] {
      StepFollows(s, labels[0]);
      CountIsLaunched(Next(s, labels[0]).value, labels[1..]);
    }
  }

  lemma StartInv(hasHook: bool)
    ensures Inv(START.(hasHook := hasHook))
  {
    assert Launched(START.(hasHook := hasHook)) == {};
  }

  /** Once any drain has returned through done, no hook is running, or about to, in any later state. */
  lemma DrainedForGood(hasHook: bool, before: seq<Label>, after: seq<Label>, d: nat)
    requires Run(START.(hasHook := hasHook), before).Some?
    requires var s := Run(START.(hasHook := hasHook), before).value;
             d in s.drains && s.drains[d] == ThroughDone && Run(s, after).Some?
    ensures var t := Run(Run(START.(hasHook := hasHook), before).value, after).value;
            && t.closing && t.count == 0
            && forall i :: i in t.fires ==> t.fires[i] != Running && !Active(t.fires[i]) && t.fires[i] != Passed
  {
    StartInv(hasHook);
    CountIsLaunched(START.(hasHook := hasHook), before);
    var s := Run(START.(hasHook := hasHook), before).value;
    CountIsLaunched(s, after);
    var t := Run(s, after).value;
    assert Launched(t) == {};
    forall i | i in t.fires ensures !Active(t.fires[i]) {
      assert i !in Launched(t);
    }
  }

  /** The wait group is never misused: no Add once a Wait has begun, and no Done below zero. */
  lemma WaitGroupUsedRightly(hasHook: bool, labels: seq<Label>, i: nat)
    requires Run(START.(hasHook := hasHook), labels).Some?
    requires i in Run(START.(hasHook := hasHook), labels).value.fires
    ensures var s := Run(START.(hasHook := hasHook), labels).value;
            && (s.fires[i] == Passed ==> forall d :: d in s.drains ==> s.drains[d] == DrainWants)
            && (s.fires[i] == Returned ==> s.count >= 1)
  {
    StartInv(hasHook);
    CountIsLaunched(START.(hasHook := hasHook), labels);
    var s := Run(START.(hasHook := hasHook), labels).value;
    if s.fires[i] == Returned {
      assert i in Launched(s);
    }
  }

  /** A call gives up only without a hook or once closing is set, and launches only with one. */
  lemma SkipsOnlyWhenDue(hasHook: bool, labels: seq<Label>, i: nat)
    requires Run(START.(hasHook := hasHook), labels).Some?
    requires i in Run(START.(hasHook := hasHook), labels).value.fires
    ensures var s := Run(START.(hasHook := hasHook), labels).value;
            && (s.fires[i] == Skipping || s.fires[i] == Skipped ==> !s.hasHook || s.closing)
            && (s.fires[i] == Passed || Active(s.fires[i]) ==> s.hasHook)
  {
    StartInv(hasHook);
    CountIsLaunched(START.(hasHook := hasHook), labels);
  }

  lemma RunFour(s: State, a: Label, b: Label, c: Label, d: Label)
    requires Next(s, a).Some? && Next(Next(s, a).value, b).Some?
    requires var t := Next(Next(s, a).value, b).value; Next(t, c).Some? && Next(Next(t, c).value, d).Some?
    ensures Run(s, [a, b, c, d]) == Next(Next(Next(Next(s, a).value, b).value, c).value, d)
  {
    hide Next;
    var t := Next(Next(s, a).value, b).value;
    assert [a, b, c, d][1..] == [b, c, d] && [b, c, d][1..] == [c, d] && [c, d][1..] == [d] && [d][1..] == [];
    assert Run(s, [a, b, c, d]) == Run(Next(s, a).value, [b, c, d]) == Run(t, [c, d]) == Run(Next(t, c).value, [d]);
    assert Run(Next(t, c).value, [d]) == Run(Next(Next(t, c).value, d).value, []);
  }

  /** With a hook set and no drain closing, a call at its check goes on by its own steps to run the hook, counted. */
  lemma LaunchesWhenDue(s: State, i: nat)
    requires Inv(s) && s.hasHook && !s.closing && i in s.fires && s.fires[i] == HasMutex
    ensures var step := FireStep(i);
            var t := Run(s, [step, step, step, step]);
            t.Some? && i in t.value.fires && t.value.fires[i] == Running && t.value.count == s.count + 1
                && t.value.mutex == Nobody
  {
    RunFour(s, FireStep(i), FireStep(i), FireStep(i), FireStep(i));
  }

  /** Without a hook, or once closing is set, it lets the mutex go and is done. */
  lemma SkipsWhenDue(s: State, i: nat)
    requires Inv(s) && (!s.hasHook || s.closing) && i in s.fires && s.fires[i] == HasMutex
    ensures var t := Next(s, FireStep(i));
            && t.Some? && Next(t.value, FireStep(i)).Some?
            && var u := Next(t.value, FireStep(i)).value;
               u.fires[i] == Skipped && u.mutex == Nobody && u.count == s.count
  {
  }

  /** A drain that gets the mutex goes on by its own steps to wait, with closing set and the context cancelled. */
  lemma DrainGoesOn(s: State, d: nat)
    requires Inv(s) && s.mutex == Nobody && d in s.drains && s.drains[d] == DrainWants
    ensures var step := DrainStep(d);
            var t := Run(s, [step, step, step, step]);
            t.Some? && d in t.value.drains && t.value.drains[d] == Waiting && t.value.closing && t.value.cancelled
                && t.value.mutex == Nobody
  {
    RunFour(s, DrainStep(d), DrainStep(d), DrainStep(d), DrainStep(d));
  }

  /** A waiting drain can always give up, and gets through done as soon as no hook is left. */
  lemma DrainReturns(s: State, d: nat)
    requires d in s.drains && s.drains[d] == Waiting
    ensures Next(s, Timeout(d)).Some? && Next(s, Timeout(d)).value.drains[d] == TimedOut
    ensures s.count == 0 ==>
              && Next(s, DrainStep(d)).Some? && Next(Next(s, DrainStep(d)).value, DrainStep(d)).Some?
              && Next(Next(s, DrainStep(d)).value, DrainStep(d)).value.drains[d] == ThroughDone
  {
  }

  /** A drain only waits for hooks whose context it has cancelled, and returns no earlier than that. */
  lemma WaitsOnCancelled(hasHook: bool, labels: seq<Label>, d: nat)
    requires Run(START.(hasHook := hasHook), labels).Some?
    requires var s := Run(START.(hasHook := hasHook), labels).value; d in s.drains && HasCancelled(s.drains[d])
    ensures var s := Run(START.(hasHook := hasHook), labels).value; s.closing && s.cancelled
  {
    StartInv(hasHook);
    CountIsLaunched(START.(hasHook := hasHook), labels);
  }

  /** A drain never waits on nothing: the helper can close done, or some launched hook can step. */
  lemma WaitingCanEnd(s: State, d: nat)
    requires Inv(s) && d in s.drains && s.drains[d] == Waiting
    ensures Next(s, DrainStep(d)).Some? || exists i :: i in Launched(s) && Next(s, FireStep(i)).Some?
  {
    if s.count != 0 {
      var i :| i in Launched(s);
      assert Next(s, FireStep(i)).Some?;
    }
  }
}
