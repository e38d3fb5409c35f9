/**
 The write gate: requests that change data enter and leave, a snapshot or restore freezes the gate and releases it.

 Threads interleave freely; a run is a list of the atomic actions they take (one mutex section, one atomic load or add,
 one lock operation each). Only Freeze and the release it hands out touch the flag, as in the PostgreSQL wiring; a flag
 that somebody else raised before the run is `outside`.
 */
module WriteGate {
  import opened Wrappers

  /** How far one call of Freeze has come. `frozen` tells a release from a failure. */
  datatype Progress =
    | Refused
    | Locked
    | Engaging
    | Draining
    | Waiting
    | Holding
    | Undoing(frozen: bool)
    | Unlocking(frozen: bool)
    | Closed(frozen: bool)

  datatype Gate = Gate(operation: Option<nat>, engaged: bool, inflight: int,
                       calls: map<nat, Progress>, requests: set<nat>, outside: bool)

  datatype Step =
    | TryLock(call: nat)
    | CheckEngaged(call: nat)
    | Engage(call: nat)
    | Poll(call: nat)
    | Tick(call: nat)
    | GiveUp(call: nat)
    | Disengage(call: nat)
    | Unlock(call: nat)
    | Release(call: nat)
    | TryEnter(request: nat)
    | Leave(request: nat)

  function Fresh(outside: bool): Gate {
    Gate(None, outside, 0, map[], {}, outside)
  }

  predicate At(g: Gate, call: nat, p: Progress) {
    call in g.calls && g.calls[call] == p
  }

  /** Freeze has handed out the release function of this call. */
  predicate HasRelease(g: Gate, call: nat) {
    At(g, call, Holding) || At(g, call, Undoing(true)) || At(g, call, Unlocking(true)) || At(g, call, Closed(true))
  }

  /** What each thread does next; a request leaves once, as TryEnter asks of its caller. */
  predicate Enabled(g: Gate, step: Step) {
    match step
    case TryLock(c) => c !in g.calls
    case CheckEngaged(c) => At(g, c, Locked)
    case Engage(c) => At(g, c, Engaging)
    case Poll(c) => At(g, c, Draining)
    case Tick(c) => At(g, c, Waiting)
    case GiveUp(c) => At(g, c, Waiting)
    case Disengage(c) => At(g, c, Undoing(true)) || At(g, c, Undoing(false))
    case Unlock(c) => At(g, c, Unlocking(true)) || At(g, c, Unlocking(false))
    case Release(c) => HasRelease(g, c)
    case TryEnter(r) => r !in g.requests
    case Leave(r) => r in g.requests
  }

  function Goto(g: Gate, call: nat, p: Progress): Gate {
    g.(calls := g.calls[call := p])
  }

  function Apply(g: Gate, step: Step): Gate
    requires Enabled(g, step)
  {
    match step
    case TryLock(c) => if g.operation.Some? then Goto(g, c, Refused) else Goto(g.(operation := Some(c)), c, Locked)
    case CheckEngaged(c) => Goto(g, c, if g.engaged then Unlocking(false) else Engaging)
    case Engage(c) => Goto(g.(engaged := true), c, Draining)
    case Poll(c) => Goto(g, c, if g.inflight == 0 then Holding else Waiting)
    case Tick(c) => Goto(g, c, Draining)
    case GiveUp(c) => Goto(g, c, Undoing(false))
    case Disengage(c) => Goto(g.(engaged := false), c, Unlocking(g.calls[c].frozen))
    case Unlock(c) => Goto(g.(operation := None), c, Closed(g.calls[c].frozen))
    case Release(c) => if g.calls[c] == Holding then Goto(g, c, Undoing(true)) else g
    case TryEnter(r) => if g.engaged then g else g.(inflight := g.inflight + 1, requests := g.requests + {r})
    case Leave(r) => g.(inflight := g.inflight - 1, requests := g.requests - {r})
  }

  /** The state a run ends in, None if some action of it was not possible. */
  function Run(g: Gate, steps: seq<Step>): Option<Gate>
    decreases |steps|
  {
    if steps == [] then Some(g)
    else
      match Run(g, steps[..|steps| - 1])
      case None => None
      case Some(before) => if Enabled(before, steps[|steps| - 1]) then Some(Apply(before, steps[|steps| - 1])) else None
  }

  predicate ValidRun(g: Gate, steps: seq<Step>) {
    Run(g, steps).Some?
  }

  function After(g: Gate, steps: seq<Step>): Gate
    requires ValidRun(g, steps)
  {
    Run(g, steps).value
  }

  /** The requests let in during a run. */
  function Admitted(g: Gate, steps: seq<Step>): (requests: set<nat>)
    requires ValidRun(g, steps)
    decreases |steps|
  {
    if steps == [] then {}
    else
      var last := steps[|steps| - 1];
      Admitted(g, steps[..|steps| - 1])
      + if last.TryEnter? && !After(g, steps[..|steps| - 1]).engaged then {last.request} else {}
  }

  // ----- What every run keeps -----

  predicate OwnsOperation(p: Progress) {
    p.Locked? || p.Engaging? || p.Draining? || p.Waiting? || p.Holding? || p.Undoing? || p.Unlocking?
  }

  predicate HasEngaged(p: Progress) {
    p.Draining? || p.Waiting? || p.Holding? || p.Undoing?
  }

  ghost predicate Sound(g: Gate) {
    && g.inflight == |g.requests|
    && (forall c :: c in g.calls ==> (OwnsOperation(g.calls[c]) <==> g.operation == Some(c)))
    && (g.operation.Some? ==> g.operation.value in g.calls)
    && (g.engaged <==> g.outside || (g.operation.Some? && HasEngaged(g.calls[g.operation.value])))
    && (g.outside ==> forall c :: c in g.calls ==> !HasEngaged(g.calls[c]) && g.calls[c] != Engaging)
    && (g.operation.Some? && g.calls[g.operation.value] == Holding ==> g.requests == {})
  }

  lemma {:induction false} StepKeepsSound(g: Gate, step: Step)
    requires Sound(g) && Enabled(g, step)
    ensures Sound(Apply(g, step)) && Apply(g, step).outside == g.outside
  {
    if step.TryEnter? || step.Leave? {
      RequestKeepsSound(g, step);
    } else {
      CallKeepsSound(g, step);
    }
  }

  lemma {:induction false} RequestKeepsSound(g: Gate, step: Step)
    requires Sound(g) && Enabled(g, step) && (step.TryEnter? || step.Leave?)
    ensures Sound(Apply(g, step)) && Apply(g, step).outside == g.outside
  {
  }

  lemma {:induction false} CallKeepsSound(g: Gate, step: Step)
    requires Sound(g) && Enabled(g, step) && !step.TryEnter? && !step.Leave?
    ensures Sound(Apply(g, step)) && Apply(g, step).outside == g.outside
  {
    if step.Poll? && g.inflight == 0 {
      assert |g.requests| == 0;
    }
  }

  lemma {:induction false} RunKeepsSound(g: Gate, steps: seq<Step>)
    requires Sound(g) && ValidRun(g, steps)
    ensures Sound(After(g, steps)) && After(g, steps).outside == g.outside
    decreases |steps|
  {
    if steps != [] {
      RunKeepsSound(g, steps[..|steps| - 1]);
      StepKeepsSound(After(g, steps[..|steps| - 1]), steps[|steps| - 1]);
    }
  }

  // ----- Exclusion -----

  /**
   Main result: once a Freeze has succeeded, whatever the other threads do, no request is in flight and none is let in
   until its own release runs. Old releases may be called again any number of times meanwhile.
   */
  lemma {:induction false} HeldUntilReleased(g: Gate, steps: seq<Step>, call: nat)
    requires Sound(g) && ValidRun(g, steps) && At(g, call, Holding)
    requires Release(call) !in steps
    ensures var now := After(g, steps);
            At(now, call, Holding) && now.engaged && now.requests == {} && now.inflight == 0 && Admitted(g, steps) == {}
    decreases |steps|
  {
    if steps != [] {
      HeldUntilReleased(g, steps[..|steps| - 1], call);
      RunKeepsSound(g, steps[..|steps| - 1]);
      HeldStep(After(g, steps[..|steps| - 1]), steps[|steps| - 1], call);
    }
  }

  lemma HeldStep(g: Gate, step: Step, call: nat)
    requires Sound(g) && Enabled(g, step) && At(g, call, Holding) && step != Release(call)
    ensures var now := Apply(g, step); At(now, call, Holding) && now.engaged && now.requests == {} && now.inflight == 0
    ensures g.engaged
  {
  }

  /** In every reachable state at most one Freeze is held, and while one is, nothing is in flight. */
  lemma FreezesExclude(outside: bool, steps: seq<Step>, a: nat, b: nat)
    requires ValidRun(Fresh(outside), steps)
    requires At(After(Fresh(outside), steps), a, Holding)
    ensures var now := After(Fresh(outside), steps);
            && !outside && now.engaged && now.requests == {} && now.inflight == 0 && now.operation == Some(a)
            && (At(now, b, Holding) ==> a == b)
  {
    RunKeepsSound(Fresh(outside), steps);
  }

  lemma RefusedOwnsNothing(outside: bool, steps: seq<Step>, call: nat)
    requires ValidRun(Fresh(outside), steps) && At(After(Fresh(outside), steps), call, Refused)
    ensures After(Fresh(outside), steps).operation != Some(call)
  {
    RunKeepsSound(Fresh(outside), steps);
  }

  // ----- Failing and releasing -----

  /**
   The last action of a Freeze that got the operation lock and failed, and of a release: the lock is free again and the
   flag is what it would be without the call, raised only if somebody outside had raised it.
   */
  lemma ClosingUndoesItself(outside: bool, steps: seq<Step>, call: nat, frozen: bool)
    requires ValidRun(Fresh(outside), steps) && At(After(Fresh(outside), steps), call, Unlocking(frozen))
    ensures var now := Apply(After(Fresh(outside), steps), Unlock(call));
            now.operation == None && now.engaged == outside && At(now, call, Closed(frozen))
  {
    RunKeepsSound(Fresh(outside), steps);
  }

  /** A Freeze that gives up after its deadline can always finish undoing, with nobody's help. */
  lemma GivingUpReopens(outside: bool, steps: seq<Step>, call: nat)
    requires ValidRun(Fresh(outside), steps) && At(After(Fresh(outside), steps), call, Waiting)
    ensures var undo := [GiveUp(call), Disengage(call), Unlock(call)];
            && ValidRun(Fresh(outside), steps + undo)
            && var now := After(Fresh(outside), steps + undo);
               now.operation == None && !now.engaged && now.requests == After(Fresh(outside), steps).requests
  {
    RunKeepsSound(Fresh(outside), steps);
    var a, b := steps + [GiveUp(call)], steps + [GiveUp(call), Disengage(call)];
    RunSnoc(Fresh(outside), steps, GiveUp(call));
    assert a + [Disengage(call)] == b;
    RunSnoc(Fresh(outside), a, Disengage(call));
    assert b + [Unlock(call)] == steps + [GiveUp(call), Disengage(call), Unlock(call)];
    RunSnoc(Fresh(outside), b, Unlock(call));
  }

  /** The release of a held Freeze opens the gate and frees the operation lock. */
  lemma {:induction false} ReleasingReopens(outside: bool, steps: seq<Step>, call: nat)
    requires ValidRun(Fresh(outside), steps) && At(After(Fresh(outside), steps), call, Holding)
    ensures var release := [Release(call), Disengage(call), Unlock(call)];
            && ValidRun(Fresh(outside), steps + release)
            && var now := After(Fresh(outside), steps + release);
               now.operation == None && !now.engaged && At(now, call, Closed(true))
  {
    RunKeepsSound(Fresh(outside), steps);
    var a, b := steps + [Release(call)], steps + [Release(call), Disengage(call)];
    RunSnoc(Fresh(outside), steps, Release(call));
    assert a + [Disengage(call)] == b;
    RunSnoc(Fresh(outside), a, Disengage(call));
    assert b + [Unlock(call)] == steps + [Release(call), Disengage(call), Unlock(call)];
    RunSnoc(Fresh(outside), b, Unlock(call));
  }

  lemma RunSnoc(g: Gate, steps: seq<Step>, step: Step)
    requires ValidRun(g, steps) && Enabled(After(g, steps), step)
    ensures ValidRun(g, steps + [step]) && After(g, steps + [step]) == Apply(After(g, steps), step)
  {
    assert (steps + [step])[..|steps|] == steps;
  }

  // ----- Letting through -----

  /** Some Freeze has raised the flag and not lowered it yet. */
  ghost predicate IsFreezing(g: Gate) {
    exists c :: c in g.calls && (g.calls[c] in {Draining, Waiting, Holding} || g.calls[c].Undoing?)
  }

  /** A request is let in exactly if the flag is not raised from outside and no Freeze is under way; it changes nothing else. */
  lemma OpenGateAdmits(outside: bool, steps: seq<Step>, r: nat)
    requires ValidRun(Fresh(outside), steps) && r !in After(Fresh(outside), steps).requests
    ensures ValidRun(Fresh(outside), steps + [TryEnter(r)])
    ensures var g, now := After(Fresh(outside), steps), After(Fresh(outside), steps + [TryEnter(r)]);
            now == if outside || IsFreezing(g) then g else g.(requests := g.requests + {r}, inflight := g.inflight + 1)
    ensures r in Admitted(Fresh(outside), steps + [TryEnter(r)]) <==>
            r in Admitted(Fresh(outside), steps) || !(outside || IsFreezing(After(Fresh(outside), steps)))
  {
    RunKeepsSound(Fresh(outside), steps);
    RunSnoc(Fresh(outside), steps, TryEnter(r));
    assert (steps + [TryEnter(r)])[..|steps|] == steps;
    var g := After(Fresh(outside), steps);
    if IsFreezing(g) {
      var c :| c in g.calls && (g.calls[c] in {Draining, Waiting, Holding} || g.calls[c].Undoing?);
      assert g.operation == Some(c);
    }
    if g.engaged && !outside {
      assert g.operation.value in g.calls;
    }
  }

  /** A request that leaves is counted out. */
  lemma LeavingCountsOut(outside: bool, steps: seq<Step>, r: nat)
    requires ValidRun(Fresh(outside), steps) && r in After(Fresh(outside), steps).requests
    ensures ValidRun(Fresh(outside), steps + [Leave(r)])
    ensures var g, now := After(Fresh(outside), steps), After(Fresh(outside), steps + [Leave(r)]);
            now == g.(requests := g.requests - {r}, inflight := |g.requests - {r}|)
  {
    RunKeepsSound(Fresh(outside), steps);
    RunSnoc(Fresh(outside), steps, Leave(r));
  }

  /**
   A Freeze that nobody disturbs: refused if another one is on, a failure if the flag is up, held at once if nothing is in
   flight, and otherwise waiting with the flag up.
   */
  lemma UndisturbedFreeze(outside: bool, steps: seq<Step>, call: nat)
    requires ValidRun(Fresh(outside), steps) && call !in After(Fresh(outside), steps).calls
    ensures var g := After(Fresh(outside), steps);
            var taken := if g.operation.Some? then [TryLock(call)]
                         else if outside then [TryLock(call), CheckEngaged(call), Unlock(call)]
                         else [TryLock(call), CheckEngaged(call), Engage(call), Poll(call)];
            && ValidRun(Fresh(outside), steps + taken)
            && var now := After(Fresh(outside), steps + taken);
               && now.requests == g.requests
               && At(now, call, if g.operation.Some? then Refused else if outside then Closed(false)
                                else if g.requests == {} then Holding else Waiting)
               && (g.operation == None ==> now.engaged && now.operation == if outside then None else Some(call))
  {
    RunKeepsSound(Fresh(outside), steps);
    var g := After(Fresh(outside), steps);
    RunSnoc(Fresh(outside), steps, TryLock(call));
    if g.operation == None {
      var a, b := steps + [TryLock(call)], steps + [TryLock(call), CheckEngaged(call)];
      assert a + [CheckEngaged(call)] == b;
      RunSnoc(Fresh(outside), a, CheckEngaged(call));
      if outside {
        assert b + [Unlock(call)] == steps + [TryLock(call), CheckEngaged(call), Unlock(call)];
        RunSnoc(Fresh(outside), b, Unlock(call));
      } else {
        var c := steps + [TryLock(call), CheckEngaged(call), Engage(call)];
        assert b + [Engage(call)] == c;
        RunSnoc(Fresh(outside), b, Engage(call));
        assert c + [Poll(call)] == steps + [TryLock(call), CheckEngaged(call), Engage(call), Poll(call)];
        RunSnoc(Fresh(outside), c, Poll(call));
      }
    }
  }

  /** While the flag is raised from outside, every Freeze fails and none of them lowers it. */
  lemma {:induction false} OutsideStaysEngaged(steps: seq<Step>, call: nat)
    requires ValidRun(Fresh(true), steps)
    ensures After(Fresh(true), steps).engaged && !HasRelease(After(Fresh(true), steps), call)
    ensures Admitted(Fresh(true), steps) == {}
  {
    RunKeepsSound(Fresh(true), steps);
    NothingFrozenOutside(steps, call);
    NothingAdmittedOutside(steps);
  }

  lemma {:induction false} NothingAdmittedOutside(steps: seq<Step>)
    requires ValidRun(Fresh(true), steps)
    ensures Admitted(Fresh(true), steps) == {}
    decreases |steps|
  {
    if steps != [] {
      NothingAdmittedOutside(steps[..|steps| - 1]);
      RunKeepsSound(Fresh(true), steps[..|steps| - 1]);
    }
  }

  lemma {:induction false} NothingFrozenOutside(steps: seq<Step>, call: nat)
    requires ValidRun(Fresh(true), steps)
    ensures !HasRelease(After(Fresh(true), steps), call)
    decreases |steps|
  {
    if steps != [] {
      NothingFrozenOutside(steps[..|steps| - 1], call);
      RunKeepsSound(Fresh(true), steps[..|steps| - 1]);
      StaysUnfrozen(After(Fresh(true), steps[..|steps| - 1]), steps[|steps| - 1], call);
    }
  }

  lemma StaysUnfrozen(g: Gate, step: Step, call: nat)
    requires Sound(g) && Enabled(g, step) && g.outside && !HasRelease(g, call)
    ensures !HasRelease(Apply(g, step), call)
  {
  }

  // ----- The gate as the source has it -----

  /**
   The gate with the threads that use it. Between any two actions of a method the other threads may run (`Others`);
   `trace` is the run so far.
   */
  class SharedGate {
    var operation: Option<nat>
    var engaged: bool
    var inflight: int
    var calls: map<nat, Progress>
    var requests: set<nat>
    const outside: bool
    ghost var trace: seq<Step>

    function State(): Gate
      reads this
    {
      Gate(operation, engaged, inflight, calls, requests, outside)
    }

    ghost predicate Valid()
      reads this
    {
      Run(Fresh(outside), trace) == Some(State())
    }

    constructor (raised: bool)
      ensures Valid() && trace == [] && outside == raised
    {
      outside := raised;
      operation, engaged, inflight, calls, requests := None, raised, 0, map[], {};
      trace := [];
    }

    /** One atomic action of some thread. */
    method Do(step: Step)
      requires Valid() && Enabled(State(), step)
      modifies this
      ensures Valid() && trace == old(trace) + [step]
      ensures State() == Apply(old(State()), step)
    {
      var g := Apply(State(), step);
      RunSnoc(Fresh(outside), trace, step);
      operation, engaged, inflight, calls, requests := g.operation, g.engaged, g.inflight, g.calls, g.requests;
      trace := trace + [step];
    }

    /** Any number of actions of threads other than Freeze call `me`. */
    method Others(me: nat)
      requires Valid() && me in calls
      modifies this
      ensures Valid() && At(State(), me, old(calls[me]))
    {
      var left: nat :| true;
      while left > 0
        invariant Valid() && At(State(), me, old(calls[me]))
      {
        var step: Step := *;
        if Enabled(State(), step) && !ActsFor(step, me) {
          Do(step);
        }
        left := left - 1;
      }
    }

    /**
     Freeze, other threads running between its actions. On success the gate is held by this call; on failure the call
     holds nothing, and if it had got the operation lock then the lock is free and the flag is as outside left it.
     */
    method Freeze(me: nat, patience: nat) returns (ok: bool)
      requires Valid() && me !in calls
      modifies this
      ensures Valid()
      ensures ok ==> At(State(), me, Holding) && engaged && requests == {} && inflight == 0
      ensures !ok ==> operation != Some(me)
      ensures !ok ==> At(State(), me, Refused) || At(State(), me, Closed(false))
      ensures At(State(), me, Closed(false)) ==> operation == None && engaged == outside
    {
      Do(TryLock(me));
      ok := calls[me] == Locked;
      if ok {
        ok := EngageAndDrain(me, patience);
        if ok {
          FreezesExclude(outside, trace, me, me);
        } else {
          Close(me, false);
        }
      } else {
        RefusedOwnsNothing(outside, trace, me);
      }
    }

    /** Freeze behind the operation lock: the check, the flag, the wait. */
    method EngageAndDrain(me: nat, patience: nat) returns (ok: bool)
      requires Valid() && At(State(), me, Locked)
      modifies this
      ensures Valid() && At(State(), me, if ok then Holding else Unlocking(false))
    {
      Others(me);
      Do(CheckEngaged(me));
      Others(me);
      ok := calls[me] == Engaging;
      if ok {
        Do(Engage(me));
        ok := Drain(me, patience);
      }
    }

    /** The release function that a successful Freeze hands out, called for the first time. */
    method Thaw(me: nat)
      requires Valid() && At(State(), me, Holding)
      modifies this
      ensures Valid() && At(State(), me, Closed(true)) && operation == None && engaged == outside
    {
      Do(Release(me));
      Others(me);
      Do(Disengage(me));
      Others(me);
      Close(me, true);
    }

    method Close(me: nat, frozen: bool)
      requires Valid() && At(State(), me, Unlocking(frozen))
      modifies this
      ensures Valid() && At(State(), me, Closed(frozen)) && operation == None && engaged == outside
    {
      ClosingUndoesItself(outside, trace, me, frozen);
      Do(Unlock(me));
    }

    /** The polling loop: the context or the timer ends it after at most `patience` ticks. */
    method Drain(me: nat, patience: nat) returns (ok: bool)
      requires Valid() && At(State(), me, Draining)
      modifies this
      ensures Valid()
      ensures At(State(), me, if ok then Holding else Unlocking(false))
    {
      var ticks := 0;
      while true
        invariant Valid() && At(State(), me, Draining)
        decreases patience - ticks
      {
        Others(me);
        Do(Poll(me));
        if calls[me] == Holding { return true; }
        Others(me);
        var cancelled := *;
        if cancelled || ticks >= patience { break; }
        Do(Tick(me));
        ticks := ticks + 1;
      }
      Do(GiveUp(me));
      Others(me);
      Do(Disengage(me));
      Others(me);
      ok := false;
    }
  }

  predicate ActsFor(step: Step, call: nat) {
    !step.TryEnter? && !step.Leave? && step.call == call
  }
}
