/**
 The optimistic preference writer of the browser (frontend/src/stores/userSettings.ts), with the sessions of App.tsx and the
 server it talks to.

 One field is modelled. Each write shows its value at once and queues a PUT; PUTs run one at a time, in order. A session
 sends a GET for the stored value when it starts; whenever the answer arrives it replaces the shown value and starts a new
 epoch, whoever is logged in by then. Logging out starts one with the default. A failed PUT changes nothing on the server.
 */
module Preferences {
  import opened Wrappers

  type User = nat
  type Value = string

  const DEFAULT: Value := "en"

  datatype Write = Write(value: Value, seqNo: nat, epoch: nat, user: User)

  /** A PUT under way; it went out with the session of that moment, if any. `applied` is the server's side of it. */
  datatype Flight = Flight(write: Write, user: Option<User>, applied: bool)

  /** A GET under way, and what the server has read for it. */
  datatype Load = Load(user: User, sample: Option<Value>)

  /** `session` is who the server takes requests from, `user` whom the browser shows; loads are numbered as sessions start. */
  datatype State = State(seqNo: nat, epoch: nat, persisted: Value, visible: Value,
                         queue: seq<Write>, flight: Option<Flight>,
                         session: Option<User>, user: Option<User>,
                         loads: map<nat, Load>, started: nat,
                         server: map<User, Value>)

  datatype Step =
    | WritePref(value: Value)
    | RunNext
    | ServerApplies
    | PatchSucceeds
    | PatchFails
    | SessionStarts(account: User)
    | SettingsRead(id: nat)
    | LoadAnswers(id: nat)
    | LoadFails(id: nat)
    | SessionEnds
    | SessionRenews
    | Cleared

  /** What writePref reports for the write whose turn a step ends. */
  datatype Report = Saved | Skipped | Rejected

  function Stored(s: State, u: User): Value {
    if u in s.server then s.server[u] else DEFAULT
  }

  function Initial(server: map<User, Value>): State {
    State(0, 0, DEFAULT, DEFAULT, [], None, None, None, map[], 0, server)
  }

  predicate Enabled(s: State, step: Step) {
    match step
    case WritePref(_) => s.user.Some?
    case RunNext => s.flight == None && s.queue != []
    case ServerApplies => s.flight.Some? && !s.flight.value.applied && s.flight.value.user.Some?
    case PatchSucceeds => s.flight.Some? && s.flight.value.applied
    case PatchFails => s.flight.Some? && !s.flight.value.applied
    case SessionStarts(_) => s.session == None && s.user == None
    case SettingsRead(id) => id in s.loads && s.loads[id].sample == None
    case LoadAnswers(id) => id in s.loads && s.loads[id].sample.Some?
    case LoadFails(id) => id in s.loads
    case SessionEnds => s.session.Some?
    case SessionRenews => s.session == None && s.user.Some?
    case Cleared => s.session == None && s.user.Some?
  }

  /** resetPrefWriter, and the value the store shows with it. */
  function Reset(s: State, value: Value): State {
    s.(seqNo := 0, epoch := s.epoch + 1, persisted := value, visible := value)
  }

  function Apply(s: State, step: Step): State
    requires Enabled(s, step)
  {
    match step
    case WritePref(v) =>
      s.(seqNo := s.seqNo + 1, visible := v, queue := s.queue + [Write(v, s.seqNo + 1, s.epoch, s.user.value)])
    case RunNext =>
      var w := s.queue[0];
      if w.epoch != s.epoch then s.(queue := s.queue[1..])
      else s.(queue := s.queue[1..], flight := Some(Flight(w, s.session, false)))
    case ServerApplies =>
      var f := s.flight.value;
      s.(flight := Some(f.(applied := true)), server := s.server[f.user.value := f.write.value])
    case PatchSucceeds =>
      var w := s.flight.value.write;
      s.(flight := None, persisted := if w.epoch == s.epoch then w.value else s.persisted)
    case PatchFails =>
      var w := s.flight.value.write;
      s.(flight := None, visible := if w.epoch == s.epoch && w.seqNo == s.seqNo then s.persisted else s.visible)
    case SessionStarts(u) => s.(session := Some(u), user := Some(u), loads := s.loads[s.started := Load(u, None)], started := s.started + 1)
    case SettingsRead(id) => s.(loads := s.loads[id := s.loads[id].(sample := Some(Stored(s, s.loads[id].user)))])
    case LoadAnswers(id) => Reset(s.(loads := s.loads - {id}), s.loads[id].sample.value)
    case LoadFails(id) => s.(loads := s.loads - {id})
    case SessionEnds => s.(session := None)
    case SessionRenews => s.(session := s.user)
    case Cleared => Reset(s.(user := None), DEFAULT)
  }

  function Run(s: State, steps: seq<Step>): Option<State>
    decreases |steps|
  {
    if steps == [] then Some(s)
    else
      match Run(s, steps[..|steps| - 1])
      case None => None
      case Some(before) => if Enabled(before, steps[|steps| - 1]) then Some(Apply(before, steps[|steps| - 1])) else None
  }

  /** The state before the last step of a run. */
  function Before(s: State, steps: seq<Step>): (before: State)
    requires steps != [] && Run(s, steps).Some?
    ensures Enabled(before, steps[|steps| - 1]) && Run(s, steps) == Some(Apply(before, steps[|steps| - 1]))
  {
    Run(s, steps[..|steps| - 1]).value
  }

  // ----- What every run keeps -----

  predicate Current(s: State, w: Write) {
    w.epoch == s.epoch
  }

  /** A write of this epoch is waiting in the queue. */
  predicate Waiting(s: State) {
    s.queue != [] && Current(s, s.queue[|s.queue| - 1])
  }

  predicate CurrentFlight(s: State) {
    s.flight.Some? && Current(s, s.flight.value.write)
  }

  predicate OwnWrite(s: State, w: Write) {
    w.epoch <= s.epoch && (Current(s, w) ==> w.seqNo <= s.seqNo && s.user == Some(w.user))
  }

  predicate Ordered(s: State, a: Write, b: Write) {
    a.epoch <= b.epoch && (a.epoch == b.epoch ==> a.seqNo < b.seqNo)
  }

  /** The queue is in order of writing, behind the PUT under way. */
  predicate Queued(s: State) {
    && (forall i :: 0 <= i < |s.queue| ==> OwnWrite(s, s.queue[i]))
    && (forall i, j :: 0 <= i < j < |s.queue| ==> Ordered(s, s.queue[i], s.queue[j]))
    && (s.flight.Some? ==> OwnWrite(s, s.flight.value.write) && s.flight.value.user in {None, Some(s.flight.value.write.user)})
    && (s.flight.Some? ==> forall i :: 0 <= i < |s.queue| ==> Ordered(s, s.flight.value.write, s.queue[i]))
  }

  /** The last write of this epoch is the one that is shown; without one, the confirmed value is. */
  predicate Shown(s: State) {
    if Waiting(s) then s.queue[|s.queue| - 1].seqNo == s.seqNo && s.visible == s.queue[|s.queue| - 1].value
    else if CurrentFlight(s) then s.flight.value.write.seqNo == s.seqNo && s.visible == s.flight.value.write.value
    else s.visible == s.persisted
  }

  predicate Sound(s: State) {
    Queued(s) && Shown(s) && (s.session.Some? ==> s.session == s.user)
  }

  lemma {:induction false} StepKeepsSound(s: State, step: Step)
    requires Sound(s) && Enabled(s, step)
    ensures Sound(Apply(s, step))
  {
    match step
    case WritePref(v) => WriteKeepsSound(s, v);
    case RunNext => NextKeepsSound(s);
    case LoadAnswers(_) => ResetKeepsSound(s, step);
    case Cleared => ResetKeepsSound(s, step);
    case _ =>
  }

  lemma {:induction false} ResetKeepsSound(s: State, step: Step)
    requires Sound(s) && Enabled(s, step) && (step.LoadAnswers? || step.Cleared?)
    ensures Sound(Apply(s, step))
  {
  }

  lemma WriteKeepsSound(s: State, value: Value)
    requires Sound(s) && s.user.Some?
    ensures Sound(Apply(s, WritePref(value)))
  {
    var t := Apply(s, WritePref(value));
    forall i | 0 <= i < |s.queue|
      ensures t.queue[i] == s.queue[i] && Ordered(t, t.queue[i], t.queue[|s.queue|])
    {
      assert OwnWrite(s, s.queue[i]);
    }
  }

  lemma {:induction false} NextKeepsSound(s: State)
    requires Sound(s) && s.flight == None && s.queue != []
    ensures Sound(Apply(s, RunNext))
  {
    var t := Apply(s, RunNext);
    forall i | 0 <= i < |t.queue|
      ensures t.queue[i] == s.queue[i + 1] && Ordered(s, s.queue[0], t.queue[i])
    {
    }
    if t.queue != [] {
      assert t.queue[|t.queue| - 1] == s.queue[|s.queue| - 1];
    }
  }

  lemma {:induction false} RunKeepsSound(s: State, steps: seq<Step>)
    requires Sound(s) && Run(s, steps).Some?
    ensures Sound(Run(s, steps).value)
    decreases |steps|
  {
    if steps != [] {
      RunKeepsSound(s, steps[..|steps| - 1]);
      StepKeepsSound(Before(s, steps), steps[|steps| - 1]);
    }
  }

  predicate Quiet(s: State) {
    s.queue == [] && s.flight == None
  }

  /** Main result: over every interleaving, once no write is pending the shown value is the last confirmed or loaded one. */
  lemma QuietShowsConfirmed(server: map<User, Value>, steps: seq<Step>)
    requires Run(Initial(server), steps).Some? && Quiet(Run(Initial(server), steps).value)
    ensures var s := Run(Initial(server), steps).value; s.visible == s.persisted
  {
    RunKeepsSound(Initial(server), steps);
  }

  /** No PUT goes out in a session of another user than the one who made the write; it may go out when the session is over. */
  lemma PutsStayInTheirSession(server: map<User, Value>, steps: seq<Step>)
    requires Run(Initial(server), steps).Some? && Enabled(Run(Initial(server), steps).value, RunNext)
    ensures var s := Run(Initial(server), steps).value;
            var f := Apply(s, RunNext).flight;
            f.Some? ==>
              && f.value.write == s.queue[0] && Current(s, f.value.write) && s.user == Some(f.value.write.user)
              && f.value.user == s.session && s.session in {None, Some(f.value.write.user)}
  {
    RunKeepsSound(Initial(server), steps);
  }

  // ----- The server -----

  /** The value of the last reset: what the last answered GET brought, or the default. */
  function Base(server: map<User, Value>, steps: seq<Step>): Value
    requires Run(Initial(server), steps).Some?
    decreases |steps|
  {
    if steps == [] then DEFAULT
    else
      match steps[|steps| - 1]
      case LoadAnswers(id) => Before(Initial(server), steps).loads[id].sample.value
      case Cleared => DEFAULT
      case _ => Base(server, steps[..|steps| - 1])
  }

  /** Since the last reset, a PUT of the new epoch has taken effect. */
  predicate Confirmed(server: map<User, Value>, steps: seq<Step>)
    requires Run(Initial(server), steps).Some?
    decreases |steps|
  {
    steps != [] &&
    match steps[|steps| - 1]
    case LoadAnswers(_) => false
    case Cleared => false
    case ServerApplies => CurrentFlight(Before(Initial(server), steps)) || Confirmed(server, steps[..|steps| - 1])
    case _ => Confirmed(server, steps[..|steps| - 1])
  }

  /** The value of the user's last PUT that took effect in the run, or what the server began with. */
  function LastTaken(server: map<User, Value>, steps: seq<Step>, u: User): Value
    requires Run(Initial(server), steps).Some?
    decreases |steps|
  {
    if steps == [] then (if u in server then server[u] else DEFAULT)
    else if steps[|steps| - 1].ServerApplies? && Before(Initial(server), steps).flight.value.user == Some(u) then
      Before(Initial(server), steps).flight.value.write.value
    else LastTaken(server, steps[..|steps| - 1], u)
  }

  lemma {:induction false} LastTakenIsStored(server: map<User, Value>, steps: seq<Step>, u: User)
    requires Run(Initial(server), steps).Some?
    ensures LastTaken(server, steps, u) == Stored(Run(Initial(server), steps).value, u)
    decreases |steps|
  {
    if steps != [] {
      LastTakenIsStored(server, steps[..|steps| - 1], u);
    }
  }

  /** What is known of the server: once a PUT of the epoch has taken effect, it has the confirmed value, or the one just applied. */
  predicate Follows(s: State, base: Value, confirmed: bool) {
    if confirmed then
      && s.user.Some? && (s.flight.Some? ==> CurrentFlight(s))
      && Stored(s, s.user.value) == if s.flight.Some? && s.flight.value.applied then s.flight.value.write.value else s.persisted
    else s.persisted == base && !(CurrentFlight(s) && s.flight.value.applied)
  }

  lemma StepFollows(s: State, step: Step, base: Value, confirmed: bool)
    requires Sound(s) && Enabled(s, step) && Follows(s, base, confirmed)
    requires !step.LoadAnswers? && !step.Cleared?
    ensures Follows(Apply(s, step), base, confirmed || (step.ServerApplies? && CurrentFlight(s)))
  {
  }

  lemma {:induction false} RunFollows(server: map<User, Value>, steps: seq<Step>)
    requires Run(Initial(server), steps).Some?
    ensures Follows(Run(Initial(server), steps).value, Base(server, steps), Confirmed(server, steps))
    ensures Sound(Run(Initial(server), steps).value)
    decreases |steps|
  {
    RunKeepsSound(Initial(server), steps);
    if steps != [] {
      var last := steps[|steps| - 1];
      RunFollows(server, steps[..|steps| - 1]);
      if last.LoadAnswers? || last.Cleared? {
        ResetFollows(Before(Initial(server), steps), last);
      } else {
        StepFollows(Before(Initial(server), steps), last, Base(server, steps[..|steps| - 1]), Confirmed(server, steps[..|steps| - 1]));
      }
    }
  }

  lemma ResetFollows(s: State, step: Step)
    requires Sound(s) && Enabled(s, step) && (step.LoadAnswers? || step.Cleared?)
    ensures Follows(Apply(s, step), if step.Cleared? then DEFAULT else s.loads[step.id].sample.value, false)
  {
  }

  /** No PUT of the load's user has taken effect with another value since the server read the settings for it. */
  predicate Unbroken(server: map<User, Value>, steps: seq<Step>, id: nat)
    requires Run(Initial(server), steps).Some?
    decreases |steps|
  {
    steps != [] &&
    var before := Before(Initial(server), steps);
    match steps[|steps| - 1]
    case SettingsRead(read) => read == id || Unbroken(server, steps[..|steps| - 1], id)
    case ServerApplies =>
      && Unbroken(server, steps[..|steps| - 1], id)
      && (id in before.loads && Some(before.loads[id].user) == before.flight.value.user ==>
            before.loads[id].sample == Some(before.flight.value.write.value))
    case _ => Unbroken(server, steps[..|steps| - 1], id)
  }

  /**
   The last reset was the answer to a GET of the user who is logged in, and since the server read the settings for it no PUT
   of that user from an earlier epoch has taken effect with another value.
   */
  predicate LoadStands(server: map<User, Value>, steps: seq<Step>)
    requires Run(Initial(server), steps).Some?
    decreases |steps|
  {
    steps != [] &&
    var before := Before(Initial(server), steps);
    match steps[|steps| - 1]
    case LoadAnswers(id) => before.user == Some(before.loads[id].user) && Unbroken(server, steps[..|steps| - 1], id)
    case Cleared => false
    case ServerApplies =>
      && LoadStands(server, steps[..|steps| - 1])
      && (CurrentFlight(before) || before.flight.value.user != before.user || before.flight.value.write.value == Base(server, steps))
    case _ => LoadStands(server, steps[..|steps| - 1])
  }

  /** What the server has read for the load is what it has. */
  predicate SampleHolds(s: State, id: nat) {
    id < s.started && (id in s.loads ==> s.loads[id].sample == Some(Stored(s, s.loads[id].user)))
  }

  lemma StepKeepsSample(s: State, step: Step, id: nat)
    requires Enabled(s, step) && SampleHolds(s, id)
    requires step.ServerApplies? && id in s.loads && Some(s.loads[id].user) == s.flight.value.user ==>
               s.loads[id].sample == Some(s.flight.value.write.value)
    ensures SampleHolds(Apply(s, step), id)
  {
  }

  lemma ReadingHolds(s: State, id: nat)
    requires Enabled(s, SettingsRead(id)) && id < s.started
    ensures SampleHolds(Apply(s, SettingsRead(id)), id)
  {
  }

  lemma {:induction false} UnbrokenIsStored(server: map<User, Value>, steps: seq<Step>, id: nat)
    requires Run(Initial(server), steps).Some? && Unbroken(server, steps, id)
    ensures SampleHolds(Run(Initial(server), steps).value, id)
    decreases |steps|
  {
    hide SampleHolds, Apply, Stored;
    var init, last := steps[..|steps| - 1], steps[|steps| - 1];
    LoadsAreNumbered(server, init);
    if last == SettingsRead(id) {
      ReadingHolds(Before(Initial(server), steps), id);
    } else {
      UnbrokenIsStored(server, init, id);
      StepKeepsSample(Before(Initial(server), steps), last, id);
    }
  }

  lemma {:induction false} LoadsAreNumbered(server: map<User, Value>, steps: seq<Step>)
    requires Run(Initial(server), steps).Some?
    ensures var s := Run(Initial(server), steps).value; forall id :: id in s.loads ==> id < s.started
    decreases |steps|
  {
    if steps != [] {
      LoadsAreNumbered(server, steps[..|steps| - 1]);
    }
  }

  lemma AnswerIsStored(s: State, id: nat)
    requires Enabled(s, LoadAnswers(id)) && s.user == Some(s.loads[id].user)
    requires s.loads[id].sample == Some(Stored(s, s.loads[id].user))
    ensures var t := Apply(s, LoadAnswers(id));
            t.user.Some? && s.loads[id].sample.Some? && s.loads[id].sample.value == Stored(t, t.user.value)
  {
  }

  lemma StandingLoadStep(s: State, step: Step, base: Value, confirmed: bool)
    requires Sound(s) && Enabled(s, step) && Follows(s, base, confirmed) && !step.LoadAnswers? && !step.Cleared?
    requires s.user.Some? && (confirmed || base == Stored(s, s.user.value))
    requires step.ServerApplies? ==> CurrentFlight(s) || s.flight.value.user != s.user || s.flight.value.write.value == base
    ensures var t := Apply(s, step);
            t.user.Some? && (confirmed || (step.ServerApplies? && CurrentFlight(s)) || base == Stored(t, t.user.value))
  {
  }

  lemma {:induction false} StandingLoadIsStored(server: map<User, Value>, steps: seq<Step>)
    requires Run(Initial(server), steps).Some? && LoadStands(server, steps)
    ensures var s := Run(Initial(server), steps).value;
            s.user.Some? && (Confirmed(server, steps) || Base(server, steps) == Stored(s, s.user.value))
    decreases |steps|
  {
    hide Sound, Follows, Apply, Stored, CurrentFlight;
    var init, last := steps[..|steps| - 1], steps[|steps| - 1];
    RunFollows(server, init);
    if last.LoadAnswers? {
      UnbrokenIsStored(server, init, last.id);
      AnswerIsStored(Before(Initial(server), steps), last.id);
    } else {
      StandingLoadIsStored(server, init);
      StandingLoadStep(Before(Initial(server), steps), last, Base(server, init), Confirmed(server, init));
    }
  }

  /**
   Main result: once no write is pending, browser and server agree exactly when a PUT of the epoch has taken effect, or the
   last loaded value (the default, without one) is what the user's last effective PUT left. They do in particular when the
   last load was this user's and no older PUT has taken effect with another value since the server answered it.
   */
  lemma QuietAgreesWithServer(server: map<User, Value>, steps: seq<Step>, u: User)
    requires Run(Initial(server), steps).Some?
    requires var s := Run(Initial(server), steps).value; Quiet(s) && s.user == Some(u)
    ensures var s := Run(Initial(server), steps).value;
            && s.visible == s.persisted
            && (s.visible == Stored(s, u) <==> Confirmed(server, steps) || Base(server, steps) == LastTaken(server, steps, u))
            && (LoadStands(server, steps) ==> s.visible == Stored(s, u))
  {
    RunFollows(server, steps);
    LastTakenIsStored(server, steps, u);
    if LoadStands(server, steps) {
      StandingLoadIsStored(server, steps);
    }
  }

  // ----- Each part of the condition is needed -----

  /** A quiet run after which the browser shows the user a value the server does not have. */
  predicate Misleads(server: map<User, Value>, steps: seq<Step>, u: User) {
    && Run(Initial(server), steps).Some?
    && var s := Run(Initial(server), steps).value;
       Quiet(s) && s.loads == map[] && s.session == s.user == Some(u) && s.visible == s.persisted != Stored(s, u)
  }

  lemma GoOn(server: map<User, Value>, steps: seq<Step>, step: Step) returns (more: seq<Step>)
    requires Run(Initial(server), steps).Some? && Enabled(Run(Initial(server), steps).value, step)
    ensures Run(Initial(server), more) == Some(Apply(Run(Initial(server), steps).value, step))
  {
    more := steps + [step];
    assert more[..|steps|] == steps;
  }

  /** A PUT made before the answer to the session's GET arrives takes effect, is reported as skipped, and is not shown. */
  lemma AnswerOvertakesPut(server: map<User, Value>, u: User, v: Value) returns (steps: seq<Step>)
    requires v != Stored(Initial(server), u)
    ensures Misleads(server, steps, u)
  {
    steps := [];
    assert Run(Initial(server), steps) == Some(Initial(server));
    hide Run;
    steps := GoOn(server, steps, SessionStarts(u));
    steps := GoOn(server, steps, SettingsRead(0));
    steps := GoOn(server, steps, WritePref(v));
    steps := GoOn(server, steps, RunNext);
    steps := GoOn(server, steps, ServerApplies);
    steps := GoOn(server, steps, LoadAnswers(0));
    steps := GoOn(server, steps, PatchSucceeds);
  }

  /** Without an answer the default stays, whatever the user has stored. */
  lemma FailedLoadShowsDefault(server: map<User, Value>, u: User) returns (steps: seq<Step>)
    requires u in server && server[u] != "en"
    ensures Misleads(server, steps, u) && Run(Initial(server), steps).value.visible == "en"
  {
    steps := [];
    assert Run(Initial(server), steps) == Some(Initial(server));
    hide Run;
    steps := GoOn(server, steps, SessionStarts(u));
    steps := GoOn(server, steps, LoadFails(0));
  }

  /** The answer to an earlier user's GET is shown to the next user. */
  lemma LateAnswerIsShownToTheNext(server: map<User, Value>, earlier: User, u: User) returns (steps: seq<Step>)
    requires Stored(Initial(server), earlier) != Stored(Initial(server), u)
    ensures Misleads(server, steps, u)
  {
    steps := [];
    assert Run(Initial(server), steps) == Some(Initial(server));
    hide Run;
    steps := GoOn(server, steps, SessionStarts(earlier));
    steps := GoOn(server, steps, SettingsRead(0));
    steps := GoOn(server, steps, SessionEnds);
    steps := GoOn(server, steps, Cleared);
    steps := GoOn(server, steps, SessionStarts(u));
    steps := GoOn(server, steps, SettingsRead(1));
    steps := GoOn(server, steps, LoadAnswers(1));
    steps := GoOn(server, steps, LoadAnswers(0));
  }

  /** A login whose GET is answered before anything else happens. */
  lemma PlainLogin(server: map<User, Value>, before: seq<Step>, s: State, u: User) returns (steps: seq<Step>)
    requires Run(Initial(server), before) == Some(s) && s.session == s.user == None && s.loads == map[]
    ensures Run(Initial(server), steps) ==
            Some(s.(seqNo := 0, epoch := s.epoch + 1, persisted := Stored(s, u), visible := Stored(s, u),
                    session := Some(u), user := Some(u), started := s.started + 1))
  {
    hide Run;
    var id := s.started;
    steps := GoOn(server, before, SessionStarts(u));
    steps := GoOn(server, steps, SettingsRead(id));
    steps := GoOn(server, steps, LoadAnswers(id));
    assert map[id := Load(u, Some(Stored(s, u)))] - {id} == map[];
    assert map[][id := Load(u, None)][id := Load(u, Some(Stored(s, u)))] == map[id := Load(u, Some(Stored(s, u)))];
  }

  /** A write with nothing before it, and its PUT under way. */
  lemma WriteAndRun(server: map<User, Value>, before: seq<Step>, s: State, u: User, v: Value) returns (steps: seq<Step>)
    requires Run(Initial(server), before) == Some(s) && s.session == s.user == Some(u) && s.queue == [] && s.flight == None
    ensures Run(Initial(server), steps) ==
            Some(s.(seqNo := s.seqNo + 1, visible := v, flight := Some(Flight(Write(v, s.seqNo + 1, s.epoch, u), Some(u), false))))
  {
    hide Run;
    var w := Write(v, s.seqNo + 1, s.epoch, u);
    assert [] + [w] == [w] && [w][1..] == [];
    steps := GoOn(server, before, WritePref(v));
    steps := GoOn(server, steps, RunNext);
  }

  /** The user logs out while a PUT is on its way. */
  lemma LogoutDuringPut(server: map<User, Value>, u: User, v: Value) returns (steps: seq<Step>)
    ensures Run(Initial(server), steps) ==
            Some(State(0, 2, DEFAULT, DEFAULT, [], Some(Flight(Write(v, 1, 1, u), Some(u), false)), None, None, map[], 1, server))
  {
    steps := [];
    assert Run(Initial(server), steps) == Some(Initial(server));
    hide Run;
    steps := PlainLogin(server, steps, Initial(server), u);
    steps := WriteAndRun(server, steps, Run(Initial(server), steps).value, u, v);
    steps := GoOn(server, steps, SessionEnds);
    steps := GoOn(server, steps, Cleared);
  }

  /** A PUT that is still on its way when its user logs in again takes effect behind the new session's back. */
  lemma PutOutlivesItsSession(server: map<User, Value>, u: User, v: Value) returns (steps: seq<Step>)
    requires v != Stored(Initial(server), u)
    ensures Misleads(server, steps, u)
  {
    hide Run;
    steps := LogoutDuringPut(server, u, v);
    steps := PlainLogin(server, steps, Run(Initial(server), steps).value, u);
    steps := GoOn(server, steps, ServerApplies);
    steps := GoOn(server, steps, PatchSucceeds);
  }

  // ----- What the caller of writePref is told -----

  /** The report for the write that the step settles, None if it settles none. */
  function ReportOf(s: State, step: Step): Option<Report>
    requires Enabled(s, step)
  {
    match step
    case RunNext => if s.queue[0].epoch != s.epoch then Some(Skipped) else None
    case PatchSucceeds =>
      var w := s.flight.value.write;
      if w.epoch != s.epoch then Some(Skipped) else if w.seqNo == s.seqNo then Some(Saved) else Some(Skipped)
    case PatchFails =>
      var w := s.flight.value.write;
      if w.epoch != s.epoch || w.seqNo != s.seqNo then Some(Skipped) else Some(Rejected)
    case _ => None
  }

  /**
   What the user is told: "saved" only when nothing newer is pending and the server has the value that is shown, in every
   run; an error only when the value goes back to the last confirmed or loaded one, which is the server's as above.
   */
  lemma {:induction false} ReportsAreTrue(server: map<User, Value>, steps: seq<Step>, step: Step)
    requires Run(Initial(server), steps).Some? && Enabled(Run(Initial(server), steps).value, step)
    requires ReportOf(Run(Initial(server), steps).value, step) in {Some(Saved), Some(Rejected)}
    ensures var s := Run(Initial(server), steps).value;
            var t := Apply(s, step);
            && !Waiting(t) && t.flight == None && t.user == Some(s.flight.value.write.user) && t.visible == t.persisted
            && (ReportOf(s, step) == Some(Saved) ==> t.visible == s.flight.value.write.value == Stored(t, t.user.value))
            && (ReportOf(s, step) == Some(Rejected) ==>
                  && t.visible == s.persisted
                  && (t.visible == Stored(t, t.user.value) <==>
                      Confirmed(server, steps) || Base(server, steps) == LastTaken(server, steps, t.user.value)))
  {
    var s := Run(Initial(server), steps).value;
    RunFollows(server, steps);
    LastTakenIsStored(server, steps, s.flight.value.write.user);
  }

  // ----- Reports, by what happened in the run -----

  /** The answer to a GET, or the end of a session in the browser. */
  predicate IsReset(step: Step) {
    step.LoadAnswers? || step.Cleared?
  }

  function Resets(steps: seq<Step>): nat {
    if steps == [] then 0 else Resets(steps[..|steps| - 1]) + if IsReset(steps[|steps| - 1]) then 1 else 0
  }

  function WritesSinceReset(steps: seq<Step>): nat {
    if steps == [] || IsReset(steps[|steps| - 1]) then 0
    else WritesSinceReset(steps[..|steps| - 1]) + if steps[|steps| - 1].WritePref? then 1 else 0
  }

  /** Where in the run the writes were made. */
  function Writes(steps: seq<Step>): (writes: seq<nat>)
    ensures forall k :: 0 <= k < |writes| ==> writes[k] < |steps| && steps[writes[k]].WritePref?
  {
    if steps == [] then []
    else
      var n := |steps| - 1;
      Writes(steps[..n]) + if steps[n].WritePref? then [n] else []
  }

  /** How many writes have had their turn. */
  function Turns(steps: seq<Step>): nat {
    if steps == [] then 0 else Turns(steps[..|steps| - 1]) + if steps[|steps| - 1].RunNext? then 1 else 0
  }

  /** The write was made by this step of the run. */
  predicate MadeAt(w: Write, steps: seq<Step>, i: nat) {
    && i < |steps| && steps[i] == WritePref(w.value)
    && w.epoch == Resets(steps[..i]) && w.seqNo == WritesSinceReset(steps[..i]) + 1
  }

  /** From the write number `turns` of the run on, the queue has the writes, and the PUT under way is the one before. */
  predicate KeepsPlaces(queue: seq<Write>, flight: Option<Flight>, steps: seq<Step>, turns: nat) {
    var writes := Writes(steps);
    && turns + |queue| <= |writes|
    && (forall m :: 0 <= m < |queue| ==> MadeAt(queue[m], steps, writes[turns + m]))
    && (flight.Some? ==> turns > 0 && MadeAt(flight.value.write, steps, writes[turns - 1]))
  }

  /** The queue and the PUT under way are the writes of the run whose turn has not ended, in order. */
  predicate KeepsOrder(s: State, steps: seq<Step>) {
    && s.epoch == Resets(steps) && s.seqNo == WritesSinceReset(steps) && Turns(steps) + |s.queue| == |Writes(steps)|
    && KeepsPlaces(s.queue, s.flight, steps, Turns(steps))
  }

  lemma MadeBefore(w: Write, steps: seq<Step>, i: nat)
    requires steps != [] && MadeAt(w, steps[..|steps| - 1], i)
    ensures MadeAt(w, steps, i)
  {
    assert steps[..|steps| - 1][..i] == steps[..i];
  }

  lemma {:induction false} RunKeepsOrder(server: map<User, Value>, steps: seq<Step>)
    requires Run(Initial(server), steps).Some?
    ensures KeepsOrder(Run(Initial(server), steps).value, steps)
    decreases |steps|
  {
    if steps != [] {
      var init := steps[..|steps| - 1];
      RunKeepsOrder(server, init);
      StepKeepsOrder(Before(Initial(server), steps), init, steps[|steps| - 1], steps);
    }
  }

  lemma PlacesStay(queue: seq<Write>, flight: Option<Flight>, init: seq<Step>, step: Step, turns: nat)
    requires KeepsPlaces(queue, flight, init, turns)
    ensures KeepsPlaces(queue, flight, init + [step], turns)
  {
    hide MadeAt;
    var steps := init + [step];
    assert steps[..|steps| - 1] == init;
    var writes := Writes(init);
    forall m | 0 <= m < |queue|
      ensures MadeAt(queue[m], steps, writes[turns + m])
    {
      MadeBefore(queue[m], steps, writes[turns + m]);
    }
    if flight.Some? {
      MadeBefore(flight.value.write, steps, writes[turns - 1]);
    }
  }

  lemma CountsOfMore(init: seq<Step>, step: Step)
    ensures var steps := init + [step];
            && Resets(steps) == Resets(init) + (if IsReset(step) then 1 else 0)
            && WritesSinceReset(steps) == (if IsReset(step) then 0 else WritesSinceReset(init) + if step.WritePref? then 1 else 0)
            && Writes(steps) == Writes(init) + (if step.WritePref? then [|init|] else [])
            && Turns(steps) == Turns(init) + if step.RunNext? then 1 else 0
  {
    var steps := init + [step];
    assert steps[..|steps| - 1] == init;
  }

  lemma PlacesOfNext(queue: seq<Write>, flight: Flight, steps: seq<Step>, turns: nat)
    requires queue != [] && KeepsPlaces(queue, None, steps, turns) && flight.write == queue[0]
    ensures KeepsPlaces(queue[1..], None, steps, turns + 1) && KeepsPlaces(queue[1..], Some(flight), steps, turns + 1)
  {
    hide MadeAt;
    var writes := Writes(steps);
    forall m | 0 <= m < |queue| - 1
      ensures MadeAt(queue[1..][m], steps, writes[turns + 1 + m])
    {
      assert MadeAt(queue[m + 1], steps, writes[turns + (m + 1)]);
    }
    assert MadeAt(queue[0], steps, writes[turns + 0]);
  }

  lemma PlacesOfWrite(queue: seq<Write>, flight: Option<Flight>, w: Write, steps: seq<Step>, turns: nat)
    requires KeepsPlaces(queue, flight, steps, turns) && turns + |queue| + 1 == |Writes(steps)|
    requires MadeAt(w, steps, Writes(steps)[turns + |queue|])
    ensures KeepsPlaces(queue + [w], flight, steps, turns)
  {
    hide MadeAt;
  }

  lemma StepKeepsOrder(s: State, init: seq<Step>, step: Step, steps: seq<Step>)
    requires KeepsOrder(s, init) && Enabled(s, step) && steps == init + [step]
    ensures KeepsOrder(Apply(s, step), steps)
  {
    hide KeepsPlaces, MadeAt, Resets, WritesSinceReset, Writes, Turns;
    CountsOfMore(init, step);
    PlacesStay(s.queue, s.flight, init, step, Turns(init));
    match step
    case WritePref(v) =>
      var w := Write(v, s.seqNo + 1, s.epoch, s.user.value);
      MadeNow(w, init, step, steps);
      PlacesOfWrite(s.queue, s.flight, w, steps, Turns(init));
    case RunNext =>
      PlacesOfNext(s.queue, Flight(s.queue[0], s.session, false), steps, Turns(init));
    case ServerApplies =>
      SameWrite(s.queue, s.flight.value, s.flight.value.(applied := true), steps, Turns(init));
    case _ =>
      NoFlight(s.queue, s.flight, steps, Turns(init));
  }

  lemma SameWrite(queue: seq<Write>, f: Flight, g: Flight, steps: seq<Step>, turns: nat)
    requires KeepsPlaces(queue, Some(f), steps, turns) && f.write == g.write
    ensures KeepsPlaces(queue, Some(g), steps, turns)
  {
  }

  lemma NoFlight(queue: seq<Write>, flight: Option<Flight>, steps: seq<Step>, turns: nat)
    requires KeepsPlaces(queue, flight, steps, turns)
    ensures KeepsPlaces(queue, None, steps, turns)
  {
  }

  lemma MadeNow(w: Write, init: seq<Step>, step: Step, steps: seq<Step>)
    requires steps == init + [step] && step == WritePref(w.value)
    requires w.epoch == Resets(init) && w.seqNo == WritesSinceReset(init) + 1
    ensures MadeAt(w, steps, |init|)
  {
    assert steps[..|init|] == init;
  }

  lemma {:induction false} ResetsGrow(steps: seq<Step>, i: nat)
    requires i <= |steps|
    ensures Resets(steps[..i]) <= Resets(steps)
    ensures Resets(steps[..i]) == Resets(steps) <==> forall j :: i <= j < |steps| ==> !IsReset(steps[j])
    decreases |steps|
  {
    if i < |steps| {
      ResetsGrow(steps[..|steps| - 1], i);
      assert steps[..|steps| - 1][..i] == steps[..i];
    } else {
      assert steps[..i] == steps;
    }
  }

  lemma {:induction false} WritesGrow(steps: seq<Step>, i: nat)
    requires i <= |steps| && forall j :: i <= j < |steps| ==> !IsReset(steps[j])
    ensures WritesSinceReset(steps[..i]) <= WritesSinceReset(steps)
    ensures WritesSinceReset(steps[..i]) == WritesSinceReset(steps) <==> forall j :: i <= j < |steps| ==> !steps[j].WritePref?
    decreases |steps|
  {
    if i < |steps| {
      WritesGrow(steps[..|steps| - 1], i);
      assert steps[..|steps| - 1][..i] == steps[..i];
    } else {
      assert steps[..i] == steps;
    }
  }

  /** Since the write made at i there was no reset. */
  predicate SameEpoch(steps: seq<Step>, i: nat) {
    forall j :: i < j < |steps| ==> !IsReset(steps[j])
  }

  /** Nor another write. */
  predicate IsLatest(steps: seq<Step>, i: nat) {
    SameEpoch(steps, i) && forall j :: i < j < |steps| ==> !steps[j].WritePref?
  }

  lemma MadeInEpoch(s: State, steps: seq<Step>, w: Write, i: nat)
    requires s.epoch == Resets(steps) && s.seqNo == WritesSinceReset(steps) && MadeAt(w, steps, i)
    ensures w.epoch == s.epoch <==> SameEpoch(steps, i)
    ensures w.epoch == s.epoch && w.seqNo == s.seqNo <==> IsLatest(steps, i)
  {
    var upto := steps[..i + 1];
    assert upto[..|upto| - 1] == steps[..i] && upto[|upto| - 1] == steps[i];
    ResetsGrow(steps, i + 1);
    if SameEpoch(steps, i) {
      WritesGrow(steps, i + 1);
    }
  }

  /**
   Main result: what the caller of each write is told, over every run. The writes have their turns in the order in which
   they were made. When its turn comes, a write is skipped if and only if there was a reset since it was made, and sent
   otherwise. When its PUT is over, it is reported as saved or rejected, as the PUT went, if and only if there was neither
   a reset nor another write since, and as skipped otherwise.
   */
  lemma ReportsByHistory(server: map<User, Value>, steps: seq<Step>, step: Step)
    requires Run(Initial(server), steps).Some? && Enabled(Run(Initial(server), steps).value, step)
    ensures var s := Run(Initial(server), steps).value;
            var writes, turn := Writes(steps), Turns(steps);
            match step
            case RunNext =>
              && turn < |writes|
              && ReportOf(s, step) == (if SameEpoch(steps, writes[turn]) then None else Some(Skipped))
              && var sent := Apply(s, step).flight;
                 if SameEpoch(steps, writes[turn]) then sent.Some? && WritePref(sent.value.write.value) == steps[writes[turn]] else sent == None
            case PatchSucceeds =>
              0 < turn <= |writes| && ReportOf(s, step) == Some(if IsLatest(steps, writes[turn - 1]) then Saved else Skipped)
            case PatchFails =>
              0 < turn <= |writes| && ReportOf(s, step) == Some(if IsLatest(steps, writes[turn - 1]) then Rejected else Skipped)
            case _ => ReportOf(s, step) == None
  {
    hide SameEpoch, IsLatest;
    var s := Run(Initial(server), steps).value;
    RunKeepsOrder(server, steps);
    var writes, turn := Writes(steps), Turns(steps);
    if step.RunNext? {
      assert MadeAt(s.queue[0], steps, writes[turn + 0]);
      MadeInEpoch(s, steps, s.queue[0], writes[turn]);
    }
    if step.PatchSucceeds? || step.PatchFails? {
      MadeInEpoch(s, steps, s.flight.value.write, writes[turn - 1]);
    }
  }

  // ----- The writer as the source has it -----

  class PrefWriter {
    var seqNo: nat
    var epoch: nat
    var persisted: Value
    /** The store's field, which `apply` sets. */
    var visible: Value
    /** The promise chain: the write whose PUT is under way, and those behind it. */
    var chain: seq<Write>
    var flight: Option<Flight>

    /** The browser's part of the state. */
    ghost predicate Shows(s: State)
      reads this
    {
      seqNo == s.seqNo && epoch == s.epoch && persisted == s.persisted && visible == s.visible && chain == s.queue && flight == s.flight
    }

    constructor ()
      ensures forall server :: Shows(Initial(server))
    {
      seqNo, epoch, persisted, visible, chain, flight := 0, 0, DEFAULT, DEFAULT, [], None;
    }

    /** writePref up to its return: the value is shown, the rest is chained. */
    method WritePref(value: Value, user: User, ghost s: State)
      requires Shows(s) && s.user == Some(user)
      modifies this
      ensures Shows(Apply(s, Step.WritePref(value)))
    {
      seqNo := seqNo + 1;
      visible := value;
      chain := chain + [Write(value, seqNo, epoch, user)];
    }

    /** The next link of the chain, up to the await. */
    method RunNext(session: Option<User>, ghost s: State) returns (report: Option<Report>)
      requires Shows(s) && s.session == session && Enabled(s, Step.RunNext)
      modifies this
      ensures Shows(Apply(s, Step.RunNext)) && report == ReportOf(s, Step.RunNext)
    {
      var w := chain[0];
      chain := chain[1..];
      if epoch != w.epoch {
        return Some(Skipped);
      }
      flight := Some(Flight(w, session, false));
      report := None;
    }

    /** The patch promise is fulfilled. */
    method PatchSucceeds(ghost s: State) returns (report: Report)
      requires Shows(s) && Enabled(s, Step.PatchSucceeds)
      modifies this
      ensures Shows(Apply(s, Step.PatchSucceeds)) && Some(report) == ReportOf(s, Step.PatchSucceeds)
    {
      var w := flight.value.write;
      flight := None;
      if epoch != w.epoch {
        return Skipped;
      }
      persisted := w.value;
      report := if w.seqNo == seqNo then Saved else Skipped;
    }

    /** The patch promise is rejected. */
    method PatchFails(ghost s: State) returns (report: Report)
      requires Shows(s) && Enabled(s, Step.PatchFails)
      modifies this
      ensures Shows(Apply(s, Step.PatchFails)) && Some(report) == ReportOf(s, Step.PatchFails)
    {
      var w := flight.value.write;
      flight := None;
      if epoch != w.epoch || w.seqNo != seqNo {
        return Skipped;
      }
      visible := persisted;
      report := Rejected;
    }

    /** loadUserSettings behind its await: the answer of whichever GET it was. */
    method LoadAnswers(value: Value, ghost s: State)
      requires Shows(s)
      modifies this
      ensures forall id :: id in s.loads && s.loads[id].sample == Some(value) ==> Shows(Apply(s, Step.LoadAnswers(id)))
    {
      visible := value;
      ResetTo(value);
    }

    /** clearUserSettings. */
    method Clear(ghost s: State)
      requires Shows(s) && Enabled(s, Cleared)
      modifies this
      ensures Shows(Apply(s, Cleared))
    {
      ResetTo(DEFAULT);
      visible := DEFAULT;
    }

    /** resetPrefWriter. */
    method ResetTo(value: Value)
      modifies this`seqNo, this`epoch, this`persisted
      ensures seqNo == 0 && epoch == old(epoch) + 1 && persisted == value
    {
      seqNo := 0;
      epoch := epoch + 1;
      persisted := value;
    }
  }
}
