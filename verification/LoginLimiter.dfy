/** The failed-login limiter of backend/internal/core/auth/login_attempt_tracker.go. */
module LoginLimiter {
  import opened Wrappers

  const MAX_FAILURES: nat := 5
  /** Fifteen minutes, in nanoseconds: the unit of Go's time.Duration. */
  const LOCK_DURATION: nat := 15 * 60 * 1_000_000_000

  /** `lockedUntil` is None for Go's zero time, which no clock reading precedes. */
  datatype Entry = Entry(failures: nat, lockedUntil: Option<int>)

  type Entries = map<string, Entry>

  const FRESH := Entry(0, None)

  function EntryOf(entries: Entries, user: string): Entry {
    if user in entries then entries[user] else FRESH
  }

  predicate Locked(e: Entry, now: int) {
    e.lockedUntil.Some? && now < e.lockedUntil.value
  }

  /** What one admitted attempt leaves behind. */
  function Admitted(e: Entry, now: int): Entry {
    var failures := if e.lockedUntil.Some? then 1 else e.failures + 1;
    if failures >= MAX_FAILURES then Entry(0, Some(now + LOCK_DURATION)) else Entry(failures, None)
  }

  function AfterAttempt(entries: Entries, user: string, now: int): Entries {
    var e := EntryOf(entries, user);
    entries[user := if Locked(e, now) then e else Admitted(e, now)]
  }

  // ----- Runs -----

  datatype Event = Attempt(user: string, now: int) | Reset(user: string)

  function Run(events: seq<Event>): Entries {
    if events == [] then map[]
    else
      var before := Run(events[..|events| - 1]);
      match events[|events| - 1]
      case Attempt(user, now) => AfterAttempt(before, user, now)
      case Reset(user) => before - {user}
  }

  /** The times at which `user` was let through since the last reset of this user, oldest first. */
  function AdmittedTimes(events: seq<Event>, user: string): seq<int> {
    if events == [] then []
    else
      var init := events[..|events| - 1];
      match events[|events| - 1]
      case Reset(who) => if who == user then [] else AdmittedTimes(init, user)
      case Attempt(who, now) =>
        if who == user && !Locked(EntryOf(Run(init), user), now) then AdmittedTimes(init, user) + [now]
        else AdmittedTimes(init, user)
  }

  lemma LastOf(events: seq<Event>, e: Event)
    ensures var all := events + [e]; all != [] && all[|all| - 1] == e && all[..|all| - 1] == events
  {
  }

  class LoginAttemptTracker {
    var entries: Entries
    ghost var events: seq<Event>

    ghost predicate Valid()
      reads this
    {
      entries == Run(events)
    }

    constructor ()
      ensures Valid() && events == []
    {
      entries := map[];
      events := [];
    }

    /** Each attempt is one critical section, so attempts are atomic. */
    method RecordAttempt(user: string, now: int) returns (admitted: bool)
      requires Valid()
      modifies this
      ensures Valid() && events == old(events) + [Attempt(user, now)]
      ensures admitted == !Locked(EntryOf(old(entries), user), now)
      ensures AdmittedTimes(events, user) == AdmittedTimes(old(events), user) + if admitted then [now] else []
    {
      LastOf(events, Attempt(user, now));
      events := events + [Attempt(user, now)];
      if user !in entries {
        entries := entries[user := FRESH];
      }
      var e := entries[user];
      if e.lockedUntil.Some? && now < e.lockedUntil.value {
        return false;
      }
      if e.lockedUntil != None {
        e := Entry(0, None);
      }
      e := e.(failures := e.failures + 1);
      if e.failures >= MAX_FAILURES {
        e := Entry(0, Some(now + LOCK_DURATION));
      }
      entries := entries[user := e];
      return true;
    }

    method Reset(user: string)
      requires Valid()
      modifies this
      ensures Valid() && events == old(events) + [Event.Reset(user)] && AdmittedTimes(events, user) == []
    {
      LastOf(events, Event.Reset(user));
      events := events + [Event.Reset(user)];
      entries := entries - {user};
    }
  }

  // ----- What holds over every run -----

  /** The clock never runs backwards; events of other users count too. */
  ghost predicate ClockMonotone(events: seq<Event>) {
    forall i, j :: 0 <= i < j < |events| && events[i].Attempt? && events[j].Attempt? ==> events[i].now <= events[j].now
  }

  ghost predicate Ascending(times: seq<int>) {
    forall i, j :: 0 <= i < j < |times| ==> times[i] <= times[j]
  }

  /** After every fifth admission the next one is a full lock later. */
  ghost predicate Batched(times: seq<int>) {
    forall k :: MAX_FAILURES <= k < |times| && k % MAX_FAILURES == 0 ==> times[k] >= times[k - 1] + LOCK_DURATION
  }

  /** The entry is a function of the admitted times alone. */
  function EntryAfter(times: seq<int>): Entry {
    var n := |times|;
    if n > 0 && n % MAX_FAILURES == 0 then Entry(0, Some(times[n - 1] + LOCK_DURATION))
    else Entry(n % MAX_FAILURES, None)
  }

  /** Every admitted time is the time of one of the user's attempts. */
  lemma {:induction false} AdmittedComeFromAttempts(events: seq<Event>, user: string, t: int)
    requires t in AdmittedTimes(events, user)
    ensures Attempt(user, t) in events
  {
    var n := |events| - 1;
    if t in AdmittedTimes(events[..n], user) && events[n] != Event.Reset(user) {
      AdmittedComeFromAttempts(events[..n], user, t);
    } else {
      assert events[n] == Attempt(user, t);
    }
  }

  lemma EntryGrows(times: seq<int>, now: int)
    requires !Locked(EntryAfter(times), now)
    ensures Admitted(EntryAfter(times), now) == EntryAfter(times + [now])
  {
  }

  /** Over every run the stored entry is determined by the admitted times. */
  lemma {:induction false} RunInvariant(events: seq<Event>, user: string)
    ensures EntryOf(Run(events), user) == EntryAfter(AdmittedTimes(events, user))
  {
    if events != [] {
      hide EntryAfter, Locked, Admitted;
      var n := |events| - 1;
      RunInvariant(events[..n], user);
      if events[n].Reset? {
        NoTimes();
      } else if !Locked(EntryAfter(AdmittedTimes(events[..n], user)), events[n].now) {
        EntryGrows(AdmittedTimes(events[..n], user), events[n].now);
      }
    }
  }

  lemma NoTimes()
    ensures EntryAfter([]) == FRESH
  {
  }

  lemma LastAdmittedIsPast(events: seq<Event>, user: string)
    requires ClockMonotone(events) && events != [] && events[|events| - 1].Attempt?
    ensures var before := AdmittedTimes(events[..|events| - 1], user);
            before != [] ==> before[|before| - 1] <= events[|events| - 1].now
  {
    var n := |events| - 1;
    var before := AdmittedTimes(events[..n], user);
    if before != [] {
      AdmittedComeFromAttempts(events[..n], user, before[|before| - 1]);
    }
  }

  lemma ShapeGrows(times: seq<int>, now: int)
    requires Ascending(times) && Batched(times) && !Locked(EntryAfter(times), now)
    requires times != [] ==> times[|times| - 1] <= now
    ensures Ascending(times + [now]) && Batched(times + [now])
  {
  }

  lemma {:induction false} RunKeepsShape(events: seq<Event>, user: string)
    requires ClockMonotone(events)
    ensures Ascending(AdmittedTimes(events, user)) && Batched(AdmittedTimes(events, user))
  {
    if events != [] {
      hide Ascending, Batched, EntryAfter, Locked;
      var n := |events| - 1;
      InitIsMonotone(events);
      RunKeepsShape(events[..n], user);
      RunInvariant(events[..n], user);
      if events[n].Reset? {
        NoShape();
      } else {
        LastAdmittedIsPast(events, user);
        if !Locked(EntryAfter(AdmittedTimes(events[..n], user)), events[n].now) {
          ShapeGrows(AdmittedTimes(events[..n], user), events[n].now);
        }
      }
    }
  }

  lemma NoShape()
    ensures Ascending([]) && Batched([])
  {
  }

  lemma InitIsMonotone(events: seq<Event>)
    requires ClockMonotone(events) && events != []
    ensures ClockMonotone(events[..|events| - 1])
  {
  }

  lemma SixthIsALockLater(times: seq<int>, i: nat)
    requires Ascending(times) && Batched(times) && i + MAX_FAILURES < |times|
    ensures times[i + MAX_FAILURES] >= times[i] + LOCK_DURATION
  {
    var k := i + MAX_FAILURES - i % MAX_FAILURES;
    assert i < k <= i + MAX_FAILURES && k % MAX_FAILURES == 0;
    assert times[i] <= times[k - 1] && times[k] <= times[i + MAX_FAILURES];
  }

  /**
   Main result: whatever the other users do, of a user's admissions since the last reset any six take fifteen minutes or
   more, so no window shorter than that, and no half-open one of that length, holds more than five.
   */
  lemma AtMostFiveAttemptsPerWindow(events: seq<Event>, user: string, i: nat)
    requires ClockMonotone(events) && i + 5 < |AdmittedTimes(events, user)|
    ensures AdmittedTimes(events, user)[i + 5] - AdmittedTimes(events, user)[i] >= 15 * 60 * 1_000_000_000
  {
    RunKeepsShape(events, user);
    SixthIsALockLater(AdmittedTimes(events, user), i);
  }

  /**
   On every run, with any clock: an attempt is refused exactly when the user's admissions since the last reset form whole
   batches of five and the last of them is less than fifteen minutes old.
   */
  lemma RefusedExactlyWhileLocked(events: seq<Event>, user: string, now: int)
    ensures var times := AdmittedTimes(events, user);
            AdmittedTimes(events + [Attempt(user, now)], user) ==
            if times != [] && |times| % 5 == 0 && now < times[|times| - 1] + 15 * 60 * 1_000_000_000 then times
            else times + [now]
  {
    RunInvariant(events, user);
    LastOf(events, Attempt(user, now));
  }

  /** What other users do leaves the user's admissions alone. */
  lemma OthersDoNotCount(events: seq<Event>, e: Event, user: string)
    requires e.user != user
    ensures AdmittedTimes(events + [e], user) == AdmittedTimes(events, user)
  {
    LastOf(events, e);
  }

  /** A reset really clears the account: the next attempt is admitted at any time. */
  lemma ResetUnlocks(events: seq<Event>, user: string, now: int)
    ensures AdmittedTimes(events + [Event.Reset(user)] + [Attempt(user, now)], user) == [now]
  {
    LastOf(events, Event.Reset(user));
    LastOf(events + [Event.Reset(user)], Attempt(user, now));
  }
}
