/**
 The timer of Examples/Bench.lean: green threads that sleep push a deadline and a promise
 into a shared array, and one driver thread takes the expired ones out and resolves them
 after it has let go of the array. Any of them may step at any time.
 */
module Timers {
  import opened Common

  /** A promise, by the order of its creation, and when its sleeper may go on. */
  datatype Entry = Entry(id: nat, start: nat, ms: nat) {
    function Deadline(): nat { start + ms }
  }

  /** Where the driver thread is in `timerLoop`. */
  datatype Driver =
    | Checking
    | Sleeping
    | Woken(now: nat)
    | Resolving(now: nat, due: seq<Entry>)
    | Stopped

  datatype Resolution = Resolution(entry: Entry, when: nat)

  /** `issued` are all promises made so far; `registering` those not yet in the array,
      `pending` the array, and `resolved` what happened to the others. */
  datatype State = State(
    clock: nat,
    running: bool,
    issued: seq<Entry>,
    registering: multiset<Entry>,
    pending: seq<Entry>,
    driver: Driver,
    resolved: seq<Resolution>
  )

  function Start(clock: nat): State {
    State(clock, true, [], multiset{}, [], Checking, [])
  }

  // ── The array operations ──

  function Expired(ps: seq<Entry>, now: nat): seq<Entry> {
    if ps == [] then []
    else if ps[0].Deadline() <= now then [ps[0]] + Expired(ps[1..], now)
    else Expired(ps[1..], now)
  }

  function Unexpired(ps: seq<Entry>, now: nat): seq<Entry> {
    if ps == [] then []
    else if ps[0].Deadline() <= now then Unexpired(ps[1..], now)
    else [ps[0]] + Unexpired(ps[1..], now)
  }

  /** `partition` loses nothing and puts each entry on its side. */
  lemma {:induction false} PartitionSplits(ps: seq<Entry>, now: nat)
    ensures multiset(ps) == multiset(Expired(ps, now)) + multiset(Unexpired(ps, now))
    ensures forall e | e in Expired(ps, now) :: e.Deadline() <= now
    ensures forall e | e in Unexpired(ps, now) :: e.Deadline() > now
  {
    if ps != [] {
      PartitionSplits(ps[1..], now);
      assert ps == [ps[0]] + ps[1..];
    }
  }

  // ── Steps ──

  datatype Step =
    | Pass(ms: nat)             // time passes
    | Sleep(ms: nat)            // a sleeper reads the clock and makes its promise
    | Push(e: Entry)            // and pushes it
    | Shutdown
    | Check                     // the driver reads `running`
    | Wake                      // and, after its sleep, the clock
    | Take                      // and splits the array
    | Resolve                   // and resolves one of what was due, or goes round

  predicate Enabled(s: State, step: Step) {
    match step
    case Push(e) => e in s.registering
    case Check => s.driver.Checking?
    case Wake => s.driver.Sleeping?
    case Take => s.driver.Woken?
    case Resolve => s.driver.Resolving?
    case _ => true
  }

  function Apply(s: State, step: Step): State
    requires Enabled(s, step)
  {
    match step
    case Pass(ms) => s.(clock := s.clock + ms)
    case Sleep(ms) =>
      var e := Entry(|s.issued|, s.clock, ms);
      s.(issued := s.issued + [e], registering := s.registering + multiset{e})
    case Push(e) => s.(registering := s.registering - multiset{e}, pending := s.pending + [e])
    case Shutdown => s.(running := false)
    case Check => s.(driver := if s.running then Sleeping else Stopped)
    case Wake => s.(driver := Woken(s.clock))
    case Take =>
      var now := s.driver.now;
      s.(pending := Unexpired(s.pending, now), driver := Resolving(now, Expired(s.pending, now)))
    case Resolve =>
      var due := s.driver.due;
      if due == [] then s.(driver := Checking)
      else s.(driver := Resolving(s.driver.now, due[1..]), resolved := s.resolved + [Resolution(due[0], s.clock)])
  }

  ghost predicate Runs(s: State, steps: seq<Step>, last: State)
    decreases |steps|
  {
    if steps == [] then last == s
    else Enabled(s, steps[0]) && Runs(Apply(s, steps[0]), steps[1..], last)
  }

  ghost predicate Reachable(s: State) {
    exists clock, steps :: Runs(Start(clock), steps, s)
  }

  // ── The invariant ──

  function Due(d: Driver): seq<Entry> {
    if d.Resolving? then d.due else []
  }

  function Entries(rs: seq<Resolution>): seq<Entry> {
    seq(|rs|, i requires 0 <= i < |rs| => rs[i].entry)
  }

  ghost predicate Inv(s: State) {
    && (forall i | 0 <= i < |s.issued| :: s.issued[i].id == i && s.issued[i].start <= s.clock)
    && multiset(s.issued) ==
       s.registering + multiset(s.pending) + multiset(Due(s.driver)) + multiset(Entries(s.resolved))
    && (s.driver.Woken? || s.driver.Resolving? ==> s.driver.now <= s.clock)
    && (forall e | e in Due(s.driver) :: e.Deadline() <= s.driver.now)
    && (forall r | r in s.resolved :: r.entry.Deadline() <= r.when <= s.clock)
  }

  lemma SleepKeeps(s: State, ms: nat)
    requires Inv(s)
    ensures Inv(Apply(s, Sleep(ms)))
  {
    var e := Entry(|s.issued|, s.clock, ms);
    assert multiset(s.issued + [e]) == multiset(s.issued) + multiset{e};
  }

  lemma PushKeeps(s: State, e: Entry)
    requires Inv(s) && e in s.registering
    ensures Inv(Apply(s, Push(e)))
  {
    assert multiset(s.pending + [e]) == multiset(s.pending) + multiset{e};
    assert s.registering == s.registering - multiset{e} + multiset{e};
  }

  lemma ResolveKeeps(s: State)
    requires Inv(s) && s.driver.Resolving?
    ensures Inv(Apply(s, Resolve))
  {
    var due, next := s.driver.due, Apply(s, Resolve);
    if due != [] {
      var r := Resolution(due[0], s.clock);
      assert due[0] in due;
      ResolveMoves(s.registering + multiset(s.pending), due, s.resolved, r);
      assert forall e | e in due[1..] :: e in due;
      assert forall q | q in next.resolved :: q in s.resolved || q == r;
    }
  }

  lemma ResolveMoves(rest: multiset<Entry>, due: seq<Entry>, rs: seq<Resolution>, r: Resolution)
    requires due != [] && r.entry == due[0]
    ensures rest + multiset(due[1..]) + multiset(Entries(rs + [r]))
         == rest + multiset(due) + multiset(Entries(rs))
  {
    assert due == [due[0]] + due[1..];
    assert Entries(rs + [r]) == Entries(rs) + [due[0]];
    assert multiset(due) == multiset{due[0]} + multiset(due[1..]);
  }

  lemma StepKeeps(s: State, step: Step)
    requires Inv(s) && Enabled(s, step)
    ensures Inv(Apply(s, step))
  {
    match step
    case Sleep(ms) => SleepKeeps(s, ms);
    case Push(e) => PushKeeps(s, e);
    case Take => PartitionSplits(s.pending, s.driver.now);
    case Resolve => ResolveKeeps(s);
    case _ =>
  }

  lemma {:induction false} RunKeeps(s: State, steps: seq<Step>, last: State)
    requires Inv(s) && Runs(s, steps, last)
    ensures Inv(last)
    decreases |steps|
  {
    if steps != [] {
      StepKeeps(s, steps[0]);
      RunKeeps(Apply(s, steps[0]), steps[1..], last);
    }
  }

  lemma ReachableOk(s: State)
    requires Reachable(s)
    ensures Inv(s)
  {
    var clock, steps :| Runs(Start(clock), steps, s);
    RunKeeps(Start(clock), steps, s);
  }

  // ── The theorems ──

  /** Each promise made is in exactly one place, and there once. */
  lemma ExactlyOnePlace(s: State, i: nat)
    requires Reachable(s) && i < |s.issued|
    ensures var e := s.issued[i];
            s.registering[e] + multiset(s.pending)[e] + multiset(Due(s.driver))[e] + multiset(Entries(s.resolved))[e] == 1
  {
    ReachableOk(s);
    OnlyOnce(s.issued, i);
  }

  lemma OnlyOnce(es: seq<Entry>, i: nat)
    requires i < |es| && forall j | 0 <= j < |es| :: es[j].id == j
    ensures multiset(es)[es[i]] == 1
  {
    var e := es[i];
    assert es == es[..i] + [e] + es[i + 1..];
    assert e !in es[..i] && e !in es[i + 1..];
  }

  lemma Twice(es: seq<Entry>, i: nat, j: nat)
    requires i < j < |es| && es[i] == es[j]
    ensures multiset(es)[es[i]] >= 2
  {
    assert es == es[..i] + [es[i]] + es[i + 1..];
    assert es[j] in es[i + 1..];
  }

  /** Nothing is resolved before its sleeper has slept its `ms` milliseconds. */
  lemma NeverEarly(s: State)
    requires Reachable(s)
    ensures forall r | r in s.resolved :: r.when >= r.entry.start + r.entry.ms
  {
    ReachableOk(s);
  }

  lemma {:induction false} IssuedGrows(s: State, steps: seq<Step>, last: State)
    requires Runs(s, steps, last)
    ensures s.issued <= last.issued && s.clock <= last.clock
    decreases |steps|
  {
    if steps != [] {
      IssuedGrows(Apply(s, steps[0]), steps[1..], last);
    }
  }

  lemma {:induction false} RunsOn(s: State, steps: seq<Step>, mid: State, more: seq<Step>, last: State)
    requires Runs(s, steps, mid) && Runs(mid, more, last)
    ensures Runs(s, steps + more, last)
    decreases |steps|
  {
    if steps == [] {
      assert [] + more == more;
    } else {
      RunsOn(Apply(s, steps[0]), steps[1..], mid, more, last);
      assert (steps + more)[1..] == steps[1..] + more;
    }
  }

  lemma ReachableOn(s: State, step: Step, steps: seq<Step>, last: State)
    requires Reachable(s) && Enabled(s, step) && Runs(Apply(s, step), steps, last)
    ensures Reachable(last)
  {
    var clock, before :| Runs(Start(clock), before, s);
    RunsThen(s, step, steps, last);
    RunsOn(Start(clock), before, s, [step] + steps, last);
  }

  /** The promise a sleeper made is that of its number, wherever it is found. */
  lemma TheSleepers(s: State, ms: nat, steps: seq<Step>, last: State, e: Entry)
    requires Reachable(s) && Runs(Apply(s, Sleep(ms)), steps, last) && e.id == |s.issued|
    requires e in multiset(last.pending) + multiset(Due(last.driver)) + multiset(Entries(last.resolved))
    ensures e == Entry(|s.issued|, s.clock, ms)
  {
    ReachableOn(s, Sleep(ms), steps, last);
    ReachableOk(last);
    IssuedGrows(Apply(s, Sleep(ms)), steps, last);
    assert e in multiset(last.issued);
    var i :| 0 <= i < |last.issued| && last.issued[i] == e;
    assert i == |s.issued|;
    assert last.issued[i] == Apply(s, Sleep(ms)).issued[i];
  }

  /** Whoever goes to sleep for `ms` milliseconds sleeps so long, by the clock, whatever
      happens in the meantime. */
  lemma SleepsItsTime(s: State, ms: nat, steps: seq<Step>, last: State)
    requires Reachable(s) && Runs(Apply(s, Sleep(ms)), steps, last)
    ensures forall r | r in last.resolved && r.entry.id == |s.issued| :: s.clock + ms <= r.when <= last.clock
  {
    ReachableOn(s, Sleep(ms), steps, last);
    ReachableOk(last);
    forall i | 0 <= i < |last.resolved| && last.resolved[i].entry.id == |s.issued|
      ensures s.clock + ms <= last.resolved[i].when <= last.clock
    {
      var e := last.resolved[i].entry;
      assert Entries(last.resolved)[i] == e;
      TheSleepers(s, ms, steps, last, e);
      assert e.Deadline() <= last.resolved[i].when;
    }
  }

  /** And no tick after that passes it over: of the promises in the array when the driver
      takes, a sleeper's is due exactly when the driver woke at its time or later. */
  lemma WokenInItsTime(s: State, ms: nat, steps: seq<Step>, mid: State, more: seq<Step>, last: State, e: Entry)
    requires Reachable(s) && Runs(Apply(s, Sleep(ms)), steps, mid) && e.id == |s.issued|
    requires mid.driver.Sleeping? && Runs(Apply(mid, Wake), more, last) && Take !in more
    requires e in last.pending
    ensures last.driver.Woken? && (e in Due(Apply(last, Take).driver) <==> mid.clock >= s.clock + ms)
    ensures e in Apply(last, Take).pending <==> mid.clock < s.clock + ms
  {
    RunsThen(mid, Wake, more, last);
    RunsOn(Apply(s, Sleep(ms)), steps, mid, [Wake] + more, last);
    TheSleepers(s, ms, steps + ([Wake] + more), last, e);
    StaysWoken(Apply(mid, Wake), more, last);
    TakenIff(last.pending, mid.clock, e);
  }

  lemma TakenIff(ps: seq<Entry>, now: nat, e: Entry)
    requires e in ps
    ensures e in Expired(ps, now) <==> e.Deadline() <= now
    ensures e in Unexpired(ps, now) <==> e.Deadline() > now
  {
    PartitionSplits(ps, now);
    assert e in multiset(ps);
  }

  /** A tick that begins when a deadline has passed finds the promise, if it is in the array. */
  lemma DueByTheClock(s: State, e: Entry)
    requires s.driver.Sleeping? && e in s.pending
    ensures e in Due(Apply(Apply(s, Wake), Take).driver) <==> e.start + e.ms <= s.clock
  {
    TakenIff(s.pending, s.clock, e);
  }

  /** Until it takes, a driver that has woken goes by the time it woke at. */
  lemma {:induction false} StaysWoken(s: State, steps: seq<Step>, last: State)
    requires s.driver.Woken? && Runs(s, steps, last) && Take !in steps
    ensures last.driver == s.driver
    decreases |steps|
  {
    if steps != [] {
      assert steps[0] in steps;
      StaysWoken(Apply(s, steps[0]), steps[1..], last);
    }
  }

  /** Nothing is resolved twice. */
  lemma NeverTwice(s: State, i: nat, j: nat)
    requires Reachable(s) && i < j < |s.resolved|
    ensures s.resolved[i].entry != s.resolved[j].entry
  {
    ReachableOk(s);
    var es := Entries(s.resolved);
    if es[i] == es[j] {
      Twice(es, i, j);
      assert es[i] in multiset(s.issued);
      var k :| 0 <= k < |s.issued| && s.issued[k] == es[i];
      OnlyOnce(s.issued, k);
    }
  }

  /** What is due stays due until it is resolved. */
  lemma {:induction false} DueIsResolved(s: State, steps: seq<Step>, last: State, e: Entry)
    requires Runs(s, steps, last) && (e in Due(s.driver) || e in Entries(s.resolved))
    ensures e in Due(last.driver) || e in Entries(last.resolved)
    decreases |steps|
  {
    if steps != [] {
      var next := Apply(s, steps[0]);
      if steps[0].Resolve? && s.driver.due != [] {
        assert Entries(next.resolved) == Entries(s.resolved) + [s.driver.due[0]];
      }
      DueIsResolved(next, steps[1..], last, e);
    }
  }

  /** A tick at time `now` takes from the array exactly the promises whose deadline has
      come, and by the time the driver is through with it they are all resolved. */
  lemma TickResolvesAllDue(s: State, steps: seq<Step>, last: State)
    requires s.driver.Woken? && Runs(Apply(s, Take), steps, last)
    ensures forall e | e in s.pending :: e in Apply(s, Take).pending <==> e.Deadline() > s.driver.now
    ensures !last.driver.Resolving? ==>
              forall e | e in s.pending && e.Deadline() <= s.driver.now :: e in Entries(last.resolved)
  {
    var now, next := s.driver.now, Apply(s, Take);
    PartitionSplits(s.pending, now);
    forall e | e in s.pending
      ensures e in next.pending <==> e.Deadline() > now
      ensures e.Deadline() <= now ==> e in Due(next.driver)
    {
      assert e in multiset(s.pending);
    }
    forall e | e in s.pending && e.Deadline() <= now && !last.driver.Resolving?
      ensures e in Entries(last.resolved)
    {
      DueIsResolved(next, steps, last, e);
    }
  }

  // ── Shutdown: who is still woken, and who is not ──

  /** The promise is in the array, or its sleeper is about to push it. */
  predicate Waiting(s: State, e: Entry) {
    e in s.pending || e in s.registering
  }

  /** Some way to go on from here resolves the promise. */
  ghost predicate CanBeResolved(s: State, e: Entry) {
    exists steps, last :: Runs(s, steps, last) && e in Entries(last.resolved)
  }

  /** The driver will still look at the array, at a time that the deadline can come before. */
  predicate WillBeLookedAt(s: State, e: Entry) {
    || (s.running && !s.driver.Stopped?)
    || s.driver.Sleeping?
    || (s.driver.Woken? && e.Deadline() <= s.driver.now)
  }

  lemma ResolvableBefore(s: State, step: Step, e: Entry)
    requires Enabled(s, step) && CanBeResolved(Apply(s, step), e)
    ensures CanBeResolved(s, e)
  {
    var steps, last :| Runs(Apply(s, step), steps, last) && e in Entries(last.resolved);
    RunsThen(s, step, steps, last);
  }

  lemma {:induction false} DueCanBeResolved(s: State, e: Entry)
    requires e in Due(s.driver)
    ensures CanBeResolved(s, e)
    decreases |Due(s.driver)|
  {
    var next := Apply(s, Resolve);
    assert Entries(next.resolved) == Entries(s.resolved) + [s.driver.due[0]];
    if e == s.driver.due[0] {
      assert Runs(next, [], next);
    } else {
      DueCanBeResolved(next, e);
    }
    ResolvableBefore(s, Resolve, e);
  }

  lemma WokenInTime(s: State, e: Entry)
    requires e in s.pending && s.driver.Woken? && e.Deadline() <= s.driver.now
    ensures CanBeResolved(s, e)
  {
    PartitionSplits(s.pending, s.driver.now);
    assert e in multiset(s.pending);
    DueCanBeResolved(Apply(s, Take), e);
    ResolvableBefore(s, Take, e);
  }

  lemma SleepingFindsIt(s: State, e: Entry)
    requires e in s.pending && s.driver.Sleeping?
    ensures CanBeResolved(s, e)
  {
    var later := Apply(s, Pass(e.Deadline()));
    WokenInTime(Apply(later, Wake), e);
    ResolvableBefore(later, Wake, e);
    ResolvableBefore(s, Pass(e.Deadline()), e);
  }

  lemma CheckingFindsIt(s: State, e: Entry)
    requires e in s.pending && s.running && s.driver.Checking?
    ensures CanBeResolved(s, e)
  {
    SleepingFindsIt(Apply(s, Check), e);
    ResolvableBefore(s, Check, e);
  }

  lemma {:induction false} ResolvingFindsIt(s: State, e: Entry)
    requires e in s.pending && s.running && s.driver.Resolving?
    ensures CanBeResolved(s, e)
    decreases |Due(s.driver)|
  {
    if s.driver.due == [] {
      CheckingFindsIt(Apply(s, Resolve), e);
    } else {
      ResolvingFindsIt(Apply(s, Resolve), e);
    }
    ResolvableBefore(s, Resolve, e);
  }

  lemma WokenTooEarly(s: State, e: Entry)
    requires e in s.pending && s.running && s.driver.Woken? && e.Deadline() > s.driver.now
    ensures CanBeResolved(s, e)
  {
    PartitionSplits(s.pending, s.driver.now);
    assert e in multiset(s.pending);
    ResolvingFindsIt(Apply(s, Take), e);
    ResolvableBefore(s, Take, e);
  }

  lemma LookedAtIsResolvable(s: State, e: Entry)
    requires e in s.pending && WillBeLookedAt(s, e)
    ensures CanBeResolved(s, e)
  {
    match s.driver
    case Checking => CheckingFindsIt(s, e);
    case Sleeping => SleepingFindsIt(s, e);
    case Woken(now) => if e.Deadline() <= now { WokenInTime(s, e); } else { WokenTooEarly(s, e); }
    case Resolving(_, _) => ResolvingFindsIt(s, e);
    case Stopped =>
  }

  /** Out of the driver's hands, and it will not look again in time. */
  ghost predicate Lost(s: State, e: Entry) {
    e !in Due(s.driver) && e !in Entries(s.resolved) && !WillBeLookedAt(s, e)
  }

  lemma LostAfterStep(s: State, step: Step, e: Entry)
    requires Lost(s, e) && Enabled(s, step)
    ensures Lost(Apply(s, step), e)
  {
    match step
    case Take => PartitionSplits(s.pending, s.driver.now);
    case Resolve =>
      if s.driver.due != [] {
        assert Entries(Apply(s, Resolve).resolved) == Entries(s.resolved) + [s.driver.due[0]];
      }
    case _ =>
  }

  lemma {:induction false} LostForEver(s: State, steps: seq<Step>, last: State, e: Entry)
    requires Lost(s, e) && Runs(s, steps, last)
    ensures Lost(last, e)
    decreases |steps|
  {
    if steps != [] {
      LostAfterStep(s, steps[0], e);
      LostForEver(Apply(s, steps[0]), steps[1..], last, e);
    }
  }

  /** A promise that waits is with nobody else. */
  lemma WaitingIsNowhereElse(s: State, e: Entry)
    requires Reachable(s) && Waiting(s, e)
    ensures e !in Due(s.driver) && e !in Entries(s.resolved)
  {
    ReachableOk(s);
    assert e in s.registering + multiset(s.pending);
    assert e in multiset(s.issued);
    var i :| 0 <= i < |s.issued| && s.issued[i] == e;
    ExactlyOnePlace(s, i);
  }

  /** In every reachable state, a promise that waits can still be resolved exactly when
      the driver will look at the array again, in time for it. */
  lemma ResolvableIff(s: State, e: Entry)
    requires Reachable(s) && Waiting(s, e)
    ensures CanBeResolved(s, e) <==> WillBeLookedAt(s, e)
  {
    WaitingIsNowhereElse(s, e);
    if WillBeLookedAt(s, e) {
      if e in s.pending {
        LookedAtIsResolvable(s, e);
      } else {
        LookedAtIsResolvable(Apply(s, Push(e)), e);
        ResolvableBefore(s, Push(e), e);
      }
    } else if CanBeResolved(s, e) {
      var steps, last :| Runs(s, steps, last) && e in Entries(last.resolved);
      LostForEver(s, steps, last, e);
    }
  }

  /** So a shutdown strands sleepers: one who sleeps 5 ms from time 0 waits for ever when
      the driver finds the timer shut down before it has looked at the array. */
  lemma ShutdownStrands() returns (s: State, e: Entry)
    ensures Reachable(s) && s.driver.Stopped? && e in s.pending && e == Entry(0, 0, 5)
    ensures !CanBeResolved(s, e)
  {
    e := Entry(0, 0, 5);
    s := State(0, false, [e], multiset{}, [e], Stopped, []);
    ShutdownRuns(e, s);
    ResolvableIff(s, e);
  }

  lemma ShutdownRuns(e: Entry, last: State)
    requires e == Entry(0, 0, 5) && last == State(0, false, [e], multiset{}, [e], Stopped, [])
    ensures Runs(Start(0), [Sleep(5)] + [Push(e), Shutdown, Check], last)
  {
    var slept := State(0, true, [e], multiset{e}, [], Checking, []);
    var pushed := slept.(registering := multiset{}, pending := [e]);
    var down := pushed.(running := false);
    assert Runs(last, [], last);
    RunsThen(down, Check, [], last);
    RunsThen(pushed, Shutdown, [Check], last);
    RunsThen(slept, Push(e), [Shutdown, Check], last);
    assert Apply(Start(0), Sleep(5)) == slept;
    RunsThen(Start(0), Sleep(5), [Push(e), Shutdown, Check], last);
  }

  lemma RunsThen(s: State, step: Step, steps: seq<Step>, last: State)
    requires Enabled(s, step) && Runs(Apply(s, step), steps, last)
    ensures Runs(s, [step] + steps, last)
  {
    assert ([step] + steps)[1..] == steps;
  }

  /** After a shutdown that the driver has seen, whatever is still waiting waits for ever. */
  lemma {:induction false} StoppedStrands(s: State, steps: seq<Step>, last: State)
    requires s.driver.Stopped? && Runs(s, steps, last)
    ensures last.resolved == s.resolved && s.pending <= last.pending
    decreases |steps|
  {
    if steps != [] {
      StoppedStrands(Apply(s, steps[0]), steps[1..], last);
    }
  }
}
