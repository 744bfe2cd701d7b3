/**
 The operations of ffi/tls.c as they run between taking and releasing the session's
 lock, each proved to do what the steps of TlsSession do. So what any such operations
 leave of a session is what an interleaving reaches, and its theorems hold of that.
 */
module TlsOperations {
  import opened Common
  import opened TlsSession
  import opened TlsTranscripts

  /** OpenSSL's answers, as any function of the calls so far and of the call. */
  type Oracle = (seq<LogEntry>, Request) -> Outcome

  ghost predicate Sound(oracle: Oracle) {
    forall log, q :: Allowed(q, oracle(log, q))
  }

  /** How many steps are left at most. */
  function Rank(pc: Pc): nat {
    match pc
    case Locked(op) => 4 * |Payload(op)| + 20
    case Calling(op, q, written) => 4 * Left(op, written) + Stage(q) + 2
    case Returned(op, q, written, _) => 4 * Left(op, written) + Stage(q) + 1
    case _ => 0
  }

  function Left(op: Op, written: nat): nat {
    if written <= |Payload(op)| then |Payload(op)| - written else 0
  }

  function Stage(q: Request): nat {
    match q
    case AskInitFinished => 6
    case AskShutdown => 4
    case AskFree => 2
    case _ => 0
  }

  lemma BeginGoesOn(c: Core, op: Op)
    ensures PcOk(Begin(c, op)) && Rank(Begin(c, op)) < Rank(Locked(op))
  {
  }

  lemma InspectGoesOn(c: Core, pc: Pc)
    requires pc.Returned? && PcOk(pc)
    ensures PcOk(Inspect(c, pc).1) && Rank(Inspect(c, pc).1) < Rank(pc)
  {
    InspectMovesNoPlaintext(c, pc);
  }

  /** The steps of the thread that holds the lock, up to where it releases it. */
  ghost function Section(c: Core, pc: Pc, oracle: Oracle): (r: (Core, Pc))
    requires PcOk(pc) && Sound(oracle)
    ensures Holding(pc) ==> r.1.Leaving?
    decreases Rank(pc)
  {
    match pc
    case Locked(op) =>
      BeginGoesOn(c, op);
      Section(c, Begin(c, op), oracle)
    case Calling(_, q, _) =>
      var (d, next) := Return(c, pc, oracle(c.log, q));
      Section(d, next, oracle)
    case Returned(_, _, _, _) =>
      InspectGoesOn(c, pc);
      var (d, next) := Inspect(c, pc);
      Section(d, next, oracle)
    case _ => (c, pc)
  }

  /** One SSL call and the look at its outcome. */
  lemma OneCall(c: Core, pc: Pc, oracle: Oracle)
    requires pc.Calling? && PcOk(pc) && Sound(oracle)
    ensures var (d, back) := Return(c, pc, oracle(c.log, pc.q));
            var (e, next) := Inspect(d, back);
            PcOk(back) && PcOk(next) && Section(c, pc, oracle) == Section(e, next, oracle)
  {
    var (d, back) := Return(c, pc, oracle(c.log, pc.q));
    InspectGoesOn(d, back);
    assert Section(c, pc, oracle) == Section(d, back, oracle);
  }

  /** An operation of a single SSL call answers as soon as it has looked at the outcome. */
  lemma SingleCall(c: Core, op: Op, oracle: Oracle)
    requires Begin(c, op).Calling? && !op.Write? && !op.Close? && Sound(oracle)
    ensures var pc := Begin(c, op);
            var (d, back) := Return(c, pc, oracle(c.log, pc.q));
            Section(c, Locked(op), oracle) == Inspect(d, back) && Inspect(d, back).1.Leaving?
  {
    var pc := Begin(c, op);
    BeginGoesOn(c, op);
    OneCall(c, pc, oracle);
  }

  /** The whole operation: take the lock, do that, and release it. */
  ghost function Operation(c: Core, op: Op, oracle: Oracle): Core
    requires Sound(oracle)
  {
    var (d, pc) := Section(c, Locked(op), oracle);
    Release(d, pc)
  }

  // ── Operations are runs of the interleaving ──

  ghost predicate Leads(s: State, last: State) {
    exists es :: Runs(s, es, last)
  }

  lemma LeadsNowhere(s: State)
    ensures Leads(s, s)
  {
    assert Runs(s, [], s);
  }

  lemma StepLeads(s: State, e: Step, last: State)
    requires Enabled(s, e) && Leads(Apply(s, e), last)
    ensures Leads(s, last)
  {
    var es :| Runs(Apply(s, e), es, last);
    assert ([e] + es)[1..] == es;
    assert Runs(s, [e] + es, last);
  }

  lemma {:induction false} LeadsOn(s: State, es: seq<Step>, mid: State, last: State)
    requires Runs(s, es, mid) && Leads(mid, last)
    ensures Leads(s, last)
    decreases |es|
  {
    if es != [] {
      LeadsOn(Apply(s, es[0]), es[1..], mid, last);
      StepLeads(s, es[0], last);
    }
  }

  lemma ReachableOn(s: State, last: State)
    requires Reachable(s) && Leads(s, last)
    ensures Reachable(last)
  {
    var start, es :| Initial(start) && Runs(start, es, s);
    LeadsOn(start, es, s, last);
    var more :| Runs(start, more, last);
  }

  /** The state in which thread `t` has come to `at.1`, and the session to `at.0`. */
  ghost function Moved(s: State, t: nat, at: (Core, Pc)): State
    requires t < |s.pcs|
  {
    s.(core := at.0, pcs := s.pcs[t := at.1])
  }

  /** What a thread does under the lock is a run, wherever the other threads are. */
  lemma {:induction false} SectionRuns(s: State, t: nat, oracle: Oracle)
    requires t < |s.pcs| && PcOk(s.pcs[t]) && Sound(oracle)
    ensures Leads(s, Moved(s, t, Section(s.core, s.pcs[t], oracle)))
    decreases Rank(s.pcs[t])
  {
    var pc := s.pcs[t];
    var goal := Moved(s, t, Section(s.core, pc, oracle));
    if pc.Locked? || pc.Calling? || pc.Returned? {
      var e := if pc.Locked? then DoBegin(t)
               else if pc.Calling? then DoReturn(t, oracle(s.core.log, pc.q))
               else DoInspect(t);
      if pc.Locked? {
        BeginGoesOn(s.core, pc.op);
      } else if pc.Returned? {
        InspectGoesOn(s.core, pc);
      }
      var next := Apply(s, e);
      SectionRuns(next, t, oracle);
      assert Moved(next, t, Section(next.core, next.pcs[t], oracle)) == goal;
      StepLeads(s, e, goal);
    } else {
      assert goal == s;
      LeadsNowhere(s);
    }
  }

  /** And so is a whole operation, from asking for the lock to giving it back, of any
      thread whenever the lock is free. */
  lemma OperationRuns(s: State, t: nat, op: Op, oracle: Oracle)
    requires t < |s.pcs| && s.pcs[t].Idle? && s.owner.Unlocked? && !s.core.finalized && Sound(oracle)
    ensures Leads(s, s.(core := Operation(s.core, op, oracle)))
  {
    var goal := s.(core := Operation(s.core, op, oracle));
    var wanting := Apply(s, Invoke(t, op));
    var locked := Apply(wanting, Acquire(t));
    var leaving := Moved(locked, t, Section(s.core, Locked(op), oracle));
    assert Apply(leaving, DoRelease(t)) == goal;
    LeadsNowhere(goal);
    StepLeads(leaving, DoRelease(t), goal);
    SectionRuns(locked, t, oracle);
    var es :| Runs(locked, es, leaving);
    LeadsOn(locked, es, leaving, goal);
    StepLeads(wanting, Acquire(t), goal);
    StepLeads(s, Invoke(t, op), goal);
  }

  // ── Sessions that nobody is at ──

  ghost function Rest(c: Core): State {
    State(c, Unlocked, [Idle])
  }

  /** Some operations have left the session like this. */
  ghost predicate AtRest(c: Core) {
    Reachable(Rest(c))
  }

  lemma NewIsAtRest()
    ensures AtRest(NEW_SESSION)
  {
    assert Initial(Rest(NEW_SESSION)) && Runs(Rest(NEW_SESSION), [], Rest(NEW_SESSION));
  }

  lemma OperationKeeps(c: Core, op: Op, oracle: Oracle)
    requires AtRest(c) && !c.finalized && Sound(oracle)
    ensures AtRest(Operation(c, op, oracle))
  {
    OperationRuns(Rest(c), 0, op, oracle);
    ReachableOn(Rest(c), Rest(Operation(c, op, oracle)));
  }

  lemma FinalizerKeeps(c: Core)
    requires AtRest(c) && !c.finalized
    ensures AtRest(TlsSession.Finalize(c))
  {
    var last := Rest(TlsSession.Finalize(c));
    assert Apply(Rest(c), DoFinalize) == last;
    LeadsNowhere(last);
    StepLeads(Rest(c), DoFinalize, last);
    ReachableOn(Rest(c), last);
  }

  /** What the theorems on runs say of a session that nobody is at. */
  lemma RestIsSafe(c: Core)
    requires AtRest(c)
    ensures forall e | e in c.history :: EntryOk(e)
    ensures HistoryOk(c.history, c.log)
    ensures c.plain == Concat(Accepted(c.history)) == Written(c.log)
    ensures FreeIsLast(c.log) && NoShutdownAfterFatal(c.log) && c.failed == AnyFatal(c.log)
    ensures c.finalized ==> c.log != [] && c.log[|c.log| - 1].q.AskFree?
  {
    ReachableTraced(Rest(c));
  }

  // ── What an operation does, on the log alone ──

  /** The session went from `c` to `d` by the SSL calls that `op` owed it, with the
      outcomes OpenSSL gave to just those calls, and with the answer they call for. */
  ghost predicate Acts(c: Core, d: Core, op: Op, oracle: Oracle, reply: Reply) {
    && c.log <= d.log
    && Asked(oracle, d.log, |c.log|)
    && var made := d.log[|c.log|..];
    && Calls(op, c.ssl, c.failed, made) && Answered(op, c.ssl, made, reply)
    && d.plain == c.plain + Written(made)
    && d.failed == (c.failed || AnyFatal(made))
  }

  /** The outcomes from the call numbered `from` on are OpenSSL's. */
  ghost predicate Asked(oracle: Oracle, log: seq<LogEntry>, from: nat) {
    forall i | from <= i < |log| :: log[i].o == oracle(log[..i], log[i].q)
  }

  lemma {:induction false} SectionAsks(c: Core, pc: Pc, oracle: Oracle)
    requires PcOk(pc) && Sound(oracle)
    ensures var d := Section(c, pc, oracle).0;
            c.log <= d.log && Asked(oracle, d.log, |c.log|) && d.history == c.history && d.finalized == c.finalized
    decreases Rank(pc)
  {
    match pc
    case Locked(op) =>
      BeginGoesOn(c, op);
      SectionAsks(c, Begin(c, op), oracle);
    case Calling(_, q, _) =>
      var (d, next) := Return(c, pc, oracle(c.log, q));
      SectionAsks(d, next, oracle);
      var last := Section(d, next, oracle).0;
      assert last.log[..|c.log|] == c.log && last.log[|c.log|] == d.log[|c.log|];
    case Returned(_, _, _, _) =>
      InspectGoesOn(c, pc);
      InspectLogsNothing(c, pc);
      SectionAsks(Inspect(c, pc).0, Inspect(c, pc).1, oracle);
    case _ =>
  }

  lemma {:induction false} SectionIsOf(c: Core, pc: Pc, oracle: Oracle)
    requires PcOk(pc) && Sound(oracle) && Holding(pc)
    ensures Section(c, pc, oracle).1.op == pc.op
    decreases Rank(pc)
  {
    match pc
    case Locked(op) =>
      BeginGoesOn(c, op);
      SectionIsOf(c, Begin(c, op), oracle);
    case Calling(_, q, _) =>
      var (d, next) := Return(c, pc, oracle(c.log, q));
      SectionIsOf(d, next, oracle);
    case Returned(_, _, _, _) =>
      InspectGoesOn(c, pc);
      SectionIsOf(Inspect(c, pc).0, Inspect(c, pc).1, oracle);
    case _ =>
  }

  /** What the new entry handed over is new plaintext. */
  lemma HandedOver(c: Core, d: Core, e: Entry)
    requires AtRest(c) && AtRest(d)
    requires |d.history| == |c.history| + 1 && d.history[..|c.history|] == c.history && d.history[|c.history|] == e
    ensures d.plain == c.plain + e.accepted && EntryOk(e)
  {
    RestIsSafe(c);
    RestIsSafe(d);
    assert d.history == c.history + [e] && e in d.history;
    assert Accepted(d.history) == Accepted(c.history) + [e.accepted];
    ConcatSnoc(Accepted(c.history), e.accepted);
  }

  /** A blocking write fails the session exactly when it fails on an open one. */
  lemma WriteMeans(c: Core, d: Core, oracle: Oracle, data: seq<Byte>, r: Reply)
    requires Acts(c, d, TlsSession.Write(data), oracle, r)
    ensures d.failed == (c.failed || (c.ssl && r == Failed))
    ensures data == [] || !c.ssl ==> d.log == c.log && r == if c.ssl then GotUnit else Failed
  {
    var made := d.log[|c.log|..];
    Extends(c.log, d.log);
    assert c.log + [] == c.log;
    assert made != [] ==> (Fatal(made[|made| - 1]) <==> r == Failed);
    assert forall i | 0 <= i < |made| - 1 :: !Fatal(made[i]);
  }

  /** All the calls of a close, in order. */
  lemma ClosesWith(c: Core, d: Core, oracle: Oracle, r: Reply)
    requires Acts(c, d, TlsSession.Close, oracle, r) && c.ssl && Sound(oracle)
    ensures var asked := c.log + [LogEntry(TlsSession.Close, AskInitFinished, oracle(c.log, AskInitFinished))];
            var shut := [LogEntry(TlsSession.Close, AskShutdown, oracle(asked, AskShutdown))];
            var free := [LogEntry(TlsSession.Close, AskFree, Done(0))];
            d.log == if c.failed then c.log + free
                     else if oracle(c.log, AskInitFinished) == Done(1) then asked + shut + free
                     else asked + free
  {
    var made := d.log[|c.log|..];
    Extends(c.log, d.log);
    AskedAt(oracle, c.log, made, 0);
    assert c.log + made[..0] == c.log;
    if c.failed {
      assert made == [made[0]];
    } else {
      assert made[..1] == [made[0]];
      AskedAt(oracle, c.log, made, 1);
      ThreeAsked(c.log, made, oracle);
    }
  }

  lemma ThreeAsked(log: seq<LogEntry>, made: seq<LogEntry>, oracle: Oracle)
    requires 2 <= |made| <= 3 && Asked(oracle, log + made, |log|) && Sound(oracle)
    requires made[|made| - 1].q == AskFree && forall i | 0 <= i < |made| :: made[i].op == TlsSession.Close
    ensures made[|made| - 1] == LogEntry(TlsSession.Close, AskFree, Done(0))
    ensures log + made == log + [made[0]] + (if |made| == 3 then [made[1]] else []) + [made[|made| - 1]]
  {
    AskedAt(oracle, log, made, |made| - 1);
    assert made == [made[0]] + (if |made| == 3 then [made[1]] else []) + [made[|made| - 1]];
  }

  lemma Extends(log: seq<LogEntry>, more: seq<LogEntry>)
    requires log <= more
    ensures more == log + more[|log|..] && more[..|log|] == log && more[|log|..|more|] == more[|log|..]
  {
  }

  lemma AskedAt(oracle: Oracle, log: seq<LogEntry>, made: seq<LogEntry>, i: nat)
    requires Asked(oracle, log + made, |log|) && i < |made|
    ensures made[i].o == oracle(log + made[..i], made[i].q)
  {
    assert (log + made)[..|log| + i] == log + made[..i] && (log + made)[|log| + i] == made[i];
  }

  lemma RestMarks(c: Core)
    requires AtRest(c) && !c.finalized
    ensures LoggedBefore(c.history, |c.history|) == |c.log|
    ensures c.ssl == NeverFreed(c.log) && c.failed == AnyFatal(c.log) && c.plain == Written(c.log)
  {
    ReachableTraced(Rest(c));
  }

  lemma LogSplits(log: seq<LogEntry>, more: seq<LogEntry>)
    ensures Written(log + more) == Written(log) + Written(more)
    ensures AnyFatal(log + more) == (AnyFatal(log) || AnyFatal(more))
  {
    WrittenSplits(log, more);
    assert forall i | 0 <= i < |log| :: (log + more)[i] == log[i];
    assert forall i | 0 <= i < |more| :: (log + more)[|log| + i] == more[i];
    if AnyFatal(more) {
      var i :| 0 <= i < |more| && Fatal(more[i]);
      assert Fatal((log + more)[|log| + i]);
    }
  }

  lemma {:induction false} WrittenSplits(log: seq<LogEntry>, more: seq<LogEntry>)
    ensures Written(log + more) == Written(log) + Written(more)
  {
    if more == [] {
      assert log + more == log;
    } else {
      var init, e := more[..|more| - 1], more[|more| - 1];
      WrittenSplits(log, init);
      assert (log + more)[..|log + more| - 1] == log + init && (log + more)[|log + more| - 1] == e;
    }
  }

  /** One more operation in the history, with its answer. */
  lemma OperationRecords(c: Core, op: Op, oracle: Oracle)
    requires Sound(oracle)
    ensures var d := Operation(c, op, oracle);
            && c.log <= d.log && Asked(oracle, d.log, |c.log|) && d.finalized == c.finalized
            && |d.history| == |c.history| + 1 && d.history[..|c.history|] == c.history
            && d.history[|c.history|].op == op && d.history[|c.history|].logged == |d.log|
  {
    SectionAsks(c, Locked(op), oracle);
    SectionIsOf(c, Locked(op), oracle);
  }

  lemma OperationActs(c: Core, op: Op, oracle: Oracle)
    requires AtRest(c) && !c.finalized && Sound(oracle)
    ensures var d := Operation(c, op, oracle);
            d.history != [] && Acts(c, d, op, oracle, d.history[|d.history| - 1].reply)
  {
    var d := Operation(c, op, oracle);
    OperationRecords(c, op, oracle);
    OperationKeeps(c, op, oracle);
    RestMarks(c);
    RestMarks(d);
    ReachableTraced(Rest(d));
    LastActed(c, d, op, oracle);
  }

  /** What the last entry says of the calls since `c`. */
  lemma LastActed(c: Core, d: Core, op: Op, oracle: Oracle)
    requires c.log <= d.log && Asked(oracle, d.log, |c.log|)
    requires |d.history| == |c.history| + 1 && d.history[..|c.history|] == c.history
    requires d.history[|c.history|].op == op && d.history[|c.history|].logged == |d.log|
    requires LoggedBefore(c.history, |c.history|) == |c.log| && EntryActed(d.history, d.log, |c.history|)
    requires c.ssl == NeverFreed(c.log) && c.failed == AnyFatal(c.log) && c.plain == Written(c.log)
    requires d.failed == AnyFatal(d.log) && d.plain == Written(d.log)
    ensures Acts(c, d, op, oracle, d.history[|d.history| - 1].reply)
  {
    assert LoggedBefore(d.history, |c.history|) == |c.log| by {
      assert |c.history| > 0 ==> d.history[..|c.history|][|c.history| - 1] == c.history[|c.history| - 1];
    }
    Extends(c.log, d.log);
    LogSplits(c.log, d.log[|c.log|..]);
  }

  class Session {
    const oracle: Oracle
    var ssl: bool
    var failed: bool
    var log: seq<LogEntry>   // what OpenSSL has been asked and has answered
    var plain: seq<Byte>     // and the plaintext it has accepted
    ghost var history: seq<Entry>
    ghost var finalized: bool

    /** The session, as the interleaving sees it. */
    ghost function Now(): Core
      reads this
    {
      Core(ssl, failed, finalized, log, plain, history)
    }

    /** The session is in use, and as some interleaving leaves it. */
    ghost predicate Valid()
      reads this
    {
      Sound(oracle) && !finalized && AtRest(Now())
    }

    constructor (oracle: Oracle)
      requires Sound(oracle)
      ensures Valid() && this.oracle == oracle && Now() == NEW_SESSION
    {
      this.oracle := oracle;
      ssl, failed, log, plain, history, finalized := true, false, [], [], [], false;
      new;
      NewIsAtRest();
    }

    /** One SSL call. */
    method Call(op: Op, q: Request) returns (o: Outcome)
      modifies this`log, this`plain
      ensures o == oracle(old(log), q)
      ensures forall w :: Return(old(Now()), Calling(op, q, w), o) == (Now(), Returned(op, q, w, o))
    {
      o := oracle(log, q);
      log := log + [LogEntry(op, q, o)];
      if q.AskWrite? && o.Done? {
        plain := plain + q.bytes;
      } else {
        assert plain + [] == plain;
      }
    }

    /** `linen_tls_unlock`, at the end of an operation that found the session as `before`. */
    ghost method Unlock(before: Core, op: Op, reply: Reply, accepted: seq<Byte>, cause: Option<Outcome>)
      requires Sound(oracle) && AtRest(before) && !before.finalized && !finalized
      requires (Now(), Leaving(op, reply, accepted, cause)) == Section(before, Locked(op), oracle)
      modifies this`history
      ensures Valid() && Now() == Operation(before, op, oracle)
      ensures history == old(history) + [Entry(op, reply, accepted, cause, |log|)]
      ensures Acts(before, Now(), op, oracle, reply)
      ensures plain == before.plain + accepted && EntryOk(Entry(op, reply, accepted, cause, |log|))
    {
      OperationKeeps(before, op, oracle);
      OperationActs(before, op, oracle);
      history := history + [Entry(op, reply, accepted, cause, |log|)];
      OperationRecords(before, op, oracle);
      HandedOver(before, Now(), Entry(op, reply, accepted, cause, |log|));
    }

    /** `linen_tls_read`. */
    method Read(maxlen: nat) returns (r: Reply, ghost cause: Option<Outcome>)
      requires Valid()
      modifies this
      ensures Valid() && Now() == Operation(old(Now()), TlsSession.Read(maxlen), oracle)
      ensures history == old(history) + [Entry(TlsSession.Read(maxlen), r, [], cause, |log|)]
      ensures Acts(old(Now()), Now(), TlsSession.Read(maxlen), oracle, r)
      ensures !old(ssl) || maxlen == 0 ==> log == old(log) && r == GotBytes(0)
      ensures old(ssl) && maxlen > 0 ==>
                var q := AskRead(if maxlen < 0x7FFF_FFFF then maxlen else 0x7FFF_FFFF);
                var o := oracle(old(log), q);
                && log == old(log) + [LogEntry(TlsSession.Read(maxlen), q, o)]
                && r == GotBytes(if o.Done? then o.n else 0)
                && failed == (old(failed) || !(o.Done? || o.ZeroReturn?))
    {
      ghost var op, before := TlsSession.Read(maxlen), Now();
      r, cause := GotBytes(0), None;
      if ssl && maxlen != 0 {
        var cap := if maxlen > INT32_MAX then INT32_MAX else maxlen;
        SingleCall(before, op, oracle);
        var o := Call(TlsSession.Read(maxlen), AskRead(cap));
        cause := Some(o);
        if o.Done? {
          r := GotBytes(o.n);
        } else if !o.ZeroReturn? {
          failed := true;
        }
      }
      Unlock(before, op, r, [], cause);
    }

    /** `linen_tls_write`. */
    method Write(data: seq<Byte>) returns (r: Reply, ghost accepted: seq<Byte>, ghost cause: Option<Outcome>)
      requires Valid()
      modifies this
      ensures Valid() && Now() == Operation(old(Now()), TlsSession.Write(data), oracle)
      ensures history == old(history) + [Entry(TlsSession.Write(data), r, accepted, cause, |log|)]
      ensures Acts(old(Now()), Now(), TlsSession.Write(data), oracle, r)
      ensures plain == old(plain) + accepted
      ensures if r == GotUnit then accepted == data else r == Failed && accepted <= data
      ensures failed == (old(failed) || (old(ssl) && r == Failed))
      ensures data == [] || !old(ssl) ==> log == old(log) && r == if old(ssl) then GotUnit else Failed
    {
      ghost var op, before := TlsSession.Write(data), Now();
      r, accepted, cause := WriteLocked(data);
      Unlock(before, op, r, accepted, cause);
      WriteMeans(before, Now(), oracle, data, r);
    }

    /** The same, while the lock is held. */
    method WriteLocked(data: seq<Byte>) returns (r: Reply, ghost accepted: seq<Byte>, ghost cause: Option<Outcome>)
      requires Sound(oracle)
      modifies this`log, this`plain, this`failed
      ensures (Now(), Leaving(TlsSession.Write(data), r, accepted, cause))
           == Section(old(Now()), Locked(TlsSession.Write(data)), oracle)
    {
      ghost var op, before := TlsSession.Write(data), Now();
      if !ssl {
        return Failed, [], None;
      }
      var written := 0;
      cause := None;
      while written < |data|
        invariant written <= |data|
        invariant data == [] ==> Now() == before
        invariant written < |data| ==> CallOk(op, AskWrite(NextPiece(data, written)), written)
        invariant written < |data| ==>
          Section(Now(), Calling(op, AskWrite(NextPiece(data, written)), written), oracle) == Section(before, Locked(op), oracle)
        invariant written == |data| ==> (Now(), Leaving(op, GotUnit, data, cause)) == Section(before, Locked(op), oracle)
      {
        OneCall(Now(), Calling(op, AskWrite(NextPiece(data, written)), written), oracle);
        var o := Call(TlsSession.Write(data), AskWrite(NextPiece(data, written)));
        cause := Some(o);
        if !o.Done? {
          failed := true;
          return Failed, data[..written], cause;
        }
        written := written + o.n;
      }
      return GotUnit, data, cause;
    }

    /** `linen_tls_close`. */
    method Close() returns (r: Reply, ghost cause: Option<Outcome>)
      requires Valid()
      modifies this
      ensures !ssl && failed == old(failed)
      ensures Valid() && Now() == Operation(old(Now()), TlsSession.Close, oracle)
      ensures history == old(history) + [Entry(TlsSession.Close, r, [], cause, |log|)]
      ensures Acts(old(Now()), Now(), TlsSession.Close, oracle, r)
      ensures old(ssl) ==>
                var asked := old(log) + [LogEntry(TlsSession.Close, AskInitFinished, oracle(old(log), AskInitFinished))];
                var shut := [LogEntry(TlsSession.Close, AskShutdown, oracle(asked, AskShutdown))];
                var free := [LogEntry(TlsSession.Close, AskFree, Done(0))];
                log == if old(failed) then old(log) + free
                       else if oracle(old(log), AskInitFinished) == Done(1) then asked + shut + free
                       else asked + free
    {
      ghost var op, before := TlsSession.Close, Now();
      cause := None;
      if ssl {
        if !failed {
          OneCall(Now(), Calling(op, AskInitFinished, 0), oracle);
          var o := Call(TlsSession.Close, AskInitFinished);
          if o == Done(1) {
            OneCall(Now(), Calling(op, AskShutdown, 0), oracle);
            var _ := Call(TlsSession.Close, AskShutdown);
          }
        }
        OneCall(Now(), Calling(op, AskFree, 0), oracle);
        var o := Call(TlsSession.Close, AskFree);
        ssl := false;
        cause := Some(o);
      }
      Unlock(before, op, GotUnit, [], cause);
      if before.ssl {
        ClosesWith(before, Now(), oracle, GotUnit);
      }
      return GotUnit, cause;
    }

    /** `linen_tls_handshake_nb`. */
    method HandshakeNb() returns (r: Reply, ghost cause: Option<Outcome>)
      requires Valid()
      modifies this
      ensures Valid() && Now() == Operation(old(Now()), TlsSession.HandshakeNb, oracle)
      ensures history == old(history) + [Entry(TlsSession.HandshakeNb, r, [], cause, |log|)]
      ensures Acts(old(Now()), Now(), TlsSession.HandshakeNb, oracle, r)
      ensures old(ssl) ==>
                var o := oracle(old(log), AskHandshake);
                && log == old(log) + [LogEntry(TlsSession.HandshakeNb, AskHandshake, o)]
                && r == (if o.Done? then GotUnit else if o.WantRead? || o.WantWrite? then Retry(o) else Failed)
                && failed == (old(failed) || r == Failed)
    {
      ghost var op, before := TlsSession.HandshakeNb, Now();
      r, cause := Failed, None;
      if ssl {
        SingleCall(before, op, oracle);
        var o := Call(TlsSession.HandshakeNb, AskHandshake);
        cause := Some(o);
        if o.Done? {
          r := GotUnit;
        } else if Wants(o) {
          r := Retry(o);
        } else {
          failed := true;
        }
      }
      Unlock(before, op, r, [], cause);
    }

    /** `linen_tls_read_nb`. */
    method ReadNb(maxlen: nat) returns (r: Reply, ghost cause: Option<Outcome>)
      requires Valid()
      modifies this
      ensures Valid() && Now() == Operation(old(Now()), TlsSession.ReadNb(maxlen), oracle)
      ensures history == old(history) + [Entry(TlsSession.ReadNb(maxlen), r, [], cause, |log|)]
      ensures Acts(old(Now()), Now(), TlsSession.ReadNb(maxlen), oracle, r)
      ensures old(ssl) && maxlen > 0 ==>
                var q := AskRead(if maxlen < 0x7FFF_FFFF then maxlen else 0x7FFF_FFFF);
                var o := oracle(old(log), q);
                && log == old(log) + [LogEntry(TlsSession.ReadNb(maxlen), q, o)]
                && failed == (old(failed) || o.Syscall? || o.SslError?)
                && r == match o
                        case Done(n) => GotBytes(n)
                        case WantRead => Retry(o)
                        case WantWrite => Retry(o)
                        case ZeroReturn => GotBytes(0)
                        case Syscall(queueEmpty) => if queueEmpty then GotBytes(0) else Failed
                        case SslError(unexpectedEof) => if unexpectedEof then GotBytes(0) else Failed
    {
      ghost var op, before := TlsSession.ReadNb(maxlen), Now();
      r, cause := Failed, None;
      if ssl && maxlen == 0 {
        r := GotBytes(0);
      } else if ssl {
        var cap := if maxlen > INT32_MAX then INT32_MAX else maxlen;
        SingleCall(before, op, oracle);
        var o := Call(TlsSession.ReadNb(maxlen), AskRead(cap));
        cause := Some(o);
        if o.Done? {
          r := GotBytes(o.n);
        } else if Wants(o) {
          r := Retry(o);
        } else if o.ZeroReturn? {
          r := GotBytes(0);
        } else {
          failed := true;
          r := if o == Syscall(true) || o == SslError(true) then GotBytes(0) else Failed;
        }
      }
      Unlock(before, op, r, [], cause);
    }

    /** `linen_tls_write_nb`. */
    method WriteNb(data: seq<Byte>) returns (r: Reply, ghost accepted: seq<Byte>, ghost cause: Option<Outcome>)
      requires Valid()
      modifies this
      ensures Valid() && Now() == Operation(old(Now()), TlsSession.WriteNb(data), oracle)
      ensures history == old(history) + [Entry(TlsSession.WriteNb(data), r, accepted, cause, |log|)]
      ensures Acts(old(Now()), Now(), TlsSession.WriteNb(data), oracle, r)
      ensures old(ssl) && 0 < |data| <= 0x7FFF_FFFF ==>
                var o := oracle(old(log), AskWrite(data));
                && log == old(log) + [LogEntry(TlsSession.WriteNb(data), AskWrite(data), o)]
                && r == (if o.Done? then GotUnit else if o.WantRead? || o.WantWrite? then Retry(o) else Failed)
                && failed == (old(failed) || r == Failed) && accepted == if o.Done? then data else []
    {
      ghost var op, before := TlsSession.WriteNb(data), Now();
      r, accepted, cause := Failed, [], None;
      if ssl && |data| == 0 {
        r := GotUnit;
      } else if ssl && |data| <= INT32_MAX {
        SingleCall(before, op, oracle);
        var o := Call(TlsSession.WriteNb(data), AskWrite(data));
        cause := Some(o);
        if o.Done? {
          r, accepted := GotUnit, data;
        } else if Wants(o) {
          r := Retry(o);
        } else {
          failed := true;
        }
      }
      Unlock(before, op, r, accepted, cause);
    }

    /** `linen_tls_get_version` and `linen_tls_get_alpn`, as far as the session goes. */
    method Inform() returns (r: Reply, ghost cause: Option<Outcome>)
      requires Valid()
      modifies this
      ensures Valid() && Now() == Operation(old(Now()), Info, oracle)
      ensures history == old(history) + [Entry(Info, r, [], cause, |log|)]
      ensures Acts(old(Now()), Now(), Info, oracle, r)
    {
      ghost var before := Now();
      cause := None;
      if ssl {
        SingleCall(before, Info, oracle);
        var o := Call(Info, AskInfo);
        cause := Some(o);
      }
      Unlock(before, Info, GotUnit, [], cause);
      return GotUnit, cause;
    }

    /** `linen_ssl_finalizer`. */
    method Finalize()
      requires Valid()
      modifies this
      ensures Now() == TlsSession.Finalize(old(Now())) && AtRest(Now())
    {
      FinalizerKeeps(Now());
      if ssl {
        log := log + [LogEntry(TlsSession.Close, AskFree, Done(0))];
      } else {
        assert log + [] == log;
      }
      finalized := true;
    }

    /** Any one operation. */
    method Do(op: Op) returns (r: Reply, ghost e: Entry)
      requires Valid()
      modifies this
      ensures Valid() && Now() == Operation(old(Now()), op, oracle)
      ensures history == old(history) + [e] && e.op == op && e.reply == r
    {
      if NonBlocking(op) {
        r, e := DoNonBlocking(op);
      } else {
        r, e := DoBlocking(op);
      }
    }

    method DoNonBlocking(op: Op) returns (r: Reply, ghost e: Entry)
      requires Valid() && NonBlocking(op)
      modifies this
      ensures Valid() && Now() == Operation(old(Now()), op, oracle)
      ensures history == old(history) + [e] && e.op == op && e.reply == r
    {
      ghost var accepted, cause := [], None;
      match op {
        case HandshakeNb => r, cause := HandshakeNb();
        case ReadNb(maxlen) => r, cause := ReadNb(maxlen);
        case WriteNb(data) => r, accepted, cause := WriteNb(data);
      }
      e := Entry(op, r, accepted, cause, |log|);
    }

    method DoBlocking(op: Op) returns (r: Reply, ghost e: Entry)
      requires Valid() && !NonBlocking(op)
      modifies this
      ensures Valid() && Now() == Operation(old(Now()), op, oracle)
      ensures history == old(history) + [e] && e.op == op && e.reply == r
    {
      ghost var accepted, cause := [], None;
      match op {
        case Read(maxlen) => r, cause := Read(maxlen);
        case Write(data) => r, accepted, cause := Write(data);
        case Close => r, cause := Close();
        case Info => r, cause := Inform();
      }
      e := Entry(op, r, accepted, cause, |log|);
    }
  }

  // ── Whole lives of a session ──

  /** What operations, one after the other, make of a new session. */
  ghost function Served(ops: seq<Op>, oracle: Oracle): Core
    requires Sound(oracle)
  {
    if ops == [] then NEW_SESSION else Operation(Served(ops[..|ops| - 1], oracle), ops[|ops| - 1], oracle)
  }

  /** The history of these operations, with these answers. */
  ghost predicate Records(history: seq<Entry>, ops: seq<Op>, replies: seq<Reply>) {
    && |history| == |ops| == |replies|
    && forall i | 0 <= i < |ops| :: history[i].op == ops[i] && history[i].reply == replies[i]
  }

  lemma OneMoreRecord(history: seq<Entry>, ops: seq<Op>, replies: seq<Reply>, n: nat, e: Entry)
    requires n < |ops| && Records(history, ops[..n], replies) && e.op == ops[n]
    ensures Records(history + [e], ops[..n + 1], replies + [e.reply])
  {
  }

  /** Any operations on a new session, one after the other. */
  method Serve(oracle: Oracle, ops: seq<Op>) returns (s: Session, replies: seq<Reply>)
    requires Sound(oracle)
    ensures fresh(s) && s.Valid() && s.Now() == Served(ops, oracle)
    ensures Records(s.history, ops, replies)
  {
    s := new Session(oracle);
    replies := [];
    for i := 0 to |ops|
      invariant fresh(s) && s.Valid() && s.oracle == oracle
      invariant s.Now() == Served(ops[..i], oracle) && Records(s.history, ops[..i], replies)
    {
      assert ops[..i + 1][..i] == ops[..i];
      ghost var known := s.history;
      var r, e := s.Do(ops[i]);
      OneMoreRecord(known, ops, replies, i, e);
      replies := replies + [r];
    }
    assert ops[..|ops|] == ops;
  }

  /** Any operations on a new session, whatever OpenSSL answers, and then its finalizer.
      Each reply fits the outcome of its last SSL call; the plaintext is what the
      operations handed over, in order, all of it for each that succeeded; the SSL object
      is freed once, by the last call, never shut down after a fatal outcome, and
      `failed` says whether there was one. */
  method Life(oracle: Oracle, ops: seq<Op>)
    returns (replies: seq<Reply>, plain: seq<Byte>, log: seq<LogEntry>, failed: bool, ghost history: seq<Entry>)
    requires Sound(oracle)
    ensures var c := TlsSession.Finalize(Served(ops, oracle));
            plain == c.plain && log == c.log && failed == c.failed && history == c.history
    ensures Records(history, ops, replies)
    ensures forall e | e in history :: EntryOk(e)
    ensures HistoryOk(history, log)
    ensures plain == Concat(Accepted(history)) == Written(log)
    ensures log != [] && log[|log| - 1].q.AskFree? && FreeIsLast(log)
    ensures NoShutdownAfterFatal(log)
    ensures failed == AnyFatal(log)
  {
    var s;
    s, replies := Serve(oracle, ops);
    s.Finalize();
    RestIsSafe(s.Now());
    return replies, s.plain, s.log, s.failed, s.history;
  }
}
