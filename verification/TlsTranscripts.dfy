/**
 What each operation of ffi/tls.c asks of OpenSSL, call by call, and what it answers:
 stated on the log of SSL calls alone, and proved of every operation in every run of
 TlsSession.
 */
module TlsTranscripts {
  import opened Common
  import opened TlsSession

  // ── What is to be asked and answered ──

  /** An open session answers these without a call. */
  predicate NothingToDo(op: Op) {
    match op
    case Read(m) => m == 0
    case ReadNb(m) => m == 0
    case Write(data) => data == []
    case WriteNb(data) => data == [] || |data| > 0x7FFF_FFFF
    case _ => false
  }

  function AtMostInt(n: nat): nat {
    if n < 0x7FFF_FFFF then n else 0x7FFF_FFFF
  }

  /** Piece number `i` of a blocking write. */
  function Piece(data: seq<Byte>, i: nat): seq<Byte>
    requires 0x7FFF_FFFF * i <= |data|
  {
    var rest := data[0x7FFF_FFFF * i..];
    rest[..AtMostInt(|rest|)]
  }

  /** The first pieces of `data`, all but the last of them taken. */
  predicate InPieces(data: seq<Byte>, made: seq<LogEntry>) {
    && (forall i | 0 <= i < |made| :: 0x7FFF_FFFF * i < |data| && made[i].q == AskWrite(Piece(data, i)))
    && (forall i | 0 <= i < |made| - 1 :: made[i].o.Done?)
  }

  /** `made` are the calls an operation owes a session that was open, and had failed, or
      not, when it took the lock. */
  predicate Calls(op: Op, open: bool, failed: bool, made: seq<LogEntry>) {
    && (forall i | 0 <= i < |made| :: made[i].op == op)
    && (made == [] <==> !open || NothingToDo(op))
    && (made != [] ==>
         match op
         case Read(m) => |made| == 1 && made[0].q == AskRead(AtMostInt(m))
         case ReadNb(m) => |made| == 1 && made[0].q == AskRead(AtMostInt(m))
         case WriteNb(data) => |made| == 1 && made[0].q == AskWrite(data)
         case HandshakeNb => |made| == 1 && made[0].q == AskHandshake
         case Info => |made| == 1 && made[0].q == AskInfo
         case Write(data) =>
           InPieces(data, made) && (made[|made| - 1].o.Done? ==> 0x7FFF_FFFF * |made| >= |data|)
         case Close =>
           if failed then |made| == 1 && made[0].q == AskFree
           else if made[0].o == Done(1) then
             |made| == 3 && made[0].q == AskInitFinished && made[1].q == AskShutdown && made[2].q == AskFree
           else |made| == 2 && made[0].q == AskInitFinished && made[1].q == AskFree)
  }

  /** The answer without any call. */
  function Unasked(op: Op, open: bool): Reply {
    match op
    case Read(_) => GotBytes(0)
    case ReadNb(_) => if open then GotBytes(0) else Failed
    case Write(_) => if open then GotUnit else Failed
    case WriteNb(data) => if open && data == [] then GotUnit else Failed
    case HandshakeNb => Failed
    case Close => GotUnit
    case Info => GotUnit
  }

  predicate Answered(op: Op, open: bool, made: seq<LogEntry>, reply: Reply) {
    if made == [] then reply == Unasked(op, open) else AnswerFits(op, reply, made[|made| - 1].o)
  }

  /** The bytes that SSL_write took, in order. */
  function Written(log: seq<LogEntry>): seq<Byte> {
    if log == [] then []
    else
      var e := log[|log| - 1];
      Written(log[..|log| - 1]) + if e.q.AskWrite? && e.o.Done? then e.q.bytes else []
  }

  /** An operation that took the lock after the calls `before` made the calls it owed,
      and answered and handed over as their outcomes say. */
  ghost predicate Acted(before: seq<LogEntry>, made: seq<LogEntry>, e: Entry) {
    && Calls(e.op, NeverFreed(before), AnyFatal(before), made)
    && Answered(e.op, NeverFreed(before), made, e.reply)
    && e.cause == (if made == [] then None else Some(made[|made| - 1].o))
    && e.accepted == Written(made)
  }

  // ── The invariant ──

  /** How many calls there were before operation `i`. */
  function LoggedBefore(history: seq<Entry>, i: nat): nat
    requires i <= |history|
  {
    if i == 0 then 0 else history[i - 1].logged
  }

  ghost predicate EntryActed(history: seq<Entry>, log: seq<LogEntry>, i: nat)
    requires i < |history|
  {
    var from := LoggedBefore(history, i);
    from <= history[i].logged <= |log| && Acted(log[..from], log[from..history[i].logged], history[i])
  }

  ghost predicate HistoryOk(history: seq<Entry>, log: seq<LogEntry>) {
    forall i | 0 <= i < |history| :: EntryActed(history, log, i)
  }

  /** The calls `made` of an operation that is about to make the call `q`. */
  predicate Making(op: Op, failed: bool, made: seq<LogEntry>, q: Request, written: nat) {
    && !NothingToDo(op)
    && (forall i | 0 <= i < |made| :: made[i].op == op)
    && match op
       case Write(data) =>
         && 0x7FFF_FFFF * |made| == written < |data| && q == AskWrite(Piece(data, |made|))
         && InPieces(data, made) && (made != [] ==> made[|made| - 1].o.Done?)
         && Written(made) == data[..written]
       case Close =>
         (match q
          case AskInitFinished => made == [] && !failed
          case AskShutdown => |made| == 1 && !failed && made[0].q == AskInitFinished && made[0].o == Done(1)
          case AskFree =>
            if failed then made == []
            else if |made| == 1 then made[0].q == AskInitFinished && made[0].o != Done(1)
            else |made| == 2 && made[0].q == AskInitFinished && made[0].o == Done(1) && made[1].q == AskShutdown
          case _ => false)
       case Read(m) => made == [] && q == AskRead(AtMostInt(m))
       case ReadNb(m) => made == [] && q == AskRead(AtMostInt(m))
       case WriteNb(data) => made == [] && q == AskWrite(data)
       case HandshakeNb => made == [] && q == AskHandshake
       case Info => made == [] && q == AskInfo
  }

  /** Where the owner of the lock, who took it after `before`, has come to with `made`. */
  ghost predicate Acting(before: seq<LogEntry>, made: seq<LogEntry>, pc: Pc) {
    match pc
    case Locked(op) => made == []
    case Calling(op, q, written) => NeverFreed(before) && Making(op, AnyFatal(before), made, q, written)
    case Returned(op, q, written, o) =>
      && NeverFreed(before) && made != [] && made[|made| - 1] == LogEntry(op, q, o)
      && Making(op, AnyFatal(before), made[..|made| - 1], q, written)
    case Leaving(op, reply, accepted, cause) => Acted(before, made, Entry(op, reply, accepted, cause, 0))
    case _ => made == []
  }

  ghost predicate TraceOk(c: Core, pc: Pc) {
    var start := LoggedBefore(c.history, |c.history|);
    && HistoryOk(c.history, c.log)
    && c.plain == Written(c.log)
    && start <= |c.log|
    && (!c.finalized ==> Acting(c.log[..start], c.log[start..], pc))
  }

  // ── Every step keeps it ──

  lemma BeginActs(c: Core, op: Op)
    requires CoreOk(c, Locked(op)) && TraceOk(c, Locked(op))
    ensures TraceOk(c, Begin(c, op))
  {
    var start := LoggedBefore(c.history, |c.history|);
    assert c.log[..start] == c.log;
    BeginMakes(c, op);
  }

  lemma BeginMakes(c: Core, op: Op)
    requires c.ssl == NeverFreed(c.log) && c.failed == AnyFatal(c.log)
    ensures Acting(c.log, [], Begin(c, op))
  {
  }

  lemma WrittenMore(log: seq<LogEntry>, e: LogEntry)
    ensures Written(log + [e]) == Written(log) + if e.q.AskWrite? && e.o.Done? then e.q.bytes else []
  {
    assert (log + [e])[..|log|] == log;
  }

  /** What was done does not change with what is done later. */
  lemma EntryStays(history: seq<Entry>, log: seq<LogEntry>, i: nat, e: Entry, more: seq<LogEntry>)
    requires i < |history| && EntryActed(history, log, i)
    ensures EntryActed(history + [e], log + more, i)
  {
    var from, to := LoggedBefore(history, i), history[i].logged;
    assert LoggedBefore(history + [e], i) == from && (history + [e])[i] == history[i];
    assert (log + more)[..from] == log[..from] && (log + more)[from..to] == log[from..to];
  }

  lemma HistoryStays(history: seq<Entry>, log: seq<LogEntry>, more: seq<LogEntry>)
    requires HistoryOk(history, log)
    ensures HistoryOk(history, log + more)
  {
    forall i | 0 <= i < |history| ensures EntryActed(history, log + more, i) {
      var from, to := LoggedBefore(history, i), history[i].logged;
      assert EntryActed(history, log, i);
      assert (log + more)[..from] == log[..from] && (log + more)[from..to] == log[from..to];
    }
  }

  lemma HistoryGrows(history: seq<Entry>, log: seq<LogEntry>, e: Entry)
    requires HistoryOk(history, log) && LoggedBefore(history, |history|) <= e.logged == |log|
    requires Acted(log[..LoggedBefore(history, |history|)], log[LoggedBefore(history, |history|)..], e)
    ensures HistoryOk(history + [e], log)
  {
    var n := |history|;
    var from := LoggedBefore(history, n);
    assert LoggedBefore(history + [e], n) == from && log[from..] == log[from..e.logged];
    forall i | 0 <= i <= n ensures EntryActed(history + [e], log, i) {
      if i < n {
        assert EntryActed(history, log, i);
        EntryStays(history, log, i, e, []);
        assert log + [] == log;
      }
    }
  }

  lemma ReturnActs(c: Core, pc: Pc, o: Outcome)
    requires pc.Calling? && !c.finalized && TraceOk(c, pc)
    ensures TraceOk(Return(c, pc, o).0, Return(c, pc, o).1)
  {
    var start, e := LoggedBefore(c.history, |c.history|), LogEntry(pc.op, pc.q, o);
    HistoryStays(c.history, c.log, [e]);
    WrittenMore(c.log, e);
    ReturnMakes(c.log[..start], c.log[start..], pc, o);
    SuffixGrows(c.log, start, e);
  }

  lemma SuffixGrows(log: seq<LogEntry>, start: nat, e: LogEntry)
    requires start <= |log|
    ensures (log + [e])[..start] == log[..start] && (log + [e])[start..] == log[start..] + [e]
  {
  }

  lemma ReturnMakes(before: seq<LogEntry>, made: seq<LogEntry>, pc: Pc, o: Outcome)
    requires pc.Calling? && Acting(before, made, pc)
    ensures Acting(before, made + [LogEntry(pc.op, pc.q, o)], Returned(pc.op, pc.q, pc.written, o))
  {
    var more := made + [LogEntry(pc.op, pc.q, o)];
    assert more[..|more| - 1] == made;
  }

  lemma PieceIsNext(data: seq<Byte>, i: nat)
    requires 0x7FFF_FFFF * i <= |data|
    ensures Piece(data, i) == NextPiece(data, 0x7FFF_FFFF * i)
    ensures data[..0x7FFF_FFFF * i] + Piece(data, i) == data[..0x7FFF_FFFF * i + |Piece(data, i)|]
    ensures |Piece(data, i)| == AtMostInt(|data| - 0x7FFF_FFFF * i)
  {
  }

  /** The calls so far, and the one that has just returned. */
  lemma LastMade(made: seq<LogEntry>)
    requires made != []
    ensures var init, e := made[..|made| - 1], made[|made| - 1];
            && Written(made) == Written(init) + (if e.q.AskWrite? && e.o.Done? then e.q.bytes else [])
            && forall i | 0 <= i < |made| - 1 :: made[i] == init[i]
  {
  }

  /** After a piece has been taken: the calls so far are the pieces so far. */
  lemma PieceTaken(data: seq<Byte>, made: seq<LogEntry>)
    requires made != [] && InPieces(data, made[..|made| - 1])
    requires var n := |made| - 1;
             && 0x7FFF_FFFF * n < |data| && made[n].q == AskWrite(Piece(data, n))
             && (forall i | 0 <= i < n :: made[i].o.Done?)
             && Written(made[..n]) == data[..0x7FFF_FFFF * n]
    ensures InPieces(data, made)
    ensures var n := |made| - 1;
            Written(made) == data[..0x7FFF_FFFF * n + if made[n].o.Done? then |Piece(data, n)| else 0]
  {
    LastMade(made);
    PieceIsNext(data, |made| - 1);
  }

  /** The pieces up to the one whose outcome is being looked at. */
  predicate Wrote(data: seq<Byte>, made: seq<LogEntry>, written: nat) {
    && made != [] && InPieces(data, made) && written <= |data| && Written(made) == data[..written]
    && (forall i | 0 <= i < |made| :: made[i].op == TlsSession.Write(data))
    && (made[|made| - 1].o.Done? ==> written == Min(|data|, 0x7FFF_FFFF * |made|))
  }

  lemma WroteSoFar(pc: Pc, before: seq<LogEntry>, made: seq<LogEntry>)
    requires pc.Returned? && pc.op.Write? && PcOk(pc) && Acting(before, made, pc)
    ensures Wrote(pc.op.data, made, pc.written + if pc.o.Done? then pc.o.n else 0)
    ensures made[|made| - 1].o == pc.o && NeverFreed(before)
  {
    var data, n := pc.op.data, |made| - 1;
    var init := made[..n];
    LastMade(made);
    assert forall i | 0 <= i < n :: made[i].o.Done? by {
      assert n > 0 ==> init[n - 1].o.Done?;
      assert forall i | 0 <= i < n :: made[i] == init[i];
    }
    PieceTaken(data, made);
    PieceIsNext(data, n);
  }

  /** After the outcome of a blocking write: the next piece, or all the calls it owed. */
  lemma InspectWriteActs(c: Core, pc: Pc, before: seq<LogEntry>, made: seq<LogEntry>)
    requires pc.Returned? && pc.op.Write? && PcOk(pc) && Acting(before, made, pc)
    ensures Acting(before, made, Inspect(c, pc).1)
  {
    WroteSoFar(pc, before, made);
    WroteActs(c, pc, before, made);
  }

  lemma WroteActs(c: Core, pc: Pc, before: seq<LogEntry>, made: seq<LogEntry>)
    requires pc.Returned? && pc.op.Write? && NeverFreed(before)
    requires Wrote(pc.op.data, made, pc.written + if pc.o.Done? then pc.o.n else 0) && made[|made| - 1].o == pc.o
    ensures Acting(before, made, Inspect(c, pc).1)
  {
    var data := pc.op.data;
    if pc.o.Done? && pc.written + pc.o.n < |data| {
      PieceIsNext(data, |made|);
    } else {
      assert pc.o.Done? ==> data[..|data|] == data;
      WriteOwed(data, made);
    }
  }

  lemma WriteOwed(data: seq<Byte>, made: seq<LogEntry>)
    requires made != [] && InPieces(data, made) && data != []
    requires forall i | 0 <= i < |made| :: made[i].op == TlsSession.Write(data)
    requires made[|made| - 1].o.Done? ==> 0x7FFF_FFFF * |made| >= |data|
    ensures !NothingToDo(TlsSession.Write(data))
    ensures Calls(TlsSession.Write(data), true, false, made) && Calls(TlsSession.Write(data), true, true, made)
  {
  }

  lemma InspectCloseActs(c: Core, pc: Pc, before: seq<LogEntry>, made: seq<LogEntry>)
    requires pc.Returned? && pc.op.Close? && PcOk(pc) && Acting(before, made, pc)
    ensures Acting(before, made, Inspect(c, pc).1)
  {
    LastMade(made);
    WrittenNothing(made);
  }

  lemma {:induction false} WrittenNothing(made: seq<LogEntry>)
    requires forall i | 0 <= i < |made| :: !made[i].q.AskWrite?
    ensures Written(made) == []
  {
    if made != [] {
      WrittenNothing(made[..|made| - 1]);
    }
  }

  lemma InspectOneActs(c: Core, pc: Pc, before: seq<LogEntry>, made: seq<LogEntry>)
    requires pc.Returned? && !pc.op.Write? && !pc.op.Close? && PcOk(pc) && Acting(before, made, pc)
    ensures Acting(before, made, Inspect(c, pc).1)
  {
    LastMade(made);
    assert made[..|made| - 1] == [];
  }

  lemma InspectMakes(c: Core, pc: Pc, before: seq<LogEntry>, made: seq<LogEntry>)
    requires pc.Returned? && PcOk(pc) && Acting(before, made, pc)
    ensures Acting(before, made, Inspect(c, pc).1)
  {
    match pc.op {
      case Write(_) => InspectWriteActs(c, pc, before, made);
      case Close => InspectCloseActs(c, pc, before, made);
      case _ => InspectOneActs(c, pc, before, made);
    }
  }

  lemma InspectLogsNothing(c: Core, pc: Pc)
    requires pc.Returned?
    ensures var d := Inspect(c, pc).0;
            d.log == c.log && d.plain == c.plain && d.history == c.history && d.finalized == c.finalized
  {
  }

  lemma InspectActs(c: Core, pc: Pc)
    requires pc.Returned? && PcOk(pc) && !c.finalized && TraceOk(c, pc)
    ensures TraceOk(Inspect(c, pc).0, Inspect(c, pc).1)
  {
    var start := LoggedBefore(c.history, |c.history|);
    InspectLogsNothing(c, pc);
    InspectMakes(c, pc, c.log[..start], c.log[start..]);
  }

  lemma ReleaseActs(c: Core, pc: Pc)
    requires pc.Leaving? && !c.finalized && TraceOk(c, pc)
    ensures TraceOk(Release(c, pc), Idle)
  {
    HistoryGrows(c.history, c.log, Entry(pc.op, pc.reply, pc.accepted, pc.cause, |c.log|));
    assert c.log[|c.log|..] == [];
  }

  lemma FinalizeActs(c: Core)
    requires !c.finalized && TraceOk(c, Idle)
    ensures TraceOk(TlsSession.Finalize(c), Idle)
  {
    var e := LogEntry(Close, AskFree, Done(0));
    HistoryStays(c.history, c.log, if c.ssl then [e] else []);
    WrittenMore(c.log, e);
    assert c.log + [] == c.log;
  }

  ghost predicate Traced(s: State) {
    Inv(s) && TraceOk(s.core, Current(s))
  }

  /** What a step does to the session and to the owner of its lock. */
  lemma CoreActs(s: State, e: Step, next: Pc)
    requires MutexOk(s) && CoreOk(s.core, Current(s)) && TraceOk(s.core, Current(s)) && Enabled(s, e)
    requires s.core.finalized ==> forall t | 0 <= t < |s.pcs| :: s.pcs[t].Idle?
    requires next == match e
             case Acquire(t) => Locked(s.pcs[t].op)
             case DoBegin(t) => Begin(s.core, s.pcs[t].op)
             case DoReturn(t, o) => Return(s.core, s.pcs[t], o).1
             case DoInspect(t) => Inspect(s.core, s.pcs[t]).1
             case DoRelease(t) => Idle
             case _ => Current(s)
    ensures TraceOk(Apply(s, e).core, next)
  {
    match e
    case DoBegin(t) => BeginActs(s.core, s.pcs[t].op);
    case DoReturn(t, o) => ReturnActs(s.core, s.pcs[t], o);
    case DoInspect(t) => InspectActs(s.core, s.pcs[t]);
    case DoRelease(t) => ReleaseActs(s.core, s.pcs[t]);
    case DoFinalize => FinalizeActs(s.core);
    case _ =>
  }

  lemma StepActs(s: State, e: Step)
    requires Traced(s) && Enabled(s, e)
    ensures Traced(Apply(s, e))
  {
    StepKeeps(s, e);
    StepKeepsMutex(s, e);
    CoreActs(s, e, Current(Apply(s, e)));
  }

  lemma {:induction false} RunActs(s: State, es: seq<Step>, last: State)
    requires Traced(s) && Runs(s, es, last)
    ensures Traced(last)
    decreases |es|
  {
    if es != [] {
      StepActs(s, es[0]);
      RunActs(Apply(s, es[0]), es[1..], last);
    }
  }

  lemma InitialTraced(s: State)
    requires Initial(s)
    ensures Traced(s)
  {
    ReachableStart(s);
    ReachableOk(s);
    NewTraced(s.core);
    assert Current(s) == Idle;
  }

  lemma NewTraced(c: Core)
    requires c.history == [] && c.log == [] && c.plain == []
    ensures TraceOk(c, Idle)
  {
    assert c.log[0..] == [];
  }

  lemma ReachableStart(s: State)
    requires Initial(s)
    ensures Reachable(s)
  {
    assert Runs(s, [], s);
  }

  lemma ReachableTraced(s: State)
    requires Reachable(s)
    ensures Traced(s)
  {
    var start, es :| Initial(start) && Runs(start, es, s);
    InitialTraced(start);
    RunActs(start, es, s);
  }

  // ── The theorems ──

  /** In every run, each finished operation has made exactly the calls that it owed the
      session as it found it, in one stretch of the log; and its answer and what it
      handed over are what their outcomes say. */
  lemma EveryOperationActed(s: State, i: nat)
    requires Reachable(s) && i < |s.core.history|
    ensures var h, log := s.core.history, s.core.log;
            var from := LoggedBefore(h, i);
            from <= h[i].logged <= |log| && Acted(log[..from], log[from..h[i].logged], h[i])
  {
    ReachableTraced(s);
    assert EntryActed(s.core.history, s.core.log, i);
  }

  /** An operation makes no call exactly when it has nothing to do, or took the lock after
      the SSL object was freed. */
  lemma NoCallIff(s: State, i: nat)
    requires Reachable(s) && i < |s.core.history|
    ensures var h, log := s.core.history, s.core.log;
            h[i].cause == None <==>
              || NothingToDo(h[i].op)
              || exists k | 0 <= k < LoggedBefore(h, i) && k < |log| :: log[k].q.AskFree?
  {
    ReachableTraced(s);
    var h, log := s.core.history, s.core.log;
    var from := LoggedBefore(h, i);
    assert EntryActed(h, log, i);
    assert forall k | 0 <= k < from :: log[..from][k] == log[k];
  }

  /** The plaintext is what the SSL_write calls in the log have taken. */
  lemma PlaintextIsLogged(s: State)
    requires Reachable(s)
    ensures s.core.plain == Written(s.core.log)
  {
    ReachableTraced(s);
  }
}
