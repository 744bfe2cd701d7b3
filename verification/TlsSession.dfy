/**
 The session protocol of ffi/tls.c: threads that share one SSL object under its
 per-session mutex. A thread asks for an operation, takes the lock, makes its SSL calls
 one by one, looks at the outcome of each, and lets go of the lock as it answers.
 Threads interleave between any two of these steps.
 */
module TlsSession {
  import opened Common

  const INT32_MAX := 0x7FFF_FFFF

  // ── Operations, SSL calls and outcomes ──

  datatype Op =
    | Read(maxlen: nat)
    | Write(data: seq<Byte>)
    | Close
    | HandshakeNb
    | ReadNb(maxlen: nat)
    | WriteNb(data: seq<Byte>)
    | Info  // the version and ALPN getters

  /** One call on the SSL object. */
  datatype Request =
    | AskRead(cap: nat)
    | AskWrite(bytes: seq<Byte>)
    | AskHandshake
    | AskInitFinished
    | AskShutdown
    | AskFree
    | AskInfo

  /** A positive return value, or what SSL_get_error and the error queue say. */
  datatype Outcome =
    | Done(n: nat)
    | WantRead
    | WantWrite
    | ZeroReturn
    | Syscall(queueEmpty: bool)
    | SslError(unexpectedEof: bool)

  predicate Wants(o: Outcome) { o.WantRead? || o.WantWrite? }

  /** What OpenSSL may answer. Partial writes are off: a write takes all or nothing. */
  predicate Allowed(q: Request, o: Outcome) {
    match q
    case AskRead(cap) => o.Done? ==> 1 <= o.n <= cap
    case AskWrite(bytes) => o.Done? ==> o.n == |bytes|
    case AskHandshake => o.Done? ==> o.n == 1
    case AskInitFinished => o.Done? && o.n <= 1
    case AskShutdown => true
    case AskFree => o == Done(0)
    case AskInfo => o == Done(0)
  }

  datatype LogEntry = LogEntry(op: Op, q: Request, o: Outcome)

  /** The outcomes after which the session must not be shut down: any failure of a
      blocking operation but a close_notify on a read, and any failure of a
      non-blocking one but a WANT or a close_notify on a read. */
  predicate Fatal(e: LogEntry) {
    !e.o.Done? &&
    match e.op
    case Read(_) => !e.o.ZeroReturn?
    case Write(_) => true
    case ReadNb(_) => !Wants(e.o) && !e.o.ZeroReturn?
    case WriteNb(_) => !Wants(e.o)
    case HandshakeNb => !Wants(e.o)
    case _ => false
  }

  // ── One thread ──

  datatype Reply = GotBytes(n: nat) | GotUnit | Retry(o: Outcome) | Failed

  datatype Pc =
    | Idle
    | Wanting(op: Op)
    | Locked(op: Op)
    | Calling(op: Op, q: Request, written: nat)
    | Returned(op: Op, q: Request, written: nat, o: Outcome)
    | Leaving(op: Op, reply: Reply, accepted: seq<Byte>, cause: Option<Outcome>)

  predicate Holding(pc: Pc) {
    !pc.Idle? && !pc.Wanting?
  }

  // ── The session object ──

  /** One finished operation, in the order of the lock, with the plaintext it handed over,
      the outcome of its last SSL call, if it made one, and how many calls there had been
      on the session when it was done. */
  datatype Entry = Entry(op: Op, reply: Reply, accepted: seq<Byte>, cause: Option<Outcome>, logged: nat)

  /** `ssl` is whether the pointer is set. The log of SSL calls, the plaintext SSL has
      accepted and the history of operations are what is proved about. */
  datatype Core = Core(
    ssl: bool,
    failed: bool,
    finalized: bool,
    log: seq<LogEntry>,
    plain: seq<Byte>,
    history: seq<Entry>
  )

  /** The next piece a blocking write passes to SSL_write. */
  function NextPiece(data: seq<Byte>, written: nat): seq<Byte>
    requires written <= |data|
  {
    data[written..written + Min(|data| - written, INT32_MAX)]
  }

  function FirstBytes(data: seq<Byte>, n: nat): seq<Byte> {
    if n <= |data| then data[..n] else []
  }

  function Payload(op: Op): seq<Byte> {
    match op
    case Write(data) => data
    case WriteNb(data) => data
    case _ => []
  }

  /** From taking the lock to the first SSL call, or to the answer. */
  function Begin(c: Core, op: Op): (r: Pc)
    ensures r.Leaving? || r.Calling?
  {
    if !c.ssl then
      match op
      case Read(_) => Leaving(op, GotBytes(0), [], None)
      case Close => Leaving(op, GotUnit, [], None)
      case Info => Leaving(op, GotUnit, [], None)
      case _ => Leaving(op, Failed, [], None)
    else
      match op
      case Read(m) => if m == 0 then Leaving(op, GotBytes(0), [], None) else Calling(op, AskRead(Min(m, INT32_MAX)), 0)
      case ReadNb(m) => if m == 0 then Leaving(op, GotBytes(0), [], None) else Calling(op, AskRead(Min(m, INT32_MAX)), 0)
      case Write(data) => if data == [] then Leaving(op, GotUnit, [], None) else Calling(op, AskWrite(NextPiece(data, 0)), 0)
      case WriteNb(data) =>
        if data == [] then Leaving(op, GotUnit, [], None)
        else if |data| > INT32_MAX then Leaving(op, Failed, [], None)
        else Calling(op, AskWrite(data), 0)
      case HandshakeNb => Calling(op, AskHandshake, 0)
      case Close => Calling(op, if c.failed then AskFree else AskInitFinished, 0)
      case Info => Calling(op, AskInfo, 0)
  }

  /** The SSL call returns. */
  function Return(c: Core, pc: Pc, o: Outcome): (Core, Pc)
    requires pc.Calling?
  {
    (c.(log := c.log + [LogEntry(pc.op, pc.q, o)],
        plain := c.plain + if pc.q.AskWrite? && o.Done? then pc.q.bytes else []),
     Returned(pc.op, pc.q, pc.written, o))
  }

  function Fail(c: Core): Core { c.(failed := true) }

  /** Look at the outcome: note a failure, answer, or make the next SSL call. */
  function Inspect(c: Core, pc: Pc): (r: (Core, Pc))
    requires pc.Returned?
    ensures r.1.Leaving? || r.1.Calling?
    ensures r.0.finalized == c.finalized
  {
    var op, o := pc.op, pc.o;
    match op
    case Read(_) =>
      (match o
       case Done(n) => (c, Leaving(op, GotBytes(n), [], Some(o)))
       case ZeroReturn => (c, Leaving(op, GotBytes(0), [], Some(o)))
       case _ => (Fail(c), Leaving(op, GotBytes(0), [], Some(o))))
    case Write(data) =>
      if !o.Done? then (Fail(c), Leaving(op, Failed, FirstBytes(data, pc.written), Some(o)))
      else
        var written := pc.written + o.n;
        if written < |data| then (c, Calling(op, AskWrite(NextPiece(data, written)), written))
        else (c, Leaving(op, GotUnit, data, Some(o)))
    case HandshakeNb =>
      if o.Done? then (c, Leaving(op, GotUnit, [], Some(o)))
      else if Wants(o) then (c, Leaving(op, Retry(o), [], Some(o)))
      else (Fail(c), Leaving(op, Failed, [], Some(o)))
    case ReadNb(_) =>
      (match o
       case Done(n) => (c, Leaving(op, GotBytes(n), [], Some(o)))
       case WantRead => (c, Leaving(op, Retry(o), [], Some(o)))
       case WantWrite => (c, Leaving(op, Retry(o), [], Some(o)))
       case ZeroReturn => (c, Leaving(op, GotBytes(0), [], Some(o)))
       case Syscall(queueEmpty) => (Fail(c), Leaving(op, if queueEmpty then GotBytes(0) else Failed, [], Some(o)))
       case SslError(eof) => (Fail(c), Leaving(op, if eof then GotBytes(0) else Failed, [], Some(o))))
    case WriteNb(data) =>
      if o.Done? then (c, Leaving(op, GotUnit, data, Some(o)))
      else if Wants(o) then (c, Leaving(op, Retry(o), [], Some(o)))
      else (Fail(c), Leaving(op, Failed, [], Some(o)))
    case Close =>
      if pc.q.AskInitFinished? && o == Done(1) then (c, Calling(op, AskShutdown, 0))
      else if pc.q.AskFree? then (c.(ssl := false), Leaving(op, GotUnit, [], Some(o)))
      else (c, Calling(op, AskFree, 0))
    case Info => (c, Leaving(op, GotUnit, [], Some(o)))
  }

  function Release(c: Core, pc: Pc): Core
    requires pc.Leaving?
  {
    c.(history := c.history + [Entry(pc.op, pc.reply, pc.accepted, pc.cause, |c.log|)])
  }

  /** The finalizer frees an SSL object that was not closed, and never shuts it down. */
  function Finalize(c: Core): Core {
    c.(finalized := true, log := c.log + if c.ssl then [LogEntry(Close, AskFree, Done(0))] else [])
  }

  // ── The interleaving ──

  datatype Owner = Unlocked | HeldBy(t: nat)

  datatype State = State(core: Core, owner: Owner, pcs: seq<Pc>)

  datatype Step =
    | Invoke(t: nat, op: Op)
    | Acquire(t: nat)
    | DoBegin(t: nat)
    | DoReturn(t: nat, o: Outcome)
    | DoInspect(t: nat)
    | DoRelease(t: nat)
    | DoFinalize

  /** The finalizer runs only when no thread can still reach the session. */
  predicate Enabled(s: State, e: Step) {
    if e.DoFinalize? then !s.core.finalized && forall t | 0 <= t < |s.pcs| :: s.pcs[t].Idle?
    else
      e.t < |s.pcs| &&
      var pc := s.pcs[e.t];
      match e
      case Invoke(_, _) => pc.Idle? && !s.core.finalized
      case Acquire(_) => pc.Wanting? && s.owner.Unlocked?
      case DoBegin(_) => pc.Locked?
      case DoReturn(_, o) => pc.Calling? && Allowed(pc.q, o)
      case DoInspect(_) => pc.Returned?
      case DoRelease(_) => pc.Leaving?
  }

  function Apply(s: State, e: Step): State
    requires Enabled(s, e)
  {
    match e
    case Invoke(t, op) => s.(pcs := s.pcs[t := Wanting(op)])
    case Acquire(t) => s.(owner := HeldBy(t), pcs := s.pcs[t := Locked(s.pcs[t].op)])
    case DoBegin(t) => s.(pcs := s.pcs[t := Begin(s.core, s.pcs[t].op)])
    case DoReturn(t, o) =>
      var (c, pc) := Return(s.core, s.pcs[t], o);
      s.(core := c, pcs := s.pcs[t := pc])
    case DoInspect(t) =>
      var (c, pc) := Inspect(s.core, s.pcs[t]);
      s.(core := c, pcs := s.pcs[t := pc])
    case DoRelease(t) => State(Release(s.core, s.pcs[t]), Unlocked, s.pcs[t := Idle])
    case DoFinalize => s.(core := Finalize(s.core))
  }

  const NEW_SESSION := Core(true, false, false, [], [], [])

  predicate Initial(s: State) {
    s.core == NEW_SESSION && s.owner == Unlocked && forall t | 0 <= t < |s.pcs| :: s.pcs[t] == Idle
  }

  ghost predicate Runs(s: State, es: seq<Step>, last: State)
    decreases |es|
  {
    if es == [] then last == s
    else Enabled(s, es[0]) && Runs(Apply(s, es[0]), es[1..], last)
  }

  // ── What every reachable state satisfies ──

  /** Exactly the owner of the mutex is between taking and releasing it. */
  predicate MutexOk(s: State) {
    && (s.owner.HeldBy? ==> s.owner.t < |s.pcs|)
    && forall t | 0 <= t < |s.pcs| :: Holding(s.pcs[t]) <==> s.owner == HeldBy(t)
  }

  /** Where the owner of the lock is. */
  function Current(s: State): Pc
    requires MutexOk(s)
  {
    if s.owner.HeldBy? then s.pcs[s.owner.t] else Idle
  }

  /** The log up to the call whose outcome is still to be looked at. */
  function Inspected(c: Core, pc: Pc): seq<LogEntry> {
    if pc.Returned? && c.log != [] then c.log[..|c.log| - 1] else c.log
  }

  ghost predicate AnyFatal(log: seq<LogEntry>) {
    exists i :: 0 <= i < |log| && Fatal(log[i])
  }

  ghost predicate FailedOk(c: Core, pc: Pc) {
    c.failed == AnyFatal(Inspected(c, pc)) && (pc.Returned? ==> c.log != [] && c.log[|c.log| - 1] == LogEntry(pc.op, pc.q, pc.o))
  }

  ghost predicate NeverFreed(log: seq<LogEntry>) {
    forall i | 0 <= i < |log| :: !log[i].q.AskFree?
  }

  /** SSL_free is the last call there is. */
  ghost predicate FreeIsLast(log: seq<LogEntry>) {
    forall i | 0 <= i < |log| - 1 :: !log[i].q.AskFree?
  }

  ghost predicate FreeOk(c: Core, pc: Pc) {
    && FreeIsLast(c.log)
    && (NeverFreed(c.log) <==> c.ssl && !c.finalized && !(pc.Returned? && pc.q.AskFree?))
    && (pc.Calling? || pc.Returned? ==> c.ssl && !c.finalized)
    && (Holding(pc) ==> !c.finalized)
  }

  ghost predicate NoShutdownAfterFatal(log: seq<LogEntry>) {
    forall i, j | 0 <= i < j < |log| && Fatal(log[i]) :: !log[j].q.AskShutdown?
  }

  ghost predicate ShutdownOk(c: Core, pc: Pc) {
    && NoShutdownAfterFatal(c.log)
    && ((pc.Calling? || pc.Returned?) && (pc.q.AskInitFinished? || pc.q.AskShutdown?) ==> !c.failed)
  }

  /** The call being made is one that the operation makes at this point. */
  predicate CallOk(op: Op, q: Request, written: nat) {
    match op
    case Read(m) => q.AskRead? && q.cap <= m && written == 0
    case ReadNb(m) => q.AskRead? && q.cap <= m && written == 0
    case Write(data) => written < |data| && q == AskWrite(NextPiece(data, written))
    case WriteNb(data) => q == AskWrite(data) && written == 0
    case HandshakeNb => q.AskHandshake?
    case Close => q.AskInitFinished? || q.AskShutdown? || q.AskFree?
    case Info => q.AskInfo?
  }

  predicate NonBlocking(op: Op) {
    op.HandshakeNb? || op.ReadNb? || op.WriteNb?
  }

  predicate EndOfInput(o: Outcome) {
    o == ZeroReturn || o == Syscall(true) || o == SslError(true)
  }

  /** What an answer promises of the last SSL call: a non-blocking operation asks to be
      retried exactly on a WANT; bytes and success are what the call gave; a blocking
      read never throws; a non-blocking one ends the input on a close_notify and on a
      peer that goes without one, and any other failure is an error. */
  predicate AnswerFits(op: Op, reply: Reply, o: Outcome) {
    if o.Done? then reply == if op.Read? || op.ReadNb? then GotBytes(o.n) else GotUnit
    else if NonBlocking(op) && Wants(o) then reply == Retry(o)
    else if op.Read? then reply == GotBytes(0)
    else if op.ReadNb? then reply == if EndOfInput(o) then GotBytes(0) else Failed
    else reply == Failed
  }

  /** And without one, when the session is closed or there is nothing to do. */
  predicate AnswerFitsNoCall(op: Op, reply: Reply) {
    match op
    case Read(_) => reply == GotBytes(0)
    case ReadNb(m) => reply == Failed || (m == 0 && reply == GotBytes(0))
    case Write(data) => reply == Failed || (data == [] && reply == GotUnit)
    case WriteNb(data) => reply == Failed || (data == [] && reply == GotUnit)
    case HandshakeNb => reply == Failed
    case Close => reply == GotUnit
    case Info => reply == GotUnit
  }

  /** What an answer says of the plaintext: all of it, or none to be retried or after an
      error; only a blocking write that failed may have handed over its first pieces. */
  predicate AnswerOk(op: Op, reply: Reply, accepted: seq<Byte>, cause: Option<Outcome>) {
    && (if cause.Some? then AnswerFits(op, reply, cause.value) else AnswerFitsNoCall(op, reply))
    && (if reply.GotUnit? then accepted == Payload(op)
        else if op.Write? then accepted == [] || accepted < op.data
        else accepted == [])
  }

  predicate EntryOk(e: Entry) {
    AnswerOk(e.op, e.reply, e.accepted, e.cause)
  }

  predicate PcOk(pc: Pc) {
    match pc
    case Calling(op, q, written) => CallOk(op, q, written)
    case Returned(op, q, written, o) => CallOk(op, q, written) && Allowed(q, o)
    case Leaving(op, reply, accepted, cause) => AnswerOk(op, reply, accepted, cause)
    case _ => true
  }

  /** The plaintext the operation in progress has handed over so far. */
  function InProgress(pc: Pc): seq<Byte> {
    match pc
    case Calling(Write(data), _, written) => FirstBytes(data, written)
    case Returned(Write(data), _, written, o) => FirstBytes(data, written + if o.Done? then o.n else 0)
    case Returned(WriteNb(data), _, _, Done(_)) => data
    case Leaving(_, _, accepted, _) => accepted
    case _ => []
  }

  function Accepted(history: seq<Entry>): seq<seq<Byte>> {
    seq(|history|, i requires 0 <= i < |history| => history[i].accepted)
  }

  ghost predicate PlainOk(c: Core, pc: Pc) {
    && c.plain == Concat(Accepted(c.history)) + InProgress(pc)
    && forall i | 0 <= i < |c.history| :: EntryOk(c.history[i])
  }

  ghost predicate CoreOk(c: Core, pc: Pc) {
    PcOk(pc) && FailedOk(c, pc) && FreeOk(c, pc) && ShutdownOk(c, pc) && PlainOk(c, pc)
  }

  ghost predicate Inv(s: State) {
    && MutexOk(s) && CoreOk(s.core, Current(s))
    && (s.core.finalized ==> forall t | 0 <= t < |s.pcs| :: s.pcs[t].Idle?)
  }

  lemma LogMore(log: seq<LogEntry>, e: LogEntry)
    ensures (log + [e])[..|log|] == log
    ensures AnyFatal(log + [e]) == (AnyFatal(log) || Fatal(e))
    ensures FreeIsLast(log + [e]) == NeverFreed(log)
    ensures NeverFreed(log + [e]) == (NeverFreed(log) && !e.q.AskFree?)
    ensures NoShutdownAfterFatal(log + [e]) == (NoShutdownAfterFatal(log) && (e.q.AskShutdown? ==> !AnyFatal(log)))
  {
    var more := log + [e];
    assert more[|log|] == e && forall i | 0 <= i < |log| :: more[i] == log[i];
  }

  lemma BeginKeeps(c: Core, op: Op)
    requires CoreOk(c, Locked(op))
    ensures CoreOk(c, Begin(c, op))
  {
  }

  lemma ReturnKeeps(c: Core, pc: Pc, o: Outcome)
    requires CoreOk(c, pc) && pc.Calling? && Allowed(pc.q, o)
    ensures CoreOk(Return(c, pc, o).0, Return(c, pc, o).1)
  {
    LogMore(c.log, LogEntry(pc.op, pc.q, o));
    ReturnKeepsPlain(c, pc, o);
  }

  lemma ReturnKeepsPlain(c: Core, pc: Pc, o: Outcome)
    requires PcOk(pc) && PlainOk(c, pc) && pc.Calling? && Allowed(pc.q, o)
    ensures PcOk(Return(c, pc, o).1) && PlainOk(Return(c, pc, o).0, Return(c, pc, o).1)
  {
    var (d, next) := Return(c, pc, o);
    var before, piece := Concat(Accepted(c.history)), if pc.q.AskWrite? && o.Done? then pc.q.bytes else [];
    assert before + InProgress(pc) + piece == before + (InProgress(pc) + piece);
    ReturnAccepts(c, pc, o);
  }

  /** What the operation has handed over grows by what the call accepted. */
  lemma ReturnAccepts(c: Core, pc: Pc, o: Outcome)
    requires PcOk(pc) && pc.Calling? && Allowed(pc.q, o)
    ensures InProgress(Return(c, pc, o).1) == InProgress(pc) + if pc.q.AskWrite? && o.Done? then pc.q.bytes else []
  {
    if pc.op.Write? {
      assert pc.op.data[..pc.written] + NextPiece(pc.op.data, pc.written)
          == pc.op.data[..pc.written + |NextPiece(pc.op.data, pc.written)|];
    }
  }

  lemma InspectKeeps(c: Core, pc: Pc)
    requires CoreOk(c, pc) && pc.Returned?
    ensures CoreOk(Inspect(c, pc).0, Inspect(c, pc).1)
  {
    InspectKeepsLog(c, pc);
    InspectKeepsPlain(c, pc);
  }

  lemma InspectKeepsLog(c: Core, pc: Pc)
    requires CoreOk(c, pc) && pc.Returned?
    ensures var (d, next) := Inspect(c, pc);
            FailedOk(d, next) && FreeOk(d, next) && ShutdownOk(d, next)
  {
    InspectNotes(c, pc);
    KeepsLog(c, pc, Inspect(c, pc).0, Inspect(c, pc).1);
  }

  /** What looking at an outcome does to the session: it notes a fatal one, and that the
      object is freed; it goes on to a shutdown only while nothing has failed. */
  ghost predicate Noted(c: Core, pc: Pc, d: Core, next: Pc)
    requires pc.Returned?
  {
    && d.log == c.log && d.finalized == c.finalized
    && d.failed == (c.failed || Fatal(LogEntry(pc.op, pc.q, pc.o)))
    && d.ssl == (c.ssl && !pc.q.AskFree?)
    && (next.Leaving? || next.Calling?)
    && (next.Calling? ==> !pc.q.AskFree?)
    && (next.Calling? && (next.q.AskInitFinished? || next.q.AskShutdown?) ==> !d.failed)
  }

  lemma InspectNotes(c: Core, pc: Pc)
    requires pc.Returned? && PcOk(pc) && ShutdownOk(c, pc)
    ensures Noted(c, pc, Inspect(c, pc).0, Inspect(c, pc).1)
  {
  }

  lemma KeepsLog(c: Core, pc: Pc, d: Core, next: Pc)
    requires pc.Returned? && FailedOk(c, pc) && FreeOk(c, pc) && ShutdownOk(c, pc) && Noted(c, pc, d, next)
    ensures FailedOk(d, next) && FreeOk(d, next) && ShutdownOk(d, next)
  {
    var init, e := c.log[..|c.log| - 1], LogEntry(pc.op, pc.q, pc.o);
    assert c.log == init + [e];
    LogMore(init, e);
  }

  lemma InspectKeepsPlain(c: Core, pc: Pc)
    requires PcOk(pc) && PlainOk(c, pc) && pc.Returned?
    ensures var (d, next) := Inspect(c, pc); PcOk(next) && PlainOk(d, next)
  {
    InspectMovesNoPlaintext(c, pc);
  }

  lemma InspectMovesNoPlaintext(c: Core, pc: Pc)
    requires PcOk(pc) && pc.Returned?
    ensures var (d, next) := Inspect(c, pc);
            && d.plain == c.plain && d.history == c.history
            && PcOk(next) && InProgress(next) == InProgress(pc)
  {
    if pc.op.Write? {
      InspectWrite(c, pc);
    }
  }

  lemma InspectWrite(c: Core, pc: Pc)
    requires PcOk(pc) && pc.Returned? && pc.op.Write?
    ensures PcOk(Inspect(c, pc).1) && InProgress(Inspect(c, pc).1) == InProgress(pc)
  {
    assert pc.op.data[..|pc.op.data|] == pc.op.data;
  }

  lemma ReleaseKeeps(c: Core, pc: Pc)
    requires CoreOk(c, pc) && pc.Leaving?
    ensures CoreOk(Release(c, pc), Idle)
  {
    var e := Entry(pc.op, pc.reply, pc.accepted, pc.cause, |c.log|);
    assert Accepted(c.history + [e]) == Accepted(c.history) + [e.accepted];
    ConcatSnoc(Accepted(c.history), e.accepted);
  }

  lemma FinalizeKeeps(c: Core)
    requires CoreOk(c, Idle) && !c.finalized
    ensures CoreOk(Finalize(c), Idle)
  {
    assert c.log + [] == c.log;
    LogMore(c.log, LogEntry(Close, AskFree, Done(0)));
  }

  lemma StepKeepsMutex(s: State, e: Step)
    requires Inv(s) && Enabled(s, e)
    ensures var next := Apply(s, e);
            && MutexOk(next)
            && (next.core.finalized ==> forall t | 0 <= t < |next.pcs| :: next.pcs[t].Idle?)
            && Current(next) == match e
               case Acquire(t) => Locked(s.pcs[t].op)
               case DoBegin(t) => Begin(s.core, s.pcs[t].op)
               case DoReturn(t, o) => Return(s.core, s.pcs[t], o).1
               case DoInspect(t) => Inspect(s.core, s.pcs[t]).1
               case DoRelease(t) => Idle
               case _ => Current(s)
  {
    match e
    case Invoke(t, op) => MovePc(s, t, Wanting(op));
    case Acquire(t) =>
    case DoBegin(t) => MovePc(s, t, Begin(s.core, s.pcs[t].op));
    case DoReturn(t, o) => MovePc(s, t, Return(s.core, s.pcs[t], o).1);
    case DoInspect(t) => MovePc(s, t, Inspect(s.core, s.pcs[t]).1);
    case DoRelease(t) =>
    case DoFinalize =>
  }

  /** A thread may move on without the lock, or within it. */
  lemma MovePc(s: State, t: nat, pc: Pc)
    requires MutexOk(s) && t < |s.pcs| && Holding(s.pcs[t]) == Holding(pc)
    ensures MutexOk(s.(pcs := s.pcs[t := pc]))
    ensures Current(s.(pcs := s.pcs[t := pc])) == if Holding(pc) then pc else Current(s)
  {
  }

  lemma StepKeeps(s: State, e: Step)
    requires Inv(s) && Enabled(s, e)
    ensures Inv(Apply(s, e))
  {
    StepKeepsMutex(s, e);
    var c := s.core;
    match e
    case Invoke(t, op) =>
    case Acquire(t) =>
    case DoBegin(t) => BeginKeeps(c, s.pcs[t].op);
    case DoReturn(t, o) => ReturnKeeps(c, s.pcs[t], o);
    case DoInspect(t) => InspectKeeps(c, s.pcs[t]);
    case DoRelease(t) => ReleaseKeeps(c, s.pcs[t]);
    case DoFinalize => FinalizeKeeps(c);
  }

  lemma {:induction false} RunKeeps(s: State, es: seq<Step>, last: State)
    requires Inv(s) && Runs(s, es, last)
    ensures Inv(last)
    decreases |es|
  {
    if es != [] {
      StepKeeps(s, es[0]);
      RunKeeps(Apply(s, es[0]), es[1..], last);
    }
  }

  /** The states some interleaving of some operations of some threads can lead to. */
  ghost predicate Reachable(s: State) {
    exists start, es :: Initial(start) && Runs(start, es, s)
  }

  lemma ReachableOk(s: State)
    requires Reachable(s)
    ensures Inv(s)
  {
    var start, es :| Initial(start) && Runs(start, es, s);
    assert AnyFatal([]) == false;
    RunKeeps(start, es, s);
  }

  // ── The theorems ──

  /** No two threads are inside SSL calls, or between the calls of one operation; and a
      thread that has its answer, WANT_READ and WANT_WRITE included, holds no lock. */
  lemma MutualExclusion(s: State, t: nat, u: nat)
    requires Reachable(s) && t < |s.pcs| && u < |s.pcs|
    ensures t != u ==> !(Holding(s.pcs[t]) && Holding(s.pcs[u]))
    ensures s.pcs[t].Idle? ==> s.owner != HeldBy(t)
  {
    ReachableOk(s);
  }

  /** While any thread holds or wants the lock, one of them can step. */
  lemma SomeoneCanStep(s: State, t: nat)
    requires Reachable(s) && t < |s.pcs| && !s.pcs[t].Idle?
    ensures exists e :: Enabled(s, e) && !e.Invoke? && !e.DoFinalize?
  {
    ReachableOk(s);
    if s.owner.Unlocked? {
      assert Enabled(s, Acquire(t));
    } else {
      var u := s.owner.t;
      match s.pcs[u]
      case Locked(_) => assert Enabled(s, DoBegin(u));
      case Calling(_, q, _) =>
        var o := if q.AskInitFinished? || q.AskFree? || q.AskInfo? then Done(0) else ZeroReturn;
        assert Enabled(s, DoReturn(u, o));
      case Returned(_, _, _, _) => assert Enabled(s, DoInspect(u));
      case Leaving(_, _, _, _) => assert Enabled(s, DoRelease(u));
    }
  }

  /** What a finished operation was to hand over, had it not failed half way. */
  function Promised(e: Entry): seq<Byte> {
    if e.reply.GotUnit? then Payload(e.op) else []
  }

  /** The plaintext is, in the order of the lock, the whole buffer of every write that
      succeeded and nothing of one to be retried; only a blocking write that failed may
      have left a proper prefix, and a write in progress what it has written. */
  lemma PlaintextIsTheWrites(s: State)
    requires Reachable(s)
    ensures MutexOk(s) && s.core.plain == Concat(Accepted(s.core.history)) + InProgress(Current(s))
    ensures forall e | e in s.core.history ::
              if e.op.Write? && e.reply.Failed? then e.accepted == [] || e.accepted < e.op.data
              else e.accepted == Promised(e)
  {
    ReachableOk(s);
    assert forall e | e in s.core.history :: EntryOk(e);
  }

  /** Every answer ever given fits what OpenSSL said. */
  lemma AnswersFit(s: State)
    requires Reachable(s)
    ensures forall e | e in s.core.history && e.cause.Some? :: AnswerFits(e.op, e.reply, e.cause.value)
    ensures forall e | e in s.core.history && e.cause.None? :: AnswerFitsNoCall(e.op, e.reply)
  {
    ReachableOk(s);
    assert forall e | e in s.core.history :: EntryOk(e);
  }

  /** At any time no call has followed SSL_free, which thus has happened at most once,
      and no SSL_shutdown a fatal outcome; and while the lock is free `failed` says
      exactly whether there was one. */
  lemma Lifecycle(s: State)
    requires Reachable(s)
    ensures FreeIsLast(s.core.log)
    ensures NoShutdownAfterFatal(s.core.log)
    ensures s.owner.Unlocked? ==> s.core.failed == AnyFatal(s.core.log)
    ensures s.core.finalized ==> s.core.log != [] && s.core.log[|s.core.log| - 1].q.AskFree?
  {
    ReachableOk(s);
  }

  /** What the session has noted, and its records, are still there. */
  ghost predicate Grows(c: Core, d: Core) {
    && (c.failed ==> d.failed) && (d.ssl ==> c.ssl)
    && c.log <= d.log && c.plain <= d.plain && c.history <= d.history
  }

  lemma StepGrows(s: State, e: Step)
    requires Enabled(s, e)
    ensures Grows(s.core, Apply(s, e).core)
  {
  }

  /** `failed`, the closing and the record of calls, writes and answers only ever grow. */
  lemma {:induction false} NothingIsUndone(s: State, es: seq<Step>, last: State)
    requires Runs(s, es, last)
    ensures s.core.failed ==> last.core.failed
    ensures last.core.ssl ==> s.core.ssl
    ensures s.core.log <= last.core.log && s.core.plain <= last.core.plain && s.core.history <= last.core.history
    decreases |es|
  {
    if es != [] {
      StepGrows(s, es[0]);
      NothingIsUndone(Apply(s, es[0]), es[1..], last);
    }
  }
}
