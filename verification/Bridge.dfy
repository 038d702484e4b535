/**
 * The connection bridge (PgLiteDriver.ManagedInstance) as a transition system.
 *
 * Any number of connection handlers, the backup timer and the thread that closes the instance run
 * interleaved, one small step at a time. They share one backend through `pgLock`, a write-once cache of
 * startup responses, and the snapshot file. A backend call is two steps, so that calls could overlap if the
 * lock did not prevent it; reads, writes, calls and file operations can fail at any point. A crash of the
 * process is the end of a run, so what holds in every reachable state holds after a crash.
 *
 * Fields and arguments called `history` below record what happened; no transition depends on them.
 */
module Bridge {
  import opened Bytes
  import Archive
  import WireCodec

  type ConnId = nat
  datatype Dumper = Timer | Closer
  datatype Actor = Handler(id: ConnId) | Dumping(dumper: Dumper)

  /** A call of execProtocolRaw returns a response or throws. */
  datatype Outcome = Returned(response: bytes) | Threw

  datatype Maintenance = Vacuum | Checkpoint

  /** What is passed to execProtocolRaw: octets from a client, or a query that dumpDataDir runs. */
  datatype Request = Raw(message: bytes) | Maintain(q: Maintenance)

  /** The texts "VACUUM FREEZE;" and "CHECKPOINT;". */
  function MaintenanceSql(q: Maintenance): bytes {
    match q
    case Vacuum => [86, 65, 67, 85, 85, 77, 32, 70, 82, 69, 69, 90, 69, 59]
    case Checkpoint => [67, 72, 69, 67, 75, 80, 79, 73, 78, 84, 59]
  }

  /** The octets of a request. */
  function Octets(r: Request): bytes {
    match r
    case Raw(m) => m
    case Maintain(q) => WireCodec.Encode(WireCodec.QueryFrame(MaintenanceSql(q)))
  }

  /** The backend's log: when calls start and how they end. */
  datatype Event = Begin(actor: Actor, request: Request) | End(actor: Actor, outcome: Outcome)

  /**
   * The parts of the world that do not change: the data directory that the backend shows after a log of calls,
   * the snapshot present at boot, the data directory of a fresh installation, and whether the instance keeps
   * snapshots at all.
   */
  datatype World = World(
    files: seq<Event> -> Archive.Tree,
    boot: Option<seq<Archive.Entry>>,
    defaults: Archive.Tree,
    persistent: bool)

  // ------------------------------------------------------ connection handlers

  /** Where a connection handler stands. The comments give the source line it is about to run. */
  datatype Pc =
    | CheckCache                                                     // 248
    | WaitStartup                                                    // 253
    | RecheckCache                                                   // 254
    | Exchange(responses: seq<bytes>)                                // 260
    | ExchangeRead(responses: seq<bytes>)                            // 261
    | ExchangeCall(responses: seq<bytes>)                            // 266
    | ExchangeWrite(responses: seq<bytes>, response: bytes)          // 268
    | Publish(responses: seq<bytes>)                                 // 276
    | Replay(cached: seq<bytes>, next: nat, locked: bool)            // 284
    | ReplayWrite(cached: seq<bytes>, next: nat, locked: bool)       // 288
    | Loop                                                           // 219
    | Read                                                           // 220
    | WaitCall(message: bytes)                                       // 226
    | Locked(message: bytes)                                         // 227
    | InCall                                                         // 227
    | Answered(response: bytes)                                      // 228
    | Write(response: bytes)                                         // 229
    | Done                                                           // 237

  /** How a connection was started up. `since` is history: the length of the log when its exchange began. */
  datatype Startup = Undecided | Exchanged(since: nat) | Replayed(cached: seq<bytes>)

  /**
   * A connection: its handler's position, the octets written to the client, and as history what was read from
   * the client before and after startup, and how many cached responses were written.
   */
  datatype Conn = Conn(
    pc: Pc,
    startup: Startup,
    startIn: seq<bytes>,
    sessionIn: seq<bytes>,
    replayed: nat,
    out: bytes)

  const NEW_CONN := Conn(CheckCache, Undecided, [], [], 0, [])

  const READ_BUFFER := 65536

  /** What the environment decides in a handler's step. */
  datatype Action =
    | Go                          // nothing to decide
    | Receive(message: bytes)     // the client's next octets, at most a buffer full
    | Answer(response: bytes)     // the backend call returns
    | Throw                       // the backend call throws
    | Fail                        // end of stream, or an I/O error without output
    | FailWrite(written: nat)     // an I/O error after part of the octets went out

  /** What a step does to the shared state. */
  datatype Effect =
    | Silent
    | Acquire
    | Release
    | BeginCall(request: Request)
    | EndCall(outcome: Outcome, release: bool)
    | Store(responses: seq<bytes>, since: nat)

  datatype Moved = Moved(conn: Conn, effect: Effect)

  function Unlock(locked: bool): Effect {
    if locked then Release else Silent
  }

  predicate IsReadable(message: bytes) {
    0 < |message| <= READ_BUFFER
  }

  /** handleStartup up to the point where the cached list is known: lines 248 to 258. */
  function MoveLookup(k: Conn, a: Action, cache: Option<seq<bytes>>, now: nat): Option<Moved> {
    match (k.pc, a)
    case (CheckCache, Go) =>
      if cache.Some?
      then Some(Moved(k.(pc := Replay(cache.value, 0, false), startup := Replayed(cache.value)), Silent))
      else Some(Moved(k.(pc := WaitStartup), Silent))
    case (CheckCache, Fail) => Some(Moved(k.(pc := Done), Silent))
    case (WaitStartup, Go) => Some(Moved(k.(pc := RecheckCache), Acquire))
    case (RecheckCache, Go) =>
      if cache.Some?
      then Some(Moved(k.(pc := Replay(cache.value, 0, true), startup := Replayed(cache.value)), Silent))
      else Some(Moved(k.(pc := Exchange([]), startup := Exchanged(now)), Silent))
    case _ => None
  }

  /** The recorded startup exchange: lines 259 to 277. */
  function MoveExchange(k: Conn, a: Action, running: bool): Option<Moved> {
    match (k.pc, a)
    case (Exchange(rs), Go) =>
      Some(Moved(k.(pc := if running then ExchangeRead(rs) else Publish(rs)), Silent))
    case (ExchangeRead(rs), Receive(m)) =>
      if IsReadable(m)
      then Some(Moved(k.(pc := ExchangeCall(rs), startIn := k.startIn + [m]), BeginCall(Raw(m))))
      else None
    case (ExchangeRead(rs), Fail) => Some(Moved(k.(pc := Done), Release))
    case (ExchangeCall(rs), Answer(r)) =>
      Some(Moved(k.(pc := ExchangeWrite(rs, r)), EndCall(Returned(r), false)))
    case (ExchangeCall(rs), Throw) => Some(Moved(k.(pc := Done), EndCall(Threw, true)))
    case (ExchangeWrite(rs, r), Go) =>
      var rs' := rs + [r];
      var next := if WireCodec.EndsWithReadyForQuery(r) then Publish(rs') else Exchange(rs');
      Some(Moved(k.(pc := next, out := k.out + r), Silent))
    case (ExchangeWrite(rs, r), FailWrite(n)) =>
      if 0 < |r| && n <= |r| then Some(Moved(k.(pc := Done, out := k.out + r[..n]), Release)) else None
    case (Publish(rs), Go) =>
      if k.startup.Exchanged? then Some(Moved(k.(pc := Loop), Store(rs, k.startup.since))) else None
    case _ => None
  }

  /** replayStartup: lines 283 to 292. */
  function MoveReplay(k: Conn, a: Action): Option<Moved> {
    match (k.pc, a)
    case (Replay(cached, i, locked), Go) =>
      if i >= |cached| then Some(Moved(k.(pc := Loop), Unlock(locked))) else None
    case (Replay(cached, i, locked), Receive(m)) =>
      if i < |cached| && IsReadable(m)
      then Some(Moved(k.(pc := ReplayWrite(cached, i, locked), startIn := k.startIn + [m]), Silent))
      else None
    case (Replay(cached, i, locked), Fail) =>
      if i < |cached| then Some(Moved(k.(pc := Done), Unlock(locked))) else None
    case (ReplayWrite(cached, i, locked), Go) =>
      if i < |cached|
      then Some(Moved(k.(pc := Replay(cached, i + 1, locked), replayed := i + 1, out := k.out + cached[i]), Silent))
      else None
    case (ReplayWrite(cached, i, locked), FailWrite(n)) =>
      if i < |cached| && 0 < |cached[i]| && n <= |cached[i]|
      then Some(Moved(k.(pc := Done, out := k.out + cached[i][..n]), Unlock(locked)))
      else None
    case _ => None
  }

  /** The request loop of handleConnection: lines 219 to 233. */
  function MoveSession(k: Conn, a: Action, running: bool): Option<Moved> {
    match (k.pc, a)
    case (Loop, Go) => Some(Moved(k.(pc := if running then Read else Done), Silent))
    case (Read, Receive(m)) =>
      if IsReadable(m) then Some(Moved(k.(pc := WaitCall(m), sessionIn := k.sessionIn + [m]), Silent)) else None
    case (Read, Fail) => Some(Moved(k.(pc := Done), Silent))
    case (WaitCall(m), Go) => Some(Moved(k.(pc := Locked(m)), Acquire))
    case (Locked(m), Go) => Some(Moved(k.(pc := InCall), BeginCall(Raw(m))))
    case (InCall, Answer(r)) => Some(Moved(k.(pc := Answered(r)), EndCall(Returned(r), false)))
    case (InCall, Throw) => Some(Moved(k.(pc := Done), EndCall(Threw, true)))
    case (Answered(r), Go) => Some(Moved(k.(pc := Write(r)), Release))
    case (Write(r), Go) => Some(Moved(k.(pc := Loop, out := k.out + r), Silent))
    case (Write(r), FailWrite(n)) =>
      if 0 < |r| && n <= |r| then Some(Moved(k.(pc := Done, out := k.out + r[..n]), Silent)) else None
    case _ => None
  }

  predicate InLookup(pc: Pc) {
    pc.CheckCache? || pc.WaitStartup? || pc.RecheckCache?
  }

  predicate InExchange(pc: Pc) {
    pc.Exchange? || pc.ExchangeRead? || pc.ExchangeCall? || pc.ExchangeWrite? || pc.Publish?
  }

  predicate InReplay(pc: Pc) {
    pc.Replay? || pc.ReplayWrite?
  }

  /** One step of a connection handler; None when the action does not apply. */
  function Move(k: Conn, a: Action, running: bool, cache: Option<seq<bytes>>, now: nat): Option<Moved> {
    if InLookup(k.pc) then MoveLookup(k, a, cache, now)
    else if InExchange(k.pc) then MoveExchange(k, a, running)
    else if InReplay(k.pc) then MoveReplay(k, a)
    else MoveSession(k, a, running)
  }

  predicate PcHolds(pc: Pc) {
    match pc
    case Replay(_, _, locked) => locked
    case ReplayWrite(_, _, locked) => locked
    case _ => pc.RecheckCache? || InExchange(pc) || pc.Locked? || pc.InCall? || pc.Answered?
  }

  predicate PcCalls(pc: Pc) {
    pc.ExchangeCall? || pc.InCall?
  }

  // ------------------------------------------------------------------ dumpers

  /** Where a thread that snapshots stands: lines 179 to 216 of PGLite.java, under the lock. */
  datatype DumpPc =
    | Resting
    | Waiting
    | Query(q: Maintenance)
    | InQuery(q: Maintenance)
    | Create
    | Walk
    | Rename
    | Stopped

  datatype DumpAction =
    | Tick                                       // nothing to decide
    | Visit(path: Archive.Path)                  // the walk reaches a file
    | Reply(response: bytes)                     // a maintenance query returns
    | Crash(junk: seq<Archive.Entry>)            // a RuntimeException; what the temporary file is left with
    | IoError(junk: seq<Archive.Entry>)          // an IOException; what the temporary file is left with

  datatype FileOp = Keep | Leave(entries: seq<Archive.Entry>) | Replace

  datatype Dumped = Dumped(pc: DumpPc, effect: Effect, file: FileOp)

  /** The timer rests until its next round; the closing thread is finished. */
  function Rest(d: Dumper): DumpPc {
    if d.Timer? then Resting else Stopped
  }

  /** A file the walk has already archived. */
  predicate Visited(p: Archive.Path, tmp: seq<Archive.Entry>) {
    exists e <- tmp :: e.name == Archive.EntryName(p)
  }

  function DumpMove(d: Dumper, pc: DumpPc, a: DumpAction, tree: Archive.Files, tmp: seq<Archive.Entry>): Option<Dumped> {
    match (pc, a)
    case (Resting, Tick) => if d.Timer? then Some(Dumped(Waiting, Silent, Keep)) else None
    case (Waiting, Tick) => Some(Dumped(Query(Vacuum), Acquire, Keep))
    case (Query(q), Tick) => Some(Dumped(InQuery(q), BeginCall(Maintain(q)), Keep))
    case (InQuery(q), Reply(r)) =>
      Some(Dumped(if q.Vacuum? then Query(Checkpoint) else Create, EndCall(Returned(r), false), Keep))
    case (InQuery(q), Crash(_)) => Some(Dumped(Stopped, EndCall(Threw, true), Keep))
    case (Create, Tick) => Some(Dumped(Walk, Silent, Leave([])))
    case (Create, IoError(_)) => Some(Dumped(Rest(d), Release, Keep))
    case (Walk, Visit(p)) =>
      if p in Archive.Stored(tree) && !Visited(p, tmp)
      then Some(Dumped(Walk, Silent, Leave(tmp + [Archive.EntryOf(tree, p)])))
      else None
    case (Walk, Tick) =>
      if forall p <- Archive.Stored(tree) :: Visited(p, tmp) then Some(Dumped(Rename, Silent, Keep)) else None
    case (Walk, IoError(junk)) => Some(Dumped(Rest(d), Release, Leave(junk)))
    case (Walk, Crash(junk)) => Some(Dumped(Stopped, Release, Leave(junk)))
    case (Rename, Tick) => Some(Dumped(Rest(d), Release, Replace))
    case (Rename, IoError(_)) => Some(Dumped(Rest(d), Release, Keep))
    case _ => None
  }

  predicate DumpHolds(pc: DumpPc) {
    pc.Query? || pc.InQuery? || pc.Create? || pc.Walk? || pc.Rename?
  }

  // ------------------------------------------------------------- shared state

  /** History: which exchange filled the cache, and its part of the log. */
  datatype Origin = Origin(conn: ConnId, start: nat, end: nat)

  datatype State = State(
    running: bool,
    lock: Option<Actor>,
    cache: Option<seq<bytes>>,
    origin: Option<Origin>,
    events: seq<Event>,
    conns: map<ConnId, Conn>,
    timer: DumpPc,
    closer: DumpPc,
    tmp: seq<Archive.Entry>,
    target: Option<seq<Archive.Entry>>,
    snapAt: Option<nat>)

  function Init(w: World): State {
    State(true, None, None, None, [], map[], Resting, Resting, [], w.boot, None)
  }

  function DumpPcOf(s: State, d: Dumper): DumpPc {
    if d.Timer? then s.timer else s.closer
  }

  function SetDumpPc(s: State, d: Dumper, pc: DumpPc): State {
    if d.Timer? then s.(timer := pc) else s.(closer := pc)
  }

  /** Applies an effect to the lock, the log and the cache; None when the lock is not free. */
  function Perform(s: State, who: Actor, e: Effect): Option<State> {
    match e
    case Silent => Some(s)
    case Acquire => if s.lock.None? then Some(s.(lock := Some(who))) else None
    case Release => Some(s.(lock := None))
    case BeginCall(r) => Some(s.(events := s.events + [Begin(who, r)]))
    case EndCall(o, release) => Some(s.(events := s.events + [End(who, o)], lock := if release then None else s.lock))
    case Store(rs, since) =>
      if who.Handler?
      then Some(s.(cache := Some(rs), origin := Some(Origin(who.id, since, |s.events|)), lock := None))
      else None
  }

  function PerformFile(s: State, op: FileOp): State {
    match op
    case Keep => s
    case Leave(entries) => s.(tmp := entries)
    case Replace => s.(target := Some(s.tmp), tmp := [], snapAt := Some(|s.events|))
  }

  datatype Step =
    | Accept(c: ConnId)
    | Handle(c: ConnId, a: Action)
    | Snapshot(d: Dumper, b: DumpAction)
    | Close

  function Next(w: World, s: State, step: Step): Option<State> {
    match step
    case Accept(c) => if c in s.conns then None else Some(s.(conns := s.conns[c := NEW_CONN]))
    case Handle(c, a) =>
      if c !in s.conns then None
      else
        var mv := Move(s.conns[c], a, s.running, s.cache, |s.events|);
        if mv.None? then None
        else
          var t := Perform(s, Handler(c), mv.value.effect);
          if t.None? then None else Some(t.value.(conns := s.conns[c := mv.value.conn]))
    case Snapshot(d, b) =>
      if !w.persistent then None
      else
        var mv := DumpMove(d, DumpPcOf(s, d), b, w.files(s.events).files, s.tmp);
        if mv.None? then None
        else
          var t := Perform(s, Dumping(d), mv.value.effect);
          if t.None? then None else Some(SetDumpPc(PerformFile(t.value, mv.value.file), d, mv.value.pc))
    case Close =>
      if s.closer != Resting then None
      else Some(s.(running := false, closer := if w.persistent then Waiting else Stopped))
  }

  // -------------------------------------------------------------- log reading

  /** The client messages an actor has passed to the backend, in order. */
  function Messages(es: seq<Event>, who: Actor): seq<bytes> {
    if es == [] then []
    else
      var e := es[|es| - 1];
      Messages(es[..|es| - 1], who) + if e.Begin? && e.actor == who && e.request.Raw? then [e.request.message] else []
  }

  /** The responses an actor has got from the backend, in order. */
  function Responses(es: seq<Event>, who: Actor): seq<bytes> {
    if es == [] then []
    else
      var e := es[|es| - 1];
      Responses(es[..|es| - 1], who) + if e.End? && e.actor == who && e.outcome.Returned? then [e.outcome.response] else []
  }

  lemma LogSnoc(es: seq<Event>, e: Event, who: Actor)
    ensures Messages(es + [e], who)
         == Messages(es, who) + if e.Begin? && e.actor == who && e.request.Raw? then [e.request.message] else []
    ensures Responses(es + [e], who)
         == Responses(es, who) + if e.End? && e.actor == who && e.outcome.Returned? then [e.outcome.response] else []
  {
    assert (es + [e])[..|es|] == es;
  }

  predicate SerialAt(es: seq<Event>, i: nat)
    requires i < |es|
  {
    if i % 2 == 0 then es[i].Begin? else es[i].End? && es[i].actor == es[i - 1].actor
  }

  /** Calls do not overlap: every start is followed by the end of the same call before anything else. */
  ghost predicate Serial(es: seq<Event>) {
    forall i :: 0 <= i < |es| ==> SerialAt(es, i)
  }

  /** The call of this actor is the one in progress. */
  predicate Open(es: seq<Event>, who: Actor) {
    |es| % 2 == 1 && es[|es| - 1].actor == who
  }
}
