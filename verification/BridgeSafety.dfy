/** What every step of the connection bridge keeps, and what follows for whole runs. */
module BridgeSafety {
  import opened Bytes
  import opened Bridge
  import Archive
  import WireCodec

  // ------------------------------------------------------- the lock and the log

  predicate Holds(s: State, who: Actor) {
    match who
    case Handler(c) => c in s.conns && PcHolds(s.conns[c].pc)
    case Dumping(d) => DumpHolds(DumpPcOf(s, d))
  }

  predicate Calls(s: State, who: Actor) {
    match who
    case Handler(c) => c in s.conns && PcCalls(s.conns[c].pc)
    case Dumping(d) => DumpPcOf(s, d).InQuery?
  }

  /** Exactly the owner of the lock stands inside a synchronized block. */
  ghost predicate LockInv(s: State) {
    forall who: Actor :: Holds(s, who) <==> s.lock == Some(who)
  }

  /** The log is serial and exactly the caller of its open call stands inside a backend call. */
  ghost predicate CallInv(s: State) {
    && Serial(s.events)
    && forall who: Actor :: Calls(s, who) <==> Open(s.events, who)
  }

  /** What an effect means for the position of the thread that has it. */
  predicate Respects(e: Effect, holds: bool, calls: bool, holds': bool, calls': bool) {
    match e
    case Silent => holds' == holds && calls' == calls
    case Acquire => !holds && holds' && !calls && !calls'
    case Release => holds && !holds' && !calls && !calls'
    case BeginCall(_) => holds && holds' && !calls && calls'
    case EndCall(_, release) => holds && holds' == !release && calls && !calls'
    case Store(_, _) => holds && !holds' && !calls && !calls'
  }

  ghost predicate ConnRespects(k: Conn, mv: Moved) {
    Respects(mv.effect, PcHolds(k.pc), PcCalls(k.pc), PcHolds(mv.conn.pc), PcCalls(mv.conn.pc))
  }

  lemma LookupRespects(k: Conn, a: Action, cache: Option<seq<bytes>>, now: nat)
    requires MoveLookup(k, a, cache, now).Some?
    ensures ConnRespects(k, MoveLookup(k, a, cache, now).value)
  {
  }

  lemma ExchangeRespects(k: Conn, a: Action, running: bool)
    requires MoveExchange(k, a, running).Some?
    ensures ConnRespects(k, MoveExchange(k, a, running).value)
  {
  }

  lemma ReplayRespects(k: Conn, a: Action)
    requires MoveReplay(k, a).Some?
    ensures ConnRespects(k, MoveReplay(k, a).value)
  {
  }

  lemma SessionRespects(k: Conn, a: Action, running: bool)
    requires MoveSession(k, a, running).Some?
    ensures ConnRespects(k, MoveSession(k, a, running).value)
  {
  }

  lemma MoveRespects(k: Conn, a: Action, running: bool, cache: Option<seq<bytes>>, now: nat)
    requires Move(k, a, running, cache, now).Some?
    ensures ConnRespects(k, Move(k, a, running, cache, now).value)
  {
    if InLookup(k.pc) {
      LookupRespects(k, a, cache, now);
    } else if InExchange(k.pc) {
      ExchangeRespects(k, a, running);
    } else if InReplay(k.pc) {
      ReplayRespects(k, a);
    } else {
      SessionRespects(k, a, running);
    }
  }

  lemma DumpMoveRespects(d: Dumper, pc: DumpPc, a: DumpAction, tree: Archive.Files, tmp: seq<Archive.Entry>)
    requires DumpMove(d, pc, a, tree, tmp).Some?
    ensures DumpRespects(pc, DumpMove(d, pc, a, tree, tmp).value)
  {
  }

  /** Mutual exclusion is kept by any step whose effect fits the thread that takes it. */
  lemma PerformKeepsLock(s: State, who: Actor, e: Effect, t: State, s': State)
    requires LockInv(s) && CallInv(s)
    requires Perform(s, who, e) == Some(t) && s'.lock == t.lock && s'.events == t.events
    requires Respects(e, Holds(s, who), Calls(s, who), Holds(s', who), Calls(s', who))
    requires forall w: Actor :: w != who ==> Holds(s', w) == Holds(s, w) && Calls(s', w) == Calls(s, w)
    ensures LockInv(s') && CallInv(s')
  {
    forall w: Actor
      ensures Holds(s', w) <==> s'.lock == Some(w)
    {
      assert Holds(s, w) <==> s.lock == Some(w);
      assert Holds(s, who) <==> s.lock == Some(who);
    }
    SerialStep(s, who, e, t);
    forall w: Actor
      ensures Calls(s', w) <==> Open(s'.events, w)
    {
      assert Calls(s, w) <==> Open(s.events, w);
      assert Calls(s, who) <==> Open(s.events, who);
    }
  }

  /** A call starts only when no call is open, and ends the open one. */
  lemma SerialStep(s: State, who: Actor, e: Effect, t: State)
    requires LockInv(s) && CallInv(s)
    requires Perform(s, who, e) == Some(t)
    requires e.BeginCall? ==> Holds(s, who) && !Calls(s, who)
    requires e.EndCall? ==> Calls(s, who)
    ensures Serial(t.events)
    ensures e.BeginCall? ==> |s.events| % 2 == 0
    ensures e.EndCall? ==> Open(s.events, who)
  {
    if e.BeginCall? && |s.events| % 2 == 1 {
      var w := s.events[|s.events| - 1].actor;
      assert Open(s.events, w);
      assert Calls(s, w) && Holds(s, w);
      assert false;
    }
    if e.BeginCall? {
      SerialSnoc(s.events, Begin(who, e.request));
    } else if e.EndCall? {
      assert Open(s.events, who);
      SerialSnoc(s.events, End(who, e.outcome));
    }
  }

  lemma SerialSnoc(es: seq<Event>, e: Event)
    requires Serial(es)
    requires if |es| % 2 == 0 then e.Begin? else e.End? && e.actor == es[|es| - 1].actor
    ensures Serial(es + [e])
  {
    var es' := es + [e];
    forall i | 0 <= i < |es'|
      ensures SerialAt(es', i)
    {
      if i < |es| {
        assert SerialAt(es, i);
      }
    }
  }

  lemma HandleKeepsLock(s: State, c: ConnId, mv: Moved, t: State, s': State)
    requires LockInv(s) && CallInv(s) && c in s.conns
    requires ConnRespects(s.conns[c], mv) && Perform(s, Handler(c), mv.effect) == Some(t)
    requires s' == t.(conns := s.conns[c := mv.conn])
    ensures LockInv(s') && CallInv(s')
  {
    forall w: Actor | w != Handler(c)
      ensures Holds(s', w) == Holds(s, w) && Calls(s', w) == Calls(s, w)
    {
    }
    PerformKeepsLock(s, Handler(c), mv.effect, t, s');
  }

  /** What a snapshot step leaves to the effect, and what it does not touch. */
  ghost predicate SnapshotFrame(s: State, d: Dumper, mv: Dumped, t: State, s': State) {
    && Perform(s, Dumping(d), mv.effect) == Some(t)
    && s'.running == s.running && s'.conns == s.conns
    && s'.lock == t.lock && s'.events == t.events && s'.cache == t.cache && s'.origin == t.origin
    && DumpPcOf(s', d) == mv.pc
    && forall d': Dumper :: d' != d ==> DumpPcOf(s', d') == DumpPcOf(s, d')
  }

  ghost predicate DumpRespects(pc: DumpPc, mv: Dumped) {
    Respects(mv.effect, DumpHolds(pc), pc.InQuery?, DumpHolds(mv.pc), mv.pc.InQuery?)
  }

  lemma SnapshotStep(w: World, s: State, d: Dumper, b: DumpAction, s': State) returns (mv: Dumped, t: State)
    requires Next(w, s, Snapshot(d, b)) == Some(s')
    ensures DumpMove(d, DumpPcOf(s, d), b, w.files(s.events).files, s.tmp) == Some(mv)
    ensures s' == SetDumpPc(PerformFile(t, mv.file), d, mv.pc)
    ensures SnapshotFrame(s, d, mv, t, s') && DumpRespects(DumpPcOf(s, d), mv)
  {
    DumpMoveRespects(d, DumpPcOf(s, d), b, w.files(s.events).files, s.tmp);
    mv := DumpMove(d, DumpPcOf(s, d), b, w.files(s.events).files, s.tmp).value;
    t := Perform(s, Dumping(d), mv.effect).value;
    PerformTouches(s, Dumping(d), mv.effect, t);
    PerformFileTouches(t, mv.file);
  }

  lemma PerformTouches(s: State, who: Actor, e: Effect, t: State)
    requires Perform(s, who, e) == Some(t)
    ensures t == s.(lock := t.lock, events := t.events, cache := t.cache, origin := t.origin)
  {
  }

  lemma PerformFileTouches(t: State, op: FileOp)
    ensures var u := PerformFile(t, op); u == t.(tmp := u.tmp, target := u.target, snapAt := u.snapAt)
  {
  }

  lemma SnapshotKeepsLock(s: State, d: Dumper, mv: Dumped, t: State, s': State)
    requires LockInv(s) && CallInv(s)
    requires SnapshotFrame(s, d, mv, t, s') && DumpRespects(DumpPcOf(s, d), mv)
    ensures LockInv(s') && CallInv(s')
  {
    PerformKeepsLock(s, Dumping(d), mv.effect, t, s');
  }

  lemma QuietKeepsLock(s: State, s': State)
    requires LockInv(s) && CallInv(s) && s'.lock == s.lock && s'.events == s.events
    requires forall who: Actor :: Holds(s', who) == Holds(s, who) && Calls(s', who) == Calls(s, who)
    ensures LockInv(s') && CallInv(s')
  {
  }

  /** Every step keeps mutual exclusion and the serial log. */
  lemma StepKeepsLock(w: World, s: State, step: Step, s': State)
    requires LockInv(s) && CallInv(s) && Next(w, s, step) == Some(s')
    ensures LockInv(s') && CallInv(s')
  {
    match step
    case Accept(c) => QuietKeepsLock(s, s');
    case Handle(c, a) =>
      MoveRespects(s.conns[c], a, s.running, s.cache, |s.events|);
      var mv := Move(s.conns[c], a, s.running, s.cache, |s.events|).value;
      HandleKeepsLock(s, c, mv, Perform(s, Handler(c), mv.effect).value, s');
    case Snapshot(d, b) =>
      var mv, t := SnapshotStep(w, s, d, b, s');
      SnapshotKeepsLock(s, d, mv, t, s');
    case Close => QuietKeepsLock(s, s');
  }

  // ----------------------------------------------- one connection's octet flow

  /** What the backend should see of a connection: nothing of its startup if that was replayed. */
  function Forwarded(k: Conn): seq<bytes> {
    (if k.startup.Exchanged? then k.startIn else []) + k.sessionIn
  }

  /** What the client got from the cache. */
  function Base(k: Conn): bytes {
    if k.startup.Replayed? && k.replayed <= |k.startup.cached| then Flatten(k.startup.cached[..k.replayed]) else []
  }

  /** All but the last of a list. */
  function Front(got: seq<bytes>): seq<bytes> {
    if got == [] then [] else got[..|got| - 1]
  }

  /** The output of a finished connection may lack part of the one response that was being written. */
  ghost predicate Truncated(k: Conn, got: seq<bytes>) {
    if k.startup.Replayed? && k.replayed < |k.startup.cached|
    then Base(k) <= k.out <= Flatten(k.startup.cached[..k.replayed + 1])
    else Base(k) + Flatten(Front(got)) <= k.out <= Base(k) + Flatten(got)
  }

  /** Startup is over. */
  predicate Settled(k: Conn) {
    && !k.startup.Undecided?
    && (k.startup.Replayed? ==> k.replayed == |k.startup.cached| == |k.startIn|)
  }

  /** The responses an exchange has recorded so far. */
  function Recorded(pc: Pc): seq<bytes>
    requires InExchange(pc)
  {
    if pc.ExchangeWrite? then pc.responses + [pc.response] else pc.responses
  }

  ghost predicate ShapeOk(k: Conn, got: seq<bytes>) {
    if InLookup(k.pc) then
      k.startup.Undecided? && k.replayed == 0 && k.startIn == k.sessionIn == got == []
    else if InExchange(k.pc) then
      k.startup.Exchanged? && k.sessionIn == [] && got == Recorded(k.pc)
    else if InReplay(k.pc) then
      && k.startup == Replayed(k.pc.cached) && k.sessionIn == got == []
      && k.replayed == k.pc.next <= |k.pc.cached|
      && |k.startIn| == (if k.pc.ReplayWrite? then k.pc.next + 1 else k.pc.next) <= |k.pc.cached|
    else if k.pc.Done? then
      && (k.startup.Undecided? ==> got == k.startIn == k.sessionIn == [])
      && (k.startup.Replayed? ==> k.replayed <= |k.startup.cached|)
      && (k.startup.Replayed? && k.replayed < |k.startup.cached| ==> got == [])
      && (k.sessionIn != [] ==> Settled(k))
      && (k.startup.Replayed? && k.replayed == |k.startup.cached| ==> Settled(k))
    else Settled(k)
  }

  /** A response that the backend gave but the client has not got completely. */
  predicate Writing(pc: Pc) {
    pc.ExchangeWrite? || pc.Answered? || pc.Write?
  }

  /** What the client has got, against the responses in the log. */
  ghost predicate OutOk(k: Conn, got: seq<bytes>) {
    if k.pc.Done? then Truncated(k, got)
    else if Writing(k.pc) then got != [] && got[|got| - 1] == k.pc.response && k.out == Base(k) + Flatten(Front(got))
    else k.out == Base(k) + Flatten(got)
  }

  /** What the backend has got, against what the client sent. */
  ghost predicate SentOk(k: Conn, sent: seq<bytes>) {
    if k.pc.WaitCall? || k.pc.Locked? then Forwarded(k) == sent + [k.pc.message] else Forwarded(k) == sent
  }

  /** Messages and responses of one connection, against its part of the log. */
  ghost predicate FlowOk(k: Conn, sent: seq<bytes>, got: seq<bytes>) {
    ShapeOk(k, got) && SentOk(k, sent) && OutOk(k, got)
  }

  function SentAfter(sent: seq<bytes>, e: Effect): seq<bytes> {
    if e.BeginCall? && e.request.Raw? then sent + [e.request.message] else sent
  }

  function GotAfter(got: seq<bytes>, e: Effect): seq<bytes> {
    if e.EndCall? && e.outcome.Returned? then got + [e.outcome.response] else got
  }

  /** Writing all or part of the last response. */
  lemma WriteLast(base: bytes, got: seq<bytes>, n: nat)
    requires got != [] && n <= |got[|got| - 1]|
    ensures var r := got[|got| - 1];
      && base + Flatten(Front(got)) <= base + Flatten(Front(got)) + r[..n] <= base + Flatten(got)
      && base + Flatten(Front(got)) + r == base + Flatten(got)
  {
    assert got == Front(got) + [got[|got| - 1]];
    FlattenSnoc(Front(got), got[|got| - 1]);
  }

  lemma FullIsTruncated(base: bytes, got: seq<bytes>)
    ensures base + Flatten(Front(got)) <= base + Flatten(got)
  {
    if got != [] {
      WriteLast(base, got, 0);
    }
  }

  lemma FrontSnoc(got: seq<bytes>, r: bytes)
    ensures Front(got + [r]) == got
  {
  }

  lemma LookupKeepsFlow(k: Conn, a: Action, cache: Option<seq<bytes>>, now: nat, sent: seq<bytes>, got: seq<bytes>)
    requires InLookup(k.pc) && FlowOk(k, sent, got) && MoveLookup(k, a, cache, now).Some?
    ensures var mv := MoveLookup(k, a, cache, now).value;
      FlowOk(mv.conn, SentAfter(sent, mv.effect), GotAfter(got, mv.effect))
  {
    if cache.Some? {
      assert cache.value[..0] == [];
    }
  }

  lemma ExchangeCallKeepsFlow(k: Conn, a: Action, running: bool, sent: seq<bytes>, got: seq<bytes>)
    requires k.pc.ExchangeCall? && FlowOk(k, sent, got) && MoveExchange(k, a, running).Some?
    ensures var mv := MoveExchange(k, a, running).value;
      FlowOk(mv.conn, SentAfter(sent, mv.effect), GotAfter(got, mv.effect))
  {
    FullIsTruncated(Base(k), got);
    if a.Answer? {
      FrontSnoc(got, a.response);
    }
  }

  lemma ExchangeWriteKeepsFlow(k: Conn, a: Action, running: bool, sent: seq<bytes>, got: seq<bytes>)
    requires k.pc.ExchangeWrite? && FlowOk(k, sent, got) && MoveExchange(k, a, running).Some?
    ensures var mv := MoveExchange(k, a, running).value;
      FlowOk(mv.conn, SentAfter(sent, mv.effect), GotAfter(got, mv.effect))
  {
    WriteLast(Base(k), got, if a.FailWrite? then a.written else 0);
  }

  lemma ExchangeReadKeepsFlow(k: Conn, a: Action, running: bool, sent: seq<bytes>, got: seq<bytes>)
    requires k.pc.ExchangeRead? && FlowOk(k, sent, got) && MoveExchange(k, a, running).Some?
    ensures var mv := MoveExchange(k, a, running).value;
      FlowOk(mv.conn, SentAfter(sent, mv.effect), GotAfter(got, mv.effect))
  {
    FullIsTruncated(Base(k), got);
  }

  lemma ExchangeOtherKeepsFlow(k: Conn, a: Action, running: bool, sent: seq<bytes>, got: seq<bytes>)
    requires k.pc.Exchange? || k.pc.Publish?
    requires FlowOk(k, sent, got) && MoveExchange(k, a, running).Some?
    ensures var mv := MoveExchange(k, a, running).value;
      FlowOk(mv.conn, SentAfter(sent, mv.effect), GotAfter(got, mv.effect))
  {
  }

  lemma ReplayEndKeepsFlow(k: Conn, a: Action, sent: seq<bytes>, got: seq<bytes>)
    requires k.pc.Replay? && a.Go? && FlowOk(k, sent, got) && MoveReplay(k, a).Some?
    ensures var mv := MoveReplay(k, a).value;
      FlowOk(mv.conn, SentAfter(sent, mv.effect), GotAfter(got, mv.effect))
  {
  }

  lemma ReplayReadKeepsFlow(k: Conn, a: Action, sent: seq<bytes>, got: seq<bytes>)
    requires k.pc.Replay? && a.Receive? && FlowOk(k, sent, got) && MoveReplay(k, a).Some?
    ensures var mv := MoveReplay(k, a).value;
      FlowOk(mv.conn, SentAfter(sent, mv.effect), GotAfter(got, mv.effect))
  {
    assert k.out == Base(k);
  }

  lemma ReplayStopKeepsFlow(k: Conn, a: Action, sent: seq<bytes>, got: seq<bytes>)
    requires k.pc.Replay? && a.Fail? && FlowOk(k, sent, got) && MoveReplay(k, a).Some?
    ensures var mv := MoveReplay(k, a).value;
      FlowOk(mv.conn, SentAfter(sent, mv.effect), GotAfter(got, mv.effect))
  {
    assert k.out == Base(k);
    ReplayOne(k.pc.cached, k.pc.next);
  }

  lemma ReplayWriteKeepsFlow(k: Conn, a: Action, sent: seq<bytes>, got: seq<bytes>)
    requires k.pc.ReplayWrite? && a.Go? && FlowOk(k, sent, got) && MoveReplay(k, a).Some?
    ensures var mv := MoveReplay(k, a).value;
      FlowOk(mv.conn, SentAfter(sent, mv.effect), GotAfter(got, mv.effect))
  {
    assert k.out == Base(k);
    ReplayOne(k.pc.cached, k.pc.next);
  }

  lemma ReplayBrokenWriteKeepsFlow(k: Conn, a: Action, sent: seq<bytes>, got: seq<bytes>)
    requires k.pc.ReplayWrite? && !a.Go? && FlowOk(k, sent, got) && MoveReplay(k, a).Some?
    ensures var mv := MoveReplay(k, a).value;
      FlowOk(mv.conn, SentAfter(sent, mv.effect), GotAfter(got, mv.effect))
  {
    assert k.out == Base(k);
    ReplayOne(k.pc.cached, k.pc.next);
  }

  lemma ReplayOne(cached: seq<bytes>, i: nat)
    requires i < |cached|
    ensures Flatten(cached[..i + 1]) == Flatten(cached[..i]) + cached[i]
  {
    assert cached[..i + 1] == cached[..i] + [cached[i]];
    FlattenSnoc(cached[..i], cached[i]);
  }

  lemma SessionCallKeepsFlow(k: Conn, a: Action, running: bool, sent: seq<bytes>, got: seq<bytes>)
    requires k.pc.InCall? && a.Answer? && FlowOk(k, sent, got) && MoveSession(k, a, running).Some?
    ensures var mv := MoveSession(k, a, running).value;
      FlowOk(mv.conn, SentAfter(sent, mv.effect), GotAfter(got, mv.effect))
  {
    FrontSnoc(got, a.response);
  }

  lemma SessionThrowKeepsFlow(k: Conn, a: Action, running: bool, sent: seq<bytes>, got: seq<bytes>)
    requires k.pc.InCall? && !a.Answer? && FlowOk(k, sent, got) && MoveSession(k, a, running).Some?
    ensures var mv := MoveSession(k, a, running).value;
      FlowOk(mv.conn, SentAfter(sent, mv.effect), GotAfter(got, mv.effect))
  {
    FullIsTruncated(Base(k), got);
  }

  lemma SessionWriteKeepsFlow(k: Conn, a: Action, running: bool, sent: seq<bytes>, got: seq<bytes>)
    requires k.pc.Write? && a.Go? && FlowOk(k, sent, got) && MoveSession(k, a, running).Some?
    ensures var mv := MoveSession(k, a, running).value;
      FlowOk(mv.conn, SentAfter(sent, mv.effect), GotAfter(got, mv.effect))
  {
    WriteLast(Base(k), got, 0);
  }

  lemma SessionBrokenWriteKeepsFlow(k: Conn, a: Action, running: bool, sent: seq<bytes>, got: seq<bytes>)
    requires k.pc.Write? && a.FailWrite? && FlowOk(k, sent, got) && MoveSession(k, a, running).Some?
    ensures var mv := MoveSession(k, a, running).value;
      FlowOk(mv.conn, SentAfter(sent, mv.effect), GotAfter(got, mv.effect))
  {
    WriteLast(Base(k), got, a.written);
  }

  lemma SessionReadKeepsFlow(k: Conn, a: Action, running: bool, sent: seq<bytes>, got: seq<bytes>)
    requires k.pc.Read? && FlowOk(k, sent, got) && MoveSession(k, a, running).Some?
    ensures var mv := MoveSession(k, a, running).value;
      FlowOk(mv.conn, SentAfter(sent, mv.effect), GotAfter(got, mv.effect))
  {
    if a.Receive? {
      ForwardedSnoc(k, a.message);
    } else {
      FullIsTruncated(Base(k), got);
    }
  }

  lemma SessionLoopKeepsFlow(k: Conn, a: Action, running: bool, sent: seq<bytes>, got: seq<bytes>)
    requires k.pc.Loop? && FlowOk(k, sent, got) && MoveSession(k, a, running).Some?
    ensures var mv := MoveSession(k, a, running).value;
      FlowOk(mv.conn, SentAfter(sent, mv.effect), GotAfter(got, mv.effect))
  {
    FullIsTruncated(Base(k), got);
  }

  lemma SessionBeginKeepsFlow(k: Conn, a: Action, running: bool, sent: seq<bytes>, got: seq<bytes>)
    requires k.pc.Locked? && FlowOk(k, sent, got) && MoveSession(k, a, running).Some?
    ensures var mv := MoveSession(k, a, running).value;
      FlowOk(mv.conn, SentAfter(sent, mv.effect), GotAfter(got, mv.effect))
  {
  }

  lemma SessionOtherKeepsFlow(k: Conn, a: Action, running: bool, sent: seq<bytes>, got: seq<bytes>)
    requires k.pc.WaitCall? || k.pc.Answered?
    requires FlowOk(k, sent, got) && MoveSession(k, a, running).Some?
    ensures var mv := MoveSession(k, a, running).value;
      FlowOk(mv.conn, SentAfter(sent, mv.effect), GotAfter(got, mv.effect))
  {
  }

  lemma ForwardedSnoc(k: Conn, m: bytes)
    ensures Forwarded(k.(sessionIn := k.sessionIn + [m])) == Forwarded(k) + [m]
  {
  }

  /** Every step of a handler keeps the tie between its octets and its part of the log. */
  lemma MoveKeepsFlow(k: Conn, a: Action, running: bool, cache: Option<seq<bytes>>, now: nat,
                      sent: seq<bytes>, got: seq<bytes>)
    requires FlowOk(k, sent, got) && Move(k, a, running, cache, now).Some?
    ensures var mv := Move(k, a, running, cache, now).value;
      FlowOk(mv.conn, SentAfter(sent, mv.effect), GotAfter(got, mv.effect))
  {
    if InLookup(k.pc) {
      LookupKeepsFlow(k, a, cache, now, sent, got);
    } else if InExchange(k.pc) {
      if k.pc.ExchangeCall? {
        ExchangeCallKeepsFlow(k, a, running, sent, got);
      } else if k.pc.ExchangeWrite? {
        ExchangeWriteKeepsFlow(k, a, running, sent, got);
      } else if k.pc.ExchangeRead? {
        ExchangeReadKeepsFlow(k, a, running, sent, got);
      } else {
        ExchangeOtherKeepsFlow(k, a, running, sent, got);
      }
    } else if InReplay(k.pc) {
      if k.pc.Replay? && a.Go? {
        ReplayEndKeepsFlow(k, a, sent, got);
      } else if k.pc.Replay? && a.Receive? {
        ReplayReadKeepsFlow(k, a, sent, got);
      } else if k.pc.Replay? {
        ReplayStopKeepsFlow(k, a, sent, got);
      } else if a.Go? {
        ReplayWriteKeepsFlow(k, a, sent, got);
      } else {
        ReplayBrokenWriteKeepsFlow(k, a, sent, got);
      }
    } else {
      if k.pc.InCall? && a.Answer? {
        SessionCallKeepsFlow(k, a, running, sent, got);
      } else if k.pc.InCall? {
        SessionThrowKeepsFlow(k, a, running, sent, got);
      } else if k.pc.Write? && a.Go? {
        SessionWriteKeepsFlow(k, a, running, sent, got);
      } else if k.pc.Write? {
        SessionBrokenWriteKeepsFlow(k, a, running, sent, got);
      } else if k.pc.Read? {
        SessionReadKeepsFlow(k, a, running, sent, got);
      } else if k.pc.Loop? {
        SessionLoopKeepsFlow(k, a, running, sent, got);
      } else if k.pc.Locked? {
        SessionBeginKeepsFlow(k, a, running, sent, got);
      } else {
        SessionOtherKeepsFlow(k, a, running, sent, got);
      }
    }
  }

  /** Every connection's octets agree with its part of the log. */
  ghost predicate FlowInv(s: State) {
    forall c: ConnId ::
      if c in s.conns
      then FlowOk(s.conns[c], Messages(s.events, Handler(c)), Responses(s.events, Handler(c)))
      else Messages(s.events, Handler(c)) == Responses(s.events, Handler(c)) == []
  }

  /** An effect adds to the log of the thread that has it, and to no other. */
  lemma PerformLogs(s: State, who: Actor, e: Effect, t: State, w: Actor)
    requires Perform(s, who, e) == Some(t)
    ensures Messages(t.events, w) == if w == who then SentAfter(Messages(s.events, w), e) else Messages(s.events, w)
    ensures Responses(t.events, w) == if w == who then GotAfter(Responses(s.events, w), e) else Responses(s.events, w)
  {
    match e
    case BeginCall(m) =>
      assert t.events == s.events + [Begin(who, m)];
      LogSnoc(s.events, Begin(who, m), w);
    case EndCall(o, _) =>
      assert t.events == s.events + [End(who, o)];
      LogSnoc(s.events, End(who, o), w);
    case _ =>
      assert t.events == s.events;
  }

  lemma HandleKeepsFlow(s: State, c: ConnId, a: Action, mv: Moved, t: State, s': State)
    requires FlowInv(s) && c in s.conns
    requires Move(s.conns[c], a, s.running, s.cache, |s.events|) == Some(mv)
    requires Perform(s, Handler(c), mv.effect) == Some(t)
    requires s' == t.(conns := s.conns[c := mv.conn])
    ensures FlowInv(s')
  {
    forall d: ConnId
      ensures if d in s'.conns
              then FlowOk(s'.conns[d], Messages(s'.events, Handler(d)), Responses(s'.events, Handler(d)))
              else Messages(s'.events, Handler(d)) == Responses(s'.events, Handler(d)) == []
    {
      PerformLogs(s, Handler(c), mv.effect, t, Handler(d));
      if d == c {
        MoveKeepsFlow(s.conns[c], a, s.running, s.cache, |s.events|,
                      Messages(s.events, Handler(c)), Responses(s.events, Handler(c)));
      }
    }
  }

  lemma SnapshotKeepsFlow(s: State, d: Dumper, mv: Dumped, t: State, s': State)
    requires FlowInv(s) && SnapshotFrame(s, d, mv, t, s')
    ensures FlowInv(s')
  {
    forall c: ConnId
      ensures if c in s'.conns
              then FlowOk(s'.conns[c], Messages(s'.events, Handler(c)), Responses(s'.events, Handler(c)))
              else Messages(s'.events, Handler(c)) == Responses(s'.events, Handler(c)) == []
    {
      PerformLogs(s, Dumping(d), mv.effect, t, Handler(c));
    }
  }

  /** Every step keeps the agreement. */
  lemma StepKeepsFlow(w: World, s: State, step: Step, s': State)
    requires FlowInv(s) && Next(w, s, step) == Some(s')
    ensures FlowInv(s')
  {
    match step
    case Accept(c) =>
      assert Flatten([]) == [];
    case Handle(c, a) =>
      var mv := Move(s.conns[c], a, s.running, s.cache, |s.events|).value;
      HandleKeepsFlow(s, c, a, mv, Perform(s, Handler(c), mv.effect).value, s');
    case Snapshot(d, b) =>
      var mv, t := SnapshotStep(w, s, d, b, s');
      SnapshotKeepsFlow(s, d, mv, t, s');
    case Close =>
  }

  // ------------------------------------------------------------- startup cache

  /** The exchange reached ReadyForQuery. */
  predicate Complete(responses: seq<bytes>) {
    responses != [] && WireCodec.EndsWithReadyForQuery(responses[|responses| - 1])
  }

  /** All calls in a stretch of the log belong to one actor. */
  ghost predicate AllBy(es: seq<Event>, start: nat, end: nat, who: Actor) {
    start <= end <= |es| && forall i :: start <= i < end ==> es[i].actor == who
  }

  /** A handler in its exchange has the lock since `since`, so everything logged since then is its own. */
  ghost predicate ExchangeOk(k: Conn, c: ConnId, events: seq<Event>, cache: Option<seq<bytes>>, running: bool) {
    InExchange(k.pc) ==>
      && cache.None? && k.startup.Exchanged?
      && AllBy(events, k.startup.since, |events|, Handler(c))
      && Responses(events[k.startup.since..], Handler(c)) == Recorded(k.pc)
      && (k.pc.Exchange? ==> !Complete(k.pc.responses))
      && (k.pc.Publish? ==> Complete(k.pc.responses) || !running)
  }

  ghost predicate CacheOk(k: Conn, c: ConnId, events: seq<Event>, cache: Option<seq<bytes>>, running: bool) {
    && ExchangeOk(k, c, events, cache, running)
    && (k.startup.Replayed? ==> cache == Some(k.startup.cached))
  }

  /** The cache holds what one exchange, uninterrupted in the log, got from the backend. */
  ghost predicate OriginOk(s: State) {
    if s.cache.None? then s.origin.None?
    else
      && s.origin.Some?
      && var o := s.origin.value;
         && AllBy(s.events, o.start, o.end, Handler(o.conn))
         && Responses(s.events[o.start..o.end], Handler(o.conn)) == s.cache.value
         && (Complete(s.cache.value) || !s.running)
  }

  ghost predicate CacheInv(s: State) {
    && OriginOk(s)
    && forall c: ConnId :: c in s.conns ==> CacheOk(s.conns[c], c, s.events, s.cache, s.running)
  }

  lemma SliceSnoc(es: seq<Event>, e: Event, since: nat, who: Actor)
    requires since <= |es|
    ensures Responses((es + [e])[since..], who)
         == Responses(es[since..], who) + if e.End? && e.actor == who && e.outcome.Returned? then [e.outcome.response] else []
  {
    assert (es + [e])[since..] == es[since..] + [e];
    LogSnoc(es[since..], e, who);
  }

  /** The handler that moves: its exchange grows by its own events only. */
  lemma MoveKeepsExchange(k: Conn, c: ConnId, a: Action, s: State, mv: Moved, t: State)
    requires ExchangeOk(k, c, s.events, s.cache, s.running) && InExchange(k.pc)
    requires MoveExchange(k, a, s.running) == Some(mv) && Perform(s, Handler(c), mv.effect) == Some(t)
    ensures InExchange(mv.conn.pc) ==> ExchangeOk(mv.conn, c, t.events, t.cache, t.running)
    ensures mv.effect.Store? ==> OriginOk(t)
  {
    if k.pc.ExchangeRead? {
      ReadKeepsExchange(k, c, a, s, mv, t);
    } else if k.pc.ExchangeCall? {
      CallKeepsExchange(k, c, a, s, mv, t);
    } else if k.pc.Publish? {
      StoreKeepsOrigin(k, c, a, s, mv, t);
    } else {
      TestKeepsExchange(k, c, a, s, mv, t);
    }
  }

  lemma ReadKeepsExchange(k: Conn, c: ConnId, a: Action, s: State, mv: Moved, t: State)
    requires ExchangeOk(k, c, s.events, s.cache, s.running) && k.pc.ExchangeRead?
    requires MoveExchange(k, a, s.running) == Some(mv) && Perform(s, Handler(c), mv.effect) == Some(t)
    ensures !mv.effect.Store? && (InExchange(mv.conn.pc) ==> ExchangeOk(mv.conn, c, t.events, t.cache, t.running))
  {
    if a.Receive? {
      SliceSnoc(s.events, Begin(Handler(c), Raw(a.message)), k.startup.since, Handler(c));
    }
  }

  lemma CallKeepsExchange(k: Conn, c: ConnId, a: Action, s: State, mv: Moved, t: State)
    requires ExchangeOk(k, c, s.events, s.cache, s.running) && k.pc.ExchangeCall?
    requires MoveExchange(k, a, s.running) == Some(mv) && Perform(s, Handler(c), mv.effect) == Some(t)
    ensures !mv.effect.Store? && (InExchange(mv.conn.pc) ==> ExchangeOk(mv.conn, c, t.events, t.cache, t.running))
  {
    if a.Answer? {
      SliceSnoc(s.events, End(Handler(c), Returned(a.response)), k.startup.since, Handler(c));
    }
  }

  lemma TestKeepsExchange(k: Conn, c: ConnId, a: Action, s: State, mv: Moved, t: State)
    requires ExchangeOk(k, c, s.events, s.cache, s.running) && (k.pc.Exchange? || k.pc.ExchangeWrite?)
    requires MoveExchange(k, a, s.running) == Some(mv) && Perform(s, Handler(c), mv.effect) == Some(t)
    ensures !mv.effect.Store? && (InExchange(mv.conn.pc) ==> ExchangeOk(mv.conn, c, t.events, t.cache, t.running))
  {
  }

  lemma StoreKeepsOrigin(k: Conn, c: ConnId, a: Action, s: State, mv: Moved, t: State)
    requires ExchangeOk(k, c, s.events, s.cache, s.running) && k.pc.Publish?
    requires MoveExchange(k, a, s.running) == Some(mv) && Perform(s, Handler(c), mv.effect) == Some(t)
    ensures mv.effect.Store? && !InExchange(mv.conn.pc) && OriginOk(t)
  {
    assert s.events[k.startup.since..|s.events|] == s.events[k.startup.since..];
  }

  lemma MoveEntersExchange(k: Conn, c: ConnId, a: Action, s: State, mv: Moved)
    requires !InExchange(k.pc) && Move(k, a, s.running, s.cache, |s.events|) == Some(mv) && InExchange(mv.conn.pc)
    ensures mv.effect.Silent? && ExchangeOk(mv.conn, c, s.events, s.cache, s.running)
  {
    assert s.events[|s.events|..] == [];
  }

  /** The cache is only written by a handler at the end of its exchange. */
  lemma StoreOnlyFromExchange(k: Conn, a: Action, running: bool, cache: Option<seq<bytes>>, now: nat, mv: Moved)
    requires Move(k, a, running, cache, now) == Some(mv)
    ensures mv.effect.Store? ==> k.pc.Publish?
    ensures mv.conn.startup.Replayed? ==>
              mv.conn.startup == k.startup || cache == Some(mv.conn.startup.cached)
  {
  }

  /** Other threads' effects do not touch an exchange: they do not have the lock. */
  lemma OthersKeepCacheOk(s: State, who: Actor, e: Effect, t: State, c: ConnId)
    requires LockInv(s) && c in s.conns && who != Handler(c)
    requires CacheOk(s.conns[c], c, s.events, s.cache, s.running)
    requires Perform(s, who, e) == Some(t)
    requires e.BeginCall? || e.EndCall? || e.Store? ==> Holds(s, who)
    requires e.Store? ==> s.cache.None?
    ensures CacheOk(s.conns[c], c, t.events, t.cache, t.running)
  {
    if e.BeginCall? || e.EndCall? || e.Store? {
      assert Holds(s, who) && s.lock == Some(who);
      assert !Holds(s, Handler(c));
    }
  }

  lemma PerformKeepsOrigin(s: State, who: Actor, e: Effect, t: State)
    requires OriginOk(s) && Perform(s, who, e) == Some(t) && !e.Store?
    ensures OriginOk(t)
  {
    if s.cache.Some? {
      var o := s.origin.value;
      assert t.events[o.start..o.end] == s.events[o.start..o.end];
    }
  }

  lemma HandleKeepsCache(s: State, c: ConnId, a: Action, mv: Moved, t: State, s': State)
    requires LockInv(s) && CacheInv(s) && c in s.conns
    requires Move(s.conns[c], a, s.running, s.cache, |s.events|) == Some(mv)
    requires Perform(s, Handler(c), mv.effect) == Some(t)
    requires s' == t.(conns := s.conns[c := mv.conn])
    ensures CacheInv(s')
  {
    var k := s.conns[c];
    assert CacheOk(k, c, s.events, s.cache, s.running);
    MoveRespects(k, a, s.running, s.cache, |s.events|);
    StoreOnlyFromExchange(k, a, s.running, s.cache, |s.events|, mv);
    if InExchange(k.pc) {
      MoveKeepsExchange(k, c, a, s, mv, t);
    } else if InExchange(mv.conn.pc) {
      MoveEntersExchange(k, c, a, s, mv);
    }
    if !mv.effect.Store? {
      PerformKeepsOrigin(s, Handler(c), mv.effect, t);
    }
    forall d: ConnId | d in s'.conns
      ensures CacheOk(s'.conns[d], d, s'.events, s'.cache, s'.running)
    {
      if d != c {
        OthersKeepCacheOk(s, Handler(c), mv.effect, t, d);
      }
    }
  }

  lemma SnapshotKeepsCache(s: State, d: Dumper, mv: Dumped, t: State, s': State)
    requires LockInv(s) && CacheInv(s)
    requires SnapshotFrame(s, d, mv, t, s') && DumpRespects(DumpPcOf(s, d), mv)
    ensures CacheInv(s')
  {
    PerformKeepsOrigin(s, Dumping(d), mv.effect, t);
    forall c: ConnId | c in s'.conns
      ensures CacheOk(s'.conns[c], c, s'.events, s'.cache, s'.running)
    {
      OthersKeepCacheOk(s, Dumping(d), mv.effect, t, c);
    }
  }

  lemma StepKeepsCache(w: World, s: State, step: Step, s': State)
    requires LockInv(s) && CacheInv(s) && Next(w, s, step) == Some(s')
    ensures CacheInv(s')
  {
    match step
    case Accept(c) =>
    case Handle(c, a) =>
      var mv := Move(s.conns[c], a, s.running, s.cache, |s.events|).value;
      HandleKeepsCache(s, c, a, mv, Perform(s, Handler(c), mv.effect).value, s');
    case Snapshot(d, b) =>
      var mv, t := SnapshotStep(w, s, d, b, s');
      SnapshotKeepsCache(s, d, mv, t, s');
    case Close =>
  }

  /** The cache changes at most once, from empty to full. */
  lemma StepKeepsStoredCache(w: World, s: State, step: Step, s': State)
    requires CacheInv(s) && Next(w, s, step) == Some(s') && s.cache.Some?
    ensures s'.cache == s.cache && s'.origin == s.origin
  {
    if step.Handle? {
      var k := s.conns[step.c];
      assert CacheOk(k, step.c, s.events, s.cache, s.running);
      var mv := Move(k, step.a, s.running, s.cache, |s.events|).value;
      StoreOnlyFromExchange(k, step.a, s.running, s.cache, |s.events|, mv);
    }
  }

  // ---------------------------------------------------------------- snapshots

  /** The log ends with the maintenance queries of one dumper, both answered, and nothing in between. */
  ghost predicate Maintained(es: seq<Event>, d: Dumper) {
    var n := |es|;
    && n >= 4
    && es[n - 4] == Begin(Dumping(d), Maintain(Vacuum))
    && es[n - 3].End? && es[n - 3].actor == Dumping(d) && es[n - 3].outcome.Returned?
    && es[n - 2] == Begin(Dumping(d), Maintain(Checkpoint))
    && es[n - 1].End? && es[n - 1].actor == Dumping(d) && es[n - 1].outcome.Returned?
  }

  /** How far a dumper got, read off the end of the log. */
  ghost predicate DumpOk(w: World, d: Dumper, pc: DumpPc, es: seq<Event>, tmp: seq<Archive.Entry>) {
    var n := |es|;
    match pc
    case InQuery(Vacuum) => n >= 1 && es[n - 1] == Begin(Dumping(d), Maintain(Vacuum))
    case Query(Checkpoint) =>
      && n >= 2 && es[n - 2] == Begin(Dumping(d), Maintain(Vacuum))
      && es[n - 1].End? && es[n - 1].actor == Dumping(d) && es[n - 1].outcome.Returned?
    case InQuery(Checkpoint) =>
      && n >= 3 && es[n - 3] == Begin(Dumping(d), Maintain(Vacuum))
      && es[n - 2].End? && es[n - 2].actor == Dumping(d) && es[n - 2].outcome.Returned?
      && es[n - 1] == Begin(Dumping(d), Maintain(Checkpoint))
    case Create => Maintained(es, d)
    case Walk => Maintained(es, d) && Archive.IsPartialArchive(tmp, w.files(es).files)
    case Rename => Maintained(es, d) && Archive.IsArchive(tmp, w.files(es).files)
    case _ => true
  }

  /**
   * The snapshot file is the one present at boot or a complete image of the data directory right after the
   * maintenance queries that end a prefix of the log.
   */
  ghost predicate TargetOk(w: World, target: Option<seq<Archive.Entry>>, es: seq<Event>, at: Option<nat>) {
    match at
    case None => target == w.boot
    case Some(n) =>
      && n <= |es| && n % 2 == 0 && target.Some?
      && (exists d: Dumper :: Maintained(es[..n], d))
      && Archive.IsArchive(target.value, w.files(es[..n]).files)
  }

  ghost predicate SnapInv(w: World, s: State) {
    && DumpOk(w, Timer, s.timer, s.events, s.tmp)
    && DumpOk(w, Closer, s.closer, s.events, s.tmp)
    && TargetOk(w, s.target, s.events, s.snapAt)
  }

  lemma TargetOkGrows(w: World, target: Option<seq<Archive.Entry>>, es: seq<Event>, at: Option<nat>, e: Event)
    requires TargetOk(w, target, es, at)
    ensures TargetOk(w, target, es + [e], at)
  {
    if at.Some? {
      assert (es + [e])[..at.value] == es[..at.value];
    }
  }

  lemma PerformKeepsTarget(w: World, s: State, who: Actor, e: Effect, t: State)
    requires TargetOk(w, s.target, s.events, s.snapAt) && Perform(s, who, e) == Some(t)
    ensures TargetOk(w, t.target, t.events, t.snapAt)
  {
    match e
    case BeginCall(m) => TargetOkGrows(w, s.target, s.events, s.snapAt, Begin(who, m));
    case EndCall(o, _) => TargetOkGrows(w, s.target, s.events, s.snapAt, End(who, o));
    case _ =>
  }

  /** A walk that has reached every file leaves a complete archive. */
  lemma AllVisited(tree: Archive.Files, tmp: seq<Archive.Entry>)
    requires Archive.IsPartialArchive(tmp, tree) && forall p <- Archive.Stored(tree) :: Visited(p, tmp)
    ensures Archive.IsArchive(tmp, tree)
  {
    forall p <- Archive.Stored(tree)
      ensures Archive.EntryOf(tree, p) in tmp
    {
      var e :| e in tmp && e.name == Archive.EntryName(p);
      Archive.ResolveEntryName(p);
    }
  }

  /** The dumper that moves. */
  lemma DumpMoveKeepsDumpOk(w: World, s: State, d: Dumper, b: DumpAction, mv: Dumped, t: State)
    requires DumpOk(w, d, DumpPcOf(s, d), s.events, s.tmp)
    requires DumpMove(d, DumpPcOf(s, d), b, w.files(s.events).files, s.tmp) == Some(mv)
    requires Perform(s, Dumping(d), mv.effect) == Some(t)
    ensures DumpOk(w, d, mv.pc, t.events, PerformFile(t, mv.file).tmp)
  {
    var pc := DumpPcOf(s, d);
    match (pc, b)
    case (Walk, Visit(p)) =>
      Archive.ExtendArchive(s.tmp, w.files(s.events).files, p);
    case (Walk, Tick) =>
      AllVisited(w.files(s.events).files, s.tmp);
    case _ =>
  }

  /** A dumper that does not hold the lock has nothing at stake. */
  lemma UnlockedDumpOk(w: World, d: Dumper, pc: DumpPc, es: seq<Event>, tmp: seq<Archive.Entry>)
    requires !DumpHolds(pc)
    ensures DumpOk(w, d, pc, es, tmp)
  {
  }

  /** Another thread's step leaves a working dumper alone: that thread does not have the lock. */
  lemma OthersKeepDumpOk(w: World, s: State, who: Actor, e: Effect, t: State, d: Dumper)
    requires LockInv(s) && who != Dumping(d) && Perform(s, who, e) == Some(t)
    requires e.BeginCall? || e.EndCall? ==> Holds(s, who)
    requires DumpOk(w, d, DumpPcOf(s, d), s.events, s.tmp)
    ensures DumpOk(w, d, DumpPcOf(s, d), t.events, s.tmp)
  {
    if e.BeginCall? || e.EndCall? {
      assert s.lock == Some(who);
      assert !Holds(s, Dumping(d));
      UnlockedDumpOk(w, d, DumpPcOf(s, d), t.events, s.tmp);
    }
  }

  lemma SnapshotKeepsTarget(w: World, s: State, d: Dumper, b: DumpAction, mv: Dumped, t: State)
    requires CallInv(s) && SnapInv(w, s)
    requires DumpMove(d, DumpPcOf(s, d), b, w.files(s.events).files, s.tmp) == Some(mv)
    requires Perform(s, Dumping(d), mv.effect) == Some(t)
    ensures var u := PerformFile(t, mv.file); TargetOk(w, u.target, u.events, u.snapAt)
  {
    if mv.file.Replace? {
      ReplaceAtRename(d, DumpPcOf(s, d), b, w.files(s.events).files, s.tmp, mv);
      TargetTaken(w, d, s.events, s.tmp);
    } else {
      PerformKeepsTarget(w, s, Dumping(d), mv.effect, t);
    }
  }

  lemma ReplaceAtRename(d: Dumper, pc: DumpPc, b: DumpAction, tree: Archive.Files, tmp: seq<Archive.Entry>, mv: Dumped)
    requires DumpMove(d, pc, b, tree, tmp) == Some(mv) && mv.file.Replace?
    ensures pc.Rename? && mv.effect.Release?
  {
  }

  /** A complete archive taken right after the maintenance queries may become the snapshot. */
  lemma TargetTaken(w: World, d: Dumper, es: seq<Event>, tmp: seq<Archive.Entry>)
    requires Serial(es) && Maintained(es, d) && Archive.IsArchive(tmp, w.files(es).files)
    ensures TargetOk(w, Some(tmp), es, Some(|es|))
  {
    assert es[..|es|] == es;
    assert SerialAt(es, |es| - 1);
  }

  lemma SnapshotKeepsSnap(w: World, s: State, d: Dumper, b: DumpAction, s': State)
    requires LockInv(s) && CallInv(s) && SnapInv(w, s) && Next(w, s, Snapshot(d, b)) == Some(s')
    ensures SnapInv(w, s')
  {
    var mv, t := SnapshotStep(w, s, d, b, s');
    SnapshotKeepsTarget(w, s, d, b, mv, t);
    DumpMoveKeepsDumpOk(w, s, d, b, mv, t);
    var d' := if d.Timer? then Closer else Timer;
    OtherDumperKept(w, s, d, mv, t, d');
    PerformFileTouches(t, mv.file);
    assert DumpOk(w, d', DumpPcOf(s', d'), s'.events, s'.tmp);
    assert DumpOk(w, d, DumpPcOf(s', d), s'.events, s'.tmp);
  }

  /** The other dumper is not at work while this one holds the lock. */
  lemma OtherDumperKept(w: World, s: State, d: Dumper, mv: Dumped, t: State, d': Dumper)
    requires LockInv(s) && DumpOk(w, d', DumpPcOf(s, d'), s.events, s.tmp) && d' != d
    requires Perform(s, Dumping(d), mv.effect) == Some(t) && DumpRespects(DumpPcOf(s, d), mv)
    requires mv.file != Keep ==> DumpHolds(DumpPcOf(s, d))
    ensures DumpOk(w, d', DumpPcOf(s, d'), t.events, PerformFile(t, mv.file).tmp)
  {
    OthersKeepDumpOk(w, s, Dumping(d), mv.effect, t, d');
    if mv.file != Keep {
      assert Holds(s, Dumping(d)) && s.lock == Some(Dumping(d));
      assert !Holds(s, Dumping(d'));
      UnlockedDumpOk(w, d', DumpPcOf(s, d'), t.events, PerformFile(t, mv.file).tmp);
    } else {
      PerformTouches(s, Dumping(d), mv.effect, t);
    }
  }

  lemma HandleKeepsSnap(w: World, s: State, c: ConnId, a: Action, s': State)
    requires LockInv(s) && SnapInv(w, s) && Next(w, s, Handle(c, a)) == Some(s')
    ensures SnapInv(w, s')
  {
    var mv := Move(s.conns[c], a, s.running, s.cache, |s.events|).value;
    var t := Perform(s, Handler(c), mv.effect).value;
    MoveRespects(s.conns[c], a, s.running, s.cache, |s.events|);
    PerformTouches(s, Handler(c), mv.effect, t);
    HandlerKeepsSnap(w, s, c, mv.effect, t);
  }

  lemma HandlerKeepsSnap(w: World, s: State, c: ConnId, e: Effect, t: State)
    requires LockInv(s) && SnapInv(w, s) && Perform(s, Handler(c), e) == Some(t)
    requires e.BeginCall? || e.EndCall? ==> Holds(s, Handler(c))
    ensures DumpOk(w, Timer, s.timer, t.events, s.tmp) && DumpOk(w, Closer, s.closer, t.events, s.tmp)
    ensures TargetOk(w, t.target, t.events, t.snapAt)
  {
    PerformKeepsTarget(w, s, Handler(c), e, t);
    OthersKeepDumpOk(w, s, Handler(c), e, t, Timer);
    OthersKeepDumpOk(w, s, Handler(c), e, t, Closer);
  }

  lemma StepKeepsSnap(w: World, s: State, step: Step, s': State)
    requires LockInv(s) && CallInv(s) && SnapInv(w, s) && Next(w, s, step) == Some(s')
    ensures SnapInv(w, s')
  {
    match step
    case Accept(c) =>
    case Handle(c, a) => HandleKeepsSnap(w, s, c, a, s');
    case Snapshot(d, b) => SnapshotKeepsSnap(w, s, d, b, s');
    case Close =>
  }

  /** Snapshots only move forward: a step keeps the snapshot or takes it after the whole log so far. */
  lemma StepAdvancesSnapshot(w: World, s: State, step: Step, s': State)
    requires Next(w, s, step) == Some(s')
    ensures (s'.snapAt == s.snapAt && s'.target == s.target) || s'.snapAt == Some(|s'.events|)
  {
    match step
    case Snapshot(d, b) =>
      var mv, t := SnapshotStep(w, s, d, b, s');
      PerformTouches(s, Dumping(d), mv.effect, t);
    case _ =>
  }

  // -------------------------------------------------- responses meet messages

  /** Every message but the one in progress, or the one whose call threw, has its response. */
  ghost predicate CountOk(pc: Pc, sent: nat, got: nat) {
    if PcCalls(pc) then sent == got + 1
    else if pc.Done? then got <= sent <= got + 1
    else sent == got
  }

  lemma MoveKeepsCount(k: Conn, a: Action, running: bool, cache: Option<seq<bytes>>, now: nat,
                       sent: seq<bytes>, got: seq<bytes>)
    requires CountOk(k.pc, |sent|, |got|) && Move(k, a, running, cache, now).Some?
    ensures var mv := Move(k, a, running, cache, now).value;
      && CountOk(mv.conn.pc, |SentAfter(sent, mv.effect)|, |GotAfter(got, mv.effect)|)
      && (mv.effect.BeginCall? ==> mv.effect.request.Raw?)
  {
    if InExchange(k.pc) {
      ExchangeKeepsCount(k, a, running, sent, got);
    } else if !InLookup(k.pc) && !InReplay(k.pc) {
      SessionKeepsCount(k, a, running, sent, got);
    }
  }

  lemma ExchangeKeepsCount(k: Conn, a: Action, running: bool, sent: seq<bytes>, got: seq<bytes>)
    requires CountOk(k.pc, |sent|, |got|) && MoveExchange(k, a, running).Some?
    ensures var mv := MoveExchange(k, a, running).value;
      && CountOk(mv.conn.pc, |SentAfter(sent, mv.effect)|, |GotAfter(got, mv.effect)|)
      && (mv.effect.BeginCall? ==> mv.effect.request.Raw?)
  {
  }

  lemma SessionKeepsCount(k: Conn, a: Action, running: bool, sent: seq<bytes>, got: seq<bytes>)
    requires CountOk(k.pc, |sent|, |got|) && MoveSession(k, a, running).Some?
    ensures var mv := MoveSession(k, a, running).value;
      && CountOk(mv.conn.pc, |SentAfter(sent, mv.effect)|, |GotAfter(got, mv.effect)|)
      && (mv.effect.BeginCall? ==> mv.effect.request.Raw?)
  {
  }

  /** The call that starts at `i` is the n-th of `who`, passed this message and returned this response. */
  ghost predicate CallAt(es: seq<Event>, i: nat, who: Actor, n: nat, message: bytes, response: bytes) {
    && i + 1 < |es| && es[i] == Begin(who, Raw(message)) && es[i + 1] == End(who, Returned(response))
    && |Messages(es[..i], who)| == |Responses(es[..i], who)| == n
  }

  /** The n-th call of `who` passed this message and returned this response. */
  ghost predicate Answers(es: seq<Event>, who: Actor, n: nat, message: bytes, response: bytes) {
    exists i: nat :: CallAt(es, i, who, n, message, response)
  }

  /** The n-th response an actor got answers the n-th message it sent, and it only sends client octets. */
  ghost predicate AlignOk(es: seq<Event>, who: Actor) {
    var sent, got := Messages(es, who), Responses(es, who);
    && |got| <= |sent|
    && (forall n :: 0 <= n < |got| ==> Answers(es, who, n, sent[n], got[n]))
    && forall i :: 0 <= i < |es| && es[i].Begin? && es[i].actor == who ==> es[i].request.Raw?
  }

  ghost predicate AlignInv(s: State) {
    forall c: ConnId ::
      && AlignOk(s.events, Handler(c))
      && (c in s.conns ==>
            CountOk(s.conns[c].pc, |Messages(s.events, Handler(c))|, |Responses(s.events, Handler(c))|))
  }

  lemma AnswersGrow(es: seq<Event>, e: Event, who: Actor, n: nat, m: bytes, r: bytes)
    requires Answers(es, who, n, m, r)
    ensures Answers(es + [e], who, n, m, r)
  {
    var i: nat :| CallAt(es, i, who, n, m, r);
    assert (es + [e])[..i] == es[..i];
    assert CallAt(es + [e], i, who, n, m, r);
  }

  /** An event adds a message, or a response to the message of the open call, or nothing. */
  lemma EventKeepsAlign(es: seq<Event>, e: Event, who: Actor)
    requires AlignOk(es, who)
    requires e.Begin? && e.actor == who ==> e.request.Raw?
    requires e.End? && e.actor == who ==>
               && |es| > 0 && es[|es| - 1].Begin? && es[|es| - 1].actor == who
               && |Messages(es, who)| == |Responses(es, who)| + 1
    ensures AlignOk(es + [e], who)
  {
    LogSnoc(es, e, who);
    var es' := es + [e];
    var sent, got := Messages(es', who), Responses(es', who);
    forall n | 0 <= n < |got|
      ensures Answers(es', who, n, sent[n], got[n])
    {
      if n < |Responses(es, who)| {
        AnswersGrow(es, e, who, n, sent[n], got[n]);
      } else {
        var last := |es| - 1;
        assert es'[..last] == es[..last];
        assert es[last].request.Raw?;
        assert es == es[..last] + [es[last]];
        LogSnoc(es[..last], es[last], who);
        assert CallAt(es', last, who, n, sent[n], got[n]);
      }
    }
  }

  lemma PerformKeepsAlign(s: State, who: Actor, e: Effect, t: State, c: ConnId)
    requires AlignOk(s.events, Handler(c)) && CallInv(s)
    requires Perform(s, who, e) == Some(t)
    requires who == Handler(c) && e.EndCall? ==>
               Calls(s, who) && |Messages(s.events, who)| == |Responses(s.events, who)| + 1
    requires who == Handler(c) && e.BeginCall? ==> e.request.Raw?
    ensures AlignOk(t.events, Handler(c))
  {
    match e
    case BeginCall(r) => EventKeepsAlign(s.events, Begin(who, r), Handler(c));
    case EndCall(o, _) =>
      if who == Handler(c) {
        assert Open(s.events, who);
        assert SerialAt(s.events, |s.events| - 1);
      }
      EventKeepsAlign(s.events, End(who, o), Handler(c));
    case _ =>
  }

  lemma HandleKeepsAlign(s: State, c: ConnId, a: Action, mv: Moved, t: State, s': State)
    requires AlignInv(s) && CallInv(s) && c in s.conns
    requires Move(s.conns[c], a, s.running, s.cache, |s.events|) == Some(mv)
    requires Perform(s, Handler(c), mv.effect) == Some(t)
    requires s' == t.(conns := s.conns[c := mv.conn])
    ensures AlignInv(s')
  {
    forall d: ConnId
      ensures AlignOk(s'.events, Handler(d))
      ensures d in s'.conns ==>
                CountOk(s'.conns[d].pc, |Messages(s'.events, Handler(d))|, |Responses(s'.events, Handler(d))|)
    {
      assert AlignOk(s.events, Handler(d));
      PerformLogs(s, Handler(c), mv.effect, t, Handler(d));
      if d == c {
        MoveRespects(s.conns[c], a, s.running, s.cache, |s.events|);
        MoveKeepsCount(s.conns[c], a, s.running, s.cache, |s.events|,
                       Messages(s.events, Handler(c)), Responses(s.events, Handler(c)));
      }
      PerformKeepsAlign(s, Handler(c), mv.effect, t, d);
    }
  }

  lemma SnapshotKeepsAlign(s: State, d: Dumper, mv: Dumped, t: State, s': State)
    requires AlignInv(s) && CallInv(s) && SnapshotFrame(s, d, mv, t, s')
    ensures AlignInv(s')
  {
    forall c: ConnId
      ensures AlignOk(s'.events, Handler(c))
      ensures c in s'.conns ==>
                CountOk(s'.conns[c].pc, |Messages(s'.events, Handler(c))|, |Responses(s'.events, Handler(c))|)
    {
      assert AlignOk(s.events, Handler(c));
      PerformLogs(s, Dumping(d), mv.effect, t, Handler(c));
      PerformKeepsAlign(s, Dumping(d), mv.effect, t, c);
    }
  }

  lemma AcceptKeepsAlign(s: State, c: ConnId, s': State)
    requires FlowInv(s) && AlignInv(s) && c !in s.conns && s' == s.(conns := s.conns[c := NEW_CONN])
    ensures AlignInv(s')
  {
  }

  lemma StepKeepsAlign(w: World, s: State, step: Step, s': State)
    requires FlowInv(s) && AlignInv(s) && CallInv(s) && Next(w, s, step) == Some(s')
    ensures AlignInv(s')
  {
    match step
    case Accept(c) => AcceptKeepsAlign(s, c, s');
    case Handle(c, a) =>
      var mv := Move(s.conns[c], a, s.running, s.cache, |s.events|).value;
      HandleKeepsAlign(s, c, a, mv, Perform(s, Handler(c), mv.effect).value, s');
    case Snapshot(d, b) =>
      var mv, t := SnapshotStep(w, s, d, b, s');
      SnapshotKeepsAlign(s, d, mv, t, s');
    case Close =>
  }

  // --------------------------------------------------------------- whole runs

  ghost predicate Inv(w: World, s: State) {
    LockInv(s) && CallInv(s) && FlowInv(s) && CacheInv(s) && SnapInv(w, s) && AlignInv(s)
  }

  lemma InitHolds(w: World)
    ensures Inv(w, Init(w))
  {
  }

  lemma StepKeepsInv(w: World, s: State, step: Step, s': State)
    requires Inv(w, s) && Next(w, s, step) == Some(s')
    ensures Inv(w, s')
  {
    StepKeepsLock(w, s, step, s');
    StepKeepsFlow(w, s, step, s');
    StepKeepsCache(w, s, step, s');
    StepKeepsSnap(w, s, step, s');
    StepKeepsAlign(w, s, step, s');
  }
}
