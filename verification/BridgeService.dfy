/**
 * What the connection bridge can always do: serve a request, start a connection up, from the cache or by an exchange,
 * and publish a snapshot. Each is a run from any state that allows it, with a result that is told in full.
 */
module BridgeService {
  import opened Bytes
  import opened Bridge
  import Archive
  import WireCodec

  /** The state after some steps, if they can be taken. */
  function Exec(w: World, s: State, steps: seq<Step>): Option<State> {
    if steps == [] then Some(s)
    else
      var t := Exec(w, s, steps[..|steps| - 1]);
      if t.None? then None else Next(w, t.value, steps[|steps| - 1])
  }

  /** Some steps lead from `s` to `t`. */
  ghost predicate Reaches(w: World, s: State, t: State) {
    exists steps :: Exec(w, s, steps) == Some(t)
  }

  lemma ReachesItself(w: World, s: State)
    ensures Reaches(w, s, s)
  {
    assert Exec(w, s, []) == Some(s);
  }

  lemma ReachesNext(w: World, s: State, t: State, step: Step, u: State)
    requires Reaches(w, s, t) && Next(w, t, step) == Some(u)
    ensures Reaches(w, s, u)
  {
    var steps :| Exec(w, s, steps) == Some(t);
    assert (steps + [step])[..|steps|] == steps;
    assert Exec(w, s, steps + [step]) == Some(u);
  }

  /** `s` with one connection, the lock and the log changed. */
  function At(s: State, c: ConnId, k: Conn, lock: Option<Actor>, events: seq<Event>): State {
    s.(conns := s.conns[c := k], lock := lock, events := events)
  }

  /** An effect leaves this lock and this log. */
  predicate Effects(who: Actor, e: Effect, lock: Option<Actor>, es: seq<Event>, lock': Option<Actor>, es': seq<Event>) {
    match e
    case Silent => lock' == lock && es' == es
    case Acquire => lock.None? && lock' == Some(who) && es' == es
    case Release => lock'.None? && es' == es
    case BeginCall(r) => lock' == lock && es' == es + [Begin(who, r)]
    case EndCall(o, release) => lock' == (if release then None else lock) && es' == es + [End(who, o)]
    case Store(_, _) => false
  }

  /** One more step of a handler. */
  lemma HandlerStep(w: World, s: State, c: ConnId, k: Conn, lock: Option<Actor>, es: seq<Event>,
                    a: Action, k': Conn, e: Effect, lock': Option<Actor>, es': seq<Event>)
    requires Reaches(w, s, At(s, c, k, lock, es))
    requires Move(k, a, s.running, s.cache, |es|) == Some(Moved(k', e)) && Effects(Handler(c), e, lock, es, lock', es')
    ensures Reaches(w, s, At(s, c, k', lock', es'))
  {
    var t, u := At(s, c, k, lock, es), At(s, c, k', lock', es');
    assert t.conns[c := k'] == s.conns[c := k'];
    ReachesNext(w, s, t, Handle(c, a), u);
  }

  lemma Start(w: World, s: State, c: ConnId)
    requires c in s.conns
    ensures Reaches(w, s, At(s, c, s.conns[c], s.lock, s.events))
  {
    assert s.conns[c := s.conns[c]] == s.conns;
    ReachesItself(w, s);
  }

  // ----------------------------------------------------------------- a request

  /** A call that the connection makes. */
  function CallOf(c: ConnId, message: bytes, response: bytes): seq<Event> {
    [Begin(Handler(c), Raw(message)), End(Handler(c), Returned(response))]
  }

  lemma CallJoins(es: seq<Event>, c: ConnId, m: bytes, r: bytes)
    ensures es + [Begin(Handler(c), Raw(m))] + [End(Handler(c), Returned(r))] == es + CallOf(c, m, r)
  {
  }

  /**
   * While the instance runs and the lock is free, a connection in its request loop can have any message answered with
   * any response: the message is read and passed on in one call, and the response is written to this connection.
   */
  lemma CanServe(w: World, s: State, c: ConnId, m: bytes, r: bytes)
    requires c in s.conns && s.conns[c].pc.Loop? && s.running && s.lock.None? && 0 < |m| <= 65536
    ensures var k := s.conns[c];
      Reaches(w, s, At(s, c, k.(sessionIn := k.sessionIn + [m], out := k.out + r), None, s.events + CallOf(c, m, r)))
  {
    var k := s.conns[c].(sessionIn := s.conns[c].sessionIn + [m]);
    RequestPassedOn(w, s, c, m);
    ResponsePassedBack(w, s, c, k, s.events + [Begin(Handler(c), Raw(m))], r);
    CallJoins(s.events, c, m, r);
  }

  /** From the loop's test into the call. */
  lemma RequestPassedOn(w: World, s: State, c: ConnId, m: bytes)
    requires c in s.conns && s.conns[c].pc.Loop? && s.running && s.lock.None? && 0 < |m| <= 65536
    ensures var k := s.conns[c].(pc := InCall, sessionIn := s.conns[c].sessionIn + [m]);
      Reaches(w, s, At(s, c, k, Some(Handler(c)), s.events + [Begin(Handler(c), Raw(m))]))
  {
    var k, es, me := s.conns[c], s.events, Some(Handler(c));
    var k2 := k.(sessionIn := k.sessionIn + [m]);
    Start(w, s, c);
    HandlerStep(w, s, c, k, None, es, Go, k.(pc := Read), Silent, None, es);
    HandlerStep(w, s, c, k.(pc := Read), None, es, Receive(m), k2.(pc := WaitCall(m)), Silent, None, es);
    HandlerStep(w, s, c, k2.(pc := WaitCall(m)), None, es, Go, k2.(pc := Locked(m)), Acquire, me, es);
    HandlerStep(w, s, c, k2.(pc := Locked(m)), me, es, Go, k2.(pc := InCall), BeginCall(Raw(m)), me,
                es + [Begin(Handler(c), Raw(m))]);
  }

  /** From the call back to the loop's test. */
  lemma ResponsePassedBack(w: World, s: State, c: ConnId, k: Conn, es: seq<Event>, r: bytes)
    requires Reaches(w, s, At(s, c, k.(pc := InCall), Some(Handler(c)), es))
    ensures Reaches(w, s, At(s, c, k.(pc := Loop, out := k.out + r), None, es + [End(Handler(c), Returned(r))]))
  {
    var me, es' := Some(Handler(c)), es + [End(Handler(c), Returned(r))];
    HandlerStep(w, s, c, k.(pc := InCall), me, es, Answer(r), k.(pc := Answered(r)), EndCall(Returned(r), false), me, es');
    HandlerStep(w, s, c, k.(pc := Answered(r)), me, es', Go, k.(pc := Write(r)), Release, None, es');
    HandlerStep(w, s, c, k.(pc := Write(r)), None, es', Go, k.(pc := Loop, out := k.out + r), Silent, None, es');
  }

  // ------------------------------------------------------------------ a replay

  /** A connection that has been given the first `n` cached responses. */
  function Replaying(cached: seq<bytes>, ms: seq<bytes>, n: nat, pc: Pc): Conn
    requires n <= |ms| == |cached|
  {
    Conn(pc, Replayed(cached), ms[..n], [], n, Flatten(cached[..n]))
  }

  lemma {:induction false} ReplayTo(w: World, s: State, c: ConnId, cached: seq<bytes>, ms: seq<bytes>, n: nat)
    requires c in s.conns && s.conns[c] == NEW_CONN && s.cache == Some(cached) && n <= |ms| == |cached|
    requires forall i :: 0 <= i < |ms| ==> 0 < |ms[i]| <= 65536
    ensures Reaches(w, s, At(s, c, Replaying(cached, ms, n, Replay(cached, n, false)), s.lock, s.events))
  {
    if n == 0 {
      Start(w, s, c);
      HandlerStep(w, s, c, NEW_CONN, s.lock, s.events, Go, Replaying(cached, ms, 0, Replay(cached, 0, false)), Silent,
                  s.lock, s.events);
    } else {
      ReplayTo(w, s, c, cached, ms, n - 1);
      ReplayRound(w, s, c, cached, ms, n - 1);
    }
  }

  lemma ReplayRound(w: World, s: State, c: ConnId, cached: seq<bytes>, ms: seq<bytes>, i: nat)
    requires i < |ms| == |cached| && 0 < |ms[i]| <= 65536
    requires Reaches(w, s, At(s, c, Replaying(cached, ms, i, Replay(cached, i, false)), s.lock, s.events))
    ensures Reaches(w, s, At(s, c, Replaying(cached, ms, i + 1, Replay(cached, i + 1, false)), s.lock, s.events))
  {
    var k, k' := Replaying(cached, ms, i, Replay(cached, i, false)), Replaying(cached, ms, i + 1, Replay(cached, i + 1, false));
    assert ms[..i + 1] == ms[..i] + [ms[i]] && cached[..i + 1] == cached[..i] + [cached[i]];
    FlattenSnoc(cached[..i], cached[i]);
    var k1 := k.(pc := ReplayWrite(cached, i, false), startIn := ms[..i + 1]);
    HandlerStep(w, s, c, k, s.lock, s.events, Receive(ms[i]), k1, Silent, s.lock, s.events);
    HandlerStep(w, s, c, k1, s.lock, s.events, Go, k', Silent, s.lock, s.events);
  }

  /**
   * When the cache is filled, a new connection can be started up without the lock and without a backend call, whatever
   * it sends: it reads one message per cached response, gets the cached list, and enters its request loop.
   */
  lemma CanReplay(w: World, s: State, c: ConnId, cached: seq<bytes>, ms: seq<bytes>)
    requires c in s.conns && s.conns[c] == NEW_CONN && s.cache == Some(cached) && |ms| == |cached|
    requires forall i :: 0 <= i < |ms| ==> 0 < |ms[i]| <= 65536
    ensures Reaches(w, s, At(s, c, Conn(Loop, Replayed(cached), ms, [], |cached|, Flatten(cached)), s.lock, s.events))
  {
    var n := |cached|;
    ReplayTo(w, s, c, cached, ms, n);
    assert ms[..n] == ms && cached[..n] == cached;
    HandlerStep(w, s, c, Replaying(cached, ms, n, Replay(cached, n, false)), s.lock, s.events, Go,
                Replaying(cached, ms, n, Loop), Silent, s.lock, s.events);
  }

  // ---------------------------------------------------------------- an exchange

  function CallsOf(c: ConnId, ms: seq<bytes>, rs: seq<bytes>): seq<Event>
    requires |ms| == |rs|
  {
    if ms == [] then []
    else
      var n := |ms| - 1;
      CallsOf(c, ms[..n], rs[..n]) + CallOf(c, ms[n], rs[n])
  }

  lemma CallsSnoc(es: seq<Event>, c: ConnId, ms: seq<bytes>, rs: seq<bytes>)
    requires |ms| == |rs| > 0
    ensures var n := |ms| - 1;
      es + CallsOf(c, ms[..n], rs[..n]) + CallOf(c, ms[n], rs[n]) == es + CallsOf(c, ms, rs)
  {
  }

  lemma SplitLast(parts: seq<bytes>)
    requires parts != []
    ensures parts[..|parts| - 1] + [parts[|parts| - 1]] == parts
  {
  }

  /** A connection that has exchanged these messages and responses. */
  function InExchangeWith(since: nat, rs: seq<bytes>, pc: Pc, ms: seq<bytes>): Conn {
    Conn(pc, Exchanged(since), ms, [], 0, Flatten(rs))
  }

  /** The lock is taken and the cache found empty. */
  lemma ExchangeBegins(w: World, s: State, c: ConnId)
    requires c in s.conns && s.conns[c] == NEW_CONN && s.cache.None? && s.lock.None?
    ensures Reaches(w, s, At(s, c, InExchangeWith(|s.events|, [], Exchange([]), []), Some(Handler(c)), s.events))
  {
    var me, es := Some(Handler(c)), s.events;
    Start(w, s, c);
    HandlerStep(w, s, c, NEW_CONN, None, es, Go, NEW_CONN.(pc := WaitStartup), Silent, None, es);
    HandlerStep(w, s, c, NEW_CONN.(pc := WaitStartup), None, es, Go, NEW_CONN.(pc := RecheckCache), Acquire, me, es);
    HandlerStep(w, s, c, NEW_CONN.(pc := RecheckCache), me, es, Go,
                InExchangeWith(|es|, [], Exchange([]), []), Silent, me, es);
  }

  /** One message of the exchange and its response. */
  lemma ExchangeRound(w: World, s: State, c: ConnId, since: nat, ms: seq<bytes>, rs: seq<bytes>,
                      es: seq<Event>, m: bytes, r: bytes)
    requires s.running && 0 < |m| <= 65536
    requires Reaches(w, s, At(s, c, InExchangeWith(since, rs, Exchange(rs), ms), Some(Handler(c)), es))
    ensures var pc := if WireCodec.EndsWithReadyForQuery(r) then Publish(rs + [r]) else Exchange(rs + [r]);
      Reaches(w, s, At(s, c, InExchangeWith(since, rs + [r], pc, ms + [m]), Some(Handler(c)), es + CallOf(c, m, r)))
  {
    var k := InExchangeWith(since, rs, Exchange(rs), ms);
    ExchangePassedOn(w, s, c, k, rs, es, m);
    var k2 := k.(pc := ExchangeCall(rs), startIn := ms + [m]);
    ExchangePassedBack(w, s, c, k2, rs, es + [Begin(Handler(c), Raw(m))], r);
    FlattenSnoc(rs, r);
    CallJoins(es, c, m, r);
  }

  lemma ExchangePassedOn(w: World, s: State, c: ConnId, k: Conn, rs: seq<bytes>, es: seq<Event>, m: bytes)
    requires s.running && 0 < |m| <= 65536 && k.pc == Exchange(rs) && Reaches(w, s, At(s, c, k, Some(Handler(c)), es))
    ensures Reaches(w, s, At(s, c, k.(pc := ExchangeCall(rs), startIn := k.startIn + [m]), Some(Handler(c)),
                             es + [Begin(Handler(c), Raw(m))]))
  {
    var me := Some(Handler(c));
    HandlerStep(w, s, c, k, me, es, Go, k.(pc := ExchangeRead(rs)), Silent, me, es);
    HandlerStep(w, s, c, k.(pc := ExchangeRead(rs)), me, es, Receive(m),
                k.(pc := ExchangeCall(rs), startIn := k.startIn + [m]), BeginCall(Raw(m)), me,
                es + [Begin(Handler(c), Raw(m))]);
  }

  lemma ExchangePassedBack(w: World, s: State, c: ConnId, k: Conn, rs: seq<bytes>, es: seq<Event>, r: bytes)
    requires k.pc == ExchangeCall(rs) && Reaches(w, s, At(s, c, k, Some(Handler(c)), es))
    ensures var pc := if WireCodec.EndsWithReadyForQuery(r) then Publish(rs + [r]) else Exchange(rs + [r]);
      Reaches(w, s, At(s, c, k.(pc := pc, out := k.out + r), Some(Handler(c)), es + [End(Handler(c), Returned(r))]))
  {
    var me, es' := Some(Handler(c)), es + [End(Handler(c), Returned(r))];
    var k1 := k.(pc := ExchangeWrite(rs, r));
    HandlerStep(w, s, c, k, me, es, Answer(r), k1, EndCall(Returned(r), false), me, es');
    var pc := if WireCodec.EndsWithReadyForQuery(r) then Publish(rs + [r]) else Exchange(rs + [r]);
    HandlerStep(w, s, c, k1, me, es', Go, k1.(pc := pc, out := k.out + r), Silent, me, es');
  }

  lemma {:induction false} ExchangeTo(w: World, s: State, c: ConnId, ms: seq<bytes>, rs: seq<bytes>)
    requires c in s.conns && s.conns[c] == NEW_CONN && s.cache.None? && s.lock.None? && s.running && |ms| == |rs|
    requires forall i :: 0 <= i < |ms| ==> 0 < |ms[i]| <= 65536
    requires forall i :: 0 <= i < |rs| ==> !WireCodec.EndsWithReadyForQuery(rs[i])
    ensures Reaches(w, s, At(s, c, InExchangeWith(|s.events|, rs, Exchange(rs), ms), Some(Handler(c)),
                             s.events + CallsOf(c, ms, rs)))
    decreases |ms|
  {
    if ms == [] {
      ExchangeBegins(w, s, c);
      assert s.events + [] == s.events;
    } else {
      var n := |ms| - 1;
      ExchangeTo(w, s, c, ms[..n], rs[..n]);
      ExchangeRound(w, s, c, |s.events|, ms[..n], rs[..n], s.events + CallsOf(c, ms[..n], rs[..n]), ms[n], rs[n]);
      SplitLast(ms);
      SplitLast(rs);
      CallsSnoc(s.events, c, ms, rs);
    }
  }

  /**
   * When the cache is empty, the lock free and the instance running, a new connection can be started up by an exchange
   * of any messages and responses of which the last one and no other ends with ReadyForQuery: every message is passed
   * on in a call, the client gets every response, the list of responses becomes the cache, and the lock is free again.
   */
  lemma CanExchange(w: World, s: State, c: ConnId, ms: seq<bytes>, rs: seq<bytes>, m: bytes, r: bytes)
    requires c in s.conns && s.conns[c] == NEW_CONN && s.cache.None? && s.lock.None? && s.running && |ms| == |rs|
    requires 0 < |m| <= 65536 && forall i :: 0 <= i < |ms| ==> 0 < |ms[i]| <= 65536
    requires WireCodec.EndsWithReadyForQuery(r)
    requires forall i :: 0 <= i < |rs| ==> !WireCodec.EndsWithReadyForQuery(rs[i])
    ensures var es := s.events + CallsOf(c, ms, rs) + CallOf(c, m, r);
      Reaches(w, s, At(s, c, InExchangeWith(|s.events|, rs + [r], Loop, ms + [m]), None, es)
                    .(cache := Some(rs + [r]), origin := Some(Origin(c, |s.events|, |es|))))
  {
    var before := s.events + CallsOf(c, ms, rs);
    ExchangeTo(w, s, c, ms, rs);
    ExchangeRound(w, s, c, |s.events|, ms, rs, before, m, r);
    ExchangeEnds(w, s, c, |s.events|, rs + [r], ms + [m], before + CallOf(c, m, r));
  }

  lemma ExchangeEnds(w: World, s: State, c: ConnId, since: nat, rs: seq<bytes>, ms: seq<bytes>, es: seq<Event>)
    requires Reaches(w, s, At(s, c, InExchangeWith(since, rs, Publish(rs), ms), Some(Handler(c)), es))
    ensures Reaches(w, s, At(s, c, InExchangeWith(since, rs, Loop, ms), None, es)
                          .(cache := Some(rs), origin := Some(Origin(c, since, |es|))))
  {
    var t := At(s, c, InExchangeWith(since, rs, Publish(rs), ms), Some(Handler(c)), es);
    var u := At(s, c, InExchangeWith(since, rs, Loop, ms), None, es)
             .(cache := Some(rs), origin := Some(Origin(c, since, |es|)));
    assert t.conns[c := InExchangeWith(since, rs, Loop, ms)] == u.conns;
    ReachesNext(w, s, t, Handle(c, Go), u);
  }

  // ----------------------------------------------------------------- a snapshot

  /** `s` with one dumper, the lock, the log and the temporary file changed. */
  function DumpAt(s: State, d: Dumper, pc: DumpPc, lock: Option<Actor>, events: seq<Event>, tmp: seq<Archive.Entry>): State {
    SetDumpPc(s, d, pc).(lock := lock, events := events, tmp := tmp)
  }

  /** One more step of a dumper that does not publish. */
  lemma DumperStep(w: World, s: State, d: Dumper, pc: DumpPc, lock: Option<Actor>, es: seq<Event>,
                   tmp: seq<Archive.Entry>, b: DumpAction, mv: Dumped, lock': Option<Actor>, es': seq<Event>)
    requires w.persistent && Reaches(w, s, DumpAt(s, d, pc, lock, es, tmp))
    requires DumpMove(d, pc, b, w.files(es).files, tmp) == Some(mv) && !mv.file.Replace?
    requires Effects(Dumping(d), mv.effect, lock, es, lock', es')
    ensures Reaches(w, s, DumpAt(s, d, mv.pc, lock', es', if mv.file.Leave? then mv.file.entries else tmp))
  {
    var t := DumpAt(s, d, pc, lock, es, tmp);
    DumperPerforms(s, d, pc, lock, es, tmp, mv.effect, lock', es');
    ReachesNext(w, s, t, Snapshot(d, b), DumpAt(s, d, mv.pc, lock', es', if mv.file.Leave? then mv.file.entries else tmp));
  }

  lemma DumperPerforms(s: State, d: Dumper, pc: DumpPc, lock: Option<Actor>, es: seq<Event>, tmp: seq<Archive.Entry>,
                       e: Effect, lock': Option<Actor>, es': seq<Event>)
    requires Effects(Dumping(d), e, lock, es, lock', es')
    ensures Perform(DumpAt(s, d, pc, lock, es, tmp), Dumping(d), e) == Some(DumpAt(s, d, pc, lock', es', tmp))
  {
  }

  /** The calls of a dump. */
  function MaintenanceOf(d: Dumper, rv: bytes, rc: bytes): seq<Event> {
    [Begin(Dumping(d), Maintain(Vacuum)), End(Dumping(d), Returned(rv)),
     Begin(Dumping(d), Maintain(Checkpoint)), End(Dumping(d), Returned(rc))]
  }

  /** A new connection can always be accepted. */
  lemma CanAccept(w: World, s: State, c: ConnId)
    requires c !in s.conns
    ensures Reaches(w, s, s.(conns := s.conns[c := NEW_CONN]))
  {
    ReachesItself(w, s);
    ReachesNext(w, s, s, Accept(c), s.(conns := s.conns[c := NEW_CONN]));
  }

  /** A resting timer can begin its next round, and closing sets the final dump going. */
  lemma CanBeginDump(w: World, s: State)
    requires w.persistent
    ensures s.timer.Resting? ==> Reaches(w, s, s.(timer := Waiting))
    ensures s.closer.Resting? ==> Reaches(w, s, s.(running := false, closer := Waiting))
  {
    ReachesItself(w, s);
    if s.timer.Resting? {
      ReachesNext(w, s, s, Snapshot(Timer, Tick), s.(timer := Waiting));
    }
    if s.closer.Resting? {
      ReachesNext(w, s, s, Close, s.(running := false, closer := Waiting));
    }
  }

  lemma DumpQueries(w: World, s: State, d: Dumper, rv: bytes, rc: bytes)
    requires w.persistent && DumpPcOf(s, d).Waiting? && s.lock.None?
    ensures Reaches(w, s, DumpAt(s, d, Walk, Some(Dumping(d)), s.events + MaintenanceOf(d, rv, rc), []))
  {
    var me, es, tmp := Some(Dumping(d)), s.events, s.tmp;
    ReachesItself(w, s);
    assert s == DumpAt(s, d, Waiting, None, es, tmp);
    DumperStep(w, s, d, Waiting, None, es, tmp, Tick, Dumped(Query(Vacuum), Acquire, Keep), me, es);
    DumpQuery(w, s, d, Vacuum, es, tmp, rv);
    var es2 := es + [Begin(Dumping(d), Maintain(Vacuum))] + [End(Dumping(d), Returned(rv))];
    DumpQuery(w, s, d, Checkpoint, es2, tmp, rc);
    var es4 := es2 + [Begin(Dumping(d), Maintain(Checkpoint))] + [End(Dumping(d), Returned(rc))];
    DumperStep(w, s, d, Create, me, es4, tmp, Tick, Dumped(Walk, Silent, Leave([])), me, es4);
    assert es4 == es + MaintenanceOf(d, rv, rc);
  }

  /** One maintenance query. */
  lemma DumpQuery(w: World, s: State, d: Dumper, q: Maintenance, es: seq<Event>, tmp: seq<Archive.Entry>, r: bytes)
    requires w.persistent && Reaches(w, s, DumpAt(s, d, Query(q), Some(Dumping(d)), es, tmp))
    ensures Reaches(w, s, DumpAt(s, d, if q.Vacuum? then Query(Checkpoint) else Create, Some(Dumping(d)),
                                 es + [Begin(Dumping(d), Maintain(q))] + [End(Dumping(d), Returned(r))], tmp))
  {
    var me := Some(Dumping(d));
    var es1 := es + [Begin(Dumping(d), Maintain(q))];
    DumperStep(w, s, d, Query(q), me, es, tmp, Tick, Dumped(InQuery(q), BeginCall(Maintain(q)), Keep), me, es1);
    DumperStep(w, s, d, InQuery(q), me, es1, tmp, Reply(r),
               Dumped(if q.Vacuum? then Query(Checkpoint) else Create, EndCall(Returned(r), false), Keep), me,
               es1 + [End(Dumping(d), Returned(r))]);
  }

  /** Each of the paths is a kept file, and none comes twice. */
  predicate Keeps(t: Archive.Files, ps: seq<Archive.Path>) {
    && (forall i :: 0 <= i < |ps| ==> ps[i] in Archive.Stored(t))
    && forall i, j :: 0 <= i < j < |ps| ==> ps[i] != ps[j]
  }

  /** The entries that archive some files, in order. */
  function EntriesOf(t: Archive.Files, ps: seq<Archive.Path>): seq<Archive.Entry>
    requires Keeps(t, ps)
  {
    if ps == [] then [] else EntriesOf(t, ps[..|ps| - 1]) + [Archive.EntryOf(t, ps[|ps| - 1])]
  }

  lemma {:induction false} EntriesVisited(t: Archive.Files, ps: seq<Archive.Path>, p: Archive.Path)
    requires Keeps(t, ps)
    ensures Visited(p, EntriesOf(t, ps)) <==> p in ps
  {
    if ps != [] {
      var n := |ps| - 1;
      EntriesVisited(t, ps[..n], p);
      VisitedSnoc(p, EntriesOf(t, ps[..n]), t, ps[n]);
      assert ps == ps[..n] + [ps[n]];
    }
  }

  lemma VisitedSnoc(p: Archive.Path, es: seq<Archive.Entry>, t: Archive.Files, q: Archive.Path)
    requires q in t
    ensures Visited(p, es + [Archive.EntryOf(t, q)]) <==> Visited(p, es) || p == q
  {
    Archive.ResolveEntryName(p);
    Archive.ResolveEntryName(q);
    var last := Archive.EntryOf(t, q);
    assert last in es + [last];
    assert forall e <- es :: e in es + [last];
  }

  lemma {:induction false} DumpWalk(w: World, s: State, d: Dumper, es: seq<Event>, ps: seq<Archive.Path>)
    requires w.persistent && Reaches(w, s, DumpAt(s, d, Walk, Some(Dumping(d)), es, []))
    requires Keeps(w.files(es).files, ps)
    ensures Reaches(w, s, DumpAt(s, d, Walk, Some(Dumping(d)), es, EntriesOf(w.files(es).files, ps)))
    decreases |ps|
  {
    if ps != [] {
      var n, t := |ps| - 1, w.files(es).files;
      DumpWalk(w, s, d, es, ps[..n]);
      EntriesVisited(t, ps[..n], ps[n]);
      DumpVisit(w, s, d, es, EntriesOf(t, ps[..n]), ps[n]);
    }
  }

  /** The walk reaches one more file. */
  lemma DumpVisit(w: World, s: State, d: Dumper, es: seq<Event>, tmp: seq<Archive.Entry>, p: Archive.Path)
    requires w.persistent && Reaches(w, s, DumpAt(s, d, Walk, Some(Dumping(d)), es, tmp))
    requires p in Archive.Stored(w.files(es).files) && !Visited(p, tmp)
    ensures Reaches(w, s, DumpAt(s, d, Walk, Some(Dumping(d)), es, tmp + [Archive.EntryOf(w.files(es).files, p)]))
  {
    DumperStep(w, s, d, Walk, Some(Dumping(d)), es, tmp, Visit(p),
               Dumped(Walk, Silent, Leave(tmp + [Archive.EntryOf(w.files(es).files, p)])), Some(Dumping(d)), es);
  }

  /**
   * When the lock is free, a dumper that waits can publish: it runs its two queries, archives each kept file once in
   * any order, replaces the snapshot file by that archive and frees the lock.
   */
  lemma CanDump(w: World, s: State, d: Dumper, rv: bytes, rc: bytes, ps: seq<Archive.Path>)
    requires w.persistent && DumpPcOf(s, d).Waiting? && s.lock.None?
    requires var files := w.files(s.events + MaintenanceOf(d, rv, rc)).files;
      Keeps(files, ps) && forall p <- Archive.Stored(files) :: p in ps
    ensures var es := s.events + MaintenanceOf(d, rv, rc);
      Reaches(w, s, DumpAt(s, d, if d.Timer? then Resting else Stopped, None, es, [])
                    .(target := Some(EntriesOf(w.files(es).files, ps)), snapAt := Some(|es|)))
  {
    var es, me := s.events + MaintenanceOf(d, rv, rc), Some(Dumping(d));
    var t := w.files(es).files;
    var entries := EntriesOf(t, ps);
    DumpQueries(w, s, d, rv, rc);
    DumpWalk(w, s, d, es, ps);
    forall p <- Archive.Stored(t)
      ensures Visited(p, entries)
    {
      EntriesVisited(t, ps, p);
    }
    DumperStep(w, s, d, Walk, me, es, entries, Tick, Dumped(Rename, Silent, Keep), me, es);
    DumpRename(w, s, d, es, entries);
  }

  /** The temporary file replaces the snapshot file. */
  lemma DumpRename(w: World, s: State, d: Dumper, es: seq<Event>, tmp: seq<Archive.Entry>)
    requires w.persistent && Reaches(w, s, DumpAt(s, d, Rename, Some(Dumping(d)), es, tmp))
    ensures Reaches(w, s, DumpAt(s, d, if d.Timer? then Resting else Stopped, None, es, [])
                          .(target := Some(tmp), snapAt := Some(|es|)))
  {
    ReachesNext(w, s, DumpAt(s, d, Rename, Some(Dumping(d)), es, tmp), Snapshot(d, Tick),
                DumpAt(s, d, if d.Timer? then Resting else Stopped, None, es, [])
                .(target := Some(tmp), snapAt := Some(|es|)));
  }

  // ------------------------------------------------------ maintenance queries

  /** The maintenance queries as they are sent: "VACUUM FREEZE;" and "CHECKPOINT;" in simple Query messages. */
  lemma MaintenanceOctets()
    ensures Octets(Maintain(Vacuum))
         == [81, 0, 0, 0, 19] + [86, 65, 67, 85, 85, 77, 32, 70, 82, 69, 69, 90, 69, 59] + [0]
    ensures Octets(Maintain(Checkpoint)) == [81, 0, 0, 0, 16] + [67, 72, 69, 67, 75, 80, 79, 73, 78, 84, 59] + [0]
  {
    QueryOctets(MaintenanceSql(Vacuum));
    QueryOctets(MaintenanceSql(Checkpoint));
  }

  lemma QueryOctets(sql: bytes)
    requires |sql| < 200
    ensures WireCodec.Encode(WireCodec.QueryFrame(sql)) == [81, 0, 0, 0, |sql| + 5] + sql + [0]
  {
    WireCodec.BigEndian4(|sql| + 5);
    assert WireCodec.Be32(|sql| + 5) == [0, 0, 0, |sql| + 5];
  }
}
