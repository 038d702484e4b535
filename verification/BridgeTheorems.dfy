/** The promises of the connection bridge, for every interleaving of its threads. */
module BridgeTheorems {
  import opened Bytes
  import opened Bridge
  import opened BridgeSafety
  import Archive

  /** A run: any interleaving of steps from the initial state. */
  ghost predicate IsRun(w: World, tr: seq<State>, steps: seq<Step>) {
    && |tr| == |steps| + 1
    && tr[0] == Init(w)
    && forall i :: 0 <= i < |steps| ==> Next(w, tr[i], steps[i]) == Some(tr[i + 1])
  }

  lemma {:induction false} RunKeepsInv(w: World, tr: seq<State>, steps: seq<Step>, i: nat)
    requires IsRun(w, tr, steps) && i < |tr|
    ensures Inv(w, tr[i])
  {
    if i == 0 {
      InitHolds(w);
    } else {
      RunKeepsInv(w, tr, steps, i - 1);
      StepKeepsInv(w, tr[i - 1], steps[i - 1], tr[i]);
    }
  }

  lemma RunSerial(w: World, tr: seq<State>, steps: seq<Step>, i: nat)
    requires IsRun(w, tr, steps) && i < |tr|
    ensures Serial(tr[i].events)
  {
    RunKeepsInv(w, tr, steps, i);
  }

  lemma StepGrowsLog(w: World, s: State, step: Step, s': State)
    requires Next(w, s, step) == Some(s')
    ensures s.events <= s'.events
  {
    match step
    case Handle(c, a) =>
    case Snapshot(d, b) =>
      var mv, t := SnapshotStep(w, s, d, b, s');
    case _ =>
  }

  /**
   * Serialization: in every reachable state backend calls form one serial history, whatever the number of
   * connections and backups, and that history only ever grows.
   */
  lemma {:induction false} SerialHistory(w: World, tr: seq<State>, steps: seq<Step>, i: nat, j: nat)
    requires IsRun(w, tr, steps) && i <= j < |tr|
    ensures Serial(tr[j].events)
    ensures tr[i].events <= tr[j].events
    decreases j - i
  {
    RunSerial(w, tr, steps, j);
    if i < j {
      SerialHistory(w, tr, steps, i, j - 1);
      StepGrowsLog(w, tr[j - 1], steps[j - 1], tr[j]);
    }
  }

  /** What a connection was given from the cache. */
  function FromCache(k: Conn): bytes {
    if k.startup.Replayed? then Flatten(k.startup.cached) else []
  }

  /** Startup is over: the exchange has begun, or every cached response has been written. */
  predicate Started(k: Conn) {
    k.startup.Exchanged? || ReplayDone(k)
  }

  predicate ReplayDone(k: Conn) {
    k.startup.Replayed? && k.replayed == |k.startup.cached|
  }

  /** One read per cached response. */
  lemma StartedSettles(k: Conn, sent: seq<bytes>, got: seq<bytes>)
    requires Started(k) && FlowOk(k, sent, got)
    ensures Settled(k)
  {
  }

  /**
   * Linearizability for clients: once startup is over, a connection's output is what it was given from the cache
   * and then the responses to its own messages, in order, lacking at most part of the last one; its messages
   * reached the backend in order, lacking at most the last one; and the n-th response answers the n-th message.
   */
  lemma OwnResponsesInOrder(w: World, tr: seq<State>, steps: seq<Step>, i: nat, c: ConnId)
    requires IsRun(w, tr, steps) && i < |tr| && c in tr[i].conns && Started(tr[i].conns[c])
    ensures var k := tr[i].conns[c];
      var sent, got := Messages(tr[i].events, Handler(c)), Responses(tr[i].events, Handler(c));
      && FromCache(k) + Flatten(Front(got)) <= k.out <= FromCache(k) + Flatten(got)
      && sent <= Forwarded(k) && |Forwarded(k)| <= |sent| + 1
      && |got| <= |sent| <= |got| + 1
      && forall n :: 0 <= n < |got| ==> Answers(tr[i].events, Handler(c), n, sent[n], got[n])
  {
    RunConn(w, tr, steps, i, c);
    StartedSettles(tr[i].conns[c], Messages(tr[i].events, Handler(c)), Responses(tr[i].events, Handler(c)));
    SettledFlow(tr[i].conns[c], Messages(tr[i].events, Handler(c)), Responses(tr[i].events, Handler(c)));
  }

  /** What the invariants say about one connection of a reachable state. */
  lemma RunConn(w: World, tr: seq<State>, steps: seq<Step>, i: nat, c: ConnId)
    requires IsRun(w, tr, steps) && i < |tr| && c in tr[i].conns
    ensures var s := tr[i];
      var sent, got := Messages(s.events, Handler(c)), Responses(s.events, Handler(c));
      && FlowOk(s.conns[c], sent, got) && CountOk(s.conns[c].pc, |sent|, |got|) && AlignOk(s.events, Handler(c))
      && CacheOk(s.conns[c], c, s.events, s.cache, s.running)
  {
    RunKeepsInv(w, tr, steps, i);
  }

  lemma SettledFlow(k: Conn, sent: seq<bytes>, got: seq<bytes>)
    requires Settled(k) && FlowOk(k, sent, got)
    ensures FromCache(k) + Flatten(Front(got)) <= k.out <= FromCache(k) + Flatten(got)
    ensures sent <= Forwarded(k) && |Forwarded(k)| <= |sent| + 1
    ensures k.startup.Replayed? ==> sent <= k.sessionIn && Flatten(k.startup.cached) <= k.out
  {
    if k.startup.Replayed? {
      assert k.startup.cached[..k.replayed] == k.startup.cached;
      assert Forwarded(k) == k.sessionIn;
    }
    assert Base(k) == FromCache(k);
    FullIsTruncated(Base(k), got);
  }

  lemma RunCache(w: World, tr: seq<State>, steps: seq<Step>, i: nat)
    requires IsRun(w, tr, steps) && i < |tr|
    ensures CacheInv(tr[i])
  {
    RunKeepsInv(w, tr, steps, i);
  }

  /** Write-once cache: when it holds a list, it holds that list for ever, from the same exchange. */
  lemma {:induction false} CacheWrittenOnce(w: World, tr: seq<State>, steps: seq<Step>, i: nat, j: nat)
    requires IsRun(w, tr, steps) && i <= j < |tr| && tr[i].cache.Some?
    ensures tr[j].cache == tr[i].cache && tr[j].origin == tr[i].origin
    decreases j - i
  {
    if i < j {
      CacheWrittenOnce(w, tr, steps, i, j - 1);
      RunKeepsStoredCache(w, tr, steps, j - 1);
    }
  }

  lemma RunKeepsStoredCache(w: World, tr: seq<State>, steps: seq<Step>, i: nat)
    requires IsRun(w, tr, steps) && i < |steps| && tr[i].cache.Some?
    ensures tr[i + 1].cache == tr[i].cache && tr[i + 1].origin == tr[i].origin
  {
    RunCache(w, tr, steps, i);
    StepKeepsStoredCache(w, tr[i], steps[i], tr[i + 1]);
  }

  /**
   * Faithful cache: the cached list is what one connection's exchange got from the backend in one uninterrupted
   * stretch of the log. It ends with ReadyForQuery unless the instance is closing.
   */
  lemma CacheRecordsOneExchange(w: World, tr: seq<State>, steps: seq<Step>, i: nat)
    requires IsRun(w, tr, steps) && i < |tr| && tr[i].cache.Some?
    ensures exists c: ConnId, start: nat, end: nat ::
              && AllBy(tr[i].events, start, end, Handler(c))
              && Responses(tr[i].events[start..end], Handler(c)) == tr[i].cache.value
    ensures Complete(tr[i].cache.value) || !tr[i].running
  {
    RunCache(w, tr, steps, i);
    var o := tr[i].origin.value;
    assert AllBy(tr[i].events, o.start, o.end, Handler(o.conn));
  }

  /**
   * Faithful replay: a connection that has been given the last cached response has been given exactly the cached
   * exchange's output, did one read per cached response, and none of what it sent during startup reached the backend.
   */
  lemma ReplayIsFaithful(w: World, tr: seq<State>, steps: seq<Step>, i: nat, c: ConnId)
    requires IsRun(w, tr, steps) && i < |tr| && c in tr[i].conns
    requires ReplayDone(tr[i].conns[c])
    ensures var k := tr[i].conns[c];
      && tr[i].cache == Some(k.startup.cached)
      && |k.startIn| == |tr[i].cache.value|
      && Flatten(tr[i].cache.value) <= k.out
      && Messages(tr[i].events, Handler(c)) <= k.sessionIn
  {
    RunConn(w, tr, steps, i, c);
    StartedSettles(tr[i].conns[c], Messages(tr[i].events, Handler(c)), Responses(tr[i].events, Handler(c)));
    SettledFlow(tr[i].conns[c], Messages(tr[i].events, Handler(c)), Responses(tr[i].events, Handler(c)));
  }

  lemma RunTarget(w: World, tr: seq<State>, steps: seq<Step>, i: nat)
    requires IsRun(w, tr, steps) && i < |tr|
    ensures TargetOk(w, tr[i].target, tr[i].events, tr[i].snapAt)
  {
    RunKeepsInv(w, tr, steps, i);
  }

  /**
   * Snapshot consistency: in every reachable state, so also after a crash, the snapshot file is the one present
   * at boot or a complete image of the data directory at a call boundary of the history, right after the two
   * maintenance queries of one dumper.
   */
  lemma SnapshotIsConsistent(w: World, tr: seq<State>, steps: seq<Step>, i: nat)
    requires IsRun(w, tr, steps) && i < |tr|
    ensures tr[i].target == w.boot || exists n, d ::
              && 0 <= n <= |tr[i].events| && n % 2 == 0 && Maintained(tr[i].events[..n], d)
              && tr[i].target.Some? && Archive.IsArchive(tr[i].target.value, w.files(tr[i].events[..n]).files)
  {
    RunTarget(w, tr, steps, i);
    var s := tr[i];
    if s.snapAt.Some? {
      var d: Dumper :| Maintained(s.events[..s.snapAt.value], d);
    }
  }

  /** Snapshots never move to an earlier point of the history. */
  lemma {:induction false} SnapshotsMoveForward(w: World, tr: seq<State>, steps: seq<Step>, i: nat, j: nat)
    requires IsRun(w, tr, steps) && i <= j < |tr|
    ensures tr[j].target == tr[i].target || (tr[j].snapAt.Some? && |tr[i].events| <= tr[j].snapAt.value)
    ensures tr[i].snapAt.Some? ==> tr[j].snapAt.Some? && tr[i].snapAt.value <= tr[j].snapAt.value
    decreases j - i
  {
    RunTarget(w, tr, steps, i);
    if i < j {
      SnapshotsMoveForward(w, tr, steps, i, j - 1);
      SerialHistory(w, tr, steps, i, j);
      StepAdvancesSnapshot(w, tr[j - 1], steps[j - 1], tr[j]);
    }
  }

  /**
   * End to end: restoring the snapshot file of any reachable state over a fresh installation succeeds if and only if no
   * file of one is above or below a path of the other, and then gives the data directory as it was at that call
   * boundary, with the defaults at every other path.
   */
  lemma RestoreGivesHistoricTree(w: World, tr: seq<State>, steps: seq<Step>, i: nat)
    requires IsRun(w, tr, steps) && i < |tr| && tr[i].snapAt.Some?
    ensures tr[i].target.Some? && Archive.Restorable(tr[i].target.value)
    ensures tr[i].snapAt.value <= |tr[i].events|
    ensures var kept := Archive.Stored(w.files(tr[i].events[..tr[i].snapAt.value]).files);
      var r := Archive.Restored(tr[i].target.value, w.defaults);
      && (r.Some? <==> Archive.Compatible(kept, w.defaults))
      && (r.Some? ==> r.value.files == w.defaults.files + kept)
  {
    RunTarget(w, tr, steps, i);
    var s := tr[i];
    Archive.RestoreArchive(s.target.value, w.files(s.events[..s.snapAt.value]), w.defaults);
  }

  lemma ExtendRun(w: World, tr: seq<State>, steps: seq<Step>, step: Step, s': State)
    requires IsRun(w, tr, steps) && Next(w, tr[|tr| - 1], step) == Some(s')
    ensures IsRun(w, tr + [s'], steps + [step])
  {
  }

  /** A step of the only connection. */
  lemma SoloStep(w: World, tr: seq<State>, steps: seq<Step>, s': State, e: Effect)
    requires IsRun(w, tr, steps)
    requires var s := tr[|tr| - 1];
      && s.conns.Keys == s'.conns.Keys == {0}
      && Move(s.conns[0], Go, s.running, s.cache, |s.events|) == Some(Moved(s'.conns[0], e))
      && Perform(s, Handler(0), e) == Some(s'.(conns := s.conns))
    ensures IsRun(w, tr + [s'], steps + [Handle(0, Go)])
  {
    var s := tr[|tr| - 1];
    assert s.conns[0 := s'.conns[0]] == s'.conns;
    ExtendRun(w, tr, steps, Handle(0, Go), s');
  }

  /** The only connection has the lock and has found the cache empty. */
  function Exchanging(w: World): State {
    Init(w).(conns := map[0 := NEW_CONN.(pc := Exchange([]), startup := Exchanged(0))], lock := Some(Handler(0)))
  }

  lemma ExchangingIsReachable(w: World) returns (tr: seq<State>, steps: seq<Step>)
    ensures IsRun(w, tr, steps) && tr[|tr| - 1] == Exchanging(w)
  {
    var s0 := Init(w);
    var s1 := s0.(conns := map[0 := NEW_CONN]);
    var s2 := s0.(conns := map[0 := NEW_CONN.(pc := WaitStartup)]);
    var s3 := s0.(conns := map[0 := NEW_CONN.(pc := RecheckCache)], lock := Some(Handler(0)));
    tr, steps := [s0], [];
    assert Next(w, s0, Accept(0)) == Some(s1);
    ExtendRun(w, tr, steps, Accept(0), s1);
    tr, steps := tr + [s1], steps + [Accept(0)];
    SoloStep(w, tr, steps, s2, Silent);
    tr, steps := tr + [s2], steps + [Handle(0, Go)];
    SoloStep(w, tr, steps, s3, Acquire);
    tr, steps := tr + [s3], steps + [Handle(0, Go)];
    SoloStep(w, tr, steps, Exchanging(w), Silent);
    tr, steps := tr + [Exchanging(w)], steps + [Handle(0, Go)];
  }

  /** The handler is at the test of its exchange loop while the instance is closing. */
  predicate StuckAt(k: Conn, running: bool) {
    k.pc.Exchange? && !running
  }

  ghost predicate Stuck(s: State, c: ConnId) {
    c in s.conns && StuckAt(s.conns[c], s.running)
  }

  /** What `was`, whether the handler has been stuck, says about its exchange. */
  predicate ToldAt(k: Conn, running: bool, was: bool) {
    && (InLookup(k.pc) ==> !was)
    && (InExchange(k.pc) ==> was == if k.pc.Publish? then !Complete(k.pc.responses) else StuckAt(k, running))
  }

  /** And about the cache it filled. */
  ghost predicate Told(s: State, c: ConnId, was: bool) {
    && (if c in s.conns then ToldAt(s.conns[c], s.running, was) else !was)
    && (s.cache.Some? && s.origin.Some? && s.origin.value.conn == c ==> was == !Complete(s.cache.value))
  }

  lemma ExchangeTold(k: Conn, a: Action, running: bool, was: bool)
    requires InExchange(k.pc) && MoveExchange(k, a, running).Some? && ToldAt(k, running, was)
    requires k.pc.Exchange? ==> !Complete(k.pc.responses)
    ensures var mv := MoveExchange(k, a, running).value;
      && ToldAt(mv.conn, running, was || StuckAt(mv.conn, running))
      && (mv.effect.Store? ==> was == !Complete(mv.effect.responses) && !StuckAt(mv.conn, running))
  {
  }

  lemma MoveTold(k: Conn, a: Action, running: bool, cache: Option<seq<bytes>>, now: nat, was: bool)
    requires Move(k, a, running, cache, now).Some? && ToldAt(k, running, was)
    requires k.pc.Exchange? ==> !Complete(k.pc.responses)
    ensures var mv := Move(k, a, running, cache, now).value;
      && ToldAt(mv.conn, running, was || StuckAt(mv.conn, running))
      && (mv.effect.Store? ==> was == !Complete(mv.effect.responses) && !StuckAt(mv.conn, running))
  {
    if InExchange(k.pc) {
      ExchangeTold(k, a, running, was);
    }
  }

  lemma OwnStepTold(s: State, c: ConnId, a: Action, s': State, was: bool)
    requires CacheInv(s) && CacheInv(s') && Told(s, c, was) && c in s.conns
    requires var mv := Move(s.conns[c], a, s.running, s.cache, |s.events|);
      && mv.Some? && Perform(s, Handler(c), mv.value.effect).Some?
      && s' == Perform(s, Handler(c), mv.value.effect).value.(conns := s.conns[c := mv.value.conn])
    ensures Told(s', c, was || Stuck(s', c))
  {
    assert CacheOk(s.conns[c], c, s.events, s.cache, s.running);
    assert CacheOk(s'.conns[c], c, s'.events, s'.cache, s'.running);
    MoveTold(s.conns[c], a, s.running, s.cache, |s.events|, was);
  }

  lemma StepTold(w: World, s: State, step: Step, s': State, c: ConnId, was: bool)
    requires CacheInv(s) && CacheInv(s') && Next(w, s, step) == Some(s') && Told(s, c, was)
    ensures Told(s', c, was || Stuck(s', c))
  {
    if step.Handle? && step.c == c {
      OwnStepTold(s, c, step.a, s', was);
    } else {
      OtherStep(w, s, step, s', c);
      if c in s'.conns {
        assert CacheOk(s'.conns[c], c, s'.events, s'.cache, s'.running);
      }
    }
  }

  /** Another thread's step leaves a connection alone, and fills the cache only in its own name. */
  lemma OtherStep(w: World, s: State, step: Step, s': State, c: ConnId)
    requires CacheInv(s) && Next(w, s, step) == Some(s') && !(step.Handle? && step.c == c)
    ensures c in s.conns ==> c in s'.conns && s'.conns[c] == s.conns[c]
    ensures c !in s.conns && c in s'.conns ==> s'.conns[c] == NEW_CONN
    ensures s'.running ==> s.running
    ensures (s'.cache == s.cache && s'.origin == s.origin) || (s'.origin.Some? && s'.origin.value.conn != c)
  {
    if step.Snapshot? {
      var mv, t := SnapshotStep(w, s, step.d, step.b, s');
      PerformTouches(s, Dumping(step.d), mv.effect, t);
    }
  }

  ghost predicate WasStuck(tr: seq<State>, i: nat, c: ConnId)
    requires i < |tr|
  {
    exists j :: 0 <= j <= i && Stuck(tr[j], c)
  }

  lemma WasStuckNext(tr: seq<State>, i: nat, c: ConnId)
    requires i + 1 < |tr|
    ensures WasStuck(tr, i + 1, c) <==> WasStuck(tr, i, c) || Stuck(tr[i + 1], c)
  {
  }

  lemma RunStepTold(w: World, tr: seq<State>, steps: seq<Step>, i: nat, c: ConnId, was: bool)
    requires IsRun(w, tr, steps) && i < |steps| && Told(tr[i], c, was)
    ensures Told(tr[i + 1], c, was || Stuck(tr[i + 1], c))
  {
    RunCache(w, tr, steps, i);
    RunCache(w, tr, steps, i + 1);
    StepTold(w, tr[i], steps[i], tr[i + 1], c, was);
  }

  lemma {:induction false} RunTold(w: World, tr: seq<State>, steps: seq<Step>, i: nat, c: ConnId)
    requires IsRun(w, tr, steps) && i < |tr|
    ensures Told(tr[i], c, WasStuck(tr, i, c))
  {
    if i == 0 {
      StartTold(w, tr, c);
    } else {
      RunTold(w, tr, steps, i - 1, c);
      RunStepTold(w, tr, steps, i - 1, c, WasStuck(tr, i - 1, c));
      WasStuckNext(tr, i - 1, c);
    }
  }

  lemma StartTold(w: World, tr: seq<State>, c: ConnId)
    requires tr != [] && tr[0] == Init(w)
    ensures Told(tr[0], c, WasStuck(tr, 0, c))
  {
    assert !Stuck(tr[0], c);
  }

  /**
   * When exactly the cache lacks a final ReadyForQuery: when the connection that filled it came back to the test of its
   * exchange loop after the instance began to close.
   */
  lemma IncompleteExactlyWhenClosing(w: World, tr: seq<State>, steps: seq<Step>, i: nat)
    requires IsRun(w, tr, steps) && i < |tr| && tr[i].cache.Some?
    ensures tr[i].origin.Some?
    ensures !Complete(tr[i].cache.value) <==> WasStuck(tr, i, tr[i].origin.value.conn)
  {
    RunCache(w, tr, steps, i);
    RunTold(w, tr, steps, i, tr[i].origin.value.conn);
  }

  /** Startup completeness can fail: a close during the exchange publishes the responses recorded so far. */
  lemma CloseCanPublishIncompleteCache(w: World)
    ensures exists tr: seq<State>, steps: seq<Step> :: IsRun(w, tr, steps) && tr[|tr| - 1].cache == Some([])
  {
    var tr, steps := ExchangingIsReachable(w);
    var s4 := Exchanging(w);
    var s5 := s4.(running := false, closer := if w.persistent then Waiting else Stopped);
    ExtendRun(w, tr, steps, Close, s5);
    tr, steps := tr + [s5], steps + [Close];
    var s6 := s5.(conns := map[0 := s4.conns[0].(pc := Publish([]))]);
    SoloStep(w, tr, steps, s6, Silent);
    tr, steps := tr + [s6], steps + [Handle(0, Go)];
    var s7 := s6.(conns := map[0 := s4.conns[0].(pc := Loop)],
                  cache := Some([]), origin := Some(Origin(0, 0, 0)), lock := None);
    SoloStep(w, tr, steps, s7, Store([], 0));
    tr, steps := tr + [s7], steps + [Handle(0, Go)];
  }
}
