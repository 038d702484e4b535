/**
 * What the threads of the connection bridge do, beside what they keep: why a handler ends, how a connection is served
 * and started up, and that a dump that meets no error publishes its snapshot.
 */
module BridgeProgress {
  import opened Bytes
  import opened Bridge
  import opened BridgeSafety
  import opened BridgeTheorems
  import Archive
  import WireCodec

  // ------------------------------------------------------ why a handler ends

  /** The j-th step of the run is this handler's. */
  ghost predicate Moves(tr: seq<State>, steps: seq<Step>, j: nat, c: ConnId, a: Action)
    requires |tr| == |steps| + 1
  {
    j < |steps| && steps[j] == Handle(c, a) && c in tr[j].conns
  }

  lemma MoveToDone(k: Conn, a: Action, running: bool, cache: Option<seq<bytes>>, now: nat)
    requires Move(k, a, running, cache, now).Some? && Move(k, a, running, cache, now).value.conn.pc.Done?
    ensures a.Fail? || a.Throw? || a.FailWrite? || (k.pc.Loop? && !running)
  {
  }

  lemma MoveToRead(k: Conn, a: Action, running: bool, cache: Option<seq<bytes>>, now: nat)
    requires Move(k, a, running, cache, now).Some?
    ensures Move(k, a, running, cache, now).value.conn.pc.Read? ==> k.pc.Loop? && running
    ensures Move(k, a, running, cache, now).value.conn.pc.ExchangeRead? ==> k.pc.Exchange? && running
  {
  }

  /** A step leaves a connection alone, opens it, or is its own handler's. */
  lemma StepOfConn(w: World, tr: seq<State>, steps: seq<Step>, i: nat, c: ConnId) returns (a: Option<Action>)
    requires IsRun(w, tr, steps) && i < |steps| && c in tr[i + 1].conns
    ensures a.Some? ==> Moves(tr, steps, i, c, a.value)
    ensures a.Some? ==>
              var mv := Move(tr[i].conns[c], a.value, tr[i].running, tr[i].cache, |tr[i].events|);
              mv.Some? && mv.value.conn == tr[i + 1].conns[c]
    ensures a.None? ==> if c in tr[i].conns then tr[i + 1].conns[c] == tr[i].conns[c] else tr[i + 1].conns[c] == NEW_CONN
  {
    assert Next(w, tr[i], steps[i]) == Some(tr[i + 1]);
    if steps[i].Handle? && steps[i].c == c {
      a := Some(steps[i].a);
    } else {
      RunCache(w, tr, steps, i);
      OtherStep(w, tr[i], steps[i], tr[i + 1], c);
      a := None;
    }
  }

  /**
   * A handler that has ended failed, on the client's stream or in a backend call, or stood at the test of its request
   * loop while the instance was closing.
   */
  lemma {:induction false} DoneBecause(w: World, tr: seq<State>, steps: seq<Step>, i: nat, c: ConnId)
    requires IsRun(w, tr, steps) && i < |tr| && c in tr[i].conns && tr[i].conns[c].pc.Done?
    ensures exists j: nat, a: Action :: j < i && Moves(tr, steps, j, c, a)
              && (a.Fail? || a.Throw? || a.FailWrite? || (tr[j].conns[c].pc.Loop? && !tr[j].running))
  {
    if i > 0 {
      var a := StepOfConn(w, tr, steps, i - 1, c);
      if a.Some? {
        MoveToDone(tr[i - 1].conns[c], a.value, tr[i - 1].running, tr[i - 1].cache, |tr[i - 1].events|);
        assert Moves(tr, steps, i - 1, c, a.value);
      } else {
        DoneBecause(w, tr, steps, i - 1, c);
      }
    }
  }

  /** A handler that reads a request stood at the test of its loop while the instance was running. */
  lemma {:induction false} ReadBecause(w: World, tr: seq<State>, steps: seq<Step>, i: nat, c: ConnId)
    requires IsRun(w, tr, steps) && i < |tr| && c in tr[i].conns
    requires tr[i].conns[c].pc.Read? || tr[i].conns[c].pc.ExchangeRead?
    ensures exists j: nat, a: Action :: j < i && Moves(tr, steps, j, c, a) && tr[j].running
              && (if tr[i].conns[c].pc.Read? then tr[j].conns[c].pc.Loop? else tr[j].conns[c].pc.Exchange?)
  {
    if i > 0 {
      var a := StepOfConn(w, tr, steps, i - 1, c);
      if a.Some? {
        MoveToRead(tr[i - 1].conns[c], a.value, tr[i - 1].running, tr[i - 1].cache, |tr[i - 1].events|);
        assert Moves(tr, steps, i - 1, c, a.value);
      } else {
        ReadBecause(w, tr, steps, i - 1, c);
      }
    }
  }

  // ------------------------------------------------------ dumps are published

  lemma DumpStep(w: World, tr: seq<State>, steps: seq<Step>, i: nat, d: Dumper, b: DumpAction) returns (mv: Dumped)
    requires IsRun(w, tr, steps) && i < |steps| && steps[i] == Snapshot(d, b)
    ensures DumpMove(d, DumpPcOf(tr[i], d), b, w.files(tr[i].events).files, tr[i].tmp) == Some(mv)
    ensures DumpPcOf(tr[i + 1], d) == mv.pc
    ensures mv.file.Replace? ==> tr[i + 1].target == Some(tr[i].tmp) && tr[i + 1].snapAt == Some(|tr[i + 1].events|)
    ensures |tr[i + 1].events| == |tr[i].events| + if mv.effect.BeginCall? || mv.effect.EndCall? then 1 else 0
    ensures mv.effect.Release? ==> tr[i + 1].events == tr[i].events
  {
    assert Next(w, tr[i], steps[i]) == Some(tr[i + 1]);
    var t;
    mv, t := SnapshotStep(w, tr[i], d, b, tr[i + 1]);
  }

  lemma RunSnap(w: World, tr: seq<State>, steps: seq<Step>, i: nat, d: Dumper)
    requires IsRun(w, tr, steps) && i < |tr|
    ensures DumpOk(w, d, DumpPcOf(tr[i], d), tr[i].events, tr[i].tmp)
  {
    RunKeepsInv(w, tr, steps, i);
  }

  /** A dumper that has written its archive publishes it in its next step unless that fails. */
  lemma RenamePublishes(w: World, tr: seq<State>, steps: seq<Step>, i: nat, d: Dumper, b: DumpAction)
    requires IsRun(w, tr, steps) && i < |steps| && steps[i] == Snapshot(d, b)
    requires DumpPcOf(tr[i], d).Rename? && !b.IoError?
    ensures tr[i + 1].events == tr[i].events && tr[i + 1].snapAt == Some(|tr[i + 1].events|)
    ensures tr[i + 1].target.Some? && Archive.IsArchive(tr[i + 1].target.value, w.files(tr[i + 1].events).files)
    ensures DumpPcOf(tr[i + 1], d) == if d.Timer? then Resting else Stopped
  {
    var mv := DumpStep(w, tr, steps, i, d, b);
    RunSnap(w, tr, steps, i, d);
  }

  predicate IsError(b: DumpAction) {
    b.Crash? || b.IoError?
  }

  /** How many events of its own a dump has logged. */
  function Logged(pc: DumpPc): nat {
    match pc
    case InQuery(Vacuum) => 1
    case Query(Checkpoint) => 2
    case InQuery(Checkpoint) => 3
    case Create => 4
    case Walk => 4
    case Rename => 4
    case _ => 0
  }

  lemma DumpMoveLogs(d: Dumper, pc: DumpPc, b: DumpAction, tree: Archive.Files, tmp: seq<Archive.Entry>, mv: Dumped)
    requires DumpMove(d, pc, b, tree, tmp) == Some(mv) && DumpHolds(pc) && !IsError(b)
    ensures DumpHolds(mv.pc) ==> Logged(mv.pc) == Logged(pc) + if mv.effect.BeginCall? || mv.effect.EndCall? then 1 else 0
    ensures !DumpHolds(mv.pc) ==> pc.Rename?
  {
  }

  /** The dump that begins at `i` goes on up to `j` without an error. */
  ghost predicate Dumps(tr: seq<State>, steps: seq<Step>, i: nat, j: nat, d: Dumper)
    requires |tr| == |steps| + 1 && j < |tr|
  {
    && i <= j && DumpPcOf(tr[i], d) == Query(Vacuum)
    && (forall k :: i <= k < j ==> DumpHolds(DumpPcOf(tr[k], d)))
    && forall k :: i <= k < j ==> !(steps[k].Snapshot? && steps[k].d == d && IsError(steps[k].b))
  }

  lemma OtherKeepsDumper(w: World, tr: seq<State>, steps: seq<Step>, i: nat, d: Dumper)
    requires IsRun(w, tr, steps) && i < |steps| && !(steps[i].Snapshot? && steps[i].d == d)
    requires DumpHolds(DumpPcOf(tr[i], d))
    ensures DumpPcOf(tr[i + 1], d) == DumpPcOf(tr[i], d)
    ensures tr[i].events <= tr[i + 1].events
  {
    assert Next(w, tr[i], steps[i]) == Some(tr[i + 1]);
    StepGrowsLog(w, tr[i], steps[i], tr[i + 1]);
    if steps[i].Snapshot? {
      var mv, t := SnapshotStep(w, tr[i], steps[i].d, steps[i].b, tr[i + 1]);
    } else if steps[i].Handle? {
      HandleKeepsDumpers(w, tr[i], steps[i].c, steps[i].a, tr[i + 1]);
    }
  }

  lemma HandleKeepsDumpers(w: World, s: State, c: ConnId, a: Action, s': State)
    requires Next(w, s, Handle(c, a)) == Some(s')
    ensures s'.timer == s.timer && s'.closer == s.closer
  {
  }

  lemma {:induction false} DumpLogs(w: World, tr: seq<State>, steps: seq<Step>, i: nat, j: nat, d: Dumper)
    requires IsRun(w, tr, steps) && j < |tr| && Dumps(tr, steps, i, j, d) && DumpHolds(DumpPcOf(tr[j], d))
    ensures |tr[j].events| >= |tr[i].events| + Logged(DumpPcOf(tr[j], d))
    decreases j - i
  {
    if i < j {
      DumpLogs(w, tr, steps, i, j - 1, d);
      if steps[j - 1].Snapshot? && steps[j - 1].d == d {
        var mv := DumpStep(w, tr, steps, j - 1, d, steps[j - 1].b);
        DumpMoveLogs(d, DumpPcOf(tr[j - 1], d), steps[j - 1].b, w.files(tr[j - 1].events).files, tr[j - 1].tmp, mv);
      } else {
        OtherKeepsDumper(w, tr, steps, j - 1, d);
      }
    }
  }

  /**
   * A dump that meets no error moves the snapshot past its own maintenance queries: when the dumper has released the
   * lock, the snapshot file is a complete archive of the data directory at the end of the history.
   */
  lemma CleanDumpAdvances(w: World, tr: seq<State>, steps: seq<Step>, i: nat, j: nat, d: Dumper)
    requires IsRun(w, tr, steps) && j < |tr| && Dumps(tr, steps, i, j, d) && !DumpHolds(DumpPcOf(tr[j], d))
    ensures tr[j].snapAt == Some(|tr[j].events|) && |tr[j].events| >= |tr[i].events| + 4
    ensures tr[j].target.Some? && Archive.IsArchive(tr[j].target.value, w.files(tr[j].events).files)
  {
    assert i < j;
    DumpLogs(w, tr, steps, i, j - 1, d);
    if steps[j - 1].Snapshot? && steps[j - 1].d == d {
      var mv := DumpStep(w, tr, steps, j - 1, d, steps[j - 1].b);
      DumpMoveLogs(d, DumpPcOf(tr[j - 1], d), steps[j - 1].b, w.files(tr[j - 1].events).files, tr[j - 1].tmp, mv);
      RenamePublishes(w, tr, steps, j - 1, d, steps[j - 1].b);
    } else {
      OtherKeepsDumper(w, tr, steps, j - 1, d);
    }
  }

  /** Why a dumper stops for good. */
  predicate Stops(d: Dumper, pc: DumpPc, b: DumpAction) {
    if d.Timer? then b.Crash? else IsError(b) || pc.Rename?
  }

  lemma StopStep(w: World, s: State, step: Step, s': State, d: Dumper)
    requires Next(w, s, step) == Some(s') && w.persistent
    requires DumpPcOf(s', d).Stopped? && !DumpPcOf(s, d).Stopped?
    ensures step.Snapshot? && step.d == d && Stops(d, DumpPcOf(s, d), step.b)
  {
    match step
    case Handle(c, a) =>
      HandleKeepsDumpers(w, s, c, a, s');
      assert false;
    case Snapshot(e, b) =>
      var mv, t := SnapshotStep(w, s, e, b, s');
    case _ =>
  }

  /**
   * In a persistent instance the timer's rounds end only by an exception that is not an I/O error, since a failed dump
   * is tried again; and the closing thread stops only by publishing its final dump or by an error.
   */
  lemma {:induction false} DumperStopsBecause(w: World, tr: seq<State>, steps: seq<Step>, i: nat, d: Dumper)
    requires IsRun(w, tr, steps) && i < |tr| && w.persistent && DumpPcOf(tr[i], d).Stopped?
    ensures exists j: nat, b: DumpAction :: j < i && steps[j] == Snapshot(d, b) && Stops(d, DumpPcOf(tr[j], d), b)
  {
    if i > 0 {
      if DumpPcOf(tr[i - 1], d).Stopped? {
        DumperStopsBecause(w, tr, steps, i - 1, d);
      } else {
        StopStep(w, tr[i - 1], steps[i - 1], tr[i], d);
        assert steps[i - 1] == Snapshot(d, steps[i - 1].b);
      }
    }
  }
}
