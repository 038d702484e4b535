/** Runs of mask changes, raised signals and handler installations: what they keep and what they deliver. */
module SignalRuns {
  import opened Bytes
  import opened SignalMask

  datatype Event =
    | Mask(operation: int, s: Option<SigSet>, fail: SigSet)    // sigprocmask, and the signals whose signal() call fails
    | Raise(sig: nat)                                          // a signal arrives
    | Install(sig: nat, handler: Handler, fails: bool)         // the application calls signal

  /** The mask that a call of sigprocmask asks for, if it changes the mask at all. */
  function Target(s: Signals, e: Event): Option<SigSet>
    requires e.Mask?
  {
    if e.s.None? then None else Requested(e.operation, s.blocked, e.s.value)
  }

  /**
   * The application does not replace a blocked signal's handler itself, and no call aborts: signal() does not fail for
   * a signal whose blocking handler it has installed before.
   */
  predicate Allowed(s: Signals, e: Event) {
    match e
    case Mask(_, _, fail) => Target(s, e).Some? ==> !Aborts(s.blocked, Target(s, e).value, fail)
    case Raise(sig) => sig < |s.handlers|
    case Install(sig, h, _) => sig < |s.handlers| && sig !in s.blocked && h != Blocked && h != Error
  }

  function Apply(s: Signals, e: Event): (r: Signals)
    requires Sized(s) && Allowed(s, e)
    ensures Sized(r) && |r.handlers| == |s.handlers|
  {
    match e
    case Mask(_, _, fail) => if Target(s, e).None? then s else Masked(s, Target(s, e).value, fail)
    case Raise(sig) => Raised(s, sig)
    case Install(sig, h, fails) => if fails then s else s.(handlers := s.handlers[sig := h])
  }

  predicate AllowedRun(s: Signals, es: seq<Event>)
    requires Sized(s)
    decreases |es|
  {
    es == [] || (Allowed(s, es[0]) && AllowedRun(Apply(s, es[0]), es[1..]))
  }

  function Run(s: Signals, es: seq<Event>): (r: Signals)
    requires Sized(s) && AllowedRun(s, es)
    ensures Sized(r) && |r.handlers| == |s.handlers|
    decreases |es|
  {
    if es == [] then s else Run(Apply(s, es[0]), es[1..])
  }

  lemma ApplyKeepsInv(s: Signals, e: Event)
    requires Inv(s) && Allowed(s, e)
    ensures Inv(Apply(s, e))
  {
    match e
    case Mask(_, _, fail) =>
      if Target(s, e).Some? {
        MaskedKeepsInv(s, Target(s, e).value, fail);
      }
    case _ =>
  }

  /** The invariant holds after every allowed run, so no run reaches the abort of sigprocmask. */
  lemma {:induction false} RunKeepsInv(s: Signals, es: seq<Event>)
    requires Inv(s) && AllowedRun(s, es)
    ensures Inv(Run(s, es))
    decreases |es|
  {
    if es != [] {
      ApplyKeepsInv(s, es[0]);
      RunKeepsInv(Apply(s, es[0]), es[1..]);
    }
  }

  /** A valid call leaves the requested mask, minus the newly requested signals whose signal() call failed. */
  lemma CallSetsRequestedMask(s: Signals, e: Event)
    requires Inv(s) && e.Mask? && Target(s, e).Some? && Allowed(s, e)
    ensures Apply(s, e).blocked == Target(s, e).value - (e.fail - s.blocked)
    ensures e.fail !! Target(s, e).value - s.blocked ==> Apply(s, e).blocked == Target(s, e).value
    ensures e.fail == {} ==>
              Apply(s, e).blocked == if e.operation == 0 then s.blocked + e.s.value
                                     else if e.operation == 1 then s.blocked - e.s.value
                                     else e.s.value
  {
  }

  /** A raised signal is delivered at once to the application's handler, or is pending and nothing else. */
  lemma RaiseDelivers(s: Signals, sig: nat)
    requires Inv(s) && sig < |s.handlers|
    ensures var r := Apply(s, Raise(sig));
      if sig in s.blocked
      then r == s.(pending := r.pending) && r.pending == s.pending[sig := true]
      else r == s.(log := s.log + [Delivery(sig, Effective(s, sig), s.blocked)])
  {
  }

  /** Installing a handler changes that of one signal and nothing else, unless signal() fails. */
  lemma InstallSets(s: Signals, sig: nat, h: Handler, fails: bool, other: nat)
    requires Inv(s) && Allowed(s, Install(sig, h, fails)) && other < |s.handlers|
    ensures var r := Apply(s, Install(sig, h, fails));
      && Effective(r, other) == (if other == sig && !fails then h else Effective(s, other))
      && r == s.(handlers := r.handlers)
  {
  }

  /** Deliveries in ascending order of signals below `n`, under one mask. */
  ghost predicate Ascends(ds: seq<Delivery>, mask: SigSet, n: nat) {
    && (forall i :: 0 <= i < |ds| ==> ds[i].sig < n && ds[i].mask == mask)
    && forall i, j :: 0 <= i < j < |ds| ==> ds[i].sig < ds[j].sig
  }

  lemma AscendsSnoc(ds: seq<Delivery>, mask: SigSet, n: nat, h: Handler)
    requires Ascends(ds, mask, n)
    ensures Ascends(ds, mask, n + 1) && Ascends(ds + [Delivery(n, h, mask)], mask, n + 1)
  {
  }

  /** A change of mask delivers in ascending order of the signals, under the new mask. */
  lemma {:induction false} DeliveriesAscend(s: Signals, unblock: SigSet, mask: SigSet, n: nat)
    requires Sized(s) && n <= |s.handlers|
    ensures Ascends(Deliveries(s, unblock, mask, n), mask, n)
  {
    if n > 0 {
      DeliveriesAscend(s, unblock, mask, n - 1);
      AscendsSnoc(Deliveries(s, unblock, mask, n - 1), mask, n - 1, s.saved[n - 1]);
      assert Deliveries(s, unblock, mask, n - 1) + [] == Deliveries(s, unblock, mask, n - 1);
    }
  }

  /** The handler the application has for a signal, whether it is in the host's table or saved. */
  function Effective(s: Signals, sig: nat): Handler
    requires Sized(s) && sig < |s.handlers|
  {
    if sig in s.blocked then s.saved[sig] else s.handlers[sig]
  }

  /** Only the application itself changes its handlers. */
  lemma {:induction false} RunKeepsEffectiveHandler(s: Signals, es: seq<Event>, sig: nat)
    requires Inv(s) && AllowedRun(s, es) && sig < |s.handlers|
    requires forall e <- es :: !(e.Install? && e.sig == sig)
    ensures Effective(Run(s, es), sig) == Effective(s, sig)
    decreases |es|
  {
    if es != [] {
      assert es[0] in es;
      ApplyKeepsInv(s, es[0]);
      RunKeepsEffectiveHandler(Apply(s, es[0]), es[1..], sig);
    }
  }

  // -------------------------------------------------------- deferred delivery

  /** The deliveries of one signal. */
  function DeliveredTo(log: seq<Delivery>, sig: nat): seq<Delivery> {
    if log == [] then []
    else
      DeliveredTo(log[..|log| - 1], sig)
      + if log[|log| - 1].sig == sig then [log[|log| - 1]] else []
  }

  lemma {:induction false} DeliveredToAppend(a: seq<Delivery>, b: seq<Delivery>, sig: nat)
    ensures DeliveredTo(a + b, sig) == DeliveredTo(a, sig) + DeliveredTo(b, sig)
  {
    if b == [] {
      assert a + b == a;
    } else {
      var n := |b| - 1;
      DeliveredToAppend(a, b[..n], sig);
      assert (a + b)[..|a + b| - 1] == a + b[..n];
    }
  }

  lemma DeliveredToSnoc(a: seq<Delivery>, d: Delivery, sig: nat)
    ensures DeliveredTo(a + [d], sig) == DeliveredTo(a, sig) + if d.sig == sig then [d] else []
  {
    assert (a + [d])[..|a|] == a;
  }

  /** A change of mask delivers a signal once if it is pending and unblocked, and not at all otherwise. */
  lemma {:induction false} DeliveriesOnce(s: Signals, unblock: SigSet, mask: SigSet, n: nat, sig: nat)
    requires Sized(s) && n <= |s.handlers| && sig < |s.handlers|
    ensures DeliveredTo(Deliveries(s, unblock, mask, n), sig)
         == if sig < n && sig in unblock && s.pending[sig] then [Delivery(sig, s.saved[sig], mask)] else []
  {
    if n > 0 {
      DeliveriesOnce(s, unblock, mask, n - 1, sig);
      DeliveriesNext(s, unblock, mask, n - 1, sig);
      var due := sig in unblock && s.pending[sig];
      AtMostOne(DeliveredTo(Deliveries(s, unblock, mask, n - 1), sig), DeliveredTo(Deliveries(s, unblock, mask, n), sig),
                Delivery(sig, s.saved[sig], mask), sig < n - 1 && due, n - 1 == sig && due);
    }
  }

  lemma AtMostOne(a: seq<Delivery>, b: seq<Delivery>, d: Delivery, before: bool, now: bool)
    requires !(before && now) && a == (if before then [d] else []) && b == a + if now then [d] else []
    ensures b == if before || now then [d] else []
  {
  }

  lemma DeliveriesNext(s: Signals, unblock: SigSet, mask: SigSet, n: nat, sig: nat)
    requires Sized(s) && n < |s.handlers|
    ensures sig < |s.handlers| ==>
      DeliveredTo(Deliveries(s, unblock, mask, n + 1), sig)
      == DeliveredTo(Deliveries(s, unblock, mask, n), sig)
         + if n == sig && sig in unblock && s.pending[sig] then [Delivery(sig, s.saved[sig], mask)] else []
  {
    var before, d := Deliveries(s, unblock, mask, n), Delivery(n, s.saved[n], mask);
    if n in unblock && s.pending[n] {
      assert Deliveries(s, unblock, mask, n + 1) == before + [d];
      DeliveredToSnoc(before, d, sig);
    } else {
      assert Deliveries(s, unblock, mask, n + 1) == before;
    }
  }

  lemma MaskedDeliversOnce(s: Signals, target: SigSet, fail: SigSet, sig: nat)
    requires Sized(s) && sig < |s.handlers|
    ensures DeliveredTo(Masked(s, target, fail).log, sig)
         == DeliveredTo(s.log, sig)
            + if sig in s.blocked && sig !in target && s.pending[sig]
              then [Delivery(sig, s.saved[sig], NewMask(s.blocked, target, fail))] else []
  {
    var mask := NewMask(s.blocked, target, fail);
    var unblock: SigSet := s.blocked - target;
    DeliveredToAppend(s.log, Deliveries(s, unblock, mask, |s.handlers|), sig);
    DeliveriesOnce(s, unblock, mask, |s.handlers|, sig);
  }

  /** One step while a signal stays blocked: nothing is delivered for it, and raising it makes it pending. */
  lemma StepWhileBlocked(s: Signals, e: Event, sig: nat)
    requires Inv(s) && Allowed(s, e) && sig in s.blocked && sig in Apply(s, e).blocked
    ensures var r := Apply(s, e);
      && r.saved[sig] == s.saved[sig]
      && r.pending[sig] == (s.pending[sig] || e == Raise(sig))
      && DeliveredTo(r.log, sig) == DeliveredTo(s.log, sig)
  {
    match e
    case Mask(_, _, fail) =>
      if Target(s, e).Some? {
        MaskedDeliversOnce(s, Target(s, e).value, fail, sig);
      }
    case Raise(k) =>
      if s.handlers[k] != Blocked {
        DeliveredToSnoc(s.log, Delivery(k, s.handlers[k], s.blocked), sig);
      }
    case Install(_, _, _) =>
  }

  /** The signal is blocked before the run and after each of its steps. */
  predicate StaysBlocked(s: Signals, es: seq<Event>, sig: nat)
    requires Sized(s) && AllowedRun(s, es)
    decreases |es|
  {
    sig in s.blocked && (es == [] || StaysBlocked(Apply(s, es[0]), es[1..], sig))
  }

  lemma {:induction false} RunWhileBlocked(s: Signals, es: seq<Event>, sig: nat)
    requires Inv(s) && AllowedRun(s, es) && StaysBlocked(s, es, sig)
    ensures var r := Run(s, es);
      && sig in r.blocked && r.saved[sig] == s.saved[sig]
      && r.pending[sig] == (s.pending[sig] || Raise(sig) in es)
      && DeliveredTo(r.log, sig) == DeliveredTo(s.log, sig)
    decreases |es|
  {
    if es != [] {
      var t := Apply(s, es[0]);
      ApplyKeepsInv(s, es[0]);
      StepWhileBlocked(s, es[0], sig);
      RunWhileBlocked(t, es[1..], sig);
      assert es == [es[0]] + es[1..];
    }
  }

  /**
   * Deferred delivery. Through any run in which a signal stays blocked, its handler does not run. The call that then
   * unblocks it runs the application's handler exactly once if the signal was pending or was raised at all, however
   * often, and not at all otherwise; and at that moment the mask is already the new one, so every handler being
   * unblocked is back in place.
   */
  lemma DeferredDelivery(s: Signals, es: seq<Event>, sig: nat, unblock: Event)
    requires Inv(s) && AllowedRun(s, es) && StaysBlocked(s, es, sig) && sig < |s.handlers|
    requires var r := Run(s, es);
      unblock.Mask? && Allowed(r, unblock) && Target(r, unblock).Some? && sig !in Target(r, unblock).value
    ensures var r := Run(s, es);
      var u := Apply(r, unblock);
      && DeliveredTo(r.log, sig) == DeliveredTo(s.log, sig)
      && DeliveredTo(u.log, sig) == DeliveredTo(s.log, sig)
           + (if s.pending[sig] || Raise(sig) in es then [Delivery(sig, Effective(s, sig), u.blocked)] else [])
      && sig !in u.blocked && !u.pending[sig] && u.handlers[sig] == Effective(s, sig)
  {
    var r := Run(s, es);
    RunWhileBlocked(s, es, sig);
    MaskedDeliversOnce(r, Target(r, unblock).value, unblock.fail, sig);
  }

  /** A call changes no handler that the application has. */
  lemma MaskKeepsEffective(s: Signals, e: Event, sig: nat)
    requires Inv(s) && e.Mask? && Allowed(s, e) && sig < |s.handlers|
    ensures Effective(Apply(s, e), sig) == Effective(s, sig)
  {
  }

  /** A table that keeps the invariant is known from its mask and the application's handlers. */
  lemma SameTable(s: Signals, u: Signals)
    requires Inv(s) && Inv(u) && u.blocked == s.blocked && |u.handlers| == |s.handlers|
    requires forall i :: 0 <= i < |s.handlers| ==> Effective(u, i) == Effective(s, i)
    ensures u.handlers == s.handlers
  {
    forall i | 0 <= i < |s.handlers|
      ensures u.handlers[i] == s.handlers[i]
    {
      assert Effective(u, i) == Effective(s, i);
    }
  }

  /**
   * Blocking a set, then any run in which the application installs no handler, with nested mask calls and signals as
   * they come, and then setting the saved mask again restores the mask and the whole handler table, if and only if
   * signal() succeeds for the signals that have to be blocked again.
   */
  lemma SavedMaskRestoresTable(s: Signals, block: Event, es: seq<Event>, fail: SigSet)
    requires Inv(s) && block.Mask? && Allowed(s, block) && forall e <- es :: !e.Install?
    requires AllowedRun(Apply(s, block), es)
    requires Allowed(Run(Apply(s, block), es), Mask(SIG_SETMASK, Some(s.blocked), fail))
    ensures var r := Run(Apply(s, block), es);
      var u := Apply(r, Mask(SIG_SETMASK, Some(s.blocked), fail));
      && (u.handlers == s.handlers <==> fail !! s.blocked - r.blocked)
      && (u.blocked == s.blocked <==> fail !! s.blocked - r.blocked)
  {
    var t, restore := Apply(s, block), Mask(SIG_SETMASK, Some(s.blocked), fail);
    var r := Run(t, es);
    var u := Apply(r, restore);
    ApplyKeepsInv(s, block);
    RunKeepsInv(t, es);
    ApplyKeepsInv(r, restore);
    CallSetsRequestedMask(r, restore);
    if fail !! s.blocked - r.blocked {
      forall i | 0 <= i < |s.handlers|
        ensures Effective(u, i) == Effective(s, i)
      {
        MaskKeepsEffective(s, block, i);
        RunKeepsEffectiveHandler(t, es, i);
        MaskKeepsEffective(r, restore, i);
      }
      SameTable(s, u);
    } else {
      var sig :| sig in fail && sig in s.blocked - r.blocked;
      assert sig !in u.blocked;
      assert u.handlers[sig] != Blocked && s.handlers[sig] == Blocked;
    }
  }
}
