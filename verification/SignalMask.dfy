/** How the octet of a sigset_t holds a set of signals. */
module SignalBits {
  /** `1U << sig`, cut to eight bits. */
  function BitOf(sig: nat): bv8 {
    if sig == 0 then 1
    else if sig == 1 then 2
    else if sig == 2 then 4
    else if sig == 3 then 8
    else if sig == 4 then 16
    else if sig == 5 then 32
    else if sig == 6 then 64
    else if sig == 7 then 128
    else 0
  }

  /** `(octet >> sig) & 1` */
  predicate Has(octet: bv8, sig: nat) {
    octet & BitOf(sig) != 0
  }

  function Members(octet: bv8): set<nat> {
    set sig: nat | sig < 8 && Has(octet, sig)
  }

  lemma HasUnion(a: bv8, b: bv8, sig: nat)
    ensures Has(a | b, sig) <==> Has(a, sig) || Has(b, sig)
  {
  }

  lemma HasMinus(a: bv8, b: bv8, sig: nat)
    ensures Has(a & !b, sig) <==> Has(a, sig) && !Has(b, sig)
  {
  }

  lemma HasBit(k: nat, sig: nat)
    ensures Has(BitOf(k), sig) <==> k == sig && k < 8
  {
  }

  /** The C operators on octets are union, difference and the singleton of the signals that fit. */
  lemma BitsAreSets(a: bv8, b: bv8, k: nat)
    ensures Members(a | b) == Members(a) + Members(b)
    ensures Members(a & !b) == Members(a) - Members(b)
    ensures Members(BitOf(k)) == if k < 8 then {k} else {}
  {
    forall sig: nat
      ensures Has(a | b, sig) <==> Has(a, sig) || Has(b, sig)
      ensures Has(a & !b, sig) <==> Has(a, sig) && !Has(b, sig)
      ensures Has(BitOf(k), sig) <==> k == sig && k < 8
    {
      HasUnion(a, b, sig);
      HasMinus(a, b, sig);
      HasBit(k, sig);
    }
  }

  /** Different octets hold different sets. */
  lemma MembersInjective(a: bv8, b: bv8)
    requires Members(a) == Members(b)
    ensures a == b
  {
    assert forall sig: nat :: sig < 8 ==> (sig in Members(a) <==> Has(a, sig));
    assert forall sig: nat :: sig < 8 ==> (sig in Members(b) <==> Has(b, sig));
    assert Has(a, 0) == Has(b, 0) && Has(a, 1) == Has(b, 1) && Has(a, 2) == Has(b, 2) && Has(a, 3) == Has(b, 3);
    assert Has(a, 4) == Has(b, 4) && Has(a, 5) == Has(b, 5) && Has(a, 6) == Has(b, 6) && Has(a, 7) == Has(b, 7);
  }

  /**
   * sigaddset: succeeds for every signal number, but only signals that fit the octet become members. C gives a shift by
   * 32 or more no meaning.
   */
  method SigAddSet(octet: bv8, sig: int, nsig: nat) returns (ret: int, r: bv8)
    requires sig < 32 || sig >= nsig
    ensures ret == if 0 <= sig < nsig then 0 else -1
    ensures Members(r) == if 0 <= sig < nsig && sig < 8 then Members(octet) + {sig} else Members(octet)
  {
    if sig >= 0 && sig < nsig {
      BitsAreSets(octet, BitOf(sig), sig);
      return 0, octet | BitOf(sig);
    }
    return -1, octet;
  }

  lemma DelMember(octet: bv8, sig: nat)
    ensures Members(octet & !BitOf(sig)) == Members(octet) - {sig}
  {
    BitsAreSets(octet, BitOf(sig), sig);
    var gone := Members(BitOf(sig));
    assert gone == if sig < 8 then {sig} else {};
    assert sig >= 8 ==> sig !in Members(octet);
  }

  /** sigdelset: the signal is not a member afterwards, whether it fits or not. */
  method SigDelSet(octet: bv8, sig: int, nsig: nat) returns (ret: int, r: bv8)
    requires sig < 32 || sig >= nsig
    ensures ret == if 0 <= sig < nsig then 0 else -1
    ensures Members(r) == if 0 <= sig < nsig then Members(octet) - {sig} else Members(octet)
  {
    if sig >= 0 && sig < nsig {
      DelMember(octet, sig);
      return 0, octet & !BitOf(sig);
    }
    return -1, octet;
  }
}

/**
 * The emulation of sigprocmask in wasm-build/wasm-build/sdk_port-wasi/sdk_port-wasi.c, whose intended behaviour is
 * that of sigprocmask in the System Interfaces volume of POSIX (IEEE Std 1003.1).
 */
module SignalMask {
  import opened Bytes

  /** The signals of a sigset_t; SignalBits relates them to the octet that holds them. */
  type SigSet = s: set<nat> | forall k <- s :: k < 8

  // ------------------------------------------------------------ specification

  /** What the host's signal table can hold; Error is what signal() returns when it fails. */
  datatype Handler = Default | Ignore | App(id: nat) | Blocked | Error

  /** A run of an application handler, with the mask in force at that moment. */
  datatype Delivery = Delivery(sig: nat, handler: Handler, mask: SigSet)

  /** The globals: mask, pending flags, saved handlers, and the host's table; `log` is history. */
  datatype Signals = Signals(
    blocked: SigSet,
    pending: seq<bool>,
    saved: seq<Handler>,
    handlers: seq<Handler>,
    log: seq<Delivery>)

  predicate Sized(s: Signals) {
    8 <= |s.handlers| == |s.pending| == |s.saved|
  }

  const SIG_BLOCK := 0
  const SIG_UNBLOCK := 1
  const SIG_SETMASK := 2

  /** The mask an operation asks for. */
  function Requested(operation: int, blocked: SigSet, s: SigSet): Option<SigSet> {
    if operation == SIG_BLOCK then Some(blocked + s)
    else if operation == SIG_SETMASK then Some(s)
    else if operation == SIG_UNBLOCK then Some(blocked - s)
    else None
  }

  /** The pending signals being unblocked, in ascending order, each delivered once to its saved handler. */
  function Deliveries(s: Signals, unblock: SigSet, mask: SigSet, n: nat): seq<Delivery>
    requires Sized(s) && n <= |s.handlers|
  {
    if n == 0 then []
    else
      Deliveries(s, unblock, mask, n - 1)
      + if n - 1 in unblock && s.pending[n - 1] then [Delivery(n - 1, s.saved[n - 1], mask)] else []
  }

  /** The requested mask, less the signals that were not blocked and whose signal() call fails. */
  function NewMask(blocked: SigSet, target: SigSet, fail: SigSet): SigSet {
    target - (fail - blocked)
  }

  function MaskedHandler(s: Signals, target: SigSet, fail: SigSet, i: nat): Handler
    requires Sized(s) && i < |s.handlers|
  {
    if i in target - s.blocked - fail then Blocked else if i in s.blocked - target then s.saved[i] else s.handlers[i]
  }

  function MaskedSaved(s: Signals, target: SigSet, fail: SigSet, i: nat): Handler
    requires Sized(s) && i < |s.handlers|
  {
    if i !in target - s.blocked then s.saved[i] else if i in fail then Error else s.handlers[i]
  }

  function MaskedPending(s: Signals, target: SigSet, i: nat): bool
    requires Sized(s) && i < |s.handlers|
  {
    s.pending[i] && (i in target <==> i in s.blocked)
  }

  /** The signal() call that should restore a handler fails: the code then aborts. */
  predicate Aborts(blocked: SigSet, target: SigSet, fail: SigSet) {
    exists sig <- blocked :: sig !in target && sig in fail
  }

  /**
   * A change of mask as one simultaneous update followed by the deferred deliveries. A call makes at most one signal()
   * call per signal; `fail` holds the signals for which it fails.
   */
  function Masked(s: Signals, target: SigSet, fail: SigSet): (r: Signals)
    requires Sized(s)
    ensures Sized(r) && |r.handlers| == |s.handlers|
  {
    var n := |s.handlers|;
    var mask := NewMask(s.blocked, target, fail);
    Signals(
      mask,
      seq(n, i requires 0 <= i < n => MaskedPending(s, target, i)),
      seq(n, i requires 0 <= i < n => MaskedSaved(s, target, fail, i)),
      seq(n, i requires 0 <= i < n => MaskedHandler(s, target, fail, i)),
      s.log + Deliveries(s, s.blocked - target, mask, n))
  }

  /** raise(): a blocked signal is only marked pending, any other one is delivered. */
  function Raised(s: Signals, sig: nat): (r: Signals)
    requires Sized(s) && sig < |s.handlers|
    ensures Sized(r) && |r.handlers| == |s.handlers|
  {
    if s.handlers[sig] == Blocked then s.(pending := s.pending[sig := true])
    else s.(log := s.log + [Delivery(sig, s.handlers[sig], s.blocked)])
  }

  /**
   * What the emulation keeps: exactly the blocked signals carry the blocking handler, their own handler is the saved
   * one, and only blocked signals are pending.
   */
  ghost predicate Inv(s: Signals) {
    && Sized(s)
    && forall i :: 0 <= i < |s.handlers| ==>
         && (i in s.blocked <==> s.handlers[i] == Blocked)
         && s.handlers[i] != Error
         && (i in s.blocked ==> s.saved[i] != Blocked && s.saved[i] != Error)
         && (s.pending[i] ==> i in s.blocked)
  }

  // ----------------------------------------------------------- implementation

  /** The globals of the source and the host's signal table, changed in place. */
  class SignalTable {
    var blockedSet: SigSet
    const pendingArray: array<bool>
    const oldHandlers: array<Handler>
    const handlers: array<Handler>
    var log: seq<Delivery>

    ghost predicate Apart() {
      && oldHandlers != handlers
      && 8 <= handlers.Length == pendingArray.Length == oldHandlers.Length
    }

    ghost function Now(): (s: Signals)
      requires Apart()
      reads this, pendingArray, oldHandlers, handlers
      ensures Sized(s)
    {
      Signals(blockedSet, pendingArray[..], oldHandlers[..], handlers[..], log)
    }

    ghost predicate Valid()
      reads this, pendingArray, oldHandlers, handlers
    {
      Apart() && Inv(Now())
    }

    constructor (nsig: nat)
      requires nsig >= 8
      ensures Valid() && fresh(pendingArray) && fresh(oldHandlers) && fresh(handlers) && handlers.Length == nsig
      ensures blockedSet == {} && log == [] && forall i :: 0 <= i < nsig ==> handlers[i] == Default
    {
      blockedSet := {};
      pendingArray := new bool[nsig](_ => false);
      oldHandlers := new Handler[nsig](_ => Default);
      handlers := new Handler[nsig](_ => Default);
      log := [];
    }

    /** The C library's signal(), which may fail. */
    method Signal(sig: nat, h: Handler, fails: bool) returns (prev: Handler)
      requires sig < handlers.Length
      modifies handlers
      ensures handlers[..] == if fails then old(handlers[..]) else old(handlers[..])[sig := h]
      ensures prev == if fails then Error else old(handlers[sig])
    {
      if fails {
        return Error;
      }
      prev := handlers[sig];
      handlers[sig] := h;
    }

    /** blocked_handler: installs itself again, should the host have taken it away, and marks the signal pending. */
    method BlockedHandler(sig: nat)
      requires Apart() && sig < handlers.Length
      modifies handlers, pendingArray
      ensures handlers[..] == old(handlers[..])[sig := Blocked]
      ensures pendingArray[..] == old(pendingArray[..])[sig := true]
    {
      var _ := Signal(sig, Blocked, false);
      pendingArray[sig] := true;
    }

    /** The C library's raise(). A one-shot host resets the blocking handler before it runs it. */
    method Raise(sig: nat, oneShot: bool)
      requires Apart() && sig < handlers.Length
      modifies this`log, handlers, pendingArray
      ensures Now() == Raised(old(Now()), sig)
    {
      if handlers[sig] == Blocked {
        if oneShot {
          handlers[sig] := Default;
        }
        BlockedHandler(sig);
        assert handlers[..] == old(handlers[..]);
      } else {
        log := log + [Delivery(sig, handlers[sig], blockedSet)];
      }
    }

    /** Lines 212 to 214: saves the handler of one signal and installs the blocking one. */
    method BlockOne(sig: nat, fail: SigSet)
      requires Apart() && sig < 8 && handlers[sig] != Error
      modifies this`blockedSet, pendingArray, oldHandlers, handlers
      ensures handlers[..] == if sig in fail then old(handlers[..]) else old(handlers[..])[sig := Blocked]
      ensures oldHandlers[..] == old(oldHandlers[..])[sig := if sig in fail then Error else old(handlers[sig])]
      ensures pendingArray[..] == old(pendingArray[..])[sig := false]
      ensures blockedSet == old(blockedSet) + ({sig} - fail)
    {
      pendingArray[sig] := false;
      var prev := Signal(sig, Blocked, sig in fail);
      oldHandlers[sig] := prev;
      if prev != Error {
        blockedSet := blockedSet + {sig};
      }
    }

    /** The loop of lines 209 to 215. */
    method BlockAll(toBlock: SigSet, fail: SigSet)
      requires Apart() && forall i :: 0 <= i < handlers.Length ==> handlers[i] != Error
      modifies this`blockedSet, pendingArray, oldHandlers, handlers
      ensures Now() == AfterBlock(old(Now()), toBlock, fail)
    {
      ghost var before := Now();
      ghost var after := AfterBlock(before, toBlock, fail);
      for sig := 0 to handlers.Length
        invariant forall i :: 0 <= i < handlers.Length ==>
                    && handlers[i] == (if i < sig then after.handlers[i] else before.handlers[i])
                    && oldHandlers[i] == (if i < sig then after.saved[i] else before.saved[i])
                    && pendingArray[i] == (if i < sig then after.pending[i] else before.pending[i])
        invariant blockedSet == before.blocked + (Below(toBlock, sig) - fail)
      {
        if sig in toBlock {
          BlockOne(sig, fail);
        }
        BelowNext(toBlock, sig);
      }
      BelowAll(toBlock, handlers.Length);
    }

    /** Lines 226 to 233 for one signal that carries the blocking handler: aborts exactly when signal() fails. */
    method RestoreOne(sig: nat, fails: bool) returns (received: bool, aborted: bool)
      requires Apart() && sig < handlers.Length && handlers[sig] == Blocked
      modifies this`blockedSet, pendingArray, handlers
      ensures aborted == fails
      ensures !aborted ==> handlers[..] == old(handlers[..])[sig := oldHandlers[sig]]
      ensures !aborted ==> pendingArray[..] == old(pendingArray[..])[sig := false]
      ensures !aborted ==> received == old(pendingArray[sig]) && blockedSet == old(blockedSet) - {sig}
    {
      received := false;
      var prev := Signal(sig, oldHandlers[sig], fails);
      if prev != Blocked {
        return false, true;
      }
      received := pendingArray[sig];
      blockedSet := blockedSet - {sig};
      pendingArray[sig] := false;
      aborted := false;
    }

    /** The loop of lines 223 to 236. */
    method RestoreAll(toUnblock: SigSet, fail: SigSet) returns (received: array<bool>, aborted: bool)
      requires Apart()
      requires forall i :: 0 <= i < handlers.Length && i in toUnblock ==> handlers[i] == Blocked
      modifies this`blockedSet, pendingArray, handlers
      ensures fresh(received) && received.Length == handlers.Length
      ensures aborted <==> exists sig <- toUnblock :: sig in fail
      ensures !aborted ==> received[..] == Received(old(Now()), toUnblock) && Now() == AfterRestore(old(Now()), toUnblock)
    {
      ghost var before := Now();
      ghost var after := AfterRestore(before, toUnblock);
      received, aborted := new bool[handlers.Length](_ => false), false;
      for sig := 0 to handlers.Length
        invariant forall i :: 0 <= i < handlers.Length ==>
                    && handlers[i] == (if i < sig then after.handlers[i] else before.handlers[i])
                    && pendingArray[i] == (if i < sig then after.pending[i] else before.pending[i])
        invariant forall i :: 0 <= i < sig ==> received[i] == Received(before, toUnblock)[i]
        invariant blockedSet == before.blocked - Below(toUnblock, sig)
        invariant forall i <- toUnblock :: i < sig ==> i !in fail
      {
        if sig in toUnblock {
          var got;
          got, aborted := RestoreOne(sig, sig in fail);
          if aborted {
            return;
          }
          received[sig] := got;
        } else {
          received[sig] := false;
        }
        BelowNext(toUnblock, sig);
      }
      BelowAll(toUnblock, handlers.Length);
    }

    /** The loop of lines 238 to 240: runs after every handler has been restored. */
    method RaiseAll(received: array<bool>)
      requires Apart() && received.Length == handlers.Length && received != pendingArray
      requires forall i :: 0 <= i < handlers.Length && received[i] ==> handlers[i] != Blocked
      modifies this`log, handlers, pendingArray
      ensures Now() == old(Now()).(log := old(log) + RaisedInOrder(received[..], old(handlers[..]), blockedSet, handlers.Length))
    {
      ghost var before := Now();
      for sig := 0 to handlers.Length
        invariant Now() == before.(log := before.log + RaisedInOrder(received[..], before.handlers, blockedSet, sig))
      {
        assert Now().handlers[sig] == before.handlers[sig];
        if received[sig] {
          Raise(sig, false);
        }
      }
    }

    /** Lines 202 to 242: aborts exactly when a signal() call that restores a handler fails. */
    method Change(target: SigSet, fail: SigSet) returns (aborted: bool)
      requires Valid()
      modifies this, pendingArray, oldHandlers, handlers
      ensures aborted <==> Aborts(old(blockedSet), target, fail)
      ensures !aborted ==> Now() == Masked(old(Now()), target, fail)
    {
      ghost var before := Now();
      var toUnblock: SigSet := blockedSet - target;
      var toBlock: SigSet := target - blockedSet;
      aborted := false;
      if toBlock != {} {
        BlockAll(toBlock, fail);
      } else {
        BlockNothing(before, fail);
      }
      ghost var middle := AfterBlock(before, toBlock, fail);
      MiddleOk(before, target, fail);
      if toUnblock != {} {
        var received;
        received, aborted := RestoreAll(toUnblock, fail);
        if aborted {
          return;
        }
        RaiseAll(received);
      } else {
        RestoreNothing(middle);
      }
      MaskedInSteps(before, target, fail);
    }

    /**
     * sigprocmask: returns the old mask, refuses an unknown operation, and otherwise makes the requested change as
     * one simultaneous update followed by the deferred deliveries; it aborts exactly when a restoring signal() fails.
     */
    method SigProcMask(operation: int, s: Option<SigSet>, fail: SigSet) returns (ret: int, oldSet: SigSet, aborted: bool)
      requires Valid()
      modifies this, pendingArray, oldHandlers, handlers
      ensures oldSet == old(blockedSet)
      ensures ret == if s.Some? && Requested(operation, old(blockedSet), s.value).None? then -1 else 0
      ensures aborted <==> s.Some? && Requested(operation, old(blockedSet), s.value).Some?
                           && Aborts(old(blockedSet), Requested(operation, old(blockedSet), s.value).value, fail)
      ensures s.Some? && !(0 <= operation <= 2) ==> ret == -1 && !aborted && blockedSet == old(blockedSet)
      ensures s.Some? && 0 <= operation <= 2 && !aborted ==>
                && ret == 0
                && blockedSet == (if operation == 0 then old(blockedSet) + s.value
                                  else if operation == 1 then old(blockedSet) - s.value
                                  else s.value) - (fail - old(blockedSet))
      ensures !aborted ==> Valid()
      ensures !aborted ==> Now() == if s.None? || Requested(operation, old(blockedSet), s.value).None? then old(Now())
                                    else Masked(old(Now()), Requested(operation, old(blockedSet), s.value).value, fail)
    {
      oldSet := blockedSet;
      ret, aborted := 0, false;
      if s.Some? {
        var newBlockedSet: SigSet;
        if operation == SIG_BLOCK {
          newBlockedSet := blockedSet + s.value;
        } else if operation == SIG_SETMASK {
          newBlockedSet := s.value;
        } else if operation == SIG_UNBLOCK {
          newBlockedSet := blockedSet - s.value;
        } else {
          return -1, oldSet, false;
        }
        MaskedKeepsInv(Now(), newBlockedSet, fail);
        aborted := Change(newBlockedSet, fail);
      }
    }
  }

  // ------------------------------------------------------ the loops, as values

  function Below(s: SigSet, n: nat): SigSet {
    set k | k in s && k < n
  }

  lemma BelowNext(s: SigSet, n: nat)
    ensures Below(s, n + 1) == if n in s then Below(s, n) + {n} else Below(s, n)
  {
  }

  lemma BelowAll(s: SigSet, n: nat)
    requires n >= 8
    ensures Below(s, n) == s
  {
  }

  /** After the first loop. */
  function AfterBlock(s: Signals, toBlock: SigSet, fail: SigSet): (r: Signals)
    requires Sized(s)
    ensures Sized(r) && |r.handlers| == |s.handlers|
  {
    var n := |s.handlers|;
    s.(blocked := s.blocked + (toBlock - fail),
       pending := seq(n, i requires 0 <= i < n => s.pending[i] && i !in toBlock),
       saved := seq(n, i requires 0 <= i < n =>
         if i !in toBlock then s.saved[i] else if i in fail then Error else s.handlers[i]),
       handlers := seq(n, i requires 0 <= i < n => if i in toBlock - fail then Blocked else s.handlers[i]))
  }

  /** After the second loop. */
  function AfterRestore(s: Signals, toUnblock: SigSet): (r: Signals)
    requires Sized(s)
    ensures Sized(r) && |r.handlers| == |s.handlers|
  {
    var n := |s.handlers|;
    s.(blocked := s.blocked - toUnblock,
       pending := seq(n, i requires 0 <= i < n => s.pending[i] && i !in toUnblock),
       handlers := seq(n, i requires 0 <= i < n => if i in toUnblock then s.saved[i] else s.handlers[i]))
  }

  /** The signals the second loop notes for delivery. */
  function Received(s: Signals, toUnblock: SigSet): (r: seq<bool>)
    requires Sized(s)
    ensures |r| == |s.handlers|
  {
    seq(|s.handlers|, i requires 0 <= i < |s.handlers| => s.pending[i] && i in toUnblock)
  }

  /** What the raising loop adds to the log. */
  function RaisedInOrder(received: seq<bool>, hs: seq<Handler>, mask: SigSet, n: nat): seq<Delivery>
    requires n <= |received| == |hs|
  {
    if n == 0 then []
    else RaisedInOrder(received, hs, mask, n - 1) + if received[n - 1] then [Delivery(n - 1, hs[n - 1], mask)] else []
  }

  lemma BlockNothing(s: Signals, fail: SigSet)
    requires Sized(s)
    ensures AfterBlock(s, {}, fail) == s
  {
  }

  lemma RestoreNothing(s: Signals)
    requires Sized(s)
    ensures AfterRestore(s, {}) == s
    ensures RaisedInOrder(Received(s, {}), s.handlers, s.blocked, |s.handlers|) == []
  {
    RaiseNothing(Received(s, {}), s.handlers, s.blocked, |s.handlers|);
  }

  lemma {:induction false} RaiseNothing(received: seq<bool>, hs: seq<Handler>, mask: SigSet, n: nat)
    requires n <= |received| == |hs| && forall i :: 0 <= i < |received| ==> !received[i]
    ensures RaisedInOrder(received, hs, mask, n) == []
  {
    if n > 0 {
      RaiseNothing(received, hs, mask, n - 1);
    }
  }

  /** Between the loops: every signal to unblock still carries the blocking handler, and will not after. */
  lemma MiddleOk(s: Signals, target: SigSet, fail: SigSet)
    requires Inv(s)
    ensures var m := AfterBlock(s, target - s.blocked, fail);
      forall i :: 0 <= i < |s.handlers| && i in s.blocked - target ==>
        m.handlers[i] == Blocked && m.saved[i] == s.saved[i] && s.saved[i] != Blocked
  {
  }

  /** The three loops together are the simultaneous update. */
  lemma MaskedInSteps(s: Signals, target: SigSet, fail: SigSet)
    requires Inv(s)
    ensures var m := AfterBlock(s, target - s.blocked, fail);
      var r := AfterRestore(m, s.blocked - target);
      Masked(s, target, fail)
        == r.(log := r.log + RaisedInOrder(Received(m, s.blocked - target), r.handlers, r.blocked, |r.handlers|))
  {
    var toBlock: SigSet, toUnblock: SigSet := target - s.blocked, s.blocked - target;
    var m := AfterBlock(s, toBlock, fail);
    var r := AfterRestore(m, toUnblock);
    SameDeliveries(s, r.handlers, Received(m, toUnblock), toUnblock, r.blocked, |s.handlers|);
    var after := Masked(s, target, fail);
    assert after.blocked == r.blocked;
    assert after.handlers == r.handlers;
    assert after.saved == r.saved;
    assert after.pending == r.pending;
  }

  lemma {:induction false} SameDeliveries(s: Signals, hs: seq<Handler>, received: seq<bool>, unblock: SigSet,
                                          mask: SigSet, n: nat)
    requires Sized(s) && n <= |received| == |s.handlers| == |hs|
    requires forall i :: 0 <= i < n ==>
               && received[i] == (s.pending[i] && i in unblock)
               && (i in unblock ==> hs[i] == s.saved[i])
    ensures RaisedInOrder(received, hs, mask, n) == Deliveries(s, unblock, mask, n)
  {
    if n > 0 {
      SameDeliveries(s, hs, received, unblock, mask, n - 1);
    }
  }

  /** Every change of mask keeps the invariant. */
  lemma MaskedKeepsInv(s: Signals, target: SigSet, fail: SigSet)
    requires Inv(s)
    ensures Inv(Masked(s, target, fail))
  {
  }
}
