/**
 * The wire between the Java host (PGLite.java) and the guest (the pqcomm.c, elog.c and interactive_one.c patches).
 *
 * Requests are written into the contiguous memory area (CMA) at the bottom of the guest's linear memory, replies are
 * built right behind them, and a reply that does not fit is moved to a file in the middle of a write. Host and guest
 * each compute the reply's address from a counter of their own.
 *
 * The rest of the guest is not part of this model. What is assumed of it: the buffer address is 1;
 * interactive_write(n) sets cma_rsize and clears the reply length that interactive_read returns; pq_startmsgread
 * starts with an empty send buffer when it places it; internal_putbytes copies and advances by the amount it
 * computes; at the end of a tick a non-empty reply becomes visible, as a length in memory mode or as the reply
 * file and a negative channel in file mode, and the next reply starts from an empty send buffer; and linear memory is
 * at least twice the size of the CMA.
 */
module Transport {
  import opened Bytes

  const BUFFER_ADDR := 1
  const PQ_SEND_BUFFER_SIZE := 8192

  /** How a tick of the guest ends: normally, or in a trap that an SQL error flagged or that nothing explains. */
  datatype TickEnd = Finish | Trap(flagged: bool)

  datatype Op = Put(octets: bytes) | Flush

  /** What the unseen guest code does in a tick: the transport it starts in, what it leaves unread, what it sends. */
  datatype Tick = Tick(viaFile: bool, left: nat, ops: seq<Op>, end: TickEnd) {
    predicate Flags() {
      end.Trap? && end.flagged
    }
  }

  function Octets(op: Op): bytes {
    if op.Put? then op.octets else []
  }

  /** Everything that a list of operations puts, in order. */
  function Output(ops: seq<Op>): bytes {
    if ops == [] then [] else Output(ops[..|ops| - 1]) + Octets(ops[|ops| - 1])
  }

  lemma OutputTake(ops: seq<Op>, k: nat, before: bytes)
    requires k < |ops|
    ensures before + Output(ops[..k]) + Octets(ops[k]) == before + Output(ops[..k + 1])
  {
    assert ops[..k + 1][..k] == ops[..k];
  }

  /** Operations put their octets one after the other; a flush puts nothing. */
  lemma OutputMeaning(a: seq<Op>, b: seq<Op>, octets: bytes)
    ensures Output([]) == [] && Output([Put(octets)]) == octets && Output([Flush]) == []
    ensures Output(a + b) == Output(a) + Output(b)
  {
    OneOutput(Put(octets));
    OneOutput(Flush);
    OutputAppend(a, b);
  }

  lemma {:induction false} OutputAppend(a: seq<Op>, b: seq<Op>)
    ensures Output(a + b) == Output(a) + Output(b)
    decreases |b|
  {
    if b == [] {
      assert a + b == a;
    } else {
      var n := |b| - 1;
      OutputAppend(a, b[..n]);
      assert (a + b)[..|a + b| - 1] == a + b[..n];
      Regroup(Output(a), Output(b[..n]), Octets(b[n]));
    }
  }

  lemma OneOutput(op: Op)
    ensures Output([op]) == Octets(op)
  {
    assert [op][..0] == [];
  }

  // ------------------------------------------------------------------ placing

  function Min(a: nat, b: nat): nat {
    if a < b then a else b
  }

  /**
   * What decides where a tick builds its reply: the announced request length, how many request octets are unread, and
   * if there are any, the length of the request that the send buffer was placed behind.
   */
  datatype Link = Link(rsize: int, placed: int, unread: nat)

  /** A reply in memory is built behind this many octets. */
  function BuiltAt(l: Link): int {
    if l.unread == 0 then l.rsize else l.placed
  }

  /** A tick that starts drained can leave request octets unread if it reads from memory; any other one reads on. */
  function AfterTick(l: Link, t: Tick): Link {
    var unread := if l.unread > 0 then Min(t.left, l.unread)
                  else if t.viaFile || l.rsize < 0 then 0 else Min(t.left, l.rsize);
    Link(l.rsize, if unread == 0 then 0 else BuiltAt(l), unread)
  }

  /** A reply goes to the file if the tick starts in file mode or the send buffer is too small for it. */
  predicate ToFile(l: Link, viaFile: bool, len: nat, cma: nat) {
    viaFile || 2 + BuiltAt(l) + len > cma
  }

  /** What a tick's first read finds in the CMA: what was left unread, or else the announced request. */
  function FirstRead(l: Link, viaFile: bool, unread: bytes, request: bytes): Option<bytes> {
    if l.unread > 0 then Some(unread) else if viaFile then None else Some(request)
  }

  class Guest {
    const cma: nat                // CMA_MB * 1024 * 1024
    const mem: array<byte>        // linear memory
    var cmaRsize: int
    var replyLen: nat
    var channel: int
    var outFile: Option<bytes>
    var sockfiles: bool
    var sendBuffer: int           // PqSendBuffer, an address
    var sendBufferSize: int
    var sendPointer: nat
    var sendSaved: int            // PqSendBuffer_save, 0 when unset
    var socketFile: bytes         // what SOCKET_FILE holds
    var socketData: nat
    var recvBuffer: int
    var recvPointer: nat
    var recvLength: nat
    var errorFlag: bool

    /** The send buffer lies in the CMA behind the request, and the write position inside the buffer. */
    ghost predicate Placed()
      reads this
    {
      2 <= sendBuffer && sendBuffer + sendBufferSize == cma && sendPointer <= sendBufferSize
    }

    /** What holds whatever happened: unread octets are octets of a request in the CMA, with a send buffer behind it. */
    ghost predicate Sound()
      reads this
    {
      && 2 <= cma && 2 * cma <= mem.Length
      && recvPointer <= recvLength
      && (recvPointer < recvLength ==>
            && recvBuffer == BUFFER_ADDR && recvLength + 2 <= cma
            && 2 <= sendBuffer <= cma && sendBuffer + sendBufferSize == cma)
    }

    ghost predicate Valid()
      reads this
    {
      && Sound()
      && (!sockfiles ==> Placed() && socketFile == [] && socketData == sendPointer)
      && (sockfiles ==> socketData == |socketFile|)
    }

    /** The bytes of the reply under construction. */
    ghost function Reply(): bytes
      requires Valid()
      reads this, mem
    {
      if sockfiles then socketFile else mem[sendBuffer..sendBuffer + sendPointer]
    }

    /** No octet from here on has been written for the reply, nor any before the send buffer. */
    ghost function Reach(): int
      reads this
    {
      if sockfiles then cma else sendBuffer + sendPointer
    }

    /** The copy of line 177 to 179 of the patch: fills a part of the buffer that is free. */
    method CopyIn(chunk: bytes)
      requires Valid() && !sockfiles && sendPointer + |chunk| <= sendBufferSize
      modifies this`sendPointer, this`socketData, mem
      ensures Valid() && Reply() == old(Reply()) + chunk
      ensures forall i :: 0 <= i < mem.Length && (i < sendBuffer || Reach() <= i) ==> mem[i] == old(mem[i])
    {
      ghost var at := sendBuffer + sendPointer;
      assert at + |chunk| <= cma <= mem.Length;
      Copy(chunk, mem, sendBuffer + sendPointer);
      sendPointer := sendPointer + |chunk|;
      socketData := socketData + |chunk|;
      assert mem[sendBuffer..at + |chunk|] == mem[..at + |chunk|][sendBuffer..];
    }

    /** Lines 165 to 175: moves the full buffer to the file. */
    method Redirect()
      requires Valid() && !sockfiles
      modifies this`sockfiles, this`socketFile
      ensures Valid() && sockfiles && Reply() == old(Reply())
    {
      socketFile := socketFile + mem[sendBuffer..sendBuffer + sendPointer];
      sockfiles := true;
    }

    /** Lines 183 to 186. */
    method AppendToFile(rest: bytes)
      requires Valid() && sockfiles
      modifies this`socketFile, this`socketData
      ensures Valid() && Reply() == old(Reply()) + rest
    {
      socketFile := socketFile + rest;
      socketData := socketData + |rest|;
    }

    /**
     * internal_putbytes: fills the buffer, then moves everything to the file and goes on there. Whatever the lengths,
     * the reply grows by exactly the octets put, file mode starts exactly when the total exceeds the buffer, and
     * nothing outside the send buffer changes.
     */
    method PutBytes(s: bytes)
      requires Valid()
      modifies this`sockfiles, this`sendPointer, this`socketFile, this`socketData, mem
      ensures Valid()
      ensures Reply() == old(Reply()) + s && socketData == old(socketData) + |s|
      ensures old(!sockfiles) ==> (sockfiles <==> |Reply()| > sendBufferSize)
      ensures old(sockfiles) ==> sockfiles
      ensures forall i :: 0 <= i < mem.Length && (old(sockfiles) || i < sendBuffer || Reach() <= i) ==> mem[i] == old(mem[i])
    {
      var rest := s;
      if !sockfiles {
        ghost var before := Reply();
        ghost var copied: bytes := [];
        while |rest| > 0
          invariant Valid() && !sockfiles
          invariant s == copied + rest && Reply() == before + copied
          invariant forall i :: 0 <= i < mem.Length && (i < sendBuffer || Reach() <= i) ==> mem[i] == old(mem[i])
        {
          if sendPointer >= sendBufferSize {
            Redirect();
            break;
          }
          var amount := sendBufferSize - sendPointer;
          if amount > |rest| {
            amount := |rest|;
          }
          CopyIn(rest[..amount]);
          Split(before, copied, rest, amount);
          copied := copied + rest[..amount];
          rest := rest[amount..];
        }
        Split(before, copied, rest, 0);
      }
      if sockfiles {
        AppendToFile(rest);
      }
    }

    /** internal_flush: nothing to do on the raw wire, and nothing is lost in file mode. */
    method InternalFlush()
      requires Valid()
      modifies this`sendPointer
      ensures Valid() && Reply() == old(Reply())
    {
      if sockfiles {
        sendPointer := 0;
      }
    }

    method RunOp(op: Op)
      requires Valid()
      modifies this`sockfiles, this`sendPointer, this`socketFile, this`socketData, mem
      ensures Valid()
      ensures Reply() == old(Reply()) + Octets(op) && socketData == old(socketData) + |Octets(op)|
      ensures old(!sockfiles) ==> (sockfiles <==> |Reply()| > sendBufferSize)
      ensures old(sockfiles) ==> sockfiles
      ensures forall i :: 0 <= i < mem.Length && (old(sockfiles) || i < sendBuffer || Reach() <= i) ==> mem[i] == old(mem[i])
    {
      if op.Put? {
        PutBytes(op.octets);
      } else {
        InternalFlush();
      }
    }

    /**
     * Any sequence of puts and flushes: the reply grows by exactly what was put, in order; in memory mode it is the
     * buffer's contents, in file mode the file's; and file mode starts exactly when the total exceeds the buffer.
     */
    method RunOps(ops: seq<Op>)
      requires Valid()
      modifies this`sockfiles, this`sendPointer, this`socketFile, this`socketData, mem
      ensures Valid()
      ensures Reply() == old(Reply()) + Output(ops) && socketData == old(socketData) + |Output(ops)|
      ensures old(!sockfiles) ==> (sockfiles <==> |Reply()| > sendBufferSize)
      ensures old(sockfiles) ==> sockfiles
      ensures forall i :: 0 <= i < mem.Length && (old(sockfiles) || i < sendBuffer || Reach() <= i) ==> mem[i] == old(mem[i])
    {
      ghost var before := Reply();
      for k := 0 to |ops|
        invariant Valid()
        invariant Reply() == before + Output(ops[..k])
        invariant old(!sockfiles) ==> (sockfiles <==> |Reply()| > sendBufferSize)
        invariant old(sockfiles) ==> sockfiles
        invariant forall i :: 0 <= i < mem.Length && (old(sockfiles) || i < sendBuffer || Reach() <= i) ==> mem[i] == old(mem[i])
      {
        RunOp(ops[k]);
        OutputTake(ops, k, before);
      }
      assert ops[..|ops|] == ops;
    }

    // ------------------------------------------------------------- receiving

    predicate Drained()
      reads this
    {
      recvPointer >= recvLength
    }

    ghost function UnreadCount(): nat
      requires recvPointer <= recvLength
      reads this
    {
      recvLength - recvPointer
    }

    /** The request octets that the guest has not read yet. */
    ghost function Unread(): bytes
      requires Sound()
      reads this, mem
    {
      if Drained() then [] else mem[BUFFER_ADDR + recvPointer..BUFFER_ADDR + recvLength]
    }

    /** The announced request, as it stands in the CMA. */
    ghost function Request(): bytes
      requires Sound() && Counted()
      reads this, mem
    {
      mem[BUFFER_ADDR..BUFFER_ADDR + cmaRsize]
    }

    /** The announced request fits into the CMA. */
    ghost predicate Counted()
      reads this
    {
      0 <= cmaRsize && cmaRsize + 2 <= cma
    }

    /** The send buffer starts where a host that counts `n` request octets looks for the reply. */
    predicate AgreesWith(n: int)
      reads this
    {
      sendBuffer == 2 + n
    }

    /** What decides where the next reply is built. */
    ghost function Now(): Link
      requires recvPointer <= recvLength
      reads this
    {
      Link(cmaRsize, if Drained() then 0 else sendBuffer - 2, recvLength - recvPointer)
    }

    /**
     * pq_startmsgread: only when the receive buffer is drained does it look at the transport and place the buffers.
     * So the send buffer is where the host will look exactly when the buffer was drained, or happened to be there.
     */
    method StartMsgRead()
      requires 0 <= cmaRsize && cmaRsize + 2 <= cma
      modifies this`recvPointer, this`recvLength, this`recvBuffer, this`sendBuffer, this`sendBufferSize,
               this`sendPointer, this`sendSaved
      ensures !sockfiles ==> (AgreesWith(cmaRsize) <==> old(Drained()) || old(AgreesWith(cmaRsize)))
      ensures old(Drained()) && !sockfiles ==>
                && Placed() && sendPointer == 0
                && recvBuffer == BUFFER_ADDR && recvPointer == 0 && recvLength == cmaRsize
      ensures old(Drained()) && sockfiles ==>
                recvPointer == old(recvPointer) && recvLength == old(recvLength) && sendPointer == old(sendPointer)
      ensures !old(Drained()) ==>
                unchanged(`recvPointer, `recvLength, `recvBuffer, `sendBuffer, `sendBufferSize, `sendPointer, `sendSaved)
    {
      if !(recvPointer < recvLength) {
        if sockfiles {
          recvBuffer := -1;       // PqRecvBuffer_static, outside the CMA
          if sendSaved != 0 {
            sendBuffer := sendSaved;
          }
          sendBufferSize := PQ_SEND_BUFFER_SIZE;
        } else {
          recvPointer := 0;
          recvLength := cmaRsize;
          recvBuffer := BUFFER_ADDR;
          sendPointer := 0;
          sendSaved := sendBuffer;
          sendBuffer := 2 + cmaRsize;
          sendBufferSize := cma - sendBuffer;
        }
      }
    }

    /** The drain loop of interactive_one.c.diff: reads what a failed batch left in the receive buffer. */
    method Drain()
      requires Valid()
      modifies this`recvPointer
      ensures Valid() && Drained()
    {
      while recvPointer < recvLength
        invariant Valid()
      {
        recvPointer := recvPointer + 1;
      }
    }

    // ------------------------------------------------------------ host's view

    /** A finished reply waits to be collected. */
    predicate HasReply()
      reads this
    {
      if channel < 0 then outFile.Some? else replyLen > 0
    }

    /** interactive_write. */
    method InteractiveWrite(n: int)
      modifies this`cmaRsize, this`replyLen
      ensures cmaRsize == n && replyLen == 0
    {
      cmaRsize := n;
      replyLen := 0;
    }

    /** pgl_check_error: reads the flag and resets it. */
    method PglCheckError() returns (val: int)
      modifies this`errorFlag
      ensures val == (if old(errorFlag) then 1 else 0) && !errorFlag
    {
      val := if errorFlag then 1 else 0;
      errorFlag := false;
    }

    /** The waiting reply is `out`: the reply file, or in memory behind `n` request octets; none waits if it is empty. */
    ghost predicate Offers(out: bytes, n: int)
      reads this, mem
    {
      && (HasReply() <==> out != [])
      && (HasReply() && channel < 0 ==> outFile == Some(out))
      && (HasReply() && channel >= 0 ==>
            && 0 <= n && 2 + n + |out| <= cma <= mem.Length
            && replyLen == |out| && mem[2 + n..2 + n + |out|] == out)
    }

    /**
     * `piece` is what a host that counts `n` request octets took for the reply `out`: the reply if it went to the file,
     * or else what memory holds where the host looked, while the reply stands where it was built.
     */
    ghost predicate Taken(piece: bytes, out: bytes, built: int, n: int, viaFile: bool)
      requires 0 <= n && n + 2 <= cma && 0 <= built && 2 * cma <= mem.Length
      reads this, mem
    {
      if viaFile || 2 + built + |out| > cma then piece == out
      else mem[2 + built..2 + built + |out|] == out && piece == mem[2 + n..2 + n + |out|]
    }

    /** Memory holds the first `upto` octets of `m`. */
    ghost predicate Holds(m: bytes, upto: nat)
      reads mem
    {
      upto <= |m| == mem.Length && forall i :: 0 <= i < upto ==> mem[i] == m[i]
    }

    /** What memory holds where the host looks is `m` with the reply written over it. */
    lemma TakenIsView(l: Link, viaFile: bool, out: bytes, piece: bytes, m: bytes)
      requires Ranged(l, cma, m) && |m| == mem.Length
      requires Taken(piece, out, BuiltAt(l), l.rsize, viaFile)
      requires !ToFile(l, viaFile, |out|, cma) ==>
                 forall i :: 2 + l.rsize <= i < 2 + l.rsize + |out| && (i < 2 + BuiltAt(l) || 2 + BuiltAt(l) + |out| <= i)
                   ==> mem[i] == m[i]
      ensures piece == View(l, viaFile, out, cma, m)
    {
      if !ToFile(l, viaFile, |out|, cma) {
        InMemory(2 + BuiltAt(l), 2 + l.rsize, out, m);
      }
    }

    lemma InMemory(at: nat, from: nat, out: bytes, m: bytes)
      requires at + |out| <= mem.Length == |m| && from + |out| <= |m| && mem[at..at + |out|] == out
      requires forall i :: from <= i < from + |out| && (i < at || at + |out| <= i) ==> mem[i] == m[i]
      ensures mem[from..from + |out|] == Overlay(m, at, out)[from..from + |out|]
    {
      SliceOf(mem, at, at + |out|);
      SliceOf(mem, from, from + |out|);
      OverlaySlice(mem[..], m, at, from, out);
    }

    /** The state between ticks: nothing under construction and nothing waiting. */
    ghost predicate Quiet()
      reads this
    {
      Valid() && socketData == 0 && sendPointer == 0 && !HasReply()
    }

    /** The state after boot. */
    constructor (size: nat)
      requires 2 <= size
      ensures cma == size && Quiet() && Drained() && !errorFlag && cmaRsize == 0 && fresh(mem)
    {
      cma := size;
      mem := new byte[2 * size](_ => 0);
      cmaRsize, replyLen, channel, outFile := 0, 0, 0, None;
      sockfiles, sendBuffer, sendBufferSize, sendPointer, sendSaved := false, 2, size - 2, 0, 0;
      socketFile, socketData := [], 0;
      recvBuffer, recvPointer, recvLength, errorFlag := BUFFER_ADDR, 0, 0, false;
    }

    /** The end of a tick makes a non-empty reply visible to the host and starts a new one. */
    method Publish(ghost n: int)
      requires Valid() && !HasReply() && (!sockfiles ==> AgreesWith(n))
      modifies this`replyLen, this`channel, this`outFile, this`socketFile, this`socketData, this`sendPointer
      ensures Valid() && socketData == 0 && sendPointer == 0
      ensures Offers(old(Reply()), n)
      ensures HasReply() ==> (channel < 0 <==> sockfiles)
    {
      if socketData > 0 {
        if sockfiles {
          outFile := Some(socketFile);
          channel := -1;
        } else {
          replyLen := socketData;
          channel := 0;
        }
      }
      socketFile := [];
      socketData := 0;
      sendPointer := 0;
    }

    /**
     * The second half of a tick: sends, then ends. The reply `out`, which may have been begun before, is offered once:
     * as the file exactly when it started there or does not fit, or else where it was built.
     */
    method Answer(t: Tick, ghost n: int, ghost out: bytes) returns (trapped: bool)
      requires Valid() && !HasReply() && 0 <= n && n + 2 <= cma && (!sockfiles ==> AgreesWith(n))
      requires Reply() + Output(t.ops) == out
      modifies this`sockfiles, this`sendPointer, this`socketFile, this`socketData, this`replyLen, this`channel,
               this`outFile, this`errorFlag, mem
      ensures Valid() && (!sockfiles ==> AgreesWith(n))
      ensures trapped == t.end.Trap? && errorFlag == (old(errorFlag) || t.Flags())
      ensures trapped ==> !HasReply() && Reply() == out
      ensures !trapped ==> socketData == 0 && sendPointer == 0 && Offers(out, n)
      ensures !trapped && out != [] ==> (channel < 0 <==> sockfiles)
      ensures sockfiles <==> old(sockfiles) || 2 + n + |out| > cma
      ensures Now() == old(Now())
      ensures forall i :: 0 <= i < mem.Length && (i < 2 + n || (!sockfiles && 2 + n + |out| <= i)) ==> mem[i] == old(mem[i])
    {
      RunOps(t.ops);
      if t.end.Trap? {
        errorFlag := errorFlag || t.end.flagged;
        return true;
      }
      Publish(n);
      return false;
    }

    /** The start of a tick: what its first read finds in the CMA, from any state. */
    method BeginRead(viaFile: bool) returns (ghost seen: Option<bytes>)
      requires Sound() && Counted()
      modifies this`sockfiles, this`recvPointer, this`recvLength, this`recvBuffer, this`sendBuffer,
               this`sendBufferSize, this`sendPointer, this`sendSaved
      ensures Sound() && sockfiles == viaFile
      ensures seen == FirstRead(old(Now()), viaFile, old(Unread()), old(Request()))
      ensures recvLength - recvPointer == if old(Drained()) && !viaFile then cmaRsize else old(recvLength - recvPointer)
      ensures !viaFile || !old(Drained()) ==> sendBuffer == 2 + BuiltAt(old(Now())) && sendBuffer + sendBufferSize == cma
      ensures sendPointer == 0 || sendPointer == old(sendPointer)
    {
      sockfiles := viaFile;
      StartMsgRead();
      assert cmaRsize == 0 ==> Request() == [];
      seen := if recvPointer < recvLength then Some(Unread()) else if sockfiles then None else Some([]);
    }

    /** The first half of a tick: begins reading and leaves at most `left` octets unread. */
    method ReadRequest(t: Tick, ghost l: Link) returns (ghost seen: Option<bytes>)
      requires Quiet() && Counted() && l == Now()
      modifies this`sockfiles, this`recvPointer, this`recvLength, this`recvBuffer, this`sendBuffer,
               this`sendBufferSize, this`sendPointer, this`sendSaved
      ensures Valid() && sockfiles == t.viaFile && Reply() == [] && !HasReply()
      ensures seen == FirstRead(l, t.viaFile, old(Unread()), old(Request()))
      ensures 0 <= BuiltAt(l) && BuiltAt(l) + 2 <= cma && (!sockfiles ==> AgreesWith(BuiltAt(l)))
      ensures Now() == AfterTick(l, t) && errorFlag == old(errorFlag)
    {
      assert socketFile == [];
      seen := BeginRead(t.viaFile);
      var remaining := recvLength - recvPointer;
      recvPointer := recvPointer + if t.left < remaining then remaining - t.left else 0;
    }

    /** A tick, from any state between ticks: `seen` is what its first read finds in the CMA. */
    method InteractiveOne(t: Tick, ghost l: Link) returns (trapped: bool, ghost seen: Option<bytes>)
      requires Quiet() && Counted() && l == Now()
      modifies this, mem
      ensures Valid() && Now() == AfterTick(l, t) && (!sockfiles ==> AgreesWith(BuiltAt(l)))
      ensures trapped == t.end.Trap? && errorFlag == (old(errorFlag) || t.Flags())
      ensures seen == FirstRead(l, t.viaFile, old(Unread()), old(Request()))
      ensures trapped ==> !HasReply() && Reply() == Output(t.ops)
      ensures !trapped ==> socketData == 0 && sendPointer == 0 && Offers(Output(t.ops), BuiltAt(l))
      ensures !trapped && Output(t.ops) != [] ==> (channel < 0 <==> sockfiles)
      ensures sockfiles <==> ToFile(l, t.viaFile, |Output(t.ops)|, cma)
      ensures forall i :: 0 <= i < mem.Length && (i < 2 + BuiltAt(l) || (!sockfiles && 2 + BuiltAt(l) + |Output(t.ops)| <= i))
                ==> mem[i] == old(mem[i])
    {
      seen := ReadRequest(t, l);
      FirstOf(Reply(), Output(t.ops));
      trapped := Answer(t, BuiltAt(l), Output(t.ops));
    }

    /**
     * The tick after interactive_write(-1): drains the failed batch and finishes the reply `out` that was begun before
     * the trap.
     */
    method ResumeOnError(t: Tick, ghost n: int, ghost out: bytes) returns (trapped: bool)
      requires Valid() && !HasReply() && 0 <= n && n + 2 <= cma && (!sockfiles ==> AgreesWith(n))
      requires Reply() + Output(t.ops) == out
      modifies this`recvPointer, this`sockfiles, this`sendPointer, this`socketFile, this`socketData, this`replyLen,
               this`channel, this`outFile, this`errorFlag, mem
      ensures Valid() && Drained()
      ensures trapped == t.end.Trap? && errorFlag == (old(errorFlag) || t.Flags())
      ensures trapped ==> !HasReply()
      ensures !trapped ==> socketData == 0 && sendPointer == 0 && Offers(out, n)
      ensures !trapped && out != [] ==> (channel < 0 <==> sockfiles)
      ensures sockfiles <==> old(sockfiles) || 2 + n + |out| > cma
      ensures forall i :: 0 <= i < mem.Length && (i < 2 + n || (!sockfiles && 2 + n + |out| <= i)) ==> mem[i] == old(mem[i])
    {
      Drain();
      trapped := Answer(t, n, out);
    }
  }

  lemma SliceOf(a: array<byte>, lo: nat, hi: nat)
    requires lo <= hi <= a.Length
    ensures a[..][lo..hi] == a[lo..hi]
  {
  }

  lemma FirstOf(begun: bytes, rest: bytes)
    requires begun == []
    ensures begun + rest == rest
  {
  }

  lemma Split(before: bytes, copied: bytes, rest: bytes, amount: nat)
    requires amount <= |rest|
    ensures before + copied + rest[..amount] == before + (copied + rest[..amount])
    ensures copied + rest == copied + rest[..amount] + rest[amount..]
    ensures before + copied + rest == before + (copied + rest)
  {
  }

  // ------------------------------------------------------- what a call collects

  /** What the first `n` ticks put, in order. */
  ghost function OutUpTo(script: nat -> Tick, n: nat): bytes {
    Flatten(Outputs(script, n))
  }

  ghost function Outputs(script: nat -> Tick, n: nat): seq<bytes> {
    seq(n, i requires 0 <= i => Output(script(i).ops))
  }

  const MAX_TICKS := 256

  /** What one turn of the tick loop decides. */
  datatype Turning = Again | Quiesce | Recovered | Throw

  /** A tick that sends nothing ends the loop; so does a trap, which is recovered if it was flagged and `next` finishes. */
  ghost function Rule(t: Tick, next: Tick): Turning {
    match t.end
    case Finish => if Output(t.ops) == [] then Quiesce else Again
    case Trap(flagged) => if flagged && next.end.Finish? then Recovered else Throw
  }

  ghost function RuleAt(script: nat -> Tick, k: nat): Turning {
    Rule(script(k), script(k + 1))
  }

  ghost predicate AllAgain(script: nat -> Tick, n: nat) {
    forall i :: 0 <= i < n ==> RuleAt(script, i) == Again
  }

  lemma AllAgainSnoc(script: nat -> Tick, n: nat)
    requires AllAgain(script, n)
    ensures AllAgain(script, n + 1) <==> RuleAt(script, n) == Again
  {
  }

  /** The loop goes on for exactly `n` turns before a turn ends it, or the bound does. */
  ghost predicate RunsFor(script: nat -> Tick, n: nat) {
    && n <= MAX_TICKS
    && AllAgain(script, n)
    && (n < MAX_TICKS ==> RuleAt(script, n) != Again)
  }

  /** All that the guest puts in a call whose loop goes on for `n` turns, or None if the call throws. */
  ghost function Collected(script: nat -> Tick, n: nat): Option<bytes> {
    if n == MAX_TICKS then Some(OutUpTo(script, n))
    else
      match RuleAt(script, n)
      case Throw => None
      case Recovered => Some(OutUpTo(script, n + 2))
      case _ => Some(OutUpTo(script, n + 1))
  }

  /** The reply of one turn: what its tick puts, and its recovery tick if it has one. */
  ghost function Owed(t: Tick, next: Tick): bytes {
    if Rule(t, next) == Recovered then Output(t.ops) + Output(next.ops) else Output(t.ops)
  }

  ghost function OwedAt(script: nat -> Tick, k: nat): bytes {
    Owed(script(k), script(k + 1))
  }

  /** The number of turns, counting the one that ends the loop. */
  function TurnCount(n: nat): nat {
    if n == MAX_TICKS then n else n + 1
  }

  function Max(a: int, b: int): int {
    if a < b then b else a
  }

  /** The link at the start of turn `k`: collecting a reply zeroes the announced length. */
  ghost function LinkAt(script: nat -> Tick, l: Link, k: nat): (r: Link)
    ensures k > 0 ==> r.rsize == 0
    ensures 0 <= l.rsize && 0 <= l.placed ==> 0 <= r.rsize <= Max(l.rsize, l.placed) && 0 <= r.placed <= Max(l.rsize, l.placed)
  {
    if k == 0 then l else AfterTick(LinkAt(script, l, k - 1), script(k - 1)).(rsize := 0)
  }

  /** `m` with `out` written at `at`. */
  function Overlay(m: bytes, at: nat, out: bytes): (r: bytes)
    requires at + |out| <= |m|
    ensures |r| == |m|
    ensures forall i :: 0 <= i < |m| ==> r[i] == if at <= i < at + |out| then out[i - at] else m[i]
  {
    m[..at] + out + m[at + |out|..]
  }

  /** What a memory that agrees with the overlay where it matters holds there. */
  lemma OverlaySlice(a: bytes, m: bytes, at: nat, from: nat, out: bytes)
    requires |a| == |m| && at + |out| <= |m| && from + |out| <= |m| && a[at..at + |out|] == out
    requires forall i :: from <= i < from + |out| && (i < at || at + |out| <= i) ==> a[i] == m[i]
    ensures a[from..from + |out|] == Overlay(m, at, out)[from..from + |out|]
  {
    forall i | from <= i < from + |out|
      ensures a[i] == Overlay(m, at, out)[i]
    {
      if at <= i < at + |out| {
        assert a[at..at + |out|][i - at] == out[i - at];
      }
    }
  }

  /** The lengths of a link lie in the CMA, and `m` is as large as linear memory. */
  ghost predicate Ranged(l: Link, cma: nat, m: bytes) {
    0 <= l.rsize && l.rsize + 2 <= cma && 0 <= l.placed && l.placed + 2 <= cma && 2 * cma <= |m|
  }

  /**
   * What the host takes for the reply `out` of a tick: the reply if it went to the file, or else as many octets from
   * right behind the announced request, in memory `m` with the reply written where it was built.
   */
  ghost function View(l: Link, viaFile: bool, out: bytes, cma: nat, m: bytes): (piece: bytes)
    requires Ranged(l, cma, m)
    ensures |piece| == |out|
  {
    if ToFile(l, viaFile, |out|, cma) then out
    else Overlay(m, 2 + BuiltAt(l), out)[2 + l.rsize..2 + l.rsize + |out|]
  }

  /** The reply is where the host looks: in the file, or in memory right behind the announced request. */
  predicate Matches(l: Link, viaFile: bool, len: nat, cma: nat) {
    ToFile(l, viaFile, len, cma) || l.unread == 0 || l.placed == l.rsize
  }

  lemma MatchedView(l: Link, viaFile: bool, out: bytes, cma: nat, m: bytes)
    requires Ranged(l, cma, m) && Matches(l, viaFile, |out|, cma)
    ensures View(l, viaFile, out, cma, m) == out
  {
  }

  /**
   * What the host takes for the reply of turn `k` of a call that starts with link `l` and memory `m`. While octets are
   * unread nothing before the send buffer changes, so `m` decides this for every turn.
   */
  ghost function HostSees(script: nat -> Tick, l: Link, m: bytes, cma: nat, k: nat): (piece: bytes)
    requires Ranged(l, cma, m)
    ensures |piece| == |OwedAt(script, k)|
  {
    View(LinkAt(script, l, k), script(k).viaFile, OwedAt(script, k), cma, m)
  }

  /** What the host takes in the first `n` turns. */
  ghost function Views(script: nat -> Tick, l: Link, m: bytes, cma: nat, n: nat): (pieces: seq<bytes>)
    requires Ranged(l, cma, m)
    ensures |pieces| == n
  {
    seq(n, k requires 0 <= k => HostSees(script, l, m, cma, k))
  }

  ghost predicate MatchesAt(script: nat -> Tick, l: Link, cma: nat, k: nat) {
    Matches(LinkAt(script, l, k), script(k).viaFile, |OwedAt(script, k)|, cma)
  }

  /** The parts that are not empty. */
  ghost function NonEmpty(parts: seq<bytes>): seq<bytes> {
    if parts == [] then []
    else
      var last := parts[|parts| - 1];
      NonEmpty(parts[..|parts| - 1]) + if last != [] then [last] else []
  }

  lemma {:induction false} NonEmptyFlatten(parts: seq<bytes>)
    ensures Flatten(NonEmpty(parts)) == Flatten(parts)
  {
    if parts != [] {
      var n := |parts| - 1;
      NonEmptyFlatten(parts[..n]);
      if parts[n] != [] {
        FlattenSnoc(NonEmpty(parts[..n]), parts[n]);
      } else {
        assert NonEmpty(parts) == NonEmpty(parts[..n]);
      }
    }
  }

  lemma ViewsSnoc(script: nat -> Tick, l: Link, m: bytes, cma: nat, n: nat, replies: seq<bytes>, replies': seq<bytes>)
    requires Ranged(l, cma, m) && replies == NonEmpty(Views(script, l, m, cma, n))
    requires replies' == replies + if OwedAt(script, n) != [] then [HostSees(script, l, m, cma, n)] else []
    ensures replies' == NonEmpty(Views(script, l, m, cma, n + 1))
  {
    assert Views(script, l, m, cma, n + 1)[..n] == Views(script, l, m, cma, n);
  }

  /** After a collected reply the next one is built no further on. */
  lemma BuiltNext(l: Link, t: Tick)
    requires 0 <= l.rsize && 0 <= l.placed
    ensures 0 <= BuiltAt(AfterTick(l, t).(rsize := 0)) <= BuiltAt(l)
  {
  }

  ghost predicate Throws(script: nat -> Tick, n: nat) {
    n < MAX_TICKS && RuleAt(script, n) == Throw
  }

  /** If the call recovers from an error, the failed batch gets an answer. */
  ghost predicate Answered(script: nat -> Tick, n: nat) {
    n < MAX_TICKS && RuleAt(script, n) == Recovered ==> OwedAt(script, n) != []
  }

  /** The link after a message has been announced; an empty message is not. */
  function Announced(l: Link, message: bytes): Link {
    if message == [] then l else l.(rsize := |message|)
  }

  /** Every reply of a call whose loop goes on for `n` turns is where the host looks. */
  ghost predicate AllMatch(script: nat -> Tick, l: Link, cma: nat, n: nat) {
    forall k :: 0 <= k < TurnCount(n) ==> MatchesAt(script, l, cma, k)
  }

  /** How many request octets a call whose loop goes on for `n` turns leaves unread. */
  ghost function UnreadAfter(script: nat -> Tick, l: Link, n: nat): nat {
    if n == MAX_TICKS then LinkAt(script, l, n).unread
    else if script(n).Flags() then 0
    else AfterTick(LinkAt(script, l, n), script(n)).unread
  }

  ghost predicate DrainedAfter(script: nat -> Tick, l: Link, n: nat) {
    UnreadAfter(script, l, n) == 0
  }

  /** Whether the error flag is set after the call: the recovery tick itself trapped on an error. */
  ghost predicate FlaggedAfter(script: nat -> Tick, n: nat) {
    Throws(script, n) && script(n).Flags() && script(n + 1).Flags()
  }

  lemma OutStep(script: nat -> Tick, n: nat)
    ensures OutUpTo(script, n + 1) == OutUpTo(script, n) + Output(script(n).ops)
  {
    assert Outputs(script, n + 1) == Outputs(script, n) + [Output(script(n).ops)];
    FlattenSnoc(Outputs(script, n), Output(script(n).ops));
  }

  lemma OwedPrefix(script: nat -> Tick, n: nat, pieces: seq<bytes>)
    requires n <= |pieces| && RunsFor(script, n)
    requires forall k :: 0 <= k < n ==> pieces[k] == OwedAt(script, k)
    ensures Flatten(pieces[..n]) == OutUpTo(script, n)
  {
    forall k | 0 <= k < n
      ensures pieces[k] == Output(script(k).ops)
    {
      assert RuleAt(script, k) == Again;
    }
    assert pieces[..n] == Outputs(script, n);
  }

  lemma OwedLast(script: nat -> Tick, n: nat)
    requires n < MAX_TICKS && RuleAt(script, n) != Throw
    ensures Collected(script, n) == Some(OutUpTo(script, n) + OwedAt(script, n))
  {
    OutStep(script, n);
    OutStep(script, n + 1);
    Regroup(OutUpTo(script, n), Output(script(n).ops), Output(script(n + 1).ops));
  }

  lemma JoinLast(pieces: seq<bytes>, n: nat, before: bytes, last: bytes, all: Option<bytes>)
    requires |pieces| == n + 1 && Flatten(pieces[..n]) == before && pieces[n] == last && all == Some(before + last)
    ensures all == Some(Flatten(pieces))
  {
    assert pieces == pieces[..n] + [pieces[n]];
    FlattenSnoc(pieces[..n], pieces[n]);
  }

  lemma Regroup(a: bytes, b: bytes, c: bytes)
    ensures a + b + c == a + (b + c)
  {
  }

  /** The replies of all turns together are everything that the guest put. */
  lemma OwedIsCollected(script: nat -> Tick, n: nat, pieces: seq<bytes>)
    requires RunsFor(script, n) && !Throws(script, n) && AllOwed(script, TurnCount(n), pieces)
    ensures Collected(script, n) == Some(Flatten(pieces))
  {
    OwedPrefix(script, n, pieces);
    if n == MAX_TICKS {
      assert pieces[..n] == pieces;
    } else {
      OwedLast(script, n);
      JoinLast(pieces, n, OutUpTo(script, n), OwedAt(script, n), Collected(script, n));
    }
  }

  lemma {:induction false} SameCut(a: seq<bytes>, b: seq<bytes>)
    requires |a| == |b| && Flatten(a) == Flatten(b)
    requires forall i :: 0 <= i < |a| ==> |a[i]| == |b[i]|
    ensures a == b
    decreases |a|
  {
    if a != [] {
      var n := |a| - 1;
      var front, front' := Flatten(a[..n]), Flatten(b[..n]);
      assert Flatten(a) == front + a[n] && Flatten(b) == front' + b[n];
      SameEnd(front, a[n], front', b[n]);
      SameCut(a[..n], b[..n]);
      assert a == a[..n] + [a[n]] && b == b[..n] + [b[n]];
    }
  }

  lemma SameEnd(a: bytes, x: bytes, b: bytes, y: bytes)
    requires a + x == b + y && |x| == |y|
    ensures a == b && x == y
  {
    assert a == (a + x)[..|a|] && b == (b + y)[..|b|];
    assert x == (a + x)[|a|..] && y == (b + y)[|b|..];
  }

  ghost predicate AllOwed(script: nat -> Tick, n: nat, pieces: seq<bytes>) {
    |pieces| == n && forall k :: 0 <= k < n ==> pieces[k] == OwedAt(script, k)
  }

  ghost function OwedList(script: nat -> Tick, n: nat): (owed: seq<bytes>)
    ensures AllOwed(script, n, owed)
  {
    seq(n, k requires 0 <= k => OwedAt(script, k))
  }

  /**
   * Exactly when a call that returns returns everything that the guest put: when in every turn what the host takes is
   * the reply. The script, the link and the memory after the announcement decide it.
   */
  lemma ResultIsCollected(script: nat -> Tick, l: Link, m: bytes, cma: nat, n: nat)
    requires RunsFor(script, n) && !Throws(script, n) && Ranged(l, cma, m)
    ensures Some(Flatten(Views(script, l, m, cma, TurnCount(n)))) == Collected(script, n) <==>
            forall k :: 0 <= k < TurnCount(n) ==> HostSees(script, l, m, cma, k) == OwedAt(script, k)
  {
    var owed, pieces := OwedList(script, TurnCount(n)), Views(script, l, m, cma, TurnCount(n));
    OwedIsCollected(script, n, owed);
    SamePieces(script, l, m, cma, TurnCount(n), pieces, owed);
    if Flatten(pieces) == Flatten(owed) {
      SameCut(pieces, owed);
    }
  }

  lemma SamePieces(script: nat -> Tick, l: Link, m: bytes, cma: nat, n: nat, pieces: seq<bytes>, owed: seq<bytes>)
    requires Ranged(l, cma, m) && pieces == Views(script, l, m, cma, n) && AllOwed(script, n, owed)
    ensures pieces == owed <==> forall k :: 0 <= k < n ==> HostSees(script, l, m, cma, k) == OwedAt(script, k)
    ensures forall k :: 0 <= k < n ==> |pieces[k]| == |owed[k]|
  {
    assert forall k :: 0 <= k < n ==> pieces[k] == HostSees(script, l, m, cma, k) && owed[k] == OwedAt(script, k);
  }

  /** If every reply is where the host looks, the call returns everything that the guest put. */
  lemma MatchedCall(script: nat -> Tick, l: Link, m: bytes, cma: nat, n: nat)
    requires RunsFor(script, n) && !Throws(script, n) && Ranged(l, cma, m) && AllMatch(script, l, cma, n)
    ensures Collected(script, n) == Some(Flatten(Views(script, l, m, cma, TurnCount(n))))
  {
    ResultIsCollected(script, l, m, cma, n);
    forall k | 0 <= k < TurnCount(n)
      ensures HostSees(script, l, m, cma, k) == OwedAt(script, k)
    {
      assert MatchesAt(script, l, cma, k);
      MatchedView(LinkAt(script, l, k), script(k).viaFile, OwedAt(script, k), cma, m);
    }
  }

  /** Every one of the first `n` calls left nothing unread. */
  ghost predicate Undisturbed(messages: seq<bytes>, scripts: seq<nat -> Tick>, turns: seq<nat>, n: nat)
    requires n <= |turns| <= |messages| == |scripts|
  {
    forall i :: 0 <= i < n ==> DrainedAfter(scripts[i], Link(|messages[i]|, 0, 0), turns[i])
  }

  lemma UndisturbedSnoc(messages: seq<bytes>, scripts: seq<nat -> Tick>, turns: seq<nat>, count: nat)
    requires |turns| < |messages| == |scripts|
    ensures forall n :: 0 <= n <= |turns| ==>
              (Undisturbed(messages, scripts, turns + [count], n) <==> Undisturbed(messages, scripts, turns, n))
    ensures var n := |turns|;
      Undisturbed(messages, scripts, turns + [count], n + 1) <==>
      Undisturbed(messages, scripts, turns, n) && DrainedAfter(scripts[n], Link(|messages[n]|, 0, 0), count)
  {
    var turns' := turns + [count];
    assert forall i :: 0 <= i < |turns| ==> turns'[i] == turns[i];
  }

  /** The call read its own message first and returned what its own script puts. */
  ghost predicate IsOwn(message: bytes, script: nat -> Tick, cma: nat, result: bytes, n: nat, seen: Option<bytes>) {
    && RunsFor(script, n) && !Throws(script, n)
    && seen == (if script(0).viaFile then None else Some(message))
    && (AllMatch(script, Link(|message|, 0, 0), cma, n) ==> Some(result) == Collected(script, n))
  }

  /** A guest that reads all it is given, drained from the start on, has every reply where the host looks. */
  lemma ReadersMatch(script: nat -> Tick, l: Link, cma: nat, n: nat)
    requires l.unread == 0 && forall i: nat :: i < n ==> script(i).left == 0 || script(i).viaFile
    ensures AllMatch(script, l, cma, n)
  {
    forall k: nat | k < TurnCount(n)
      ensures MatchesAt(script, l, cma, k)
    {
      ReadersDrain(script, l, n, k);
    }
  }

  lemma {:induction false} ReadersDrain(script: nat -> Tick, l: Link, n: nat, k: nat)
    requires l.unread == 0 && k <= n && forall i: nat :: i < n ==> script(i).left == 0 || script(i).viaFile
    ensures LinkAt(script, l, k).unread == 0
  {
    if k > 0 {
      ReadersDrain(script, l, n, k - 1);
    }
  }

  /** A tick that finishes and sends something. */
  ghost predicate Sends(t: Tick) {
    t.end.Finish? && Output(t.ops) != []
  }

  ghost predicate AllSend(script: nat -> Tick, n: nat) {
    forall i :: 0 <= i < n ==> Sends(script(i))
  }

  /**
   * What a call does, in plain terms: it goes on as long as ticks send something, for 256 ticks at most. It throws if
   * the first other tick traps, unless an error was flagged and the tick after it finishes. If every reply is `matched`
   * it returns all that these ticks put.
   */
  ghost predicate GoesOn(script: nat -> Tick, turns: nat, matched: bool, r: Option<bytes>) {
    && (AllSend(script, 256) ==> turns == 256 && r.Some? && (matched ==> r.value == OutUpTo(script, 256)))
    && forall n: nat :: n < 256 && AllSend(script, n) && !Sends(script(n)) ==>
         && turns == n
         && (r.None? <==> script(n).end.Trap? && !(script(n).end.flagged && script(n + 1).end.Finish?))
         && (r.Some? && matched ==> r.value == OutUpTo(script, if script(n).end.Finish? then n else n + 2))
  }

  lemma SendsAreAgain(script: nat -> Tick, n: nat)
    ensures AllSend(script, n) <==> AllAgain(script, n)
    ensures Sends(script(n)) <==> RuleAt(script, n) == Again
  {
    forall i | 0 <= i < n
      ensures Sends(script(i)) <==> RuleAt(script, i) == Again
    {
    }
  }

  lemma SameTurns(script: nat -> Tick, m: nat, n: nat)
    requires RunsFor(script, m) && RunsFor(script, n)
    ensures m == n
  {
  }

  lemma LoopGoesOn(script: nat -> Tick, turns: nat, matched: bool, r: Option<bytes>)
    requires RunsFor(script, turns) && (r.None? <==> Throws(script, turns))
    requires r.Some? && matched ==> r == Collected(script, turns)
    ensures GoesOn(script, turns, matched, r)
  {
    SendsAreAgain(script, 256);
    if AllSend(script, 256) {
      SameTurns(script, turns, 256);
    }
    forall n: nat | n < 256 && AllSend(script, n) && !Sends(script(n))
      ensures turns == n
      ensures r.None? <==> script(n).end.Trap? && !(script(n).end.flagged && script(n + 1).end.Finish?)
      ensures r.Some? && matched ==> r.value == OutUpTo(script, if script(n).end.Finish? then n else n + 2)
    {
      SendsAreAgain(script, n);
      SameTurns(script, turns, n);
      LastTurn(script, n);
    }
  }

  lemma LastTurn(script: nat -> Tick, n: nat)
    requires n < MAX_TICKS && !Sends(script(n))
    ensures Throws(script, n) <==> script(n).end.Trap? && !(script(n).end.flagged && script(n + 1).end.Finish?)
    ensures !Throws(script, n) ==> Collected(script, n) == Some(OutUpTo(script, if script(n).end.Finish? then n else n + 2))
  {
    OutStep(script, n);
    assert OutUpTo(script, n) + [] == OutUpTo(script, n);
  }

  // -------------------------------------------------------------------- host

  class PgLite {
    const guest: Guest
    var pendingWireLen: int

    /** Between calls: nothing is under construction or waiting, and the error flag is clear. */
    ghost predicate Settled()
      reads this, guest
    {
      guest.Quiet() && !guest.errorFlag
    }

    /** Both sides count the same request. */
    ghost predicate Agreed()
      reads this, guest
    {
      guest.Counted() && pendingWireLen == guest.cmaRsize
    }

    constructor (size: nat)
      requires 2 <= size
      ensures Settled() && Agreed() && guest.Drained() && fresh(guest) && fresh(guest.mem) && guest.cma == size
    {
      guest := new Guest(size);
      pendingWireLen := 0;
    }

    /** wireSendCma. */
    method WireSendCma(msg: bytes)
      requires guest.Sound() && |msg| + 2 <= guest.cma
      modifies this, guest`cmaRsize, guest`replyLen, guest.mem
      ensures guest.Sound() && Agreed() && pendingWireLen == |msg| && guest.replyLen == 0
      ensures guest.Request() == msg
      ensures forall i :: 0 <= i < guest.mem.Length ==>
                guest.mem[i] == if BUFFER_ADDR <= i < BUFFER_ADDR + |msg| then msg[i - BUFFER_ADDR] else old(guest.mem[i])
    {
      Copy(msg, guest.mem, BUFFER_ADDR);
      assert guest.mem[BUFFER_ADDR..BUFFER_ADDR + |msg|] == guest.mem[..BUFFER_ADDR + |msg|][BUFFER_ADDR..];
      guest.InteractiveWrite(|msg|);
      pendingWireLen := |msg|;
    }

    /** wireRecvCma: reads just behind the request, as the host counts it. */
    method WireRecvCma() returns (resp: Option<bytes>)
      requires guest.replyLen > 0 ==> 0 <= pendingWireLen && 2 + pendingWireLen + guest.replyLen <= guest.mem.Length
      modifies this, guest`cmaRsize, guest`replyLen
      ensures old(guest.replyLen) == 0 ==> resp == None && unchanged(this) && unchanged(guest)
      ensures old(guest.replyLen) > 0 ==>
                && resp == Some(guest.mem[2 + old(pendingWireLen)..2 + old(pendingWireLen) + old(guest.replyLen)])
                && pendingWireLen == guest.cmaRsize == guest.replyLen == 0
    {
      var len := guest.replyLen;
      if len <= 0 {
        return None;
      }
      var start := BUFFER_ADDR + pendingWireLen + 1;
      resp := Some(guest.mem[start..start + len]);
      guest.InteractiveWrite(0);
      pendingWireLen := 0;
    }

    /** wireRecvFile: takes the reply file, if there is one. */
    method WireRecvFile() returns (resp: Option<bytes>)
      modifies this, guest`cmaRsize, guest`replyLen, guest`outFile
      ensures resp == old(guest.outFile) && guest.outFile == None
      ensures if resp.Some? then pendingWireLen == guest.cmaRsize == 0 else unchanged(this) && unchanged(guest)
    {
      if guest.outFile.None? {
        return None;
      }
      resp := guest.outFile;
      guest.outFile := None;
      guest.InteractiveWrite(0);
      pendingWireLen := 0;
    }

    /**
     * collectReply: takes the waiting reply, exactly once, from the file or from where the host looks for it. `piece`
     * is what it takes for `out`.
     */
    method CollectReply(replies: seq<bytes>, ghost out: bytes, ghost built: int, ghost viaFile: bool)
      returns (produced: bool, replies': seq<bytes>, ghost piece: bytes)
      requires guest.Valid() && guest.socketData == 0 && guest.sendPointer == 0
      requires 0 <= built && guest.Offers(out, built)
      requires out != [] ==> (guest.channel < 0 <==> viaFile || 2 + built + |out| > guest.cma)
      requires 0 <= pendingWireLen && pendingWireLen + 2 <= guest.cma
      modifies this, guest`cmaRsize, guest`replyLen, guest`outFile
      ensures produced <==> out != []
      ensures replies' == if produced then replies + [piece] else replies
      ensures guest.Taken(piece, out, built, old(pendingWireLen), viaFile)
      ensures guest.Quiet() && guest.errorFlag == old(guest.errorFlag)
      ensures pendingWireLen == (if produced then 0 else old(pendingWireLen))
      ensures guest.Now() == old(guest.Now()).(rsize := if produced then 0 else old(guest.cmaRsize))
      ensures !produced ==> piece == [] && guest.cmaRsize == old(guest.cmaRsize)
    {
      var resp;
      if guest.channel < 0 {
        resp := WireRecvFile();
      } else {
        resp := WireRecvCma();
      }
      if resp.Some? {
        return true, replies + [resp.value], resp.value;
      }
      return false, replies, [];
    }

    /** The recovery tick, which interactive_write(-1) asks for. */
    method RecoveryTick(t: Tick, ghost built: int, ghost out: bytes) returns (trapped: bool)
      requires guest.Valid() && !guest.HasReply() && !guest.errorFlag
      requires 0 <= built && built + 2 <= guest.cma && (!guest.sockfiles ==> guest.AgreesWith(built))
      requires guest.Reply() + Output(t.ops) == out
      modifies guest, guest.mem
      ensures trapped == t.end.Trap? && guest.errorFlag == t.Flags()
      ensures guest.Valid() && guest.Drained() && guest.UnreadCount() == 0
      ensures trapped ==> !guest.HasReply()
      ensures !trapped ==> guest.socketData == 0 && guest.sendPointer == 0 && guest.Offers(out, built)
      ensures !trapped && out != [] ==> (guest.channel < 0 <==> guest.sockfiles)
      ensures guest.sockfiles <==> old(guest.sockfiles) || 2 + built + |out| > guest.cma
      ensures forall i :: 0 <= i < guest.mem.Length && (i < 2 + built || (!guest.sockfiles && 2 + built + |out| <= i))
                ==> guest.mem[i] == old(guest.mem[i])
    {
      guest.InteractiveWrite(-1);
      assert guest.Valid() && !guest.HasReply() && guest.Reply() == old(guest.Reply());
      trapped := guest.ResumeOnError(t, built, out);
    }

    /**
     * The catch branch: clears the flag, drains the failed batch and takes the reply `out`, begun before the trap and
     * finished after.
     */
    method Recover(t: Tick, replies: seq<bytes>, ghost built: int, ghost out: bytes, ghost viaFile: bool)
      returns (thrown: bool, replies': seq<bytes>, ghost piece: bytes)
      requires guest.Valid() && !guest.HasReply() && 0 <= pendingWireLen && pendingWireLen + 2 <= guest.cma
      requires 0 <= built && built + 2 <= guest.cma && (!guest.sockfiles ==> guest.AgreesWith(built))
      requires guest.Reply() + Output(t.ops) == out
      requires guest.sockfiles ==> viaFile || 2 + built + |out| > guest.cma
      requires viaFile ==> guest.sockfiles
      modifies this, guest, guest.mem
      ensures thrown <==> !old(guest.errorFlag) || t.end.Trap?
      ensures guest.Sound() && !guest.HasReply()
      ensures guest.UnreadCount() == if old(guest.errorFlag) then 0 else old(guest.UnreadCount())
      ensures !thrown ==> Settled() && replies' == (if out != [] then replies + [piece] else replies)
      ensures !thrown ==> guest.Taken(piece, out, built, old(pendingWireLen), viaFile)
      ensures !thrown && out != [] ==> Agreed()
      ensures guest.errorFlag == (thrown && old(guest.errorFlag) && t.Flags())
      ensures forall i :: 0 <= i < guest.mem.Length
                          && (i < 2 + built || (!viaFile && 2 + built + |out| <= guest.cma && 2 + built + |out| <= i))
                ==> guest.mem[i] == old(guest.mem[i])
    {
      replies', piece := replies, [];
      var check := guest.PglCheckError();
      if check == 0 {
        return true, replies', piece;
      }
      var trapped := RecoveryTick(t, built, out);
      if trapped {
        return true, replies', piece;
      }
      var produced;
      produced, replies', piece := CollectReply(replies, out, built, viaFile);
      return false, replies', piece;
    }

    /** The try block and the collection before it, which finds nothing: every reply is taken right after its tick. */
    method TryTick(t: Tick, replies: seq<bytes>, ghost l: Link)
      returns (producedBefore: bool, trapped: bool, replies': seq<bytes>, ghost seen: Option<bytes>)
      requires Settled() && Agreed() && l == guest.Now()
      modifies this, guest, guest.mem
      ensures !producedBefore && replies' == replies && pendingWireLen == guest.cmaRsize == l.rsize
      ensures trapped == t.end.Trap? && guest.errorFlag == t.Flags()
      ensures seen == FirstRead(l, t.viaFile, old(guest.Unread()), old(guest.Request()))
      ensures guest.Valid() && guest.Now() == AfterTick(l, t) && guest.Counted()
      ensures 0 <= BuiltAt(l) && BuiltAt(l) + 2 <= guest.cma && (!guest.sockfiles ==> guest.AgreesWith(BuiltAt(l)))
      ensures trapped ==> !guest.HasReply() && guest.Reply() == Output(t.ops)
      ensures !trapped ==> guest.socketData == 0 && guest.sendPointer == 0 && guest.Offers(Output(t.ops), BuiltAt(l))
      ensures !trapped && Output(t.ops) != [] ==> (guest.channel < 0 <==> guest.sockfiles)
      ensures guest.sockfiles <==> ToFile(l, t.viaFile, |Output(t.ops)|, guest.cma)
      ensures forall i :: 0 <= i < guest.mem.Length
                          && (i < 2 + BuiltAt(l) || (!guest.sockfiles && 2 + BuiltAt(l) + |Output(t.ops)| <= i))
                ==> guest.mem[i] == old(guest.mem[i])
    {
      ghost var piece;
      producedBefore, replies', piece := CollectReply(replies, [], 0, false);
      assert guest.Quiet() && !guest.errorFlag && guest.Now() == l && pendingWireLen == l.rsize;
      assert guest.Unread() == old(guest.Unread()) && guest.Request() == old(guest.Request());
      trapped, seen := guest.InteractiveOne(t, l);
    }

    /** One turn of the tick loop: the tick `t`, and `next` if an error makes the host tick once more. */
    method TickAndCollect(t: Tick, next: Tick, replies: seq<bytes>, ghost l: Link)
      returns (turn: Turning, replies': seq<bytes>, ghost seen: Option<bytes>, ghost piece: bytes)
      requires Settled() && Agreed() && l == guest.Now()
      modifies this, guest, guest.mem
      ensures turn == Rule(t, next)
      ensures seen == FirstRead(l, t.viaFile, old(guest.Unread()), old(guest.Request()))
      ensures guest.Sound() && !guest.HasReply()
      ensures guest.UnreadCount() == if t.Flags() then 0 else AfterTick(l, t).unread
      ensures turn != Throw ==> Settled()
      ensures turn != Throw ==> replies' == if Owed(t, next) != [] then replies + [piece] else replies
      ensures turn != Throw ==> guest.Taken(piece, Owed(t, next), BuiltAt(l), l.rsize, t.viaFile)
      ensures turn == Again ==> Agreed() && guest.Now() == AfterTick(l, t).(rsize := 0)
      ensures turn == Quiesce || (turn == Recovered && Owed(t, next) != []) ==> Agreed()
      ensures guest.errorFlag == (turn == Throw && t.Flags() && next.Flags())
      ensures forall i :: 0 <= i < guest.mem.Length
                          && (i < 2 + BuiltAt(l)
                              || (!ToFile(l, t.viaFile, |Owed(t, next)|, guest.cma) && 2 + BuiltAt(l) + |Owed(t, next)| <= i))
                ==> turn == Throw || guest.mem[i] == old(guest.mem[i])
    {
      var producedBefore, trapped, producedAfter;
      producedBefore, trapped, replies', seen := TryTick(t, replies, l);
      if trapped {
        var thrown;
        thrown, replies', piece := Recover(next, replies', BuiltAt(l), Output(t.ops) + Output(next.ops), t.viaFile);
        return if thrown then Throw else Recovered, replies', seen, piece;
      }
      producedAfter, replies', piece := CollectReply(replies', Output(t.ops), BuiltAt(l), t.viaFile);
      return if !producedBefore && !producedAfter then Quiesce else Again, replies', seen, piece;
    }

    /**
     * The same, and what the host sees, when memory holds `m` up to `upto`: at least up to where the reply is built, and
     * all of it if the host looks further on.
     */
    method Turn(t: Tick, next: Tick, replies: seq<bytes>, ghost l: Link, ghost m: bytes, ghost upto: nat)
      returns (turn: Turning, replies': seq<bytes>, ghost seen: Option<bytes>)
      requires Settled() && Agreed() && l == guest.Now() && guest.Holds(m, upto) && Ranged(l, guest.cma, m)
      requires 2 + BuiltAt(l) <= upto && (BuiltAt(l) < l.rsize ==> upto == |m|)
      modifies this, guest, guest.mem
      ensures turn == Rule(t, next)
      ensures seen == FirstRead(l, t.viaFile, old(guest.Unread()), old(guest.Request()))
      ensures guest.Sound() && !guest.HasReply() && guest.errorFlag == (turn == Throw && t.Flags() && next.Flags())
      ensures guest.UnreadCount() == if t.Flags() then 0 else AfterTick(l, t).unread
      ensures turn != Throw ==> Settled() && guest.Holds(m, 2 + BuiltAt(l))
      ensures turn != Throw ==>
                replies' == replies + if Owed(t, next) != [] then [View(l, t.viaFile, Owed(t, next), guest.cma, m)] else []
      ensures turn == Again ==> Agreed() && guest.Now() == AfterTick(l, t).(rsize := 0)
      ensures turn == Quiesce || (turn == Recovered && Owed(t, next) != []) ==> Agreed()
    {
      ghost var piece;
      turn, replies', seen, piece := TickAndCollect(t, next, replies, l);
      if turn != Throw {
        guest.TakenIsView(l, t.viaFile, Owed(t, next), piece, m);
      }
    }

    /** The tick loop before turn `k`, for a call that started with link `l` and memory `m`. */
    ghost predicate Looping(script: nat -> Tick, k: nat, l: Link, m: bytes, first: Option<bytes>,
                            replies: seq<bytes>, seen: Option<bytes>)
      reads this, guest, guest.mem
    {
      && k <= MAX_TICKS && AllAgain(script, k) && Ranged(l, guest.cma, m)
      && Settled() && Agreed() && guest.Now() == LinkAt(script, l, k)
      && guest.Holds(m, if k == 0 then |m| else 2 + BuiltAt(guest.Now()))
      && first == (if k > 0 then seen else FirstRead(l, script(0).viaFile, guest.Unread(), guest.Request()))
      && replies == NonEmpty(Views(script, l, m, guest.cma, k))
    }

    /** The end of the tick loop after `n` turns that went on. */
    ghost predicate Finished(script: nat -> Tick, n: nat, l: Link, m: bytes, thrown: bool, replies: seq<bytes>)
      requires Ranged(l, guest.cma, m)
      reads this, guest
    {
      && RunsFor(script, n) && (thrown <==> Throws(script, n))
      && guest.Sound() && !guest.HasReply()
      && guest.UnreadCount() == UnreadAfter(script, l, n) && (guest.errorFlag <==> FlaggedAfter(script, n))
      && (!thrown ==>
            && Settled() && (Answered(script, n) ==> Agreed())
            && replies == NonEmpty(Views(script, l, m, guest.cma, TurnCount(n))))
    }

    /** One turn of the loop, as part of the call. */
    method LoopTurn(script: nat -> Tick, k: nat, replies: seq<bytes>, ghost l: Link, ghost m: bytes,
                    ghost first: Option<bytes>, ghost seen: Option<bytes>)
      returns (turn: Turning, replies': seq<bytes>, ghost seen': Option<bytes>)
      requires k < MAX_TICKS && Looping(script, k, l, m, first, replies, seen)
      modifies this, guest, guest.mem
      ensures turn == Again ==> Looping(script, k + 1, l, m, first, replies', seen')
      ensures turn != Again ==> Finished(script, k, l, m, turn == Throw, replies') && seen' == first
    {
      ghost var read;
      ghost var now := LinkAt(script, l, k);
      turn, replies', read := Turn(script(k), script(k + 1), replies, now, m, if k == 0 then |m| else 2 + BuiltAt(now));
      AllAgainSnoc(script, k);
      BuiltNext(now, script(k));
      seen' := if k == 0 then read else seen;
      if turn != Throw {
        ViewsSnoc(script, l, m, guest.cma, k, replies, replies');
      }
    }

    /** The tick loop. */
    method TickLoop(script: nat -> Tick, ghost l: Link, ghost m: bytes, ghost first: Option<bytes>)
      returns (thrown: bool, replies: seq<bytes>, ghost turns: nat, ghost seen: Option<bytes>)
      requires Settled() && Agreed() && l == guest.Now() && Ranged(l, guest.cma, m) && guest.Holds(m, |m|)
      requires first == FirstRead(l, script(0).viaFile, guest.Unread(), guest.Request())
      modifies this, guest, guest.mem
      ensures Finished(script, turns, l, m, thrown, replies) && seen == first
    {
      replies, seen := [], None;
      var tick := 0;
      while tick < MAX_TICKS
        invariant 0 <= tick <= MAX_TICKS
        invariant Looping(script, tick, l, m, first, replies, seen)
      {
        var turn;
        turn, replies, seen := LoopTurn(script, tick, replies, l, m, first, seen);
        if turn != Again {
          return turn == Throw, replies, tick, seen;
        }
        tick := tick + 1;
      }
      return false, replies, tick, seen;
    }

    /** The start of a call: an empty message is not sent. */
    method Announce(message: bytes)
      requires Settled() && |message| + 2 <= guest.cma && (message == [] ==> Agreed())
      modifies this, guest`cmaRsize, guest`replyLen, guest.mem
      ensures Settled() && Agreed()
      ensures guest.Now() == Announced(old(guest.Now()), message)
      ensures message != [] ==> guest.Request() == message
      ensures guest.recvPointer == old(guest.recvPointer) && guest.recvLength == old(guest.recvLength)
      ensures guest.Holds(Overlay(old(guest.mem[..]), BUFFER_ADDR, message), guest.mem.Length)
    {
      if |message| > 0 {
        WireSendCma(message);
      }
    }

    /**
     * execProtocolRaw, for every behaviour of the guest and from any state between calls. The loop goes on for as many
     * turns as the rule gives, at most 256. The result is the in-order concatenation of what the host takes for every
     * reply, each taken once and of the reply's length; `Views` says what that is, from the script, the link and memory
     * as they are when the message has been announced. If every reply is in the file or where the host looks, it is
     * everything that the guest put. No reply waits, and the error flag is clear unless the recovery tick itself trapped
     * on an error. The number of octets left unread is exact, and a call that starts drained reads the message first.
     */
    method ExecProtocolRaw(message: bytes, script: nat -> Tick)
      returns (r: Option<bytes>, ghost turns: nat, ghost seen: Option<bytes>)
      requires Settled() && |message| + 2 <= guest.cma && (message == [] ==> Agreed())
      modifies this, guest, guest.mem
      ensures RunsFor(script, turns)
      ensures guest.Sound() && !guest.HasReply() && (guest.errorFlag <==> FlaggedAfter(script, turns))
      ensures var l, m := Announced(old(guest.Now()), message), Overlay(old(guest.mem[..]), BUFFER_ADDR, message);
        && Ranged(l, guest.cma, m)
        && r == (if Throws(script, turns) then None else Some(Flatten(Views(script, l, m, guest.cma, TurnCount(turns)))))
        && (r.Some? && AllMatch(script, l, guest.cma, turns) ==> r == Collected(script, turns))
        && guest.UnreadCount() == UnreadAfter(script, l, turns)
        && GoesOn(script, turns, AllMatch(script, l, guest.cma, turns), r)
      ensures r.Some? ==> Settled() && (Answered(script, turns) ==> Agreed())
      ensures message != [] && old(guest.Drained()) ==> seen == if script(0).viaFile then None else Some(message)
    {
      ghost var l, m := Announced(guest.Now(), message), Overlay(guest.mem[..], BUFFER_ADDR, message);
      Announce(message);
      ghost var first := FirstRead(l, script(0).viaFile, guest.Unread(), guest.Request());
      var thrown, replies;
      thrown, replies, turns, seen := TickLoop(script, l, m, first);
      ghost var matched := AllMatch(script, l, guest.cma, turns);
      if thrown {
        LoopGoesOn(script, turns, matched, None);
        return None, turns, seen;
      }
      NonEmptyFlatten(Views(script, l, m, guest.cma, TurnCount(turns)));
      if AllMatch(script, l, guest.cma, turns) {
        MatchedCall(script, l, m, guest.cma, turns);
      }
      var result := Concat(replies);
      r := Some(result[..]);
      LoopGoesOn(script, turns, matched, r);
    }

    /** A call of a session. */
    method SessionCall(message: bytes, script: nat -> Tick)
      returns (r: Option<bytes>, ghost turns: nat, ghost seen: Option<bytes>)
      requires Settled() && message != [] && |message| + 2 <= guest.cma
      modifies this, guest, guest.mem
      ensures (r.None? <==> Throws(script, turns)) && (r.Some? ==> Settled())
      ensures old(guest.Drained()) ==> (guest.Drained() <==> DrainedAfter(script, Link(|message|, 0, 0), turns))
      ensures old(guest.Drained()) && r.Some? ==> IsOwn(message, script, guest.cma, r.value, turns, seen)
    {
      assert guest.Drained() ==> Announced(guest.Now(), message) == Link(|message|, 0, 0);
      r, turns, seen := ExecProtocolRaw(message, script);
    }

    /**
     * Error recovery isolates batches, over any list of calls up to one that throws: as long as every call before left
     * nothing unread, as every recovered one does, a call's first read is its own message, and if its replies are where
     * the host looks its result is what its own script puts.
     */
    method Session(messages: seq<bytes>, scripts: seq<nat -> Tick>)
      returns (results: seq<bytes>, ghost turns: seq<nat>, ghost firsts: seq<Option<bytes>>)
      requires Settled() && guest.Drained() && |messages| == |scripts|
      requires forall i :: 0 <= i < |messages| ==> messages[i] != [] && |messages[i]| + 2 <= guest.cma
      modifies this, guest, guest.mem
      ensures |results| <= |turns| == |firsts| <= |messages|
      ensures |results| < |messages| ==> |turns| > |results| && Throws(scripts[|results|], turns[|results|])
      ensures forall i :: 0 <= i < |results| && Undisturbed(messages, scripts, turns, i) ==>
                IsOwn(messages[i], scripts[i], guest.cma, results[i], turns[i], firsts[i])
    {
      results, turns, firsts := [], [], [];
      for n := 0 to |messages|
        invariant |results| == |turns| == |firsts| == n && Settled()
        invariant Undisturbed(messages, scripts, turns, n) ==> guest.Drained()
        invariant forall i :: 0 <= i < n && Undisturbed(messages, scripts, turns, i) ==>
                    IsOwn(messages[i], scripts[i], guest.cma, results[i], turns[i], firsts[i])
      {
        ghost var before := turns;
        var r;
        ghost var count, seen;
        r, count, seen := SessionCall(messages[n], scripts[n]);
        turns, firsts := turns + [count], firsts + [seen];
        UndisturbedSnoc(messages, scripts, before, count);
        if r.None? {
          return;
        }
        results := results + [r.value];
      }
    }

    /** What the guest reads first of a new message, whatever happened before. */
    method NextRead(message: bytes) returns (ghost seen: Option<bytes>)
      requires guest.Sound() && message != [] && |message| + 2 <= guest.cma
      modifies this, guest, guest.mem
      ensures old(guest.Drained()) ==> seen == Some(message)
      ensures !old(guest.Drained()) ==>
                && seen.Some? && |seen.value| == old(guest.UnreadCount())
                && forall i :: 0 <= i < |seen.value| ==>
                     var j := old(guest.recvPointer) + i;
                     seen.value[i] == if j < |message| then message[j] else old(guest.mem[..])[BUFFER_ADDR + j]
      ensures |message| != old(guest.UnreadCount()) ==> (seen == Some(message) <==> old(guest.Drained()))
    {
      WireSendCma(message);
      ghost var unread, request := guest.Unread(), guest.Request();
      assert |unread| == old(guest.UnreadCount()) && request == message;
      seen := guest.BeginRead(false);
      assert seen == Some(if old(guest.Drained()) then request else unread);
    }

    /**
     * After a call, returned or thrown, the next message is read as sent if the call left nothing unread; and unless it
     * is just as long as what was left, only then.
     */
    method ReadAfterCall(first: bytes, script: nat -> Tick, second: bytes)
      returns (r: Option<bytes>, ghost turns: nat, ghost seen: Option<bytes>)
      requires Settled() && guest.Drained() && first != [] && second != []
      requires |first| + 2 <= guest.cma && |second| + 2 <= guest.cma
      modifies this, guest, guest.mem
      ensures RunsFor(script, turns) && (r.None? <==> Throws(script, turns))
      ensures DrainedAfter(script, Link(|first|, 0, 0), turns) ==> seen == Some(second)
      ensures |second| != UnreadAfter(script, Link(|first|, 0, 0), turns) ==>
                (seen == Some(second) <==> DrainedAfter(script, Link(|first|, 0, 0), turns))
    {
      ghost var read;
      assert Announced(guest.Now(), first) == Link(|first|, 0, 0);
      r, turns, read := ExecProtocolRaw(first, script);
      assert guest.UnreadCount() == UnreadAfter(script, Link(|first|, 0, 0), turns);
      seen := NextRead(second);
    }
  }

  // ---------------------------------------------------------- counterexamples

  /** A guest that leaves the last octet of its request unread for two ticks. */
  function PartialReader(): nat -> Tick {
    i => if i == 0 then Tick(false, 1, [Put([1])], Finish)
         else if i == 1 then Tick(false, 1, [Put([7])], Finish)
         else Tick(false, 0, [], Finish)
  }

  /**
   * Address agreement needs the drained buffer: on the request 81, 82 the partial reader puts 1 and then 7, and the host
   * takes 1 and then the request's own octet 82.
   */
  lemma UndrainedReplyIsMissed(m: bytes, cma: nat)
    requires 6 <= cma && 2 * cma <= |m| && m[1] == 81 && m[2] == 82
    ensures RunsFor(PartialReader(), 2) && Collected(PartialReader(), 2) == Some([1, 7])
    ensures Flatten(Views(PartialReader(), Link(2, 0, 0), m, cma, TurnCount(2))) == [1, 82]
  {
    PartialReaderRuns();
    PartialReaderViews(m, cma);
  }

  lemma PartialReaderTurns()
    ensures RunsFor(PartialReader(), 2) && !Throws(PartialReader(), 2)
    ensures OwedAt(PartialReader(), 0) == [1] && OwedAt(PartialReader(), 1) == [7] && OwedAt(PartialReader(), 2) == []
  {
    PutOne(1);
    PutOne(7);
    var script := PartialReader();
    assert RuleAt(script, 0) == Again && RuleAt(script, 1) == Again && RuleAt(script, 2) == Quiesce;
  }

  lemma PartialReaderRuns()
    ensures RunsFor(PartialReader(), 2) && Collected(PartialReader(), 2) == Some([1, 7])
  {
    PartialReaderTurns();
    var owed: seq<bytes> := [[1], [7], []];
    OwedIsCollected(PartialReader(), 2, owed);
    FlattenThree(owed[0], owed[1], owed[2]);
    assert owed == [owed[0], owed[1], owed[2]];
    assert owed[0] + owed[1] + owed[2] == [1, 7];
  }

  lemma PartialReaderLinks()
    ensures LinkAt(PartialReader(), Link(2, 0, 0), 1) == Link(0, 2, 1)
  {
  }

  lemma PartialReaderViews(m: bytes, cma: nat)
    requires 6 <= cma && 2 * cma <= |m| && m[1] == 81 && m[2] == 82
    ensures Flatten(Views(PartialReader(), Link(2, 0, 0), m, cma, 3)) == [1, 82]
  {
    var script, l := PartialReader(), Link(2, 0, 0);
    PartialReaderTurns();
    PartialReaderLinks();
    var views: seq<bytes> := Views(script, l, m, cma, 3);
    MatchedView(l, false, [1], cma, m);
    assert views[0] == HostSees(script, l, m, cma, 0) == [1];
    assert views[1] == HostSees(script, l, m, cma, 1) == [82];
    assert views[2] == HostSees(script, l, m, cma, 2) == [];
    assert views == [views[0], views[1], views[2]];
    FlattenThree(views[0], views[1], views[2]);
  }

  lemma PutOne(b: byte)
    ensures Output([Put([b])]) == [b]
  {
    OneOutput(Put([b]));
  }

  lemma FlattenThree(a: bytes, b: bytes, c: bytes)
    ensures Flatten([a, b, c]) == a + b + c
  {
    FlattenSnoc([a, b], c);
    FlattenSnoc([a], b);
    FlattenOne(a);
    assert [a, b] + [c] == [a, b, c] && [a] + [b] == [a, b];
  }

  /** A call can throw and leave an octet unread. */
  lemma ThrowLeavesOctets(first: bytes)
    requires first != []
    ensures var script: nat -> Tick := _ => Tick(false, 1, [], Trap(false));
      RunsFor(script, 0) && Throws(script, 0) && !DrainedAfter(script, Link(|first|, 0, 0), 0)
  {
    var script: nat -> Tick := _ => Tick(false, 1, [], Trap(false));
    assert RuleAt(script, 0) == Throw;
  }
}
