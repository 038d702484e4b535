/**
 * The socket that wasm-build/sdk/hotfix/sdk_socket.c emulates with files: what is sent collects in a lock file, a
 * flush renames it for the peer and yields, and the peer's reply is read from a file in pieces, with cursors kept
 * across calls. Writes are complete, as the source assumes after a connect.
 */
module FileSocket {
  import opened Bytes

  const IDLE_LIMIT := 32

  /** The globals of the source and the files; `published` is history. */
  datatype Sock = Sock(
    queue: nat,               // fd_queue
    pos: nat,                 // fd_current_pos
    size: nat,                // fd_filesize
    watchdog: nat,
    exited: bool,
    lock: bytes,              // what the open lock file holds
    out: Option<bytes>,       // the peer's reply file
    published: seq<bytes>)    // the files renamed for the peer, in order

  /** The globals before the first connect. */
  const INITIAL := Sock(0, 0, 0, 0, false, [], None, [])

  /** sdk_connect: truncates the lock file and its count, and nothing else. */
  function Connected(s: Sock): Sock {
    s.(queue := 0, lock := [])
  }

  /** sdk_sock_flush; `reply` is the reply file as the peer leaves it during the yield. */
  function Flushed(s: Sock, reply: Option<bytes>): Sock {
    if s.queue > 0 then s.(published := s.published + [s.lock], out := reply, lock := [], queue := 0)
    else s.(watchdog := s.watchdog + 1, exited := s.watchdog > IDLE_LIMIT)
  }

  /** sdk_sendto. */
  function Sent(s: Sock, data: bytes): Sock {
    s.(lock := s.lock + data, watchdog := 0, queue := s.queue + |data|)
  }

  /** The state in which sdk_recvfrom opens the reply file. */
  function Opened(s: Sock, reply: Option<bytes>): Sock {
    if s.pos == 0 then Flushed(s, reply) else s.(watchdog := 0)
  }

  function Min(a: nat, b: nat): nat {
    if a < b then a else b
  }

  /** What fread returns from the cursor on. */
  function Chunk(file: bytes, pos: nat, length: nat): bytes {
    if pos <= |file| then file[pos..Min(pos + length, |file|)] else []
  }

  /** sdk_recvfrom, from the opening of the reply file on. */
  function Read(s: Sock, length: nat): Sock {
    if s.exited || s.out.None? then s
    else
      var file := s.out.value;
      var size := if s.size == 0 then |file| else s.size;
      var pos := s.pos + |Chunk(file, s.pos, length)|;
      if pos < size then s.(pos := pos, size := size)
      else s.(queue := 0, size := 0, pos := 0, out := None, watchdog := 0)
  }

  function Received(s: Sock, length: nat, reply: Option<bytes>): Sock {
    Read(Opened(s, reply), length)
  }

  /** What a call of sdk_recvfrom returns: the octets, or None for an error or when the process is gone. */
  function Returned(s: Sock, length: nat, reply: Option<bytes>): Option<bytes> {
    var t := Opened(s, reply);
    if t.exited || t.out.None? then None else Some(Chunk(t.out.value, t.pos, length))
  }

  // ------------------------------------------------------------ implementation

  class Socket {
    var fdQueue: nat
    var fdCurrentPos: nat
    var fdFilesize: nat
    var watchdog: nat
    var exited: bool
    var lockFile: bytes
    var outFile: Option<bytes>
    ghost var published: seq<bytes>

    ghost function Now(): Sock
      reads this
    {
      Sock(fdQueue, fdCurrentPos, fdFilesize, watchdog, exited, lockFile, outFile, published)
    }

    constructor ()
      ensures Now() == INITIAL
    {
      fdQueue, fdCurrentPos, fdFilesize, watchdog, exited := 0, 0, 0, 0, false;
      lockFile, outFile, published := [], None, [];
    }

    /** Only what waits in the lock file is lost; cursors, watchdog and reply file stay as they are. */
    method Connect()
      modifies this
      ensures Now() == Connected(old(Now()))
      ensures forall reply: Option<bytes> :: Flushed(Now(), reply).published == old(published)
      ensures Outgoing(Now()) + old(lockFile) == old(Outgoing(Now()))
    {
      fdQueue := 0;
      lockFile := [];
    }

    method SockFlush(reply: Option<bytes>)
      modifies this
      ensures Now() == Flushed(old(Now()), reply)
      ensures Outgoing(Now()) == old(Outgoing(Now()))
    {
      FlushKeepsOutgoing(Now(), reply);
      if fdQueue != 0 {
        published := published + [lockFile];
        outFile := reply;
        lockFile := [];
        fdQueue := 0;
        return;
      }
      var count := watchdog;
      watchdog := watchdog + 1;
      exited := count > IDLE_LIMIT;
    }

    method SendTo(data: bytes) returns (sent: nat)
      modifies this
      ensures sent == |data| && Now() == Sent(old(Now()), data)
      ensures Outgoing(Now()) == old(Outgoing(Now())) + data
    {
      SendAddsOutgoing(Now(), data);
      lockFile := lockFile + data;
      watchdog := 0;
      fdQueue := fdQueue + |data|;
      return |data|;
    }

    method RecvFrom(length: nat, reply: Option<bytes>) returns (rcv: int, data: bytes)
      requires !exited
      modifies this
      ensures Now() == Received(old(Now()), length, reply)
      ensures rcv == if Returned(old(Now()), length, reply).None? then -1 else |data|
      ensures rcv >= 0 ==> Returned(old(Now()), length, reply) == Some(data)
      ensures Outgoing(Now()) == old(Outgoing(Now()))
    {
      ReceiveKeepsOutgoing(Now(), length, reply);
      rcv, data := -1, [];
      var lastPos := fdCurrentPos;
      if lastPos == 0 {
        SockFlush(reply);
        if exited {
          return;
        }
      } else {
        watchdog := 0;
      }
      if outFile.Some? {
        var file := outFile.value;
        if fdFilesize == 0 {
          fdFilesize := |file|;
        }
        data := Chunk(file, fdCurrentPos, length);
        rcv := |data|;
        fdCurrentPos := fdCurrentPos + |data|;
        if fdCurrentPos < fdFilesize {
          return;
        }
        fdQueue, fdFilesize, fdCurrentPos := 0, 0, 0;
        outFile := None;
        watchdog := 0;
      }
    }
  }

  // ---------------------------------------------------------- lossless receive

  /** The state in which a call opens the reply file, unread or partly read, with cursors that belong to it. */
  predicate Reads(o: Sock, file: bytes) {
    && !o.exited && o.out == Some(file)
    && (o.pos == 0 ==> o.size == 0)
    && (o.pos > 0 ==> o.pos < |file| == o.size)
  }

  /** The length of a buffer that can take something. */
  type Length = n: int | n > 0 witness 1

  /** A program that has received `data` in buffers of `total` octets. */
  datatype Receiver = Receiver(sock: Sock, data: bytes, total: nat)

  /** One call that returns something. */
  predicate Takes(r: Receiver, length: Length, reply: Option<bytes>, r': Receiver) {
    var piece := Returned(r.sock, length, reply);
    piece.Some? && r' == Receiver(Received(r.sock, length, reply), r.data + piece.value, r.total + length)
  }

  /**
   * Calls one after the other, going on while the reply file is partly read. The peer may leave `reply` during the
   * first one; it leaves a partly read file alone.
   */
  ghost predicate Receives(rs: seq<Receiver>, lengths: seq<Length>, reply: Option<bytes>) {
    && 0 < |lengths| == |rs| - 1
    && rs[0].data == [] && rs[0].total == 0 && Takes(rs[0], lengths[0], reply, rs[1])
    && forall i :: 0 < i < |lengths| ==> rs[i].sock.pos > 0 && Takes(rs[i], lengths[i], None, rs[i + 1])
  }

  /**
   * The octets from `pos` on as far as the buffers reach; the file is removed and both cursors are reset if and only if
   * that is its end.
   */
  predicate Took(file: bytes, pos: nat, r: Receiver) {
    && pos <= |file| && r.data == file[pos..Min(pos + r.total, |file|)]
    && if pos + r.total < |file| then r.sock.out == Some(file) && r.sock.pos == pos + r.total
       else r.sock.out == None && r.sock.pos == r.sock.size == 0
  }

  /** One call, whether the file was there before or appears during the call's own flush. */
  lemma ReceiveOne(s: Sock, reply: Option<bytes>, file: bytes, length: Length)
    requires Reads(Opened(s, reply), file)
    ensures s.pos <= |file| && Returned(s, length, reply) == Some(file[s.pos..Min(s.pos + length, |file|)])
    ensures var t := Received(s, length, reply);
      if s.pos + length < |file|
      then t.pos == s.pos + length && t.out == Some(file) && Reads(Opened(t, None), file)
      else t.out == None && t.pos == t.size == 0
  {
  }

  lemma JoinSlices(file: bytes, a: nat, b: nat, c: nat)
    requires a <= b <= c <= |file|
    ensures file[a..b] + file[b..c] == file[a..c]
  {
  }

  lemma ReceiveNext(file: bytes, pos: nat, r: Receiver, length: Length, r': Receiver)
    requires Took(file, pos, r) && r.sock.pos > 0 && Reads(Opened(r.sock, None), file) && Takes(r, length, None, r')
    ensures Took(file, pos, r') && (r'.sock.pos > 0 ==> Reads(Opened(r'.sock, None), file))
  {
    ReceiveOne(r.sock, None, file, length);
    JoinSlices(file, pos, r.sock.pos, Min(r.sock.pos + length, |file|));
  }

  lemma {:induction false} ReceivePrefix(rs: seq<Receiver>, lengths: seq<Length>, reply: Option<bytes>, file: bytes, k: nat)
    requires Receives(rs, lengths, reply) && Reads(Opened(rs[0].sock, reply), file) && 0 < k <= |lengths|
    ensures Took(file, rs[0].sock.pos, rs[k])
    ensures rs[k].sock.pos > 0 ==> Reads(Opened(rs[k].sock, None), file)
  {
    if k == 1 {
      ReceiveOne(rs[0].sock, reply, file, lengths[0]);
    } else {
      ReceivePrefix(rs, lengths, reply, file, k - 1);
      ReceiveNext(file, rs[0].sock.pos, rs[k - 1], lengths[k - 1], rs[k]);
    }
  }

  /**
   * Lossless receive: whatever the buffer lengths, after every call what has been received is exactly the file from the
   * cursor on as far as the buffers reach, and the file and the cursors survive exactly if they do not reach its end.
   */
  lemma ReceiveIsLossless(rs: seq<Receiver>, lengths: seq<Length>, reply: Option<bytes>, file: bytes)
    requires Receives(rs, lengths, reply) && Reads(Opened(rs[0].sock, reply), file)
    ensures forall k :: 0 < k <= |lengths| ==> Took(file, rs[0].sock.pos, rs[k])
  {
    forall k | 0 < k <= |lengths|
      ensures Took(file, rs[0].sock.pos, rs[k])
    {
      ReceivePrefix(rs, lengths, reply, file, k);
    }
  }

  /**
   * Request and response: a send, then receives, the first of which publishes what was sent and finds the reply that
   * the peer left during the yield. The peer gets all that was waiting and the program gets the reply.
   */
  lemma RequestResponse(s: Sock, data: bytes, file: bytes, rs: seq<Receiver>, lengths: seq<Length>)
    requires !s.exited && s.pos == s.size == 0 && data != []
    requires Receives(rs, lengths, Some(file)) && rs[0].sock == Sent(s, data)
    ensures rs[1].sock.published == s.published + [s.lock + data]
    ensures Took(file, 0, rs[|lengths|])
  {
    ReceiveIsLossless(rs, lengths, Some(file), file);
  }

  // --------------------------------------------------------- send conservation

  datatype Event =
    | Send(data: bytes)
    | Flush(reply: Option<bytes>)
    | Recv(length: nat, answer: Option<bytes>)
    | Peer(file: bytes)                          // the peer writes its reply file while none is partly read

  function Apply(s: Sock, e: Event): Sock {
    if s.exited then s
    else
      match e
      case Send(data) => Sent(s, data)
      case Flush(reply) => Flushed(s, reply)
      case Recv(length, answer) => Received(s, length, answer)
      case Peer(file) => if s.pos == 0 then s.(out := Some(file)) else s
  }

  function Run(s: Sock, es: seq<Event>): Sock {
    if es == [] then s else Apply(Run(s, es[..|es| - 1]), es[|es| - 1])
  }

  /** Everything the program sent in a run, up to a possible exit. */
  function AllSent(s: Sock, es: seq<Event>): bytes {
    if es == [] then []
    else
      var e := es[|es| - 1];
      AllSent(s, es[..|es| - 1]) + if e.Send? && !Run(s, es[..|es| - 1]).exited then e.data else []
  }

  /** What is published and what still waits in the lock file. */
  function Outgoing(s: Sock): bytes {
    Flatten(s.published) + s.lock
  }

  lemma FlushKeepsOutgoing(s: Sock, reply: Option<bytes>)
    ensures Outgoing(Flushed(s, reply)) == Outgoing(s)
  {
    FlattenSnoc(s.published, s.lock);
  }

  lemma SendAddsOutgoing(s: Sock, data: bytes)
    ensures Outgoing(Sent(s, data)) == Outgoing(s) + data
  {
    assert Flatten(s.published) + (s.lock + data) == Flatten(s.published) + s.lock + data;
  }

  lemma OpenKeepsOutgoing(s: Sock, reply: Option<bytes>)
    ensures Outgoing(Opened(s, reply)) == Outgoing(s)
  {
    if s.pos == 0 {
      FlushKeepsOutgoing(s, reply);
    }
  }

  lemma ReadKeepsOutgoing(s: Sock, length: nat)
    ensures Outgoing(Read(s, length)) == Outgoing(s)
  {
  }

  lemma ReceiveKeepsOutgoing(s: Sock, length: nat, reply: Option<bytes>)
    ensures Outgoing(Received(s, length, reply)) == Outgoing(s)
  {
    OpenKeepsOutgoing(s, reply);
    ReadKeepsOutgoing(Opened(s, reply), length);
  }

  lemma ApplyOutgoing(s: Sock, e: Event)
    ensures Outgoing(Apply(s, e)) == Outgoing(s) + if e.Send? && !s.exited then e.data else []
  {
    match e
    case Send(data) => SendAddsOutgoing(s, data);
    case Flush(reply) => FlushKeepsOutgoing(s, reply);
    case Recv(length, answer) => ReceiveKeepsOutgoing(s, length, answer);
    case Peer(_) =>
  }

  /** Conservation: in every interleaving, the published files and then the open lock file are all octets sent. */
  lemma {:induction false} SendConservation(s: Sock, es: seq<Event>)
    ensures Outgoing(Run(s, es)) == Outgoing(s) + AllSent(s, es)
  {
    if es != [] {
      var n := |es| - 1;
      SendConservation(s, es[..n]);
      ApplyOutgoing(Run(s, es[..n]), es[n]);
    }
  }

  /** A receive that reads the reply file to its end. */
  predicate Completes(s: Sock, e: Event) {
    e.Recv? && var o := Opened(s, e.answer);
    && !o.exited && o.out.Some?
    && o.pos + |Chunk(o.out.value, o.pos, e.length)| >= if o.size == 0 then |o.out.value| else o.size
  }

  /** A flush that publishes the lock file, called for itself or by a receive that does not read on. */
  predicate Publishes(s: Sock, e: Event) {
    (e.Flush? || (e.Recv? && s.pos == 0)) && s.queue > 0
  }

  /**
   * How many octets of the lock file fd_queue has forgotten: all of them when a receive completes, none when they are
   * published, and as many as before otherwise. `before` is how many that is at the start.
   */
  function Forgotten(s: Sock, es: seq<Event>, before: nat): nat {
    if es == [] then before
    else
      var n := |es| - 1;
      var t, e := Run(s, es[..n]), es[n];
      if t.exited then Forgotten(s, es[..n], before)
      else if Publishes(t, e) then 0
      else if Completes(t, e) then |t.lock|
      else Forgotten(s, es[..n], before)
  }

  lemma ApplyForgets(s: Sock, e: Event, before: nat)
    requires !s.exited && |s.lock| == s.queue + before
    ensures var t := Apply(s, e);
      |t.lock| == t.queue + (if Publishes(s, e) then 0 else if Completes(s, e) then |s.lock| else before)
  {
  }

  /**
   * The law of the counter, in every interleaving: the lock file holds what fd_queue counts and what it has forgotten.
   * So the count is right exactly when nothing has been forgotten.
   */
  lemma {:induction false} QueueCounts(s: Sock, es: seq<Event>, before: nat)
    requires |s.lock| == s.queue + before
    ensures |Run(s, es).lock| == Run(s, es).queue + Forgotten(s, es, before)
    ensures Run(s, es).queue == |Run(s, es).lock| <==> Forgotten(s, es, before) == 0
  {
    if es != [] {
      var n := |es| - 1;
      QueueCounts(s, es[..n], before);
      if !Run(s, es[..n]).exited {
        ApplyForgets(Run(s, es[..n]), es[n], Forgotten(s, es[..n], before));
      }
    }
  }

  /** No send falls inside a partial receive. */
  predicate Orderly(s: Sock, es: seq<Event>) {
    es == [] ||
    (var n := |es| - 1;
     && Orderly(s, es[..n])
     && (es[n].Send? && es[n].data != [] ==> Run(s, es[..n]).pos == 0))
  }

  /** In orderly runs nothing is ever forgotten: fd_queue is the length of the lock file. */
  lemma {:induction false} OrderlyRunsCount(s: Sock, es: seq<Event>)
    requires s.queue == |s.lock| && (s.pos > 0 ==> s.lock == []) && Orderly(s, es)
    ensures Forgotten(s, es, 0) == 0 && Run(s, es).queue == |Run(s, es).lock|
    ensures Run(s, es).pos > 0 ==> Run(s, es).lock == []
  {
    if es != [] {
      OrderlyRunsCount(s, es[..|es| - 1]);
    }
  }

  /**
   * A send between two pieces of a receive is uncounted once the receive completes, exactly when it sent something, and
   * then flushing does not publish it.
   */
  lemma SendInsideReceive(s: Sock, data: bytes, length: nat, reply: Option<bytes>)
    requires s.queue == |s.lock| == 0 && !s.exited && s.pos > 0 && s.out.Some?
    requires Received(Sent(s, data), length, s.out).pos == 0
    ensures var t := Received(Sent(s, data), length, s.out);
      && (t.queue == |t.lock| <==> data == [])
      && t.lock == data
      && Flushed(t, reply).published == t.published
  {
  }

  /** What is forgotten waits: flushing does not publish it, and only a later send does. */
  lemma ForgottenWaits(s: Sock, reply: Option<bytes>)
    requires s.queue == 0
    ensures Flushed(s, reply).published == s.published && Flushed(s, reply).lock == s.lock
    ensures forall data: bytes :: data != [] ==>
              Flushed(Sent(s, data), reply).published == s.published + [s.lock + data]
  {
  }

  /** While no reply file appears, receives return errors and leave both cursors alone. */
  lemma {:induction false} MissingFileKeepsCursors(s: Sock, es: seq<Event>)
    requires s.out.None? && forall e <- es :: e.Recv? && e.answer.None?
    ensures var t := Run(s, es);
      && t.pos == s.pos && t.size == s.size && t.out.None?
      && forall length: nat :: Returned(t, length, None) == None
  {
    if es != [] {
      var n := |es| - 1;
      assert es[n] in es;
      MissingFileKeepsCursors(s, es[..n]);
    }
  }

  // ------------------------------------------------------------------ watchdog

  /** A flush with nothing to publish: called for itself, or by a receive that does not read on. */
  predicate IsIdleFlush(s: Sock, e: Event) {
    (e.Flush? || (e.Recv? && s.pos == 0)) && s.queue == 0
  }

  /** What resets the watchdog: a send, a receive that reads on, and a receive that completes. */
  predicate Resets(s: Sock, e: Event) {
    e.Send? || (e.Recv? && s.pos > 0) || Completes(s, e)
  }

  /** The idle flushes in a run since the last reset, counting those of `s` itself. */
  function IdleSince(s: Sock, es: seq<Event>): nat {
    if es == [] then s.watchdog
    else
      var before, t, e := IdleSince(s, es[..|es| - 1]), Run(s, es[..|es| - 1]), es[|es| - 1];
      if t.exited then before
      else if Resets(t, e) then 0
      else if IsIdleFlush(t, e) then before + 1
      else before
  }

  lemma ApplyIdle(s: Sock, e: Event)
    requires !s.exited && s.watchdog <= IDLE_LIMIT + 1
    ensures var t := Apply(s, e);
      && t.watchdog == (if Resets(s, e) then 0 else if IsIdleFlush(s, e) then s.watchdog + 1 else s.watchdog)
      && (t.exited <==> !Resets(s, e) && IsIdleFlush(s, e) && s.watchdog == IDLE_LIMIT + 1)
  {
  }

  /**
   * The watchdog, in every interleaving of sends, flushes, receives and peer writes: it counts the idle flushes since
   * the last reset, at most 33 of them return, and the 34th ends the process.
   */
  lemma {:induction false} IdleFlushLimit(s: Sock, es: seq<Event>)
    requires !s.exited && s.watchdog <= 33
    ensures Run(s, es).watchdog == IdleSince(s, es) <= 34
    ensures Run(s, es).exited <==> IdleSince(s, es) == 34
  {
    if es != [] {
      var n := |es| - 1;
      IdleFlushLimit(s, es[..n]);
      if !Run(s, es[..n]).exited {
        ApplyIdle(Run(s, es[..n]), es[n]);
      }
    }
  }
}
