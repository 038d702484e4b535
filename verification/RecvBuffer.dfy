/**
 * The receive buffer that the guest fills from a query file (pqcomm.c patch): pq_recvbuf_fill loads the first part of
 * a packet, pq_recvbuf refills a used-up buffer from the rest of the file, pq_getbyte consumes.
 *
 * Reading a file gives all the octets asked for unless the file ends.
 */
module RecvBuffer {
  import opened Bytes

  function Min(a: nat, b: nat): nat {
    if a < b then a else b
  }

  /**
   * What the refills deliver when `rest` is left in the file and `querylen` octets of the packet are due: whole
   * buffers until nothing is due or the file ends.
   */
  ghost function Refilled(rest: bytes, querylen: int, size: nat): bytes
    requires 0 < size
    decreases querylen
  {
    var got := Min(size, |rest|);
    if querylen <= 0 || got == 0 then [] else rest[..got] + Refilled(rest[got..], querylen - got, size)
  }

  /** One refill, and those after it if more is due. */
  lemma RefilledStep(rest: bytes, due: int, size: nat)
    requires 0 < size && 0 < due && rest != []
    ensures var got := Min(size, |rest|);
      && Refilled(rest, due, size) == rest[..got] + (if due - got > 0 then Refilled(rest[got..], due - got, size) else [])
      && Refilled(rest, due, size) != []
  {
  }

  /** The number of octets in the buffers that it takes to receive `n`. */
  ghost function RoundUp(n: int, size: nat): (r: nat)
    requires 0 < size
    ensures n <= r && (r == 0 || r < n + size)
    decreases n
  {
    if n <= 0 then 0 else size + RoundUp(n - size, size)
  }

  /** A length is a number of whole buffers exactly when the buffer size divides it. */
  lemma {:induction false} RoundUpExact(n: nat, size: nat)
    requires 0 < size
    ensures RoundUp(n, size) == n <==> n % size == 0
    decreases n
  {
    if n >= size {
      RoundUpExact(n - size, size);
      ModMinus(n, size);
    }
  }

  lemma ModMinus(n: nat, size: nat)
    requires 0 < size <= n
    ensures (n - size) % size == n % size
  {
    var q, r, q', r' := n / size, n % size, (n - size) / size, (n - size) % size;
    var d := q - 1 - q';
    assert d * size == r' - r by {
      assert n == q * size + r && n - size == q' * size + r';
      Distribute(q, q', size);
    }
    Least(d, size);
    Least(-d, size);
  }

  lemma Distribute(q: int, q': int, size: nat)
    ensures (q - 1 - q') * size == q * size - size - q' * size
  {
  }

  lemma Least(d: int, size: nat)
    ensures d >= 1 ==> d * size >= size
    ensures (-d) * size == -(d * size)
  {
  }

  /** Whole buffers of the file are delivered, up to its end, however the packet's length falls between them. */
  lemma {:induction false} RefilledIsPrefix(rest: bytes, querylen: int, size: nat)
    requires 0 < size
    ensures Refilled(rest, querylen, size) == rest[..Min(|rest|, RoundUp(querylen, size))]
    decreases querylen
  {
    if 0 < querylen && |rest| < size {
      LastRefill(rest, querylen, size);
    } else if 0 < querylen {
      RefilledIsPrefix(rest[size..], querylen - size, size);
      RefilledStep(rest, querylen, size);
      JoinPrefix(rest, size, Min(|rest| - size, RoundUp(querylen - size, size)));
    }
  }

  /** The file ends within one buffer. */
  lemma LastRefill(rest: bytes, querylen: int, size: nat)
    requires |rest| < size && 0 < querylen
    ensures Refilled(rest, querylen, size) == rest
    ensures RoundUp(querylen, size) >= size
  {
    if rest != [] {
      RefilledStep(rest, querylen, size);
      assert rest[|rest|..] == [] && rest[..|rest|] == rest;
    }
  }

  lemma JoinPrefix(rest: bytes, a: nat, b: nat)
    requires a + b <= |rest|
    ensures rest[..a] + rest[a..][..b] == rest[..a + b]
  {
  }

  /** What a consumer reads of a packet before EOF, for any file. */
  ghost function Delivered(file: bytes, packetlen: nat, size: nat): bytes
    requires 0 < size && (packetlen <= size ==> packetlen <= |file|)
  {
    if packetlen <= size then file[..packetlen] else file[..Min(|file|, RoundUp(packetlen, size))]
  }

  /**
   * The consumer reads the packet and nothing else exactly when the file has the packet's octets, and a packet larger
   * than the buffer either ends where the file does or fills its last buffer.
   */
  lemma DeliveredIsPacket(file: bytes, packetlen: nat, size: nat)
    requires 0 < size && (packetlen <= size ==> packetlen <= |file|)
    ensures (packetlen <= |file| && Delivered(file, packetlen, size) == file[..packetlen])
            <==> (packetlen <= size || packetlen == |file|
                  || (packetlen < |file| && packetlen % size == 0))
    ensures packetlen == |file| ==> Delivered(file, packetlen, size) == file
  {
    RoundUpExact(packetlen, size);
    if packetlen > size && packetlen < |file| && RoundUp(packetlen, size) != packetlen {
      assert |Delivered(file, packetlen, size)| > packetlen;
    }
  }

  lemma Regroup(a: bytes, b: bytes, c: bytes)
    ensures a + (b + c) == a + b + c
  {
  }

  class Receiver {
    const buffer: array<byte>     // PqRecvBuffer_static, PQ_RECV_BUFFER_SIZE octets
    var recvPointer: nat
    var recvLength: nat
    var queryfp: bool             // whether queryfp is set
    var querylen: int
    var file: bytes               // what the query file holds behind the read position

    ghost predicate Valid()
      reads this
    {
      recvPointer <= recvLength <= buffer.Length && 0 < buffer.Length && (queryfp ==> querylen > 0)
    }

    /** What the consumer still gets: the unread part of the buffer, then what the refills deliver. */
    ghost function Pending(): bytes
      requires Valid()
      reads this, buffer
    {
      buffer[recvPointer..recvLength] + if queryfp then Refilled(file, querylen, buffer.Length) else []
    }

    constructor (size: nat)
      requires 0 < size
      ensures Valid() && Pending() == [] && fresh(buffer) && buffer.Length == size
    {
      buffer := new byte[size](_ => 0);
      recvPointer, recvLength, queryfp, querylen, file := 0, 0, false, 0, [];
    }

    /** fread to the start of the buffer. */
    method Fread(n: nat) returns (got: nat)
      requires n <= buffer.Length
      modifies this`file, buffer
      ensures got == Min(n, |old(file)|)
      ensures buffer[..got] == old(file)[..got] && file == old(file)[got..]
    {
      got := Min(n, |file|);
      Copy(file[..got], buffer, 0);
      file := file[got..];
    }

    /** pq_recvbuf_fill: starts a packet. A packet that fits the buffer must be in the file; fread defines nothing else. */
    method Fill(packetlen: nat)
      requires 0 < buffer.Length && (packetlen <= buffer.Length ==> packetlen <= |file|)
      modifies this, buffer
      ensures Valid() && Pending() == Delivered(old(file), packetlen, buffer.Length)
    {
      ghost var whole := file;
      var got;
      if packetlen > buffer.Length {
        got := Fread(buffer.Length);
        queryfp := true;
        querylen := packetlen - got;
        recvLength := got;
        FillIsDelivered(whole, packetlen, buffer.Length);
      } else {
        got := Fread(packetlen);
        recvLength := packetlen;
        queryfp := false;
        querylen := 0;
      }
      recvPointer := 0;
      assert buffer[recvPointer..recvLength] == whole[..got];
    }

    /** pq_recvbuf on a used-up buffer: EOF exactly when nothing is left, and no octet lost or repeated. */
    method Recvbuf() returns (eof: bool)
      requires Valid() && recvPointer == recvLength
      modifies this, buffer
      ensures Valid() && Pending() == old(Pending())
      ensures eof <==> old(Pending()) == []
      ensures !eof ==> recvPointer < recvLength && old(querylen) > 0 && querylen < old(querylen)
    {
      assert buffer[recvPointer..recvLength] == [];
      if recvPointer > 0 {
        recvLength, recvPointer := 0, 0;
      }
      assert Pending() == old(Pending());
      if queryfp && querylen != 0 {
        var got := Refill();
        if got > 0 {
          return false;
        }
      }
      return true;
    }

    /** Lines 36 to 42: reads on from the query file into the empty buffer. */
    method Refill() returns (got: nat)
      requires Valid() && recvPointer == recvLength == 0 && queryfp
      modifies this`recvLength, this`queryfp, this`querylen, this`file, buffer
      ensures Valid() && Pending() == old(Pending())
      ensures got == recvLength && querylen == old(querylen) - got && (got == 0 <==> old(Pending()) == [])
    {
      ghost var rest := file;
      ghost var due := querylen;
      assert buffer[0..0] == [];
      got := Fread(buffer.Length - recvPointer);
      querylen := querylen - got;
      recvLength := recvLength + got;
      if querylen <= 0 {
        queryfp := false;
      }
      assert buffer[0..got] == rest[..got];
      if got > 0 {
        RefilledStep(rest, due, buffer.Length);
      }
    }

    /** pq_getbyte: the next octet, or EOF when none is left. */
    method GetByte() returns (c: Option<byte>)
      requires Valid()
      modifies this, buffer
      ensures Valid()
      ensures old(Pending()) == [] ==> c == None && Pending() == []
      ensures old(Pending()) != [] ==> c == Some(old(Pending())[0]) && Pending() == old(Pending())[1..]
    {
      while recvPointer >= recvLength
        invariant Valid() && Pending() == old(Pending())
        decreases querylen
      {
        var eof := Recvbuf();
        if eof {
          return None;
        }
      }
      var b := NextByte();
      c := Some(b);
    }

    /** The next octet of the buffer. */
    method NextByte() returns (b: byte)
      requires Valid() && recvPointer < recvLength
      modifies this`recvPointer
      ensures Valid() && old(Pending()) == [b] + Pending()
    {
      ghost var more := if queryfp then Refilled(file, querylen, buffer.Length) else [];
      b := buffer[recvPointer];
      assert buffer[recvPointer..recvLength] == [b] + buffer[recvPointer + 1..recvLength];
      Regroup([b], buffer[recvPointer + 1..recvLength], more);
      recvPointer := recvPointer + 1;
    }

    /** A consumer that reads to EOF gets everything that is pending, in order. */
    method ReadToEof() returns (all: bytes)
      requires Valid()
      modifies this, buffer
      ensures Valid() && Pending() == [] && all == old(Pending())
    {
      ghost var whole := Pending();
      all := [];
      while true
        invariant Valid() && whole == all + Pending()
        decreases |Pending()|
      {
        ghost var before := Pending();
        var c := GetByte();
        if c.None? {
          break;
        }
        assert before == [c.value] + Pending();
        Regroup(all, [c.value], Pending());
        all := all + [c.value];
      }
    }

    /** A packet that is the whole query file, of any length against the buffer, is read exactly. */
    method ReceivePacket(packet: bytes) returns (all: bytes)
      requires 0 < buffer.Length
      modifies this, buffer
      ensures all == packet
    {
      file := packet;
      Fill(|packet|);
      DeliveredIsPacket(packet, |packet|, buffer.Length);
      all := ReadToEof();
    }
  }

  /** The first buffer and the refills together deliver whole buffers of the file. */
  lemma FillIsDelivered(file: bytes, packetlen: nat, size: nat)
    requires 0 < size < packetlen
    ensures var got := Min(size, |file|);
            file[..got] + Refilled(file[got..], packetlen - got, size) == Delivered(file, packetlen, size)
  {
    RefilledIsPrefix(file, packetlen, size);
    if file == [] {
      assert Refilled(file[0..], packetlen, size) == [];
    }
  }
}
