/**
 * Message framing of the PostgreSQL version 3 protocol ("Message Formats" in the
 * "Frontend/Backend Protocol" chapter of the PostgreSQL 17 documentation), as built and scanned by
 * PgWireCodec, PGLite.buildSimpleQuery and ManagedInstance.endsWithReadyForQuery.
 * Texts are octet strings: character encoding is outside this model.
 */
module WireCodec {
  import opened Bytes

  const MAX_INT: int := 0x7FFF_FFFF

  // ---------------------------------------------------------------- integers

  /** The low `width` octets of a number, most significant first. */
  function BigEndian(u: nat, width: nat): (r: bytes)
    ensures |r| == width
  {
    if width == 0 then [] else BigEndian(u / 256, width - 1) + [u % 256]
  }

  /** The four octets of a 32-bit two's complement integer. */
  function Be32(n: int): (r: bytes)
    requires -0x8000_0000 <= n <= MAX_INT
    ensures |r| == 4
  {
    BigEndian(if n < 0 then n + 0x1_0000_0000 else n, 4)
  }

  /** The signed value of four octets, as Java's shift-and-or computes it. */
  function Int32(b0: int, b1: int, b2: int, b3: int): (n: int)
    requires 0 <= b0 < 256 && 0 <= b1 < 256 && 0 <= b2 < 256 && 0 <= b3 < 256
    ensures -0x8000_0000 <= n <= MAX_INT
  {
    var u := b0 * 0x100_0000 + b1 * 0x1_0000 + b2 * 256 + b3;
    if u > MAX_INT then u - 0x1_0000_0000 else u
  }

  /** The octets that a builder stores one by one. */
  lemma BigEndian4(u: nat)
    requires u < 0x1_0000_0000
    ensures BigEndian(u, 4) == [u / 0x100_0000, u / 0x1_0000 % 256, u / 256 % 256, u % 256]
  {
    var v := u / 256;
    var w := v / 256;
    var x := w / 256;
    assert v == u / 256 && w == u / 0x1_0000 && x == u / 0x100_0000;
    assert BigEndian(x, 1) == BigEndian(x / 256, 0) + [x % 256] == [x];
    assert BigEndian(w, 2) == BigEndian(x, 1) + [w % 256];
    assert BigEndian(v, 3) == BigEndian(w, 2) + [v % 256];
  }

  lemma BigEndian2(u: nat)
    requires u < 0x1_0000
    ensures BigEndian(u, 2) == [u / 256, u % 256]
  {
    assert BigEndian(u / 256, 1) == BigEndian(u / 0x1_0000, 0) + [u / 256];
  }

  lemma Int32RoundTrip(n: int)
    requires -0x8000_0000 <= n <= MAX_INT
    ensures Int32(Be32(n)[0], Be32(n)[1], Be32(n)[2], Be32(n)[3]) == n
  {
    var u := if n < 0 then n + 0x1_0000_0000 else n;
    BigEndian4(u);
    assert u / 0x1_0000 == u / 0x100_0000 * 256 + u / 0x1_0000 % 256;
    assert u / 256 == u / 0x1_0000 * 256 + u / 256 % 256;
  }

  lemma BigEndianStep(v: nat, b: byte, width: nat)
    ensures BigEndian(v * 256 + b, width + 1) == BigEndian(v, width) + [b]
  {
  }

  lemma Int32Injective(b: bytes)
    requires |b| == 4
    ensures Be32(Int32(b[0], b[1], b[2], b[3])) == b
  {
    var v0: int := b[0];
    var v1: int := v0 * 256 + b[1];
    var v2: int := v1 * 256 + b[2];
    BigEndianStep(0, b[0], 0);
    BigEndianStep(v0, b[1], 1);
    BigEndianStep(v1, b[2], 2);
    BigEndianStep(v2, b[3], 3);
    assert b == [b[0]] + [b[1]] + [b[2]] + [b[3]];
  }

  // ------------------------------------------------------------------ frames

  datatype Frame = Frame(tag: byte, body: bytes)

  /** The length word counts itself and the body, and must fit a signed 32-bit integer. */
  predicate Fits(f: Frame) {
    |f.body| + 4 <= MAX_INT
  }

  function Encode(f: Frame): (r: bytes)
    requires Fits(f)
    ensures |r| == |f.body| + 5
  {
    [f.tag] + Be32(|f.body| + 4) + f.body
  }

  predicate AllFit(fs: seq<Frame>) {
    forall i :: 0 <= i < |fs| ==> Fits(fs[i])
  }

  /** A well-formed stream: the encodings of a list of frames, back to back. */
  function EncodeAll(fs: seq<Frame>): bytes
    requires AllFit(fs)
  {
    if fs == [] then [] else Encode(fs[0]) + EncodeAll(fs[1..])
  }

  lemma {:induction false} EncodeAllSnoc(fs: seq<Frame>, f: Frame)
    requires AllFit(fs) && Fits(f)
    ensures EncodeAll(fs + [f]) == EncodeAll(fs) + Encode(f)
  {
    if fs == [] {
      assert fs + [f] == [f] && [f][1..] == [];
    } else {
      EncodeAllSnoc(fs[1..], f);
      assert (fs + [f])[1..] == fs[1..] + [f];
      Regroup(Encode(fs[0]), EncodeAll(fs[1..]), Encode(f));
    }
  }

  lemma Regroup<T>(a: seq<T>, b: seq<T>, c: seq<T>)
    ensures a + (b + c) == (a + b) + c
  {
  }

  /** A stream is the concatenation of its encoded frames. */
  lemma {:induction false} EncodeAllIsFlatten(fs: seq<Frame>, parts: seq<bytes>)
    requires AllFit(fs) && |parts| == |fs|
    requires forall i :: 0 <= i < |fs| ==> parts[i] == Encode(fs[i])
    ensures EncodeAll(fs) == Flatten(parts)
  {
    if fs != [] {
      EncodeAllIsFlatten(fs[1..], parts[1..]);
      FlattenFront(parts);
    }
  }

  /** The length word of the frame that starts at i. */
  function LengthAt(data: bytes, i: nat): int
    requires i + 5 <= |data|
  {
    Int32(data[i + 1], data[i + 2], data[i + 3], data[i + 4])
  }

  /** The frames of a stream, cut by following length words; None when a length word does not fit. */
  function Frames(data: bytes): (r: Option<seq<Frame>>)
    decreases |data|
  {
    if data == [] then Some([])
    else if |data| < 5 || LengthAt(data, 0) < 4 || LengthAt(data, 0) + 1 > |data| then None
    else
      var end := 1 + LengthAt(data, 0);
      var rest := Frames(data[end..]);
      if rest.None? then None else Some([Frame(data[0], data[5..end])] + rest.value)
  }

  /** What a reader finds at the start of an encoded frame, whatever follows it. */
  lemma EncodedAt(f: Frame, rest: bytes)
    requires Fits(f)
    ensures var data := Encode(f) + rest;
      && |data| >= 5
      && data[0] == f.tag
      && LengthAt(data, 0) == |f.body| + 4
      && data[5..|f.body| + 5] == f.body
      && data[|f.body| + 5..] == rest
  {
    Int32RoundTrip(|f.body| + 4);
    var data := Encode(f) + rest;
    assert data[1..5] == Be32(|f.body| + 4);
    assert data[1] == data[1..5][0] && data[2] == data[1..5][1] && data[3] == data[1..5][2] && data[4] == data[1..5][3];
  }

  lemma FramesStep(f: Frame, rest: bytes)
    requires Fits(f) && Frames(rest).Some?
    ensures Frames(Encode(f) + rest) == Some([f] + Frames(rest).value)
  {
    EncodedAt(f, rest);
  }

  /** Scanning inverts encoding: a well-formed stream has exactly one reading. */
  lemma {:induction false} FramesInvertEncodeAll(fs: seq<Frame>)
    requires AllFit(fs)
    ensures Frames(EncodeAll(fs)) == Some(fs)
  {
    if fs != [] {
      var f, rest := fs[0], fs[1..];
      FramesInvertEncodeAll(rest);
      FramesStep(f, EncodeAll(rest));
      assert fs == [f] + rest;
    }
  }

  lemma EncodeAllCons(f: Frame, rest: seq<Frame>)
    requires Fits(f) && AllFit(rest)
    ensures EncodeAll([f] + rest) == Encode(f) + EncodeAll(rest)
  {
    assert ([f] + rest)[1..] == rest;
  }

  lemma EncodeFirstFrame(data: bytes)
    requires |data| >= 5 && 4 <= LengthAt(data, 0) < |data|
    ensures var end := 1 + LengthAt(data, 0);
      Encode(Frame(data[0], data[5..end])) == data[..end]
  {
    var end := 1 + LengthAt(data, 0);
    Int32Injective(data[1..5]);
    assert Be32(end - 1) == data[1..5];
    assert data[..end] == [data[0]] + data[1..5] + data[5..end];
  }

  /** The first frame of a stream that scans, and the octets after it. */
  lemma FirstFrame(data: bytes) returns (f: Frame, tail: bytes)
    requires data != [] && Frames(data).Some?
    ensures Fits(f) && data == Encode(f) + tail
    ensures Frames(tail).Some? && Frames(data).value == [f] + Frames(tail).value
  {
    var end := 1 + LengthAt(data, 0);
    f, tail := Frame(data[0], data[5..end]), data[end..];
    EncodeFirstFrame(data);
    assert data == data[..end] + tail;
  }

  /** Encoding inverts scanning: every stream that scans is well formed. */
  lemma {:induction false} EncodeAllInvertsFrames(data: bytes)
    requires Frames(data).Some?
    ensures AllFit(Frames(data).value) && EncodeAll(Frames(data).value) == data
    decreases |data|
  {
    if data != [] {
      var f, tail := FirstFrame(data);
      EncodeAllInvertsFrames(tail);
      EncodeAllCons(f, Frames(tail).value);
    }
  }

  /** Reading at an offset is reading the tail. */
  lemma ReadShifted(front: bytes, tail: bytes, n: nat)
    requires 5 <= n <= |tail|
    ensures var data := front + tail;
      && data[|front|] == tail[0]
      && LengthAt(data, |front|) == LengthAt(tail, 0)
      && data[|front| + 5..|front| + n] == tail[5..n]
  {
    var data := front + tail;
    assert forall k :: 0 <= k < |tail| ==> data[|front| + k] == tail[k];
  }

  /**
   * What the index-advancing scanners see at a frame boundary, when the octets before `i` are
   * `front` and the frames not yet read are `rest`.
   */
  lemma AtBoundary(data: bytes, i: nat, front: bytes, rest: seq<Frame>)
    requires AllFit(rest) && data == front + EncodeAll(rest) && i == |front|
    ensures rest == [] ==> i == |data|
    ensures rest != [] ==>
      && i + 5 <= |data|
      && data[i] == rest[0].tag
      && LengthAt(data, i) == |rest[0].body| + 4
      && i + 1 + LengthAt(data, i) <= |data|
      && data[i + 5..i + 1 + LengthAt(data, i)] == rest[0].body
      && data == (front + Encode(rest[0])) + EncodeAll(rest[1..])
  {
    if rest != [] {
      var tail := EncodeAll(rest[1..]);
      EncodedAt(rest[0], tail);
      ReadShifted(front, Encode(rest[0]) + tail, |rest[0].body| + 5);
      Regroup(front, Encode(rest[0]), tail);
    }
  }

  // ---------------------------------------------------------------- scanners

  const TAG_R: byte := 82
  const TAG_Z: byte := 90
  const TAG_D: byte := 68
  const COMMA: byte := 44

  /** hasReadyForQuery: on a well-formed stream, true exactly when some frame is tagged Z. */
  method HasReadyForQuery(data: bytes, ghost fs: seq<Frame>) returns (r: bool)
    requires AllFit(fs) && data == EncodeAll(fs)
    ensures r <==> exists f <- fs :: f.tag == 90
  {
    var i := 0;
    ghost var front: bytes, rest := [], fs;
    while i + 5 <= |data|
      invariant AllFit(rest) && data == front + EncodeAll(rest) && i == |front|
      invariant forall f <- fs :: f.tag == TAG_Z ==> f in rest
      invariant forall f <- rest :: f in fs
      decreases |rest|
    {
      AtBoundary(data, i, front, rest);
      assert rest != [];
      var len := LengthAt(data, i);
      if len < 4 {
        break;
      }
      if data[i] == TAG_Z {
        assert rest[0] in fs;
        return true;
      }
      i := i + 1 + len;
      front, rest := front + Encode(rest[0]), rest[1..];
    }
    AtBoundary(data, i, front, rest);
    return false;
  }

  /** The authentication request a reader of whole frames finds: the first R frame with a code. */
  ghost function AuthOf(fs: seq<Frame>): seq<int> {
    if fs == [] then [-1, 0, 0, 0, 0]
    else if fs[0].tag == TAG_R && |fs[0].body| >= 4 then AuthIn(fs[0].body)
    else AuthOf(fs[1..])
  }

  /** The code of an authentication request, with the salt when it asks for an MD5 password. */
  ghost function AuthIn(body: bytes): seq<int>
    requires |body| >= 4
  {
    var code := Int32(body[0], body[1], body[2], body[3]);
    if code == 5 && |body| >= 8 then [code, body[4], body[5], body[6], body[7]] else [code, 0, 0, 0, 0]
  }

  lemma AuthStep(fs: seq<Frame>)
    requires fs != []
    ensures AuthOf(fs) == if fs[0].tag == TAG_R && |fs[0].body| >= 4 then AuthIn(fs[0].body) else AuthOf(fs[1..])
  {
  }

  /**
   * What a reader gets, over encodings: the code of the first R frame that holds one, with the four octets behind it as
   * the salt if the code is 5, and a code of -1 if there is no such frame.
   */
  lemma {:induction false} AuthMeaning(before: seq<Frame>, code: int, rest: bytes, after: seq<Frame>)
    requires forall i :: 0 <= i < |before| ==> before[i].tag != 82 || |before[i].body| < 4
    requires -0x8000_0000 <= code <= MAX_INT
    ensures AuthOf(before) == [-1, 0, 0, 0, 0]
    ensures AuthOf(before + [Frame(82, Be32(code) + rest)] + after)
         == if code == 5 && |rest| >= 4 then [5, rest[0], rest[1], rest[2], rest[3]] else [code, 0, 0, 0, 0]
  {
    var all := before + [Frame(82, Be32(code) + rest)] + after;
    if before == [] {
      Int32RoundTrip(code);
      assert all[0] == Frame(82, Be32(code) + rest);
    } else {
      AuthMeaning(before[1..], code, rest, after);
      assert all[1..] == before[1..] + [Frame(82, Be32(code) + rest)] + after;
    }
  }

  /** parseAuth: the code and salt of the first authentication request of the stream. */
  method ParseAuth(data: bytes, ghost fs: seq<Frame>) returns (r: seq<int>)
    requires AllFit(fs) && data == EncodeAll(fs)
    ensures |r| == 5 && r == AuthOf(fs)
  {
    var i := 0;
    ghost var front: bytes, rest := [], fs;
    while i + 5 <= |data|
      invariant AllFit(rest) && data == front + EncodeAll(rest) && i == |front|
      invariant AuthOf(fs) == AuthOf(rest)
      decreases |rest|
    {
      AtBoundary(data, i, front, rest);
      assert rest != [];
      var len := LengthAt(data, i);
      if len < 4 {
        break;
      }
      AuthStep(rest);
      if data[i] == TAG_R && len >= 8 {
        r := ReadAuth(data, i, len, rest[0].body);
        return;
      }
      i := i + 1 + len;
      front, rest := front + Encode(rest[0]), rest[1..];
    }
    AtBoundary(data, i, front, rest);
    return [-1, 0, 0, 0, 0];
  }

  /** The branch of parseAuth that reads the code and the salt. */
  method ReadAuth(data: bytes, i: nat, len: int, ghost body: bytes) returns (r: seq<int>)
    requires len == |body| + 4 && len >= 8 && i + 1 + len <= |data|
    requires data[i + 5..i + 1 + len] == body
    ensures r == AuthIn(body)
  {
    ghost var start := i + 5;
    assert forall k :: 0 <= k < |body| ==> body[k] == data[start + k];
    var code := Int32(data[i + 5], data[i + 6], data[i + 7], data[i + 8]);
    if code == 5 && len >= 12 {
      return [code, data[i + 9], data[i + 10], data[i + 11], data[i + 12]];
    }
    return [code, 0, 0, 0, 0];
  }

  // ------------------------------------------------------------- row decoding

  /** A column is null or holds its text. */
  type Column = Option<bytes>

  /** A backend message: a row of columns, or anything not tagged D. */
  datatype Message = Row(columns: seq<Column>) | Other(frame: Frame)

  predicate ColumnFits(c: Column) {
    c.Some? ==> |c.value| <= MAX_INT
  }

  function EncodeColumn(c: Column): bytes
    requires ColumnFits(c)
  {
    match c
    case None => Be32(-1)
    case Some(text) => Be32(|text|) + text
  }

  predicate ColumnsFit(cs: seq<Column>) {
    forall i :: 0 <= i < |cs| ==> ColumnFits(cs[i])
  }

  function EncodeColumns(cs: seq<Column>): bytes
    requires ColumnsFit(cs)
  {
    if cs == [] then [] else EncodeColumn(cs[0]) + EncodeColumns(cs[1..])
  }

  ghost predicate MessageFits(m: Message) {
    match m
    case Row(cs) => |cs| < 0x1_0000 && ColumnsFit(cs) && 2 + |EncodeColumns(cs)| + 4 <= MAX_INT
    case Other(f) => f.tag != TAG_D && Fits(f)
  }

  ghost function FrameOf(m: Message): (f: Frame)
    requires MessageFits(m)
    ensures Fits(f)
  {
    match m
    case Row(cs) => Frame(TAG_D, BigEndian(|cs|, 2) + EncodeColumns(cs))
    case Other(f) => f
  }

  ghost predicate AllMessagesFit(ms: seq<Message>) {
    forall i :: 0 <= i < |ms| ==> MessageFits(ms[i])
  }

  ghost function FramesOf(ms: seq<Message>): (fs: seq<Frame>)
    requires AllMessagesFit(ms)
    ensures AllFit(fs)
    ensures |fs| == |ms| && forall i :: 0 <= i < |ms| ==> fs[i] == FrameOf(ms[i])
  {
    seq(|ms|, i requires 0 <= i < |ms| => FrameOf(ms[i]))
  }

  /** The non-null, non-empty texts of a row, in order. */
  ghost function Shown(cs: seq<Column>): seq<bytes> {
    if cs == [] then []
    else if cs[0].Some? && cs[0].value != [] then [cs[0].value] + Shown(cs[1..])
    else Shown(cs[1..])
  }

  ghost function ShownIn(m: Message): seq<bytes> {
    if m.Row? then Shown(m.columns) else []
  }

  /** The shown texts of all rows, in order. */
  ghost function AllShown(ms: seq<Message>): seq<bytes> {
    if ms == [] then []
    else ShownIn(ms[0]) + AllShown(ms[1..])
  }

  /** Rows and their columns show their texts one after the other; null and empty texts and other messages show nothing. */
  lemma ShownMeaning(a: seq<Column>, b: seq<Column>, text: bytes, ms: seq<Message>, ns: seq<Message>, f: Frame)
    requires text != []
    ensures Shown([]) == Shown([None]) == Shown([Some([])]) == [] && Shown([Some(text)]) == [text]
    ensures Shown(a + b) == Shown(a) + Shown(b)
    ensures AllShown([]) == AllShown([Other(f)]) == [] && AllShown([Row(a)]) == Shown(a)
    ensures AllShown(ms + ns) == AllShown(ms) + AllShown(ns)
  {
    ShownAppend(a, b);
    AllShownAppend(ms, ns);
    assert [Some(text)][1..] == [] && [Row(a)][1..] == [];
    assert [text] + [] == [text] && Shown(a) + [] == Shown(a);
  }

  lemma {:induction false} ShownAppend(a: seq<Column>, b: seq<Column>)
    ensures Shown(a + b) == Shown(a) + Shown(b)
  {
    if a == [] {
      assert a + b == b;
    } else {
      ShownAppend(a[1..], b);
      assert (a + b)[1..] == a[1..] + b;
    }
  }

  lemma {:induction false} AllShownAppend(a: seq<Message>, b: seq<Message>)
    ensures AllShown(a + b) == AllShown(a) + AllShown(b)
  {
    if a == [] {
      assert a + b == b;
    } else {
      AllShownAppend(a[1..], b);
      assert (a + b)[1..] == a[1..] + b;
      Regroup(ShownIn(a[0]), AllShown(a[1..]), AllShown(b));
    }
  }

  /** How a row is encoded: tag 68, the number of columns in two octets, and per column its length, -1 for null, and text. */
  lemma RowMeaning(cs: seq<Column>, text: bytes)
    requires MessageFits(Row(cs)) && |text| <= MAX_INT
    ensures FrameOf(Row(cs)) == Frame(68, [|cs| / 256, |cs| % 256] + EncodeColumns(cs))
    ensures EncodeColumns([]) == [] && EncodeColumn(None) == [255, 255, 255, 255]
    ensures EncodeColumn(Some(text)) == Be32(|text|) + text
    ensures cs != [] ==> EncodeColumns(cs) == EncodeColumn(cs[0]) + EncodeColumns(cs[1..])
  {
    BigEndian2(|cs|);
    MinusOne(-1);
  }

  lemma MinusOne(n: int)
    requires n == -1
    ensures Be32(n) == [255, 255, 255, 255]
  {
    var u := n + 0x1_0000_0000;
    BigEndian4(u);
    assert u / 0x100_0000 == 255 && u / 0x1_0000 == 0xFFFF && u / 256 == 0xFF_FFFF;
  }

  /** Texts are joined by the octet 44. */
  lemma JoinedMeaning(texts: seq<bytes>, text: bytes)
    ensures Joined([]) == [] && Joined([text]) == text
    ensures texts != [] ==> Joined(texts + [text]) == Joined(texts) + [44] + text
  {
    JoinedSnoc(texts, text);
  }

  /** Texts joined by commas. */
  ghost function Joined(texts: seq<bytes>): bytes {
    if texts == [] then []
    else if |texts| == 1 then texts[0]
    else Joined(texts[..|texts| - 1]) + [COMMA] + texts[|texts| - 1]
  }

  lemma JoinedSnoc(texts: seq<bytes>, text: bytes)
    ensures Joined(texts + [text]) == if texts == [] then text else Joined(texts) + [COMMA] + text
  {
    assert (texts + [text])[..|texts|] == texts;
  }

  lemma {:induction false} JoinedEmpty(texts: seq<bytes>)
    requires forall t <- texts :: t != []
    ensures Joined(texts) == [] <==> texts == []
  {
    if texts != [] {
      assert texts[|texts| - 1] in texts;
    }
  }

  lemma {:induction false} ShownNonEmpty(cs: seq<Column>)
    ensures forall t <- Shown(cs) :: t != []
  {
    if cs != [] {
      ShownNonEmpty(cs[1..]);
    }
  }

  function ColumnLength(c: Column): int {
    if c.None? then -1 else |c.value|
  }

  /** What a reader finds at the start of an encoded column, whatever follows it. */
  lemma EncodedColumn(c: Column, rest: bytes)
    requires ColumnFits(c)
    ensures var data := EncodeColumn(c) + rest;
      && |data| >= 4
      && Int32(data[0], data[1], data[2], data[3]) == ColumnLength(c)
      && (c.Some? ==> |data| >= 4 + |c.value| && data[4..4 + |c.value|] == c.value)
  {
    Int32RoundTrip(ColumnLength(c));
    var word := Be32(ColumnLength(c));
    assert (EncodeColumn(c) + rest)[..4] == word;
  }

  /** Reads the length word of the column at `pos` and the text after it. */
  method ReadColumn(body: bytes, pos: nat, ghost front: bytes, ghost c: Column, ghost rest: bytes) returns (fl: int)
    requires ColumnFits(c)
    requires body == front + (EncodeColumn(c) + rest) && pos == |front|
    ensures pos + 4 <= |body| && fl == ColumnLength(c)
    ensures c.Some? ==> pos + 4 + fl <= |body| && body[pos + 4..pos + 4 + fl] == c.value
  {
    ghost var tail := EncodeColumn(c) + rest;
    EncodedColumn(c, rest);
    assert body[pos] == tail[0] && body[pos + 1] == tail[1] && body[pos + 2] == tail[2] && body[pos + 3] == tail[3];
    fl := Int32(body[pos], body[pos + 1], body[pos + 2], body[pos + 3]);
    if c.Some? {
      assert body[pos + 4..pos + 4 + fl] == tail[4..4 + fl];
    }
  }

  /** Appends one text to the output, after a comma unless the output is empty. */
  method AppendText(sb: bytes, text: bytes, ghost texts: seq<bytes>) returns (r: bytes)
    requires sb == Joined(texts) && forall t <- texts :: t != []
    ensures r == Joined(texts + [text])
  {
    JoinedEmpty(texts);
    JoinedSnoc(texts, text);
    r := sb;
    if |r| > 0 {
      r := r + [COMMA];
    }
    r := r + text;
  }

  /** One round of the inner loop: the column at `pos` adds its text unless it is null or empty. */
  method ParseColumn(body: bytes, pos: nat, before: bytes, ghost front: bytes, ghost c: Column, ghost rest: bytes,
                     ghost texts: seq<bytes>)
    returns (sb: bytes, pos': nat)
    requires ColumnFits(c)
    requires body == front + (EncodeColumn(c) + rest) && pos == |front|
    requires before == Joined(texts) && forall t <- texts :: t != []
    ensures pos' == |front| + |EncodeColumn(c)|
    ensures sb == Joined(if c.Some? && c.value != [] then texts + [c.value] else texts)
  {
    sb := before;
    var fl := ReadColumn(body, pos, front, c, rest);
    pos' := pos + 4;
    if fl > 0 && pos' + fl <= |body| {
      sb := AppendText(sb, body[pos'..pos' + fl], texts);
      pos' := pos' + fl;
    }
  }

  /** The inner loop of parseDataRows, on the body of one row. */
  method ParseRow(body: bytes, before: bytes, ghost cs: seq<Column>, ghost shown: seq<bytes>) returns (sb: bytes)
    requires |cs| < 0x1_0000 && ColumnsFit(cs)
    requires body == BigEndian(|cs|, 2) + EncodeColumns(cs)
    requires before == Joined(shown) && forall t <- shown :: t != []
    ensures sb == Joined(shown + Shown(cs))
  {
    sb := before;
    var pos := 2;
    BigEndian2(|cs|);
    var fc := body[0] as int * 256 + body[1] as int;
    var f := 0;
    ghost var front, rest, texts := BigEndian(|cs|, 2), cs, shown;
    while f < fc && pos + 4 <= |body|
      invariant 0 <= f <= fc && fc - f == |rest| && pos == |front|
      invariant ColumnsFit(rest) && body == front + EncodeColumns(rest)
      invariant texts + Shown(rest) == shown + Shown(cs)
      invariant sb == Joined(texts) && forall t <- texts :: t != []
    {
      Regroup(front, EncodeColumn(rest[0]), EncodeColumns(rest[1..]));
      sb, pos := ParseColumn(body, pos, sb, front, rest[0], EncodeColumns(rest[1..]), texts);
      front := front + EncodeColumn(rest[0]);
      texts := ShownFront(texts, rest);
      rest := rest[1..];
      f := f + 1;
    }
    assert rest == [];
    assert texts + Shown(rest) == texts;
  }

  /** Moves the first column's text, if it is shown, to the list of texts. */
  lemma ShownFront(texts: seq<bytes>, rest: seq<Column>) returns (texts': seq<bytes>)
    requires rest != [] && forall t <- texts :: t != []
    ensures texts' == if rest[0].Some? && rest[0].value != [] then texts + [rest[0].value] else texts
    ensures texts' + Shown(rest[1..]) == texts + Shown(rest)
    ensures forall t <- texts' :: t != []
  {
    texts' := if rest[0].Some? && rest[0].value != [] then texts + [rest[0].value] else texts;
  }

  lemma EmptyRow(cs: seq<Column>)
    requires ColumnsFit(cs) && EncodeColumns(cs) == []
    ensures cs == [] && Shown(cs) == []
  {
  }

  /** One message of the stream: rows add their texts, anything else is skipped. */
  method ParseBody(tag: byte, body: bytes, before: bytes, ghost m: Message, ghost shown: seq<bytes>) returns (sb: bytes)
    requires MessageFits(m) && Frame(tag, body) == FrameOf(m)
    requires before == Joined(shown) && forall t <- shown :: t != []
    ensures sb == Joined(shown + ShownIn(m))
  {
    sb := before;
    assert shown + [] == shown;
    if tag == TAG_D && |body| + 4 > 6 {
      sb := ParseRow(body, before, m.columns, shown);
    } else if m.Row? {
      EmptyRow(m.columns);
    }
  }

  /**
   * parseDataRows: the comma-joined non-null, non-empty column texts of all rows, in order, whatever other
   * messages are mixed in.
   */
  method ParseDataRows(data: bytes, ghost ms: seq<Message>) returns (sb: bytes)
    requires AllMessagesFit(ms) && data == EncodeAll(FramesOf(ms))
    ensures sb == Joined(AllShown(ms))
  {
    sb := [];
    var i := 0;
    ghost var front: bytes, rest, texts: seq<bytes> := [], ms, [];
    while i + 5 <= |data|
      invariant AllMessagesFit(rest) && data == front + EncodeAll(FramesOf(rest)) && i == |front|
      invariant texts + AllShown(rest) == AllShown(ms)
      invariant sb == Joined(texts) && forall t <- texts :: t != []
      decreases |rest|
    {
      AtBoundary(data, i, front, FramesOf(rest));
      assert rest != [];
      var len := LengthAt(data, i);
      if len < 4 || i + 1 + len > |data| {
        break;
      }
      sb := ParseBody(data[i], data[i + 5..i + 1 + len], sb, rest[0], texts);
      front := front + Encode(FrameOf(rest[0]));
      texts := TakeMessage(rest, texts);
      rest := rest[1..];
      i := i + 1 + len;
    }
    AtBoundary(data, i, front, FramesOf(rest));
    assert texts + AllShown(rest) == texts;
  }

  /** Moves the texts of the first message to the list of texts. */
  lemma TakeMessage(rest: seq<Message>, texts: seq<bytes>) returns (texts': seq<bytes>)
    requires rest != [] && AllMessagesFit(rest) && forall t <- texts :: t != []
    ensures texts' == texts + ShownIn(rest[0]) && forall t <- texts' :: t != []
    ensures texts' + AllShown(rest[1..]) == texts + AllShown(rest)
    ensures AllMessagesFit(rest[1..]) && FramesOf(rest)[1..] == FramesOf(rest[1..])
  {
    texts' := texts + ShownIn(rest[0]);
    Regroup(texts, ShownIn(rest[0]), AllShown(rest[1..]));
    if rest[0].Row? {
      ShownNonEmpty(rest[0].columns);
    }
  }

  // ---------------------------------------------------------------- builders

  const NUL: byte := 0

  function CString(text: bytes): bytes {
    text + [NUL]
  }

  /** The text up to the first NUL, and what follows that NUL. */
  function TakeCString(data: bytes): Option<(bytes, bytes)> {
    if data == [] then None
    else if data[0] == NUL then Some(([], data[1..]))
    else
      var rest := TakeCString(data[1..]);
      if rest.None? then None else Some(([data[0]] + rest.value.0, rest.value.1))
  }

  lemma {:induction false} TakeInvertsCString(text: bytes, rest: bytes)
    requires NUL !in text
    ensures TakeCString(CString(text) + rest) == Some((text, rest))
  {
    var data := CString(text) + rest;
    if text == [] {
      assert data[1..] == rest;
    } else {
      TakeInvertsCString(text[1..], rest);
      assert data[1..] == CString(text[1..]) + rest;
      assert text == [text[0]] + text[1..];
    }
  }

  function QueryFrame(sql: bytes): Frame { Frame(81, CString(sql)) }
  function ParseFrame(name: bytes, sql: bytes): Frame { Frame(80, CString(name) + CString(sql) + [0, 0]) }
  function BindFrame(portal: bytes, name: bytes): Frame { Frame(66, CString(portal) + CString(name) + [0, 0, 0, 0, 0, 0]) }
  function DescribeFrame(kind: byte, name: bytes): Frame { Frame(TAG_D, [kind] + CString(name)) }
  function ExecuteFrame(portal: bytes, maxRows: int): Frame
    requires -0x8000_0000 <= maxRows <= MAX_INT
  {
    Frame(69, CString(portal) + Be32(maxRows))
  }
  const SYNC_FRAME: Frame := Frame(83, [])

  /** A message of the given body length with its tag and length word filled in. */
  method NewMessage(tag: byte, bodyLen: nat) returns (msg: array<byte>)
    requires bodyLen + 4 <= MAX_INT
    ensures fresh(msg) && msg.Length == bodyLen + 5
    ensures msg[..5] == [tag] + Be32(bodyLen + 4)
    ensures forall k :: 5 <= k < msg.Length ==> msg[k] == 0
  {
    msg := new byte[5 + bodyLen](_ => 0);
    msg[0] := tag;
    var len := bodyLen + 4;
    BigEndian4(len);
    msg[1] := len / 0x100_0000;
    msg[2] := len / 0x1_0000 % 256;
    msg[3] := len / 256 % 256;
    msg[4] := len % 256;
  }

  /** buildSimpleQuery: room for the terminator is left zero rather than copied. */
  method BuildSimpleQuery(sql: bytes) returns (msg: array<byte>)
    requires Fits(QueryFrame(sql))
    ensures msg[..] == Encode(QueryFrame(sql))
  {
    msg := NewMessage(81, |sql| + 1);
    Copy(sql, msg, 5);
    assert msg[5 + |sql|..] == [0];
    assert msg[..] == msg[..5 + |sql|] + msg[5 + |sql|..];
  }

  /** queryMessage: copies the text with its terminator; the same octets as BuildSimpleQuery. */
  method QueryMessage(sql: bytes) returns (msg: array<byte>)
    requires Fits(QueryFrame(sql))
    ensures msg[..] == Encode(QueryFrame(sql))
  {
    var sqlBytes := CString(sql);
    msg := NewMessage(81, |sqlBytes|);
    Copy(sqlBytes, msg, 5);
    assert msg[..] == msg[..5 + |sqlBytes|];
  }

  /** The common shape of Parse and Bind: two terminated texts and then zero counts. */
  method TwoTexts(tag: byte, first: bytes, second: bytes, counts: bytes) returns (msg: array<byte>)
    requires Fits(Frame(tag, first + second + counts))
    ensures msg[..] == Encode(Frame(tag, first + second + counts))
  {
    msg := NewMessage(tag, |first| + |second| + |counts|);
    ghost var head := msg[..5];
    var pos := 5;
    Copy(first, msg, pos);
    pos := pos + |first|;
    assert msg[..pos] == head + first;
    Copy(second, msg, pos);
    pos := pos + |second|;
    assert msg[..pos] == head + first + second;
    Copy(counts, msg, pos);
    assert msg[..] == msg[..pos + |counts|];
    Regroup(head, first, second);
    Regroup(head, first + second, counts);
  }

  method ParseMessage(name: bytes, sql: bytes) returns (msg: array<byte>)
    requires Fits(ParseFrame(name, sql))
    ensures msg[..] == Encode(ParseFrame(name, sql))
  {
    msg := TwoTexts(80, CString(name), CString(sql), [0, 0]);
  }

  method BindMessage(portal: bytes, name: bytes) returns (msg: array<byte>)
    requires Fits(BindFrame(portal, name))
    ensures msg[..] == Encode(BindFrame(portal, name))
  {
    msg := TwoTexts(66, CString(portal), CString(name), [0, 0, 0, 0, 0, 0]);
  }

  method DescribeMessage(kind: byte, name: bytes) returns (msg: array<byte>)
    requires Fits(DescribeFrame(kind, name))
    ensures msg[..] == Encode(DescribeFrame(kind, name))
  {
    var nameBytes := CString(name);
    msg := NewMessage(TAG_D, 1 + |nameBytes|);
    Copy([kind], msg, 5);
    Copy(nameBytes, msg, 6);
    assert msg[..] == msg[..6 + |nameBytes|];
  }

  method ExecuteMessage(portal: bytes, maxRows: int) returns (msg: array<byte>)
    requires -0x8000_0000 <= maxRows <= MAX_INT
    requires Fits(ExecuteFrame(portal, maxRows))
    ensures msg[..] == Encode(ExecuteFrame(portal, maxRows))
  {
    var portalBytes := CString(portal);
    msg := NewMessage(69, |portalBytes| + 4);
    var pos := 5;
    Copy(portalBytes, msg, pos);
    pos := pos + |portalBytes|;
    Copy(Be32(maxRows), msg, pos);
    assert msg[..] == msg[..pos + 4];
  }

  ghost function BatchFrames(sql: bytes): seq<Frame> {
    [ParseFrame([], sql), BindFrame([], []), DescribeFrame(83, []), ExecuteFrame([], 0), SYNC_FRAME]
  }

  lemma BatchMeaning(sql: bytes)
    ensures BatchFrames(sql) == [Frame(80, [0] + sql + [0, 0, 0]), Frame(66, [0, 0, 0, 0, 0, 0, 0, 0]),
                                 Frame(68, [83, 0]), Frame(69, [0, 0, 0, 0, 0]), Frame(83, [])]
  {
    BigEndian4(0);
    var fs := BatchFrames(sql);
    assert fs[0].body == [0] + sql + [0, 0, 0];
    assert fs[1].body == [0, 0, 0, 0, 0, 0, 0, 0];
    assert fs[2].body == [83, 0];
    assert fs[3].body == [0, 0, 0, 0, 0];
  }

  /**
   * extendedQueryBatch: the octets scan as exactly the five frames Parse, Bind, Describe, Execute and Sync,
   * ending at the last octet.
   */
  method ExtendedQueryBatch(sql: bytes) returns (batch: array<byte>)
    requires |sql| + 44 <= MAX_INT
    ensures AllFit(BatchFrames(sql))
    ensures batch[..] == EncodeAll(BatchFrames(sql))
    ensures Frames(batch[..]) == Some(BatchFrames(sql))
    ensures BatchFrames(sql) == [Frame(80, [0] + sql + [0, 0, 0]), Frame(66, [0, 0, 0, 0, 0, 0, 0, 0]),
                                 Frame(68, [83, 0]), Frame(69, [0, 0, 0, 0, 0]), Frame(83, [])]
  {
    BatchMeaning(sql);
    var parse := ParseMessage([], sql);
    var bind := BindMessage([], []);
    var describe := DescribeMessage(83, []);
    var execute := ExecuteMessage([], 0);
    var sync: bytes := [83, 0, 0, 0, 4];
    BigEndian4(4);
    assert sync == Encode(SYNC_FRAME);
    var parts := [parse[..], bind[..], describe[..], execute[..], sync];
    batch := Concat(parts);
    EncodeAllIsFlatten(BatchFrames(sql), parts);
    FramesInvertEncodeAll(BatchFrames(sql));
  }

  /** Every field of a built message can be read back from its body. */
  lemma FieldsRecoverable(name: bytes, sql: bytes, kind: byte, maxRows: int)
    requires NUL !in name && NUL !in sql && -0x8000_0000 <= maxRows <= MAX_INT
    ensures QueryFrame(sql).tag == 81 && ParseFrame(name, sql).tag == 80 && BindFrame(name, sql).tag == 66
    ensures DescribeFrame(kind, name).tag == 68 && ExecuteFrame(name, maxRows).tag == 69 && SYNC_FRAME == Frame(83, [])
    ensures TakeCString(QueryFrame(sql).body) == Some((sql, []))
    ensures var r := TakeCString(ParseFrame(name, sql).body);
      r.Some? && r.value.0 == name && TakeCString(r.value.1) == Some((sql, [0, 0]))
    ensures var r := TakeCString(BindFrame(name, sql).body);
      r.Some? && r.value.0 == name && TakeCString(r.value.1) == Some((sql, [0, 0, 0, 0, 0, 0]))
    ensures DescribeFrame(kind, name).body[0] == kind
    ensures TakeCString(DescribeFrame(kind, name).body[1..]) == Some((name, []))
    ensures TakeCString(ExecuteFrame(name, maxRows).body) == Some((name, Be32(maxRows)))
  {
    TakeInvertsCString(sql, []);
    assert CString(sql) + [] == CString(sql);
    TakeInvertsCString(name, CString(sql) + [0, 0]);
    assert ParseFrame(name, sql).body == CString(name) + (CString(sql) + [0, 0]);
    TakeInvertsCString(sql, [0, 0]);
    TakeInvertsCString(name, CString(sql) + [0, 0, 0, 0, 0, 0]);
    assert BindFrame(name, sql).body == CString(name) + (CString(sql) + [0, 0, 0, 0, 0, 0]);
    TakeInvertsCString(sql, [0, 0, 0, 0, 0, 0]);
    TakeInvertsCString(name, []);
    assert DescribeFrame(kind, name).body[1..] == CString(name) + [];
    TakeInvertsCString(name, Be32(maxRows));
  }

  // ----------------------------------------------------------- ReadyForQuery

  /** endsWithReadyForQuery: looks at the last six octets only. */
  predicate EndsWithReadyForQuery(response: bytes) {
    if |response| < 6 then false
    else
      var off := |response| - 6;
      && response[off] == TAG_Z
      && response[off + 1] == 0
      && response[off + 2] == 0
      && response[off + 3] == 0
      && response[off + 4] == 5
  }

  lemma LastSixDecide(front: bytes, tail: bytes)
    requires |tail| >= 6
    ensures EndsWithReadyForQuery(front + tail) <==> EndsWithReadyForQuery(tail)
  {
    assert (front + tail)[|front|..] == tail;
    assert forall k :: 0 <= k < |tail| ==> (front + tail)[|front| + k] == tail[k];
  }

  /** The octets of a short frame, whose length word is less than 256. */
  lemma ShortEncoding(f: Frame)
    requires |f.body| < 6
    ensures Encode(f) == [f.tag, 0, 0, 0, |f.body| + 4] + f.body
  {
    BigEndian4(|f.body| + 4);
    assert Be32(|f.body| + 4) == [0, 0, 0, |f.body| + 4];
  }

  lemma ShortFrameIsReady(front: bytes, f: Frame)
    requires |f.body| < 6
    ensures EndsWithReadyForQuery(front + Encode(f)) <==> |f.body| == 1 && f.tag == TAG_Z
  {
    ShortEncoding(f);
    var n := |front|;
    var all := front + Encode(f);
    assert all[n] == f.tag && all[n + 1] == all[n + 2] == all[n + 3] == 0 && all[n + 4] == |f.body| + 4;
    assert |all| == n + 5 + |f.body|;
  }

  /**
   * When the test passes on a well-formed stream: exactly when the last frame is a one-octet frame tagged Z, as
   * ReadyForQuery is, or when its body ends in the octets of one.
   */
  lemma EndsWithReadyForQueryMeaning(fs: seq<Frame>, last: Frame)
    requires AllFit(fs) && Fits(last)
    ensures AllFit(fs + [last])
    ensures EndsWithReadyForQuery(EncodeAll(fs + [last]))
            <==> (|last.body| == 1 && last.tag == 90)
                 || (|last.body| >= 6 && last.body[|last.body| - 6..|last.body| - 1] == [90, 0, 0, 0, 5])
  {
    EncodeAllSnoc(fs, last);
    var front := EncodeAll(fs);
    if |last.body| < 6 {
      ShortFrameIsReady(front, last);
    } else {
      var head := [last.tag] + Be32(|last.body| + 4);
      assert front + Encode(last) == (front + head) + last.body;
      LastSixDecide(front + head, last.body);
      SixOctets(last.body);
    }
  }

  lemma SixOctets(body: bytes)
    requires |body| >= 6
    ensures EndsWithReadyForQuery(body) <==> body[|body| - 6..|body| - 1] == [TAG_Z, 0, 0, 0, 5]
  {
    var off := |body| - 6;
    var five := body[off..off + 5];
    assert five[0] == body[off] && five[1] == body[off + 1] && five[2] == body[off + 2];
    assert five[3] == body[off + 3] && five[4] == body[off + 4];
    assert five == [five[0], five[1], five[2], five[3], five[4]];
  }

  /** The test looks inside bodies: a row whose text ends like a ReadyForQuery frame also passes it. */
  lemma EndsWithReadyForQueryIsNotExact()
    ensures exists fs: seq<Frame> ::
              AllFit(fs) && (forall f <- fs :: f.tag != TAG_Z) && EndsWithReadyForQuery(EncodeAll(fs))
  {
    var body: bytes := [0, 1, 0, 0, 0, 6, TAG_Z, 0, 0, 0, 5, 73];
    var f := Frame(TAG_D, body);
    var fs := [f];
    assert fs[1..] == [] && EncodeAll(fs) == Encode(f) + [];
    assert EndsWithReadyForQuery(EncodeAll(fs));
  }
}
