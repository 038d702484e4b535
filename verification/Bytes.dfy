/** Octets, octet strings and the concatenation of a list of octet strings. */
module Bytes {
  datatype Option<+T> = None | Some(value: T)

  type byte = x: int | 0 <= x < 256
  type bytes = seq<byte>

  /** All parts, in order, as one octet string. */
  function Flatten(parts: seq<bytes>): bytes {
    if parts == [] then [] else Flatten(parts[..|parts| - 1]) + parts[|parts| - 1]
  }

  lemma FlattenSnoc(parts: seq<bytes>, last: bytes)
    ensures Flatten(parts + [last]) == Flatten(parts) + last
  {
    assert (parts + [last])[..|parts|] == parts;
  }

  lemma {:induction false} FlattenAppend(a: seq<bytes>, b: seq<bytes>)
    ensures Flatten(a + b) == Flatten(a) + Flatten(b)
  {
    if b == [] {
      assert a + b == a;
    } else {
      var n := |b| - 1;
      FlattenAppend(a, b[..n]);
      assert (a + b)[..|a + b| - 1] == a + b[..n];
      Associate(Flatten(a), Flatten(b[..n]), b[n]);
    }
  }

  lemma Associate(a: bytes, b: bytes, c: bytes)
    ensures a + (b + c) == a + b + c
  {
  }

  lemma FlattenOne(part: bytes)
    ensures Flatten([part]) == part
  {
    assert [part][..0] == [];
    assert Flatten([part]) == [] + part;
  }

  lemma FlattenFront(parts: seq<bytes>)
    requires parts != []
    ensures Flatten(parts) == parts[0] + Flatten(parts[1..])
  {
    assert parts == [parts[0]] + parts[1..];
    FlattenAppend([parts[0]], parts[1..]);
    FlattenOne(parts[0]);
  }

  /** Copies `src` into `dst` from `pos` on. */
  method Copy(src: bytes, dst: array<byte>, pos: nat)
    requires pos + |src| <= dst.Length
    modifies dst
    ensures dst[..pos + |src|] == old(dst[..pos]) + src
    ensures dst[pos + |src|..] == old(dst[pos + |src|..])
    ensures forall j :: 0 <= j < dst.Length && !(pos <= j < pos + |src|) ==> dst[j] == old(dst[j])
  {
    for k := 0 to |src|
      invariant forall j :: 0 <= j < k ==> dst[pos + j] == src[j]
      invariant forall j :: 0 <= j < dst.Length && !(pos <= j < pos + k) ==> dst[j] == old(dst[j])
    {
      dst[pos + k] := src[k];
    }
  }

  lemma {:induction false} FlattenLength(parts: seq<bytes>, i: nat)
    requires i <= |parts|
    ensures |Flatten(parts[..i])| <= |Flatten(parts)|
    decreases |parts| - i
  {
    if i < |parts| {
      FlattenLength(parts, i + 1);
      assert parts[..i + 1][..i] == parts[..i];
    } else {
      assert parts[..i] == parts;
    }
  }

  /** PGLite.concat: one pass adds up the lengths, a second one copies the parts back to back. */
  method Concat(parts: seq<bytes>) returns (result: array<byte>)
    ensures fresh(result) && result[..] == Flatten(parts)
  {
    var totalLen := 0;
    for i := 0 to |parts|
      invariant totalLen == |Flatten(parts[..i])|
    {
      assert parts[..i + 1][..i] == parts[..i];
      totalLen := totalLen + |parts[i]|;
    }
    assert parts[..|parts|] == parts;
    result := new byte[totalLen](_ => 0);
    var pos := 0;
    for i := 0 to |parts|
      invariant pos == |Flatten(parts[..i])| <= totalLen
      invariant result[..pos] == Flatten(parts[..i])
    {
      assert parts[..i + 1][..i] == parts[..i];
      FlattenLength(parts, i + 1);
      Copy(parts[i], result, pos);
      pos := pos + |parts[i]|;
    }
    assert result[..] == result[..pos];
  }
}
