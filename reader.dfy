/**
 * The primitive reader (read_str, read_u8 ... read_i32): fixed-width
 * integers taken from a forward-only cursor over the dump, in the byte
 * order the decoder has selected.  The process-wide BIG_ENDIAN flag of the
 * program is the `bigEndian` field of the Stream.
 */
module Reader {
  import opened Base

  function Pow256(k: nat): (r: nat)
    ensures r >= 1
  {
    if k == 0 then 1 else 256 * Pow256(k - 1)
  }

  /** Most significant byte first (struct's '>' and '!' prefixes). */
  function BigEndianValue(s: seq<byte>): nat
  {
    if s == [] then 0 else BigEndianValue(s[..|s| - 1]) * 256 + s[|s| - 1]
  }

  /** Least significant byte first (struct's '<' prefix). */
  function LittleEndianValue(s: seq<byte>): nat
  {
    if s == [] then 0 else s[0] + 256 * LittleEndianValue(s[1..])
  }

  function Unsigned(s: seq<byte>, bigEndian: bool): nat
  {
    if bigEndian then BigEndianValue(s) else LittleEndianValue(s)
  }

  /** Two's complement reading of an unsigned value of `width` bytes. */
  function ToSigned(u: nat, width: nat): int
  {
    if width > 0 && 2 * u >= Pow256(width) then u - Pow256(width) else u
  }

  function Signed(s: seq<byte>, bigEndian: bool): int
  {
    ToSigned(Unsigned(s, bigEndian), |s|)
  }

  function Reverse(s: seq<byte>): (r: seq<byte>)
    ensures |r| == |s|
    ensures forall k :: 0 <= k < |s| ==> r[k] == s[|s| - 1 - k]
  {
    if s == [] then [] else Reverse(s[1..]) + [s[0]]
  }

  /** Encoder that BigEndianValue inverts: `k` bytes, most significant first. */
  function BigEndianBytes(v: nat, k: nat): (r: seq<byte>)
    ensures |r| == k
  {
    if k == 0 then [] else BigEndianBytes(v / 256, k - 1) + [v % 256]
  }

  lemma {:induction false} UnsignedBound(s: seq<byte>, bigEndian: bool)
    ensures Unsigned(s, bigEndian) < Pow256(|s|)
  {
    if bigEndian {
      BigEndianBound(s);
    } else {
      LittleEndianBound(s);
    }
  }

  lemma {:induction false} BigEndianBound(s: seq<byte>)
    ensures BigEndianValue(s) < Pow256(|s|)
  {
    if s != [] {
      BigEndianBound(s[..|s| - 1]);
    }
  }

  lemma {:induction false} LittleEndianBound(s: seq<byte>)
    ensures LittleEndianValue(s) < Pow256(|s|)
  {
    if s != [] {
      LittleEndianBound(s[1..]);
    }
  }

  /** Decoding inverts encoding: every value that fits in k bytes survives. */
  lemma {:induction false} BigEndianRoundTrip(v: nat, k: nat)
    requires v < Pow256(k)
    ensures BigEndianValue(BigEndianBytes(v, k)) == v
  {
    if k > 0 {
      BigEndianRoundTrip(v / 256, k - 1);
      var r := BigEndianBytes(v, k);
      assert r[..|r| - 1] == BigEndianBytes(v / 256, k - 1);
    }
  }

  /** Encoding inverts decoding: no two byte strings of one length decode alike. */
  lemma {:induction false} BigEndianEncodeDecode(s: seq<byte>)
    ensures BigEndianBytes(BigEndianValue(s), |s|) == s
  {
    if s != [] {
      var init := s[..|s| - 1];
      BigEndianEncodeDecode(init);
      var v := BigEndianValue(s);
      assert v / 256 == BigEndianValue(init);
      assert v % 256 == s[|s| - 1];
      assert s == init + [s[|s| - 1]];
    }
  }

  /** Little-endian decoding is big-endian decoding of the reversed bytes:
      the same file read in the other byte order sees every field swapped. */
  lemma {:induction false} LittleIsReversedBig(s: seq<byte>)
    ensures LittleEndianValue(s) == BigEndianValue(Reverse(s))
  {
    if s != [] {
      LittleIsReversedBig(s[1..]);
      var r := Reverse(s);
      assert r[..|r| - 1] == Reverse(s[1..]);
    }
  }

  /** The signed reading lies in the two's complement range and agrees with
      the unsigned reading modulo 256^width. */
  lemma SignedRange(s: seq<byte>, bigEndian: bool)
    requires |s| > 0
    ensures -(Pow256(|s|) as int) <= 2 * Signed(s, bigEndian) < Pow256(|s|)
    ensures Signed(s, bigEndian) == Unsigned(s, bigEndian)
         || Signed(s, bigEndian) == Unsigned(s, bigEndian) - Pow256(|s|)
  {
    UnsignedBound(s, bigEndian);
  }

  /** fd.read(n) at offset pos: at most n bytes, fewer near the end. */
  function Take(data: seq<byte>, pos: nat, n: nat): seq<byte>
  {
    Slice(data, pos, pos + n)
  }

  /** A fixed-width unsigned read at `pos`; struct.error when short. */
  function UnsignedAt(data: seq<byte>, pos: nat, width: nat, bigEndian: bool): (r: Result<nat>)
    requires width > 0
    ensures r.Ok? <==> pos + width <= |data|
    ensures r.Err? ==> r.error == UnexpectedEof
    ensures r.Ok? ==> r.value < Pow256(width) && r.value == Unsigned(data[pos..pos + width], bigEndian)
  {
    var b := Take(data, pos, width);
    UnsignedBound(b, bigEndian);
    if |b| < width then Err(UnexpectedEof) else Ok(Unsigned(b, bigEndian))
  }

  /** A fixed-width signed read at `pos`; struct.error when short. */
  function SignedAt(data: seq<byte>, pos: nat, width: nat, bigEndian: bool): (r: Result<int>)
    requires width > 0
    ensures r.Ok? <==> pos + width <= |data|
    ensures r.Err? ==> r.error == UnexpectedEof
    ensures r.Ok? ==> r.value == ToSigned(UnsignedAt(data, pos, width, bigEndian).value, width)
  {
    var b := Take(data, pos, width);
    if |b| < width then Err(UnexpectedEof) else Ok(Signed(b, bigEndian))
  }

  /** A single byte reads the same in either byte order. */
  lemma OneByteIgnoresOrder(data: seq<byte>, pos: nat)
    requires pos < |data|
    ensures UnsignedAt(data, pos, 1, true) == UnsignedAt(data, pos, 1, false) == Ok(data[pos])
  {
    var b := data[pos..pos + 1];
    assert b[..0] == [] && b[1..] == [];
  }

  /** The open dump file: a byte string, a read offset, and the byte order
      in force for multi-byte reads. */
  class Stream {
    const data: seq<byte>
    var pos: nat
    var bigEndian: bool

    ghost predicate Valid()
      reads this
    {
      pos <= |data|
    }

    constructor (data: seq<byte>, bigEndian: bool)
      ensures Valid()
      ensures this.data == data && pos == 0 && this.bigEndian == bigEndian
    {
      this.data := data;
      pos := 0;
      this.bigEndian := bigEndian;
    }

    /** read_str: never fails; near the end of the file it returns fewer bytes. */
    method ReadStr(n: nat) returns (r: seq<byte>)
      requires Valid()
      modifies this`pos
      ensures Valid()
      ensures r == Take(data, old(pos), n)
      ensures |r| == Min(n, |data| - old(pos))
      ensures pos == old(pos) + |r|
    {
      var end := Min(pos + n, |data|);
      r := data[pos..end];
      pos := end;
    }

    /** Shared body of the fixed-width readers: read `width` bytes, fail when short. */
    method ReadUnsigned(width: nat) returns (r: Result<nat>)
      requires Valid() && width > 0
      modifies this`pos
      ensures Valid()
      ensures pos == Min(old(pos) + width, |data|)
      ensures r == UnsignedAt(data, old(pos), width, bigEndian)
    {
      var b := ReadStr(width);
      if |b| < width {
        return Err(UnexpectedEof);
      }
      r := Ok(Unsigned(b, bigEndian));
    }

    method ReadSigned(width: nat) returns (r: Result<int>)
      requires Valid() && width > 0
      modifies this`pos
      ensures Valid()
      ensures pos == Min(old(pos) + width, |data|)
      ensures r == SignedAt(data, old(pos), width, bigEndian)
    {
      var b := ReadStr(width);
      if |b| < width {
        return Err(UnexpectedEof);
      }
      r := Ok(Signed(b, bigEndian));
    }

    method ReadU8() returns (r: Result<nat>)
      requires Valid()
      modifies this`pos
      ensures Valid()
      ensures pos == Min(old(pos) + 1, |data|)
      ensures r == if old(pos) < |data| then Ok(data[old(pos)]) else Err(UnexpectedEof)
    {
      ghost var p := pos;
      r := ReadUnsigned(1);
      if p < |data| {
        OneByteIgnoresOrder(data, p);
      }
    }

    method ReadI8() returns (r: Result<int>)
      requires Valid()
      modifies this`pos
      ensures Valid()
      ensures pos == Min(old(pos) + 1, |data|)
      ensures r == if old(pos) < |data| then Ok(ToSigned(data[old(pos)], 1)) else Err(UnexpectedEof)
    {
      ghost var p := pos;
      r := ReadSigned(1);
      if p < |data| {
        OneByteIgnoresOrder(data, p);
      }
    }

    method ReadU16() returns (r: Result<nat>)
      requires Valid()
      modifies this`pos
      ensures Valid()
      ensures pos == Min(old(pos) + 2, |data|)
      ensures r == UnsignedAt(data, old(pos), 2, bigEndian)
    {
      r := ReadUnsigned(2);
    }

    method ReadI16() returns (r: Result<int>)
      requires Valid()
      modifies this`pos
      ensures Valid()
      ensures pos == Min(old(pos) + 2, |data|)
      ensures r == SignedAt(data, old(pos), 2, bigEndian)
    {
      r := ReadSigned(2);
    }

    method ReadU32() returns (r: Result<nat>)
      requires Valid()
      modifies this`pos
      ensures Valid()
      ensures pos == Min(old(pos) + 4, |data|)
      ensures r == UnsignedAt(data, old(pos), 4, bigEndian)
    {
      r := ReadUnsigned(4);
    }

    method ReadI32() returns (r: Result<int>)
      requires Valid()
      modifies this`pos
      ensures Valid()
      ensures pos == Min(old(pos) + 4, |data|)
      ensures r == SignedAt(data, old(pos), 4, bigEndian)
    {
      r := ReadSigned(4);
    }
  }
}
