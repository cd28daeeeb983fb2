// The byte stream codec of tasks/task5/common/bytestream.hpp: ByteOstream
// appends fixed-size values, length-prefixed arrays and LSB-first bit-packed
// boolean masks to a growing byte vector; ByteIstream reads them back from a
// span whose front it eats. The reader checks no lengths, so every read
// requires that the bytes it touches are there.
module ByteStream {
  import opened Types

  /** Bytes of a size_t on the (little-endian, 64-bit) host. */
  const SizeBytes: nat := 8

  function Pow256(k: nat): (r: nat)
    ensures r > 0
  {
    if k == 0 then 1 else 256 * Pow256(k - 1)
  }

  /** n as k little-endian bytes: the object representation of a k-byte unsigned integer. */
  function EncodeLE(n: nat, k: nat): (r: seq<Byte>)
    requires n < Pow256(k)
    ensures |r| == k
  {
    if k == 0 then [] else [ByteOf(n % 256)] + EncodeLE(n / 256, k - 1)
  }

  /** The unsigned integer whose little-endian representation is s. */
  function DecodeLE(s: seq<Byte>): (n: nat)
    ensures n < Pow256(|s|)
  {
    if s == [] then 0 else s[0] as nat + 256 * DecodeLE(s[1..])
  }

  lemma {:induction false} DecodeEncodeLE(n: nat, k: nat)
    requires n < Pow256(k)
    ensures DecodeLE(EncodeLE(n, k)) == n
  {
    if k > 0 {
      var q := n / 256;
      var r := n % 256;
      var e := EncodeLE(n, k);
      assert e[1..] == EncodeLE(q, k - 1);
      DecodeEncodeLE(q, k - 1);
      ByteOfSmall(r);
      assert DecodeLE(e) == r + 256 * q;
      DivMod256(n);
    }
  }

  /** The byte whose value is r, built bit by bit from the most significant end. */
  function ByteOf(r: nat): Byte
    requires r < 256
  {
    if r == 0 then 0 else (ByteOf(r / 2) << 1) | (if r % 2 == 1 then 1 else 0)
  }

  lemma ShiftIn(b: Byte, odd: bool)
    requires b as nat < 128
    ensures ((b << 1) | (if odd then 1 else 0)) as nat == 2 * (b as nat) + (if odd then 1 else 0)
  {
  }

  lemma {:induction false} ByteOfSmall(r: nat)
    requires r < 256
    ensures ByteOf(r) as nat == r
  {
    if r > 0 {
      ByteOfSmall(r / 2);
      ShiftIn(ByteOf(r / 2), r % 2 == 1);
    }
  }

  lemma DivMod256(n: nat)
    ensures n % 256 + 256 * (n / 256) == n
  {
  }

  lemma Pow256Of8()
    ensures Pow256(SizeBytes) == U64_LIMIT
  {
  }

  /** memcpy of a size_t into the stream. */
  function EncodeSize(n: u64): (r: seq<Byte>)
    ensures |r| == SizeBytes
  {
    Pow256Of8();
    EncodeLE(n, SizeBytes)
  }

  /** memcpy of the first 8 bytes of s into a size_t. */
  function DecodeSize(s: seq<Byte>): u64
    requires |s| >= SizeBytes
  {
    Pow256Of8();
    DecodeLE(s[..SizeBytes])
  }

  lemma SizeRoundTrip(n: u64, rest: seq<Byte>)
    ensures DecodeSize(EncodeSize(n) + rest) == n
  {
    Pow256Of8();
    assert (EncodeSize(n) + rest)[..SizeBytes] == EncodeLE(n, SizeBytes);
    DecodeEncodeLE(n, SizeBytes);
  }

  // ---------------------------------------------------------------------------
  // Bit packing of vector<bool>

  /** Bit k (LSB first) of b: (b >> k) & 1. */
  function BitOf(b: Byte, k: nat): bool
    requires k < 8
  {
    (b >> k) & 1 != 0
  }

  /** The byte the packing loop builds from up to 8 flags: bit j is bits[j], higher bits are 0. */
  function PackBits(bits: seq<bool>): Byte
    requires |bits| <= 8
  {
    if bits == [] then 0
    else PackBits(bits[..|bits| - 1]) | FlagBit(bits[|bits| - 1], |bits| - 1)
  }

  /** One flag shifted into bit position n. */
  function FlagBit(flag: bool, n: nat): Byte
    requires n < 8
  {
    (if flag then 1 else 0) << n
  }

  lemma BitOfOr(x: Byte, v: Byte, m: nat, k: nat)
    requires v == 0 || v == 1
    requires m < 8 && k < 8
    ensures BitOf(x | (v << m), k) == (BitOf(x, k) || (k == m && v == 1))
  {
  }

  lemma {:induction false} PackBitsBit(bits: seq<bool>, k: nat)
    requires |bits| <= 8 && k < 8
    ensures BitOf(PackBits(bits), k) == (k < |bits| && bits[k])
  {
    if bits == [] {
      assert PackBits(bits) == 0;
    } else {
      var n := |bits|;
      var init := bits[..n - 1];
      PackBitsBit(init, k);
      BitOfOr(PackBits(init), if bits[n - 1] then 1 else 0, n - 1, k);
      if k < n - 1 {
        assert init[k] == bits[k];
      }
    }
  }

  /** Byte i of a packed mask: flags 8i .. 8i+7 (those that exist). */
  function MaskByte(v: seq<bool>, i: nat): Byte
    requires 8 * i < |v|
  {
    PackBits(v[8 * i .. Min(8 * i + 8, |v|)])
  }

  /** The (|v| + 7) / 8 bytes that carry the flags of v. */
  function MaskBytes(v: seq<bool>): (r: seq<Byte>)
    ensures |r| == (|v| + 7) / 8
  {
    seq((|v| + 7) / 8, i requires 0 <= i < (|v| + 7) / 8 => MaskByte(v, i))
  }

  /** What operator<<(vector<bool>) appends: the count, then the packed flags. */
  function EncodeBoolMask(v: seq<bool>): (r: seq<Byte>)
    requires |v| < U64_LIMIT
    ensures |r| == SizeBytes + (|v| + 7) / 8
  {
    EncodeSize(|v|) + MaskBytes(v)
  }

  /** The n flags that operator>>(vector<bool>) reads from s: flag k is bit k % 8 of byte k / 8. */
  function UnpackBits(s: seq<Byte>, n: nat): (r: seq<bool>)
    requires (n + 7) / 8 <= |s|
    ensures |r| == n
  {
    seq(n, k requires 0 <= k < n => BitOf(s[k / 8], k % 8))
  }

  /** operator>>(vector<bool>) on s: the flags and the unread rest, or None when s is too
      short (the source reads out of bounds there). */
  function DecodeBoolMask(s: seq<Byte>): Option<(seq<bool>, seq<Byte>)>
  {
    if |s| < SizeBytes then None
    else
      var n := DecodeSize(s);
      var body := s[SizeBytes..];
      if |body| < (n + 7) / 8 then None
      else Some((UnpackBits(body, n), body[(n + 7) / 8..]))
  }

  lemma UnpackMaskBytes(v: seq<bool>, rest: seq<Byte>)
    ensures UnpackBits(MaskBytes(v) + rest, |v|) == v
  {
    var s := MaskBytes(v) + rest;
    forall k | 0 <= k < |v|
      ensures UnpackBits(s, |v|)[k] == v[k]
    {
      FlagPosition(k, |v|);
      MaskBytesBit(v, k / 8, k % 8);
    }
  }

  /** Flag k sits in byte k / 8 at bit k % 8, and that byte exists. */
  lemma FlagPosition(k: nat, n: nat)
    requires k < n
    ensures 8 * (k / 8) + k % 8 == k && k % 8 < 8 && k / 8 < (n + 7) / 8
  {
  }

  /** Reading a mask right after writing one returns the same flags and leaves exactly what followed. */
  lemma BoolMaskRoundTrip(v: seq<bool>, rest: seq<Byte>)
    requires |v| < U64_LIMIT
    ensures DecodeBoolMask(EncodeBoolMask(v) + rest) == Some((v, rest))
  {
    var s := EncodeBoolMask(v) + rest;
    assert s == EncodeSize(|v|) + (MaskBytes(v) + rest);
    SizeRoundTrip(|v|, MaskBytes(v) + rest);
    assert s[SizeBytes..] == MaskBytes(v) + rest;
    UnpackMaskBytes(v, rest);
    assert (MaskBytes(v) + rest)[(|v| + 7) / 8..] == rest;
  }

  /** Every written mask byte has its bits at and above the flag count cleared. */
  lemma MaskBytesHighBitsClear(v: seq<bool>, i: nat, j: nat)
    requires 8 * i < |v| && j < 8 && 8 * i + j >= |v|
    ensures !BitOf(MaskBytes(v)[i], j)
  {
    PackBitsBit(v[8 * i .. Min(8 * i + 8, |v|)], j);
  }

  /** Bit j of mask byte i is flag 8i + j. */
  lemma MaskBytesBit(v: seq<bool>, i: nat, j: nat)
    requires j < 8 && 8 * i + j < |v|
    ensures BitOf(MaskBytes(v)[i], j) == v[8 * i + j]
  {
    PackBitsBit(v[8 * i .. Min(8 * i + 8, |v|)], j);
  }

  // ---------------------------------------------------------------------------
  // Length-prefixed arrays

  /** sizeof(T) * count: the bytes occupied by count elements of width bytes each. */
  function ArrayBytes(width: nat, count: nat): (r: nat)
    ensures count == 0 ==> r == 0
    ensures r == width * count
  {
    if count == 0 then 0 else width + ArrayBytes(width, count - 1)
  }

  /** What operator<<(span<T>) appends: the element count, then the raw element bytes. */
  function EncodeSpan(count: u64, elems: seq<Byte>): (r: seq<Byte>)
    ensures |r| == SizeBytes + |elems|
  {
    EncodeSize(count) + elems
  }

  /** operator>>(vector<T>) with sizeof(T) == width: the count, the element bytes and the
      unread rest, or None when s is too short. */
  function DecodeVector(s: seq<Byte>, width: nat): Option<(nat, seq<Byte>, seq<Byte>)>
  {
    if |s| < SizeBytes then None
    else
      var n: nat := DecodeSize(s);
      var len: nat := ArrayBytes(width, n);
      var body := s[SizeBytes..];
      if |body| < len then None
      else Some((n, body[..len], body[len..]))
  }

  /** Reading a vector after writing a span of the same element type returns the same elements. */
  lemma VectorRoundTrip(count: u64, width: nat, elems: seq<Byte>, rest: seq<Byte>)
    requires |elems| == ArrayBytes(width, count)
    ensures DecodeVector(EncodeSpan(count, elems) + rest, width) == Some((count, elems, rest))
  {
    var s := EncodeSpan(count, elems) + rest;
    assert s == EncodeSize(count) + (elems + rest);
    SizeRoundTrip(count, elems + rest);
    assert s[SizeBytes..] == elems + rest;
  }

  // ---------------------------------------------------------------------------
  // The two stream classes

  lemma FlagByteInRange(n: nat, i: nat)
    requires i < (n + 7) / 8
    ensures 8 * i < n
  {
  }

  /** The inner loop of operator<<(vector<bool>): pack flags 8i .. 8i+7 into one byte,
      stopping at the end of v. */
  method PackByte(v: seq<bool>, i: nat) returns (packed: Byte)
    requires 8 * i < |v|
    ensures packed == MaskByte(v, i)
  {
    var base := 8 * i;
    packed := 0;
    var j := 0;
    while j < 8
      invariant 0 <= j <= 8 && base + j <= |v|
      invariant packed == PackBits(v[base .. base + j])
    {
      var idx := base + j;
      if idx >= |v| {
        break;
      }
      PackBitsExtend(v, base, j);
      packed := packed | FlagBit(v[idx], j);
      j := j + 1;
    }
    assert base + j == Min(base + 8, |v|);
  }

  lemma PackBitsExtend(v: seq<bool>, base: nat, j: nat)
    requires j < 8 && base + j < |v|
    ensures PackBits(v[base .. base + j + 1]) == PackBits(v[base .. base + j]) | FlagBit(v[base + j], j)
  {
    assert v[base .. base + j + 1][..j] == v[base .. base + j];
  }

  class ByteOstream {
    /** data_: everything written so far. */
    var data: seq<Byte>

    constructor()
      ensures data == []
    {
      data := [];
    }

    /** operator<<(const T&): memcpy the object representation of a trivially copyable value. */
    method WriteFixed(repr: seq<Byte>)
      modifies this
      ensures data == old(data) + repr
    {
      var offset := |data|;
      data := data + seq(|repr|, _ => 0);
      data := data[..offset] + repr;
    }

    method WriteSize(n: u64)
      modifies this
      ensures data == old(data) + EncodeSize(n)
    {
      WriteFixed(EncodeSize(n));
    }

    /** operator<<(span<T>): the count as a size_t, then sizeof(T) * count raw bytes. */
    method WriteSpan(count: u64, width: nat, elems: seq<Byte>)
      requires |elems| == ArrayBytes(width, count)
      modifies this
      ensures data == old(data) + EncodeSpan(count, elems)
    {
      WriteSize(count);
      var offset := |data|;
      data := data + seq(|elems|, _ => 0);
      data := data[..offset] + elems;
    }

    /** operator<<(vector<bool>): the count, then the flags packed LSB first, 8 per byte. */
    method WriteBoolMask(v: seq<bool>)
      requires |v| < U64_LIMIT
      modifies this
      ensures data == old(data) + EncodeBoolMask(v)
    {
      WriteSize(|v|);
      var offset := |data|;
      var bytesForFlags := (|v| + 7) / 8;
      data := data + seq(bytesForFlags, _ => 0);
      var i := 0;
      while i < bytesForFlags
        invariant 0 <= i <= bytesForFlags
        invariant |data| == offset + bytesForFlags
        invariant data[..offset] == old(data) + EncodeSize(|v|)
        invariant forall k :: 0 <= k < i ==> data[offset + k] == MaskBytes(v)[k]
      {
        FlagByteInRange(|v|, i);
        var packed := PackByte(v, i);
        data := data[offset + i := packed];
        i := i + 1;
      }
      assert data[offset..] == MaskBytes(v);
      assert data == data[..offset] + data[offset..];
    }

    /** finalize(): hand over the accumulated bytes. */
    method Finalize() returns (r: seq<Byte>)
      ensures r == data
    {
      r := data;
    }
  }

  class ByteIstream {
    /** data_: the span not yet read. */
    var data: seq<Byte>

    constructor(d: seq<Byte>)
      ensures data == d
    {
      data := d;
    }

    /** eat(n): drop the first n bytes of the span. */
    method Eat(n: nat)
      requires n <= |data|
      modifies this
      ensures data == old(data)[n..]
    {
      data := data[n..];
    }

    /** operator>>(T&): memcpy sizeof(T) bytes out of the span, then eat them. */
    method ReadFixed(width: nat) returns (repr: seq<Byte>)
      requires width <= |data|
      modifies this
      ensures repr == old(data)[..width]
      ensures data == old(data)[width..]
    {
      repr := data[..width];
      Eat(width);
    }

    method ReadSize() returns (n: u64)
      requires SizeBytes <= |data|
      modifies this
      ensures n == DecodeSize(old(data))
      ensures data == old(data)[SizeBytes..]
    {
      var repr := ReadFixed(SizeBytes);
      Pow256Of8();
      n := DecodeLE(repr);
    }

    /** operator>>(vector<T>) with sizeof(T) == width. */
    method ReadVector(width: nat) returns (count: nat, elems: seq<Byte>)
      requires DecodeVector(data, width).Some?
      modifies this
      ensures DecodeVector(old(data), width) == Some((count, elems, data))
    {
      ghost var s := data;
      count := ReadSize();
      var len := ArrayBytes(width, count);
      assert DecodeVector(s, width) == Some((count, data[..len], data[len..])) by {
        assert count == DecodeSize(s) && data == s[SizeBytes..];
      }
      elems := data[..len];
      Eat(len);
    }

    /** operator>>(vector<bool>): the count, then one flag per bit, byte i / 8, bit i % 8. */
    method ReadBoolMask() returns (v: seq<bool>)
      requires DecodeBoolMask(data).Some?
      modifies this
      ensures DecodeBoolMask(old(data)) == Some((v, data))
    {
      v := [];
      var size: nat := ReadSize();
      var i := 0;
      while i < size
        invariant 0 <= i <= size
        invariant |v| == i
        invariant forall k :: 0 <= k < i ==> v[k] == BitOf(data[k / 8], k % 8)
      {
        var b := data[i / 8];
        v := v + [BitOf(b, i % 8)];
        i := i + 1;
      }
      assert v == UnpackBits(data, size);
      Eat((size + 7) / 8);
    }
  }
}
