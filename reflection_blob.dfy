/** The byte-order helpers `ToLittleEndian_u64` and `FromLittleEndian_u64`
    of `ReflectionBase.hpp`, and the `std::shared_ptr<void>` descriptor, which
    persists a raw block laid out as a 64-bit size followed by that many data
    bytes. Memory is a sequence of bytes; the host's byte order is a parameter. */
module ReflectionBlobs {
  import opened Wrappers
  import opened StringEscapes
  import opened JsonValues

  type Byte = b: int | 0 <= b < 256

  datatype Endianness = LittleEndian | BigEndian

  /** 256 to the power `n`. */
  function Pow256(n: nat): (r: nat)
    ensures r >= 1
  {
    if n == 0 then 1 else 256 * Pow256(n - 1)
  }

  lemma Pow256Eight()
    ensures Pow256(8) == UINT64_MAX + 1
  {
    assert Pow256(1) == 0x100;
    assert Pow256(2) == 0x1_0000;
    assert Pow256(4) == 0x1_0000_0000 by {
      assert Pow256(3) == 0x100_0000;
    }
    assert Pow256(6) == 0x1_0000_0000_0000 by {
      assert Pow256(5) == 0x100_0000_0000;
    }
    assert Pow256(7) == 0x100_0000_0000_0000;
  }

  /** The `n` bytes of `v`, least significant first. */
  function LEBytes(v: nat, n: nat): (r: seq<Byte>)
    ensures |r| == n
  {
    if n == 0 then [] else [v % 256] + LEBytes(v / 256, n - 1)
  }

  /** The number whose bytes, least significant first, are `s`. */
  function FromLE(s: seq<Byte>): nat
  {
    if s == [] then 0 else s[0] + 256 * FromLE(s[1..])
  }

  function Reverse<X>(s: seq<X>): (r: seq<X>)
    ensures |r| == |s| && forall i :: 0 <= i < |s| ==> r[i] == s[|s| - 1 - i]
  {
    if s == [] then [] else Reverse(s[1..]) + [s[0]]
  }

  lemma ReverseReverse<X>(s: seq<X>)
    ensures Reverse(Reverse(s)) == s
  {
  }

  lemma {:induction false} FromLEBound(s: seq<Byte>)
    ensures FromLE(s) < Pow256(|s|)
  {
    if s != [] {
      FromLEBound(s[1..]);
    }
  }

  /** Reading back the bytes of a value that fits gives the value. */
  lemma {:induction false} FromLEOfLE(v: nat, n: nat)
    requires v < Pow256(n)
    ensures FromLE(LEBytes(v, n)) == v
  {
    if n > 0 {
      assert v / 256 < Pow256(n - 1);
      FromLEOfLE(v / 256, n - 1);
      assert LEBytes(v, n)[1..] == LEBytes(v / 256, n - 1);
    }
  }

  /** Writing out the bytes of a number read from bytes gives those bytes. */
  lemma {:induction false} LEOfFromLE(s: seq<Byte>)
    ensures LEBytes(FromLE(s), |s|) == s
  {
    if s != [] {
      var rest := FromLE(s[1..]);
      var f := FromLE(s);
      ByteDigits(s[0], rest);
      assert f % 256 == s[0] && f / 256 == rest;
      LEOfFromLE(s[1..]);
      assert LEBytes(f, |s|) == [s[0]] + LEBytes(rest, |s| - 1);
      assert s == [s[0]] + s[1..];
    }
  }

  /** The low byte and the rest of `a + 256 * b`. */
  lemma ByteDigits(a: Byte, b: nat)
    ensures (a + 256 * b) % 256 == a && (a + 256 * b) / 256 == b
  {
    var n := a + 256 * b;
    var q, r := n / 256, n % 256;
    assert n == 256 * q + r;
  }

  /** One more byte, the most significant. */
  lemma {:induction false} FromLEAppend(s: seq<Byte>, b: Byte)
    ensures FromLE(s + [b]) == FromLE(s) + b * Pow256(|s|)
  {
    if s != [] {
      var t := s[1..];
      assert (s + [b])[1..] == t + [b];
      FromLEAppend(t, b);
      assert FromLE(s + [b]) == s[0] + 256 * FromLE(t + [b]);
      ShiftedDigit(FromLE(t), b, Pow256(|t|));
    } else {
      assert FromLE([b]) == b + 256 * FromLE([]);
    }
  }

  /** Shifting a number with a new top digit by one byte. */
  lemma ShiftedDigit(x: nat, b: nat, p: nat)
    ensures 256 * (x + b * p) == 256 * x + b * (256 * p)
  {
  }

  /** A 64-bit value. */
  predicate IsU64(v: int) { 0 <= v <= UINT64_MAX }

  /** The object representation of a `uint64_t` on the host: its eight bytes
      at increasing addresses. */
  function HostBytes(v: nat, host: Endianness): (r: seq<Byte>)
    ensures |r| == 8
  {
    if host == LittleEndian then LEBytes(v, 8) else Reverse(LEBytes(v, 8))
  }

  /** The `uint64_t` eight bytes of memory hold on the host (`memcpy`, or a
      dereference of a `uint64_t*`). */
  function HostValue(bytes: seq<Byte>, host: Endianness): nat
    requires |bytes| == 8
  {
    if host == LittleEndian then FromLE(bytes) else FromLE(Reverse(bytes))
  }

  lemma HostValueBound(bytes: seq<Byte>, host: Endianness)
    requires |bytes| == 8
    ensures IsU64(HostValue(bytes, host))
  {
    Pow256Eight();
    FromLEBound(bytes);
    FromLEBound(Reverse(bytes));
  }

  /** Storing a value and reading it back gives the value, and reading memory
      and storing the result gives the memory, on either host. */
  lemma HostRoundTrip(v: nat, bytes: seq<Byte>, host: Endianness)
    requires IsU64(v) && |bytes| == 8
    ensures HostValue(HostBytes(v, host), host) == v
    ensures HostBytes(HostValue(bytes, host), host) == bytes
  {
    Pow256Eight();
    FromLEOfLE(v, 8);
    ReverseReverse(LEBytes(v, 8));
    LEOfFromLE(bytes);
    LEOfFromLE(Reverse(bytes));
    ReverseReverse(bytes);
  }

  /** What the conversion loop computes: the bytes of `v` as laid out in
      memory, taken least significant first. */
  function ToLE(v: nat, host: Endianness): nat
  {
    FromLE(HostBytes(v, host))
  }

  /** `ToLittleEndian_u64`: the byte at address offset `i` shifted into bit
      position `8 * i`; the bytes occupy disjoint bits, so OR-ing them in is
      adding them. */
  method ToLittleEndianU64(v: nat, host: Endianness) returns (out: nat)
    requires IsU64(v)
    ensures out == ToLE(v, host)
  {
    var src := HostBytes(v, host);
    out := 0;
    var i := 0;
    while i < 8
      invariant 0 <= i <= 8
      invariant out == FromLE(src[..i])
    {
      assert src[..i + 1] == src[..i] + [src[i]];
      FromLEAppend(src[..i], src[i]);
      out := out + src[i] * Pow256(i);
      i := i + 1;
    }
    assert src[..8] == src;
  }

  /** `FromLittleEndian_u64`, whose body is the same loop. */
  method FromLittleEndianU64(v: nat, host: Endianness) returns (out: nat)
    requires IsU64(v)
    ensures out == ToLE(v, host)
  {
    out := ToLittleEndianU64(v, host);
  }

  /** The conversion keeps 64-bit values 64-bit, is the identity on a
      little-endian host, and undoes itself on either host. */
  lemma ConversionInvolutive(v: nat, host: Endianness)
    requires IsU64(v)
    ensures IsU64(ToLE(v, host))
    ensures host == LittleEndian ==> ToLE(v, host) == v
    ensures ToLE(ToLE(v, host), host) == v
  {
    Pow256Eight();
    FromLEOfLE(v, 8);
    var bytes := HostBytes(v, host);
    FromLEBound(bytes);
    var w := FromLE(bytes);
    LEOfFromLE(bytes);
    if host == BigEndian {
      ReverseReverse(LEBytes(v, 8));
      assert HostBytes(w, host) == Reverse(bytes);
      assert Reverse(bytes) == LEBytes(v, 8);
    }
  }

  // -------------------------------------------- the shared_ptr<void> blob

  const BLOB_NAME: Bytes := "std::shared_ptr<void>"

  /** `Encode` and `Decode` stand for the Base64 codec, which is compiled out;
      all the descriptor relies on is that decoding undoes encoding. Here a
      byte is written as the character with its code. */
  function Encode(data: seq<Byte>): (r: Bytes)
    ensures |r| == |data|
  {
    seq(|data|, i requires 0 <= i < |data| => data[i] as char)
  }

  function Decode(text: Bytes): (r: seq<Byte>)
    ensures |r| == |text|
  {
    seq(|text|, i requires 0 <= i < |text| => text[i] as int)
  }

  lemma DecodeEncode(data: seq<Byte>)
    ensures Decode(Encode(data)) == data
  {
  }

  /** The block the pointer points to: an eight-byte size in host order and,
      as the caller must ensure, at least that many bytes after it. */
  ghost predicate IsBlock(mem: seq<Byte>, host: Endianness)
  {
    |mem| >= 8 && 8 + HostValue(mem[..8], host) <= |mem|
  }

  /** The bytes `Serialize` persists as written: the raw prefix, then the
      data; the little-endian size it computes is never written. */
  function PersistedAsWritten(mem: seq<Byte>, host: Endianness): (r: seq<Byte>)
    requires IsBlock(mem, host)
    ensures r == mem[..8 + HostValue(mem[..8], host)]
  {
    var dataSize := HostValue(mem[..8], host);
    mem[..8 + dataSize]
  }

  /** The parsed form of what `Serialize` writes for the pointer. */
  function BlobJsonAsWritten(p: Option<seq<Byte>>, host: Endianness): Json
    requires p.Some? ==> IsBlock(p.value, host)
  {
    if p.None? then JNull else Envelope(BLOB_NAME, JString(Encode(PersistedAsWritten(p.value, host))))
  }

  const MALFORMED_BLOB: string := "Malformed JSON for std::shared_ptr<void>"
  const BLOB_TOO_SMALL: string := "Decoded shared_ptr<void> too small"
  const BLOB_LENGTH_MISMATCH: string := "Decoded shared_ptr<void> length mismatch"

  /** The size prefix of a decoded blob as `Deserialize` reads it: copied out
      in host order, then passed through `FromLittleEndian_u64`. */
  function StoredSize(decoded: seq<Byte>, host: Endianness): nat
    requires |decoded| >= 8
  {
    ToLE(HostValue(decoded[..8], host), host)
  }

  /** The size is read as little-endian on any host. */
  lemma StoredSizeIsLittleEndian(decoded: seq<Byte>, host: Endianness)
    requires |decoded| >= 8
    ensures StoredSize(decoded, host) == FromLE(decoded[..8])
  {
    var b := decoded[..8];
    FromLEBound(b);
    Pow256Eight();
    HostRoundTrip(0, b, host);
  }

  /** `Deserialize` as written: `null` empties the pointer; otherwise the data
      must be a string whose decoding has at least eight bytes and exactly eight
      plus the size prefix; the new block is a copy of the decoded bytes. */
  function BlobReadAsWritten(value: Json, host: Endianness): (r: Result<Option<seq<Byte>>, string>)
    ensures value.JNull? ==> r == Success(None)
    ensures r.Success? && r.value.Some? ==> |r.value.value| >= 8
  {
    if value.JNull? then Success(None)
    else if !HasMember(value, DATA_KEY) || !Data(value).value.JString? then Failure(MALFORMED_BLOB)
    else
      var decoded := Decode(Data(value).value.s);
      if |decoded| < 8 then Failure(BLOB_TOO_SMALL)
      else if |decoded| != 8 + StoredSize(decoded, host) then Failure(BLOB_LENGTH_MISMATCH)
      else Success(Some(decoded))
  }

  /** On a little-endian host the round trip as written keeps the block. */
  lemma LittleEndianRoundTripAsWritten(mem: seq<Byte>)
    requires IsBlock(mem, LittleEndian)
    ensures BlobReadAsWritten(BlobJsonAsWritten(Some(mem), LittleEndian), LittleEndian)
      == Success(Some(PersistedAsWritten(mem, LittleEndian)))
  {
    var data := PersistedAsWritten(mem, LittleEndian);
    EnvelopeData(BLOB_NAME, JString(Encode(data)));
    DecodeEncode(data);
    assert data[..8] == mem[..8];
    StoredSizeIsLittleEndian(data, LittleEndian);
  }

  /** On a big-endian host it fails: a one-byte block has the prefix
      `00 00 00 00 00 00 00 01`, which is read back as 2^56, so `Deserialize`
      throws "length mismatch". */
  lemma BigEndianRoundTripFailsAsWritten()
    ensures var mem: seq<Byte> := [0, 0, 0, 0, 0, 0, 0, 1, 0x2A];
      && IsBlock(mem, BigEndian)
      && BlobReadAsWritten(BlobJsonAsWritten(Some(mem), BigEndian), BigEndian) == Failure(BLOB_LENGTH_MISMATCH)
  {
    var mem: seq<Byte> := [0, 0, 0, 0, 0, 0, 0, 1, 0x2A];
    BigEndianOne();
    assert mem[..8] == HostBytes(1, BigEndian);
    TopByteOne();
    MisreadSizeFails(mem, BigEndian);
  }

  /** Whenever the little-endian reading of the prefix is not the data size,
      the persisted block is refused. */
  lemma MisreadSizeFails(mem: seq<Byte>, host: Endianness)
    requires IsBlock(mem, host)
    requires FromLE(mem[..8]) != HostValue(mem[..8], host)
    ensures BlobReadAsWritten(BlobJsonAsWritten(Some(mem), host), host) == Failure(BLOB_LENGTH_MISMATCH)
  {
    var data := PersistedAsWritten(mem, host);
    assert data[..8] == mem[..8];
    EnvelopeData(BLOB_NAME, JString(Encode(data)));
    DecodeEncode(data);
    StoredSizeIsLittleEndian(data, host);
  }

  /** The big-endian bytes of 1, and the value they hold on that host. */
  lemma BigEndianOne()
    ensures HostBytes(1, BigEndian) == [0, 0, 0, 0, 0, 0, 0, 1]
    ensures HostValue(HostBytes(1, BigEndian), BigEndian) == 1
  {
    var zeros: seq<Byte> := [0, 0, 0, 0, 0, 0, 0];
    ZeroBytes(7);
    assert LEBytes(0, 7) == zeros;
    var le := LEBytes(1, 8);
    assert le == [1] + zeros;
    var be := HostBytes(1, BigEndian);
    assert be == Reverse(le);
    assert be == [0, 0, 0, 0, 0, 0, 0, 1];
    ReverseReverse(le);
    assert FromLE(le) == 1 + 256 * FromLE(zeros);
  }

  /** Zero is all zero bytes, and all zero bytes are zero. */
  lemma {:induction false} ZeroBytes(n: nat)
    ensures LEBytes(0, n) == seq(n, _ => 0)
    ensures FromLE(LEBytes(0, n)) == 0
  {
    if n > 0 {
      ZeroBytes(n - 1);
      assert LEBytes(0, n) == [0] + LEBytes(0, n - 1);
      assert seq(n, _ => 0) == [0] + seq(n - 1, _ => 0);
    }
  }

  /** Those bytes read least significant first are 2^56. */
  lemma TopByteOne()
    ensures FromLE([0, 0, 0, 0, 0, 0, 0, 1]) == Pow256(7)
  {
    var zeros: seq<Byte> := [0, 0, 0, 0, 0, 0, 0];
    FromLEAppend(zeros, 1);
    assert zeros + [1] == [0, 0, 0, 0, 0, 0, 0, 1];
    assert FromLE(zeros) == 0;
  }

  /** The corrected `Serialize`: the size is persisted as its little-endian
      bytes, `le_size`, in place of the raw prefix. */
  function PersistedBlock(mem: seq<Byte>, host: Endianness): (r: seq<Byte>)
    requires IsBlock(mem, host)
    ensures |r| == 8 + HostValue(mem[..8], host)
  {
    var dataSize := HostValue(mem[..8], host);
    LEBytes(dataSize, 8) + mem[8..8 + dataSize]
  }

  function BlobJson(p: Option<seq<Byte>>, host: Endianness): Json
    requires p.Some? ==> IsBlock(p.value, host)
  {
    if p.None? then JNull else Envelope(BLOB_NAME, JString(Encode(PersistedBlock(p.value, host))))
  }

  /** The corrected `Deserialize`: the checks as written; the new block then
      holds the size in host order, as the program reads it, and the data. */
  function BlobRead(value: Json, host: Endianness): (r: Result<Option<seq<Byte>>, string>)
    ensures value.JNull? ==> r == Success(None)
    ensures r.Success? && r.value.Some? ==> IsBlock(r.value.value, host)
  {
    if value.JNull? then Success(None)
    else if !HasMember(value, DATA_KEY) || !Data(value).value.JString? then Failure(MALFORMED_BLOB)
    else
      var decoded := Decode(Data(value).value.s);
      if |decoded| < 8 then Failure(BLOB_TOO_SMALL)
      else
        var dataSize := StoredSize(decoded, host);
        if |decoded| != 8 + dataSize then Failure(BLOB_LENGTH_MISMATCH)
        else
          var mem := HostBytes(dataSize, host) + decoded[8..];
          assert IsBlock(mem, host) by {
            StoredSizeIsLittleEndian(decoded, host);
            FromLEBound(decoded[..8]);
            Pow256Eight();
            HostRoundTrip(dataSize, HostBytes(dataSize, host), host);
            assert mem[..8] == HostBytes(dataSize, host);
          }
          Success(Some(mem))
  }

  /** With the correction the block written is the block read, on either host. */
  lemma BlobRoundTrip(mem: seq<Byte>, host: Endianness)
    requires IsBlock(mem, host)
    ensures BlobRead(BlobJson(Some(mem), host), host) == Success(Some(mem[..8 + HostValue(mem[..8], host)]))
  {
    var dataSize := HostValue(mem[..8], host);
    var data := PersistedBlock(mem, host);
    assert data[..8] == LEBytes(dataSize, 8);
    assert data[8..] == mem[8..8 + dataSize];
    HostValueBound(mem[..8], host);
    Pow256Eight();
    FromLEOfLE(dataSize, 8);
    ReadPersisted(data, host);
    HostRoundTrip(dataSize, mem[..8], host);
    assert mem[..8 + dataSize] == mem[..8] + mem[8..8 + dataSize];
  }

  /** Reading back persisted bytes whose little-endian prefix is the length
      of the rest: the prefix in host order, then the rest. */
  lemma ReadPersisted(data: seq<Byte>, host: Endianness)
    requires |data| >= 8 && FromLE(data[..8]) == |data| - 8
    ensures BlobRead(Envelope(BLOB_NAME, JString(Encode(data))), host)
         == Success(Some(HostBytes(FromLE(data[..8]), host) + data[8..]))
  {
    EnvelopeData(BLOB_NAME, JString(Encode(data)));
    DecodeEncode(data);
    StoredSizeIsLittleEndian(data, host);
  }
}
