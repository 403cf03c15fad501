/**
 * The byte buffer of a connection: one array, a reader index and a writer
 * index.  Every operation is specified by what it does to the readable bytes.
 */
module ByteBuffer {
  import opened CArithmetic

  newtype Byte = x: int | 0 <= x < 256

  const CHEAP_PREPEND: nat := 8
  const INITIAL_SIZE: nat := 1024
  const EXTRA_SIZE: nat := 65536

  // ------------------------------------------------ big-endian integers

  function Pow256(n: nat): (p: nat)
    ensures p > 0
  {
    if n == 0 then 1 else 256 * Pow256(n - 1)
  }

  /** The n low bytes of u, most significant first. */
  function BigEndian(u: nat, n: nat): (s: seq<Byte>)
    ensures |s| == n
  {
    if n == 0 then [] else BigEndian(u / 256, n - 1) + [(u % 256) as Byte]
  }

  function Unsigned(s: seq<Byte>): nat {
    if s == [] then 0 else Unsigned(s[..|s| - 1]) * 256 + s[|s| - 1] as int
  }

  /** A signed integer of n bytes. */
  predicate InRange(x: int, n: nat) {
    0 <= 2 * x + Pow256(n) < 2 * Pow256(n)
  }

  /** The bytes of hostToNetwork: big-endian two's complement. */
  function Encode(x: int, n: nat): (s: seq<Byte>)
    requires InRange(x, n)
    ensures |s| == n
  {
    BigEndian(if x < 0 then x + Pow256(n) else x, n)
  }

  function Decode(s: seq<Byte>): int {
    var u := Unsigned(s);
    if 2 * u < Pow256(|s|) then u else u - Pow256(|s|)
  }

  lemma {:induction false} BigEndianRoundTrip(u: nat, n: nat)
    requires u < Pow256(n)
    ensures Unsigned(BigEndian(u, n)) == u
  {
    if n > 0 {
      BigEndianRoundTrip(u / 256, n - 1);
    }
  }

  /** An integer written in network order reads back unchanged, for every width. */
  lemma IntRoundTrip(x: int, n: nat)
    requires InRange(x, n)
    ensures Decode(Encode(x, n)) == x
  {
    BigEndianRoundTrip(if x < 0 then x + Pow256(n) else x, n);
  }

  lemma {:induction false} UnsignedBound(s: seq<Byte>)
    ensures Unsigned(s) < Pow256(|s|)
  {
    if s != [] {
      UnsignedBound(s[..|s| - 1]);
    }
  }

  lemma {:induction false} UnsignedRoundTrip(s: seq<Byte>)
    ensures BigEndian(Unsigned(s), |s|) == s
  {
    if s != [] {
      UnsignedRoundTrip(s[..|s| - 1]);
      assert s == s[..|s| - 1] + [s[|s| - 1]];
    }
  }

  /** Any bytes read as an integer give an integer in range whose bytes they are. */
  lemma BytesRoundTrip(s: seq<Byte>)
    ensures InRange(Decode(s), |s|) && Encode(Decode(s), |s|) == s
  {
    UnsignedBound(s);
    UnsignedRoundTrip(s);
  }

  /** The i-th byte holds the bits above the n - 1 - i bytes behind it. */
  lemma {:induction false} BigEndianAt(u: nat, n: nat, i: nat)
    requires i < n
    ensures BigEndian(u, n)[i] as int == u / Pow256(n - 1 - i) % 256
  {
    if i < n - 1 {
      BigEndianAt(u / 256, n - 1, i);
      DivideTwice(u, 256, Pow256(n - 2 - i));
    }
  }

  /** Adding a multiple of 256 times the divisor does not change the byte. */
  lemma ByteShifted(x: int, p: nat, m: int)
    requires p > 0
    ensures (x + 256 * p * m) / p % 256 == x / p % 256
  {
    assert x + 256 * p * m == p * (x / p + 256 * m) + x % p by {
      assert p * (256 * m) == 256 * p * m;
      assert p * (x / p + 256 * m) == p * (x / p) + p * (256 * m);
    }
    QuotientIs(x + 256 * p * m, p, x / p + 256 * m, x % p);
  }

  lemma {:induction false} Pow256Splits(a: nat, b: nat)
    ensures Pow256(a + b) == Pow256(a) * Pow256(b)
  {
    if a > 0 {
      Pow256Splits(a - 1, b);
    }
  }

  lemma PowParts(n: nat, i: nat)
    requires i < n
    ensures Pow256(n) == 256 * Pow256(n - 1 - i) * Pow256(i)
  {
    Pow256Splits(i + 1, n - 1 - i);
    assert Pow256(i + 1) == 256 * Pow256(i);
    var p, m := Pow256(n - 1 - i), Pow256(i);
    hide Pow256;
    assert 256 * m * p == 256 * p * m;
  }

  /**
   * Network order: the most significant byte comes first.  Division rounds
   * down, so this is two's complement for negative values.
   */
  lemma NetworkOrder(x: int, n: nat, i: nat)
    requires InRange(x, n) && i < n
    ensures Encode(x, n)[i] as int == x / Pow256(n - 1 - i) % 256
  {
    hide Pow256, BigEndian;
    BigEndianAt(if x < 0 then x + Pow256(n) else x, n, i);
    if x < 0 {
      PowParts(n, i);
      ByteShifted(x, Pow256(n - 1 - i), Pow256(i));
    }
  }

  /** The same for what is read: its bytes, and its sign. */
  lemma NetworkOrderRead(s: seq<Byte>)
    ensures forall i :: 0 <= i < |s| ==> s[i] as int == Decode(s) / Pow256(|s| - 1 - i) % 256
    ensures Decode(s) < 0 <==> s != [] && s[0] >= 128
  {
    BytesRoundTrip(s);
    forall i | 0 <= i < |s| ensures s[i] as int == Decode(s) / Pow256(|s| - 1 - i) % 256 {
      NetworkOrder(Decode(s), |s|, i);
    }
    if s != [] {
      SignByte(Decode(s), |s|);
      NetworkOrder(Decode(s), |s|, 0);
    }
  }

  lemma FloorBetween(x: int, p: nat, low: int, high: int)
    requires p > 0 && p * low <= x < p * high
    ensures low <= x / p < high
  {
    var q := x / p;
    assert q < low ==> p * q <= p * (low - 1) == p * low - p;
    assert q >= high ==> p * q >= p * high;
  }

  lemma SignByte(x: int, n: nat)
    requires InRange(x, n) && n > 0
    ensures x < 0 <==> x / Pow256(n - 1) % 256 >= 128
  {
    var p := Pow256(n - 1);
    assert Pow256(n) == 256 * p;
    if x < 0 {
      FloorBetween(x, p, -128, 0);
    } else {
      FloorBetween(x, p, 0, 128);
    }
  }

  /** The widths of the source. */
  lemma Widths(x: int)
    ensures InRange(x, 1) <==> -0x80 <= x < 0x80
    ensures InRange(x, 2) <==> -0x8000 <= x < 0x8000
    ensures InRange(x, 4) <==> -0x8000_0000 <= x < 0x8000_0000
    ensures InRange(x, 8) <==> -0x8000_0000_0000_0000 <= x < 0x8000_0000_0000_0000
  {
    assert Pow256(2) == 0x1_0000 && Pow256(3) == 0x100_0000 && Pow256(4) == 0x1_0000_0000;
    Pow256Splits(4, 4);
  }

  /** The bytes from a place on are those of an integer in network order. */
  ghost predicate IsNetworkOrder(s: seq<Byte>, from: nat, x: int, size: nat) {
    && from + size <= |s|
    && forall k :: from <= k < from + size ==> s[k] as int == x / Pow256(from + size - 1 - k) % 256
  }

  lemma EncodedAt(before: seq<Byte>, x: int, size: nat, after: seq<Byte>)
    requires InRange(x, size)
    ensures IsNetworkOrder(before + Encode(x, size) + after, |before|, x, size)
  {
    var s := before + Encode(x, size) + after;
    forall k | |before| <= k < |before| + size
      ensures s[k] as int == x / Pow256(|before| + size - 1 - k) % 256
    {
      NetworkOrder(x, size, k - |before|);
      assert s[k] == Encode(x, size)[k - |before|];
    }
  }

  lemma ReadAt(s: seq<Byte>, size: nat)
    requires size <= |s|
    ensures InRange(Decode(s[..size]), size) && IsNetworkOrder(s, 0, Decode(s[..size]), size)
  {
    BytesRoundTrip(s[..size]);
    NetworkOrderRead(s[..size]);
    assert forall k :: 0 <= k < size ==> s[k] == s[..size][k];
  }

  // --------------------------------------------------------------- buffer

  /** What a read of the socket brings: an error, or some bytes (none at end of file). */
  datatype ReadResult = ReadError(errno: int) | ReadBytes(bytes: seq<Byte>)

  /** Bytes copied in just after a slice extend the slice. */
  lemma SliceGrows(before: seq<Byte>, after: seq<Byte>, data: seq<Byte>, r: nat, w: nat)
    requires r <= w && w + |data| <= |before|
    requires after == before[..w] + data + before[w + |data|..]
    ensures |after| == |before| && after[r..w + |data|] == before[r..w] + data
  {
  }

  /** Bytes copied in just before a slice extend it to the front. */
  lemma SlicePrepended(before: seq<Byte>, after: seq<Byte>, data: seq<Byte>, r: nat, w: nat)
    requires |data| <= r <= w <= |before|
    requires after == before[..r - |data|] + data + before[r..]
    ensures |after| == |before| && after[r - |data|..w] == data + before[r..w]
  {
  }

  class Buffer {
    var buffer: array<Byte>
    var reader: nat
    var writer: nat

    ghost predicate Valid()
      reads this
    {
      reader <= writer <= buffer.Length && CHEAP_PREPEND <= buffer.Length
    }

    /** The readable bytes. */
    ghost function Contents(): seq<Byte>
      requires Valid()
      reads this, buffer
    {
      buffer[reader..writer]
    }

    function ReadableBytes(): nat
      requires Valid()
      reads this
    {
      writer - reader
    }

    function WritableBytes(): nat
      requires Valid()
      reads this
    {
      buffer.Length - writer
    }

    function PrependableBytes(): nat
      reads this
    {
      reader
    }

    /** The room in front is what it was, or has been cut to the cheap prepend. */
    predicate RoomInFront(before: nat)
      reads this
    {
      PrependableBytes() == before || CHEAP_PREPEND == PrependableBytes() < before
    }

    constructor (initialSize: nat)
      ensures Valid() && fresh(buffer) && Contents() == []
      ensures WritableBytes() == initialSize && PrependableBytes() == 8
    {
      buffer := new Byte[CHEAP_PREPEND + initialSize];
      reader, writer := CHEAP_PREPEND, CHEAP_PREPEND;
    }

    method RetrieveAll()
      requires Valid()
      modifies `reader, `writer
      ensures Valid() && Contents() == [] && PrependableBytes() == CHEAP_PREPEND
    {
      reader, writer := CHEAP_PREPEND, CHEAP_PREPEND;
    }

    method Retrieve(len: nat)
      requires Valid() && len <= ReadableBytes()
      modifies `reader, `writer
      ensures Valid() && Contents() == old(Contents())[len..]
      ensures PrependableBytes() == if Contents() == [] then CHEAP_PREPEND else old(PrependableBytes()) + len
    {
      if len < ReadableBytes() {
        reader := reader + len;
      } else {
        RetrieveAll();
      }
    }

    method RetrieveAsString(len: nat) returns (result: seq<Byte>)
      requires Valid() && len <= ReadableBytes()
      modifies `reader, `writer
      ensures Valid() && Contents() == old(Contents())[len..]
      ensures result == old(Contents())[..len]
    {
      result := buffer[reader..reader + len];
      Retrieve(len);
    }

    /** `std::copy` to a lower position of the same array, first byte first. */
    method MoveDown(from: nat, to: nat, dest: nat)
      requires dest < from <= to <= buffer.Length
      modifies buffer
      ensures buffer[dest..dest + (to - from)] == old(buffer[from..to])
    {
      var i := from;
      while i < to
        invariant from <= i <= to
        invariant forall k :: from <= k < i ==> buffer[dest + (k - from)] == old(buffer[k])
        invariant forall k :: i <= k < to ==> buffer[k] == old(buffer[k])
      {
        buffer[dest + (i - from)] := buffer[i];
        i := i + 1;
      }
    }

    /** Makes room for len more bytes, by growing the array or by moving the readable bytes down. */
    method MakeSpace(len: nat)
      requires Valid() && WritableBytes() < len
      modifies this, buffer
      ensures Valid() && (buffer == old(buffer) || fresh(buffer))
      ensures Contents() == old(Contents()) && WritableBytes() >= len
      ensures RoomInFront(old(PrependableBytes()))
    {
      if WritableBytes() + PrependableBytes() < len + CHEAP_PREPEND {
        var bigger := new Byte[writer + len];
        forall i | 0 <= i < buffer.Length {
          bigger[i] := buffer[i];
        }
        buffer := bigger;
      } else {
        assert CHEAP_PREPEND < reader;
        var readable := ReadableBytes();
        MoveDown(reader, writer, CHEAP_PREPEND);
        reader := CHEAP_PREPEND;
        writer := reader + readable;
      }
    }

    method EnsureWritableBytes(len: nat)
      requires Valid()
      modifies this, buffer
      ensures Valid() && (buffer == old(buffer) || fresh(buffer))
      ensures Contents() == old(Contents()) && WritableBytes() >= len
      ensures RoomInFront(old(PrependableBytes()))
      ensures old(WritableBytes()) >= len ==> buffer == old(buffer) && WritableBytes() == old(WritableBytes())
    {
      if WritableBytes() < len {
        MakeSpace(len);
      }
    }

    method CopyIn(data: seq<Byte>, at: nat)
      requires at + |data| <= buffer.Length
      modifies buffer
      ensures buffer[..] == old(buffer[..at]) + data + old(buffer[at + |data|..])
    {
      forall i | 0 <= i < |data| {
        buffer[at + i] := data[i];
      }
    }

    /** Bytes copied to the writable tail, and counted. */
    method Fill(data: seq<Byte>)
      requires Valid() && |data| <= WritableBytes()
      modifies `writer, buffer
      ensures Valid() && Contents() == old(Contents()) + data
      ensures WritableBytes() == old(WritableBytes()) - |data|
    {
      ghost var before := buffer[..];
      CopyIn(data, writer);
      SliceGrows(before, buffer[..], data, reader, writer);
      writer := writer + |data|;
      assert buffer[reader..writer] == buffer[..][reader..writer];
    }

    method Append(data: seq<Byte>)
      requires Valid()
      modifies this, buffer
      ensures Valid() && (buffer == old(buffer) || fresh(buffer))
      ensures Contents() == old(Contents()) + data
      ensures RoomInFront(old(PrependableBytes()))
      ensures old(WritableBytes()) >= |data| ==>
                buffer == old(buffer) && WritableBytes() == old(WritableBytes()) - |data|
    {
      EnsureWritableBytes(|data|);
      Fill(data);
    }

    method Unwrite(len: nat)
      requires Valid() && len <= ReadableBytes()
      modifies `writer
      ensures Valid() && Contents() == old(Contents())[..|old(Contents())| - len]
    {
      writer := writer - len;
    }

    method Prepend(data: seq<Byte>)
      requires Valid() && |data| <= PrependableBytes()
      modifies this, buffer
      ensures Valid() && buffer == old(buffer)
      ensures Contents() == data + old(Contents()) && PrependableBytes() == old(PrependableBytes()) - |data|
    {
      ghost var before := buffer[..];
      CopyIn(data, reader - |data|);
      SlicePrepended(before, buffer[..], data, reader, writer);
      reader := reader - |data|;
      assert buffer[reader..writer] == buffer[..][reader..writer];
    }

    /** Replaces the array by one with room for the readable bytes and `reserve` more. */
    method Shrink(reserve: nat)
      requires Valid()
      modifies this
      ensures Valid() && fresh(buffer)
      ensures Contents() == old(Contents()) && WritableBytes() >= reserve && PrependableBytes() == CHEAP_PREPEND
    {
      var other := new Buffer(INITIAL_SIZE);
      other.EnsureWritableBytes(ReadableBytes() + reserve);
      other.Append(buffer[reader..writer]);
      buffer, reader, writer := other.buffer, other.reader, other.writer;
    }

    /** How many bytes one readv may bring: the tail of the array and the spill array. */
    function ReadCapacity(): (n: nat)
      requires Valid()
      reads this
      ensures WritableBytes() <= n && 65536 <= n
      ensures n <= 128 * 1024 - 1 || n == WritableBytes()
    {
      WritableBytes() + if WritableBytes() < EXTRA_SIZE then EXTRA_SIZE else 0
    }

    /** One read of the socket: what does not fit the tail of the array goes through the spill array. */
    method ReadFd(result: ReadResult) returns (n: int, savedErrno: int)
      requires Valid()
      requires result.ReadBytes? ==> |result.bytes| <= ReadCapacity()
      modifies this, buffer
      ensures Valid() && (buffer == old(buffer) || fresh(buffer))
      ensures result.ReadBytes? ==> Contents() == old(Contents()) + result.bytes && n == |result.bytes|
      ensures RoomInFront(old(PrependableBytes()))
      ensures result.ReadError? ==> Contents() == old(Contents()) && n < 0 && savedErrno == result.errno
    {
      savedErrno := 0;
      match result {
        case ReadError(errno) =>
          n, savedErrno := -1, errno;
        case ReadBytes(bytes) =>
          n := |bytes|;
          var writable := WritableBytes();
          var direct := if n <= writable then n else writable;
          Fill(bytes[..direct]);                     // the first segment of readv
          var extrabuf := bytes[direct..];           // the second
          if n > writable {
            Append(extrabuf);
          }
          assert bytes == bytes[..direct] + extrabuf;
      }
    }

    /** The appendInt family; size is 1, 2, 4 or 8. */
    method AppendInt(x: int, size: nat)
      requires Valid() && InRange(x, size)
      modifies this, buffer
      ensures Valid() && (buffer == old(buffer) || fresh(buffer))
      ensures Contents() == old(Contents()) + Encode(x, size) && RoomInFront(old(PrependableBytes()))
      ensures IsNetworkOrder(Contents(), |old(Contents())|, x, size)
    {
      EncodedAt(Contents(), x, size, []);
      Append(Encode(x, size));
      assert Contents() + [] == Contents();
    }

    method PeekInt(size: nat) returns (x: int)
      requires Valid() && size <= ReadableBytes()
      ensures x == Decode(Contents()[..size])
      ensures InRange(x, size) && IsNetworkOrder(Contents(), 0, x, size)
      ensures forall y :: InRange(y, size) && Contents()[..size] == Encode(y, size) ==> x == y
    {
      x := Decode(buffer[reader..reader + size]);
      assert buffer[reader..reader + size] == Contents()[..size];
      ReadAt(Contents(), size);
      hide IsNetworkOrder;
      forall y | InRange(y, size) && Contents()[..size] == Encode(y, size) ensures x == y {
        IntRoundTrip(y, size);
      }
    }

    method ReadInt(size: nat) returns (x: int)
      requires Valid() && size <= ReadableBytes()
      modifies `reader, `writer
      ensures Valid() && Contents() == old(Contents())[size..]
      ensures InRange(x, size) && IsNetworkOrder(old(Contents()), 0, x, size)
      ensures forall y :: InRange(y, size) && old(Contents())[..size] == Encode(y, size) ==> x == y
    {
      x := PeekInt(size);
      Retrieve(size);
    }

    method PrependInt(x: int, size: nat)
      requires Valid() && InRange(x, size) && size <= PrependableBytes()
      modifies this, buffer
      ensures Valid() && buffer == old(buffer)
      ensures Contents() == Encode(x, size) + old(Contents())
      ensures IsNetworkOrder(Contents(), 0, x, size)
    {
      EncodedAt([], x, size, Contents());
      assert [] + Encode(x, size) == Encode(x, size);
      Prepend(Encode(x, size));
    }
  }
}
