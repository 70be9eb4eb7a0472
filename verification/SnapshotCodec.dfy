/**
 The snapshot's byte format: an eight-byte marker of ones, the little-endian length of the
 compressed database, the compressed database; or, in the older form, length and image alone.
 */
module SnapshotCodec {
  import opened Collections

  newtype byte = x: int | 0 <= x < 256

  type bytes = seq<byte>

  const MAX_UINT64: nat := 0xFFFF_FFFF_FFFF_FFFF
  const MAX_INT64: nat := 0x7FFF_FFFF_FFFF_FFFF

  /** Gzip, and the bytes that the buffer a stream was read into happens to hold behind the stream. */
  datatype Platform = Platform(compress: bytes -> bytes, decompress: bytes -> Option<bytes>, spare: bytes -> bytes)

  /** Compression is taken as an inverse pair; a gzip stream is never empty. */
  ghost predicate SoundPlatform(g: Platform) {
    forall x :: g.compress(x) != [] && g.decompress(g.compress(x)) == Some(x)
  }

  datatype Error = SlicePanic | BadLength | BadGzip

  // Little-endian numbers.

  function LittleEndian(v: nat, n: nat): (b: bytes)
    ensures |b| == n
  {
    if n == 0 then [] else [(v % 256) as byte] + LittleEndian(v / 256, n - 1)
  }

  function FromLittleEndian(b: bytes): nat {
    if b == [] then 0 else b[0] as nat + 256 * FromLittleEndian(b[1..])
  }

  function WriteUint64(v: nat): (b: bytes)
    ensures |b| == 8
  {
    LittleEndian(v, 8)
  }

  function ReadUint64(b: bytes): nat
    requires |b| == 8
  {
    FromLittleEndian(b)
  }

  function Pow256(n: nat): (p: nat)
    ensures p > 0
  {
    if n == 0 then 1 else 256 * Pow256(n - 1)
  }

  lemma {:induction false} LittleEndianRoundTrip(v: nat, n: nat)
    requires v < Pow256(n)
    ensures FromLittleEndian(LittleEndian(v, n)) == v
  {
    if n > 0 {
      LittleEndianRoundTrip(v / 256, n - 1);
      assert LittleEndian(v, n)[1..] == LittleEndian(v / 256, n - 1);
    }
  }

  lemma {:induction false} FromLittleEndianRoundTrip(b: bytes)
    ensures FromLittleEndian(b) < Pow256(|b|) && LittleEndian(FromLittleEndian(b), |b|) == b
  {
    if b != [] {
      FromLittleEndianRoundTrip(b[1..]);
      var v, rest := FromLittleEndian(b), FromLittleEndian(b[1..]);
      assert v % 256 == b[0] as nat && v / 256 == rest;
      assert b == [b[0]] + b[1..];
    }
  }

  lemma EightBytes()
    ensures Pow256(8) == MAX_UINT64 + 1
  {
    assert Pow256(4) == 0x1_0000_0000;
    assert Pow256(8) == 256 * (256 * (256 * (256 * Pow256(4))));
  }

  /** Reading inverts writing on every uint64. */
  lemma Uint64RoundTrip(v: nat)
    requires v <= MAX_UINT64
    ensures ReadUint64(WriteUint64(v)) == v
  {
    EightBytes();
    LittleEndianRoundTrip(v, 8);
  }

  /** Byte k is digit k of the number in base 256, least significant first. */
  lemma {:induction false} LeastByteFirst(v: nat, n: nat, k: nat)
    requires k < n
    ensures LittleEndian(v, n)[k] as nat == v / Pow256(k) % 256
    decreases n
  {
    if k > 0 {
      LeastByteFirst(v / 256, n - 1, k - 1);
      QuotientTwice(v, 256, Pow256(k - 1));
    }
  }

  lemma QuotientTwice(v: nat, a: nat, b: nat)
    requires a > 0 && b > 0 && a * b > 0
    ensures v / a / b == v / (a * b)
  {
    var q := v / (a * b);
    var r := v - q * (a * b);
    assert 0 <= r < a * b;
    assert v == a * (q * b) + r;
    DividesInto(v, a, q * b, r);
    Below(r, a, b);
    QuotientIs(v / a, b, q);
  }

  lemma DividesInto(v: nat, a: nat, m: int, r: nat)
    requires a > 0 && v == a * m + r
    ensures v / a == m + r / a
  {
    assert v == (m + r / a) * a + r % a;
    QuotientIs(v, a, m + r / a);
  }

  lemma Below(r: nat, a: nat, b: nat)
    requires a > 0 && r < a * b
    ensures r / a < b
  {
    assert (r / a) * a <= r;
    Ordered(a, r / a, b);
  }

  // The two forms and the decoder.

  /** What Persist writes for a database image. */
  function Encoded(g: Platform, image: bytes): bytes {
    WriteUint64(MAX_UINT64) + WriteUint64(|g.compress(image)|) + g.compress(image)
  }

  /** The older, uncompressed form. */
  function Legacy(image: bytes): bytes {
    WriteUint64(|image|) + image
  }

  /** Go's conversion of a uint64 to int64. */
  function AsInt64(x: nat): int
    requires x <= MAX_UINT64
  {
    if x <= MAX_INT64 then x else x - MAX_UINT64 - 1
  }

  /** int64 addition of a small offset. */
  function AddOffset(offset: nat, x: int): int {
    if offset + x > MAX_INT64 then offset + x - MAX_UINT64 - 1 else offset + x
  }

  /** b[from:to], which in Go reaches into the buffer behind b, or nothing where it panics. */
  function Slice(b: bytes, spare: bytes, from: nat, to: int): Option<bytes> {
    if from <= to <= |b + spare| then Some((b + spare)[from..to]) else None
  }

  /** The decoder; an absent database (nil) is the empty image. */
  method BytesFromSnapshot(g: Platform, b: bytes) returns (r: Result<bytes, Error>)
    ensures r == Decoded(g, b)
  {
    var offset := 0;
    var compressed := false;
    var head := Slice(b, g.spare(b), offset, offset + 8);
    if head.None? {
      return Err(SlicePanic);
    }
    var sz := ReadUint64(head.value);
    Uint64InRange(head.value);
    offset := offset + 8;
    if sz == MAX_UINT64 {
      compressed := true;
      head := Slice(b, g.spare(b), offset, offset + 8);
      if head.None? {
        return Err(SlicePanic);
      }
      sz := ReadUint64(head.value);
      Uint64InRange(head.value);
      offset := offset + 8;
    }
    var database: bytes := [];
    if sz > 0 {
      var end := AddOffset(offset, AsInt64(sz));
      if compressed {
        var stream := Slice(b, g.spare(b), offset, end);
        if stream.None? {
          return Err(SlicePanic);
        }
        var image := g.decompress(stream.value);
        if image.None? {
          return Err(BadGzip);
        }
        database := image.value;
      } else {
        if |b| < end {
          return Err(BadLength);
        }
        var image := Slice(b, g.spare(b), offset, end);
        if image.None? {
          return Err(SlicePanic);
        }
        assert image.value == b[offset..end];
        database := image.value;
      }
    }
    return Ok(database);
  }

  lemma Uint64InRange(b: bytes)
    requires |b| == 8
    ensures ReadUint64(b) <= MAX_UINT64
  {
    FromLittleEndianRoundTrip(b);
    EightBytes();
  }

  /** What a stream decodes to. */
  function Decoded(g: Platform, b: bytes): Result<bytes, Error> {
    var buffer := b + g.spare(b);
    if |buffer| < 8 then Err(SlicePanic)
    else
      Uint64InRange(buffer[..8]);
      var sz := ReadUint64(buffer[..8]);
      if sz != MAX_UINT64 then
        var end := AddOffset(8, AsInt64(sz));
        if sz == 0 then Ok([])
        else if |b| < end then Err(BadLength)
        else if end < 8 then Err(SlicePanic)
        else Ok(b[8..end])
      else if |buffer| < 16 then Err(SlicePanic)
      else
        Uint64InRange(buffer[8..16]);
        var packed := ReadUint64(buffer[8..16]);
        var end := AddOffset(16, AsInt64(packed));
        if packed == 0 then Ok([])
        else if end < 16 || |buffer| < end then Err(SlicePanic)
        else
          match g.decompress(buffer[16..end])
          case None => Err(BadGzip)
          case Some(image) => Ok(image)
  }

  /** Decoding what Persist wrote gives the image back, whatever follows it in the stream. */
  lemma SnapshotRoundTrip(g: Platform, image: bytes, rest: bytes)
    requires SoundPlatform(g) && |Encoded(g, image) + rest| <= MAX_INT64
    ensures Decoded(g, Encoded(g, image) + rest) == Ok(image)
  {
    var packed := g.compress(image);
    var b := Encoded(g, image) + rest;
    var buffer := b + g.spare(b);
    assert buffer[..8] == WriteUint64(MAX_UINT64);
    assert buffer[8..16] == WriteUint64(|packed|);
    assert buffer[16..16 + |packed|] == packed;
    Uint64RoundTrip(MAX_UINT64);
    Uint64RoundTrip(|packed|);
  }

  /** The older form still decodes: its length can never be taken for the marker. */
  lemma LegacyRoundTrip(g: Platform, image: bytes, rest: bytes)
    requires |Legacy(image) + rest| <= MAX_INT64
    ensures ReadUint64((Legacy(image) + rest)[..8]) != MAX_UINT64
    ensures Decoded(g, Legacy(image) + rest) == Ok(image)
  {
    var b := Legacy(image) + rest;
    assert b[..8] == (b + g.spare(b))[..8] == WriteUint64(|image|);
    assert b[8..8 + |image|] == image;
    Uint64RoundTrip(|image|);
  }

  /** No stream is a snapshot in both forms, and the compressed form determines the image. */
  lemma FormsDisjoint(g: Platform, a: bytes, b: bytes)
    requires SoundPlatform(g) && |Encoded(g, a)| <= MAX_INT64 && |Encoded(g, b)| <= MAX_INT64 && |Legacy(b)| <= MAX_INT64
    ensures Encoded(g, a) != Legacy(b)
    ensures Encoded(g, a) == Encoded(g, b) ==> a == b
  {
    WholeStream(g, a);
    WholeStream(g, b);
    LegacyRoundTrip(g, b, []);
    assert Legacy(b) + [] == Legacy(b);
    Uint64RoundTrip(MAX_UINT64);
    assert Encoded(g, a)[..8] == WriteUint64(MAX_UINT64);
  }

  /** The format byte by byte: eight bytes of ones, the length from its least byte on, the compressed image. */
  lemma Format(g: Platform, image: bytes, k: nat)
    requires k < 8
    ensures |Encoded(g, image)| == 16 + |g.compress(image)|
    ensures Encoded(g, image)[k] == 255
    ensures Encoded(g, image)[8 + k] as nat == |g.compress(image)| / Pow256(k) % 256
    ensures Encoded(g, image)[16..] == g.compress(image)
  {
    LeastByteFirst(MAX_UINT64, 8, k);
    LeastByteFirst(|g.compress(image)|, 8, k);
    assert Pow256(0) == 1 && Pow256(1) == 0x100 && Pow256(2) == 0x1_0000 && Pow256(3) == 0x100_0000;
    assert Pow256(4) == 0x1_0000_0000 && Pow256(5) == 0x100_0000_0000 && Pow256(6) == 0x1_0000_0000_0000 && Pow256(7) == 0x100_0000_0000_0000;
  }

  /** A stream of the older form that is cut off is refused. */
  lemma CutLegacy(g: Platform, image: bytes, n: nat)
    requires 8 <= n < |Legacy(image)| <= MAX_INT64
    ensures Decoded(g, Legacy(image)[..n]) == Err(BadLength)
  {
    var b := Legacy(image)[..n];
    assert (b + g.spare(b))[..8] == WriteUint64(|image|);
    Uint64RoundTrip(|image|);
  }

  /** A compressed one panics, unless the buffer behind it reaches far enough. */
  lemma CutCompressed(g: Platform, image: bytes, n: nat)
    requires SoundPlatform(g) && 16 <= n <= |Encoded(g, image)| <= MAX_INT64
    requires n + |g.spare(Encoded(g, image)[..n])| < |Encoded(g, image)|
    ensures Decoded(g, Encoded(g, image)[..n]) == Err(SlicePanic)
  {
    var b := Encoded(g, image)[..n];
    HeaderKept(g, image, n, g.spare(b));
    Uint64RoundTrip(MAX_UINT64);
    Uint64RoundTrip(|g.compress(image)|);
  }

  lemma HeaderKept(g: Platform, image: bytes, n: nat, rest: bytes)
    requires 16 <= n <= |Encoded(g, image)|
    ensures (Encoded(g, image)[..n] + rest)[..8] == WriteUint64(MAX_UINT64)
    ensures (Encoded(g, image)[..n] + rest)[8..16] == WriteUint64(|g.compress(image)|)
  {
    var whole, b := Encoded(g, image), Encoded(g, image)[..n];
    assert (b + rest)[..8] == whole[..8] && (b + rest)[8..16] == whole[8..16];
    assert whole[8..16] == WriteUint64(|g.compress(image)|);
  }

  /** A length beyond int64 turns negative and panics; an empty length means no database. */
  lemma BadLengths(g: Platform, sz: nat, rest: bytes)
    requires sz < MAX_UINT64
    ensures sz > MAX_INT64 ==> Decoded(g, WriteUint64(sz) + rest) == Err(SlicePanic)
    ensures sz == 0 ==> Decoded(g, WriteUint64(sz) + rest) == Ok([])
  {
    var b := WriteUint64(sz) + rest;
    assert (b + g.spare(b))[..8] == WriteUint64(sz);
    Uint64RoundTrip(sz);
  }

  lemma WholeStream(g: Platform, image: bytes)
    requires SoundPlatform(g) && |Encoded(g, image)| <= MAX_INT64
    ensures Decoded(g, Encoded(g, image)) == Ok(image)
  {
    assert Encoded(g, image) + [] == Encoded(g, image);
    SnapshotRoundTrip(g, image, []);
  }

  // Writing a snapshot to a sink that can fail at any point.

  datatype SinkStatus = Open | Closed | Cancelled

  /** What the sink does with one write: take all of it, or only the first n bytes and report an error. */
  datatype WriteOutcome = Full | Short(n: nat)

  datatype Faults = Faults(marker: WriteOutcome, length: WriteOutcome, body: WriteOutcome, close: bool)

  class Sink {
    var written: bytes
    var status: SinkStatus

    constructor ()
      ensures written == [] && status == Open
    {
      written, status := [], Open;
    }

    method Write(b: bytes, outcome: WriteOutcome) returns (ok: bool)
      modifies this`written
      ensures ok <==> outcome.Full?
      ensures ok ==> written == old(written) + b
      ensures old(written) <= written
    {
      ok := outcome.Full?;
      written := written + if ok || outcome.n > |b| then b else b[..outcome.n];
    }

    method Close(succeeds: bool) returns (ok: bool)
      modifies this`status
      ensures ok == succeeds && status == if ok then Closed else old(status)
    {
      ok := succeeds;
      if ok {
        status := Closed;
      }
    }

    method Cancel()
      modifies this`status
      ensures status == Cancelled
    {
      status := Cancelled;
    }
  }

  /** Success means a completely written and closed sink; every failure leaves it cancelled. */
  method Persist(g: Platform, image: bytes, sink: Sink, faults: Faults) returns (ok: bool)
    requires sink.status == Open && sink.written == []
    modifies sink
    ensures ok <==> faults == Faults(Full, Full, Full, true)
    ensures ok ==> sink.status == Closed && sink.written == Encoded(g, image)
    ensures !ok ==> sink.status == Cancelled
  {
    ok := PersistBody(g, image, sink, faults);
    if !ok {
      sink.Cancel();
    }
  }

  method PersistBody(g: Platform, image: bytes, sink: Sink, faults: Faults) returns (ok: bool)
    requires sink.status == Open && sink.written == []
    modifies sink
    ensures ok <==> faults == Faults(Full, Full, Full, true)
    ensures ok ==> sink.status == Closed && sink.written == Encoded(g, image)
  {
    var buffer := WriteUint64(MAX_UINT64);
    ok := sink.Write(buffer, faults.marker);
    if !ok {
      return;
    }
    assert sink.written == WriteUint64(MAX_UINT64);
    var compressed := g.compress(image);
    buffer := WriteUint64(|compressed|);
    ok := sink.Write(buffer, faults.length);
    if !ok {
      return;
    }
    ok := sink.Write(compressed, faults.body);
    if !ok {
      return;
    }
    ok := sink.Close(faults.close);
  }
}
