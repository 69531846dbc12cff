/**
 The stream frame: a 32-bit payload hash (little-endian), the payload length as a
 vint, the payload. The hash is a parameter; nothing here depends on which one it is.
 */
module FrameCodec {
  import opened Vint

  const HASH_SIZE: nat := 4
  /** Frames up to this size are handled in the fixed buffers on both sides. */
  const DATA_SMALL_SIZE: nat := 7168
  const MAX_INT: nat := 0x7FFF_FFFF_FFFF_FFFF
  const TWO_32: nat := 0x1_0000_0000

  type U32 = v: int | 0 <= v < TWO_32
  type Hash = seq<Byte> -> U32

  /** Payloads whose whole frame still has a length that fits the original's signed int. */
  type Payload = p: seq<Byte> | |p| + 14 <= MAX_INT

  function LittleEndian(h: U32): (s: seq<Byte>)
    ensures |s| == HASH_SIZE
  {
    [h % 256, h / 256 % 256, h / 65536 % 256, h / 16777216]
  }

  function FromLittleEndian(s: seq<Byte>): U32
    requires |s| == HASH_SIZE
  {
    var b0: int, b1: int, b2: int, b3: int := s[0], s[1], s[2], s[3];
    b0 + 256 * b1 + 65536 * b2 + 16777216 * b3
  }

  lemma LittleEndianInverse(h: U32)
    ensures FromLittleEndian(LittleEndian(h)) == h
  {
    var a, b, c := h / 256, h / 65536, h / 16777216;
    assert h == 256 * a + h % 256;
    assert a / 256 == b && b / 256 == c;
  }

  /** A frame on the wire, whose hash field may or may not match its payload. */
  datatype Wire = Wire(hash: U32, payload: Payload)

  function WireBytes(w: Wire): (s: seq<Byte>)
    ensures |s| == HASH_SIZE + |Encode(|w.payload|)| + |w.payload|
  {
    LittleEndian(w.hash) + Encode(|w.payload|) + w.payload
  }

  /** What `Send` puts on the wire for a payload. */
  function FrameOf(hash: Hash, p: Payload): (s: seq<Byte>)
  {
    WireBytes(Wire(hash(p), p))
  }

  // ----- Headers -----

  datatype Header = NeedMore | Header(hash: U32, vintSize: nat, length: U64)
  {
    /** The frame's total size, when the original's int arithmetic does not overflow. */
    function Total(): nat
      requires Header?
    {
      HASH_SIZE + vintSize + length
    }

    predicate Representable()
      requires Header?
    {
      Total() <= MAX_INT
    }
  }

  function ParseHeader(data: seq<Byte>): (h: Header)
    ensures h.Header? ==> 1 <= h.vintSize && HASH_SIZE + h.vintSize <= |data|
  {
    if |data| < HASH_SIZE + 1 then NeedMore
    else
      match Decode(data[HASH_SIZE..])
      case Incomplete => NeedMore
      case Value(v, n) => Header(FromLittleEndian(data[..HASH_SIZE]), n, v)
  }

  lemma ParseHeaderExtend(data: seq<Byte>, suffix: seq<Byte>)
    requires ParseHeader(data).Header?
    ensures ParseHeader(data + suffix) == ParseHeader(data)
    ensures ParseHeader(data[..HASH_SIZE + ParseHeader(data).vintSize]) == ParseHeader(data)
  {
    var tail := data[HASH_SIZE..];
    ScanExtend(tail, suffix, 0);
    assert (data + suffix)[HASH_SIZE..] == tail + suffix;
    assert (data + suffix)[..HASH_SIZE] == data[..HASH_SIZE];
    var n := Decode(tail).size;
    assert data[..HASH_SIZE + n][HASH_SIZE..] == tail[..n];
    assert data[..HASH_SIZE + n][..HASH_SIZE] == data[..HASH_SIZE];
  }

  lemma WireParts(w: Wire, suffix: seq<Byte>)
    ensures var data := WireBytes(w) + suffix;
            && data[..HASH_SIZE] == LittleEndian(w.hash)
            && data[HASH_SIZE..] == Encode(|w.payload|) + (w.payload + suffix)
  {
  }

  /** The header of a frame is read back from the frame with anything behind it. */
  lemma ParseWireHeader(w: Wire, suffix: seq<Byte>)
    ensures ParseHeader(WireBytes(w) + suffix) == Header(w.hash, |Encode(|w.payload|)|, |w.payload|)
    ensures Header(w.hash, |Encode(|w.payload|)|, |w.payload|).Representable()
  {
    WireParts(w, suffix);
    DecodeEncode(|w.payload|, w.payload + suffix);
    LittleEndianInverse(w.hash);
    EncodeSizeBound(|w.payload|);
  }

  // ----- Whole frames -----

  /**
   `Panics` stands for a length field so large that the original's int arithmetic
   wraps and its slice expression goes out of range.
   */
  datatype Unpacked =
    | Short
    | Panics
    | BadHash(payload: seq<Byte>, consumed: nat)
    | Good(payload: seq<Byte>, consumed: nat)

  function UnpackFrame(hash: Hash, data: seq<Byte>): (r: Unpacked)
    ensures r.BadHash? || r.Good? ==> HASH_SIZE < r.consumed <= |data| && |r.payload| < r.consumed
    ensures r.Good? ==> hash(r.payload) == FromLittleEndian(data[..HASH_SIZE])
  {
    var h := ParseHeader(data);
    if h.NeedMore? then Short
    else if !h.Representable() then Panics
    else if |data| < h.Total() then Short
    else
      var payload := data[HASH_SIZE + h.vintSize..h.Total()];
      if hash(payload) != h.hash then BadHash(payload, h.Total()) else Good(payload, h.Total())
  }

  /** Unpacking inverts framing with any suffix; a wrong hash field is always caught. */
  lemma UnpackWire(hash: Hash, w: Wire, suffix: seq<Byte>)
    ensures UnpackFrame(hash, WireBytes(w) + suffix) ==
            if hash(w.payload) == w.hash then Good(w.payload, |WireBytes(w)|) else BadHash(w.payload, |WireBytes(w)|)
  {
    ParseWireHeader(w, suffix);
    var h := ParseHeader(WireBytes(w) + suffix);
    assert (WireBytes(w) + suffix)[HASH_SIZE + h.vintSize..h.Total()] == w.payload;
  }

  /** Every proper prefix of a frame is reported as short, never as an error. */
  lemma PrefixShort(hash: Hash, w: Wire, n: nat)
    requires n < |WireBytes(w)|
    ensures UnpackFrame(hash, WireBytes(w)[..n]) == Short
  {
    var code := Encode(|w.payload|);
    var data := WireBytes(w)[..n];
    if n < HASH_SIZE + 1 {
    } else if n < HASH_SIZE + |code| {
      assert data[HASH_SIZE..] == code[..n - HASH_SIZE];
      PrefixIncomplete(|w.payload|, n - HASH_SIZE);
    } else {
      CutPayload(hash, w, n - HASH_SIZE - |code|);
    }
  }

  lemma CutPayload(hash: Hash, w: Wire, m: nat)
    requires m < |w.payload|
    ensures UnpackFrame(hash, WireBytes(w)[..HASH_SIZE + |Encode(|w.payload|)| + m]) == Short
  {
    var code := Encode(|w.payload|);
    var data := WireBytes(w)[..HASH_SIZE + |code| + m];
    assert data[HASH_SIZE..] == code + w.payload[..m];
    DecodeEncode(|w.payload|, w.payload[..m]);
    EncodeSizeBound(|w.payload|);
  }

  /** Fills `frame` with the frame of `payload`; too small a buffer is left untouched. */
  method PackFrame(hash: Hash, payload: Payload, frame: array<Byte>) returns (written: nat)
    modifies frame
    ensures written == if |FrameOf(hash, payload)| <= frame.Length then |FrameOf(hash, payload)| else 0
    ensures frame[..] == FrameOf(hash, payload)[..written] + old(frame[..])[written..]
  {
    var vintSize := VintEncodedSize(|payload|);
    var total := HASH_SIZE + vintSize + |payload|;
    written := 0;
    if frame.Length < total {
      return;
    }
    var h := LittleEndian(hash(payload));
    forall k | 0 <= k < HASH_SIZE { frame[k] := h[k]; }
    var vintWritten := WriteVint(|payload|, frame, HASH_SIZE, HASH_SIZE + vintSize);
    if vintWritten != vintSize {
      return;
    }
    forall k | HASH_SIZE + vintSize <= k < total { frame[k] := payload[k - HASH_SIZE - vintSize]; }
    written := total;
    assert FrameOf(hash, payload)[..written] == FrameOf(hash, payload);
  }
}
