/** What a code and a frame look like on the wire, told by the bytes alone. */
module WireFormat {
  import opened Vint
  import opened FrameCodec

  /** The number whose digits to the base 128 are the lower seven bits, the first one highest. */
  function Base128(s: seq<Byte>): nat {
    if s == [] then 0 else Base128(s[..|s| - 1]) * 128 + s[|s| - 1] % 128
  }

  /** The top bit is set in all bytes but the last, and the first digit is no idle zero. */
  predicate Formed(s: seq<Byte>) {
    && |s| >= 1 && s[|s| - 1] < 128
    && (forall i :: 0 <= i < |s| - 1 ==> s[i] >= 128)
    && (|s| > 1 ==> s[0] != 128)
  }

  /** Continuation digits without an idle zero in front. */
  predicate High(s: seq<Byte>) {
    (forall i :: 0 <= i < |s| ==> s[i] >= 128) && (s != [] ==> s[0] != 128)
  }

  lemma Base128Snoc(s: seq<Byte>, b: Byte)
    ensures Base128(s + [b]) == Base128(s) * 128 + b % 128
  {
    assert (s + [b])[..|s|] == s;
  }

  lemma HighSnoc(s: seq<Byte>, b: Byte)
    ensures High(s + [b]) <==> High(s) && b >= 128 && (s == [] ==> b != 128)
  {
    var t := s + [b];
    assert t[|s|] == b;
    if High(t) {
      assert forall i :: 0 <= i < |s| ==> s[i] == t[i];
    }
  }

  /** A well-formed code is continuation digits and a last one. */
  lemma FormedSnoc(s: seq<Byte>, b: Byte)
    ensures Formed(s + [b]) <==> High(s) && b < 128
  {
    var t := s + [b];
    assert t[|s|] == b;
    assert forall i :: 0 <= i < |s| ==> s[i] == t[i];
  }

  lemma Digits(h: nat, d: nat)
    requires d < 128
    ensures (h * 128 + d) / 128 == h && (h * 128 + d) % 128 == d && (128 + d) % 128 == d
  {
  }

  lemma {:induction false} HighFormat(h: nat)
    ensures High(HighGroups(h)) && Base128(HighGroups(h)) == h
  {
    if h != 0 {
      HighFormat(h / 128);
      var (init, last: Byte) := (HighGroups(h / 128), 128 + h % 128);
      assert HighGroups(h) == init + [last];
      Digits(h / 128, h % 128);
      HighSnoc(init, last);
      Base128Snoc(init, last);
      hide *;
      assert init == [] ==> h / 128 == 0 by { EmptyIsZero(h / 128); }
    }
  }

  lemma EmptyIsZero(h: nat)
    ensures HighGroups(h) == [] <==> h == 0
  {
  }

  lemma {:induction false} HighUnique(s: seq<Byte>)
    requires High(s)
    ensures s == HighGroups(Base128(s))
  {
    if s != [] {
      var (init, last) := (s[..|s| - 1], s[|s| - 1]);
      assert s == init + [last];
      HighSnoc(init, last);
      HighUnique(init);
      Base128Snoc(init, last);
      EmptyIsZero(Base128(init));
      hide Base128;
      hide High;
      SnocGroups(Base128(init), last);
    }
  }

  lemma SnocGroups(h: nat, b: Byte)
    requires b >= 128 && (h == 0 ==> b != 128)
    ensures HighGroups(h * 128 + b % 128) == HighGroups(h) + [b]
  {
    Digits(h, b % 128);
    assert b == 128 + b % 128;
  }

  lemma EncodeForm(v: nat)
    ensures Formed(Encode(v)) && Base128(Encode(v)) == v
  {
    HighFormat(v / 128);
    FormedSnoc(HighGroups(v / 128), v % 128);
    Base128Snoc(HighGroups(v / 128), v % 128);
    Digits(v / 128, v % 128);
    hide HighGroups;
    hide Formed;
    hide Base128;
    hide High;
  }

  lemma FormEncodes(s: seq<Byte>)
    requires Formed(s)
    ensures s == Encode(Base128(s))
  {
    var (init, last) := (s[..|s| - 1], s[|s| - 1]);
    assert s == init + [last];
    FormedSnoc(init, last);
    HighUnique(init);
    Base128Snoc(init, last);
    Digits(Base128(init), last % 128);
    hide HighGroups;
    hide Formed;
    hide Base128;
    hide High;
  }

  /** The code of a number is the one well-formed sequence of bytes with that value. */
  lemma FormDecides(v: nat, s: seq<Byte>)
    ensures s == Encode(v) <==> Formed(s) && Base128(s) == v
  {
    hide *;
    EncodeForm(v);
    if Formed(s) {
      FormEncodes(s);
    }
  }

  /** The number with the given digits to the base 256, the first one lowest. */
  function Base256(s: seq<Byte>): nat {
    if s == [] then 0 else s[0] + 256 * Base256(s[1..])
  }

  lemma HashBytes(s: seq<Byte>)
    requires |s| == HASH_SIZE
    ensures FromLittleEndian(s) == Base256(s) && LittleEndian(Base256(s)) == s
  {
    var b0: int, b1: int, b2: int, b3: int := s[0], s[1], s[2], s[3];
    assert s[1..][1..] == s[2..] && s[2..][1..] == s[3..] && s[3..][1..] == [];
    assert Base256(s[3..]) == b3 && Base256(s[2..]) == b2 + 256 * b3;
    FourDigits(b0, b1, b2, b3);
  }

  lemma FourDigits(b0: int, b1: int, b2: int, b3: int)
    requires 0 <= b0 < 256 && 0 <= b1 < 256 && 0 <= b2 < 256 && 0 <= b3 < 256
    ensures var h := b0 + 256 * b1 + 65536 * b2 + 16777216 * b3;
            && h % 256 == b0 && h / 256 % 256 == b1 && h / 65536 % 256 == b2 && h / 16777216 == b3
  {
    var h := b0 + 256 * b1 + 65536 * b2 + 16777216 * b3;
    assert h / 65536 == b2 + 256 * b3;
    assert h / 256 == b1 + 256 * (b2 + 256 * b3);
  }

  /** Four bytes of hash, lowest first, then the payload's length in its code, then the payload. */
  ghost predicate Framed(hash: Hash, p: Payload, code: seq<Byte>, frame: seq<Byte>) {
    && Formed(code) && Base128(code) == |p|
    && |frame| == 4 + |code| + |p| && Base256(frame[..4]) == hash(p)
    && frame[4..4 + |code|] == code && frame[4 + |code|..] == p
  }

  /** A frame is the one sequence of bytes of that form. */
  lemma FrameDecides(hash: Hash, p: Payload, frame: seq<Byte>)
    ensures frame == FrameOf(hash, p) <==> exists code :: Framed(hash, p, code, frame)
  {
    FrameIsFramed(hash, p);
    forall code | Framed(hash, p, code, frame) ensures frame == FrameOf(hash, p) {
      FramedIsFrame(hash, p, code, frame);
    }
    hide Framed;
  }

  lemma FrameIsFramed(hash: Hash, p: Payload)
    ensures Framed(hash, p, Encode(|p|), FrameOf(hash, p))
  {
    FormDecides(|p|, Encode(|p|));
    HashBytes(LittleEndian(hash(p)));
    LittleEndianInverse(hash(p));
    FrameParts(hash, p);
    hide FrameOf;
    hide Formed;
    hide Encode;
  }

  lemma FramedIsFrame(hash: Hash, p: Payload, code: seq<Byte>, frame: seq<Byte>)
    requires Framed(hash, p, code, frame)
    ensures frame == FrameOf(hash, p)
  {
    FormDecides(|p|, code);
    HashBytes(frame[..4]);
    Joined(frame, 4 + |code|);
    hide Formed;
    hide Base128;
    hide Base256;
    hide Encode;
    hide LittleEndian;
  }

  lemma Joined(frame: seq<Byte>, n: nat)
    requires 4 <= n <= |frame|
    ensures frame == frame[..4] + frame[4..n] + frame[n..]
  {
  }

  lemma FrameParts(hash: Hash, p: Payload)
    ensures var (f, n) := (FrameOf(hash, p), |Encode(|p|)|);
            |f| == 4 + n + |p| && f[..4] == LittleEndian(hash(p)) && f[4..4 + n] == Encode(|p|) && f[4 + n..] == p
  {
    hide Encode;
    hide LittleEndian;
  }
}
