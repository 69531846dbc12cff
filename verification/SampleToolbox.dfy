/**
 A toolbox that keeps every law the results on packing ask for, with a real encoding of
 heads and bodies and the plainest ciphers: the laws can be met, for all messages.
 */
module SampleToolbox {
  import opened Vint
  import opened Wrappers
  import opened Negotiation
  import opened Padding
  import opened MessagePack
  import H = Handshake

  /** A way to write values down so that they can be read back from in front of anything. */
  datatype Code<!T(!new)> = Code(put: T -> seq<Byte>, get: seq<Byte> -> Option<(T, seq<Byte>)>) {
    ghost predicate Faithful() {
      forall x: T, rest: seq<Byte> :: get(put(x) + rest) == Some((x, rest))
    }
  }

  function PutNat(n: nat): (s: seq<Byte>)
    ensures |s| == n + 1
  {
    if n == 0 then [0] else [1] + PutNat(n - 1)
  }

  function GetNat(s: seq<Byte>): Option<(nat, seq<Byte>)> {
    if s == [] then None
    else if s[0] == 0 then Some((0, s[1..]))
    else
      var r := GetNat(s[1..]);
      if r.None? then None else Some((r.value.0 + 1, r.value.1))
  }

  lemma {:induction false} NatReturns(n: nat, rest: seq<Byte>)
    ensures GetNat(PutNat(n) + rest) == Some((n, rest))
  {
    var s := PutNat(n) + rest;
    if n == 0 {
      assert s[1..] == rest;
    } else {
      assert s[1..] == PutNat(n - 1) + rest;
      NatReturns(n - 1, rest);
    }
  }

  function NatCode(): Code<nat> {
    Code(n => PutNat(n), s => GetNat(s))
  }

  lemma NatFaithful()
    ensures NatCode().Faithful()
  {
    forall n: nat, rest: seq<Byte> ensures NatCode().get(NatCode().put(n) + rest) == Some((n, rest)) {
      NatReturns(n, rest);
    }
  }

  /** A sequence of bytes behind its length. */
  function BytesCode(): Code<seq<Byte>> {
    Code(b => PutNat(|b|) + b,
         s => var n := GetNat(s);
              if n.None? || n.value.0 > |n.value.1| then None
              else Some((n.value.1[..n.value.0], n.value.1[n.value.0..])))
  }

  lemma BytesFaithful()
    ensures BytesCode().Faithful()
  {
    forall b: seq<Byte>, rest: seq<Byte> ensures BytesCode().get(BytesCode().put(b) + rest) == Some((b, rest)) {
      assert PutNat(|b|) + b + rest == PutNat(|b|) + (b + rest);
      NatReturns(|b|, b + rest);
    }
  }

  /** One value after the other. */
  function Both<A(!new), B(!new)>(a: Code<A>, b: Code<B>): Code<(A, B)> {
    Code((x: (A, B)) => a.put(x.0) + b.put(x.1),
         s => var r := a.get(s);
              if r.None? then None
              else
                var q := b.get(r.value.1);
                if q.None? then None else Some(((r.value.0, q.value.0), q.value.1)))
  }

  lemma BothFaithful<A(!new), B(!new)>(a: Code<A>, b: Code<B>)
    requires a.Faithful() && b.Faithful()
    ensures Both(a, b).Faithful()
  {
    forall x: (A, B), rest: seq<Byte> ensures Both(a, b).get(Both(a, b).put(x) + rest) == Some((x, rest)) {
      assert a.put(x.0) + b.put(x.1) + rest == a.put(x.0) + (b.put(x.1) + rest);
    }
  }

  /** Another type's values, written as what they are turned into. */
  function Via<A(!new), B(!new)>(a: Code<A>, to: B -> A, from: A -> B): Code<B> {
    Code(x => a.put(to(x)), s => var r := a.get(s); if r.None? then None else Some((from(r.value.0), r.value.1)))
  }

  lemma ViaFaithful<A(!new), B(!new)>(a: Code<A>, to: B -> A, from: A -> B)
    requires a.Faithful() && forall x :: from(to(x)) == x
    ensures Via(a, to, from).Faithful()
  {
    forall x: B, rest: seq<Byte> ensures Via(a, to, from).get(Via(a, to, from).put(x) + rest) == Some((x, rest)) {
      assert a.get(a.put(to(x)) + rest) == Some((to(x), rest));
    }
  }

  /** A value that may be missing: a pair of a flag and the value, or of a flag and nothing. */
  function MaybeCode<A(!new)>(a: Code<A>): Code<Option<A>> {
    Code((x: Option<A>) => if x.None? then [0] else [1] + a.put(x.value),
         s => if s == [] then None
              else if s[0] == 0 then Some((None, s[1..]))
              else
                var r := a.get(s[1..]);
                if r.None? then None else Some((Some(r.value.0), r.value.1)))
  }

  lemma MaybeReturns<A(!new)>(a: Code<A>, x: Option<A>, rest: seq<Byte>)
    requires x.Some? ==> a.get(a.put(x.value) + rest) == Some((x.value, rest))
    ensures MaybeCode(a).get(MaybeCode(a).put(x) + rest) == Some((x, rest))
  {
    var s := MaybeCode(a).put(x) + rest;
    assert s[1..] == if x.None? then rest else a.put(x.value) + rest;
  }

  lemma MaybeFaithful<A(!new)>(a: Code<A>)
    requires a.Faithful()
    ensures MaybeCode(a).Faithful()
  {
    hide MaybeCode;
    forall x: Option<A>, rest: seq<Byte> ensures MaybeCode(a).get(MaybeCode(a).put(x) + rest) == Some((x, rest)) {
      MaybeReturns(a, x, rest);
    }
  }

  // ----- The types of a message -----

  function NatOfInt(i: int): nat { if i >= 0 then 2 * i else -2 * i - 1 }

  function IntOfNat(n: nat): int { if n % 2 == 0 then n / 2 else -(n + 1) / 2 }

  function AlgorithmNumber(a: Algorithm): nat {
    match a
    case NoCrypto => 0 case Xxtea => 1
    case Aes128Cbc => 2 case Aes192Cbc => 3 case Aes256Cbc => 4
    case Aes128Gcm => 5 case Aes192Gcm => 6 case Aes256Gcm => 7
    case Chacha20 => 8 case Chacha20Poly1305 => 9 case Xchacha20Poly1305 => 10
    case Unknown(code) => 11 + NatOfInt(code)
  }

  function AlgorithmOf(n: nat): Algorithm {
    if n < 11 then
      [NoCrypto, Xxtea, Aes128Cbc, Aes192Cbc, Aes256Cbc, Aes128Gcm, Aes192Gcm, Aes256Gcm,
       Chacha20, Chacha20Poly1305, Xchacha20Poly1305][n]
    else Unknown(IntOfNat(n - 11))
  }

  function CompressionNumber(c: Compression): nat {
    match c
    case NoCompression => 0 case Zstd => 1 case Lz4 => 2 case Snappy => 3 case Zlib => 4
    case OtherCompression(code) => 5 + NatOfInt(code)
  }

  function CompressionOf(n: nat): Compression {
    if n < 5 then [NoCompression, Zstd, Lz4, Snappy, Zlib][n] else OtherCompression(IntOfNat(n - 5))
  }

  function KindNumber(k: BodyType): nat {
    match k
    case NodeRegisterReq => 0 case NodeRegisterRsp => 1 case NodePingReq => 2 case NodePongRsp => 3
    case HandshakeConfirm => 4 case DataTransformReq => 5 case DataTransformRsp => 6
    case CustomCommandReq => 7 case CustomCommandRsp => 8 case NoBody => 9
  }

  function KindOfNumber(n: nat): BodyType {
    if n >= 10 then NoBody
    else
      [NodeRegisterReq, NodeRegisterRsp, NodePingReq, NodePongRsp, HandshakeConfirm,
       DataTransformReq, DataTransformRsp, CustomCommandReq, CustomCommandRsp, NoBody][n]
  }

  function CryptoCode(): Code<CryptoInfo> {
    Via(Both(NatCode(), Both(BytesCode(), BytesCode())),
        (x: CryptoInfo) => (AlgorithmNumber(x.alg), (x.iv, x.aad)),
        (p: (nat, (seq<Byte>, seq<Byte>))) => CryptoInfo(AlgorithmOf(p.0), p.1.0, p.1.1))
  }

  function CompressionCode(): Code<CompressionInfo> {
    Via(Both(NatCode(), NatCode()),
        (x: CompressionInfo) => (CompressionNumber(x.kind), x.size),
        (p: (nat, nat)) => CompressionInfo(CompressionOf(p.0), p.1))
  }

  function HeadCode(): Code<Head> {
    Via(Both(Both(NatCode(), Both(NatCode(), NatCode())), Both(MaybeCode(CryptoCode()), MaybeCode(CompressionCode()))),
        (h: Head) => ((NatOfInt(h.version), (h.bodySize, h.other)), (h.crypto, h.compression)),
        (p: ((nat, (nat, nat)), (Option<CryptoInfo>, Option<CompressionInfo>))) =>
          Head(IntOfNat(p.0.0), p.0.1.0, p.0.1.1, p.1.0, p.1.1))
  }

  function BodyCode(): Code<Body> {
    Via(Both(NatCode(), NatCode()),
        (b: Body) => (KindNumber(b.kind), b.content),
        (p: (nat, nat)) => Body(KindOfNumber(p.0), p.1))
  }

  lemma AlgorithmReturns(a: Algorithm)
    ensures AlgorithmOf(AlgorithmNumber(a)) == a
  {
  }

  lemma CryptoFaithful()
    ensures CryptoCode().Faithful()
  {
    forall a ensures AlgorithmOf(AlgorithmNumber(a)) == a {
      AlgorithmReturns(a);
    }
    hide AlgorithmOf;
    hide AlgorithmNumber;
    NatFaithful();
    BytesFaithful();
    BothFaithful(BytesCode(), BytesCode());
    BothFaithful(NatCode(), Both(BytesCode(), BytesCode()));
    hide NatCode;
    hide BytesCode;
    hide Both;
    ViaFaithful(Both(NatCode(), Both(BytesCode(), BytesCode())),
                (x: CryptoInfo) => (AlgorithmNumber(x.alg), (x.iv, x.aad)),
                (p: (nat, (seq<Byte>, seq<Byte>))) => CryptoInfo(AlgorithmOf(p.0), p.1.0, p.1.1));
  }

  lemma CompressionFaithful()
    ensures CompressionCode().Faithful()
  {
    NatFaithful();
    BothFaithful(NatCode(), NatCode());
    hide NatCode;
    hide Both;
    ViaFaithful(Both(NatCode(), NatCode()),
                (x: CompressionInfo) => (CompressionNumber(x.kind), x.size),
                (p: (nat, nat)) => CompressionInfo(CompressionOf(p.0), p.1));
  }

  lemma BodyFaithful()
    ensures BodyCode().Faithful()
  {
    NatFaithful();
    BothFaithful(NatCode(), NatCode());
    hide NatCode;
    hide Both;
    ViaFaithful(Both(NatCode(), NatCode()),
                (b: Body) => (KindNumber(b.kind), b.content),
                (p: (nat, nat)) => Body(KindOfNumber(p.0), p.1));
  }

  lemma HeadFaithful()
    ensures HeadCode().Faithful()
  {
    NatFaithful();
    CryptoFaithful();
    CompressionFaithful();
    MaybeFaithful(CryptoCode());
    MaybeFaithful(CompressionCode());
    BothFaithful(NatCode(), NatCode());
    BothFaithful(NatCode(), Both(NatCode(), NatCode()));
    BothFaithful(MaybeCode(CryptoCode()), MaybeCode(CompressionCode()));
    BothFaithful(Both(NatCode(), Both(NatCode(), NatCode())), Both(MaybeCode(CryptoCode()), MaybeCode(CompressionCode())));
    hide NatCode;
    hide Both;
    hide MaybeCode;
    hide CryptoCode;
    hide CompressionCode;
    ViaFaithful(Both(Both(NatCode(), Both(NatCode(), NatCode())), Both(MaybeCode(CryptoCode()), MaybeCode(CompressionCode()))),
                (h: Head) => ((NatOfInt(h.version), (h.bodySize, h.other)), (h.crypto, h.compression)),
                (p: ((nat, (nat, nat)), (Option<CryptoInfo>, Option<CompressionInfo>))) =>
                  Head(IntOfNat(p.0.0), p.0.1.0, p.0.1.1, p.1.0, p.1.1));
  }

  // ----- The toolbox -----

  function Whole<T(!new)>(c: Code<T>, s: seq<Byte>): Option<T> {
    var r := c.get(s);
    if r.Some? && r.value.1 == [] then Some(r.value.0) else None
  }

  lemma WholeReturns<T(!new)>(c: Code<T>, x: T)
    requires c.Faithful()
    ensures Whole(c, c.put(x)) == Some(x)
  {
    assert c.put(x) + [] == c.put(x);
  }

  function Tag(): (s: seq<Byte>)
    ensures |s| == AEAD_TAG
  {
    Filler(AEAD_TAG, 0)
  }

  function Plain(): Toolbox {
    Toolbox(
      h => HeadCode().put(h), s => Whole(HeadCode(), s),
      b => BodyCode().put(b), s => Whole(BodyCode(), s),
      (a: Algorithm, k: nat, iv: seq<Byte>, aad: seq<Byte>, d: seq<Byte>) => d + Tag(),
      (a: Algorithm, k: nat, iv: seq<Byte>, aad: seq<Byte>, c: seq<Byte>) =>
        if |c| < AEAD_TAG then None else Some(c[..|c| - AEAD_TAG]),
      (a: Algorithm, k: nat, iv: seq<Byte>, d: seq<Byte>) => d,
      (a: Algorithm, k: nat, iv: seq<Byte>, c: seq<Byte>) => c,
      (k: nat, iv: seq<Byte>, d: seq<Byte>) => d,
      (k: nat, d: seq<Byte>) => d,
      (k: nat, c: seq<Byte>) => Some(c),
      (c: Compression) => true,
      (c: Compression, d: seq<Byte>) => Done(d),
      (c: Compression, d: seq<Byte>, n: int) => Done(d))
  }

  lemma PlainCoding()
    ensures Plain().LawfulCoding()
  {
    HeadFaithful();
    BodyFaithful();
    hide HeadCode;
    hide BodyCode;
    var t := Plain();
    forall h ensures t.parseHead(t.head(h)) == Some(h) {
      WholeReturns(HeadCode(), h);
    }
    forall b ensures t.parseBody(t.body(b)) == Some(b) {
      WholeReturns(BodyCode(), b);
    }
  }

  /** All the laws can be met at once. */
  lemma PlainIsLawful()
    ensures Plain().Lawful()
  {
    PlainCoding();
    hide HeadCode;
    hide BodyCode;
    var t := Plain();
    forall a, k, iv, aad, d ensures t.open(a, k, iv, aad, t.seal(a, k, iv, aad, d)) == Some(d) {
      assert (d + Tag())[..|d + Tag()| - AEAD_TAG] == d;
    }
  }

  // ----- A message that goes there and back -----

  lemma HeadLength(h: Head)
    requires h.compression.None?
    ensures |HeadCode().put(h)| == NatOfInt(h.version) + h.bodySize + h.other + 5 +
            if h.crypto.None? then 0
            else AlgorithmNumber(h.crypto.value.alg) + 2 * |h.crypto.value.iv| + 2 * |h.crypto.value.aad| + 3
  {
    hide AlgorithmNumber;
    hide NatOfInt;
  }

  lemma PlainLengths(h: Head, b: Body)
    requires h.compression.None?
    ensures |Plain().head(h)| == NatOfInt(h.version) + h.bodySize + h.other + 5 +
            if h.crypto.None? then 0
            else AlgorithmNumber(h.crypto.value.alg) + 2 * |h.crypto.value.iv| + 2 * |h.crypto.value.aad| + 3
    ensures |Plain().body(b)| == KindNumber(b.kind) + b.content + 2
  {
    assert Plain().head(h) == HeadCode().put(h);
    hide HeadCode;
    HeadLength(h);
  }

  function DataMessage(content: nat, other: nat): Message {
    Message(Head(0, 0, other, None, None), Some(Body(DataTransformReq, content)))
  }

  function DataHead(t: Toolbox, content: nat, other: nat, version: nat, random: nat -> Byte): Head {
    Head(version, |t.body(Body(DataTransformReq, content))|, other, Some(CryptoInfo(Aes256Gcm, Drawn(random, 12), [])), None)
  }

  lemma DataPacks(t: Toolbox, key: nat, content: nat, other: nat, version: nat, random: nat -> Byte)
    ensures var (s, m) := (H.Session(true, Aes256Gcm, key), DataMessage(content, other));
            var packed := Packed(t, s, NoCompression, m, version, 0, random);
            && packed.Success? && packed.value.0 == DataHead(t, content, other, version, random)
            && Clean(t, s, NoCompression, m) && BodyBytes(t, m) == t.body(m.body.value)
  {
    hide SealedBody;
    hide Framed;
  }

  /** A data message comes back under any lawful toolbox, if its encodings are not too long. */
  lemma DataComesBack(t: Toolbox, key: nat, content: nat, other: nat, version: nat, random: nat -> Byte)
    requires t.Lawful() && 0 < |t.body(Body(DataTransformReq, content))| < TWO_63
    requires HeadSized(t, DataHead(t, content, other, version, random))
    ensures var (s, m) := (H.Session(true, Aes256Gcm, key), DataMessage(content, other));
            var packed := Packed(t, s, NoCompression, m, version, 0, random);
            && packed.Success? && Sized(t, s, NoCompression, m, version, 0, random)
            && Unpacked(t, s, packed.value.1, 0) == Success(Message(DataHead(t, content, other, version, random), m.body))
  {
    var (s, m) := (H.Session(true, Aes256Gcm, key), DataMessage(content, other));
    DataPacks(t, key, content, other, version, random);
    assert H.Opens(s, H.Seal(s));
    hide Packed;
    hide Unpacked;
    hide BodyBytes;
    hide HeadSized;
    hide Clean;
    hide H.Opens;
    UnpackPacked(t, s, s, NoCompression, m, version, 0, random);
  }

  lemma DataFits(content: nat, other: nat, version: nat, random: nat -> Byte)
    requires content + other + version < 0x1_0000_0000
    ensures 0 < |Plain().body(Body(DataTransformReq, content))| < TWO_63
    ensures HeadSized(Plain(), DataHead(Plain(), content, other, version, random))
  {
    hide Plain;
    PlainLengths(DataHead(Plain(), content, other, version, random), Body(DataTransformReq, content));
  }

  /** Whatever it says, a data message comes back through the sample toolbox. */
  lemma DataReturns(content: nat, other: nat, version: nat, key: nat, random: nat -> Byte)
    requires content + other + version < 0x1_0000_0000
    ensures var (t, s, m) := (Plain(), H.Session(true, Aes256Gcm, key), DataMessage(content, other));
            var packed := Packed(t, s, NoCompression, m, version, 0, random);
            && packed.Success? && Sized(t, s, NoCompression, m, version, 0, random)
            && Unpacked(t, s, packed.value.1, 0) == Success(Message(DataHead(t, content, other, version, random), m.body))
  {
    hide *;
    PlainIsLawful();
    DataFits(content, other, version, random);
    DataComesBack(Plain(), key, content, other, version, random);
  }
}
