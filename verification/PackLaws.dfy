/** What packing does to a message and unpacking asks of a frame, told by kinds, sizes and sessions. */
module PackLaws {
  import opened Vint
  import opened Wrappers
  import opened Negotiation
  import H = Handshake
  import opened Padding
  import opened MessagePack

  /** The messages that set up and renew keys. */
  predicate HandshakeKind(k: BodyType) {
    k in {NodeRegisterReq, NodeRegisterRsp, NodePingReq, NodePongRsp, HandshakeConfirm}
  }

  /** The messages that carry users' data. */
  predicate DataKind(k: BodyType) {
    k in {DataTransformReq, DataTransformRsp, CustomCommandReq, CustomCommandRsp}
  }

  function Keyed(write: H.Session): bool {
    write.live && write.alg != NoCrypto
  }

  // ----- Compression -----

  /** Compression is tried from 1024 bytes on for users' data, and from 2048 for the rest. */
  predicate Compressible(t: Toolbox, c: Compression, m: Message) {
    c != NoCompression && |BodyBytes(t, m)| >= if DataKind(KindOf(m)) then 1024 else 2048
  }

  /** It is used if the result is shorter. */
  predicate Shrinks(t: Toolbox, c: Compression, m: Message) {
    var plain := BodyBytes(t, m);
    && Compressible(t, c, m) && t.supported(c) && t.compress(c, plain).Done?
    && 0 < |t.compress(c, plain).bytes| < |plain|
  }

  function SmallBody(t: Toolbox, c: Compression, m: Message): seq<Byte> {
    if Shrinks(t, c, m) then t.compress(c, BodyBytes(t, m)).bytes else BodyBytes(t, m)
  }

  lemma SqueezedLaw(t: Toolbox, c: Compression, m: Message)
    ensures var s := Squeezed(t, CompressionFor(t, c, m), BodyBytes(t, m));
            && (s.Success? ==> s.value.1 == SmallBody(t, c, m) && (s.value.0 == if Shrinks(t, c, m) then c else NoCompression))
            && (s.Failure? <==> Compressible(t, c, m) && (!t.supported(c) || !t.compress(c, BodyBytes(t, m)).Done?))
  {
  }

  /** Packing fails exactly for a body over the limit, or one the compressor cannot take. */
  lemma PackFailsIff(t: Toolbox, write: H.Session, c: Compression, m: Message, version: int, maxBody: int, random: nat -> Byte)
    ensures var (r, plain) := (Packed(t, write, c, m, version, maxBody, random), BodyBytes(t, m));
            && (r == Failure(InvalidSize) <==> maxBody > 0 && |plain| > maxBody)
            && (r.Failure? && r.error != InvalidSize <==>
                  !(maxBody > 0 && |plain| > maxBody) && Compressible(t, c, m)
                  && (!t.supported(c) || !t.compress(c, plain).Done?))
  {
    SqueezedLaw(t, c, m);
  }

  /** The head names the compression exactly if the body was shrunk, with its new size. */
  lemma CompressedIff(t: Toolbox, write: H.Session, c: Compression, m: Message, version: int, maxBody: int, random: nat -> Byte)
    requires Packed(t, write, c, m, version, maxBody, random).Success?
    ensures Packed(t, write, c, m, version, maxBody, random).value.0.compression ==
            if Shrinks(t, c, m) then Some(CompressionInfo(c, |SmallBody(t, c, m)|)) else m.head.compression
  {
    SqueezedLaw(t, c, m);
    hide Squeezed;
  }

  // ----- Sealing -----

  /**
   Under a keyed session every message but the five of the handshake goes out sealed: its
   head names the session's algorithm and fresh random bytes of the right number, and what
   follows the head is the body, compressed if that helps, under the session's key.
   */
  lemma SealedUnlessHandshake(t: Toolbox, write: H.Session, c: Compression, m: Message, version: int, maxBody: int,
                              random: nat -> Byte)
    requires Packed(t, write, c, m, version, maxBody, random).Success?
    requires Keyed(write) && !HandshakeKind(KindOf(m))
    ensures var (sent, bytes) := Packed(t, write, c, m, version, maxBody, random).value;
            && sent.crypto.Some?
            && var info := sent.crypto.value;
               && info.alg == write.alg && |info.iv| == IvSize(write.alg)
               && (forall i :: 0 <= i < |info.iv| ==> info.iv[i] == random(i))
               && info.aad == (if m.head.crypto.Some? then m.head.crypto.value.aad else [])
               && bytes == Encode(|t.head(sent)|) + t.head(sent)
                           + Encrypt(t, write.alg, write.key, info.iv, info.aad, SmallBody(t, c, m))
  {
    SqueezedLaw(t, c, m);
    hide Squeezed;
    hide Encrypt;
    hide Encode;
  }

  /** The five go out in clear, and so does everything under a session without a key. */
  lemma ClearIfHandshake(t: Toolbox, write: H.Session, c: Compression, m: Message, version: int, maxBody: int,
                         random: nat -> Byte)
    requires Packed(t, write, c, m, version, maxBody, random).Success?
    requires !Keyed(write) || HandshakeKind(KindOf(m))
    ensures var (sent, bytes) := Packed(t, write, c, m, version, maxBody, random).value;
            && sent.crypto == m.head.crypto
            && bytes == Encode(|t.head(sent)|) + t.head(sent) + SmallBody(t, c, m)
  {
    SqueezedLaw(t, c, m);
    hide Squeezed;
    hide Encode;
  }

  /**
   A receiver without a session of that algorithm is told so exactly if the message is none
   of the five, whatever its key.
   */
  lemma StrangerRefusedIff(t: Toolbox, write: H.Session, read: H.Session, c: Compression, m: Message, version: int, maxBody: int,
                           random: nat -> Byte)
    requires t.LawfulCoding() && Keyed(write) && !(read.live && read.alg == write.alg)
    requires m.head.crypto.None? && BodyBytes(t, m) != []
    requires Sized(t, write, c, m, version, maxBody, random)
    requires var packed := Packed(t, write, c, m, version, maxBody, random);
             packed.Success? && (maxBody > 0 ==> |packed.value.1| <= maxBody + HEAD_OVERHEAD)
    ensures Unpacked(t, read, Packed(t, write, c, m, version, maxBody, random).value.1, maxBody) == Failure(CryptoNotMatch) <==>
            !HandshakeKind(KindOf(m))
  {
    var (sent, bytes) := Packed(t, write, c, m, version, maxBody, random).value;
    PackFailsIff(t, write, c, m, version, maxBody, random);
    SentHead(t, write, c, m, version, maxBody, random);
    BodyFits(t, m);
    if HandshakeKind(KindOf(m)) {
      ClearIfHandshake(t, write, c, m, version, maxBody, random);
      FramedParses(t, sent, SmallBody(t, c, m));
      ClearNotRefused(t, read, sent, SmallBody(t, c, m));
    } else {
      SealedUnlessHandshake(t, write, c, m, version, maxBody, random);
      FramedParses(t, sent, Encrypt(t, write.alg, write.key, sent.crypto.value.iv, sent.crypto.value.aad, SmallBody(t, c, m)));
    }
    hide Packed;
    hide Encrypt;
    hide Encode;
    hide Decode;
    hide SmallBody;
    hide UnpackedBody;
  }

  lemma SentHead(t: Toolbox, write: H.Session, c: Compression, m: Message, version: int, maxBody: int, random: nat -> Byte)
    requires Packed(t, write, c, m, version, maxBody, random).Success?
    ensures var sent := Packed(t, write, c, m, version, maxBody, random).value.0;
            sent.version == version && sent.bodySize == |BodyBytes(t, m)| && sent.other == m.head.other
  {
    hide Squeezed;
  }

  lemma ClearNotRefused(t: Toolbox, read: H.Session, h: Head, block: seq<Byte>)
    requires h.crypto.None?
    ensures UnpackedBody(t, read, h, block) != Failure(CryptoNotMatch)
  {
  }

  /** How long a sealed body is, by the kind of cipher. */
  lemma SealedSizes(t: Toolbox, a: Algorithm, key: nat, iv: seq<Byte>, aad: seq<Byte>, plain: seq<Byte>)
    requires t.LawfulCiphers()
    ensures var c := Encrypt(t, a, key, iv, aad, plain);
            && (a in {Aes128Gcm, Aes192Gcm, Aes256Gcm, Chacha20Poly1305, Xchacha20Poly1305} ==> |c| == |plain| + 16)
            && (a in {Aes128Cbc, Aes192Cbc, Aes256Cbc} ==> |c| % 16 == 0 && |plain| < |c| <= |plain| + 16)
            && (a == Chacha20 ==> |c| == |plain|)
            && (a == Xxtea && plain != [] ==> |c| % 4 == 0 && (|c| == 8 || |plain| < |c| <= |plain| + 4))
  {
    PadForm(plain);
    TeaForm(plain);
    hide Pad;
    hide TeaPad;
  }

  /** A nonce of another length than the cipher's is refused. */
  lemma NonceRefused(t: Toolbox, a: Algorithm, key: nat, iv: seq<Byte>, aad: seq<Byte>, c: seq<Byte>)
    ensures a in {Aes128Gcm, Aes192Gcm, Aes256Gcm, Chacha20Poly1305} && |iv| != 12 ==> Decrypt(t, a, key, iv, aad, c) == None
    ensures a == Xchacha20Poly1305 && |iv| != 24 ==> Decrypt(t, a, key, iv, aad, c) == None
    ensures a in {Aes128Cbc, Aes192Cbc, Aes256Cbc, Chacha20} && |iv| != 16 ==> Decrypt(t, a, key, iv, aad, c) == None
  {
    hide Unpad;
  }

  // ----- What unpacking asks of a frame -----

  /** Nothing longer than the limit and its allowance is unpacked. */
  lemma UnpacksWithinLimit(t: Toolbox, read: H.Session, input: seq<Byte>, maxBody: int)
    requires maxBody > 0 && Unpacked(t, read, input, maxBody).Success?
    ensures 0 < |input| <= maxBody + 256
    ensures ToInt(Unpacked(t, read, input, maxBody).value.head.bodySize) <= maxBody + 256
  {
    hide Decode;
    hide UnpackedBody;
    if Decode(input).Value? {
      UnpackedKeepsHead(t, read, input, maxBody);
    }
  }

  lemma UnpackedKeepsHead(t: Toolbox, read: H.Session, input: seq<Byte>, maxBody: int)
    requires Unpacked(t, read, input, maxBody).Success?
    ensures Decode(input).Value?
    ensures var (n, v) := (Decode(input).value, Decode(input).size);
            && n + v <= |input| && t.parseHead(input[v..v + n]) == Some(Unpacked(t, read, input, maxBody).value.head)
  {
  }

  /** What claims to be sealed is opened only by a live session of the algorithm it names. */
  lemma UnpackNeedsKey(t: Toolbox, read: H.Session, input: seq<Byte>, maxBody: int)
    requires Unpacked(t, read, input, maxBody).Success?
    ensures var h := Unpacked(t, read, input, maxBody).value.head;
            CarriesCrypto(h) && h.bodySize > 0 ==> read.live && read.alg == h.crypto.value.alg
  {
  }

  /** What claims to be compressed is unpacked only by a supported algorithm, which is given the bytes it claims. */
  lemma UnpackNeedsCompressor(t: Toolbox, read: H.Session, input: seq<Byte>, maxBody: int)
    requires Unpacked(t, read, input, maxBody).Success?
    ensures var h := Unpacked(t, read, input, maxBody).value.head;
            CarriesCompression(h) && h.bodySize > 0 ==>
              && t.supported(h.compression.value.kind) && ToInt(h.compression.value.size) > 0
              && exists block: seq<Byte> :: |block| == ToInt(h.compression.value.size)
                                            && t.decompress(h.compression.value.kind, block, ToInt(h.bodySize)).Done?
  {
    hide Decode;
    hide Opened;
  }

  /** An unpacked body has just the size that the head gives. */
  lemma UnpackedSize(t: Toolbox, read: H.Session, input: seq<Byte>, maxBody: int)
    requires Unpacked(t, read, input, maxBody).Success?
    ensures var m := Unpacked(t, read, input, maxBody).value;
            && (m.body.None? <==> m.head.bodySize == 0)
            && (m.body.Some? ==> exists block: seq<Byte> :: |block| == m.head.bodySize && t.parseBody(block) == m.body)
  {
  }
}
