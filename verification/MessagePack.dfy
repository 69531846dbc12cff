/**
 Packing a message for the wire, by compressing, sealing and framing it, and unpacking
 it at the other end. Ciphers, compressors and the message encoding are parameters.
 */
module MessagePack {
  import opened Vint
  import opened Wrappers
  import opened Negotiation
  import H = Handshake
  import opened Padding
  import opened StaticBlock

  datatype BodyType =
    | NodeRegisterReq | NodeRegisterRsp | NodePingReq | NodePongRsp | HandshakeConfirm
    | DataTransformReq | DataTransformRsp | CustomCommandReq | CustomCommandRsp
    | NoBody

  datatype Compression = NoCompression | Zstd | Lz4 | Snappy | Zlib | OtherCompression(code: int)

  datatype CryptoInfo = CryptoInfo(alg: Algorithm, iv: seq<Byte>, aad: seq<Byte>)
  datatype CompressionInfo = CompressionInfo(kind: Compression, size: nat)

  /** `other` stands for the fields packing does not look at. */
  datatype Head = Head(
    version: int, bodySize: nat, other: nat, crypto: Option<CryptoInfo>, compression: Option<CompressionInfo>)

  datatype Body = Body(kind: BodyType, content: nat)
  datatype Message = Message(head: Head, body: Option<Body>)

  datatype PackCode =
    | Ok | ChannelClosing | Params | InvalidSize | Pack | Unpack
    | CryptoNotMatch | CryptoDecrypt | CompressionNotSupport | Crash

  datatype Result<T> = Success(value: T) | Failure(error: PackCode)

  datatype Converted = Done(bytes: seq<Byte>) | NotSupported | Failed

  /** A crash is a slice out of range, for lengths that do not fit a signed integer. */
  const TWO_63: nat := 0x8000_0000_0000_0000

  function ToInt(n: nat): int {
    if n % TWO_64 < TWO_63 then n % TWO_64 else n % TWO_64 - TWO_64
  }

  const AEAD_TAG := 16
  const HEAD_OVERHEAD := 256

  datatype Toolbox = Toolbox(
    head: Head -> seq<Byte>,
    parseHead: seq<Byte> -> Option<Head>,
    body: Body -> seq<Byte>,
    parseBody: seq<Byte> -> Option<Body>,
    seal: (Algorithm, nat, seq<Byte>, seq<Byte>, seq<Byte>) -> seq<Byte>,
    open: (Algorithm, nat, seq<Byte>, seq<Byte>, seq<Byte>) -> Option<seq<Byte>>,
    cbcEncrypt: (Algorithm, nat, seq<Byte>, seq<Byte>) -> seq<Byte>,
    cbcDecrypt: (Algorithm, nat, seq<Byte>, seq<Byte>) -> seq<Byte>,
    stream: (nat, seq<Byte>, seq<Byte>) -> seq<Byte>,
    teaEncrypt: (nat, seq<Byte>) -> seq<Byte>,
    teaDecrypt: (nat, seq<Byte>) -> Option<seq<Byte>>,
    supported: Compression -> bool,
    compress: (Compression, seq<Byte>) -> Converted,
    decompress: (Compression, seq<Byte>, int) -> Converted)
  {
    ghost predicate LawfulCoding() {
      (forall h :: parseHead(head(h)) == Some(h)) && (forall b :: parseBody(body(b)) == Some(b))
    }

    ghost predicate LawfulCiphers() {
      && (forall a, k, iv, aad, d :: open(a, k, iv, aad, seal(a, k, iv, aad, d)) == Some(d)
                                     && |seal(a, k, iv, aad, d)| == |d| + AEAD_TAG)
      && (forall a, k, iv, d :: |d| % AES_BLOCK == 0 ==>
            |cbcEncrypt(a, k, iv, d)| == |d| && cbcDecrypt(a, k, iv, cbcEncrypt(a, k, iv, d)) == d)
      && (forall k, iv, d :: |stream(k, iv, d)| == |d| && stream(k, iv, stream(k, iv, d)) == d)
      && (forall k, d :: |d| >= TEA_LEAST && |d| % TEA_WORD == 0 ==>
            |teaEncrypt(k, d)| == |d| && teaDecrypt(k, teaEncrypt(k, d)) == Some(d))
    }

    ghost predicate LawfulCompression() {
      forall c, d :: compress(c, d).Done? ==> decompress(c, compress(c, d).bytes, |d|) == Done(d)
    }

    ghost predicate Lawful() {
      LawfulCoding() && LawfulCiphers() && LawfulCompression()
    }
  }

  // ----- Tables -----

  function IvSize(a: Algorithm): nat {
    match a
    case Aes128Cbc | Aes192Cbc | Aes256Cbc => AES_BLOCK
    case Aes128Gcm | Aes192Gcm | Aes256Gcm => 12
    case Chacha20 => 16
    case Chacha20Poly1305 => 12
    case Xchacha20Poly1305 => 24
    case _ => 0
  }

  predicate IsAead(a: Algorithm) {
    a.Aes128Gcm? || a.Aes192Gcm? || a.Aes256Gcm? || a.Chacha20Poly1305? || a.Xchacha20Poly1305?
  }

  predicate IsCbc(a: Algorithm) {
    a.Aes128Cbc? || a.Aes192Cbc? || a.Aes256Cbc?
  }

  predicate AllowCrypto(kind: BodyType) {
    match kind
    case NodeRegisterReq | NodeRegisterRsp | NodePingReq | NodePongRsp | HandshakeConfirm => false
    case _ => true
  }

  predicate AllowCompress(kind: BodyType, size: nat) {
    if size <= 512 then false
    else
      match kind
      case DataTransformReq | DataTransformRsp | CustomCommandReq | CustomCommandRsp => size >= 1024
      case _ => size >= 2048
  }

  // ----- Sealing -----

  function Encrypt(t: Toolbox, a: Algorithm, key: nat, iv: seq<Byte>, aad: seq<Byte>, plain: seq<Byte>): seq<Byte> {
    if IsAead(a) then t.seal(a, key, iv, aad, plain)
    else if IsCbc(a) then t.cbcEncrypt(a, key, iv, Pad(plain))
    else if a == Chacha20 then t.stream(key, iv, plain)
    else if plain == [] then []
    else t.teaEncrypt(key, TeaPad(plain))
  }

  function Decrypt(t: Toolbox, a: Algorithm, key: nat, iv: seq<Byte>, aad: seq<Byte>, c: seq<Byte>): Option<seq<Byte>> {
    if |iv| != IvSize(a) && IvSize(a) > 0 then None
    else if IsAead(a) then t.open(a, key, iv, aad, c)
    else if IsCbc(a) then
      if |c| < AES_BLOCK || |c| % AES_BLOCK != 0 then None else Unpad(t.cbcDecrypt(a, key, iv, c))
    else if a == Chacha20 then Some(t.stream(key, iv, c))
    else if c == [] then Some([])
    else if a == Xxtea then t.teaDecrypt(key, c)
    else None
  }

  method EncryptBody(t: Toolbox, a: Algorithm, key: nat, iv: seq<Byte>, aad: seq<Byte>, plain: seq<Byte>)
      returns (c: seq<Byte>)
    ensures c == Encrypt(t, a, key, iv, aad, plain)
  {
    if IsAead(a) {
      return t.seal(a, key, iv, aad, plain);
    }
    if IsCbc(a) {
      var padded := PadBlocks(plain);
      return t.cbcEncrypt(a, key, iv, padded[..]);
    }
    if a == Chacha20 {
      return t.stream(key, iv, plain);
    }
    if |plain| == 0 {
      return [];
    }
    var padded := PadTea(plain);
    return t.teaEncrypt(key, padded[..]);
  }

  method DecryptBody(t: Toolbox, a: Algorithm, key: nat, iv: seq<Byte>, aad: seq<Byte>, c: seq<Byte>)
      returns (plain: Option<seq<Byte>>)
    ensures plain == Decrypt(t, a, key, iv, aad, c)
  {
    if |iv| != IvSize(a) && IvSize(a) > 0 {
      return None;
    }
    if IsAead(a) {
      return t.open(a, key, iv, aad, c);
    }
    if IsCbc(a) {
      if |c| < AES_BLOCK || |c| % AES_BLOCK != 0 {
        return None;
      }
      var blocks := t.cbcDecrypt(a, key, iv, c);
      if |blocks| % AES_BLOCK != 0 {
        return Unpad(blocks);
      }
      var padded := new Byte[|blocks|](k requires 0 <= k < |blocks| => blocks[k]);
      assert padded[..] == blocks;
      plain := StripBlocks(padded);
      return;
    }
    if a == Chacha20 {
      return Some(t.stream(key, iv, c));
    }
    if |c| == 0 {
      return Some([]);
    }
    return if a == Xxtea then t.teaDecrypt(key, c) else None;
  }

  /** Decryption gives back the plaintext, which for XXTEA may be followed by padding. */
  lemma DecryptEncrypt(t: Toolbox, a: Algorithm, key: nat, iv: seq<Byte>, aad: seq<Byte>, plain: seq<Byte>)
    requires t.LawfulCiphers() && |iv| == IvSize(a) && a != NoCrypto && !a.Unknown?
    ensures var c := Encrypt(t, a, key, iv, aad, plain);
            && Decrypt(t, a, key, iv, aad, c).Some?
            && plain <= Decrypt(t, a, key, iv, aad, c).value
            && (a != Xxtea ==> Decrypt(t, a, key, iv, aad, c).value == plain)
            && |Decrypt(t, a, key, iv, aad, c).value| <= |plain| + TEA_LEAST
            && |c| <= |plain| + AES_BLOCK
  {
    UnpadExactly(Pad(plain), plain);
  }

  // ----- Packing -----

  function BodyBytes(t: Toolbox, m: Message): seq<Byte> {
    if m.body.None? then [] else t.body(m.body.value)
  }

  function KindOf(m: Message): BodyType {
    if m.body.None? then NoBody else m.body.value.kind
  }

  function CryptoFor(write: H.Session, m: Message): Algorithm {
    if AllowCrypto(KindOf(m)) && write.live then write.alg else NoCrypto
  }

  function CompressionFor(t: Toolbox, c: Compression, m: Message): Compression {
    if AllowCompress(KindOf(m), |BodyBytes(t, m)|) then c else NoCompression
  }

  /** The body after the compression step, and the compression that was really used. */
  function Squeezed(t: Toolbox, c: Compression, plain: seq<Byte>): Result<(Compression, seq<Byte>)> {
    if c == NoCompression || plain == [] then Success((c, plain))
    else if !t.supported(c) then Failure(CompressionNotSupport)
    else
      match t.compress(c, plain)
      case NotSupported => Failure(CompressionNotSupport)
      case Failed => Failure(Pack)
      case Done(small) =>
        if 0 < |small| < |plain| then Success((c, small)) else Success((NoCompression, plain))
  }

  function Drawn(random: nat -> Byte, n: nat): (iv: seq<Byte>)
    ensures |iv| == n
  {
    seq(n, i requires 0 <= i < n => random(i))
  }

  function Aad(h: Head): seq<Byte> {
    if h.crypto.Some? then h.crypto.value.aad else []
  }

  function SealedHead(h: Head, a: Algorithm, random: nat -> Byte): Head {
    if a == NoCrypto then h else h.(crypto := Some(CryptoInfo(a, Drawn(random, IvSize(a)), Aad(h))))
  }

  function SealedBody(t: Toolbox, write: H.Session, h: Head, a: Algorithm, random: nat -> Byte, plain: seq<Byte>): seq<Byte> {
    if a == NoCrypto then plain else Encrypt(t, a, write.key, Drawn(random, IvSize(a)), Aad(h), plain)
  }

  function SqueezedHead(h: Head, c: Compression, size: nat): Head {
    if c == NoCompression then h else h.(compression := Some(CompressionInfo(c, size)))
  }

  function Framed(headBytes: seq<Byte>, body: seq<Byte>): seq<Byte> {
    Encode(|headBytes|) + headBytes + body
  }

  function StampedHead(t: Toolbox, m: Message, version: int): Head {
    m.head.(version := version, bodySize := |BodyBytes(t, m)|)
  }

  /** The head as sent and the bytes on the wire. */
  function Packed(t: Toolbox, write: H.Session, c: Compression, m: Message, version: int, maxBody: int, random: nat -> Byte)
      : Result<(Head, seq<Byte>)>
  {
    var plain := BodyBytes(t, m);
    if maxBody > 0 && |plain| > maxBody then Failure(InvalidSize)
    else
      var (a, h) := (CryptoFor(write, m), StampedHead(t, m, version));
      var squeezed := Squeezed(t, CompressionFor(t, c, m), plain);
      if squeezed.Failure? then Failure(squeezed.error)
      else
        var (used, small) := squeezed.value;
        var h1 := SqueezedHead(SealedHead(h, a, random), used, |small|);
        Success((h1, Framed(t.head(h1), SealedBody(t, write, h, a, random, small))))
  }

  /** The encoded head's length fits a signed integer, with room for its length code. */
  predicate HeadSized(t: Toolbox, h: Head) {
    |t.head(h)| + 10 < TWO_63
  }

  /** So do the lengths of this message's encodings, as those of everything in memory do. */
  predicate Sized(t: Toolbox, write: H.Session, c: Compression, m: Message, version: int, maxBody: int, random: nat -> Byte) {
    && |BodyBytes(t, m)| < TWO_63
    && var packed := Packed(t, write, c, m, version, maxBody, random);
       packed.Success? ==> HeadSized(t, packed.value.0)
  }

  method LayHeadSize(n: nat, data: array<Byte>)
    requires n < TWO_63 && |Encode(n)| <= data.Length
    modifies data
    ensures data[..|Encode(n)|] == Encode(n)
  {
    EncodeSizeBound(n);
    hide Encode;
    ghost var was := data[..];
    var written := WriteVint(n, data, 0, data.Length);
    assert was[..0] == [];
    assert data[..written] == data[..][..written];
  }

  /** Allocates the block for a frame and lays the frame out in it. */
  method LayFrame(headBytes: seq<Byte>, body: seq<Byte>) returns (block: StaticBufferBlock)
    requires |headBytes| < TWO_63
    ensures fresh(block) && fresh(block.data) && block.Valid()
    ensures block.Content() == Framed(headBytes, body)
    ensures block.data.Length == PaddedSize(|Framed(headBytes, body)|)
  {
    var headVintSize := VintEncodedSize(|headBytes|);
    var totalSize := headVintSize + |headBytes| + |body|;
    EncodeSizeBound(|headBytes|);
    var b := AllocateTemporaryBufferBlock(totalSize);
    block := b;
    hide Encode;
    LayHeadSize(|headBytes|, block.data);
    block.CopyTo(headVintSize, headBytes);
    block.CopyTo(headVintSize + |headBytes|, body);
    block.SetUsed(totalSize);
  }

  method PackMessageOrigin(t: Toolbox, head: Head, body: Option<Body>) returns (block: StaticBufferBlock)
    requires HeadSized(t, head)
    ensures fresh(block) && fresh(block.data) && block.Valid()
    ensures block.Content() == Framed(t.head(head), BodyBytes(t, Message(head, body)))
    ensures block.data.Length == PaddedSize(|block.Content()|)
  {
    var bodyBytes := if body.None? then [] else t.body(body.value);
    block := LayFrame(t.head(head), bodyBytes);
  }

  method SqueezeBody(t: Toolbox, c: Compression, plain: seq<Byte>)
      returns (code: PackCode, used: Compression, small: seq<Byte>)
    ensures match Squeezed(t, c, plain)
            case Success(v) => code == Ok && v == (used, small)
            case Failure(e) => code == e != Ok
  {
    code, used, small := Ok, c, plain;
    if c != NoCompression && |plain| > 0 {
      if !t.supported(c) {
        return CompressionNotSupport, c, [];
      }
      var compressed := t.compress(c, plain);
      match compressed {
        case NotSupported => return CompressionNotSupport, c, [];
        case Failed => return Pack, c, [];
        case Done(bytes) =>
          if |bytes| > 0 && |bytes| < |plain| {
            small := bytes;
          } else {
            used := NoCompression;
          }
      }
    }
  }

  /** Packs with compression or encryption; says how, and returns the head it sent. */
  method PackMessageWith(t: Toolbox, write: H.Session, head: Head, plain: seq<Byte>, c: Compression, a: Algorithm, random: nat -> Byte)
      returns (code: PackCode, sent: Head, block: StaticBufferBlock?)
    requires var squeezed := Squeezed(t, c, plain);
             squeezed.Success? ==>
               HeadSized(t, SqueezedHead(SealedHead(head, a, random), squeezed.value.0, |squeezed.value.1|))
    ensures var squeezed := Squeezed(t, c, plain);
            if squeezed.Failure? then code == squeezed.error && block == null
            else
              && sent == SqueezedHead(SealedHead(head, a, random), squeezed.value.0, |squeezed.value.1|)
              && code == Ok && block != null && fresh(block) && fresh(block.data) && block.Valid()
              && block.Content() == Framed(t.head(sent), SealedBody(t, write, head, a, random, squeezed.value.1))
              && block.data.Length == PaddedSize(|block.Content()|)
  {
    sent, block := head, null;
    var used, body;
    code, used, body := SqueezeBody(t, c, plain);
    if code != Ok {
      return;
    }
    var small := |body|;
    if a != NoCrypto {
      var iv := Drawn(random, IvSize(a));
      sent := sent.(crypto := Some(CryptoInfo(a, iv, if head.crypto.Some? then head.crypto.value.aad else [])));
      body := EncryptBody(t, a, write.key, iv, sent.crypto.value.aad, body);
    }
    if used != NoCompression {
      sent := sent.(compression := Some(CompressionInfo(used, small)));
    }
    block := LayFrame(t.head(sent), body);
  }

  /** The block always holds the whole frame: nothing is cut off. */
  method PackMessage(t: Toolbox, closing: bool, write: H.Session, c: Compression, m: Message, version: int, maxBody: int,
                     random: nat -> Byte)
      returns (code: PackCode, sent: Head, block: StaticBufferBlock?)
    requires Sized(t, write, c, m, version, maxBody, random)
    ensures closing ==> code == ChannelClosing && block == null
    ensures !closing ==>
              match Packed(t, write, c, m, version, maxBody, random)
              case Success(v) =>
                && code == Ok && sent == v.0 && block != null && fresh(block) && fresh(block.data) && block.Valid()
                && block.Content() == v.1 && block.data.Length == PaddedSize(|v.1|)
              case Failure(e) => code == e && block == null
  {
    sent, block := m.head, null;
    if closing {
      return ChannelClosing, sent, null;
    }
    var plain := BodyBytes(t, m);
    var cryptoAlg := NoCrypto;
    if AllowCrypto(KindOf(m)) && write.live {
      cryptoAlg := write.alg;
    }
    var compressionAlg := NoCompression;
    if AllowCompress(KindOf(m), |plain|) {
      compressionAlg := c;
    }
    if maxBody > 0 && |plain| > maxBody {
      return InvalidSize, sent, null;
    }
    sent := m.head.(version := version, bodySize := |plain|);
    if compressionAlg == NoCompression && cryptoAlg == NoCrypto {
      var b := PackMessageOrigin(t, sent, m.body);
      return Ok, sent, b;
    }
    code, sent, block := PackMessageWith(t, write, sent, plain, compressionAlg, cryptoAlg, random);
  }

  // ----- Unpacking -----

  function Opened(t: Toolbox, read: H.Session, h: Head, block: seq<Byte>): Result<seq<Byte>> {
    if h.crypto.None? || h.crypto.value.alg == NoCrypto then Success(block)
    else if !read.live || h.crypto.value.alg != read.alg then Failure(CryptoNotMatch)
    else
      var plain := Decrypt(t, read.alg, read.key, h.crypto.value.iv, h.crypto.value.aad, block);
      if plain.None? then Failure(CryptoDecrypt) else Success(plain.value)
  }

  function Unsqueezed(t: Toolbox, h: Head, block: seq<Byte>): Result<seq<Byte>> {
    if h.compression.None? || h.compression.value.kind == NoCompression then Success(block)
    else if !t.supported(h.compression.value.kind) then Failure(CompressionNotSupport)
    else
      var size := ToInt(h.compression.value.size);
      if size <= 0 || size > |block| then Failure(InvalidSize)
      else
        match t.decompress(h.compression.value.kind, block[..size], ToInt(h.bodySize))
        case Done(bytes) => Success(bytes)
        case NotSupported => Failure(CompressionNotSupport)
        case Failed => Failure(Unpack)
  }

  function ParsedBody(t: Toolbox, h: Head, block: seq<Byte>): Result<Message> {
    if ToInt(h.bodySize) > |block| then Failure(InvalidSize)
    else if h.bodySize > |block| then Failure(Crash)
    else
      var body := t.parseBody(block[..h.bodySize]);
      if body.None? then Failure(Unpack) else Success(Message(h, body))
  }

  function UnpackedBody(t: Toolbox, read: H.Session, h: Head, block: seq<Byte>): Result<Message> {
    var plain := Opened(t, read, h, block);
    if plain.Failure? then Failure(plain.error)
    else
      var whole := Unsqueezed(t, h, plain.value);
      if whole.Failure? then Failure(whole.error) else ParsedBody(t, h, whole.value)
  }

  function Unpacked(t: Toolbox, read: H.Session, input: seq<Byte>, maxBody: int): Result<Message> {
    if input == [] then Failure(Params)
    else if maxBody > 0 && |input| > maxBody + HEAD_OVERHEAD then Failure(InvalidSize)
    else
      match Decode(input)
      case Incomplete => Failure(InvalidSize)
      case Value(headSize, vint) =>
        if headSize + vint >= TWO_63 then Failure(Crash)
        else if headSize + vint > |input| then Failure(InvalidSize)
        else
          var head := t.parseHead(input[vint..vint + headSize]);
          if head.None? then Failure(Unpack)
          else if head.value.bodySize == 0 then Success(Message(head.value, None))
          else if maxBody > 0 && ToInt(head.value.bodySize) > maxBody + HEAD_OVERHEAD then Failure(InvalidSize)
          else UnpackedBody(t, read, head.value, input[vint + headSize..])
  }

  method UnpackMessage(t: Toolbox, closing: bool, read: H.Session, input: seq<Byte>, maxBody: int) returns (r: Result<Message>)
    ensures r == if closing then Failure(ChannelClosing) else Unpacked(t, read, input, maxBody)
  {
    if closing {
      return Failure(ChannelClosing);
    }
    if |input| == 0 {
      return Failure(Params);
    }
    if maxBody > 0 && |input| > maxBody + HEAD_OVERHEAD {
      return Failure(InvalidSize);
    }
    var headSize, vint := ReadVint(input);
    if vint == 0 {
      return Failure(InvalidSize);
    }
    if headSize + vint >= TWO_63 {
      return Failure(Crash);
    }
    if headSize + vint > |input| {
      return Failure(InvalidSize);
    }
    var head := t.parseHead(input[vint..vint + headSize]);
    if head.None? {
      return Failure(Unpack);
    }
    var h := head.value;
    if h.bodySize == 0 {
      return Success(Message(h, None));
    }
    if maxBody > 0 && ToInt(h.bodySize) > maxBody + HEAD_OVERHEAD {
      return Failure(InvalidSize);
    }
    var nextBlock := input[vint + headSize..];
    if h.crypto.Some? && h.crypto.value.alg != NoCrypto {
      if !read.live || h.crypto.value.alg != read.alg {
        return Failure(CryptoNotMatch);
      }
      var plain := DecryptBody(t, read.alg, read.key, h.crypto.value.iv, h.crypto.value.aad, nextBlock);
      if plain.None? {
        return Failure(CryptoDecrypt);
      }
      nextBlock := plain.value;
    }
    if h.compression.Some? && h.compression.value.kind != NoCompression {
      var whole := Unsqueezed(t, h, nextBlock);
      if whole.Failure? {
        return Failure(whole.error);
      }
      nextBlock := whole.value;
    }
    return ParsedBody(t, h, nextBlock);
  }

  // ----- There and back -----

  predicate CarriesCrypto(h: Head) {
    h.crypto.Some? && h.crypto.value.alg != NoCrypto
  }

  predicate CarriesCompression(h: Head) {
    h.compression.Some? && h.compression.value.kind != NoCompression
  }

  /** Packing leaves old crypto and compression info in the head unless it writes its own. */
  predicate Clean(t: Toolbox, write: H.Session, c: Compression, m: Message) {
    && (CarriesCrypto(m.head) ==> CryptoFor(write, m) != NoCrypto)
    && (CarriesCompression(m.head) ==> Squeezes(t, c, m))
  }

  lemma FramedParses(t: Toolbox, h: Head, body: seq<Byte>)
    requires t.LawfulCoding() && HeadSized(t, h)
    ensures var (hb, f) := (t.head(h), Framed(t.head(h), body));
            var v := |Encode(|hb|)|;
            && f != [] && Decode(f) == Value(|hb|, v) && v <= 10 && f[v..v + |hb|] == hb && f[v + |hb|..] == body
  {
    var hb := t.head(h);
    EncodeSizeBound(|hb|);
    DecodeEncode(|hb|, hb + body);
    assert Framed(hb, body) == Encode(|hb|) + (hb + body);
  }

  /** The body goes through sealing and squeezing and back. */
  lemma BodyReturns(t: Toolbox, write: H.Session, read: H.Session, h: Head, a: Algorithm, used: Compression, random: nat -> Byte,
                    plain: seq<Byte>, small: seq<Byte>)
    requires t.LawfulCiphers() && t.LawfulCompression() && h.bodySize == |plain| < TWO_63
    requires a == NoCrypto || (write.live && a == write.alg && !a.Unknown? && H.Opens(read, H.Seal(write)))
    requires CarriesCrypto(h) ==> a != NoCrypto
    requires CarriesCompression(h) ==> used != NoCompression
    requires if used == NoCompression then small == plain
             else 0 < |small| < |plain| && t.supported(used) && t.compress(used, plain) == Done(small)
    ensures var h1 := SqueezedHead(SealedHead(h, a, random), used, |small|);
            var cleared := Opened(t, read, h1, SealedBody(t, write, h, a, random, small));
            && cleared.Success? && small <= cleared.value
            && Unsqueezed(t, h1, cleared.value).Success? && plain <= Unsqueezed(t, h1, cleared.value).value
  {
    hide Encrypt;
    hide Decrypt;
    var h1 := SqueezedHead(SealedHead(h, a, random), used, |small|);
    if a != NoCrypto {
      DecryptEncrypt(t, a, write.key, Drawn(random, IvSize(a)), Aad(h), small);
    }
    var cleared := Opened(t, read, h1, SealedBody(t, write, h, a, random, small));
    assert cleared.value[..|small|] == small;
  }

  /** What a successful squeeze leaves. */
  lemma SqueezedIs(t: Toolbox, c: Compression, plain: seq<Byte>)
    requires Squeezed(t, c, plain).Success? && (plain == [] ==> c == NoCompression)
    ensures var (used, small) := Squeezed(t, c, plain).value;
            && |small| <= |plain|
            && if used == NoCompression then small == plain
               else used == c && 0 < |small| < |plain| && t.supported(used) && t.compress(used, plain) == Done(small)
  {
  }

  /**
   Whatever the algorithms: unpacking with the key the message was packed with gives back
   the head that was sent and the body, unless the frame is longer than the receiver takes.
   */
  lemma UnpackPacked(t: Toolbox, write: H.Session, read: H.Session, c: Compression, m: Message, version: int, maxBody: int,
                     random: nat -> Byte)
    requires t.Lawful() && !write.alg.Unknown? && H.Opens(read, H.Seal(write)) && Clean(t, write, c, m)
    requires Sized(t, write, c, m, version, maxBody, random)
    requires Packed(t, write, c, m, version, maxBody, random).Success?
    ensures var (sent, bytes) := Packed(t, write, c, m, version, maxBody, random).value;
            && sent == m.head.(version := version, bodySize := |BodyBytes(t, m)|, crypto := sent.crypto, compression := sent.compression)
            && Unpacked(t, read, bytes, maxBody) ==
               if maxBody > 0 && |bytes| > maxBody + HEAD_OVERHEAD then Failure(InvalidSize)
               else Success(Message(sent, if BodyBytes(t, m) == [] then None else m.body))
  {
    var (sent, bytes) := Packed(t, write, c, m, version, maxBody, random).value;
    var (plain, a, h) := (BodyBytes(t, m), CryptoFor(write, m), StampedHead(t, m, version));
    SqueezedIs(t, CompressionFor(t, c, m), plain);
    var (used, small) := Squeezed(t, CompressionFor(t, c, m), plain).value;
    var body := SealedBody(t, write, h, a, random, small);
    FramedParses(t, sent, body);
    BodyFits(t, m);
    if plain != [] {
      BodyReturns(t, write, read, h, a, used, random, plain, small);
      var whole := Unsqueezed(t, sent, Opened(t, read, sent, body).value).value;
      assert whole[..|plain|] == plain;
    }
  }

  lemma BodyFits(t: Toolbox, m: Message)
    requires t.LawfulCoding() && |BodyBytes(t, m)| < TWO_63
    ensures ToInt(|BodyBytes(t, m)|) == |BodyBytes(t, m)|
    ensures m.body.Some? ==> t.parseBody(BodyBytes(t, m)) == m.body
  {
  }

  /** With a head of at most 238 bytes the receiver's limit is never in the way. */
  lemma SmallHeadFits(t: Toolbox, write: H.Session, c: Compression, m: Message, version: int, maxBody: int, random: nat -> Byte)
    requires t.LawfulCiphers() && !write.alg.Unknown? && maxBody > 0
    requires Packed(t, write, c, m, version, maxBody, random).Success?
    requires |t.head(Packed(t, write, c, m, version, maxBody, random).value.0)| <= 238
    ensures |Packed(t, write, c, m, version, maxBody, random).value.1| <= maxBody + HEAD_OVERHEAD
  {
    var (sent, _) := Packed(t, write, c, m, version, maxBody, random).value;
    var (plain, a, h) := (BodyBytes(t, m), CryptoFor(write, m), StampedHead(t, m, version));
    SqueezedIs(t, CompressionFor(t, c, m), plain);
    var (_, small) := Squeezed(t, CompressionFor(t, c, m), plain).value;
    if a != NoCrypto {
      DecryptEncrypt(t, a, write.key, Drawn(random, IvSize(a)), Aad(h), small);
    }
    ShortVint(|t.head(sent)|);
  }

  lemma ShortVint(n: nat)
    requires n < 16384
    ensures |Encode(n)| <= 2
  {
    assert HighGroups(n / 128 / 128) == [];
  }

  /**
   The receiver would decrypt or decompress what was never encrypted or compressed: the
   head names the receiver's own cipher, or a decompressor and a size that pass its checks.
   */
  predicate RunsForeign(t: Toolbox, write: H.Session, read: H.Session, c: Compression, m: Message) {
    || (CarriesCrypto(m.head) && CryptoFor(write, m) == NoCrypto && read.live && read.alg == m.head.crypto.value.alg)
    || (CarriesCompression(m.head) && !Squeezes(t, c, m) && t.supported(m.head.compression.value.kind)
        && 0 < ToInt(m.head.compression.value.size) <= |BodyBytes(t, m)| + TEA_LEAST)
  }

  /** The body is sent compressed. */
  predicate Squeezes(t: Toolbox, c: Compression, m: Message) {
    var s := Squeezed(t, CompressionFor(t, c, m), BodyBytes(t, m)); s.Success? && s.value.0 != NoCompression
  }

  /** Crypto info left in a head that is then sent unsealed makes the message unreadable. */
  lemma StaleCryptoFails(t: Toolbox, write: H.Session, read: H.Session, c: Compression, m: Message, version: int, maxBody: int,
                         random: nat -> Byte)
    requires t.Lawful() && CarriesCrypto(m.head) && CryptoFor(write, m) == NoCrypto
    requires !(read.live && read.alg == m.head.crypto.value.alg)
    requires Sized(t, write, c, m, version, maxBody, random)
    requires Packed(t, write, c, m, version, maxBody, random).Success? && BodyBytes(t, m) != []
    ensures Unpacked(t, read, Packed(t, write, c, m, version, maxBody, random).value.1, maxBody).Failure?
  {
    var (sent, bytes) := Packed(t, write, c, m, version, maxBody, random).value;
    var (plain, a, h) := (BodyBytes(t, m), CryptoFor(write, m), StampedHead(t, m, version));
    SqueezedIs(t, CompressionFor(t, c, m), plain);
    var (_, small) := Squeezed(t, CompressionFor(t, c, m), plain).value;
    FramedParses(t, sent, small);
    BodyFits(t, m);
    assert CarriesCrypto(sent) && sent.crypto == m.head.crypto;
  }

  /** What was sealed is opened, and at most a little padding comes with it. */
  lemma SealedOpens(t: Toolbox, write: H.Session, read: H.Session, h: Head, a: Algorithm, random: nat -> Byte, plain: seq<Byte>)
    requires t.LawfulCiphers() && (CarriesCrypto(h) ==> a != NoCrypto)
    requires a == NoCrypto || (write.live && a == write.alg && !a.Unknown? && H.Opens(read, H.Seal(write)))
    ensures var cleared := Opened(t, read, SealedHead(h, a, random), SealedBody(t, write, h, a, random, plain));
            cleared.Success? && plain <= cleared.value && |cleared.value| <= |plain| + TEA_LEAST
  {
    hide Encrypt;
    hide Decrypt;
    if a != NoCrypto {
      DecryptEncrypt(t, a, write.key, Drawn(random, IvSize(a)), Aad(h), plain);
    }
  }

  /** So does compression info, where the receiver's checks notice it. */
  lemma StaleCompressionFails(t: Toolbox, write: H.Session, read: H.Session, c: Compression, m: Message, version: int, maxBody: int,
                              random: nat -> Byte)
    requires t.Lawful() && !write.alg.Unknown? && H.Opens(read, H.Seal(write))
    requires CarriesCompression(m.head) && !Squeezes(t, c, m) && (CarriesCrypto(m.head) ==> CryptoFor(write, m) != NoCrypto)
    requires !RunsForeign(t, write, read, c, m)
    requires Sized(t, write, c, m, version, maxBody, random)
    requires Packed(t, write, c, m, version, maxBody, random).Success? && BodyBytes(t, m) != []
    ensures Unpacked(t, read, Packed(t, write, c, m, version, maxBody, random).value.1, maxBody).Failure?
  {
    var (sent, bytes) := Packed(t, write, c, m, version, maxBody, random).value;
    var (plain, a, h) := (BodyBytes(t, m), CryptoFor(write, m), StampedHead(t, m, version));
    SqueezedIs(t, CompressionFor(t, c, m), plain);
    SealedOpens(t, write, read, h, a, random, plain);
    FramedParses(t, sent, SealedBody(t, write, h, a, random, plain));
    BodyFits(t, m);
    assert sent == SealedHead(h, a, random) && sent.compression == m.head.compression;
    hide SealedBody;
    hide Framed;
    hide Opened;
  }

  /**
   Between ends with the same key, for every message of which the receiver runs no cipher
   or decompressor on bytes that were not made by it: it comes back exactly if the frame is
   not too long, and it is empty, or is sealed now or carries no old crypto info, and is
   compressed now or carries no old compression info.
   */
  lemma ComesBackIff(t: Toolbox, write: H.Session, read: H.Session, c: Compression, m: Message, version: int, maxBody: int,
                     random: nat -> Byte)
    requires t.Lawful() && !write.alg.Unknown? && H.Seal(read) == H.Seal(write) && !RunsForeign(t, write, read, c, m)
    requires Sized(t, write, c, m, version, maxBody, random)
    requires Packed(t, write, c, m, version, maxBody, random).Success?
    ensures var (sent, bytes) := Packed(t, write, c, m, version, maxBody, random).value;
            && (Unpacked(t, read, bytes, maxBody) == Success(Message(sent, if BodyBytes(t, m) == [] then None else m.body))
                <==>
                && (maxBody > 0 ==> |bytes| <= maxBody + HEAD_OVERHEAD)
                && (BodyBytes(t, m) == []
                    || ((CryptoFor(write, m) != NoCrypto || !CarriesCrypto(m.head))
                        && (Squeezes(t, c, m) || !CarriesCompression(m.head)))))
  {
    hide Packed;
    hide Unpacked;
    hide Sized;
    hide t.LawfulCoding;
    hide t.LawfulCiphers;
    hide t.LawfulCompression;
    if Clean(t, write, c, m) {
      UnpackPacked(t, write, read, c, m, version, maxBody, random);
    } else if BodyBytes(t, m) == [] {
      EmptyReturns(t, write, read, c, m, version, maxBody, random);
    } else if CarriesCrypto(m.head) && CryptoFor(write, m) == NoCrypto {
      StaleCryptoFails(t, write, read, c, m, version, maxBody, random);
    } else {
      StaleCompressionFails(t, write, read, c, m, version, maxBody, random);
    }
  }

  lemma EmptyReturns(t: Toolbox, write: H.Session, read: H.Session, c: Compression, m: Message, version: int, maxBody: int,
                     random: nat -> Byte)
    requires t.LawfulCoding() && BodyBytes(t, m) == []
    requires Sized(t, write, c, m, version, maxBody, random)
    requires Packed(t, write, c, m, version, maxBody, random).Success?
    ensures var (sent, bytes) := Packed(t, write, c, m, version, maxBody, random).value;
            Unpacked(t, read, bytes, maxBody) ==
            if maxBody > 0 && |bytes| > maxBody + HEAD_OVERHEAD then Failure(InvalidSize) else Success(Message(sent, None))
  {
    var (sent, _) := Packed(t, write, c, m, version, maxBody, random).value;
    var h := StampedHead(t, m, version);
    FramedParses(t, sent, SealedBody(t, write, h, CryptoFor(write, m), random, []));
  }
}
