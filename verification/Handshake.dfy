/**
 The crypto part of a connection context: key pairs, the sessions for reading and
 writing, the receive session staged until the peer confirms, and the handshake's
 operations on them. Ciphers, curves and key derivation are parameters.
 */
module Handshake {
  import opened Negotiation
  import opened Wrappers

  datatype Kex = NoExchange | X25519 | Secp256r1 | Secp384r1 | Secp521r1 | OtherExchange(code: int)

  predicate HasCurve(k: Kex) {
    !k.NoExchange? && !k.OtherExchange?
  }

  /** Keys, public and private, and secrets are opaque numbers. */
  datatype Primitives = Primitives(
    public: (Kex, nat) -> nat,
    secret: (Kex, nat, nat) -> Option<nat>,
    derive: (nat, Algorithm) -> nat)
  {
    /** Both ends compute the same secret from the other's public key. */
    ghost predicate Lawful() {
      forall k, a, b ::
        secret(k, a, public(k, b)).Some? && secret(k, a, public(k, b)) == secret(k, b, public(k, a))
    }
  }

  datatype Session = Session(live: bool, alg: Algorithm, key: nat)

  const NO_SESSION := Session(false, NoCrypto, 0)

  function SetKey(s: Session, key: nat, alg: Algorithm): Session {
    if alg == NoCrypto then s.(live := true, alg := NoCrypto) else Session(true, alg, key)
  }

  /** How a message body is sealed under a session: not at all, or with this algorithm and key. */
  function Seal(s: Session): Option<(Algorithm, nat)> {
    if !s.live || s.alg == NoCrypto then None else Some((s.alg, s.key))
  }

  predicate Opens(s: Session, seal: Option<(Algorithm, nat)>) {
    seal.None? || (s.live && s.alg == seal.value.0 && s.key == seal.value.1)
  }

  datatype Offer = Offer(sequence: nat, kex: Kex, kdfs: seq<Kdf>, algs: seq<Algorithm>, public: nat)

  datatype Code = Ok | Closing | Params | MakeKeyPair | ReadPeerKey | MakeSecret | KdfError

  datatype Ctx = Ctx(
    kex: Kex,
    read: Session,
    write: Session,
    staged: Option<Session>,
    pending: bool,
    done: bool,
    keyPair: Option<nat>,
    sequence: nat,
    handshakeSequence: nat,
    closing: bool)

  const SEQUENCES := 0x1_0000_0000_0000_0000

  function NextSequence(n: nat): nat {
    (n + 1) % SEQUENCES
  }

  function Selected(c: Ctx): Algorithm {
    if c.write.live then c.write.alg else NoCrypto
  }

  // ----- The operations, as functions of the context -----

  function GenerateSelfKey(c: Ctx, peerSequence: nat, private: nat): (Ctx, Code) {
    if c.closing then (c, Closing)
    else
      var c1 := if peerSequence == 0
                then c.(sequence := NextSequence(c.sequence), handshakeSequence := NextSequence(c.sequence))
                else c.(handshakeSequence := peerSequence);
      if HasCurve(c.kex) then (c1.(keyPair := Some(private)), Ok) else (c1, MakeKeyPair)
  }

  /** The secret with a peer, or why there is none. */
  function Agreed(x: Primitives, c: Ctx, offer: Offer): Option<nat> {
    if c.keyPair.None? then None else x.secret(c.kex, c.keyPair.value, offer.public)
  }

  function ReadPeer(x: Primitives, c: Ctx, offer: Option<Offer>, algs: seq<Algorithm>, needConfirm: bool): (Ctx, Code) {
    if c.closing then (c, Closing)
    else if offer.None? then (c, Params)
    else if offer.value.kex != c.kex then (c, ReadPeerKey)
    else
      var (secret, alg) := (Agreed(x, c, offer.value), Negotiate(algs, offer.value.algs));
      if secret.None? then (c, MakeSecret)
      else if FirstKdf([HkdfSha256], offer.value.kdfs) != HkdfSha256 || alg.Unknown? then (c, KdfError)
      else
        var key := x.derive(secret.value, alg);
        var c1 := c.(write := SetKey(c.write, key, alg));
        if needConfirm then (c1.(staged := Some(SetKey(NO_SESSION, key, alg)), pending := true), Ok)
        else (c1.(read := SetKey(c.read, key, alg), done := true), Ok)
  }

  function SelfOffer(x: Primitives, c: Ctx, algs: seq<Algorithm>): (Code, Option<Offer>) {
    if c.closing then (Closing, None)
    else if c.keyPair.None? then (MakeKeyPair, None)
    else (Ok, Some(Offer(c.handshakeSequence, c.kex, [HkdfSha256], algs, x.public(c.kex, c.keyPair.value))))
  }

  function Confirmed(c: Ctx, sequence: nat): Ctx {
    if c.handshakeSequence != sequence || !c.pending || c.staged.None? then c
    else c.(read := c.staged.value, staged := None, pending := false, done := true)
  }

  // ----- The context object -----

  class ConnectionContext {
    const kex: Kex
    var readCrypto: Session
    var writeCrypto: Session
    var handshakeReceiveCrypto: Option<Session>
    var handshakePendingConfirm: bool
    var handshakeDone: bool
    var privateKey: Option<nat>
    var sequence: nat
    var handshakeSequence: nat
    var closing: bool

    function Value(): Ctx
      reads this
    {
      Ctx(kex, readCrypto, writeCrypto, handshakeReceiveCrypto, handshakePendingConfirm, handshakeDone,
          privateKey, sequence, handshakeSequence, closing)
    }

    /** A confirmation is awaited exactly when a receive session is staged. */
    ghost predicate Valid()
      reads this
    {
      handshakePendingConfirm == handshakeReceiveCrypto.Some?
    }

    constructor (kex: Kex)
      ensures Valid() && Value() == NewContext(kex)
    {
      this.kex := kex;
      readCrypto, writeCrypto, handshakeReceiveCrypto := NO_SESSION, NO_SESSION, None;
      handshakePendingConfirm, handshakeDone, closing := false, false, false;
      privateKey, sequence, handshakeSequence := None, 0, 0;
    }

    method HandshakeGenerateSelfKey(peerSequenceId: nat, private: nat) returns (code: Code)
      requires Valid()
      modifies this
      ensures Valid() && (Value(), code) == GenerateSelfKey(old(Value()), peerSequenceId, private)
    {
      if closing {
        return Closing;
      }
      if peerSequenceId == 0 {
        sequence := NextSequence(sequence);
        handshakeSequence := sequence;
      } else {
        handshakeSequence := peerSequenceId;
      }
      if !HasCurve(kex) {
        return MakeKeyPair;
      }
      privateKey := Some(private);
      return Ok;
    }

    method HandshakeReadPeerKey(x: Primitives, offer: Option<Offer>, algs: seq<Algorithm>, needConfirm: bool)
        returns (code: Code)
      requires Valid()
      modifies this
      ensures Valid() && (Value(), code) == ReadPeer(x, old(Value()), offer, algs, needConfirm)
    {
      if closing {
        return Closing;
      }
      if offer.None? {
        return Params;
      }
      if offer.value.kex != kex {
        return ReadPeerKey;
      }
      if privateKey.None? {
        return MakeSecret;
      }
      var secret := x.secret(kex, privateKey.value, offer.value.public);
      if secret.None? {
        return MakeSecret;
      }
      var alg := NegotiateCryptoAlgorithm(algs, offer.value.algs);
      var kdf := NegotiateKdf([HkdfSha256], offer.value.kdfs);
      if kdf != HkdfSha256 || alg.Unknown? {
        return KdfError;
      }
      var key := x.derive(secret.value, alg);
      writeCrypto := SetKey(writeCrypto, key, alg);
      if needConfirm {
        handshakeReceiveCrypto := Some(SetKey(NO_SESSION, key, alg));
        handshakePendingConfirm := true;
      } else {
        readCrypto := SetKey(readCrypto, key, alg);
        handshakeDone := true;
      }
      return Ok;
    }

    method HandshakeWriteSelfPublicKey(x: Primitives, algs: seq<Algorithm>) returns (code: Code, offer: Option<Offer>)
      ensures (code, offer) == SelfOffer(x, Value(), algs)
    {
      if closing {
        return Closing, None;
      }
      if privateKey.None? {
        return MakeKeyPair, None;
      }
      return Ok, Some(Offer(handshakeSequence, kex, [HkdfSha256], algs, x.public(kex, privateKey.value)));
    }

    method ConfirmHandshake(sequenceId: nat)
      requires Valid()
      modifies this
      ensures Valid() && Value() == Confirmed(old(Value()), sequenceId)
      ensures sequenceId != old(handshakeSequence) ==> Value() == old(Value())
    {
      if handshakeSequence != sequenceId || !handshakePendingConfirm {
        return;
      }
      readCrypto := handshakeReceiveCrypto.value;
      handshakeReceiveCrypto := None;
      handshakePendingConfirm := false;
      handshakeDone := true;
    }
  }

  function NewContext(kex: Kex): Ctx {
    Ctx(kex, NO_SESSION, NO_SESSION, None, false, false, None, 0, 0, false)
  }

  // ----- What the two ends' handlers do -----

  datatype Kind = Register | Ping

  predicate Usable(offer: Option<Offer>) {
    offer.Some? && offer.value.sequence != 0 && !offer.value.kex.NoExchange?
  }

  /** The server takes a register or ping request, drawing `private`, and says what to reply. */
  function ServerAsk(x: Primitives, c: Ctx, offer: Option<Offer>, algs: seq<Algorithm>, private: nat): (Ctx, Option<Offer>) {
    if !Usable(offer) then (c, None)
    else
      var (c1, code1) := GenerateSelfKey(c, offer.value.sequence, private);
      if code1 != Ok then (c1, None)
      else
        var (c2, code2) := ReadPeer(x, c1, offer, algs, true);
        (c2, if code2 != Ok then None else SelfOffer(x, c2, [Selected(c2)]).1)
  }

  /** The client takes the reply, and says which sequence to confirm, if any. */
  function ClientAnswer(x: Primitives, c: Ctx, kind: Kind, offer: Option<Offer>, algs: seq<Algorithm>): (Ctx, Option<nat>) {
    if !Usable(offer) || (kind == Ping && Selected(c) == NoCrypto) then (c, None)
    else
      var (c1, code) := ReadPeer(x, c, offer, algs, false);
      if code != Ok then (c1, None)
      else (c1.(sequence := NextSequence(c1.sequence)), Some(offer.value.sequence))
  }

  method OnRecvAsk(x: Primitives, ctx: ConnectionContext, offer: Option<Offer>, algs: seq<Algorithm>, private: nat)
      returns (reply: Option<Offer>)
    requires ctx.Valid()
    modifies ctx
    ensures ctx.Valid() && (ctx.Value(), reply) == ServerAsk(x, old(ctx.Value()), offer, algs, private)
  {
    reply := None;
    if Usable(offer) {
      var code := ctx.HandshakeGenerateSelfKey(offer.value.sequence, private);
      if code == Ok {
        code := ctx.HandshakeReadPeerKey(x, offer, algs, true);
      }
      if code == Ok {
        var alg := if ctx.writeCrypto.live then ctx.writeCrypto.alg else NoCrypto;
        code, reply := ctx.HandshakeWriteSelfPublicKey(x, [alg]);
      }
    }
  }

  method OnRecvAnswer(x: Primitives, ctx: ConnectionContext, kind: Kind, offer: Option<Offer>, algs: seq<Algorithm>)
      returns (confirm: Option<nat>)
    requires ctx.Valid()
    modifies ctx
    ensures ctx.Valid() && (ctx.Value(), confirm) == ClientAnswer(x, old(ctx.Value()), kind, offer, algs)
  {
    confirm := None;
    var keyed := ctx.writeCrypto.live && ctx.writeCrypto.alg != NoCrypto;
    if Usable(offer) && (kind == Register || keyed) {
      var code := ctx.HandshakeReadPeerKey(x, offer, algs, false);
      if code == Ok {
        ctx.sequence := NextSequence(ctx.sequence);
        confirm := Some(offer.value.sequence);
      }
    }
  }

  /** One exchange gives both ends the same new key and algorithm, the best they share. */
  lemma ExchangeAgrees(x: Primitives, client: Ctx, server: Ctx, kind: Kind, cAlgs: seq<Algorithm>, sAlgs: seq<Algorithm>,
                       private: nat)
    requires x.Lawful() && !client.closing && !server.closing
    requires client.keyPair.Some? && HasCurve(client.kex)
    requires kind == Ping ==> Selected(client) != NoCrypto
    ensures var offer := SelfOffer(x, client, cAlgs).1;
            var (server', reply) := ServerAsk(x, server, offer, sAlgs, private);
            var (client', confirm) := ClientAnswer(x, client, kind, reply, cAlgs);
            && server'.read == server.read
            && (reply.Some? <==> client.handshakeSequence != 0 && client.kex == server.kex)
            && (reply.None? ==> server'.write == server.write && client' == client && confirm == None)
            && (reply.Some? ==>
                  var alg := Negotiate(sAlgs, cAlgs);
                  && confirm == Some(client.handshakeSequence) && server'.pending
                  && Seal(client'.write) == Seal(client'.read) == Seal(server'.write) == Seal(Confirmed(server', confirm.value).read)
                  && Seal(server'.write) == (if alg == NoCrypto then None
                       else Some((alg, x.derive(x.secret(server.kex, private, x.public(client.kex, client.keyPair.value)).value, alg)))))
  {
    NegotiationAgrees(cAlgs, sAlgs);
    NegotiateKnown(sAlgs, cAlgs);
    KdfIsHkdf([HkdfSha256]);
  }
}
