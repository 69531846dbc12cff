/**
 What the handshake's operations come to, one by one and over several: which calls do
 nothing, which error is reported, and which confirmation promotes which session.
 */
module HandshakeLaws {
  import opened Negotiation
  import opened Wrappers
  import opened Handshake
  import opened Registration

  // ----- Confirmations -----

  /** A confirmation with another sequence, or that nobody waits for, changes nothing at all. */
  lemma OtherConfirmIgnored(c: Ctx, sequence: nat)
    requires sequence != c.handshakeSequence || !c.pending || c.staged.None?
    ensures Confirmed(c, sequence) == c
  {
  }

  /** The right one makes the staged session the read session, and nothing else. */
  lemma RightConfirmPromotes(c: Ctx)
    requires c.pending && c.staged.Some?
    ensures Confirmed(c, c.handshakeSequence) == c.(read := c.staged.value, staged := None, pending := false, done := true)
  {
  }

  /** A context that has answered a request waits for the confirmation of just that request. */
  lemma AnsweredWaits(x: Primitives, c: Ctx, offer: Option<Offer>, algs: seq<Algorithm>, private: nat)
    ensures var (s, reply) := ServerAsk(x, c, offer, algs, private);
            reply.Some? ==>
              && offer.Some? && offer.value.sequence != 0
              && s.handshakeSequence == offer.value.sequence == reply.value.sequence
              && s.pending && s.staged.Some? && s.read == c.read && s.done == c.done
              && Seal(s.staged.value) == Seal(s.write) && Opens(s.staged.value, Seal(s.write))
  {
  }

  /**
   After the server has answered the request with sequence `q`, a confirmation of `r` has it
   open what the client will seal with the new key exactly if `r` is `q`, or if it could before.
   */
  lemma OnlyItsConfirm(x: Primitives, c: Ctx, offer: Option<Offer>, algs: seq<Algorithm>, private: nat, r: nat)
    ensures var (s, reply) := ServerAsk(x, c, offer, algs, private);
            reply.Some? ==>
              (Opens(Confirmed(s, r).read, Seal(s.write)) <==> r == offer.value.sequence || Opens(c.read, Seal(s.write)))
  {
    AnsweredWaits(x, c, offer, algs, private);
    hide ServerAsk;
    hide Seal;
    hide Opens;
  }

  /** After two answered requests the late confirmation of the first changes nothing. */
  lemma LateConfirmIgnored(x: Primitives, c: Ctx, first: Option<Offer>, second: Option<Offer>, algs: seq<Algorithm>,
                           private1: nat, private2: nat)
    requires first.Some? && second.Some? && first.value.sequence != second.value.sequence
    ensures var (s1, reply1) := ServerAsk(x, c, first, algs, private1);
            var (s2, reply2) := ServerAsk(x, s1, second, algs, private2);
            reply1.Some? && reply2.Some? ==>
              && Confirmed(s2, first.value.sequence) == s2
              && Confirmed(s2, second.value.sequence).read == s2.staged.value
              && Opens(Confirmed(s2, second.value.sequence).read, Seal(s2.write))
  {
    var s1 := ServerAsk(x, c, first, algs, private1).0;
    AnsweredWaits(x, s1, second, algs, private2);
    hide ServerAsk;
    hide Seal;
    hide Opens;
  }

  // ----- Key pairs -----

  /** A closing context refuses every operation and stays as it is. */
  lemma ClosingRefuses(x: Primitives, c: Ctx, peerSequence: nat, private: nat, offer: Option<Offer>, algs: seq<Algorithm>, needConfirm: bool)
    requires c.closing
    ensures GenerateSelfKey(c, peerSequence, private) == (c, Closing)
    ensures ReadPeer(x, c, offer, algs, needConfirm) == (c, Closing)
    ensures SelfOffer(x, c, algs) == (Closing, None)
  {
  }

  /** A new key pair needs a curve; the sequence is the peer's, or the next one of this end. */
  lemma KeyPairMade(c: Ctx, peerSequence: nat, private: nat)
    requires !c.closing
    ensures var (r, code) := GenerateSelfKey(c, peerSequence, private);
            && (code == Ok <==> HasCurve(c.kex)) && (code != Ok ==> code == MakeKeyPair)
            && r.keyPair == (if code == Ok then Some(private) else c.keyPair)
            && (peerSequence != 0 ==> r.handshakeSequence == peerSequence && r.sequence == c.sequence)
            && (peerSequence == 0 ==>
                  r.handshakeSequence == r.sequence
                  && r.sequence == if c.sequence + 1 == SEQUENCES then 0 else (c.sequence + 1) % SEQUENCES)
            && r == c.(keyPair := r.keyPair, sequence := r.sequence, handshakeSequence := r.handshakeSequence)
  {
  }

  // ----- The peer's key -----

  /** Whether the context can agree with what the peer offers. */
  ghost predicate Agreeable(x: Primitives, c: Ctx, offer: Offer, algs: seq<Algorithm>) {
    && offer.kex == c.kex && c.keyPair.Some? && x.secret(c.kex, c.keyPair.value, offer.public).Some?
    && !Negotiate(algs, offer.algs).Unknown?
  }

  /** Reading the peer's key succeeds exactly if the two can agree; otherwise nothing changes. */
  lemma ReadsIff(x: Primitives, c: Ctx, offer: Option<Offer>, algs: seq<Algorithm>, needConfirm: bool)
    requires !c.closing
    ensures var (r, code) := ReadPeer(x, c, offer, algs, needConfirm);
            && (code == Ok <==> offer.Some? && Agreeable(x, c, offer.value, algs))
            && (code != Ok ==> r == c)
            && (code == Params <==> offer.None?)
            && (code == ReadPeerKey <==> offer.Some? && offer.value.kex != c.kex)
            && (code == MakeSecret <==>
                  offer.Some? && offer.value.kex == c.kex
                  && (c.keyPair.None? || x.secret(c.kex, c.keyPair.value, offer.value.public).None?))
  {
    if offer.Some? {
      NegotiateKnown(algs, offer.value.algs);
      KdfIsHkdf(offer.value.kdfs);
    }
  }

  /**
   On success the new session seals with the negotiated algorithm under the derived key. It
   is the write session at once; it is the read session at once too, or else only staged.
   */
  lemma SessionsSet(x: Primitives, c: Ctx, offer: Offer, algs: seq<Algorithm>, needConfirm: bool)
    requires ReadPeer(x, c, Some(offer), algs, needConfirm).1 == Ok && c.keyPair.Some?
    requires x.secret(c.kex, c.keyPair.value, offer.public).Some?
    ensures var r := ReadPeer(x, c, Some(offer), algs, needConfirm).0;
            var alg := Negotiate(algs, offer.algs);
            var seal := if alg == NoCrypto then None
                        else Some((alg, x.derive(x.secret(c.kex, c.keyPair.value, offer.public).value, alg)));
            && Seal(r.write) == seal && r.write.live
            && (if needConfirm then
                  r.read == c.read && r.done == c.done && r.pending && r.staged.Some? && Seal(r.staged.value) == seal
                else Seal(r.read) == seal && r.read.live && r.done && r.staged == c.staged && r.pending == c.pending)
            && r.keyPair == c.keyPair && r.sequence == c.sequence && r.handshakeSequence == c.handshakeSequence && r.kex == c.kex
  {
  }

  // ----- Refreshes -----

  /** A ping carries a key exactly if it is a due refresh of an open, encrypted client context with a curve. */
  lemma PingCarriesKeyIff(x: Primitives, c: Ctx, mode: Mode, due: bool, algs: seq<Algorithm>, private: nat)
    ensures PingOffer(x, c, mode, due, algs, private).1.Some? <==>
            mode == ClientMode && due && Selected(c) != NoCrypto && !c.closing && HasCurve(c.kex)
  {
  }

  /** And that key is fresh, under the next sequence, with the algorithms allowed. */
  lemma PingKeyIsFresh(x: Primitives, c: Ctx, mode: Mode, due: bool, algs: seq<Algorithm>, private: nat)
    ensures var (r, offer) := PingOffer(x, c, mode, due, algs, private);
            && (offer.None? ==> r.keyPair == c.keyPair)
            && (offer.Some? ==>
                  && r.keyPair == Some(private) && r.handshakeSequence == NextSequence(c.sequence)
                  && offer.value == Offer(r.handshakeSequence, c.kex, [HkdfSha256], algs, x.public(c.kex, private)))
            && r.read == c.read && r.write == c.write && r.staged == c.staged
  {
  }

  /** So is the key of a client's register request; a server's response offers the algorithm it has settled on. */
  lemma RegisterKeyIsFresh(x: Primitives, c: Ctx, algs: seq<Algorithm>, private: nat)
    ensures var (r, code, offer) := RegisterOffer(x, c, true, ClientMode, true, algs, private);
            offer.Some? ==>
              && r.keyPair == Some(private) && r.handshakeSequence == NextSequence(c.sequence)
              && offer.value == Offer(r.handshakeSequence, c.kex, [HkdfSha256], algs, x.public(c.kex, private))
    ensures var offer := RegisterOffer(x, c, false, ServerMode, true, algs, private).2;
            offer.Some? ==> c.keyPair.Some? && offer.value.algs == [Selected(c)] && offer.value.public == x.public(c.kex, c.keyPair.value)
    ensures RegisterOffer(x, c, false, ServerMode, false, algs, private) == (c, Ok, None)
  {
  }
}
