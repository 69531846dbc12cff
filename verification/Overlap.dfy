/**
 Why one handshake at a time: what a refresh does that starts before the last request is
 answered, and what the server's ping callback does when it sends before the answer.
 */
module Overlap {
  import opened Negotiation
  import opened Wrappers
  import opened Handshake
  import opened Renegotiation

  /** With any server key, two private keys of the client lead to different session keys. */
  ghost predicate KeysDiffer(e: Setup, kex: Kex, mine: nat, other: nat) {
    var alg := Negotiate(e.sAlgs, e.cAlgs);
    forall private: nat :: DerivedKey(e, kex, mine, private, alg) != DerivedKey(e, kex, other, private, alg)
  }

  /** The session key from the client's private key and the server's. */
  function DerivedKey(e: Setup, kex: Kex, client: nat, server: nat, alg: Algorithm): Option<nat> {
    var secret := e.x.secret(kex, client, e.x.public(kex, server));
    if secret.None? then None else Some(e.x.derive(secret.value, alg))
  }

  /** The request at `up[i]` was made with the private key `mine`, which the client no longer has. */
  ghost predicate Crossed(e: Setup, n: Net, mine: nat, i: nat) {
    && e.x.Lawful() && !n.client.closing && !n.server.closing
    && n.client.kex == n.server.kex && HasCurve(n.client.kex) && n.client.keyPair.Some?
    && KeysDiffer(e, n.client.kex, mine, n.client.keyPair.value)
    && Negotiate(e.sAlgs, e.cAlgs) != NoCrypto && Selected(n.client) != NoCrypto
    && OnlyData(n.down)
    && i < |n.up| && n.up[i].Ask? && (forall j :: 0 <= j < i ==> !n.up[j].Ask?)
    && n.up[i].offer.Some? && n.up[i].offer.value.sequence != 0
    && n.up[i].offer.value ==
       Offer(n.up[i].offer.value.sequence, n.client.kex, [HkdfSha256], e.cAlgs, e.x.public(n.client.kex, mine))
  }

  // ----- The queues once more -----

  lemma {:induction false} BehindData(e: Setup, q: seq<Packet>, c: Ctx, p: Packet, seal: Option<(Algorithm, nat)>)
    requires OnlyData(q) && ClientOpens(e, q + [p], c, seal)
    ensures ClientOpens(e, [p], c, seal)
    decreases |q|
  {
    if q == [] {
      assert q + [p] == [p];
    } else {
      assert (q + [p])[1..] == q[1..] + [p];
      BehindData(e, q[1..], c, p, seal);
    }
  }

  /** Through data, one answer and more data: what the client ends with opens what comes next. */
  lemma {:induction false} BehindAnswer(e: Setup, q: seq<Packet>, c: Ctx, i: nat, seal: Option<(Algorithm, nat)>)
    requires i < |q| && q[i].Answer? && OnlyData(q[..i]) && OnlyData(q[i + 1..]) && ClientOpens(e, q, c, seal)
    ensures Opens(ClientAnswer(e.x, c, q[i].kind, q[i].offer, e.cAlgs).0.read, seal)
    decreases i
  {
    if i == 0 {
      assert q[1..] == q[0 + 1..];
      DataAtRest(e, q[1..], ClientAnswer(e.x, c, q[0].kind, q[0].offer, e.cAlgs).0, seal);
    } else {
      assert q[..i][0] == q[0] && q[1..][..i - 1] == q[..i][1..] && q[1..][i - 1 + 1..] == q[i + 1..];
      BehindAnswer(e, q[1..], c, i - 1, seal);
    }
  }

  // ----- An old answer meets a new key pair -----

  /** The client combines an answer with the key pair it has now. */
  lemma AnswerMeets(e: Setup, c: Ctx, kind: Kind, offer: Offer, server: nat)
    requires e.x.Lawful() && !c.closing && c.keyPair.Some? && HasCurve(c.kex) && Selected(c) != NoCrypto
    requires offer.sequence != 0 && offer.kex == c.kex && offer.kdfs == [HkdfSha256]
    requires offer.public == e.x.public(c.kex, server) && Negotiate(e.cAlgs, offer.algs) != NoCrypto
    ensures var alg := Negotiate(e.cAlgs, offer.algs);
            var r := ClientAnswer(e.x, c, kind, Some(offer), e.cAlgs).0;
            && DerivedKey(e, c.kex, c.keyPair.value, server, alg).Some?
            && Seal(r.read) == Seal(r.write) == Some((alg, DerivedKey(e, c.kex, c.keyPair.value, server, alg).value))
  {
    NegotiateKnown(e.cAlgs, offer.algs);
    KdfIsHkdf([HkdfSha256]);
  }

  /** The server answers a crossed request with a key that the client will not draw. */
  lemma CrossedAnswer(e: Setup, n: Net, mine: nat, private: nat)
    requires Crossed(e, n, mine, 0)
    ensures !AllReadable(e, DoServerTakes(e, n, private))
  {
    var (alg, kex, ask) := (Negotiate(e.sAlgs, e.cAlgs), n.client.kex, n.up[0]);
    var r := DoServerTakes(e, n, private);
    var reply := ServerAsk(e.x, n.server, ask.offer, e.sAlgs, private).1;
    ServerDraws(e, n.server, ask.offer.value, mine, private);
    NegotiationAgrees(e.cAlgs, e.sAlgs);
    AnswerMeets(e, n.client, ask.kind, reply.value, private);
    assert DerivedKey(e, kex, mine, private, alg) != DerivedKey(e, kex, n.client.keyPair.value, private, alg);
    var p := Answer(ask.kind, reply);
    assert r.down == n.down + [p] && r.client == n.client;
    assert [p][1..] == [];
    if AllReadable(e, r) {
      BehindData(e, n.down, n.client, p, Seal(r.server.write));
    }
  }

  lemma ServerDraws(e: Setup, s: Ctx, offer: Offer, mine: nat, private: nat)
    requires e.x.Lawful() && !s.closing && HasCurve(s.kex) && Negotiate(e.sAlgs, e.cAlgs) != NoCrypto
    requires offer.sequence != 0 && offer == Offer(offer.sequence, s.kex, [HkdfSha256], e.cAlgs, e.x.public(s.kex, mine))
    ensures var alg := Negotiate(e.sAlgs, e.cAlgs);
            var (r, reply) := ServerAsk(e.x, s, Some(offer), e.sAlgs, private);
            && DerivedKey(e, s.kex, mine, private, alg).Some?
            && Seal(r.write) == Some((alg, DerivedKey(e, s.kex, mine, private, alg).value))
            && reply == Some(Offer(offer.sequence, s.kex, [HkdfSha256], [alg], e.x.public(s.kex, private)))
  {
    NegotiateKnown(e.sAlgs, e.cAlgs);
    KdfIsHkdf([HkdfSha256]);
    assert e.x.secret(s.kex, private, e.x.public(s.kex, mine)) == e.x.secret(s.kex, mine, e.x.public(s.kex, private));
  }

  lemma CrossedMoves(e: Setup, n: Net, mine: nat, i: nat)
    requires Crossed(e, n, mine, i) && i > 0
    ensures Crossed(e, DoServerTakes(e, n, 0), mine, i - 1)
  {
    var r := DoServerTakes(e, n, 0);
    assert r.up == n.up[1..] && r.up[i - 1] == n.up[i];
  }

  function Takes(count: nat): (run: seq<Action>)
    ensures |run| == count && forall j :: 0 <= j < count ==> run[j] == ServerTakes(0)
  {
    seq(count, _ => ServerTakes(0))
  }

  /** When the server has come to the crossed request, something is unreadable. */
  lemma {:induction false} CrossedRun(e: Setup, n: Net, mine: nat, i: nat)
    requires Crossed(e, n, mine, i)
    ensures RunEnabled(e, n, Takes(i + 1)) && !AllReadable(e, After(e, n, Takes(i + 1)))
    decreases i
  {
    var (run, r) := (Takes(i + 1), DoServerTakes(e, n, 0));
    assert run[1..] == Takes(i);
    assert After(e, n, run) == After(e, r, Takes(i)) && (RunEnabled(e, n, run) <==> RunEnabled(e, r, Takes(i)));
    hide *;
    if i == 0 {
      CrossedAnswer(e, n, mine, 0);
      NoneTaken(e, r);
    } else {
      CrossedMoves(e, n, mine, i);
      CrossedRun(e, r, mine, i - 1);
    }
  }

  lemma NoneTaken(e: Setup, n: Net)
    ensures After(e, n, Takes(0)) == n && RunEnabled(e, n, Takes(0))
  {
  }

  // ----- The exact condition -----

  ghost predicate SafeFrom(e: Setup, n: Net) {
    forall run :: RunEnabled(e, n, run) ==> AllReadable(e, After(e, n, run))
  }

  /** An encrypted connection between ends of one curve that share an algorithm. */
  ghost predicate Encrypted(e: Setup, n: Net) {
    && Selected(n.client) != NoCrypto && n.client.kex == n.server.kex && HasCurve(n.client.kex)
    && Negotiate(e.sAlgs, e.cAlgs) != NoCrypto
  }

  lemma StartIs(e: Setup, n: Net, private: nat)
    requires !n.client.closing && HasCurve(n.client.kex)
    ensures var m := DoStart(e, n, Ping, private);
            && m.down == n.down && m.server == n.server && |m.up| == |n.up| + 1 && m.up[..|n.up|] == n.up
            && m.client == n.client.(keyPair := Some(private), sequence := NextSequence(n.client.sequence),
                                     handshakeSequence := NextSequence(n.client.sequence))
  {
  }

  lemma OverlapAsking(e: Setup, n: Net, private: nat, i: nat)
    requires Inv(e, n) && Encrypted(e, n) && Asking(e, n, i) && n.client.handshakeSequence != 0
    requires KeysDiffer(e, n.client.kex, n.client.keyPair.value, private)
    ensures Crossed(e, DoStart(e, n, Ping, private), n.client.keyPair.value, i)
  {
    StartIs(e, n, private);
    var m := DoStart(e, n, Ping, private);
    assert forall j :: 0 <= j < |n.up| ==> m.up[j] == m.up[..|n.up|][j];
  }

  lemma OverlapAnswering(e: Setup, n: Net, private: nat, i: nat)
    requires Inv(e, n) && Encrypted(e, n) && Answering(e, n, i) && n.client.handshakeSequence != 0
    requires KeysDiffer(e, n.client.kex, n.client.keyPair.value, private)
    ensures !AllReadable(e, DoStart(e, n, Ping, private))
  {
    StartIs(e, n, private);
    var m := DoStart(e, n, Ping, private);
    var (alg, kex, offer) := (Negotiate(e.sAlgs, e.cAlgs), n.client.kex, n.down[i].offer.value);
    var server: nat :| offer.public == e.x.public(kex, server);
    assert Usable(n.down[i].offer);
    AnswerMeets(e, n.client, n.down[i].kind, offer, server);
    AnswerMeets(e, m.client, n.down[i].kind, offer, server);
    AnswerGiven(e, n, i);
    assert DerivedKey(e, kex, n.client.keyPair.value, server, alg) != DerivedKey(e, kex, private, server, alg);
    hide ClientAnswer;
    hide DoStart;
    hide DerivedKey;
    if AllReadable(e, m) {
      BehindAnswer(e, m.down, m.client, i, Seal(m.server.write));
    }
  }

  lemma AnswerGiven(e: Setup, n: Net, i: nat)
    requires Inv(e, n) && Encrypted(e, n) && Answering(e, n, i) && Usable(n.down[i].offer)
    ensures Seal(n.server.write) == Seal(ClientAnswer(e.x, n.client, n.down[i].kind, n.down[i].offer, e.cAlgs).0.write)
  {
    NegotiateKnown(e.cAlgs, n.down[i].offer.value.algs);
    KdfIsHkdf([HkdfSha256]);
  }

  /**
   On an encrypted connection a refresh may start exactly when no usable request is
   unanswered: then every later run is safe, and otherwise one is not, provided the
   refresh's key pair leads to other session keys than the one before.
   */
  lemma RefreshSafeIff(e: Setup, n: Net, private: nat)
    requires Inv(e, n) && Encrypted(e, n)
    requires n.waiting ==>
               n.client.handshakeSequence != 0 && n.client.keyPair.Some?
               && KeysDiffer(e, n.client.kex, n.client.keyPair.value, private)
    ensures SafeFrom(e, DoStart(e, n, Ping, private)) <==> !n.waiting
  {
    var m := DoStart(e, n, Ping, private);
    if !n.waiting {
      StartKeeps(e, n, Ping, private);
      forall run | RunEnabled(e, m, run) ensures AllReadable(e, After(e, m, run)) {
        RunKeeps(e, m, run);
      }
    } else if i: nat :| Asking(e, n, i) {
      OverlapAsking(e, n, private, i);
      CrossedRun(e, m, n.client.keyPair.value, i);
    } else {
      var i: nat :| Answering(e, n, i);
      OverlapAnswering(e, n, private, i);
      assert RunEnabled(e, m, []) && After(e, m, []) == m;
    }
  }

  // ----- Such a state is reached -----

  /** The simplest lawful primitives: a public key is its private key, a secret their sum. */
  function Additive(): Setup {
    Setup(Primitives((k: Kex, a: nat) => a, (k: Kex, a: nat, b: nat) => Some(a + b), (s: nat, a: Algorithm) => s),
          [Aes256Gcm], [Aes256Gcm])
  }

  lemma OnlyAes()
    ensures Negotiate([Aes256Gcm], [Aes256Gcm]) == Aes256Gcm
  {
    NegotiationAgrees([Aes256Gcm], [Aes256Gcm]);
    assert Priority()[2] == Aes256Gcm && Common(Aes256Gcm, [Aes256Gcm], [Aes256Gcm]);
    hide FirstCommon;
  }

  lemma AdditiveDiffers(kex: Kex, mine: nat, other: nat)
    requires mine != other
    ensures Additive().x.Lawful() && KeysDiffer(Additive(), kex, mine, other)
    ensures Negotiate(Additive().sAlgs, Additive().cAlgs) == Aes256Gcm
  {
    OnlyAes();
    hide Negotiate;
  }

  function FirstHandshake(): seq<Action> {
    [Start(Register, 1), ServerTakes(10), ClientTakes, ServerTakes(0)]
  }

  lemma FourEnabled(e: Setup, n: Net, a: Action, b: Action, c: Action, d: Action)
    requires Enabled(n, a) && !b.Start? && !c.Start? && !d.Start?
    ensures RunEnabled(e, n, [a, b, c, d])
  {
    assert [a, b, c, d][1..] == [b, c, d] && [b, c, d][1..] == [c, d] && [c, d][1..] == [d] && [d][1..] == [];
    var n1 := Do(e, n, a);
    assert RunEnabled(e, Do(e, Do(e, n1, b), c), [d]);
    assert RunEnabled(e, Do(e, n1, b), [c, d]);
    assert RunEnabled(e, n1, [b, c, d]);
  }

  /** The state after the first handshake. */
  lemma FirstState()
    ensures var (e, n0) := (Additive(), Initial(X25519, X25519));
            var r := After(e, n0, FirstHandshake());
            && RunEnabled(e, n0, FirstHandshake())
            && r.client.kex == X25519 && r.server.kex == X25519 && r.client.sequence == 2 && !r.waiting
            && Selected(r.client) == Aes256Gcm
  {
    var (e, n0) := (Additive(), Initial(X25519, X25519));
    hide *;
    FirstConfirm();
    FourEnabled(e, n0, Start(Register, 1), ServerTakes(10), ClientTakes, ServerTakes(0));
    FourSteps(e, n0, Start(Register, 1), ServerTakes(10), ClientTakes, ServerTakes(0));
  }

  /** The state before the last step, and after it. */
  lemma FirstConfirm()
    ensures var (e, n0) := (Additive(), Initial(X25519, X25519));
            var n3 := Do(e, Do(e, Do(e, n0, Start(Register, 1)), ServerTakes(10)), ClientTakes);
            var r := Do(e, n3, ServerTakes(0));
            && r.client.kex == X25519 && r.server.kex == X25519 && r.client.sequence == 2 && !r.waiting
            && Selected(r.client) == Aes256Gcm
    ensures Enabled(Initial(X25519, X25519), Start(Register, 1))
    ensures FirstHandshake() == [Start(Register, 1), ServerTakes(10), ClientTakes, ServerTakes(0)]
  {
    var (e, n0) := (Additive(), Initial(X25519, X25519));
    OnlyAes();
    KdfIsHkdf([HkdfSha256]);
    hide Negotiate;
    hide FirstKdf;
    var n1 := Do(e, n0, Start(Register, 1));
    assert n1.up == [Ask(Register, Some(Offer(1, X25519, [HkdfSha256], [Aes256Gcm], 1)))];
    var n2 := Do(e, n1, ServerTakes(10));
    assert n2.down == [Answer(Register, Some(Offer(1, X25519, [HkdfSha256], [Aes256Gcm], 10)))];
    var n3 := Do(e, n2, ClientTakes);
    assert n3.up == [Confirm(1)];
  }

  /**
   After a whole first handshake and the start of one refresh the conditions hold, and a
   second refresh before the first is answered makes a message unreadable.
   */
  lemma OverlapHappens()
    ensures var e := Additive();
            var n := DoStart(e, After(e, Initial(X25519, X25519), FirstHandshake()), Ping, 2);
            && Inv(e, n) && Encrypted(e, n) && n.waiting && !SafeFrom(e, DoStart(e, n, Ping, 3))
  {
    var (e, n0) := (Additive(), Initial(X25519, X25519));
    var r := After(e, n0, FirstHandshake());
    AdditiveDiffers(X25519, 2, 3);
    FirstState();
    RunKeeps(e, n0, FirstHandshake());
    hide After;
    hide RunEnabled;
    StartKeeps(e, r, Ping, 2);
    StartIs(e, r, 2);
    RefreshSafeIff(e, DoStart(e, r, Ping, 2), 3);
  }

  // ----- The ping callback -----

  /** The server's step on a request, with a message sent by its callback before the answer. */
  function ServerTakesSending(e: Setup, n: Net, private: nat): Net
    requires n.up != [] && n.up[0].Ask?
  {
    var (s, reply) := ServerAsk(e.x, n.server, n.up[0].offer, e.sAlgs, private);
    n.(server := s, up := n.up[1..], down := n.down + [Data(Seal(s.write)), Answer(n.up[0].kind, reply)])
  }

  lemma {:induction false} SentBetween(e: Setup, q: seq<Packet>, c: Ctx, d: Option<(Algorithm, nat)>, p: Packet,
                                       seal: Option<(Algorithm, nat)>)
    requires OnlyData(q)
    ensures ClientOpens(e, q + [Data(d), p], c, seal) <==> Opens(c.read, d) && ClientOpens(e, q + [p], c, seal)
    decreases |q|
  {
    if q == [] {
      assert q + [Data(d), p] == [Data(d), p] && q + [p] == [p] && [Data(d), p][1..] == [p];
    } else {
      assert (q + [Data(d), p])[1..] == q[1..] + [Data(d), p] && (q + [p])[1..] == q[1..] + [p];
      SentBetween(e, q[1..], c, d, p, seal);
    }
  }

  /**
   A callback that sends leaves everything readable exactly if the client's old session
   opens what is sealed with the server's new one, that is, if the keys have not changed.
   */
  lemma CallbackReadableIff(e: Setup, n: Net, private: nat)
    requires Inv(e, n) && n.waiting && Asking(e, n, 0)
    ensures var r := ServerTakesSending(e, n, private);
            AllReadable(e, r) <==> Opens(n.client.read, Seal(r.server.write))
  {
    AskKeeps(e, n, private);
    var (s, r) := (DoServerTakes(e, n, private), ServerTakesSending(e, n, private));
    SentBetween(e, n.down, n.client, Seal(r.server.write), r.down[|n.down| + 1], Seal(r.server.write));
    assert s.down == n.down + [r.down[|n.down| + 1]];
  }

  /** With a usable request and another key than the last, it is not readable. */
  lemma CallbackBreaks(e: Setup, n: Net, private: nat)
    requires Inv(e, n) && n.waiting && Asking(e, n, 0) && Encrypted(e, n) && n.client.handshakeSequence != 0
    requires var alg := Negotiate(e.sAlgs, e.cAlgs);
             var key := DerivedKey(e, n.client.kex, n.client.keyPair.value, private, alg);
             key.Some? ==> Seal(n.client.read) != Some((alg, key.value))
    ensures !AllReadable(e, ServerTakesSending(e, n, private))
  {
    CallbackReadableIff(e, n, private);
    ServerDraws(e, n.server, n.up[0].offer.value, n.client.keyPair.value, private);
  }
}
