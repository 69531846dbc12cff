/**
 Two ends and their two ordered channels: handshakes, confirmations and sealed data
 under way, in any interleaving, with one handshake outstanding at a time.
 */
module Renegotiation {
  import opened Negotiation
  import opened Wrappers
  import opened Handshake

  datatype Packet =
    | Ask(kind: Kind, offer: Option<Offer>)
    | Answer(kind: Kind, offer: Option<Offer>)
    | Confirm(sequence: nat)
    | Data(seal: Option<(Algorithm, nat)>)

  /** `up` runs from client to server, `down` back; `waiting` while a request is unanswered. */
  datatype Net = Net(client: Ctx, server: Ctx, up: seq<Packet>, down: seq<Packet>, waiting: bool)

  datatype Setup = Setup(x: Primitives, cAlgs: seq<Algorithm>, sAlgs: seq<Algorithm>)

  datatype Action =
    | Start(kind: Kind, private: nat)
    | ClientSends
    | ServerSends
    | ServerTakes(private: nat)
    | ClientTakes

  // ----- Steps -----

  function DoStart(e: Setup, n: Net, kind: Kind, private: nat): Net {
    var (c, code) := GenerateSelfKey(n.client, 0, private);
    if code != Ok then n.(client := c)
    else n.(client := c, up := n.up + [Ask(kind, SelfOffer(e.x, c, e.cAlgs).1)], waiting := true)
  }

  function DoServerTakes(e: Setup, n: Net, private: nat): Net
    requires n.up != []
  {
    var (p, rest) := (n.up[0], n.up[1..]);
    match p
    case Ask(kind, offer) =>
      var (s, reply) := ServerAsk(e.x, n.server, offer, e.sAlgs, private);
      n.(server := s, up := rest, down := n.down + [Answer(kind, reply)])
    case Confirm(sequence) => n.(server := Confirmed(n.server, sequence), up := rest)
    case _ => n.(up := rest)
  }

  function DoClientTakes(e: Setup, n: Net): Net
    requires n.down != []
  {
    var (p, rest) := (n.down[0], n.down[1..]);
    match p
    case Answer(kind, offer) =>
      var (c, confirm) := ClientAnswer(e.x, n.client, kind, offer, e.cAlgs);
      n.(client := c, down := rest, waiting := false, up := n.up + if confirm.Some? then [Confirm(confirm.value)] else [])
    case _ => n.(down := rest)
  }

  function Do(e: Setup, n: Net, a: Action): Net {
    match a
    case Start(kind, private) => DoStart(e, n, kind, private)
    case ClientSends => n.(up := n.up + [Data(Seal(n.client.write))])
    case ServerSends => n.(down := n.down + [Data(Seal(n.server.write))])
    case ServerTakes(private) => if n.up == [] then n else DoServerTakes(e, n, private)
    case ClientTakes => if n.down == [] then n else DoClientTakes(e, n)
  }

  /** A refresh needs an encrypted connection; no handshake starts while one is unanswered. */
  predicate Enabled(n: Net, a: Action) {
    a.Start? ==> !n.waiting && (a.kind == Ping ==> Selected(n.client) != NoCrypto)
  }

  predicate RunEnabled(e: Setup, n: Net, run: seq<Action>)
    decreases |run|
  {
    run == [] || (Enabled(n, run[0]) && RunEnabled(e, Do(e, n, run[0]), run[1..]))
  }

  function After(e: Setup, n: Net, run: seq<Action>): Net
    decreases |run|
  {
    if run == [] then n else After(e, Do(e, n, run[0]), run[1..])
  }

  // ----- Every queued message meets a reader that opens it -----

  /**
   Taking the packets of `q` in order, the server opens each message sealed data, whatever
   keys it draws on the way; and afterwards it would open what is sealed with `seal`.
   */
  ghost predicate ServerOpens(e: Setup, q: seq<Packet>, s: Ctx, seal: Option<(Algorithm, nat)>)
    decreases |q|
  {
    if q == [] then Opens(s.read, seal)
    else
      match q[0]
      case Data(d) => Opens(s.read, d) && ServerOpens(e, q[1..], s, seal)
      case Confirm(sequence) => ServerOpens(e, q[1..], Confirmed(s, sequence), seal)
      case Ask(_, offer) =>
        forall private: nat :: ServerOpens(e, q[1..], ServerAsk(e.x, s, offer, e.sAlgs, private).0, seal)
      case Answer(_, _) => ServerOpens(e, q[1..], s, seal)
  }

  ghost predicate ClientOpens(e: Setup, q: seq<Packet>, c: Ctx, seal: Option<(Algorithm, nat)>)
    decreases |q|
  {
    if q == [] then Opens(c.read, seal)
    else
      match q[0]
      case Data(d) => Opens(c.read, d) && ClientOpens(e, q[1..], c, seal)
      case Answer(kind, offer) => ClientOpens(e, q[1..], ClientAnswer(e.x, c, kind, offer, e.cAlgs).0, seal)
      case _ => ClientOpens(e, q[1..], c, seal)
  }

  ghost predicate AllReadable(e: Setup, n: Net) {
    && ServerOpens(e, n.up, n.server, Seal(n.client.write))
    && ClientOpens(e, n.down, n.client, Seal(n.server.write))
  }

  ghost predicate OnlyData(q: seq<Packet>) {
    forall i :: 0 <= i < |q| ==> q[i].Data?
  }

  lemma {:induction false} ServerOpensData(e: Setup, q: seq<Packet>, s: Ctx, seal: Option<(Algorithm, nat)>, p: Packet)
    requires ServerOpens(e, q, s, seal) && (p.Ask? || p == Data(seal))
    ensures ServerOpens(e, q + [p], s, seal)
    decreases |q|
  {
    if q == [] {
      assert (q + [p])[1..] == [];
    } else {
      assert (q + [p])[1..] == q[1..] + [p];
      match q[0]
      case Data(_) => ServerOpensData(e, q[1..], s, seal, p);
      case Confirm(sequence) => ServerOpensData(e, q[1..], Confirmed(s, sequence), seal, p);
      case Ask(_, offer) =>
        forall private: nat
          ensures ServerOpens(e, (q + [p])[1..], ServerAsk(e.x, s, offer, e.sAlgs, private).0, seal)
        {
          ServerOpensData(e, q[1..], ServerAsk(e.x, s, offer, e.sAlgs, private).0, seal, p);
        }
      case Answer(_, _) => ServerOpensData(e, q[1..], s, seal, p);
    }
  }

  lemma {:induction false} ClientOpensData(e: Setup, q: seq<Packet>, c: Ctx, seal: Option<(Algorithm, nat)>)
    requires ClientOpens(e, q, c, seal)
    ensures ClientOpens(e, q + [Data(seal)], c, seal)
    decreases |q|
  {
    if q == [] {
      assert (q + [Data(seal)])[1..] == [];
    } else {
      assert (q + [Data(seal)])[1..] == q[1..] + [Data(seal)];
      match q[0]
      case Answer(kind, offer) => ClientOpensData(e, q[1..], ClientAnswer(e.x, c, kind, offer, e.cAlgs).0, seal);
      case _ => ClientOpensData(e, q[1..], c, seal);
    }
  }

  /** Behind a queue of data, what follows decides how later messages are sealed. */
  lemma {:induction false} ServerOpensThen(e: Setup, q: seq<Packet>, s: Ctx, seal: Option<(Algorithm, nat)>,
                                           p: Packet, later: Option<(Algorithm, nat)>)
    requires OnlyData(q) && ServerOpens(e, q, s, seal) && ServerOpens(e, [p], s, later)
    ensures ServerOpens(e, q + [p], s, later)
    decreases |q|
  {
    if q == [] {
      assert q + [p] == [p];
    } else {
      assert (q + [p])[1..] == q[1..] + [p];
      ServerOpensThen(e, q[1..], s, seal, p, later);
    }
  }

  lemma {:induction false} ClientOpensThen(e: Setup, q: seq<Packet>, c: Ctx, seal: Option<(Algorithm, nat)>,
                                           p: Packet, later: Option<(Algorithm, nat)>)
    requires OnlyData(q) && ClientOpens(e, q, c, seal) && ClientOpens(e, [p], c, later)
    ensures ClientOpens(e, q + [p], c, later)
    decreases |q|
  {
    if q == [] {
      assert q + [p] == [p];
    } else {
      assert (q + [p])[1..] == q[1..] + [p];
      ClientOpensThen(e, q[1..], c, seal, p, later);
    }
  }

  lemma {:induction false} ClientOpensRead(e: Setup, q: seq<Packet>, c: Ctx, c': Ctx, seal: Option<(Algorithm, nat)>)
    requires OnlyData(q) && ClientOpens(e, q, c, seal) && c.read == c'.read
    ensures ClientOpens(e, q, c', seal)
    decreases |q|
  {
    if q != [] {
      ClientOpensRead(e, q[1..], c, c', seal);
    }
  }

  // ----- The invariant -----

  /** The request at `up[i]` is what the client offers now, and nothing but data follows it. */
  ghost predicate Asking(e: Setup, n: Net, i: nat) {
    && i < |n.up| && n.up[i].Ask? && n.up[i].offer == SelfOffer(e.x, n.client, e.cAlgs).1
    && n.client.keyPair.Some? && HasCurve(n.client.kex)
    && (n.up[i].kind == Ping ==> Selected(n.client) != NoCrypto)
    && (forall j :: 0 <= j < |n.up| && j != i ==> !n.up[j].Ask?)
    && OnlyData(n.up[i + 1..]) && OnlyData(n.down)
  }

  /** The answer at `down[i]` leads the client to a key the server has staged. */
  ghost predicate Answering(e: Setup, n: Net, i: nat) {
    && i < |n.down| && n.down[i].Answer?
    && OnlyData(n.down[..i]) && OnlyData(n.down[i + 1..]) && OnlyData(n.up)
    && n.client.keyPair.Some? && HasCurve(n.client.kex)
    && (n.down[i].kind == Ping ==> Selected(n.client) != NoCrypto)
    && (Usable(n.down[i].offer) <==> n.client.handshakeSequence != 0 && n.client.kex == n.server.kex)
    && (Usable(n.down[i].offer) ==> FromServer(e, n, n.down[i].offer.value))
    && var (c, confirm) := ClientAnswer(e.x, n.client, n.down[i].kind, n.down[i].offer, e.cAlgs);
       if confirm.None? then c == n.client
       else Opens(Confirmed(n.server, confirm.value).read, Seal(c.write)) && Seal(n.server.write) == Seal(c.write)
  }

  /** An offer as the server makes it in its answer. */
  ghost predicate FromServer(e: Setup, n: Net, offer: Offer) {
    && offer.kex == n.client.kex && offer.kdfs == [HkdfSha256]
    && Negotiate(e.cAlgs, offer.algs) == Negotiate(e.sAlgs, e.cAlgs)
    && exists private: nat :: offer.public == e.x.public(n.client.kex, private)
  }

  ghost predicate Resting(n: Net) {
    OnlyData(n.down) && forall j :: 0 <= j < |n.up| ==> !n.up[j].Ask?
  }

  ghost predicate Inv(e: Setup, n: Net) {
    && e.x.Lawful() && !n.client.closing && !n.server.closing
    && AllReadable(e, n)
    && (if n.waiting then (exists i: nat :: Asking(e, n, i)) || (exists i: nat :: Answering(e, n, i)) else Resting(n))
  }

  ghost function Initial(client: Kex, server: Kex): Net {
    Net(NewContext(client), NewContext(server), [], [], false)
  }

  lemma StartKeeps(e: Setup, n: Net, kind: Kind, private: nat)
    requires Inv(e, n) && Enabled(n, Start(kind, private))
    ensures Inv(e, DoStart(e, n, kind, private))
  {
    var r := DoStart(e, n, kind, private);
    ClientOpensRead(e, n.down, n.client, r.client, Seal(n.server.write));
    if r.waiting {
      var p := r.up[|n.up|];
      ServerOpensData(e, n.up, n.server, Seal(n.client.write), p);
      assert r.up == n.up + [p];
      assert r.up[|n.up| + 1..] == [];
      assert Asking(e, r, |n.up|);
    }
  }

  lemma ClientSendsKeeps(e: Setup, n: Net)
    requires Inv(e, n)
    ensures Inv(e, Do(e, n, ClientSends))
  {
    var r := Do(e, n, ClientSends);
    ServerOpensData(e, n.up, n.server, Seal(n.client.write), Data(Seal(n.client.write)));
    if n.waiting {
      if i: nat :| Asking(e, n, i) {
        assert r.up[i + 1..] == n.up[i + 1..] + [Data(Seal(n.client.write))];
        assert Asking(e, r, i);
      } else {
        var i: nat :| Answering(e, n, i);
        assert Answering(e, r, i);
      }
    }
  }

  lemma ServerSendsKeeps(e: Setup, n: Net)
    requires Inv(e, n)
    ensures Inv(e, Do(e, n, ServerSends))
  {
    var r := Do(e, n, ServerSends);
    ClientOpensData(e, n.down, n.client, Seal(n.server.write));
    if n.waiting {
      if i: nat :| Asking(e, n, i) {
        assert Asking(e, r, i);
      } else {
        var i: nat :| Answering(e, n, i);
        assert r.down[..i] == n.down[..i];
        assert r.down[i + 1..] == n.down[i + 1..] + [Data(Seal(n.server.write))];
        assert Answering(e, r, i);
      }
    }
  }

  /** The server reaches the request: its answer will lead the client to its new key. */
  lemma AskKeeps(e: Setup, n: Net, private: nat)
    requires Inv(e, n) && n.waiting && Asking(e, n, 0)
    ensures Inv(e, DoServerTakes(e, n, private))
  {
    var r := DoServerTakes(e, n, private);
    var (kind, offer) := (n.up[0].kind, n.up[0].offer);
    ExchangeAgrees(e.x, n.client, n.server, kind, e.cAlgs, e.sAlgs, private);
    var answer := r.down[|n.down|];
    assert n.up[1..] == n.up[0 + 1..];
    assert ServerOpens(e, n.up[1..], ServerAsk(e.x, n.server, offer, e.sAlgs, private).0, Seal(n.client.write));
    assert [answer][1..] == [];
    assert ClientOpens(e, [], ClientAnswer(e.x, n.client, kind, answer.offer, e.cAlgs).0, Seal(r.server.write)) by {
      OpensAtRest(e, n);
    }
    ClientOpensThen(e, n.down, n.client, Seal(n.server.write), answer, Seal(r.server.write));
    assert r.down[..|n.down|] == n.down && r.down[|n.down| + 1..] == [];
    assert Answering(e, r, |n.down|);
  }

  lemma OpensAtRest(e: Setup, n: Net)
    requires OnlyData(n.down) && ClientOpens(e, n.down, n.client, Seal(n.server.write))
    ensures Opens(n.client.read, Seal(n.server.write))
  {
    DataAtRest(e, n.down, n.client, Seal(n.server.write));
  }

  lemma {:induction false} DataAtRest(e: Setup, q: seq<Packet>, c: Ctx, seal: Option<(Algorithm, nat)>)
    requires OnlyData(q) && ClientOpens(e, q, c, seal)
    ensures Opens(c.read, seal)
    decreases |q|
  {
    if q != [] {
      DataAtRest(e, q[1..], c, seal);
    }
  }

  lemma ServerTakesKeeps(e: Setup, n: Net, private: nat)
    requires Inv(e, n) && n.up != []
    ensures Inv(e, DoServerTakes(e, n, private))
  {
    var r := DoServerTakes(e, n, private);
    if n.waiting {
      if i: nat :| Asking(e, n, i) {
        if i == 0 {
          AskKeeps(e, n, private);
        } else {
          assert r.up[i - 1 + 1..] == n.up[i + 1..];
          assert Asking(e, r, i - 1);
        }
      } else {
        var i: nat :| Answering(e, n, i);
        assert Answering(e, r, i);
      }
    }
  }

  lemma ClientTakesKeeps(e: Setup, n: Net)
    requires Inv(e, n) && n.down != []
    ensures Inv(e, DoClientTakes(e, n))
  {
    var r := DoClientTakes(e, n);
    if n.waiting {
      if i: nat :| Asking(e, n, i) {
        assert Asking(e, r, i);
      } else {
        var i: nat :| Answering(e, n, i);
        if i == 0 {
          AnswerKeeps(e, n);
        } else {
          assert n.down[0] == n.down[..i][0];
          assert r.down[..i - 1] == n.down[..i][1..];
          assert r.down[i - 1 + 1..] == n.down[i + 1..];
          assert Answering(e, r, i - 1);
        }
      }
    }
  }

  /** The client reaches the answer: its confirmation will have the server follow. */
  lemma AnswerKeeps(e: Setup, n: Net)
    requires Inv(e, n) && n.waiting && Answering(e, n, 0)
    ensures Inv(e, DoClientTakes(e, n))
  {
    var r := DoClientTakes(e, n);
    var (c, confirm) := ClientAnswer(e.x, n.client, n.down[0].kind, n.down[0].offer, e.cAlgs);
    assert n.down[1..] == n.down[0 + 1..];
    if confirm.Some? {
      var p := Confirm(confirm.value);
      assert [p][1..] == [];
      assert ServerOpens(e, [], Confirmed(n.server, confirm.value), Seal(c.write));
      ServerOpensThen(e, n.up, n.server, Seal(n.client.write), p, Seal(c.write));
    } else {
      assert r.up == n.up;
    }
  }

  lemma StepKeeps(e: Setup, n: Net, a: Action)
    requires Inv(e, n) && Enabled(n, a)
    ensures Inv(e, Do(e, n, a))
  {
    match a
    case Start(kind, private) => StartKeeps(e, n, kind, private);
    case ClientSends => ClientSendsKeeps(e, n);
    case ServerSends => ServerSendsKeeps(e, n);
    case ServerTakes(private) => if n.up != [] { ServerTakesKeeps(e, n, private); }
    case ClientTakes => if n.down != [] { ClientTakesKeeps(e, n); }
  }

  lemma {:induction false} RunKeeps(e: Setup, n: Net, run: seq<Action>)
    requires Inv(e, n) && RunEnabled(e, n, run)
    ensures Inv(e, After(e, n, run))
    decreases |run|
  {
    if run != [] {
      StepKeeps(e, n, run[0]);
      RunKeeps(e, Do(e, n, run[0]), run[1..]);
    }
  }

  /**
   Through the first handshake and any number of refreshes, in any interleaving: every
   message under way will meet a reader that opens it, and the next one sent will too.
   */
  lemma RenegotiationSafety(e: Setup, client: Kex, server: Kex, run: seq<Action>)
    requires e.x.Lawful() && RunEnabled(e, Initial(client, server), run)
    ensures AllReadable(e, After(e, Initial(client, server), run))
  {
    RunKeeps(e, Initial(client, server), run);
  }

  // ----- A whole handshake -----

  /** The four steps of a handshake move both ends, both ways, to one new key. */
  lemma HandshakeCompletes(e: Setup, n: Net, kind: Kind, cKey: nat, sKey: nat)
    requires Inv(e, n) && !n.waiting && n.up == [] && n.down == [] && Enabled(n, Start(kind, cKey))
    requires n.client.kex == n.server.kex && HasCurve(n.client.kex) && NextSequence(n.client.sequence) != 0
    ensures var r := After(e, n, [Start(kind, cKey), ServerTakes(sKey), ClientTakes, ServerTakes(0)]);
            var alg := Negotiate(e.sAlgs, e.cAlgs);
            var kex := n.client.kex;
            var seal := if alg == NoCrypto then None
                        else Some((alg, e.x.derive(e.x.secret(kex, sKey, e.x.public(kex, cKey)).value, alg)));
            && r.up == [] && r.down == [] && !r.waiting && !r.server.pending && r.client.done && r.server.done
            && Seal(r.client.write) == Seal(r.client.read) == Seal(r.server.write) == Seal(r.server.read) == seal
  {
    var n1 := Do(e, n, Start(kind, cKey));
    var offer := SelfOffer(e.x, n1.client, e.cAlgs).1;
    assert n1.up == [Ask(kind, offer)];
    ExchangeAgrees(e.x, n1.client, n1.server, kind, e.cAlgs, e.sAlgs, sKey);
    var (s, reply) := ServerAsk(e.x, n1.server, offer, e.sAlgs, sKey);
    var n2 := Do(e, n1, ServerTakes(sKey));
    assert n2 == n1.(server := s, up := [], down := [Answer(kind, reply)]);
    var (c, confirm) := ClientAnswer(e.x, n1.client, kind, reply, e.cAlgs);
    var n3 := Do(e, n2, ClientTakes);
    assert n3 == n2.(client := c, waiting := false, down := [], up := [Confirm(confirm.value)]);
    var n4 := Do(e, n3, ServerTakes(0));
    assert n4 == n3.(server := Confirmed(s, confirm.value), up := []);
    FourSteps(e, n, Start(kind, cKey), ServerTakes(sKey), ClientTakes, ServerTakes(0));
  }

  lemma FourSteps(e: Setup, n: Net, a: Action, b: Action, c: Action, d: Action)
    ensures After(e, n, [a, b, c, d]) == Do(e, Do(e, Do(e, Do(e, n, a), b), c), d)
  {
    var n1 := Do(e, n, a);
    var n2 := Do(e, n1, b);
    var n3 := Do(e, n2, c);
    assert [a, b, c, d][1..] == [b, c, d] && [b, c, d][1..] == [c, d] && [c, d][1..] == [d] && [d][1..] == [];
    assert After(e, n3, [d]) == After(e, Do(e, n3, d), []);
    assert After(e, n2, [c, d]) == After(e, n3, [d]);
    assert After(e, n1, [b, c, d]) == After(e, n2, [c, d]);
  }
}
