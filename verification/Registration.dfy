/**
 The handshake part of sending a register message or a ping. Both look at the context
 before they make a key pair, and what they look at is there only after one was made.
 */
module Registration {
  import opened Negotiation
  import opened Wrappers
  import opened Handshake
  import opened Renegotiation

  /** The key exchange that the context names: that of its key pair, if it has one. */
  function Exchange(c: Ctx): Kex {
    if c.keyPair.None? then NoExchange else c.kex
  }

  datatype Mode = ClientMode | ServerMode | NoMode

  /** Sending a register request, or a response to one; `accepted` says that it reports no error. */
  function RegisterOffer(x: Primitives, c: Ctx, isRequest: bool, mode: Mode, accepted: bool, algs: seq<Algorithm>, private: nat)
      : (Ctx, Code, Option<Offer>)
  {
    var (c1, code) :=
      if isRequest && mode == ClientMode && !Exchange(c).NoExchange? then GenerateSelfKey(c, 0, private) else (c, Ok);
    if code != Ok then (c1, code, None)
    else if accepted && !Exchange(c1).NoExchange? then
      (c1, Ok, SelfOffer(x, c1, if mode == ServerMode then [Selected(c1)] else algs).1)
    else (c1, Ok, None)
  }

  method SendRegister(x: Primitives, ctx: ConnectionContext, isRequest: bool, mode: Mode, accepted: bool,
                      algs: seq<Algorithm>, private: nat)
      returns (code: Code, offer: Option<Offer>)
    requires ctx.Valid()
    modifies ctx
    ensures ctx.Valid()
    ensures (ctx.Value(), code, offer) == RegisterOffer(x, old(ctx.Value()), isRequest, mode, accepted, algs, private)
  {
    offer := None;
    if isRequest && mode == ClientMode && ctx.privateKey.Some? && ctx.kex != NoExchange {
      code := ctx.HandshakeGenerateSelfKey(0, private);
      if code != Ok {
        return;
      }
    }
    code := Ok;
    if accepted && ctx.privateKey.Some? && ctx.kex != NoExchange {
      var allowed := algs;
      if mode == ServerMode {
        allowed := [if ctx.writeCrypto.live then ctx.writeCrypto.alg else NoCrypto];
      }
      var written;
      written, offer := ctx.HandshakeWriteSelfPublicKey(x, allowed);
    }
  }

  /** Sending a ping; `due` says that the last key is older than the refresh interval. */
  function PingOffer(x: Primitives, c: Ctx, mode: Mode, due: bool, algs: seq<Algorithm>, private: nat): (Ctx, Option<Offer>) {
    if mode == ClientMode && Selected(c) != NoCrypto && due then
      var (c1, code) := GenerateSelfKey(c, 0, private);
      (c1, if code != Ok then None else SelfOffer(x, c1, algs).1)
    else (c, None)
  }

  method SendPing(x: Primitives, ctx: ConnectionContext, mode: Mode, due: bool, algs: seq<Algorithm>, private: nat)
      returns (offer: Option<Offer>)
    requires ctx.Valid()
    modifies ctx
    ensures ctx.Valid() && (ctx.Value(), offer) == PingOffer(x, old(ctx.Value()), mode, due, algs, private)
  {
    offer := None;
    if mode == ClientMode && ctx.writeCrypto.live && ctx.writeCrypto.alg != NoCrypto && due {
      var code := ctx.HandshakeGenerateSelfKey(0, private);
      if code == Ok {
        code, offer := ctx.HandshakeWriteSelfPublicKey(x, algs);
      }
    }
  }

  /** A client's register request carries a key exactly if its open context has a key pair already. */
  lemma RequestCarriesKeyIff(x: Primitives, c: Ctx, algs: seq<Algorithm>, private: nat)
    ensures RegisterOffer(x, c, true, ClientMode, true, algs, private).2.Some? <==>
            c.keyPair.Some? && HasCurve(c.kex) && !c.closing
  {
  }

  /** The server takes a register request: it reads the client's key, if there is one, and responds. */
  function TakeRegister(x: Primitives, c: Ctx, offer: Option<Offer>, algs: seq<Algorithm>, private: nat): (Ctx, Option<Offer>) {
    var (c1, code) :=
      if !Usable(offer) then (c, Ok)
      else
        var (g, made) := GenerateSelfKey(c, offer.value.sequence, private);
        if made != Ok then (g, made) else ReadPeer(x, g, offer, algs, true);
    var r := RegisterOffer(x, c1, false, ServerMode, code == Ok, algs, private);
    (r.0, r.2)
  }

  /** With a usable key in the request that is what the server does to a ping as well. */
  lemma RegisterIsAsk(x: Primitives, c: Ctx, offer: Option<Offer>, algs: seq<Algorithm>, private: nat)
    requires Usable(offer)
    ensures TakeRegister(x, c, offer, algs, private) == ServerAsk(x, c, offer, algs, private)
  {
  }

  // ----- Register and ping messages alone -----

  datatype Event = Registers(private: nat) | Pings(due: bool, private: nat) | Sends | Answers | Takes(private: nat) | Reads

  /** One event at either end: the client's messages, the server's, and either end taking the next. */
  function Occur(e: Setup, n: Net, v: Event): Net {
    match v
    case Registers(private) =>
      var (c, code, offer) := RegisterOffer(e.x, n.client, true, ClientMode, true, e.cAlgs, private);
      n.(client := c, up := n.up + if code == Ok then [Ask(Register, offer)] else [])
    case Pings(due, private) =>
      var (c, offer) := PingOffer(e.x, n.client, ClientMode, due, e.cAlgs, private);
      n.(client := c, up := n.up + [Ask(Ping, offer)])
    case Sends => Do(e, n, ClientSends)
    case Answers => Do(e, n, ServerSends)
    case Takes(private) =>
      if n.up == [] then n
      else if n.up[0].Ask? && n.up[0].kind == Register then
        var (s, reply) := TakeRegister(e.x, n.server, n.up[0].offer, e.sAlgs, private);
        n.(server := s, up := n.up[1..], down := n.down + [Answer(Register, reply)])
      else DoServerTakes(e, n, private)
    case Reads => if n.down == [] then n else DoClientTakes(e, n)
  }

  function AfterEvents(e: Setup, n: Net, run: seq<Event>): Net
    decreases |run|
  {
    if run == [] then n else AfterEvents(e, Occur(e, n, run[0]), run[1..])
  }

  /** No message of the queue carries a key or is sealed. */
  ghost predicate Plain(q: seq<Packet>) {
    forall i :: 0 <= i < |q| ==>
      match q[i]
      case Ask(_, offer) => offer.None?
      case Answer(_, offer) => offer.None?
      case Confirm(_) => false
      case Data(seal) => seal.None?
  }

  ghost predicate Keyless(n: Net, client: Kex, server: Kex) {
    n.client == NewContext(client) && n.server == NewContext(server) && Plain(n.up) && Plain(n.down)
  }

  lemma EventKeepsKeyless(e: Setup, n: Net, v: Event, client: Kex, server: Kex)
    requires Keyless(n, client, server)
    ensures Keyless(Occur(e, n, v), client, server)
  {
  }

  /**
   From two new contexts, register messages, pings and data in any order never give either
   end a key: both contexts stay new, and everything is sent unsealed.
   */
  lemma {:induction false} NeverKeyed(e: Setup, n: Net, run: seq<Event>, client: Kex, server: Kex)
    requires Keyless(n, client, server)
    ensures Keyless(AfterEvents(e, n, run), client, server)
    decreases |run|
  {
    if run != [] {
      EventKeepsKeyless(e, n, run[0], client, server);
      NeverKeyed(e, Occur(e, n, run[0]), run[1..], client, server);
    }
  }

  lemma RegisteringNeverKeys(e: Setup, client: Kex, server: Kex, run: seq<Event>)
    ensures var n := AfterEvents(e, Initial(client, server), run);
            && n.client == NewContext(client) && n.server == NewContext(server) && Plain(n.up) && Plain(n.down)
  {
    NeverKeyed(e, Initial(client, server), run, client, server);
  }
}
