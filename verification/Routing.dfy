/**
 Forwarding of data messages hop by hop: the choice of the next endpoint, the two
 message handlers, and what holds of one message's travels whatever the nodes believe
 about the topology.
 */
module Routing {
  import opened Forest
  import opened Wrappers

  type Id = nat

  datatype Code = Ok | Params | InvalidId | NoConnection | PushFailed | Ttl | Version

  /**
   One node's knowledge at one moment. The registry's answers are arbitrary functions:
   `relation` with the next hop's id, and `above`, the ids of a peer's proper ancestors,
   nearest first. `data` and `ctrl` are the endpoints with a usable connection of that
   kind, `push` those to which sending succeeds.
   */
  datatype View = View(
    id: Id,
    upstream: Option<Id>,
    routes: set<Id>,
    relation: Id -> (Relation, Option<Id>),
    above: Id -> seq<Id>,
    data: set<Id>,
    ctrl: set<Id>,
    push: set<Id>,
    ttl: nat,
    minVersion: int)

  datatype Msg = Msg(
    version: int,
    isRsp: bool,
    result: Code,
    source: Id,
    from: Id,
    to: Id,
    router: seq<Id>,
    requireRsp: bool)

  // ----- Choosing the next endpoint -----

  function TopologyRelation(v: View, tid: Id): (Relation, Option<Id>) {
    if v.id == 0 then (OtherUpstreamPeer, None)
    else if tid == v.id then (Self, Some(tid))
    else
      var (r, hop) := v.relation(tid);
      if r != Invalid then (r, hop)
      else if v.upstream == Some(tid) then (ImmediateUpstream, hop)
      else if tid in v.routes then (OtherUpstreamPeer, hop)
      else (Invalid, hop)
  }

  /** The first of `chain` that is not blacklisted and has a direct route. */
  function NearestRoute(v: View, chain: seq<Id>, blacklist: seq<Id>): (r: Option<Id>)
    ensures r.None? ==> forall c :: c in chain ==> c in blacklist || c !in v.routes
    ensures r.Some? ==> exists i :: 0 <= i < |chain| && chain[i] == r.value && r.value !in blacklist && r.value in v.routes
                          && forall j :: 0 <= j < i ==> chain[j] in blacklist || chain[j] !in v.routes
  {
    if chain == [] then None
    else if chain[0] !in blacklist && chain[0] in v.routes then Some(chain[0])
    else
      var r := NearestRoute(v, chain[1..], blacklist);
      assert r.Some? ==> exists i :: 0 <= i < |chain[1..]| && chain[1..][i] == r.value == chain[i + 1];
      r
  }

  function Allowed(hop: Id, blacklist: seq<Id>): Option<Id> {
    if hop in blacklist then None else Some(hop)
  }

  /** The endpoint chosen for `tid`, if there is one to choose. */
  function ChooseHop(v: View, tid: Id, blacklist: seq<Id>, noUpstream: bool): Option<Id> {
    if tid == v.id then None
    else if v.upstream == Some(tid) || tid in v.routes then Allowed(tid, blacklist)
    else
      var (r, next) := TopologyRelation(v, tid);
      if r == ImmediateDownstream || r == TransitiveDownstream then
        if next.Some? && next.value in v.routes then Allowed(next.value, blacklist) else None
      else if r == Self then None
      else
        var near := if r == OtherUpstreamPeer then NearestRoute(v, v.above(tid), blacklist) else None;
        if near.Some? then near
        else if !noUpstream && v.upstream.Some? then Allowed(v.upstream.value, blacklist)
        else None
  }

  /** The original's search, with its loop over the target's ancestors. */
  method GetPeerChannel(v: View, tid: Id, linked: set<Id>, blacklist: seq<Id>, noUpstream: bool)
      returns (code: Code, ep: Option<Id>)
    ensures ep == ChooseHop(v, tid, blacklist, noUpstream)
    ensures code == if ep.None? then InvalidId else if ep.value in linked then Ok else NoConnection
  {
    ep := None;
    if tid == v.id {
      return InvalidId, None;
    }
    if v.upstream == Some(tid) || tid in v.routes {
      if tid !in blacklist {
        ep := Some(tid);
      }
    } else {
      var (relation, next) := TopologyRelation(v, tid);
      if relation == ImmediateDownstream || relation == TransitiveDownstream {
        if next.Some? && next.value in v.routes && next.value !in blacklist {
          ep := next;
        }
      } else if relation != Self {
        if relation == OtherUpstreamPeer {
          var chain := v.above(tid);
          var i := 0;
          while i < |chain| && ep.None?
            invariant 0 <= i <= |chain|
            invariant ep.None? ==> NearestRoute(v, chain, blacklist) == NearestRoute(v, chain[i..], blacklist)
            invariant ep.Some? ==> NearestRoute(v, chain, blacklist) == ep
            decreases |chain| - i, if ep.None? then 1 else 0
          {
            assert chain[i..][1..] == chain[i + 1..];
            if chain[i] !in blacklist && chain[i] in v.routes {
              ep := Some(chain[i]);
            }
            i := i + 1;
          }
        }
        if ep.None? && !noUpstream && v.upstream.Some? && v.upstream.value !in blacklist {
          ep := v.upstream;
        }
      }
    }
    code := if ep.None? then InvalidId else if ep.value in linked then Ok else NoConnection;
  }

  /** No path of the search returns a blacklisted endpoint, or one the node does not hold. */
  lemma ChosenIsAllowed(v: View, tid: Id, blacklist: seq<Id>, noUpstream: bool)
    ensures var hop := ChooseHop(v, tid, blacklist, noUpstream);
            hop.Some? ==>
              && hop.value !in blacklist
              && (hop.value in v.routes || hop == v.upstream)
              && (noUpstream && hop == v.upstream && hop.value !in v.routes ==> hop.value == tid)
  {
  }

  // ----- Handlers -----

  /** `sent` is what went out and to whom, if anything did. */
  datatype Forwarded = Forwarded(code: Code, ep: Option<Id>, sent: Option<(Id, Msg)>)

  function Forward(v: View, m: Msg, fromServer: Id, toServer: Id): Forwarded {
    if toServer == 0 || toServer == v.id then Forwarded(Params, None, None)
    else
      var ep := ChooseHop(v, toServer, [fromServer], false);
      if ep.None? then Forwarded(InvalidId, None, None)
      else if ep.value !in v.data + v.ctrl then Forwarded(NoConnection, ep, None)
      else if ep.value !in v.push then Forwarded(PushFailed, ep, None)
      else Forwarded(Ok, ep, Some((ep.value, m.(source := v.id))))
  }

  /** The second attempt, over the upstream, when the first one's target was a neighbour. */
  function Retry(v: View, m: Msg, first: Forwarded): Forwarded {
    if first.code == Ok then first
    else if first.ep.Some? && TopologyRelation(v, first.ep.value).0 !in {OtherUpstreamPeer, SameUpstreamPeer} then first
    else if v.upstream.None? || first.ep == v.upstream || v.upstream == Some(m.source) then first
    else Forward(v, m, m.source, v.upstream.value)
  }

  function ResponseTo(v: View, m: Msg, code: Code): Msg {
    m.(isRsp := true, result := code, source := v.id, from := m.to, to := m.from,
       router := if m.router == [] || m.router[|m.router| - 1] != v.id then m.router + [v.id] else m.router)
  }

  /** Where a control message goes: to this node itself, to a neighbour, or nowhere. */
  datatype Dispatch = Local | Sent(next: Id) | NotSent(code: Code)

  function SendCtrl(v: View, tid: Id): Dispatch {
    if tid == v.id then Local
    else
      var ep := ChooseHop(v, tid, [], false);
      if ep.None? then NotSent(InvalidId)
      else if ep.value !in v.ctrl then NotSent(NoConnection)
      else if ep.value !in v.push then NotSent(PushFailed)
      else Sent(ep.value)
  }

  /** What one handler call did: data given to the user, a request passed on, a response made. */
  datatype Effects = Effects(delivered: bool, request: Option<(Id, Msg)>, response: Option<Msg>)

  function OnDataReq(v: View, m: Msg): Effects {
    if m.version < v.minVersion then Effects(false, None, Some(ResponseTo(v, m, Version)))
    else if m.to == v.id then
      Effects(true, None, if m.requireRsp then Some(ResponseTo(v, m, Ok)) else None)
    else if |m.router| >= v.ttl then Effects(false, None, Some(ResponseTo(v, m, Ttl)))
    else
      var m1 := m.(router := m.router + [v.id]);
      var f := Retry(v, m1, Forward(v, m1, m.source, m.to));
      Effects(false, f.sent, if f.code != Ok || m.requireRsp then Some(ResponseTo(v, m1, f.code)) else None)
  }

  /** Responses are passed on without looking at the time to live. */
  function OnDataRsp(v: View, m: Msg): Effects {
    if m.to == v.id then Effects(true, None, None)
    else Effects(false, Forward(v, m, m.source, m.to).sent, None)
  }

  /** The message object the handlers rewrite as they go. */
  class Message {
    const version: int
    const requireRsp: bool
    var isRsp: bool
    var result: Code
    var source: Id
    var from: Id
    var to: Id
    var router: seq<Id>

    function Value(): Msg
      reads this
    {
      Msg(version, isRsp, result, source, from, to, router, requireRsp)
    }

    constructor (m: Msg)
      ensures Value() == m
    {
      version, requireRsp, isRsp, result := m.version, m.requireRsp, m.isRsp, m.result;
      source, from, to, router := m.source, m.from, m.to, m.router;
    }
  }

  method ForwardDataMessage(v: View, m: Message, fromServer: Id, toServer: Id)
      returns (code: Code, ep: Option<Id>, sent: Option<(Id, Msg)>)
    modifies m`source
    ensures Forwarded(code, ep, sent) == Forward(v, old(m.Value()), fromServer, toServer)
    ensures m.source == v.id || m.source == old(m.source)
  {
    if toServer == 0 || v.id == toServer {
      return Params, None, None;
    }
    code, ep := GetPeerChannel(v, toServer, v.data + v.ctrl, [fromServer], false);
    if code != Ok {
      return code, ep, None;
    }
    m.source := v.id;
    if ep.value !in v.push {
      return PushFailed, ep, None;
    }
    return Ok, ep, Some((ep.value, m.Value()));
  }

  /** Turns the message into the response to itself, in place. */
  method MakeTransferResponse(v: View, m: Message, code: Code)
    modifies m
    ensures m.Value() == ResponseTo(v, old(m.Value()), code)
  {
    m.isRsp := true;
    m.result := code;
    m.source := v.id;
    m.from, m.to := m.to, m.from;
    if |m.router| == 0 || m.router[|m.router| - 1] != v.id {
      m.router := m.router + [v.id];
    }
  }

  method OnRecvDataTransferReq(v: View, m: Message) returns (e: Effects)
    modifies m
    ensures e == OnDataReq(v, old(m.Value()))
  {
    e := Effects(false, None, None);
    if m.version < v.minVersion {
      MakeTransferResponse(v, m, Version);
      return e.(response := Some(m.Value()));
    }
    if m.to == v.id {
      e := e.(delivered := true);
      if m.requireRsp {
        MakeTransferResponse(v, m, Ok);
        e := e.(response := Some(m.Value()));
      }
      return;
    }
    if |m.router| >= v.ttl {
      MakeTransferResponse(v, m, Ttl);
      return e.(response := Some(m.Value()));
    }
    var directFrom := m.source;
    m.router := m.router + [v.id];
    var code, toEp, sent := ForwardDataMessage(v, m, directFrom, m.to);
    if code != Ok {
      code, sent := RetryOverUpstream(v, m, directFrom, code, toEp);
    }
    e := e.(request := sent);
    if code != Ok || m.requireRsp {
      MakeTransferResponse(v, m, code);
      e := e.(response := Some(m.Value()));
    }
  }

  method RetryOverUpstream(v: View, m: Message, directFrom: Id, code: Code, toEp: Option<Id>)
      returns (code': Code, sent: Option<(Id, Msg)>)
    requires code != Ok
    modifies m`source
    ensures var f := Retry(v, old(m.Value()).(source := directFrom), Forwarded(code, toEp, None));
            code' == f.code && sent == f.sent
    ensures m.source == v.id || m.source == old(m.source)
  {
    if toEp.Some? {
      var (relation, _) := TopologyRelation(v, toEp.value);
      if relation != OtherUpstreamPeer && relation != SameUpstreamPeer {
        return code, None;
      }
    }
    if v.upstream.None? || toEp == v.upstream || v.upstream == Some(directFrom) {
      return code, None;
    }
    var ep;
    code', ep, sent := ForwardDataMessage(v, m, directFrom, v.upstream.value);
  }

  method OnRecvDataTransferRsp(v: View, m: Message) returns (e: Effects)
    modifies m
    ensures e == OnDataRsp(v, old(m.Value()))
  {
    if m.to == v.id {
      return Effects(true, None, None);
    }
    var _, _, sent := ForwardDataMessage(v, m, m.source, m.to);
    return Effects(false, sent, None);
  }
}
