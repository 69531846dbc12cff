/**
 What the search for the next hop and the message handlers come to, told by what a node
 sees: its slot, its table, its registry's answers and its links.
 */
module ForwardingLaws {
  import opened Forest
  import opened Routing
  import F = Flights
  import opened Wrappers

  // ----- The next hop -----

  ghost predicate Held(v: View, tid: Id) {
    v.upstream == Some(tid) || tid in v.routes
  }

  /** A neighbour is reached directly, or not at all. */
  lemma NeighbourFirst(v: View, tid: Id, blacklist: seq<Id>, noUpstream: bool)
    requires tid != v.id && Held(v, tid)
    ensures forall hop: Id :: ChooseHop(v, tid, blacklist, noUpstream) == Some(hop) <==> hop == tid && tid !in blacklist
  {
  }

  ghost predicate Below(v: View, tid: Id) {
    v.id != 0 && v.relation(tid).0 in {ImmediateDownstream, TransitiveDownstream}
  }

  /** A target below goes to the child on the way, or nowhere. */
  lemma DownwardsByChild(v: View, tid: Id, blacklist: seq<Id>, noUpstream: bool)
    requires tid != v.id && !Held(v, tid) && Below(v, tid)
    ensures forall hop: Id :: ChooseHop(v, tid, blacklist, noUpstream) == Some(hop) <==>
                          v.relation(tid).1 == Some(hop) && hop in v.routes && hop !in blacklist
  {
  }

  /** `hop` is the nearest of the target's ancestors with a route that is not blacklisted. */
  ghost predicate Nearest(v: View, tid: Id, blacklist: seq<Id>, hop: Id) {
    exists i :: 0 <= i < |v.above(tid)| && v.above(tid)[i] == hop && hop in v.routes && hop !in blacklist
                && forall j :: 0 <= j < i ==> v.above(tid)[j] !in v.routes || v.above(tid)[j] in blacklist
  }

  lemma NearestUnique(v: View, tid: Id, blacklist: seq<Id>, a: Id, b: Id)
    requires Nearest(v, tid, blacklist, a) && Nearest(v, tid, blacklist, b)
    ensures a == b
  {
  }

  lemma NearestRouteIs(v: View, tid: Id, blacklist: seq<Id>)
    ensures forall hop: Id :: NearestRoute(v, v.above(tid), blacklist) == Some(hop) <==> Nearest(v, tid, blacklist, hop)
  {
    var r := NearestRoute(v, v.above(tid), blacklist);
    if r.Some? {
      assert Nearest(v, tid, blacklist, r.value);
    }
    forall hop: Id | Nearest(v, tid, blacklist, hop) ensures r == Some(hop) {
      assert hop in v.above(tid);
      NearestUnique(v, tid, blacklist, r.value, hop);
    }
  }

  ghost predicate Elsewhere(v: View, tid: Id) {
    v.id == 0 || v.relation(tid).0 == OtherUpstreamPeer
  }

  ghost predicate ViaUpstream(v: View, blacklist: seq<Id>, noUpstream: bool, hop: Id) {
    v.upstream == Some(hop) && hop !in blacklist && !noUpstream
  }

  /** A target in another branch goes to its nearest ancestor that is a neighbour, and else upwards. */
  lemma AcrossByNearest(v: View, tid: Id, blacklist: seq<Id>, noUpstream: bool)
    requires tid != v.id && !Held(v, tid) && Elsewhere(v, tid)
    ensures forall hop: Id :: ChooseHop(v, tid, blacklist, noUpstream) == Some(hop) <==>
                          || Nearest(v, tid, blacklist, hop)
                          || ((forall a :: !Nearest(v, tid, blacklist, a)) && ViaUpstream(v, blacklist, noUpstream, hop))
  {
    NearestRouteIs(v, tid, blacklist);
    hide NearestRoute;
    hide Nearest;
  }

  /** All other targets go upwards, or nowhere; the node itself goes nowhere. */
  lemma OthersUpwards(v: View, tid: Id, blacklist: seq<Id>, noUpstream: bool)
    requires tid == v.id || (!Held(v, tid) && !Below(v, tid) && !Elsewhere(v, tid))
    ensures forall hop: Id :: ChooseHop(v, tid, blacklist, noUpstream) == Some(hop) <==>
                          tid != v.id && v.relation(tid).0 != Self && ViaUpstream(v, blacklist, noUpstream, hop)
  {
  }

  // ----- Responses -----

  /** A response turns sender and target round, and names this node as its last router. */
  lemma ResponseIs(v: View, m: Msg, code: Code)
    ensures var r := ResponseTo(v, m, code);
            && r.isRsp && r.result == code && r.source == v.id && r.from == m.to && r.to == m.from
            && r.version == m.version && r.requireRsp == m.requireRsp
            && r.router != [] && r.router[|r.router| - 1] == v.id
            && m.router <= r.router && |r.router| <= |m.router| + 1
            && (|r.router| == |m.router| <==> m.router != [] && m.router[|m.router| - 1] == v.id)
  {
  }

  // ----- Requests -----

  /** What sending over this hop comes to. */
  function SendCode(v: View, hop: Option<Id>): Code {
    if hop.None? then InvalidId
    else if hop.value !in v.data && hop.value !in v.ctrl then NoConnection
    else if hop.value !in v.push then PushFailed
    else Ok
  }

  function FirstTarget(v: View, m: Msg): Option<Id> {
    if m.to == 0 then None else ChooseHop(v, m.to, [m.source], false)
  }

  function FirstCode(v: View, m: Msg): Code {
    if m.to == 0 then Params else SendCode(v, FirstTarget(v, m))
  }

  /** The message as this node passes it on. */
  function Stamped(v: View, m: Msg): Msg {
    m.(router := m.router + [v.id], source := v.id)
  }

  /** The request is for another node and its time is not up. */
  ghost predicate ToForward(v: View, m: Msg) {
    m.version >= v.minVersion && m.to != v.id && |m.router| < v.ttl
  }

  /** Somebody in another branch, or under the same upstream, as far as the node knows. */
  ghost predicate Neighbourly(v: View, hop: Id) {
    || v.id == 0
    || (hop != v.id &&
        (v.relation(hop).0 in {OtherUpstreamPeer, SameUpstreamPeer} || (v.relation(hop).0 == Invalid && hop in v.routes)))
  }

  /** The upstream may be tried after the first target could not be sent to. */
  ghost predicate MayTryUpstream(v: View, m: Msg) {
    && v.upstream.Some? && v.upstream != Some(m.source) && FirstTarget(v, m) != v.upstream
    && (FirstTarget(v, m).Some? ==> Neighbourly(v, FirstTarget(v, m).value))
  }

  /** What the attempt over the upstream comes to. */
  function UpstreamCode(v: View): Code
    requires v.upstream.Some?
  {
    if v.upstream == Some(0) || v.upstream == Some(v.id) then Params else SendCode(v, v.upstream)
  }

  /** An answer from this node to a request it was to pass on, or none. */
  ghost predicate Reports(v: View, m: Msg, response: Option<Msg>, code: Code) {
    if code == Ok && !m.requireRsp then response == None
    else
      && response.Some?
      && var r := response.value;
         && r.isRsp && r.result == code && r.from == m.to && r.to == m.from && r.source == v.id
         && r.router == m.router + [v.id]
  }

  lemma FirstAttempt(v: View, m: Msg)
    requires m.to != v.id
    ensures var m1 := m.(router := m.router + [v.id]);
            var f := Forward(v, m1, m.source, m.to);
            && f.code == FirstCode(v, m) && f.ep == FirstTarget(v, m)
            && f.sent == if f.code == Ok then Some((FirstTarget(v, m).value, Stamped(v, m))) else None
  {
    hide ChooseHop;
  }

  lemma UpstreamAttempt(v: View, m: Msg)
    requires v.upstream.Some? && v.upstream != Some(m.source)
    ensures var m1 := m.(router := m.router + [v.id]);
            var f := Forward(v, m1, m.source, v.upstream.value);
            && f.code == UpstreamCode(v)
            && f.sent == if f.code == Ok then Some((v.upstream.value, Stamped(v, m))) else None
  {
  }

  lemma NeighbourlyIs(v: View, hop: Id)
    requires v.upstream != Some(hop)
    ensures TopologyRelation(v, hop).0 in {OtherUpstreamPeer, SameUpstreamPeer} <==> Neighbourly(v, hop)
  {
  }

  /** When the first target can be sent to, the request goes there, and no error comes back. */
  lemma ForwardsToFirst(v: View, m: Msg)
    requires ToForward(v, m) && FirstCode(v, m) == Ok
    ensures var e := OnDataReq(v, m);
            !e.delivered && e.request == Some((FirstTarget(v, m).value, Stamped(v, m))) && Reports(v, m, e.response, Ok)
  {
    FirstAttempt(v, m);
    hide Forward;
    hide ChooseHop;
  }

  /**
   When it cannot be, but is a neighbour or there is none, and the upstream is neither it
   nor the previous hop: the request goes to the upstream if that can be sent to, with no
   error; otherwise nothing is sent and the error is that of the second attempt.
   */
  lemma ForwardsToUpstream(v: View, m: Msg)
    requires ToForward(v, m) && FirstCode(v, m) != Ok && MayTryUpstream(v, m)
    ensures var e := OnDataReq(v, m);
            && !e.delivered && Reports(v, m, e.response, UpstreamCode(v))
            && e.request == if UpstreamCode(v) == Ok then Some((v.upstream.value, Stamped(v, m))) else None
  {
    FirstAttempt(v, m);
    UpstreamAttempt(v, m);
    if FirstTarget(v, m).Some? {
      NeighbourlyIs(v, FirstTarget(v, m).value);
    }
    hide Forward;
    hide ChooseHop;
    hide TopologyRelation;
    hide Neighbourly;
  }

  /** In all other cases nothing is sent, and the error is that of the first attempt. */
  lemma ForwardsNowhere(v: View, m: Msg)
    requires ToForward(v, m) && FirstCode(v, m) != Ok && !MayTryUpstream(v, m)
    ensures var e := OnDataReq(v, m);
            !e.delivered && e.request == None && Reports(v, m, e.response, FirstCode(v, m))
  {
    FirstAttempt(v, m);
    if FirstTarget(v, m).Some? && v.upstream != FirstTarget(v, m) {
      NeighbourlyIs(v, FirstTarget(v, m).value);
    }
    hide Forward;
    hide ChooseHop;
    hide TopologyRelation;
    hide Neighbourly;
  }

  /**
   A request that has failed at its first target goes on exactly if the upstream may be
   tried and can be sent to.
   */
  lemma UpstreamTakesOverIff(v: View, m: Msg)
    requires ToForward(v, m) && FirstCode(v, m) != Ok
    ensures OnDataReq(v, m).request.Some? <==> MayTryUpstream(v, m) && UpstreamCode(v) == Ok
  {
    if MayTryUpstream(v, m) {
      ForwardsToUpstream(v, m);
    } else {
      ForwardsNowhere(v, m);
    }
  }

  /** Requests that are not passed on: too old, for this node, or with their time up. */
  lemma EndsHere(v: View, m: Msg)
    requires !ToForward(v, m)
    ensures var e := OnDataReq(v, m);
            && e.request == None
            && (e.delivered <==> m.version >= v.minVersion && m.to == v.id)
            && (e.response.Some? <==> !e.delivered || m.requireRsp)
            && (e.response.Some? ==>
                  e.response.value.isRsp && e.response.value.to == m.from
                  && e.response.value.result == if m.version < v.minVersion then Version else if e.delivered then Ok else Ttl)
  {
  }

  // ----- Responses and control messages on their way -----

  /** A response is kept at its target and passed on elsewhere, to the next hop if that can be sent to. */
  lemma ResponsePassedOn(v: View, m: Msg)
    ensures var e := OnDataRsp(v, m);
            && e.response == None && (e.delivered <==> m.to == v.id)
            && (forall hop: Id, passed :: e.request == Some((hop, passed)) <==>
                  && m.to != v.id && m.to != 0 && ChooseHop(v, m.to, [m.source], false) == Some(hop)
                  && (hop in v.data || hop in v.ctrl) && hop in v.push && passed == m.(source := v.id))
  {
    hide ChooseHop;
  }

  /** Control messages go over control connections only. */
  lemma ControlSentIff(v: View, tid: Id, hop: Id)
    ensures SendCtrl(v, tid) == Sent(hop) <==>
            tid != v.id && ChooseHop(v, tid, [], false) == Some(hop) && hop in v.ctrl && hop in v.push
    ensures SendCtrl(v, tid).Local? <==> tid == v.id
  {
    hide ChooseHop;
  }

  // ----- Sending -----

  /** A node's own request leaves over the chosen hop exactly if that has a data connection that sends. */
  lemma SentIff(v: View, tid: Id, noUpstream: bool, requireRsp: bool, version: int)
    ensures forall hop: F.Hop :: F.SendData(v, tid, noUpstream, requireRsp, version) == Some(hop) <==>
                            && ChooseHop(v, tid, [], noUpstream) == Some(hop.receiver)
                            && hop.receiver in v.data * v.push && hop.sender == v.id
                            && hop.msg.from == hop.msg.source == v.id && hop.msg.to == tid && hop.msg.router == [v.id]
                            && !hop.msg.isRsp && hop.msg.result == Ok
                            && hop.msg.version == version && hop.msg.requireRsp == requireRsp
  {
    if tid == v.id {
      OthersUpwards(v, tid, [], noUpstream);
    }
    hide ChooseHop;
  }
}
