/**
 The travels of one data message. Nodes may change their minds between hops: a world
 gives every node's view at every moment, with no consistency between nodes or moments.
 */
module Flights {
  import opened Routing
  import opened Wrappers

  type World = (nat, Id) -> View

  /** One transmission of a message from one node to another. */
  datatype Hop = Hop(sender: Id, receiver: Id, msg: Msg)

  /** Each view belongs to its node, and no node's time to live exceeds `ttl`. */
  ghost predicate Proper(w: World, ttl: nat) {
    forall t, n :: w(t, n).id == n && w(t, n).ttl <= ttl
  }

  function Request(v: View, tid: Id, requireRsp: bool, version: int): Msg {
    Msg(version, false, Ok, v.id, v.id, tid, [v.id], requireRsp)
  }

  /** The first transmission of a send, if there is one: it uses data connections only. */
  function SendData(v: View, tid: Id, noUpstream: bool, requireRsp: bool, version: int): Option<Hop> {
    if tid == v.id then None
    else
      var ep := ChooseHop(v, tid, [], noUpstream);
      if ep.Some? && ep.value in v.data && ep.value in v.push
      then Some(Hop(v.id, ep.value, Request(v, tid, requireRsp, version)))
      else None
  }

  lemma OneMoreRouter(v: View, m: Msg)
    ensures var e := OnDataReq(v, m);
            e.request.Some? ==>
              && |m.router| < v.ttl
              && e.request.value.1.router == m.router + [v.id]
              && e.request.value.1 == m.(router := m.router + [v.id], source := v.id)
              && e.request.value.0 != m.source
  {
  }

  /** Every transmission of the request, from the one given on. */
  function Flight(w: World, ttl: nat, t: nat, hop: Hop): (f: seq<Hop>)
    requires Proper(w, ttl)
    ensures |f| >= 1 && f[0] == hop
    decreases ttl - |hop.msg.router|
  {
    var e := OnDataReq(w(t, hop.receiver), hop.msg);
    OneMoreRouter(w(t, hop.receiver), hop.msg);
    if e.request.None? then [hop]
    else [hop] + Flight(w, ttl, t + 1, Hop(hop.receiver, e.request.value.0, e.request.value.1))
  }

  lemma FlightGoesOn(w: World, ttl: nat, t: nat, hop: Hop, next: Hop)
    requires Proper(w, ttl) && next.sender == hop.receiver
    requires OnDataReq(w(t, hop.receiver), hop.msg).request == Some((next.receiver, next.msg))
    ensures Flight(w, ttl, t, hop) == [hop] + Flight(w, ttl, t + 1, next)
  {
  }

  lemma FlightStops(w: World, ttl: nat, t: nat, hop: Hop)
    requires Proper(w, ttl)
    requires hop.receiver == hop.msg.to || |hop.msg.router| >= ttl
    ensures Flight(w, ttl, t, hop) == [hop]
  {
  }

  function Senders(f: seq<Hop>): (s: seq<Id>)
    ensures |s| == |f| && forall i :: 0 <= i < |f| ==> s[i] == f[i].sender
  {
    seq(|f|, i requires 0 <= i < |f| => f[i].sender)
  }

  /** A message as it stands on the wire: sent by its source, which is its last router. */
  ghost predicate OnWire(hop: Hop) {
    && hop.msg.source == hop.sender && !hop.msg.isRsp
    && hop.msg.router != [] && hop.msg.router[|hop.msg.router| - 1] == hop.sender
  }

  /** Every hop leaves from where the last one arrived, does not go back, and counts. */
  lemma {:induction false} FlightLinks(w: World, ttl: nat, t: nat, hop: Hop)
    requires Proper(w, ttl) && OnWire(hop)
    ensures var f := Flight(w, ttl, t, hop);
            && |f| <= (if |hop.msg.router| < ttl then ttl - |hop.msg.router| else 0) + 1
            && (forall i :: 0 <= i < |f| ==> OnWire(f[i]))
            && (forall i :: 0 <= i < |f| - 1 ==> f[i + 1].sender == f[i].receiver && f[i + 1].receiver != f[i].sender)
            && (forall i :: 0 <= i < |f| ==> f[i].msg == hop.msg.(router := f[i].msg.router, source := f[i].sender))
    decreases ttl - |hop.msg.router|
  {
    var e := OnDataReq(w(t, hop.receiver), hop.msg);
    OneMoreRouter(w(t, hop.receiver), hop.msg);
    if e.request.Some? {
      FlightLinks(w, ttl, t + 1, Hop(hop.receiver, e.request.value.0, e.request.value.1));
    }
  }

  lemma StaysOnWire(w: World, t: nat, hop: Hop)
    requires OnWire(hop) && w(t, hop.receiver).id == hop.receiver
    ensures var e := OnDataReq(w(t, hop.receiver), hop.msg);
            e.request.Some? ==> OnWire(Hop(hop.receiver, e.request.value.0, e.request.value.1))
  {
    OneMoreRouter(w(t, hop.receiver), hop.msg);
  }

  lemma {:induction false} FlightRouters(w: World, ttl: nat, t: nat, hop: Hop, i: nat)
    requires Proper(w, ttl) && OnWire(hop) && i < |Flight(w, ttl, t, hop)|
    ensures var f := Flight(w, ttl, t, hop); f[i].msg.router == hop.msg.router + Senders(f)[1..i + 1]
    decreases i
  {
    hide OnDataReq;
    hide OnWire;
    var f := Flight(w, ttl, t, hop);
    if i == 0 {
      assert hop.msg.router == hop.msg.router + Senders(f)[1..1];
    } else {
      var e := OnDataReq(w(t, hop.receiver), hop.msg);
      OneMoreRouter(w(t, hop.receiver), hop.msg);
      var next := Hop(hop.receiver, e.request.value.0, e.request.value.1);
      StaysOnWire(w, t, hop);
      FlightRouters(w, ttl, t + 1, next, i - 1);
      var g := Flight(w, ttl, t + 1, next);
      assert Senders(f)[1..i + 1] == [hop.receiver] + Senders(g)[1..i];
    }
  }

  /**
   Whatever the registries and route tables say: one send causes at most `ttl`
   transmissions of the request, its router list is exactly the nodes that have
   transmitted it, in order, and no node sends it straight back where it came from.
   */
  lemma HopBound(w: World, ttl: nat, origin: Id, tid: Id, noUpstream: bool, requireRsp: bool, version: int)
    requires Proper(w, ttl) && ttl >= 1
    ensures var first := SendData(w(0, origin), tid, noUpstream, requireRsp, version);
            first.Some? ==>
              var f := Flight(w, ttl, 1, first.value);
              && |f| <= ttl
              && (forall i :: 0 <= i < |f| ==> f[i].msg.router == Senders(f)[..i + 1])
              && (forall i :: 0 <= i < |f| - 1 ==> f[i + 1].sender == f[i].receiver && f[i + 1].receiver != f[i].sender)
  {
    var first := SendData(w(0, origin), tid, noUpstream, requireRsp, version);
    if first.Some? {
      FlightLinks(w, ttl, 1, first.value);
      var f := Flight(w, ttl, 1, first.value);
      forall i | 0 <= i < |f| ensures f[i].msg.router == Senders(f)[..i + 1] {
        FlightRouters(w, ttl, 1, first.value, i);
        assert Senders(f)[..i + 1] == [origin] + Senders(f)[1..i + 1];
      }
    }
  }
}
