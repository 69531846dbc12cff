/**
 From the registry and a node's tables to the node's view: where links and lists agree,
 the registry's answers about pointers are the answers of one forest of ids, and nodes
 whose tables are complete route as the tree of those ids says.
 */
module NodeViews {
  import opened Forest
  import opened Topology
  import opened TopologyRegistry
  import N = NodeRoutes
  import opened Routing
  import opened Flights
  import opened TreeRouting
  import opened Wrappers

  /** The registry's links, by id. */
  ghost function IdLinks(s: Snapshot): Links
    requires s.Consistent()
  {
    map id | id in s.data && s.data[id] in s.up :: s.up[s.data[id]].busId
  }

  /** All upstreams of registered peers are registered. */
  ghost predicate Closed(s: Snapshot)
    requires s.Consistent()
  {
    forall p :: p in s.up && s.Registered(p) ==> s.Registered(s.up[p])
  }

  lemma ListedClosed(s: Snapshot)
    requires s.Valid() && s.Listed()
    ensures Closed(s)
  {
  }

  /** The id links follow the pointers, and only they do. */
  lemma LinkOf(s: Snapshot, p: Peer)
    requires s.Consistent() && Closed(s) && s.Registered(p)
    ensures p in s.up <==> p.busId in IdLinks(s)
    ensures p in s.up ==> IdLinks(s)[p.busId] == s.up[p].busId && s.Registered(s.up[p])
  {
  }

  lemma {:induction false} EndsByIds(s: Snapshot, p: Peer, n: nat)
    requires s.Consistent() && Closed(s) && s.Registered(p) && Ends(s.up, p, n)
    ensures Ends(IdLinks(s), p.busId, n)
  {
    LinkOf(s, p);
    if p in s.up {
      EndsByIds(s, s.up[p], n - 1);
    }
  }

  lemma IdEnds(s: Snapshot, id: Id)
    requires s.Consistent() && Acyclic(s.up) && Closed(s) && id in IdLinks(s)
    ensures exists n: nat :: Ends(IdLinks(s), id, n)
    ensures id in s.data && IdLinks(s)[id] in s.data
  {
    var p := s.data[id];
    LinkOf(s, p);
    EndsByIds(s, p, Rank(s.up, p));
    hide IdLinks;
    hide Ends;
    hide Acyclic;
  }

  lemma ZeroUnknown(s: Snapshot)
    requires s.Consistent()
    ensures 0 !in s.data.Keys
  {
  }

  lemma IdLinksTree(s: Snapshot)
    requires s.Valid() && Closed(s)
    ensures Tree(IdLinks(s), s.data.Keys)
  {
    ZeroUnknown(s);
    forall id | id in IdLinks(s) ensures (exists n: nat :: Ends(IdLinks(s), id, n)) && id in s.data && IdLinks(s)[id] in s.data {
      IdEnds(s, id);
    }
    hide s.Consistent;
    hide s.PointsBack;
    hide s.Successors;
    hide s.Retired;
    hide Closed;
    hide IdLinks;
    hide Ends;
  }

  function Ids(ps: seq<Peer>): (r: seq<Id>)
    ensures |r| == |ps| && forall i :: 0 <= i < |ps| ==> r[i] == ps[i].busId
  {
    seq(|ps|, i requires 0 <= i < |ps| => ps[i].busId)
  }

  lemma {:induction false} AncestorsByIds(s: Snapshot, p: Peer)
    requires s.Consistent() && Acyclic(s.up) && Closed(s) && s.Registered(p) && Acyclic(IdLinks(s))
    ensures Ancestors(IdLinks(s), p.busId) == Ids(Ancestors(s.up, p))
    ensures forall a :: a in Ancestors(s.up, p) ==> s.Registered(a)
    decreases Rank(s.up, p)
  {
    LinkOf(s, p);
    if p in s.up {
      RankUp(s.up, p);
      AncestorsUp(s.up, p);
      AncestorsUp(IdLinks(s), p.busId);
      AncestorsByIds(s, s.up[p]);
    }
  }

  /** The registry's relation of two peers, hop included, is that of their ids. */
  lemma RelateByIds(s: Snapshot, p: Peer, q: Peer)
    requires s.Valid() && Closed(s) && s.Registered(p) && s.Registered(q)
    ensures Acyclic(IdLinks(s))
    ensures var (a, b) := (Relate<Peer>(s.up, p, q), Relate<Id>(IdLinks(s), p.busId, q.busId));
            a.0 == b.0 && a.1.busId == b.1
  {
    IdLinksTree(s);
    assert s.Consistent() && Acyclic(s.up);
    hide s.Valid;
    AncestorsByIds(s, p);
    AncestorsByIds(s, q);
    MemberByIds(s, Ancestors(s.up, p), q);
    MemberByIds(s, Ancestors(s.up, q), p);
    LinkOf(s, p);
    LinkOf(s, q);
    if p in Ancestors(s.up, q) {
      TowardByIds(s, p, q);
    }
    assert forall a, b :: s.Registered(a) && s.Registered(b) && a.busId == b.busId ==> a == b;
    hide *;
    RelateMatches(s.up, IdLinks(s), p, q);
  }

  /** `links` says of two peers' ids what `up` says of the peers. */
  lemma RelateMatches(up: map<Peer, Peer>, links: Links, p: Peer, q: Peer)
    requires Acyclic(up) && Acyclic(links)
    requires (p in up <==> p.busId in links) && (q in up <==> q.busId in links) && (p.busId == q.busId ==> p == q)
    requires p in up ==> links[p.busId] == up[p].busId && (up[p].busId == q.busId ==> up[p] == q)
    requires q in up ==> links[q.busId] == up[q].busId && (up[q].busId == p.busId ==> up[q] == p)
    requires p in up && q in up && up[p].busId == up[q].busId ==> up[p] == up[q]
    requires q in Ancestors(up, p) <==> q.busId in Ancestors(links, p.busId)
    requires p in Ancestors(up, q) <==> p.busId in Ancestors(links, q.busId)
    requires p in Ancestors(up, q) ==> ChildToward<Peer>(up, p, q).busId == ChildToward<Id>(links, p.busId, q.busId)
    ensures var (a, b) := (Relate<Peer>(up, p, q), Relate<Id>(links, p.busId, q.busId));
            a.0 == b.0 && a.1.busId == b.1
  {
    hide Ancestors;
    hide Acyclic;
    hide ChildToward;
  }

  lemma TowardByIds(s: Snapshot, p: Peer, q: Peer)
    requires s.Consistent() && Acyclic(s.up) && Closed(s) && s.Registered(p) && s.Registered(q) && Acyclic(IdLinks(s))
    requires p in Ancestors(s.up, q) && p.busId in Ancestors(IdLinks(s), q.busId)
    ensures ChildToward<Peer>(s.up, p, q).busId == ChildToward<Id>(IdLinks(s), p.busId, q.busId)
  {
    var c := ChildToward<Peer>(s.up, p, q);
    AncestorsByIds(s, q);
    LinkOf(s, c);
    MemberByIds(s, Ancestors(s.up, q), c);
    hide Ancestors;
    hide Acyclic;
    hide IdLinks;
    hide Closed;
    hide s.Consistent;
    ChildUnique<Id>(IdLinks(s), p.busId, q.busId, c.busId);
  }

  lemma MemberByIds(s: Snapshot, ps: seq<Peer>, p: Peer)
    requires s.Registered(p) && forall q :: q in ps ==> s.Registered(q)
    ensures p in ps <==> p.busId in Ids(ps)
  {
    if p in ps {
      var i :| 0 <= i < |ps| && ps[i] == p;
      assert Ids(ps)[i] == p.busId;
    }
    if p.busId in Ids(ps) {
      var i :| 0 <= i < |ps| && Ids(ps)[i] == p.busId;
      assert ps[i] in ps;
    }
  }

  // ----- One node's view -----

  /** What a node's objects say: its slot, its table, and its registry's answers. */
  ghost function ViewOf(n: N.Node, data: set<Id>, ctrl: set<Id>, push: set<Id>, ttl: nat, minVersion: int): View
    reads n, n.registry, n.registry.state.peers
    requires n.Valid()
  {
    var s := n.registry.state;
    View(n.id, if n.upstream == null then None else Some(n.upstream.id), n.routes.Keys,
         (tid: Id) => Answer(s, n.id, tid), (tid: Id) => Above(s, tid), data, ctrl, push, ttl, minVersion)
  }

  ghost function Answer(s: Snapshot, from: Id, to: Id): (Relation, Option<Id>) {
    if !s.Valid() || from !in s.data || to !in s.data then (Invalid, None)
    else
      var (r, hop) := Relate<Peer>(s.up, s.data[from], s.data[to]);
      (r, Some(hop.busId))
  }

  ghost function Above(s: Snapshot, id: Id): seq<Id> {
    if !s.Valid() || id !in s.data then [] else Ids(Ancestors(s.up, s.data[id]))
  }

  /** The view's relations are what the registry object answers. */
  method AskRelation(n: N.Node, tid: Id) returns (r: Relation, hop: Option<Id>)
    requires n.Valid()
    ensures forall d, c, p, ttl, v :: (r, hop) == ViewOf(n, d, c, p, ttl, v).relation(tid)
  {
    var peer;
    r, peer := n.registry.GetRelation(n.id, tid);
    hop := if peer == null then None else Some(peer.busId);
  }

  /** Views that answer every question alike. */
  ghost predicate SameView(v: View, w: View) {
    && v.id == w.id && v.upstream == w.upstream && v.routes == w.routes
    && v.data == w.data && v.ctrl == w.ctrl && v.push == w.push && v.ttl == w.ttl && v.minVersion == w.minVersion
    && (forall tid :: v.relation(tid) == w.relation(tid)) && (forall tid :: v.above(tid) == w.above(tid))
  }

  /** The node holds an endpoint for its registered upstream and for its registered children, and no others. */
  ghost predicate Complete(n: N.Node)
    reads n, n.registry, n.registry.state.peers
    requires n.Valid()
  {
    var up := IdLinks(n.registry.state);
    && n.id in n.registry.state.data
    && (n.upstream == null <==> n.RegisteredUpstream().None?)
    && n.routes.Keys == Children(up, n.registry.state.data.Keys, n.id)
  }

  lemma AnswersByIds(s: Snapshot, from: Id, to: Id)
    requires s.Valid() && Closed(s)
    ensures Acyclic(IdLinks(s))
    ensures Above(s, to) == Ancestors(IdLinks(s), to)
    ensures Answer(s, from, to) == TreeAnswer(IdLinks(s), s.data.Keys, from, to)
  {
    IdLinksTree(s);
    if to in s.data {
      AncestorsByIds(s, s.data[to]);
      if from in s.data {
        RelateByIds(s, s.data[from], s.data[to]);
      }
    }
  }

  /** A node with complete tables, all of whose links are up, has the tree's view. */
  lemma CompleteNodeSeesTree(n: N.Node, neighbours: set<Id>, ttl: nat, minVersion: int)
    requires n.Valid() && n.registry.state.Listed() && Complete(n)
    requires neighbours == n.routes.Keys + (if n.upstream == null then {} else {n.upstream.id})
    ensures var s := n.registry.state;
            && Tree(IdLinks(s), s.data.Keys)
            && SameView(ViewOf(n, neighbours, neighbours, neighbours, ttl, minVersion),
                        TreeView(IdLinks(s), s.data.Keys, n.id, ttl, minVersion))
  {
    var (s, up) := (n.registry.state, IdLinks(n.registry.state));
    ListedClosed(s);
    IdLinksTree(s);
    CompleteSlot(n);
    forall tid ensures Answer(s, n.id, tid) == TreeAnswer(up, s.data.Keys, n.id, tid) && Above(s, tid) == Ancestors(up, tid) {
      AnswersByIds(s, n.id, tid);
    }
    hide Answer;
    hide Above;
    hide Relate;
    hide Ancestors;
    hide N.Node.Valid;
    hide Snapshot.Valid;
    hide IdLinks;
    hide Closed;
    hide Acyclic;
    hide Snapshot.Listed;
  }

  ghost function TreeAnswer(up: Links, nodes: set<Id>, n: Id, tid: Id): (Relation, Option<Id>)
    requires Acyclic(up)
  {
    if n in nodes && tid in nodes then (Relate(up, n, tid).0, Some(Relate(up, n, tid).1)) else (Invalid, None)
  }

  lemma CompleteSlot(n: N.Node)
    requires n.Valid() && Closed(n.registry.state) && Complete(n)
    ensures var up := IdLinks(n.registry.state);
            && n.id in n.registry.state.data
            && (n.upstream == null <==> n.id !in up) && (n.upstream != null ==> up[n.id] == n.upstream.id)
            && n.routes.Keys == Children(up, n.registry.state.data.Keys, n.id)
  {
    var s := n.registry.state;
    assert s.Consistent();
    LinkOf(s, s.data[n.id]);
  }

  // ----- Routing does not tell such views apart -----

  lemma {:induction false} SameNearest(v: View, w: View, chain: seq<Id>, blacklist: seq<Id>)
    requires SameView(v, w)
    ensures NearestRoute(v, chain, blacklist) == NearestRoute(w, chain, blacklist)
  {
    if chain != [] {
      SameNearest(v, w, chain[1..], blacklist);
    }
  }

  lemma SameHop(v: View, w: View, tid: Id, blacklist: seq<Id>, noUpstream: bool)
    requires SameView(v, w)
    ensures ChooseHop(v, tid, blacklist, noUpstream) == ChooseHop(w, tid, blacklist, noUpstream)
    ensures TopologyRelation(v, tid) == TopologyRelation(w, tid)
  {
    SameNearest(v, w, v.above(tid), blacklist);
  }

  lemma SameForward(v: View, w: View, m: Msg, fromServer: Id, toServer: Id)
    requires SameView(v, w)
    ensures Forward(v, m, fromServer, toServer) == Forward(w, m, fromServer, toServer)
  {
    SameHop(v, w, toServer, [fromServer], false);
    hide ChooseHop;
  }

  lemma SameEffects(v: View, w: View, m: Msg)
    requires SameView(v, w)
    ensures OnDataReq(v, m) == OnDataReq(w, m)
    ensures forall code :: ResponseTo(v, m, code) == ResponseTo(w, m, code)
  {
    hide ChooseHop;
    hide TopologyRelation;
    hide Forward;
    var m1 := m.(router := m.router + [v.id]);
    var first := Forward(v, m1, m.source, m.to);
    SameForward(v, w, m1, m.source, m.to);
    if first.ep.Some? {
      SameHop(v, w, first.ep.value, [], false);
    }
    if v.upstream.Some? {
      SameForward(v, w, m1, m.source, v.upstream.value);
    }
  }

  // ----- The routing theorem for such nodes -----

  /** At every moment every node of the tree has the tree's view. */
  ghost predicate SeesTree(w: World, up: Links, nodes: set<Id>, ttl: nat, minVersion: int)
    requires Acyclic(up)
  {
    forall t, n :: n in nodes ==> SameView(w(t, n), TreeView(up, nodes, n, ttl, minVersion))
  }

  lemma {:induction false} SameFlight(v: World, w: World, nodes: set<Id>, ttl: nat, t: nat, hop: Hop)
    requires Proper(v, ttl) && Proper(w, ttl)
    requires forall t, n :: n in nodes ==> SameView(v(t, n), w(t, n))
    requires forall h :: h in Flight(w, ttl, t, hop) ==> h.receiver in nodes
    ensures Flight(v, ttl, t, hop) == Flight(w, ttl, t, hop)
    decreases ttl - |hop.msg.router|
  {
    hide *;
    var n := hop.receiver;
    assert Flight(w, ttl, t, hop)[0] == hop;
    SameEffects(v(t, n), w(t, n), hop.msg);
    var e := OnDataReq(w(t, n), hop.msg);
    OneMoreRouterIn(w, ttl, t, hop);
    if e.request.Some? {
      var next := Hop(n, e.request.value.0, e.request.value.1);
      FlightGoesOn(v, ttl, t, hop, next);
      FlightGoesOn(w, ttl, t, hop, next);
      assert forall h :: h in Flight(w, ttl, t + 1, next) ==> h in Flight(w, ttl, t, hop);
      SameFlight(v, w, nodes, ttl, t + 1, next);
    } else {
      FlightOver(v, ttl, t, hop);
      FlightOver(w, ttl, t, hop);
    }
  }

  lemma FlightOver(w: World, ttl: nat, t: nat, hop: Hop)
    requires Proper(w, ttl) && OnDataReq(w(t, hop.receiver), hop.msg).request.None?
    ensures Flight(w, ttl, t, hop) == [hop]
  {
  }

  lemma OneMoreRouterIn(w: World, ttl: nat, t: nat, hop: Hop)
    requires Proper(w, ttl)
    ensures var e := OnDataReq(w(t, hop.receiver), hop.msg);
            e.request.Some? ==> |hop.msg.router| < ttl && |e.request.value.1.router| == |hop.msg.router| + 1
  {
    OneMoreRouter(w(t, hop.receiver), hop.msg);
  }

  lemma ReceiversInTree(up: Links, nodes: set<Id>, f: seq<Hop>, first: Hop, b: Id, ttl: nat)
    requires Tree(up, nodes) && first.receiver in nodes && b in nodes && Root(up, first.receiver) == Root(up, b)
    requires Predicted(up, f, first, b, ttl)
    ensures forall h :: h in f ==> h.receiver in nodes
  {
    forall h | h in f ensures h.receiver in nodes {
      var i :| 0 <= i < |f| && f[i] == h;
      assert i <= Hops(up, first.receiver, b);
      PathInNodes(up, nodes, first.receiver, b, i);
    }
  }

  lemma SameDelivery(up: Links, v: World, w: World, nodes: set<Id>, f: seq<Hop>, a: Id, b: Id, ttl: nat, version: int)
    requires Acyclic(up) && Root(up, a) == Root(up, b) && Delivers(up, w, f, a, b, ttl, version)
    requires forall t, n :: n in nodes ==> SameView(v(t, n), w(t, n))
    requires forall h :: h in f ==> h.receiver in nodes
    ensures Delivers(up, v, f, a, b, ttl, version)
  {
    forall h | h in f
      ensures OnDataReq(v(0, h.receiver), h.msg) == OnDataReq(w(0, h.receiver), h.msg)
      ensures ResponseTo(v(0, h.receiver), h.msg, Ttl) == ResponseTo(w(0, h.receiver), h.msg, Ttl)
    {
      SameEffects(v(0, h.receiver), w(0, h.receiver), h.msg);
    }
    hide OnDataReq;
    hide ResponseTo;
    hide SameView;
    hide Hops;
    hide Path;
    hide Root;
    hide Acyclic;
    assert f[|f| - 1] in f;
    forall i | 0 <= i < |f| - 1
      ensures OnDataReq(v(0, f[i].receiver), f[i].msg) == Effects(false, Some((f[i + 1].receiver, f[i + 1].msg)), None)
    {
      assert f[i] in f;
    }
  }

  lemma SameSend(v: View, w: View, tid: Id, version: int)
    requires SameView(v, w)
    ensures SendData(v, tid, false, false, version) == SendData(w, tid, false, false, version)
  {
    SameHop(v, w, tid, [], false);
    hide ChooseHop;
  }

  /** The delivery theorem holds of all worlds in which the nodes see the tree. */
  lemma DeliveryAsSeen(w: World, up: Links, nodes: set<Id>, a: Id, b: Id, ttl: nat, minVersion: int, version: int)
    requires Tree(up, nodes) && a in nodes && b in nodes && a != b && Root(up, a) == Root(up, b)
    requires ttl >= 1 && version >= minVersion
    requires Proper(w, ttl) && SeesTree(w, up, nodes, ttl, minVersion)
    ensures SendData(w(0, a), b, false, false, version) == Some(FirstHop(up, a, b, version))
    ensures Delivers(up, w, Flight(w, ttl, 1, FirstHop(up, a, b, version)), a, b, ttl, version)
  {
    var (tw, first) := (TreeWorld(up, nodes, ttl, minVersion), FirstHop(up, a, b, version));
    var f := Flight(w, ttl, 1, first);
    assert Acyclic(up);
    assert forall t, n :: n in nodes ==> SameView(w(t, n), tw(t, n));
    assert OnItsWay(up, nodes, first, b, minVersion) ==>
        first.receiver in nodes && Root(up, first.receiver) == Root(up, b) by { hide Root; }
    hide *;
    TreeWorldProper(up, nodes, ttl, minVersion);
    TreeDelivery(up, nodes, a, b, ttl, minVersion, version);
    FirstHopOnItsWay(up, nodes, a, b, ttl, minVersion, version);
    RequestFlightIs(up, nodes, a, b, ttl, minVersion, version);
    TreeFlight(up, nodes, 1, first, b, ttl, minVersion);
    ReceiversInTree(up, nodes, Flight(tw, ttl, 1, first), first, b, ttl);
    SameFlight(w, tw, nodes, ttl, 1, first);
    SameDelivery(up, w, tw, nodes, f, a, b, ttl, version);
    SameSend(w(0, a), tw(0, a), b, version);
  }

  // ----- The refusal's way back, for such nodes -----

  lemma {:induction false} SameFollow(v: World, w: World, nodes: set<Id>, t: nat, hop: Hop, fuel: nat)
    requires forall t, n :: n in nodes ==> SameView(v(t, n), w(t, n))
    requires forall h :: h in Follow(w, t, hop, fuel) ==> h.receiver in nodes
    ensures Follow(v, t, hop, fuel) == Follow(w, t, hop, fuel)
    decreases fuel
  {
    hide *;
    var n := hop.receiver;
    assert Follow(w, t, hop, fuel)[0] == hop;
    SameResponse(v(t, n), w(t, n), hop.msg);
    var e := OnDataRsp(w(t, n), hop.msg);
    if fuel > 0 && e.request.Some? {
      var next := Hop(n, e.request.value.0, e.request.value.1);
      FollowGoesOn(v, t, hop, next, fuel);
      FollowGoesOn(w, t, hop, next, fuel);
      assert forall h :: h in Follow(w, t + 1, next, fuel - 1) ==> h in Follow(w, t, hop, fuel);
      SameFollow(v, w, nodes, t + 1, next, fuel - 1);
    } else {
      FollowOver(v, t, hop, fuel);
      FollowOver(w, t, hop, fuel);
    }
  }

  lemma FollowOver(w: World, t: nat, hop: Hop, fuel: nat)
    requires fuel == 0 || OnDataRsp(w(t, hop.receiver), hop.msg).request.None?
    ensures Follow(w, t, hop, fuel) == [hop]
  {
  }

  lemma SameResponse(v: View, w: View, m: Msg)
    requires SameView(v, w)
    ensures OnDataRsp(v, m) == OnDataRsp(w, m)
    ensures forall tid :: SendCtrl(v, tid) == SendCtrl(w, tid)
  {
    SameForward(v, w, m, m.source, m.to);
    forall tid ensures SendCtrl(v, tid) == SendCtrl(w, tid) {
      SameHop(v, w, tid, [], false);
    }
    hide ChooseHop;
    hide Forward;
  }

  /** Every node a response comes through is in the tree. */
  lemma {:induction false} FollowInTree(up: Links, nodes: set<Id>, t: nat, hop: Hop, b: Id, ttl: nat, minVersion: int, fuel: nat)
    requires OnItsWay(up, nodes, hop, b, minVersion)
    requires Root(up, hop.receiver) == Root(up, b) && fuel >= Hops(up, hop.receiver, b)
    ensures forall h :: h in Follow(TreeWorld(up, nodes, ttl, minVersion), t, hop, fuel) ==> h.receiver in nodes
    decreases fuel
  {
    hide *;
    WayFacts(up, nodes, hop, b, minVersion);
    if hop.receiver != b {
      ResponseGoesOn(up, nodes, t, hop, b, ttl, minVersion, fuel);
      FollowInTree(up, nodes, t + 1, NextResponse(up, hop, b), b, ttl, minVersion, fuel - 1);
    } else {
      var w := TreeWorld(up, nodes, ttl, minVersion);
      WorldAtAny(up, nodes, ttl, minVersion, t, b);
      KeptAt(w(t, b), hop.msg);
      FollowOver(w, t, hop, fuel);
    }
  }

  lemma WayFacts(up: Links, nodes: set<Id>, hop: Hop, b: Id, minVersion: int)
    requires OnItsWay(up, nodes, hop, b, minVersion)
    ensures Acyclic(up) && hop.receiver in nodes && hop.msg.to == b
  {
  }

  lemma WorldAtAny(up: Links, nodes: set<Id>, ttl: nat, minVersion: int, t: nat, n: Id)
    requires Acyclic(up)
    ensures TreeWorld(up, nodes, ttl, minVersion)(t, n).id == n
  {
  }

  lemma KeptAt(v: View, m: Msg)
    requires m.to == v.id
    ensures OnDataRsp(v, m) == Effects(true, None, None)
  {
  }

  lemma SameReturn(up: Links, v: World, w: World, nodes: set<Id>, a: Id, refuser: Id, rsp: Msg, fuel: nat)
    requires Acyclic(up) && Root(up, refuser) == Root(up, a) && ReturnsTo(up, w, a, refuser, rsp, fuel)
    requires a in nodes && refuser in nodes && forall t, n :: n in nodes ==> SameView(v(t, n), w(t, n))
    requires forall h :: h in Follow(w, 0, Hop(refuser, SendCtrl(w(0, refuser), rsp.to).next, rsp), fuel) ==> h.receiver in nodes
    ensures ReturnsTo(up, v, a, refuser, rsp, fuel)
  {
    hide SameView;
    hide OnDataRsp;
    hide SendCtrl;
    hide Follow;
    hide Root;
    hide Hops;
    hide Acyclic;
    SameResponse(v(0, refuser), w(0, refuser), rsp);
    var hop := Hop(refuser, SendCtrl(w(0, refuser), rsp.to).next, rsp);
    SameFollow(v, w, nodes, 0, hop, fuel);
    var g := Follow(w, 0, hop, fuel);
    SameCarried(v, w, nodes, g);
    SameResponse(v(0, a), w(0, a), g[|g| - 1].msg);
  }

  lemma SameCarried(v: World, w: World, nodes: set<Id>, g: seq<Hop>)
    requires CarriedOn(w, g) && (forall h :: h in g ==> h.receiver in nodes)
    requires forall t, n :: n in nodes ==> SameView(v(t, n), w(t, n))
    ensures CarriedOn(v, g)
  {
    hide SameView;
    hide OnDataRsp;
    forall i | 0 <= i < |g| - 1
      ensures OnDataRsp(v(0, g[i].receiver), g[i].msg) == Effects(false, Some((g[i + 1].receiver, g[i + 1].msg)), None)
    {
      assert g[i] in g;
      SameResponse(v(0, g[i].receiver), w(0, g[i].receiver), g[i].msg);
    }
  }

  /** The error made at `refuser` gets back to `a` in every world whose nodes see the tree. */
  lemma ReturnAsSeen(w: World, up: Links, nodes: set<Id>, a: Id, refuser: Id, m: Msg, ttl: nat, minVersion: int)
    requires Tree(up, nodes) && a in nodes && refuser in nodes && a != refuser && Root(up, a) == Root(up, refuser)
    requires m.from == a && m.version >= minVersion && SeesTree(w, up, nodes, ttl, minVersion)
    ensures var rsp := ResponseTo(w(0, refuser), m, Ttl);
            rsp.isRsp && rsp.result == Ttl && rsp.from == m.to && ReturnsTo(up, w, a, refuser, rsp, Hops(up, refuser, a))
  {
    var (tw, fuel) := (TreeWorld(up, nodes, ttl, minVersion), Hops(up, refuser, a));
    assert forall t, n :: n in nodes ==> SameView(w(t, n), tw(t, n));
    assert Acyclic(up);
    var rsp := ResponseTo(tw(0, refuser), m, Ttl);
    assert rsp.to == a;
    hide *;
    SameEffects(w(0, refuser), tw(0, refuser), m);
    RefusalReturns(up, nodes, a, refuser, m, ttl, minVersion, fuel);
    RefusalSent(up, nodes, a, refuser, m, ttl, minVersion);
    HopsStep(up, refuser, a);
    var hop := Hop(refuser, Next(up, refuser, a), rsp);
    FollowInTree(up, nodes, 0, hop, a, ttl, minVersion, fuel);
    SameReturn(up, w, tw, nodes, a, refuser, rsp, fuel);
  }

  /** The refusal theorem holds of all those worlds too. */
  lemma RefusalAsSeen(w: World, up: Links, nodes: set<Id>, a: Id, b: Id, ttl: nat, minVersion: int, version: int)
    requires Tree(up, nodes) && a in nodes && b in nodes && a != b && Root(up, a) == Root(up, b)
    requires 1 <= ttl < Hops(up, a, b) && version >= minVersion
    requires Proper(w, ttl) && SeesTree(w, up, nodes, ttl, minVersion)
    ensures Refused(up, w, Flight(w, ttl, 1, FirstHop(up, a, b, version)), a, b, ttl)
  {
    assert Acyclic(up);
    hide *;
    var f := Flight(w, ttl, 1, FirstHop(up, a, b, version));
    var refuser := Path(up, a, b)[ttl];
    DeliveryAsSeen(w, up, nodes, a, b, ttl, minVersion, version);
    PathInNodes(up, nodes, a, b, ttl);
    PathNotThereYet(up, a, b, ttl);
    PathLeavesStart(up, a, b, ttl);
    PathNotBack(up, a, b, ttl);
    LateMessage(up, w, f, a, b, ttl, version);
    ReturnAsSeen(w, up, nodes, a, refuser, f[|f| - 1].msg, ttl, minVersion);
    RefusedWhenLate(up, w, f, a, b, ttl, version);
  }
}
