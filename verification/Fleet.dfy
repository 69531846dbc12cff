/** All nodes of a bus together: their objects make one world, and routing in it is as in the tree. */
module Fleet {
  import opened Forest
  import opened Topology
  import opened Routing
  import opened Flights
  import opened TreeRouting
  import opened NodeViews
  import opened Wrappers
  import T = TopologyRegistry
  import R = RegistryRuns
  import N = NodeRoutes

  type Nodes = map<Id, N.Node>

  /** A node's view when it is linked to whom it holds an endpoint for. */
  ghost function LinkedView(n: N.Node, ttl: nat, minVersion: int): View
    reads n, n.registry, n.registry.state.peers
    requires n.Valid()
  {
    var neighbours := n.routes.Keys + if n.upstream == null then {} else {n.upstream.id};
    ViewOf(n, neighbours, neighbours, neighbours, ttl, minVersion)
  }

  ghost predicate AllValid(nodes: Nodes)
    reads *
  {
    forall id :: id in nodes ==> nodes[id].Valid()
  }

  /**
   Every node has a registry with the links `up` between exactly these nodes, and
   endpoints for its registered neighbours.
   */
  ghost predicate Agreed(nodes: Nodes, up: Links)
    reads *
    requires AllValid(nodes)
  {
    forall id :: id in nodes ==>
      var (n, s) := (nodes[id], nodes[id].registry.state);
      n.id == id && s.Listed() && NodeViews.Complete(n) && IdLinks(s) == up && s.data.Keys == nodes.Keys
  }

  ghost function Views(nodes: Nodes, ttl: nat, minVersion: int): map<Id, View>
    reads *
    requires AllValid(nodes)
  {
    map id | id in nodes :: LinkedView(nodes[id], ttl, minVersion)
  }

  /** The world of these nodes; anybody else knows nothing. */
  ghost function WorldOf(views: map<Id, View>, ttl: nat, minVersion: int): World {
    (t: nat, n: Id) => if n in views then views[n] else Stranger(n, ttl, minVersion)
  }

  function Stranger(n: Id, ttl: nat, minVersion: int): View {
    View(n, None, {}, (tid: Id) => (Invalid, None), (tid: Id) => [], {}, {}, {}, ttl, minVersion)
  }

  lemma NodeSeesTree(nodes: Nodes, up: Links, id: Id, ttl: nat, minVersion: int)
    requires AllValid(nodes) && Agreed(nodes, up) && id in nodes
    ensures Tree(up, nodes.Keys)
    ensures SameView(LinkedView(nodes[id], ttl, minVersion), TreeView(up, nodes.Keys, id, ttl, minVersion))
  {
    var n := nodes[id];
    hide N.Node.Valid;
    hide Snapshot.Listed;
    hide IdLinks;
    hide Tree;
    hide SameView;
    CompleteNodeSeesTree(n, n.routes.Keys + (if n.upstream == null then {} else {n.upstream.id}), ttl, minVersion);
  }

  lemma ViewsAt(nodes: Nodes, ttl: nat, minVersion: int, id: Id)
    requires AllValid(nodes) && id in nodes
    ensures var views := Views(nodes, ttl, minVersion);
            views.Keys == nodes.Keys && views[id] == LinkedView(nodes[id], ttl, minVersion)
  {
    hide N.Node.Valid;
    hide LinkedView;
  }

  /** Views that each are the tree's make a world that sees the tree. */
  lemma WorldSeesTree(views: map<Id, View>, up: Links, ttl: nat, minVersion: int)
    requires Acyclic(up)
    requires forall id :: id in views ==> SameView(views[id], TreeView(up, views.Keys, id, ttl, minVersion))
    ensures var w := WorldOf(views, ttl, minVersion);
            Proper(w, ttl) && SeesTree(w, up, views.Keys, ttl, minVersion)
  {
    var w := WorldOf(views, ttl, minVersion);
    forall t, n ensures w(t, n).id == n && w(t, n).ttl <= ttl {
      ProperAt(views, up, ttl, minVersion, t, n);
    }
    forall t, n | n in views ensures SameView(w(t, n), TreeView(up, views.Keys, n, ttl, minVersion)) {
      WorldAtNode(views, ttl, minVersion, t, n);
    }
    hide WorldOf;
    hide TreeView;
    hide SameView;
    hide Acyclic;
  }

  lemma WorldAtNode(views: map<Id, View>, ttl: nat, minVersion: int, t: nat, n: Id)
    ensures WorldOf(views, ttl, minVersion)(t, n) == if n in views then views[n] else Stranger(n, ttl, minVersion)
  {
    hide Stranger;
  }

  lemma ProperAt(views: map<Id, View>, up: Links, ttl: nat, minVersion: int, t: nat, n: Id)
    requires Acyclic(up) && (n in views ==> SameView(views[n], TreeView(up, views.Keys, n, ttl, minVersion)))
    ensures var v := WorldOf(views, ttl, minVersion)(t, n); v.id == n && v.ttl == ttl
  {
    WorldAtNode(views, ttl, minVersion, t, n);
    hide WorldOf;
    if n in views {
      TreeViewIs(up, views.Keys, n, ttl, minVersion);
    }
  }

  lemma TreeViewIs(up: Links, nodes: set<Id>, id: Id, ttl: nat, minVersion: int)
    requires Acyclic(up)
    ensures var v := TreeView(up, nodes, id, ttl, minVersion); v.id == id && v.ttl == ttl
  {
  }

  lemma FleetSeesTree(nodes: Nodes, up: Links, ttl: nat, minVersion: int)
    requires AllValid(nodes) && Agreed(nodes, up) && nodes != map[] && Acyclic(up)
    ensures Tree(up, nodes.Keys)
    ensures var w := WorldOf(Views(nodes, ttl, minVersion), ttl, minVersion);
            Proper(w, ttl) && SeesTree(w, up, nodes.Keys, ttl, minVersion)
  {
    var id :| id in nodes;
    hide *;
    NodeSeesTree(nodes, up, id, ttl, minVersion);
    ViewsAt(nodes, ttl, minVersion, id);
    var views := Views(nodes, ttl, minVersion);
    forall id | id in views ensures SameView(views[id], TreeView(up, views.Keys, id, ttl, minVersion)) {
      ViewsAt(nodes, ttl, minVersion, id);
      NodeSeesTree(nodes, up, id, ttl, minVersion);
    }
    WorldSeesTree(views, up, ttl, minVersion);
  }

  /**
   Between the nodes of one tree: a request is delivered over the distance, once, by nodes
   that do nothing else. Out of reach of its time to live it comes to nothing but the error,
   which gets back to its sender.
   */
  lemma FleetRoutes(nodes: Nodes, up: Links, a: Id, b: Id, ttl: nat, minVersion: int, version: int)
    requires AllValid(nodes) && Agreed(nodes, up)
    requires a in nodes && b in nodes && a != b && ttl >= 1 && version >= minVersion
    requires Acyclic(up) && Root(up, a) == Root(up, b)
    ensures var w := WorldOf(Views(nodes, ttl, minVersion), ttl, minVersion);
            && Proper(w, ttl)
            && SendData(w(0, a), b, false, false, version) == Some(FirstHop(up, a, b, version))
            && Delivers(up, w, Flight(w, ttl, 1, FirstHop(up, a, b, version)), a, b, ttl, version)
            && (ttl < Hops(up, a, b) ==> Refused(up, w, Flight(w, ttl, 1, FirstHop(up, a, b, version)), a, b, ttl))
  {
    hide *;
    assert nodes != map[];
    FleetSeesTree(nodes, up, ttl, minVersion);
    var w := WorldOf(Views(nodes, ttl, minVersion), ttl, minVersion);
    DeliveryAsSeen(w, up, nodes.Keys, a, b, ttl, minVersion, version);
    if ttl < Hops(up, a, b) {
      RefusalAsSeen(w, up, nodes.Keys, a, b, ttl, minVersion, version);
    }
  }

  // ----- Such nodes can be made -----

  /** Node 2 below node 1, each with an endpoint for the other. */
  method TwoNodes() returns (n1: N.Node, n2: N.Node)
    ensures AllValid(map[1 := n1, 2 := n2]) && Agreed(map[1 := n1, 2 := n2], map[2 := 1])
  {
    hide Snapshot.Valid;
    hide Snapshot.Listed;
    hide T.Registry.Mirrored;
    hide Pair;
    hide AllValid;
    hide Agreed;
    var r := PairRegistry();
    n1 := new N.Node(Some(1), r);
    n2 := new N.Node(Some(2), r);
    PairUpstreams(n1, n2);
    LinkTo(n1, 2);
    LinkTo(n2, 1);
    PairAgreed(n1, n2);
  }

  method PairRegistry() returns (r: T.Registry)
    ensures fresh(r) && r.Valid() && Pair(r.state)
  {
    hide *;
    R.EmptyListed();
    r := new T.Registry();
    T.Seen(r);
    R.AddNew(r, 2, 1);
    T.Seen(r);
    PairLinks(r.state);
  }

  method LinkTo(n: N.Node, id: Id)
    requires n.Valid() && n.inited && !n.resetting && n.id != 0
    modifies n`upstream, n`routes
    ensures n.Valid()
    ensures if n.RegisteredUpstream() == Some(id) then n.upstream != null && n.routes == old(n.routes)
            else n.upstream == old(n.upstream) && n.routes.Keys == old(n.routes.Keys) + {id}
  {
    hide Snapshot.Valid;
    hide T.Registry.Mirrored;
    var e := new N.Endpoint(id, n);
    var code := n.AddEndpoint(e);
  }

  /** Peer 2 below peer 1. */
  ghost predicate Pair(s: Snapshot) {
    s.Valid() && s.Listed() && s.data.Keys == {1, 2} && IdLinks(s) == map[2 := 1]
  }

  lemma PairLinks(s: Snapshot)
    requires s.Valid() && s.Consistent() && s.Listed() && T.Updated(EMPTY, s, 2, 1)
    ensures Pair(s)
  {
    assert s.data.Keys == {1, 2} && s.up == map[s.data[2] := s.data[1]];
    assert s.data[1].busId == 1 && s.data[2].busId == 2;
  }

  lemma PairUpstreams(n1: N.Node, n2: N.Node)
    requires n1.id == 1 && n2.id == 2 && n1.registry == n2.registry && Pair(n1.registry.state)
    ensures n1.RegisteredUpstream() == None && n2.RegisteredUpstream() == Some(1)
  {
    var s := n1.registry.state;
    assert 2 in IdLinks(s) && 1 !in IdLinks(s);
  }

  lemma PairAgreed(n1: N.Node, n2: N.Node)
    requires n1.Valid() && n2.Valid() && n1.registry == n2.registry && Pair(n1.registry.state) && n1.id == 1 && n2.id == 2
    requires n1.upstream == null && n1.routes.Keys == {2} && n2.upstream != null && n2.routes == map[]
    requires n1.RegisteredUpstream() == None && n2.RegisteredUpstream() == Some(1)
    ensures AllValid(map[1 := n1, 2 := n2]) && Agreed(map[1 := n1, 2 := n2], map[2 := 1])
  {
    PairChildren();
    hide N.Node.Valid;
    hide N.Node.RegisteredUpstream;
    hide Snapshot.Valid;
    hide Snapshot.Listed;
    hide IdLinks;
    hide Children;
    assert NodeViews.Complete(n1) && NodeViews.Complete(n2);
  }

  lemma PairChildren()
    ensures Children(map[2 := 1], {1, 2}, 1) == {2} && Children(map[2 := 1], {1, 2}, 2) == {}
  {
  }
}
