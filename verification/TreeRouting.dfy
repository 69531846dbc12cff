/**
 Routing when the nodes agree: all hold the same forest, every upstream slot is the
 parent, every route table exactly the children, and all links are up.
 */
module TreeRouting {
  import opened Forest
  import opened Routing
  import opened Flights
  import opened Wrappers

  type Links = map<Id, Id>

  /** A forest on `nodes`, the ids being usable. */
  ghost predicate Tree(up: Links, nodes: set<Id>) {
    Acyclic(up) && 0 !in nodes && forall n :: n in up ==> n in nodes && up[n] in nodes
  }

  ghost function Root(up: Links, x: Id): (r: Id)
    requires Acyclic(up)
    ensures r !in up && (r == x || r in Ancestors(up, x))
    decreases Rank(up, x)
  {
    if x !in up then x
    else
      RankUp(up, x);
      Root(up, up[x])
  }

  lemma {:induction false} RootIsTop(up: Links, x: Id, a: Id)
    requires Acyclic(up) && (a == x || a in Ancestors(up, x))
    ensures Root(up, a) == Root(up, x)
    decreases Rank(up, x)
  {
    if a != x {
      RankUp(up, x);
      RootIsTop(up, up[x], a);
    }
  }

  // ----- Distance -----

  ghost predicate Under(up: Links, a: Id, b: Id)
    requires Acyclic(up)
  {
    a == b || a in Ancestors(up, b)
  }

  /** The neighbour of `a` on the way to `b`. */
  ghost function Next(up: Links, a: Id, b: Id): (c: Id)
    requires Acyclic(up) && a != b && Root(up, a) == Root(up, b)
    ensures Root(up, c) == Root(up, b)
    ensures Child(up, a, c) || Child(up, c, a)
  {
    if a in Ancestors(up, b) then
      var c := ChildToward(up, a, b);
      RootIsTop(up, b, c);
      c
    else
      TopOrLinked(up, a, b);
      RankUp(up, a);
      RootIsTop(up, a, up[a]);
      up[a]
  }

  lemma TopOrLinked(up: Links, a: Id, b: Id)
    requires Acyclic(up) && a != b && Root(up, a) == Root(up, b) && a !in Ancestors(up, b)
    ensures a in up
  {
  }

  ghost function Climb(up: Links, a: Id, b: Id): nat
    requires Acyclic(up) && Root(up, a) == Root(up, b)
  {
    if Under(up, a, b) then
      (if a == b then 0 else AncestorRankOf(up, b, a))
    else Rank(up, a) + Rank(up, b) + 1
  }

  ghost function AncestorRankOf(up: Links, b: Id, a: Id): (n: nat)
    requires Acyclic(up) && a in Ancestors(up, b)
    ensures n == Rank(up, b) - Rank(up, a)
  {
    AncestorRank(up, b, a);
    Rank(up, b) - Rank(up, a)
  }

  lemma NextIsNearer(up: Links, a: Id, b: Id)
    requires Acyclic(up) && a != b && Root(up, a) == Root(up, b)
    ensures Climb(up, Next(up, a, b), b) < Climb(up, a, b)
  {
    var c := Next(up, a, b);
    if a in Ancestors(up, b) {
      RankUp(up, c);
      if c != b {
        AncestorRank(up, b, c);
      }
    } else {
      TopOrLinked(up, a, b);
      RankUp(up, a);
    }
  }

  /** The number of hops the routing takes. */
  ghost function Hops(up: Links, a: Id, b: Id): nat
    requires Acyclic(up) && Root(up, a) == Root(up, b)
    decreases Climb(up, a, b)
  {
    if a == b then 0
    else
      NextIsNearer(up, a, b);
      1 + Hops(up, Next(up, a, b), b)
  }

  ghost predicate Adjacent(up: Links, a: Id, b: Id) {
    Child(up, a, b) || Child(up, b, a)
  }

  ghost predicate Walk(up: Links, p: seq<Id>) {
    p != [] && forall i :: 0 <= i < |p| - 1 ==> Adjacent(up, p[i], p[i + 1])
  }

  /** `d` links are enough to walk from `a` to `b`, and fewer are not. */
  ghost predicate Distance(up: Links, a: Id, b: Id, d: nat) {
    && (exists p :: Walk(up, p) && p[0] == a && p[|p| - 1] == b && |p| == d + 1)
    && (forall p :: Walk(up, p) && p[0] == a && p[|p| - 1] == b ==> |p| >= d + 1)
  }

  /** From a node to its parent the number of hops changes by exactly one. */
  lemma HopsAtParent(up: Links, a: Id, b: Id)
    requires Acyclic(up) && a in up && Root(up, a) == Root(up, b)
    ensures Root(up, up[a]) == Root(up, b)
    ensures Hops(up, up[a], b) == Hops(up, a, b) + 1 || Hops(up, a, b) == Hops(up, up[a], b) + 1
  {
    var p := up[a];
    RankUp(up, a);
    RootIsTop(up, a, p);
    if Under(up, a, b) {
      AncestorFacts(up, p, a);
      if a != b {
        AncestorTransitive(up, b, a, p);
      }
      AncestorFacts(up, p, b);
      ChildUnique(up, p, b, a);
      assert Next(up, p, b) == a;
    } else {
      assert Next(up, a, b) == p;
    }
  }

  lemma HopsAdjacent(up: Links, a: Id, c: Id, b: Id)
    requires Acyclic(up) && Adjacent(up, a, c) && Root(up, a) == Root(up, b)
    ensures Root(up, c) == Root(up, b) && Hops(up, a, b) <= Hops(up, c, b) + 1
  {
    if Child(up, c, a) {
      HopsAtParent(up, a, b);
    } else {
      RankUp(up, c);
      RootIsTop(up, c, a);
      HopsAtParent(up, c, b);
    }
  }

  lemma {:induction false} WalkIsLong(up: Links, p: seq<Id>, b: Id)
    requires Acyclic(up) && Walk(up, p) && p[|p| - 1] == b && Root(up, p[0]) == Root(up, b)
    ensures |p| >= Hops(up, p[0], b) + 1
    decreases |p|
  {
    if |p| > 1 {
      HopsAdjacent(up, p[0], p[1], b);
      WalkIsLong(up, p[1..], b);
    }
  }

  /** The nodes visited, from `a` to `b`. */
  ghost function Path(up: Links, a: Id, b: Id): (p: seq<Id>)
    requires Acyclic(up) && Root(up, a) == Root(up, b)
    ensures |p| == Hops(up, a, b) + 1 && p[0] == a && p[|p| - 1] == b
    decreases Climb(up, a, b)
  {
    if a == b then [a]
    else
      NextIsNearer(up, a, b);
      [a] + Path(up, Next(up, a, b), b)
  }

  lemma {:induction false} PathIsWalk(up: Links, a: Id, b: Id)
    requires Acyclic(up) && Root(up, a) == Root(up, b)
    ensures Walk(up, Path(up, a, b))
    decreases Climb(up, a, b)
  {
    if a != b {
      NextIsNearer(up, a, b);
      PathIsWalk(up, Next(up, a, b), b);
    }
  }

  /** The routing's number of hops is the distance in the tree. */
  lemma HopsIsDistance(up: Links, a: Id, b: Id)
    requires Acyclic(up) && Root(up, a) == Root(up, b)
    ensures Distance(up, a, b, Hops(up, a, b))
  {
    PathIsWalk(up, a, b);
    forall p | Walk(up, p) && p[0] == a && p[|p| - 1] == b ensures |p| >= Hops(up, a, b) + 1 {
      WalkIsLong(up, p, b);
    }
  }

  // ----- The nodes' views -----

  ghost function Children(up: Links, nodes: set<Id>, n: Id): set<Id> {
    set c | c in nodes && Child(up, n, c)
  }

  ghost function TreeView(up: Links, nodes: set<Id>, n: Id, ttl: nat, minVersion: int): View
    requires Acyclic(up)
  {
    var neighbours := Children(up, nodes, n) + if n in up then {up[n]} else {};
    View(n, if n in up then Some(up[n]) else None, Children(up, nodes, n),
         (tid: Id) =>
           if n in nodes && tid in nodes then (Relate(up, n, tid).0, Some(Relate(up, n, tid).1)) else (Invalid, None),
         (tid: Id) => Ancestors(up, tid),
         neighbours, neighbours, neighbours, ttl, minVersion)
  }

  /** In the tree the search picks the neighbour on the way, unless that is blacklisted. */
  lemma TreeHop(up: Links, nodes: set<Id>, n: Id, b: Id, blacklist: seq<Id>, ttl: nat, minVersion: int)
    requires Tree(up, nodes) && n in nodes && b in nodes && n != b && Root(up, n) == Root(up, b)
    requires Next(up, n, b) !in blacklist
    ensures var v := TreeView(up, nodes, n, ttl, minVersion);
            && ChooseHop(v, b, blacklist, false) == Some(Next(up, n, b))
            && Next(up, n, b) in nodes && Next(up, n, b) in v.data && Next(up, n, b) in v.ctrl && Next(up, n, b) in v.push
  {
    hide ChooseHop;
    hide Relate;
    if n in Ancestors(up, b) {
      DownHop(up, nodes, n, b, blacklist, ttl, minVersion);
    } else {
      UpHop(up, nodes, n, b, blacklist, ttl, minVersion);
    }
  }

  lemma TreeRelation(up: Links, nodes: set<Id>, n: Id, b: Id, ttl: nat, minVersion: int)
    requires Tree(up, nodes) && n in nodes && b in nodes && n != b
    ensures TopologyRelation(TreeView(up, nodes, n, ttl, minVersion), b) ==
            (Relate(up, n, b).0, Some(Relate(up, n, b).1))
    ensures n !in Ancestors(up, b) ==> !Child(up, n, b) && Relate(up, n, b).0 !in {Self, ImmediateDownstream, TransitiveDownstream}
  {
    RelateExact(up, n, b, Relate(up, n, b).0);
    AncestorFacts(up, n, b);
  }

  lemma DownHop(up: Links, nodes: set<Id>, n: Id, b: Id, blacklist: seq<Id>, ttl: nat, minVersion: int)
    requires Tree(up, nodes) && n in nodes && b in nodes && n != b && n in Ancestors(up, b)
    requires ChildToward(up, n, b) !in blacklist
    ensures var v := TreeView(up, nodes, n, ttl, minVersion);
            ChooseHop(v, b, blacklist, false) == Some(ChildToward(up, n, b)) && ChildToward(up, n, b) in v.routes
  {
    TreeRelation(up, nodes, n, b, ttl, minVersion);
    RelateExact(up, n, b, Relate(up, n, b).0);
    AncestorFacts(up, n, b);
    AncestorFacts(up, b, n);
    if Child(up, n, b) {
      ChildUnique(up, n, b, b);
    }
  }

  lemma UpHop(up: Links, nodes: set<Id>, n: Id, b: Id, blacklist: seq<Id>, ttl: nat, minVersion: int)
    requires Tree(up, nodes) && n in nodes && b in nodes && n != b && Root(up, n) == Root(up, b)
    requires n !in Ancestors(up, b) && Next(up, n, b) !in blacklist
    ensures n in up && Next(up, n, b) == up[n]
    ensures ChooseHop(TreeView(up, nodes, n, ttl, minVersion), b, blacklist, false) == Some(up[n])
  {
    TopOrLinked(up, n, b);
    AncestorFacts(up, b, n);
    TreeRelation(up, nodes, n, b, ttl, minVersion);
    NoRouteAbove(up, nodes, n, b);
    NearestRouteNone(TreeView(up, nodes, n, ttl, minVersion), Ancestors(up, b), blacklist);
  }

  /** Where the target is not below a node, no ancestor of the target is a child of it. */
  lemma NoRouteAbove(up: Links, nodes: set<Id>, n: Id, b: Id)
    requires Acyclic(up) && n !in Ancestors(up, b)
    ensures forall c :: c in Ancestors(up, b) ==> c !in Children(up, nodes, n)
  {
    forall c | c in Ancestors(up, b) && c in Children(up, nodes, n) ensures false {
      AncestorFacts(up, n, c);
      AncestorTransitive(up, b, c, n);
    }
  }

  lemma NearestRouteNone(v: View, chain: seq<Id>, blacklist: seq<Id>)
    requires forall c :: c in chain ==> c !in v.routes
    ensures NearestRoute(v, chain, blacklist) == None
  {
  }

  /** The next hop is never the node the message came from. */
  lemma NoTurningBack(up: Links, s: Id, n: Id, b: Id)
    requires Acyclic(up) && Root(up, s) == Root(up, b) && s != b && Next(up, s, b) == n && n != b
    ensures Root(up, n) == Root(up, b) && Next(up, n, b) != s
  {
    NextIsNearer(up, s, b);
    NextIsNearer(up, n, b);
  }

  // ----- Requests -----

  ghost function TreeWorld(up: Links, nodes: set<Id>, ttl: nat, minVersion: int): World
    requires Acyclic(up)
  {
    (t: nat, n: Id) => TreeView(up, nodes, n, ttl, minVersion)
  }

  /** A request under way to `b`, just sent by `hop.sender` along the path. */
  ghost predicate OnItsWay(up: Links, nodes: set<Id>, hop: Hop, b: Id, minVersion: int) {
    && Tree(up, nodes) && hop.sender in nodes && hop.receiver in nodes && b in nodes
    && hop.sender != b && Root(up, hop.sender) == Root(up, b) && Next(up, hop.sender, b) == hop.receiver
    && hop.msg.to == b && hop.msg.source == hop.sender && hop.msg.version >= minVersion
  }

  /** How many more hops the request makes: to the target, or until its time is up. */
  ghost function Further(h: nat, routers: nat, ttl: nat): nat {
    if routers >= ttl then 0 else if h <= ttl - routers then h else ttl - routers
  }

  /** A node that finds a usable endpoint passes the request on and does nothing else. */
  lemma PassesRequest(v: View, m: Msg, c: Id)
    requires ChooseHop(v, m.to, [m.source], false) == Some(c) && c in v.data && c in v.push
    requires m.version >= v.minVersion && !m.requireRsp && m.to != v.id && m.to != 0 && |m.router| < v.ttl
    ensures OnDataReq(v, m) == Effects(false, Some((c, m.(router := m.router + [v.id], source := v.id))), None)
  {
    hide ChooseHop;
    hide TopologyRelation;
  }

  lemma PassesResponse(v: View, m: Msg, c: Id)
    requires ChooseHop(v, m.to, [m.source], false) == Some(c) && c in v.data && c in v.push && m.to != v.id && m.to != 0
    ensures OnDataRsp(v, m) == Effects(false, Some((c, m.(source := v.id))), None)
  {
    hide ChooseHop;
  }

  lemma ForwardStep(up: Links, nodes: set<Id>, hop: Hop, b: Id, ttl: nat, minVersion: int)
    requires OnItsWay(up, nodes, hop, b, minVersion) && hop.receiver != b
    requires !hop.msg.requireRsp && |hop.msg.router| < ttl
    ensures Root(up, hop.receiver) == Root(up, b)
    ensures var n := hop.receiver;
            var m := hop.msg.(router := hop.msg.router + [n], source := n);
            var next := Hop(n, Next(up, n, b), m);
            && OnDataReq(TreeView(up, nodes, n, ttl, minVersion), hop.msg) == Effects(false, Some((next.receiver, m)), None)
            && OnItsWay(up, nodes, next, b, minVersion)
  {
    NoTurningBack(up, hop.sender, hop.receiver, b);
    TreeHop(up, nodes, hop.receiver, b, [hop.sender], ttl, minVersion);
    hide ChooseHop;
    hide OnDataReq;
    hide Root;
    hide Next;
    hide Ancestors;
    PassesRequest(TreeView(up, nodes, hop.receiver, ttl, minVersion), hop.msg, Next(up, hop.receiver, b));
  }

  /** Every node before the last passes the request on, gives it to nobody and answers nobody. */
  ghost predicate PassedOn(w: World, f: seq<Hop>) {
    forall i :: 0 <= i < |f| - 1 ==>
      OnDataReq(w(0, f[i].receiver), f[i].msg) == Effects(false, Some((f[i + 1].receiver, f[i + 1].msg)), None)
  }

  lemma PassedOnStep(w: World, hop: Hop, g: seq<Hop>)
    requires g != [] && PassedOn(w, g)
    requires OnDataReq(w(0, hop.receiver), hop.msg) == Effects(false, Some((g[0].receiver, g[0].msg)), None)
    ensures PassedOn(w, [hop] + g)
  {
    hide OnDataReq;
    var f := [hop] + g;
    forall i | 0 <= i < |f| - 1
      ensures OnDataReq(w(0, f[i].receiver), f[i].msg) == Effects(false, Some((f[i + 1].receiver, f[i + 1].msg)), None)
    {
      if i > 0 {
        assert f[i] == g[i - 1] && f[i + 1] == g[i];
      }
    }
  }

  lemma WorldIs(up: Links, nodes: set<Id>, ttl: nat, minVersion: int, t: nat, n: Id)
    requires Acyclic(up)
    ensures TreeWorld(up, nodes, ttl, minVersion)(t, n) == TreeView(up, nodes, n, ttl, minVersion)
  {
  }

  /** The flight and its end, as the tree predicts them from `hop` on. */
  ghost predicate Predicted(up: Links, f: seq<Hop>, hop: Hop, b: Id, ttl: nat)
    requires Acyclic(up) && Root(up, hop.receiver) == Root(up, b)
  {
    var more := Further(Hops(up, hop.receiver, b), |hop.msg.router|, ttl);
    && |f| == more + 1
    && (forall i :: 0 <= i < |f| ==> f[i].receiver == Path(up, hop.receiver, b)[i])
  }

  lemma PredictedStep(up: Links, hop: Hop, next: Hop, g: seq<Hop>, b: Id, ttl: nat)
    requires Acyclic(up) && Root(up, hop.receiver) == Root(up, b) && hop.receiver != b && |hop.msg.router| < ttl
    requires next.receiver == Next(up, hop.receiver, b) && |next.msg.router| == |hop.msg.router| + 1
    requires Predicted(up, g, next, b, ttl)
    ensures Predicted(up, [hop] + g, hop, b, ttl)
  {
    NextIsNearer(up, hop.receiver, b);
  }

  lemma {:induction false} TreeFlight(up: Links, nodes: set<Id>, t: nat, hop: Hop, b: Id, ttl: nat, minVersion: int)
    requires OnItsWay(up, nodes, hop, b, minVersion) && !hop.msg.requireRsp
    requires Proper(TreeWorld(up, nodes, ttl, minVersion), ttl)
    ensures Root(up, hop.receiver) == Root(up, b)
    ensures var w := TreeWorld(up, nodes, ttl, minVersion);
            Predicted(up, Flight(w, ttl, t, hop), hop, b, ttl) && PassedOn(w, Flight(w, ttl, t, hop))
    decreases ttl - |hop.msg.router|
  {
    hide Root;
    hide Next;
    hide Ancestors;
    hide ChooseHop;
    hide OnDataReq;
    hide OnDataRsp;
    hide Flight;
    hide Follow;
    hide Hops;
    hide Path;
    hide Predicted;
    hide Arrived;
    hide PassedOn;
    hide SendCtrl;
    var n, w := hop.receiver, TreeWorld(up, nodes, ttl, minVersion);
    if n != b && |hop.msg.router| < ttl {
      ForwardStep(up, nodes, hop, b, ttl, minVersion);
      WorldIs(up, nodes, ttl, minVersion, t, n);
      WorldIs(up, nodes, ttl, minVersion, 0, n);
      var m := hop.msg.(router := hop.msg.router + [n], source := n);
      var next := Hop(n, Next(up, n, b), m);
      FlightGoesOn(w, ttl, t, hop, next);
      TreeFlight(up, nodes, t + 1, next, b, ttl, minVersion);
      PredictedStep(up, hop, next, Flight(w, ttl, t + 1, next), b, ttl);
      PassedOnStep(w, hop, Flight(w, ttl, t + 1, next));
    } else {
      FlightStops(w, ttl, t, hop);
      PassedOnNow(w, hop);
      PredictedEnd(up, nodes, hop, b, ttl, minVersion);
    }
  }

  lemma PassedOnNow(w: World, hop: Hop)
    ensures PassedOn(w, [hop])
  {
  }

  lemma PredictedEnd(up: Links, nodes: set<Id>, hop: Hop, b: Id, ttl: nat, minVersion: int)
    requires OnItsWay(up, nodes, hop, b, minVersion) && (hop.receiver == b || |hop.msg.router| >= ttl)
    ensures Root(up, hop.receiver) == Root(up, b) && Predicted(up, [hop], hop, b, ttl)
  {
  }

  lemma TreeWorldProper(up: Links, nodes: set<Id>, ttl: nat, minVersion: int)
    requires Acyclic(up)
    ensures Proper(TreeWorld(up, nodes, ttl, minVersion), ttl)
  {
  }

  /** What the receiver of the last transmission does. */
  ghost function Ending(w: World, f: seq<Hop>): Effects
    requires f != []
  {
    OnDataReq(w(0, f[|f| - 1].receiver), f[|f| - 1].msg)
  }

  /** A node keeps a request that is for it, and refuses one that has been through `ttl` nodes. */
  lemma LastStop(v: View, m: Msg)
    requires m.version >= v.minVersion && !m.requireRsp
    ensures m.to == v.id ==> OnDataReq(v, m) == Effects(true, None, None)
    ensures m.to != v.id && |m.router| >= v.ttl ==> OnDataReq(v, m) == Effects(false, None, Some(ResponseTo(v, m, Ttl)))
  {
  }

  /** The last of the transmissions `f`, which started towards `start`, and what its receiver does. */
  ghost predicate EndsRight(up: Links, w: World, f: seq<Hop>, start: Id, b: Id, ttl: nat, first: Msg)
    requires Acyclic(up) && Root(up, start) == Root(up, b)
  {
    f != [] && PassedOn(w, f) &&
    var (d, last) := (Hops(up, start, b) + 1, f[|f| - 1]);
    && |f| == (if d <= ttl then d else ttl) && last.receiver == Path(up, start, b)[|f| - 1]
    && (d <= ttl ==> Ending(w, f) == Effects(true, None, None))
    && (d > ttl ==> Ending(w, f) == Effects(false, None, Some(ResponseTo(w(0, last.receiver), last.msg, Ttl))))
    && last.msg.from == first.from && last.msg.to == b && last.msg.version == first.version
  }

  lemma EndsWell(up: Links, nodes: set<Id>, first: Hop, b: Id, ttl: nat, minVersion: int)
    requires OnItsWay(up, nodes, first, b, minVersion) && OnWire(first) && !first.msg.requireRsp && |first.msg.router| == 1
    requires Proper(TreeWorld(up, nodes, ttl, minVersion), ttl) && ttl >= 1
    ensures Root(up, first.receiver) == Root(up, b)
    ensures var w := TreeWorld(up, nodes, ttl, minVersion);
            EndsRight(up, w, Flight(w, ttl, 1, first), first.receiver, b, ttl, first.msg)
  {
    assert Acyclic(up) && first.msg.version >= minVersion && first.msg.to == b && Root(up, first.receiver) == Root(up, b);
    hide *;
    var w := TreeWorld(up, nodes, ttl, minVersion);
    var f := Flight(w, ttl, 1, first);
    TreeFlight(up, nodes, 1, first, b, ttl, minVersion);
    PredictedLast(up, f, first, b, ttl);
    FlightLinks(w, ttl, 1, first);
    FlightRouters(w, ttl, 1, first, |f| - 1);
    var last := f[|f| - 1];
    assert |last.msg.router| == |f|;
    WorldAt(up, nodes, ttl, minVersion, last.receiver);
    EndsRightHere(up, w, f, first, b, ttl, minVersion);
  }

  lemma EndsRightHere(up: Links, w: World, f: seq<Hop>, first: Hop, b: Id, ttl: nat, minVersion: int)
    requires Acyclic(up) && Root(up, first.receiver) == Root(up, b) && f != [] && PassedOn(w, f) && ttl >= 1
    requires var d := Hops(up, first.receiver, b) + 1; |f| == if d <= ttl then d else ttl
    requires first.msg.to == b && first.msg.version >= minVersion && !first.msg.requireRsp
    requires var last := f[|f| - 1];
             && last.receiver == Path(up, first.receiver, b)[|f| - 1] && |last.msg.router| == |f|
             && last.msg == first.msg.(router := last.msg.router, source := last.sender)
             && var v := w(0, last.receiver); v.id == last.receiver && v.ttl == ttl && v.minVersion == minVersion
    ensures EndsRight(up, w, f, first.receiver, b, ttl, first.msg)
  {
    hide Path;
    hide Hops;
    hide Root;
    hide Acyclic;
    hide OnDataReq;
    hide ResponseTo;
    hide PassedOn;
    if Hops(up, first.receiver, b) + 1 > ttl {
      PathNotThereYet(up, first.receiver, b, |f| - 1);
    }
    LastStop(w(0, f[|f| - 1].receiver), f[|f| - 1].msg);
  }

  lemma PredictedLast(up: Links, f: seq<Hop>, hop: Hop, b: Id, ttl: nat)
    requires Acyclic(up) && Root(up, hop.receiver) == Root(up, b) && Predicted(up, f, hop, b, ttl)
    requires |hop.msg.router| == 1 && ttl >= 1
    ensures var d := Hops(up, hop.receiver, b) + 1; |f| == if d <= ttl then d else ttl
    ensures f[|f| - 1].receiver == Path(up, hop.receiver, b)[|f| - 1]
  {
    hide Root;
    hide Hops;
    hide Path;
    hide Acyclic;
  }

  lemma WorldAt(up: Links, nodes: set<Id>, ttl: nat, minVersion: int, n: Id)
    requires Acyclic(up)
    ensures var v := TreeWorld(up, nodes, ttl, minVersion)(0, n); v.id == n && v.ttl == ttl && v.minVersion == minVersion
  {
  }

  lemma PathStep(up: Links, a: Id, b: Id, i: nat)
    requires Acyclic(up) && a != b && Root(up, a) == Root(up, b)
    ensures Hops(up, a, b) == Hops(up, Next(up, a, b), b) + 1
    ensures 1 <= i <= Hops(up, a, b) ==> Path(up, a, b)[i] == Path(up, Next(up, a, b), b)[i - 1]
  {
    hide Next;
    hide Root;
    hide Climb;
    NextIsNearer(up, a, b);
    assert Path(up, a, b) == [a] + Path(up, Next(up, a, b), b);
  }

  lemma HopsZero(up: Links, a: Id)
    requires Acyclic(up)
    ensures Hops(up, a, a) == 0
  {
  }

  /** The path reaches its end only at its end. */
  lemma {:induction false} PathNotThereYet(up: Links, a: Id, b: Id, i: nat)
    requires Acyclic(up) && Root(up, a) == Root(up, b) && i < Hops(up, a, b)
    ensures Path(up, a, b)[i] != b && Root(up, Path(up, a, b)[i]) == Root(up, b)
    decreases i
  {
    HopsZero(up, b);
    hide *;
    if i > 0 {
      PathStep(up, a, b, i);
      PathNotThereYet(up, Next(up, a, b), b, i - 1);
    }
  }

  // ----- Responses -----

  /** The response's transmissions from `hop` on, followed for at most `fuel` more. */
  function Follow(w: World, t: nat, hop: Hop, fuel: nat): (f: seq<Hop>)
    ensures |f| >= 1 && f[0] == hop
    decreases fuel
  {
    var e := OnDataRsp(w(t, hop.receiver), hop.msg);
    if fuel == 0 || e.request.None? then [hop]
    else [hop] + Follow(w, t + 1, Hop(hop.receiver, e.request.value.0, e.request.value.1), fuel - 1)
  }

  /** The response's transmission after `hop`. */
  ghost function NextResponse(up: Links, hop: Hop, b: Id): (next: Hop)
    requires Acyclic(up) && hop.receiver != b && Root(up, hop.receiver) == Root(up, b)
    ensures next.sender == hop.receiver && next.receiver == Next(up, hop.receiver, b)
    ensures next.msg == hop.msg.(source := next.msg.source)
  {
    Hop(hop.receiver, Next(up, hop.receiver, b), hop.msg.(source := hop.receiver))
  }

  lemma ResponseStep(up: Links, nodes: set<Id>, hop: Hop, b: Id, ttl: nat, minVersion: int)
    requires OnItsWay(up, nodes, hop, b, minVersion) && hop.receiver != b
    ensures Root(up, hop.receiver) == Root(up, b)
    ensures var n := hop.receiver;
            var next := NextResponse(up, hop, b);
            && OnDataRsp(TreeView(up, nodes, n, ttl, minVersion), hop.msg) == Effects(false, Some((next.receiver, next.msg)), None)
            && OnItsWay(up, nodes, next, b, minVersion)
  {
    NoTurningBack(up, hop.sender, hop.receiver, b);
    TreeHop(up, nodes, hop.receiver, b, [hop.sender], ttl, minVersion);
    hide ChooseHop;
    hide OnDataRsp;
    hide Root;
    hide Next;
    hide Ancestors;
    PassesResponse(TreeView(up, nodes, hop.receiver, ttl, minVersion), hop.msg, Next(up, hop.receiver, b));
  }

  /** Every node before the last passes the response on and does nothing else. */
  ghost predicate CarriedOn(w: World, f: seq<Hop>) {
    forall i :: 0 <= i < |f| - 1 ==>
      OnDataRsp(w(0, f[i].receiver), f[i].msg) == Effects(false, Some((f[i + 1].receiver, f[i + 1].msg)), None)
  }

  /** The response `m` has been carried to `b` by exactly these hops, and ends there. */
  ghost predicate Arrived(up: Links, w: World, f: seq<Hop>, hop: Hop, b: Id)
    requires Acyclic(up) && Root(up, hop.receiver) == Root(up, b)
  {
    && |f| == Hops(up, hop.receiver, b) + 1 && f[0] == hop && CarriedOn(w, f)
    && var last := f[|f| - 1];
       && last.receiver == b
       && last.msg == hop.msg.(source := last.sender)
       && OnDataRsp(w(0, b), last.msg) == Effects(true, None, None)
  }

  lemma ArrivedStep(up: Links, w: World, hop: Hop, next: Hop, g: seq<Hop>, b: Id)
    requires Acyclic(up) && Root(up, hop.receiver) == Root(up, b) && hop.receiver != b
    requires next.receiver == Next(up, hop.receiver, b) && next.msg == hop.msg.(source := next.msg.source)
    requires OnDataRsp(w(0, hop.receiver), hop.msg) == Effects(false, Some((next.receiver, next.msg)), None)
    requires Arrived(up, w, g, next, b)
    ensures Arrived(up, w, [hop] + g, hop, b)
  {
    hide Next;
    hide Root;
    hide Ancestors;
    hide Hops;
    hide OnDataRsp;
    HopsStep(up, hop.receiver, b);
  }

  lemma ArrivedEnd(up: Links, nodes: set<Id>, t: nat, hop: Hop, b: Id, ttl: nat, minVersion: int, fuel: nat)
    requires OnItsWay(up, nodes, hop, b, minVersion) && hop.receiver == b
    ensures Root(up, hop.receiver) == Root(up, b)
    ensures var w := TreeWorld(up, nodes, ttl, minVersion);
            Arrived(up, w, Follow(w, t, hop, fuel), hop, b)
  {
  }

  lemma ResponseGoesOn(up: Links, nodes: set<Id>, t: nat, hop: Hop, b: Id, ttl: nat, minVersion: int, fuel: nat)
    requires OnItsWay(up, nodes, hop, b, minVersion) && hop.receiver != b
    requires Root(up, hop.receiver) == Root(up, b) && fuel >= Hops(up, hop.receiver, b)
    ensures Root(up, Next(up, hop.receiver, b)) == Root(up, b)
    ensures fuel > 0 && fuel - 1 >= Hops(up, Next(up, hop.receiver, b), b)
    ensures var (w, next) := (TreeWorld(up, nodes, ttl, minVersion), NextResponse(up, hop, b));
            && OnItsWay(up, nodes, next, b, minVersion)
            && OnDataRsp(w(0, hop.receiver), hop.msg) == Effects(false, Some((next.receiver, next.msg)), None)
            && Follow(w, t, hop, fuel) == [hop] + Follow(w, t + 1, next, fuel - 1)
  {
    var n, w := hop.receiver, TreeWorld(up, nodes, ttl, minVersion);
    hide Root;
    hide Next;
    hide Hops;
    hide OnDataRsp;
    hide Follow;
    HopsStep(up, n, b);
    ResponseStep(up, nodes, hop, b, ttl, minVersion);
    WorldIs(up, nodes, ttl, minVersion, t, n);
    WorldIs(up, nodes, ttl, minVersion, 0, n);
    FollowGoesOn(w, t, hop, NextResponse(up, hop, b), fuel);
  }

  /** A response reaches its target over the path, once, however long one watches. */
  lemma {:induction false} TreeResponse(up: Links, nodes: set<Id>, t: nat, hop: Hop, b: Id, ttl: nat, minVersion: int, fuel: nat)
    requires OnItsWay(up, nodes, hop, b, minVersion)
    requires Root(up, hop.receiver) == Root(up, b) && fuel >= Hops(up, hop.receiver, b)
    ensures var w := TreeWorld(up, nodes, ttl, minVersion);
            Arrived(up, w, Follow(w, t, hop, fuel), hop, b)
    decreases fuel
  {
    var n, w := hop.receiver, TreeWorld(up, nodes, ttl, minVersion);
    hide *;
    if n != b {
      ResponseGoesOn(up, nodes, t, hop, b, ttl, minVersion, fuel);
      var next := NextResponse(up, hop, b);
      TreeResponse(up, nodes, t + 1, next, b, ttl, minVersion, fuel - 1);
      ArrivedStep(up, w, hop, next, Follow(w, t + 1, next, fuel - 1), b);
    } else {
      ArrivedEnd(up, nodes, t, hop, b, ttl, minVersion, fuel);
    }
  }

  lemma HopsStep(up: Links, a: Id, b: Id)
    requires Acyclic(up) && a != b && Root(up, a) == Root(up, b)
    ensures Hops(up, a, b) == Hops(up, Next(up, a, b), b) + 1
  {
    NextIsNearer(up, a, b);
  }

  lemma FollowGoesOn(w: World, t: nat, hop: Hop, next: Hop, fuel: nat)
    requires fuel > 0 && next.sender == hop.receiver
    requires OnDataRsp(w(t, hop.receiver), hop.msg).request == Some((next.receiver, next.msg))
    ensures Follow(w, t, hop, fuel) == [hop] + Follow(w, t + 1, next, fuel - 1)
  {
  }

  // ----- The routing theorem -----

  /** The first transmission of a send in the tree. */
  ghost function FirstHop(up: Links, a: Id, b: Id, version: int): (hop: Hop)
    requires Acyclic(up) && a != b && Root(up, a) == Root(up, b)
    ensures hop.receiver == Next(up, a, b) && |hop.msg.router| == 1 && !hop.msg.requireRsp
    ensures hop.msg.from == a && hop.msg.version == version
  {
    Hop(a, Next(up, a, b), Msg(version, false, Ok, a, a, b, [a], false))
  }

  lemma FirstHopOnItsWay(up: Links, nodes: set<Id>, a: Id, b: Id, ttl: nat, minVersion: int, version: int)
    requires Tree(up, nodes) && a in nodes && b in nodes && a != b && Root(up, a) == Root(up, b) && version >= minVersion
    ensures SendData(TreeWorld(up, nodes, ttl, minVersion)(0, a), b, false, false, version) == Some(FirstHop(up, a, b, version))
    ensures OnItsWay(up, nodes, FirstHop(up, a, b, version), b, minVersion) && OnWire(FirstHop(up, a, b, version))
  {
    TreeHop(up, nodes, a, b, [], ttl, minVersion);
  }

  /** Every transmission of the request of `a` for `b`. */
  ghost function RequestFlight(up: Links, nodes: set<Id>, a: Id, b: Id, ttl: nat, minVersion: int, version: int): (f: seq<Hop>)
    requires Acyclic(up) && a != b && Root(up, a) == Root(up, b)
    ensures f != []
  {
    TreeWorldProper(up, nodes, ttl, minVersion);
    Flight(TreeWorld(up, nodes, ttl, minVersion), ttl, 1, FirstHop(up, a, b, version))
  }

  lemma RequestFlightIs(up: Links, nodes: set<Id>, a: Id, b: Id, ttl: nat, minVersion: int, version: int)
    requires Acyclic(up) && a != b && Root(up, a) == Root(up, b) && Proper(TreeWorld(up, nodes, ttl, minVersion), ttl)
    ensures RequestFlight(up, nodes, a, b, ttl, minVersion, version) ==
            Flight(TreeWorld(up, nodes, ttl, minVersion), ttl, 1, FirstHop(up, a, b, version))
  {
  }

  /** The same, with the path counted from the sender. */
  ghost predicate Delivers(up: Links, w: World, f: seq<Hop>, a: Id, b: Id, ttl: nat, version: int)
    requires Acyclic(up) && Root(up, a) == Root(up, b)
  {
    f != [] && PassedOn(w, f) &&
    var (d, last) := (Hops(up, a, b), f[|f| - 1]);
    && (d <= ttl ==> |f| == d && last.receiver == b && Ending(w, f) == Effects(true, None, None))
    && (d > ttl ==>
          && |f| == ttl && last.receiver == Path(up, a, b)[ttl] && last.receiver != b
          && Ending(w, f) == Effects(false, None, Some(ResponseTo(w(0, last.receiver), last.msg, Ttl))))
    && last.msg.from == a && last.msg.to == b && last.msg.version == version
  }

  lemma EndsAtSender(up: Links, w: World, f: seq<Hop>, a: Id, b: Id, ttl: nat, first: Hop)
    requires Acyclic(up) && a != b && Root(up, a) == Root(up, b) && first.receiver == Next(up, a, b) && first.msg.from == a
    requires Root(up, first.receiver) == Root(up, b) && EndsRight(up, w, f, first.receiver, b, ttl, first.msg)
    ensures Delivers(up, w, f, a, b, ttl, first.msg.version)
  {
    hide Path;
    hide Hops;
    hide Root;
    hide Acyclic;
    hide Next;
    hide Ending;
    hide ResponseTo;
    hide PassedOn;
    PathStep(up, a, b, |f|);
    if Hops(up, a, b) > ttl {
      PathNotThereYet(up, a, b, ttl);
    }
  }

  /**
   A request without the response flag between two nodes of one tree at distance `d`
   is given to the target after exactly `d` transmissions if `d <= ttl`. Otherwise it is
   transmitted `ttl` times and given to nobody, and all that comes of it is one response
   at the node where its time was up.
   */
  lemma TreeDelivery(up: Links, nodes: set<Id>, a: Id, b: Id, ttl: nat, minVersion: int, version: int)
    requires Tree(up, nodes) && a in nodes && b in nodes && a != b && Root(up, a) == Root(up, b)
    requires ttl >= 1 && version >= minVersion
    ensures Distance(up, a, b, Hops(up, a, b))
    ensures SendData(TreeWorld(up, nodes, ttl, minVersion)(0, a), b, false, false, version) == Some(FirstHop(up, a, b, version))
    ensures Delivers(up, TreeWorld(up, nodes, ttl, minVersion), RequestFlight(up, nodes, a, b, ttl, minVersion, version),
                     a, b, ttl, version)
  {
    assert Acyclic(up);
    hide *;
    HopsIsDistance(up, a, b);
    TreeWorldProper(up, nodes, ttl, minVersion);
    FirstHopOnItsWay(up, nodes, a, b, ttl, minVersion, version);
    RequestFlightIs(up, nodes, a, b, ttl, minVersion, version);
    var (w, first) := (TreeWorld(up, nodes, ttl, minVersion), FirstHop(up, a, b, version));
    EndsWell(up, nodes, first, b, ttl, minVersion);
    EndsAtSender(up, w, Flight(w, ttl, 1, first), a, b, ttl, first);
  }

  /** The response `rsp` is sent at `refuser` and reaches `a` exactly once, over the distance between them. */
  ghost predicate ReturnsTo(up: Links, w: World, a: Id, refuser: Id, rsp: Msg, fuel: nat)
    requires Acyclic(up) && Root(up, refuser) == Root(up, a)
  {
    && SendCtrl(w(0, refuser), rsp.to).Sent?
    && var g := Follow(w, 0, Hop(refuser, SendCtrl(w(0, refuser), rsp.to).next, rsp), fuel);
       var last := g[|g| - 1];
       && |g| == Hops(up, refuser, a) && CarriedOn(w, g) && last.receiver == a
       && last.msg == rsp.(source := last.sender) && OnDataRsp(w(0, a), last.msg) == Effects(true, None, None)
  }

  lemma ArrivedReturns(up: Links, w: World, a: Id, refuser: Id, hop: Hop, fuel: nat)
    requires Acyclic(up) && Root(up, refuser) == Root(up, a) && Root(up, hop.receiver) == Root(up, a)
    requires hop.sender == refuser && SendCtrl(w(0, refuser), hop.msg.to) == Sent(hop.receiver)
    requires Hops(up, refuser, a) == Hops(up, hop.receiver, a) + 1
    requires Arrived(up, w, Follow(w, 0, hop, fuel), hop, a)
    ensures ReturnsTo(up, w, a, refuser, hop.msg, fuel)
  {
    hide SendCtrl;
    hide OnDataRsp;
    hide Follow;
    hide Root;
    hide Hops;
    hide Acyclic;
  }

  /**
   The time-to-live response to a request of `a`, made at any other node of the tree,
   gets back to `a`, with its error code.
   */
  lemma RefusalReturns(up: Links, nodes: set<Id>, a: Id, refuser: Id, m: Msg, ttl: nat, minVersion: int, fuel: nat)
    requires Tree(up, nodes) && a in nodes && refuser in nodes && a != refuser && Root(up, a) == Root(up, refuser)
    requires m.from == a && m.version >= minVersion && fuel >= Hops(up, refuser, a)
    ensures var w := TreeWorld(up, nodes, ttl, minVersion);
            var rsp := ResponseTo(w(0, refuser), m, Ttl);
            rsp.isRsp && rsp.result == Ttl && rsp.from == m.to && rsp.to == a && ReturnsTo(up, w, a, refuser, rsp, fuel)
  {
    var w := TreeWorld(up, nodes, ttl, minVersion);
    var rsp := ResponseTo(w(0, refuser), m, Ttl);
    assert rsp.isRsp && rsp.result == Ttl && rsp.from == m.to && rsp.to == a;
    assert Acyclic(up);
    hide *;
    var hop := Hop(refuser, Next(up, refuser, a), rsp);
    RefusalSent(up, nodes, a, refuser, m, ttl, minVersion);
    HopsStep(up, refuser, a);
    TreeResponse(up, nodes, 0, hop, a, ttl, minVersion, fuel);
    ArrivedReturns(up, w, a, refuser, hop, fuel);
  }

  lemma RefusalSent(up: Links, nodes: set<Id>, a: Id, refuser: Id, m: Msg, ttl: nat, minVersion: int)
    requires Tree(up, nodes) && a in nodes && refuser in nodes && a != refuser && Root(up, a) == Root(up, refuser)
    requires m.from == a && m.version >= minVersion
    ensures var w := TreeWorld(up, nodes, ttl, minVersion);
            var rsp := ResponseTo(w(0, refuser), m, Ttl);
            && SendCtrl(w(0, refuser), a) == Sent(Next(up, refuser, a))
            && OnItsWay(up, nodes, Hop(refuser, Next(up, refuser, a), rsp), a, minVersion)
  {
    TreeHop(up, nodes, refuser, a, [], ttl, minVersion);
    hide Root;
    hide Next;
    hide Ancestors;
    hide ChooseHop;
  }

  lemma NextInNodes(up: Links, nodes: set<Id>, a: Id, b: Id)
    requires Tree(up, nodes) && a in nodes && b in nodes && a != b && Root(up, a) == Root(up, b)
    ensures Next(up, a, b) in nodes
  {
  }

  lemma {:induction false} PathInNodes(up: Links, nodes: set<Id>, a: Id, b: Id, i: nat)
    requires Tree(up, nodes) && a in nodes && b in nodes && Root(up, a) == Root(up, b) && i <= Hops(up, a, b)
    ensures Path(up, a, b)[i] in nodes && Root(up, Path(up, a, b)[i]) == Root(up, b)
    decreases i
  {
    HopsZero(up, b);
    hide *;
    if i > 0 {
      PathStep(up, a, b, i);
      NextInNodes(up, nodes, a, b);
      PathInNodes(up, nodes, Next(up, a, b), b, i - 1);
    }
  }

  lemma {:induction false} PathLeavesStart(up: Links, a: Id, b: Id, i: nat)
    requires Acyclic(up) && Root(up, a) == Root(up, b) && i <= Hops(up, a, b)
    ensures Root(up, Path(up, a, b)[i]) == Root(up, b) && Hops(up, Path(up, a, b)[i], b) == Hops(up, a, b) - i
    decreases i
  {
    HopsZero(up, b);
    hide *;
    if i > 0 {
      PathStep(up, a, b, i);
      PathLeavesStart(up, Next(up, a, b), b, i - 1);
    }
  }

  /** The request came to nothing but one response, the error, which gets back to the sender. */
  ghost predicate Refused(up: Links, w: World, f: seq<Hop>, a: Id, b: Id, ttl: nat)
    requires Acyclic(up) && Root(up, a) == Root(up, b) && ttl <= Hops(up, a, b) && f != []
  {
    var (refuser, e) := (Path(up, a, b)[ttl], Ending(w, f));
    && PassedOn(w, f) && !e.delivered && e.request.None? && e.response.Some? && Root(up, refuser) == Root(up, a)
    && var rsp := e.response.value;
       rsp.isRsp && rsp.result == Ttl && rsp.from == b && ReturnsTo(up, w, a, refuser, rsp, Hops(up, refuser, a))
  }

  lemma RefusedWhenLate(up: Links, w: World, f: seq<Hop>, a: Id, b: Id, ttl: nat, version: int)
    requires Acyclic(up) && Root(up, a) == Root(up, b) && ttl < Hops(up, a, b) && Delivers(up, w, f, a, b, ttl, version)
    requires var refuser := Path(up, a, b)[ttl];
             && Root(up, refuser) == Root(up, a)
             && var rsp := ResponseTo(w(0, refuser), f[|f| - 1].msg, Ttl);
                && rsp.isRsp && rsp.result == Ttl && rsp.from == b
                && ReturnsTo(up, w, a, refuser, rsp, Hops(up, refuser, a))
    ensures Refused(up, w, f, a, b, ttl)
  {
    hide Path;
    hide Hops;
    hide Root;
    hide Acyclic;
    hide Ending;
    hide ResponseTo;
    hide ReturnsTo;
    hide PassedOn;
  }

  /** Out of reach of `ttl`, the sender gets exactly one response, the error. */
  lemma TreeRefusal(up: Links, nodes: set<Id>, a: Id, b: Id, ttl: nat, minVersion: int, version: int)
    requires Tree(up, nodes) && a in nodes && b in nodes && a != b && Root(up, a) == Root(up, b)
    requires 1 <= ttl < Hops(up, a, b) && version >= minVersion
    ensures Refused(up, TreeWorld(up, nodes, ttl, minVersion), RequestFlight(up, nodes, a, b, ttl, minVersion, version), a, b, ttl)
  {
    assert Acyclic(up);
    hide *;
    var (w, f) := (TreeWorld(up, nodes, ttl, minVersion), RequestFlight(up, nodes, a, b, ttl, minVersion, version));
    var refuser := Path(up, a, b)[ttl];
    TreeDelivery(up, nodes, a, b, ttl, minVersion, version);
    PathInNodes(up, nodes, a, b, ttl);
    PathNotThereYet(up, a, b, ttl);
    PathLeavesStart(up, a, b, ttl);
    PathNotBack(up, a, b, ttl);
    LateMessage(up, w, f, a, b, ttl, version);
    RefusalReturns(up, nodes, a, refuser, f[|f| - 1].msg, ttl, minVersion, Hops(up, refuser, a));
    RefusedWhenLate(up, w, f, a, b, ttl, version);
  }

  lemma LateMessage(up: Links, w: World, f: seq<Hop>, a: Id, b: Id, ttl: nat, version: int)
    requires Acyclic(up) && Root(up, a) == Root(up, b) && Delivers(up, w, f, a, b, ttl, version)
    ensures f != [] && f[|f| - 1].msg.from == a && f[|f| - 1].msg.to == b && f[|f| - 1].msg.version == version
  {
  }

  /** The path does not return to its start. */
  lemma PathNotBack(up: Links, a: Id, b: Id, i: nat)
    requires Acyclic(up) && Root(up, a) == Root(up, b) && 0 < i <= Hops(up, a, b)
    ensures Path(up, a, b)[i] != a
  {
    hide *;
    PathLeavesStart(up, a, b, i);
  }
}
