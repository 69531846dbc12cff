/**
 Which updates the registry refuses, and runs on new registries that show what
 deregistered peers do to updates and removals.
 */
module RegistryRuns {
  import opened Forest
  import opened Topology
  import opened TopologyRegistry
  import opened Wrappers

  // ----- Which updates are refused -----

  /** Linking `target` below `upstreamId` would close a cycle among the registered peers' links. */
  ghost predicate ClosesCycle(s: Snapshot, target: BusId, upstreamId: BusId) {
    target in s.data && upstreamId in s.data && !Acyclic(s.up[s.data[target] := s.data[upstreamId]])
  }

  /** A deregistered peer with this id is above `u`. */
  ghost predicate NamesakeAbove(s: Snapshot, id: BusId, u: Peer)
    requires s.Valid()
  {
    exists a :: a in Ancestors(s.up, u) && a.busId == id && !s.Registered(a)
  }

  ghost predicate RefusedInVain(s: Snapshot, target: BusId, upstreamId: BusId)
    requires s.Valid()
  {
    target != 0 && target != upstreamId && !Accepted(s, target, upstreamId) && !ClosesCycle(s, target, upstreamId)
  }

  lemma CycleIff(up: map<Peer, Peer>, p: Peer, u: Peer)
    requires Acyclic(up)
    ensures Acyclic(up[p := u]) <==> p != u && p !in Ancestors(up, u)
  {
    if p != u && p !in Ancestors(up, u) {
      RelinkAcyclic(up, p, u);
    } else {
      RelinkCyclic(up, p, u);
    }
  }

  /** The walk by ids finds the target itself, or a deregistered namesake. */
  lemma OnPathIff(s: Snapshot, p: Peer, u: Peer)
    requires s.Valid() && s.Registered(p) && s.Registered(u)
    ensures s.OnPath(p.busId, u) <==> p == u || p in Ancestors(s.up, u) || NamesakeAbove(s, p.busId, u)
  {
    hide s.PointsBack;
    hide s.Successors;
    hide s.Retired;
    hide Ancestors;
  }

  /** Where only registered peers are above the new upstream, the walk finds just the target. */
  lemma OnPathRegistered(s: Snapshot, p: Peer, u: Peer)
    requires s.Valid() && s.Registered(p) && s.Registered(u) && RegisteredAbove(s, u)
    ensures s.OnPath(p.busId, u) <==> p == u || p in Ancestors(s.up, u)
  {
    OnPathIff(s, p, u);
  }

  lemma AcceptedIs(s: Snapshot, target: BusId, upstreamId: BusId)
    requires s.Valid() && target in s.data && upstreamId in s.data && target != 0 && target != upstreamId
    ensures var (p, u) := (s.data[target], s.data[upstreamId]);
            && p != u && s.Registered(p) && s.Registered(u) && p.busId == target
            && (Accepted(s, target, upstreamId) <==> Linked(s, p, u) || !s.OnPath(target, u))
  {
  }

  lemma LinkedBelow(s: Snapshot, p: Peer, u: Peer)
    requires s.Valid() && Linked(s, p, u)
    ensures p !in Ancestors(s.up, u) && p != u
  {
    RankUp(s.up, p);
    if p in Ancestors(s.up, u) {
      AncestorRank(s.up, u, p);
    }
  }

  /**
   Which moves are refused although they would close no cycle: exactly those of a
   registered target below a registered peer that it is not linked to and not above,
   but that has a deregistered peer with the target's id above it.
   */
  lemma RefusedInVainIff(s: Snapshot, target: BusId, upstreamId: BusId)
    requires s.Valid()
    ensures RefusedInVain(s, target, upstreamId) <==>
            && target != 0 && target != upstreamId && target in s.data && upstreamId in s.data
            && var (p, u) := (s.data[target], s.data[upstreamId]);
               !Linked(s, p, u) && p !in Ancestors(s.up, u) && NamesakeAbove(s, target, u)
  {
    if target != 0 && target != upstreamId && target in s.data && upstreamId in s.data {
      var (p, u) := (s.data[target], s.data[upstreamId]);
      AcceptedIs(s, target, upstreamId);
      OnPathIff(s, p, u);
      CycleIff(s.up, p, u);
    }
  }

  /** And a move that would close a cycle is always refused. */
  lemma CyclesRefused(s: Snapshot, target: BusId, upstreamId: BusId)
    requires s.Valid() && ClosesCycle(s, target, upstreamId)
    ensures !Accepted(s, target, upstreamId)
  {
    if target != 0 && target != upstreamId {
      var (p, u) := (s.data[target], s.data[upstreamId]);
      AcceptedIs(s, target, upstreamId);
      OnPathIff(s, p, u);
      CycleIff(s.up, p, u);
      if Linked(s, p, u) {
        LinkedBelow(s, p, u);
      }
    }
  }

  /** Where links and lists agree, as updates alone keep them, refusal is exact. */
  lemma ListedRefusal(s: Snapshot, target: BusId, upstreamId: BusId)
    requires s.Valid() && s.Listed()
    ensures !Accepted(s, target, upstreamId) <==>
            target == 0 || target == upstreamId || ClosesCycle(s, target, upstreamId)
  {
    if target != 0 && target != upstreamId {
      RefusedInVainIff(s, target, upstreamId);
      if ClosesCycle(s, target, upstreamId) {
        CyclesRefused(s, target, upstreamId);
      }
      if upstreamId in s.data {
        ListedAbove(s, s.data[upstreamId]);
      }
    }
  }

  /** Whether an update is refused for a reason, and what an accepted one does. */
  ghost predicate Exact(s: Snapshot, t: Snapshot, target: BusId, upstreamId: BusId, ok: bool) {
    && (!ok <==> target == 0 || target == upstreamId || ClosesCycle(s, target, upstreamId))
    && (ok ==> Updated(s, t, target, upstreamId))
  }

  /**
   Any updates on a new registry: each is refused exactly if its target is zero, is its
   own upstream, or would end up at or below itself.
   */
  method UpdateRun(updates: seq<(BusId, BusId)>) returns (r: Registry, accepted: seq<bool>, ghost states: seq<Snapshot>)
    ensures r.Valid() && |accepted| == |updates| && |states| == |updates| + 1 && states[0] == EMPTY && states[|updates|] == r.state
    ensures forall i :: 0 <= i < |updates| ==>
              Exact(states[i], states[i + 1], updates[i].0, updates[i].1, accepted[i])
  {
    r := new Registry();
    EmptyListed();
    hide *;
    Seen(r);
    accepted, states := [], [r.state];
    for i := 0 to |updates|
      invariant r.Valid() && r.state.Valid() && r.state.Consistent() && r.state.Listed() && fresh(r) && forall p :: p in r.state.peers ==> fresh(p)
      invariant |accepted| == i && |states| == i + 1 && states[0] == EMPTY && states[i] == r.state
      invariant forall j :: 0 <= j < i ==> Exact(states[j], states[j + 1], updates[j].0, updates[j].1, accepted[j])
    {
      var ok := UpdateOne(r, updates[i].0, updates[i].1);
      accepted, states := accepted + [ok], states + [r.state];
    }
  }

  method UpdateOne(r: Registry, target: BusId, upstreamId: BusId) returns (ok: bool)
    requires r.Valid() && r.state.Valid() && r.state.Listed()
    modifies r, r.state.peers
    ensures r.Valid() && r.state.Valid() && r.state.Consistent() && r.state.Listed()
    ensures forall p :: p in r.state.peers && p !in old(r.state.peers) ==> fresh(p)
    ensures Exact(old(r.state), r.state, target, upstreamId, ok)
  {
    ghost var s := r.state;
    hide Snapshot.Valid;
    hide Snapshot.Listed;
    hide Accepted;
    hide Updated;
    hide StoredWith;
    hide Exact;
    ok := r.UpdatePeer(target, upstreamId, None);
    DataIs(r);
    IsExact(s, r.state, target, upstreamId, ok);
    if ok {
      NewPeersOnly(s, r.state, target, upstreamId);
    }
  }

  lemma IsExact(s: Snapshot, t: Snapshot, target: BusId, upstreamId: BusId, ok: bool)
    requires s.Valid() && s.Listed() && ok == Accepted(s, target, upstreamId)
    requires ok ==> Updated(s, t, target, upstreamId)
    ensures Exact(s, t, target, upstreamId, ok)
  {
    hide Accepted;
    hide Updated;
    hide ClosesCycle;
    ListedRefusal(s, target, upstreamId);
  }

  lemma NewPeersOnly(s: Snapshot, t: Snapshot, target: BusId, upstreamId: BusId)
    requires s.Valid() && t.Valid() && Updated(s, t, target, upstreamId)
    ensures target in t.data && (upstreamId != 0 ==> upstreamId in t.data)
    ensures forall p :: p in t.peers && p !in s.peers ==>
              (target !in s.data && p == t.data[target]) || (upstreamId != 0 && upstreamId !in s.data && p == t.data[upstreamId])
  {
    assert s.Consistent();
  }

  // ----- A run in which a removal takes an unrelated peer -----

  /**
   Peer 1 is registered because 2 is put below it, and deregistered when 2 is removed.
   Peer 2 stays, having 3 below it, and stays linked to the old peer 1. A new peer 1,
   asked for and unrelated to 2, goes when 2 is removed again.
   */
  method RemovalTakesTaker() returns (asked: bool, relation: Relation, stays: bool)
    ensures asked && relation == OtherUpstreamPeer && !stays
  {
    var r := RetakenRegistry();
    hide *;
    Seen(r);
    asked := r.data[1].proactive;
    var hop;
    relation, hop := r.GetRelation(2, 1);
    r.RemovePeer(2);
    Seen(r);
    stays := 1 in r.data;
  }

  /**
   In the same state peer 1 cannot be put below peer 2: refused, though the two are
   unrelated and the link would close no cycle.
   */
  method RefusedForNamesake() returns (r: Registry, relation: Relation, ok: bool)
    ensures r.Valid() && relation == OtherUpstreamPeer && !ok
    ensures 1 in r.data && 2 in r.data && Acyclic<Peer>(r.state.up[r.data[1] := r.data[2]])
  {
    hide *;
    r := RetakenRegistry();
    Seen(r);
    InVainMeans(r.state, 1, 2);
    var hop;
    relation, hop := r.GetRelation(2, 1);
    ok := r.UpdatePeer(1, 2, None);
    Seen(r);
  }

  lemma InVainMeans(s: Snapshot, target: BusId, upstreamId: BusId)
    requires s.Valid() && RefusedInVain(s, target, upstreamId) && target in s.data && upstreamId in s.data
    ensures !Accepted(s, target, upstreamId) && Acyclic<Peer>(s.up[s.data[target] := s.data[upstreamId]])
  {
    hide Accepted;
    hide Acyclic;
  }

  method RetakenRegistry() returns (r: Registry)
    ensures fresh(r) && r.Valid() && fresh(r.state.peers)
    ensures var s := r.state;
            && 1 in s.data && 2 in s.data && s.data[1] in s.proactive && s.data[1] in s.peers
            && Relate<Peer>(s.up, s.data[2], s.data[1]).0 == OtherUpstreamPeer
            && 1 !in Remove(s, 2).data && RefusedInVain(s, 1, 2)
  {
    hide *;
    r := ChainRegistry();
    ghost var s := r.state;
    ChainLosesTop(s);
    r.RemovePeer(2);
    ghost var t := r.state;
    AddRoot(r);
    Seen(r);
    Retaken(s, t, r.state);
  }

  /** Registers a new peer 1 at the top. */
  method AddRoot(r: Registry)
    requires r.Valid() && 1 !in r.state.data
    modifies r, r.state.peers
    ensures r.Valid() && Updated(old(r.state), r.state, 1, 0)
    ensures 1 in r.state.data && fresh(r.state.data[1]) && r.state.peers == old(r.state.peers) + {r.state.data[1]}
  {
    Seen(r);
    AcceptsNew(r.state, 1, 0);
    hide Accepted;
    hide Snapshot.Valid;
    var ok := r.UpdatePeer(1, 0, None);
    Seen(r);
  }

  /** Registers 2 below a new 1, then 3 below 2. */
  method ChainRegistry() returns (r: Registry)
    ensures fresh(r) && r.Valid() && fresh(r.state.peers) && Chain(r.state)
  {
    r := new Registry();
    EmptyListed();
    hide *;
    AddNew(r, 2, 1);
    ghost var s := r.state;
    FirstKeys(s);
    AddNew(r, 3, 2);
    Seen(r);
    ChainFromUpdates(s, r.state);
  }

  method AddNew(r: Registry, target: BusId, upstreamId: BusId)
    requires r.Valid() && target !in r.state.data && target != 0 && upstreamId != 0 && target != upstreamId
    modifies r, r.state.peers
    ensures r.Valid() && Updated(old(r.state), r.state, target, upstreamId) && (old(r.state).Listed() ==> r.state.Listed())
    ensures forall p :: p in r.state.peers && p !in old(r.state.peers) ==> fresh(p)
  {
    Seen(r);
    KnownIds(r.state, upstreamId);
    AcceptsNew(r.state, target, upstreamId);
    hide Accepted;
    hide Snapshot.Valid;
    var ok := r.UpdatePeer(target, upstreamId, None);
    Seen(r);
  }

  lemma FirstKeys(s: Snapshot)
    requires Updated(EMPTY, s, 2, 1)
    ensures s.data.Keys == {1, 2}
  {
  }

  /** Peer 3 below 2 below the passive 1. */
  ghost predicate Chain(s: Snapshot) {
    && s.Valid() && s.data.Keys == {1, 2, 3} && s.up == map[s.data[2] := s.data[1], s.data[3] := s.data[2]]
    && s.data[1] !in s.proactive && s.down[s.data[2]] != map[]
    && (forall id :: id in s.down[s.data[1]] ==> id == 2)
  }

  // ----- The states of that run -----

  lemma EmptyListed()
    ensures EMPTY.Valid() && EMPTY.Listed() && EMPTY.data == map[] && EMPTY.peers == {}
  {
  }

  lemma ChainLinks(s: Snapshot, t: Snapshot)
    requires Updated(EMPTY, s, 2, 1) && Updated(s, t, 3, 2) && t.Consistent()
    ensures t.data.Keys == {1, 2, 3} && t.up == map[t.data[2] := t.data[1], t.data[3] := t.data[2]]
    ensures t.data[1] !in t.proactive && t.data[3].busId == 3 && t.data[2].busId == 2 && t.data[1].busId == 1
  {
    assert t.data[1] == s.data[1] && t.data[2] == s.data[2];
    assert t.data[1].busId == 1 && t.data[2].busId == 2 && t.data[3].busId == 3;
  }

  lemma ChainFromUpdates(s: Snapshot, t: Snapshot)
    requires t.Valid() && t.Listed() && Updated(EMPTY, s, 2, 1) && Updated(s, t, 3, 2)
    ensures Chain(t)
  {
    assert t.Consistent();
    ChainLinks(s, t);
    assert t.data[2] in t.peers && t.data[1] in t.peers && t.Registered(t.data[3]);
    assert 3 in t.down[t.data[2]];
    forall id | id in t.down[t.data[1]] ensures id == 2 {
      ListedOnce(t, t.data[1], id);
    }
  }

  lemma ChainLosesTop(s: Snapshot)
    requires Chain(s)
    ensures var t := Remove(s, 2);
            t.Valid() && t.data == s.data - {1} && t.up == s.up && 1 !in t.data && t.peers == s.peers
            && s.data[1] in t.peers && s.data[2] in t.peers && s.data[3] in t.peers
  {
    var (p, top) := (s.data[2], s.data[1]);
    DropValid(s, p);
    assert p != top && s.up[p] == top && p.busId == 2 && top.busId == 1;
    assert top !in s.up && top in s.peers && p in s.peers && s.data[3] in s.peers;
    ChainDrops(s);
    hide Snapshot.Valid;
    assert Remove(s, 2) == Remove(Drop(s, p), 1);
    TopDrops(Drop(s, p), top);
  }

  lemma ChainDrops(s: Snapshot)
    requires Chain(s)
    ensures var (p, top, t) := (s.data[2], s.data[1], Drop(s, s.data[2]));
            t.down[top] == map[] && t.data == s.data && t.up == s.up && t.peers == s.peers && Cascades(s, p)
  {
  }

  lemma TopDrops(s: Snapshot, top: Peer)
    requires s.Valid() && s.Registered(top) && s.down[top] == map[] && top !in s.up
    ensures var t := Remove(s, top.busId); t.data == s.data - {top.busId} && t.up == s.up && t.peers == s.peers
  {
    hide Snapshot.Valid;
  }

  /** The chain `s` without its top, `t`, and that with a new peer 1, `u`. */
  lemma Retaken(s: Snapshot, t: Snapshot, u: Snapshot)
    requires Chain(s) && t.data == s.data - {1} && t.up == s.up && s.data[1] in t.peers
    requires u.Valid() && Updated(t, u, 1, 0) && u.data[1] !in t.peers && s.data[2] in t.peers && s.data[3] in t.peers
    ensures 1 in u.data && 2 in u.data && u.data[1] in u.proactive && u.data[1] in u.peers
    ensures Relate<Peer>(u.up, u.data[2], u.data[1]).0 == OtherUpstreamPeer
    ensures 1 !in Remove(u, 2).data && RefusedInVain(u, 1, 2)
  {
    RetakenLinks(s, t, u);
    assert u.data[1] in u.proactive && u.Consistent();
    hide Updated;
    hide Snapshot.Valid;
    hide Chain;
    OldPeerApart(u, s.data[1], s.data[3]);
    OldPeerAbove(u, s.data[1], s.data[3]);
    OldPeerRefuses(u, s.data[1], s.data[3]);
  }

  lemma RetakenLinks(s: Snapshot, t: Snapshot, u: Snapshot)
    requires Chain(s) && t.data == s.data - {1} && t.up == s.up && s.data[1] in t.peers
    requires u.Valid() && Updated(t, u, 1, 0) && u.data[1] !in t.peers && s.data[2] in t.peers && s.data[3] in t.peers
    ensures Stale(u, s.data[1], s.data[3])
  {
    ChainIds(s);
    hide Chain;
    hide Snapshot.Valid;
    RootUpdated(t, u, 2);
    hide Updated;
  }

  /** A new root leaves the other registered peers and all links as they were. */
  lemma RootUpdated(t: Snapshot, u: Snapshot, other: BusId)
    requires Updated(t, u, 1, 0) && other in t.data && u.data[1] !in t.up
    ensures other in u.data && 1 in u.data && u.data[other] == t.data[other] && u.up == t.up
  {
  }

  lemma ChainIds(s: Snapshot)
    requires Chain(s)
    ensures 1 in s.data && 2 in s.data && 3 in s.data && s.data[1].busId == 1 && s.data[3].busId == 3
    ensures s.up == map[s.data[2] := s.data[1], s.data[3] := s.data[2]]
  {
    assert s.Consistent();
    hide s.PointsBack;
    hide s.Successors;
    hide s.Retired;
    hide Acyclic;
  }

  /** Peer `c` below 2 below the old peer 1, and a new peer 1. */
  ghost predicate Stale(s: Snapshot, old1: Peer, c: Peer) {
    && s.Valid() && 1 in s.data && 2 in s.data && s.up == map[s.data[2] := old1, c := s.data[2]]
    && old1.busId == 1 && c.busId == 3 && old1 != s.data[1]
  }

  lemma OldPeerAbove(s: Snapshot, old1: Peer, c: Peer)
    requires Stale(s, old1, c)
    ensures 1 !in Remove(s, 2).data
  {
    OldPeerCascades(s, old1, c);
    var p := s.data[2];
    DropValid(s, p);
    assert p in s.up && s.up[p].busId == 1;
    hide Snapshot.Valid;
    hide Drop;
    RemoveTarget(Drop(s, p), 1);
  }

  lemma OldPeerApart(s: Snapshot, old1: Peer, c: Peer)
    requires Stale(s, old1, c)
    ensures Relate<Peer>(s.up, s.data[2], s.data[1]).0 == OtherUpstreamPeer
  {
    var up := s.up;
    assert s.data[2].busId == 2 && s.data[1].busId == 1;
    assert Acyclic(up);
    hide Snapshot.Valid;
    AncestorsUp(up, s.data[2]);
    assert Ancestors(up, old1) == [];
    assert Ancestors(up, s.data[1]) == [];
  }

  lemma OldPeerCascades(s: Snapshot, old1: Peer, c: Peer)
    requires Stale(s, old1, c)
    ensures Cascades(s, s.data[2]) && s.data[2].busId == 2
    ensures var u := Drop(s, s.data[2]); 1 in u.data && u.data[1] == s.data[1] && u.down[s.data[1]] == map[]
  {
    var (p, taker) := (s.data[2], s.data[1]);
    assert s.Consistent() && s.Retired();
    assert p.busId == 2;
    assert p in s.up && s.up[p] == old1;
    assert old1 in s.down && taker in s.down && !s.Registered(old1);
    forall id | id in s.down[taker] ensures false {
      ListedOnce(s, taker, id);
    }
    assert s.down[old1] == map[] && old1 !in s.proactive && s.down[taker] == map[];
    hide Snapshot.Valid;
    hide Stale;
  }

  lemma OldPeerRefuses(s: Snapshot, old1: Peer, c: Peer)
    requires Stale(s, old1, c)
    ensures RefusedInVain(s, 1, 2)
  {
    var (p, taker) := (s.data[2], s.data[1]);
    assert p.busId == 2 && taker.busId == 1 && p in s.up && s.up[p] == old1;
    OldPeerApart(s, old1, c);
    RelateExact<Peer>(s.up, p, taker, OtherUpstreamPeer);
    AncestorsUp(s.up, p);
    assert old1 in Ancestors(s.up, p) && !s.Registered(old1);
    assert taker !in s.up;
    RefusedInVainIff(s, 1, 2);
  }
}
