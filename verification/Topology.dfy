/**
 The states of the topology registry as values: which peers are registered, who links
 to whom, who lists whom below it. Peers that have been deregistered can still be
 linked to, and their ids can be registered again; the invariant below holds in every
 state that updates and removals can reach.
 */
module Topology {
  import opened Forest
  import opened Wrappers

  type BusId = nat

  datatype TopologyData = TopologyData(pid: int, hostname: string, labels: map<string, string>)

  const BLANK := TopologyData(0, "", map[])

  class Peer {
    const busId: BusId
    /** Creation order. */
    ghost const serial: nat
    var proactive: bool
    var upstream: Peer?
    var downstream: map<BusId, Peer>
    var topologyData: TopologyData

    constructor (busId: BusId, ghost serial: nat)
      ensures this.busId == busId && this.serial == serial
      ensures !proactive && upstream == null && downstream == map[] && topologyData == BLANK
    {
      this.busId, this.serial := busId, serial;
      proactive, upstream, downstream := false, null, map[];
      topologyData := BLANK;
    }

    method AddDownstream(child: Peer)
      modifies this`downstream
      ensures downstream == old(downstream)[child.busId := child]
    {
      downstream := downstream[child.busId := child];
    }

    /** Drops the entry for `id` if it is `check`. */
    method RemoveDownstream(id: BusId, check: Peer)
      modifies this`downstream
      ensures downstream == Without(old(downstream), id, check)
    {
      if id in downstream && downstream[id] == check {
        downstream := downstream - {id};
      }
    }
  }

  function Without(down: map<BusId, Peer>, id: BusId, p: Peer): map<BusId, Peer> {
    if id in down && down[id] == p then down - {id} else down
  }

  /** `peers` are all peers ever created, registered or not. */
  datatype Snapshot = Snapshot(
    data: map<BusId, Peer>,
    peers: set<Peer>,
    up: map<Peer, Peer>,
    down: map<Peer, map<BusId, Peer>>,
    proactive: set<Peer>,
    created: nat)
  {
    ghost predicate Registered(p: Peer) {
      p.busId in data && data[p.busId] == p
    }

    ghost predicate Consistent() {
      && (forall id :: id in data ==> id != 0 && data[id] in peers && data[id].busId == id)
      && (forall p :: p in up ==> p in peers && up[p] in peers)
      && (forall p :: p in peers ==> p.busId != 0 && p.serial < created)
      && down.Keys == peers && proactive <= peers
    }

    /** Every downstream entry is a registered peer whose upstream link points back. */
    ghost predicate PointsBack() {
      forall p, id :: p in down && id in down[p] ==>
        id in data && down[p][id] == data[id] && data[id] in up && up[data[id]] == p
    }

    /** A peer that took over the id of someone's upstream is younger than that someone. */
    ghost predicate Successors() {
      forall p :: p in up && up[p].busId in data && data[up[p].busId] != up[p] ==>
        p.serial < data[up[p].busId].serial
    }

    /** Nothing hangs below a peer that is not registered, and nobody asks for it. */
    ghost predicate Retired() {
      forall p :: p in down && !Registered(p) ==> down[p] == map[] && p !in proactive
    }

    ghost predicate Valid() {
      Consistent() && PointsBack() && Successors() && Retired() && Acyclic(up)
    }

    /** The other half of the inverse: registered peers are listed by their upstream. */
    ghost predicate Listed()
      requires Consistent()
    {
      forall p :: p in up && Registered(p) ==> p.busId in down[up[p]] && down[up[p]][p.busId] == p
    }

    /** Some peer with this id is `u` or above it. */
    ghost predicate OnPath(id: BusId, u: Peer)
      requires Valid()
    {
      u.busId == id || exists a :: a in Ancestors(up, u) && a.busId == id
    }
  }

  /** Only its own upstream lists a peer, under its own id. */
  lemma ListedOnce(s: Snapshot, q: Peer, id: BusId)
    requires s.Valid() && q in s.down && id in s.down[q]
    ensures var p := s.down[q][id]; id in s.data && s.data[id] == p && p.busId == id && p in s.up && s.up[p] == q
  {
    assert s.PointsBack() && s.Consistent();
  }

  ghost const EMPTY: Snapshot := Snapshot(map[], {}, map[], map[], {}, 0)

  // ----- The elementary changes -----

  ghost function Register(s: Snapshot, p: Peer): Snapshot {
    s.(data := s.data[p.busId := p], peers := s.peers + {p}, down := s.down[p := map[]], created := s.created + 1)
  }

  ghost function Unlist(s: Snapshot, p: Peer): Snapshot
    requires p in s.up ==> s.up[p] in s.down
  {
    if p in s.up then s.(down := s.down[s.up[p] := Without(s.down[s.up[p]], p.busId, p)]) else s
  }

  ghost function Detach(s: Snapshot, p: Peer): Snapshot
    requires p in s.up ==> s.up[p] in s.down
  {
    Unlist(s, p).(up := s.up - {p})
  }

  ghost function Attach(s: Snapshot, p: Peer, u: Peer): Snapshot
    requires (p in s.up ==> s.up[p] in s.down) && u in s.down
  {
    var t := Unlist(s, p);
    var listed: map<BusId, Peer> := t.down[u];
    t.(up := s.up[p := u], down := t.down[u := listed[p.busId := p]])
  }

  lemma RegisterPointsBack(s: Snapshot, p: Peer)
    requires s.Valid() && p !in s.peers && p.busId != 0 && p.busId !in s.data && p.serial == s.created
    ensures Register(s, p).Consistent() && Register(s, p).PointsBack()
  {
    hide Acyclic;
    hide s.Successors;
    hide s.Retired;
    assert Register(s, p).Consistent();
  }

  lemma RegisterSuccessors(s: Snapshot, p: Peer)
    requires s.Valid() && p !in s.peers && p.busId != 0 && p.busId !in s.data && p.serial == s.created
    ensures Register(s, p).Successors() && Register(s, p).Retired()
  {
    hide Acyclic;
  }

  lemma RegisterListed(s: Snapshot, p: Peer)
    requires s.Valid() && p !in s.peers && p.busId != 0 && p.busId !in s.data && p.serial == s.created
    requires s.Listed()
    ensures Register(s, p).Consistent() && Register(s, p).Listed()
  {
    hide Acyclic;
    RegisterPointsBack(s, p);
  }

  lemma RegisterValid(s: Snapshot, p: Peer)
    requires s.Valid() && p !in s.peers && p.busId != 0 && p.busId !in s.data && p.serial == s.created
    ensures Register(s, p).Valid()
    ensures s.Listed() ==> Register(s, p).Listed()
  {
    hide s.Listed;
    hide s.Successors;
    hide s.Retired;
    hide s.PointsBack;
    hide s.Consistent;
    RegisterPointsBack(s, p);
    RegisterSuccessors(s, p);
    if s.Listed() {
      RegisterListed(s, p);
    }
  }

  /** After unlisting nobody lists `p`, and nothing else has changed hands. */
  lemma Unlisted(s: Snapshot, p: Peer, q: Peer, id: BusId)
    requires s.Valid() && s.Registered(p) && q in Unlist(s, p).down && id in Unlist(s, p).down[q]
    ensures q in s.down && id in s.down[q] && Unlist(s, p).down[q][id] == s.down[q][id] && s.down[q][id] != p
  {
    assert id in s.down[q] && s.data[id].busId == id && s.up[s.down[q][id]] == q;
  }

  lemma UnlistPointsBack(s: Snapshot, p: Peer)
    requires s.Valid() && s.Registered(p)
    ensures var t := Unlist(s, p);
            forall q, id :: q in t.down && id in t.down[q] ==>
              id in s.data && t.down[q][id] == s.data[id] && s.data[id] != p && s.data[id] in s.up && s.up[s.data[id]] == q
  {
    assert p in s.up ==> s.up[p] in s.down;
    hide *;
    var t := Unlist(s, p);
    forall q, id | q in t.down && id in t.down[q]
      ensures id in s.data && t.down[q][id] == s.data[id] && s.data[id] != p && s.data[id] in s.up && s.up[s.data[id]] == q
    {
      Unlisted(s, p, q, id);
      UnlistedEntry(s, p, q, id);
    }
  }

  lemma UnlistedEntry(s: Snapshot, p: Peer, q: Peer, id: BusId)
    requires s.Valid() && s.Registered(p) && q in Unlist(s, p).down && id in Unlist(s, p).down[q]
    requires q in s.down && id in s.down[q]
    ensures id in s.data && s.down[q][id] == s.data[id] && s.data[id] in s.up && s.up[s.data[id]] == q
  {
    ListedOnce(s, q, id);
  }

  lemma UnlistListed(s: Snapshot, p: Peer)
    requires s.Valid() && s.Registered(p) && s.Listed()
    ensures var t := Unlist(s, p);
            forall q :: q in s.up && s.Registered(q) && q != p ==>
              q.busId in t.down[s.up[q]] && t.down[s.up[q]][q.busId] == q
  {
  }

  /** Unlisting takes entries away and does nothing else. */
  lemma UnlistShrinks(s: Snapshot, p: Peer)
    requires s.Consistent()
    ensures var t := Unlist(s, p);
            t == s.(down := t.down) && t.down.Keys == s.down.Keys
            && forall q :: q in s.down ==> t.down[q].Keys <= s.down[q].Keys
  {
  }

  lemma DetachPointsBack(s: Snapshot, p: Peer)
    requires s.Valid() && s.Registered(p)
    ensures Detach(s, p).PointsBack()
  {
    hide Acyclic;
    UnlistPointsBack(s, p);
    UnlistShrinks(s, p);
    var t := Detach(s, p);
    forall q, id | q in t.down && id in t.down[q]
      ensures id in t.data && t.down[q][id] == t.data[id] && t.data[id] in t.up && t.up[t.data[id]] == q
    {
      assert id in Unlist(s, p).down[q];
    }
  }

  lemma DetachValid(s: Snapshot, p: Peer)
    requires s.Valid() && s.Registered(p)
    ensures Detach(s, p).Valid()
  {
    UnlistShrinks(s, p);
    DetachPointsBack(s, p);
    UnlinkAcyclic(s.up, p);
  }

  lemma DetachListed(s: Snapshot, p: Peer)
    requires s.Valid() && s.Registered(p) && s.Listed() && Detach(s, p).Valid()
    ensures Detach(s, p).Listed()
  {
    UnlistListed(s, p);
  }

  /** An entry after attaching is the new one, or was there after unlisting. */
  lemma AttachEntry(s: Snapshot, p: Peer, u: Peer, q: Peer, id: BusId)
    requires (p in s.up ==> s.up[p] in s.down) && u in s.down
    requires q in Attach(s, p, u).down && id in Attach(s, p, u).down[q]
    ensures var (t, r) := (Unlist(s, p), Attach(s, p, u));
            && q in t.down
            && if q == u && id == p.busId then r.down[q][id] == p else id in t.down[q] && r.down[q][id] == t.down[q][id]
  {
  }

  lemma AttachRest(s: Snapshot, p: Peer, u: Peer)
    requires (p in s.up ==> s.up[p] in s.down) && u in s.down
    ensures var r := Attach(s, p, u); r.data == s.data && r.up == s.up[p := u]
  {
  }

  lemma AttachParts(s: Snapshot, p: Peer, u: Peer)
    requires s.Valid() && s.Registered(p) && s.Registered(u)
    ensures (p in s.up ==> s.up[p] in s.down) && u in s.down && p.busId in s.data && s.data[p.busId] == p
  {
    hide s.PointsBack;
    hide s.Successors;
    hide s.Retired;
    hide Acyclic;
  }

  lemma AttachEntries(s: Snapshot, p: Peer, u: Peer)
    requires s.Valid() && s.Registered(p) && s.Registered(u) && u != p
    requires (p in s.up ==> s.up[p] in s.down) && u in s.down
    ensures var r := Attach(s, p, u);
            forall q, id :: q in r.down && id in r.down[q] ==>
              id in r.data && r.down[q][id] == r.data[id] && r.data[id] in r.up && r.up[r.data[id]] == q
  {
    hide *;
    AttachParts(s, p, u);
    UnlistPointsBack(s, p);
    AttachRest(s, p, u);
    var r := Attach(s, p, u);
    forall q, id | q in r.down && id in r.down[q]
      ensures id in r.data && r.down[q][id] == r.data[id] && r.data[id] in r.up && r.up[r.data[id]] == q
    {
      AttachEntry(s, p, u, q, id);
    }
  }

  lemma AttachPointsBack(s: Snapshot, p: Peer, u: Peer)
    requires s.Valid() && s.Registered(p) && s.Registered(u) && u != p
    ensures Attach(s, p, u).PointsBack()
  {
    AttachParts(s, p, u);
    hide s.Valid;
    hide Attach;
    AttachEntries(s, p, u);
  }

  lemma AttachConsistent(s: Snapshot, p: Peer, u: Peer)
    requires s.Valid() && s.Registered(p) && s.Registered(u) && u != p
    ensures var r := Attach(s, p, u); r.Consistent() && r.up == s.up[p := u]
  {
    UnlistShrinks(s, p);
    hide Unlist;
    hide Acyclic;
    hide s.PointsBack;
    hide s.Successors;
    hide s.Retired;
  }

  lemma AttachRetired(s: Snapshot, p: Peer, u: Peer)
    requires s.Valid() && s.Registered(p) && s.Registered(u) && u != p
    ensures var r := Attach(s, p, u); r.Successors() && r.Retired()
  {
    UnlistShrinks(s, p);
    hide Unlist;
    hide Acyclic;
    hide s.PointsBack;
  }

  lemma AttachValid(s: Snapshot, p: Peer, u: Peer)
    requires s.Valid() && s.Registered(p) && s.Registered(u)
    requires u != p && p !in Ancestors(s.up, u)
    ensures Attach(s, p, u).Valid()
  {
    AttachPointsBack(s, p, u);
    AttachConsistent(s, p, u);
    AttachRetired(s, p, u);
    RelinkAcyclic(s.up, p, u);
    hide Attach;
    hide Acyclic;
    hide Ancestors;
    hide s.Consistent;
    hide s.PointsBack;
    hide s.Successors;
    hide s.Retired;
  }

  lemma AttachListed(s: Snapshot, p: Peer, u: Peer)
    requires s.Valid() && s.Registered(p) && s.Registered(u) && s.Listed() && Attach(s, p, u).Valid()
    ensures Attach(s, p, u).Listed()
  {
    hide s.PointsBack;
    hide s.Successors;
    hide s.Retired;
    hide Acyclic;
    UnlistListed(s, p);
  }

  // ----- Removal -----

  /** One level of a removal: a peer that still has peers below it stays registered. */
  ghost function Drop(s: Snapshot, p: Peer): Snapshot
    requires s.Valid() && s.Registered(p)
  {
    var t := if s.down[p] == map[] then s.(data := s.data - {p.busId}) else s;
    Unlist(s, p).(data := t.data, proactive := s.proactive - {p})
  }

  ghost predicate Idle(s: Snapshot, p: Peer)
    requires s.Consistent()
  {
    p in s.peers && s.Registered(p) && p !in s.proactive && s.down[p] == map[]
  }

  lemma DropIs(t: Snapshot, p: Peer)
    requires t.Valid() && t.Registered(p)
    ensures var d := Drop(t, p);
            && d.data == (if t.down[p] == map[] then t.data - {p.busId} else t.data) && d.proactive == t.proactive - {p}
            && d.down == Unlist(t, p).down && d.up == t.up && d.peers == t.peers && d.created == t.created
            && d.down.Keys == t.down.Keys
  {
    hide t.PointsBack;
    hide t.Successors;
    hide t.Retired;
    hide Acyclic;
  }

  lemma DropEntries(s: Snapshot, p: Peer)
    requires s.Valid() && s.Registered(p)
    ensures var r := Drop(s, p);
            forall q, id :: q in r.down && id in r.down[q] ==>
              id in r.data && r.down[q][id] == r.data[id] && r.data[id] in r.up && r.up[r.data[id]] == q
  {
    hide s.Valid;
    hide Drop;
    hide Unlist;
    DropIs(s, p);
    UnlistPointsBack(s, p);
  }

  lemma DropPointsBack(s: Snapshot, p: Peer)
    requires s.Valid() && s.Registered(p)
    ensures Drop(s, p).PointsBack()
  {
    hide s.Valid;
    hide Drop;
    DropEntries(s, p);
  }

  lemma DropConsistent(s: Snapshot, p: Peer)
    requires s.Valid() && s.Registered(p)
    ensures Drop(s, p).Consistent() && Drop(s, p).up == s.up
  {
    hide s.PointsBack;
    hide s.Successors;
    hide s.Retired;
    hide Acyclic;
    UnlistShrinks(s, p);
  }

  lemma DropRest(s: Snapshot, p: Peer)
    requires s.Valid() && s.Registered(p)
    ensures Drop(s, p).Successors() && Drop(s, p).Retired()
  {
    hide Acyclic;
    hide s.PointsBack;
    UnlistShrinks(s, p);
  }

  lemma DropValid(s: Snapshot, p: Peer)
    requires s.Valid() && s.Registered(p)
    ensures Drop(s, p).Valid()
  {
    DropConsistent(s, p);
    DropRest(s, p);
    DropPointsBack(s, p);
    hide Drop;
    hide Acyclic;
    hide s.Consistent;
    hide s.PointsBack;
    hide s.Successors;
    hide s.Retired;
  }

  /** Whether the removal goes on to the upstream link's id. */
  ghost predicate Cascades(s: Snapshot, p: Peer)
    requires s.Valid() && s.Registered(p)
  {
    p in s.up && s.up[p] !in Drop(s, p).proactive && Drop(s, p).down[s.up[p]] == map[]
  }

  ghost function Below(s: Snapshot, id: BusId): nat
    requires s.Consistent()
  {
    if id in s.data && s.down[s.data[id]] != map[] then 1 else 0
  }

  ghost function Youth(s: Snapshot, id: BusId): nat
    requires s.Consistent()
  {
    if id in s.data then s.created - s.data[id].serial else 0
  }

  /**
   The cascade goes by id, so it can reach a peer that merely took over the id of a
   deregistered upstream. It ends all the same: with fewer peers registered, or at a
   peer with nothing below it, or at a younger peer.
   */
  lemma CascadeDecreases(s: Snapshot, p: Peer)
    requires s.Valid() && s.Registered(p) && Cascades(s, p)
    ensures var (t, id) := (Drop(s, p), s.up[p].busId);
            && t.Valid()
            && (|t.data| < |s.data| ||
                (|t.data| == |s.data| &&
                 (Below(t, id) < Below(s, p.busId) ||
                  (Below(t, id) == Below(s, p.busId) && Youth(t, id) < Youth(s, p.busId)))))
  {
    DropValid(s, p);
  }

  ghost function Remove(s: Snapshot, id: BusId): (r: Snapshot)
    requires s.Valid()
    ensures r.Valid()
    decreases |s.data|, Below(s, id), Youth(s, id)
  {
    if id !in s.data then s
    else
      var p := s.data[id];
      DropValid(s, p);
      if Cascades(s, p) then
        CascadeDecreases(s, p);
        Remove(Drop(s, p), s.up[p].busId)
      else Drop(s, p)
  }

  // ----- What a removal does -----

  ghost predicate Submap<K, V>(m: map<K, V>, n: map<K, V>) {
    forall k :: k in m ==> k in n && m[k] == n[k]
  }

  /** `r` is `s` after taking away registrations, entries and flags; links stay. */
  ghost predicate Shrunk(r: Snapshot, s: Snapshot) {
    && r.up == s.up && r.peers == s.peers && r.created == s.created
    && Submap(r.data, s.data) && r.proactive <= s.proactive
    && r.down.Keys == s.down.Keys && forall q :: q in s.down ==> Submap(r.down[q], s.down[q])
  }

  lemma DropShrinks(s: Snapshot, p: Peer)
    requires s.Valid() && s.Registered(p)
    ensures Shrunk(Drop(s, p), s)
  {
  }

  lemma ShrunkTransitive(r: Snapshot, t: Snapshot, s: Snapshot)
    requires Shrunk(r, t) && Shrunk(t, s)
    ensures Shrunk(r, s)
  {
    forall q | q in s.down ensures Submap(r.down[q], s.down[q]) {
      assert Submap(r.down[q], t.down[q]) && Submap(t.down[q], s.down[q]);
    }
  }

  lemma {:induction false} RemoveShrinks(s: Snapshot, id: BusId)
    requires s.Valid()
    ensures Shrunk(Remove(s, id), s)
    decreases |s.data|, Below(s, id), Youth(s, id)
  {
    if id in s.data {
      var p := s.data[id];
      DropShrinks(s, p);
      DropValid(s, p);
      if Cascades(s, p) {
        CascadeDecreases(s, p);
        RemoveShrinks(Drop(s, p), s.up[p].busId);
        ShrunkTransitive(Remove(s, id), Drop(s, p), s);
      }
    }
  }

  /** The removed peer loses its flag and its place below its upstream, and leaves if it can. */
  lemma RemoveTarget(s: Snapshot, id: BusId)
    requires s.Valid() && id in s.data
    ensures var (p, r) := (s.data[id], Remove(s, id));
            && (s.down[p] == map[] ==> id !in r.data)
            && p !in r.proactive && r.down.Keys == s.down.Keys && r.up == s.up
            && (p in s.up ==> !(id in r.down[s.up[p]] && r.down[s.up[p]][id] == p))
  {
    var p := s.data[id];
    DropValid(s, p);
    DropShrinks(s, p);
    if Cascades(s, p) {
      RemoveShrinks(Drop(s, p), s.up[p].busId);
      assert p in s.up ==> Submap(Remove(s, id).down[s.up[p]], Drop(s, p).down[s.up[p]]);
    }
  }

  /** A dropped peer leaves at most its upstream idle, and only if the removal goes on. */
  lemma DropIdle(s: Snapshot, p: Peer, q: Peer)
    requires s.Valid() && s.Registered(p) && Drop(s, p).Valid() && Idle(Drop(s, p), q)
    ensures Idle(s, q) || (Cascades(s, p) && q == s.up[p])
  {
    if p in s.up {
      RankUp(s.up, p);
    }
  }

  /**
   A removal cleans up after itself: no peer is left registered that nobody asked for
   and that has nothing below it, unless it already was so before.
   */
  lemma {:induction false} RemoveLeavesNoIdle(s: Snapshot, id: BusId, q: Peer)
    requires s.Valid() && Idle(Remove(s, id), q)
    ensures Idle(s, q)
    decreases |s.data|, Below(s, id), Youth(s, id)
  {
    if id in s.data {
      var p := s.data[id];
      DropValid(s, p);
      if Cascades(s, p) {
        CascadeDecreases(s, p);
        var t := Drop(s, p);
        RemoveLeavesNoIdle(t, s.up[p].busId, q);
        DropIdle(s, p, q);
        if q == s.up[p] {
          RemoveTarget(t, q.busId);
        }
      } else {
        DropIdle(s, p, q);
      }
    }
  }

  ghost predicate RegisteredAbove(s: Snapshot, p: Peer)
    requires s.Valid()
  {
    forall a :: a in Ancestors(s.up, p) ==> s.Registered(a)
  }

  lemma RegisteredAboveUp(s: Snapshot, p: Peer)
    requires s.Valid() && s.Registered(p) && RegisteredAbove(s, p) && p in s.up
    ensures var u := s.up[p];
            && s.Registered(u) && u != p && u in Ancestors(s.up, p)
            && Drop(s, p).Valid() && Drop(s, p).Registered(u) && RegisteredAbove(Drop(s, p), u)
  {
    DropValid(s, p);
    RankUp(s.up, p);
    var u := s.up[p];
    AncestorsUp(s.up, p);
    assert u in Ancestors(s.up, p) && s.Registered(u) && Drop(s, p).up == s.up;
    forall a | a in Ancestors(s.up, p) && a != p ensures Drop(s, p).Registered(a) {
      assert s.Registered(a);
    }
    forall a | a in Ancestors(s.up, u) ensures Drop(s, p).Registered(a) {
      assert a in Ancestors(s.up, p);
      AncestorFacts(s.up, a, p);
    }
  }

  /** A removal that takes another peer goes up first, to a passive one. */
  lemma RemoveGoesUp(s: Snapshot, id: BusId, gone: BusId)
    requires s.Valid() && id in s.data && RegisteredAbove(s, s.data[id])
    requires gone in s.data && gone !in Remove(s, id).data && gone != id
    requires Drop(s, s.data[id]).Valid()
    ensures var p := s.data[id];
            && Cascades(s, p) && gone in Drop(s, p).data && gone !in Remove(Drop(s, p), s.up[p].busId).data
            && Drop(s, p).up == s.up && Drop(s, p).data[gone] == s.data[gone]
    ensures Drop(s, s.data[id]).proactive == s.proactive - {s.data[id]} && s.up[s.data[id]] !in Drop(s, s.data[id]).proactive
  {
    hide s.PointsBack;
    hide s.Successors;
    hide Acyclic;
  }

  /** With no deregistered peer above it, a removal only takes passive ancestors with it. */
  lemma {:induction false} RemoveTakesPassiveAncestors(s: Snapshot, id: BusId, gone: BusId)
    requires s.Valid() && id in s.data && RegisteredAbove(s, s.data[id])
    requires gone in s.data && gone !in Remove(s, id).data && gone != id
    ensures s.data[gone] in Ancestors(s.up, s.data[id]) && s.data[gone] !in s.proactive
    decreases |s.data|, Below(s, id), Youth(s, id)
  {
    var p := s.data[id];
    DropValid(s, p);
    RemoveGoesUp(s, id, gone);
    CascadeDecreases(s, p);
    RegisteredAboveUp(s, p);
    var u := s.up[p];
    var t := Drop(s, p);
    assert u !in s.proactive && u in Ancestors(s.up, p) && t.up == s.up && s.data[u.busId] == u;
    hide *;
    if gone != u.busId {
      RemoveTakesPassiveAncestors(t, u.busId, gone);
      AncestorTransitive(s.up, p, u, s.data[gone]);
      AncestorFacts(s.up, s.data[gone], p);
    }
  }

  /** Where every registered peer is listed, no deregistered peer is above a registered one. */
  lemma {:induction false} ListedAbove(s: Snapshot, p: Peer)
    requires s.Valid() && s.Listed() && s.Registered(p)
    ensures RegisteredAbove(s, p)
    decreases Rank(s.up, p)
  {
    if p in s.up {
      RankUp(s.up, p);
      ListedAbove(s, s.up[p]);
      assert Ancestors(s.up, p) == [s.up[p]] + Ancestors(s.up, s.up[p]);
    }
  }

  lemma DropListed(s: Snapshot, p: Peer)
    requires s.Valid() && s.Listed() && s.Registered(p) && Drop(s, p).Valid()
    requires s.down[p] == map[] || p !in s.up
    ensures Drop(s, p).Listed()
  {
    UnlistListed(s, p);
  }

  /**
   Links and lists stay exact inverses under a removal unless the removed peer has
   peers below it and an upstream above it: then it stays registered and linked, but
   is no longer listed.
   */
  lemma {:induction false} RemoveListed(s: Snapshot, id: BusId)
    requires s.Valid() && s.Listed()
    ensures Remove(s, id).Listed() <==>
            !(id in s.data && s.down[s.data[id]] != map[] && s.data[id] in s.up)
    decreases |s.data|, Below(s, id), Youth(s, id)
  {
    if id in s.data {
      var p := s.data[id];
      DropValid(s, p);
      ListedAbove(s, p);
      if s.down[p] != map[] && p in s.up {
        RemoveShrinks(s, id);
        RemoveTarget(s, id);
        if id !in Remove(s, id).data {
          assert Cascades(s, p);
          RegisteredAboveUp(s, p);
          RemoveTakesPassiveAncestors(Drop(s, p), s.up[p].busId, id);
          AncestorFacts(s.up, s.up[p], p);
        }
      } else {
        DropListed(s, p);
        if Cascades(s, p) {
          CascadeDecreases(s, p);
          RegisteredAboveUp(s, p);
          RemoveListed(Drop(s, p), s.up[p].busId);
        }
      }
    }
  }
}
