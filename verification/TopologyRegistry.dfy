/** The topology registry itself: peers linked by pointers, updated in place. */
module TopologyRegistry {
  import opened Forest
  import opened Topology
  import opened Wrappers

  class Registry {
    var data: map<BusId, Peer>
    /** The state as a value. */
    ghost var state: Snapshot
    /** Every known peer's fields are what the state says. */
    ghost predicate Mirrored()
      reads `data, `state, state.peers`upstream, state.peers`downstream, state.peers`proactive
    {
      && data == state.data
      && state.up.Keys <= state.peers && state.down.Keys == state.peers && state.proactive <= state.peers
      && (forall p :: p in state.peers ==> p.upstream == if p in state.up then state.up[p] else null)
      && (forall p :: p in state.peers ==> p.downstream == state.down[p])
      && (forall p :: p in state.peers ==> (p.proactive <==> p in state.proactive))
    }

    ghost predicate Valid()
      reads this, state.peers
    {
      Mirrored() && state.Valid()
    }

    constructor ()
      ensures Valid() && state == EMPTY
    {
      data, state := map[], EMPTY;
    }

    method GetPeerInstance(busId: BusId) returns (p: Peer?)
      ensures p == if busId in data then data[busId] else null
    {
      p := if busId in data then data[busId] else null;
    }

    /** Creates and registers a passive peer. */
    method CreatePeer(busId: BusId) returns (p: Peer)
      requires Mirrored()
      modifies this
      ensures Mirrored() && state == Register(old(state), p)
      ensures fresh(p) && p.busId == busId && p.serial == old(state).created && p.topologyData == BLANK
    {
      p := new Peer(busId, state.created);
      data := data[busId := p];
      state := Register(state, p);
    }

    /** Finds a peer or registers a passive one. */
    method MutablePeer(busId: BusId) returns (p: Peer)
      requires Valid() && busId != 0
      modifies this
      ensures Valid() && busId in data && p == data[busId] && p in state.peers && p.busId == busId
      ensures busId in old(data) ==> state == old(state)
      ensures busId !in old(data) ==>
                && fresh(p) && p.serial == old(state).created
                && state == Register(old(state), p) && p.topologyData == BLANK
      ensures old(state).Listed() ==> state.Listed()
    {
      if busId in data {
        return data[busId];
      }
      p := CreatePeer(busId);
      RegisterValid(old(state), p);
    }

    /** Walks up from `u` looking for a peer with this id. */
    method FindOnPath(id: BusId, u: Peer) returns (found: bool)
      requires Valid() && u in state.peers
      ensures found == state.OnPath(id, u)
    {
      var cur: Peer? := u;
      while cur != null
        invariant cur == null ==> !state.OnPath(id, u)
        invariant cur != null ==> cur in state.peers && state.OnPath(id, u) == state.OnPath(id, cur)
        decreases if cur == null then 0 else Rank<Peer>(state.up, cur) + 1
      {
        if cur.busId == id {
          return true;
        }
        OnPathUp(state, id, cur);
        cur := cur.upstream;
      }
      return false;
    }

    /** Drops the entry for `peer` where its upstream lists it. */
    method UnlistPeer(peer: Peer)
      requires Mirrored() && peer in state.peers && (peer in state.up ==> state.up[peer] in state.peers)
      modifies this`state, state.peers`downstream
      ensures state == Unlist(old(state), peer) && Mirrored()
    {
      if peer.upstream != null {
        peer.upstream.RemoveDownstream(peer.busId, peer);
      }
      state := Unlist(state, peer);
    }

    method DetachPeer(peer: Peer)
      requires Mirrored() && peer in state.peers && (peer in state.up ==> state.up[peer] in state.peers)
      modifies this`state, state.peers`upstream, state.peers`downstream
      ensures Mirrored() && state == Detach(old(state), peer)
    {
      UnlistPeer(peer);
      MakeRoot(peer);
    }

    method MakeRoot(peer: Peer)
      requires Mirrored() && peer in state.peers
      modifies this`state, peer`upstream
      ensures Mirrored() && state == old(state).(up := old(state).up - {peer})
    {
      peer.upstream := null;
      state := state.(up := state.up - {peer});
    }

    method AttachPeer(peer: Peer, upstream: Peer)
      requires Mirrored() && peer in state.peers && (peer in state.up ==> state.up[peer] in state.peers)
      requires upstream in state.peers
      modifies this`state, state.peers`upstream, state.peers`downstream
      ensures Mirrored() && state == Attach(old(state), peer, upstream)
    {
      UnlistPeer(peer);
      LinkUnder(peer, upstream);
    }

    method SetUpstream(peer: Peer, upstream: Peer)
      requires Mirrored() && peer in state.peers && upstream in state.peers
      modifies this`state, peer`upstream
      ensures Mirrored() && state == old(state).(up := old(state).up[peer := upstream])
    {
      peer.upstream := upstream;
      state := state.(up := state.up[peer := upstream]);
    }

    method ListBelow(upstream: Peer, peer: Peer)
      requires Mirrored() && upstream in state.peers
      modifies this`state, upstream`downstream
      ensures Mirrored()
      ensures var listed: map<BusId, Peer> := old(state).down[upstream];
              state == old(state).(down := old(state).down[upstream := listed[peer.busId := peer]])
    {
      upstream.AddDownstream(peer);
      state := state.(down := state.down[upstream := upstream.downstream]);
    }

    method LinkUnder(peer: Peer, upstream: Peer)
      requires Mirrored() && peer in state.peers && upstream in state.peers
      modifies this`state, peer`upstream, upstream`downstream
      ensures Mirrored()
      ensures var listed: map<BusId, Peer> := old(state).down[upstream];
              state == old(state).(up := old(state).up[peer := upstream], down := old(state).down[upstream := listed[peer.busId := peer]])
    {
      SetUpstream(peer, upstream);
      ListBelow(upstream, peer);
    }

    /** Marks a peer as asked for and stores its data, if there is any. */
    method Touch(peer: Peer, topologyData: Option<TopologyData>)
      requires Mirrored() && peer in state.peers
      modifies this`state, peer`proactive, peer`topologyData
      ensures Mirrored() && state == old(state).(proactive := old(state).proactive + {peer})
      ensures peer.topologyData == Stores(old(peer.topologyData), topologyData)
    {
      peer.proactive := true;
      if topologyData.Some? {
        peer.topologyData := topologyData.value;
      }
      state := state.(proactive := state.proactive + {peer});
    }

    /** Puts a registered peer that nobody below links to under `upstream`, or at the top. */
    method PlacePeer(peer: Peer, upstream: Peer?)
      requires Valid() && peer in state.peers && state.Registered(peer)
      requires upstream != null ==> upstream in state.peers && CanMove(state, peer, upstream)
      modifies this`state, state.peers`upstream, state.peers`downstream
      ensures Valid() && (old(state).Listed() ==> state.Listed())
      ensures Moved(old(state), state, peer, upstream)
    {
      if upstream == null {
        DetachValid(state, peer);
        DetachPeer(peer);
        if old(state).Listed() { DetachListed(old(state), peer); }
      } else {
        AttachValid(state, peer, upstream);
        AttachPeer(peer, upstream);
        if old(state).Listed() { AttachListed(old(state), peer, upstream); }
      }
    }

    /** Moves a registered peer unless that would put it at or below itself. */
    method MovePeer(peer: Peer, upstream: Peer?) returns (ok: bool)
      requires Valid() && peer in state.peers && state.Registered(peer)
      requires upstream != null ==> upstream in state.peers && state.Registered(upstream)
      modifies this`state, state.peers`upstream, state.peers`downstream
      ensures Valid() && (old(state).Listed() ==> state.Listed())
      ensures ok == (upstream == null || Linked(old(state), peer, upstream) || !old(state).OnPath(peer.busId, upstream))
      ensures if ok then Moved(old(state), state, peer, upstream) else state == old(state)
    {
      if upstream != null && peer.upstream == upstream {
        return true;
      }
      if upstream != null {
        var cycle := FindOnPath(peer.busId, upstream);
        if cycle {
          return false;
        }
        NotAbove(state, peer, upstream);
      }
      PlacePeer(peer, upstream);
      return true;
    }

    /**
     Registers or moves a peer. Refused exactly for the id zero, a self-loop, and a new
     upstream that has a peer with the target's id above it. A refusal for the last reason
     leaves the target marked as asked for, with the data given, and changes nothing else.
     */
    method UpdatePeer(target: BusId, upstreamId: BusId, topologyData: Option<TopologyData>) returns (ok: bool)
      requires Valid()
      modifies this, state.peers
      ensures Valid() && (old(state).Listed() ==> state.Listed())
      ensures ok == Accepted(old(state), target, upstreamId)
      ensures !ok && (target == 0 || target == upstreamId) ==> state == old(state)
      ensures !ok && target != 0 && target != upstreamId ==>
                target in old(data) && state == old(state).(proactive := old(state).proactive + {old(data)[target]})
      ensures ok ==> Updated(old(state), state, target, upstreamId)
      ensures StoredWith(old(state.peers), if target == upstreamId then null else Find(old(data), target), topologyData)
      ensures ok ==> NewWith(old(data), data, target, topologyData) && NewWith(old(data), data, upstreamId, None)
    {
      Seen(this);
      assert StoredWith(state.peers, null, topologyData);
      if target !in data && target != 0 && target != upstreamId {
        AcceptsNew(state, target, upstreamId);
      }
      assert Find(data, 0) == null && (target !in data ==> Find(data, target) == null);
      assert target in data ==> Find(data, target) == data[target];
      hide *;
      if target == 0 {
        RefusesTrivial(state, target, upstreamId);
        return false;
      }
      if target == upstreamId {
        RefusesTrivial(state, target, upstreamId);
        return false;
      }
      var peer := GetPeerInstance(target);
      if peer != null {
        ok := UpdateKnown(peer, target, upstreamId, topologyData);
      } else {
        UpdateNew(target, upstreamId, topologyData);
        ok := true;
      }
    }

    /** Updates a registered peer, and no other peer's data. */
    method UpdateKnown(peer: Peer, target: BusId, upstreamId: BusId, topologyData: Option<TopologyData>) returns (ok: bool)
      requires Valid() && target != 0 && target != upstreamId && target in data && peer == data[target] && peer in state.peers
      modifies this, state.peers`upstream, state.peers`downstream, peer`proactive, peer`topologyData
      ensures Valid() && (old(state).Listed() ==> state.Listed())
      ensures ok == Accepted(old(state), target, upstreamId)
      ensures if ok then Updated(old(state), state, target, upstreamId)
              else state == old(state).(proactive := old(state).proactive + {peer})
      ensures StoredWith(old(state.peers), peer, topologyData)
      ensures NewWith(old(data), data, target, topologyData) && NewWith(old(data), data, upstreamId, None)
    {
      hide Registry.Valid;
      hide Snapshot.Valid;
      hide Snapshot.Listed;
      hide Accepted;
      hide Updated;
      var upstream;
      ok, upstream := ProvideAndChange(peer, target, upstreamId, topologyData);
    }

    /** Finds or registers the upstream, and moves the peer below it. */
    method ProvideAndChange(peer: Peer, target: BusId, upstreamId: BusId, topologyData: Option<TopologyData>)
        returns (ok: bool, upstream: Peer?)
      requires Valid() && target != 0 && target != upstreamId && target in data && peer == data[target] && peer in state.peers
      modifies this, state.peers`upstream, state.peers`downstream, peer`proactive, peer`topologyData
      ensures Valid() && (old(state).Listed() ==> state.Listed())
      ensures ok == Accepted(old(state), target, upstreamId)
      ensures if ok then Updated(old(state), state, target, upstreamId)
              else state == old(state).(proactive := old(state).proactive + {peer})
      ensures peer.topologyData == Stores(old(peer.topologyData), topologyData)
      ensures upstreamId != 0 && upstreamId !in old(data) ==>
                upstreamId in data && upstream == data[upstreamId] && fresh(upstream) && upstream.topologyData == BLANK
    {
      hide Snapshot.Valid;
      upstream := ProvideUpstream(upstreamId, target);
      assert upstreamId != 0 && upstreamId !in old(data) ==> upstream != peer;
      ok := ChangeKnown(peer, target, upstreamId, upstream, topologyData, old(state));
    }

    /** Registers a peer, and leaves the data of all known peers. */
    method UpdateNew(target: BusId, upstreamId: BusId, topologyData: Option<TopologyData>)
      requires Valid() && target != 0 && target != upstreamId && target !in data
      modifies this, state.peers`upstream, state.peers`downstream
      ensures Valid() && (old(state).Listed() ==> state.Listed())
      ensures Updated(old(state), state, target, upstreamId)
      ensures StoredWith(old(state.peers), null, topologyData)
      ensures NewWith(old(data), data, target, topologyData) && NewWith(old(data), data, upstreamId, None)
    {
      hide Registry.Valid;
      hide Registry.Mirrored;
      hide Snapshot.Valid;
      hide Snapshot.Listed;
      hide Updated;
      hide Provided;
      var upstream := ProvideUpstream(upstreamId, target);
      AddNew(target, upstreamId, upstream, topologyData, old(state));
    }

    /** The change to a registered peer; `s0` is the state before its upstream was provided. */
    method ChangeKnown(peer: Peer, target: BusId, upstreamId: BusId, upstream: Peer?, topologyData: Option<TopologyData>,
                       ghost s0: Snapshot)
        returns (ok: bool)
      requires Valid() && target != 0 && target in s0.data && target in data && s0.data[target] == data[target] == peer
      requires target != upstreamId && Provided(s0, state, upstreamId, upstream)
      requires upstreamId !in s0.data && upstreamId != 0 ==> !state.OnPath(target, upstream)
      modifies this`state, state.peers`upstream, state.peers`downstream, peer`proactive, peer`topologyData
      ensures Valid() && (old(state).Listed() ==> state.Listed())
      ensures ok == Accepted(s0, target, upstreamId)
      ensures if ok then Updated(s0, state, target, upstreamId) else state == s0.(proactive := s0.proactive + {peer})
      ensures data == old(data) && peer.topologyData == Stores(old(peer.topologyData), topologyData)
    {
      hide Snapshot.Valid;
      KnownIds(state, target);
      ghost var s := state;
      ok := UpdateExisting(peer, upstream, topologyData);
      if ok {
        UpdateOutcome(s0, s, state, target, upstreamId);
      }
    }

    /** The registration of a peer; `s0` is the state before its upstream was provided. */
    method AddNew(target: BusId, upstreamId: BusId, upstream: Peer?, topologyData: Option<TopologyData>, ghost s0: Snapshot)
      requires Valid() && target != 0 && target !in data && target != upstreamId && Provided(s0, state, upstreamId, upstream)
      modifies this, state.peers`upstream, state.peers`downstream
      ensures Valid() && (old(state).Listed() ==> state.Listed())
      ensures Updated(s0, state, target, upstreamId) && target in data && fresh(data[target])
      ensures forall id :: id in old(data) ==> id in data && data[id] == old(data)[id]
      ensures data[target].topologyData == Stores(BLANK, topologyData)
    {
      hide Snapshot.Valid;
      ghost var s := state;
      InsertNew(target, upstream, topologyData);
      UpdateOutcome(s0, s, state, target, upstreamId);
    }

    /** The peer with the id given for the upstream, registered if need be; none for zero. */
    method ProvideUpstream(upstreamId: BusId, target: BusId) returns (upstream: Peer?)
      requires Valid() && upstreamId != target
      modifies this
      ensures Valid() && (old(state).Listed() ==> state.Listed())
      ensures Provided(old(state), state, upstreamId, upstream)
      ensures data == state.data && data.Keys <= old(data).Keys + {upstreamId}
      ensures forall id :: id in old(data) ==> id in data && data[id] == old(data)[id]
      ensures upstreamId != 0 ==> upstreamId in data
      ensures old(state.peers) <= state.peers && forall p :: p in state.peers ==> p in old(state.peers) || fresh(p)
      ensures upstreamId != 0 && upstreamId !in old(data) ==>
                && upstreamId in data && upstream == data[upstreamId] && fresh(upstream) && upstream.topologyData == BLANK
                && !state.OnPath(target, upstream)
    {
      hide Snapshot.Valid;
      KnownIds(state, 0);
      if upstreamId == 0 {
        return null;
      }
      upstream := MutablePeer(upstreamId);
      UpstreamReady(old(state), state, upstreamId, target);
      KnownIds(state, upstreamId);
    }

    method UpdateExisting(peer: Peer, upstream: Peer?, topologyData: Option<TopologyData>) returns (ok: bool)
      requires Valid() && peer in state.peers && state.Registered(peer)
      requires upstream != null ==> upstream in state.peers && state.Registered(upstream)
      modifies this`state, state.peers`upstream, state.peers`downstream, peer`proactive, peer`topologyData
      ensures Valid() && (old(state).Listed() ==> state.Listed())
      ensures ok == (upstream == null || Linked(old(state), peer, upstream) || !old(state).OnPath(peer.busId, upstream))
      ensures var touched := old(state).(proactive := old(state).proactive + {peer});
              if ok then Moved(touched, state, peer, upstream) else state == touched
      ensures peer.topologyData == Stores(old(peer.topologyData), topologyData)
    {
      hide Snapshot.Valid;
      TouchValid(state, peer);
      Touch(peer, topologyData);
      ok := MovePeer(peer, upstream);
    }

    /** Registers a peer that is asked for, with its data. */
    method InsertPeer(target: BusId, topologyData: Option<TopologyData>) returns (peer: Peer)
      requires Valid() && target != 0 && target !in data
      modifies this
      ensures Valid() && (old(state).Listed() ==> state.Listed())
      ensures fresh(peer) && peer.busId == target && peer in state.peers && state.Registered(peer) && peer !in state.up.Values
      ensures var s := Register(old(state), peer); state == s.(proactive := s.proactive + {peer})
      ensures peer.topologyData == Stores(BLANK, topologyData)
    {
      ghost var s := state;
      assert forall p :: p in s.up ==> s.up[p] in s.peers;
      hide Snapshot.Valid;
      peer := MutablePeer(target);
      TouchValid(state, peer);
      Touch(peer, topologyData);
    }

    method InsertNew(target: BusId, upstream: Peer?, topologyData: Option<TopologyData>)
      requires Valid() && target != 0 && target !in data
      requires upstream != null ==> upstream in state.peers && state.Registered(upstream)
      modifies this, state.peers`upstream, state.peers`downstream
      ensures Valid() && (old(state).Listed() ==> state.Listed()) && target in data
      ensures var s := Register(old(state), data[target]);
              Moved(s.(proactive := s.proactive + {data[target]}), state, data[target], upstream)
      ensures fresh(data[target]) && data[target].busId == target
      ensures data[target].topologyData == Stores(BLANK, topologyData)
    {
      hide Snapshot.Valid;
      var peer := InsertPeer(target, topologyData);
      if upstream != null {
        NeverLinkedTo(state, peer, upstream);
      }
      hide Forest.Ancestors;
      PlacePeer(peer, upstream);
    }

    /** Whether `top` is above `start`, and the peer directly below it on the way there. */
    method FindAbove(start: Peer, top: Peer) returns (below: Peer?)
      requires Valid() && start in state.peers && !Linked(state, start, top)
      ensures below != null <==> top in Ancestors(state.up, start)
      ensures below != null ==> Linked(state, below, top) && below in Ancestors(state.up, start)
    {
      var cur: Peer? := start.upstream;
      AboveStep(state, start, start, top);
      while cur != null
        invariant cur == null ==> top !in Ancestors(state.up, start)
        invariant cur != null ==> cur in state.peers && cur in Ancestors<Peer>(state.up, start)
        invariant cur != null ==> (top in Ancestors(state.up, start) <==> top in Ancestors<Peer>(state.up, cur))
        decreases if cur == null then 0 else Rank<Peer>(state.up, cur) + 1
      {
        var previous: Peer := cur;
        AboveStep(state, start, previous, top);
        cur := previous.upstream;
        if cur == top {
          return previous;
        }
      }
      return null;
    }

    /** The relation of two registered peers and the next hop, by walking upstream links. */
    method GetRelation(from: BusId, to: BusId) returns (r: Relation, hop: Peer?)
      requires Valid()
      ensures if from == 0 || to == 0 || from !in data || to !in data then r == Invalid && hop == null
              else r == Relate<Peer>(state.up, data[from], data[to]).0 && hop == Relate<Peer>(state.up, data[from], data[to]).1
    {
      if from == 0 || to == 0 {
        return Invalid, null;
      }
      var fromPeer := GetPeerInstance(from);
      var toPeer := GetPeerInstance(to);
      if fromPeer == null || toPeer == null {
        return Invalid, null;
      }
      if from == to {
        return Self, toPeer;
      }
      if fromPeer.upstream == toPeer {
        return ImmediateUpstream, toPeer;
      }
      if toPeer.upstream == fromPeer {
        return ImmediateDownstream, toPeer;
      }
      if fromPeer.upstream != null && fromPeer.upstream == toPeer.upstream {
        return SameUpstreamPeer, fromPeer.upstream;
      }
      r, hop := FarRelation(fromPeer, toPeer);
    }

    /** The relation of two peers that are not neighbours, from the walks up from each. */
    method FarRelation(fromPeer: Peer, toPeer: Peer) returns (r: Relation, hop: Peer?)
      requires Valid() && fromPeer in state.peers && toPeer in state.peers && fromPeer != toPeer
      requires fromPeer.upstream != toPeer && toPeer.upstream != fromPeer
      requires fromPeer.upstream == null || fromPeer.upstream != toPeer.upstream
      ensures r == Relate<Peer>(state.up, fromPeer, toPeer).0 && hop == Relate<Peer>(state.up, fromPeer, toPeer).1
    {
      var below := FindAbove(fromPeer, toPeer);
      if below != null {
        return TransitiveUpstream, fromPeer.upstream;
      }
      below := FindAbove(toPeer, fromPeer);
      if below != null {
        ChildUnique<Peer>(state.up, fromPeer, toPeer, below);
        return TransitiveDownstream, below;
      }
      if fromPeer.upstream != null {
        return OtherUpstreamPeer, fromPeer.upstream;
      }
      return OtherUpstreamPeer, toPeer;
    }

    method ClearProactive(p: Peer)
      requires Mirrored() && p in state.peers
      modifies this`state, p`proactive
      ensures Mirrored() && state == old(state).(proactive := old(state).proactive - {p})
    {
      p.proactive := false;
      state := state.(proactive := state.proactive - {p});
    }

    method Deregister(id: BusId)
      requires Mirrored()
      modifies this
      ensures Mirrored() && state == old(state).(data := old(state).data - {id})
    {
      data := data - {id};
      state := state.(data := data);
    }

    /** Clears the flag of `p`, and its registration if nothing is below it. */
    method Retire(p: Peer)
      requires Mirrored() && p in state.peers
      modifies this, p`proactive
      ensures Mirrored()
      ensures state == old(state).(proactive := old(state).proactive - {p},
                                   data := if old(state).down[p] == map[] then old(state).data - {p.busId} else old(state).data)
    {
      assert p.downstream == state.down[p];
      var idle := p.downstream == map[];
      hide Mirrored;
      ClearProactive(p);
      if idle {
        Deregister(p.busId);
      }
    }

    /** One level of a removal; says whether it goes on to the upstream's id. */
    method DropPeer(p: Peer) returns (cascade: bool)
      requires Valid() && state.Registered(p) && p in state.peers
      modifies this, state.peers`proactive, state.peers`downstream
      ensures Mirrored() && state == Drop(old(state), p) && cascade == Cascades(old(state), p)
    {
      Retire(p);
      UnlistPeer(p);
      cascade := p.upstream != null && !p.upstream.proactive && |p.upstream.downstream| == 0;
    }

    /** Removes a registration, and what it leaves idle above, by id. */
    method RemovePeer(target: BusId)
      requires Valid()
      modifies this, state.peers`proactive, state.peers`downstream
      ensures Valid() && state == Remove(old(state), target) && state.peers == old(state.peers)
      decreases |data|, Below(state, target), Youth(state, target)
    {
      if target !in data {
        return;
      }
      var p := data[target];
      DropValid(state, p);
      var cascade := DropPeer(p);
      if cascade {
        CascadeDecreases(old(state), p);
        RemovePeer(p.upstream.busId);
      }
    }
  }

  /** What is given is stored, and otherwise the data stay. */
  function Stores(was: TopologyData, given: Option<TopologyData>): TopologyData {
    if given.Some? then given.value else was
  }

  function Find(data: map<BusId, Peer>, id: BusId): Peer? {
    if id in data then data[id] else null
  }

  /** Of `peers`, `peer` stores what is given, and all others keep their data. */
  twostate predicate StoredWith(peers: set<Peer>, peer: Peer?, given: Option<TopologyData>)
    reads peers, peer
  {
    && (peer != null ==> peer.topologyData == Stores(old(peer.topologyData), given))
    && forall p :: p in peers && p != peer ==> p.topologyData == old(p.topologyData)
  }

  /** A peer registered since under `id` is new, and has the data given, or blank ones. */
  twostate predicate NewWith(was: map<BusId, Peer>, new now: map<BusId, Peer>, id: BusId, given: Option<TopologyData>)
    reads now.Values
  {
    id != 0 && id !in was ==> id in now && fresh(now[id]) && now[id].topologyData == Stores(BLANK, given)
  }

  /** `t` is `s` with the peer for `upstreamId`, if that is not zero, found or newly registered. */
  ghost predicate Provided(s: Snapshot, t: Snapshot, upstreamId: BusId, upstream: Peer?) {
    && s.Valid()
    && (t == s || (upstreamId != 0 && upstreamId !in s.data && upstreamId in t.data && t == Register(s, t.data[upstreamId])))
    && if upstreamId == 0 then upstream == null && t == s
       else upstreamId in t.data && upstream == t.data[upstreamId] && upstream in t.peers && t.Registered(upstream)
  }

  ghost predicate Linked(s: Snapshot, p: Peer, u: Peer) { p in s.up && s.up[p] == u }

  ghost predicate CanMove(s: Snapshot, p: Peer, u: Peer)
    requires s.Valid()
  {
    s.Registered(u) && u != p && p !in Ancestors(s.up, u)
  }

  /** Only the link of `p` has changed, and the lists that go with it. */
  ghost predicate Moved(s: Snapshot, t: Snapshot, p: Peer, upstream: Peer?) {
    && t == s.(up := t.up, down := t.down)
    && t.up == if upstream == null then s.up - {p} else s.up[p := upstream]
  }

  /** Links and lists do not look at the flags. */
  lemma FlagsAside(s: Snapshot, flags: set<Peer>)
    requires s.Consistent() && flags <= s.peers
    ensures var t := s.(proactive := flags);
            && t.Consistent() && (s.PointsBack() ==> t.PointsBack()) && (s.Successors() ==> t.Successors())
            && (s.Listed() ==> t.Listed())
  {
  }

  lemma TouchValid(s: Snapshot, p: Peer)
    requires s.Valid() && s.Registered(p)
    ensures s.(proactive := s.proactive + {p}).Valid()
    ensures s.Listed() ==> s.(proactive := s.proactive + {p}).Listed()
  {
    var t := s.(proactive := s.proactive + {p});
    FlagsAside(s, t.proactive);
    assert t.Retired();
    hide Acyclic;
    hide s.Consistent;
    hide s.PointsBack;
    hide s.Successors;
    hide s.Retired;
    hide s.Listed;
  }

  /** A freshly registered upstream is a root and has another id than the target. */
  lemma UpstreamReady(s: Snapshot, t: Snapshot, upstreamId: BusId, target: BusId)
    requires s.Valid() && t.Valid() && upstreamId in t.data && upstreamId != target
    requires t == s || (upstreamId !in s.data && t.data[upstreamId] !in s.peers && t == Register(s, t.data[upstreamId]))
    ensures t.up == s.up && t.proactive == s.proactive && (s.Listed() ==> t.Listed())
    ensures upstreamId !in s.data ==> !t.OnPath(target, t.data[upstreamId])
    ensures upstreamId in s.data ==> t == s
  {
    hide s.PointsBack;
    hide s.Successors;
    hide s.Retired;
    hide Acyclic;
    if upstreamId !in s.data {
      FreshIsRoot(s, t.data[upstreamId], target);
    }
  }

  lemma FreshIsRoot(s: Snapshot, p: Peer, target: BusId)
    requires s.Valid() && Register(s, p).Valid() && p !in s.peers && p.busId != target
    ensures !Register(s, p).OnPath(target, p)
    ensures s.Listed() && p.busId !in s.data ==> Register(s, p).Listed()
  {
    hide s.PointsBack;
    hide s.Successors;
    hide s.Retired;
    assert Ancestors(Register(s, p).up, p) == [];
  }

  ghost predicate Accepted(s: Snapshot, target: BusId, upstreamId: BusId)
    requires s.Valid()
  {
    && target != 0 && target != upstreamId
    && (target in s.data && upstreamId in s.data && !(s.data[target] in s.up && s.up[s.data[target]] == s.data[upstreamId]) ==>
          !s.OnPath(target, s.data[upstreamId]))
  }

  lemma DataIs(r: Registry)
    requires r.Valid()
    ensures r.data == r.state.data && r.state.Valid() && r.state.Consistent()
  {
  }

  lemma Seen(r: Registry)
    requires r.Valid()
    ensures r.data == r.state.data && r.state.Valid() && r.state.Consistent() && 0 !in r.data
    ensures forall id :: id in r.data ==> r.data[id] in r.state.peers && r.data[id].busId == id
    ensures forall p :: p in r.state.peers ==> (p.proactive <==> p in r.state.proactive)
  {
  }

  lemma RefusesTrivial(s: Snapshot, target: BusId, upstreamId: BusId)
    requires s.Valid() && (target == 0 || target == upstreamId)
    ensures !Accepted(s, target, upstreamId)
  {
  }

  lemma AcceptsNew(s: Snapshot, target: BusId, upstreamId: BusId)
    requires s.Valid() && target !in s.data && target != 0 && target != upstreamId
    ensures Accepted(s, target, upstreamId)
  {
  }

  /** An accepted update: the target is registered, asked for, and linked as requested. */
  ghost predicate Updated(s: Snapshot, t: Snapshot, target: BusId, upstreamId: BusId) {
    && t.data.Keys == s.data.Keys + {target} + (if upstreamId == 0 then {} else {upstreamId})
    && Submap(s.data, t.data)
    && t.up == (if upstreamId == 0 then s.up - {t.data[target]} else s.up[t.data[target] := t.data[upstreamId]])
    && t.proactive == s.proactive + {t.data[target]}
    && t.peers == s.peers + {t.data[target]} + (if upstreamId == 0 then {} else {t.data[upstreamId]})
  }

  lemma KnownIds(s: Snapshot, id: BusId)
    requires s.Valid()
    ensures 0 !in s.data && (id in s.data ==> s.data[id] in s.peers && s.data[id].busId == id && s.Registered(s.data[id]))
  {
  }

  /** `s` is the old state with the upstream registered, `t` the new one. */
  lemma UpdateOutcome(s0: Snapshot, s: Snapshot, t: Snapshot, target: BusId, upstreamId: BusId)
    requires s0.Valid() && s.Valid() && t.Valid() && target in t.data && target != upstreamId
    requires s == s0 || (upstreamId != 0 && upstreamId !in s0.data && upstreamId in s.data && s == Register(s0, s.data[upstreamId]))
    requires upstreamId != 0 ==> upstreamId in s.data
    requires var p := t.data[target];
             && (target in s.data ==> s.data[target] == p)
             && (var r := if target in s.data then s else Register(s, p);
                 Moved(r.(proactive := r.proactive + {p}), t, p, if upstreamId == 0 then null else s.data[upstreamId]))
    ensures Updated(s0, t, target, upstreamId)
  {
    hide Snapshot.Valid;
    KnownIds(s, upstreamId);
    KnownIds(t, target);
  }

  /** One step of a walk from `start` that has got to `p` and not yet to `top`. */
  lemma AboveStep(s: Snapshot, start: Peer, p: Peer, top: Peer)
    requires s.Valid() && p in s.peers && (p == start || p in Ancestors(s.up, start))
    ensures p !in s.up ==> top !in Ancestors(s.up, p)
    ensures p in s.up ==>
              var u := s.up[p];
              && u in s.peers && u in Ancestors(s.up, start) && Rank(s.up, u) < Rank(s.up, p)
              && (u != top ==> (top in Ancestors(s.up, p) <==> top in Ancestors(s.up, u)))
              && (u == top ==> top in Ancestors(s.up, start))
  {
    if p in s.up {
      RankUp(s.up, p);
      assert Ancestors(s.up, p) == [s.up[p]] + Ancestors(s.up, s.up[p]);
      if p != start {
        AncestorTransitive(s.up, start, p, s.up[p]);
      }
    }
  }

  lemma OnPathUp(s: Snapshot, id: BusId, p: Peer)
    requires s.Valid() && p in s.peers && p.busId != id
    ensures p !in s.up ==> !s.OnPath(id, p)
    ensures p in s.up ==> s.OnPath(id, p) == s.OnPath(id, s.up[p]) && Rank(s.up, s.up[p]) < Rank(s.up, p)
  {
    if p in s.up {
      RankUp(s.up, p);
      assert Ancestors(s.up, p) == [s.up[p]] + Ancestors(s.up, s.up[p]);
    }
  }

  lemma NotAbove(s: Snapshot, p: Peer, u: Peer)
    requires s.Valid() && !s.OnPath(p.busId, u)
    ensures u != p && p !in Ancestors(s.up, u)
  {
  }

  /** A peer nobody links to is above nobody. */
  lemma NeverLinkedTo(s: Snapshot, p: Peer, u: Peer)
    requires s.Valid() && p !in s.up.Values
    ensures p !in Ancestors(s.up, u)
  {
    if p in Ancestors(s.up, u) {
      var i :| 0 <= i < |Ancestors(s.up, u)| && Ancestors(s.up, u)[i] == p;
      AncestorsLinked(s.up, u, i);
    }
  }
}
