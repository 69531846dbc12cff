/**
 A node's table of endpoints: the upstream slot and the route table, kept apart and
 in step with the node's own entry in the topology registry.
 */
module NodeRoutes {
  import opened Topology
  import opened TopologyRegistry
  import opened Wrappers

  datatype Code = Success | Params | NotFound | InvalidId | Closing | NotInited

  class Endpoint {
    const id: BusId
    const owner: Node

    constructor (id: BusId, owner: Node)
      ensures this.id == id && this.owner == owner
    {
      this.id, this.owner := id, owner;
    }
  }

  class Node {
    /** Zero unless initialised. */
    const id: BusId
    const registry: Registry
    const inited: bool
    var resetting: bool
    var upstream: Endpoint?
    var routes: map<BusId, Endpoint>

    /** The id the registry has above this node, or none. */
    ghost function RegisteredUpstream(): Option<BusId>
      reads registry
    {
      AboveIn(registry.state, id)
    }

    /** The two tables are keyed by endpoint id, disjoint, and agree with the registry. */
    ghost predicate Tables()
      reads this, registry
    {
      && (forall k :: k in routes ==> routes[k].id == k)
      && (upstream != null ==> id != 0 && RegisteredUpstream() == Some(upstream.id))
      && (id != 0 && RegisteredUpstream().Some? ==> RegisteredUpstream().value !in routes)
    }

    ghost predicate Valid()
      reads this, registry, registry.state.peers
    {
      registry.Valid() && Tables()
    }

    /** Every endpoint the node holds, by id. */
    ghost function Table(): map<BusId, Endpoint>
      reads this
    {
      if upstream == null then routes else routes[upstream.id := upstream]
    }

    constructor (self: Option<BusId>, registry: Registry)
      requires registry.Valid()
      ensures Valid() && inited == self.Some? && id == (if self.Some? then self.value else 0) && this.registry == registry
      ensures upstream == null && routes == map[] && !resetting
    {
      this.id, this.registry, this.inited := if self.Some? then self.value else 0, registry, self.Some?;
      upstream, routes, resetting := null, map[], false;
    }

    method FindRoute(tid: BusId) returns (ep: Endpoint?)
      ensures ep == if tid in routes then routes[tid] else null
    {
      ep := if tid in routes then routes[tid] else null;
    }

    method InsertChild(ep: Endpoint)
      modifies this`routes
      ensures routes == old(routes)[ep.id := ep]
    {
      if ep.id in routes && routes[ep.id] == ep {
        return;
      }
      routes := routes[ep.id := ep];
    }

    method RemoveChild(tid: BusId, expected: Endpoint?) returns (ok: bool)
      modifies this`routes
      ensures ok == (tid in old(routes) && (expected == null || old(routes)[tid] == expected))
      ensures routes == if ok then old(routes) - {tid} else old(routes)
    {
      if tid !in routes {
        return false;
      }
      if expected != null && routes[tid] != expected {
        return false;
      }
      routes := routes - {tid};
      return true;
    }

    /** An endpoint goes to the upstream slot exactly if the registry puts its id above the node. */
    method AddEndpoint(ep: Endpoint?) returns (code: Code)
      requires Valid()
      modifies this`upstream, this`routes
      ensures Valid()
      ensures code == if resetting then Closing
                      else if !inited then NotInited
                      else if ep == null || ep.owner != this then Params else Success
      ensures !code.Success? ==> upstream == old(upstream) && routes == old(routes)
      ensures code.Success? ==>
                && Table() == old(Table())[ep.id := ep]
                && if id != 0 && RegisteredUpstream() == Some(ep.id) then upstream == ep && routes == old(routes)
                else upstream == old(upstream) && routes == old(routes)[ep.id := ep]
    {
      hide Snapshot.Valid;
      if resetting {
        return Closing;
      }
      if !inited {
        return NotInited;
      }
      if ep == null || ep.owner != this {
        return Params;
      }
      var isUpdateUpstream := false;
      if upstream != null {
        if upstream == ep {
          return Success;
        }
        if upstream.id == ep.id {
          isUpdateUpstream := true;
        }
      }
      if !isUpdateUpstream && id != 0 {
        var above := UpstreamIdOfSelf();
        if above == Some(ep.id) {
          isUpdateUpstream := true;
        }
      }
      if isUpdateUpstream {
        upstream := ep;
        return Success;
      }
      InsertChild(ep);
      return Success;
    }

    method UpstreamIdOfSelf() returns (r: Option<BusId>)
      requires registry.Valid()
      ensures r == RegisteredUpstream()
    {
      var self := registry.GetPeerInstance(id);
      if self == null || self.upstream == null {
        return None;
      }
      return Some(self.upstream.busId);
    }

    /** Only that very endpoint is removed, not another one with its id. */
    method RemoveEndpoint(ep: Endpoint) returns (code: Code)
      requires Valid()
      modifies this`upstream, this`routes
      ensures Valid()
      ensures Table() == if code.Success? then old(Table()) - {ep.id} else old(Table())
      ensures code.Success? <==> ep.id in old(Table()) && old(Table())[ep.id] == ep && (ep.id == id ==> ep == old(upstream))
      ensures code.InvalidId? <==> ep.id == id && !(old(upstream) != null && old(upstream).id == ep.id)
    {
      hide Snapshot.Valid;
      if upstream != null && upstream.id == ep.id {
        if upstream != ep {
          return NotFound;
        }
        upstream := null;
        return Success;
      }
      if ep.id == id {
        return InvalidId;
      }
      var ok := RemoveChild(ep.id, ep);
      return if ok then Success else NotFound;
    }

    /** Whether the registry has to be asked: the node is not known, or has another upstream. */
    method WhetherToMove(tid: BusId) returns (move: bool)
      requires Valid()
      ensures move == Moves(registry.state, id, tid)
      ensures move ==> id != 0 && (upstream != null ==> upstream.id != tid)
    {
      DataIs(registry);
      hide Snapshot.Valid;
      if upstream != null && upstream.id == tid {
        return false;
      }
      if id == 0 {
        return false;
      }
      var selfTopology := registry.GetPeerInstance(id);
      if selfTopology != null {
        if tid == 0 && selfTopology.upstream == null {
          return false;
        } else if tid != 0 && selfTopology.upstream != null && selfTopology.upstream.busId == tid {
          return false;
        }
      }
      return true;
    }

    /**
     Moves the node under `tid` in the registry and moves endpoints between the slot and
     the table to match. No endpoint is lost or made up, whether the move is accepted,
     skipped or refused.
     */
    method SetTopologyUpstream(tid: BusId)
      requires Valid()
      modifies this`upstream, this`routes, registry, registry.state.peers
      ensures Valid() && Table() == old(Table())
      ensures Rerouted(old(registry.state), registry.state, id, tid)
      ensures forall p :: p in old(registry.state.peers) ==> p.topologyData == old(p.topologyData)
      ensures var changed := id != 0 && RegisteredUpstream() != old(RegisteredUpstream());
              && (changed ==> upstream == if tid != 0 && tid in old(routes) then old(routes)[tid] else null)
              && (!changed ==> upstream == old(upstream) && routes == old(routes))
    {
      hide Snapshot.Valid;
      hide Accepted;
      hide Updated;
      hide Registry.Mirrored;
      hide Moves;
      DataIs(registry);
      var move := WhetherToMove(tid);
      if !move {
        return;
      }
      SelfIsKnown();
      var ok := registry.UpdatePeer(id, tid, None);
      if !ok {
        return;
      }
      UpdatedUpstream(old(registry.state), registry.state, id, tid);
      MoveSlot(tid);
    }

    /** Empties the slot into the table and fills it with the endpoint for `tid`, if any. */
    method MoveSlot(tid: BusId)
      requires registry.Valid() && id != 0 && RegisteredUpstream() == if tid == 0 then None else Some(tid)
      requires forall k :: k in routes ==> routes[k].id == k
      requires upstream != null ==> upstream.id !in routes && upstream.id != tid
      modifies this`upstream, this`routes
      ensures Valid() && Table() == old(Table())
      ensures upstream == if tid != 0 && tid in old(routes) then old(routes)[tid] else null
      ensures routes == if tid == 0 then old(Table()) else old(Table()) - {tid}
    {
      hide Snapshot.Valid;
      hide Registry.Mirrored;
      if upstream != null {
        InsertChild(upstream);
      }
      if tid == 0 {
        upstream := null;
      } else {
        upstream := FindRoute(tid);
        if upstream != null {
          var _ := RemoveChild(tid, null);
        }
      }
    }

    lemma SelfIsKnown()
      requires registry.Valid()
      ensures id in registry.data ==> registry.data[id] in registry.state.peers
    {
    }
  }

  /** The id above a registered one, or none. */
  ghost function AboveIn(s: Snapshot, id: BusId): Option<BusId> {
    if id in s.data && s.data[id] in s.up then Some(s.up[s.data[id]].busId) else None
  }

  ghost predicate Moves(s: Snapshot, id: BusId, tid: BusId) {
    id != 0 && !(id in s.data && AboveIn(s, id) == if tid == 0 then None else Some(tid))
  }

  /** A refused move leaves the node marked as asked for, unless it was to be its own upstream. */
  ghost predicate Rerouted(s: Snapshot, t: Snapshot, id: BusId, tid: BusId)
    requires s.Valid()
  {
    if !Moves(s, id, tid) then t == s
    else if Accepted(s, id, tid) then Updated(s, t, id, tid)
    else t == if id in s.data && tid != id then s.(proactive := s.proactive + {s.data[id]}) else s
  }

  /** Afterwards the node is below `tid`, exactly unless it has no id or the move was refused. */
  lemma ReroutedAbove(s: Snapshot, t: Snapshot, id: BusId, tid: BusId)
    requires s.Valid() && t.Valid() && Rerouted(s, t, id, tid)
    ensures AboveIn(t, id) ==
            if id != 0 && (Moves(s, id, tid) ==> Accepted(s, id, tid)) then (if tid == 0 then None else Some(tid)) else AboveIn(s, id)
  {
  }

  /** After an accepted update the registry has exactly the requested id above `id`. */
  lemma UpdatedUpstream(s: Snapshot, t: Snapshot, id: BusId, tid: BusId)
    requires t.Valid() && Updated(s, t, id, tid)
    ensures id in t.data && AboveIn(t, id) == if tid == 0 then None else Some(tid)
  {
  }
}
