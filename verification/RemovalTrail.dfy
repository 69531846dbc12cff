/**
 What exactly a removal does, told from the state before it: the peers it visits form a
 trail that can be followed without changing anything, and the trail decides the outcome.
 */
module RemovalTrail {
  import opened Forest
  import opened Topology
  import opened Wrappers

  /** Every peer listed below `q` is among `v`. */
  ghost predicate Emptied(s: Snapshot, v: seq<Peer>, q: Peer)
    requires q in s.down
  {
    forall id :: id in s.down[q] ==> s.down[q][id] in v
  }

  ghost predicate Known(s: Snapshot, v: seq<Peer>) {
    s.Consistent() && forall i :: 0 <= i < |v| ==> v[i] in s.down
  }

  /** The visit number `i` takes the registration: all peers below were visited before. */
  ghost predicate Leaves(s: Snapshot, v: seq<Peer>, i: nat)
    requires Known(s, v) && i < |v|
  {
    Emptied(s, v[..i], v[i])
  }

  ghost predicate Out(s: Snapshot, v: seq<Peer>, id: BusId)
    requires Known(s, v)
  {
    exists i: nat :: i < |v| && v[i].busId == id && Leaves(s, v, i)
  }

  /**
   Who is visited after `v`: whoever holds the id of the last visited peer's upstream,
   if that upstream was not asked for or was visited, has no peer below it that was not
   visited, and the id is still held.
   */
  ghost function Next(s: Snapshot, v: seq<Peer>): Option<Peer>
    requires Known(s, v) && v != []
  {
    var p := v[|v| - 1];
    if p !in s.up || (s.up[p] in s.proactive && s.up[p] !in v) || !Emptied(s, v, s.up[p]) then None
    else if s.up[p].busId !in s.data || Out(s, v, s.up[p].busId) then None
    else Some(s.data[s.up[p].busId])
  }

  ghost predicate IsTrail(s: Snapshot, id: BusId, v: seq<Peer>)
    requires s.Consistent()
  {
    && Known(s, v)
    && if id !in s.data then v == []
       else
         && v != [] && v[0] == s.data[id] && Next(s, v) == None
         && forall i :: 0 < i < |v| ==> Next(s, v[..i]) == Some(v[i])
  }

  /** The state after visiting `v`. */
  ghost function Swept(s: Snapshot, v: seq<Peer>): Snapshot
    requires Known(s, v)
  {
    s.(data := (map id | id in s.data && !Out(s, v, id) :: s.data[id]),
       proactive := (set p | p in s.proactive && p !in v),
       down := (map q | q in s.down :: Left(s.down[q], v)))
  }

  ghost function Left(listed: map<BusId, Peer>, v: seq<Peer>): map<BusId, Peer> {
    map id | id in listed && listed[id] !in v :: listed[id]
  }

  // ----- One visit -----

  lemma OutStep(s: Snapshot, v: seq<Peer>, p: Peer, id: BusId)
    requires Known(s, v) && p in s.down
    ensures Known(s, v + [p])
    ensures Out(s, v + [p], id) <==> Out(s, v, id) || (id == p.busId && Emptied(s, v, p))
  {
    var w := v + [p];
    forall i: nat | i < |v| ensures Leaves(s, w, i) == Leaves(s, v, i) {
      assert w[..i] == v[..i];
    }
    assert w[..|v|] == v;
    if Out(s, v, id) {
      var i: nat :| i < |v| && v[i].busId == id && Leaves(s, v, i);
      assert w[i].busId == id && Leaves(s, w, i);
    }
    if id == p.busId && Emptied(s, v, p) {
      assert w[|v|].busId == id && Leaves(s, w, |v|);
    }
  }

  lemma EmptiedNow(s: Snapshot, v: seq<Peer>, q: Peer)
    requires Known(s, v) && q in s.down
    ensures Swept(s, v).down[q] == map[] <==> Emptied(s, v, q)
  {
    if Emptied(s, v, q) {
      assert Left(s.down[q], v) == map[];
    } else {
      var id :| id in s.down[q] && s.down[q][id] !in v;
      assert id in Left(s.down[q], v);
    }
  }

  lemma LeftStep(s: Snapshot, v: seq<Peer>, p: Peer, q: Peer)
    requires s.Valid() && q in s.down
    ensures Left(s.down[q], v + [p]) ==
            if p in s.up && q == s.up[p] then Without(Left(s.down[q], v), p.busId, p) else Left(s.down[q], v)
  {
    forall id | id in s.down[q] && s.down[q][id] == p ensures p in s.up && q == s.up[p] && id == p.busId {
      ListedOnce(s, q, id);
    }
    hide s.Valid;
    assert forall id :: id in Left(s.down[q], v + [p]) <==> id in Left(s.down[q], v) && s.down[q][id] != p;
  }

  lemma UnlistOne(t: Snapshot, p: Peer, q: Peer)
    requires t.Consistent() && q in t.down
    ensures var r := Unlist(t, p);
            q in r.down && r.down[q] == if p in t.up && q == t.up[p] then Without(t.down[q], p.busId, p) else t.down[q]
  {
  }

  lemma DataSwept(s: Snapshot, v: seq<Peer>, p: Peer)
    requires Known(s, v) && p in s.down
    ensures Known(s, v + [p])
    ensures Swept(s, v + [p]).data ==
            if Swept(s, v).down[p] == map[] then Swept(s, v).data - {p.busId} else Swept(s, v).data
    ensures Swept(s, v + [p]).proactive == Swept(s, v).proactive - {p}
  {
    EmptiedNow(s, v, p);
    forall id ensures Out(s, v + [p], id) <==> Out(s, v, id) || (id == p.busId && Emptied(s, v, p)) {
      OutStep(s, v, p, id);
    }
    hide Out;
    hide Emptied;
  }

  /** Dropping the next peer from the state after `v` gives the state after `v` and that peer. */
  lemma DropSwept(s: Snapshot, v: seq<Peer>, p: Peer)
    requires s.Valid() && Known(s, v) && Swept(s, v).Valid() && Swept(s, v).Registered(p)
    ensures Known(s, v + [p]) && Drop(Swept(s, v), p) == Swept(s, v + [p])
  {
    var t := Swept(s, v);
    assert p in s.down && t.down.Keys == s.down.Keys && t.up == s.up && Known(s, v + [p]);
    var d := Drop(t, p);
    DropIs(t, p);
    DataSwept(s, v, p);
    forall q | q in s.down ensures d.down[q] == Swept(s, v + [p]).down[q] {
      LeftStep(s, v, p, q);
      UnlistOne(t, p, q);
    }
    hide Snapshot.Valid;
    hide Drop;
    hide Known;
    hide Out;
    assert d.down == Swept(s, v + [p]).down;
  }

  /** In the state after `v + [p]`, whether the removal goes on, and to whom. */
  lemma NextIs(s: Snapshot, v: seq<Peer>, p: Peer)
    requires s.Valid() && Known(s, v) && Swept(s, v).Valid() && Swept(s, v).Registered(p)
    ensures var t := Swept(s, v);
            && Known(s, v + [p])
            && Next(s, v + [p]) ==
               if Cascades(t, p) && s.up[p].busId in Drop(t, p).data then Some(Drop(t, p).data[s.up[p].busId]) else None
  {
    DropSwept(s, v, p);
    hide Drop;
    hide Snapshot.Valid;
    if p in s.up {
      EmptiedNow(s, v + [p], s.up[p]);
    }
    hide Emptied;
    hide Out;
  }

  // ----- The whole removal -----

  /** The peers a removal visits, as it visits them. */
  ghost function Visits(s: Snapshot, id: BusId): seq<Peer>
    requires s.Valid()
    decreases |s.data|, Below(s, id), Youth(s, id)
  {
    if id !in s.data then []
    else
      var p := s.data[id];
      DropValid(s, p);
      if Cascades(s, p) then
        CascadeDecreases(s, p);
        [p] + Visits(Drop(s, p), s.up[p].busId)
      else [p]
  }

  /** The visits made from the state after `v` carry on the trail `v`. */
  ghost predicate CarriesOn(s: Snapshot, v: seq<Peer>, w: seq<Peer>) {
    && Known(s, v + w)
    && (forall i :: 0 < i < |w| ==> Known(s, v + w[..i]) && Next(s, v + w[..i]) == Some(w[i]))
    && (w != [] ==> Next(s, v + w) == None)
  }

  lemma CarriesOnStep(s: Snapshot, v: seq<Peer>, p: Peer, w: seq<Peer>)
    requires CarriesOn(s, v + [p], w) && Known(s, v + [p]) && Next(s, v + [p]) == if w == [] then None else Some(w[0])
    ensures CarriesOn(s, v, [p] + w)
  {
    hide Known;
    hide Next;
    var x := [p] + w;
    assert v + x == v + [p] + w;
    if w == [] {
      assert v + x == v + [p];
    }
    forall i | 0 < i < |x| ensures Known(s, v + x[..i]) && Next(s, v + x[..i]) == Some(x[i]) {
      if i == 1 {
        assert v + x[..i] == v + [p];
      } else {
        assert v + x[..i] == v + [p] + w[..i - 1];
      }
    }
  }

  lemma VisitsStep(s: Snapshot, id: BusId)
    requires s.Valid() && id in s.data
    ensures var p := s.data[id];
            && Drop(s, p).Valid() && s.Registered(p)
            && Visits(s, id) == [p] + (if Cascades(s, p) then Visits(Drop(s, p), s.up[p].busId) else [])
            && (Cascades(s, p) ==> p in s.up)
  {
    DropValid(s, s.data[id]);
    hide Snapshot.Valid;
    hide Drop;
    assert [s.data[id]] + [] == [s.data[id]];
  }

  lemma RemoveStep(s: Snapshot, id: BusId)
    requires s.Valid() && id in s.data
    ensures var p := s.data[id];
            && Drop(s, p).Valid() && s.Registered(p)
            && Remove(s, id) == (if Cascades(s, p) then Remove(Drop(s, p), s.up[p].busId) else Drop(s, p))
  {
    DropValid(s, s.data[id]);
    hide Snapshot.Valid;
    hide Drop;
  }

  ghost predicate Smaller(t: Snapshot, id: BusId, s: Snapshot, id': BusId)
    requires t.Consistent() && s.Consistent()
  {
    || |t.data| < |s.data|
    || (|t.data| == |s.data| &&
        (Below(t, id) < Below(s, id') || (Below(t, id) == Below(s, id') && Youth(t, id) < Youth(s, id'))))
  }

  lemma Level(s: Snapshot, v: seq<Peer>, id: BusId)
    requires s.Valid() && Known(s, v) && Swept(s, v).Valid() && id in Swept(s, v).data
    ensures var (t, p) := (Swept(s, v), Swept(s, v).data[id]);
            && t.Registered(p) && t.Consistent() && Known(s, v + [p])
            && Swept(s, v + [p]).Valid() && Swept(s, v + [p]).Consistent() && Swept(s, v + [p]) == Drop(t, p)
            && if Cascades(t, p) then
                 && p in s.up
                 && Remove(t, id) == Remove(Swept(s, v + [p]), s.up[p].busId)
                 && Visits(t, id) == [p] + Visits(Swept(s, v + [p]), s.up[p].busId)
                 && Smaller(Swept(s, v + [p]), s.up[p].busId, t, id)
               else Remove(t, id) == Swept(s, v + [p]) && Visits(t, id) == [p] + []
  {
    var (t, p) := (Swept(s, v), Swept(s, v).data[id]);
    assert t.up == s.up;
    VisitsStep(t, id);
    RemoveStep(t, id);
    DropSwept(s, v, p);
    assert t.Consistent() && Drop(t, p).Consistent();
    if Cascades(t, p) {
      CascadeDecreases(t, p);
    } else {
      assert [p] + [] == [p];
    }
    hide *;
  }

  lemma {:induction false} Follows(s: Snapshot, v: seq<Peer>, id: BusId)
    requires s.Valid() && Known(s, v) && Swept(s, v).Valid()
    ensures var (t, w) := (Swept(s, v), Visits(Swept(s, v), id));
            && CarriesOn(s, v, w) && Remove(t, id) == Swept(s, v + w)
            && if id in t.data then w != [] && w[0] == t.data[id] else w == []
    decreases |Swept(s, v).data|, Below(Swept(s, v), id), Youth(Swept(s, v), id)
  {
    var t := Swept(s, v);
    if id !in t.data {
      FollowsNone(s, v, id);
    } else {
      Level(s, v, id);
      var p := t.data[id];
      NextIs(s, v, p);
      hide *;
      var x := if Cascades(t, p) then Visits(Swept(s, v + [p]), s.up[p].busId) else [];
      if Cascades(t, p) {
        MeasureOf(Swept(s, v + [p]), s.up[p].busId, t, id);
        Follows(s, v + [p], s.up[p].busId);
      } else {
        CarriesOnNone(s, v + [p]);
      }
      CarriesOnStep(s, v, p, x);
      Regroup(v, p, x);
    }
  }

  lemma FollowsNone(s: Snapshot, v: seq<Peer>, id: BusId)
    requires s.Valid() && Known(s, v) && Swept(s, v).Valid() && id !in Swept(s, v).data
    ensures var (t, w) := (Swept(s, v), Visits(Swept(s, v), id));
            CarriesOn(s, v, w) && Remove(t, id) == Swept(s, v + w) && w == []
  {
    CarriesOnNone(s, v);
    assert v + [] == v;
  }

  lemma Regroup(v: seq<Peer>, p: Peer, x: seq<Peer>)
    ensures v + ([p] + x) == v + [p] + x && v + [p] + [] == v + [p]
  {
  }

  lemma MeasureOf(t: Snapshot, id: BusId, s: Snapshot, id': BusId)
    requires t.Consistent() && s.Consistent() && Smaller(t, id, s, id')
    ensures || |t.data| < |s.data|
            || (|t.data| == |s.data| &&
                (Below(t, id) < Below(s, id') || (Below(t, id) == Below(s, id') && Youth(t, id) < Youth(s, id'))))
  {
  }

  lemma CarriesOnNone(s: Snapshot, v: seq<Peer>)
    requires Known(s, v)
    ensures CarriesOn(s, v, [])
  {
    assert v + [] == v;
  }

  lemma SweptNone(s: Snapshot)
    requires s.Consistent()
    ensures Swept(s, []) == s
  {
    forall q | q in s.down ensures Left(s.down[q], []) == s.down[q] {
    }
  }

  lemma CarriedTrail(s: Snapshot, id: BusId, v: seq<Peer>)
    requires s.Valid() && CarriesOn(s, [], v) && if id in s.data then v != [] && v[0] == s.data[id] else v == []
    ensures IsTrail(s, id, v)
  {
    hide Known;
    hide Next;
    assert [] + v == v;
    forall i | 0 < i < |v| ensures Known(s, v[..i]) && Next(s, v[..i]) == Some(v[i]) {
      assert [] + v[..i] == v[..i];
    }
  }

  /** There is a trail, and it decides what is registered, listed and asked for afterwards. */
  lemma RemoveIsTrail(s: Snapshot, id: BusId)
    requires s.Valid()
    ensures exists v :: IsTrail(s, id, v) && Remove(s, id) == Swept(s, v)
  {
    SweptNone(s);
    var v := Visits(s, id);
    assert [] + v == v && Known(s, []);
    hide *;
    Follows(s, [], id);
    CarriedTrail(s, id, v);
    assert IsTrail(s, id, v) && Remove(s, id) == Swept(s, v);
  }

  lemma TrailNext(s: Snapshot, id: BusId, v: seq<Peer>, n: nat)
    requires s.Consistent() && IsTrail(s, id, v) && 0 < n <= |v|
    ensures Known(s, v[..n]) && Next(s, v[..n]) == if n < |v| then Some(v[n]) else None
  {
    hide Next;
    assert v[..|v|] == v;
  }

  lemma {:induction false} TrailPrefix(s: Snapshot, id: BusId, v: seq<Peer>, w: seq<Peer>, n: nat)
    requires s.Consistent() && IsTrail(s, id, v) && IsTrail(s, id, w) && n <= |v| && n <= |w|
    ensures v[..n] == w[..n]
  {
    hide Known;
    hide Next;
    if n > 0 {
      TrailPrefix(s, id, v, w, n - 1);
      if n > 1 {
        TrailNext(s, id, v, n - 1);
        TrailNext(s, id, w, n - 1);
      }
      assert v[..n] == v[..n - 1] + [v[n - 1]] && w[..n] == w[..n - 1] + [w[n - 1]];
    }
  }

  lemma TrailUnique(s: Snapshot, id: BusId, v: seq<Peer>, w: seq<Peer>)
    requires s.Consistent() && IsTrail(s, id, v) && IsTrail(s, id, w)
    ensures v == w
  {
    hide Known;
    hide Next;
    if id in s.data {
      var n := if |v| < |w| then |v| else |w|;
      TrailPrefix(s, id, v, w, n);
      TrailNext(s, id, v, n);
      TrailNext(s, id, w, n);
      assert v[..|v|] == v && w[..|w|] == w;
    }
  }

  /** Following the trail and removing are the same, whoever follows it. */
  lemma TrailDecides(s: Snapshot, id: BusId, v: seq<Peer>)
    requires s.Valid() && IsTrail(s, id, v)
    ensures Remove(s, id) == Swept(s, v)
  {
    RemoveIsTrail(s, id);
    var w :| IsTrail(s, id, w) && Remove(s, id) == Swept(s, w);
    TrailUnique(s, id, v, w);
  }

  // ----- Whom a removal takes -----

  /** Everybody visited held an id before the removal; a visit goes to the upstream or to a taker of its id. */
  lemma TrailVisits(s: Snapshot, id: BusId, v: seq<Peer>, i: nat)
    requires s.Valid() && id in s.data && IsTrail(s, id, v) && i < |v|
    ensures s.Registered(v[i])
    ensures i > 0 ==> v[i - 1] in s.up && v[i].busId == s.up[v[i - 1]].busId && Emptied(s, v[..i], s.up[v[i - 1]])
                      && (s.up[v[i - 1]] in s.proactive ==> s.up[v[i - 1]] in v[..i])
  {
    if i > 0 {
      TrailNext(s, id, v, i);
      assert v[..i][i - 1] == v[i - 1];
    }
  }

  /** `v[j]` is not the upstream of the peer visited before it, but took over its id. */
  ghost predicate Taker(s: Snapshot, v: seq<Peer>, j: nat) {
    0 < j < |v| && v[j - 1] in s.up && v[j] != s.up[v[j - 1]]
  }

  ghost predicate Unrelated(s: Snapshot, p: Peer, q: Peer)
    requires s.Valid()
  {
    q != p && (q in s.proactive || q !in Ancestors(s.up, p))
  }

  /** A peer other than a passive ancestor loses its registration. */
  ghost predicate TakesUnrelated(s: Snapshot, id: BusId)
    requires s.Valid() && id in s.data
  {
    exists gone :: gone in s.data && gone !in Remove(s, id).data && Unrelated(s, s.data[id], s.data[gone])
  }

  lemma LosesRegistration(s: Snapshot, id: BusId, v: seq<Peer>, gone: BusId)
    requires s.Valid() && IsTrail(s, id, v) && gone in s.data
    ensures gone !in Remove(s, id).data <==> Out(s, v, gone)
  {
    TrailDecides(s, id, v);
    hide Snapshot.Valid;
    hide Remove;
  }

  /**
   When a removal takes somebody it should not: exactly if its trail comes, with all
   peers below it visited already, to one that is no ancestor or was asked for.
   */
  lemma TakesUnrelatedIff(s: Snapshot, id: BusId, v: seq<Peer>)
    requires s.Valid() && id in s.data && IsTrail(s, id, v)
    ensures TakesUnrelated(s, id) <==> exists i: nat :: i < |v| && Leaves(s, v, i) && Unrelated(s, v[0], v[i])
  {
    forall gone | gone in s.data ensures gone !in Remove(s, id).data <==> Out(s, v, gone) {
      LosesRegistration(s, id, v, gone);
    }
    forall i: nat | i < |v| ensures s.Registered(v[i]) {
      TrailVisits(s, id, v, i);
    }
    hide Leaves;
    hide Unrelated;
    hide Snapshot.Valid;
    hide Remove;
    hide Next;
    if TakesUnrelated(s, id) {
      var gone :| gone in s.data && gone !in Remove(s, id).data && Unrelated(s, s.data[id], s.data[gone]);
      var i: nat :| i < |v| && v[i].busId == gone && Leaves(s, v, i);
      assert s.data[gone] == v[i];
    }
    if i: nat :| i < |v| && Leaves(s, v, i) && Unrelated(s, v[0], v[i]) {
      assert Out(s, v, v[i].busId);
      assert v[i].busId in s.data && s.data[v[i].busId] == v[i];
    }
  }

  /** Without a taker the trail climbs from upstream to upstream. */
  lemma {:induction false} ClimbsAncestors(s: Snapshot, id: BusId, v: seq<Peer>, i: nat, n: nat)
    requires s.Valid() && id in s.data && IsTrail(s, id, v) && i < n <= |v|
    requires forall j: nat :: j < n ==> !Taker(s, v, j)
    ensures i > 0 ==> v[i] in Ancestors(s.up, v[0]) && v[i] == s.up[v[i - 1]]
    ensures Rank(s.up, v[i]) + i == Rank(s.up, v[0])
  {
    if i > 0 {
      TrailVisits(s, id, v, i);
      ClimbsAncestors(s, id, v, i - 1, n);
      assert !Taker(s, v, i);
      RankUp(s.up, v[i - 1]);
      AncestorsUp(s.up, v[i - 1]);
      if i > 1 {
        AncestorTransitive(s.up, v[0], v[i - 1], v[i]);
      }
    }
  }

  /**
   Without a taker a removal takes its target's passive ancestors as far as the trail
   goes, each of them, and of the others at most the target.
   */
  lemma NoTakerNoHarm(s: Snapshot, id: BusId, v: seq<Peer>)
    requires s.Valid() && id in s.data && IsTrail(s, id, v)
    requires forall j: nat :: j < |v| ==> !Taker(s, v, j)
    ensures forall i :: 0 < i < |v| ==>
              v[i] in Ancestors(s.up, v[0]) && v[i] !in s.proactive && v[i].busId !in Remove(s, id).data
    ensures !TakesUnrelated(s, id)
  {
    forall i | 0 < i < |v|
      ensures v[i] in Ancestors(s.up, v[0]) && v[i] !in s.proactive && v[i].busId !in Remove(s, id).data
    {
      ClimbedIsPassive(s, id, v, i, |v|);
      LosesRegistration(s, id, v, v[i].busId);
      assert Out(s, v, v[i].busId);
    }
    TakesUnrelatedIff(s, id, v);
  }

  lemma ClimbedIsPassive(s: Snapshot, id: BusId, v: seq<Peer>, i: nat, n: nat)
    requires s.Valid() && id in s.data && IsTrail(s, id, v) && 0 < i < n <= |v|
    requires forall j: nat :: j < n ==> !Taker(s, v, j)
    ensures v[i] in Ancestors(s.up, v[0]) && v[i] !in s.proactive && Leaves(s, v, i) && v[i].busId in s.data
  {
    TrailVisits(s, id, v, i);
    ClimbsAncestors(s, id, v, i, n);
    forall j: nat | j < i ensures v[j] != v[i] {
      ClimbsAncestors(s, id, v, j, n);
    }
  }

  /**
   What becomes of a taker: it is asked for and listed no more. With nobody below it
   its registration goes; with somebody below it that the trail does not visit it stays.
   */
  lemma TakerFate(s: Snapshot, id: BusId, v: seq<Peer>, j: nat)
    requires s.Valid() && id in s.data && IsTrail(s, id, v) && Taker(s, v, j)
    ensures var (taker, gone, r) := (v[j], s.up[v[j - 1]], Remove(s, id));
            && !s.Registered(gone) && s.Registered(taker) && taker.busId == gone.busId && v[j - 1].serial < taker.serial
            && taker !in r.proactive && (forall q :: q in r.down ==> taker !in r.down[q].Values)
            && (s.down[taker] == map[] ==> taker.busId !in r.data)
            && ((exists k :: k in s.down[taker] && s.down[taker][k] !in v) ==> taker.busId in r.data)
            && (s.down[taker] == map[] && Unrelated(s, v[0], taker) ==> TakesUnrelated(s, id))
  {
    TrailVisits(s, id, v, j);
    TrailDecides(s, id, v);
    LosesRegistration(s, id, v, v[j].busId);
    var taker := v[j];
    if s.down[taker] == map[] {
      assert Leaves(s, v, j);
      TakesUnrelatedIff(s, id, v);
    }
    if k :| k in s.down[taker] && s.down[taker][k] !in v {
      forall i: nat | i < |v| && v[i].busId == taker.busId ensures !Leaves(s, v, i) {
        TrailVisits(s, id, v, i);
        assert v[i] == taker;
      }
    }
  }
}
