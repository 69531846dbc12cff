/**
 Endpoints, their connections, and the bindings between them, with resets that run from
 one to the other and back. User callbacks are recorded in a log and do nothing.
 */
module Binding {

  datatype Status = Disconnected | Connecting | Handshaking | Connected | Disconnecting

  /** One call of the disconnect callback, with the endpoint it names, if any. */
  datatype Event = Event(ep: Endpoint?, conn: Connection)

  /** `busyEps` and `busy` are in the middle of a reset. */
  datatype State = State(
    eps: set<Endpoint>,
    conns: set<Connection>,
    ctrl: map<Endpoint, Connection>,
    data: map<Endpoint, seq<Connection>>,
    binding: map<Connection, Endpoint>,
    busyEps: set<Endpoint>,
    busy: set<Connection>,
    log: seq<Event>)
  {
    /** The control connection first, then the data connections. */
    ghost function Members(e: Endpoint): seq<Connection>
      requires e in data
    {
      (if e in ctrl then [ctrl[e]] else []) + data[e]
    }

    ghost predicate Closed() {
      && data.Keys == eps && ctrl.Keys <= eps && busyEps <= eps && busy <= conns && binding.Keys <= conns
      && forall c :: c in binding ==> binding[c] in eps
    }

    /** No connection is a member twice, and members are bound to their endpoint. */
    ghost predicate Owned(e: Endpoint)
      requires e in data
    {
      Distinct(Members(e)) && forall c :: c in Members(e) ==> c in binding && binding[c] == e
    }

    ghost predicate MembersBound()
      requires Closed()
    {
      forall e :: e in eps ==> Owned(e)
    }

    /** A bound connection is a member, unless its endpoint is being reset and has let go of all. */
    ghost predicate BoundMembers()
      requires Closed()
    {
      && (forall e :: e in busyEps ==> Members(e) == [])
      && (forall c :: c in binding && binding[c] !in busyEps ==> c in Members(binding[c]))
    }

    ghost predicate Valid() {
      Closed() && MembersBound() && BoundMembers()
    }

    ghost predicate SameObjects(s: State) {
      eps == s.eps && conns == s.conns && busyEps == s.busyEps && busy == s.busy
    }

    ghost predicate AtRest() {
      busyEps == {} && busy == {}
    }
  }

  ghost predicate Distinct(cs: seq<Connection>) {
    forall i, j :: 0 <= i < j < |cs| ==> cs[i] != cs[j]
  }

  ghost const NOTHING: State := State({}, {}, map[], map[], map[], {}, {}, [])

  // ----- What the operations come to -----

  /** The callbacks of resetting `members` in order: those already being reset are passed over. */
  ghost function Gone(members: seq<Connection>, busy: set<Connection>): (r: seq<Event>) {
    if members == [] then []
    else
      var m := members[|members| - 1];
      Gone(members[..|members| - 1], busy) + if m in busy then [] else [Event(null, m)]
  }

  ghost function Unbound(s: State, cs: set<Connection>): State {
    s.(binding := s.binding - cs)
  }

  ghost function Set(cs: seq<Connection>): set<Connection> {
    set c | c in cs
  }

  /** The endpoint loses all members, and each is reset. */
  ghost function ResetEndpoint(s: State, e: Endpoint): (t: State)
    requires s.Valid() && e in s.eps
    ensures t.SameObjects(s)
  {
    if e in s.busyEps then s
    else
      var members := s.Members(e);
      s.(ctrl := s.ctrl - {e}, data := s.data[e := []], binding := s.binding - Set(members), log := s.log + Gone(members, s.busy))
  }

  ghost function Without(cs: seq<Connection>, c: Connection): (r: seq<Connection>)
    ensures forall x :: x in r ==> x in cs
  {
    if cs == [] then []
    else if cs[0] == c then cs[1..]
    else [cs[0]] + Without(cs[1..], c)
  }

  ghost function DropData(s: State, e: Endpoint, c: Connection): State
    requires e in s.data
  {
    s.(binding := s.binding - {c}, data := s.data[e := Without(s.data[e], c)])
  }

  ghost function Remove(s: State, e: Endpoint, c: Connection): (r: (State, bool))
    requires s.Valid() && e in s.eps
    ensures r.0.SameObjects(s)
  {
    if c !in s.binding || s.binding[c] != e then (s, false)
    else if e in s.busyEps then (Unbound(s, {c}), true)
    else if e in s.ctrl && s.ctrl[e] == c then (ResetEndpoint(s, e), true)
    else
      DropDataValid(s, e, c);
      var t := DropData(s, e, c);
      (if t.data[e] == [] then ResetEndpoint(t, e) else t, true)
  }

  ghost function BoundTo(s: State, c: Connection): Endpoint? {
    if c in s.binding then s.binding[c] else null
  }

  ghost function ResetConnection(s: State, c: Connection): (t: State)
    requires s.Valid() && c in s.conns
    ensures t.SameObjects(s)
  {
    if c in s.busy then s
    else
      assert (s.busy + {c}) - {c} == s.busy;
      var s1 := s.(busy := s.busy + {c});
      var s2 := if c in s.binding then Remove(s1, s.binding[c], c).0 else s1;
      s2.(busy := s2.busy - {c}, log := s2.log + [Event(BoundTo(s, c), c)])
  }

  ghost function Added(s: State, e: Endpoint, c: Connection, forceData: bool): State
    requires e in s.data
  {
    if forceData || e in s.ctrl then s.(data := s.data[e := s.data[e] + [c]], binding := s.binding[c := e])
    else s.(ctrl := s.ctrl[e := c], binding := s.binding[c := e])
  }

  ghost function Add(s: State, e: Endpoint, c: Connection, forceData: bool): (r: (State, bool))
    requires s.Valid() && e in s.eps && c in s.conns
    ensures r.0.SameObjects(s)
  {
    if e in s.busyEps then (s, false)
    else if c in s.binding then (s, s.binding[c] == e)
    else (Added(s, e, c, forceData), true)
  }

  // ----- Each operation keeps the invariant -----

  lemma {:induction false} WithoutDistinct(cs: seq<Connection>, c: Connection)
    requires Distinct(cs)
    ensures Distinct(Without(cs, c)) && forall x :: x in Without(cs, c) <==> x in cs && x != c
  {
    if cs != [] {
      assert forall x :: x in cs <==> x == cs[0] || x in cs[1..];
      if cs[0] != c {
        WithoutDistinct(cs[1..], c);
        assert cs[0] !in Without(cs[1..], c);
      }
    }
  }

  /** `t` differs from `s` at most in the members of `e`, and in who is bound to `e`. */
  ghost predicate DiffersAt(s: State, t: State, e: Endpoint)
    requires s.Closed()
  {
    && t.Closed() && e in s.eps && t.eps == s.eps && t.conns == s.conns && t.busyEps == s.busyEps
    && (forall x :: x in s.eps && x != e ==>
          t.data[x] == s.data[x] && (x in t.ctrl <==> x in s.ctrl) && (x in s.ctrl ==> t.ctrl[x] == s.ctrl[x]))
    && (forall c :: c in s.conns && BoundTo(s, c) != BoundTo(t, c) ==> BoundTo(s, c) in {e, null} && BoundTo(t, c) in {e, null})
  }

  /** Then only `e` needs looking at. */
  lemma ValidAt(s: State, t: State, e: Endpoint)
    requires s.Valid() && DiffersAt(s, t, e) && t.Owned(e)
    requires if e in t.busyEps then t.Members(e) == [] else forall c :: c in t.conns && BoundTo(t, c) == e ==> c in t.Members(e)
    ensures t.Valid()
  {
    forall x | x in t.eps ensures t.Owned(x) {
      if x != e {
        assert t.Members(x) == s.Members(x) && s.Owned(x);
        assert forall c :: c in t.Members(x) ==> BoundTo(s, c) == x;
      }
    }
    forall c | c in t.binding && t.binding[c] !in t.busyEps ensures c in t.Members(t.binding[c]) {
      assert BoundTo(t, c) == t.binding[c];
      if t.binding[c] != e {
        assert BoundTo(s, c) == t.binding[c];
      }
    }
  }

  lemma ResetEndpointValid(s: State, e: Endpoint)
    requires s.Valid() && e in s.eps
    ensures ResetEndpoint(s, e).Valid() && (e !in s.busyEps ==> ResetEndpoint(s, e).Members(e) == [])
  {
    if e !in s.busyEps {
      var t := ResetEndpoint(s, e);
      assert s.Owned(e);
      assert forall c :: c in s.conns && BoundTo(s, c) == e ==> c in s.Members(e);
      assert t.Members(e) == [];
      hide s.Members;
      ValidAt(s, t, e);
    }
  }

  lemma DropDataMembers(s: State, e: Endpoint, c: Connection)
    requires s.Valid() && e in s.eps && e !in s.busyEps && c in s.binding && s.binding[c] == e
    requires !(e in s.ctrl && s.ctrl[e] == c)
    ensures c in s.data[e] && DropData(s, e, c).Members(e) == Without(s.Members(e), c)
  {
    assert c in s.Members(e);
    if e in s.ctrl {
      assert s.Members(e)[1..] == s.data[e];
    } else {
      assert s.Members(e) == s.data[e];
    }
  }

  lemma DropDataValid(s: State, e: Endpoint, c: Connection)
    requires s.Valid() && e in s.eps && e !in s.busyEps && c in s.binding && s.binding[c] == e
    requires !(e in s.ctrl && s.ctrl[e] == c)
    ensures DropData(s, e, c).Valid() && c in s.data[e]
    ensures DropData(s, e, c).Members(e) == Without(s.Members(e), c)
  {
    var t := DropData(s, e, c);
    DropDataMembers(s, e, c);
    assert s.Owned(e);
    WithoutDistinct(s.Members(e), c);
    ValidAt(s, t, e);
  }

  lemma AddMembers(s: State, e: Endpoint, c: Connection, forceData: bool)
    requires s.Closed() && e in s.eps && c in s.conns && e !in s.busyEps && c !in s.binding
    ensures var t := Added(s, e, c, forceData);
            && DiffersAt(s, t, e) && t.binding == s.binding[c := e]
            && t.Members(e) == if forceData || e in s.ctrl then s.Members(e) + [c] else [c] + s.Members(e)
  {
  }

  lemma AddValid(s: State, e: Endpoint, c: Connection, forceData: bool)
    requires s.Valid() && e in s.eps && c in s.conns
    ensures Add(s, e, c, forceData).0.Valid()
  {
    if e !in s.busyEps && c !in s.binding {
      var t := Added(s, e, c, forceData);
      assert s.Owned(e) && c !in s.Members(e);
      AddMembers(s, e, c, forceData);
      AddedOwned(s, t, e, c);
      assert forall x :: x in t.conns && BoundTo(t, x) == e ==> x in t.Members(e);
      hide Added;
      hide DiffersAt;
      ValidAt(s, t, e);
    }
  }

  lemma AddedOwned(s: State, t: State, e: Endpoint, c: Connection)
    requires s.Closed() && e in s.data && e in t.data && s.Owned(e) && c !in s.Members(e) && t.binding == s.binding[c := e]
    requires t.Members(e) == s.Members(e) + [c] || t.Members(e) == [c] + s.Members(e)
    ensures t.Owned(e)
    ensures forall x :: x in s.Members(e) || x == c ==> x in t.Members(e)
  {
    hide State.Members;
  }

  lemma RemoveValid(s: State, e: Endpoint, c: Connection)
    requires s.Valid() && e in s.eps
    ensures Remove(s, e, c).0.Valid()
  {
    if c in s.binding && s.binding[c] == e {
      if e in s.busyEps {
        UnboundValid(s, c);
      } else if e in s.ctrl && s.ctrl[e] == c {
        ResetEndpointValid(s, e);
      } else {
        DropDataValid(s, e, c);
        ResetEndpointValid(DropData(s, e, c), e);
      }
    }
  }

  /** The log and the flags of connections have no part in the invariant. */
  lemma ValidOtherwise(s: State, busy: set<Connection>, log: seq<Event>)
    requires s.Valid() && busy <= s.conns
    ensures s.(busy := busy, log := log).Valid()
  {
    var t := s.(busy := busy, log := log);
    assert forall x :: x in s.eps ==> t.Members(x) == s.Members(x);
  }

  lemma ResetConnectionValid(s: State, c: Connection)
    requires s.Valid() && c in s.conns
    ensures ResetConnection(s, c).Valid()
  {
    if c !in s.busy {
      var s1 := s.(busy := s.busy + {c});
      ValidOtherwise(s, s.busy + {c}, s.log);
      if c in s.binding {
        RemoveValid(s1, s.binding[c], c);
        var s2 := Remove(s1, s.binding[c], c).0;
        ValidOtherwise(s2, s2.busy - {c}, s2.log + [Event(BoundTo(s, c), c)]);
      } else {
        ValidOtherwise(s1, s1.busy - {c}, s1.log + [Event(BoundTo(s, c), c)]);
      }
    }
  }

  // ----- Runs -----

  datatype Op =
    | OpAdd(e: Endpoint, c: Connection, forceData: bool)
    | OpRemove(e: Endpoint, c: Connection)
    | OpResetEndpoint(e: Endpoint)
    | OpResetConnection(c: Connection)
  {
    ghost predicate On(s: State) {
      match this
      case OpAdd(e, c, _) => e in s.eps && c in s.conns
      case OpRemove(e, c) => e in s.eps && c in s.conns
      case OpResetEndpoint(e) => e in s.eps
      case OpResetConnection(c) => c in s.conns
    }
  }

  ghost function Do(s: State, op: Op): (t: State)
    requires s.Valid() && op.On(s)
  {
    match op
    case OpAdd(e, c, forceData) => Add(s, e, c, forceData).0
    case OpRemove(e, c) => Remove(s, e, c).0
    case OpResetEndpoint(e) => ResetEndpoint(s, e)
    case OpResetConnection(c) => ResetConnection(s, c)
  }

  lemma DoValid(s: State, op: Op)
    requires s.Valid() && op.On(s)
    ensures Do(s, op).Valid() && Do(s, op).SameObjects(s)
  {
    hide State.Valid;
    hide Add;
    hide Remove;
    hide ResetEndpoint;
    hide ResetConnection;
    match op
    case OpAdd(e, c, forceData) => AddValid(s, e, c, forceData);
    case OpRemove(e, c) => RemoveValid(s, e, c);
    case OpResetEndpoint(e) => ResetEndpointValid(s, e);
    case OpResetConnection(c) => ResetConnectionValid(s, c);
  }

  ghost predicate AllOn(s: State, ops: seq<Op>) {
    forall i :: 0 <= i < |ops| ==> ops[i].On(s)
  }

  lemma StillOn(s: State, t: State, ops: seq<Op>)
    requires AllOn(s, ops) && t.SameObjects(s) && ops != []
    ensures AllOn(t, ops[1..])
  {
    forall i | 0 <= i < |ops[1..]| ensures ops[1..][i].On(t) {
      assert ops[i + 1].On(s);
    }
  }

  ghost function After(s: State, ops: seq<Op>): (t: State)
    requires s.Valid() && AllOn(s, ops)
    ensures t.Valid() && t.SameObjects(s)
    decreases |ops|
  {
    if ops == [] then s
    else
      DoValid(s, ops[0]);
      StillOn(s, Do(s, ops[0]), ops);
      After(Do(s, ops[0]), ops[1..])
  }

  ghost function Times(cs: seq<Connection>, c: Connection): nat {
    multiset(cs)[c]
  }

  lemma {:induction false} DistinctTimes(cs: seq<Connection>, c: Connection)
    requires Distinct(cs)
    ensures Times(cs, c) == if c in cs then 1 else 0
  {
    if cs != [] {
      var (m, last) := (cs[..|cs| - 1], cs[|cs| - 1]);
      assert cs == m + [last];
      DistinctTimes(m, c);
      assert c in cs <==> c in m || c == last;
    }
  }

  /** Between operations, a connection is bound to an endpoint exactly if it is its member, once. */
  lemma BoundIffMember(s: State, e: Endpoint, c: Connection)
    requires s.Valid() && s.busyEps == {} && e in s.eps
    ensures Times(s.Members(e), c) <= 1
    ensures BoundTo(s, c) == e <==> Times(s.Members(e), c) == 1
  {
    assert s.Owned(e);
    DistinctTimes(s.Members(e), c);
  }

  /** After any sequence of additions, removals and resets on either side, bindings are consistent. */
  lemma BindingsConsistent(s: State, ops: seq<Op>, e: Endpoint, c: Connection)
    requires s.Valid() && s.AtRest() && e in s.eps && AllOn(s, ops)
    ensures var t := After(s, ops);
            && t.AtRest() && Times(t.Members(e), c) <= 1
            && (BoundTo(t, c) == e <==> Times(t.Members(e), c) == 1)
  {
    BoundIffMember(After(s, ops), e, c);
  }

  // ----- Who is told -----

  /** The connections an end of the log names. */
  ghost function Told(log: seq<Event>): (r: seq<Connection>)
    ensures |r| == |log|
  {
    seq(|log|, i requires 0 <= i < |log| => log[i].conn)
  }

  lemma {:induction false} GoneTells(members: seq<Connection>)
    ensures Told(Gone(members, {})) == members
  {
    if members != [] {
      var m := members[..|members| - 1];
      GoneTells(m);
      assert Gone(members, {}) == Gone(m, {}) + [Event(null, members[|members| - 1])];
      assert Told(Gone(members, {})) == Told(Gone(m, {})) + [members[|members| - 1]];
      assert members == m + [members[|members| - 1]];
    }
  }

  lemma {:induction false} GoneOthers(members: seq<Connection>, c: Connection)
    requires c !in members
    ensures Gone(members, {c}) == Gone(members, {})
  {
    if members != [] {
      GoneOthers(members[..|members| - 1], c);
    }
  }

  lemma {:induction false} GoneSkips(members: seq<Connection>, c: Connection)
    requires Distinct(members) && members != [] && members[0] == c
    ensures Gone(members, {c}) == Gone(members[1..], {})
  {
    if |members| == 1 {
      assert members[..0] == [] && members[1..] == [];
    } else {
      var last := |members| - 1;
      GoneSkips(members[..last], c);
      assert members[..last][1..] == members[1..][..last - 1];
      assert members[1..][last - 1] == members[last] != c;
    }
  }

  /** Resetting an endpoint empties it, frees its members and tells of each exactly once. */
  lemma EndpointResetTells(s: State, e: Endpoint)
    requires s.Valid() && s.AtRest() && e in s.eps
    ensures var t := ResetEndpoint(s, e);
            && t.Members(e) == [] && t.log == s.log + t.log[|s.log|..] && Told(t.log[|s.log|..]) == s.Members(e)
            && forall c :: c in s.Members(e) ==> BoundTo(t, c) == null
  {
    GoneTells(s.Members(e));
    ResetEndpointValid(s, e);
    assert ResetEndpoint(s, e).log[|s.log|..] == Gone(s.Members(e), {});
  }

  /** The connection whose loss empties the endpoint: the control one, or the last data one. */
  ghost predicate Vital(s: State, e: Endpoint, c: Connection)
    requires s.Valid() && e in s.eps
  {
    BoundTo(s, c) == e && ((e in s.ctrl && s.ctrl[e] == c) || s.data[e] == [c])
  }

  /** `t` is `s` after `e` has lost all members, and all of them but `c` have been told of once. */
  ghost predicate LostAll(s: State, t: State, e: Endpoint, c: Connection)
    requires s.Valid() && t.Valid() && e in s.eps && e in t.eps
  {
    && t.Members(e) == [] && |t.log| >= |s.log| && t.log[..|s.log|] == s.log
    && multiset(Told(t.log[|s.log|..]) + [c]) == multiset(s.Members(e))
    && forall x :: x in s.Members(e) ==> BoundTo(t, x) == null
  }

  lemma CtrlRemoval(s: State, e: Endpoint, c: Connection)
    requires s.Valid() && s.busyEps == {} && s.busy == {c} && e in s.eps && e in s.ctrl && s.ctrl[e] == c
    ensures ResetEndpoint(s, e).Valid() && LostAll(s, ResetEndpoint(s, e), e, c)
  {
    assert s.Owned(e);
    var members := s.Members(e);
    GoneSkips(members, c);
    GoneTells(members[1..]);
    ResetEndpointValid(s, e);
    assert ResetEndpoint(s, e).log[|s.log|..] == Gone(members, s.busy);
    assert members == [c] + members[1..];
  }

  lemma LastDataRemoval(s: State, e: Endpoint, c: Connection)
    requires s.Valid() && s.busyEps == {} && s.busy == {c} && e in s.eps && BoundTo(s, c) == e
    requires !(e in s.ctrl && s.ctrl[e] == c) && s.data[e] == [c]
    ensures var d := DropData(s, e, c);
            d.Valid() && d.data[e] == [] && ResetEndpoint(d, e).Valid() && LostAll(s, ResetEndpoint(d, e), e, c)
  {
    var d := DropData(s, e, c);
    DropDataValid(s, e, c);
    assert Without([c], c) == [];
    var rest := d.Members(e);
    assert s.Members(e) == rest + [c] && s.Owned(e);
    GoneOthers(rest, c);
    GoneTells(rest);
    ResetEndpointValid(d, e);
    assert ResetEndpoint(d, e).log[|s.log|..] == Gone(rest, s.busy);
  }

  /** What removing a vital connection leaves and who is told, besides that connection itself. */
  lemma VitalRemoval(s: State, e: Endpoint, c: Connection)
    requires s.Valid() && s.busyEps == {} && s.busy == {c} && e in s.eps && Vital(s, e, c)
    ensures Remove(s, e, c).0.Valid() && LostAll(s, Remove(s, e, c).0, e, c)
  {
    hide LostAll;
    if e in s.ctrl && s.ctrl[e] == c {
      CtrlRemoval(s, e, c);
    } else {
      LastDataRemoval(s, e, c);
    }
  }

  /** `t` is `s` after `e` has lost all members, all of them told of once, `c` the last. */
  ghost predicate AllTold(s: State, t: State, e: Endpoint, c: Connection)
    requires s.Valid() && t.Valid() && e in s.eps && e in t.eps
  {
    && t.Members(e) == [] && |t.log| > |s.log| && t.log[..|s.log|] == s.log && t.log[|t.log| - 1] == Event(e, c)
    && multiset(Told(t.log[|s.log|..])) == multiset(s.Members(e))
    && forall x :: x in s.Members(e) ==> BoundTo(t, x) == null
  }

  lemma ToldLast(s: State, t: State, e: Endpoint, c: Connection, busy: set<Connection>)
    requires s.Valid() && t.Valid() && e in s.eps && e in t.eps && LostAll(s, t, e, c) && busy <= t.conns
    ensures var u := t.(busy := busy, log := t.log + [Event(e, c)]); u.Valid() && AllTold(s, u, e, c)
  {
    var u := t.(busy := busy, log := t.log + [Event(e, c)]);
    ValidOtherwise(t, busy, u.log);
    assert u.Members(e) == t.Members(e);
    assert u.log[|s.log|..] == t.log[|s.log|..] + [Event(e, c)];
    assert Told(u.log[|s.log|..]) == Told(t.log[|s.log|..]) + [c];
    hide State.Valid;
  }

  /** The conclusion does not look at the flags of connections. */
  lemma FlagsAside(s: State, t: State, e: Endpoint, c: Connection, busy: set<Connection>)
    requires s.Valid() && s.(busy := busy).Valid() && t.Valid() && e in s.eps && e in t.eps
    requires AllTold(s.(busy := busy), t, e, c)
    ensures AllTold(s, t, e, c)
  {
    assert s.(busy := busy).Members(e) == s.Members(e);
  }

  /** Resetting a vital connection empties its endpoint, and every member is told of exactly once. */
  lemma ConnectionResetTells(s: State, e: Endpoint, c: Connection)
    requires s.Valid() && s.AtRest() && e in s.eps && c in s.conns && Vital(s, e, c)
    ensures ResetConnection(s, c).Valid() && AllTold(s, ResetConnection(s, c), e, c)
  {
    var s1 := s.(busy := {c});
    ValidOtherwise(s, {c}, s.log);
    assert s1.Members(e) == s.Members(e) && s.busy + {c} == {c} && Vital(s1, e, c);
    VitalRemoval(s1, e, c);
    var s2 := Remove(s1, e, c).0;
    assert ResetConnection(s, c) == s2.(busy := s2.busy - {c}, log := s2.log + [Event(e, c)]);
    assert s2.busy - {c} <= s2.conns;
    hide *;
    ToldLast(s1, s2, e, c, s2.busy - {c});
    FlagsAside(s, ResetConnection(s, c), e, c, {c});
  }

  /** Removing without resetting: a control connection is told of too, a last data connection is not. */
  lemma RemovalTells(s: State, e: Endpoint, c: Connection)
    requires s.Valid() && s.AtRest() && e in s.eps && Vital(s, e, c)
    ensures var t := Remove(s, e, c).0;
            && t.Valid() && t.Members(e) == [] && t.log == s.log + t.log[|s.log|..]
            && Told(t.log[|s.log|..]) == if e in s.ctrl && s.ctrl[e] == c then s.Members(e) else Without(s.Members(e), c)
  {
    if e in s.ctrl && s.ctrl[e] == c {
      EndpointResetTells(s, e);
      ResetEndpointValid(s, e);
    } else {
      DropDataValid(s, e, c);
      var d := DropData(s, e, c);
      assert Without([c], c) == [];
      EndpointResetTells(d, e);
      ResetEndpointValid(d, e);
    }
  }

  /** Resetting any other bound connection takes it out alone, and tells of it alone. */
  lemma OtherResetTells(s: State, e: Endpoint, c: Connection)
    requires s.Valid() && s.AtRest() && e in s.eps && c in s.conns && BoundTo(s, c) == e && !Vital(s, e, c)
    ensures var t := ResetConnection(s, c);
            && t.Members(e) == Without(s.Members(e), c) && t.Members(e) != [] && BoundTo(t, c) == null
            && t.log == s.log + [Event(e, c)]
  {
    var s1 := s.(busy := {c});
    ValidOtherwise(s, {c}, s.log);
    assert s1.Members(e) == s.Members(e) && s.busy + {c} == {c};
    DropDataValid(s1, e, c);
    NotLast(s.data[e], c);
  }

  lemma NotLast(cs: seq<Connection>, c: Connection)
    requires c in cs && cs != [c]
    ensures Without(cs, c) != []
  {
  }

  // ----- An endpoint letting go of its members one by one -----

  ghost function Emptied(s: State, e: Endpoint): State {
    s.(busyEps := s.busyEps + {e}, ctrl := s.ctrl - {e}, data := s.data[e := []])
  }

  /** The endpoint has let go, and the first `k` members are unbound and reset. */
  ghost function LettingGo(s: State, e: Endpoint, k: nat): (t: State)
    requires e in s.data && k <= |s.Members(e)|
    ensures t.eps == s.eps && t.conns == s.conns && t.busy == s.busy && t.busyEps == s.busyEps + {e}
  {
    var gone := s.Members(e)[..k];
    Emptied(s, e).(binding := s.binding - Set(gone), log := s.log + Gone(gone, s.busy))
  }

  lemma LettingGoOwned(s: State, e: Endpoint, k: nat, x: Endpoint)
    requires s.Valid() && e in s.eps && e !in s.busyEps && k <= |s.Members(e)| && x in s.eps && x != e
    ensures var t := LettingGo(s, e, k); t.Members(x) == s.Members(x) && t.Owned(x)
  {
    var t := LettingGo(s, e, k);
    assert t.Members(x) == s.Members(x) && s.Owned(x) && s.Owned(e);
    forall c | c in s.Members(x) ensures c in t.binding {
      assert c !in s.Members(e);
    }
  }

  lemma LettingGoValid(s: State, e: Endpoint, k: nat)
    requires s.Valid() && e in s.eps && e !in s.busyEps && k <= |s.Members(e)|
    ensures LettingGo(s, e, k).Valid() && LettingGo(s, e, 0) == Emptied(s, e)
  {
    var t := LettingGo(s, e, k);
    assert s.binding - Set(s.Members(e)[..0]) == s.binding;
    assert t.Closed() && t.Members(e) == [];
    forall x | x in s.eps && x != e ensures t.Members(x) == s.Members(x) && t.Owned(x) {
      LettingGoOwned(s, e, k, x);
    }
    hide Gone;
    assert t.MembersBound();
    forall c | c in t.binding && t.binding[c] !in t.busyEps ensures c in t.Members(t.binding[c]) {
      assert c in s.Members(s.binding[c]);
    }
  }

  lemma UnboundValid(s: State, c: Connection)
    requires s.Valid() && (c in s.binding ==> s.binding[c] in s.busyEps)
    ensures Unbound(s, {c}).Valid()
  {
    var t := Unbound(s, {c});
    forall x | x in s.eps ensures t.Members(x) == s.Members(x) && t.Owned(x) {
      assert t.Members(x) == s.Members(x) && s.Owned(x);
    }
  }

  lemma ResetUnbound(s: State, c: Connection)
    requires s.Valid() && c in s.conns && c !in s.binding
    ensures ResetConnection(s, c) == s.(log := s.log + if c in s.busy then [] else [Event(null, c)])
  {
    if c !in s.busy {
      assert (s.busy + {c}) - {c} == s.busy;
    }
  }

  lemma LettingGoNext(s: State, e: Endpoint, k: nat)
    requires e in s.data && k < |s.Members(e)|
    ensures var m := s.Members(e)[k];
            var t := Unbound(LettingGo(s, e, k), {m});
            t.(log := t.log + if m in s.busy then [] else [Event(null, m)]) == LettingGo(s, e, k + 1)
  {
    var m := s.Members(e)[k];
    var (was, now) := (s.Members(e)[..k], s.Members(e)[..k + 1]);
    assert now == was + [m] && now[..|now| - 1] == was;
    assert Set(now) == Set(was) + {m};
    assert s.binding - Set(was) - {m} == s.binding - Set(now);
  }

  lemma LettingGoStep(s: State, e: Endpoint, k: nat)
    requires s.Valid() && e in s.eps && e !in s.busyEps && k < |s.Members(e)|
    ensures var (t, m) := (LettingGo(s, e, k), s.Members(e)[k]);
            && Unbound(t, {m}).Valid() && m in s.conns && t.conns == s.conns
            && ResetConnection(Unbound(t, {m}), m) == LettingGo(s, e, k + 1)
  {
    var (t, m) := (LettingGo(s, e, k), s.Members(e)[k]);
    assert s.Owned(e) && m in s.Members(e) && m in s.conns;
    assert m in t.binding ==> t.binding[m] in t.busyEps;
    LettingGoValid(s, e, k);
    UnboundValid(t, m);
    LettingGoNext(s, e, k);
    hide s.Valid;
    hide Gone;
    ResetUnbound(Unbound(t, {m}), m);
  }

  lemma LettingGoDone(s: State, e: Endpoint)
    requires s.Valid() && e in s.eps && e !in s.busyEps
    ensures var t := LettingGo(s, e, |s.Members(e)|);
            t.(busyEps := t.busyEps - {e}) == ResetEndpoint(s, e)
  {
    assert s.Members(e)[..|s.Members(e)|] == s.Members(e);
    assert (s.busyEps + {e}) - {e} == s.busyEps;
  }

  lemma {:induction false} WithoutAt(cs: seq<Connection>, c: Connection, i: nat)
    requires i < |cs| && cs[i] == c && c !in cs[..i]
    ensures Without(cs, c) == cs[..i] + cs[i + 1..]
  {
    if i > 0 {
      assert cs[0] == cs[..i][0] != c;
      assert cs[1..][..i - 1] == cs[..i][1..];
      WithoutAt(cs[1..], c, i - 1);
    }
  }

  lemma NewConnectionValid(s: State, c: Connection)
    requires s.Valid()
    ensures s.(conns := s.conns + {c}).Valid()
  {
    var t := s.(conns := s.conns + {c});
    forall x | x in s.eps ensures t.Members(x) == s.Members(x) && t.Owned(x) {
      assert t.Members(x) == s.Members(x) && s.Owned(x);
    }
  }

  lemma NewEndpointValid(s: State, e: Endpoint)
    requires s.Valid() && e !in s.eps
    ensures s.(eps := s.eps + {e}, data := s.data[e := []]).Valid()
  {
    var t := s.(eps := s.eps + {e}, data := s.data[e := []]);
    assert t.Members(e) == [];
    forall x | x in s.eps ensures t.Members(x) == s.Members(x) && t.Owned(x) {
      assert t.Members(x) == s.Members(x) && s.Owned(x);
    }
  }

  // ----- The objects -----

  class Node {
    var log: seq<Event>
    ghost var state: State

    /** The objects hold what the state says. */
    ghost predicate Mirrored()
      reads `log, `state, state.eps`ctrlConn, state.eps`dataConn, state.eps`resetting, state.conns`binding, state.conns`resetting
    {
      && state.Closed() && log == state.log
      && (forall e :: e in state.eps ==>
            && e.owner == this && e.dataConn == state.data[e] && (e.resetting <==> e in state.busyEps)
            && e.ctrlConn == if e in state.ctrl then state.ctrl[e] else null)
      && (forall c :: c in state.conns ==>
            c.owner == this && c.binding == BoundTo(state, c) && (c.resetting <==> c in state.busy))
    }

    ghost predicate Valid()
      reads `log, `state, state.eps`ctrlConn, state.eps`dataConn, state.eps`resetting, state.conns`binding, state.conns`resetting
    {
      Mirrored() && state.Valid()
    }

    constructor ()
      ensures Valid() && state == NOTHING
    {
      log, state := [], NOTHING;
    }

    method OnDisconnect(ep: Endpoint?, conn: Connection)
      requires Mirrored()
      modifies this
      ensures Mirrored() && state == old(state).(log := old(state).log + [Event(ep, conn)])
    {
      log := log + [Event(ep, conn)];
      state := state.(log := log);
    }
  }

  class Connection {
    const owner: Node
    var binding: Endpoint?
    var resetting: bool
    var status: Status

    constructor (owner: Node)
      requires owner.Valid()
      modifies owner`state
      ensures this.owner == owner && owner.Valid() && status == Disconnected
      ensures owner.state == old(owner.state).(conns := old(owner.state).conns + {this})
    {
      this.owner, binding, resetting, status := owner, null, false, Disconnected;
      new;
      NewConnectionValid(owner.state, this);
      hide State.Valid;
      owner.state := owner.state.(conns := owner.state.conns + {this});
    }

    method SetBinding(ep: Endpoint?)
      requires owner.Mirrored() && this in owner.state.conns && (ep != null ==> ep in owner.state.eps)
      modifies this`binding, owner`state
      ensures owner.Mirrored()
      ensures var s := old(owner.state);
              owner.state == if ep == null then Unbound(s, {this}) else s.(binding := s.binding[this := ep])
    {
      binding := ep;
      ghost var s := owner.state;
      owner.state := if ep == null then Unbound(s, {this}) else s.(binding := s.binding[this := ep]);
    }

    method SetResetting(on: bool)
      requires owner.Mirrored() && this in owner.state.conns
      modifies this`resetting, owner`state
      ensures owner.Mirrored()
      ensures var s := old(owner.state); owner.state == s.(busy := if on then s.busy + {this} else s.busy - {this})
    {
      resetting := on;
      owner.state := owner.state.(busy := if on then owner.state.busy + {this} else owner.state.busy - {this});
    }

    method Reset()
      requires owner.Valid() && this in owner.state.conns
      modifies owner, owner.state.eps, owner.state.conns
      ensures owner.Valid() && owner.state == ResetConnection(old(owner.state), this)
      decreases |owner.state.eps - owner.state.busyEps|, |owner.state.conns - owner.state.busy|, 0
    {
      if resetting {
        return;
      }
      ghost var s := owner.state;
      ResetConnectionValid(s, this);
      ValidOtherwise(s, s.busy + {this}, s.log);
      FewerIdle(s.conns, s.busy, this);
      var bindEp := binding;
      assert bindEp == BoundTo(s, this) && (bindEp != null ==> bindEp in s.eps && bindEp.owner == owner);
      hide State.Valid;
      SetResetting(true);
      if bindEp != null {
        hide Node.Mirrored;
        var _ := bindEp.RemoveConnection(this);
      }
      assert owner.Mirrored();
      SetResetting(false);
      owner.OnDisconnect(bindEp, this);
    }
  }

  lemma FewerIdle<T>(all: set<T>, busy: set<T>, x: T)
    requires x in all && x !in busy
    ensures |all - (busy + {x})| < |all - busy|
  {
    assert all - (busy + {x}) == (all - busy) - {x};
  }

  class Endpoint {
    const owner: Node
    var ctrlConn: Connection?
    var dataConn: seq<Connection>
    var resetting: bool

    constructor (owner: Node)
      requires owner.Valid()
      modifies owner`state
      ensures this.owner == owner && owner.Valid()
      ensures owner.state == old(owner.state).(eps := old(owner.state).eps + {this}, data := old(owner.state).data[this := []])
    {
      this.owner, ctrlConn, dataConn, resetting := owner, null, [], false;
      new;
      NewEndpointValid(owner.state, this);
      hide State.Valid;
      owner.state := owner.state.(eps := owner.state.eps + {this}, data := owner.state.data[this := []]);
    }

    /** Lets go of all connections at once, before any of them is reset. */
    method LetGo() returns (ctrl: Connection?, data: seq<Connection>)
      requires owner.Valid() && this in owner.state.eps && !resetting
      modifies this, owner`state
      ensures owner.Mirrored() && owner.state == Emptied(old(owner.state), this)
      ensures old(owner.state).Members(this) == (if ctrl != null then [ctrl] else []) + data
    {
      ghost var s := owner.state;
      ctrl, data := ctrlConn, dataConn;
      assert s.Members(this) == (if ctrl != null then [ctrl] else []) + data;
      hide State.Valid;
      hide Node.Mirrored;
      SetResetting(true);
      SetCtrl(null);
      SetData([]);
    }

    /** Ends the reset. */
    method Finish(ghost s: State)
      requires s.Valid() && this in s.eps && this !in s.busyEps
      requires owner.Valid() && owner.state == LettingGo(s, this, |s.Members(this)|)
      modifies this`resetting, owner`state
      ensures owner.Valid() && owner.state == ResetEndpoint(s, this)
    {
      hide State.Valid;
      LettingGoDone(s, this);
      ResetEndpointValid(s, this);
      hide Node.Mirrored;
      SetResetting(false);
    }

    method Reset()
      requires owner.Valid() && this in owner.state.eps
      modifies owner, owner.state.eps, owner.state.conns
      ensures owner.Valid() && owner.state == ResetEndpoint(old(owner.state), this)
      decreases |owner.state.eps - owner.state.busyEps|, |owner.state.conns - owner.state.busy|, 1
    {
      if resetting {
        return;
      }
      ghost var s := owner.state;
      FewerIdle(s.eps, s.busyEps, this);
      var ctrl, data := LetGo();
      LettingGoValid(s, this, 0);
      hide *;
      ResetMembers(s, ctrl, data);
      Finish(s);
    }

    /** Resets the connections let go, in order. */
    method ResetMembers(ghost s: State, ctrl: Connection?, data: seq<Connection>)
      requires s.Valid() && this in s.eps && this !in s.busyEps
      requires s.Members(this) == (if ctrl != null then [ctrl] else []) + data
      requires owner.Valid() && owner.state == LettingGo(s, this, 0)
      modifies owner, owner.state.eps, owner.state.conns
      ensures owner.Valid() && owner.state == LettingGo(s, this, |s.Members(this)|)
      decreases |owner.state.eps - owner.state.busyEps|, |owner.state.conns - owner.state.busy|, 2
    {
      ghost var n := if ctrl != null then 1 else 0;
      assert this in s.data && n + |data| == |s.Members(this)| && data == s.Members(this)[n..];
      hide *;
      if ctrl != null {
        ResetMember(s, 0, ctrl);
      }
      for i := 0 to |data|
        invariant owner.Valid() && owner.state == LettingGo(s, this, n + i)
      {
        ResetMember(s, n + i, data[i]);
      }
    }

    /** Resets the `k`-th of the connections let go. */
    method ResetMember(ghost s: State, ghost k: nat, m: Connection)
      requires s.Valid() && this in s.eps && this !in s.busyEps && k < |s.Members(this)| && m == s.Members(this)[k]
      requires owner.Valid() && owner.state == LettingGo(s, this, k)
      modifies owner, owner.state.eps, owner.state.conns
      ensures owner.Valid() && owner.state == LettingGo(s, this, k + 1)
      decreases |owner.state.eps - owner.state.busyEps|, |owner.state.conns - owner.state.busy|, 1
    {
      LettingGoValid(s, this, k + 1);
      m.SetBinding(null);
      UnboundValid(LettingGo(s, this, k), m);
      m.Reset();
      LettingGoStep(s, this, k);
    }

    method SetData(conns: seq<Connection>)
      requires owner.Mirrored() && this in owner.state.eps
      modifies this`dataConn, owner`state
      ensures owner.Mirrored()
      ensures owner.state == old(owner.state).(data := old(owner.state).data[this := conns])
    {
      dataConn := conns;
      owner.state := owner.state.(data := owner.state.data[this := conns]);
    }

    method SetCtrl(conn: Connection?)
      requires owner.Mirrored() && this in owner.state.eps
      modifies this`ctrlConn, owner`state
      ensures owner.Mirrored()
      ensures var s := old(owner.state);
              owner.state == if conn == null then s.(ctrl := s.ctrl - {this}) else s.(ctrl := s.ctrl[this := conn])
    {
      ctrlConn := conn;
      ghost var s := owner.state;
      owner.state := if conn == null then s.(ctrl := s.ctrl - {this}) else s.(ctrl := s.ctrl[this := conn]);
    }

    method SetResetting(on: bool)
      requires owner.Mirrored() && this in owner.state.eps
      modifies this`resetting, owner`state
      ensures owner.Mirrored()
      ensures var s := old(owner.state); owner.state == s.(busyEps := if on then s.busyEps + {this} else s.busyEps - {this})
    {
      resetting := on;
      owner.state := owner.state.(busyEps := if on then owner.state.busyEps + {this} else owner.state.busyEps - {this});
    }

    method Attach(conn: Connection, forceData: bool)
      requires owner.Valid() && this in owner.state.eps && conn in owner.state.conns
      requires this !in owner.state.busyEps && conn !in owner.state.binding
      modifies this`dataConn, this`ctrlConn, conn`binding, owner`state
      ensures owner.Valid() && owner.state == Add(old(owner.state), this, conn, forceData).0
    {
      ghost var s := owner.state;
      AddValid(s, this, conn, forceData);
      hide State.Valid;
      assert dataConn == s.data[this] && (ctrlConn != null <==> this in s.ctrl);
      hide Node.Mirrored;
      if forceData || ctrlConn != null {
        SetData(dataConn + [conn]);
      } else {
        SetCtrl(conn);
      }
      conn.SetBinding(this);
    }

    /** Binds a connection that is free; one already bound here is taken to be connected now. */
    method AddConnection(conn: Connection, forceData: bool) returns (ok: bool)
      requires owner.Valid() && this in owner.state.eps && conn in owner.state.conns
      modifies this`dataConn, this`ctrlConn, conn`binding, conn`status, owner`state
      ensures owner.Valid() && (owner.state, ok) == Add(old(owner.state), this, conn, forceData)
      ensures conn.status == if ok && old(conn.status) == Handshaking then Connected else old(conn.status)
    {
      hide State.Valid;
      if resetting {
        return false;
      }
      if conn.binding == this {
        if conn.status == Handshaking {
          conn.status := Connected;
        }
        return true;
      }
      if conn.binding != null {
        return false;
      }
      Attach(conn, forceData);
      if conn.status == Handshaking {
        conn.status := Connected;
      }
      return true;
    }

    /** Unbinds a connection. Losing the control connection or the last data one empties the endpoint. */
    method RemoveConnection(conn: Connection) returns (ok: bool)
      requires owner.Valid() && this in owner.state.eps && conn in owner.state.conns
      modifies owner, owner.state.eps, owner.state.conns
      ensures owner.Valid() && (owner.state, ok) == Remove(old(owner.state), this, conn)
      decreases |owner.state.eps - owner.state.busyEps|, |owner.state.conns - owner.state.busy|, 3
    {
      ghost var s := owner.state;
      RemoveValid(s, this, conn);
      assert (conn.binding == this <==> conn in s.binding && s.binding[conn] == this) && (resetting <==> this in s.busyEps);
      assert conn == ctrlConn <==> this in s.ctrl && s.ctrl[this] == conn;
      hide State.Valid;
      if conn.binding != this {
        return false;
      }
      if resetting {
        conn.SetBinding(null);
        return true;
      }
      if conn == ctrlConn {
        Reset();
        return true;
      }
      RemoveData(conn);
      return true;
    }

    /** Takes out a data connection; the last one takes the endpoint with it. */
    method RemoveData(conn: Connection)
      requires owner.Valid() && this in owner.state.eps && conn in owner.state.conns && !resetting
      requires conn.binding == this && conn != ctrlConn
      modifies owner, owner.state.eps, owner.state.conns
      ensures owner.Valid() && owner.state == Remove(old(owner.state), this, conn).0
      decreases |owner.state.eps - owner.state.busyEps|, |owner.state.conns - owner.state.busy|, 2
    {
      ghost var s := owner.state;
      DropDataValid(s, this, conn);
      assert dataConn == s.data[this] && this !in s.busyEps && conn in s.binding && s.binding[conn] == this;
      assert !(this in s.ctrl && s.ctrl[this] == conn);
      hide State.Valid;
      var idx := IndexOf(dataConn, conn);
      assert idx < |dataConn|;
      DropAt(conn, idx);
      hide Node.Mirrored;
      if |dataConn| == 0 {
        Reset();
      }
    }

    static method IndexOf(conns: seq<Connection>, conn: Connection) returns (idx: nat)
      ensures idx <= |conns| && conn !in conns[..idx]
      ensures idx < |conns| ==> conns[idx] == conn
    {
      idx := 0;
      while idx < |conns|
        invariant idx <= |conns| && conn !in conns[..idx]
      {
        if conns[idx] == conn {
          return;
        }
        idx := idx + 1;
      }
    }

    method DropAt(conn: Connection, idx: nat)
      requires owner.Valid() && this in owner.state.eps && conn in owner.state.conns && !resetting
      requires conn.binding == this && conn != ctrlConn
      requires idx < |dataConn| && dataConn[idx] == conn && conn !in dataConn[..idx]
      modifies this`dataConn, conn`binding, owner`state
      ensures owner.Valid() && owner.state == DropData(old(owner.state), this, conn) && dataConn == owner.state.data[this]
    {
      ghost var s := owner.state;
      DropDataValid(s, this, conn);
      hide State.Valid;
      WithoutAt(dataConn, conn, idx);
      assert dataConn == s.data[this];
      hide Node.Mirrored;
      conn.SetBinding(null);
      SetData(dataConn[..idx] + dataConn[idx + 1..]);
    }
  }
}
