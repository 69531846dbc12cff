/** What each operation on bindings does to whom, told by members and bindings. */
module BindingLaws {
  import opened Binding

  /** Members, bindings and control connections away from `e` and `c` are as they were. */
  ghost predicate OthersKept(s: State, t: State, e: Endpoint, cs: set<Connection>)
    requires s.Closed() && t.Closed() && s.eps == t.eps
  {
    && (forall x :: x in s.eps && x != e ==>
          t.data[x] == s.data[x] && (x in t.ctrl <==> x in s.ctrl) && (x in s.ctrl ==> t.ctrl[x] == s.ctrl[x]))
    && (forall c :: c in s.conns && c !in cs ==> BoundTo(t, c) == BoundTo(s, c))
  }

  /**
   A connection is accepted exactly if the endpoint is not being reset and the connection
   is free or bound there already.
   */
  lemma AcceptedIff(s: State, e: Endpoint, c: Connection, forceData: bool)
    requires s.Valid() && e in s.eps && c in s.conns
    ensures Add(s, e, c, forceData).1 <==> e !in s.busyEps && BoundTo(s, c) in {null, e}
    ensures BoundTo(s, c) != null || e in s.busyEps ==> Add(s, e, c, forceData).0 == s
  {
  }

  /**
   The first connection that is not to be a data connection becomes the control
   connection, any other the last data connection; nobody else notices.
   */
  lemma AddPlaces(s: State, e: Endpoint, c: Connection, forceData: bool)
    requires s.Valid() && e in s.eps && c in s.conns && e !in s.busyEps && BoundTo(s, c) == null
    ensures var t := Add(s, e, c, forceData).0;
            && t.Closed() && BoundTo(t, c) == e && OthersKept(s, t, e, {c}) && t.log == s.log
            && (e in t.ctrl <==> e in s.ctrl || !forceData)
            && (e in s.ctrl ==> t.ctrl[e] == s.ctrl[e])
            && (if e !in s.ctrl && !forceData then t.ctrl[e] == c && t.data[e] == s.data[e] else t.data[e] == s.data[e] + [c])
  {
    AddMembers(s, e, c, forceData);
    hide State.Valid;
  }

  /** A removal is refused exactly if the connection is not bound to that endpoint, and then does nothing. */
  lemma RemovalRefusedIff(s: State, e: Endpoint, c: Connection)
    requires s.Valid() && e in s.eps
    ensures !Remove(s, e, c).1 <==> BoundTo(s, c) != e
    ensures BoundTo(s, c) != e ==> Remove(s, e, c).0 == s
  {
  }

  /** Removing from an endpoint in the middle of a reset frees the connection and does nothing more. */
  lemma RemovalDuringReset(s: State, e: Endpoint, c: Connection)
    requires s.Valid() && e in s.eps && e in s.busyEps && BoundTo(s, c) == e
    ensures var t := Remove(s, e, c).0;
            && t.Closed() && BoundTo(t, c) == null && OthersKept(s, t, e, {c}) && t.log == s.log && t.Members(e) == s.Members(e)
  {
  }

  lemma DropKeepsOthers(s: State, e: Endpoint, c: Connection)
    requires s.Valid() && e in s.eps && c in s.binding && s.binding[c] == e
    ensures var t := DropData(s, e, c);
            && t.Closed() && BoundTo(t, c) == null && OthersKept(s, t, e, {c}) && t.log == s.log && t.ctrl == s.ctrl
            && t.data[e] == Without(s.data[e], c)
  {
    hide Without;
  }

  lemma OnlyOne(cs: seq<Connection>, i: nat)
    requires i < |cs|
    ensures cs[..i] + cs[i + 1..] == [] ==> cs == [cs[i]]
  {
    assert cs == cs[..i] + [cs[i]] + cs[i + 1..];
  }

  lemma DroppedOnce(s: State, e: Endpoint, c: Connection)
    requires s.Valid() && e in s.eps && e !in s.busyEps && BoundTo(s, c) == e && !(e in s.ctrl && s.ctrl[e] == c)
    ensures DropData(s, e, c).Closed() && c in s.data[e] && c !in DropData(s, e, c).Members(e)
  {
    DropDataValid(s, e, c);
    assert s.Owned(e);
    hide State.Members;
    hide DropData;
    hide State.Valid;
    WithoutDistinct(s.Members(e), c);
  }

  ghost predicate CutFrom(before: seq<Connection>, after: seq<Connection>, c: Connection) {
    exists i :: 0 <= i < |before| && before[i] == c && after == before[..i] + before[i + 1..]
  }

  lemma CutFromData(cs: seq<Connection>, c: Connection)
    requires c in cs && cs != [c]
    ensures CutFrom(cs, Without(cs, c), c) && Without(cs, c) != []
  {
    var i := CutOut(cs, c);
    OnlyOne(cs, i);
    hide Without;
  }

  /** Removing a connection that is not vital takes out it alone, tells nobody and keeps the order. */
  lemma PlainRemoval(s: State, e: Endpoint, c: Connection)
    requires s.Valid() && e in s.eps && e !in s.busyEps && BoundTo(s, c) == e && !Vital(s, e, c)
    ensures var t := Remove(s, e, c).0;
            && t.Closed() && BoundTo(t, c) == null && OthersKept(s, t, e, {c}) && t.log == s.log && t.ctrl == s.ctrl
            && c !in t.Members(e) && t.data[e] != [] && CutFrom(s.data[e], t.data[e], c)
  {
    DroppedOnce(s, e, c);
    CutFromData(s.data[e], c);
    DropKeepsOthers(s, e, c);
    hide OthersKept;
    hide CutFrom;
    hide Without;
    hide State.Closed;
    hide State.Members;
  }

  lemma {:induction false} CutOut(cs: seq<Connection>, c: Connection) returns (i: nat)
    requires c in cs
    ensures i < |cs| && cs[i] == c && Without(cs, c) == cs[..i] + cs[i + 1..]
  {
    if cs[0] == c {
      i := 0;
    } else {
      i := CutOut(cs[1..], c);
      i := i + 1;
      assert cs[..i] + cs[i + 1..] == [cs[0]] + (cs[1..][..i - 1] + cs[1..][i..]);
    }
  }

  /** A reset of an endpoint frees its members and touches no others. */
  lemma ResetKeepsOthers(s: State, e: Endpoint)
    requires s.Valid() && e in s.eps
    ensures ResetEndpoint(s, e).Closed() && OthersKept(s, ResetEndpoint(s, e), e, Set(s.Members(e)))
    ensures e in s.busyEps ==> ResetEndpoint(s, e) == s
  {
  }

  /** A free connection is told of alone when it is reset. */
  lemma FreeReset(s: State, c: Connection)
    requires s.Valid() && c in s.conns && c !in s.busy && BoundTo(s, c) == null
    ensures ResetConnection(s, c) == s.(log := s.log + [Event(null, c)])
  {
  }
}
