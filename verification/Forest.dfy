/**
 Forests given by upstream links: acyclicity, ancestors, and the relation between two
 nodes. The same theory serves the registry's pointers and the routing tables' ids.
 */
module Forest {

  datatype Relation =
    | Invalid
    | Self
    | ImmediateUpstream
    | TransitiveUpstream
    | ImmediateDownstream
    | TransitiveDownstream
    | SameUpstreamPeer
    | OtherUpstreamPeer

  /** Following links from `x` reaches a root in at most `n` steps. */
  ghost predicate Ends<T>(up: map<T, T>, x: T, n: nat)
    decreases n
  {
    x !in up || (n > 0 && Ends(up, up[x], n - 1))
  }

  ghost predicate Acyclic<T>(up: map<T, T>) {
    forall x :: x in up ==> exists n: nat :: Ends(up, x, n)
  }

  /** The distance of `x` from its root. */
  ghost function Rank<T>(up: map<T, T>, x: T): (n: nat)
    requires Acyclic(up)
    ensures Ends(up, x, n) && (n > 0 ==> !Ends(up, x, n - 1))
    ensures n == 0 <==> x !in up
  {
    if x !in up then 0
    else
      var bound: nat :| Ends(up, x, bound);
      Least(up, x, bound)
  }

  ghost function Least<T>(up: map<T, T>, x: T, bound: nat): (n: nat)
    requires Ends(up, x, bound)
    ensures Ends(up, x, n) && (n > 0 ==> !Ends(up, x, n - 1))
  {
    if bound > 0 && Ends(up, x, bound - 1) then Least(up, x, bound - 1) else bound
  }

  lemma {:induction false} EndsMore<T>(up: map<T, T>, x: T, n: nat, m: nat)
    requires Ends(up, x, n) && n <= m
    ensures Ends(up, x, m)
    decreases n
  {
    if x in up {
      EndsMore(up, up[x], n - 1, m - 1);
    }
  }

  lemma RankUp<T>(up: map<T, T>, x: T)
    requires Acyclic(up) && x in up
    ensures Rank(up, up[x]) + 1 == Rank(up, x)
  {
    var a, b := Rank(up, x), Rank(up, up[x]);
    assert Ends(up, x, b + 1);
    if a > b + 1 {
      EndsMore(up, x, b + 1, a - 1);
    }
    if b > a - 1 {
      EndsMore(up, up[x], a - 1, b - 1);
    }
  }

  /** Upstream, its upstream, and so on to the root. */
  ghost function Ancestors<T>(up: map<T, T>, x: T): (s: seq<T>)
    requires Acyclic(up)
    ensures |s| == Rank(up, x)
    decreases Rank(up, x)
  {
    if x !in up then []
    else
      RankUp(up, x);
      [up[x]] + Ancestors(up, up[x])
  }

  lemma AncestorsUp<T>(up: map<T, T>, x: T)
    requires Acyclic(up) && x in up
    ensures Ancestors(up, x) == [up[x]] + Ancestors(up, up[x])
  {
    RankUp(up, x);
  }

  lemma {:induction false} AncestorsLinked<T>(up: map<T, T>, x: T, i: nat)
    requires Acyclic(up) && i < |Ancestors(up, x)|
    ensures Ancestors(up, Ancestors(up, x)[i]) == Ancestors(up, x)[i + 1..]
    ensures up.Values >= {Ancestors(up, x)[i]}
    decreases i
  {
    RankUp(up, x);
    if i > 0 {
      AncestorsLinked(up, up[x], i - 1);
      assert Ancestors(up, x)[i + 1..] == Ancestors(up, up[x])[i..];
    }
  }

  /** Ancestors are strictly nearer the root, so nothing is its own ancestor. */
  lemma AncestorRank<T>(up: map<T, T>, x: T, a: T)
    requires Acyclic(up) && a in Ancestors(up, x)
    ensures Rank(up, a) < Rank(up, x)
  {
    var i :| 0 <= i < |Ancestors(up, x)| && Ancestors(up, x)[i] == a;
    AncestorsLinked(up, x, i);
  }

  lemma AncestorTransitive<T>(up: map<T, T>, x: T, a: T, b: T)
    requires Acyclic(up) && a in Ancestors(up, x) && b in Ancestors(up, a)
    ensures b in Ancestors(up, x)
  {
    var i :| 0 <= i < |Ancestors(up, x)| && Ancestors(up, x)[i] == a;
    AncestorsLinked(up, x, i);
    assert Ancestors(up, x)[i + 1..] == Ancestors(up, a);
  }

  // ----- Changing one link -----

  /** Chains that avoid `p` do not notice its link changing. */
  lemma {:induction false} EndsAvoiding<T>(up: map<T, T>, up': map<T, T>, x: T, p: T)
    requires Acyclic(up) && x != p && p !in Ancestors(up, x)
    requires forall y :: y != p ==> (y in up <==> y in up') && (y in up ==> up[y] == up'[y])
    ensures Ends(up', x, Rank(up, x))
    decreases Rank(up, x)
  {
    if x in up {
      RankUp(up, x);
      EndsAvoiding(up, up', up[x], p);
    }
  }

  lemma {:induction false} EndsThrough<T>(up: map<T, T>, up': map<T, T>, x: T, p: T, n: nat)
    requires Acyclic(up) && Ends(up', p, n)
    requires forall y :: y != p ==> (y in up <==> y in up') && (y in up ==> up[y] == up'[y])
    ensures Ends(up', x, Rank(up, x) + n)
    decreases Rank(up, x)
  {
    if x == p {
      EndsMore(up', p, n, Rank(up, x) + n);
    } else if x in up {
      RankUp(up, x);
      EndsThrough(up, up', up[x], p, n);
    }
  }

  /** Linking `p` under `u` keeps the forest acyclic if `p` is not `u` or above it. */
  lemma RelinkAcyclic<T>(up: map<T, T>, p: T, u: T)
    requires Acyclic(up) && p != u && p !in Ancestors(up, u)
    ensures Acyclic(up[p := u])
  {
    var up' := up[p := u];
    EndsAvoiding(up, up', u, p);
    assert Ends(up', p, Rank(up, u) + 1);
    forall x | x in up' ensures exists n: nat :: Ends(up', x, n) {
      EndsThrough(up, up', x, p, Rank(up, u) + 1);
    }
  }

  lemma UnlinkAcyclic<T>(up: map<T, T>, p: T)
    requires Acyclic(up)
    ensures Acyclic(up - {p})
  {
    var up' := up - {p};
    assert Ends(up', p, 0);
    forall x | x in up' ensures exists n: nat :: Ends(up', x, n) {
      EndsThrough(up, up', x, p, 0);
    }
  }

  /** Linking under a descendant (or itself) would close a cycle: such moves have to be refused. */
  lemma RelinkCyclic<T>(up: map<T, T>, p: T, u: T)
    requires Acyclic(up) && (p == u || p in Ancestors(up, u))
    ensures !Acyclic(up[p := u])
  {
    var up' := up[p := u];
    if Acyclic(up') {
      if p == u {
        RankUp(up', p);
      } else {
        ClimbTo(up, up', u, p);
        RankUp(up', p);
        if p in Ancestors(up', u) {
          AncestorRank(up', u, p);
        }
      }
    }
  }

  /** The way up to `p` is the same whatever `p` itself is linked to. */
  lemma {:induction false} ClimbTo<T>(up: map<T, T>, up': map<T, T>, x: T, p: T)
    requires Acyclic(up) && Acyclic(up') && p in Ancestors(up, x) && x != p
    requires forall y :: y != p ==> (y in up <==> y in up') && (y in up ==> up[y] == up'[y])
    ensures p in Ancestors(up', x)
    decreases Rank(up, x)
  {
    RankUp(up, x);
    RankUp(up', x);
    if up[x] != p {
      ClimbTo(up, up', up[x], p);
    }
  }

  // ----- Relations -----

  /** The node on the way from `x` up to its ancestor `a` that is directly below `a`. */
  ghost function ChildToward<T>(up: map<T, T>, a: T, x: T): (c: T)
    requires Acyclic(up) && a in Ancestors(up, x)
    ensures c in up && up[c] == a && (c == x || c in Ancestors(up, x))
    decreases Rank(up, x)
  {
    RankUp(up, x);
    if up[x] == a then x else ChildToward(up, a, up[x])
  }

  /** There is only one such node, so the next hop towards a descendant is determined. */
  lemma {:induction false} ChildUnique<T>(up: map<T, T>, a: T, x: T, c: T)
    requires Acyclic(up) && a in Ancestors(up, x)
    requires c in up && up[c] == a && (c == x || c in Ancestors(up, x))
    ensures c == ChildToward(up, a, x)
    decreases Rank(up, x)
  {
    RankUp(up, x);
    if up[x] == a {
      if c != x {
        if c == a {
          AncestorRank(up, c, a);
        } else {
          AncestorRank(up, up[x], c);
          RankUp(up, c);
        }
      }
    } else {
      ChildUnique(up, a, up[x], c);
    }
  }

  /** The relation of `to` as seen from `from`, decided in the order of the original. */
  ghost function Relate<T>(up: map<T, T>, from: T, to: T): (Relation, T)
    requires Acyclic(up)
  {
    if from == to then (Self, to)
    else if from in up && up[from] == to then (ImmediateUpstream, to)
    else if to in up && up[to] == from then (ImmediateDownstream, to)
    else if from in up && to in up && up[from] == up[to] then (SameUpstreamPeer, up[from])
    else if from in up && to in Ancestors(up, from) then (TransitiveUpstream, up[from])
    else if from in Ancestors(up, to) then (TransitiveDownstream, ChildToward(up, from, to))
    else if from in up then (OtherUpstreamPeer, up[from])
    else (OtherUpstreamPeer, to)
  }

  ghost predicate Child<T>(up: map<T, T>, p: T, c: T) { c in up && up[c] == p }

  /** What each relation means, with no order of precedence left. */
  ghost predicate Means<T>(up: map<T, T>, r: Relation, from: T, to: T)
    requires Acyclic(up)
  {
    match r
    case Invalid => false
    case Self => from == to
    case ImmediateUpstream => Child(up, to, from)
    case TransitiveUpstream => to in Ancestors(up, from) && !Child(up, to, from)
    case ImmediateDownstream => Child(up, from, to)
    case TransitiveDownstream => from in Ancestors(up, to) && !Child(up, from, to)
    case SameUpstreamPeer => from != to && exists p :: p in up.Values && Child(up, p, from) && Child(up, p, to)
    case OtherUpstreamPeer =>
      && from != to && to !in Ancestors(up, from) && from !in Ancestors(up, to)
      && !(from in up && to in up && up[from] == up[to])
  }

  lemma AncestorFacts<T>(up: map<T, T>, a: T, x: T)
    requires Acyclic(up)
    ensures Child(up, a, x) ==> a in Ancestors(up, x)
    ensures a in Ancestors(up, x) ==> a != x && x !in Ancestors(up, a) && x in up
    ensures a in Ancestors(up, x) ==> !(a in up && up[a] == up[x])
  {
    if Child(up, a, x) {
      RankUp(up, x);
    }
    if a in Ancestors(up, x) {
      AncestorRank(up, x, a);
      if x in Ancestors(up, a) {
        AncestorRank(up, a, x);
      }
      if a in up && up[a] == up[x] {
        RankUp(up, a);
        RankUp(up, x);
      }
    }
  }

  /** The relation is exact, and the kinds exclude one another: at most one can hold. */
  lemma RelateExact<T>(up: map<T, T>, from: T, to: T, r: Relation)
    requires Acyclic(up)
    ensures Relate(up, from, to).0 == r <==> Means(up, r, from, to)
  {
    AncestorFacts(up, from, to);
    AncestorFacts(up, to, from);
    if from in up && to in up && up[from] == up[to] {
      assert Child(up, up[from], from) && Child(up, up[from], to) && up[from] in up.Values;
    }
  }

  function Mirror(r: Relation): Relation {
    match r
    case ImmediateUpstream => ImmediateDownstream
    case ImmediateDownstream => ImmediateUpstream
    case TransitiveUpstream => TransitiveDownstream
    case TransitiveDownstream => TransitiveUpstream
    case _ => r
  }

  lemma RelateMirror<T>(up: map<T, T>, from: T, to: T)
    requires Acyclic(up)
    ensures Relate(up, to, from).0 == Mirror(Relate(up, from, to).0)
  {
    AncestorFacts(up, from, to);
    AncestorFacts(up, to, from);
  }

  /** The next hop is one link away, and towards the target where there is a way. */
  lemma RelateNextHop<T>(up: map<T, T>, from: T, to: T)
    requires Acyclic(up)
    ensures var (r, hop) := Relate(up, from, to);
            && (r == TransitiveDownstream ==>
                  && Child(up, from, hop) && hop in Ancestors(up, to)
                  && (forall c :: c in up && up[c] == from && (c == to || c in Ancestors(up, to)) ==> c == hop))
            && (r == TransitiveUpstream ==> Child(up, hop, from) && to in Ancestors(up, hop))
            && (r == SameUpstreamPeer ==> Child(up, hop, from) && Child(up, hop, to))
            && (r == OtherUpstreamPeer ==> hop == (if from in up then up[from] else to))
  {
    var (r, hop) := Relate(up, from, to);
    if r == TransitiveDownstream {
      forall c | c in up && up[c] == from && (c == to || c in Ancestors(up, to)) ensures c == hop {
        ChildUnique(up, from, to, c);
      }
    }
    if r == TransitiveUpstream {
      RankUp(up, from);
    }
  }
}
