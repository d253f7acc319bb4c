/** Finite directed graphs: reachability, cycles, and the rankings of graphs without cycles. */
module Graphs {

  /** The successors of each node. */
  type Graph<T(==)> = map<T, set<T>>

  /** Every link leads to a node of the graph. */
  ghost predicate Closed<T>(g: Graph<T>)
  {
    forall h, d :: h in g && d in g[h] ==> d in g
  }

  /** No link leads out of s. */
  ghost predicate Stays<T>(g: Graph<T>, s: set<T>)
  {
    forall h, d :: h in g && h in s && d in g[h] ==> d in s
  }

  /** x is h or lies downstream of it: it is in every set of nodes around h that no link leaves. */
  ghost predicate Reaches<T>(g: Graph<T>, h: T, x: T)
  {
    forall s | s <= g.Keys :: h in s && Stays(g, s) ==> x in s
  }

  /** No node lies downstream of its own successors. */
  ghost predicate Acyclic<T>(g: Graph<T>)
  {
    forall h, d :: h in g && d in g[h] ==> !Reaches(g, d, h)
  }

  /** All nodes that h reaches. */
  ghost function ReachSet<T>(g: Graph<T>, h: T): (s: set<T>)
  {
    set x | x in g && Reaches(g, h, x)
  }

  /** Whoever is reached is the start or is reached from one of its successors. */
  lemma ReachesStep<T>(g: Graph<T>, h: T, x: T)
    requires Closed(g) && h in g
    ensures Reaches(g, h, x) <==> h == x || exists d :: d in g[h] && Reaches(g, d, x)
  {
    if Reaches(g, h, x) {
      var s := {h} + set y | y in g && exists d :: d in g[h] && Reaches(g, d, y);
      forall u, d | u in g && u in s && d in g[u]
        ensures d in s
      {
        if u != h {
          var e :| e in g[h] && Reaches(g, e, u);
          assert Reaches(g, e, d);
        } else {
          assert Reaches(g, d, d);
        }
      }
      assert Stays(g, s);
    }
  }

  // ----- Walks --------------------------------------------------------------

  ghost predicate Link<T>(g: Graph<T>, h: T, d: T)
  {
    h in g && d in g[h]
  }

  /** A walk along links from h to x. */
  ghost predicate IsWalk<T>(g: Graph<T>, walk: seq<T>, h: T, x: T)
  {
    && |walk| > 0 && walk[0] == h && walk[|walk| - 1] == x && h in g
    && forall i, j :: 0 <= i < |walk| && j == i + 1 < |walk| ==> Link(g, walk[i], walk[j])
  }

  lemma {:induction false} WalkIsReached<T>(g: Graph<T>, walk: seq<T>, h: T, x: T)
    requires Closed(g) && IsWalk(g, walk, h, x)
    ensures x in g && Reaches(g, h, x)
    decreases |walk|
  {
    if |walk| > 1 {
      assert Link(g, walk[0], walk[1]);
      assert IsWalk(g, walk[1..], walk[1], x);
      WalkIsReached(g, walk[1..], walk[1], x);
      ReachesStep(g, h, x);
    }
  }

  /** Exactly what a walk leads to is reached. */
  lemma ReachesIffWalk<T>(g: Graph<T>, h: T, x: T)
    requires Closed(g) && h in g
    ensures Reaches(g, h, x) <==> exists walk :: IsWalk(g, walk, h, x)
  {
    if Reaches(g, h, x) {
      var s := set y | y in g && exists walk :: IsWalk(g, walk, h, y);
      forall u, d | u in g && u in s && d in g[u]
        ensures d in s
      {
        var walk :| IsWalk(g, walk, h, u);
        assert Link(g, u, d);
        assert IsWalk(g, walk + [d], h, d);
      }
      assert IsWalk(g, [h], h, h);
      assert h in s && Stays(g, s);
    }
    if walk :| IsWalk(g, walk, h, x) {
      WalkIsReached(g, walk, h, x);
    }
  }

  /** A graph is acyclic if and only if no walk of a step or more comes back to its start. */
  lemma AcyclicIffNoClosedWalk<T>(g: Graph<T>)
    requires Closed(g)
    ensures Acyclic(g) <==> !exists walk, h :: IsWalk(g, walk, h, h) && |walk| > 1
  {
    if !Acyclic(g) {
      var h, d :| h in g && d in g[h] && Reaches(g, d, h);
      ReachesIffWalk(g, d, h);
      var walk :| IsWalk(g, walk, d, h);
      assert Link(g, h, d);
      assert IsWalk(g, [h] + walk, h, h);
    }
    if walk, h :| IsWalk(g, walk, h, h) && |walk| > 1 {
      assert Link(g, walk[0], walk[1]);
      assert IsWalk(g, walk[1..], walk[1], h);
      WalkIsReached(g, walk[1..], walk[1], h);
    }
  }

  // ----- Rankings -----------------------------------------------------------

  /** Every link leads to a smaller rank. */
  ghost predicate Ranked<T>(g: Graph<T>, rank: map<T, nat>)
  {
    && (forall h :: h in g ==> h in rank)
    && (forall h, d :: h in g && d in g[h] ==> d in rank && rank[d] < rank[h])
  }

  lemma Smaller<T>(a: set<T>, b: set<T>, x: T)
    requires a <= b && x in b && x !in a
    ensures |a| < |b|
  {
    assert |b| == |a| + |b - a| by { assert a + (b - a) == b; }
    assert x in b - a;
  }

  /** In a graph without cycles, fewer nodes are reached with every step. */
  lemma ReachesFewer<T>(g: Graph<T>, h: T, d: T)
    requires Closed(g) && Acyclic(g) && h in g && d in g[h]
    ensures |ReachSet(g, d)| < |ReachSet(g, h)|
  {
    Smaller(ReachSet(g, d), ReachSet(g, h), h);
  }

  lemma {:induction false} RankFalls<T>(g: Graph<T>, rank: map<T, nat>, walk: seq<T>, h: T, x: T)
    requires Closed(g) && Ranked(g, rank) && IsWalk(g, walk, h, x) && |walk| > 1
    ensures x in g && rank[x] < rank[h]
    decreases |walk|
  {
    assert Link(g, walk[0], walk[1]);
    if |walk| > 2 {
      assert IsWalk(g, walk[1..], walk[1], x);
      RankFalls(g, rank, walk[1..], walk[1], x);
    }
  }

  /** A graph has a ranking if and only if it has no cycle. */
  lemma AcyclicIffRanked<T>(g: Graph<T>)
    requires Closed(g)
    ensures Acyclic(g) <==> exists rank :: Ranked(g, rank)
  {
    if Acyclic(g) {
      var rank := map h | h in g :: |ReachSet(g, h)|;
      forall h, d | h in g && d in g[h]
        ensures rank[d] < rank[h]
      {
        ReachesFewer(g, h, d);
      }
      assert Ranked(g, rank);
    } else {
      AcyclicIffNoClosedWalk(g);
      var walk, h :| IsWalk(g, walk, h, h) && |walk| > 1;
      if rank :| Ranked(g, rank) {
        RankFalls(g, rank, walk, h, h);
      }
    }
  }

  // ----- Adding and removing links ------------------------------------------

  function WithLink<T>(g: Graph<T>, h: T, d: T): (r: Graph<T>)
    requires h in g
  {
    g[h := g[h] + {d}]
  }

  /** Fewer links reach less. */
  lemma FewerLinks<T>(g: Graph<T>, g': Graph<T>)
    requires g'.Keys == g.Keys && forall h :: h in g' ==> g'[h] <= g[h]
    ensures forall h, x :: Reaches(g', h, x) ==> Reaches(g, h, x)
    ensures Acyclic(g) ==> Acyclic(g')
  {
    assert forall s | s <= g.Keys :: Stays(g, s) ==> Stays(g', s);
  }

  /** A new link from h helps nobody to h. */
  lemma SameWayBack<T>(g: Graph<T>, h: T, d: T, x: T)
    requires Closed(g) && h in g && d in g && x in g
    ensures Reaches(WithLink(g, h, d), x, h) <==> Reaches(g, x, h)
  {
    var g' := WithLink(g, h, d);
    FewerLinks(g', g);
    if !Reaches(g, x, h) {
      var s :| s <= g.Keys && x in s && Stays(g, s) && h !in s;
      assert s <= g'.Keys && Stays(g', s);
    }
  }

  /** Raising whatever leads to h makes room for a link from h to a node that does not lead there. */
  lemma Raised<T>(g: Graph<T>, rank: map<T, nat>, h: T, d: T)
    requires Closed(g) && Ranked(g, rank) && h in g && d in g && !Reaches(g, d, h)
    ensures exists raised :: Ranked(WithLink(g, h, d), raised)
  {
    ReachesStep(g, h, h);
    var raised := map x | x in g :: rank[x] + if Reaches(g, x, h) then rank[d] + 1 else 0;
    forall x, y | x in g && y in g[x]
      ensures raised[y] < raised[x]
    {
      ReachesStep(g, x, h);
    }
    assert Ranked(WithLink(g, h, d), raised);
  }

  /** A new link from h to d leaves the graph acyclic if and only if d does not lead to h. */
  lemma LinkKeepsAcyclicIff<T>(g: Graph<T>, h: T, d: T)
    requires Closed(g) && h in g && d in g
    ensures Acyclic(WithLink(g, h, d)) <==> Acyclic(g) && !Reaches(g, d, h)
  {
    hide Reaches, Ranked;
    var g' := WithLink(g, h, d);
    FewerLinks(g', g);
    SameWayBack(g, h, d, d);
    if Acyclic(g) && !Reaches(g, d, h) {
      AcyclicIffRanked(g);
      var rank :| Ranked(g, rank);
      Raised(g, rank, h, d);
      assert Closed(g');
      AcyclicIffRanked(g');
    }
  }

  /** A node linked to itself is a cycle, whatever the rest of the graph is. */
  lemma SelfLinkIsACycle<T>(g: Graph<T>, h: T)
    requires Closed(g) && h in g
    ensures !Acyclic(WithLink(g, h, h))
  {
    LinkKeepsAcyclicIff(g, h, h);
    ReachesStep(g, h, h);
  }
}
