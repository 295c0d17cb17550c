/**
  Reachability in a finite directed graph, restricted to a set of nodes a path may visit.
  A graph is a map from a node to its successors; cycles and sharing are allowed.
 */
module Graphs {

  /** A nonempty sequence of nodes of "within", each a successor of the one before. */
  ghost predicate IsPath<T>(g: map<T, set<T>>, within: set<T>, older p: seq<T>) {
    && p != []
    && (forall i | 0 <= i < |p| :: p[i] in within)
    && (forall i | 0 <= i < |p| - 1 :: p[i] in g && p[i + 1] in g[p[i]])
  }

  ghost predicate Leads<T>(g: map<T, set<T>>, within: set<T>, from: set<T>, x: T) {
    exists p :: IsPath(g, within, p) && p[0] in from && p[|p| - 1] == x
  }

  /** Where the paths of "within" that start in "from" can end. */
  ghost function Reach<T>(g: map<T, set<T>>, within: set<T>, from: set<T>): set<T> {
    set x | x in within && Leads(g, within, from, x)
  }

  /** "z" contains the allowed starting nodes and no edge between allowed nodes leaves it. */
  ghost predicate Absorbs<T>(g: map<T, set<T>>, within: set<T>, from: set<T>, z: set<T>) {
    && from * within <= z
    && forall x, y | x in z && x in g && y in g[x] && y in within :: y in z
  }

  lemma ReachAbsorbs<T>(g: map<T, set<T>>, within: set<T>, from: set<T>)
    ensures Absorbs(g, within, from, Reach(g, within, from))
  {
    var r := Reach(g, within, from);
    forall x | x in from * within
      ensures x in r
    {
      assert IsPath(g, within, [x]);
    }
    forall x, y | x in r && x in g && y in g[x] && y in within
      ensures y in r
    {
      var p :| IsPath(g, within, p) && p[0] in from && p[|p| - 1] == x;
      assert IsPath(g, within, p + [y]);
    }
  }

  lemma {:induction false} PathStays<T>(g: map<T, set<T>>, within: set<T>, from: set<T>, z: set<T>, p: seq<T>)
    requires Absorbs(g, within, from, z) && IsPath(g, within, p) && p[0] in from
    ensures p[|p| - 1] in z
  {
    if |p| > 1 {
      assert IsPath(g, within, p[..|p| - 1]);
      PathStays(g, within, from, z, p[..|p| - 1]);
    }
  }

  /** Reach is the least absorbing set. */
  lemma ReachLeast<T>(g: map<T, set<T>>, within: set<T>, from: set<T>, z: set<T>)
    requires Absorbs(g, within, from, z)
    ensures Reach(g, within, from) <= z
  {
    forall x | x in Reach(g, within, from)
      ensures x in z
    {
      var p :| IsPath(g, within, p) && p[0] in from && p[|p| - 1] == x;
      PathStays(g, within, from, z, p);
    }
  }

  /** Two searches one after the other, the second avoiding what the first found, find the same as one. */
  lemma ReachSplit<T>(g: map<T, set<T>>, within: set<T>, a: set<T>, b: set<T>)
    ensures Reach(g, within, a + b) == Reach(g, within, a) + Reach(g, within - Reach(g, within, a), b)
  {
    var r := Reach(g, within, a + b);
    var r1 := Reach(g, within, a);
    var r2 := Reach(g, within - r1, b);
    ReachAbsorbs(g, within, a + b);
    ReachAbsorbs(g, within, a);
    ReachAbsorbs(g, within - r1, b);
    ReachLeast(g, within, a + b, r1 + r2);
    ReachLeast(g, within, a, r);
    ReachLeast(g, within - r1, b, r);
  }

  /** A search from one node is that node and a search from its successors that avoids it. */
  lemma ReachPeel<T>(g: map<T, set<T>>, within: set<T>, p: T)
    requires p in within && p in g
    ensures Reach(g, within, {p}) == {p} + Reach(g, within - {p}, g[p])
  {
    var r := Reach(g, within, {p});
    var r2 := Reach(g, within - {p}, g[p]);
    ReachAbsorbs(g, within, {p});
    ReachAbsorbs(g, within - {p}, g[p]);
    ReachLeast(g, within, {p}, {p} + r2);
    ReachLeast(g, within - {p}, g[p], r);
  }

  lemma ReachStop<T>(g: map<T, set<T>>, within: set<T>, from: set<T>)
    requires from !! within
    ensures Reach(g, within, from) == {}
  {
    ReachLeast(g, within, from, {});
  }

  lemma ReachGrows<T>(g: map<T, set<T>>, within: set<T>, all: set<T>, from: set<T>, more: set<T>)
    requires within <= all && from <= more
    ensures Reach(g, within, from) <= Reach(g, all, more)
  {
    ReachAbsorbs(g, all, more);
    ReachLeast(g, within, from, Reach(g, all, more));
  }

  /**
    A search that may not enter "black" misses nothing outside "black", when every edge out of
    a reachable black node leads to a black node or to a start of the search.
   */
  lemma ReachPastBlack<T>(g: map<T, set<T>>, all: set<T>, black: set<T>, from: set<T>)
    requires forall x, y | x in black * Reach(g, all, from) && x in g && y in g[x] && y in all :: y in black + from
    ensures Reach(g, all - black, from) == Reach(g, all, from) - black
  {
    var r := Reach(g, all, from);
    var w := Reach(g, all - black, from);
    ReachGrows(g, all - black, all, from, from);
    assert Absorbs(g, all, from, w + black * r) by {
      ReachAbsorbs(g, all, from);
      ReachAbsorbs(g, all - black, from);
      forall x, y | x in w + black * r && x in g && y in g[x] && y in all
        ensures y in w + black * r
      {
        assert x in r && y in r;
        if y !in black && x !in w {
          assert y in from;
        }
      }
    }
    ReachLeast(g, all, from, w + black * r);
  }
}
