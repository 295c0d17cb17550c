/** How deep the marker's calls nest (src/x-heap.c, lines 41-60): by first alone, whatever the length of a list. */
module CallDepth {
  import opened Graphs
  import opened Objects

  function Larger(a: nat, b: nat): nat {
    if a >= b then a else b
  }

  /**
    How many calls are active at once when marking from "p" while "white" is unmarked: the loop
    goes on along rest, with what a call for first has marked in the meantime. Of the objects
    only the types and data matter.
   */
  ghost function Calls(b: Cells, white: set<Obj>, p: Obj?): nat
    decreases white
  {
    if p == null || p !in white || p !in b || !b[p].kind.PairType? then 1
    else
      var w: set<Obj> := white - {p};
      Larger(Calls(b, w, b[p].first) + 1, Calls(b, w - Reach(Edges(b), w, Only(b[p].first)), b[p].rest))
  }

  /**
    "rank" falls from a pair to its first and does not rise from a pair to its rest: it bounds
    how deep the objects of "r" nest through first.
   */
  ghost predicate Nests(cs: Cells, r: set<Obj>, rank: map<Obj, nat>) {
    forall o {:trigger NestsAt(cs, rank, o)} | o in r :: NestsAt(cs, rank, o)
  }

  ghost predicate NestsAt(cs: Cells, rank: map<Obj, nat>, o: Obj) {
    o in cs && cs[o].kind.PairType? ==>
      Bound(rank, cs[o].first) < Bound(rank, o) && Bound(rank, cs[o].rest) <= Bound(rank, o)
  }

  ghost function Bound(rank: map<Obj, nat>, o: Obj?): nat {
    if o != null && o in rank then rank[o] + 1 else 1
  }

  /** Data whose pairs form no cycle, as "order" shows by falling along every edge. */
  ghost predicate Acyclic(cs: Cells, order: map<Obj, nat>) {
    forall o {:trigger FallsAt(cs, order, o)} | o in cs :: FallsAt(cs, order, o)
  }

  ghost predicate FallsAt(cs: Cells, order: map<Obj, nat>, o: Obj) {
    o in cs && cs[o].kind.PairType? ==>
      o in order && forall c | c in Children(cs[o]) && c in cs && cs[c].kind.PairType? :: c in order && order[c] < order[o]
  }

  /** How deep the data below "o" nests through first: a step to first is one level down, a step to rest none. */
  ghost function Nesting(cs: Cells, order: map<Obj, nat>, o: Obj?): nat
    requires Acyclic(cs, order)
    decreases if o != null && o in order then order[o] + 1 else 0
  {
    if o == null || o !in cs || !cs[o].kind.PairType? then 0
    else
      assert FallsAt(cs, order, o);
      var inner := if IsPair(cs, cs[o].first) then Nesting(cs, order, cs[o].first) else 0;
      var along := if IsPair(cs, cs[o].rest) then Nesting(cs, order, cs[o].rest) else 0;
      if inner + 1 >= along then inner + 1 else along
  }

  ghost predicate IsPair(cs: Cells, o: Obj?) {
    o != null && o in cs && cs[o].kind.PairType?
  }

  ghost function NestingRank(cs: Cells, order: map<Obj, nat>): map<Obj, nat>
    requires Acyclic(cs, order)
  {
    map o | o in cs :: Nesting(cs, order, o)
  }

  /** On every acyclic structure the nesting depth is such a rank. */
  lemma TreeNests(cs: Cells, order: map<Obj, nat>, r: set<Obj>)
    requires Acyclic(cs, order) && Closed(cs, r)
    ensures Nests(cs, r, NestingRank(cs, order))
    ensures forall o: Obj? :: Bound(NestingRank(cs, order), o) == Nesting(cs, order, o) + 1
  {
    var rank := NestingRank(cs, order);
    forall o {:trigger NestsAt(cs, rank, o)} | o in r
      ensures NestsAt(cs, rank, o)
    {
      assert FallsAt(cs, order, o);
    }
  }

  /** No rank gives a smaller bound than the nesting depth does. */
  lemma {:induction false} NestingLeast(cs: Cells, order: map<Obj, nat>, r: set<Obj>, rank: map<Obj, nat>, o: Obj?)
    requires Acyclic(cs, order) && Closed(cs, r) && Nests(cs, r, rank) && Only(o) <= r
    ensures Nesting(cs, order, o) + 1 <= Bound(rank, o)
    decreases if o != null && o in order then order[o] + 1 else 0
  {
    if IsPair(cs, o) {
      assert FallsAt(cs, order, o) && NestsAt(cs, rank, o);
      assert Children(cs[o]) <= r;
      if IsPair(cs, cs[o].first) {
        NestingLeast(cs, order, r, rank, cs[o].first);
      }
      if IsPair(cs, cs[o].rest) {
        NestingLeast(cs, order, r, rank, cs[o].rest);
      }
    }
  }

  /** One level for pairs, none for anything else. */
  ghost function FlatRank(cs: Cells): map<Obj, nat> {
    map o | o in cs :: if cs[o].kind.PairType? then 1 else 0
  }

  /** A list of atoms, however long, and every other structure whose pairs hold no pairs in first, nests once. */
  lemma FlatNests(cs: Cells, r: set<Obj>)
    requires forall o | o in r && o in cs && cs[o].kind.PairType? ::
               forall c | c in Only(cs[o].first) :: c in cs && !cs[c].kind.PairType?
    ensures Nests(cs, r, FlatRank(cs))
    ensures forall o: Obj? :: Bound(FlatRank(cs), o) <= 2
  {
    forall o {:trigger NestsAt(cs, FlatRank(cs), o)} | o in r
      ensures NestsAt(cs, FlatRank(cs), o)
    {
    }
  }

  // ---- The bound, and when it is met ----

  /** On any graph and from any marks, every rank bounds the calls. */
  lemma {:induction false} CallsBounded(b: Cells, r: set<Obj>, rank: map<Obj, nat>, white: set<Obj>, p: Obj?)
    requires Closed(b, r) && Nests(b, r, rank) && Only(p) <= r
    ensures Calls(b, white, p) <= Bound(rank, p)
    decreases white
  {
    if p != null && p in white && p in b && b[p].kind.PairType? {
      var w: set<Obj> := white - {p};
      assert NestsAt(b, rank, p) && Children(b[p]) <= r;
      CallsBounded(b, r, rank, w, b[p].first);
      CallsBounded(b, r, rank, w - Reach(Edges(b), w, Only(b[p].first)), b[p].rest);
    }
  }

  /** Everything below "o". */
  ghost function Below(cs: Cells, o: Obj?): set<Obj> {
    Reach(Edges(cs), cs.Keys, Only(o))
  }

  /** No object is met twice on the way down from "o". */
  ghost predicate TreeLike(cs: Cells, order: map<Obj, nat>, o: Obj?)
    requires Acyclic(cs, order)
    decreases if o != null && o in order then order[o] + 1 else 0
  {
    IsPair(cs, o) ==>
      assert FallsAt(cs, order, o);
      var x, y := Below(cs, cs[o].first), Below(cs, cs[o].rest);
      && x !! y && o !in x && o !in y
      && (IsPair(cs, cs[o].first) ==> TreeLike(cs, order, cs[o].first))
      && (IsPair(cs, cs[o].rest) ==> TreeLike(cs, order, cs[o].rest))
  }

  lemma BelowPair(cs: Cells, o: Obj)
    requires IsPair(cs, o)
    ensures o in Below(cs, o)
    ensures Below(cs, cs[o].first) <= Below(cs, o) && Below(cs, cs[o].rest) <= Below(cs, o)
  {
    var g, z := Edges(cs), Below(cs, o);
    ReachAbsorbs(g, cs.Keys, {o});
    assert o in {o} * cs.Keys;
    assert g[o] == Only(cs[o].first) + Only(cs[o].rest);
    ReachLeast(g, cs.Keys, Only(cs[o].first), z);
    ReachLeast(g, cs.Keys, Only(cs[o].rest), z);
  }

  /** On an unmarked tree the calls nest exactly as deep as the tree does through first. */
  lemma {:induction false} CallsOfTree(b: Cells, order: map<Obj, nat>, white: set<Obj>, o: Obj?)
    requires Acyclic(b, order) && TreeLike(b, order, o) && Below(b, o) <= white <= b.Keys
    ensures Calls(b, white, o) == Nesting(b, order, o) + 1
    decreases white
  {
    if IsPair(b, o) {
      var first, rest := b[o].first, b[o].rest;
      var w: set<Obj> := white - {o};
      assert FallsAt(b, order, o);
      BelowPair(b, o);
      ReachGrows(Edges(b), w, b.Keys, Only(first), Only(first));
      if IsPair(b, first) {
        CallsOfTree(b, order, w, first);
      }
      if IsPair(b, rest) {
        CallsOfTree(b, order, w - Reach(Edges(b), w, Only(first)), rest);
      }
    }
  }
}
