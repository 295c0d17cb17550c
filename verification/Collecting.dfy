/** One collection: what it keeps, what it frees, and what it leaves as it was. */
module Collecting {
  import opened Flags
  import opened Graphs
  import opened Objects
  import opened Marking
  import opened Sweeping
  import opened Paths
  import opened States

  ghost function SharedOnChain(s: State): set<Obj> {
    set o | o in s.chain && o in s.cells && HasAny(s.cells[o].flags, SHARED)
  }

  /** The objects a collection frees: on the allocation chain, not reachable from the roots, not SHARED. */
  ghost function Garbage(s: State): set<Obj> {
    Members(s.chain) - Reachable(s) - SharedOnChain(s)
  }

  /** The set both marking passes together paint, and that on the chain it is the reachable objects. */
  lemma MarkedSet(cs: Cells, chain: set<Obj>, roots: set<Obj>, tree: set<Obj>, m: Flags) returns (x: set<Obj>)
    requires m != NONE && roots <= cs.Keys && chain <= cs.Keys && chain !! roots
    requires forall o | o in chain :: !HasAny(cs[o].flags, m)
    requires forall o | o in Reach(Edges(cs), cs.Keys, roots + tree) - chain - roots :: Children(cs[o]) == {}
    ensures MarkFrom(MarkRoots(cs, roots, m), tree, m) == Paint(Wash(cs, roots, m), x, m)
    ensures x * chain == Reach(Edges(cs), cs.Keys, roots + tree) * chain
  {
    MarkRootsThenTree(cs, roots, tree, m);
    x := Reach(Edges(cs), White(cs, m) + roots, roots + tree);
    var black := cs.Keys - White(cs, m) - roots;
    forall o | o in black
      ensures o !in chain
    {
      SetMarks(cs[o].flags, m);
    }
    assert cs.Keys - black == White(cs, m) + roots;
    ReachPastBlack(Edges(cs), cs.Keys, black, roots + tree);
  }

  lemma FlagOutcome(f: Flags, g: Flags, reached: bool, m: Flags)
    requires GoodMask(m) && !HasAny(f, m)
    requires g == if reached then Set(f, m) else f
    ensures HasAny(g, m) == reached
    ensures Retained(g, m) == (reached || HasAny(f, SHARED))
    ensures Clear(g, m) == f
  {
    SetMarks(f, m);
    SetMarks(Set(f, m), m);
    SharedKept(f, m);
    ClearUndoesSet(f, m);
  }

  /** After marking, a chain object carries a mark exactly if it is reachable. */
  lemma MarkedExactly(s: State, m: Flags)
    requires ChainsOk(s) && Unmarked(s, m) && Registered(s) && GoodMask(m)
    ensures forall o | o in s.chain ::
              var f := Mark(s, m).cells[o].flags;
              && HasAny(f, m) == (o in Reachable(s))
              && Retained(f, m) == (o !in Garbage(s))
              && Clear(f, m) == s.cells[o].flags
  {
    var chain, roots := Members(s.chain), Members(s.roots);
    assert forall o | o in chain :: CleanAt(s, o, m);
    var x := MarkedSet(s.cells, chain, roots, Only(At(s, X_BASE)), m);
    forall o | o in s.chain
      ensures var f := Mark(s, m).cells[o].flags;
              && HasAny(f, m) == (o in Reachable(s))
              && Retained(f, m) == (o !in Garbage(s))
              && Clear(f, m) == s.cells[o].flags
    {
      assert o in chain && o !in roots && CleanAt(s, o, m);
      assert o in x <==> o in x * chain;
      FlagOutcome(s.cells[o].flags, Mark(s, m).cells[o].flags, o in x, m);
    }
  }

  lemma MarkKeeps(s: State, m: Flags, o: Obj)
    requires o in s.cells
    ensures var c := Mark(s, m).cells; o in c && c[o] == s.cells[o].(flags := c[o].flags)
  {
  }

  lemma MarkKeepsAll(s: State, m: Flags)
    ensures Mark(s, m).cells.Keys == s.cells.Keys
    ensures forall o | o in s.cells :: Mark(s, m).cells[o] == s.cells[o].(flags := Mark(s, m).cells[o].flags)
  {
    forall o | o in s.cells
      ensures Mark(s, m).cells[o] == s.cells[o].(flags := Mark(s, m).cells[o].flags)
    {
      MarkKeeps(s, m, o);
    }
  }

  lemma MarkKeepsShared(s: State, m: Flags, o: Obj)
    requires o in s.cells && GoodMask(m)
    ensures HasAny(Mark(s, m).cells[o].flags, SHARED) == HasAny(s.cells[o].flags, SHARED)
  {
    var f := s.cells[o].flags;
    SharedKept(f, m);
    SharedKept(Clear(f, m), m);
    SharedKept(Set(Clear(f, m), m), m);
    SharedKept(Set(f, m), m);
  }

  ghost predicate NodeKept(s: State, t: State, p: Path) {
    && p in s.layout && s.layout[p] in s.cells && s.layout[p] in t.cells
    && t.cells[s.layout[p]].kind == s.cells[s.layout[p]].kind
    && (!p.Base? ==> s.layout[p] in t.chain && t.cells[s.layout[p]].flags == s.cells[s.layout[p]].flags)
    && (p == EXTRA_ATOM ==> t.cells[s.layout[p]].num == s.cells[s.layout[p]].num)
  }

  ghost predicate LinkKept(s: State, t: State, p: Path) {
    !p.Base? && p.up in s.layout && s.layout[p.up] in s.cells && s.layout[p.up] in t.cells ==>
      Follow(t.cells[s.layout[p.up]], p) == Follow(s.cells[s.layout[p.up]], p)
  }

  /** The layout depends on protected slots, kinds, SHARED bits and chain membership only. */
  lemma LayoutFrame(s: State, t: State)
    requires LayoutOk(s) && t.layout == s.layout
    requires At(s, Base) !in t.chain && At(s, Base) !in t.roots
    requires forall p {:trigger NodeKept(s, t, p)} | p in s.layout :: NodeKept(s, t, p)
    requires forall p {:trigger LinkKept(s, t, p)} | p in s.layout :: LinkKept(s, t, p)
    ensures LayoutOk(t)
  {
    forall p {:trigger LinkOk(t, p)} | p in t.layout && !p.Base?
      ensures LinkOk(t, p)
    {
      assert LinkOk(s, p) && NodeKept(s, t, p) && NodeKept(s, t, p.up) && LinkKept(s, t, p);
    }
    forall p | p in t.layout
      ensures t.layout[p] in t.cells
    {
      assert NodeKept(s, t, p);
    }
    assert NodeKept(s, t, COUNT_ATOM) && NodeKept(s, t, LIMIT_ATOM) && NodeKept(s, t, EXTRA_ATOM);
    assert NodeKept(s, t, Base) && (forall l {:trigger ListField(l)} :: NodeKept(s, t, ListField(l))) && NodeKept(s, t, HEAP_ROOT_CHAIN);
    assert forall p, q {:trigger Meet(t, p, q)} | Meet(t, p, q) :: Meet(s, p, q);
  }

  lemma DeadIsGarbage(s: State, m: Flags)
    requires ChainsOk(s) && Unmarked(s, m) && Registered(s) && GoodMask(m)
    ensures Dead(Mark(s, m).cells, s.chain, m) == Garbage(s)
  {
    MarkedExactly(s, m);
  }

  lemma LayoutNotGarbage(s: State, p: Path)
    requires LayoutOk(s) && p in s.layout
    ensures s.layout[p] !in Garbage(s)
  {
    if !p.Base? {
      assert LinkOk(s, p);
    }
  }

  /** The count atom survives every sweep. */
  lemma CounterReady(s: State, m: Flags)
    requires LayoutOk(s) && GoodMask(m)
    ensures var counter := CounterOf(s);
            && CounterOf(Mark(s, m)) == counter
            && (counter != null ==> counter in Mark(s, m).cells && Retained(Mark(s, m).cells[counter].flags, m))
  {
    assert LinkOk(s, COUNT_ATOM);
    MarkKeepsShared(s, m, s.layout[COUNT_ATOM]);
  }

  lemma CollectedCells(s: State, m: Flags)
    requires LayoutOk(s) && ChainsOk(s) && Unmarked(s, m) && Registered(s) && GoodMask(m)
    ensures Collected(s, m).cells == SweepOutcome(Mark(s, m).cells, s.chain, m, CounterOf(s))
    ensures Dead(Mark(s, m).cells, s.chain, m) == Garbage(s)
  {
    DeadIsGarbage(s, m);
    CounterReady(s, m);
    SweepExact(Mark(s, m).cells, s.chain, m, CounterOf(s));
  }

  lemma MarkOutcome(s: State, m: Flags) returns (k: Cells)
    requires LayoutOk(s) && ChainsOk(s) && Unmarked(s, m) && Registered(s) && GoodMask(m)
    ensures k.Keys == s.cells.Keys
    ensures Collected(s, m).cells == SweepOutcome(k, s.chain, m, CounterOf(s))
    ensures Dead(k, s.chain, m) == Garbage(s)
    ensures forall o | o in s.cells :: k[o] == s.cells[o].(flags := k[o].flags)
    ensures forall o | o in s.chain :: Clear(k[o].flags, m) == s.cells[o].flags
  {
    k := Mark(s, m).cells;
    CollectedCells(s, m);
    MarkedExactly(s, m);
    MarkKeepsAll(s, m);
  }

  lemma OutcomeFacts(cs: Cells, k: Cells, q: seq<Obj>, m: Flags, counter: Obj?)
    requires k.Keys == cs.Keys && Members(q) <= cs.Keys
    requires forall o | o in cs :: k[o] == cs[o].(flags := k[o].flags)
    requires forall o | o in q :: Clear(k[o].flags, m) == cs[o].flags
    ensures var t := SweepOutcome(k, q, m, counter);
            && t.Keys == cs.Keys - Dead(k, q, m)
            && (forall o | o in t :: Unchanged(cs, t, o, q))
  {
  }

  /** Same type and data; and the same flag word if it is on the chain "q". */
  ghost predicate Unchanged(cs: Cells, t: Cells, o: Obj, q: seq<Obj>) {
    && o in cs && o in t
    && t[o].kind == cs[o].kind && t[o].first == cs[o].first && t[o].rest == cs[o].rest
    && (o in q ==> t[o].flags == cs[o].flags)
  }

  /**
    A collection frees exactly the chain objects that are neither reachable from the roots nor
    SHARED. Every other object keeps its type and data, and each chain object its flag word.
   */
  lemma CollectExact(s: State, m: Flags)
    requires LayoutOk(s) && ChainsOk(s) && Unmarked(s, m) && Registered(s) && GoodMask(m)
    ensures Collected(s, m).cells.Keys == s.cells.Keys - Garbage(s)
    ensures forall o | o in Collected(s, m).cells :: Unchanged(s.cells, Collected(s, m).cells, o, s.chain)
  {
    var k := MarkOutcome(s, m);
    OutcomeFacts(s.cells, k, s.chain, m, CounterOf(s));
  }

  /** The chain left is the order-preserving filter of the chain by "reachable or SHARED". */
  lemma CollectChain(s: State, m: Flags)
    requires LayoutOk(s) && ChainsOk(s) && Unmarked(s, m) && Registered(s) && GoodMask(m)
    ensures Members(Collected(s, m).chain) == Members(s.chain) - Garbage(s)
    ensures Distinct(Collected(s, m).chain)
    ensures forall i, j | 0 <= i < j < |s.chain| && s.chain[i] !in Garbage(s) && s.chain[j] !in Garbage(s) ::
              exists a, b | 0 <= a < b < |Collected(s, m).chain| ::
                Collected(s, m).chain[a] == s.chain[i] && Collected(s, m).chain[b] == s.chain[j]
  {
    var k := Mark(s, m).cells;
    DeadIsGarbage(s, m);
    SurvivorsExact(k, s.chain, m);
    forall i, j | 0 <= i < j < |s.chain| && s.chain[i] !in Garbage(s) && s.chain[j] !in Garbage(s)
      ensures exists a, b | 0 <= a < b < |Survivors(k, s.chain, m)| ::
                Survivors(k, s.chain, m)[a] == s.chain[i] && Survivors(k, s.chain, m)[b] == s.chain[j]
    {
      assert s.chain[i] !in Dead(k, s.chain, m) && s.chain[j] !in Dead(k, s.chain, m);
      SurvivorsInOrder(k, s.chain, m, i, j);
    }
  }

  /** The count falls by exactly the number of nodes that left the chain. */
  lemma CollectCounts(s: State, m: Flags)
    requires LayoutOk(s) && ChainsOk(s) && Unmarked(s, m) && Registered(s) && GoodMask(m)
    requires Full(s)
    ensures CountOf(Collected(s, m)) == CountOf(s) - (|s.chain| - |Collected(s, m).chain|)
  {
    var o := s.layout[COUNT_ATOM];
    CollectedCells(s, m);
    LayoutNotGarbage(s, COUNT_ATOM);
    MarkKeeps(s, m, o);
    assert o in SweepOutcome(Mark(s, m).cells, s.chain, m, o);
  }

  lemma CollectKeepsInv(s: State, m: Flags)
    requires Inv(s, m) && Ready(s) && GoodMask(m)
    ensures Inv(Collected(s, m), m)
  {
    CollectKeepsLayout(s, m);
    CollectLeavesNoDangling(s, m);
    CollectKeepsChains(s, m);
  }

  lemma CollectKeepsChains(s: State, m: Flags)
    requires LayoutOk(s) && ChainsOk(s) && Unmarked(s, m) && Registered(s) && GoodMask(m)
    requires Current(s, HEAP_ROOT_CHAIN) == Head(s.roots)
    ensures var t := Collected(s, m); ChainsOk(t) && Unmarked(t, m) && Current(t, HEAP_ROOT_CHAIN) == Head(t.roots)
  {
    CollectExact(s, m);
    CollectChain(s, m);
    CollectKeepsLayout(s, m);
    forall o | o in Collected(s, m).cells && o != s.layout[COUNT_ATOM]
      ensures Collected(s, m).cells[o].num == s.cells[o].num
    {
      CollectKeepsNum(s, m, o);
    }
    assert LinkOk(s, COUNT_ATOM);
    CollectKeepsRest(s, Collected(s, m), m);
  }

  lemma CollectKeepsRest(s: State, t: State, m: Flags)
    requires ChainsOk(s) && Unmarked(s, m) && LayoutOk(s)
    requires Current(s, HEAP_ROOT_CHAIN) == Head(s.roots)
    requires t.roots == s.roots && t.layout == s.layout && LayoutOk(t)
    requires t.cells.Keys == s.cells.Keys - Garbage(s)
    requires Members(t.chain) == Members(s.chain) - Garbage(s) && Distinct(t.chain)
    requires forall o | o in t.cells :: Unchanged(s.cells, t.cells, o, s.chain)
    requires LinkOk(s, COUNT_ATOM) && forall o | o in t.cells && o in s.cells && o != s.layout[COUNT_ATOM] :: t.cells[o].num == s.cells[o].num
    ensures ChainsOk(t) && Unmarked(t, m) && Current(t, HEAP_ROOT_CHAIN) == Head(t.roots)
  {
    CollectKeepsOwners(s, t);
    assert Members(t.chain) <= Members(s.chain);
    forall o | o in t.chain
      ensures o in s.chain
    {
      assert o in Members(t.chain);
    }
    assert Unchanged(s.cells, t.cells, t.layout[HEAP_ROOT_CHAIN], s.chain);
    forall o {:trigger CleanAt(t, o, m)} | o in t.chain
      ensures CleanAt(t, o, m)
    {
      assert CleanAt(s, o, m) && Unchanged(s.cells, t.cells, o, s.chain);
    }
  }

  lemma CollectKeepsOwners(s: State, t: State)
    requires ChainsOk(s) && LinkOk(s, COUNT_ATOM) && Members(t.chain) <= Members(s.chain)
    requires forall o | o in t.cells :: Unchanged(s.cells, t.cells, o, s.chain)
    requires forall o | o in t.cells && o in s.cells && o != s.layout[COUNT_ATOM] :: t.cells[o].num == s.cells[o].num
    ensures OwnersOk(t)
  {
    forall o | o in t.chain
      ensures o in s.chain && (o in t.cells ==> OwnsAlike(s, t, o))
    {
      assert o in Members(t.chain) && o in Members(s.chain);
      assert o in t.cells ==> Unchanged(s.cells, t.cells, o, s.chain);
    }
    OwnersKept(s, t);
  }

  /** If it owns a datum now, it is as it was. */
  ghost predicate OwnsAlike(s: State, t: State, o: Obj) {
    o in s.cells && o in t.cells &&
    (HasAny(t.cells[o].flags, OWN) ==>
       && HasAny(s.cells[o].flags, OWN) && t.cells[o].kind == s.cells[o].kind
       && t.cells[o].first == s.cells[o].first && t.cells[o].num == s.cells[o].num)
  }

  lemma OwnersKept(s: State, t: State)
    requires OwnersOk(s)
    requires forall o | o in t.chain :: o in s.chain && (o in t.cells ==> OwnsAlike(s, t, o))
    ensures OwnersOk(t)
  {
    forall o {:trigger PureAt(t, o)} | o in t.chain
      ensures PureAt(t, o)
    {
      assert PureAt(s, o);
    }
    forall o, p {:trigger Shares(t, o, p)} | Shares(t, o, p)
      ensures o == p
    {
      assert Shares(s, o, p);
    }
  }

  /** No number a base atom holds changes but the count. */
  lemma CollectKeepsNumber(s: State, m: Flags, p: Path)
    requires LayoutOk(s) && ChainsOk(s) && Unmarked(s, m) && Registered(s) && GoodMask(m)
    requires p in s.layout && p != COUNT_ATOM
    ensures CellAt(Collected(s, m), p).num == CellAt(s, p).num
  {
    assert !Meet(s, p, COUNT_ATOM);
    LayoutNotGarbage(s, p);
    CollectKeepsNum(s, m, s.layout[p]);
  }

  lemma CollectKeepsNum(s: State, m: Flags, o: Obj)
    requires LayoutOk(s) && ChainsOk(s) && Unmarked(s, m) && Registered(s) && GoodMask(m)
    requires o in s.cells && o !in Garbage(s) && o != s.layout[COUNT_ATOM]
    ensures o in Collected(s, m).cells && Collected(s, m).cells[o].num == s.cells[o].num
  {
    var k := MarkOutcome(s, m);
    assert o in SweepOutcome(k, s.chain, m, CounterOf(s));
  }

  lemma CollectKeepsLayout(s: State, m: Flags)
    requires LayoutOk(s) && ChainsOk(s) && Unmarked(s, m) && Registered(s) && GoodMask(m)
    ensures LayoutOk(Collected(s, m))
  {
    CollectExact(s, m);
    CollectChain(s, m);
    CollectKeepsNumber(s, m, EXTRA_ATOM);
    LayoutSurvives(s, Collected(s, m));
  }

  lemma LayoutSurvives(s: State, t: State)
    requires LayoutOk(s) && t.layout == s.layout && t.roots == s.roots
    requires t.cells.Keys == s.cells.Keys - Garbage(s)
    requires Members(t.chain) == Members(s.chain) - Garbage(s)
    requires forall o | o in t.cells :: Unchanged(s.cells, t.cells, o, s.chain)
    requires ExtraNum(t) == ExtraNum(s)
    ensures LayoutOk(t)
  {
    forall p {:trigger NodeKept(s, t, p)} | p in s.layout
      ensures NodeKept(s, t, p)
    {
      LayoutNotGarbage(s, p);
      assert Unchanged(s.cells, t.cells, s.layout[p], s.chain);
      if !p.Base? {
        assert LinkOk(s, p);
        assert s.layout[p] in Members(t.chain);
      }
    }
    forall p {:trigger LinkKept(s, t, p)} | p in s.layout
      ensures LinkKept(s, t, p)
    {
      if !p.Base? && p.up in s.layout && s.layout[p.up] in t.cells {
        assert Unchanged(s.cells, t.cells, s.layout[p.up], s.chain);
      }
    }
    assert At(s, Base) !in t.chain by {
      assert At(s, Base) in t.chain ==> At(s, Base) in Members(t.chain);
    }
    LayoutFrame(s, t);
  }

  /** No surviving object points at a freed one. */
  lemma CollectLeavesNoDangling(s: State, m: Flags)
    requires LayoutOk(s) && ChainsOk(s) && NoDangling(s) && Unmarked(s, m) && Registered(s) && SharedRule(s) && GoodMask(m)
    ensures NoDangling(Collected(s, m))
  {
    CollectExact(s, m);
    CollectChain(s, m);
    NoDanglingLeft(s, Collected(s, m));
  }

  lemma NoDanglingLeft(s: State, t: State)
    requires LayoutOk(s) && ChainsOk(s) && NoDangling(s) && Registered(s) && SharedRule(s)
    requires t.roots == s.roots && t.cells.Keys == s.cells.Keys - Garbage(s)
    requires Members(t.chain) == Members(s.chain) - Garbage(s)
    requires forall o | o in t.cells :: Unchanged(s.cells, t.cells, o, s.chain)
    ensures NoDangling(t)
  {
    forall o {:trigger PointsAtLive(t, o)} | o in t.cells && (o in t.chain || o in t.roots)
      ensures PointsAtLive(t, o)
    {
      assert o in t.chain ==> o in Members(t.chain) && o in s.chain;
      if o in t.cells {
        assert Unchanged(s.cells, t.cells, o, s.chain);
        SurvivorsPointAtSurvivors(s, o);
      }
    }
  }

  lemma SurvivorsPointAtSurvivors(s: State, o: Obj)
    requires ChainsOk(s) && NoDangling(s) && Registered(s) && SharedRule(s)
    requires o in s.cells && (o in s.chain || o in s.roots) && o !in Garbage(s)
    ensures Children(s.cells[o]) <= s.cells.Keys - Garbage(s)
  {
    ReachAbsorbs(Edges(s.cells), s.cells.Keys, Members(s.roots) + Only(At(s, X_BASE)));
    assert PointsAtLive(s, o);
    assert o in s.roots ==> o in Members(s.roots);
    assert Secure(s, o) || o in Reachable(s) || o in s.roots;
    if o in Reachable(s) {
      assert Edges(s.cells)[o] == Children(s.cells[o]);
    }
  }

  /**
    A collection leaves no dangling pointer exactly if the rule for SHARED objects is kept: one
    that is not reachable points only at chain objects that are SHARED or reachable.
   */
  lemma CollectSafeExactly(s: State, m: Flags)
    requires Inv(s, m) && Registered(s) && GoodMask(m)
    ensures NoDangling(Collected(s, m)) <==> SharedRule(s)
  {
    if SharedRule(s) {
      CollectLeavesNoDangling(s, m);
    } else {
      var t := Collected(s, m);
      var o :| o in s.chain && o in s.cells && HasAny(s.cells[o].flags, SHARED) && o !in Reachable(s) && !Secure(s, o);
      CollectExact(s, m);
      CollectChain(s, m);
      Dangles(s, t, o);
    }
  }

  lemma Dangles(s: State, t: State, o: Obj)
    requires o in s.chain && o in s.cells && HasAny(s.cells[o].flags, SHARED) && !Secure(s, o)
    requires t.cells.Keys == s.cells.Keys - Garbage(s) && Members(t.chain) == Members(s.chain) - Garbage(s)
    requires forall o | o in t.cells :: Unchanged(s.cells, t.cells, o, s.chain)
    ensures !NoDangling(t)
  {
    assert o in Members(s.chain) && o in SharedOnChain(s) && o in Members(t.chain);
    assert Unchanged(s.cells, t.cells, o, s.chain);
    var c :| c in Children(s.cells[o]) && c in s.chain && c in s.cells && !HasAny(s.cells[c].flags, SHARED) && c !in Reachable(s);
    assert c in Garbage(s) && c !in t.cells;
    assert !PointsAtLive(t, o);
  }

  /** Marking never leaves the reachable objects, and finds no freed one among their children. */
  lemma ReachableIsClosed(s: State, m: Flags)
    requires LayoutOk(s) && ChainsOk(s) && NoDangling(s) && Registered(s)
    ensures Closed(s.cells, Reachable(s))
    ensures Members(s.roots) + Only(At(s, X_BASE)) <= Reachable(s)
  {
    var from := Members(s.roots) + Only(At(s, X_BASE));
    assert LinkOk(s, X_BASE);
    ReachAbsorbs(Edges(s.cells), s.cells.Keys, from);
    assert from * s.cells.Keys == from;
    forall o | o in Reachable(s)
      ensures Children(s.cells[o]) <= Reachable(s)
    {
      assert PointsAtLive(s, o);
      assert Edges(s.cells)[o] == Children(s.cells[o]);
    }
  }
}
