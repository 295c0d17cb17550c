/** What the marking half of the collector does to a snapshot (src/x-heap.c, lines 19-63 and 124-188). */
module Marking {
  import opened Flags
  import opened Graphs
  import opened Objects

  /** The objects that do not yet carry every bit of "m". */
  ghost function White(cs: Cells, m: Flags): set<Obj> {
    set o | o in cs && !HasAll(cs[o].flags, m)
  }

  ghost function Paint(cs: Cells, x: set<Obj>, m: Flags): Cells {
    map o | o in cs :: if o in x then cs[o].(flags := Set(cs[o].flags, m)) else cs[o]
  }

  ghost function Wash(cs: Cells, x: set<Obj>, m: Flags): Cells {
    map o | o in cs :: if o in x then cs[o].(flags := Clear(cs[o].flags, m)) else cs[o]
  }

  /** Set "m" on exactly what unmarked paths from "from" reach. */
  ghost function MarkFrom(cs: Cells, from: set<Obj>, m: Flags): Cells {
    Paint(cs, Reach(Edges(cs), White(cs, m), from), m)
  }

  /** Root-chain marking: clear every registered node, then mark from all of them. */
  ghost function MarkRoots(cs: Cells, roots: set<Obj>, m: Flags): Cells {
    MarkFrom(Wash(cs, roots, m), roots, m)
  }

  lemma PaintFacts(cs: Cells, x: set<Obj>, m: Flags)
    ensures Edges(Paint(cs, x, m)) == Edges(cs)
    ensures White(Paint(cs, x, m), m) == White(cs, m) - x
  {
    forall o | o in cs
      ensures HasAll(Set(cs[o].flags, m), m)
    {
      SetMarks(cs[o].flags, m);
    }
  }

  lemma PaintPaint(cs: Cells, x: set<Obj>, y: set<Obj>, m: Flags)
    ensures Paint(Paint(cs, x, m), y, m) == Paint(cs, x + y, m)
  {
    forall o | o in cs
      ensures Set(Set(cs[o].flags, m), m) == Set(cs[o].flags, m)
    {
      WordFacts(cs[o].flags, m);
    }
  }

  lemma WashFacts(cs: Cells, x: set<Obj>, m: Flags)
    requires m != NONE
    ensures Edges(Wash(cs, x, m)) == Edges(cs)
    ensures White(Wash(cs, x, m), m) == White(cs, m) + x * cs.Keys
  {
    forall o | o in cs
      ensures !HasAll(Clear(cs[o].flags, m), m)
    {
      WordFacts(cs[o].flags, m);
      SetMarks(Clear(cs[o].flags, m), m);
    }
  }

  lemma MarkKeepsClosed(cs: Cells, from: set<Obj>, m: Flags, r: set<Obj>)
    requires Closed(cs, r)
    ensures Closed(MarkFrom(cs, from, m), r)
  {
  }

  lemma MarkShrinksWhite(cs: Cells, from: set<Obj>, m: Flags)
    ensures White(MarkFrom(cs, from, m), m) == White(cs, m) - Reach(Edges(cs), White(cs, m), from)
    ensures Edges(MarkFrom(cs, from, m)) == Edges(cs)
  {
    PaintFacts(cs, Reach(Edges(cs), White(cs, m), from), m);
  }

  /** The snapshot without its flag words: what marking never changes. */
  ghost function Bare(cs: Cells): Cells {
    map o | o in cs :: cs[o].(flags := NONE)
  }

  lemma MarkKeepsBare(cs: Cells, from: set<Obj>, m: Flags)
    ensures Bare(MarkFrom(cs, from, m)) == Bare(cs)
  {
  }

  /** Marking from two sets in turn is marking from their union. */
  lemma MarkTwice(cs: Cells, a: set<Obj>, b: set<Obj>, m: Flags)
    ensures MarkFrom(MarkFrom(cs, a, m), b, m) == MarkFrom(cs, a + b, m)
  {
    var w := White(cs, m);
    var ra := Reach(Edges(cs), w, a);
    PaintFacts(cs, ra, m);
    ReachSplit(Edges(cs), w, a, b);
    PaintPaint(cs, ra, Reach(Edges(cs), w - ra, b), m);
  }

  /** Marking from an unmarked object is setting its bits and marking from its children. */
  lemma MarkStep(cs: Cells, p: Obj, m: Flags)
    requires p in White(cs, m)
    ensures MarkFrom(cs, {p}, m) == MarkFrom(Paint(cs, {p}, m), Children(cs[p]), m)
  {
    PaintFacts(cs, {p}, m);
    ReachPeel(Edges(cs), White(cs, m), p);
    PaintPaint(cs, {p}, Reach(Edges(cs), White(cs, m) - {p}, Children(cs[p])), m);
  }

  lemma MarkDone(cs: Cells, p: Obj?, m: Flags)
    requires p == null || p !in cs || HasAll(cs[p].flags, m)
    ensures MarkFrom(cs, Only(p), m) == cs
  {
    MarkStop(cs, Only(p), m);
  }

  lemma MarkStop(cs: Cells, from: set<Obj>, m: Flags)
    requires from !! White(cs, m)
    ensures MarkFrom(cs, from, m) == cs
  {
    ReachStop(Edges(cs), White(cs, m), from);
  }

  /**
    Entry marks closed under edges: afterwards an object is marked exactly if it was marked
    at entry or can be reached at all.
   */
  lemma MarkClosedEntry(cs: Cells, from: set<Obj>, m: Flags)
    requires forall o | o in cs && o !in White(cs, m) :: Children(cs[o]) !! White(cs, m)
    ensures White(MarkFrom(cs, from, m), m) == White(cs, m) - Reach(Edges(cs), cs.Keys, from)
  {
    var black := cs.Keys - White(cs, m);
    ReachPastBlack(Edges(cs), cs.Keys, black, from);
    assert cs.Keys - black == White(cs, m);
    MarkShrinksWhite(cs, from, m);
  }

  /**
    Stale marks on the registered nodes and the order of the root chain do not matter: the
    marked objects end up being the marked unregistered ones and everything reachable from
    a registered node.
   */
  lemma MarkRootsExact(cs: Cells, roots: set<Obj>, m: Flags)
    requires m != NONE && roots <= cs.Keys
    requires forall o | o in cs && o !in White(cs, m) && o !in roots :: Children(cs[o]) * White(cs, m) <= roots
    ensures cs.Keys - White(MarkRoots(cs, roots, m), m)
         == (cs.Keys - White(cs, m) - roots) + Reach(Edges(cs), cs.Keys, roots)
  {
    var ws := Wash(cs, roots, m);
    WashFacts(cs, roots, m);
    var black := cs.Keys - White(ws, m);
    assert black == cs.Keys - White(cs, m) - roots;
    forall x, y | x in black * cs.Keys && y in Edges(cs)[x] && y in cs.Keys
      ensures y in black + roots
    {
      assert y in Children(cs[x]);
    }
    ReachPastBlack(Edges(cs), cs.Keys, black, roots);
    assert cs.Keys - black == White(ws, m);
    MarkShrinksWhite(ws, roots, m);
  }

  /** The same objects are found whether the search from the tree runs before or after the one from the roots. */
  lemma OrderSameSet(g: map<Obj, set<Obj>>, w: set<Obj>, roots: set<Obj>, tree: set<Obj>)
    ensures Reach(g, w + roots, roots + tree)
         == (Reach(g, w, tree) - roots) + Reach(g, w - Reach(g, w, tree) + roots, roots)
  {
    var t := Reach(g, w, tree);
    var two := Reach(g, w - t + roots, roots);
    ReachGrows(g, w, w + roots, tree, roots + tree);
    ReachGrows(g, w - t + roots, w + roots, roots, roots + tree);
    assert Absorbs(g, w + roots, roots + tree, (t - roots) + two) by {
      ReachAbsorbs(g, w, tree);
      ReachAbsorbs(g, w - t + roots, roots);
    }
    ReachLeast(g, w + roots, roots + tree, (t - roots) + two);
  }

  lemma PaintWashPaint(cs: Cells, t: set<Obj>, roots: set<Obj>, x: set<Obj>, m: Flags)
    ensures Paint(Wash(Paint(cs, t, m), roots, m), x, m) == Paint(Wash(cs, roots, m), (t - roots) + x, m)
  {
    forall o | o in cs
      ensures Set(Set(cs[o].flags, m), m) == Set(cs[o].flags, m)
      ensures Set(Clear(cs[o].flags, m), m) == Set(cs[o].flags, m)
      ensures Clear(Set(cs[o].flags, m), m) == Clear(cs[o].flags, m)
      ensures Set(Clear(Set(cs[o].flags, m), m), m) == Set(cs[o].flags, m)
    {
      WordFacts(cs[o].flags, m);
    }
  }

  lemma MarkRootsThenTree(cs: Cells, roots: set<Obj>, tree: set<Obj>, m: Flags)
    requires m != NONE && roots <= cs.Keys
    ensures MarkFrom(MarkRoots(cs, roots, m), tree, m)
         == Paint(Wash(cs, roots, m), Reach(Edges(cs), White(cs, m) + roots, roots + tree), m)
  {
    WashFacts(cs, roots, m);
    assert roots * cs.Keys == roots;
    MarkTwice(Wash(cs, roots, m), roots, tree, m);
  }

  /**
    The base tree may be marked before or after the root chain: every flag word ends up the
    same, whatever marks there were at the start and although the tree stores the chain's head.
   */
  lemma MarkOrderIrrelevant(cs: Cells, roots: set<Obj>, tree: set<Obj>, m: Flags)
    requires m != NONE && roots <= cs.Keys
    ensures MarkRoots(MarkFrom(cs, tree, m), roots, m) == MarkFrom(MarkRoots(cs, roots, m), tree, m)
  {
    var g, w := Edges(cs), White(cs, m);
    var t := Reach(g, w, tree);
    var x := Reach(g, w - t + roots, roots);
    assert roots * cs.Keys == roots;
    calc {
      MarkRoots(MarkFrom(cs, tree, m), roots, m);
      { MarkShrinksWhite(cs, tree, m); WashFacts(MarkFrom(cs, tree, m), roots, m); }
      Paint(Wash(Paint(cs, t, m), roots, m), x, m);
      { PaintWashPaint(cs, t, roots, x, m); OrderSameSet(g, w, roots, tree); }
      Paint(Wash(cs, roots, m), Reach(g, w + roots, roots + tree), m);
      { MarkRootsThenTree(cs, roots, tree, m); }
      MarkFrom(MarkRoots(cs, roots, m), tree, m);
    }
  }

  /** Clearing a borrowed mark puts every flag word back, whatever happened to the graph in between. */
  lemma WashUndoesMark(cs: Cells, from: set<Obj>, m: Flags, q: set<Obj>, later: Cells)
    requires q <= cs.Keys && q <= later.Keys
    requires forall o | o in q :: !HasAny(cs[o].flags, m)
    requires forall o | o in q :: later[o].flags == MarkFrom(cs, from, m)[o].flags
    ensures forall o | o in q :: Wash(later, q, m)[o].flags == cs[o].flags
  {
    forall o | o in q
      ensures Wash(later, q, m)[o].flags == cs[o].flags
    {
      assert later[o].flags == cs[o].flags || later[o].flags == Set(cs[o].flags, m);
      ClearUndoesSet(cs[o].flags, m);
    }
  }

  // ---- The same without paths: by the bits, and by first and rest ----

  /**
    Marking changes nothing but flag words, to which it adds all of "m" or nothing. It gets to
    where it starts, and from each pair that it marks to the first and to the rest.
   */
  lemma MarkSpreads(cs: Cells, from: set<Obj>, m: Flags, o: Obj)
    requires o in cs
    ensures var d := MarkFrom(cs, from, m);
            && d.Keys == cs.Keys && (d[o] == cs[o] || d[o] == cs[o].(flags := cs[o].flags + m))
            && (o in from ==> m <= d[o].flags)
            && (d[o] != cs[o] && cs[o].kind == PairType ==>
                  && (cs[o].first != null && cs[o].first in cs ==> m <= d[cs[o].first].flags)
                  && (cs[o].rest != null && cs[o].rest in cs ==> m <= d[cs[o].rest].flags))
  {
    ReachAbsorbs(Edges(cs), White(cs, m), from);
    if o in from {
      Carries(cs, from, m, o);
    }
    if o in Reach(Edges(cs), White(cs, m), from) && cs[o].kind == PairType {
      assert Edges(cs)[o] == Only(cs[o].first) + Only(cs[o].rest);
      Carries(cs, from, m, cs[o].first);
      Carries(cs, from, m, cs[o].rest);
    }
  }

  /** What is marked already, or is reached, carries all of "m" afterwards. */
  lemma Carries(cs: Cells, from: set<Obj>, m: Flags, o: Obj?)
    ensures o != null && o in cs && (o !in White(cs, m) || o in Reach(Edges(cs), White(cs, m), from)) ==>
              m <= MarkFrom(cs, from, m)[o].flags
  {
    if o != null && o in cs && o !in White(cs, m) {
      assert cs[o].flags * m == m;
    }
  }

  /** It gets nowhere else: not out of a set that holds its start and, with each unmarked pair, first and rest. */
  lemma MarkStaysWithin(cs: Cells, from: set<Obj>, m: Flags, r: set<Obj>, o: Obj)
    requires from * cs.Keys <= r
    requires forall x | x in r && x in cs && !(m <= cs[x].flags) && cs[x].kind == PairType ::
               && (cs[x].first != null && cs[x].first in cs ==> cs[x].first in r)
               && (cs[x].rest != null && cs[x].rest in cs ==> cs[x].rest in r)
    requires o in cs && (o !in r || m <= cs[o].flags)
    ensures MarkFrom(cs, from, m)[o] == cs[o]
  {
    var g, w := Edges(cs), White(cs, m);
    assert forall x | x in w :: !(m <= cs[x].flags) by {
      forall x | x in cs && m <= cs[x].flags
        ensures HasAll(cs[x].flags, m)
      {
        assert cs[x].flags * m == m;
      }
    }
    assert Absorbs(g, w, from, r * w);
    ReachLeast(g, w, from, r * w);
  }

  /** Clearing takes all of "m" from the flag words of the given objects, and changes nothing else. */
  lemma WashClears(cs: Cells, x: set<Obj>, m: Flags, o: Obj)
    requires o in cs
    ensures Wash(cs, x, m).Keys == cs.Keys
    ensures Wash(cs, x, m)[o] == if o in x then cs[o].(flags := cs[o].flags - m) else cs[o]
  {
  }
}
