/** The marking functions of src/x-heap.c on the objects themselves. */
module Collector {
  import opened Flags
  import opened Objects
  import opened Marking
  import opened CallDepth

  /**
    Where the walk from "p" ends: at nil, at an object found marked, or at one without edges.
    It goes on along rest, with what a call for first has marked in the meantime.
   */
  ghost function LastVisited(c: Cells, p: Obj?, m: Flags): Obj?
    decreases White(c, m)
  {
    if p == null || p !in White(c, m) || !c[p].kind.PairType? then p
    else
      PaintFacts(c, {p}, m);
      MarkShrinksWhite(Paint(c, {p}, m), Only(c[p].first), m);
      LastVisited(MarkFrom(Paint(c, {p}, m), Only(c[p].first), m), c[p].rest, m)
  }

  /** What marking from "p" comes to: the cells after it, all but their flags, how deep its calls nest, and where it ends. */
  datatype Outcome = Outcome(cells: Cells, bare: Cells, calls: nat, last: Obj?)

  ghost function Left(c: Cells, p: Obj?, m: Flags): Outcome {
    Outcome(MarkFrom(c, Only(p), m), Bare(c), Calls(Bare(c), White(c, m), p), LastVisited(c, p, m))
  }

  ghost function Deeper(o: Outcome, depth: nat): Outcome {
    o.(calls := Larger(depth, o.calls))
  }

  /**
    One turn of the marker's loop, at the pair "p", takes "c" to "e" and goes on at "next": it
    comes to the same, with the calls of this turn taken into account.
   */
  ghost predicate Turn(c: Cells, e: Cells, p: Obj, next: Obj?, depth: nat, m: Flags) {
    White(e, m) < White(c, m) && Left(c, p, m) == Deeper(Left(e, next, m), depth + 1)
  }

  /** Started at "obj" on "c", the marker has come to "p" on "now", with calls as deep as "depth" so far. */
  ghost predicate Underway(c: Cells, obj: Obj?, now: Cells, p: Obj?, depth: nat, m: Flags) {
    White(now, m) <= White(c, m) && depth >= 1 && Deeper(Left(now, p, m), depth) == Left(c, obj, m)
  }

  lemma Onward(c: Cells, obj: Obj?, now: Cells, p: Obj, e: Cells, next: Obj?, depth: nat, d: nat, m: Flags)
    requires Underway(c, obj, now, p, depth, m) && Turn(now, e, p, next, d, m)
    ensures Underway(c, obj, e, next, Larger(depth, d + 1), m)
  {
  }

  /** The last turn: nothing is left at nil, at a marked object, or after an object without edges. */
  lemma LastTurn(c: Cells, p: Obj?, m: Flags)
    ensures p == null || p !in c || HasAll(c[p].flags, m) ==> Left(c, p, m) == Outcome(c, Bare(c), 1, p)
    ensures p != null && p in White(c, m) && !c[p].kind.PairType? ==>
              Left(c, p, m) == Outcome(Paint(c, {p}, m), Bare(c), 1, p) == Left(Paint(c, {p}, m), p, m)
  {
    if p == null || p !in c || HasAll(c[p].flags, m) {
      MarkDone(c, p, m);
    } else if !c[p].kind.PairType? {
      var d := Paint(c, {p}, m);
      MarkStep(c, p, m);
      PaintFacts(c, {p}, m);
      MarkStop(d, {}, m);
      MarkStop(d, {p}, m);
    }
  }

  /** What is left to mark once the bits of the unmarked object "p" are set. */
  lemma StampFacts(c: Cells, p: Obj, m: Flags, r: set<Obj>)
    requires p in r && p in White(c, m) && Closed(c, r)
    ensures var d := Paint(c, {p}, m);
            Closed(d, r) && Bare(d) == Bare(c) && White(d, m) == White(c, m) - {p}
  {
    PaintFacts(c, {p}, m);
  }

  lemma PairFacts(c: Cells, p: Obj, m: Flags, r: set<Obj>)
    requires p in r && p in White(c, m) && Closed(c, r) && c[p].kind.PairType?
    ensures Only(c[p].first) <= r && Only(c[p].rest) <= r
    ensures var d := Paint(c, {p}, m);
            var e := MarkFrom(d, Only(c[p].first), m);
            && Closed(d, r) && Bare(d) == Bare(c) && White(d, m) < White(c, m)
            && Closed(e, r) && Turn(c, e, p, c[p].rest, Calls(Bare(d), White(d, m), c[p].first), m)
  {
    var d := Paint(c, {p}, m);
    assert Children(c[p]) == Only(c[p].first) + Only(c[p].rest);
    StampFacts(c, p, m, r);
    MarkStep(c, p, m);
    MarkTwice(d, Only(c[p].first), Only(c[p].rest), m);
    MarkShrinksWhite(d, Only(c[p].first), m);
    MarkKeepsClosed(d, Only(c[p].first), m, r);
    MarkKeepsBare(d, Only(c[p].first), m);
    PaintFacts(c, {p}, m);
    assert Edges(Bare(c)) == Edges(c);
  }

  /** Set the mark bits of one object (line 42). */
  method SetMark(p: Obj, m: Flags, ghost u: set<Obj>)
    requires p.live
    modifies p`flags
    ensures HasAll(p.flags, m)
    ensures Snapshot(u) == Paint(old(Snapshot(u)), {p}, m)
  {
    SetMarks(p.flags, m);
    p.SetBits(Set(p.Bits(), m));
  }

  /**
    Mark every object that unmarked paths lead to from "obj", recursively through first and
    iteratively through rest, with no mark hook set. "u" are the objects there are and "r" is
    any edge-closed set that contains "obj"; "depth" is how many calls were active at once.
   */
  method TreeMark(obj: Obj?, m: Flags, ghost u: set<Obj>, ghost r: set<Obj>) returns (ret: Obj?, ghost depth: nat)
    requires r <= u && Only(obj) <= r
    requires Closed(Snapshot(u), r)
    requires forall o | o in r :: o.live
    modifies u`flags
    ensures Snapshot(u) == MarkFrom(old(Snapshot(u)), Only(obj), m)
    ensures ret != null ==> ret in r && m <= ret.flags
    ensures ret == LastVisited(old(Snapshot(u)), obj, m)
    ensures obj != null ==> m <= obj.flags && (obj.kind != PairType || old(m <= obj.flags) ==> ret == obj)
    ensures depth == Calls(old(Bare(Snapshot(u))), old(White(Snapshot(u), m)), obj)
    decreases White(Snapshot(u), m), 1
  {
    var p := obj;
    depth := 1;
    ghost var c := Snapshot(u);
    ghost var now := c;
    while p != null && !HasAll(p.Bits(), m)
      invariant now == Snapshot(u) && Only(p) <= r && Closed(now, r)
      invariant Underway(c, obj, now, p, depth, m)
      decreases White(now, m)
    {
      assert p in White(now, m);
      if p.kind != PairType {
        MarkLast(p, m, u, r);
        now := Snapshot(u);
        break;
      }
      ghost var d := MarkPair(p, m, u, r);
      Onward(c, obj, now, p, Snapshot(u), p.rest, depth, d, m);
      depth, now := Larger(depth, d + 1), Snapshot(u);
      p := p.rest;
    }
    LastTurn(now, p, m);
    ret := p;
    if obj != null {
      WalkFacts(c, obj, m);
      assert Snapshot(u)[obj] == obj.Contents();
    }
  }

  /** The last turn of the loop, at an object that is no pair (line 42). */
  method MarkLast(p: Obj, m: Flags, ghost u: set<Obj>, ghost r: set<Obj>)
    requires !p.kind.PairType?
    requires r <= u && p in r && p.live && p in White(Snapshot(u), m) && Closed(Snapshot(u), r)
    modifies p`flags
    ensures HasAll(p.flags, m) && Closed(Snapshot(u), r)
    ensures White(Snapshot(u), m) <= old(White(Snapshot(u), m))
    ensures Left(Snapshot(u), p, m) == old(Left(Snapshot(u), p, m))
  {
    LastTurn(Snapshot(u), p, m);
    StampFacts(Snapshot(u), p, m, r);
    SetMark(p, m, u);
  }

  /** Where the walk ends at once, and that afterwards the object it started at carries all bits. */
  lemma WalkFacts(c: Cells, obj: Obj, m: Flags)
    requires obj in c
    ensures obj in MarkFrom(c, {obj}, m) && m <= MarkFrom(c, {obj}, m)[obj].flags
    ensures c[obj].kind != PairType || m <= c[obj].flags ==> LastVisited(c, obj, m) == obj
  {
    MarkSpreads(c, {obj}, m, obj);
    assert m <= c[obj].flags ==> c[obj].flags * m == m;
  }

  /** What lies "k" steps along rest. */
  ghost function Along(c: Cells, p: Obj?, k: nat): Obj? {
    if k == 0 then p
    else if p == null || p !in c then null
    else Along(c, c[p].rest, k - 1)
  }

  lemma {:induction false} AlongSame(c: Cells, e: Cells, p: Obj?, k: nat)
    requires Bare(c) == Bare(e)
    ensures Along(c, p, k) == Along(e, p, k)
  {
    assert c.Keys == Bare(c).Keys && e.Keys == Bare(e).Keys;
    if k > 0 && p != null && p in c {
      assert Bare(c)[p].rest == c[p].rest && Bare(e)[p].rest == e[p].rest;
      AlongSame(c, e, c[p].rest, k - 1);
    }
  }

  /** The walk goes on from a pair that lacks a mark bit. */
  ghost predicate GoesOn(c: Cells, p: Obj?, m: Flags) {
    p != null && p in c && c[p].kind == PairType && !(m <= c[p].flags)
  }

  lemma GoesOnBefore(c: Cells, x: set<Obj>, from: set<Obj>, p: Obj?, m: Flags)
    requires GoesOn(MarkFrom(Paint(c, x, m), from, m), p, m)
    ensures GoesOn(c, p, m)
  {
    MarkSpreads(Paint(c, x, m), from, m, p);
  }

  lemma FirstStep(c: Cells, p: Obj?, m: Flags)
    ensures p != null && p in White(c, m) && c[p].kind.PairType? <==> GoesOn(c, p, m)
  {
    if p != null && p in c {
      assert m <= c[p].flags <==> c[p].flags * m == m;
    }
  }

  /** The walk goes on from the rest of a pair, on what the first has been marked in. */
  lemma NextStep(c: Cells, p: Obj, m: Flags) returns (e: Cells)
    requires GoesOn(c, p, m)
    ensures LastVisited(c, p, m) == LastVisited(e, c[p].rest, m)
    ensures White(e, m) < White(c, m) && Bare(e) == Bare(c)
    ensures forall x {:trigger GoesOn(e, x, m)} | GoesOn(e, x, m) :: GoesOn(c, x, m)
  {
    var d := Paint(c, {p}, m);
    FirstStep(c, p, m);
    PaintFacts(c, {p}, m);
    MarkShrinksWhite(d, Only(c[p].first), m);
    MarkKeepsBare(d, Only(c[p].first), m);
    e := MarkFrom(d, Only(c[p].first), m);
    forall x {:trigger GoesOn(e, x, m)} | GoesOn(e, x, m)
      ensures GoesOn(c, x, m)
    {
      GoesOnBefore(c, {p}, Only(c[p].first), x, m);
    }
  }

  /** The walk gets from one object to the next along rest alone, and through pairs unmarked at entry alone. */
  lemma {:induction false} WalksAlongRest(c: Cells, p: Obj?, m: Flags) returns (k: nat)
    ensures LastVisited(c, p, m) == Along(c, p, k)
    ensures forall j {:trigger Along(c, p, j)} | 0 <= j < k :: GoesOn(c, Along(c, p, j), m)
    decreases White(c, m)
  {
    FirstStep(c, p, m);
    if !GoesOn(c, p, m) {
      return 0;
    }
    var e := NextStep(c, p, m);
    var i := WalksAlongRest(e, c[p].rest, m);
    k := i + 1;
    AlongSame(c, e, c[p].rest, i);
    forall j {:trigger Along(c, p, j)} | 0 <= j < k
      ensures GoesOn(c, Along(c, p, j), m)
    {
      if j > 0 {
        AlongSame(c, e, c[p].rest, j - 1);
        assert GoesOn(e, Along(e, c[p].rest, j - 1), m);
      }
    }
  }

  /** One turn of the loop at a pair (lines 42-48): set its bits, then mark its first. */
  method MarkPair(p: Obj, m: Flags, ghost u: set<Obj>, ghost r: set<Obj>) returns (ghost depth: nat)
    requires p.kind.PairType?
    requires r <= u && p in r && p in White(Snapshot(u), m)
    requires Closed(Snapshot(u), r)
    requires forall o | o in r :: o.live
    modifies u`flags
    ensures Only(p.rest) <= r && Closed(Snapshot(u), r)
    ensures Turn(old(Snapshot(u)), Snapshot(u), p, p.rest, depth, m)
    decreases White(Snapshot(u), m), 0
  {
    ghost var c := Snapshot(u);
    assert c[p] == p.Contents();
    PairFacts(c, p, m, r);
    SetMark(p, m, u);
    var _, d := TreeMark(p.first, m, u, r);
    depth := d;
  }

  /** Clear "m" along a chain, freeing nothing. */
  method ChainClear(head: Obj?, m: Flags, ghost q: seq<Obj>, ghost u: set<Obj>)
    requires Linked(head, q) && Members(q) <= u && forall o | o in q :: o.live
    modifies u`flags
    ensures Snapshot(u) == Wash(old(Snapshot(u)), Members(q), m)
  {
    var node := head;
    ghost var i := 0;
    while node != null
      invariant i <= |q| && node == Nth(q, i)
      invariant Linked(head, q)
      invariant Snapshot(u) == Wash(old(Snapshot(u)), Members(q[..i]), m)
      decreases |q| - i
    {
      assert node in Members(q) && LinkAt(q, i);
      ClearOne(node, m, u);
      assert Members(q[..i + 1]) == Members(q[..i]) + {node};
      WashWash(old(Snapshot(u)), Members(q[..i]), node, m);
      node := node.Link();
      i := i + 1;
    }
    assert q[..i] == q;
  }

  method ClearOne(p: Obj, m: Flags, ghost u: set<Obj>)
    requires p.live
    modifies p`flags
    ensures Snapshot(u) == Wash(old(Snapshot(u)), {p}, m)
  {
    p.SetBits(Clear(p.Bits(), m));
  }

  lemma WashWash(cs: Cells, x: set<Obj>, p: Obj, m: Flags)
    ensures Wash(Wash(cs, x, m), {p}, m) == Wash(cs, x + {p}, m)
  {
    forall o | o in cs
      ensures Clear(Clear(cs[o].flags, m), m) == Clear(cs[o].flags, m)
    {
    }
  }

  /** Clear every registered node, then mark from each in turn (lines 150-188, on a base that is set). */
  method RootChainMark(head: Obj?, m: Flags, ghost q: seq<Obj>, ghost u: set<Obj>, ghost r: set<Obj>)
    requires Linked(head, q) && Members(q) <= r <= u
    requires Closed(Snapshot(u), r)
    requires forall o | o in r :: o.live
    modifies u`flags
    ensures Snapshot(u) == MarkRoots(old(Snapshot(u)), Members(q), m)
    ensures Closed(Snapshot(u), r)
  {
    assert forall o | o in q :: o in Members(q);
    ChainClear(head, m, q, u);
    ghost var c := Snapshot(u);
    var node := head;
    ghost var i := 0;
    assert Members(q[..0]) == {};
    MarkStop(c, {}, m);
    while node != null
      invariant i <= |q| && node == Nth(q, i)
      invariant Linked(head, q)
      invariant Snapshot(u) == MarkFrom(c, Members(q[..i]), m)
      decreases |q| - i
    {
      assert node in Members(q) && LinkAt(q, i);
      NextRoot(c, q, i, m, r);
      var _, _ := TreeMark(node, m, u, r);
      node := node.Link();
      i := i + 1;
    }
    assert q[..i] == q;
    MarkKeepsClosed(c, Members(q), m, r);
  }

  /** Marking from one more registered node. */
  lemma NextRoot(c: Cells, q: seq<Obj>, i: nat, m: Flags, r: set<Obj>)
    requires i < |q| && Closed(c, r)
    ensures MarkFrom(c, Members(q[..i + 1]), m) == MarkFrom(MarkFrom(c, Members(q[..i]), m), Only(q[i]), m)
    ensures Closed(MarkFrom(c, Members(q[..i]), m), r)
  {
    assert Members(q[..i + 1]) == Members(q[..i]) + Only(q[i]);
    MarkTwice(c, Members(q[..i]), Only(q[i]), m);
    MarkKeepsClosed(c, Members(q[..i]), m, r);
  }
}
