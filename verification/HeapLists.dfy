/** The lists of hooks and mark roots that grow at run time (src/x-heap.c, lines 190-252). */
module HeapLists {
  import opened Flags
  import opened Objects
  import opened Paths
  import opened States
  import opened Collecting
  import opened BaseTree
  import opened Runs

  /** "head" is a proper list: the pairs "nodes", holding "items". */
  ghost predicate Spine(cs: Cells, head: Obj?, nodes: seq<Obj>, items: seq<Obj?>) {
    && |nodes| == |items| && head == Head(nodes)
    && forall i {:trigger ItemAt(cs, nodes, items, i)} | 0 <= i < |nodes| :: ItemAt(cs, nodes, items, i)
  }

  ghost predicate ItemAt(cs: Cells, nodes: seq<Obj>, items: seq<Obj?>, i: nat) {
    && i < |nodes| == |items| && nodes[i] in cs
    && cs[nodes[i]].kind.PairType? && cs[nodes[i]].first == items[i] && cs[nodes[i]].rest == Nth(nodes, i + 1)
  }

  /** The current value of the field of "l" is that list, made of ordinary objects. */
  ghost predicate Listed(s: State, l: HeapList, nodes: seq<Obj>, items: seq<Obj?>) {
    && Spine(s.cells, Current(s, ListField(l)), nodes, items)
    && (forall o | o in nodes :: o in s.chain)
    && (forall p, o {:trigger Sits(s, p, o)} | Sits(s, p, o) :: o !in nodes)
  }

  /** The operation does not assign to the list behind the library's back. */
  ghost predicate Leaves(s: State, op: Op, l: HeapList, nodes: seq<Obj>) {
    && (op.SetSlot? ==> op.o !in nodes && !(op.o == At(s, ListField(l)) && op.d.FirstSlot?))
    && (op.PushField? ==> op.at !in nodes)
  }

  /** The operation puts an item on the list. */
  ghost predicate Adds(s: State, op: Op, l: HeapList) {
    !s.stopped && op.PushField? && op.at == At(s, ListField(l)) && op.d.FirstSlot? && Decide(s, op.oom).Allowed?
  }

  ghost function NodesAfter(s: State, op: Op, l: HeapList, nodes: seq<Obj>): seq<Obj> {
    if Adds(s, op, l) then [op.o] + nodes else nodes
  }

  ghost function ItemsAfter(s: State, op: Op, l: HeapList, items: seq<Obj?>): seq<Obj?> {
    if Adds(s, op, l) then [op.item] + items else items
  }

  lemma NodeLive(cs: Cells, nodes: seq<Obj>, items: seq<Obj?>, o: Obj)
    requires Spine(cs, Head(nodes), nodes, items) && o in nodes
    ensures o in cs
  {
    var k :| 0 <= k < |nodes| && nodes[k] == o;
    assert ItemAt(cs, nodes, items, k);
  }

  /** A list keeps its items while its pairs keep their data. */
  lemma ListFrame(s: State, t: State, l: HeapList, nodes: seq<Obj>, items: seq<Obj?>)
    requires Listed(s, l, nodes, items) && t.layout == s.layout
    requires Current(t, ListField(l)) == Current(s, ListField(l))
    requires forall o | o in nodes && o in s.cells && o in s.chain ::
               && o in t.chain && o in t.cells && t.cells[o].kind == s.cells[o].kind
               && t.cells[o].first == s.cells[o].first && t.cells[o].rest == s.cells[o].rest
    ensures Listed(t, l, nodes, items)
  {
    forall o | o in nodes
      ensures o in s.cells && o in t.chain
    {
      NodeLive(s.cells, nodes, items, o);
    }
    forall i {:trigger ItemAt(t.cells, nodes, items, i)} | 0 <= i < |nodes|
      ensures ItemAt(t.cells, nodes, items, i)
    {
      assert ItemAt(s.cells, nodes, items, i);
    }
    forall p, o {:trigger Sits(t, p, o)} | Sits(t, p, o)
      ensures o !in nodes
    {
      assert Sits(s, p, o);
    }
  }

  lemma {:induction false} LayoutReachable(s: State, m: Flags, p: Path)
    requires Inv(s, m) && Registered(s) && p in s.layout && p != Base
    ensures s.layout[p] in Reachable(s)
  {
    ReachableIsClosed(s, m);
    assert LinkOk(s, p);
    if p.up == Base {
      assert p == X_BASE;
    } else {
      LayoutReachable(s, m, p.up);
      assert LinkOk(s, p.up);
    }
  }

  /** Whatever contains the first pair and what its members point at contains the list. */
  lemma {:induction false} SpineClosed(cs: Cells, nodes: seq<Obj>, items: seq<Obj?>, r: set<Obj>, k: nat)
    requires Spine(cs, Head(nodes), nodes, items) && Closed(cs, r) && Only(Head(nodes)) <= r && k < |nodes|
    ensures nodes[k] in r && Only(items[k]) <= r
  {
    if k > 0 {
      SpineClosed(cs, nodes, items, r, k - 1);
      assert ItemAt(cs, nodes, items, k - 1);
    }
    assert ItemAt(cs, nodes, items, k);
  }

  /** Every pair of the list, and every item, is reachable from the roots of a collection. */
  lemma ListReachable(s: State, m: Flags, l: HeapList, nodes: seq<Obj>, items: seq<Obj?>, k: nat)
    requires Inv(s, m) && Registered(s) && Listed(s, l, nodes, items) && k < |nodes|
    ensures nodes[k] in Reachable(s) && Only(items[k]) <= Reachable(s)
  {
    ReachableIsClosed(s, m);
    LayoutReachable(s, m, ListField(l));
    SpineClosed(s.cells, nodes, items, Reachable(s), k);
  }

  /** A collection leaves the list as it is. */
  lemma CollectKeepsList(s: State, m: Flags, l: HeapList, nodes: seq<Obj>, items: seq<Obj?>)
    requires Inv(s, m) && Registered(s) && GoodMask(m) && Listed(s, l, nodes, items)
    ensures Listed(Collected(s, m), l, nodes, items)
  {
    CollectExact(s, m);
    CollectChain(s, m);
    LayoutNotGarbage(s, ListField(l));
    forall k | 0 <= k < |nodes|
      ensures nodes[k] in Reachable(s)
    {
      ListReachable(s, m, l, nodes, items, k);
    }
    KeptList(s, Collected(s, m), l, nodes, items);
  }

  lemma KeptList(s: State, t: State, l: HeapList, nodes: seq<Obj>, items: seq<Obj?>)
    requires Listed(s, l, nodes, items) && t.layout == s.layout && ListField(l) in s.layout
    requires t.cells.Keys == s.cells.Keys - Garbage(s) && Members(t.chain) == Members(s.chain) - Garbage(s)
    requires forall o | o in t.cells :: Unchanged(s.cells, t.cells, o, s.chain)
    requires forall o | o in nodes :: o in Reachable(s)
    requires s.layout[ListField(l)] in s.cells && s.layout[ListField(l)] !in Garbage(s)
    ensures Listed(t, l, nodes, items)
  {
    assert Unchanged(s.cells, t.cells, s.layout[ListField(l)], s.chain);
    forall o | o in nodes
      ensures o in s.cells && o in t.chain && Unchanged(s.cells, t.cells, o, s.chain)
    {
      NodeLive(s.cells, nodes, items, o);
      assert o in Members(t.chain);
    }
    ListFrame(s, t, l, nodes, items);
  }

  /** Adding an item puts it in front, and assigns to no other data of any object. */
  lemma AddToList(s: State, m: Flags, l: HeapList, nodes: seq<Obj>, items: seq<Obj?>, o: Obj, item: Obj?, f: Flags)
    requires Inv(s, m) && Listed(s, l, nodes, items) && o !in s.cells
    ensures Listed(WithItem(s, At(s, ListField(l)), FirstSlot, o, item, f), l, [o] + nodes, [item] + items)
  {
    var t := WithItem(s, At(s, ListField(l)), FirstSlot, o, item, f);
    var now, all := [o] + nodes, [item] + items;
    forall x | x in nodes
      ensures x in s.cells && x != o
    {
      NodeLive(s.cells, nodes, items, x);
    }
    forall i {:trigger ItemAt(t.cells, now, all, i)} | 0 <= i < |now|
      ensures ItemAt(t.cells, now, all, i)
    {
      assert i > 0 ==> ItemAt(s.cells, nodes, items, i - 1);
      assert Sits(s, ListField(l), s.layout[ListField(l)]);
    }
    forall p, x {:trigger Sits(t, p, x)} | Sits(t, p, x)
      ensures x !in now
    {
      assert Sits(s, p, x);
    }
  }

  lemma NumbersKeepList(s: State, t: State, l: HeapList, nodes: seq<Obj>, items: seq<Obj?>)
    requires LayoutOk(s) && OnlyNumbers(s, t) && Listed(s, l, nodes, items)
    ensures Listed(t, l, nodes, items)
  {
    ListFrame(s, t, l, nodes, items);
  }

  lemma EnterKeepsList(s: State, l: HeapList, nodes: seq<Obj>, items: seq<Obj?>, o: Obj, c: Cell)
    requires LayoutOk(s) && o !in s.cells && Listed(s, l, nodes, items)
    ensures Listed(Enter(s, o, c), l, nodes, items)
  {
    forall x | x in nodes
      ensures x in s.cells
    {
      NodeLive(s.cells, nodes, items, x);
    }
    ListFrame(s, Enter(s, o, c), l, nodes, items);
  }

  /** Assigning to a data unit that is not the list's. */
  lemma SlotKeepsList(s: State, l: HeapList, nodes: seq<Obj>, items: seq<Obj?>, o: Obj, d: Slot, v: Obj?)
    requires LayoutOk(s) && o in s.cells && Listed(s, l, nodes, items)
    requires o !in nodes && !(o == At(s, ListField(l)) && d.FirstSlot?)
    ensures Listed(SetUnit(s, o, d, v), l, nodes, items)
  {
    ListFrame(s, SetUnit(s, o, d, v), l, nodes, items);
  }

  lemma TypeKeepsList(s: State, l: HeapList, nodes: seq<Obj>, items: seq<Obj?>, kind: Kind)
    requires LayoutOk(s) && Listed(s, l, nodes, items)
    ensures Listed(WithKind(s, At(s, Base), kind), l, nodes, items)
  {
    assert Sits(s, Base, s.layout[Base]);
    ListFrame(s, WithKind(s, At(s, Base), kind), l, nodes, items);
  }

  lemma PlaceKeepsList(s: State, l: HeapList, nodes: seq<Obj>, items: seq<Obj?>, o: Obj, c: Cell)
    requires LayoutOk(s) && o !in s.chain && o != At(s, Base) && Listed(s, l, nodes, items)
    ensures Listed(s.(cells := s.cells[o := c]), l, nodes, items)
  {
    assert LinkOk(s, ListField(l));
    ListFrame(s, s.(cells := s.cells[o := c]), l, nodes, items);
  }

  lemma RootsKeepList(s: State, l: HeapList, nodes: seq<Obj>, items: seq<Obj?>, q: seq<Obj>)
    requires LayoutOk(s) && Listed(s, l, nodes, items)
    ensures Listed(SetRoots(s, q), l, nodes, items)
  {
    HeadApart(s, l);
    assert Sits(s, HEAP_ROOT_CHAIN, s.layout[HEAP_ROOT_CHAIN]);
    SlotKeepsList(s, l, nodes, items, s.layout[HEAP_ROOT_CHAIN], FirstSlot, Head(q));
    ListFrame(SetFirst(s, s.layout[HEAP_ROOT_CHAIN], Head(q)), SetRoots(s, q), l, nodes, items);
  }

  lemma HeadApart(s: State, l: HeapList)
    requires LayoutOk(s)
    ensures s.layout[HEAP_ROOT_CHAIN] != s.layout[ListField(l)]
    ensures forall k {:trigger ListField(k)} | k != l :: s.layout[ListField(k)] != s.layout[ListField(l)]
  {
    assert !Meet(s, HEAP_ROOT_CHAIN, ListField(l));
    assert forall k {:trigger ListField(k)} | k != l :: !Meet(s, ListField(k), ListField(l));
  }

  lemma PushElsewhere(s: State, l: HeapList, nodes: seq<Obj>, items: seq<Obj?>, at: Obj, d: Slot, o: Obj, item: Obj?, f: Flags)
    requires LayoutOk(s) && o !in s.cells && Listed(s, l, nodes, items)
    requires at in s.cells && at !in nodes && !(at == At(s, ListField(l)) && d.FirstSlot?)
    ensures Listed(WithItem(s, at, d, o, item, f), l, nodes, items)
  {
    var c := ItemPair(s, at, d, item, f);
    EnterKeepsList(s, l, nodes, items, o, c);
    EnterKeepsLayout(s, o, c);
    SlotKeepsList(Enter(s, o, c), l, nodes, items, at, d, o);
  }

  lemma PushKeepsList(s: State, op: Op, m: Flags, l: HeapList, nodes: seq<Obj>, items: seq<Obj?>)
    requires Inv(s, m) && op.PushField? && Enabled(s, op, m) && !s.stopped
    requires Listed(s, l, nodes, items) && Leaves(s, op, l, nodes)
    ensures Listed(Step(s, op, m), l, NodesAfter(s, op, l, nodes), ItemsAfter(s, op, l, items))
  {
    if !Decide(s, op.oom).Allowed? {
      RefusalKeepsList(s, l, nodes, items, op.oom, op.reaction);
    } else if Adds(s, op, l) {
      AddToList(s, m, l, nodes, items, op.o, op.item, op.f);
    } else {
      PushElsewhere(s, l, nodes, items, op.at, op.d, op.o, op.item, op.f);
    }
  }

  /** Every operation keeps the list, with its own item in front if it adds one. */
  lemma StepKeepsList(s: State, op: Op, m: Flags, l: HeapList, nodes: seq<Obj>, items: seq<Obj?>)
    requires Inv(s, m) && Enabled(s, op, m) && GoodMask(m)
    requires Listed(s, l, nodes, items) && Leaves(s, op, l, nodes)
    ensures Listed(Step(s, op, m), l, NodesAfter(s, op, l, nodes), ItemsAfter(s, op, l, items))
  {
    if s.stopped {
      return;
    }
    match op
    case New(o, c, oom, reaction) =>
      if Decide(s, oom).Allowed? {
        EnterKeepsList(s, l, nodes, items, o, c);
      } else {
        RefusalKeepsList(s, l, nodes, items, oom, reaction);
      }
    case Place(o, c) => PlaceKeepsList(s, l, nodes, items, o, c);
    case TypeBase(kind) => TypeKeepsList(s, l, nodes, items, kind);
    case SetSlot(o, d, v) => SlotKeepsList(s, l, nodes, items, o, d, v);
    case Push(o) => RootsKeepList(s, l, nodes, items, [o] + s.roots);
    case Pop => RootsKeepList(s, l, nodes, items, s.roots[1..]);
    case Restore(k) => RootsKeepList(s, l, nodes, items, s.roots[k..]);
    case Arm(limit) =>
      SetNumOnlyNumbers(s, LIMIT_ATOM, limit);
      NumbersKeepList(s, SetNum(s, LIMIT_ATOM, limit), l, nodes, items);
    case PushField(_, _, _, _, _, _, _) => PushKeepsList(s, op, m, l, nodes, items);
    case Collect => CollectKeepsList(s, m, l, nodes, items);
  }

  lemma RefusalKeepsList(s: State, l: HeapList, nodes: seq<Obj>, items: seq<Obj?>, oom: bool, reaction: Reaction)
    requires LayoutOk(s) && Listed(s, l, nodes, items) && !Decide(s, oom).Allowed?
    ensures Listed(Refuse(s, oom, reaction), l, nodes, items)
  {
    RefusalOnlyNumbers(s, oom, reaction);
    NumbersKeepList(s, Refuse(s, oom, reaction), l, nodes, items);
  }

  // ---- Whole runs ----

  /** The pairs of the list after "i" operations. */
  ghost function NodesAt(tr: seq<State>, ops: seq<Op>, l: HeapList, nodes: seq<Obj>, i: nat): seq<Obj>
    requires i <= |ops| < |tr|
  {
    if i == 0 then nodes else NodesAfter(tr[i - 1], ops[i - 1], l, NodesAt(tr, ops, l, nodes, i - 1))
  }

  /** The items the first "i" operations added, oldest first. */
  ghost function Added(tr: seq<State>, ops: seq<Op>, l: HeapList, i: nat): seq<Obj?>
    requires i <= |ops| < |tr|
  {
    if i == 0 then [] else Added(tr, ops, l, i - 1) + (if Adds(tr[i - 1], ops[i - 1], l) then [ops[i - 1].item] else [])
  }

  ghost function Backward(xs: seq<Obj?>): seq<Obj?> {
    if xs == [] then [] else [xs[|xs| - 1]] + Backward(xs[..|xs| - 1])
  }

  /** Operation "i" leaves the list to the library. */
  ghost predicate LeavesAt(tr: seq<State>, ops: seq<Op>, l: HeapList, nodes: seq<Obj>, i: nat) {
    i < |ops| < |tr| && Leaves(tr[i], ops[i], l, NodesAt(tr, ops, l, nodes, i))
  }

  ghost predicate LeavesAll(tr: seq<State>, ops: seq<Op>, l: HeapList, nodes: seq<Obj>, n: nat) {
    forall i {:trigger LeavesAt(tr, ops, l, nodes, i)} | 0 <= i < n :: LeavesAt(tr, ops, l, nodes, i)
  }

  /** What the list holds after "i" operations: what was added, last first, and then what was there before. */
  ghost function ItemsNow(tr: seq<State>, ops: seq<Op>, l: HeapList, items: seq<Obj?>, i: nat): seq<Obj?>
    requires i <= |ops| < |tr|
  {
    Backward(Added(tr, ops, l, i)) + items
  }

  /** After any run that leaves it to the library, the list is what was added, last first, and then what was there before. */
  lemma {:induction false} ListOverRun(tr: seq<State>, ops: seq<Op>, m: Flags, l: HeapList, nodes: seq<Obj>, items: seq<Obj?>, i: nat)
    requires IsRun(tr, ops, m) && GoodMask(m) && i <= |ops|
    requires Listed(tr[0], l, nodes, items) && LeavesAll(tr, ops, l, nodes, i)
    ensures Listed(tr[i], l, NodesAt(tr, ops, l, nodes, i), ItemsNow(tr, ops, l, items, i))
  {
    if i == 0 {
      assert ItemsNow(tr, ops, l, items, i) == items;
    } else {
      ListOverRun(tr, ops, m, l, nodes, items, i - 1);
      RunKeepsInv(tr, ops, m, i - 1);
      assert MovesAt(tr, ops, m, i - 1) && LeavesAt(tr, ops, l, nodes, i - 1);
      MovesKeepsList(tr[i - 1], ops[i - 1], tr[i], m, l, NodesAt(tr, ops, l, nodes, i - 1), ItemsNow(tr, ops, l, items, i - 1));
      AddedNext(tr, ops, l, items, i);
    }
  }

  lemma MovesKeepsList(s: State, op: Op, t: State, m: Flags, l: HeapList, nodes: seq<Obj>, items: seq<Obj?>)
    requires Inv(s, m) && Moves(s, op, t, m) && GoodMask(m)
    requires Listed(s, l, nodes, items) && Leaves(s, op, l, nodes)
    ensures Listed(t, l, NodesAfter(s, op, l, nodes), ItemsAfter(s, op, l, items))
  {
    StepKeepsList(s, op, m, l, nodes, items);
  }

  /** No object ever added to the list is freed, however many collections there are. */
  lemma ListedNeverFreed(tr: seq<State>, ops: seq<Op>, m: Flags, l: HeapList, nodes: seq<Obj>, items: seq<Obj?>, i: nat)
    requires IsRun(tr, ops, m) && GoodMask(m) && i <= |ops|
    requires Listed(tr[0], l, nodes, items) && LeavesAll(tr, ops, l, nodes, i)
    ensures forall x | x in Added(tr, ops, l, i) + items && x != null :: x in tr[i].cells
  {
    ListOverRun(tr, ops, m, l, nodes, items, i);
    RunKeepsInv(tr, ops, m, i);
    ItemsLive(tr[i], m, l, NodesAt(tr, ops, l, nodes, i), ItemsNow(tr, ops, l, items, i));
    BackwardSame(Added(tr, ops, l, i));
  }

  lemma {:induction false} BackwardSame(xs: seq<Obj?>)
    ensures forall x | x in xs :: x in Backward(xs)
  {
    if xs != [] {
      var k := |xs| - 1;
      BackwardSame(xs[..k]);
      assert xs == xs[..k] + [xs[k]];
    }
  }

  lemma AddedNext(tr: seq<State>, ops: seq<Op>, l: HeapList, items: seq<Obj?>, i: nat)
    requires 0 < i <= |ops| < |tr|
    ensures ItemsAfter(tr[i - 1], ops[i - 1], l, ItemsNow(tr, ops, l, items, i - 1)) == ItemsNow(tr, ops, l, items, i)
  {
    var xs := Added(tr, ops, l, i - 1);
    if Adds(tr[i - 1], ops[i - 1], l) {
      var y := ops[i - 1].item;
      assert (xs + [y])[..|xs|] == xs;
      assert [y] + Backward(xs) + items == [y] + (Backward(xs) + items);
    } else {
      assert xs + [] == xs;
    }
  }

  lemma ItemsLive(s: State, m: Flags, l: HeapList, nodes: seq<Obj>, items: seq<Obj?>)
    requires Inv(s, m) && Listed(s, l, nodes, items)
    ensures forall x | x in items && x != null :: x in s.cells
  {
    forall k | 0 <= k < |items|
      ensures Only(items[k]) <= s.cells.Keys
    {
      assert ItemAt(s.cells, nodes, items, k);
      assert PointsAtLive(s, nodes[k]);
    }
  }

  /** The lists of a base just made are empty. */
  lemma NewListsEmpty(s: State, lay: map<Path, Obj>, given: set<Obj>, c: Config, b: Obj, l: HeapList)
    requires NewBase(s, lay, given, c, b)
    ensures Listed(s, l, [], [])
  {
    NewPlaces(s, lay, given, c, b);
  }
}
