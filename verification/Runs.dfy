/** What every operation keeps, and what therefore holds over whole runs. */
module Runs {
  import opened Flags
  import opened Objects
  import opened Sweeping
  import opened Paths
  import opened States
  import opened Collecting

  // ---- Every operation keeps the invariant ----

  /** Only integers held in atoms differ, and what has been reported. */
  ghost predicate OnlyNumbers(s: State, t: State) {
    && t.chain == s.chain && t.roots == s.roots && t.layout == s.layout
    && t.cells.Keys == s.cells.Keys
    && (forall o | o in s.cells :: t.cells[o] == s.cells[o].(num := t.cells[o].num))
    && ExtraNum(t) == ExtraNum(s)
    && (forall o | o in s.cells && HasAny(s.cells[o].flags, OWN) :: t.cells[o].num == s.cells[o].num)
  }

  /** The layout survives when its objects keep their types, data and flags and stay on the chain. */
  lemma LayoutKept(s: State, t: State)
    requires LayoutOk(s) && t.layout == s.layout
    requires At(s, Base) !in t.chain && At(s, Base) !in t.roots
    requires forall o | o in s.cells && (o in s.chain || o == At(s, Base)) ::
               o in t.cells && t.cells[o] == s.cells[o].(num := t.cells[o].num)
    requires forall o | o in s.chain :: o in t.chain
    requires ExtraNum(t) == ExtraNum(s)
    ensures LayoutOk(t)
  {
    forall p {:trigger NodeKept(s, t, p)} | p in s.layout
      ensures NodeKept(s, t, p)
    {
      assert !p.Base? ==> LinkOk(s, p);
    }
    forall p {:trigger LinkKept(s, t, p)} | p in s.layout
      ensures LinkKept(s, t, p)
    {
      assert !p.Base? && p.up in s.layout && !p.up.Base? ==> LinkOk(s, p.up);
    }
    LayoutFrame(s, t);
  }

  lemma NumbersKeepLayout(s: State, t: State)
    requires LayoutOk(s) && OnlyNumbers(s, t)
    ensures LayoutOk(t)
  {
    LayoutKept(s, t);
  }

  /** Chains of the same or new objects, all with the same data, stay free of dangling pointers and marks. */
  lemma DataKept(s: State, t: State, m: Flags)
    requires NoDangling(s) && Unmarked(s, m) && s.cells.Keys <= t.cells.Keys
    requires forall o | o in t.chain :: CleanAt(t, o, m) || (o in s.chain && o in s.cells && t.cells[o].flags == s.cells[o].flags)
    requires forall o | o in t.cells && (o in t.chain || o in t.roots) ::
               PointsAtLive(t, o) || (o in s.cells && (o in s.chain || o in s.roots) && Children(t.cells[o]) == Children(s.cells[o]))
    ensures NoDangling(t) && Unmarked(t, m)
  {
    forall o {:trigger CleanAt(t, o, m)} | o in t.chain
      ensures CleanAt(t, o, m)
    {
      assert o in s.chain ==> CleanAt(s, o, m);
    }
    forall o {:trigger PointsAtLive(t, o)} | o in t.cells && (o in t.chain || o in t.roots)
      ensures PointsAtLive(t, o)
    {
      assert o in s.cells && (o in s.chain || o in s.roots) ==> PointsAtLive(s, o);
    }
  }

  lemma NumbersKeepInv(s: State, t: State, m: Flags)
    requires Inv(s, m) && OnlyNumbers(s, t)
    ensures Inv(t, m)
  {
    NumbersKeepLayout(s, t);
    NumbersKeepOwners(s, t);
    DataKept(s, t, m);
  }

  lemma NumbersKeepOwners(s: State, t: State)
    requires ChainsOk(s) && OnlyNumbers(s, t)
    ensures OwnersOk(t)
  {
    forall o: Obj | o in t.chain
      ensures o in s.chain && OwnsAlike(s, t, o)
    {
      assert o in Members(s.chain);
    }
    OwnersKept(s, t);
  }

  lemma HeaderKeepsOwn(f: Flags)
    ensures HasAny(Set(f, META), OWN) == HasAny(f, OWN)
  {
    assert META * OWN == NONE;
    assert Set(f, META) * OWN == f * OWN;
  }

  lemma EnterKeepsOwners(s: State, o: Obj, c: Cell, m: Flags)
    requires LayoutOk(s) && ChainsOk(s) && CanNew(s, o, c, m)
    ensures OwnersOk(Enter(s, o, c))
  {
    var t := Enter(s, o, c);
    HeaderKeepsOwn(c.flags);
    assert LinkOk(s, COUNT_ATOM);
    forall x | x in s.chain
      ensures x != o && OwnsAlike(s, t, x)
    {
      assert x in Members(s.chain);
    }
    forall x {:trigger PureAt(t, x)} | x in t.chain
      ensures PureAt(t, x)
    {
      assert x != o ==> PureAt(s, x);
    }
    forall x: Obj, y: Obj {:trigger Shares(t, x, y)} | Shares(t, x, y)
      ensures x == y
    {
      if x != o && y != o {
        assert Shares(s, x, y);
      } else if x != y {
        assert OwnsAt(s, if x == o then y else x, c.num);
      }
    }
  }

  lemma EnterKeepsLayout(s: State, o: Obj, c: Cell)
    requires LayoutOk(s) && o !in s.cells
    ensures LayoutOk(Enter(s, o, c))
  {
    assert !Meet(s, COUNT_ATOM, EXTRA_ATOM);
    LayoutKept(s, Enter(s, o, c));
  }

  lemma EnterKeepsInv(s: State, o: Obj, c: Cell, m: Flags)
    requires Inv(s, m) && CanNew(s, o, c, m)
    ensures Inv(Enter(s, o, c), m)
  {
    EnterKeepsLayout(s, o, c);
    EnterKeepsRest(s, o, c, m);
  }

  lemma EnterKeepsRest(s: State, o: Obj, c: Cell, m: Flags)
    requires LayoutOk(s) && ChainsOk(s) && NoDangling(s) && Unmarked(s, m) && CanNew(s, o, c, m)
    ensures var t := Enter(s, o, c);
            && ChainsOk(t) && NoDangling(t) && Unmarked(t, m)
            && Current(t, HEAP_ROOT_CHAIN) == Current(s, HEAP_ROOT_CHAIN)
  {
    var t := Enter(s, o, c);
    assert Members(t.chain) == Members(s.chain) + {o};
    forall x | x in s.chain || x in s.roots
      ensures x in s.cells && x != o
    {
      assert x in Members(s.chain) || x in Members(s.roots);
    }
    EnterKeepsOwners(s, o, c, m);
    DataKept(s, t, m);
  }

  lemma SetNumOnlyNumbers(s: State, p: Path, n: int)
    requires LayoutOk(s)
    requires p in s.layout && p != EXTRA_ATOM && p != Base
    ensures OnlyNumbers(s, SetNum(s, p, n))
  {
    assert !Meet(s, p, EXTRA_ATOM);
    assert LinkOk(s, p);
  }

  /** With the latch down an allocation is refused, whatever it asks for and wherever it comes from. */
  lemma LatchedRefusesAll(s: State, o: Obj, c: Cell, oom: bool, reaction: Reaction)
    requires Full(s) && LimitOf(s) < 0
    ensures Alloc(s, o, c, oom, reaction) == Halt(s)
  {
  }

  /** The latch is down by the time the trip is reported. */
  lemma LatchDown(s: State)
    requires Full(s) && Base in s.layout && LIMIT_ATOM in s.layout && s.layout[LIMIT_ATOM] != s.layout[Base]
    ensures var t := SetNum(s, LIMIT_ATOM, -1); Full(t) && LimitOf(t) == -1
  {
  }

  lemma ReportKeepsObjects(s: State, reaction: Reaction)
    requires Full(s) && LimitOf(s) < 0
    ensures var t := Reported(s, reaction); t.cells == s.cells && t.chain == s.chain && t.roots == s.roots && t.layout == s.layout
  {
    var u := s.(log := s.log + [ErrorHook]);
    if reaction.Allocates? {
      LatchedRefusesAll(u, reaction.o, reaction.c, reaction.oom, reaction.inner);
    }
  }

  lemma RefusalObjects(s: State, oom: bool, reaction: Reaction)
    requires LayoutOk(s) && !Decide(s, oom).Allowed?
    ensures var t := Refuse(s, oom, reaction);
            && t.cells == (if Decide(s, oom).Tripped? then SetNum(s, LIMIT_ATOM, -1) else s).cells
            && t.chain == s.chain && t.roots == s.roots && t.layout == s.layout
  {
    if Decide(s, oom).Tripped? {
      assert !Meet(s, Base, LIMIT_ATOM);
      LatchDown(s);
      ReportKeepsObjects(SetNum(s, LIMIT_ATOM, -1), reaction);
    }
  }

  /** A refused allocation changes at most the latch and what has been reported. */
  lemma RefusalOnlyNumbers(s: State, oom: bool, reaction: Reaction)
    requires LayoutOk(s) && !Decide(s, oom).Allowed?
    ensures OnlyNumbers(s, Refuse(s, oom, reaction))
  {
    RefusalObjects(s, oom, reaction);
    SetNumOnlyNumbers(s, LIMIT_ATOM, -1);
  }

  lemma RefusalKeepsInv(s: State, oom: bool, reaction: Reaction, m: Flags)
    requires Inv(s, m) && !Decide(s, oom).Allowed?
    ensures Inv(Refuse(s, oom, reaction), m)
  {
    RefusalOnlyNumbers(s, oom, reaction);
    NumbersKeepInv(s, Refuse(s, oom, reaction), m);
  }

  lemma AllocKeepsInv(s: State, o: Obj, c: Cell, oom: bool, reaction: Reaction, m: Flags)
    requires Inv(s, m) && CanNew(s, o, c, m)
    ensures Inv(Alloc(s, o, c, oom, reaction), m)
  {
    if Decide(s, oom).Allowed? {
      EnterKeepsInv(s, o, c, m);
    } else {
      RefusalKeepsInv(s, oom, reaction, m);
    }
  }

  /** The same chain, with owners as they were. */
  lemma SameOwners(s: State, t: State)
    requires ChainsOk(s) && t.chain == s.chain && s.cells.Keys <= t.cells.Keys
    requires forall o | o in s.chain && o in s.cells :: OwnsAlike(s, t, o)
    ensures OwnersOk(t)
  {
    assert forall o | o in s.chain :: o in Members(s.chain);
    OwnersKept(s, t);
  }

  lemma PlaceKeepsInv(s: State, o: Obj, c: Cell, m: Flags)
    requires Inv(s, m) && o !in s.chain && o !in s.roots && o != At(s, Base)
    ensures Inv(s.(cells := s.cells[o := c]), m)
  {
    var t := s.(cells := s.cells[o := c]);
    assert LinkOk(s, EXTRA_ATOM);
    LayoutKept(s, t);
    assert LinkOk(s, HEAP_ROOT_CHAIN);
    SameOwners(s, t);
    DataKept(s, t, m);
  }

  /** The embedder gives the base a type; the base is on neither chain and no pair. */
  lemma TypeKeepsInv(s: State, kind: Kind, m: Flags)
    requires Inv(s, m) && !kind.PairType?
    ensures Inv(WithKind(s, At(s, Base), kind), m)
  {
    var b := At(s, Base);
    var t := WithKind(s, b, kind);
    TypeKeepsLayout(s, kind);
    assert !Meet(s, Base, HEAP_ROOT_CHAIN);
    SameOwners(s, t);
    DataKept(s, t, m);
  }

  lemma TypeKeepsLayout(s: State, kind: Kind)
    requires LayoutOk(s) && !kind.PairType?
    ensures LayoutOk(WithKind(s, At(s, Base), kind))
  {
    var b := At(s, Base);
    var t := WithKind(s, b, kind);
    forall p {:trigger LinkOk(t, p)} | p in t.layout && !p.Base?
      ensures LinkOk(t, p)
    {
      assert LinkOk(s, p) && !Meet(s, p, Base);
      assert !p.up.Base? ==> !Meet(s, p.up, Base);
    }
    forall p, q {:trigger Meet(t, p, q)} | Meet(t, p, q)
      ensures p == q
    {
      assert Meet(s, p, q);
    }
    forall l {:trigger ListField(l)}
      ensures t.cells[t.layout[ListField(l)]].kind.PairType?
    {
      assert !Meet(s, Base, ListField(l));
    }
    assert !Meet(s, Base, HEAP_ROOT_CHAIN);
    assert !Meet(s, Base, COUNT_ATOM) && !Meet(s, Base, LIMIT_ATOM) && !Meet(s, Base, EXTRA_ATOM);
  }

  /** Writing a slot that does not hold the base tree together. */
  lemma SlotKeepsLayout(s: State, o: Obj, d: Slot, v: Obj?)
    requires LayoutOk(s) && o in s.cells && !Protected(s, o, d)
    ensures LayoutOk(SetUnit(s, o, d, v))
  {
    var t := SetUnit(s, o, d, v);
    forall p {:trigger NodeKept(s, t, p)} | p in s.layout
      ensures NodeKept(s, t, p)
    {
      assert !p.Base? ==> LinkOk(s, p);
    }
    forall p {:trigger LinkKept(s, t, p)} | p in s.layout
      ensures LinkKept(s, t, p)
    {
      assert !p.Base? ==> !Sits(s, p.up, o) || p.First? != d.FirstSlot?;
    }
    LayoutFrame(s, t);
  }

  lemma SlotKeepsInv(s: State, o: Obj, d: Slot, v: Obj?, m: Flags)
    requires Inv(s, m) && o in s.cells && Only(v) <= s.cells.Keys && !Protected(s, o, d)
    requires d.FirstSlot? ==> !HasAny(s.cells[o].flags, OWN)
    ensures Inv(SetUnit(s, o, d, v), m)
  {
    var t := SetUnit(s, o, d, v);
    SlotKeepsLayout(s, o, d, v);
    SameOwners(s, t);
    if o in s.chain || o in s.roots {
      assert PointsAtLive(s, o) && PointsAtLive(t, o);
    }
    DataKept(s, t, m);
  }

  /** The root chain may become any list of registered off-chain objects. */
  ghost predicate GoodRoots(s: State, q: seq<Obj>) {
    && Distinct(q) && Members(q) <= s.cells.Keys && Members(q) !! Members(s.chain)
    && At(s, Base) !in q
    && forall o | o in q && o in s.cells :: Children(s.cells[o]) <= s.cells.Keys
  }

  lemma RootsKeepLayout(s: State, q: seq<Obj>)
    requires LayoutOk(s) && At(s, Base) !in q
    ensures LayoutOk(SetRoots(s, q))
  {
    var t := SetRoots(s, q);
    forall p {:trigger NodeKept(s, t, p)} | p in s.layout
      ensures NodeKept(s, t, p)
    {
      assert !p.Base? ==> LinkOk(s, p);
    }
    forall p {:trigger LinkKept(s, t, p)} | p in s.layout
      ensures LinkKept(s, t, p)
    {
      assert !p.Base? && Meet(s, p.up, HEAP_ROOT_CHAIN) ==> p.up == HEAP_ROOT_CHAIN;
    }
    LayoutFrame(s, t);
  }

  lemma RootsKeepInv(s: State, q: seq<Obj>, m: Flags)
    requires Inv(s, m) && GoodRoots(s, q)
    ensures Inv(SetRoots(s, q), m)
  {
    var t := SetRoots(s, q);
    RootsKeepLayout(s, q);
    assert LinkOk(s, HEAP_ROOT_CHAIN);
    assert q != [] ==> Head(q) in Members(q);
    assert At(s, HEAP_ROOT_CHAIN) !in q by {
      assert At(s, HEAP_ROOT_CHAIN) in Members(s.chain);
      assert At(s, HEAP_ROOT_CHAIN) in q ==> At(s, HEAP_ROOT_CHAIN) in Members(q);
    }
    RootsKeepRest(s, q, m);
  }

  lemma RootsKeepRest(s: State, q: seq<Obj>, m: Flags)
    requires LayoutOk(s) && ChainsOk(s) && NoDangling(s) && Unmarked(s, m) && GoodRoots(s, q)
    requires Only(Head(q)) <= s.cells.Keys
    ensures var t := SetRoots(s, q); ChainsOk(t) && NoDangling(t) && Unmarked(t, m)
    ensures Current(SetRoots(s, q), HEAP_ROOT_CHAIN) == Head(q)
  {
    var t := SetRoots(s, q);
    assert forall o | o in q :: o in Members(q);
    assert forall o | o in q && o in s.cells :: PointsAtLive(t, o);
    var head := s.layout[HEAP_ROOT_CHAIN];
    assert LinkOk(s, HEAP_ROOT_CHAIN);
    SameOwners(s, t);
    assert LinkOk(s, HEAP_ROOT_CHAIN) && PointsAtLive(s, head) && PointsAtLive(t, head);
    DataKept(s, t, m);
  }

  lemma DropGood(s: State, m: Flags, k: nat)
    requires Inv(s, m) && k <= |s.roots|
    ensures GoodRoots(s, s.roots[k..])
  {
    var q := s.roots[k..];
    forall o | o in q
      ensures o in s.cells && o !in s.chain && o != At(s, Base) && PointsAtLive(s, o)
    {
      assert o in s.roots && o in Members(s.roots);
    }
  }

  lemma PushGood(s: State, m: Flags, o: Obj)
    requires Inv(s, m) && Enabled(s, Push(o), m)
    ensures GoodRoots(s, [o] + s.roots)
  {
    assert forall x | x in s.roots :: x in Members(s.roots) && x in s.cells && PointsAtLive(s, x);
    assert Members([o] + s.roots) == Members(s.roots) + {o};
  }

  /** A new pair in front of what a data unit holds. */
  lemma PushFieldKeepsInv(s: State, at: Obj, d: Slot, o: Obj, item: Obj?, f: Flags, m: Flags)
    requires Inv(s, m) && Writable(s, at, d) && CanNew(s, o, ItemPair(s, at, d, item, f), m)
    ensures Inv(WithItem(s, at, d, o, item, f), m)
  {
    var t := Enter(s, o, ItemPair(s, at, d, item, f));
    EnterKeepsInv(s, o, ItemPair(s, at, d, item, f), m);
    StillWritable(s, o, ItemPair(s, at, d, item, f), at, d);
    SlotKeepsInv(t, at, d, o, m);
  }

  lemma StillWritable(s: State, o: Obj, c: Cell, at: Obj, d: Slot)
    requires LayoutOk(s) && Writable(s, at, d) && o !in s.cells
    ensures at in Enter(s, o, c).cells && !Protected(Enter(s, o, c), at, d)
    ensures d.FirstSlot? ==> !HasAny(Enter(s, o, c).cells[at].flags, OWN)
  {
    var t := Enter(s, o, c);
    forall p {:trigger Sits(t, p, at)} | Sits(t, p, at)
      ensures (if d.FirstSlot? then First(p) else Rest(p)) !in t.layout
    {
      assert Sits(s, p, at);
    }
  }

  lemma PushFieldStep(s: State, at: Obj, d: Slot, o: Obj, item: Obj?, f: Flags, oom: bool, reaction: Reaction, m: Flags)
    requires ChainsOk(s) && !s.stopped && Decide(s, oom).Allowed?
    ensures Step(s, PushField(at, d, o, item, f, oom, reaction), m) == WithItem(s, at, d, o, item, f)
  {
  }

  lemma ListHeadLive(s: State, list: HeapList)
    requires LayoutOk(s) && NoDangling(s)
    ensures Only(Current(s, ListField(list))) <= s.cells.Keys
  {
    assert LinkOk(s, ListField(list));
    assert PointsAtLive(s, s.layout[ListField(list)]);
  }

  lemma ListSlotOpen(s: State, list: HeapList)
    requires LayoutOk(s)
    ensures Writable(s, s.layout[ListField(list)], FirstSlot)
  {
    assert forall p {:trigger Sits(s, p, s.layout[ListField(list)])} | Sits(s, p, s.layout[ListField(list)]) ::
        Meet(s, p, ListField(list));
    assert !Meet(s, HEAP_ROOT_CHAIN, ListField(list));
    assert LinkOk(s, ListField(list));
    assert !Meet(s, COUNT_ATOM, ListField(list)) && !Meet(s, LIMIT_ATOM, ListField(list)) && !Meet(s, EXTRA_ATOM, ListField(list));
  }

  /** What the collector needs of the state it starts from. */
  lemma CollectSetup(s: State, m: Flags)
    requires LayoutOk(s) && ChainsOk(s) && NoDangling(s) && Registered(s) && GoodMask(m)
    ensures Closed(s.cells, Reachable(s))
    ensures Members(s.roots) <= Reachable(s) && s.layout[X_BASE] in Reachable(s)
    ensures var counter := CounterOf(Mark(s, m));
            counter != null ==> counter in Mark(s, m).cells && Retained(Mark(s, m).cells[counter].flags, m)
  {
    ReachableIsClosed(s, m);
    CounterReady(s, m);
    assert At(s, X_BASE) == s.layout[X_BASE];
  }

  lemma CollectStep(s: State, m: Flags)
    requires ChainsOk(s) && !s.stopped
    ensures Step(s, Collect, m) == Collected(s, m)
  {
  }

  /** Every operation a caller may perform keeps the invariant. */
  lemma StepKeepsInv(s: State, op: Op, m: Flags)
    requires Inv(s, m) && Enabled(s, op, m) && GoodMask(m)
    ensures Inv(Step(s, op, m), m)
  {
    if s.stopped {
      return;
    }
    match op
    case New(o, c, oom, reaction) => AllocKeepsInv(s, o, c, oom, reaction, m);
    case Place(o, c) => PlaceKeepsInv(s, o, c, m);
    case TypeBase(kind) => TypeKeepsInv(s, kind, m);
    case SetSlot(o, d, v) => SlotKeepsInv(s, o, d, v, m);
    case Push(o) => PushGood(s, m, o); RootsKeepInv(s, [o] + s.roots, m);
    case Pop => DropGood(s, m, 1); RootsKeepInv(s, s.roots[1..], m);
    case Restore(k) => DropGood(s, m, k); RootsKeepInv(s, s.roots[k..], m);
    case Arm(limit) => SetNumOnlyNumbers(s, LIMIT_ATOM, limit); NumbersKeepInv(s, SetNum(s, LIMIT_ATOM, limit), m);
    case PushField(at, d, o, item, f, oom, reaction) =>
      if Decide(s, oom).Allowed? {
        PushFieldKeepsInv(s, at, d, o, item, f, m);
      } else {
        RefusalKeepsInv(s, oom, reaction, m);
      }
    case Collect => CollectKeepsInv(s, m);
  }

  // ---- Whole runs ----

  /** One permitted operation takes "s" to "t". */
  ghost predicate Moves(s: State, op: Op, t: State, m: Flags) {
    LayoutOk(s) && ChainsOk(s) && Enabled(s, op, m) && t == Step(s, op, m)
  }

  /** "tr" are the states a permitted sequence of operations goes through. */
  ghost predicate IsRun(tr: seq<State>, ops: seq<Op>, m: Flags) {
    IsTrace(tr, ops, m) && Inv(tr[0], m)
  }

  ghost predicate IsTrace(tr: seq<State>, ops: seq<Op>, m: Flags) {
    && |tr| == |ops| + 1
    && forall i {:trigger MovesAt(tr, ops, m, i)} | 0 <= i < |ops| :: MovesAt(tr, ops, m, i)
  }

  ghost predicate MovesAt(tr: seq<State>, ops: seq<Op>, m: Flags, i: nat) {
    i < |ops| && i + 1 < |tr| && Moves(tr[i], ops[i], tr[i + 1], m)
  }

  /**
    In every reachable state the two chains are duplicate-free and share no node, nothing on
    either points at a freed object, no chain object carries a mark and the base tree is intact.
   */
  lemma {:induction false} RunKeepsInv(tr: seq<State>, ops: seq<Op>, m: Flags, i: nat)
    requires IsRun(tr, ops, m) && GoodMask(m) && i <= |ops|
    ensures Inv(tr[i], m)
  {
    if i > 0 {
      RunKeepsInv(tr, ops, m, i - 1);
      assert MovesAt(tr, ops, m, i - 1);
      MovesKeepsInv(tr[i - 1], ops[i - 1], tr[i], m);
    }
  }

  lemma MovesKeepsInv(s: State, op: Op, t: State, m: Flags)
    requires Inv(s, m) && Moves(s, op, t, m) && GoodMask(m)
    ensures Inv(t, m)
  {
    StepKeepsInv(s, op, m);
  }

  /** Only a collection frees anything. */
  lemma OnlyCollectFrees(s: State, op: Op, m: Flags)
    requires LayoutOk(s) && ChainsOk(s) && (op.Collect? ==> s.stopped)
    ensures s.cells.Keys <= Step(s, op, m).cells.Keys
  {
    if (op.New? || op.PushField?) && !Decide(s, op.oom).Allowed? {
      RefusalObjects(s, op.oom, op.reaction);
    }
  }

  /** Over every run, no step frees an object reachable from the roots. */
  lemma RunFreesNothingReachable(tr: seq<State>, ops: seq<Op>, m: Flags, i: nat)
    requires IsRun(tr, ops, m) && GoodMask(m) && i < |ops|
    ensures Reachable(tr[i]) <= tr[i + 1].cells.Keys
  {
    RunKeepsInv(tr, ops, m, i);
    assert MovesAt(tr, ops, m, i);
    if ops[i].Collect? && !tr[i].stopped {
      CollectExact(tr[i], m);
    } else {
      OnlyCollectFrees(tr[i], ops[i], m);
    }
  }

  /**
    Over every run and any number of collections, the chain after a collection holds exactly
    the objects of the chain before it that are reachable from the roots or SHARED.
   */
  lemma RunCollectsPrecisely(tr: seq<State>, ops: seq<Op>, m: Flags, i: nat)
    requires IsRun(tr, ops, m) && GoodMask(m) && i < |ops| && ops[i].Collect? && !tr[i].stopped
    ensures Members(tr[i + 1].chain) == Members(tr[i].chain) * (Reachable(tr[i]) + SharedOnChain(tr[i]))
    ensures tr[i + 1].cells.Keys == tr[i].cells.Keys - Garbage(tr[i])
  {
    RunKeepsInv(tr, ops, m, i);
    assert MovesAt(tr, ops, m, i);
    CollectExact(tr[i], m);
    CollectChain(tr[i], m);
  }

  /** Still on the chain, with the same flag word. */
  ghost predicate Stays(s: State, t: State, o: Obj) {
    && o in s.cells && o in t.chain && o in t.cells
    && t.cells[o].flags == s.cells[o].flags
  }

  /** Anything but a collection leaves the nodes of the chain and their flag words alone. */
  lemma ChainStays(s: State, op: Op, t: State, m: Flags, o: Obj)
    requires Moves(s, op, t, m) && !op.Collect? && o in s.chain
    ensures Stays(s, t, o)
  {
    assert o in Members(s.chain);
    if !s.stopped {
      match op
      case New(x, c, oom, reaction) => AllocStays(s, x, c, oom, reaction, o);
      case PushField(at, d, x, item, f, oom, reaction) => PushStays(s, at, d, x, item, f, oom, reaction, o);
      case _ =>
    }
  }

  lemma PushStays(s: State, at: Obj, d: Slot, x: Obj, item: Obj?, f: Flags, oom: bool, reaction: Reaction, o: Obj)
    requires LayoutOk(s) && o in s.cells && o in s.chain && x !in s.cells
    ensures Decide(s, oom).Allowed? ==> Stays(s, WithItem(s, at, d, x, item, f), o)
    ensures !Decide(s, oom).Allowed? ==> Stays(s, Refuse(s, oom, reaction), o)
  {
    AllocStays(s, x, ItemPair(s, at, d, item, f), oom, reaction, o);
  }

  lemma AllocStays(s: State, x: Obj, c: Cell, oom: bool, reaction: Reaction, o: Obj)
    requires LayoutOk(s) && o in s.cells && o in s.chain && x !in s.cells
    ensures Stays(s, Alloc(s, x, c, oom, reaction), o)
  {
    if !Decide(s, oom).Allowed? {
      RefusalObjects(s, oom, reaction);
    }
  }

  // ---- Root-chain discipline ----

  ghost predicate EndsWith(r: seq<Obj>, q: seq<Obj>) {
    |q| <= |r| && r[|r| - |q|..] == q
  }

  lemma DropKeepsEnd(r: seq<Obj>, q: seq<Obj>, k: nat)
    requires EndsWith(r, q) && |q| <= |Drop(r, k)|
    ensures EndsWith(Drop(r, k), q)
  {
    if k <= |r| {
      assert r[k..][|r| - k - |q|..] == r[|r| - |q|..];
    }
  }

  lemma PushKeepsEnd(r: seq<Obj>, q: seq<Obj>, o: Obj)
    requires EndsWith(r, q)
    ensures EndsWith([o] + r, q)
  {
    assert ([o] + r)[|r| + 1 - |q|..] == r[|r| - |q|..];
  }

  function RootsAfter(roots: seq<Obj>, op: Op): seq<Obj> {
    match op
    case Push(o) => [o] + roots
    case Pop => Drop(roots, 1)
    case Restore(k) => Drop(roots, k)
    case _ => roots
  }

  lemma MovesRoots(s: State, op: Op, m: Flags, t: State)
    requires Moves(s, op, t, m)
    ensures t.roots == if s.stopped then s.roots else RootsAfter(s.roots, op)
    ensures s.stopped ==> t.stopped
    ensures op.Pop? ==> s.roots != []
    ensures op.Restore? ==> op.drop <= |s.roots|
  {
    if (op.New? || op.PushField?) && !Decide(s, op.oom).Allowed? {
      RefusalObjects(s, op.oom, op.reaction);
    }
  }

  lemma KeepsEnd(roots: seq<Obj>, op: Op, q: seq<Obj>)
    requires EndsWith(roots, q) && |q| <= |RootsAfter(roots, op)|
    ensures EndsWith(RootsAfter(roots, op), q)
  {
    match op
    case Push(o) => PushKeepsEnd(roots, q, o);
    case Pop => DropKeepsEnd(roots, q, 1);
    case Restore(k) => DropKeepsEnd(roots, q, k);
    case _ => assert RootsAfter(roots, op) == roots;
  }

  /**
    As long as a frame does not pop below where it started, the root chain it started with is
    a suffix of the current one; so at equal length the two are the same chain.
   */
  lemma {:induction false} FrameSuffix(tr: seq<State>, ops: seq<Op>, m: Flags, i: nat)
    requires IsTrace(tr, ops, m) && i <= |ops|
    requires forall j | 0 <= j <= i :: |tr[j].roots| >= |tr[0].roots|
    ensures EndsWith(tr[i].roots, tr[0].roots)
    ensures |tr[i].roots| == |tr[0].roots| ==> tr[i].roots == tr[0].roots
  {
    if i > 0 {
      FrameSuffix(tr, ops, m, i - 1);
      MovesKeepEnd(tr, ops, m, i - 1, tr[0].roots);
    }
  }

  lemma MovesKeepEnd(tr: seq<State>, ops: seq<Op>, m: Flags, i: nat, q: seq<Obj>)
    requires IsTrace(tr, ops, m) && i < |ops| && EndsWith(tr[i].roots, q) && |q| <= |tr[i + 1].roots|
    ensures EndsWith(tr[i + 1].roots, q)
  {
    assert MovesAt(tr, ops, m, i);
    MovesRoots(tr[i], ops[i], m, tr[i + 1]);
    if !tr[i].stopped {
      KeepsEnd(tr[i].roots, ops[i], q);
    }
  }

  /**
    The head saved when a frame started is still on the chain, that many nodes down, and a
    nonlocal exit that puts it back gives back exactly the saved chain.
   */
  lemma RestoreGivesBack(tr: seq<State>, ops: seq<Op>, m: Flags, i: nat, t: State)
    requires IsTrace(tr, ops, m) && i <= |ops| && !tr[i].stopped
    requires forall j | 0 <= j <= i :: |tr[j].roots| >= |tr[0].roots|
    requires Moves(tr[i], Restore(|tr[i].roots| - |tr[0].roots|), t, m)
    ensures Nth(tr[i].roots, |tr[i].roots| - |tr[0].roots|) == Head(tr[0].roots)
    ensures t.roots == tr[0].roots
  {
    FrameSuffix(tr, ops, m, i);
    MovesRoots(tr[i], Restore(|tr[i].roots| - |tr[0].roots|), m, t);
  }

  function Weight(op: Op): int {
    match op
    case Push(_) => 1
    case Pop => -1
    case _ => 0
  }

  /** Pushes minus pops. */
  function Net(ops: seq<Op>): int {
    if ops == [] then 0 else Net(ops[..|ops| - 1]) + Weight(ops[|ops| - 1])
  }

  lemma MovesLength(s: State, op: Op, m: Flags, t: State)
    requires Moves(s, op, t, m) && !op.Restore? && !t.stopped
    ensures !s.stopped && |t.roots| == |s.roots| + Weight(op)
  {
    MovesRoots(s, op, m, t);
  }

  lemma NetNext(ops: seq<Op>, i: nat)
    requires 0 < i <= |ops|
    ensures Net(ops[..i]) == Net(ops[..i - 1]) + Weight(ops[i - 1])
  {
    assert ops[..i][..i - 1] == ops[..i - 1];
  }

  /** Balanced pushes and pops, in any nesting, leave the root chain as it was. */
  lemma BalancedRoots(tr: seq<State>, ops: seq<Op>, m: Flags, i: nat)
    requires IsTrace(tr, ops, m) && i <= |ops| && !tr[i].stopped
    requires forall j | 0 <= j < i :: !ops[j].Restore?
    requires forall j | 0 <= j <= i :: Net(ops[..j]) >= 0
    ensures forall j | 0 <= j <= i :: |tr[j].roots| == |tr[0].roots| + Net(ops[..j])
    ensures Net(ops[..i]) == 0 ==> tr[i].roots == tr[0].roots
  {
    forall j | 0 <= j <= i
      ensures |tr[j].roots| == |tr[0].roots| + Net(ops[..j])
    {
      NeverStopped(tr, ops, m, j, i);
      RootsLength(tr, ops, m, j);
    }
    FrameSuffix(tr, ops, m, i);
  }

  lemma {:induction false} NeverStopped(tr: seq<State>, ops: seq<Op>, m: Flags, j: nat, i: nat)
    requires IsTrace(tr, ops, m) && j <= i <= |ops| && !tr[i].stopped
    ensures !tr[j].stopped
    decreases i - j
  {
    if j < i {
      NeverStopped(tr, ops, m, j + 1, i);
      assert MovesAt(tr, ops, m, j);
      MovesRoots(tr[j], ops[j], m, tr[j + 1]);
    }
  }

  lemma {:induction false} RootsLength(tr: seq<State>, ops: seq<Op>, m: Flags, i: nat)
    requires IsTrace(tr, ops, m) && i <= |ops| && !tr[i].stopped
    requires forall j | 0 <= j < i :: !ops[j].Restore?
    ensures |tr[i].roots| == |tr[0].roots| + Net(ops[..i])
  {
    if i > 0 {
      assert MovesAt(tr, ops, m, i - 1);
      MovesLength(tr[i - 1], ops[i - 1], m, tr[i]);
      RootsLength(tr, ops, m, i - 1);
      NetNext(ops, i);
    }
  }
}
