/** Memory over whole runs: every block is released at most once, and where it was obtained (src/x-obj.c, lines 138-184 and 265-296). */
module Blocks {
  import opened Flags
  import opened Objects
  import opened Sweeping
  import opened Paths
  import opened States
  import opened Collecting
  import opened Runs
  import opened Accounts
  import opened BaseTree

  /** How often the block that starts "k" units before the header of "o" was obtained and not released. */
  ghost function Held(s: State, o: Obj, k: nat): int {
    Count(s.log, Obtain(o, k)) - Count(s.log, Release(o, k))
  }

  ghost function Units(s: State): nat {
    if ExtraNum(s) > 0 then ExtraNum(s) else 0
  }

  /** The block of the base or of an object on the chain, going by its flags. */
  ghost predicate Owned(s: State, o: Obj, k: nat) {
    || (o == At(s, Base) && k == 0)
    || (o in s.chain && o in s.cells && k == Lead(s.cells[o].flags, Units(s)))
  }

  /** No header carries the META flag until the base is full. */
  ghost predicate Plain(s: State) {
    !Full(s) ==> forall o | o in s.chain && o in s.cells :: !HasAny(s.cells[o].flags, META)
  }

  /** The block at that place is held once if it is the base's or a chain object's, and else not at all. */
  ghost predicate Accounted(s: State, o: Obj, k: nat) {
    Plain(s) && Held(s, o, k) == if Owned(s, o, k) then 1 else 0
  }

  // ---- The start ----

  lemma {:induction false} ObtainsCount(q: seq<Obj>, o: Obj, k: nat)
    requires Distinct(q)
    ensures Count(Obtains(q), Obtain(o, k)) == (if o in q && k == 0 then 1 else 0)
    ensures Count(Obtains(q), Release(o, k)) == 0
  {
    if q != [] {
      assert q == [q[0]] + q[1..];
      DistinctParts([q[0]], q[1..]);
      ObtainsCount(q[1..], o, k);
      CountPlus(Obtains(q[1..]), [Obtain(q[0], 0)], Obtain(o, k));
      CountPlus(Obtains(q[1..]), [Obtain(q[0], 0)], Release(o, k));
    }
  }

  lemma NewBaseAccounted(s: State, lay: map<Path, Obj>, given: set<Obj>, c: Config, b: Obj, o: Obj, k: nat)
    requires NewBase(s, lay, given, c, b)
    ensures Accounted(s, o, k)
  {
    NewOwners(s, lay, given, c, b);
    assert SHARED * META == NONE;
    ObtainsCount(s.chain, o, k);
    CountPlus([Obtain(b, 0)], Obtains(s.chain), Obtain(o, k));
    CountPlus([Obtain(b, 0)], Obtains(s.chain), Release(o, k));
  }

  // ---- The steps ----

  /** A state whose chain, flags and blocks are the same accounts for as much. */
  lemma SameBlocks(s: State, t: State, o: Obj, k: nat)
    requires Accounted(s, o, k) && t.chain == s.chain && At(t, Base) == At(s, Base) && Units(t) == Units(s)
    requires Full(s) ==> Full(t)
    requires forall x | x in s.chain :: x in s.cells && x in t.cells && t.cells[x].flags == s.cells[x].flags
    requires Held(t, o, k) == Held(s, o, k)
    ensures Accounted(t, o, k)
  {
  }

  lemma EnterAccounted(s: State, n: Obj, c: Cell, m: Flags, o: Obj, k: nat)
    requires LayoutOk(s) && ChainsOk(s) && CanNew(s, n, c, m) && Accounted(s, o, k)
    ensures Accounted(Enter(s, n, c), o, k)
  {
    var t := Enter(s, n, c);
    EnterBooks(s, n, c);
    assert s.layout[Base] in s.cells;
    forall x | x in s.chain
      ensures x in s.cells && x != n && t.cells[x].flags == s.cells[x].flags
    {
      assert x in Members(s.chain);
    }
    NewLead(s, c);
    EnterLogs(s, n, c, Obtain(o, k));
    EnterLogs(s, n, c, Release(o, k));
  }

  /** The allocator flags exactly the headers that it puts extra units in front of. */
  lemma NewLead(s: State, c: Cell)
    requires !HasAny(c.flags, META)
    ensures Lead(Header(s, c).flags, Units(s)) == ExtraOf(s)
    ensures !Full(s) ==> Header(s, c) == c
  {
    assert Set(c.flags, META) * META == META && 7 in META;
  }

  lemma RefusalAccounted(s: State, oom: bool, reaction: Reaction, o: Obj, k: nat)
    requires LayoutOk(s) && ChainsOk(s) && !Decide(s, oom).Allowed? && Accounted(s, o, k)
    ensures Accounted(Refuse(s, oom, reaction), o, k)
  {
    RefusalOnlyNumbers(s, oom, reaction);
    RefusalFull(s, oom, reaction);
    forall x | x in s.chain
      ensures x in s.cells
    {
      assert x in Members(s.chain);
    }
    RefusalLogs(s, oom, reaction, Obtain(o, k));
    RefusalLogs(s, oom, reaction, Release(o, k));
    SameBlocks(s, Refuse(s, oom, reaction), o, k);
  }

  lemma RefusalFull(s: State, oom: bool, reaction: Reaction)
    requires LayoutOk(s) && !Decide(s, oom).Allowed?
    ensures Full(s) ==> Full(Refuse(s, oom, reaction))
  {
    RefusalOnlyNumbers(s, oom, reaction);
    assert s.layout[Base] in s.cells;
  }

  /** A refusal obtains and releases nothing. */
  lemma RefusalLogs(s: State, oom: bool, reaction: Reaction, e: Event)
    requires LayoutOk(s) && !Decide(s, oom).Allowed? && Subject(e) != null
    ensures Count(Refuse(s, oom, reaction).log, e) == Count(s.log, e)
  {
    var more := RefusalReports(s, oom, reaction);
    CountPlus(s.log, more, e);
  }

  /** What a sweep releases is what its garbage held, and where it was held. */
  lemma CollectAccounted(s: State, m: Flags, o: Obj, k: nat)
    requires Inv(s, m) && Registered(s) && GoodMask(m) && Accounted(s, o, k)
    ensures Accounted(Collected(s, m), o, k)
  {
    var t := Collected(s, m);
    CollectExact(s, m);
    CollectChain(s, m);
    CollectKeepsNumber(s, m, EXTRA_ATOM);
    CollectFull(s, m);
    CollectHolds(s, m, o, k);
    KeptAccounted(s, t, o, k);
  }

  lemma KeptAccounted(s: State, t: State, o: Obj, k: nat)
    requires LayoutOk(s) && ChainsOk(s) && Accounted(s, o, k)
    requires t.layout == s.layout && Units(t) == Units(s) && (Full(s) <==> Full(t))
    requires t.cells.Keys == s.cells.Keys - Garbage(s) && Members(t.chain) == Members(s.chain) - Garbage(s)
    requires forall x | x in t.cells :: Unchanged(s.cells, t.cells, x, s.chain)
    requires Held(t, o, k) == Held(s, o, k) - (if o in Garbage(s) && k == Lead(s.cells[o].flags, Units(s)) then 1 else 0)
    ensures Accounted(t, o, k)
  {
    forall x | x in t.chain
      ensures x in s.chain && x in t.cells && t.cells[x].flags == s.cells[x].flags && x !in Garbage(s)
    {
      assert x in Members(t.chain) && x in Members(s.chain);
      assert Unchanged(s.cells, t.cells, x, s.chain);
    }
    if o in s.chain {
      assert o in Members(s.chain);
      assert o in t.chain <==> o in Members(t.chain);
    }
  }

  lemma CollectFull(s: State, m: Flags)
    requires Inv(s, m) && Registered(s) && GoodMask(m)
    ensures Full(s) <==> Full(Collected(s, m))
  {
    CollectExact(s, m);
    LayoutNotGarbage(s, Base);
    assert Unchanged(s.cells, Collected(s, m).cells, s.layout[Base], s.chain);
  }

  lemma CollectHolds(s: State, m: Flags, o: Obj, k: nat)
    requires Inv(s, m) && Registered(s) && GoodMask(m) && Plain(s)
    ensures Held(Collected(s, m), o, k) ==
              Held(s, o, k) - (if o in Garbage(s) && k == Lead(s.cells[o].flags, Units(s)) then 1 else 0)
  {
    var a := Mark(s, m);
    var es := SweepEvents(a.cells, s.chain, DisposalOf(a), m);
    DeadIsGarbage(s, m);
    EachFreedOnce(a.cells, s.chain, DisposalOf(a), m, o, k, 0);
    CountPlus(s.log, es, Obtain(o, k));
    CountPlus(s.log, es, Release(o, k));
    if o in Garbage(s) {
      GarbageFlags(s, m, o);
      MarkExtra(s, m);
    }
  }

  /** Marking does not reach garbage, so its flags are what they were. */
  lemma GarbageFlags(s: State, m: Flags, o: Obj)
    requires Inv(s, m) && Registered(s) && GoodMask(m) && o in Garbage(s)
    ensures Mark(s, m).cells[o].flags == s.cells[o].flags
  {
    MarkedExactly(s, m);
    ClearUndoesSet(Mark(s, m).cells[o].flags, m);
  }

  lemma MarkExtra(s: State, m: Flags)
    requires LayoutOk(s)
    ensures ExtraOf(Mark(s, m)) == ExtraOf(s)
  {
    MarkKeeps(s, m, s.layout[EXTRA_ATOM]);
    MarkKeeps(s, m, s.layout[Base]);
  }

  /** No operation changes the number of extra units, or makes a full base less than full. */
  lemma StepKeepsUnits(s: State, op: Op, m: Flags)
    requires Inv(s, m) && Enabled(s, op, m) && GoodMask(m) && !s.stopped
    requires !op.New? && !op.PushField? && !op.Collect?
    ensures var t := Step(s, op, m); Units(t) == Units(s) && (Full(s) ==> Full(t)) && At(t, Base) == At(s, Base)
  {
    match op
    case Place(o, c) => PlaceBooks(s, o, c);
    case TypeBase(kind) => assert !Meet(s, Base, EXTRA_ATOM);
    case SetSlot(o, d, v) => SlotBooks(s, o, d, v);
    case Push(o) => RootsBooks(s, [o] + s.roots);
    case Pop => RootsBooks(s, s.roots[1..]);
    case Restore(k) => RootsBooks(s, s.roots[k..]);
    case Arm(limit) => LatchBooks(s, limit);
  }

  lemma StepAccounted(s: State, op: Op, t: State, m: Flags, o: Obj, k: nat)
    requires Inv(s, m) && Moves(s, op, t, m) && GoodMask(m) && Accounted(s, o, k)
    ensures Accounted(t, o, k)
  {
    if s.stopped {
      return;
    }
    match op
    case New(n, c, oom, reaction) =>
      if Decide(s, oom).Allowed? {
        EnterAccounted(s, n, c, m, o, k);
      } else {
        RefusalAccounted(s, oom, reaction, o, k);
      }
    case PushField(at, d, n, item, f, oom, reaction) =>
      if Decide(s, oom).Allowed? {
        PushAccounted(s, at, d, n, item, f, m, o, k);
      } else {
        RefusalAccounted(s, oom, reaction, o, k);
      }
    case Collect => CollectAccounted(s, m, o, k);
    case _ =>
      StepKeepsUnits(s, op, m);
      forall x | x in s.chain
        ensures Stays(s, t, x)
      {
        ChainStays(s, op, t, m, x);
      }
      SameBlocks(s, t, o, k);
  }

  lemma PushAccounted(s: State, at: Obj, d: Slot, n: Obj, item: Obj?, f: Flags, m: Flags, o: Obj, k: nat)
    requires Inv(s, m) && Writable(s, at, d) && CanNew(s, n, ItemPair(s, at, d, item, f), m) && Accounted(s, o, k)
    ensures Accounted(WithItem(s, at, d, n, item, f), o, k)
  {
    var c := ItemPair(s, at, d, item, f);
    var e := Enter(s, n, c);
    EnterAccounted(s, n, c, m, o, k);
    EnterKeepsInv(s, n, c, m);
    StillWritable(s, n, c, at, d);
    SlotBooks(e, at, d, n);
    forall x | x in e.chain
      ensures x in e.cells
    {
      assert x in Members(e.chain);
    }
    SameBlocks(e, WithItem(s, at, d, n, item, f), o, k);
  }

  /**
    From a new base on, whatever the program does: the block at any place is held, obtained
    once more than released, exactly while it is that of the base or of an object on the chain.
    So no block is released twice, and each is released where it was obtained.
   */
  lemma {:induction false} BlocksBalance(tr: seq<State>, ops: seq<Op>, m: Flags, i: nat, o: Obj, k: nat)
    requires IsRun(tr, ops, m) && GoodMask(m) && i <= |ops| && Accounted(tr[0], o, k)
    ensures Accounted(tr[i], o, k)
  {
    if i > 0 {
      BlocksBalance(tr, ops, m, i - 1, o, k);
      RunKeepsInv(tr, ops, m, i - 1);
      assert MovesAt(tr, ops, m, i - 1);
      StepAccounted(tr[i - 1], ops[i - 1], tr[i], m, o, k);
    }
  }

  /** The same from a base as x_base_make returns it, whose own block is never released. */
  lemma BlocksOfNewBase(tr: seq<State>, ops: seq<Op>, m: Flags, lay: map<Path, Obj>, given: set<Obj>, c: Config, b: Obj, i: nat, o: Obj, k: nat)
    requires IsTrace(tr, ops, m) && NewBase(tr[0], lay, given, c, b) && GoodMask(m) && i <= |ops|
    ensures Count(tr[i].log, Obtain(o, k)) == Count(tr[i].log, Release(o, k)) + (if Owned(tr[i], o, k) then 1 else 0)
  {
    NewBaseInv(tr[0], lay, given, c, b, m);
    NewBaseAccounted(tr[0], lay, given, c, b, o, k);
    BlocksBalance(tr, ops, m, i, o, k);
  }
}
