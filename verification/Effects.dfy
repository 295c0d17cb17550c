/**
  What every operation changes, field by field, and that nothing else changes. The base is read
  here as the source reads it, object by object.
 */
module Effects {
  import opened Flags
  import opened Graphs
  import opened Objects
  import opened Marking
  import opened Sweeping
  import opened Paths
  import opened States
  import opened Collecting
  import opened Runs
  import opened Accounts

  // ---- What the base says (src/x-obj.c, lines 96-107) ----

  /** The base has a type and a tree. */
  ghost predicate Typed(s: State)
    requires LayoutOk(s)
  {
    s.cells[s.layout[Base]].kind != Untyped && s.cells[s.layout[Base]].first != null
  }

  ghost function Number(s: State, p: Path): int
    requires LayoutOk(s) && p in s.layout
  {
    s.cells[s.layout[p]].num
  }

  ghost function Value(s: State, p: Path): Obj?
    requires LayoutOk(s) && p in s.layout
  {
    s.cells[s.layout[p]].first
  }

  /** The ceiling has been reached. */
  ghost predicate Reached(s: State)
    requires LayoutOk(s)
  {
    Typed(s) && 0 < Number(s, LIMIT_ATOM) <= Number(s, COUNT_ATOM)
  }

  /** There is memory, and on a base that counts no ceiling, or one above the count. */
  ghost predicate Serves(s: State, oom: bool)
    requires LayoutOk(s)
  {
    !oom && (Typed(s) ==> Number(s, LIMIT_ATOM) >= 0 && !Reached(s))
  }

  /** How many units go in front of a header. */
  ghost function Extra(s: State): nat
    requires LayoutOk(s)
  {
    if Typed(s) && Number(s, EXTRA_ATOM) > 0 then Number(s, EXTRA_ATOM) else 0
  }

  /** An object that was there already, after one more has been counted. */
  ghost function Counted(s: State, x: Obj): Cell
    requires LayoutOk(s) && x in s.cells
  {
    if Typed(s) && x == s.layout[COUNT_ATOM] then s.cells[x].(num := s.cells[x].num + 1) else s.cells[x]
  }

  lemma Same(s: State, oom: bool)
    requires LayoutOk(s)
    ensures Full(s) == Typed(s) && ExtraOf(s) == Extra(s)
    ensures Decide(s, oom).Allowed? == Serves(s, oom) && Decide(s, oom).Tripped? == Reached(s)
  {
  }

  // ---- Allocation ----

  /**
    A new object has the type and the data units asked for, in the order given, and its flags,
    with META exactly when extra units precede it. It heads the chain; one block is obtained for
    it; nothing else changes but the count of a typed base.
   */
  lemma NewStores(s: State, o: Obj, c: Cell, reaction: Reaction, t: State, m: Flags)
    requires Moves(s, New(o, c, false, reaction), t, m) && !s.stopped && Serves(s, false)
    ensures o in t.cells && t.cells[o] == Cell(c.kind, c.flags + (if Extra(s) > 0 then {7} else {}), c.first, c.rest, c.num)
    ensures t.cells.Keys == s.cells.Keys + {o} && forall x | x in s.cells :: t.cells[x] == Counted(s, x)
    ensures t.chain == [o] + s.chain && t.roots == s.roots && t.layout == s.layout && !t.stopped
    ensures t.log == s.log + [Obtain(o, Extra(s))] + (if 5 in c.flags then [Adopt(o, c.num)] else [])
  {
    Same(s, false);
    EnterStores(s, o, c, m);
  }

  lemma EnterStores(s: State, o: Obj, c: Cell, m: Flags)
    requires LayoutOk(s) && CanNew(s, o, c, m)
    ensures var t := Enter(s, o, c);
            && o in t.cells && t.cells[o] == Cell(c.kind, c.flags + (if Extra(s) > 0 then {7} else {}), c.first, c.rest, c.num)
            && t.cells.Keys == s.cells.Keys + {o} && (forall x | x in s.cells :: t.cells[x] == Counted(s, x))
            && t.log == s.log + [Obtain(o, Extra(s))] + (if 5 in c.flags then [Adopt(o, c.num)] else [])
  {
    Same(s, false);
    HeaderFlags(s, c);
    assert Enter(s, o, c).log == s.log + ([Obtain(o, Extra(s))] + (if 5 in c.flags then [Adopt(o, c.num)] else []));
  }

  lemma HeaderFlags(s: State, c: Cell)
    requires LayoutOk(s)
    ensures Header(s, c).flags == c.flags + (if Extra(s) > 0 then {7} else {})
    ensures HasAny(Header(s, c).flags, OWN) <==> 5 in c.flags
    ensures HasAny(c.flags, OWN) <==> 5 in c.flags
  {
    Same(s, false);
    HeaderKeepsOwn(c.flags);
    assert c.flags * {5} == if 5 in c.flags then {5} else {};
    assert c.flags + {} == c.flags;
  }

  /** An object is allocated exactly when there is memory and the ceiling of a typed base is off or above the count. */
  lemma ServedExactly(s: State, op: Op, t: State, m: Flags)
    requires Moves(s, op, t, m) && !s.stopped && (op.New? || op.PushField?)
    ensures op.o in t.cells <==> Serves(s, op.oom)
    ensures op.o in t.chain <==> Serves(s, op.oom)
  {
    Same(s, op.oom);
    assert op.o !in Members(s.chain);
    if !Serves(s, op.oom) {
      RefusalObjects(s, op.oom, op.reaction);
    }
  }

  /** What a ceiling just reached makes leave the library: by the message, the hook and what the hook does. */
  function Messages(msg: bool, hook: bool, reaction: Reaction): seq<Event> {
    if !msg then [Exit]
    else if !hook then [Stderr, Exit]
    else
      match reaction
      case Jumps => [ErrorHook]
      case Returns => [ErrorHook, Exit]
      case Allocates(_, _, _, _, _) => [ErrorHook, Stderr, Exit]
  }

  /**
    An allocation that finds the ceiling reached: the limit becomes -1 and nothing else of any
    object changes. The program goes on only if there are a message and a hook, and the hook
    jumps away; a hook that returns, or asks for an object, ends it.
   */
  lemma TripReported(s: State, op: Op, t: State, m: Flags)
    requires Moves(s, op, t, m) && !s.stopped && (op.New? || op.PushField?) && Reached(s)
    ensures var limit := s.layout[LIMIT_ATOM]; t.cells == s.cells[limit := s.cells[limit].(num := -1)]
    ensures t.chain == s.chain && t.roots == s.roots && t.layout == s.layout
    ensures t.log == s.log + Messages(Value(s, ALLOC_ERROR) != null, Value(s, HOOK_ERROR) != null, op.reaction)
    ensures t.stopped <==> Value(s, ALLOC_ERROR) == null || Value(s, HOOK_ERROR) == null || op.reaction != Jumps
  {
    Same(s, op.oom);
    RefusalObjects(s, op.oom, op.reaction);
    var u := SetNum(s, LIMIT_ATOM, -1);
    assert !Meet(s, Base, LIMIT_ATOM);
    LatchDown(s);
    ValuesKept(s);
    Reporting(u, op.reaction);
    assert t == Reported(u, op.reaction);
  }

  /** Setting the latch leaves message and hook as they were. */
  lemma ValuesKept(s: State)
    requires LayoutOk(s)
    ensures var u := SetNum(s, LIMIT_ATOM, -1);
            Current(u, ALLOC_ERROR) == Value(s, ALLOC_ERROR) && Current(u, HOOK_ERROR) == Value(s, HOOK_ERROR)
  {
  }

  lemma Reporting(u: State, reaction: Reaction)
    requires Full(u) && LimitOf(u) < 0
    ensures Reported(u, reaction).log == u.log + Messages(Current(u, ALLOC_ERROR) != null, Current(u, HOOK_ERROR) != null, reaction)
    ensures Reported(u, reaction).stopped <==>
              u.stopped || Current(u, ALLOC_ERROR) == null || Current(u, HOOK_ERROR) == null || reaction != Jumps
  {
    if Current(u, ALLOC_ERROR) == null || Current(u, HOOK_ERROR) == null {
      assert Reported(u, reaction) == Halt(u);
      HaltLog(u);
    } else {
      var v := u.(log := u.log + [ErrorHook]);
      assert Reported(u, reaction) == Hook(v, reaction);
      HookLog(v, reaction);
      Regroup(u.log, reaction);
    }
  }

  lemma HaltLog(s: State)
    ensures Halt(s).log == s.log + if Current(s, ALLOC_ERROR) == null then [Exit] else [Stderr, Exit]
  {
    assert [Stderr] + [Exit] == [Stderr, Exit];
    assert s.log + [] + [Exit] == s.log + [Exit];
  }

  /** What is left to report once the hook has been entered. */
  function HookMessages(reaction: Reaction): seq<Event> {
    match reaction
    case Jumps => []
    case Returns => [Exit]
    case Allocates(_, _, _, _, _) => [Stderr, Exit]
  }

  lemma HookLog(v: State, reaction: Reaction)
    requires Full(v) && LimitOf(v) < 0 && Current(v, ALLOC_ERROR) != null
    ensures Hook(v, reaction).log == v.log + HookMessages(reaction)
    ensures Hook(v, reaction).stopped <==> v.stopped || reaction != Jumps
  {
    HookStopsAtLatch(v, reaction);
    HaltLog(v);
  }

  lemma Regroup(log: seq<Event>, reaction: Reaction)
    ensures log + [ErrorHook] + HookMessages(reaction) == log + Messages(true, true, reaction)
  {
  }

  /**
    The other refusals, under the latch or without memory: on a typed base the message goes to
    standard error, if there is one, the hook is not entered and the program ends; on any other
    base nothing happens at all. No object changes.
   */
  lemma RefusalReported(s: State, op: Op, t: State, m: Flags)
    requires Moves(s, op, t, m) && !s.stopped && (op.New? || op.PushField?) && !Serves(s, op.oom) && !Reached(s)
    ensures !Typed(s) ==> t == s
    ensures Typed(s) ==>
              t == s.(log := s.log + (if Value(s, ALLOC_ERROR) != null then [Stderr, Exit] else [Exit]), stopped := true)
  {
    Same(s, op.oom);
    HaltLog(s);
    assert t == Refuse(s, op.oom, op.reaction);
  }

  // ---- Assignments, pushes and pops of data units ----

  /** A data unit of an object. */
  function Unit(c: Cell, d: Slot): Obj? {
    match d
    case FirstSlot => c.first
    case RestSlot => c.rest
  }

  /** The same object but for one data unit, which holds "v". */
  predicate Holds(c: Cell, d: Slot, v: Obj?, e: Cell) {
    match d
    case FirstSlot => e == Cell(c.kind, c.flags, v, c.rest, c.num)
    case RestSlot => e == Cell(c.kind, c.flags, c.first, v, c.num)
  }

  /** An assignment stores its value in its own data unit and changes nothing else. */
  lemma SlotStores(s: State, o: Obj, d: Slot, v: Obj?, t: State, m: Flags)
    requires Moves(s, SetSlot(o, d, v), t, m) && !s.stopped
    ensures o in s.cells && o in t.cells && Holds(s.cells[o], d, v, t.cells[o])
    ensures t.cells.Keys == s.cells.Keys && forall x | x in s.cells && x != o :: t.cells[x] == s.cells[x]
    ensures t.chain == s.chain && t.roots == s.roots && t.layout == s.layout && t.stopped == s.stopped && t.log == s.log
  {
  }

  /**
    A push puts a new pair, with the flags asked for, of the item and what the data unit held,
    into the data unit; nothing else changes but the count of a typed base.
   */
  lemma PushStores(s: State, at: Obj, d: Slot, o: Obj, item: Obj?, f: Flags, reaction: Reaction, t: State, m: Flags)
    requires Moves(s, PushField(at, d, o, item, f, false, reaction), t, m) && !s.stopped && Serves(s, false)
    ensures at in s.cells && at in t.cells && o in t.cells && at != o
    ensures t.cells[o] == Cell(PairType, f + (if Extra(s) > 0 then {7} else {}), item, Unit(s.cells[at], d), 0)
    ensures Holds(s.cells[at], d, o, t.cells[at])
    ensures t.cells.Keys == s.cells.Keys + {o} && forall x | x in s.cells && x != at :: t.cells[x] == Counted(s, x)
    ensures t.chain == [o] + s.chain && t.roots == s.roots && t.layout == s.layout && !t.stopped
    ensures t.log == s.log + [Obtain(o, Extra(s))]
  {
    var c := ItemPair(s, at, d, item, f);
    Same(s, false);
    HeaderFlags(s, c);
    PushFieldStep(s, at, d, o, item, f, false, reaction, m);
    assert !HasAny(c.flags, OWN);
    EnterStores(s, o, c, m);
  }

  /**
    After a push the pop is permitted: it finds the item, and it gives the data unit its old
    value back. Of the push only the new pair, in front of the chain, and the count are left.
   */
  lemma PopGivesBack(s: State, at: Obj, d: Slot, o: Obj, item: Obj?, f: Flags, reaction: Reaction, t: State, m: Flags)
    requires Inv(s, m) && Moves(s, PushField(at, d, o, item, f, false, reaction), t, m) && !s.stopped && Serves(s, false)
    ensures at in t.cells && Unit(t.cells[at], d) == o && o in t.cells && t.cells[o].first == item
    ensures ChainsOk(t) && Enabled(t, SetSlot(at, d, t.cells[o].rest), m)
    ensures var u := Step(t, SetSlot(at, d, t.cells[o].rest), m);
            && u.cells.Keys == s.cells.Keys + {o}
            && at in s.cells && u.cells[at] == s.cells[at] && (forall x | x in s.cells && x != at :: u.cells[x] == Counted(s, x))
            && u == t.(cells := u.cells) && u.chain == [o] + s.chain
  {
    PushStores(s, at, d, o, item, f, reaction, t, m);
    PopPermitted(s, at, d, o, item, f, reaction, t, m);
    var v := t.cells[o].rest;
    SlotStores(t, at, d, v, Step(t, SetSlot(at, d, v), m), m);
  }

  lemma PopPermitted(s: State, at: Obj, d: Slot, o: Obj, item: Obj?, f: Flags, reaction: Reaction, t: State, m: Flags)
    requires Inv(s, m) && Moves(s, PushField(at, d, o, item, f, false, reaction), t, m) && !s.stopped && Serves(s, false)
    ensures LayoutOk(t) && ChainsOk(t) && o in t.cells && Enabled(t, SetSlot(at, d, t.cells[o].rest), m)
  {
    var c := ItemPair(s, at, d, item, f);
    Same(s, false);
    PushFieldStep(s, at, d, o, item, f, false, reaction, m);
    PushFieldKeepsInv(s, at, d, o, item, f, m);
    StillWritable(s, o, c, at, d);
    assert t.cells[o].rest == c.rest && Children(c) == Only(c.first) + Only(c.rest);
    assert Writable(t, at, d) by {
      StillOpen(s, at, d, o, c, t);
    }
  }

  lemma StillOpen(s: State, at: Obj, d: Slot, o: Obj, c: Cell, t: State)
    requires LayoutOk(s) && Writable(s, at, d) && o !in s.cells && t == SetUnit(Enter(s, o, c), at, d, o)
    ensures Writable(t, at, d)
  {
    forall p {:trigger Sits(t, p, at)} | Sits(t, p, at)
      ensures (if d.FirstSlot? then First(p) else Rest(p)) !in t.layout
    {
      assert Sits(s, p, at);
    }
  }

  /**
    A push onto the current value of a field of the base stores the new pair there, and leaves
    everything else an accessor path leads to as it was, apart from the count.
   */
  lemma PushKeepsFields(s: State, field: Path, o: Obj, item: Obj?, f: Flags, reaction: Reaction, t: State, m: Flags, p: Path)
    requires field in s.layout && p in s.layout
    requires Moves(s, PushField(s.layout[field], FirstSlot, o, item, f, false, reaction), t, m) && !s.stopped && Serves(s, false)
    ensures p in t.layout && s.layout[p] in s.cells && t.layout[p] in t.cells
    ensures var c := s.cells[s.layout[p]];
            t.cells[t.layout[p]] ==
              if p == field then c.(first := o)
              else if p == COUNT_ATOM && Typed(s) then c.(num := c.num + 1)
              else c
  {
    PushStores(s, s.layout[field], FirstSlot, o, item, f, reaction, t, m);
    assert p != field ==> !Meet(s, p, field);
    assert p != COUNT_ATOM ==> !Meet(s, p, COUNT_ATOM);
  }

  // ---- The other operations ----

  /** The operations on the root chain move it as said, store its new head in the one field that heads it, and change nothing else. */
  lemma RootsStore(s: State, op: Op, t: State, m: Flags)
    requires Moves(s, op, t, m) && !s.stopped && (op.Push? || op.Pop? || op.Restore?)
    ensures op.Push? ==> t.roots == [op.o] + s.roots
    ensures op.Pop? ==> s.roots == [s.roots[0]] + t.roots
    ensures op.Restore? ==> |t.roots| == |s.roots| - op.drop && s.roots == s.roots[..op.drop] + t.roots
    ensures var field := s.layout[HEAP_ROOT_CHAIN];
            t.cells == s.cells[field := s.cells[field].(first := if t.roots == [] then null else t.roots[0])]
    ensures t.chain == s.chain && t.layout == s.layout && t.stopped == s.stopped && t.log == s.log
  {
  }

  /** Typing the base, arming the ceiling and initializing an object outside the chains change just that one object. */
  lemma OthersStore(s: State, op: Op, t: State, m: Flags)
    requires Moves(s, op, t, m) && !s.stopped && (op.TypeBase? || op.Arm? || op.Place?)
    ensures t == s.(cells := t.cells)
    ensures match op
            case TypeBase(kind) => var b := s.layout[Base]; t.cells == s.cells[b := s.cells[b].(kind := kind)]
            case Arm(limit) => var atom := s.layout[LIMIT_ATOM]; t.cells == s.cells[atom := s.cells[atom].(num := limit)]
            case Place(o, c) => t.cells == s.cells[o := c]
            case _ => true
  {
  }

  // ---- Collection ----

  /** What a collection starts from is reachable, and with each pair its first and its rest. */
  lemma ReachableSpreads(s: State, o: Obj)
    requires LayoutOk(s) && o in s.cells
    ensures o in s.roots || o == s.layout[X_BASE] ==> o in Reachable(s)
    ensures o in Reachable(s) && s.cells[o].kind == PairType ==>
              && (s.cells[o].first != null && s.cells[o].first in s.cells ==> s.cells[o].first in Reachable(s))
              && (s.cells[o].rest != null && s.cells[o].rest in s.cells ==> s.cells[o].rest in Reachable(s))
  {
    ReachAbsorbs(Edges(s.cells), s.cells.Keys, Members(s.roots) + Only(At(s, X_BASE)));
    if o in Reachable(s) && s.cells[o].kind == PairType {
      assert Edges(s.cells)[o] == Only(s.cells[o].first) + Only(s.cells[o].rest);
    }
  }

  /** Nothing else is reachable: any set that holds all that holds all of it. */
  lemma ReachableLeast(s: State, r: set<Obj>)
    requires LayoutOk(s) && s.layout[X_BASE] in r && forall o | o in s.roots :: o in r
    requires forall o | o in r && o in s.cells && s.cells[o].kind == PairType ::
               (s.cells[o].first == null || s.cells[o].first in r) && (s.cells[o].rest == null || s.cells[o].rest in r)
    ensures Reachable(s) <= r
  {
    var from := Members(s.roots) + Only(At(s, X_BASE));
    assert Absorbs(Edges(s.cells), s.cells.Keys, from, r);
    ReachLeast(Edges(s.cells), s.cells.Keys, from, r);
  }

  /** A collection leaves on the chain the objects that are reachable or flagged SHARED, and frees the others. */
  lemma CollectLeaves(s: State, t: State, m: Flags, o: Obj)
    requires Inv(s, m) && Moves(s, Collect, t, m) && GoodMask(m) && !s.stopped && o in s.cells
    ensures o in t.chain <==> o in s.chain && (8 in s.cells[o].flags || o in Reachable(s))
    ensures o in t.cells <==> o in t.chain || o !in s.chain
    ensures t.cells.Keys <= s.cells.Keys && t.roots == s.roots && t.layout == s.layout && !t.stopped
  {
    CollectPermitted(s, t, m);
    CollectSteps(s, t, m);
    LeftOnChain(s, m, o);
  }

  lemma LeftOnChain(s: State, m: Flags, o: Obj)
    requires Inv(s, m) && Registered(s) && GoodMask(m) && o in s.cells
    ensures var t := Collected(s, m);
            && (o in t.chain <==> o in s.chain && (8 in s.cells[o].flags || o in Reachable(s)))
            && (o in t.cells <==> o in t.chain || o !in s.chain)
            && t.cells.Keys <= s.cells.Keys
  {
    CollectExact(s, m);
    CollectChain(s, m);
    LeftOver(s, Collected(s, m), o);
  }

  lemma LeftOver(s: State, t: State, o: Obj)
    requires o in s.cells && t.cells.Keys == s.cells.Keys - Garbage(s) && Members(t.chain) == Members(s.chain) - Garbage(s)
    ensures o in t.chain <==> o in s.chain && (8 in s.cells[o].flags || o in Reachable(s))
    ensures o in t.cells <==> o in t.chain || o !in s.chain
  {
    var f := s.cells[o].flags;
    assert f * {8} == if 8 in f then {8} else {};
    assert o in Members(t.chain) <==> o in t.chain;
  }

  /**
    What a collection leaves has its type and its data, and its flag word: on the chain all of
    it, elsewhere all but mark bits. Of the numbers only the count of a typed base changes, by
    as many nodes as the chain has lost.
   */
  lemma CollectKeeps(s: State, t: State, m: Flags, o: Obj)
    requires Inv(s, m) && Moves(s, Collect, t, m) && GoodMask(m) && !s.stopped && o in s.cells && o in t.cells
    ensures t.cells[o].kind == s.cells[o].kind && t.cells[o].first == s.cells[o].first && t.cells[o].rest == s.cells[o].rest
    ensures t.cells[o].flags - m == s.cells[o].flags - m && (o in s.chain ==> t.cells[o].flags == s.cells[o].flags)
    ensures t.cells[o].num == s.cells[o].num - if Typed(s) && o == s.layout[COUNT_ATOM] then |s.chain| - |t.chain| else 0
  {
    CollectPermitted(s, t, m);
    CollectSteps(s, t, m);
    CollectData(s, t, m, o);
    CollectNumber(s, t, m, o);
    CollectFlags(s, t, m, o);
  }

  lemma CollectData(s: State, t: State, m: Flags, o: Obj)
    requires Inv(s, m) && Registered(s) && GoodMask(m) && t == Collected(s, m) && o in t.cells
    ensures o in s.cells
    ensures t.cells[o].kind == s.cells[o].kind && t.cells[o].first == s.cells[o].first && t.cells[o].rest == s.cells[o].rest
    ensures o in s.chain ==> t.cells[o].flags == s.cells[o].flags
  {
    CollectExact(s, m);
    assert Unchanged(s.cells, t.cells, o, s.chain);
  }

  lemma CollectPermitted(s: State, t: State, m: Flags)
    requires Moves(s, Collect, t, m)
    ensures Registered(s)
  {
    assert Ready(s);
  }

  lemma CollectSteps(s: State, t: State, m: Flags)
    requires Moves(s, Collect, t, m) && !s.stopped
    ensures t == Collected(s, m)
  {
    CollectStep(s, m);
  }

  lemma CollectNumber(s: State, t: State, m: Flags, o: Obj)
    requires Inv(s, m) && Registered(s) && GoodMask(m) && t == Collected(s, m) && o in s.cells && o in t.cells
    ensures t.cells[o].num == s.cells[o].num - if Typed(s) && o == s.layout[COUNT_ATOM] then |s.chain| - |t.chain| else 0
  {
    Same(s, false);
    if o == s.layout[COUNT_ATOM] && Full(s) {
      CollectCounts(s, m);
    } else {
      OtherNumber(s, m, o);
    }
  }

  lemma OtherNumber(s: State, m: Flags, o: Obj)
    requires Inv(s, m) && Registered(s) && GoodMask(m) && o in s.cells && o in Collected(s, m).cells
    requires Full(s) ==> o != s.layout[COUNT_ATOM]
    ensures Collected(s, m).cells[o].num == s.cells[o].num
  {
    var k := MarkOutcome(s, m);
    assert o in SweepOutcome(k, s.chain, m, CounterOf(s));
  }

  lemma CollectFlags(s: State, t: State, m: Flags, o: Obj)
    requires Inv(s, m) && Registered(s) && GoodMask(m) && t == Collected(s, m) && o in s.cells && o in t.cells
    ensures t.cells[o].flags - m == s.cells[o].flags - m
  {
    var k := Mark(s, m).cells;
    CollectedCells(s, m);
    MarkBits(s, m, o);
    assert o in SweepOutcome(k, s.chain, m, CounterOf(s));
    assert (k[o].flags - m) - m == k[o].flags - m;
  }

  /** Marking changes no other bit. */
  lemma MarkBits(s: State, m: Flags, o: Obj)
    requires o in s.cells
    ensures o in Mark(s, m).cells && Mark(s, m).cells[o].flags - m == s.cells[o].flags - m
  {
    var roots := Members(s.roots);
    var a := Wash(s.cells, roots, m);
    WashClears(s.cells, roots, m, o);
    MarkSpreads(a, roots, m, o);
    MarkSpreads(MarkFrom(a, roots, m), Only(At(s, X_BASE)), m, o);
    var f := s.cells[o].flags;
    assert (f - m) - m == f - m && (f + m) - m == f - m && ((f - m) + m) - m == f - m;
    assert ((f + m) + m) - m == f - m && (((f - m) + m) + m) - m == f - m;
  }

  /**
    In every state of a run an object on either chain is there, is on one chain only, and points
    at nothing that was freed; on the allocation chain it carries none of the mark bits.
   */
  lemma RunPointsAtLive(tr: seq<State>, ops: seq<Op>, m: Flags, i: nat, o: Obj)
    requires IsRun(tr, ops, m) && GoodMask(m) && i <= |ops| && (o in tr[i].chain || o in tr[i].roots)
    ensures var s := tr[i];
            && o in s.cells && (o in s.chain ==> o !in s.roots && s.cells[o].flags !! m)
            && (s.cells[o].kind == PairType ==>
                  (s.cells[o].first != null ==> s.cells[o].first in s.cells) && (s.cells[o].rest != null ==> s.cells[o].rest in s.cells))
  {
    var s := tr[i];
    RunKeepsInv(tr, ops, m, i);
    assert o in Members(s.chain) || o in Members(s.roots);
    assert PointsAtLive(s, o);
    if o in s.chain {
      assert CleanAt(s, o, m) && o !in Members(s.roots);
      assert forall b | b in s.cells[o].flags && b in m :: b in s.cells[o].flags * m;
    }
  }
}
