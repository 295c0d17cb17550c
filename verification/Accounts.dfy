/** The allocated-object count and the allocation ceiling over whole runs (src/x-obj.c, lines 88-197 and 265-296). */
module Accounts {
  import opened Flags
  import opened Objects
  import opened Sweeping
  import opened Paths
  import opened States
  import opened Collecting
  import opened Runs
  import opened BaseTree

  /** The base objects the accounting reads are the same and the numbers are as given. */
  ghost predicate Books(s: State, t: State, count: int, limit: int) {
    && t.layout == s.layout
    && (Full(t) <==> Full(s))
    && CountOf(t) == count
    && LimitOf(t) == limit
    && ExtraNum(t) == ExtraNum(s)
  }

  lemma AtomsApart(s: State)
    requires LayoutOk(s)
    ensures s.layout[COUNT_ATOM] != s.layout[LIMIT_ATOM]
    ensures s.layout[EXTRA_ATOM] != s.layout[COUNT_ATOM] && s.layout[EXTRA_ATOM] != s.layout[LIMIT_ATOM]
    ensures s.layout[Base] != s.layout[COUNT_ATOM] && s.layout[Base] != s.layout[LIMIT_ATOM]
    ensures forall l {:trigger ListField(l)} :: s.layout[ListField(l)] != s.layout[Base]
    ensures s.layout[HEAP_ROOT_CHAIN] != s.layout[Base]
  {
    assert !Meet(s, COUNT_ATOM, LIMIT_ATOM) && !Meet(s, COUNT_ATOM, EXTRA_ATOM) && !Meet(s, LIMIT_ATOM, EXTRA_ATOM);
    assert !Meet(s, Base, COUNT_ATOM);
    assert !Meet(s, Base, LIMIT_ATOM);
    assert forall l {:trigger ListField(l)} :: !Meet(s, Base, ListField(l));
    assert !Meet(s, Base, HEAP_ROOT_CHAIN);
  }

  lemma EnterBooks(s: State, o: Obj, c: Cell)
    requires LayoutOk(s) && o !in s.cells
    ensures Books(s, Enter(s, o, c), CountOf(s) + (if Full(s) then 1 else 0), LimitOf(s))
  {
    AtomsApart(s);
  }

  lemma SetFirstBooks(s: State, o: Obj, v: Obj?)
    requires LayoutOk(s) && o in s.cells && o != s.layout[Base]
    ensures Books(s, SetFirst(s, o, v), CountOf(s), LimitOf(s))
  {
  }

  lemma RefusalBooks(s: State, o: Obj, c: Cell, oom: bool, reaction: Reaction)
    requires LayoutOk(s) && !Decide(s, oom).Allowed?
    ensures Books(s, Alloc(s, o, c, oom, reaction), CountOf(s), if Decide(s, oom).Tripped? then -1 else LimitOf(s))
  {
    var t := Alloc(s, o, c, oom, reaction);
    LatchBooks(s, -1);
    RefusalObjects(s, oom, reaction);
    if Decide(s, oom).Tripped? {
      BooksByCells(s, SetNum(s, LIMIT_ATOM, -1), t, CountOf(s), -1);
    } else {
      BooksByCells(s, s, t, CountOf(s), LimitOf(s));
    }
  }

  lemma LatchBooks(s: State, n: int)
    requires LayoutOk(s)
    ensures Books(s, SetNum(s, LIMIT_ATOM, n), CountOf(s), n)
  {
    AtomsApart(s);
  }

  lemma BooksByCells(s: State, t: State, u: State, count: int, limit: int)
    requires Books(s, t, count, limit) && u.cells == t.cells && u.layout == t.layout
    ensures Books(s, u, count, limit)
  {
  }

  lemma PushFieldBooks(s: State, at: Obj, d: Slot, o: Obj, item: Obj?, f: Flags)
    requires LayoutOk(s) && o !in s.cells && Writable(s, at, d)
    ensures Books(s, WithItem(s, at, d, o, item, f), CountOf(s) + (if Full(s) then 1 else 0), LimitOf(s))
  {
    var c := ItemPair(s, at, d, item, f);
    EnterBooks(s, o, c);
    EnterKeepsLayout(s, o, c);
    StillWritable(s, o, c, at, d);
    SlotBooks(Enter(s, o, c), at, d, o);
  }

  lemma SlotBooks(s: State, o: Obj, d: Slot, v: Obj?)
    requires LayoutOk(s) && o in s.cells && !Protected(s, o, d)
    ensures Books(s, SetUnit(s, o, d, v), CountOf(s), LimitOf(s))
  {
    assert o == s.layout[Base] ==> Sits(s, Base, o);
  }

  lemma TypeBooks(s: State, kind: Kind)
    requires LayoutOk(s) && !kind.Untyped? && Full(s)
    ensures Books(s, WithKind(s, At(s, Base), kind), CountOf(s), LimitOf(s))
  {
    AtomsApart(s);
  }

  lemma PlaceBooks(s: State, o: Obj, c: Cell)
    requires LayoutOk(s) && o !in s.chain && o != At(s, Base)
    ensures Books(s, s.(cells := s.cells[o := c]), CountOf(s), LimitOf(s))
  {
    assert LinkOk(s, COUNT_ATOM) && LinkOk(s, LIMIT_ATOM) && LinkOk(s, EXTRA_ATOM);
  }

  lemma CollectBooks(s: State, m: Flags)
    requires Inv(s, m) && Registered(s) && GoodMask(m) && Full(s)
    ensures Books(s, Collected(s, m), CountOf(s) - (|s.chain| - |Collected(s, m).chain|), LimitOf(s))
  {
    CollectCounts(s, m);
    CollectExact(s, m);
    CollectKeepsNumber(s, m, LIMIT_ATOM);
    CollectKeepsNumber(s, m, EXTRA_ATOM);
    LayoutNotGarbage(s, Base);
    assert Unchanged(s.cells, Collected(s, m).cells, s.layout[Base], s.chain);
  }

  function CountAfter(s: int, d: Decision): int {
    if d.Allowed? then s + 1 else s
  }

  /** How one operation moves the count, the ceiling and the length of the chain of a full base. */
  lemma StepBooks(s: State, op: Op, m: Flags)
    requires Inv(s, m) && Enabled(s, op, m) && GoodMask(m) && Full(s) && !s.stopped
    ensures var t := Step(s, op, m);
            && Full(t)
            && CountOf(t) - CountOf(s) == |t.chain| - |s.chain|
            && ExtraNum(t) == ExtraNum(s)
            && (match op
                case New(_, _, oom, _) =>
                  && |t.chain| == CountAfter(|s.chain|, Decide(s, oom))
                  && LimitOf(t) == (if Decide(s, oom).Tripped? then -1 else LimitOf(s))
                case PushField(_, _, _, _, _, oom, _) =>
                  && |t.chain| == CountAfter(|s.chain|, Decide(s, oom))
                  && LimitOf(t) == (if Decide(s, oom).Tripped? then -1 else LimitOf(s))
                case Arm(limit) => t.chain == s.chain && LimitOf(t) == limit
                case Collect => |t.chain| <= |s.chain| && LimitOf(t) == LimitOf(s)
                case _ => t.chain == s.chain && LimitOf(t) == LimitOf(s))
  {
    match op
    case New(o, c, oom, reaction) =>
      if Decide(s, oom).Allowed? {
        EnterBooks(s, o, c);
      } else {
        RefusalBooks(s, o, c, oom, reaction);
        RefusalObjects(s, oom, reaction);
      }
    case Place(o, c) => PlaceBooks(s, o, c);
    case TypeBase(kind) => TypeBooks(s, kind);
    case SetSlot(o, d, v) => SlotBooks(s, o, d, v);
    case Push(o) => RootsBooks(s, [o] + s.roots);
    case Pop => RootsBooks(s, s.roots[1..]);
    case Restore(k) => RootsBooks(s, s.roots[k..]);
    case Arm(limit) => LatchBooks(s, limit);
    case PushField(at, d, o, item, f, oom, reaction) =>
      if Decide(s, oom).Allowed? {
        PushFieldBooks(s, at, d, o, item, f);
      } else {
        RefusalBooks(s, o, ItemPair(s, at, d, item, f), oom, reaction);
        RefusalObjects(s, oom, reaction);
      }
    case Collect => CollectBooks(s, m); CollectShrinks(s, m);
  }

  lemma RootsBooks(s: State, q: seq<Obj>)
    requires LayoutOk(s)
    ensures Books(s, SetRoots(s, q), CountOf(s), LimitOf(s)) && SetRoots(s, q).chain == s.chain
  {
    AtomsApart(s);
    SetFirstBooks(s, s.layout[HEAP_ROOT_CHAIN], Head(q));
  }

  lemma {:induction false} SurvivorsShrink(cs: Cells, q: seq<Obj>, m: Flags)
    requires Members(q) <= cs.Keys
    ensures |Survivors(cs, q, m)| <= |q|
  {
    if q != [] {
      SurvivorsShrink(cs, q[..|q| - 1], m);
    }
  }

  lemma CollectShrinks(s: State, m: Flags)
    requires ChainsOk(s)
    ensures |Collected(s, m).chain| <= |s.chain|
  {
    SurvivorsShrink(Mark(s, m).cells, s.chain, m);
  }

  // ---- The count ----

  /**
    With a full base the allocated-object count is always the length of the allocation chain
    less its length when counting began, whatever is allocated, refused, collected or rearranged.
   */
  lemma {:induction false} CountIsChainLength(tr: seq<State>, ops: seq<Op>, m: Flags, began: int, i: nat)
    requires IsRun(tr, ops, m) && GoodMask(m) && i <= |ops|
    requires Full(tr[0]) && CountOf(tr[0]) == |tr[0].chain| - began
    ensures Full(tr[i]) && CountOf(tr[i]) == |tr[i].chain| - began
  {
    if i > 0 {
      CountIsChainLength(tr, ops, m, began, i - 1);
      RunKeepsInv(tr, ops, m, i - 1);
      assert MovesAt(tr, ops, m, i - 1);
      CountMoves(tr[i - 1], ops[i - 1], tr[i], m);
    }
  }

  lemma CountMoves(s: State, op: Op, t: State, m: Flags)
    requires Inv(s, m) && Moves(s, op, t, m) && GoodMask(m) && Full(s)
    ensures Full(t) && CountOf(t) - CountOf(s) == |t.chain| - |s.chain|
  {
    if !s.stopped {
      StepBooks(s, op, m);
    }
  }

  lemma SharedStays(s: State, op: Op, t: State, m: Flags, o: Obj)
    requires Inv(s, m) && Moves(s, op, t, m) && GoodMask(m) && o in SharedOnChain(s)
    ensures o in SharedOnChain(t)
  {
    if !op.Collect? {
      ChainStays(s, op, t, m, o);
    } else if !s.stopped {
      CollectExact(s, m);
      CollectChain(s, m);
      assert o in Members(t.chain) && Unchanged(s.cells, t.cells, o, s.chain);
    }
  }

  lemma {:induction false} SharedNeverFreed(tr: seq<State>, ops: seq<Op>, m: Flags, i: nat)
    requires IsRun(tr, ops, m) && GoodMask(m) && i <= |ops|
    ensures SharedOnChain(tr[0]) <= SharedOnChain(tr[i])
  {
    if i > 0 {
      SharedNeverFreed(tr, ops, m, i - 1);
      RunKeepsInv(tr, ops, m, i - 1);
      assert MovesAt(tr, ops, m, i - 1);
      forall o | o in SharedOnChain(tr[i - 1])
        ensures o in SharedOnChain(tr[i])
      {
        SharedStays(tr[i - 1], ops[i - 1], tr[i], m, o);
      }
    }
  }

  lemma {:induction false} DistinctCount(q: seq<Obj>)
    requires Distinct(q)
    ensures |Members(q)| == |q|
  {
    if q != [] {
      var k := |q| - 1;
      DistinctCount(q[..k]);
      assert q == q[..k] + [q[k]];
      assert Members(q) == Members(q[..k]) + {q[k]};
    } else {
      assert Members(q) == {};
    }
  }

  /**
    The count is the number of objects on the chain that were allocated since counting began,
    less the number of earlier ones freed since; so it is the former exactly if no earlier
    object has been freed, which is so when they were all SHARED.
   */
  lemma CountIsNewObjects(tr: seq<State>, ops: seq<Op>, m: Flags, i: nat)
    requires IsRun(tr, ops, m) && GoodMask(m) && i <= |ops|
    requires Full(tr[0]) && CountOf(tr[0]) == 0
    ensures var was, now := Members(tr[0].chain), Members(tr[i].chain);
            && CountOf(tr[i]) == |now - was| - |was - now|
            && (CountOf(tr[i]) == |now - was| <==> was <= now)
            && (was <= SharedOnChain(tr[0]) ==> was <= now)
  {
    var was, now := Members(tr[0].chain), Members(tr[i].chain);
    CountIsChainLength(tr, ops, m, |tr[0].chain|, i);
    SharedNeverFreed(tr, ops, m, i);
    RunKeepsInv(tr, ops, m, i);
    DistinctCount(tr[0].chain);
    DistinctCount(tr[i].chain);
    Sizes(was, now);
  }

  lemma Sizes(was: set<Obj>, now: set<Obj>)
    ensures |now| - |was| == |now - was| - |was - now|
    ensures |was - now| == 0 <==> was <= now
  {
    assert now == now * was + (now - was) && was == now * was + (was - now);
    assert was - now == {} ==> forall o | o in was :: o in now || o in was - now;
  }

  /** Typing the base x_base_make returned starts the count at zero with nothing but SHARED objects on the chain. */
  lemma TypingStartsCount(s: State, lay: map<Path, Obj>, given: set<Obj>, c: Config, b: Obj, kind: Kind, m: Flags)
    requires NewBase(s, lay, given, c, b) && GoodMask(m) && Enabled(s, TypeBase(kind), m)
    ensures !Full(s) && Inv(s, m)
    ensures var t := Step(s, TypeBase(kind), m);
            && Full(t) && CountOf(t) == 0 && LimitOf(t) == 0
            && t.chain == s.chain && Members(t.chain) <= SharedOnChain(t)
  {
    NewBaseInv(s, lay, given, c, b, m);
    NewPlaces(s, lay, given, c, b);
    AtomsApart(s);
    NewOwners(s, lay, given, c, b);
    assert SHARED * SHARED == SHARED && 8 in SHARED;
  }

  // ---- The ceiling ----

  ghost predicate UnderCeiling(s: State) {
    LimitOf(s) > 0 ==> CountOf(s) <= LimitOf(s)
  }

  /** Arming sets a ceiling at or above the current count, or disarms. */
  ghost predicate ArmsFairly(s: State, op: Op) {
    op.Arm? && op.limit > 0 ==> CountOf(s) <= op.limit
  }

  /** While every ceiling is armed at or above the count, the count never exceeds the ceiling. */
  lemma {:induction false} CountNeverExceedsCeiling(tr: seq<State>, ops: seq<Op>, m: Flags, i: nat)
    requires IsRun(tr, ops, m) && GoodMask(m) && i <= |ops|
    requires Full(tr[0]) && UnderCeiling(tr[0])
    requires forall j | 0 <= j < i :: ArmsFairly(tr[j], ops[j])
    ensures Full(tr[i]) && UnderCeiling(tr[i])
  {
    if i > 0 {
      CountNeverExceedsCeiling(tr, ops, m, i - 1);
      RunKeepsInv(tr, ops, m, i - 1);
      assert MovesAt(tr, ops, m, i - 1);
      CeilingMoves(tr[i - 1], ops[i - 1], tr[i], m);
    }
  }

  lemma CeilingMoves(s: State, op: Op, t: State, m: Flags)
    requires Inv(s, m) && Moves(s, op, t, m) && GoodMask(m) && Full(s) && UnderCeiling(s) && ArmsFairly(s, op)
    ensures Full(t) && UnderCeiling(t)
  {
    if !s.stopped {
      StepBooks(s, op, m);
    }
  }

  /** How often the error hook has been entered, plus one while the latch is still up. */
  ghost function HookBudget(s: State): nat {
    Count(s.log, ErrorHook) + (if LimitOf(s) < 0 then 0 else 1)
  }

  lemma HaltEntersNoHook(s: State)
    ensures Count(Halt(s).log, ErrorHook) == Count(s.log, ErrorHook)
  {
    var more := (if Current(s, ALLOC_ERROR) != null then [Stderr] else []) + [Exit];
    assert Halt(s).log == s.log + more;
    CountPlus(s.log, more, ErrorHook);
  }

  /** Inside the hook the latch is down, so whatever the hook asks of the allocator ends the program there. */
  lemma HookStopsAtLatch(s: State, reaction: Reaction)
    requires Full(s) && LimitOf(s) < 0
    ensures reaction.Allocates? ==> Hook(s, reaction) == Halt(s)
    ensures Count(Hook(s, reaction).log, ErrorHook) == Count(s.log, ErrorHook)
  {
    if reaction.Allocates? {
      LatchedRefusesAll(s, reaction.o, reaction.c, reaction.oom, reaction.inner);
      HaltEntersNoHook(s);
    }
    CountPlus(s.log, [Exit], ErrorHook);
  }

  /** All that a refusal does to the outside is report and stop. */
  lemma RefusalReports(s: State, oom: bool, reaction: Reaction) returns (more: seq<Event>)
    requires LayoutOk(s) && !Decide(s, oom).Allowed?
    ensures Refuse(s, oom, reaction).log == s.log + more
    ensures forall e | e in more :: Subject(e) == null
  {
    if Decide(s, oom).Tripped? {
      var t := SetNum(s, LIMIT_ATOM, -1);
      assert !Meet(s, Base, LIMIT_ATOM);
      LatchDown(s);
      more := ReportReports(t, reaction);
    } else if Full(s) {
      more := HaltReports(s);
    } else {
      more := [];
    }
  }

  lemma HaltReports(s: State) returns (more: seq<Event>)
    ensures Halt(s).log == s.log + more
    ensures forall e | e in more :: Subject(e) == null
  {
    more := (if Current(s, ALLOC_ERROR) != null then [Stderr] else []) + [Exit];
  }

  lemma ReportReports(s: State, reaction: Reaction) returns (more: seq<Event>)
    requires Full(s) && LimitOf(s) < 0
    ensures Reported(s, reaction).log == s.log + more
    ensures forall e | e in more :: Subject(e) == null
  {
    if Current(s, ALLOC_ERROR) == null || Current(s, HOOK_ERROR) == null {
      more := HaltReports(s);
    } else {
      var u := s.(log := s.log + [ErrorHook]);
      HookStopsAtLatch(u, reaction);
      match reaction
      case Jumps => more := [ErrorHook];
      case Returns =>
        more := [ErrorHook, Exit];
        assert s.log + [ErrorHook] + [Exit] == s.log + more;
      case Allocates(_, _, _, _, _) =>
        var last := HaltReports(u);
        more := [ErrorHook] + last;
        assert s.log + [ErrorHook] + last == s.log + more;
    }
  }

  lemma TripEntersHookOnce(s: State, reaction: Reaction)
    requires LayoutOk(s) && Full(s)
    ensures Count(Trip(s, reaction).log, ErrorHook) <= Count(s.log, ErrorHook) + 1
  {
    var t := SetNum(s, LIMIT_ATOM, -1);
    var u := t.(log := t.log + [ErrorHook]);
    assert !Meet(s, Base, LIMIT_ATOM);
    LatchDown(s);
    HaltEntersNoHook(t);
    HookStopsAtLatch(u, reaction);
    CountPlus(s.log, [ErrorHook], ErrorHook);
  }

  lemma SweepEntersNoHook(s: State, m: Flags)
    requires ChainsOk(s)
    ensures Count(Collected(s, m).log, ErrorHook) == Count(s.log, ErrorHook)
  {
    var k := Mark(s, m);
    DeadEvents(k.cells, s.chain, DisposalOf(k), m, ErrorHook);
    CountPlus(s.log, SweepEvents(k.cells, s.chain, DisposalOf(k), m), ErrorHook);
  }

  ghost predicate Trips(s: State, op: Op) {
    (op.New? || op.PushField?) && Decide(s, op.oom).Tripped?
  }

  lemma RefusalEntersHook(s: State, oom: bool, reaction: Reaction)
    requires LayoutOk(s) && !Decide(s, oom).Allowed?
    ensures Count(Refuse(s, oom, reaction).log, ErrorHook) <=
              Count(s.log, ErrorHook) + (if Decide(s, oom).Tripped? then 1 else 0)
  {
    HaltEntersNoHook(s);
    if Decide(s, oom).Tripped? {
      TripEntersHookOnce(s, reaction);
    }
  }

  lemma EnterLogs(s: State, o: Obj, c: Cell, e: Event)
    ensures Count(Enter(s, o, c).log, e) == Count(s.log, e) +
              match e
              case Obtain(x, k) => if x == o && k == ExtraOf(s) then 1 else 0
              case Adopt(x, v) => if HasAny(c.flags, OWN) && x == o && v == c.num then 1 else 0
              case _ => 0
  {
    var h, lead := Header(s, c), ExtraOf(s);
    var b: seq<Event> := if HasAny(h.flags, OWN) then [Adopt(o, h.num)] else [];
    HeaderKeepsOwn(c.flags);
    assert EnterEvents(o, h, lead) == [Obtain(o, lead)] + b;
    CountPlus([Obtain(o, lead)], b, e);
    CountPlus(s.log, EnterEvents(o, h, lead), e);
  }

  lemma StepEntersHook(s: State, op: Op, m: Flags)
    requires LayoutOk(s) && ChainsOk(s) && !s.stopped
    ensures Count(Step(s, op, m).log, ErrorHook) <= Count(s.log, ErrorHook) + (if Trips(s, op) then 1 else 0)
  {
    if op.Collect? {
      SweepEntersNoHook(s, m);
    } else if op.New? || op.PushField? {
      if Decide(s, op.oom).Allowed? {
        EnterLogs(s, op.o, if op.New? then op.c else ItemPair(s, op.at, op.d, op.item, op.f), ErrorHook);
      } else {
        RefusalEntersHook(s, op.oom, op.reaction);
      }
    }
  }

  /** A ceiling armed anew while the latch is down. */
  ghost predicate Rearms(s: State, op: Op) {
    op.Arm? && !s.stopped && LimitOf(s) < 0
  }

  /** How many of the first "n" operations arm the ceiling anew after a trip. */
  ghost function Rearmed(tr: seq<State>, ops: seq<Op>, n: nat): nat
    requires n <= |ops| < |tr|
  {
    if n == 0 then 0 else Rearmed(tr, ops, n - 1) + (if Rearms(tr[n - 1], ops[n - 1]) then 1 else 0)
  }

  lemma StepSpendsBudget(s: State, op: Op, m: Flags)
    requires Inv(s, m) && Enabled(s, op, m) && GoodMask(m) && Full(s) && !s.stopped
    ensures HookBudget(Step(s, op, m)) <= HookBudget(s) + (if Rearms(s, op) then 1 else 0)
    ensures LimitOf(s) < 0 && !Rearms(s, op) ==> LimitOf(Step(s, op, m)) < 0 && |Step(s, op, m).chain| <= |s.chain|
  {
    StepBooks(s, op, m);
    StepEntersHook(s, op, m);
  }

  lemma {:induction false} BudgetFalls(tr: seq<State>, ops: seq<Op>, m: Flags, i: nat, j: nat)
    requires IsRun(tr, ops, m) && GoodMask(m) && i <= j <= |ops| && Full(tr[0])
    ensures Rearmed(tr, ops, i) <= Rearmed(tr, ops, j)
    ensures HookBudget(tr[j]) <= HookBudget(tr[i]) + Rearmed(tr, ops, j) - Rearmed(tr, ops, i)
    ensures LimitOf(tr[i]) < 0 && Rearmed(tr, ops, j) == Rearmed(tr, ops, i) ==>
              LimitOf(tr[j]) < 0 && |tr[j].chain| <= |tr[i].chain|
    decreases j
  {
    if i < j {
      BudgetFalls(tr, ops, m, i, j - 1);
      BudgetAt(tr, ops, m, j - 1);
    }
  }

  lemma BudgetAt(tr: seq<State>, ops: seq<Op>, m: Flags, i: nat)
    requires IsRun(tr, ops, m) && GoodMask(m) && i < |ops| && Full(tr[0])
    ensures HookBudget(tr[i + 1]) <= HookBudget(tr[i]) + (if Rearms(tr[i], ops[i]) then 1 else 0)
    ensures LimitOf(tr[i]) < 0 && !Rearms(tr[i], ops[i]) ==> LimitOf(tr[i + 1]) < 0 && |tr[i + 1].chain| <= |tr[i].chain|
  {
    RunKeepsInv(tr, ops, m, i);
    CountIsChainLength(tr, ops, m, |tr[0].chain| - CountOf(tr[0]), i);
    assert MovesAt(tr, ops, m, i);
    BudgetMoves(tr[i], ops[i], tr[i + 1], m);
  }

  /**
    Over a whole run of a full base the error hook is entered at most once for the ceiling as
    it is armed at the start, and once more for each arming after a trip, whether the hook
    returns, never returns, or itself asks for objects. From a latch to the next arming the
    latch stays down, the hook is not entered and the chain never grows.
   */
  lemma CeilingTripsOnce(tr: seq<State>, ops: seq<Op>, m: Flags, i: nat, j: nat)
    requires IsRun(tr, ops, m) && GoodMask(m) && i <= j <= |ops| && Full(tr[0])
    ensures Count(tr[j].log, ErrorHook) <=
              Count(tr[0].log, ErrorHook) + (if LimitOf(tr[0]) < 0 then 0 else 1) + Rearmed(tr, ops, j)
    ensures LimitOf(tr[i]) < 0 && Rearmed(tr, ops, j) == Rearmed(tr, ops, i) ==>
              && LimitOf(tr[j]) < 0
              && Count(tr[j].log, ErrorHook) <= Count(tr[i].log, ErrorHook)
              && |tr[j].chain| <= |tr[i].chain|
  {
    BudgetFalls(tr, ops, m, 0, j);
    BudgetFalls(tr, ops, m, i, j);
  }

  lemma BudgetMoves(s: State, op: Op, t: State, m: Flags)
    requires Inv(s, m) && Moves(s, op, t, m) && GoodMask(m) && Full(s)
    ensures HookBudget(t) <= HookBudget(s) + (if Rearms(s, op) then 1 else 0)
    ensures LimitOf(s) < 0 && !Rearms(s, op) ==> LimitOf(t) < 0 && |t.chain| <= |s.chain|
  {
    if !s.stopped {
      StepSpendsBudget(s, op, m);
    }
  }
}
