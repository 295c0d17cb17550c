/** The data that objects own, over whole runs: X_OBJ_FLAG_OWN and lines 285-287 of src/x-obj.c. */
module OwnedData {
  import opened Flags
  import opened Objects
  import opened Sweeping
  import opened Paths
  import opened States
  import opened Collecting
  import opened Runs
  import opened Accounts
  import opened BaseTree

  /** How much more often the datum was handed to an object than released. */
  function Balance(es: seq<Event>, datum: int): int {
    if es == [] then 0
    else
      Balance(es[..|es| - 1], datum)
      + match es[|es| - 1]
        case Adopt(_, v) => if v == datum then 1 else 0
        case ReleaseDatum(_, v) => if v == datum then -1 else 0
        case _ => 0
  }

  lemma {:induction false} BalancePlus(a: seq<Event>, b: seq<Event>, datum: int)
    ensures Balance(a + b, datum) == Balance(a, datum) + Balance(b, datum)
  {
    if b == [] {
      assert a + b == a;
    } else {
      var k := |b| - 1;
      assert (a + b)[..|a| + k] == a + b[..k];
      BalancePlus(a, b[..k], datum);
    }
  }

  lemma BalanceOne(e: Event, datum: int)
    ensures Balance([e], datum) ==
              match e
              case Adopt(_, v) => if v == datum then 1 else 0
              case ReleaseDatum(_, v) => if v == datum then -1 else 0
              case _ => 0
  {
    assert [e][..0] == [];
  }

  lemma {:induction false} ReportsBalance(more: seq<Event>, datum: int)
    requires forall e | e in more :: Subject(e) == null
    ensures Balance(more, datum) == 0
  {
    if more != [] {
      var k := |more| - 1;
      assert more == more[..k] + [more[k]] && more[k] in more;
      ReportsBalance(more[..k], datum);
    }
  }

  lemma FreeBalance(o: Obj, c: Cell, d: Disposal, datum: int)
    ensures Balance(FreeEvents(o, c, d), datum) == if Owns(c, datum) then -1 else 0
  {
    var hook: seq<Event> := if d.hook then [FreeHook(o)] else [];
    var own: seq<Event> := if HasAny(c.flags, OWN) then [ReleaseDatum(o, c.num)] else [];
    BalancePlus(hook + own, [Release(o, Lead(c.flags, d.extra))], datum);
    BalancePlus(hook, own, datum);
    BalanceOne(FreeHook(o), datum);
    BalanceOne(ReleaseDatum(o, c.num), datum);
    BalanceOne(Release(o, Lead(c.flags, d.extra)), datum);
  }

  lemma EnterBalance(o: Obj, c: Cell, lead: nat, datum: int)
    ensures Balance(EnterEvents(o, c, lead), datum) == if Owns(c, datum) then 1 else 0
  {
    var own: seq<Event> := if HasAny(c.flags, OWN) then [Adopt(o, c.num)] else [];
    BalancePlus([Obtain(o, lead)], own, datum);
    BalanceOne(Obtain(o, lead), datum);
    BalanceOne(Adopt(o, c.num), datum);
  }

  // ---- Owners ----

  /** How many nodes of "q" own the datum. */
  ghost function Owners(cs: Cells, q: seq<Obj>, datum: int): nat {
    if q == [] then 0
    else
      var o := q[|q| - 1];
      Owners(cs, q[..|q| - 1], datum) + (if o in cs && Owns(cs[o], datum) then 1 else 0)
  }

  lemma {:induction false} NoOwners(cs: Cells, q: seq<Obj>, datum: int)
    requires forall o | o in q && o in cs :: !Owns(cs[o], datum)
    ensures Owners(cs, q, datum) == 0
  {
    if q != [] {
      assert q[|q| - 1] in q && forall o | o in q[..|q| - 1] :: o in q;
      NoOwners(cs, q[..|q| - 1], datum);
    }
  }

  ghost predicate SameOwner(cs: Cells, t: Cells, o: Obj, datum: int) {
    o in cs && o in t && (Owns(t[o], datum) <==> Owns(cs[o], datum))
  }

  lemma {:induction false} OwnersFrame(cs: Cells, t: Cells, q: seq<Obj>, datum: int)
    requires forall o {:trigger SameOwner(cs, t, o, datum)} | o in q :: SameOwner(cs, t, o, datum)
    ensures Owners(t, q, datum) == Owners(cs, q, datum)
  {
    if q != [] {
      var p, o := q[..|q| - 1], q[|q| - 1];
      assert forall x | x in p :: x in q;
      assert SameOwner(cs, t, o, datum);
      OwnersFrame(cs, t, p, datum);
    }
  }

  lemma OwnersLast(cs: Cells, p: seq<Obj>, o: Obj, datum: int)
    ensures Owners(cs, p + [o], datum) == Owners(cs, p, datum) + (if o in cs && Owns(cs[o], datum) then 1 else 0)
  {
    assert (p + [o])[..|p|] == p;
  }

  lemma {:induction false} OwnersFirst(cs: Cells, o: Obj, q: seq<Obj>, datum: int)
    ensures Owners(cs, [o] + q, datum) == Owners(cs, q, datum) + (if o in cs && Owns(cs[o], datum) then 1 else 0)
  {
    if q == [] {
      assert [o] + q == [] + [o];
      OwnersLast(cs, [], o, datum);
    } else {
      var p, x := q[..|q| - 1], q[|q| - 1];
      assert [o] + q == ([o] + p) + [x];
      OwnersLast(cs, [o] + p, x, datum);
      OwnersFirst(cs, o, p, datum);
    }
  }

  /** A sweep releases the data of the owners it frees. "now" are the cells before marking. */
  lemma {:induction false} SweepBalance(cs: Cells, now: Cells, q: seq<Obj>, d: Disposal, m: Flags, datum: int)
    requires Members(q) <= cs.Keys && Members(q) <= now.Keys
    requires forall o | o in q && !Retained(cs[o].flags, m) :: Owns(now[o], datum) <==> Owns(cs[o], datum)
    ensures Owners(now, Survivors(cs, q, m), datum) == Owners(now, q, datum) + Balance(SweepEvents(cs, q, d, m), datum)
  {
    if q != [] {
      var p, x := q[..|q| - 1], q[|q| - 1];
      assert q == p + [x] && x in Members(q) && forall o | o in p :: o in q && o in Members(q);
      SweepBalance(cs, now, p, d, m, datum);
      OwnersLast(now, p, x, datum);
      if Retained(cs[x].flags, m) {
        OwnersLast(now, Survivors(cs, p, m), x, datum);
      } else {
        BalancePlus(SweepEvents(cs, p, d, m), FreeEvents(x, cs[x], d), datum);
        FreeBalance(x, cs[x], d, datum);
      }
    }
  }

  // ---- The invariant ----

  /**
    The datum has been handed over once more than released while an object on the chain owns
    it, and else as often; it has one owner at most, unless it is nil.
   */
  ghost predicate Settled(s: State, datum: int) {
    && Balance(s.log, datum) == Owners(s.cells, s.chain, datum)
    && (datum != 0 ==> Owners(s.cells, s.chain, datum) <= 1)
  }

  /** The same chain, data and logs about data. */
  lemma SameSettled(s: State, t: State, datum: int)
    requires Settled(s, datum) && t.chain == s.chain && Balance(t.log, datum) == Balance(s.log, datum)
    requires forall o {:trigger SameOwner(s.cells, t.cells, o, datum)} | o in s.chain :: SameOwner(s.cells, t.cells, o, datum)
    ensures Settled(t, datum)
  {
    OwnersFrame(s.cells, t.cells, s.chain, datum);
  }

  /** Numbers of the base change, but no object of the base tree owns anything. */
  lemma NumberOwnsNothing(s: State, p: Path, n: int, datum: int)
    requires LayoutOk(s) && ChainsOk(s) && p in s.layout && p != Base
    ensures forall o {:trigger SameOwner(s.cells, SetNum(s, p, n).cells, o, datum)} | o in s.chain ::
              SameOwner(s.cells, SetNum(s, p, n).cells, o, datum)
  {
    assert LinkOk(s, p);
    forall o {:trigger SameOwner(s.cells, SetNum(s, p, n).cells, o, datum)} | o in s.chain
      ensures SameOwner(s.cells, SetNum(s, p, n).cells, o, datum)
    {
      assert o in Members(s.chain);
    }
  }

  lemma EnterSettled(s: State, n: Obj, c: Cell, m: Flags, datum: int)
    requires LayoutOk(s) && ChainsOk(s) && CanNew(s, n, c, m) && Settled(s, datum)
    ensures Settled(Enter(s, n, c), datum)
  {
    var t := Enter(s, n, c);
    assert LinkOk(s, COUNT_ATOM);
    forall o {:trigger SameOwner(s.cells, t.cells, o, datum)} | o in s.chain
      ensures SameOwner(s.cells, t.cells, o, datum)
    {
      assert o in Members(s.chain);
    }
    OwnersFrame(s.cells, t.cells, s.chain, datum);
    OwnersFirst(t.cells, n, s.chain, datum);
    if Owns(c, datum) && datum != 0 {
      forall o | o in s.chain && o in s.cells
        ensures !Owns(s.cells[o], datum)
      {
        assert !OwnsAt(s, o, c.num);
      }
      NoOwners(s.cells, s.chain, datum);
    }
    HeaderKeepsOwn(c.flags);
    BalancePlus(s.log, EnterEvents(n, Header(s, c), ExtraOf(s)), datum);
    EnterBalance(n, Header(s, c), ExtraOf(s), datum);
  }

  lemma RefusalSettled(s: State, oom: bool, reaction: Reaction, datum: int)
    requires LayoutOk(s) && ChainsOk(s) && !Decide(s, oom).Allowed? && Settled(s, datum)
    ensures Settled(Refuse(s, oom, reaction), datum)
  {
    var t := Refuse(s, oom, reaction);
    RefusalObjects(s, oom, reaction);
    var more := RefusalReports(s, oom, reaction);
    BalancePlus(s.log, more, datum);
    ReportsBalance(more, datum);
    NumberOwnsNothing(s, LIMIT_ATOM, -1, datum);
    forall o {:trigger SameOwner(s.cells, t.cells, o, datum)} | o in s.chain
      ensures SameOwner(s.cells, t.cells, o, datum)
    {
      assert o in Members(s.chain);
      assert SameOwner(s.cells, SetNum(s, LIMIT_ATOM, -1).cells, o, datum);
    }
    SameSettled(s, t, datum);
  }

  lemma CollectSettled(s: State, m: Flags, datum: int)
    requires Inv(s, m) && Registered(s) && GoodMask(m) && Settled(s, datum)
    ensures Settled(Collected(s, m), datum)
  {
    var t, a := Collected(s, m), Mark(s, m);
    DeadOwnTheSame(s, m, datum);
    SurvivorsOwnTheSame(s, m, datum);
    OwnersFrame(s.cells, t.cells, t.chain, datum);
    SweepSettles(a.cells, s.cells, s.chain, s.log, DisposalOf(a), m, datum);
  }

  lemma SweepSettles(cs: Cells, now: Cells, q: seq<Obj>, log: seq<Event>, d: Disposal, m: Flags, datum: int)
    requires Members(q) <= cs.Keys && Members(q) <= now.Keys
    requires forall o | o in q && !Retained(cs[o].flags, m) :: Owns(now[o], datum) <==> Owns(cs[o], datum)
    requires Balance(log, datum) == Owners(now, q, datum)
    ensures Balance(log + SweepEvents(cs, q, d, m), datum) == Owners(now, Survivors(cs, q, m), datum) <= Owners(now, q, datum)
  {
    SweepBalance(cs, now, q, d, m, datum);
    BalancePlus(log, SweepEvents(cs, q, d, m), datum);
    FreeingIsLoss(cs, now, q, m, datum);
  }

  lemma DeadOwnTheSame(s: State, m: Flags, datum: int)
    requires Inv(s, m) && Registered(s) && GoodMask(m)
    ensures Mark(s, m).cells.Keys == s.cells.Keys
    ensures forall o | o in s.chain && !Retained(Mark(s, m).cells[o].flags, m) ::
              Owns(s.cells[o], datum) <==> Owns(Mark(s, m).cells[o], datum)
  {
    MarkedExactly(s, m);
    MarkKeepsAll(s, m);
    forall o | o in s.chain && !Retained(Mark(s, m).cells[o].flags, m)
      ensures Mark(s, m).cells[o] == s.cells[o]
    {
      assert o in Members(s.chain);
      ClearUndoesSet(Mark(s, m).cells[o].flags, m);
    }
  }

  lemma SurvivorsOwnTheSame(s: State, m: Flags, datum: int)
    requires Inv(s, m) && Registered(s) && GoodMask(m)
    ensures var t := Collected(s, m);
            forall o {:trigger SameOwner(s.cells, t.cells, o, datum)} | o in t.chain :: SameOwner(s.cells, t.cells, o, datum)
  {
    var t := Collected(s, m);
    CollectExact(s, m);
    CollectChain(s, m);
    assert LinkOk(s, COUNT_ATOM);
    forall o {:trigger SameOwner(s.cells, t.cells, o, datum)} | o in t.chain
      ensures SameOwner(s.cells, t.cells, o, datum)
    {
      assert o in Members(t.chain) && o in Members(s.chain);
      assert Unchanged(s.cells, t.cells, o, s.chain);
      if o != s.layout[COUNT_ATOM] {
        CollectKeepsNum(s, m, o);
      }
    }
  }

  lemma {:induction false} FreeingIsLoss(cs: Cells, now: Cells, q: seq<Obj>, m: Flags, datum: int)
    requires Members(q) <= cs.Keys
    ensures Owners(now, Survivors(cs, q, m), datum) <= Owners(now, q, datum)
  {
    if q != [] {
      var p, x := q[..|q| - 1], q[|q| - 1];
      assert q == p + [x] && x in Members(q) && forall o | o in p :: o in Members(q);
      FreeingIsLoss(cs, now, p, m, datum);
      OwnersLast(now, p, x, datum);
      OwnersLast(now, Survivors(cs, p, m), x, datum);
    }
  }

  lemma OtherSettled(s: State, op: Op, t: State, m: Flags, datum: int)
    requires Inv(s, m) && Moves(s, op, t, m) && Settled(s, datum) && !op.Collect? && !op.New? && !op.PushField?
    ensures Settled(t, datum)
  {
    forall o {:trigger SameOwner(s.cells, t.cells, o, datum)} | o in s.chain
      ensures SameOwner(s.cells, t.cells, o, datum)
    {
      ChainStays(s, op, t, m, o);
      if op.Arm? && !s.stopped {
        NumberOwnsNothing(s, LIMIT_ATOM, op.limit, datum);
      }
    }
    SameSettled(s, t, datum);
  }

  lemma PushSettled(s: State, at: Obj, d: Slot, n: Obj, item: Obj?, f: Flags, m: Flags, datum: int)
    requires Inv(s, m) && Writable(s, at, d) && CanNew(s, n, ItemPair(s, at, d, item, f), m) && Settled(s, datum)
    ensures Settled(WithItem(s, at, d, n, item, f), datum)
  {
    var c := ItemPair(s, at, d, item, f);
    EnterSettled(s, n, c, m, datum);
    EnterKeepsInv(s, n, c, m);
    UnitSettled(Enter(s, n, c), at, d, n, datum);
  }

  /** No data unit matters to what is owned. */
  lemma UnitSettled(s: State, at: Obj, d: Slot, v: Obj?, datum: int)
    requires ChainsOk(s) && Settled(s, datum)
    ensures Settled(SetUnit(s, at, d, v), datum)
  {
    var t := SetUnit(s, at, d, v);
    forall o {:trigger SameOwner(s.cells, t.cells, o, datum)} | o in s.chain
      ensures SameOwner(s.cells, t.cells, o, datum)
    {
      assert o in Members(s.chain);
    }
    SameSettled(s, t, datum);
  }

  lemma StepSettled(s: State, op: Op, t: State, m: Flags, datum: int)
    requires Inv(s, m) && Moves(s, op, t, m) && GoodMask(m) && Settled(s, datum)
    ensures Settled(t, datum)
  {
    if s.stopped {
      return;
    }
    match op
    case New(n, c, oom, reaction) =>
      if Decide(s, oom).Allowed? {
        EnterSettled(s, n, c, m, datum);
      } else {
        RefusalSettled(s, oom, reaction, datum);
      }
    case PushField(at, d, n, item, f, oom, reaction) =>
      if Decide(s, oom).Allowed? {
        PushSettled(s, at, d, n, item, f, m, datum);
      } else {
        RefusalSettled(s, oom, reaction, datum);
      }
    case Collect => CollectSettled(s, m, datum);
    case _ => OtherSettled(s, op, t, m, datum);
  }

  lemma {:induction false} RunSettled(tr: seq<State>, ops: seq<Op>, m: Flags, i: nat, datum: int)
    requires IsRun(tr, ops, m) && GoodMask(m) && i <= |ops| && Settled(tr[0], datum)
    ensures Settled(tr[i], datum)
  {
    if i > 0 {
      RunSettled(tr, ops, m, i - 1, datum);
      RunKeepsInv(tr, ops, m, i - 1);
      assert MovesAt(tr, ops, m, i - 1);
      StepSettled(tr[i - 1], ops[i - 1], tr[i], m, datum);
    }
  }

  /** Whatever owns a datum is no pair and holds no object, so what is released with it is never an object. */
  lemma OwnersHoldNoObject(tr: seq<State>, ops: seq<Op>, m: Flags, i: nat, o: Obj)
    requires IsRun(tr, ops, m) && GoodMask(m) && i <= |ops|
    requires o in tr[i].chain && o in tr[i].cells && HasAny(tr[i].cells[o].flags, OWN)
    ensures !tr[i].cells[o].kind.PairType? && tr[i].cells[o].first == null
  {
    RunKeepsInv(tr, ops, m, i);
    assert PureAt(tr[i], o);
  }

  // ---- From a new base ----

  lemma {:induction false} ObtainsBalance(q: seq<Obj>, datum: int)
    ensures Balance(Obtains(q), datum) == 0
  {
    if q != [] {
      ObtainsBalance(q[1..], datum);
      BalancePlus(Obtains(q[1..]), [Obtain(q[0], 0)], datum);
      BalanceOne(Obtain(q[0], 0), datum);
    }
  }

  lemma NewBaseSettled(s: State, lay: map<Path, Obj>, given: set<Obj>, c: Config, b: Obj, datum: int)
    requires NewBase(s, lay, given, c, b)
    ensures Settled(s, datum)
  {
    NewOwners(s, lay, given, c, b);
    assert SHARED * OWN == NONE;
    NoOwners(s.cells, s.chain, datum);
    ObtainsBalance(s.chain, datum);
    BalancePlus([Obtain(b, 0)], Obtains(s.chain), datum);
    BalanceOne(Obtain(b, 0), datum);
  }

  /**
    Over every run from a new base: a datum handed to an object is held by that object alone,
    released exactly once, when that object is freed, and free to be handed over again only
    then. The balance counts releases against hand-overs, and the owners on the chain are what
    is left of it: one at most, unless the datum is nil.
   */
  lemma OwnedReleasedOnce(tr: seq<State>, ops: seq<Op>, m: Flags, lay: map<Path, Obj>, given: set<Obj>, c: Config, b: Obj, i: nat, datum: int)
    requires IsTrace(tr, ops, m) && NewBase(tr[0], lay, given, c, b) && GoodMask(m) && i <= |ops|
    ensures Balance(tr[i].log, datum) == Owners(tr[i].cells, tr[i].chain, datum)
    ensures datum != 0 ==> Owners(tr[i].cells, tr[i].chain, datum) <= 1
  {
    NewBaseInv(tr[0], lay, given, c, b, m);
    NewBaseSettled(tr[0], lay, given, c, b, datum);
    RunSettled(tr, ops, m, i, datum);
  }
}
