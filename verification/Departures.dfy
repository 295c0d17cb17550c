/** What leaves the library when objects are freed, and in which order (src/x-heap.c, lines 100-106, and src/x-obj.c, lines 265-296). */
module Departures {
  import opened Flags
  import opened Objects
  import opened Sweeping
  import opened Paths
  import opened States
  import opened Collecting
  import opened Runs
  import opened Blocks
  import opened Accounts
  import opened BaseTree
  import opened Effects

  // ---- How often ----

  /**
    A collection releases the block of each object it frees, where it starts, calls the free
    hook for it if the base has one, and releases the datum it owns; of all this it does
    nothing for other objects, and nothing else (CollectLog).
   */
  lemma CollectDepartures(s: State, t: State, m: Flags, o: Obj, k: nat, v: int)
    requires Inv(s, m) && Moves(s, Collect, t, m) && GoodMask(m) && !s.stopped
    ensures var dead := o in Garbage(s);
            && Count(t.log, FreeHook(o)) == Count(s.log, FreeHook(o)) + (if dead && Value(s, HEAP_FREE) != null then 1 else 0)
            && Count(t.log, Release(o, k)) == Count(s.log, Release(o, k)) + (if dead && k == BlockLead(s, o) then 1 else 0)
            && Count(t.log, ReleaseDatum(o, v)) == Count(s.log, ReleaseDatum(o, v)) + (if dead && 5 in s.cells[o].flags && v == s.cells[o].num then 1 else 0)
  {
    var es := CollectLog(s, t, m);
    CollectPermitted(s, t, m);
    SweepDepartures(s, m, o, k, v, es);
    CountPlus(s.log, es, FreeHook(o));
    CountPlus(s.log, es, Release(o, k));
    CountPlus(s.log, es, ReleaseDatum(o, v));
  }

  /** A collection adds to what has left the library nothing but what freeing objects makes leave. */
  lemma CollectLog(s: State, t: State, m: Flags) returns (es: seq<Event>)
    requires Inv(s, m) && Moves(s, Collect, t, m) && !s.stopped
    ensures t.log == s.log + es && !t.stopped
    ensures forall e | e in es :: !Quiet(e)
    ensures var a := Mark(s, m); es == SweepEvents(a.cells, s.chain, DisposalOf(a), m)
  {
    var a := Mark(s, m);
    es := SweepEvents(a.cells, s.chain, DisposalOf(a), m);
    SweepOnlyFrees(a.cells, s.chain, DisposalOf(a), m);
  }

  lemma SweepDepartures(s: State, m: Flags, o: Obj, k: nat, v: int, es: seq<Event>)
    requires Inv(s, m) && Registered(s) && GoodMask(m)
    requires var a := Mark(s, m); es == SweepEvents(a.cells, s.chain, DisposalOf(a), m)
    ensures var dead := o in Garbage(s);
            && Count(es, FreeHook(o)) == (if dead && Value(s, HEAP_FREE) != null then 1 else 0)
            && Count(es, Release(o, k)) == (if dead && k == BlockLead(s, o) then 1 else 0)
            && Count(es, ReleaseDatum(o, v)) == (if dead && 5 in s.cells[o].flags && v == s.cells[o].num then 1 else 0)
  {
    var a := Mark(s, m);
    DeadIsGarbage(s, m);
    EachFreedOnce(a.cells, s.chain, DisposalOf(a), m, o, k, v);
    DisposalRead(s, m);
    if o in Garbage(s) {
      GarbageAsItWas(s, m, o);
    }
  }

  /** How far in front of its header the block of an object starts: the extra units, for an object flagged META. */
  ghost function BlockLead(s: State, o: Obj): nat
    requires LayoutOk(s) && o in s.cells
  {
    if 7 in s.cells[o].flags then Extra(s) else 0
  }

  /** The sweep finds hook and extra units as they were before marking. */
  lemma DisposalRead(s: State, m: Flags)
    requires LayoutOk(s)
    ensures DisposalOf(Mark(s, m)) == Disposal(Value(s, HEAP_FREE) != null, Extra(s))
  {
    MarkKeeps(s, m, s.layout[HEAP_FREE]);
    MarkExtra(s, m);
    Same(s, false);
  }

  lemma GarbageAsItWas(s: State, m: Flags, o: Obj)
    requires Inv(s, m) && Registered(s) && GoodMask(m) && o in Garbage(s)
    ensures Mark(s, m).cells[o] == s.cells[o]
    ensures HasAny(s.cells[o].flags, META) <==> 7 in s.cells[o].flags
    ensures HasAny(s.cells[o].flags, OWN) <==> 5 in s.cells[o].flags
  {
    GarbageFlags(s, m, o);
    MarkKeeps(s, m, o);
    var f := s.cells[o].flags;
    assert f * {7} == if 7 in f then {7} else {};
    assert f * {5} == if 5 in f then {5} else {};
  }

  lemma {:induction false} SweepOnlyFrees(cs: Cells, q: seq<Obj>, d: Disposal, m: Flags)
    requires Members(q) <= cs.Keys
    ensures forall e | e in SweepEvents(cs, q, d, m) :: !Quiet(e)
  {
    if q != [] {
      SweepOnlyFrees(cs, q[..|q| - 1], d, m);
    }
  }

  /** Over every run: a collection calls the free hook once for each object it frees if the base has one, and else never. */
  lemma RunCallsFreeHook(tr: seq<State>, ops: seq<Op>, m: Flags, i: nat, o: Obj)
    requires IsRun(tr, ops, m) && GoodMask(m) && i < |ops| && ops[i].Collect? && !tr[i].stopped
    ensures HEAP_FREE in tr[i].layout && tr[i].layout[HEAP_FREE] in tr[i].cells
    ensures Count(tr[i + 1].log, FreeHook(o)) ==
              Count(tr[i].log, FreeHook(o))
              + if o in Garbage(tr[i]) && tr[i].cells[tr[i].layout[HEAP_FREE]].first != null then 1 else 0
  {
    RunKeepsInv(tr, ops, m, i);
    assert MovesAt(tr, ops, m, i);
    CollectDepartures(tr[i], tr[i + 1], m, o, 0, 0);
  }

  // ---- In which order ----

  /**
    Right after a datum is released comes the release of the block that holds its address, and
    right after the free hook for an object comes the release of its datum or its block.
   */
  ghost predicate InOrder(es: seq<Event>) {
    forall i {:trigger InOrderAt(es, i)} | 0 <= i < |es| :: InOrderAt(es, i)
  }

  ghost predicate InOrderAt(es: seq<Event>, i: nat)
    requires i < |es|
  {
    && (es[i].ReleaseDatum? ==> i + 1 < |es| && es[i + 1].Release? && es[i + 1].o == es[i].o)
    && (es[i].FreeHook? ==> i + 1 < |es| && (es[i + 1].ReleaseDatum? || es[i + 1].Release?) && es[i + 1].o == es[i].o)
  }

  /** Right before every release of a block comes the free hook for its object, or that and the release of its datum. */
  ghost predicate Announced(es: seq<Event>) {
    forall i {:trigger AnnouncedAt(es, i)} | 0 <= i < |es| :: AnnouncedAt(es, i)
  }

  ghost predicate AnnouncedAt(es: seq<Event>, i: nat)
    requires i < |es|
  {
    es[i].Release? ==>
      || (i > 0 && es[i - 1] == FreeHook(es[i].o))
      || (i > 1 && es[i - 2] == FreeHook(es[i].o) && es[i - 1].ReleaseDatum? && es[i - 1].o == es[i].o)
  }

  lemma OrderJoins(a: seq<Event>, b: seq<Event>)
    ensures InOrder(a) && InOrder(b) ==> InOrder(a + b)
    ensures Announced(a) && Announced(b) ==> Announced(a + b)
  {
    if InOrder(a) && InOrder(b) {
      forall i {:trigger InOrderAt(a + b, i)} | 0 <= i < |a + b|
        ensures InOrderAt(a + b, i)
      {
        assert if i < |a| then InOrderAt(a, i) else InOrderAt(b, i - |a|);
      }
    }
    if Announced(a) && Announced(b) {
      forall i {:trigger AnnouncedAt(a + b, i)} | 0 <= i < |a + b|
        ensures AnnouncedAt(a + b, i)
      {
        assert if i < |a| then AnnouncedAt(a, i) else AnnouncedAt(b, i - |a|);
      }
    }
  }

  /** Freeing one object releases its datum before its block, and after the hook, if there is one. */
  lemma FreeInOrder(o: Obj, c: Cell, d: Disposal)
    ensures InOrder(FreeEvents(o, c, d))
    ensures d.hook ==> Announced(FreeEvents(o, c, d))
  {
  }

  /** So it is in every sweep, with a free hook or without. */
  lemma {:induction false} SweepInOrder(cs: Cells, q: seq<Obj>, d: Disposal, m: Flags)
    requires Members(q) <= cs.Keys
    ensures InOrder(SweepEvents(cs, q, d, m))
    ensures d.hook ==> Announced(SweepEvents(cs, q, d, m))
  {
    if q != [] {
      var p, o := q[..|q| - 1], q[|q| - 1];
      SweepInOrder(cs, p, d, m);
      assert o in Members(q);
      FreeInOrder(o, cs[o], d);
      OrderJoins(SweepEvents(cs, p, d, m), FreeEvents(o, cs[o], d));
    }
  }

  /** What an operation adds to what has left the library is in order; a collection with a free hook announces every release. */
  lemma StepInOrder(s: State, op: Op, t: State, m: Flags)
    requires Inv(s, m) && Moves(s, op, t, m)
    ensures s.log <= t.log && InOrder(t.log[|s.log|..])
    ensures !op.Collect? || s.stopped || Value(s, HEAP_FREE) != null ==> Announced(t.log[|s.log|..])
  {
    if s.stopped {
    } else if op.New? || op.PushField? {
      AllocationInOrder(s, op, t, m);
    } else if op.Collect? {
      var a := Mark(s, m);
      DisposalRead(s, m);
      SweepInOrder(a.cells, s.chain, DisposalOf(a), m);
      assert t.log[|s.log|..] == SweepEvents(a.cells, s.chain, DisposalOf(a), m);
    }
  }

  /** The event is no part of freeing an object. */
  predicate Quiet(e: Event) {
    !e.FreeHook? && !e.ReleaseDatum? && !e.Release?
  }

  lemma QuietInOrder(es: seq<Event>)
    requires forall e | e in es :: Quiet(e)
    ensures InOrder(es) && Announced(es)
  {
    assert forall i | 0 <= i < |es| :: Quiet(es[i]);
  }

  lemma AllocationInOrder(s: State, op: Op, t: State, m: Flags)
    requires Moves(s, op, t, m) && !s.stopped && (op.New? || op.PushField?)
    ensures s.log <= t.log && InOrder(t.log[|s.log|..]) && Announced(t.log[|s.log|..])
  {
    var more: seq<Event>;
    if Serves(s, op.oom) {
      more := ServedQuiet(s, op, t, m);
    } else {
      Same(s, op.oom);
      assert t == Refuse(s, op.oom, op.reaction);
      more := RefusalReports(s, op.oom, op.reaction);
      assert forall e | e in more :: Quiet(e);
    }
    QuietInOrder(more);
    assert t.log[|s.log|..] == more;
  }

  lemma ServedQuiet(s: State, op: Op, t: State, m: Flags) returns (more: seq<Event>)
    requires Moves(s, op, t, m) && !s.stopped && (op.New? || op.PushField?) && Serves(s, op.oom)
    ensures t.log == s.log + more && forall e | e in more :: Quiet(e)
  {
    if op.New? {
      NewStores(s, op.o, op.c, op.reaction, t, m);
      more := [Obtain(op.o, Extra(s))] + (if 5 in op.c.flags then [Adopt(op.o, op.c.num)] else []);
    } else {
      PushStores(s, op.at, op.d, op.o, op.item, op.f, op.reaction, t, m);
      more := [Obtain(op.o, Extra(s))];
    }
  }

  /**
    Over every run from a state in which it is so, as from a new base (NewInOrder): a datum is
    released just before the block that holds its address, and the hook runs just before both.
   */
  lemma {:induction false} RunInOrder(tr: seq<State>, ops: seq<Op>, m: Flags, i: nat)
    requires IsRun(tr, ops, m) && GoodMask(m) && i <= |ops| && InOrder(tr[0].log)
    ensures InOrder(tr[i].log)
  {
    if i > 0 {
      RunInOrder(tr, ops, m, i - 1);
      LogAt(tr, ops, m, i - 1);
      var a, b := tr[i - 1].log, tr[i].log;
      OrderJoins(a, b[|a|..]);
      assert a + b[|a|..] == b;
    }
  }

  /** While the base has a free hook whenever it collects, no block is released over a whole run without the hook just before. */
  lemma {:induction false} RunAnnounced(tr: seq<State>, ops: seq<Op>, m: Flags, i: nat)
    requires IsRun(tr, ops, m) && GoodMask(m) && i <= |ops| && Announced(tr[0].log)
    requires forall j | 0 <= j < i && ops[j].Collect? :: Current(tr[j], HEAP_FREE) != null
    ensures Announced(tr[i].log)
  {
    if i > 0 {
      RunAnnounced(tr, ops, m, i - 1);
      LogAt(tr, ops, m, i - 1);
      var a, b := tr[i - 1].log, tr[i].log;
      OrderJoins(a, b[|a|..]);
      assert a + b[|a|..] == b;
    }
  }

  lemma LogAt(tr: seq<State>, ops: seq<Op>, m: Flags, i: nat)
    requires IsRun(tr, ops, m) && GoodMask(m) && i < |ops|
    ensures var a, b := tr[i].log, tr[i + 1].log;
            && a <= b && InOrder(b[|a|..])
            && (!ops[i].Collect? || Current(tr[i], HEAP_FREE) != null ==> Announced(b[|a|..]))
  {
    RunKeepsInv(tr, ops, m, i);
    assert MovesAt(tr, ops, m, i);
    StepInOrder(tr[i], ops[i], tr[i + 1], m);
  }

  lemma {:induction false} ObtainsQuiet(q: seq<Obj>)
    ensures forall e | e in Obtains(q) :: Quiet(e)
  {
    if q != [] {
      ObtainsQuiet(q[1..]);
    }
  }

  lemma NewInOrder(s: State, lay: map<Path, Obj>, given: set<Obj>, c: Config, b: Obj)
    requires NewBase(s, lay, given, c, b)
    ensures InOrder(s.log) && Announced(s.log)
  {
    ObtainsQuiet(s.chain);
    QuietInOrder(s.log);
  }
}
