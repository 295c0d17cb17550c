/**
  One base environment and the objects it manages. Each method is a function of src/x-obj.c or
  src/x-heap.c, or a macro of include/x-heap.h, run on the objects; what it does is the
  operation of the same name in module States.
 */
module Environments {
  import opened Flags
  import opened Objects
  import opened Marking
  import opened Sweeping
  import opened SweepSteps
  import opened Paths
  import opened States
  import opened Collecting
  import opened Runs
  import opened Collector
  import opened BaseTree
  import Effects

  class Environment {
    /** p_base: its header link heads the allocation chain, its first is the base tree. */
    const base: Obj
    /** The flags a collection marks with. */
    const m: Flags
    var stopped: bool
    var log: seq<Event>

    /** The objects not freed, the nodes of the two chains, and where the accessor paths lead. */
    ghost var world: set<Obj>
    ghost var chain: seq<Obj>
    ghost var roots: seq<Obj>
    ghost var layout: map<Path, Obj>

    /**
      x_base_make without an existing base. The objects in "given", the hooks among them, are
      the embedder's; they are on neither chain.
     */
    constructor (m: Flags, config: Config, ghost given: set<Obj>)
      requires GoodMask(m) && config.objMetaExtra >= 0
      requires Givens(Root(config)) <= given && forall o | o in given :: o.live
      ensures Valid() && this.m == m && fresh(base)
      ensures exists lay :: NewBase(Abs(), lay, given, config, base)
    {
      this.m := m;
      base := new Obj(Untyped, NONE, null, null, 0);
      stopped, log := false, [Obtain(base, 0)];
      world, chain, roots, layout := given, [], [], map[];
      new;
      assert forall o | o in given :: o != base && o.live;
      world, layout := world + {base}, map[Base := base];
      MakeTree(config, given);
    }

    /** Every block obtained so far, the base's first, and nothing else has left the library. */
    ghost predicate Logged()
      reads `log, `chain
    {
      log == [Obtain(base, 0)] + Obtains(chain)
    }

    method MakeTree(config: Config, ghost given: set<Obj>)
      requires Rep() && layout == map[Base := base] && chain == [] && roots == [] && !stopped && Logged()
      requires config.objMetaExtra >= 0
      requires base.Contents() == Cell(Untyped, NONE, null, null, 0)
      requires Givens(Root(config)) <= given && base !in given && world == given + {base} && GoodMask(m)
      modifies this`log, this`world, this`chain, this`layout, base`heap, base`first
      ensures Valid()
      ensures exists lay :: NewBase(Abs(), lay, given, config, base)
    {
      ghost var cs := Snapshot(world);
      var tree;
      ghost var lay, news;
      tree, lay, news := Build(Root(config), X_BASE);
      assert chain == news;
      LinkedIsDistinct(base.heap, chain);
      TreeMakesBase(cs, Abs(), lay, given, config, base);
      SetTree(tree, lay);
      NewBaseInv(Abs(), lay, given, config, base, m);
    }

    /** Hang the finished tree on the base. */
    method SetTree(tree: Obj?, ghost lay: map<Path, Obj>)
      requires Rep()
      modifies this`layout, base`first
      ensures Rep()
      ensures var cs := old(Snapshot(world));
              Abs() == old(Abs()).(cells := cs[base := cs[base].(first := tree)], layout := lay[Base := base])
    {
      StoreFirst(base, tree);
      layout := lay[Base := base];
    }

    /**
      Evaluate a nest of pair(...) and atom(...): each node becomes a SHARED object on the
      allocation chain. The base is still untyped, so nothing is counted.
     */
    method Build(t: Tree, ghost p: Path) returns (o: Obj?, ghost lay: map<Path, Obj>, ghost news: seq<Obj>)
      requires Rep() && base !in chain && base !in roots && Logged()
      modifies this`log, this`world, this`chain, base`heap
      ensures Rep() && base !in chain && Logged() && chain == news + old(chain)
      ensures Laid(old(Snapshot(world)), Snapshot(world), lay, news, t, p)
      ensures o == ValueAt(t, p, lay)
      decreases t
    {
      ghost var cs := Snapshot(world);
      match t
      case Given(x) =>
        o, lay, news := x, map[], [];
        LaidGiven(cs, x, p);
      case Atom(n) =>
        o := MakeShared(Cell(AtomType, SHARED, null, null, n));
        lay, news := map[p := o], [o];
        LaidAtom(cs, n, p, o);
      case Pair(l, r) =>
        o, lay, news := BuildPair(l, r, p);
    }

    method BuildPair(l: Tree, r: Tree, ghost p: Path) returns (o: Obj, ghost lay: map<Path, Obj>, ghost news: seq<Obj>)
      requires Rep() && base !in chain && base !in roots && Logged()
      modifies this`log, this`world, this`chain, base`heap
      ensures Rep() && base !in chain && Logged() && chain == news + old(chain)
      ensures Laid(old(Snapshot(world)), Snapshot(world), lay, news, Pair(l, r), p)
      ensures p in lay && o == lay[p]
      decreases Pair(l, r), 1
    {
      var first, rest;
      ghost var mid, a, b, q, q';
      first, rest, mid, a, b, q, q' := BuildSides(l, r, p);
      ghost var more := Snapshot(world);
      o := MakeShared(Cell(PairType, SHARED, first, rest, 0));
      LaidPair(old(Snapshot(world)), mid, more, a, b, q, q', l, r, p, o);
      lay, news := Join(a, b, p, o), [o] + (q' + q);
    }

    method BuildSides(l: Tree, r: Tree, ghost p: Path)
      returns (first: Obj?, rest: Obj?, ghost mid: Cells, ghost a: map<Path, Obj>, ghost b: map<Path, Obj>, ghost q: seq<Obj>, ghost q': seq<Obj>)
      requires Rep() && base !in chain && base !in roots && Logged()
      modifies this`log, this`world, this`chain, base`heap
      ensures Rep() && base !in chain && Logged() && chain == q' + q + old(chain)
      ensures Laid(old(Snapshot(world)), mid, a, q, l, First(p)) && Laid(mid, Snapshot(world), b, q', r, Rest(p))
      ensures first == ValueAt(l, First(p), a) && rest == ValueAt(r, Rest(p), b)
      decreases Pair(l, r), 0
    {
      first, a, q := Build(l, First(p));
      mid := Snapshot(world);
      rest, b, q' := Build(r, Rest(p));
    }

    /** x_mksatom and x_mkspair: a new object that is never swept. */
    method MakeShared(c: Cell) returns (o: Obj)
      requires c.flags == SHARED && Rep() && base !in chain && base !in roots && Logged()
      modifies this`log, this`world, this`chain, base`heap
      ensures Rep() && o !in old(world) && base !in chain && Logged() && chain == [o] + old(chain)
      ensures Snapshot(world) == old(Snapshot(world))[o := c]
    {
      o := Create(c, 0);
      assert SHARED * OWN == NONE;
      assert Abs().cells == Snapshot(world);
      ObtainsJoin([o], old(chain));
    }

    ghost function Abs(): State
      reads this, world
    {
      State(Snapshot(world), chain, roots, layout, stopped, log)
    }

    /** The links in the headers are those of the two chains, and what is not freed is live memory. */
    ghost predicate Rep()
      reads `world, `chain, `roots, `layout, world`heap, world`live
    {
      && {base} + Members(chain) + Members(roots) <= world
      && (forall o | o in world :: o.live)
      && Linked(base.heap, chain)
      && Linked(Head(roots), roots)
      && Base in layout && layout[Base] == base
    }

    ghost predicate Valid()
      reads this, world
    {
      Rep() && Inv(Abs(), m) && GoodMask(m)
    }

    /** Every accessor path of the layout can be followed. */
    ghost predicate Navigable()
      reads `world, `layout, world`first, world`rest
    {
      Base in layout && layout[Base] == base && forall p {:trigger LeadsOn(p)} | p in layout :: LeadsOn(p)
    }

    ghost predicate LeadsOn(p: Path)
      reads `world, `layout, world`first, world`rest
    {
      && p in layout && layout[p] in world
      && (!p.Base? ==> p.up in layout && layout[p.up] in world && (if p.First? then layout[p.up].first else layout[p.up].rest) == layout[p])
    }

    lemma LayoutIsNavigable()
      requires Rep() && LayoutOk(Abs())
      ensures Navigable() && Required(layout.Keys)
    {
      forall p {:trigger LeadsOn(p)} | p in layout
        ensures LeadsOn(p)
      {
        assert !p.Base? ==> LinkOk(Abs(), p);
      }
    }

    /** An accessor macro: follow first and rest from the base. */
    method Access(p: Path) returns (o: Obj)
      requires Navigable() && p in layout
      ensures o == layout[p] && o in world
      decreases p
    {
      assert LeadsOn(p);
      if p.Base? {
        return base;
      }
      var up := Access(p.up);
      o := if p.First? then up.first else up.rest;
    }

    /** The current value of a field: the first of its cell. */
    method Field(p: Path) returns (o: Obj?)
      requires Navigable() && p in layout
      ensures o == Current(Abs(), p)
    {
      var cell := Access(p);
      o := cell.first;
    }

    // ---- Root chain ----

    /** Assign a data unit of a pair: x_firstobj or x_restobj on the left of an assignment. */
    method StoreFirst(o: Obj, v: Obj?)
      requires Rep() && o in world
      modifies o`first
      ensures Rep() && Abs() == SetFirst(old(Abs()), o, v)
    {
      ghost var cs := Snapshot(world);
      o.first := v;
      assert Snapshot(world) == cs[o := cs[o].(first := v)];
    }

    method StoreRest(o: Obj, v: Obj?)
      requires Rep() && o in world
      modifies o`rest
      ensures Rep() && Abs() == SetRest(old(Abs()), o, v)
    {
      ghost var cs := Snapshot(world);
      o.rest := v;
      assert Snapshot(world) == cs[o := cs[o].(rest := v)];
    }

    method StoreNum(o: Obj, n: int)
      requires Rep() && o in world
      modifies o`num
      ensures Rep() && Abs() == old(Abs()).(cells := old(Abs()).cells[o := old(o.Contents()).(num := n)])
    {
      ghost var cs := Snapshot(world);
      o.num := n;
      assert Snapshot(world) == cs[o := cs[o].(num := n)];
    }

    /** Store the head of the root chain; the links behind it are already those of "q". */
    method SetRootHead(slot: Obj, head: Obj?, ghost q: seq<Obj>)
      requires Rep() && slot in world && slot == At(Abs(), HEAP_ROOT_CHAIN)
      requires Linked(head, q) && Members(q) <= world
      modifies this`roots, slot`first
      ensures Rep() && Abs() == SetRoots(old(Abs()), q)
    {
      StoreFirst(slot, head);
      roots := q;
    }

    /** x_heap_root_slot: the field cell whose first heads the root chain, or nil on a base that is not set. */
    method RootSlot() returns (slot: Obj?)
      requires Rep() && Navigable() && (base.first != null ==> HEAP_ROOT_CHAIN in layout)
      ensures slot == if base.first == null then null else layout[HEAP_ROOT_CHAIN]
      ensures Only(slot) <= world
    {
      if base.first == null {
        return null;
      }
      slot := Access(HEAP_ROOT_CHAIN);
    }

    /** x_heap_root_push: two stores, or none when there is no slot. */
    method Push(slot: Obj?, o: Obj)
      requires slot != null ==> Valid() && !stopped && slot == layout[HEAP_ROOT_CHAIN] && Enabled(Abs(), States.Push(o), m)
      modifies this`roots, o`heap, Only(slot)`first
      ensures slot == null ==> o.heap == old(o.heap) && roots == old(roots)
      ensures slot != null ==> Valid() && Abs() == Step(old(Abs()), States.Push(o), m)
    {
      if slot != null {
        StepKeepsInv(Abs(), States.Push(o), m);
        LayoutIsNavigable();
        assert LeadsOn(HEAP_ROOT_CHAIN);
        PushLinks(o, slot.first);
        SetRootHead(slot, o, [o] + roots);
      }
    }

    /** The new node's link; no other chain is disturbed. */
    method PushLinks(o: Obj, head: Obj?)
      requires Rep() && head == Head(roots)
      requires o in world && o != base && o !in chain && o !in roots
      modifies o`heap
      ensures Rep() && Abs() == old(Abs())
      ensures Linked(o, [o] + roots) && Members([o] + roots) <= world
    {
      o.SetLink(head);
      forall i {:trigger LinkAt(chain, i)} | 0 <= i < |chain|
        ensures LinkAt(chain, i)
      {
        assert old(LinkAt(chain, i)) && chain[i] in chain;
      }
      forall i {:trigger LinkAt(roots, i)} | 0 <= i < |roots|
        ensures LinkAt(roots, i)
      {
        assert old(LinkAt(roots, i)) && roots[i] in roots;
      }
      ghost var q := [o] + roots;
      forall i {:trigger LinkAt(q, i)} | 0 <= i < |q|
        ensures LinkAt(q, i)
      {
        assert i > 0 ==> LinkAt(roots, i - 1);
      }
    }

    /** x_heap_root_pop: one store, or none when there is no slot. */
    method Pop(slot: Obj?)
      requires slot != null ==> Valid() && !stopped && slot == layout[HEAP_ROOT_CHAIN] && Enabled(Abs(), States.Pop, m)
      modifies this`roots, Only(slot)`first
      ensures slot == null ==> roots == old(roots)
      ensures slot != null ==> Valid() && Abs() == Step(old(Abs()), States.Pop, m)
    {
      if slot != null {
        StepKeepsInv(Abs(), States.Pop, m);
        LayoutIsNavigable();
        assert LeadsOn(HEAP_ROOT_CHAIN);
        DropLinks(1);
        SetRootHead(slot, slot.first.Link(), roots[1..]);
      }
    }

    /** The chain behind the newest nodes. */
    lemma DropLinks(drop: nat)
      requires Rep() && drop <= |roots|
      ensures Linked(Nth(roots, drop), roots[drop..]) && Members(roots[drop..]) <= world
      ensures drop == 1 ==> roots[0] in world && roots[0].heap == Nth(roots, 1)
    {
      LinkedSuffix(Head(roots), roots, drop);
      assert forall x | x in roots[drop..] :: x in Members(roots);
      if drop == 1 {
        assert LinkAt(roots, 0) && roots[0] in Members(roots);
      }
    }

    /** Put back a head saved when the chain was "drop" nodes shorter, as after a nonlocal exit. */
    method Restore(slot: Obj, saved: Obj?, ghost drop: nat)
      requires Valid() && !stopped && slot == layout[HEAP_ROOT_CHAIN]
      requires drop <= |roots| && saved == Nth(roots, drop)
      modifies this`roots, slot`first
      ensures Valid() && Abs() == Step(old(Abs()), States.Restore(drop), m)
    {
      StepKeepsInv(Abs(), States.Restore(drop), m);
      LayoutIsNavigable();
      assert LeadsOn(HEAP_ROOT_CHAIN);
      DropLinks(drop);
      SetRootHead(slot, saved, roots[drop..]);
    }

    // ---- Mutation ----

    /** An embedder's assignment to a data unit. */
    method SetSlot(o: Obj, d: Slot, v: Obj?)
      requires Valid() && !stopped && Enabled(Abs(), States.SetSlot(o, d, v), m)
      modifies o`first, o`rest
      ensures Valid() && Abs() == Step(old(Abs()), States.SetSlot(o, d, v), m)
      ensures Effects.Holds(old(o.Contents()), d, v, o.Contents())
    {
      StepKeepsInv(Abs(), States.SetSlot(o, d, v), m);
      StoreUnit(o, d, v);
    }

    method StoreUnit(o: Obj, d: Slot, v: Obj?)
      requires Rep() && o in world
      modifies o`first, o`rest
      ensures Rep() && Abs() == SetUnit(old(Abs()), o, d, v)
      ensures Effects.Holds(old(o.Contents()), d, v, o.Contents())
    {
      if d.FirstSlot? {
        StoreFirst(o, v);
      } else {
        StoreRest(o, v);
      }
    }

    /** An embedder gives the base a type. */
    method TypeBase(kind: Kind)
      requires Valid() && !stopped && Enabled(Abs(), States.TypeBase(kind), m)
      modifies base`kind
      ensures Valid() && Abs() == Step(old(Abs()), States.TypeBase(kind), m)
    {
      StepKeepsInv(Abs(), States.TypeBase(kind), m);
      StoreKind(base, kind);
    }

    method StoreKind(o: Obj, kind: Kind)
      requires Rep() && o in world
      modifies o`kind
      ensures Rep() && Abs() == WithKind(old(Abs()), o, kind)
    {
      ghost var cs := Snapshot(world);
      o.kind := kind;
      assert Snapshot(world) == cs[o := cs[o].(kind := kind)];
    }

    /** An embedder arms the ceiling (or disarms it with 0). */
    method Arm(limit: nat)
      requires Valid() && !stopped && Enabled(Abs(), States.Arm(limit), m)
      modifies {layout[LIMIT_ATOM]}`num
      ensures Valid() && Abs() == Step(old(Abs()), States.Arm(limit), m)
    {
      StepKeepsInv(Abs(), States.Arm(limit), m);
      LayoutIsNavigable();
      var atom := Access(LIMIT_ATOM);
      StoreNum(atom, limit);
    }

    /** x_obj_set: (re)initialize an object in stack or static storage that is on neither chain. */
    method Place(o: Obj, c: Cell)
      requires Valid() && !stopped && Enabled(Abs(), States.Place(o, c), m) && o.live
      modifies this`world, o
      ensures Valid() && Abs() == Step(old(Abs()), States.Place(o, c), m)
    {
      StepKeepsInv(Abs(), States.Place(o, c), m);
      Initialize(o, c, null);
    }

    /** Fill in an object that is on neither chain. */
    method Initialize(o: Obj, c: Cell, link: Obj?)
      requires Rep() && o.live && o !in chain && o !in roots && o != base
      modifies this`world, o
      ensures Rep() && o.heap == link && world == old(world) + {o}
      ensures Abs() == old(Abs()).(cells := old(Abs()).cells[o := c])
    {
      ghost var cs := Snapshot(world);
      o.Fill(c, link);
      world := world + {o};
      assert Snapshot(world) == cs[o := c];
      ChainsUntouched(o);
    }

    /** Links of objects other than "o" are what they were. */
    twostate lemma ChainsUntouched(new o: Obj)
      requires old(Rep()) && old(world) <= world && chain == old(chain) && roots == old(roots) && layout == old(layout)
      requires o !in chain && o !in roots && o != base
      requires forall x | x in world && x != o :: x in old(world) && x.heap == old(x.heap) && x.live
      requires o.live
      ensures Rep()
    {
      forall i {:trigger LinkAt(chain, i)} | 0 <= i < |chain|
        ensures LinkAt(chain, i)
      {
        assert old(LinkAt(chain, i)) && chain[i] in Members(chain);
      }
      forall i {:trigger LinkAt(roots, i)} | 0 <= i < |roots|
        ensures LinkAt(roots, i)
      {
        assert old(LinkAt(roots, i)) && roots[i] in Members(roots);
      }
    }

    // ---- Allocation ----

    /** Link a new object in front of the allocation chain and fill it in (lines 172-194 and 221-223). */
    method Enlist(o: Obj, c: Cell)
      requires Rep() && o.live && o !in world && base !in chain && base !in roots
      modifies this`world, this`chain, o, base`heap
      ensures Rep() && world == old(world) + {o}
      ensures Abs() == old(Abs()).(cells := old(Abs()).cells[o := c], chain := [o] + old(chain))
    {
      assert o !in Members(chain) && o !in Members(roots);
      Initialize(o, c, base.heap);
      EnlistLinks(o);
    }

    method EnlistLinks(o: Obj)
      requires Rep() && o in world && o !in chain && o !in roots && o != base && o.heap == base.heap
      requires base !in chain && base !in roots
      modifies this`chain, base`heap
      ensures Rep() && Abs() == old(Abs()).(chain := [o] + old(chain))
    {
      base.SetLink(o);
      ghost var q := [o] + chain;
      forall i {:trigger LinkAt(q, i)} | 0 <= i < |q|
        ensures LinkAt(q, i)
      {
        assert i > 0 ==> old(LinkAt(chain, i - 1)) && chain[i - 1] in chain;
      }
      forall i {:trigger LinkAt(roots, i)} | 0 <= i < |roots|
        ensures LinkAt(roots, i)
      {
        assert old(LinkAt(roots, i)) && roots[i] in roots;
      }
      assert Snapshot(world) == old(Snapshot(world));
      chain := q;
    }

    /** x_error with the embedder's message, if there is one, and x_sys_exit. */
    method Halt(msg: bool)
      requires Rep() && msg == (Current(Abs(), ALLOC_ERROR) != null)
      modifies this`log, this`stopped
      ensures Rep() && Abs() == States.Halt(old(Abs()))
    {
      log := log + (if msg then [Stderr] else []) + [Exit];
      stopped := true;
    }

    /** Whether base fields may be read: the type slot and the base tree are set. */
    method IsFull() returns (full: bool)
      requires Rep()
      ensures full == Full(Abs())
    {
      assert CellAt(Abs(), Base) == base.Contents();
      full := base.kind != Untyped && base.first != null;
    }

    /** What x_obj_alloc reads from the base before anything else (lines 96-107, 109 and 128). */
    method Consult() returns (full: bool, latched: bool, tripped: bool, msg: bool, hook: bool)
      requires Rep() && Navigable() && Required(layout.Keys)
      ensures full == Full(Abs())
      ensures latched == (full && LimitOf(Abs()) < 0)
      ensures tripped == (full && LimitOf(Abs()) > 0 && CountOf(Abs()) >= LimitOf(Abs()))
      ensures full ==> msg == (Current(Abs(), ALLOC_ERROR) != null) && hook == (Current(Abs(), HOOK_ERROR) != null)
    {
      full := IsFull();
      if !full {
        return false, false, false, false, false;
      }
      latched, tripped := Ceiling();
      msg, hook := Reporters();
    }

    method Ceiling() returns (latched: bool, tripped: bool)
      requires Rep() && Navigable() && LIMIT_ATOM in layout && COUNT_ATOM in layout
      ensures latched == (LimitOf(Abs()) < 0)
      ensures tripped == (LimitOf(Abs()) > 0 && CountOf(Abs()) >= LimitOf(Abs()))
    {
      var limit := Number(LIMIT_ATOM);
      var count := Number(COUNT_ATOM);
      latched := limit < 0;
      tripped := limit > 0 && count >= limit;
    }

    /** The integer an atom of the base holds. */
    method Number(p: Path) returns (n: int)
      requires Rep() && Navigable() && p in layout
      ensures n == CellAt(Abs(), p).num
    {
      var atom := Access(p);
      n := atom.num;
    }

    /** Are there a message and a hook to report a tripped ceiling with? */
    method Reporters() returns (msg: bool, hook: bool)
      requires Rep() && Navigable() && ALLOC_ERROR in layout && HOOK_ERROR in layout
      ensures msg == (Current(Abs(), ALLOC_ERROR) != null) && hook == (Current(Abs(), HOOK_ERROR) != null)
    {
      var message := Field(ALLOC_ERROR);
      var handler := Field(HOOK_ERROR);
      msg, hook := message != null, handler != null;
    }

    /** Report a tripped ceiling, with the latch already down, and stop unless the hook never returns (lines 131-135). */
    method Report(msg: bool, hook: bool, reaction: Reaction)
      requires Callable() && Full(Abs()) && LimitOf(Abs()) < 0
      requires msg == (Current(Abs(), ALLOC_ERROR) != null) && hook == (Current(Abs(), HOOK_ERROR) != null)
      modifies this`log, this`stopped, this`world, this`chain, base`heap
      modifies {layout[COUNT_ATOM]}`num, {layout[LIMIT_ATOM]}`num
      ensures Rep() && old(world) <= world && Abs() == Reported(old(Abs()), reaction)
      decreases reaction, 1
    {
      if !msg || !hook {
        Halt(msg);
        return;
      }
      ghost var s := Abs();
      log := log + [ErrorHook];
      assert Abs() == s.(log := s.log + [ErrorHook]);
      RunHook(reaction);
    }

    /** The error hook: what it asks for goes through the allocator, which finds the latch down and stops. */
    method RunHook(reaction: Reaction)
      requires Callable() && Full(Abs()) && LimitOf(Abs()) < 0
      modifies this`log, this`stopped, this`world, this`chain, base`heap
      modifies {layout[COUNT_ATOM]}`num, {layout[LIMIT_ATOM]}`num
      ensures Rep() && old(world) <= world && Abs() == Hook(old(Abs()), reaction)
      decreases reaction, 0
    {
      match reaction
      case Jumps =>
      case Returns =>
        log, stopped := log + [Exit], true;
      case Allocates(_, c, oom, inner, _) =>
        var _ := TryAlloc(c, oom, inner);
    }

    /** What the allocator needs to find its way. */
    ghost predicate Callable()
      reads `world, `chain, `roots, `layout, world`heap, world`live, world`first, world`rest
    {
      && Rep() && Navigable() && Required(layout.Keys)
      && base !in chain && base !in roots && layout[LIMIT_ATOM] != base
    }

    method Latch()
      requires Rep() && Navigable() && LIMIT_ATOM in layout
      modifies {layout[LIMIT_ATOM]}`num
      ensures Rep() && Abs() == SetNum(old(Abs()), LIMIT_ATOM, -1)
    {
      var limit := Access(LIMIT_ATOM);
      StoreNum(limit, -1);
    }

    method CountUp()
      requires Rep() && Navigable() && COUNT_ATOM in layout && Full(Abs())
      modifies {layout[COUNT_ATOM]}`num
      ensures Rep() && Abs() == old(Abs()).(cells := Bump(old(Abs()).cells, CounterOf(old(Abs())), 1))
    {
      var count := Access(COUNT_ATOM);
      StoreNum(count, count.num + 1);
    }

    /** How many extra units go in front of a header (lines 99-100). */
    method ReadExtra(full: bool) returns (extra: nat)
      requires Rep() && Navigable() && EXTRA_ATOM in layout && full == Full(Abs())
      ensures extra == ExtraOf(Abs())
    {
      extra := 0;
      if full {
        var n := Number(EXTRA_ATOM);
        extra := if n > 0 then n else 0;
      }
    }

    /** x_obj_alloc and x_obj_make_va, without their effect on the invariant. */
    method TryAlloc(c: Cell, oom: bool, reaction: Reaction) returns (o: Obj?)
      requires Callable()
      modifies this`log, this`stopped, this`world, this`chain, base`heap
      modifies {layout[COUNT_ATOM]}`num, {layout[LIMIT_ATOM]}`num
      ensures Rep() && old(world) <= world
      ensures (o != null) == old(Decide(Abs(), oom)).Allowed?
      ensures o != null ==> fresh(o) && Abs() == Enter(old(Abs()), o, c)
      ensures o == null ==> Abs() == Refuse(old(Abs()), oom, reaction)
      decreases reaction, 3
    {
      var full, latched, tripped, msg, hook := Consult();
      var extra := ReadExtra(full);
      if latched || tripped || oom {
        TurnDown(full, latched, tripped, msg, hook, oom, reaction);
        return null;
      }
      o := Make(c, full, extra);
    }

    /** The ways an allocation ends without an object (lines 109-136 and 156-164). */
    method TurnDown(full: bool, latched: bool, tripped: bool, msg: bool, hook: bool, ghost oom: bool, reaction: Reaction)
      requires Callable() && full == Full(Abs())
      requires latched == Decide(Abs(), oom).Latched? && tripped == Decide(Abs(), oom).Tripped?
      requires !Decide(Abs(), oom).Allowed?
      requires full ==> msg == (Current(Abs(), ALLOC_ERROR) != null) && hook == (Current(Abs(), HOOK_ERROR) != null)
      modifies this`log, this`stopped, this`world, this`chain, base`heap
      modifies {layout[COUNT_ATOM]}`num, {layout[LIMIT_ATOM]}`num
      ensures Rep() && old(world) <= world && Abs() == Refuse(old(Abs()), oom, reaction)
      decreases reaction, 2
    {
      if tripped {
        LatchDown(Abs());
        Latch();
        Report(msg, hook, reaction);
      } else if full {
        Halt(msg);
      }
    }

    /** The allocation itself (lines 138 and 167-196). */
    method Make(c: Cell, full: bool, extra: nat) returns (o: Obj)
      requires Callable() && full == Full(Abs()) && extra == ExtraOf(Abs())
      modifies this`log, this`world, this`chain, base`heap, {layout[COUNT_ATOM]}`num
      ensures Rep() && old(world) <= world && fresh(o) && Abs() == Enter(old(Abs()), o, c)
    {
      Tally(full);
      o := Create(if extra > 0 then c.(flags := Set(c.flags, META)) else c, extra);
    }

    /** Count one more object on a base that counts. */
    method Tally(full: bool)
      requires Rep() && Navigable() && COUNT_ATOM in layout && full == Full(Abs())
      modifies {layout[COUNT_ATOM]}`num
      ensures Rep() && Abs() == old(Abs()).(cells := Bump(old(Abs()).cells, CounterOf(old(Abs())), 1))
    {
      if full {
        CountUp();
      }
    }

    /** A new object with its block, in front of the allocation chain. */
    method Create(header: Cell, lead: nat) returns (o: Obj)
      requires Rep() && base !in chain && base !in roots
      modifies this`log, this`world, this`chain, base`heap
      ensures Rep() && old(world) <= world && fresh(o) && o !in old(world)
      ensures var s := old(Abs());
              Abs() == s.(cells := s.cells[o := header], chain := [o] + s.chain, log := s.log + EnterEvents(o, header, lead))
    {
      o := new Obj(header.kind, header.flags, header.first, header.rest, header.num);
      assert o !in world;
      Enlist(o, header);
      log := log + EnterEvents(o, header, lead);
    }

    /** x_obj_alloc and x_obj_make_va. */
    method Alloc(c: Cell, oom: bool, reaction: Reaction) returns (o: Obj?)
      requires Valid() && !stopped && GoodCell(Abs(), c, m)
      modifies this`log, this`stopped, this`world, this`chain, base`heap
      modifies {layout[COUNT_ATOM]}`num, {layout[LIMIT_ATOM]}`num
      ensures Valid()
      ensures (o != null) == old(Decide(Abs(), oom)).Allowed?
      ensures o != null ==> fresh(o) && Abs() == Step(old(Abs()), New(o, c, oom, reaction), m)
      ensures o != null ==> o.kind == c.kind && o.first == c.first && o.rest == c.rest && o.num == c.num && c.flags <= o.flags
      ensures o == null ==> Abs() == Refuse(old(Abs()), oom, reaction)
    {
      ghost var s := Abs();
      ReadyToCall();
      o := TryAlloc(c, oom, reaction);
      if o != null {
        EnterKeepsInv(s, o, c, m);
        Effects.EnterStores(s, o, c, m);
        assert Abs().cells[o] == o.Contents();
      } else {
        RefusalKeepsInv(s, oom, reaction, m);
      }
    }

    lemma ReadyToCall()
      requires Rep() && LayoutOk(Abs())
      ensures Callable()
    {
      LayoutIsNavigable();
      assert !Meet(Abs(), LIMIT_ATOM, Base);
    }

    /** Registering an item is pushing it, in the new pair "o", onto the first of the field cell that "p" leads to. */
    ghost predicate Registers(s: State, t: State, p: Path, o: Obj, item: Obj?, oom: bool, reaction: Reaction) {
      && ChainsOk(s) && p in s.layout
      && t == Step(s, States.PushField(s.layout[p], FirstSlot, o, item, NONE, oom, reaction), m)
    }

    /** What x_heap_mark_hook_add, x_heap_free_hook_add and x_heap_mark_root_add have in common. */
    method AddTo(list: HeapList, item: Obj?, oom: bool, reaction: Reaction) returns (o: Obj?)
      requires Valid() && !stopped && Only(item) <= world && (oom ==> Full(Abs()))
      requires ExtraOf(Abs()) > 0 ==> !HasAny(META, m)
      modifies this`log, this`stopped, this`world, this`chain, base`heap
      modifies {layout[COUNT_ATOM]}`num, {layout[LIMIT_ATOM]}`num, {layout[ListField(list)]}`first, {layout[ListField(list)]}`rest
      ensures Valid()
      ensures (o != null) == old(Decide(Abs(), oom)).Allowed?
      ensures o != null ==> fresh(o) && Registers(old(Abs()), Abs(), ListField(list), o, item, oom, reaction)
      ensures o == null ==> Abs() == Refuse(old(Abs()), oom, reaction)
    {
      LayoutIsNavigable();
      ListHeadLive(Abs(), list);
      ListSlotOpen(Abs(), list);
      var field := Access(ListField(list));
      o := PushField(field, FirstSlot, item, NONE, oom, reaction);
    }

    /** x_heap_mark_hook_add. */
    method AddMarkHook(hook: Obj?, oom: bool, reaction: Reaction) returns (o: Obj?)
      requires Valid() && !stopped && Only(hook) <= world && (oom ==> Full(Abs()))
      requires ExtraOf(Abs()) > 0 ==> !HasAny(META, m)
      modifies this`log, this`stopped, this`world, this`chain, base`heap
      modifies {layout[COUNT_ATOM]}`num, {layout[LIMIT_ATOM]}`num, {layout[ListField(MarkHookList)]}`first, {layout[ListField(MarkHookList)]}`rest
      ensures Valid()
      ensures (o != null) == old(Decide(Abs(), oom)).Allowed?
      ensures o != null ==> fresh(o) && Registers(old(Abs()), Abs(), HEAP_MARK_HOOKS, o, hook, oom, reaction)
      ensures o == null ==> Abs() == Refuse(old(Abs()), oom, reaction)
    {
      o := AddTo(MarkHookList, hook, oom, reaction);
    }

    /** x_heap_free_hook_add. */
    method AddFreeHook(hook: Obj?, oom: bool, reaction: Reaction) returns (o: Obj?)
      requires Valid() && !stopped && Only(hook) <= world && (oom ==> Full(Abs()))
      requires ExtraOf(Abs()) > 0 ==> !HasAny(META, m)
      modifies this`log, this`stopped, this`world, this`chain, base`heap
      modifies {layout[COUNT_ATOM]}`num, {layout[LIMIT_ATOM]}`num, {layout[ListField(FreeHookList)]}`first, {layout[ListField(FreeHookList)]}`rest
      ensures Valid()
      ensures (o != null) == old(Decide(Abs(), oom)).Allowed?
      ensures o != null ==> fresh(o) && Registers(old(Abs()), Abs(), HEAP_FREE_HOOKS, o, hook, oom, reaction)
      ensures o == null ==> Abs() == Refuse(old(Abs()), oom, reaction)
    {
      o := AddTo(FreeHookList, hook, oom, reaction);
    }

    /** x_heap_mark_root_add. */
    method AddMarkRoot(root: Obj?, oom: bool, reaction: Reaction) returns (o: Obj?)
      requires Valid() && !stopped && Only(root) <= world && (oom ==> Full(Abs()))
      requires ExtraOf(Abs()) > 0 ==> !HasAny(META, m)
      modifies this`log, this`stopped, this`world, this`chain, base`heap
      modifies {layout[COUNT_ATOM]}`num, {layout[LIMIT_ATOM]}`num, {layout[ListField(MarkRootList)]}`first, {layout[ListField(MarkRootList)]}`rest
      ensures Valid()
      ensures (o != null) == old(Decide(Abs(), oom)).Allowed?
      ensures o != null ==> fresh(o) && Registers(old(Abs()), Abs(), HEAP_MARK_ROOTS, o, root, oom, reaction)
      ensures o == null ==> Abs() == Refuse(old(Abs()), oom, reaction)
    {
      o := AddTo(MarkRootList, root, oom, reaction);
    }

    /** x_obj_push_field. */
    method PushField(at: Obj, d: Slot, item: Obj?, f: Flags, oom: bool, reaction: Reaction) returns (o: Obj?)
      requires Valid() && !stopped && Writable(Abs(), at, d) && (oom ==> Full(Abs()))
      requires GoodCell(Abs(), ItemPair(Abs(), at, d, item, f), m)
      modifies this`log, this`stopped, this`world, this`chain, base`heap
      modifies {layout[COUNT_ATOM]}`num, {layout[LIMIT_ATOM]}`num, at`first, at`rest
      ensures Valid()
      ensures (o != null) == old(Decide(Abs(), oom)).Allowed?
      ensures o != null ==> fresh(o) && Abs() == Step(old(Abs()), States.PushField(at, d, o, item, f, oom, reaction), m)
      ensures o != null ==> o.first == item && o.rest == old(Effects.Unit(at.Contents(), d)) && Effects.Unit(at.Contents(), d) == o
      ensures o == null ==> Abs() == Refuse(old(Abs()), oom, reaction)
    {
      ghost var s := Abs();
      ReadyToCall();
      o := PushUnit(at, d, item, f, oom, reaction);
      if o != null {
        PushFieldKeepsInv(s, at, d, o, item, f, m);
        PushFieldStep(s, at, d, o, item, f, oom, reaction, m);
      } else {
        RefusalKeepsInv(s, oom, reaction, m);
      }
    }

    lemma NewContents(s: State, o: Obj, c: Cell)
      requires o in world && Abs() == Enter(s, o, c)
      ensures o.first == c.first && o.rest == c.rest
    {
      assert Abs().cells[o] == o.Contents();
    }

    method PushUnit(at: Obj, d: Slot, item: Obj?, f: Flags, oom: bool, reaction: Reaction) returns (o: Obj?)
      requires Callable() && at in world
      modifies this`log, this`stopped, this`world, this`chain, base`heap
      modifies {layout[COUNT_ATOM]}`num, {layout[LIMIT_ATOM]}`num, at`first, at`rest
      ensures Rep() && old(world) <= world
      ensures (o != null) == old(Decide(Abs(), oom)).Allowed?
      ensures o != null ==> fresh(o) && Abs() == WithItem(old(Abs()), at, d, o, item, f)
      ensures o != null ==> o.first == item && o.rest == old(Effects.Unit(at.Contents(), d)) && Effects.Unit(at.Contents(), d) == o
      ensures o == null ==> Abs() == Refuse(old(Abs()), oom, reaction)
    {
      var was := if d.FirstSlot? then at.first else at.rest;
      ghost var s := Abs();
      assert was == SlotOf(s, at, d);
      o := TryAlloc(Cell(PairType, f, item, was, 0), oom, reaction);
      if o != null {
        NewContents(s, o, Cell(PairType, f, item, was, 0));
        StoreUnit(at, d, o);
      }
    }

    /** x_obj_pop_field on a data unit that holds a pair. */
    method PopField(at: Obj, d: Slot) returns (top: Obj?)
      requires Valid() && !stopped && Writable(Abs(), at, d)
      requires Only(SlotOf(Abs(), at, d)) <= world && SlotOf(Abs(), at, d) != null && Only(SlotOf(Abs(), at, d).rest) <= world
      modifies at`first, at`rest
      ensures var s := old(Abs()); var o := SlotOf(s, at, d);
              && o in s.cells && top == s.cells[o].first
              && Valid() && Abs() == Step(s, States.SetSlot(at, d, s.cells[o].rest), m)
      ensures var o := old(Effects.Unit(at.Contents(), d));
              o != null && top == old(o.first) && Effects.Unit(at.Contents(), d) == old(o.rest)
    {
      var head := if d.FirstSlot? then at.first else at.rest;
      StepKeepsInv(Abs(), States.SetSlot(at, d, head.rest), m);
      top := head.first;
      StoreUnit(at, d, head.rest);
    }

    // ---- Collection ----

    /** x_heap_root_chain_mark(base, m), then x_heap_tree_mark(base, x_base(base), m), with no mark hook set. */
    method MarkAll(ghost r: set<Obj>)
      requires Rep() && Navigable() && X_BASE in layout && HEAP_ROOT_CHAIN in layout
      requires Current(Abs(), HEAP_ROOT_CHAIN) == Head(roots) && Current(Abs(), HEAP_MARK) == null
      requires Closed(Snapshot(world), r) && Members(roots) <= r && layout[X_BASE] in r
      modifies world`flags
      ensures Rep() && Abs() == Mark(old(Abs()), m)
    {
      ghost var s := Abs();
      var tree := Access(X_BASE);
      assert LeadsOn(X_BASE) && At(s, X_BASE) == tree;
      MarkRegistered(r);
      ghost var t := Abs();
      MarkTree(tree, r);
      MarkedBoth(s, t, Abs(), tree);
    }

    lemma MarkedBoth(s: State, t: State, u: State, tree: Obj)
      requires t == s.(cells := MarkRoots(s.cells, Members(s.roots), m)) && At(s, X_BASE) == tree
      requires u == t.(cells := MarkFrom(t.cells, Only(tree), m))
      ensures u == Mark(s, m)
    {
    }

    /** x_heap_tree_mark(base, tree, m). */
    method MarkTree(tree: Obj, ghost r: set<Obj>)
      requires Rep() && Closed(Snapshot(world), r) && tree in r
      modifies world`flags
      ensures Rep() && Abs() == old(Abs()).(cells := MarkFrom(old(Abs()).cells, Only(tree), m))
    {
      var _, _ := TreeMark(tree, m, world, r);
    }

    /** x_heap_root_chain_mark(base, m): on a base that is not set there is no chain to mark. */
    method MarkRegistered(ghost r: set<Obj>)
      requires Rep() && Navigable()
      requires base.first != null ==>
                 HEAP_ROOT_CHAIN in layout && Current(Abs(), HEAP_ROOT_CHAIN) == Head(roots)
      requires Closed(Snapshot(world), r) && Members(roots) <= r
      modifies world`flags
      ensures Rep() && Closed(Snapshot(world), r)
      ensures base.first == null ==> Abs() == old(Abs())
      ensures base.first != null ==> Abs() == old(Abs()).(cells := MarkRoots(old(Abs()).cells, Members(roots), m))
    {
      var slot := RootSlot();
      if slot != null {
        assert slot.first == Current(Abs(), HEAP_ROOT_CHAIN);
        RootChainMark(slot.first, m, roots, world, r);
      }
    }

    /** x_heap_chain_clear(base, x_obj_heap(base), b): give back a borrowed mark. */
    method ClearChain(b: Flags)
      requires Rep()
      modifies world`flags
      ensures Rep() && Abs() == old(Abs()).(cells := Wash(old(Abs()).cells, Members(chain), b))
    {
      ChainClear(base.Link(), b, chain, world);
    }

    /** x_obj_free: count the object off, release what it owns, release its block, found by its flags. */
    method Free(o: Obj, counter: Obj?, extra: nat)
      requires o in world && o.live && (counter != null ==> counter in world && counter != o)
      modifies this`world, this`log, o`live, Only(counter)`num
      ensures world == old(world) - {o} && !o.live
      ensures Snapshot(world) == Bump(old(Snapshot(world)) - {o}, counter, -1)
      ensures log == old(log) + FreeEvents(o, old(o.Contents()), Disposal(false, extra))
      ensures log == old(log) + (if 5 in old(o.flags) then [ReleaseDatum(o, old(o.num))] else []) + [Release(o, if 7 in old(o.flags) then extra else 0)]
    {
      ghost var cs := Snapshot(world);
      CountDown(counter);
      ReleaseMemory(o, extra);
      o.live := false;
      world := world - {o};
      BumpApart(cs, o, counter);
    }

    /** Release the datum, if the object owns one, and then the block. */
    method ReleaseMemory(o: Obj, extra: nat)
      requires o.live
      modifies this`log
      ensures log == old(log) + FreeEvents(o, o.Contents(), Disposal(false, extra))
      ensures log == old(log) + (if 5 in o.flags then [ReleaseDatum(o, o.num)] else []) + [Release(o, if 7 in o.flags then extra else 0)]
    {
      assert o.flags * {5} == if 5 in o.flags then {5} else {};
      assert o.flags * {7} == if 7 in o.flags then {7} else {};
      if HasAny(o.Bits(), OWN) {
        log := log + [ReleaseDatum(o, o.num)];
      }
      var lead := if HasAny(o.Bits(), META) then extra else 0;
      log := log + [Release(o, lead)];
    }

    lemma BumpApart(cs: Cells, o: Obj, counter: Obj?)
      requires counter != o
      ensures Bump(cs, counter, -1) - {o} == Bump(cs - {o}, counter, -1)
    {
    }

    /** One object less where objects are counted. */
    method CountDown(counter: Obj?)
      requires counter != null ==> counter in world
      modifies Only(counter)`num
      ensures Snapshot(world) == Bump(old(Snapshot(world)), counter, -1)
    {
      if counter != null {
        ghost var cs := Snapshot(world);
        counter.num := counter.num - 1;
        assert Snapshot(world) == Bump(cs, counter, -1);
      }
    }

    /** Node "k" of the chain leaves it: "prev", the node before it or the base, links past it (line 105). */
    method Unlink(prev: Obj, node: Obj, ghost k: nat)
      requires Rep() && Distinct(chain) && base !in chain && base !in roots && Members(chain) !! Members(roots)
      requires k < |chain| && node == chain[k] && prev == (if k == 0 then base else chain[k - 1])
      modifies this`chain, prev`heap
      ensures Rep() && chain == old(chain[..k] + chain[k + 1..])
      ensures Snapshot(world) == old(Snapshot(world))
    {
      assert LinkAt(chain, k) && node in Members(chain) && prev in world;
      assert prev != base ==> prev in Members(chain);
      ghost var was, q := chain, chain[..k] + chain[k + 1..];
      prev.SetLink(node.Link());
      forall i {:trigger LinkAt(q, i)} | 0 <= i < |q|
        ensures LinkAt(q, i)
      {
        assert old(LinkAt(was, if i < k then i else i + 1));
        assert q[i] in Members(was);
      }
      forall i {:trigger LinkAt(roots, i)} | 0 <= i < |roots|
        ensures LinkAt(roots, i)
      {
        assert old(LinkAt(roots, i)) && roots[i] in Members(roots);
      }
      assert forall x | x in q :: x in Members(was);
      assert Snapshot(world) == old(Snapshot(world));
      chain := q;
    }

    /** The branch of the sweep that frees (lines 101-106). */
    method DropNode(prev: Obj, node: Obj, ghost k: nat, d: Disposal, counter: Obj?)
      requires Rep() && Distinct(chain) && base !in chain && base !in roots && Members(chain) !! Members(roots)
      requires k < |chain| && node == chain[k] && prev == (if k == 0 then base else chain[k - 1])
      requires counter != null ==> counter in world && counter != node
      modifies this`chain, this`world, this`log, prev`heap, node`live, Only(counter)`num
      ensures Rep() && chain == old(chain[..k] + chain[k + 1..]) && world == old(world) - {node}
      ensures Snapshot(world) == Bump(old(Snapshot(world)) - {node}, counter, -1)
      ensures log == old(log) + FreeEvents(node, old(node.Contents()), d)
    {
      HookFirst(log, node, node.Contents(), d);
      CallFreeHook(node, d);
      assert node in Members(chain) && node !in Members(roots);
      Unlink(prev, node, k);
      Discard(node, counter, d.extra);
    }

    lemma HookFirst(es: seq<Event>, o: Obj, c: Cell, d: Disposal)
      ensures es + (if d.hook then [FreeHook(o)] else []) + FreeEvents(o, c, Disposal(false, d.extra)) == es + FreeEvents(o, c, d)
    {
      assert d.hook ==> [FreeHook(o)] + FreeEvents(o, c, Disposal(false, d.extra)) == FreeEvents(o, c, d);
    }

    method CallFreeHook(o: Obj, d: Disposal)
      modifies this`log
      ensures log == old(log) + if d.hook then [FreeHook(o)] else []
    {
      if d.hook {
        log := log + [FreeHook(o)];
      }
    }

    /** Free a node that is on no chain. */
    method Discard(o: Obj, counter: Obj?, extra: nat)
      requires Rep() && o in world && o != base && o !in chain && o !in roots
      requires counter != null ==> counter in world && counter != o
      modifies this`world, this`log, o`live, Only(counter)`num
      ensures Rep() && world == old(world) - {o}
      ensures Snapshot(world) == Bump(old(Snapshot(world)) - {o}, counter, -1)
      ensures log == old(log) + FreeEvents(o, old(o.Contents()), Disposal(false, extra))
    {
      assert {base} + Members(chain) + Members(roots) <= world - {o};
      Free(o, counter, extra);
    }

    /** The branch that retains (lines 97-99). */
    method KeepNode(node: Obj, ghost cs: Cells)
      requires Rep() && node in world && cs == Snapshot(world)
      modifies node`flags
      ensures Rep()
      ensures Snapshot(world) == cs[node := cs[node].(flags := Clear(cs[node].flags, m))]
    {
      node.SetBits(Clear(node.Bits(), m));
    }

    /** The sweep meets the nodes of the chain it found, with the contents they had. */
    lemma NodeFacts(s: State, front: seq<Obj>, q: seq<Obj>, i: nat, d: Disposal, counter: Obj?)
      requires Rep() && Sweepable(base, s, front, q, counter, m) && i < |q| && Abs() == After(s, front, q, i, d, counter, m)
      ensures q[i] in s.cells && q[i] in world && q[i].heap == Nth(q, i + 1)
      ensures q[i].flags == s.cells[q[i]].flags && (q[i] != counter ==> q[i].Contents() == s.cells[q[i]])
    {
      PassUntouched(s.cells, q, i, i, m, counter);
      var k := |front + Survivors(s.cells, q[..i], m)|;
      assert chain[k] == q[i] && Nth(chain, k + 1) == Nth(q, i + 1);
      assert LinkAt(chain, k) && q[i] in Members(chain);
      assert Snapshot(world)[q[i]] == q[i].Contents();
    }

    /** One turn of the loop of x_heap_sweep, at a node that is freed. */
    method SweepDrop(prev: Obj, node: Obj, d: Disposal, counter: Obj?, ghost s: State, ghost front: seq<Obj>, ghost q: seq<Obj>, ghost i: nat)
      requires Rep() && Sweepable(base, s, front, q, counter, m) && i < |q| && node == q[i] && prev == TrailAt(base, s, front, q, i, m)
      requires Abs() == After(s, front, q, i, d, counter, m)
      requires node in s.cells && node in world && node.Contents() == s.cells[node]
      requires !Retained(s.cells[node].flags, m) && (counter != null ==> counter in world)
      modifies this`chain, this`world, this`log, prev`heap, node`live, Only(counter)`num
      ensures Rep() && world == old(world) - {node}
      ensures Abs() == After(s, front, q, i + 1, d, counter, m)
    {
      ghost var k := |chain| - |q| + i;
      DropState(base, s, front, q, i, d, counter, m);
      DropChain(base, s, front, q, i, d, counter, k, m);
      DropTrail(base, s, front, q, i, d, counter, k, m);
      DropNode(prev, node, k, d, counter);
    }

    /** One turn of the loop of x_heap_sweep. */
    method SweepOne(prev: Obj, node: Obj, d: Disposal, counter: Obj?, ghost s: State, ghost front: seq<Obj>, ghost q: seq<Obj>, ghost i: nat)
      returns (prev': Obj, node': Obj?)
      requires Rep() && Sweepable(base, s, front, q, counter, m) && i < |q| && node == q[i] && prev == TrailAt(base, s, front, q, i, m)
      requires Abs() == After(s, front, q, i, d, counter, m) && (counter != null ==> counter in world)
      modifies this`chain, this`world, this`log, world`heap, world`flags, world`live, Only(counter)`num
      ensures Rep() && world <= old(world) && (counter != null ==> counter in world)
      ensures Abs() == After(s, front, q, i + 1, d, counter, m)
      ensures node' == Nth(q, i + 1) && prev' == TrailAt(base, s, front, q, i + 1, m)
    {
      NodeFacts(s, front, q, i, d, counter);
      var next := node.Link();
      if Retained(node.Bits(), m) {
        KeepFacts(base, s, front, q, i, d, counter, m);
        KeepNode(node, Snapshot(world));
        return node, next;
      }
      DropTrail(base, s, front, q, i, d, counter, |chain| - |q| + i, m);
      TrailLive(s, front, q, i, d, counter);
      SweepDrop(prev, node, d, counter, s, front, q, i);
      return prev, next;
    }

    lemma TrailLive(s: State, front: seq<Obj>, q: seq<Obj>, i: nat, d: Disposal, counter: Obj?)
      requires Rep() && Sweepable(base, s, front, q, counter, m) && i < |q| && Abs() == After(s, front, q, i, d, counter, m)
      ensures TrailAt(base, s, front, q, i, m) in world
    {
      assert forall x | x in q[..i] :: x in q;
      var kept := front + Survivors(s.cells, q[..i], m);
      assert chain == kept + q[i..];
      assert kept != [] ==> chain[|kept| - 1] in Members(chain);
      assert q[i..] != [] && q[i..][0] == q[i] && chain[|kept|] in Members(chain);
    }

    /** x_heap_sweep(base, start, m), from the head of the chain or a node of it that is retained. */
    method Sweep(start: Obj?, d: Disposal, counter: Obj?, ghost front: seq<Obj>, ghost q: seq<Obj>)
      requires Rep() && Sweepable(base, Abs(), front, q, counter, m) && start == Head(q)
      modifies this`chain, this`world, this`log, world`heap, world`flags, world`live, Only(counter)`num
      ensures Rep()
      ensures Abs() == After(old(Abs()), front, q, |q|, d, counter, m)
    {
      ghost var s := Abs();
      StartFacts(start, d, counter, front, q);
      var prev, node: Obj? := base, start;
      if base.Link() != start {
        prev := start;
      }
      ghost var i: nat := 0;
      while node != null
        invariant Rep() && world <= old(world) && (counter != null ==> counter in world)
        invariant i <= |q| && Abs() == After(s, front, q, i, d, counter, m)
        invariant node == Nth(q, i) && prev == TrailAt(base, s, front, q, i, m)
        decreases |q| - i
      {
        assert i < |q|;
        prev, node := SweepOne(prev, node, d, counter, s, front, q, i);
        i := i + 1;
      }
      assert i == |q|;
    }

    /** Only a start at the head of the chain is the base's own link. */
    lemma StartFacts(start: Obj?, d: Disposal, counter: Obj?, front: seq<Obj>, q: seq<Obj>)
      requires Rep() && Sweepable(base, Abs(), front, q, counter, m) && start == Head(q)
      ensures base.heap == start <==> front == []
      ensures TrailAt(base, Abs(), front, q, 0, m) == if front == [] then base else q[0]
      ensures Abs() == After(Abs(), front, q, 0, d, counter, m)
      ensures counter != null ==> counter in world
    {
      assert base.heap == Head(chain) && q[..0] == [] && q[0..] == q;
      assert front + [] + q == front + q && front + [] == front;
      if front != [] {
        assert chain[0] == front[0] && chain[|front|] == q[0];
      } else {
        assert chain == q;
      }
    }

    /** What x_heap_sweep finds in the base: how to dispose of objects, and where frees are counted. */
    method SweepSetup() returns (d: Disposal, counter: Obj?)
      requires Rep() && Navigable() && Required(layout.Keys)
      ensures d == DisposalOf(Abs()) && counter == CounterOf(Abs())
      ensures d.hook <==> layout[HEAP_FREE].first != null
      ensures d.extra == if base.kind != Untyped && base.first != null && layout[EXTRA_ATOM].num > 0 then layout[EXTRA_ATOM].num else 0
      ensures counter == if base.kind != Untyped && base.first != null then layout[COUNT_ATOM] else null
    {
      assert LeadsOn(HEAP_FREE) && LeadsOn(EXTRA_ATOM) && LeadsOn(COUNT_ATOM);
      var free := Field(HEAP_FREE);
      var full := IsFull();
      var extra := ReadExtra(full);
      d := Disposal(free != null, extra);
      counter := null;
      if full {
        counter := Access(COUNT_ATOM);
      }
    }

    /** A collection: mark the root chain, mark from the base tree, sweep the allocation chain. */
    method Collect()
      requires Valid() && !stopped && Ready(Abs())
      modifies this`chain, this`world, this`log, world`heap, world`flags, world`live, world`num
      ensures Valid() && Abs() == Step(old(Abs()), States.Collect, m)
    {
      ghost var s := Abs();
      LayoutIsNavigable();
      CollectSetup(s, m);
      CollectKeepsInv(s, m);
      CollectStep(s, m);
      CollectObjects(Reachable(s));
    }

    method CollectObjects(ghost r: set<Obj>)
      requires Rep() && Navigable() && Required(layout.Keys) && Current(Abs(), HEAP_MARK) == null
      requires Current(Abs(), HEAP_ROOT_CHAIN) == Head(roots)
      requires Closed(Snapshot(world), r) && Members(roots) <= r && layout[X_BASE] in r
      requires Distinct(chain) && base !in chain && base !in roots && Members(chain) !! Members(roots)
      requires var k := Mark(Abs(), m); var counter := CounterOf(k);
               counter != null ==> counter in k.cells && Retained(k.cells[counter].flags, m)
      modifies this`chain, this`world, this`log, world`heap, world`flags, world`live, world`num
      ensures Rep() && Abs() == Collected(old(Abs()), m)
    {
      MarkAll(r);
      var d, counter := SweepSetup();
      SweepAll(d, counter);
    }

    /** x_heap_sweep(base, x_obj_heap(base), m). */
    method SweepAll(d: Disposal, counter: Obj?)
      requires Rep() && Distinct(chain) && base !in chain && base !in roots && Members(chain) !! Members(roots)
      requires d == DisposalOf(Abs()) && counter == CounterOf(Abs())
      requires counter != null ==> counter in Snapshot(world) && Retained(Snapshot(world)[counter].flags, m)
      modifies this`chain, this`world, this`log, world`heap, world`flags, world`live, Only(counter)`num
      ensures Rep() && Abs() == States.Sweep(old(Abs()), m)
    {
      ghost var s := Abs();
      assert [] + chain == chain;
      Sweep(base.Link(), d, counter, [], chain);
      SweptWhole(s, d, counter);
    }

    lemma SweptWhole(s: State, d: Disposal, counter: Obj?)
      requires Members(s.chain) <= s.cells.Keys && d == DisposalOf(s) && counter == CounterOf(s)
      ensures After(s, [], s.chain, |s.chain|, d, counter, m) == States.Sweep(s, m)
    {
      assert s.chain[..|s.chain|] == s.chain && s.chain[|s.chain|..] == [];
      assert [] + Survivors(s.cells, s.chain, m) + [] == Survivors(s.cells, s.chain, m);
    }
  }
}
