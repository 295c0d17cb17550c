/**
  The state of one base environment as a value, the operations of the library on it, and the
  rules a caller keeps (src/x-obj.c, src/x-heap.c, include/x-heap.h).
 */
module States {
  import opened Flags
  import opened Graphs
  import opened Objects
  import opened Marking
  import opened Sweeping
  import opened Paths

  /**
    "cells" holds every object that has not been freed: those on the allocation chain ("chain",
    newest first), those registered on the root chain ("roots", newest first), and objects in
    stack or static storage on neither, the base object among them. "layout" says which object
    each accessor path of the base leads to. "log" is what has left the library so far.
   */
  datatype State = State(
    cells: Cells,
    chain: seq<Obj>,
    roots: seq<Obj>,
    layout: map<Path, Obj>,
    stopped: bool,
    log: seq<Event>)

  /** Which data unit of a pair. */
  datatype Slot = FirstSlot | RestSlot

  function Follow(c: Cell, p: Path): Obj? {
    if p.First? then c.first else c.rest
  }

  /** Every path of the layout is there for good: its nodes are SHARED, on the chain, and linked as it says. */
  ghost predicate LayoutOk(s: State) {
    && Required(s.layout.Keys)
    && (forall p | p in s.layout :: s.layout[p] in s.cells)
    && (forall p, q {:trigger Meet(s, p, q)} | Meet(s, p, q) :: p == q)
    && (forall l {:trigger ListField(l)} :: s.cells[s.layout[ListField(l)]].kind.PairType?) && s.cells[s.layout[HEAP_ROOT_CHAIN]].kind.PairType?
    && s.cells[s.layout[COUNT_ATOM]].kind.AtomType? && s.cells[s.layout[LIMIT_ATOM]].kind.AtomType? && s.cells[s.layout[EXTRA_ATOM]].kind.AtomType?
    && s.cells[s.layout[EXTRA_ATOM]].num >= 0
    && s.layout[Base] !in s.chain && s.layout[Base] !in s.roots && !s.cells[s.layout[Base]].kind.PairType?
    && (forall p {:trigger LinkOk(s, p)} | p in s.layout && !p.Base? :: LinkOk(s, p))
  }

  ghost predicate Meet(s: State, p: Path, q: Path) {
    p in s.layout && q in s.layout && s.layout[p] == s.layout[q]
  }

  ghost predicate LinkOk(s: State, p: Path) {
    && p in s.layout && !p.Base? && p.up in s.layout
    && s.layout[p] in s.cells && s.layout[p.up] in s.cells
    && Follow(s.cells[s.layout[p.up]], p) == s.layout[p]
    && (if p.up.Base? then p == X_BASE else s.cells[s.layout[p.up]].kind.PairType?)
    && s.layout[p] in s.chain
    && HasAny(s.cells[s.layout[p]].flags, SHARED) && !HasAny(s.cells[s.layout[p]].flags, OWN)
  }

  ghost predicate ChainsOk(s: State) {
    && Distinct(s.chain) && Distinct(s.roots)
    && Members(s.chain) !! Members(s.roots)
    && Members(s.chain) <= s.cells.Keys && Members(s.roots) <= s.cells.Keys
    && OwnersOk(s)
  }

  /** What owns a datum is no pair and holds no object, and nothing else owns the datum, unless it is nil. */
  ghost predicate OwnersOk(s: State) {
    && (forall o {:trigger PureAt(s, o)} | o in s.chain :: PureAt(s, o))
    && (forall o, p {:trigger Shares(s, o, p)} | o in s.chain && p in s.chain && Shares(s, o, p) :: o == p)
  }

  ghost predicate PureAt(s: State, o: Obj) {
    o in s.cells && HasAny(s.cells[o].flags, OWN) ==> !s.cells[o].kind.PairType? && s.cells[o].first == null
  }

  ghost predicate Owns(c: Cell, datum: int) {
    HasAny(c.flags, OWN) && c.num == datum
  }

  ghost predicate OwnsAt(s: State, o: Obj, datum: int) {
    o in s.chain && o in s.cells && Owns(s.cells[o], datum)
  }

  ghost predicate Shares(s: State, o: Obj, p: Obj) {
    o in s.cells && s.cells[o].num != 0 && OwnsAt(s, o, s.cells[o].num) && OwnsAt(s, p, s.cells[o].num)
  }

  /** No object on either chain points at a freed one. */
  ghost predicate NoDangling(s: State) {
    forall o {:trigger PointsAtLive(s, o)} | o in s.cells && (o in s.chain || o in s.roots) :: PointsAtLive(s, o)
  }

  ghost predicate PointsAtLive(s: State, o: Obj) {
    o in s.cells ==> Children(s.cells[o]) <= s.cells.Keys
  }

  ghost predicate Unmarked(s: State, m: Flags) {
    forall o {:trigger CleanAt(s, o, m)} | o in s.chain :: CleanAt(s, o, m)
  }

  ghost predicate CleanAt(s: State, o: Obj, m: Flags) {
    o in s.cells ==> !HasAny(s.cells[o].flags, m)
  }

  ghost predicate Inv(s: State, m: Flags) {
    && LayoutOk(s)
    && ChainsOk(s)
    && NoDangling(s)
    && Unmarked(s, m)
    && s.cells[s.layout[HEAP_ROOT_CHAIN]].first == Head(s.roots)
  }

  // ---- Reading the base ----

  /** The object an accessor path leads to; every required path leads somewhere (LayoutOk). */
  ghost function At(s: State, p: Path): Obj? {
    if p in s.layout then s.layout[p] else null
  }

  ghost function CellAt(s: State, p: Path): Cell {
    var o := At(s, p);
    if o != null && o in s.cells then s.cells[o] else Cell(Untyped, NONE, null, null, 0)
  }

  /** The current value of the field whose cell "p" leads to. */
  ghost function Current(s: State, p: Path): Obj? {
    CellAt(s, p).first
  }

  /** Typed and set: the only bases whose fields the allocator reads. */
  ghost predicate Full(s: State) {
    !CellAt(s, Base).kind.Untyped? && CellAt(s, Base).first != null
  }

  ghost function CountOf(s: State): int {
    CellAt(s, COUNT_ATOM).num
  }

  ghost function LimitOf(s: State): int {
    CellAt(s, LIMIT_ATOM).num
  }

  /** Where the allocator counts; nil while the base is not full. */
  ghost function CounterOf(s: State): Obj? {
    if Full(s) then At(s, COUNT_ATOM) else null
  }

  ghost function ExtraNum(s: State): int {
    CellAt(s, EXTRA_ATOM).num
  }

  /** The extra units in front of each new header; none while the base is not full. */
  ghost function ExtraOf(s: State): nat {
    if Full(s) && ExtraNum(s) > 0 then ExtraNum(s) else 0
  }

  // ---- Allocation (x_obj_alloc, x_obj_make_va) ----

  /**
    What an armed error hook does once the ceiling trips: it returns, it leaves by a nonlocal
    exit, or it asks for an object first, with "inner" as its reaction should that trip again.
   */
  datatype Reaction = Returns | Jumps | Allocates(o: Obj, c: Cell, oom: bool, inner: Reaction, next: Reaction)

  datatype Decision = Allowed | Latched | Tripped | OutOfMemory

  ghost function Decide(s: State, oom: bool): Decision {
    if Full(s) && LimitOf(s) < 0 then Latched
    else if Full(s) && LimitOf(s) > 0 && CountOf(s) >= LimitOf(s) then Tripped
    else if oom then OutOfMemory
    else Allowed
  }

  ghost function SetNum(s: State, p: Path, n: int): State {
    var o := At(s, p);
    if o != null then s.(cells := s.cells[o := CellAt(s, p).(num := n)]) else s
  }

  /** Print the embedder's message, if there is one, and stop. */
  ghost function Halt(s: State): State {
    s.(log := s.log + (if Current(s, ALLOC_ERROR) != null then [Stderr] else []) + [Exit], stopped := true)
  }

  /** The error hook runs; what it asks for goes through the allocator, and after its return the program stops. */
  ghost function Hook(s: State, reaction: Reaction): State
    decreases reaction, 0
  {
    match reaction
    case Jumps => s
    case Returns => s.(log := s.log + [Exit], stopped := true)
    case Allocates(o, c, oom, inner, next) =>
      var t := Alloc(s, o, c, oom, inner);
      if t.stopped then t else Hook(t, next)
  }

  /** The report of a tripped ceiling: through the error hook if message and hook are set. */
  ghost function Reported(s: State, reaction: Reaction): State
    decreases reaction, 1
  {
    if Current(s, ALLOC_ERROR) == null || Current(s, HOOK_ERROR) == null then Halt(s)
    else Hook(s.(log := s.log + [ErrorHook]), reaction)
  }

  /** The latch goes down first; only then is the trip reported, through a hook that may not come back. */
  ghost function Trip(s: State, reaction: Reaction): State
    decreases reaction, 2
  {
    Reported(SetNum(s, LIMIT_ATOM, -1), reaction)
  }

  /** What the allocator makes of the contents asked for: it flags a header that extra units precede. */
  ghost function Header(s: State, c: Cell): Cell {
    if ExtraOf(s) > 0 then c.(flags := Set(c.flags, META)) else c
  }

  /** A block is obtained for the new object, which may be given a datum to own. */
  function EnterEvents(o: Obj, c: Cell, lead: nat): seq<Event> {
    [Obtain(o, lead)] + (if HasAny(c.flags, OWN) then [Adopt(o, c.num)] else [])
  }

  ghost function Enter(s: State, o: Obj, c: Cell): State {
    s.(cells := Bump(s.cells, CounterOf(s), 1)[o := Header(s, c)],
       chain := [o] + s.chain,
       log := s.log + EnterEvents(o, Header(s, c), ExtraOf(s)))
  }

  /** What becomes of an allocation that is not allowed. */
  ghost function Refuse(s: State, oom: bool, reaction: Reaction): State
    decreases reaction, 3
  {
    match Decide(s, oom)
    case Latched => Halt(s)
    case Tripped => Trip(s, reaction)
    case _ => if Full(s) then Halt(s) else s
  }

  ghost function Alloc(s: State, o: Obj, c: Cell, oom: bool, reaction: Reaction): State
    decreases reaction, 4
  {
    if Decide(s, oom).Allowed? then Enter(s, o, c) else Refuse(s, oom, reaction)
  }

  // ---- Collection ----

  /** The roots of a collection: the base tree and every registered object. */
  ghost function Reachable(s: State): set<Obj> {
    Reach(Edges(s.cells), s.cells.Keys, Members(s.roots) + Only(At(s, X_BASE)))
  }

  ghost function Mark(s: State, m: Flags): State {
    s.(cells := MarkFrom(MarkRoots(s.cells, Members(s.roots), m), Only(At(s, X_BASE)), m))
  }

  ghost function Sweep(s: State, m: Flags): State
    requires Members(s.chain) <= s.cells.Keys
  {
    s.(cells := SweepPass(s.cells, s.chain, m, CounterOf(s)),
       chain := Survivors(s.cells, s.chain, m),
       log := s.log + SweepEvents(s.cells, s.chain, DisposalOf(s), m))
  }

  ghost function DisposalOf(s: State): Disposal {
    Disposal(Current(s, HEAP_FREE) != null, ExtraOf(s))
  }

  ghost function Collected(s: State, m: Flags): State
    requires Members(s.chain) <= s.cells.Keys
  {
    Sweep(Mark(s, m), m)
  }

  // ---- Operations and the caller's rules ----

  datatype Op =
    | New(o: Obj, c: Cell, oom: bool, reaction: Reaction)
    | Place(o: Obj, c: Cell)
    | TypeBase(kind: Kind)
    | SetSlot(o: Obj, d: Slot, v: Obj?)
    | Push(o: Obj)
    | Pop
    | Restore(drop: nat)
    | Arm(limit: nat)
    | PushField(at: Obj, d: Slot, o: Obj, item: Obj?, f: Flags, oom: bool, reaction: Reaction)
    | Collect

  ghost predicate Sits(s: State, p: Path, o: Obj) {
    p in s.layout && s.layout[p] == o
  }

  /**
    The slots that hold the base tree together, the root-chain head, which only pushes and pops
    write, and the atoms whose data unit is one of the allocator's numbers.
   */
  ghost predicate Protected(s: State, o: Obj, d: Slot) {
    || (exists p {:trigger Sits(s, p, o)} :: Sits(s, p, o) && (if d.FirstSlot? then First(p) else Rest(p)) in s.layout)
    || (o == At(s, HEAP_ROOT_CHAIN) && d.FirstSlot?)
    || o == At(s, COUNT_ATOM) || o == At(s, LIMIT_ATOM) || o == At(s, EXTRA_ATOM)
  }

  /** A second data unit is there in pairs and in objects of other types, but not in atoms or the base. */
  ghost predicate HasUnit(s: State, o: Obj, d: Slot) {
    d.FirstSlot? || (o != At(s, Base) && o in s.cells && !s.cells[o].kind.AtomType?)
  }

  /** A data unit the program may assign to; the first of an owner holds its datum for good. */
  ghost predicate Writable(s: State, o: Obj, d: Slot) {
    && o in s.cells && HasUnit(s, o, d) && !Protected(s, o, d)
    && (d.FirstSlot? ==> !HasAny(s.cells[o].flags, OWN))
  }

  /** An owner's first data unit holds the address of memory outside the objects that nothing else owns, or nil. */
  ghost predicate MayOwn(s: State, c: Cell) {
    HasAny(c.flags, OWN) ==> !c.kind.PairType? && c.first == null && (c.num != 0 ==> forall o {:trigger OwnsAt(s, o, c.num)} | o in s.chain :: !OwnsAt(s, o, c.num))
  }

  /** The registration rule a collection relies on: off-chain pairs in use are on the root chain (include/x-heap.h, lines 142-152). */
  ghost predicate Registered(s: State) {
    forall o | o in Reachable(s) && o !in s.chain && o !in s.roots :: !s.cells[o].kind.PairType?
  }

  /** An object kept for its SHARED flag alone points at nothing a sweep would free. */
  ghost predicate SharedRule(s: State) {
    forall o {:trigger Secure(s, o)} | o in s.chain && o in s.cells && HasAny(s.cells[o].flags, SHARED) && o !in Reachable(s) ::
      Secure(s, o)
  }

  ghost predicate Secure(s: State, o: Obj) {
    o in s.cells ==>
      forall c | c in Children(s.cells[o]) && c in s.chain && c in s.cells :: HasAny(s.cells[c].flags, SHARED) || c in Reachable(s)
  }

  /** A collection may be made: both rules are kept, and no mark hook is set. */
  ghost predicate Ready(s: State) {
    Registered(s) && SharedRule(s) && Current(s, HEAP_MARK) == null
  }

  /** The META flag is the allocator's to set, and the header it makes must not look marked. */
  ghost predicate GoodCell(s: State, c: Cell, m: Flags) {
    && Children(c) <= s.cells.Keys
    && !HasAny(c.flags, META) && !HasAny(Header(s, c).flags, m)
    && MayOwn(s, c)
  }

  ghost predicate CanNew(s: State, o: Obj, c: Cell, m: Flags) {
    o !in s.cells && GoodCell(s, c, m)
  }

  ghost predicate Enabled(s: State, op: Op, m: Flags) {
    match op
    case New(o, c, _, _) => CanNew(s, o, c, m)
    case Place(o, c) => o !in s.chain && o !in s.roots && o != At(s, Base)
    case TypeBase(kind) => !kind.Untyped? && !kind.PairType?
    case SetSlot(o, d, v) => Writable(s, o, d) && Only(v) <= s.cells.Keys
    case Push(o) => o in s.cells && o !in s.chain && o !in s.roots && o != At(s, Base) && Children(s.cells[o]) <= s.cells.Keys
    case Pop => s.roots != []
    case Restore(k) => k <= |s.roots|
    case Arm(_) => true
    case PushField(at, d, o, item, f, oom, _) =>
      Writable(s, at, d) && CanNew(s, o, ItemPair(s, at, d, item, f), m) && (oom ==> Full(s))
    case Collect => Ready(s)
  }

  ghost function SlotOf(s: State, o: Obj?, d: Slot): Obj? {
    if o == null || o !in s.cells then null else if d.FirstSlot? then s.cells[o].first else s.cells[o].rest
  }

  /** The pair that puts "item" in front of what a data unit holds. */
  ghost function ItemPair(s: State, at: Obj?, d: Slot, item: Obj?, f: Flags): Cell {
    Cell(PairType, f, item, SlotOf(s, at, d), 0)
  }

  ghost function SetFirst(s: State, o: Obj?, v: Obj?): State {
    if o == null || o !in s.cells then s else s.(cells := s.cells[o := s.cells[o].(first := v)])
  }

  ghost function SetRest(s: State, o: Obj?, v: Obj?): State {
    if o == null || o !in s.cells then s else s.(cells := s.cells[o := s.cells[o].(rest := v)])
  }

  ghost function SetUnit(s: State, o: Obj?, d: Slot, v: Obj?): State {
    if d.FirstSlot? then SetFirst(s, o, v) else SetRest(s, o, v)
  }

  ghost function WithKind(s: State, o: Obj?, kind: Kind): State {
    if o == null || o !in s.cells then s else s.(cells := s.cells[o := s.cells[o].(kind := kind)])
  }

  /** The data unit with the new pair "o" in front of what it held. */
  ghost function WithItem(s: State, at: Obj?, d: Slot, o: Obj, item: Obj?, f: Flags): State {
    SetUnit(Enter(s, o, ItemPair(s, at, d, item, f)), at, d, o)
  }

  /** Put "q" on the root chain, and its first node in the field that heads the chain. */
  ghost function SetRoots(s: State, q: seq<Obj>): State {
    SetFirst(s, At(s, HEAP_ROOT_CHAIN), Head(q)).(roots := q)
  }

  function Drop(q: seq<Obj>, k: nat): seq<Obj> {
    if k <= |q| then q[k..] else []
  }

  ghost function Step(s: State, op: Op, m: Flags): State
    requires ChainsOk(s)
  {
    if s.stopped then s
    else
      match op
      case New(o, c, oom, reaction) => Alloc(s, o, c, oom, reaction)
      case Place(o, c) => s.(cells := s.cells[o := c])
      case TypeBase(kind) => WithKind(s, At(s, Base), kind)
      case SetSlot(o, d, v) => SetUnit(s, o, d, v)
      case Push(o) => SetRoots(s, [o] + s.roots)
      case Pop => SetRoots(s, Drop(s.roots, 1))
      case Restore(k) => SetRoots(s, Drop(s.roots, k))
      case Arm(limit) => SetNum(s, LIMIT_ATOM, limit)
      case PushField(at, d, o, item, f, oom, reaction) =>
        if Decide(s, oom).Allowed? then WithItem(s, at, d, o, item, f) else Refuse(s, oom, reaction)
      case Collect => Collected(s, m)
  }
}
