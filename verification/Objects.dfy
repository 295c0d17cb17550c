/**
  The objects of include/x-obj.h, the graph their data units form, and the two ways of
  reading the header link: as the allocation chain and as the root chain.
 */
module Objects {
  import opened Flags

  /** What the type slot says: nil, one of the two built-in types, or any other type object. */
  datatype Kind = Untyped | AtomType | PairType | OtherType

  /**
    "first" and "rest" are the data units read as object pointers, "num" is data unit 0 of an
    atom read as an integer. "live" is true from allocation until the memory is released;
    every access of the collector asks for it.
   */
  class Obj {
    var heap: Obj?
    var kind: Kind
    var flags: Flags
    var first: Obj?
    var rest: Obj?
    var num: int
    ghost var live: bool

    constructor (kind: Kind, flags: Flags, first: Obj?, rest: Obj?, num: int)
      ensures Contents() == Cell(kind, flags, first, rest, num)
      ensures heap == null && live
    {
      this.kind, this.flags, this.first, this.rest, this.num := kind, flags, first, rest, num;
      heap, live := null, true;
    }

    /** Everything but the header link. */
    function Contents(): Cell
      reads this
    {
      Cell(kind, flags, first, rest, num)
    }

    function Link(): Obj?
      requires live
      reads this
    {
      heap
    }

    function Bits(): Flags
      requires live
      reads this
    {
      flags
    }

    method SetLink(o: Obj?)
      requires live
      modifies this`heap
      ensures heap == o
    {
      heap := o;
    }

    /** Overwrite the header link and everything else. */
    method Fill(c: Cell, link: Obj?)
      requires live
      modifies this
      ensures Contents() == c && heap == link && live
    {
      heap, kind, flags, first, rest, num := link, c.kind, c.flags, c.first, c.rest, c.num;
    }

    method SetBits(f: Flags)
      requires live
      modifies this`flags
      ensures flags == f
    {
      flags := f;
    }
  }

  datatype Cell = Cell(kind: Kind, flags: Flags, first: Obj?, rest: Obj?, num: int)

  /** The contents of a set of objects at one moment. */
  type Cells = map<Obj, Cell>

  ghost function Snapshot(u: set<Obj>): Cells
    reads u
  {
    map o | o in u :: o.Contents()
  }

  function Only(o: Obj?): set<Obj> {
    if o == null then {} else {o}
  }

  /** Only objects of the built-in pair type have edges. */
  function Children(c: Cell): set<Obj> {
    if c.kind.PairType? then Only(c.first) + Only(c.rest) else {}
  }

  ghost function Edges(cs: Cells): map<Obj, set<Obj>> {
    map o | o in cs :: Children(cs[o])
  }

  /** No edge leaves "r". */
  ghost predicate Closed(cs: Cells, r: set<Obj>) {
    r <= cs.Keys && forall o | o in r :: Children(cs[o]) <= r
  }

  // ---- Chains through the header link ----

  ghost function Members(q: seq<Obj>): set<Obj> {
    set o | o in q
  }

  /** Node "i" of a chain, or nil past its end. */
  function Nth(q: seq<Obj>, i: nat): Obj? {
    if i < |q| then q[i] else null
  }

  function Head(q: seq<Obj>): Obj? {
    Nth(q, 0)
  }

  /** From "head", the header links visit exactly "q", in this order, and then end in nil. */
  ghost predicate Linked(head: Obj?, q: seq<Obj>)
    reads Members(q)`heap
  {
    && head == Head(q)
    && forall i {:trigger LinkAt(q, i)} | 0 <= i < |q| :: LinkAt(q, i)
  }

  ghost predicate LinkAt(q: seq<Obj>, i: nat)
    requires i < |q|
    reads {q[i]}`heap
  {
    q[i].heap == Nth(q, i + 1)
  }

  ghost predicate Distinct(q: seq<Obj>) {
    forall i, j | 0 <= i < j < |q| :: q[i] != q[j]
  }

  /** A chain that ends in nil visits no node twice. */
  lemma LinkedIsDistinct(head: Obj?, q: seq<Obj>)
    requires Linked(head, q)
    ensures Distinct(q)
  {
    forall i, j | 0 <= i < j < |q|
      ensures q[i] != q[j]
    {
      if q[i] == q[j] {
        NoRepeat(head, q, i, j);
      }
    }
  }

  lemma {:induction false} NoRepeat(head: Obj?, q: seq<Obj>, i: nat, j: nat)
    requires Linked(head, q) && i < j < |q|
    ensures q[i] != q[j]
    decreases |q| - j
  {
    assert LinkAt(q, i) && LinkAt(q, j);
    if q[i] == q[j] && j + 1 < |q| {
      NoRepeat(head, q, i + 1, j + 1);
    }
  }

  /** The nodes from position k on are themselves a chain, headed by node k. */
  lemma LinkedSuffix(head: Obj?, q: seq<Obj>, k: nat)
    requires Linked(head, q) && k <= |q|
    ensures Linked(Nth(q, k), q[k..])
  {
    forall i {:trigger LinkAt(q[k..], i)} | 0 <= i < |q| - k
      ensures LinkAt(q[k..], i)
    {
      assert LinkAt(q, k + i);
    }
  }

  /** The chain from a head is unique: two readings of the same links agree. */
  lemma {:induction false} LinkedUnique(head: Obj?, q: seq<Obj>, r: seq<Obj>)
    requires Linked(head, q) && Linked(head, r)
    ensures q == r
  {
    if q != [] && r != [] {
      assert LinkAt(q, 0) && LinkAt(r, 0);
      LinkedSuffix(head, q, 1);
      LinkedSuffix(head, r, 1);
      LinkedUnique(q[0].heap, q[1..], r[1..]);
      assert q == [q[0]] + q[1..] && r == [r[0]] + r[1..];
    }
  }
}
