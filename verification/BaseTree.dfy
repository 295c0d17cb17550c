/** The tree x_base_make builds (src/x-base.c, lines 40-106) and where the accessor paths lead in it. */
module BaseTree {
  import opened Flags
  import opened Objects
  import opened Paths
  import opened States
  import opened Sweeping

  /** A nest of pair(...) and atom(...) around given objects; an absent object is nil. */
  datatype Tree = Given(o: Obj?) | Atom(n: int) | Pair(left: Tree, right: Tree)

  /** struct x_base_t. */
  datatype Config = Config(
    filein: int, fileout: int, fileerr: int,
    hookTypeName: Obj?, hookUnits: Obj?, hookLength: Obj?, hookError: Obj?,
    objMetaExtra: int, heapMark: Obj?, heapFree: Obj?)

  const NIL := Given(null)

  function FieldCell(value: Tree): Tree {
    Pair(value, NIL)
  }

  function Cons(value: Tree, rest: Tree): Tree {
    Pair(FieldCell(value), rest)
  }

  function IoTree(c: Config): Tree {
    Pair(
      Pair(NIL, Cons(Atom(c.filein), Cons(Atom(c.fileout), Cons(Atom(c.fileerr), Cons(NIL, Cons(NIL, NIL)))))),
      NIL)
  }

  function HooksTree(c: Config): Tree {
    Cons(Given(c.hookTypeName), Cons(Given(c.hookUnits), Cons(Given(c.hookLength), Cons(Given(c.hookError), NIL))))
  }

  function HeapTree(c: Config): Tree {
    Cons(Atom(c.objMetaExtra), Cons(Given(c.heapMark), Cons(Given(c.heapFree),
      Cons(NIL, Cons(NIL, Cons(NIL, Cons(NIL, NIL)))))))
  }

  function AllocTree(): Tree {
    Cons(Atom(0), Cons(Atom(0), Cons(NIL, NIL)))
  }

  function Root(c: Config): Tree {
    Pair(NIL, Pair(IoTree(c),
      Pair(Pair(Cons(Atom(0), NIL), HooksTree(c)), Pair(HeapTree(c), Pair(AllocTree(), NIL)))))
  }

  /** The subtree "q" leads to, when "root" leads to "t". */
  function TreeAt(t: Tree, root: Path, q: Path): Tree {
    if q == root then t
    else
      match q
      case Base => NIL
      case First(up) => (match TreeAt(t, root, up) case Pair(l, _) => l case _ => NIL)
      case Rest(up) => (match TreeAt(t, root, up) case Pair(_, r) => r case _ => NIL)
  }

  /** The subtrees that become objects of the environment. */
  predicate IsNode(t: Tree) {
    !t.Given?
  }

  function Givens(t: Tree): set<Obj> {
    match t
    case Given(o) => Only(o)
    case Atom(_) => {}
    case Pair(l, r) => Givens(l) + Givens(r)
  }

  predicate Under(q: Path, p: Path) {
    q == p || (!q.Base? && Under(q.up, p))
  }

  function Depth(q: Path): nat {
    if q.Base? then 0 else Depth(q.up) + 1
  }

  lemma {:induction false} UnderDeeper(q: Path, p: Path)
    requires Under(q, p)
    ensures Depth(q) >= Depth(p)
  {
    if q != p {
      UnderDeeper(q.up, p);
    }
  }

  lemma {:induction false} NotUnderBoth(q: Path, p: Path)
    ensures !(Under(q, First(p)) && Under(q, Rest(p)))
    ensures Under(q, First(p)) || Under(q, Rest(p)) ==> q != p
  {
    if Under(q, First(p)) {
      UnderDeeper(q, First(p));
    }
    if Under(q, Rest(p)) {
      UnderDeeper(q, Rest(p));
    }
    if !q.Base? {
      NotUnderBoth(q.up, p);
      if q == First(p) && Under(p, Rest(p)) {
        UnderDeeper(p, Rest(p));
      }
      if q == Rest(p) && Under(p, First(p)) {
        UnderDeeper(p, First(p));
      }
    }
  }

  lemma {:induction false} NodesUnder(t: Tree, p: Path, q: Path)
    requires TreeAt(t, p, q) != NIL
    ensures Under(q, p)
  {
    if q != p {
      NodesUnder(t, p, q.up);
    }
  }

  /** A pair's subtrees are itself and those of its two sides. */
  lemma {:induction false} PairAt(l: Tree, r: Tree, p: Path, q: Path)
    ensures Under(q, First(p)) ==> TreeAt(Pair(l, r), p, q) == TreeAt(l, First(p), q)
    ensures Under(q, Rest(p)) ==> TreeAt(Pair(l, r), p, q) == TreeAt(r, Rest(p), q)
    ensures TreeAt(Pair(l, r), p, q) != NIL ==> q == p || Under(q, First(p)) || Under(q, Rest(p))
  {
    NotUnderBoth(q, p);
    if q != p && !q.Base? {
      PairAt(l, r, p, q.up);
      NotUnderBoth(q.up, p);
    }
  }

  /** Where every accessor of the allocator and the collector lands in a new base. */
  lemma FieldsOf(c: Config)
    ensures var t := Root(c);
            && TreeAt(t, X_BASE, X_BASE) == t
            && TreeAt(t, X_BASE, HOOK_ERROR) == FieldCell(Given(c.hookError))
            && TreeAt(t, X_BASE, OBJ_META_EXTRA) == FieldCell(Atom(c.objMetaExtra))
            && TreeAt(t, X_BASE, HEAP_MARK) == FieldCell(Given(c.heapMark))
            && TreeAt(t, X_BASE, HEAP_FREE) == FieldCell(Given(c.heapFree))
            && (forall l {:trigger ListField(l)} :: TreeAt(t, X_BASE, ListField(l)) == FieldCell(NIL))
            && TreeAt(t, X_BASE, HEAP_ROOT_CHAIN) == FieldCell(NIL)
            && TreeAt(t, X_BASE, ALLOC_COUNT) == FieldCell(Atom(0))
            && TreeAt(t, X_BASE, ALLOC_LIMIT) == FieldCell(Atom(0))
            && TreeAt(t, X_BASE, ALLOC_ERROR) == FieldCell(NIL)
  {
    var t := Root(c);
    assert TreeAt(t, X_BASE, Rest(X_BASE)) == t.right;
    assert TreeAt(t, X_BASE, META_FIELDS) == t.right.right;
    assert TreeAt(t, X_BASE, First(META_FIELDS)) == t.right.right.left;
    assert TreeAt(t, X_BASE, HOOKS) == HooksTree(c);
    assert TreeAt(t, X_BASE, Rest(META_FIELDS)) == t.right.right.right;
    assert TreeAt(t, X_BASE, HEAP_FIELDS) == HeapTree(c);
    assert TreeAt(t, X_BASE, Rest(Rest(META_FIELDS))) == t.right.right.right.right;
    assert TreeAt(t, X_BASE, ALLOC_FIELDS) == AllocTree();
    RestsAt(t, HOOKS);
    RestsAt(t, HEAP_FIELDS);
    RestsAt(t, Rest(Rest(Rest(HEAP_FIELDS))));
    RestsAt(t, ALLOC_FIELDS);
  }

  /** Where the accessors of the files land. */
  lemma FilesOf(c: Config)
    ensures var t := Root(c);
            && TreeAt(t, X_BASE, FILEIN) == FieldCell(Atom(c.filein))
            && TreeAt(t, X_BASE, FILEOUT) == FieldCell(Atom(c.fileout))
            && TreeAt(t, X_BASE, FILEERR) == FieldCell(Atom(c.fileerr))
            && TreeAt(t, X_BASE, WRITE_BUF) == FieldCell(NIL)
            && TreeAt(t, X_BASE, BUFFER) == FieldCell(NIL)
  {
    var t := Root(c);
    assert TreeAt(t, X_BASE, Rest(X_BASE)) == t.right;
    assert TreeAt(t, X_BASE, First(Rest(X_BASE))) == IoTree(c);
    assert TreeAt(t, X_BASE, First(First(Rest(X_BASE)))) == IoTree(c).left;
    assert TreeAt(t, X_BASE, FILES) == IoTree(c).left.right;
    RestsAt(t, FILES);
    RestsAt(t, Rest(Rest(FILES)));
  }

  /** Where the other accessors land. */
  lemma OtherFieldsOf(c: Config)
    ensures var t := Root(c);
            && TreeAt(t, X_BASE, PROFILE_ALLOCS) == FieldCell(Atom(0))
            && TreeAt(t, X_BASE, HOOK_TYPE_NAME) == FieldCell(Given(c.hookTypeName))
            && TreeAt(t, X_BASE, HOOK_UNITS) == FieldCell(Given(c.hookUnits))
            && TreeAt(t, X_BASE, HOOK_LENGTH) == FieldCell(Given(c.hookLength))
  {
    var t := Root(c);
    assert TreeAt(t, X_BASE, Rest(X_BASE)) == t.right;
    assert TreeAt(t, X_BASE, META_FIELDS) == t.right.right;
    assert TreeAt(t, X_BASE, First(META_FIELDS)) == t.right.right.left;
    assert TreeAt(t, X_BASE, HOOKS) == HooksTree(c);
    RestsAt(t, HOOKS);
  }

  /** Up to three steps along a list below the root. */
  lemma RestsAt(t: Tree, p: Path)
    requires p != Base
    ensures var s := TreeAt(t, X_BASE, p);
            && (s.Pair? && Rest(p) != X_BASE ==> TreeAt(t, X_BASE, Rest(p)) == s.right)
            && (s.Pair? && s.right.Pair? ==> TreeAt(t, X_BASE, Rest(Rest(p))) == s.right.right)
            && (s.Pair? && s.right.Pair? && s.right.right.Pair? ==> TreeAt(t, X_BASE, Rest(Rest(Rest(p)))) == s.right.right.right)
  {
  }

  // ---- A tree laid out in objects ----

  ghost function ValueAt(t: Tree, q: Path, lay: map<Path, Obj>): Obj? {
    if t.Given? then t.o else if q in lay then lay[q] else null
  }

  /** The object at "q" is the SHARED atom or pair that "t" says. */
  ghost predicate NodeOk(cs: Cells, lay: map<Path, Obj>, t: Tree, q: Path) {
    && q in lay && lay[q] in cs
    && match t
       case Given(_) => false
       case Atom(n) => cs[lay[q]] == Cell(AtomType, SHARED, null, null, n)
       case Pair(l, r) => cs[lay[q]] == Cell(PairType, SHARED, ValueAt(l, First(q), lay), ValueAt(r, Rest(q), lay), 0)
  }

  ghost predicate Has(lay: map<Path, Obj>, q: Path) {
    q in lay
  }

  /** "lay" gives each node of "t", named by its path below "p", an object of its own. */
  ghost predicate Built(cs: Cells, lay: map<Path, Obj>, t: Tree, p: Path) {
    && (forall q {:trigger Has(lay, q)} :: Has(lay, q) <==> IsNode(TreeAt(t, p, q)))
    && (forall q {:trigger Has(lay, q)} | Has(lay, q) :: NodeOk(cs, lay, TreeAt(t, p, q), q))
    && (forall q, r {:trigger Has(lay, q), Has(lay, r)} | Has(lay, q) && Has(lay, r) && lay[q] == lay[r] :: q == r)
  }

  ghost predicate Extends(cs: Cells, more: Cells) {
    forall o | o in cs :: o in more && more[o] == cs[o]
  }

  lemma BuiltMore(cs: Cells, more: Cells, lay: map<Path, Obj>, t: Tree, p: Path)
    requires Built(cs, lay, t, p)
    requires Extends(cs, more)
    ensures Built(more, lay, t, p)
  {
    forall q {:trigger Has(lay, q)} | Has(lay, q)
      ensures NodeOk(more, lay, TreeAt(t, p, q), q)
    {
      assert NodeOk(cs, lay, TreeAt(t, p, q), q);
    }
  }

  lemma BuiltBeside(cs: Cells, lay: map<Path, Obj>, t: Tree, p: Path, b: Obj, c: Cell)
    requires Built(cs, lay, t, p) && b !in lay.Values
    ensures Built(cs[b := c], lay, t, p)
  {
    forall q {:trigger Has(lay, q)} | Has(lay, q)
      ensures NodeOk(cs[b := c], lay, TreeAt(t, p, q), q)
    {
      assert NodeOk(cs, lay, TreeAt(t, p, q), q);
      assert lay[q] in lay.Values;
    }
  }

  lemma BuiltAtom(cs: Cells, n: int, p: Path, o: Obj)
    requires o in cs && cs[o] == Cell(AtomType, SHARED, null, null, n)
    ensures Built(cs, map[p := o], Atom(n), p)
  {
    var lay := map[p := o];
    forall q {:trigger Has(lay, q)}
      ensures Has(lay, q) <==> IsNode(TreeAt(Atom(n), p, q))
    {
      if q != p {
        AtomAt(n, p, q);
      }
    }
    assert NodeOk(cs, lay, Atom(n), p);
  }

  lemma BuiltGiven(cs: Cells, o: Obj?, p: Path)
    ensures Built(cs, map[], Given(o), p)
  {
    forall q
      ensures !IsNode(TreeAt(Given(o), p, q))
    {
      GivenAt(o, p, q);
    }
  }

  lemma {:induction false} GivenAt(o: Obj?, p: Path, q: Path)
    ensures TreeAt(Given(o), p, q).Given?
  {
    if q != p && !q.Base? {
      GivenAt(o, p, q.up);
    }
  }

  lemma {:induction false} AtomAt(n: int, p: Path, q: Path)
    requires q != p
    ensures TreeAt(Atom(n), p, q) == NIL
  {
    if !q.Base? && q.up != p {
      AtomAt(n, p, q.up);
    }
  }

  /** A node of one side is the same node of the whole. */
  lemma SideNode(cs: Cells, a: map<Path, Obj>, lay: map<Path, Obj>, t: Tree, side: Path, q: Path)
    requires Built(cs, a, t, side) && Has(a, q)
    requires forall s {:trigger Has(a, s)} | Has(a, s) :: Has(lay, s) && lay[s] == a[s]
    ensures Under(q, side) && TreeAt(t, side, q) != NIL
    ensures NodeOk(cs, lay, TreeAt(t, side, q), q)
  {
    var u := TreeAt(t, side, q);
    assert NodeOk(cs, a, u, q);
    NodesUnder(t, side, q);
    if u.Pair? {
      UnderDeeper(q, side);
      assert TreeAt(t, side, First(q)) == u.left && TreeAt(t, side, Rest(q)) == u.right;
      assert Has(a, First(q)) <==> IsNode(u.left);
      assert Has(a, Rest(q)) <==> IsNode(u.right);
    }
  }

  /** Two sides laid out apart, and a new pair of them. */
  lemma BuiltPair(cs: Cells, a: map<Path, Obj>, b: map<Path, Obj>, l: Tree, r: Tree, p: Path, o: Obj)
    requires Built(cs, a, l, First(p)) && Built(cs, b, r, Rest(p))
    requires a.Values !! b.Values && o !in a.Values && o !in b.Values
    requires o in cs && cs[o] == Cell(PairType, SHARED, ValueAt(l, First(p), a), ValueAt(r, Rest(p), b), 0)
    ensures Built(cs, a + b + map[p := o], Pair(l, r), p)
    ensures (a + b + map[p := o]).Values == a.Values + b.Values + {o}
  {
    var top := map[p := o];
    var lay := a + b + top;
    var w := Pair(l, r);
    assert Has(top, p);
    Sides(cs, a, b, l, r, p, o);
    assert Has(a, First(p)) <==> IsNode(l) by { assert TreeAt(l, First(p), First(p)) == l; }
    assert Has(b, Rest(p)) <==> IsNode(r) by { assert TreeAt(r, Rest(p), Rest(p)) == r; }
    assert NodeOk(cs, lay, w, p);
    forall q {:trigger Has(lay, q)}
      ensures Has(lay, q) <==> IsNode(TreeAt(w, p, q))
      ensures Has(lay, q) ==> NodeOk(cs, lay, TreeAt(w, p, q), q)
    {
      PairAt(l, r, p, q);
      assert Has(lay, q) <==> Has(a, q) || Has(b, q) || q == p;
      assert Has(a, q) <==> IsNode(TreeAt(l, First(p), q));
      assert Has(b, q) <==> IsNode(TreeAt(r, Rest(p), q));
      if Has(a, q) {
        SideNode(cs, a, lay, l, First(p), q);
      } else if Has(b, q) {
        SideNode(cs, b, lay, r, Rest(p), q);
      }
    }
    SideValues(a, b, p, o);
    forall q, s {:trigger Has(lay, q), Has(lay, s)} | Has(lay, q) && Has(lay, s) && lay[q] == lay[s]
      ensures q == s
    {
      assert Has(a, q) || Has(b, q) || Has(top, q);
      assert Has(a, s) || Has(b, s) || Has(top, s);
    }
  }

  lemma SideValues(a: map<Path, Obj>, b: map<Path, Obj>, p: Path, o: Obj)
    requires forall s {:trigger Has(a, s)} | Has(a, s) :: s != p && !Has(b, s)
    requires forall s {:trigger Has(b, s)} | Has(b, s) :: s != p
    ensures (a + b + map[p := o]).Values == a.Values + b.Values + {o}
    ensures forall q {:trigger Has(a, q)} | Has(a, q) :: a[q] in a.Values
    ensures forall q {:trigger Has(b, q)} | Has(b, q) :: b[q] in b.Values
  {
    var lay := a + b + map[p := o];
    forall x | x in a.Values + b.Values + {o}
      ensures x in lay.Values
    {
      if x == o {
        assert lay[p] == o;
      } else if x in a.Values {
        var q :| q in a && a[q] == x;
        assert Has(a, q) && lay[q] == x;
      } else {
        var q :| q in b && b[q] == x;
        assert Has(b, q) && lay[q] == x;
      }
    }
  }

  lemma Sides(cs: Cells, a: map<Path, Obj>, b: map<Path, Obj>, l: Tree, r: Tree, p: Path, o: Obj)
    requires Built(cs, a, l, First(p)) && Built(cs, b, r, Rest(p))
    ensures var lay := a + b + map[p := o];
            && (forall s {:trigger Has(a, s)} | Has(a, s) :: s != p && !Has(b, s) && Has(lay, s) && lay[s] == a[s])
            && (forall s {:trigger Has(b, s)} | Has(b, s) :: s != p && Has(lay, s) && lay[s] == b[s])
  {
    forall s
      ensures Has(a, s) ==> s != p && !Has(b, s)
      ensures Has(b, s) ==> s != p
    {
      NotUnderBoth(s, p);
      if Has(a, s) {
        SideNode(cs, a, a, l, First(p), s);
      }
      if Has(b, s) {
        SideNode(cs, b, b, r, Rest(p), s);
      }
    }
  }

  /** Building "t" adds the objects "news" and nothing else. */
  ghost predicate Laid(cs: Cells, more: Cells, lay: map<Path, Obj>, news: seq<Obj>, t: Tree, p: Path) {
    && more.Keys == cs.Keys + Members(news) && Members(news) !! cs.Keys
    && Extends(cs, more)
    && Built(more, lay, t, p) && lay.Values == Members(news)
  }

  lemma LaidGiven(cs: Cells, o: Obj?, p: Path)
    ensures Laid(cs, cs, map[], [], Given(o), p)
  {
    BuiltGiven(cs, o, p);
  }

  lemma LaidAtom(cs: Cells, n: int, p: Path, o: Obj)
    requires o !in cs
    ensures Laid(cs, cs[o := Cell(AtomType, SHARED, null, null, n)], map[p := o], [o], Atom(n), p)
  {
    BuiltAtom(cs[o := Cell(AtomType, SHARED, null, null, n)], n, p, o);
    assert Members([o]) == {o};
    assert map[p := o][p] == o;
  }

  /** The two sides of a pair at "p", and the pair itself. */
  ghost function Join(a: map<Path, Obj>, b: map<Path, Obj>, p: Path, o: Obj): map<Path, Obj> {
    a + b + map[p := o]
  }

  lemma LaidPair(cs: Cells, mid: Cells, more: Cells, a: map<Path, Obj>, b: map<Path, Obj>,
                 q: seq<Obj>, q': seq<Obj>, l: Tree, r: Tree, p: Path, o: Obj)
    requires Laid(cs, mid, a, q, l, First(p)) && Laid(mid, more, b, q', r, Rest(p)) && o !in more
    ensures var c := Cell(PairType, SHARED, ValueAt(l, First(p), a), ValueAt(r, Rest(p), b), 0);
            Laid(cs, more[o := c], Join(a, b, p, o), [o] + (q' + q), Pair(l, r), p) && Join(a, b, p, o)[p] == o
  {
    PairNews(cs.Keys, mid.Keys, more.Keys, q, q', o);
    PairLaid(mid, more, a, b, l, r, p, o);
  }

  lemma PairLaid(mid: Cells, more: Cells, a: map<Path, Obj>, b: map<Path, Obj>, l: Tree, r: Tree, p: Path, o: Obj)
    requires Built(mid, a, l, First(p)) && Extends(mid, more) && Built(more, b, r, Rest(p))
    requires o !in more && a.Values !! b.Values && o !in a.Values && o !in b.Values
    ensures var c := Cell(PairType, SHARED, ValueAt(l, First(p), a), ValueAt(r, Rest(p), b), 0);
            && Built(more[o := c], Join(a, b, p, o), Pair(l, r), p)
            && Join(a, b, p, o).Values == a.Values + b.Values + {o}
  {
    var all := more[o := Cell(PairType, SHARED, ValueAt(l, First(p), a), ValueAt(r, Rest(p), b), 0)];
    BuiltMore(mid, all, a, l, First(p));
    BuiltMore(more, all, b, r, Rest(p));
    BuiltPair(all, a, b, l, r, p, o);
  }

  lemma PairNews(u: set<Obj>, mid: set<Obj>, more: set<Obj>, q: seq<Obj>, q': seq<Obj>, o: Obj)
    requires mid == u + Members(q) && more == mid + Members(q') && o !in more
    ensures Members([o] + (q' + q)) == Members(q) + Members(q') + {o}
  {
    forall x | x in Members(q) + Members(q') + {o}
      ensures x in [o] + (q' + q)
    {
    }
  }

  // ---- The environment x_base_make returns ----

  /** Just made: the tree is the whole allocation chain, nothing is registered, and the base is untyped. */
  ghost predicate NewBase(s: State, lay: map<Path, Obj>, given: set<Obj>, c: Config, b: Obj) {
    && Built(s.cells, lay, Root(c), X_BASE) && Has(lay, X_BASE)
    && s.layout == lay[Base := b]
    && b in s.cells && s.cells[b] == Cell(Untyped, NONE, lay[X_BASE], null, 0)
    && b !in s.chain && s.roots == []
    && Members(s.chain) == lay.Values && Distinct(s.chain)
    && Givens(Root(c)) <= given && b !in given && given !! lay.Values && s.cells.Keys == given + {b} + lay.Values
    && !s.stopped && s.log == [Obtain(b, 0)] + Obtains(s.chain)
    && c.objMetaExtra >= 0
  }

  /** The blocks of a chain's nodes being obtained, the newest node last, with nothing in front of a header. */
  ghost function Obtains(q: seq<Obj>): seq<Event> {
    if q == [] then [] else Obtains(q[1..]) + [Obtain(q[0], 0)]
  }

  lemma {:induction false} ObtainsJoin(q: seq<Obj>, r: seq<Obj>)
    ensures Obtains(q + r) == Obtains(r) + Obtains(q)
  {
    if q == [] {
      assert q + r == r;
    } else {
      assert (q + r)[1..] == q[1..] + r;
      ObtainsJoin(q[1..], r);
    }
  }

  /** Hanging the finished tree on the base, in a state that was blank otherwise. */
  lemma TreeMakesBase(cs: Cells, s: State, lay: map<Path, Obj>, given: set<Obj>, c: Config, b: Obj)
    requires Laid(cs, s.cells, lay, s.chain, Root(c), X_BASE)
    requires b in cs && cs[b] == Cell(Untyped, NONE, null, null, 0)
    requires Givens(Root(c)) <= given && b !in given && cs.Keys == given + {b}
    requires s.roots == [] && !s.stopped && s.log == [Obtain(b, 0)] + Obtains(s.chain) && Distinct(s.chain)
    requires c.objMetaExtra >= 0
    ensures var tree := ValueAt(Root(c), X_BASE, lay);
            NewBase(s.(cells := s.cells[b := s.cells[b].(first := tree)], layout := lay[Base := b]), lay, given, c, b)
  {
    var tree := ValueAt(Root(c), X_BASE, lay);
    assert Has(lay, X_BASE) <==> IsNode(TreeAt(Root(c), X_BASE, X_BASE));
    BuiltBeside(s.cells, lay, Root(c), X_BASE, b, s.cells[b].(first := tree));
  }

  lemma BelowBase(s: State, lay: map<Path, Obj>, given: set<Obj>, c: Config, b: Obj, p: Path)
    requires NewBase(s, lay, given, c, b) && Has(lay, p)
    ensures LinkOk(s, p) && p != Base && lay[p] in s.chain && lay[p] in s.cells && s.cells[lay[p]].flags == SHARED
  {
    var t := Root(c);
    SideNode(s.cells, lay, lay, t, X_BASE, p);
    UnderDeeper(p, X_BASE);
    assert NodeOk(s.cells, lay, TreeAt(t, X_BASE, p), p);
    assert lay[p] in lay.Values;
    assert SHARED * SHARED == SHARED && 8 in SHARED;
    if p != X_BASE {
      var u := TreeAt(t, X_BASE, p.up);
      assert u.Pair?;
      assert Has(lay, p.up);
      assert NodeOk(s.cells, lay, u, p.up);
      if p.up == Base {
        BaseIsAbove(t);
      }
      assert TreeAt(t, X_BASE, p) == if p.First? then u.left else u.right;
    }
  }

  lemma BaseIsAbove(t: Tree)
    ensures TreeAt(t, X_BASE, Base) == NIL
  {
  }

  lemma NewLayoutOk(s: State, lay: map<Path, Obj>, given: set<Obj>, c: Config, b: Obj)
    requires NewBase(s, lay, given, c, b)
    ensures LayoutOk(s)
  {
    NewPlaces(s, lay, given, c, b);
    NewLinks(s, lay, given, c, b);
    NewNodes(s, lay, given, c, b);
  }

  lemma NewNodes(s: State, lay: map<Path, Obj>, given: set<Obj>, c: Config, b: Obj)
    requires NewBase(s, lay, given, c, b)
    ensures forall p | p in s.layout :: s.layout[p] in s.cells
    ensures At(s, Base) == b
  {
    assert forall p | p in s.layout :: p == Base || (Has(lay, p) && lay[p] in lay.Values);
  }

  lemma NewLinks(s: State, lay: map<Path, Obj>, given: set<Obj>, c: Config, b: Obj)
    requires NewBase(s, lay, given, c, b)
    ensures forall p {:trigger LinkOk(s, p)} | p in s.layout && !p.Base? :: LinkOk(s, p)
    ensures forall p, q {:trigger Meet(s, p, q)} | Meet(s, p, q) :: p == q
  {
    forall p {:trigger LinkOk(s, p)} | p in s.layout && !p.Base?
      ensures LinkOk(s, p)
    {
      BelowBase(s, lay, given, c, b, p);
    }
    forall p, q {:trigger Meet(s, p, q)} | Meet(s, p, q)
      ensures p == q
    {
      if p != Base && q != Base {
        assert Has(lay, p) && Has(lay, q);
      } else if p != Base {
        BelowBase(s, lay, given, c, b, p);
      } else if q != Base {
        BelowBase(s, lay, given, c, b, q);
      }
    }
  }

  /** A field the caller gave a value, or nil, holds it. */
  lemma FieldGiven(s: State, lay: map<Path, Obj>, given: set<Obj>, c: Config, b: Obj, p: Path, v: Obj?)
    requires NewBase(s, lay, given, c, b) && p != Base && TreeAt(Root(c), X_BASE, p) == FieldCell(Given(v))
    ensures p in s.layout && CellAt(s, p).kind.PairType? && Current(s, p) == v
    ensures First(p) !in s.layout
  {
    assert Has(lay, p) && NodeOk(s.cells, lay, FieldCell(Given(v)), p);
    if First(p) in s.layout {
      assert Has(lay, First(p));
      SideNode(s.cells, lay, lay, Root(c), X_BASE, First(p));
      UnderDeeper(p, X_BASE) by { NodesUnder(Root(c), X_BASE, p); }
    }
  }

  /** A field of an integer leads on to an atom that holds it. */
  lemma FieldNumber(s: State, lay: map<Path, Obj>, given: set<Obj>, c: Config, b: Obj, p: Path, n: int)
    requires NewBase(s, lay, given, c, b) && p.First? && TreeAt(Root(c), X_BASE, p) == FieldCell(Atom(n))
    ensures p in s.layout && First(p) in s.layout && CellAt(s, First(p)).num == n && CellAt(s, First(p)).kind.AtomType?
  {
    NodesUnder(Root(c), X_BASE, p);
    UnderDeeper(p, X_BASE);
    assert TreeAt(Root(c), X_BASE, First(p)) == Atom(n);
    assert Has(lay, p) && Has(lay, First(p)) && NodeOk(s.cells, lay, Atom(n), First(p));
  }

  /** The accessors the allocator and the collector use lead to the values the caller gave. */
  lemma NewPlaces(s: State, lay: map<Path, Obj>, given: set<Obj>, c: Config, b: Obj)
    requires NewBase(s, lay, given, c, b)
    ensures Required(s.layout.Keys)
    ensures forall l {:trigger ListField(l)} :: CellAt(s, ListField(l)).kind.PairType? && Current(s, ListField(l)) == null
    ensures CellAt(s, HEAP_ROOT_CHAIN).kind.PairType?
    ensures Current(s, HOOK_ERROR) == c.hookError && Current(s, HEAP_FREE) == c.heapFree
    ensures Current(s, HEAP_ROOT_CHAIN) == null && Current(s, ALLOC_ERROR) == null
    ensures CountOf(s) == 0 && LimitOf(s) == 0 && ExtraNum(s) == c.objMetaExtra && Current(s, HEAP_MARK) == c.heapMark
    ensures CellAt(s, COUNT_ATOM).kind.AtomType? && CellAt(s, LIMIT_ATOM).kind.AtomType? && CellAt(s, EXTRA_ATOM).kind.AtomType?
  {
    FieldsOf(c);
    FieldGiven(s, lay, given, c, b, HEAP_MARK, c.heapMark);
    FieldNumber(s, lay, given, c, b, OBJ_META_EXTRA, c.objMetaExtra);
    FieldGiven(s, lay, given, c, b, HOOK_ERROR, c.hookError);
    FieldGiven(s, lay, given, c, b, HEAP_FREE, c.heapFree);
    forall l {:trigger ListField(l)}
      ensures CellAt(s, ListField(l)).kind.PairType? && Current(s, ListField(l)) == null
      ensures ListField(l) in s.layout && First(ListField(l)) !in s.layout
    {
      FieldGiven(s, lay, given, c, b, ListField(l), null);
    }
    FieldGiven(s, lay, given, c, b, HEAP_ROOT_CHAIN, null);
    FieldGiven(s, lay, given, c, b, ALLOC_ERROR, null);
    FieldNumber(s, lay, given, c, b, ALLOC_COUNT, 0);
    FieldNumber(s, lay, given, c, b, ALLOC_LIMIT, 0);
  }

  /** Nothing in the tree owns anything. */
  lemma NewOwners(s: State, lay: map<Path, Obj>, given: set<Obj>, c: Config, b: Obj)
    requires NewBase(s, lay, given, c, b)
    ensures forall o | o in s.chain :: o in s.cells && s.cells[o].flags == SHARED
    ensures OwnersOk(s)
  {
    assert SHARED * OWN == NONE;
    forall o | o in s.chain
      ensures o in s.cells && s.cells[o].flags == SHARED
    {
      assert o in lay.Values;
      var p :| p in lay && lay[p] == o;
      assert Has(lay, p);
      BelowBase(s, lay, given, c, b, p);
    }
  }

  lemma NewBaseInv(s: State, lay: map<Path, Obj>, given: set<Obj>, c: Config, b: Obj, m: Flags)
    requires NewBase(s, lay, given, c, b) && GoodMask(m)
    ensures Inv(s, m)
  {
    NewLayoutOk(s, lay, given, c, b);
    NewPlaces(s, lay, given, c, b);
    NewOwners(s, lay, given, c, b);
    forall o | o in s.chain
      ensures CleanAt(s, o, m) && PointsAtLive(s, o) && o in s.cells
    {
      assert o in lay.Values;
      var p :| p in lay && lay[p] == o;
      assert Has(lay, p);
      BelowBase(s, lay, given, c, b, p);
      NodeChildren(s.cells, lay, Root(c), X_BASE, p);
    }
  }

  lemma NodeChildren(cs: Cells, lay: map<Path, Obj>, t: Tree, p: Path, q: Path)
    requires Built(cs, lay, t, p) && Has(lay, q) && Givens(t) <= cs.Keys
    ensures Children(cs[lay[q]]) <= cs.Keys
  {
    var u := TreeAt(t, p, q);
    assert NodeOk(cs, lay, u, q);
    SideNode(cs, lay, lay, t, p, q);
    GivensAt(t, p, q);
    if u.Pair? {
      UnderDeeper(q, p);
      assert TreeAt(t, p, First(q)) == u.left && TreeAt(t, p, Rest(q)) == u.right;
      assert Has(lay, First(q)) <==> IsNode(u.left);
      assert Has(lay, Rest(q)) <==> IsNode(u.right);
      assert Has(lay, First(q)) ==> NodeOk(cs, lay, u.left, First(q));
      assert Has(lay, Rest(q)) ==> NodeOk(cs, lay, u.right, Rest(q));
    }
  }

  lemma {:induction false} GivensAt(t: Tree, p: Path, q: Path)
    ensures Givens(TreeAt(t, p, q)) <= Givens(t)
  {
    if q != p && !q.Base? {
      GivensAt(t, p, q.up);
    }
  }
}
