/** What one sweep of the allocation chain does (src/x-heap.c, lines 65-122, and x_obj_free). */
module Sweeping {
  import opened Flags
  import opened Objects

  /**
    What passes between the library and its surroundings: memory obtained and released, data
    handed to an object to own, hooks, messages, process exit. A block obtained for "o" starts
    "lead" units before its header, and so does one released. A datum is named by its address.
   */
  datatype Event =
    | Obtain(o: Obj, lead: nat)
    | FreeHook(o: Obj)
    | Adopt(o: Obj, datum: int)
    | ReleaseDatum(o: Obj, datum: int)
    | Release(o: Obj, lead: nat)
    | ErrorHook
    | Stderr
    | Exit

  predicate Retained(f: Flags, m: Flags) {
    (m != NONE && HasAny(f, m)) || HasAny(f, SHARED)
  }

  ghost function Survivors(cs: Cells, q: seq<Obj>, m: Flags): (r: seq<Obj>)
    requires Members(q) <= cs.Keys
  {
    if q == [] then []
    else
      var o, k := q[|q| - 1], Survivors(cs, q[..|q| - 1], m);
      if Retained(cs[o].flags, m) then k + [o] else k
  }

  ghost function Dead(cs: Cells, q: seq<Obj>, m: Flags): set<Obj>
    requires Members(q) <= cs.Keys
  {
    set o | o in q && !Retained(cs[o].flags, m)
  }

  /** How a base disposes of objects: is there a free hook, and how many units precede a flagged header. */
  datatype Disposal = Disposal(hook: bool, extra: nat)

  /** How far in front of its header the block of an object starts, going by its flags. */
  function Lead(f: Flags, extra: nat): nat {
    if HasAny(f, META) then extra else 0
  }

  /** Everything that leaves the library when "o" is freed, in order. */
  function FreeEvents(o: Obj, c: Cell, d: Disposal): seq<Event> {
    (if d.hook then [FreeHook(o)] else [])
    + (if HasAny(c.flags, OWN) then [ReleaseDatum(o, c.num)] else [])
    + [Release(o, Lead(c.flags, d.extra))]
  }

  ghost function SweepEvents(cs: Cells, q: seq<Obj>, d: Disposal, m: Flags): seq<Event>
    requires Members(q) <= cs.Keys
  {
    if q == [] then []
    else
      var o, k := q[|q| - 1], SweepEvents(cs, q[..|q| - 1], d, m);
      if Retained(cs[o].flags, m) then k else k + FreeEvents(o, cs[o], d)
  }

  ghost function Bump(cs: Cells, counter: Obj?, delta: int): Cells {
    if counter != null && counter in cs then cs[counter := cs[counter].(num := cs[counter].num + delta)] else cs
  }

  /** Node by node: clear a retained node's mark, or drop the node and count it off. */
  ghost function SweepPass(cs: Cells, q: seq<Obj>, m: Flags, counter: Obj?): Cells
    requires Members(q) <= cs.Keys
  {
    if q == [] then cs
    else
      var o, c := q[|q| - 1], SweepPass(cs, q[..|q| - 1], m, counter);
      if o !in c then c
      else if Retained(cs[o].flags, m) then c[o := c[o].(flags := Clear(c[o].flags, m))]
      else Bump(c - {o}, counter, -1)
  }

  /** The outcome of a whole sweep, said at once. */
  ghost function SweepOutcome(cs: Cells, q: seq<Obj>, m: Flags, counter: Obj?): Cells
    requires Members(q) <= cs.Keys
  {
    map o | o in cs.Keys - Dead(cs, q, m) ::
      cs[o].(flags := if o in q then Clear(cs[o].flags, m) else cs[o].flags,
             num := if o == counter then cs[o].num - (|q| - |Survivors(cs, q, m)|) else cs[o].num)
  }

  lemma DeadStep(cs: Cells, p: seq<Obj>, o: Obj, m: Flags)
    requires Members(p + [o]) <= cs.Keys
    ensures Members(p) <= cs.Keys && o in cs
    ensures Dead(cs, p + [o], m) == if Retained(cs[o].flags, m) then Dead(cs, p, m) - {} else Dead(cs, p, m) + {o}
    ensures Survivors(cs, p + [o], m) == if Retained(cs[o].flags, m) then Survivors(cs, p, m) + [o] else Survivors(cs, p, m)
  {
    assert o in p + [o];
    assert forall x | x in p :: x in p + [o];
    assert (p + [o])[..|p|] == p;
  }

  lemma OutcomeStep(cs: Cells, p: seq<Obj>, o: Obj, m: Flags, counter: Obj?)
    requires Members(p + [o]) <= cs.Keys && o !in p
    requires counter != null ==> counter in cs && Retained(cs[counter].flags, m)
    ensures Members(p) <= cs.Keys && o in cs
    ensures var c := SweepOutcome(cs, p, m, counter);
            && o in c && c[o].flags == cs[o].flags
            && SweepOutcome(cs, p + [o], m, counter) ==
                 if Retained(cs[o].flags, m) then c[o := c[o].(flags := Clear(c[o].flags, m))] else Bump(c - {o}, counter, -1)
  {
    DeadStep(cs, p, o, m);
    var c, d := SweepOutcome(cs, p, m, counter), SweepOutcome(cs, p + [o], m, counter);
    assert forall x :: x in p + [o] <==> x in p || x == o;
    if Retained(cs[o].flags, m) {
      assert d == c[o := c[o].(flags := Clear(c[o].flags, m))];
    } else {
      assert d.Keys == (c - {o}).Keys;
      assert counter != o;
    }
  }

  lemma {:induction false} SweepExact(cs: Cells, q: seq<Obj>, m: Flags, counter: Obj?)
    requires Members(q) <= cs.Keys && Distinct(q)
    requires counter != null ==> counter in cs && Retained(cs[counter].flags, m)
    ensures SweepPass(cs, q, m, counter) == SweepOutcome(cs, q, m, counter)
  {
    if q != [] {
      var p, o := q[..|q| - 1], q[|q| - 1];
      assert q == p + [o];
      OutcomeStep(cs, p, o, m, counter);
      SweepExact(cs, p, m, counter);
    }
  }

  /** One more node of the chain. */
  lemma PassStep(cs: Cells, q: seq<Obj>, i: nat, d: Disposal, m: Flags, counter: Obj?)
    requires Members(q) <= cs.Keys && i < |q|
    ensures Members(q[..i]) <= cs.Keys && Members(q[..i + 1]) <= cs.Keys && q[i] in cs
    ensures var o, c := q[i], SweepPass(cs, q[..i], m, counter);
            if Retained(cs[o].flags, m) then
              && Survivors(cs, q[..i + 1], m) == Survivors(cs, q[..i], m) + [o]
              && SweepEvents(cs, q[..i + 1], d, m) == SweepEvents(cs, q[..i], d, m)
              && (o in c ==> SweepPass(cs, q[..i + 1], m, counter) == c[o := c[o].(flags := Clear(c[o].flags, m))])
            else
              && Survivors(cs, q[..i + 1], m) == Survivors(cs, q[..i], m)
              && SweepEvents(cs, q[..i + 1], d, m) == SweepEvents(cs, q[..i], d, m) + FreeEvents(o, cs[o], d)
              && (o in c ==> SweepPass(cs, q[..i + 1], m, counter) == Bump(c - {o}, counter, -1))
  {
    assert q[..i + 1][..i] == q[..i];
    assert forall x | x in q[..i + 1] :: x in q;
    assert q[i] in Members(q);
  }

  /** The pass has not touched nodes it has not come to, but for counting. */
  lemma {:induction false} PassUntouched(cs: Cells, q: seq<Obj>, i: nat, j: nat, m: Flags, counter: Obj?)
    requires Members(q) <= cs.Keys && Distinct(q) && i <= j < |q|
    ensures Members(q[..i]) <= cs.Keys
    ensures var c := SweepPass(cs, q[..i], m, counter);
            && q[j] in c && q[j] in cs && c[q[j]].flags == cs[q[j]].flags
            && (q[j] != counter ==> c[q[j]] == cs[q[j]])
  {
    assert forall x | x in q[..i] :: x in q;
    assert q[j] in Members(q);
    if i > 0 {
      PassUntouched(cs, q, i - 1, j, m, counter);
      assert forall x | x in q[..i - 1] :: x in q;
      PassOther(cs, q, i - 1, q[j], m, counter);
    }
  }

  /** Visiting one node leaves the others alone, but for counting. */
  lemma PassOther(cs: Cells, q: seq<Obj>, i: nat, x: Obj, m: Flags, counter: Obj?)
    requires i < |q| && x != q[i] && Members(q[..i]) <= cs.Keys && Members(q[..i + 1]) <= cs.Keys
    ensures var c, e := SweepPass(cs, q[..i], m, counter), SweepPass(cs, q[..i + 1], m, counter);
            x in c ==> x in e && e[x].flags == c[x].flags && (x != counter ==> e[x] == c[x])
  {
    assert q[..i + 1][..i] == q[..i];
  }

  /** The nodes left are the retained ones, each once. */
  lemma {:induction false} SurvivorsExact(cs: Cells, q: seq<Obj>, m: Flags)
    requires Members(q) <= cs.Keys && Distinct(q)
    ensures Members(Survivors(cs, q, m)) == Members(q) - Dead(cs, q, m)
    ensures Distinct(Survivors(cs, q, m))
  {
    if q != [] {
      var p, o := q[..|q| - 1], q[|q| - 1];
      assert q == p + [o];
      DeadStep(cs, p, o, m);
      SurvivorsExact(cs, p, m);
      assert Members(q) == Members(p) + {o};
      assert o !in Members(p);
      var k, l := Survivors(cs, q, m), Survivors(cs, p, m);
      assert forall x | x in l :: x in Members(l);
      assert Retained(cs[o].flags, m) ==> Members(l + [o]) == Members(l) + {o};
    }
  }

  /** One bit of the mask is enough to be retained, and so is bit 8, SHARED; with neither a node is freed. */
  lemma AnyBitRetains(cs: Cells, q: seq<Obj>, m: Flags, o: Obj)
    requires Members(q) <= cs.Keys && Distinct(q)
    ensures o in Survivors(cs, q, m) <==> o in q && o in cs && (8 in cs[o].flags || exists b :: b in m && b in cs[o].flags)
  {
    SurvivorsExact(cs, q, m);
    assert o in Survivors(cs, q, m) <==> o in Members(Survivors(cs, q, m));
    if o in q {
      assert o in Members(q);
      var f := cs[o].flags;
      assert f * {8} == if 8 in f then {8} else {};
      assert forall b | b in m && b in f :: b in f * m;
      assert f * m != {} ==> exists b :: b in f * m;
    }
  }

  /** A node that is retained loses all bits of the mask and nothing else, but for counting; what is not on the chain keeps its flags. */
  lemma SweepClears(cs: Cells, q: seq<Obj>, m: Flags, counter: Obj?, o: Obj)
    requires Members(q) <= cs.Keys && Distinct(q) && o in cs && (o in q ==> o in Survivors(cs, q, m))
    requires counter != null ==> counter in cs && Retained(cs[counter].flags, m)
    ensures var t := SweepPass(cs, q, m, counter);
            && o in t && t[o] == cs[o].(flags := if o in q then cs[o].flags - m else cs[o].flags, num := t[o].num)
            && t[o].num == cs[o].num - if o == counter then |q| - |Survivors(cs, q, m)| else 0
  {
    SweepExact(cs, q, m, counter);
    SurvivorsExact(cs, q, m);
    assert o in Survivors(cs, q, m) ==> o in Members(Survivors(cs, q, m));
    assert o in SweepOutcome(cs, q, m, counter);
  }

  /** Mid-sweep: the nodes before the start, the retained nodes so far and the nodes to come. */
  lemma PassChain(cs: Cells, front: seq<Obj>, q: seq<Obj>, i: nat, m: Flags)
    requires Members(q) <= cs.Keys && Distinct(q) && Distinct(front + q) && i <= |q| && Members(q[..i]) <= cs.Keys
    ensures var r := front + Survivors(cs, q[..i], m) + q[i..];
            Distinct(r) && Members(r) <= Members(front + q)
  {
    var k := Survivors(cs, q[..i], m);
    DistinctPrefix(q, i);
    SurvivorsExact(cs, q[..i], m);
    forall o | o in k
      ensures o in q[..i]
    {
      assert o in Members(k) && o in Members(q[..i]);
    }
    assert q == q[..i] + q[i..];
    Thinned(front, q[..i], q[i..], k);
  }

  lemma DistinctPrefix(q: seq<Obj>, i: nat)
    requires Distinct(q) && i <= |q|
    ensures Distinct(q[..i])
  {
  }

  /** Without some of its nodes a chain still repeats none. */
  lemma Thinned(front: seq<Obj>, a: seq<Obj>, b: seq<Obj>, k: seq<Obj>)
    requires Distinct(front + (a + b)) && Distinct(k) && forall o | o in k :: o in a
    ensures Distinct(front + k + b) && Members(front + k + b) <= Members(front + (a + b))
  {
    DistinctParts(front, a + b);
    DistinctParts(a, b);
    DistinctJoin(k, b);
    DistinctJoin(front, k + b);
    assert front + k + b == front + (k + b);
  }

  /** What is apart from the chain stays apart from it. */
  lemma PassApart(cs: Cells, front: seq<Obj>, q: seq<Obj>, i: nat, m: Flags, x: Obj, others: set<Obj>)
    requires Members(q) <= cs.Keys && Distinct(q) && Distinct(front + q) && i <= |q| && Members(q[..i]) <= cs.Keys
    requires x !in front + q && Members(front + q) !! others
    ensures var r := front + Survivors(cs, q[..i], m) + q[i..];
            Distinct(r) && x !in r && Members(r) !! others
  {
    PassChain(cs, front, q, i, m);
    var r := front + Survivors(cs, q[..i], m) + q[i..];
    assert x !in Members(front + q) && forall o | o in r :: o in Members(r);
  }

  /** Node "i" comes right after the nodes kept. */
  lemma DropAt(kept: seq<Obj>, q: seq<Obj>, i: nat)
    requires i < |q|
    ensures var r, k := kept + q[i..], |kept|;
            && r[k] == q[i] && r[..k] + r[k + 1..] == kept + q[i + 1..]
            && (k > 0 ==> r[k - 1] == kept[k - 1])
  {
  }

  lemma DropOne(cs: Cells, front: seq<Obj>, q: seq<Obj>, i: nat, m: Flags, x: Obj, others: set<Obj>)
    requires Members(q) <= cs.Keys && Distinct(q) && Distinct(front + q) && i < |q|
    requires x !in front + q && Members(front + q) !! others
    requires q[i] in cs && !Retained(cs[q[i]].flags, m)
    ensures Members(q[..i]) <= cs.Keys && Members(q[..i + 1]) <= cs.Keys
    ensures var kept := front + Survivors(cs, q[..i], m);
            var r, k := kept + q[i..], |kept|;
            && k < |r| && r[k] == q[i] && Distinct(r) && x !in r && Members(r) !! others
            && front + Survivors(cs, q[..i + 1], m) + q[i + 1..] == r[..k] + r[k + 1..]
  {
    PassStep(cs, q, i, Disposal(false, 0), m, null);
    PassApart(cs, front, q, i, m, x, others);
    DropAt(front + Survivors(cs, q[..i], m), q, i);
  }

  lemma DistinctParts(a: seq<Obj>, b: seq<Obj>)
    requires Distinct(a + b)
    ensures Distinct(a) && Distinct(b) && forall o | o in a :: o !in b
  {
    forall i, j | 0 <= i < |a| && 0 <= j < |b|
      ensures a[i] != b[j]
    {
      assert (a + b)[i] != (a + b)[|a| + j];
    }
    forall i, j | 0 <= i < j < |a|
      ensures a[i] != a[j]
    {
      assert (a + b)[i] != (a + b)[j];
    }
    forall i, j | 0 <= i < j < |b|
      ensures b[i] != b[j]
    {
      assert (a + b)[|a| + i] != (a + b)[|a| + j];
    }
  }

  lemma DistinctJoin(a: seq<Obj>, b: seq<Obj>)
    requires Distinct(a) && Distinct(b) && forall o | o in a :: o !in b
    ensures Distinct(a + b)
  {
    forall i, j | 0 <= i < j < |a + b|
      ensures (a + b)[i] != (a + b)[j]
    {
      if i < |a| <= j {
        assert a[i] in a && b[j - |a|] in b;
      }
    }
  }

  /** The nodes left keep the order they had. */
  lemma {:induction false} SurvivorsInOrder(cs: Cells, q: seq<Obj>, m: Flags, i: nat, j: nat)
    requires Members(q) <= cs.Keys && Distinct(q) && i < j < |q|
    requires Retained(cs[q[i]].flags, m) && Retained(cs[q[j]].flags, m)
    ensures var k := Survivors(cs, q, m);
            exists a, b | 0 <= a < b < |k| :: k[a] == q[i] && k[b] == q[j]
  {
    var p, o := q[..|q| - 1], q[|q| - 1];
    assert q == p + [o];
    DeadStep(cs, p, o, m);
    var k, l := Survivors(cs, q, m), Survivors(cs, p, m);
    if j < |p| {
      SurvivorsInOrder(cs, p, m, i, j);
      var a, b :| 0 <= a < b < |l| && l[a] == p[i] && l[b] == p[j];
      assert k[a] == q[i] && k[b] == q[j];
    } else {
      SurvivorsExact(cs, p, m);
      assert p[i] in Members(p) && p[i] in Members(l);
      var a :| 0 <= a < |l| && l[a] == p[i];
      assert k[a] == q[i] && k[|l|] == q[j];
    }
  }

  ghost function Count(es: seq<Event>, e: Event): nat {
    multiset(es)[e]
  }

  /** The object an event is about. */
  function Subject(e: Event): Obj? {
    match e
    case Obtain(o, _) => o
    case FreeHook(o) => o
    case Adopt(o, _) => o
    case ReleaseDatum(o, _) => o
    case Release(o, _) => o
    case _ => null
  }

  lemma FreeEventsCount(x: Obj, c: Cell, d: Disposal, e: Event)
    ensures Count(FreeEvents(x, c, d), e) ==
              match e
              case FreeHook(o) => if d.hook && o == x then 1 else 0
              case ReleaseDatum(o, v) => if HasAny(c.flags, OWN) && o == x && v == c.num then 1 else 0
              case Release(o, k) => if o == x && k == Lead(c.flags, d.extra) then 1 else 0
              case _ => 0
  {
    var a: seq<Event> := if d.hook then [FreeHook(x)] else [];
    var b: seq<Event> := if HasAny(c.flags, OWN) then [ReleaseDatum(x, c.num)] else [];
    assert multiset(FreeEvents(x, c, d)) == multiset(a) + multiset(b) + multiset{Release(x, Lead(c.flags, d.extra))};
  }

  /** A sweep calls, for each object, what freeing it once calls if it is dead, and nothing else. */
  lemma {:induction false} DeadEvents(cs: Cells, q: seq<Obj>, d: Disposal, m: Flags, e: Event)
    requires Members(q) <= cs.Keys && Distinct(q)
    ensures Count(SweepEvents(cs, q, d, m), e) ==
              var o := Subject(e);
              if o != null && o in Dead(cs, q, m) then Count(FreeEvents(o, cs[o], d), e) else 0
  {
    if q != [] {
      var p, x := q[..|q| - 1], q[|q| - 1];
      assert q == p + [x];
      DeadStep(cs, p, x, m);
      DeadEvents(cs, p, d, m, e);
      assert x !in Dead(cs, p, m);
      FreeEventsCount(x, cs[x], d, e);
      CountPlus(SweepEvents(cs, p, d, m), FreeEvents(x, cs[x], d), e);
    }
  }

  lemma CountPlus(a: seq<Event>, b: seq<Event>, e: Event)
    ensures Count(a + b, e) == Count(a, e) + Count(b, e)
  {
  }

  /**
    Each node that is not retained is released once, where its block starts, each other node
    never; with a free hook set the hook runs once for each released node, before its release;
    and a datum is released with its owner.
   */
  lemma EachFreedOnce(cs: Cells, q: seq<Obj>, d: Disposal, m: Flags, o: Obj, k: nat, v: int)
    requires Members(q) <= cs.Keys && Distinct(q)
    ensures var es, dead := SweepEvents(cs, q, d, m), o in Dead(cs, q, m);
            && Count(es, Release(o, k)) == (if dead && k == Lead(cs[o].flags, d.extra) then 1 else 0)
            && Count(es, FreeHook(o)) == (if dead && d.hook then 1 else 0)
            && Count(es, ReleaseDatum(o, v)) == (if dead && HasAny(cs[o].flags, OWN) && v == cs[o].num then 1 else 0)
            && Count(es, Obtain(o, k)) == 0
  {
    DeadEvents(cs, q, d, m, Release(o, k));
    DeadEvents(cs, q, d, m, FreeHook(o));
    DeadEvents(cs, q, d, m, ReleaseDatum(o, v));
    DeadEvents(cs, q, d, m, Obtain(o, k));
    if o in Dead(cs, q, m) {
      FreeEventsCount(o, cs[o], d, Release(o, k));
      FreeEventsCount(o, cs[o], d, FreeHook(o));
      FreeEventsCount(o, cs[o], d, ReleaseDatum(o, v));
      FreeEventsCount(o, cs[o], d, Obtain(o, k));
    }
  }

  /** The hook for a node comes before the node's datum and the node are released. */
  lemma {:induction false} HookComesFirst(cs: Cells, q: seq<Obj>, d: Disposal, m: Flags, i: nat)
    requires Members(q) <= cs.Keys
    requires d.hook && i < |SweepEvents(cs, q, d, m)| && SweepEvents(cs, q, d, m)[i].Release?
    ensures var es := SweepEvents(cs, q, d, m);
            && i >= 1
            && es[if i >= 2 && es[i - 1].ReleaseDatum? then i - 2 else i - 1] == FreeHook(es[i].o)
  {
    var es := SweepEvents(cs, q, d, m);
    var p, x := q[..|q| - 1], q[|q| - 1];
    var ps := SweepEvents(cs, p, d, m);
    if i < |ps| {
      assert es[..|ps|] == ps;
      HookComesFirst(cs, p, d, m, i);
    } else {
      assert es == ps + FreeEvents(x, cs[x], d);
      assert es[i] == FreeEvents(x, cs[x], d)[i - |ps|];
    }
  }

  // ---- Where a sweep may start ----

  /** The header links of "q", and no others, are those of a chain. */
  ghost predicate Chained(link: map<Obj, Obj?>, q: seq<Obj>) {
    forall i {:trigger ChainedAt(link, q, i)} | 0 <= i < |q| :: ChainedAt(link, q, i)
  }

  ghost predicate ChainedAt(link: map<Obj, Obj?>, q: seq<Obj>, i: nat) {
    i < |q| && q[i] in link && link[q[i]] == Nth(q, i + 1)
  }

  /**
    The links in memory after a sweep of the nodes of "q" from position "i" on, "prev" being
    the trailing pointer. Stores into released nodes are made like any other (lines 93-119).
   */
  ghost function Relink(link: map<Obj, Obj?>, cs: Cells, q: seq<Obj>, i: nat, prev: Obj, m: Flags): map<Obj, Obj?>
    requires i <= |q| && Members(q) <= cs.Keys
    decreases |q| - i
  {
    if i == |q| then link
    else if Kept(cs, q, i, m) then Relink(link, cs, q, i + 1, q[i], m)
    else Relink(link[prev := if q[i] in link then link[q[i]] else null], cs, q, i + 1, prev, m)
  }

  ghost predicate Kept(cs: Cells, q: seq<Obj>, i: nat, m: Flags)
    requires i < |q| && Members(q) <= cs.Keys
  {
    assert q[i] in Members(q);
    Retained(cs[q[i]].flags, m)
  }

  /** Does such a sweep store through a node that it has released? "gone" are those released so far. */
  ghost predicate StoresIntoFreed(cs: Cells, q: seq<Obj>, i: nat, prev: Obj, gone: set<Obj>, m: Flags)
    requires i <= |q| && Members(q) <= cs.Keys
    decreases |q| - i
  {
    i < |q| &&
    if Kept(cs, q, i, m) then StoresIntoFreed(cs, q, i + 1, q[i], gone, m)
    else prev in gone || StoresIntoFreed(cs, q, i + 1, prev, gone + {q[i]}, m)
  }

  /**
    Where the trailing pointer starts. "nodes" are the base and then the allocation chain, and
    the sweep starts at position "a": at 1 it is given the base's own link (line 91).
   */
  function Trailing(nodes: seq<Obj>, a: nat): Obj
    requires a < |nodes|
  {
    if a == 1 then nodes[0] else nodes[a]
  }

  lemma {:induction false} StoresKept(cs: Cells, q: seq<Obj>, i: nat, prev: Obj, gone: set<Obj>, m: Flags)
    requires i <= |q| && Members(q) <= cs.Keys && Distinct(q)
    requires prev !in gone && prev !in q[i..] && forall o | o in q[i..] :: o !in gone
    ensures !StoresIntoFreed(cs, q, i, prev, gone, m)
    decreases |q| - i
  {
    if i < |q| {
      assert q[i] in q[i..] && forall o | o in q[i + 1..] :: o in q[i..];
      StoresKept(cs, q, i + 1, if Kept(cs, q, i, m) then q[i] else prev, if Kept(cs, q, i, m) then gone else gone + {q[i]}, m);
    }
  }

  /**
    A sweep stores through a node it has released exactly when it does not start at the base's
    own link and neither of the first two nodes is retained. The start at the base itself, to
    tear everything down, is one of the starts this rules out.
   */
  lemma StaleStoreExactly(cs: Cells, nodes: seq<Obj>, a: nat, m: Flags)
    requires a < |nodes| && Members(nodes) <= cs.Keys && Distinct(nodes)
    ensures StoresIntoFreed(cs, nodes, a, Trailing(nodes, a), {}, m)
       <==> a != 1 && a + 1 < |nodes| && !Kept(cs, nodes, a, m) && !Kept(cs, nodes, a + 1, m)
  {
    var p := Trailing(nodes, a);
    if a == 1 || Kept(cs, nodes, a, m) {
      StoresKept(cs, nodes, if a == 1 then 1 else a + 1, p, {}, m);
    } else if a + 1 < |nodes| && Kept(cs, nodes, a + 1, m) {
      StoresKept(cs, nodes, a + 2, nodes[a + 1], {nodes[a]}, m);
    }
    if a != 1 && !Kept(cs, nodes, a, m) {
      assert {} + {nodes[a]} == {nodes[a]};
      assert StoresIntoFreed(cs, nodes, a, p, {}, m) <==> StoresIntoFreed(cs, nodes, a + 1, p, {nodes[a]}, m);
    }
  }

  /** The survivors of a chain are its first node, if retained, and those of the rest. */
  lemma {:induction false} SurvivorsFirst(cs: Cells, q: seq<Obj>, m: Flags)
    requires q != [] && Members(q) <= cs.Keys && Members(q[1..]) <= cs.Keys
    ensures Survivors(cs, q, m) == (if Kept(cs, q, 0, m) then [q[0]] else []) + Survivors(cs, q[1..], m)
  {
    if |q| > 1 {
      var p, k := q[..|q| - 1], |q| - 1;
      assert forall o | o in p || o in p[1..] :: o in q && o in Members(q);
      SurvivorsFirst(cs, p, m);
      assert q[1..][..k - 1] == p[1..] && q[1..][k - 1] == q[k];
    }
  }

  /** Links outside the trailing pointer and the nodes to come stay as they are. */
  lemma {:induction false} RelinkFrame(link: map<Obj, Obj?>, cs: Cells, q: seq<Obj>, i: nat, prev: Obj, m: Flags, o: Obj)
    requires i <= |q| && Members(q) <= cs.Keys && o in link && o != prev && o !in q[i..]
    ensures var l := Relink(link, cs, q, i, prev, m); o in l && l[o] == link[o]
    decreases |q| - i
  {
    if i < |q| {
      assert q[i] in q[i..] && forall x | x in q[i + 1..] :: x in q[i..];
      if Kept(cs, q, i, m) {
        RelinkFrame(link, cs, q, i + 1, q[i], m, o);
      } else {
        RelinkFrame(link[prev := if q[i] in link then link[q[i]] else null], cs, q, i + 1, prev, m, o);
      }
    }
  }

  /** From a trailing pointer at the last node kept, the sweep leaves the kept nodes chained. */
  lemma {:induction false} RelinkKeeps(link: map<Obj, Obj?>, cs: Cells, q: seq<Obj>, i: nat, done: seq<Obj>, m: Flags)
    requires i <= |q| && Members(q) <= cs.Keys && Members(q[i..]) <= cs.Keys
    requires done != [] && Distinct(done + q[i..]) && Chained(link, done + q[i..])
    ensures Chained(Relink(link, cs, q, i, done[|done| - 1], m), done + Survivors(cs, q[i..], m))
    decreases |q| - i
  {
    if i == |q| {
      assert done + q[i..] == done && Survivors(cs, q[i..], m) == [];
      assert done + Survivors(cs, q[i..], m) == done;
    } else {
      var rest, next, k := q[i..], q[i + 1..], |done|;
      assert rest == [q[i]] + next && rest[1..] == next && Kept(cs, rest, 0, m) == Kept(cs, q, i, m);
      assert forall o | o in next :: o in rest && o in Members(rest);
      SurvivorsFirst(cs, rest, m);
      assert done + rest == done + [q[i]] + next;
      if Kept(cs, q, i, m) {
        RelinkKeeps(link, cs, q, i + 1, done + [q[i]], m);
        assert done + Survivors(cs, rest, m) == done + [q[i]] + Survivors(cs, next, m);
      } else {
        SkipOne(link, done, q[i], next);
        RelinkKeeps(link[done[k - 1] := Nth(next, 0)], cs, q, i + 1, done, m);
        assert ChainedAt(link, done + rest, k) && (done + rest)[k] == q[i] && Nth(done + rest, k + 1) == Nth(next, 0);
        assert Survivors(cs, rest, m) == Survivors(cs, next, m);
      }
    }
  }

  /** Linking past one node leaves the others chained. */
  lemma SkipOne(link: map<Obj, Obj?>, done: seq<Obj>, x: Obj, next: seq<Obj>)
    requires done != [] && Distinct(done + ([x] + next)) && Chained(link, done + ([x] + next))
    ensures Distinct(done + next) && Chained(link[done[|done| - 1] := Nth(next, 0)], done + next)
  {
    var all, k := done + ([x] + next), |done|;
    var l, q := link[done[k - 1] := Nth(next, 0)], done + next;
    forall a, b | 0 <= a < b < |q|
      ensures q[a] != q[b]
    {
      assert all[if a < k then a else a + 1] != all[if b < k then b else b + 1];
    }
    forall j {:trigger ChainedAt(l, q, j)} | 0 <= j < |q|
      ensures ChainedAt(l, q, j)
    {
      assert ChainedAt(link, all, if j < k then j else j + 1);
      assert q[j] == all[if j < k then j else j + 1];
      if j != k - 1 {
        assert q[j] != q[k - 1] == done[k - 1];
      }
    }
  }

  /** From the base, the links visit exactly "q". */
  ghost predicate Intact(link: map<Obj, Obj?>, base: Obj, q: seq<Obj>) {
    q != [] && q[0] == base && Chained(link, q)
  }

  /**
    A sweep from position "a" leaves the base with a whole chain, of the nodes before the start
    and the survivors from it on, exactly when it starts at the base's own link or at a node
    that is retained. Otherwise the node before the start keeps a link to released memory, or,
    if the start is the base, the base itself is gone.
   */
  lemma SweepKeepsChainExactly(link: map<Obj, Obj?>, cs: Cells, nodes: seq<Obj>, a: nat, m: Flags)
    requires a < |nodes| && Members(nodes) <= cs.Keys && Distinct(nodes) && Chained(link, nodes)
    requires Members(nodes[a..]) <= cs.Keys
    ensures Intact(Relink(link, cs, nodes, a, Trailing(nodes, a), m), nodes[0], nodes[..a] + Survivors(cs, nodes[a..], m))
       <==> a == 1 || Kept(cs, nodes, a, m)
  {
    if a == 1 {
      assert nodes[..1] + nodes[1..] == nodes;
      RelinkKeeps(link, cs, nodes, 1, nodes[..1], m);
    } else if Kept(cs, nodes, a, m) {
      StartKept(link, cs, nodes, a, m);
    } else {
      StartLost(link, cs, nodes, a, m);
    }
  }

  lemma StartKept(link: map<Obj, Obj?>, cs: Cells, nodes: seq<Obj>, a: nat, m: Flags)
    requires a < |nodes| && a != 1 && Members(nodes) <= cs.Keys && Distinct(nodes) && Chained(link, nodes)
    requires Members(nodes[a..]) <= cs.Keys && Kept(cs, nodes, a, m)
    ensures Intact(Relink(link, cs, nodes, a, Trailing(nodes, a), m), nodes[0], nodes[..a] + Survivors(cs, nodes[a..], m))
  {
    var next, done := nodes[a + 1..], nodes[..a + 1];
    assert nodes[a..] == [nodes[a]] + next && done + next == nodes;
    KeptFirst(cs, nodes[a..], nodes[a], next, m);
    RelinkKeeps(link, cs, nodes, a + 1, done, m);
    assert done == nodes[..a] + [nodes[a]];
    assert done + Survivors(cs, next, m) == nodes[..a] + Survivors(cs, nodes[a..], m);
  }

  lemma KeptFirst(cs: Cells, q: seq<Obj>, o: Obj, next: seq<Obj>, m: Flags)
    requires q == [o] + next && Members(q) <= cs.Keys && o in cs && Retained(cs[o].flags, m)
    ensures Members(next) <= cs.Keys && Survivors(cs, q, m) == [o] + Survivors(cs, next, m)
  {
    assert q[1..] == next && forall x | x in next :: x in q && x in Members(q);
    SurvivorsFirst(cs, q, m);
  }

  lemma StartLost(link: map<Obj, Obj?>, cs: Cells, nodes: seq<Obj>, a: nat, m: Flags)
    requires a < |nodes| && a != 1 && Members(nodes) <= cs.Keys && Distinct(nodes) && Chained(link, nodes)
    requires Members(nodes[a..]) <= cs.Keys && !Kept(cs, nodes, a, m)
    ensures !Intact(Relink(link, cs, nodes, a, Trailing(nodes, a), m), nodes[0], nodes[..a] + Survivors(cs, nodes[a..], m))
  {
    var k, l := Survivors(cs, nodes[a..], m), Relink(link, cs, nodes, a, nodes[a], m);
    assert nodes[..a] + nodes[a..] == nodes;
    DistinctParts(nodes[..a], nodes[a..]);
    SurvivorsExact(cs, nodes[a..], m);
    assert nodes[a] in Dead(cs, nodes[a..], m) && forall o | o in k :: o in Members(k);
    assert nodes[a] !in k;
    if a > 0 {
      assert ChainedAt(link, nodes, a - 1) && nodes[a - 1] in nodes[..a];
      RelinkFrame(link, cs, nodes, a, nodes[a], m, nodes[a - 1]);
      var q := nodes[..a] + k;
      assert q[a - 1] == nodes[a - 1] && Nth(q, a) == Head(k) && !ChainedAt(l, q, a - 1);
    } else {
      assert nodes[..0] + k == k;
    }
  }

  /**
    What leaves the library when everything is torn down: a sweep of the base and the chain
    behind it. Once the base is freed it is not read any more, so from then on the block of
    every node is taken to start at its header (lines 108-115, and lines 271-292 of src/x-obj.c).
   */
  ghost function TeardownEvents(cs: Cells, nodes: seq<Obj>, i: nat, d: Disposal, m: Flags): seq<Event>
    requires i <= |nodes| && Members(nodes) <= cs.Keys
    decreases |nodes| - i
  {
    if i == |nodes| then []
    else if Kept(cs, nodes, i, m) then TeardownEvents(cs, nodes, i + 1, d, m)
    else
      FreeEvents(nodes[i], cs[nodes[i]], d)
      + TeardownEvents(cs, nodes, i + 1, if i == 0 then Disposal(d.hook, 0) else d, m)
  }

  lemma {:induction false} TailReleases(cs: Cells, nodes: seq<Obj>, i: nat, d: Disposal, m: Flags, j: nat, k: nat)
    requires 1 <= i <= |nodes| && j < |nodes| && Members(nodes) <= cs.Keys && Distinct(nodes)
    ensures Count(TeardownEvents(cs, nodes, i, d, m), Release(nodes[j], k))
         == if j >= i && !Kept(cs, nodes, j, m) && k == Lead(cs[nodes[j]].flags, d.extra) then 1 else 0
    decreases |nodes| - i
  {
    if i < |nodes| {
      TailReleases(cs, nodes, i + 1, d, m, j, k);
      TailStep(cs, nodes, i, d, m, Release(nodes[j], k));
      FreeEventsCount(nodes[i], cs[nodes[i]], d, Release(nodes[j], k));
      assert nodes[i] == nodes[j] ==> i == j;
    }
  }

  lemma TailStep(cs: Cells, nodes: seq<Obj>, i: nat, d: Disposal, m: Flags, e: Event)
    requires 1 <= i < |nodes| && Members(nodes) <= cs.Keys
    ensures nodes[i] in cs
    ensures Count(TeardownEvents(cs, nodes, i, d, m), e) ==
              Count(TeardownEvents(cs, nodes, i + 1, d, m), e)
              + if Kept(cs, nodes, i, m) then 0 else Count(FreeEvents(nodes[i], cs[nodes[i]], d), e)
  {
    assert nodes[i] in Members(nodes);
    CountPlus(FreeEvents(nodes[i], cs[nodes[i]], d), TeardownEvents(cs, nodes, i + 1, d, m), e);
  }

  /** The block of node "j" is released once, and at its start. */
  ghost predicate ReleasedWhole(cs: Cells, nodes: seq<Obj>, d: Disposal, m: Flags, j: nat)
    requires j < |nodes| && Members(nodes) <= cs.Keys
  {
    assert nodes[j] in Members(nodes);
    Count(TeardownEvents(cs, nodes, 0, d, m), Release(nodes[j], Lead(cs[nodes[j]].flags, d.extra))) == 1
  }

  lemma NodeReleased(cs: Cells, nodes: seq<Obj>, d: Disposal, m: Flags, j: nat)
    requires j < |nodes| && Members(nodes) <= cs.Keys && Distinct(nodes) && !Kept(cs, nodes, j, m)
    ensures ReleasedWhole(cs, nodes, d, m, j)
       <==> j == 0 || Kept(cs, nodes, 0, m) || d.extra == 0 || !HasAny(cs[nodes[j]].flags, META)
  {
    var k := Lead(cs[nodes[j]].flags, d.extra);
    var e := Release(nodes[j], k);
    if Kept(cs, nodes, 0, m) {
      TailReleases(cs, nodes, 1, d, m, j, k);
    } else {
      var after := Disposal(d.hook, 0);
      TailReleases(cs, nodes, 1, after, m, j, k);
      CountPlus(FreeEvents(nodes[0], cs[nodes[0]], d), TeardownEvents(cs, nodes, 1, after, m), e);
      FreeEventsCount(nodes[0], cs[nodes[0]], d, e);
    }
  }

  /**
    A teardown releases every block where it was obtained exactly when the base is kept, no
    header has extra units, or no node freed after the base carries the META flag.
   */
  lemma TeardownExactly(cs: Cells, nodes: seq<Obj>, d: Disposal, m: Flags)
    requires nodes != [] && Members(nodes) <= cs.Keys && Distinct(nodes)
    ensures (forall j | 0 <= j < |nodes| && !Kept(cs, nodes, j, m) :: ReleasedWhole(cs, nodes, d, m, j))
       <==> Kept(cs, nodes, 0, m) || d.extra == 0
              || forall j | 1 <= j < |nodes| && !Kept(cs, nodes, j, m) :: !HasAny(cs[nodes[j]].flags, META)
  {
    forall j | 0 <= j < |nodes| && !Kept(cs, nodes, j, m)
      ensures ReleasedWhole(cs, nodes, d, m, j)
         <==> j == 0 || Kept(cs, nodes, 0, m) || d.extra == 0 || !HasAny(cs[nodes[j]].flags, META)
    {
      NodeReleased(cs, nodes, d, m, j);
    }
  }
}
