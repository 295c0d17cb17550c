/** One turn of the loop of x_heap_sweep on states (src/x-heap.c, lines 89-119). */
module SweepSteps {
  import opened Flags
  import opened Objects
  import opened Sweeping
  import opened States

  /**
    The state after "i" turns of the loop of x_heap_sweep, started in "s": "front" are the
    nodes before the start of the sweep, "q" those from the start on.
   */
  ghost function After(s: State, front: seq<Obj>, q: seq<Obj>, i: nat, d: Disposal, counter: Obj?, m: Flags): State
    requires i <= |q| && Members(q) <= s.cells.Keys
  {
    assert forall x | x in q[..i] :: x in q;
    s.(cells := SweepPass(s.cells, q[..i], m, counter),
       chain := front + Survivors(s.cells, q[..i], m) + q[i..],
       log := s.log + SweepEvents(s.cells, q[..i], d, m))
  }

  /**
    Where the trailing pointer is: at the last node kept, or the base; but a sweep that did not
    start at the head starts with it at the first node it visits (line 91).
   */
  ghost function TrailAt(base: Obj, s: State, front: seq<Obj>, q: seq<Obj>, i: nat, m: Flags): Obj
    requires i <= |q| && Members(q) <= s.cells.Keys && (front != [] ==> q != [])
  {
    assert forall x | x in q[..i] :: x in q;
    var kept := front + Survivors(s.cells, q[..i], m);
    if i == 0 && front != [] then q[0] else if kept == [] then base else kept[|kept| - 1]
  }

  /** What a sweep needs: a start at the head, or at a node that is retained. */
  ghost predicate Sweepable(base: Obj, s: State, front: seq<Obj>, q: seq<Obj>, counter: Obj?, m: Flags) {
    && s.chain == front + q && Distinct(front + q) && Distinct(q)
    && Members(front + q) <= s.cells.Keys && Members(q) <= s.cells.Keys
    && base !in s.chain && base !in s.roots && Members(s.chain) !! Members(s.roots)
    && (front != [] ==> q != [] && Retained(s.cells[q[0]].flags, m))
    && (counter != null ==> counter in s.cells && Retained(s.cells[counter].flags, m))
  }

  /** What one turn does at a node that is retained. */
  lemma KeepFacts(base: Obj, s: State, front: seq<Obj>, q: seq<Obj>, i: nat, d: Disposal, counter: Obj?, m: Flags)
    requires Sweepable(base, s, front, q, counter, m) && i < |q| && q[i] in s.cells && Retained(s.cells[q[i]].flags, m)
    ensures var now := After(s, front, q, i, d, counter, m);
            q[i] in now.cells ==>
              After(s, front, q, i + 1, d, counter, m)
              == now.(cells := now.cells[q[i] := now.cells[q[i]].(flags := Clear(now.cells[q[i]].flags, m))])
    ensures TrailAt(base, s, front, q, i + 1, m) == q[i]
  {
    PassStep(s.cells, q, i, d, m, counter);
    var done := Survivors(s.cells, q[..i], m);
    assert q[i..] == [q[i]] + q[i + 1..];
    assert front + done + q[i..] == front + (done + [q[i]]) + q[i + 1..];
  }

  /** What one turn does at a node that is freed. */
  lemma DropState(base: Obj, s: State, front: seq<Obj>, q: seq<Obj>, i: nat, d: Disposal, counter: Obj?, m: Flags)
    requires Sweepable(base, s, front, q, counter, m) && i < |q| && q[i] in s.cells && !Retained(s.cells[q[i]].flags, m)
    ensures var now := After(s, front, q, i, d, counter, m);
            q[i] in now.cells ==>
              After(s, front, q, i + 1, d, counter, m) ==
              now.(cells := Bump(now.cells - {q[i]}, counter, -1),
                   chain := After(s, front, q, i + 1, d, counter, m).chain,
                   log := now.log + FreeEvents(q[i], s.cells[q[i]], d))
  {
    PassStep(s.cells, q, i, d, m, counter);
  }

  /** The node after the "k" kept is the one visited; without it the chain is what the turn leaves. */
  lemma DropChain(base: Obj, s: State, front: seq<Obj>, q: seq<Obj>, i: nat, d: Disposal, counter: Obj?, k: nat, m: Flags)
    requires Sweepable(base, s, front, q, counter, m) && i < |q| && q[i] in s.cells && !Retained(s.cells[q[i]].flags, m)
    requires k + |q| - i == |After(s, front, q, i, d, counter, m).chain|
    ensures var r := After(s, front, q, i, d, counter, m).chain;
            && k < |r| && r[k] == q[i] && Distinct(r) && base !in r && Members(r) !! Members(s.roots)
            && After(s, front, q, i + 1, d, counter, m).chain == r[..k] + r[k + 1..]
  {
    DropOne(s.cells, front, q, i, m, base, Members(s.roots));
  }

  /** The trailing pointer stays at the node before one that is freed. */
  lemma DropTrail(base: Obj, s: State, front: seq<Obj>, q: seq<Obj>, i: nat, d: Disposal, counter: Obj?, k: nat, m: Flags)
    requires Sweepable(base, s, front, q, counter, m) && i < |q| && q[i] in s.cells && !Retained(s.cells[q[i]].flags, m)
    requires k + |q| - i == |After(s, front, q, i, d, counter, m).chain|
    ensures TrailAt(base, s, front, q, i, m) == (if k == 0 then base else After(s, front, q, i, d, counter, m).chain[k - 1])
    ensures TrailAt(base, s, front, q, i, m) == TrailAt(base, s, front, q, i + 1, m)
  {
    PassStep(s.cells, q, i, d, m, counter);
    DropAt(front + Survivors(s.cells, q[..i], m), q, i);
  }
}
