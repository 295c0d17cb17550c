/** Borrowing the mark for a traversal of one's own (src/x-heap.c, lines 124-148). */
module Borrowing {
  import opened Flags
  import opened Objects
  import opened Marking
  import opened States
  import opened Runs

  /** While the program runs on without collecting, marked or not, the chain only grows at its head and no flag word on it changes. */
  lemma {:induction false} FlagsStay(tr: seq<State>, ops: seq<Op>, m: Flags, i: nat)
    requires IsTrace(tr, ops, m) && i <= |ops|
    requires forall j | 0 <= j < i :: !ops[j].Collect?
    ensures EndsWith(tr[i].chain, tr[0].chain)
    ensures forall o | o in tr[0].chain && o in tr[0].cells ::
              o in tr[i].chain && o in tr[i].cells && tr[i].cells[o].flags == tr[0].cells[o].flags
  {
    if i > 0 {
      FlagsStay(tr, ops, m, i - 1);
      assert MovesAt(tr, ops, m, i - 1);
      forall o | o in tr[i - 1].chain
        ensures o in tr[i - 1].cells && o in tr[i].chain && o in tr[i].cells
        ensures tr[i].cells[o].flags == tr[i - 1].cells[o].flags
      {
        ChainStays(tr[i - 1], ops[i - 1], tr[i], m, o);
      }
      ChainGrows(tr[i - 1], ops[i - 1], tr[i], m, tr[0].chain);
    }
  }

  lemma ChainGrows(s: State, op: Op, t: State, m: Flags, q: seq<Obj>)
    requires Moves(s, op, t, m) && !op.Collect? && EndsWith(s.chain, q)
    ensures EndsWith(t.chain, q)
  {
    if (op.New? || op.PushField?) && !Decide(s, op.oom).Allowed? {
      RefusalObjects(s, op.oom, op.reaction);
    }
    if t.chain != s.chain {
      assert t.chain == [op.o] + s.chain;
      PushKeepsEnd(s.chain, q, op.o);
    }
  }

  /**
    Mark with bits no chain object carried, let the program rearrange the graph and allocate
    as it likes, then clear those bits along the chain: every object that was on the chain is
    still there, in the same order, with the flag word it had before, whether or not it is
    still reachable.
   */
  lemma BorrowedMarkReturned(s: State, from: set<Obj>, b: Flags, tr: seq<State>, ops: seq<Op>, m: Flags, i: nat)
    requires ChainsOk(s) && IsTrace(tr, ops, m) && i <= |ops|
    requires forall o | o in s.chain && o in s.cells :: !HasAny(s.cells[o].flags, b)
    requires tr[0] == s.(cells := MarkFrom(s.cells, from, b))
    requires forall j | 0 <= j < i :: !ops[j].Collect?
    ensures EndsWith(tr[i].chain, s.chain)
    ensures Members(s.chain) <= tr[i].cells.Keys
    ensures forall o | o in Members(s.chain) :: Wash(tr[i].cells, Members(tr[i].chain), b)[o].flags == s.cells[o].flags
  {
    FlagsStay(tr, ops, m, i);
    var q, later := Members(s.chain), tr[i].cells;
    forall o | o in q
      ensures o in s.cells && o in later && o in Members(tr[i].chain)
      ensures later[o].flags == MarkFrom(s.cells, from, b)[o].flags && !HasAny(s.cells[o].flags, b)
    {
    }
    WashUndoesMark(s.cells, from, b, q, later);
  }
}
