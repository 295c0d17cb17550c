/** The flag word of an object (include/x-obj.h) and the bit operations the collector uses on it. */
module Flags {

  /** A bit position of the flag word. */
  newtype Bit = b: int | 0 <= b < 32

  /** A flag word is the set of its one bits: "|" is union, "&" intersection, "& ~" difference. */
  type Flags = set<Bit>

  const NONE: Flags := {}
  /** 0x20: the object owns the allocation in its first datum. */
  const OWN: Flags := {5}
  /** 0x80: extra units stand in front of the header. */
  const META: Flags := {7}
  /** 0x100: the object is never swept. */
  const SHARED: Flags := {8}

  predicate HasAll(f: Flags, m: Flags) {
    f * m == m
  }

  predicate HasAny(f: Flags, m: Flags) {
    f * m != NONE
  }

  function Set(f: Flags, m: Flags): Flags {
    f + m
  }

  function Clear(f: Flags, m: Flags): Flags {
    f - m
  }

  /** A mask the collector may mark with: at least one bit, and not SHARED. */
  predicate GoodMask(m: Flags) {
    m != NONE && !HasAny(m, SHARED)
  }

  lemma SetMarks(f: Flags, m: Flags)
    ensures HasAll(Set(f, m), m)
    ensures HasAll(f, m) ==> Set(f, m) == f
    ensures m != NONE && HasAll(f, m) ==> HasAny(f, m)
  {
    if HasAll(f, m) {
      assert m <= f;
    }
  }

  lemma WordFacts(f: Flags, m: Flags)
    ensures !HasAny(Clear(f, m), m)
    ensures Set(Set(f, m), m) == Set(f, m)
    ensures Set(Clear(f, m), m) == Set(f, m)
    ensures Clear(Set(f, m), m) == Clear(f, m)
    ensures Set(Clear(Set(f, m), m), m) == Set(f, m)
  {
  }

  /** Clearing the bits just set gives the old word back, if it had none of them. */
  lemma ClearUndoesSet(f: Flags, m: Flags)
    requires !HasAny(f, m)
    ensures Clear(f, m) == f
    ensures Clear(Set(f, m), m) == f
  {
    assert forall b | b in f :: b in m ==> b in f * m;
    assert f - m == f;
  }

  /** Marking and clearing leave SHARED alone. */
  lemma SharedKept(f: Flags, m: Flags)
    requires GoodMask(m)
    ensures HasAny(Set(f, m), SHARED) == HasAny(f, SHARED)
    ensures HasAny(Clear(f, m), SHARED) == HasAny(f, SHARED)
  {
    assert m * SHARED == {};
    assert forall b | b in SHARED :: b in m ==> b in m * SHARED;
    assert Set(f, m) * SHARED == f * SHARED;
    assert Clear(f, m) * SHARED == f * SHARED;
  }
}
