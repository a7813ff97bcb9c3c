/** The ring buffer of agent/internal/collect/sampler.go (the fields its `mu` guards) against an unbounded log. */
module SampleRing {
  import opened Common

  lemma Wrap(a: nat, n: nat)
    requires n > 0 && a < 3 * n
    ensures a % n == if a < n then a else if a < 2 * n then a - n else a - 2 * n
  {}

  class Ring<T(0)> {
    var slots: array<T>
    var head: nat
    var filled: nat
    ghost var log: seq<T> // everything ever pushed

    /** Where the element pushed `i` pushes before the last one is. */
    ghost function Slot(i: nat): (k: nat)
      reads this`slots, this`head
      requires i < slots.Length && head < slots.Length
      ensures k < slots.Length
    {
      if i < head then head - 1 - i else head - 1 - i + slots.Length
    }

    ghost predicate Valid()
      reads this, slots
    {
      && head < slots.Length
      && filled == (if |log| < slots.Length then |log| else slots.Length)
      && forall i :: 0 <= i < filled ==> slots[Slot(i)] == log[|log| - 1 - i]
    }

    constructor (size: nat)
      requires size >= 1
      ensures Valid() && fresh(slots) && slots.Length == size && log == []
    {
      slots := new T[size];
      head, filled, log := 0, 0, [];
    }

    method Push(x: T)
      requires Valid()
      modifies this`head, this`filled, this`log, slots
      ensures Valid() && log == old(log) + [x]
    {
      Wrap(head + 1, slots.Length);
      slots[head] := x;
      head := (head + 1) % slots.Length;
      if filled < slots.Length {
        filled := filled + 1;
      }
      log := log + [x];
      forall i | 0 <= i < filled
        ensures slots[Slot(i)] == log[|log| - 1 - i]
      {
        if i > 0 {
          assert Slot(i) == old(Slot(i - 1)) && old(slots[Slot(i - 1)]) == old(log)[|old(log)| - i];
        }
      }
    }

    method Newest() returns (x: Option<T>)
      requires Valid()
      ensures x == if log == [] then None else Some(log[|log| - 1])
    {
      if filled == 0 {
        return None;
      }
      Wrap(head + slots.Length - 1, slots.Length);
      var idx := (head + slots.Length - 1) % slots.Length;
      assert idx == Slot(0);
      return Some(slots[idx]);
    }

    /** The last `n` elements, oldest first, as far as the ring still holds them. */
    method History(n: nat) returns (out: seq<T>)
      requires Valid()
      ensures out == LastN(if n < slots.Length then n else slots.Length, log)
    {
      var k := if n > filled then filled else n;
      out := [];
      var i := k;
      while i > 0
        invariant 0 <= i <= k
        invariant out == log[|log| - k..|log| - i]
      {
        Wrap(head + 2 * slots.Length - i, slots.Length);
        var idx := (head + 2 * slots.Length - i) % slots.Length;
        assert idx == Slot(i - 1);
        out := out + [slots[idx]];
        i := i - 1;
      }
    }
  }
}
