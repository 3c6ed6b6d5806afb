/** Positions in a circular array of `n` slots, as linear probing walks them. */
module Circular {
  import opened MachineInts

  function Next(i: nat, n: nat): nat
    requires i < n
  {
    if i + 1 == n then 0 else i + 1
  }

  /** The slot `k` probes after `h`. */
  function Slot(h: nat, k: nat, n: nat): (i: nat)
    requires h < n && k < n
    ensures i < n && Dist(h, i, n) == k
  {
    if h + k < n then h + k else h + k - n
  }

  /** How many probes lead from `a` to `b`. */
  function Dist(a: nat, b: nat, n: nat): nat
    requires a < n && b < n
  {
    if a <= b then b - a else b + n - a
  }

  /** The program's way of stepping: add one and mask. */
  lemma NextByMask(i: nat, n: uint32)
    requires PowerOfTwo(n) && i < n
    ensures And((i + 1) % TWO_32, n - 1) == Next(i, n)
  {
    Mask32(i + 1, n);
    StepMod(i, n);
  }

  method Advance(i: nat, mask: nat, ghost n: uint32) returns (next: nat)
    requires PowerOfTwo(n) && i < n && mask == n - 1
    ensures next == Next(i, n)
  {
    NextByMask(i, n);
    next := And((i + 1) % TWO_32, mask);
  }
}
