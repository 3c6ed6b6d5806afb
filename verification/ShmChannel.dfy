/** The mapped segment as writer and reader use it, one whole call at a time.
    `ShmProtocol` treats the interleaving of their steps. */
module ShmChannel {
  import opened Basics
  import opened MachineInts

  import opened ShmHeader
  import P = ShmProtocol

  /** The items between the two counts sit in their slots. */
  ghost predicate Ring<T>(slots: seq<T>, read: nat, queue: seq<T>)
    requires |slots| > 0
  {
    forall j | read <= j < read + |queue| :: slots[P.Mod(j, |slots|)] == queue[j - read]
  }

  lemma PushRing<T>(slots: seq<T>, read: nat, queue: seq<T>, item: T)
    requires |slots| > |queue| && Ring(slots, read, queue)
    ensures Ring(slots[P.Mod(read + |queue|, |slots|) := item], read, queue + [item])
  {
    var n, w := |slots|, read + |queue|;
    var slots' := slots[P.Mod(w, n) := item];
    forall j | read <= j < w ensures slots'[P.Mod(j, n)] == queue[j - read] {
      if P.Mod(j, n) == P.Mod(w, n) { P.SameSlot(j, w, n); }
    }
  }

  lemma PopRing<T>(slots: seq<T>, read: nat, queue: seq<T>)
    requires |slots| > 0 && queue != [] && Ring(slots, read, queue)
    ensures slots[P.Mod(read, |slots|)] == queue[0] && Ring(slots, read + 1, queue[1..])
  {
  }

  class Segment<T(0)> {
    // header
    var magic: uint64
    var version: uint32
    var capacity: uint32
    var elementSize: uint32
    // indices and ring
    var writeIdx: uint64
    var readIdx: uint64
    const slots: array<T>
    // the optional counters of the writer's statistics
    var statsAttached: bool
    var packetsReceived: nat
    var packetsProcessed: nat
    var packetsDropped: nat
    // unbounded counts behind the 64-bit indices, and the items in between
    ghost var written: nat
    ghost var read: nat
    ghost var queue: seq<T>

    ghost predicate Sized() {
      PowerOfTwo(slots.Length) && 2 <= slots.Length < TWO_64
    }

    ghost predicate Valid()
      reads this, slots
    {
      && Sized()
      && writeIdx == P.Wrap(written) && readIdx == P.Wrap(read)
      && read <= written <= read + slots.Length
      && |queue| == written - read
      && Ring(slots[..], read, queue)
    }

    constructor (n: nat, zero: T)
      requires PowerOfTwo(n) && 2 <= n < TWO_64
      ensures Valid() && queue == [] && slots.Length == n && fresh(slots)
      ensures magic == 0
    {
      magic, version, capacity, elementSize := 0, 0, 0, 0;
      writeIdx, readIdx := 0, 0;
      slots := new T[n](_ => zero);
      statsAttached := false;
      packetsReceived, packetsProcessed, packetsDropped := 0, 0, 0;
      written, read, queue := 0, 0, [];
    }

    /** Zero everything, then the indices, then the header with the magic last. */
    method InitHeader(elemSize: uint32, zero: T)
      requires Sized()
      modifies this, slots
      ensures Valid() && queue == [] && written == read == 0
      ensures magic == 0x4C41545449434500 && version == 1
      ensures capacity == slots.Length % TWO_32 && elementSize == elemSize
    {
      magic, version, capacity, elementSize := 0, 0, 0, 0;
      writeIdx, readIdx := 0, 0;
      for i := 0 to slots.Length
        invariant writeIdx == 0 && readIdx == 0
      {
        slots[i] := zero;
      }
      writeIdx := 0;
      readIdx := 0;
      elementSize := elemSize;
      capacity := slots.Length % TWO_32;
      version := VERSION;
      magic := MAGIC;
      written, read, queue := 0, 0, [];
    }

    method ValidateHeader(elemSize: uint32) returns (e: Error)
      ensures e == NoError <==>
        magic == 0x4C41545449434500 && version == 1 && capacity == slots.Length % TWO_32 && elementSize == elemSize
      ensures e == BadMagic <==> magic != 0x4C41545449434500
      ensures e == VersionMismatch <==> magic == 0x4C41545449434500 && version != 1
    {
      if magic != MAGIC { return BadMagic; }
      if version != VERSION { return VersionMismatch; }
      if capacity != slots.Length % TWO_32 { return SizeMismatch; }
      if elementSize != elemSize { return SizeMismatch; }
      return NoError;
    }

    method TryWrite(item: T) returns (ok: bool)
      requires Valid()
      modifies this`writeIdx, this`written, this`queue, slots
      modifies this`packetsReceived, this`packetsProcessed, this`packetsDropped
      ensures Valid()
      ensures ok <==> |old(queue)| < slots.Length
      ensures queue == if ok then old(queue) + [item] else old(queue)
      ensures written == old(written) + if ok then 1 else 0
      ensures statsAttached ==>
        && packetsReceived == old(packetsReceived) + 1
        && packetsProcessed == old(packetsProcessed) + (if ok then 1 else 0)
        && packetsDropped == old(packetsDropped) + (if ok then 0 else 1)
      ensures !statsAttached ==>
        packetsReceived == old(packetsReceived) && packetsProcessed == old(packetsProcessed)
        && packetsDropped == old(packetsDropped)
    {
      if statsAttached { packetsReceived := packetsReceived + 1; }
      var w, r := writeIdx, readIdx;
      P.WrapDifference(read, written);
      if Sub64(w, r) >= slots.Length {
        if statsAttached { packetsDropped := packetsDropped + 1; }
        return false;
      }
      Publish(w, item);
      if statsAttached { packetsProcessed := packetsProcessed + 1; }
      return true;
    }

    /** Fill the slot, then advance the index. */
    method Publish(w: uint64, item: T)
      requires Valid() && w == writeIdx && |queue| < slots.Length
      modifies this`writeIdx, this`written, this`queue, slots
      ensures Valid() && queue == old(queue) + [item] && written == old(written) + 1
    {
      Mask64(written, slots.Length);
      PushRing(slots[..], read, queue, item);
      slots[And(w, slots.Length - 1)] := item;
      P.WrapSuccessor(written);
      writeIdx := Add64(w, 1);
      written, queue := written + 1, queue + [item];
    }

    /** The recorded depth is the number of items left. */
    method TryRead() returns (out: Option<T>, depth: uint64)
      requires Valid()
      modifies this`readIdx, this`read, this`queue
      ensures Valid()
      ensures old(queue) == [] ==> out == None && queue == []
      ensures old(queue) != [] ==>
        out == Some(old(queue)[0]) && queue == old(queue)[1..] && depth == |queue| < slots.Length
    {
      var r, w := readIdx, writeIdx;
      P.WrapDifference(read, written);
      if r == w { return None, 0; }
      Mask64(read, slots.Length);
      PopRing(slots[..], read, queue);
      out := Some(slots[And(r, slots.Length - 1)]);
      P.WrapSuccessor(read);
      P.WrapDifference(read + 1, written);
      readIdx := Add64(r, 1);
      depth := Sub64(w, Add64(r, 1));
      read, queue := read + 1, queue[1..];
    }

    /** Skip whatever accumulated, provided the header is good. */
    method Reattach(elemSize: uint32) returns (ok: bool)
      requires Valid()
      modifies this`readIdx, this`read, this`queue
      ensures Valid() && written == old(written)
      ensures ok <==>
        magic == 0x4C41545449434500 && version == 1 && capacity == slots.Length % TWO_32 && elementSize == elemSize
      ensures queue == if ok then [] else old(queue)
    {
      var e := ValidateHeader(elemSize);
      if e != NoError { return false; }
      var w := writeIdx;
      readIdx := w;
      read, queue := written, [];
      return true;
    }
  }
}
