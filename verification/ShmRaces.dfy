/** The slots are free of data races.

    A plain access races with another unless one happens before the other.  What
    one side knows to have happened is its view: of the writes, for the consumer,
    and of the reads, for the producer.  Here every plain read of a slot word comes
    after all the writes of that word, and every overwrite after all the reads. */
module ShmRaces {
  import opened Basics
  import opened MachineInts
  import opened ShmProtocol
  import opened ShmRuns

  /** Reads of a word are for items of its slot that were published. */
  ghost predicate LogInv(n: nat, log: ReadLog, seenWrite: nat)
    requires n > 0
  {
    forall c, p | c in log && 0 <= p < |log[c]| :: Mod(log[c][p], n) == c.slot && log[c][p] < seenWrite
  }

  /** A view of the log that misses no read of an item before `count`. */
  ghost predicate MissesNoneBefore(log: ReadLog, view: View, count: nat) {
    && (forall c | c in log :: c in view && view[c] <= |log[c]|)
    && forall c, p | c in log && view[c] <= p < |log[c]| :: log[c][p] >= count
  }

  /** Every store to read_idx releases the reads of all the items it gives back,
      and the producer has joined the one it last saw. */
  ghost predicate RaceInv(s: State)
    requires Shaped(s)
  {
    && LogInv(s.capacity, s.readLog, s.seenWrite)
    && (forall i | 0 <= i < |s.readStores| ::
          MissesNoneBefore(s.readLog, s.readStores[i].view, s.readStores[i].count))
    && MissesNoneBefore(s.readLog, s.seenReads, s.readStores[s.seenRead].count)
  }

  lemma InitRaceInv(capacity: nat, words: nat)
    requires ValidRing(capacity)
    ensures var s := Init(capacity, words); Shaped(s) && RaceInv(s)
  {
  }

  lemma JoinMissesNone(log: ReadLog, a: View, b: View, count: nat)
    requires (forall c | c in log :: c in a && a[c] <= |log[c]|) && MissesNoneBefore(log, b, count)
    ensures MissesNoneBefore(log, Join(a, b), count)
  {
  }

  lemma LoadReadIdxKeepsRaceInv(s: State, m: nat)
    requires CanLoadReadIdx(s, m) && RaceInv(s)
    ensures var t := DoLoadReadIdx(s, m); Shaped(t) && RaceInv(t)
  {
    JoinMissesNone(s.readLog, s.seenReads, s.readStores[m].view, s.readStores[m].count);
  }

  lemma ReadMissesNone(log: ReadLog, view: View, count: nat, c: Cell, r: nat)
    requires MissesNoneBefore(log, view, count) && c in log && count <= r
    ensures MissesNoneBefore(log[c := log[c] + [r]], view, count)
  {
  }

  lemma CopyOutKeepsRaceInv(s: State, k: nat, at: nat)
    requires CanCopyOut(s, k, at) && IndexInv(s) && RaceInv(s)
    ensures var t := DoCopyOut(s, k, at); Shaped(t) && RaceInv(t)
  {
    SlotIsMod(s, s.R());
    var t := DoCopyOut(s, k, at);
    var c := Cell(Mod(s.R(), s.capacity), k);
    assert t.readLog == s.readLog[c := s.readLog[c] + [s.R()]];
    forall i | 0 <= i < |s.readStores|
      ensures MissesNoneBefore(t.readLog, s.readStores[i].view, s.readStores[i].count)
    {
      ReadMissesNone(s.readLog, s.readStores[i].view, s.readStores[i].count, c, s.R());
    }
    ReadMissesNone(s.readLog, s.seenReads, s.readStores[s.seenRead].count, c, s.R());
  }

  lemma ReleaseMissesNone(log: ReadLog, count: nat)
    ensures MissesNoneBefore(log, ReadCounts(log), count)
  {
  }

  lemma PublishReadKeepsRaceInv(s: State)
    requires CanPublishRead(s) && RaceInv(s)
    ensures var t := DoPublishRead(s); Shaped(t) && RaceInv(t)
  {
    ReleaseMissesNone(s.readLog, s.R() + 1);
  }

  lemma StoreReattachKeepsRaceInv(s: State)
    requires Shaped(s) && s.consumer.CReattaching? && RaceInv(s)
    ensures var t := DoStoreReattach(s); Shaped(t) && RaceInv(t)
  {
    ReleaseMissesNone(s.readLog, s.seenWrite);
  }

  /** The other steps neither read slots nor touch read_idx. */
  lemma OtherStepKeepsRaceInv(s: State, step: Step)
    requires Enabled(s, step) && RaceInv(s)
    requires !step.LoadReadIdx? && !step.CopyOut? && !step.PublishRead? && !step.StoreReattach?
    ensures var t := Apply(s, step); Shaped(t) && RaceInv(t)
  {
  }

  lemma StepKeepsRaceInv(s: State, step: Step)
    requires Enabled(s, step) && IndexInv(s) && RaceInv(s)
    ensures var t := Apply(s, step); Shaped(t) && RaceInv(t)
  {
    match step
    case LoadReadIdx(m) => LoadReadIdxKeepsRaceInv(s, m);
    case CopyOut(k, at) => CopyOutKeepsRaceInv(s, k, at);
    case PublishRead => PublishReadKeepsRaceInv(s);
    case StoreReattach => StoreReattachKeepsRaceInv(s);
    case _ => OtherStepKeepsRaceInv(s, step);
  }

  lemma {:induction false} ExecKeepsRaceInv(capacity: nat, words: nat, steps: seq<Step>)
    requires ValidRing(capacity) && Exec(Init(capacity, words), steps).Some?
    ensures var t := Exec(Init(capacity, words), steps).value; Inv(t) && RaceInv(t)
  {
    Reachable(capacity, words, steps);
    if steps == [] {
      InitRaceInv(capacity, words);
    } else {
      var init := steps[..|steps| - 1];
      ExecKeepsRaceInv(capacity, words, init);
      StepKeepsRaceInv(Exec(Init(capacity, words), init).value, steps[|steps| - 1]);
    }
  }

  // ------------------------------------------------------------ happens before

  /** The producer overwrites a word only after having seen every read of it. */
  lemma OverwriteFollowsReads(s: State, k: nat)
    requires CanCopyIn(s, k) && IndexInv(s) && RaceInv(s)
    ensures
      var c := Cell(SlotOf(s, s.producer.w), k);
      c in s.seenReads && s.seenReads[c] == |s.readLog[c]|
  {
    SlotIsMod(s, s.W());
    LapBound(s);
    var c := Cell(Mod(s.W(), s.capacity), k);
    if s.seenReads[c] < |s.readLog[c]| {
      var j := s.readLog[c][s.seenReads[c]];
      assert s.W() - s.capacity < s.readStores[s.seenRead].count <= j < s.W();
      SameSlot(j, s.W(), s.capacity);
    }
  }

  lemma ViewAtRead(s: State, k: nat)
    requires Shaped(s) && s.consumer.CCopying? && k < s.words && ConsumerInv(s) && ViewInv(s)
    ensures
      var c := Cell(SlotOf(s, s.consumer.r), k);
      s.mem[c] != [] && s.R() < s.view[c] <= Latest(s.mem[c])
  {
    SlotIsMod(s, s.R());
    assert Covers(s.capacity, s.words, s.view, s.R());
  }

  lemma NewestIsDue(n: nat, words: nat, mem: Memory, v: View, sent: seq<Item>, fly: Option<(Item, set<nat>)>,
                    r: nat, seen: nat, k: nat)
    requires n > 0 && Grid(mem, n, words) && Grid(v, n, words) && k < words
    requires MemoryInv(n, mem, sent, fly) && CoversBelow(n, words, v, seen)
    requires r < seen <= |sent| <= r + n && (fly.Some? ==> |sent| < r + n)
    requires var c := Cell(Mod(r, n), k); mem[c] != [] && v[c] <= Latest(mem[c])
    ensures Latest(mem[Cell(Mod(r, n), k)]) == r + 1
  {
    EntryIsDue(n, words, mem, v, sent, fly, r, seen, k, |mem[Cell(Mod(r, n), k)]| - 1);
  }

  /** The consumer reads a word only after having seen every write of it. */
  lemma ReadFollowsWrites(s: State, k: nat, at: nat)
    requires CanCopyOut(s, k, at) && IndexInv(s) && ContentInv(s) && ViewInv(s)
    ensures s.view[Cell(SlotOf(s, s.consumer.r), k)] == Latest(s.mem[Cell(SlotOf(s, s.consumer.r), k)])
  {
    ViewAtRead(s, k);
    SlotIsMod(s, s.R());
    LapBound(s);
    NewestIsDue(s.capacity, s.words, s.mem, s.view, s.sent, InFlight(s.producer), s.R(), s.seenWrite, k);
  }

  /** In every interleaving no plain access to a slot races with another: copying
      a word in follows all reads of it, copying a word out follows all writes. */
  lemma SlotsAreRaceFree(capacity: nat, words: nat, steps: seq<Step>, k: nat, at: nat)
    requires ValidRing(capacity) && Exec(Init(capacity, words), steps).Some?
    ensures
      var t := Exec(Init(capacity, words), steps).value;
      && (CanCopyIn(t, k) ==>
            var c := Cell(SlotOf(t, t.producer.w), k);
            c in t.seenReads && t.seenReads[c] == |t.readLog[c]|)
      && (CanCopyOut(t, k, at) ==>
            var c := Cell(SlotOf(t, t.consumer.r), k);
            t.view[c] == Latest(t.mem[c]))
  {
    ExecKeepsRaceInv(capacity, words, steps);
    var t := Exec(Init(capacity, words), steps).value;
    if CanCopyIn(t, k) { OverwriteFollowsReads(t, k); }
    if CanCopyOut(t, k, at) { ReadFollowsWrites(t, k, at); }
  }
}
