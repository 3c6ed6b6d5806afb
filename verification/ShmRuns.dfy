/** Whole interleavings of the ring's producer and consumer. */
module ShmRuns {
  import opened Basics
  import opened MachineInts
  import opened ShmProtocol

  /** The state after a list of steps, if every one of them can be taken. */
  ghost function Exec(s: State, steps: seq<Step>): Option<State> {
    if steps == [] then Some(s)
    else
      match Exec(s, steps[..|steps| - 1])
      case None => None
      case Some(mid) =>
        var last := steps[|steps| - 1];
        if Enabled(mid, last) then Some(Apply(mid, last)) else None
  }

  ghost predicate ValidRing(capacity: nat) {
    PowerOfTwo(capacity) && 2 <= capacity < TWO_64
  }

  lemma {:induction false} ExecKeepsInv(s: State, steps: seq<Step>)
    requires Inv(s) && Exec(s, steps).Some?
    ensures Inv(Exec(s, steps).value)
  {
    if steps != [] {
      var init := steps[..|steps| - 1];
      ExecKeepsInv(s, init);
      StepKeepsInv(Exec(s, init).value, steps[|steps| - 1]);
    }
  }

  lemma Reachable(capacity: nat, words: nat, steps: seq<Step>)
    requires ValidRing(capacity) && Exec(Init(capacity, words), steps).Some?
    ensures Inv(Exec(Init(capacity, words), steps).value)
  {
    InitInv(capacity, words);
    ExecKeepsInv(Init(capacity, words), steps);
  }

  // ------------------------------------------------------------ delivery

  lemma StepFrame(s: State, step: Step)
    requires Enabled(s, step)
    ensures
      var t := Apply(s, step);
      && s.sent <= t.sent && t.capacity == s.capacity && t.words == s.words
      && (step.StoreReattach? || t.base == s.base)
  {
  }

  /** Published items are never altered or withdrawn, and only a reattach moves
      the point the consumer started from. */
  lemma {:induction false} ExecFrame(s: State, steps: seq<Step>)
    requires Exec(s, steps).Some?
    ensures
      var t := Exec(s, steps).value;
      && s.sent <= t.sent && t.capacity == s.capacity && t.words == s.words
      && ((forall x | x in steps :: !x.StoreReattach?) ==> t.base == s.base)
  {
    if steps != [] {
      var init := steps[..|steps| - 1];
      ExecFrame(s, init);
      StepFrame(Exec(s, init).value, steps[|steps| - 1]);
    }
  }

  /** In every interleaving, with both sides' views as stale as memory order
      allows: what was read is a prefix of what was written, whole and in order,
      and at most N items lie between. */
  lemma ReadIsPrefixOfWritten(capacity: nat, words: nat, steps: seq<Step>)
    requires ValidRing(capacity) && Exec(Init(capacity, words), steps).Some?
    requires forall x | x in steps :: !x.StoreReattach?
    ensures
      var t := Exec(Init(capacity, words), steps).value;
      && t.delivered <= t.sent
      && |t.sent| - |t.delivered| <= capacity
      && forall item | item in t.sent :: |item| == words
  {
    var s := Init(capacity, words);
    Reachable(capacity, words, steps);
    ExecFrame(s, steps);
    var t := Exec(s, steps).value;
    LapBound(t);
    forall item | item in t.sent ensures |item| == words {
      var j :| 0 <= j < |t.sent| && t.sent[j] == item;
    }
  }

  /** After a reattach that observed write index m, exactly the items from m on
      are delivered, in order, until the next reattach. */
  lemma ReattachDeliversFromObserved(capacity: nat, words: nat, before: seq<Step>, after: seq<Step>)
    requires ValidRing(capacity) && Exec(Init(capacity, words), before).Some?
    requires Enabled(Exec(Init(capacity, words), before).value, StoreReattach)
    requires Exec(Apply(Exec(Init(capacity, words), before).value, StoreReattach), after).Some?
    requires forall x | x in after :: !x.StoreReattach?
    ensures
      var s := Exec(Init(capacity, words), before).value;
      var t := Exec(Apply(s, StoreReattach), after).value;
      && t.readStores != []
      && s.seenWrite <= t.R() <= |t.sent|
      && t.delivered == t.sent[s.seenWrite..t.R()]
  {
    var s := Exec(Init(capacity, words), before).value;
    Reachable(capacity, words, before);
    StepKeepsInv(s, StoreReattach);
    ExecKeepsInv(Apply(s, StoreReattach), after);
    ExecFrame(Apply(s, StoreReattach), after);
  }

  // ------------------------------------------------------------ exclusion

  /** Producer and consumer never copy in the same slot at the same time. */
  lemma SlotsExclusive(capacity: nat, words: nat, steps: seq<Step>)
    requires ValidRing(capacity) && Exec(Init(capacity, words), steps).Some?
    ensures
      var t := Exec(Init(capacity, words), steps).value;
      t.producer.PCopying? && t.consumer.CCopying? ==>
        t.capacity > 0 && SlotOf(t, t.producer.w) != SlotOf(t, t.consumer.r)
  {
    Reachable(capacity, words, steps);
    var t := Exec(Init(capacity, words), steps).value;
    if t.producer.PCopying? && t.consumer.CCopying? {
      CopyingApart(t);
    }
  }

  lemma CopyingApart(t: State)
    requires Shaped(t) && IndexInv(t) && t.producer.PCopying? && t.consumer.CCopying?
    ensures SlotOf(t, t.producer.w) != SlotOf(t, t.consumer.r)
  {
    LapBound(t);
    SlotIsMod(t, t.W());
    SlotIsMod(t, t.R());
    if Mod(t.R(), t.capacity) == Mod(t.W(), t.capacity) {
      SameSlot(t.R(), t.W(), t.capacity);
    }
  }

  /** Hence no read is torn or stale: in every interleaving each plain read of a
      slot word can only return that word of the item due. */
  lemma NoTornRead(capacity: nat, words: nat, steps: seq<Step>, k: nat, at: nat)
    requires ValidRing(capacity) && Exec(Init(capacity, words), steps).Some?
    requires CanCopyOut(Exec(Init(capacity, words), steps).value, k, at)
    ensures
      var t := Exec(Init(capacity, words), steps).value;
      && t.R() < |t.sent| && k < |t.sent[t.R()]|
      && t.mem[Cell(SlotOf(t, t.consumer.r), k)][at].word == t.sent[t.R()][k]
  {
    Reachable(capacity, words, steps);
    ReadIsExact(Exec(Init(capacity, words), steps).value, k, at);
  }

  // ------------------------------------------------------------ outcomes and counters

  /** A write is refused only when the stores the producer has seen say the ring
      is exactly full; otherwise it goes on to copy. */
  lemma RefusedOnlyWhenFull(s: State, m: nat)
    requires Inv(s) && CanLoadReadIdx(s, m)
    ensures (DoLoadReadIdx(s, m).dropped == s.dropped + 1) <==> |s.sent| - s.readStores[m].count == s.capacity
    ensures DoLoadReadIdx(s, m).producer.PCopying? <==> DoLoadReadIdx(s, m).dropped == s.dropped
    ensures s.blocking ==> !DoLoadReadIdx(s, m).producer.PIdle?
  {
    FullTestIsExact(s, m);
    LoadReadIdxUnbounded(s, m);
  }

  /** The item of a call in progress. */
  function Pending(p: Producer): Option<Item> {
    match p
    case PCalled(item) => Some(item)
    case PHaveOwn(item, _) => Some(item)
    case PCopying(item, _, _) => Some(item)
    case _ => None
  }

  /** write_blocking holds on to its item until the step that publishes it. */
  lemma BlockingKeepsItem(s: State, step: Step)
    requires Enabled(s, step) && s.blocking && Pending(s.producer).Some?
    ensures
      var t := Apply(s, step);
      if step.PublishWrite? then t.sent == s.sent + [Pending(s.producer).value] && t.producer.PPublished?
      else t.sent == s.sent && t.blocking && Pending(t.producer) == Pending(s.producer)
  {
  }

  /** Of either call: the item passed in is the one published, unless it is dropped. */
  lemma StepKeepsItem(s: State, step: Step)
    requires Enabled(s, step)
    ensures
      var t := Apply(s, step);
      match step
      case Write(item, _) => Pending(t.producer) == Some(item) && t.sent == s.sent
      case PublishWrite =>
        Pending(s.producer).Some? && t.sent == s.sent + [Pending(s.producer).value] && Pending(t.producer) == None
      case _ => t.sent == s.sent && (Pending(t.producer) == Pending(s.producer) || Pending(t.producer) == None)
  {
  }

  /** Step `i` is a call to write `item`. */
  predicate IsCall(steps: seq<Step>, i: int, item: Item) {
    0 <= i < |steps| && steps[i].Write? && steps[i].item == item
  }

  /** Steps `at`, in order, are calls to write the items of `sent`. */
  ghost predicate AreCalls(steps: seq<Step>, at: seq<nat>, sent: seq<Item>) {
    && |at| == |sent|
    && (forall j | 0 <= j < |at| :: IsCall(steps, at[j], sent[j]))
    && (forall i, j | 0 <= i < j < |at| :: at[i] < at[j])
  }

  lemma CallsSoFar(s: State, init: seq<Step>, last: Step, at0: seq<nat>, p0: nat) returns (at: seq<nat>, p: nat)
    requires Enabled(s, last) && AreCalls(init, at0, s.sent)
    requires Pending(s.producer).Some? ==>
      IsCall(init, p0, Pending(s.producer).value) && forall j | 0 <= j < |at0| :: at0[j] < p0
    ensures
      var t := Apply(s, last);
      && AreCalls(init + [last], at, t.sent)
      && (Pending(t.producer).Some? ==>
            IsCall(init + [last], p, Pending(t.producer).value) && forall j | 0 <= j < |at| :: at[j] < p)
  {
    StepKeepsItem(s, last);
    at, p := at0, p0;
    if last.Write? { p := |init|; }
    if last.PublishWrite? { at := at0 + [p0]; }
    forall i, item | IsCall(init, i, item) ensures IsCall(init + [last], i, item) {
    }
  }

  /** In every interleaving the items published are items passed to write calls, in the
      order of those calls, each call used once. */
  lemma {:induction false} SentItemsWereWritten(capacity: nat, words: nat, steps: seq<Step>)
    returns (at: seq<nat>, p: nat)
    requires Exec(Init(capacity, words), steps).Some?
    ensures
      var t := Exec(Init(capacity, words), steps).value;
      && AreCalls(steps, at, t.sent)
      && (Pending(t.producer).Some? ==>
            IsCall(steps, p, Pending(t.producer).value) && forall j | 0 <= j < |at| :: at[j] < p)
    decreases |steps|
  {
    if steps == [] {
      at, p := [], 0;
    } else {
      var init, last := steps[..|steps| - 1], steps[|steps| - 1];
      at, p := SentItemsWereWritten(capacity, words, init);
      at, p := CallsSoFar(Exec(Init(capacity, words), init).value, init, last, at, p);
      assert init + [last] == steps;
    }
  }

  /** packets_received = processed + dropped + at most one in flight, the items
      published are those processed, and recorded depths stay below N. */
  lemma CountersBalance(capacity: nat, words: nat, steps: seq<Step>)
    requires ValidRing(capacity) && Exec(Init(capacity, words), steps).Some?
    ensures
      var t := Exec(Init(capacity, words), steps).value;
      && 0 <= t.received - t.processed - t.dropped <= 1
      && (t.received == t.processed + t.dropped <==> t.producer.PIdle?)
      && 0 <= |t.sent| - t.processed <= 1
      && forall d | d in t.depths :: d < capacity
  {
    Reachable(capacity, words, steps);
    ExecFrame(Init(capacity, words), steps);
  }

  // ------------------------------------------------------------ progress

  /** In every reachable state the producer, on its own, has a step to take. */
  lemma ProducerCanStep(s: State) returns (p: Step)
    requires Inv(s)
    ensures Enabled(s, p)
    ensures p.Write? || p.LoadWriteIdx? || p.LoadReadIdx? || p.CopyIn? || p.PublishWrite? || p.CountProcessed?
  {
    match s.producer
    case PIdle => p := Write(seq(s.words, _ => 0), false);
    case PCalled(_) => p := LoadWriteIdx;
    case PHaveOwn(_, _) => p := LoadReadIdx(s.seenRead);
    case PCopying(_, _, todo) =>
      if todo == {} { p := PublishWrite; } else {
        var k :| k in todo;
        p := CopyIn(k);
      }
    case PPublished => p := CountProcessed;
  }

  lemma NewestCanBeRead(s: State, k: nat) returns (c: Step)
    requires Shaped(s) && ConsumerInv(s) && BufferInv(s.words, s.consumer, s.sent, s.R())
    requires BoundInv(s.mem, s.view, s.writeStores) && s.consumer.CCopying? && k in s.consumer.todo
    ensures c.CopyOut? && Enabled(s, c)
  {
    var h := s.mem[Cell(SlotOf(s, s.consumer.r), k)];
    c := CopyOut(k, |h| - 1);
  }

  /** And so has the consumer; in particular a started read can be finished. */
  lemma ConsumerCanStep(s: State) returns (c: Step)
    requires Inv(s)
    ensures Enabled(s, c)
    ensures c.Read? || c.LoadOwnReadIdx? || c.LoadOtherWriteIdx? || c.CopyOut? || c.PublishRead? || c.RecordDepth?
            || c.StoreReattach?
  {
    match s.consumer
    case CIdle => c := Read;
    case CCalled => c := LoadOwnReadIdx;
    case CHaveOwn(_) => c := LoadOtherWriteIdx(s.seenWrite);
    case CCopying(_, _, todo, _) =>
      if todo == {} { c := PublishRead; } else {
        var k :| k in todo;
        c := NewestCanBeRead(s, k);
      }
    case CPublished(_, _) => c := RecordDepth;
    case CReattaching(_) => c := StoreReattach;
  }
}
