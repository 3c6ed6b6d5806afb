/** How often an order is counted: in every run, broken chains included, a large
    Add gives at most one latency. */
module OrderCounts {
  import opened Basics
  import opened MachineInts
  import opened Circular
  import opened FeedEvents
  import opened OrderTable
  import opened SpoofDetector
  import opened SpoofRuns

  /** An order is told apart by its id and the time it was placed. */
  datatype Placing = Placing(orderId: uint64, placedNs: uint64)

  predicate Stores(o: PendingOrder, x: Placing) {
    o.IsValid() && o.orderId == x.orderId && o.placedNs == x.placedNs
  }

  function One(b: bool): nat {
    if b then 1 else 0
  }

  /** Among the first `m` slots, those that store `x`. */
  ghost function Copies(t: Table, m: nat, x: Placing): nat
    requires m <= |t|
  {
    if m == 0 then 0 else Copies(t, m - 1, x) + One(Stores(t[m - 1], x))
  }

  ghost function Stored(t: Table, x: Placing): nat {
    Copies(t, |t|, x)
  }

  // ------------------------------------------------------------ the table operations

  lemma {:induction false} CopiesUpdate(t: Table, m: nat, i: nat, o: PendingOrder, x: Placing)
    requires m <= |t| && i < |t|
    ensures Copies(t[i := o], m, x) ==
            Copies(t, m, x) + if i < m then One(Stores(o, x)) - One(Stores(t[i], x)) else 0
  {
    if m > 0 { CopiesUpdate(t, m - 1, i, o, x); }
  }

  lemma BlankCopies(t: Table, i: nat, x: Placing)
    requires i < |t|
    ensures Stored(Blank(t, i), x) == Stored(t, x) - One(Stores(t[i], x))
  {
    CopiesUpdate(t, |t|, i, t[i].Invalidated(), x);
  }

  lemma InsertCopies(t: Table, o: PendingOrder, x: Placing)
    requires 0 < |t|
    ensures Stored(Insert(t, o), x) <= Stored(t, x) + One(Stores(o, x))
  {
    var p := Scan(t, o.orderId, 0);
    CopiesUpdate(t, |t|, if p.Exhausted? then Home(o.orderId, |t|) else p.slot, o, x);
  }

  lemma {:induction false} RehashCopies(t: Table, next: nat, x: Placing)
    requires next < |t| && HasGap(t)
    ensures Stored(Rehash(t, next), x) <= Stored(t, x)
    decreases Load(t, |t|), RunLength(t, next, 0)
  {
    if t[next].IsValid() {
      ReinsertDecreases(t, next);
      BlankCopies(t, next, x);
      InsertCopies(Blank(t, next), t[next], x);
      RehashCopies(Reinsert(t, next), Next(next, |t|), x);
    }
  }

  /** Deletion takes away the record found. */
  lemma RemoveCopies(t: Table, id: uint64, x: Placing)
    requires 0 < |t|
    ensures match Find(t, id)
            case Some(i) => i < |t| && Stored(Remove(t, id), x) + One(Stores(t[i], x)) <= Stored(t, x)
            case None => Remove(t, id) == t
  {
    match Scan(t, id, 0)
    case Hit(i) =>
      BlankCopies(t, i, x);
      assert !Blank(t, i)[i].IsValid();
      RehashCopies(Blank(t, i), Next(i, |t|), x);
    case _ =>
  }

  lemma {:induction false} EvictCopies(t: Table, m: nat, now: uint64, window: uint64, x: Placing)
    requires m <= |t|
    ensures Copies(Evict(t, now, window), m, x) <= Copies(t, m, x)
  {
    if m > 0 { EvictCopies(t, m - 1, now, window, x); }
  }

  lemma {:induction false} NoneStored(n: nat, m: nat, x: Placing)
    requires m <= n
    ensures Copies(EmptyTable(n), m, x) == 0
  {
    if m > 0 { NoneStored(n, m - 1, x); }
  }

  // ------------------------------------------------------------ whole runs

  predicate Places(cfg: Config, e: Timed, x: Placing) {
    && e.event.kind.Add? && e.event.qty >= cfg.qtyThreshold
    && e.event.orderId == x.orderId && e.now == x.placedNs
  }

  /** The large Adds of `x`. */
  function Adds(cfg: Config, es: seq<Timed>, x: Placing): nat {
    if es == [] then 0 else Adds(cfg, es[..|es| - 1], x) + One(Places(cfg, es[|es| - 1], x))
  }

  /** The latencies measured from `x`. */
  function Sampled(xs: seq<Sample>, x: Placing): nat {
    if xs == [] then 0
    else
      var last := xs[|xs| - 1];
      Sampled(xs[..|xs| - 1], x) + One(last.orderId == x.orderId && last.placedNs == x.placedNs)
  }

  lemma SampledSnoc(xs: seq<Sample>, s: Sample, x: Placing)
    ensures Sampled(xs + [s], x) == Sampled(xs, x) + One(s.orderId == x.orderId && s.placedNs == x.placedNs)
  {
    assert (xs + [s])[..|xs + [s]| - 1] == xs;
  }

  /** One event, from any state. */
  lemma StepCopies(cfg: Config, s: State, last: Timed, x: Placing)
    requires 0 < |s.table|
    ensures
      var s' := Step(cfg, s, last.event, last.now);
      Stored(s'.table, x) + Sampled(s'.samples, x)
      <= Stored(s.table, x) + Sampled(s.samples, x) + One(Places(cfg, last, x))
  {
    var e := last.event;
    if e.kind.Add? && e.qty >= cfg.qtyThreshold {
      InsertCopies(s.table, PendingOrder(e.orderId, e.price, e.qty, last.now), x);
    } else if e.kind.Cancel? {
      var t := Evict(s.table, last.now, cfg.timeWindowNs);
      EvictCopies(s.table, |s.table|, last.now, cfg.timeWindowNs, x);
      RemoveCopies(t, e.orderId, x);
      FindSound(t, e.orderId);
      if Find(t, e.orderId).Some? {
        var i := Find(t, e.orderId).value;
        SampledSnoc(s.samples, Sample(e.orderId, t[i].placedNs, last.now), x);
      }
    }
  }

  /** In every run, whatever eviction and overwriting did to the chains: the copies
      of an order still stored and the latencies measured from it are together no
      more than the large Adds of it. */
  lemma {:induction false} AtMostOneSamplePerAdd(cfg: Config, es: seq<Timed>, x: Placing)
    requires ValidConfig(cfg)
    ensures Stored(Run(cfg, es).table, x) + Sampled(Run(cfg, es).samples, x) <= Adds(cfg, es, x)
  {
    if es == [] {
      NoneStored(cfg.maxTrackedOrders, cfg.maxTrackedOrders, x);
    } else {
      var init, last := es[..|es| - 1], es[|es| - 1];
      AtMostOneSamplePerAdd(cfg, init, x);
      StepCopies(cfg, Run(cfg, init), last, x);
    }
  }
}
