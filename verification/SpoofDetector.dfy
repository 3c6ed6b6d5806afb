/** The spoof detector: its order table, latency statistics and alerts. */
module SpoofDetector {
  import opened Basics
  import opened MachineInts
  import opened Circular
  import opened FeedEvents
  import opened OrderTable
  import W = Welford

  datatype Config = Config(
    qtyThreshold: uint32,
    timeWindowNs: uint64,
    zThreshold: real,
    maxTrackedOrders: uint32,
    rollingWindowSize: uint32)

  /** What the constructor asserts, and what its index arithmetic needs. */
  ghost predicate ValidConfig(cfg: Config) {
    PowerOfTwo(cfg.maxTrackedOrders) && cfg.rollingWindowSize > 0
  }

  /** A latency fed to the statistics, with the two clock values it came from. */
  datatype Sample = Sample(orderId: uint64, placedNs: uint64, cancelledNs: uint64) {
    function Latency(): uint64 {
      Sub64(cancelledNs, placedNs)
    }
  }

  /** `zScore` is kept as the deviation from the mean and the variance: the
      program stores their quotient deviation / sqrt(variance). */
  datatype SpoofAlert = SpoofAlert(
    orderId: uint64, price: real, qty: uint32, placedNs: uint64, cancelledNs: uint64,
    deviation: real, variance: real)

  // ------------------------------------------------------------ one event, on values

  datatype State = State(table: Table, samples: seq<Sample>)

  function Latencies(samples: seq<Sample>): seq<real> {
    seq(|samples|, i requires 0 <= i < |samples| => samples[i].Latency() as real)
  }

  function Step(cfg: Config, s: State, e: Event, now: uint64): (s': State)
    requires 0 < |s.table|
    ensures |s'.table| == |s.table|
  {
    if e.kind.Add? && e.qty >= cfg.qtyThreshold then
      s.(table := Insert(s.table, PendingOrder(e.orderId, e.price, e.qty, now)))
    else if e.kind.Cancel? then
      var t := Evict(s.table, now, cfg.timeWindowNs);
      match Find(t, e.orderId)
      case None => s.(table := t)
      case Some(i) =>
        FindSound(t, e.orderId);
        State(Remove(t, e.orderId), s.samples + [Sample(e.orderId, t[i].placedNs, now)])
    else s
  }

  /** The tracked record a Cancel takes out of the table, if any. */
  function Taken(cfg: Config, s: State, e: Event, now: uint64): Option<PendingOrder>
    requires 0 < |s.table|
  {
    if !e.kind.Cancel? then None
    else
      var t := Evict(s.table, now, cfg.timeWindowNs);
      match Find(t, e.orderId)
      case None => None
      case Some(i) => FindSound(t, e.orderId); Some(t[i])
  }

  /** Whether this event raises an alert: the statistics include its own latency. */
  ghost predicate Fires(cfg: Config, s: State, e: Event, now: uint64)
    requires 0 < |s.table|
  {
    && Taken(cfg, s, e, now).Some?
    && Outlier(W.TwoPass(Latencies(Step(cfg, s, e, now).samples)),
               Sub64(now, Taken(cfg, s, e, now).value.placedNs) as real, cfg.zThreshold)
  }

  /** Enough samples, some spread, and a z-score below the threshold. */
  predicate Outlier(stats: W.Stats, latency: real, threshold: real) {
    stats.IsStable() && stats.Variance() > 0.0
    && W.ZBelow(latency - stats.mean, stats.Variance(), threshold)
  }

  /** The alert reports the record taken and the score of its latency. */
  ghost function AlertOf(cfg: Config, s: State, e: Event, now: uint64): SpoofAlert
    requires 0 < |s.table| && Taken(cfg, s, e, now).Some?
  {
    var o, stats := Taken(cfg, s, e, now).value, W.TwoPass(Latencies(Step(cfg, s, e, now).samples));
    SpoofAlert(e.orderId, o.price, o.qty, o.placedNs, now,
               Sub64(now, o.placedNs) as real - stats.mean, stats.Variance())
  }

  lemma LastLatency(cfg: Config, s: State, e: Event, now: uint64)
    requires 0 < |s.table|
    ensures
      var h, h' := Latencies(s.samples), Latencies(Step(cfg, s, e, now).samples);
      match Taken(cfg, s, e, now)
      case Some(o) => h' == h + [Sub64(now, o.placedNs) as real] && o.orderId == e.orderId
      case None => h' == h
  {
  }

  // ------------------------------------------------------------ the object

  /** The slot `k` places before `head` in a circular buffer. */
  function Back(head: nat, k: nat, n: nat): (i: nat)
    requires head < n && k <= n
    ensures i < n
  {
    if k == 0 then head else if head >= k then head - k else head + n - k
  }

  /** A circular buffer holds the most recent samples, newest just before the head. */
  ghost predicate RecentIn(buf: seq<real>, head: nat, samples: seq<Sample>) {
    && head < |buf|
    && forall k | 1 <= k <= |samples| && k <= |buf| ::
         buf[Back(head, k, |buf|)] == samples[|samples| - k].Latency() as real
  }

  lemma RecentPush(buf: seq<real>, head: nat, samples: seq<Sample>, s: Sample)
    requires RecentIn(buf, head, samples)
    ensures RecentIn(buf[head := s.Latency() as real], Next(head, |buf|), samples + [s])
  {
    var n, buf', head', samples' := |buf|, buf[head := s.Latency() as real], Next(head, |buf|), samples + [s];
    forall k | 1 <= k <= |samples'| && k <= n
      ensures buf'[Back(head', k, n)] == samples'[|samples'| - k].Latency() as real
    {
      if k > 1 { assert Back(head', k, n) == Back(head, k - 1, n) != head; }
    }
  }

  class AnomalyDetector {
    const cfg: Config
    const mask: nat
    const orderTable: array<PendingOrder>
    const latencyWindow: array<real>
    const stats: W.WelfordStats
    var windowHead: nat
    var alertsFired: nat
    var ordersTracked: nat
    ghost var samples: seq<Sample>

    /** The fixed shape: sizes and mask. */
    ghost predicate Sized() {
      && ValidConfig(cfg)
      && mask == cfg.maxTrackedOrders - 1
      && orderTable.Length == cfg.maxTrackedOrders
      && latencyWindow.Length == cfg.rollingWindowSize
    }

    ghost predicate RecentLatencies()
      reads this, latencyWindow
    {
      RecentIn(latencyWindow[..], windowHead, samples)
    }

    ghost predicate Valid()
      reads this, latencyWindow, stats
    {
      Sized() && RecentLatencies() && stats.Valid() && stats.history == Latencies(samples)
    }

    ghost function Abstract(): State
      reads this, orderTable
    {
      State(orderTable[..], samples)
    }

    constructor (cfg: Config)
      requires ValidConfig(cfg)
      ensures this.cfg == cfg && Valid()
      ensures fresh(orderTable) && fresh(latencyWindow) && fresh(stats)
      ensures Abstract() == InitialState(cfg)
    {
      this.cfg := cfg;
      mask := cfg.maxTrackedOrders - 1;
      orderTable := new PendingOrder[cfg.maxTrackedOrders](_ => EMPTY_SLOT);
      latencyWindow := new real[cfg.rollingWindowSize](_ => 0.0);
      stats := new W.WelfordStats();
      windowHead, alertsFired, ordersTracked := 0, 0, 0;
      samples := [];
      new;
      assert orderTable[..] == EmptyTable(cfg.maxTrackedOrders);
    }

    method FindOrder(orderId: uint64) returns (found: Option<nat>)
      requires Sized()
      ensures found == Find(orderTable[..], orderId)
    {
      ghost var t := orderTable[..];
      var idx: nat := And(orderId % TWO_32, mask);
      for i := 0 to cfg.maxTrackedOrders
        invariant Probing(t, orderId, i, idx)
      {
        ProbeStep(t, orderId, i, idx);
        if !orderTable[idx].IsValid() { return None; }
        if orderTable[idx].orderId == orderId { return Some(idx); }
        idx := Advance(idx, mask, cfg.maxTrackedOrders);
      }
      return None;
    }

    method InsertOrder(o: PendingOrder)
      requires Sized()
      modifies orderTable
      ensures orderTable[..] == Insert(old(orderTable[..]), o)
    {
      ghost var t := orderTable[..];
      var idx: nat := And(o.orderId % TWO_32, mask);
      for i := 0 to cfg.maxTrackedOrders
        invariant orderTable[..] == t && Probing(t, o.orderId, i, idx)
      {
        ProbeStep(t, o.orderId, i, idx);
        if !orderTable[idx].IsValid() {
          orderTable[idx] := o;
          return;
        }
        if orderTable[idx].orderId == o.orderId {
          orderTable[idx] := o;
          return;
        }
        idx := Advance(idx, mask, cfg.maxTrackedOrders);
      }
      orderTable[And(o.orderId % TWO_32, mask)] := o;
    }

    method RemoveOrder(orderId: uint64)
      requires Sized()
      modifies orderTable
      ensures orderTable[..] == Remove(old(orderTable[..]), orderId)
    {
      ghost var t := orderTable[..];
      var idx: nat := And(orderId % TWO_32, mask);
      for i := 0 to cfg.maxTrackedOrders
        invariant orderTable[..] == t && Probing(t, orderId, i, idx)
      {
        ProbeStep(t, orderId, i, idx);
        if !orderTable[idx].IsValid() { return; }
        if orderTable[idx].orderId == orderId {
          assert !Blank(t, idx)[idx].IsValid();
          RemoveAt(idx);
          return;
        }
        idx := Advance(idx, mask, cfg.maxTrackedOrders);
      }
    }

    /** The body of the match in `RemoveOrder`. */
    method RemoveAt(idx: nat)
      requires Sized() && idx < orderTable.Length && HasGap(Blank(orderTable[..], idx))
      modifies orderTable
      ensures orderTable[..] == Rehash(Blank(old(orderTable[..]), idx), Next(idx, orderTable.Length))
    {
      ghost var t := orderTable[..];
      orderTable[idx] := orderTable[idx].Invalidated();
      assert orderTable[..] == Blank(t, idx);
      var next := Advance(idx, mask, cfg.maxTrackedOrders);
      RehashCluster(next);
    }

    /** The inner loop of `RemoveOrder`.  It ends from any table state: its
        measure needs neither unbroken chains nor unique ids. */
    method RehashCluster(start: nat)
      requires Sized() && start < orderTable.Length && HasGap(orderTable[..])
      modifies orderTable
      ensures orderTable[..] == Rehash(old(orderTable[..]), start)
    {
      var next: nat := start;
      ghost var t := orderTable[..];
      ghost var goal := Rehash(t, start);
      while orderTable[next].IsValid()
        invariant orderTable[..] == t && next < |t| && HasGap(t)
        invariant Rehash(t, next) == goal
        decreases Load(t, |t|), RunLength(t, next, 0)
      {
        next := ReinsertAt(next);
        t := orderTable[..];
      }
    }

    /** The loop's body. */
    method ReinsertAt(next: nat) returns (next': nat)
      requires Sized() && next < orderTable.Length && orderTable[next].IsValid() && HasGap(orderTable[..])
      modifies orderTable
      ensures
        var t, t' := old(orderTable[..]), orderTable[..];
        && t' == Reinsert(t, next) && next' == Next(next, |t|) && HasGap(t')
        && Rehash(t', next') == Rehash(t, next)
        && (Load(t', |t'|) < Load(t, |t|) || (t' == t && RunLength(t', next', 0) < RunLength(t, next, 0)))
    {
      ghost var before := orderTable[..];
      var displaced := orderTable[next];
      orderTable[next] := orderTable[next].Invalidated();
      assert orderTable[..] == Blank(before, next);
      InsertOrder(displaced);
      next' := Advance(next, mask, cfg.maxTrackedOrders);
      RehashTurn(before, next, orderTable[..], next');
    }

    method EvictStale(now: uint64)
      requires Sized()
      modifies orderTable
      ensures orderTable[..] == Evict(old(orderTable[..]), now, cfg.timeWindowNs)
    {
      for i := 0 to orderTable.Length
        invariant forall j | 0 <= j < i :: orderTable[j] ==
                    if Stale(old(orderTable[j]), now, cfg.timeWindowNs) then old(orderTable[j]).Invalidated()
                    else old(orderTable[j])
        invariant forall j | i <= j < orderTable.Length :: orderTable[j] == old(orderTable[j])
      {
        if orderTable[i].IsValid() && Sub64(now, orderTable[i].placedNs) > cfg.timeWindowNs {
          orderTable[i] := orderTable[i].Invalidated();
        }
      }
    }

    method OnAddEvent(e: Event, now: uint64)
      requires Valid() && e.kind.Add?
      modifies this`ordersTracked, orderTable
      ensures Valid() && Abstract() == Step(cfg, old(Abstract()), e, now)
      ensures ordersTracked == old(ordersTracked) + if e.qty >= cfg.qtyThreshold then 1 else 0
    {
      if e.qty < cfg.qtyThreshold { return; }
      InsertOrder(PendingOrder(e.orderId, e.price, e.qty, now));
      ordersTracked := ordersTracked + 1;
    }

    /** The circular buffer and the running statistics take one more latency. */
    method RecordLatency(placed: PendingOrder, now: uint64)
      requires Valid()
      modifies this`windowHead, this`samples, latencyWindow, stats
      ensures Valid() && samples == old(samples) + [Sample(placed.orderId, placed.placedNs, now)]
      ensures latencyWindow[..] == old(latencyWindow[..])[old(windowHead) := Sub64(now, placed.placedNs) as real]
      ensures windowHead == (old(windowHead) + 1) % cfg.rollingWindowSize
    {
      var elapsed := Sub64(now, placed.placedNs) as real;
      RecentPush(latencyWindow[..], windowHead, samples, Sample(placed.orderId, placed.placedNs, now));
      latencyWindow[windowHead] := elapsed;
      StepMod(windowHead, cfg.rollingWindowSize);
      windowHead := (windowHead + 1) % cfg.rollingWindowSize;
      stats.Update(elapsed);
      samples := samples + [Sample(placed.orderId, placed.placedNs, now)];
      assert Latencies(samples) == Latencies(old(samples)) + [elapsed];
    }

    /** The first half of `OnCancelEvent`: evict, look up, record, remove. */
    method TakeTracked(e: Event, now: uint64) returns (taken: Option<PendingOrder>)
      requires Valid() && e.kind.Cancel?
      modifies this`windowHead, this`samples, orderTable, latencyWindow, stats
      ensures Valid() && Abstract() == Step(cfg, old(Abstract()), e, now)
      ensures taken == Taken(cfg, old(Abstract()), e, now)
    {
      EvictStale(now);
      var p := FindOrder(e.orderId);
      if p.None? { return None; }
      ghost var t := orderTable[..];
      FindSound(t, e.orderId);
      taken := Some(orderTable[p.value]);
      RecordLatency(taken.value, now);
      assert orderTable[..] == t;
      RemoveOrder(e.orderId);
    }

    method OnCancelEvent(e: Event, now: uint64) returns (fired: bool, out: SpoofAlert)
      requires Valid() && e.kind.Cancel?
      modifies this`windowHead, this`alertsFired, this`samples, orderTable, latencyWindow, stats
      ensures Valid() && Abstract() == Step(cfg, old(Abstract()), e, now)
      ensures fired <==> Fires(cfg, old(Abstract()), e, now)
      ensures fired ==> out == AlertOf(cfg, old(Abstract()), e, now)
      ensures alertsFired == old(alertsFired) + if fired then 1 else 0
    {
      ghost var before := Abstract();
      out := SpoofAlert(0, 0.0, 0, 0, 0, 0.0, 0.0);
      var p := TakeTracked(e, now);
      if p.None? { return false, out; }
      LastLatency(cfg, before, e, now);
      var elapsed := Sub64(now, p.value.placedNs) as real;
      var hit := Judge(elapsed);
      if !hit { return false, out; }
      var state := stats.State();
      out := SpoofAlert(e.orderId, p.value.price, p.value.qty, p.value.placedNs, now,
                        elapsed - state.mean, state.Variance());
      alertsFired := alertsFired + 1;
      return true, out;
    }

    method Judge(elapsed: real) returns (hit: bool)
      ensures hit <==> Outlier(stats.State(), elapsed, cfg.zThreshold)
    {
      var state := stats.State();
      if !state.IsStable() { return false; }
      if state.Variance() <= 0.0 { return false; }
      if !W.ZBelow(elapsed - state.mean, state.Variance(), cfg.zThreshold) { return false; }
      return true;
    }

    method ProcessWithTime(e: Event, now: uint64) returns (fired: bool, out: SpoofAlert)
      requires Valid()
      modifies this, orderTable, latencyWindow, stats
      ensures Valid() && Abstract() == Step(cfg, old(Abstract()), e, now)
      ensures fired <==> Fires(cfg, old(Abstract()), e, now)
      ensures fired ==> out == AlertOf(cfg, old(Abstract()), e, now)
      ensures alertsFired == old(alertsFired) + if fired then 1 else 0
      ensures ordersTracked == old(ordersTracked) + if e.kind.Add? && e.qty >= cfg.qtyThreshold then 1 else 0
    {
      out := SpoofAlert(0, 0.0, 0, 0, 0, 0.0, 0.0);
      match e.kind
      case Add =>
        OnAddEvent(e, now);
        fired := false;
      case Cancel =>
        fired, out := OnCancelEvent(e, now);
      case _ =>
        fired := false;
    }

    method Reset()
      requires Valid()
      modifies this, orderTable, latencyWindow, stats
      ensures Valid() && Records(orderTable[..]) == {} && samples == []
      ensures alertsFired == 0 && ordersTracked == 0
    {
      for i := 0 to orderTable.Length
        invariant forall j | 0 <= j < i :: !orderTable[j].IsValid()
      {
        orderTable[i] := orderTable[i].Invalidated();
      }
      for i := 0 to latencyWindow.Length
        invariant forall j | 0 <= j < orderTable.Length :: !orderTable[j].IsValid()
      {
        latencyWindow[i] := 0.0;
      }
      windowHead, alertsFired, ordersTracked := 0, 0, 0;
      stats.Reset();
      samples := [];
      assert forall i | 0 <= i < orderTable.Length :: !orderTable[..][i].IsValid();
    }
  }

  const EMPTY_SLOT := PendingOrder(0, 0.0, 0, 0)

  function EmptyTable(n: nat): Table {
    seq(n, _ => EMPTY_SLOT)
  }

  function InitialState(cfg: Config): State {
    State(EmptyTable(cfg.maxTrackedOrders), [])
  }
}
