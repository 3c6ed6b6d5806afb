/** The cancel-spike detector: cancels per second in consecutive time buckets. */
module CancelSpikeDetector {
  import opened Basics
  import opened MachineInts
  import opened Circular
  import opened FeedEvents
  import opened SymbolTable
  import W = Welford

  datatype Config = Config(rateWindowNs: uint64, zThreshold: real, maxSymbols: uint32)

  /** A bucket width of 0 can be configured, but cancels at one clock value would
      then be divided by zero. */
  ghost predicate ValidConfig(cfg: Config) {
    PowerOfTwo(cfg.maxSymbols) && cfg.rateWindowNs > 0
  }

  /** One symbol's entry: the open bucket and the statistics of the closed ones. */
  datatype Bucket = Bucket(cancelCount: nat, windowStartNs: uint64, rateStats: W.Stats)

  const NO_CANCELS := Bucket(0, 0, W.EMPTY)

  /** The z-score is reported as deviation and variance; see `Welford`. */
  datatype Spike = Spike(cancelsPerSec: real, meanRate: real, varianceRate: real)

  /** Cancels per second over a bucket of the given length in nanoseconds. */
  function Rate(count: nat, elapsed: uint64): real
    requires elapsed > 0
  {
    count as real / (elapsed as real / 1000000000.0)
  }

  /** The rate is scored against the earlier buckets only. */
  function Judge(cfg: Config, stats: W.Stats, rate: real): Option<Spike> {
    if stats.IsStable() && stats.Variance() > 0.0
       && W.ZAbove(rate - stats.mean, stats.Variance(), cfg.zThreshold)
    then Some(Spike(rate, stats.mean, stats.Variance()))
    else None
  }

  function EntryStep(cfg: Config, e: Bucket, now: uint64): (Bucket, Option<Spike>) {
    if e.windowStartNs == 0 then (Bucket(1, now, e.rateStats), None)
    else
      var elapsed := Sub64(now, e.windowStartNs);
      if elapsed < cfg.rateWindowNs then (e.(cancelCount := e.cancelCount + 1), None)
      else if elapsed == 0 then (e, None)  // excluded by `CanRate`
      else
        var rate := Rate(e.cancelCount, elapsed);
        (Bucket(1, now, W.Updated(e.rateStats, rate)), Judge(cfg, e.rateStats, rate))
  }

  /** The step divides by no zero: that takes a bucket width of 0 and a cancel at
      the clock value that opened the bucket. */
  predicate CanRate(cfg: Config, e: Bucket, now: uint64) {
    cfg.rateWindowNs > 0 || e.windowStartNs == 0 || now != e.windowStartNs
  }

  /** Taking over a row starts the count again but leaves the statistics in it. */
  function Claimed(e: Bucket): Bucket {
    Bucket(0, 0, e.rateStats)
  }

  function TheMachine(cfg: Config): Machine<Bucket, uint64, Option<Spike>> {
    Machine(NO_CANCELS, (e: Bucket) => Claimed(e), (e: Bucket, now: uint64) => EntryStep(cfg, e, now))
  }

  // ------------------------------------------------------------ the object

  datatype CancelSpikeAlert = CancelSpikeAlert(symbolId: uint16, spike: Spike)

  class CancelSpikeDetector {
    const cfg: Config
    const mask: nat
    const table: array<Row<Bucket>>
    var alertsFired: nat

    ghost predicate Valid() {
      PowerOfTwo(cfg.maxSymbols) && mask == cfg.maxSymbols - 1 && table.Length == cfg.maxSymbols
    }

    constructor (cfg: Config)
      requires PowerOfTwo(cfg.maxSymbols)
      ensures this.cfg == cfg && Valid() && fresh(table)
      ensures table[..] == EmptyTable(NO_CANCELS, cfg.maxSymbols)
    {
      this.cfg := cfg;
      mask := cfg.maxSymbols - 1;
      table := new Row<Bucket>[cfg.maxSymbols](_ => Row(false, 0, NO_CANCELS));
      alertsFired := 0;
    }

    method FindOrInsertRow(symbol: uint16) returns (idx: nat)
      requires Valid()
      modifies table
      ensures idx < table.Length
      ensures idx == Locate(old(table[..]), symbol, 0)
      ensures table[..] == FindOrInsert(old(table[..]), symbol, TheMachine(cfg).claim)
    {
      ghost var t := table[..];
      idx := And(symbol, mask);
      for i := 0 to table.Length
        invariant table[..] == t && Probing(t, symbol, i, idx)
      {
        ProbeStep(t, symbol, i, idx);
        if !table[idx].valid {
          table[idx] := Row(true, symbol, Bucket(0, 0, table[idx].entry.rateStats));
          return;
        }
        if table[idx].symbol == symbol { return; }
        idx := Advance(idx, mask, cfg.maxSymbols);
      }
      ProbedAll(t, symbol, idx);
      idx := And(symbol, mask);
      table[idx] := Row(true, symbol, Bucket(0, 0, table[idx].entry.rateStats));
    }

    method ProcessWithTime(e: Event, now: uint64) returns (fired: bool, out: CancelSpikeAlert)
      requires Valid()
      requires e.kind.Cancel? ==> CanRate(cfg, Start(TheMachine(cfg), table[..], e.symbol), now)
      modifies this`alertsFired, table
      ensures !e.kind.Cancel? ==> !fired && table[..] == old(table[..])
      ensures e.kind.Cancel? ==>
        var (t', hit) := Step(TheMachine(cfg), old(table[..]), Input(e.symbol, now));
        && table[..] == t' && (fired <==> hit.Some?)
        && (fired ==> out == CancelSpikeAlert(e.symbol, hit.value))
      ensures alertsFired == old(alertsFired) + if fired then 1 else 0
    {
      out := CancelSpikeAlert(0, Spike(0.0, 0.0, 0.0));
      fired := false;
      if !e.kind.Cancel? { return; }
      var idx := FindOrInsertRow(e.symbol);
      var hit := BucketCancel(idx, now);
      if hit.Some? {
        out := CancelSpikeAlert(e.symbol, hit.value);
        alertsFired := alertsFired + 1;
        fired := true;
      }
    }

    /** The bucket machine on one row. */
    method BucketCancel(idx: nat, now: uint64) returns (hit: Option<Spike>)
      requires Valid() && idx < table.Length && CanRate(cfg, table[idx].entry, now)
      modifies table
      ensures
        var (e', o) := EntryStep(cfg, old(table[idx]).entry, now);
        table[..] == old(table[..])[idx := old(table[idx]).(entry := e')] && hit == o
    {
      var row := table[idx];
      var entry := row.entry;
      if entry.windowStartNs == 0 {
        table[idx] := row.(entry := entry.(windowStartNs := now, cancelCount := 1));
        return None;
      }
      var elapsed := Sub64(now, entry.windowStartNs);
      if elapsed < cfg.rateWindowNs {
        table[idx] := row.(entry := entry.(cancelCount := entry.cancelCount + 1));
        return None;
      }
      var rate := Rate(entry.cancelCount, elapsed);
      hit := None;
      if entry.rateStats.IsStable() && entry.rateStats.Variance() > 0.0 {
        if W.ZAbove(rate - entry.rateStats.mean, entry.rateStats.Variance(), cfg.zThreshold) {
          hit := Some(Spike(rate, entry.rateStats.mean, entry.rateStats.Variance()));
        }
      }
      table[idx] := row.(entry := Bucket(1, now, W.Updated(entry.rateStats, rate)));
    }

    method Reset()
      requires Valid()
      modifies this, table
      ensures table[..] == EmptyTable(NO_CANCELS, cfg.maxSymbols) && alertsFired == 0
    {
      for i := 0 to table.Length
        invariant forall j | 0 <= j < i :: table[j] == Row(false, 0, NO_CANCELS)
      {
        table[i] := Row(false, 0, NO_CANCELS);
      }
      alertsFired := 0;
    }
  }
}
