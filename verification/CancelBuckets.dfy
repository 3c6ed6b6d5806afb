/** What the cancel-spike detector's bucket machine computes: a partition of one
    symbol's cancels into buckets, and the statistics of the rates of the closed
    ones.  Clock values are arbitrary; differences wrap as the program's do. */
module CancelBuckets {
  import opened Basics
  import opened MachineInts
  import opened Clock
  import opened SymbolTable
  import opened CancelSpikeDetector
  import W = Welford

  // ------------------------------------------------------------ the reference

  /** A symbol's cancel times cut into buckets, each opened by the first cancel at
      least one width after the opening of the one before.  The clock value 0 marks
      a bucket as not yet opened, so the next cancel drops a bucket opened at 0. */
  datatype Cut = Cut(closed: seq<seq<uint64>>, open: seq<uint64>) {
    predicate Unopened() {
      open == [] || open[0] == 0
    }

    /** A cancel at `t` closes the open bucket. */
    predicate ClosedBy(t: uint64, width: nat) {
      !Unopened() && Sub64(t, open[0]) >= width
    }
  }

  function OneMore(c: Cut, t: uint64, width: nat): Cut {
    if c.Unopened() then Cut(c.closed, [t])
    else if c.ClosedBy(t, width) then Cut(c.closed + [c.open], [t])
    else Cut(c.closed, c.open + [t])
  }

  function Buckets(ts: seq<uint64>, width: nat): Cut {
    if ts == [] then Cut([], []) else OneMore(Buckets(ts[..|ts| - 1], width), ts[|ts| - 1], width)
  }

  /** The rates of the closed buckets in cancels per second, each over the time to
      the next opening. */
  function Rates(ts: seq<uint64>, width: nat): seq<real>
    requires width > 0
  {
    if ts == [] then [] else Rates(ts[..|ts| - 1], width) + NewRate(Buckets(ts[..|ts| - 1], width), ts[|ts| - 1], width)
  }

  function NewRate(c: Cut, t: uint64, width: nat): seq<real>
    requires width > 0
  {
    if c.ClosedBy(t, width) then [|c.open| as real * 1000000000.0 / Sub64(t, c.open[0]) as real] else []
  }

  /** The program divides by the seconds elapsed, as a fraction of 10^9 nanoseconds. */
  lemma RateIsPerSecond(count: nat, elapsed: uint64)
    requires elapsed > 0
    ensures Rate(count, elapsed) * elapsed as real == count as real * 1000000000.0
    ensures Rate(count, elapsed) == count as real * 1000000000.0 / elapsed as real
  {
    var seconds, r := elapsed as real / 1000000000.0, Rate(count, elapsed);
    assert r * seconds == count as real;
    assert r * elapsed as real == r * seconds * 1000000000.0;
    W.DivisionIs(r, count as real * 1000000000.0, elapsed as real);
  }

  lemma BucketsSnoc(ts: seq<uint64>, t: uint64, width: nat)
    ensures Buckets(ts + [t], width) == OneMore(Buckets(ts, width), t, width)
  {
    assert (ts + [t])[..|ts + [t]| - 1] == ts;
  }

  lemma RatesSnoc(ts: seq<uint64>, t: uint64, width: nat)
    requires width > 0
    ensures Rates(ts + [t], width) == Rates(ts, width) + NewRate(Buckets(ts, width), t, width)
  {
    assert (ts + [t])[..|ts + [t]| - 1] == ts;
  }

  // ------------------------------------------------------------ shape of the buckets

  ghost predicate NoneEmpty(c: Cut) {
    (c.open == [] ==> c.closed == []) && forall i | 0 <= i < |c.closed| :: c.closed[i] != []
  }

  lemma {:induction false} BucketsNonEmpty(ts: seq<uint64>, width: nat)
    ensures NoneEmpty(Buckets(ts, width))
    ensures ts != [] ==> Buckets(ts, width).open != []
    ensures Buckets(ts, width).open != [] ==> Buckets(ts, width).open[0] in ts
  {
    if ts != [] { BucketsNonEmpty(ts[..|ts| - 1], width); }
  }

  /** The opening time of bucket `i`, closed or still open. */
  ghost function Opening(c: Cut, i: nat): uint64
    requires i <= |c.closed| && c.open != [] && NoneEmpty(c)
  {
    if i < |c.closed| then c.closed[i][0] else c.open[0]
  }

  /** All cancels of a bucket fall less than a width after its opening. */
  ghost predicate Within(b: seq<uint64>, width: nat) {
    forall k | 0 <= k < |b| :: Sub64(b[k], b[0]) < width
  }

  ghost predicate Narrow(c: Cut, width: nat) {
    Within(c.open, width) && forall i | 0 <= i < |c.closed| :: Within(c.closed[i], width)
  }

  lemma OneMoreIsNarrow(c: Cut, t: uint64, width: nat)
    requires Narrow(c, width) && width > 0
    ensures Narrow(OneMore(c, t, width), width)
  {
  }

  /** Each bucket holds only cancels within a width of its opening. */
  lemma {:induction false} BucketsAreNarrow(ts: seq<uint64>, width: nat)
    requires width > 0
    ensures Narrow(Buckets(ts, width), width)
  {
    if ts != [] {
      BucketsAreNarrow(ts[..|ts| - 1], width);
      OneMoreIsNarrow(Buckets(ts[..|ts| - 1], width), ts[|ts| - 1], width);
    }
  }

  /** The time each closed bucket spans, from its opening to the cancel that closed it. */
  function Spans(ts: seq<uint64>, width: nat): (spans: seq<uint64>)
    ensures |spans| == |Buckets(ts, width).closed|
  {
    if ts == [] then []
    else
      var before, t := Buckets(ts[..|ts| - 1], width), ts[|ts| - 1];
      Spans(ts[..|ts| - 1], width) + if before.ClosedBy(t, width) then [Sub64(t, before.open[0])] else []
  }

  /** `rate` is `count` cancels in `span` nanoseconds, per second. */
  predicate PerSecond(rate: real, count: nat, span: uint64) {
    rate * span as real == count as real * 1000000000.0
  }

  /** One span and one rate for each bucket. */
  ghost predicate AreRates(rates: seq<real>, closed: seq<seq<uint64>>, spans: seq<uint64>) {
    && |closed| == |spans| == |rates|
    && forall i | 0 <= i < |rates| :: PerSecond(rates[i], |closed[i]|, spans[i])
  }

  /** Each closed bucket spans at least the width, and its rate times that span is
      its cancels times the nanoseconds of a second. */
  lemma {:induction false} BucketsAreWide(ts: seq<uint64>, width: nat)
    requires width > 0
    ensures AreRates(Rates(ts, width), Buckets(ts, width).closed, Spans(ts, width))
    ensures forall i | 0 <= i < |Spans(ts, width)| :: Spans(ts, width)[i] >= width
  {
    if ts != [] {
      var init, t := ts[..|ts| - 1], ts[|ts| - 1];
      BucketsAreWide(init, width);
      var c := Buckets(init, width);
      if c.ClosedBy(t, width) { QuotientIsRate(|c.open|, Sub64(t, c.open[0])); }
    }
  }

  lemma QuotientIsRate(count: nat, span: uint64)
    requires span > 0
    ensures PerSecond(count as real * 1000000000.0 / span as real, count, span)
  {
    var rate := W.QuotientTimes(count as real * 1000000000.0, span as real);
  }

  // ------------------------------------------------------------ every cancel in one bucket

  /** No cancel follows while the open bucket is one opened at clock value 0. */
  ghost predicate NoneDropped(ts: seq<uint64>, width: nat) {
    forall k | 0 < k < |ts| :: !Buckets(ts[..k], width).Unopened()
  }

  function Flatten(parts: seq<seq<uint64>>): seq<uint64> {
    if parts == [] then [] else Flatten(parts[..|parts| - 1]) + parts[|parts| - 1]
  }

  function All(c: Cut): seq<uint64> {
    Flatten(c.closed) + c.open
  }

  lemma OneMoreIsAppended(c: Cut, t: uint64, width: nat)
    requires c.open == [] ==> c.closed == []
    ensures c == Cut([], []) || !c.Unopened() ==> All(OneMore(c, t, width)) == All(c) + [t]
    ensures |All(OneMore(c, t, width))| <= |All(c)| + 1
    ensures c.open != [] && c.Unopened() ==> |All(OneMore(c, t, width))| <= |All(c)|
  {
    assert (c.closed + [c.open])[..|c.closed + [c.open]| - 1] == c.closed;
  }

  lemma NoneDroppedSnoc(ts: seq<uint64>, t: uint64, width: nat)
    ensures NoneDropped(ts + [t], width) <==>
            NoneDropped(ts, width) && (ts != [] ==> !Buckets(ts, width).Unopened())
  {
    var us := ts + [t];
    assert forall k | 0 <= k <= |ts| :: us[..k] == ts[..k];
    assert ts[..|ts|] == ts;
  }

  lemma {:induction false} NothingLost(ts: seq<uint64>, width: nat)
    requires NoneDropped(ts, width)
    ensures All(Buckets(ts, width)) == ts
  {
    if ts != [] {
      var init, t := ts[..|ts| - 1], ts[|ts| - 1];
      assert init + [t] == ts;
      NoneDroppedSnoc(init, t, width);
      NothingLost(init, width);
      BucketsNonEmpty(init, width);
      OneMoreIsAppended(Buckets(init, width), t, width);
    }
  }

  lemma {:induction false} NothingGained(ts: seq<uint64>, width: nat)
    ensures |All(Buckets(ts, width))| <= |ts|
    ensures !NoneDropped(ts, width) ==> |All(Buckets(ts, width))| < |ts|
  {
    if ts != [] {
      var init, t := ts[..|ts| - 1], ts[|ts| - 1];
      assert init + [t] == ts;
      NoneDroppedSnoc(init, t, width);
      NothingGained(init, width);
      BucketsNonEmpty(init, width);
      OneMoreIsAppended(Buckets(init, width), t, width);
    }
  }

  /** The buckets in order are exactly the cancels, if and only if none was dropped;
      otherwise they are fewer. */
  lemma BucketsPartitionIff(ts: seq<uint64>, width: nat)
    ensures All(Buckets(ts, width)) == ts <==> NoneDropped(ts, width)
    ensures |All(Buckets(ts, width))| == |ts| <==> NoneDropped(ts, width)
    ensures |All(Buckets(ts, width))| <= |ts|
  {
    NothingGained(ts, width);
    if NoneDropped(ts, width) { NothingLost(ts, width); }
  }

  /** On a clock that never shows 0 nothing is dropped, whether it goes back or not. */
  lemma PositiveDropsNone(ts: seq<uint64>, width: nat)
    requires forall i | 0 <= i < |ts| :: ts[i] > 0
    ensures NoneDropped(ts, width)
  {
    forall k | 0 < k < |ts| ensures !Buckets(ts[..k], width).Unopened() {
      BucketsNonEmpty(ts[..k], width);
    }
  }

  /** On a clock that never goes back, nothing is dropped if and only if the first
      cancel is not at 0 or is the only one. */
  lemma RisingDropsNoneIff(ts: seq<uint64>, width: nat)
    requires Rising(ts)
    ensures NoneDropped(ts, width) <==> |ts| <= 1 || ts[0] > 0
  {
    if |ts| > 1 {
      if ts[0] > 0 {
        PositiveDropsNone(ts, width);
      } else {
        assert ts[..1][..0] == [] && ts[..1] == [0];
        assert Buckets(ts[..1], width).Unopened();
      }
    }
  }

  // ------------------------------------------------------------ the entry follows the buckets

  function TimesOf(own: seq<Input<uint64>>): seq<uint64> {
    if own == [] then [] else TimesOf(own[..|own| - 1]) + [own[|own| - 1].x]
  }

  /** What an entry that started with the statistics `from` should be after its cancels. */
  ghost predicate EntryIs(e: Bucket, from: W.Stats, ts: seq<uint64>, width: nat)
    requires width > 0
  {
    var c := Buckets(ts, width);
    && e.cancelCount == |c.open|
    && e.windowStartNs == (if c.open == [] then 0 else c.open[0])
    && e.rateStats == W.FoldFrom(from, Rates(ts, width))
  }

  /** What the detector should say about one more cancel at `t`: if it closes a
      bucket, the verdict on that bucket's rate against `from` and the rates before. */
  function Verdict(cfg: Config, from: W.Stats, ts: seq<uint64>, t: uint64): Option<Spike>
    requires cfg.rateWindowNs > 0
  {
    var c := Buckets(ts, cfg.rateWindowNs);
    if !c.ClosedBy(t, cfg.rateWindowNs) then None
    else
      var s := W.FoldFrom(from, Rates(ts, cfg.rateWindowNs));
      var rate := |c.open| as real * 1000000000.0 / Sub64(t, c.open[0]) as real;
      if s.count >= 2 && s.m2 > 0.0 && W.ZAbove(rate - s.mean, s.m2 / s.count as real, cfg.zThreshold)
      then Some(Spike(rate, s.mean, s.m2 / s.count as real))
      else None
  }

  lemma JudgeIs(cfg: Config, s: W.Stats, rate: real)
    ensures Judge(cfg, s, rate) ==
            if s.count >= 2 && s.m2 > 0.0 && W.ZAbove(rate - s.mean, s.m2 / s.count as real, cfg.zThreshold)
            then Some(Spike(rate, s.mean, s.m2 / s.count as real)) else None
  {
    if s.count >= 2 { QuotientPositive(s.m2, s.count as real, s.Variance()); }
  }

  lemma QuotientPositive(x: real, n: real, q: real)
    requires n > 0.0 && q == x / n
    ensures q > 0.0 <==> x > 0.0
  {
    assert q * n == x;
    if q > 0.0 { var p := W.Product(q, n); }
    if q <= 0.0 { var p := W.Product(-q, n); }
  }

  lemma VerdictIs(cfg: Config, from: W.Stats, ts: seq<uint64>, t: uint64)
    requires cfg.rateWindowNs > 0
    ensures
      var c := Buckets(ts, cfg.rateWindowNs);
      Verdict(cfg, from, ts, t) ==
      if c.ClosedBy(t, cfg.rateWindowNs)
      then Judge(cfg, W.FoldFrom(from, Rates(ts, cfg.rateWindowNs)), Rate(|c.open|, Sub64(t, c.open[0])))
      else None
  {
    var c := Buckets(ts, cfg.rateWindowNs);
    if c.ClosedBy(t, cfg.rateWindowNs) {
      RateIsPerSecond(|c.open|, Sub64(t, c.open[0]));
      JudgeIs(cfg, W.FoldFrom(from, Rates(ts, cfg.rateWindowNs)), Rate(|c.open|, Sub64(t, c.open[0])));
    }
  }

  lemma NewRateIs(c: Cut, t: uint64, width: nat)
    requires width > 0
    ensures NewRate(c, t, width) == if c.ClosedBy(t, width) then [Rate(|c.open|, Sub64(t, c.open[0]))] else []
  {
    if c.ClosedBy(t, width) { RateIsPerSecond(|c.open|, Sub64(t, c.open[0])); }
  }

  lemma StepKeepsEntry(cfg: Config, e: Bucket, from: W.Stats, ts: seq<uint64>, t: uint64)
    requires ValidConfig(cfg) && EntryIs(e, from, ts, cfg.rateWindowNs)
    ensures EntryIs(EntryStep(cfg, e, t).0, from, ts + [t], cfg.rateWindowNs)
    ensures EntryStep(cfg, e, t).1 == Verdict(cfg, from, ts, t)
  {
    var width := cfg.rateWindowNs;
    var c := Buckets(ts, width);
    BucketsSnoc(ts, t, width);
    RatesSnoc(ts, t, width);
    NewRateIs(c, t, width);
    VerdictIs(cfg, from, ts, t);
    if c.ClosedBy(t, width) {
      W.FoldFromSnoc(from, Rates(ts, width), Rate(|c.open|, Sub64(t, c.open[0])));
    } else {
      assert Rates(ts + [t], width) == Rates(ts, width);
    }
  }

  /** For every clock: open count, window start and statistics are those of the
      partition, continued from the statistics the entry started with. */
  lemma {:induction false} EntryFollowsBuckets(cfg: Config, from: W.Stats, own: seq<Input<uint64>>)
    requires ValidConfig(cfg)
    ensures EntryIs(EntryFrom(TheMachine(cfg), Bucket(0, 0, from), own), from, TimesOf(own), cfg.rateWindowNs)
  {
    if own != [] {
      var init, x := own[..|own| - 1], own[|own| - 1].x;
      EntryFollowsBuckets(cfg, from, init);
      StepKeepsEntry(cfg, EntryFrom(TheMachine(cfg), Bucket(0, 0, from), init), from, TimesOf(init), x);
    }
  }

  function Total(parts: seq<seq<uint64>>): nat {
    if parts == [] then 0 else Total(parts[..|parts| - 1]) + |parts[|parts| - 1]|
  }

  lemma {:induction false} TotalIsFlat(parts: seq<seq<uint64>>)
    ensures Total(parts) == |Flatten(parts)|
  {
    if parts != [] { TotalIsFlat(parts[..|parts| - 1]); }
  }

  lemma {:induction false} TimesLength(own: seq<Input<uint64>>)
    ensures |TimesOf(own)| == |own|
  {
    if own != [] { TimesLength(own[..|own| - 1]); }
  }

  /** Conservation: closed buckets and open count hold every cancel of the symbol if
      and only if none was dropped, and fewer otherwise; the statistics always have
      one more sample per closed bucket. */
  lemma CancelsConservedIff(cfg: Config, from: W.Stats, own: seq<Input<uint64>>)
    requires ValidConfig(cfg)
    ensures
      var e, ts := EntryFrom(TheMachine(cfg), Bucket(0, 0, from), own), TimesOf(own);
      var c := Buckets(ts, cfg.rateWindowNs);
      && Total(c.closed) + e.cancelCount <= |own|
      && (Total(c.closed) + e.cancelCount == |own| <==> NoneDropped(ts, cfg.rateWindowNs))
      && e.rateStats.count == from.count + |c.closed|
  {
    var ts, width := TimesOf(own), cfg.rateWindowNs;
    EntryFollowsBuckets(cfg, from, own);
    BucketsPartitionIff(ts, width);
    TotalIsFlat(Buckets(ts, width).closed);
    BucketsAreWide(ts, width);
    W.FoldFromCount(from, Rates(ts, width));
    TimesLength(own);
  }
}
