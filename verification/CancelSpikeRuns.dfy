/** Whole runs of the cancel-spike detector, with any clock and any number of symbols. */
module CancelSpikeRuns {
  import opened Basics
  import opened MachineInts
  import opened SymbolTable
  import opened CancelSpikeDetector
  import opened CancelBuckets
  import W = Welford

  // ------------------------------------------------------------ within capacity

  /** Conservation over whole runs: in the row of every symbol, closed buckets and
      open count hold all of that symbol's cancels if and only if none was dropped. */
  lemma EveryCancelIsCountedIff(cfg: Config, xs: seq<Input<uint64>>, symbol: uint16) returns (e: Bucket)
    requires ValidConfig(cfg) && |Symbols(xs)| <= cfg.maxSymbols && symbol in Symbols(xs)
    ensures Holds(Run(TheMachine(cfg), cfg.maxSymbols, xs), symbol, e)
    ensures
      var own := Only(xs, symbol);
      var c := Buckets(TimesOf(own), cfg.rateWindowNs);
      && (Total(c.closed) + e.cancelCount == |own| <==> NoneDropped(TimesOf(own), cfg.rateWindowNs))
      && e.rateStats.count == |c.closed|
  {
    e := Entry(TheMachine(cfg), Only(xs, symbol));
    RunIsIsolated(TheMachine(cfg), cfg.maxSymbols, xs);
    KnownHolds(TheMachine(cfg), Run(TheMachine(cfg), cfg.maxSymbols, xs), xs, symbol);
    CancelsConservedIff(cfg, W.EMPTY, Only(xs, symbol));
  }

  lemma AnswerIsVerdict(cfg: Config, init: seq<Input<uint64>>, x: Input<uint64>)
    requires ValidConfig(cfg) && |Symbols(init + [x])| <= cfg.maxSymbols
    ensures Output(TheMachine(cfg), cfg.maxSymbols, init + [x])
            == Verdict(cfg, W.EMPTY, TimesOf(Only(init, x.symbol)), x.x)
  {
    var own := Only(init, x.symbol);
    assert (init + [x])[..|init|] == init;
    RunIsIsolated(TheMachine(cfg), cfg.maxSymbols, init + [x]);
    EntryFollowsBuckets(cfg, W.EMPTY, own);
    StepKeepsEntry(cfg, Entry(TheMachine(cfg), own), W.EMPTY, TimesOf(own), x.x);
  }

  /** The answer to a cancel that closes a bucket of rate `rate`, against earlier
      rates of this mean and variance, of which `sd` is any root. */
  ghost predicate Scored(answer: Option<Spike>, rate: real, mean: real, variance: real, sd: real, threshold: real) {
    && (answer.Some? ==> variance > 0.0 && answer.value == Spike(rate, mean, variance))
    && (sd > 0.0 && sd * sd == variance ==> (answer.Some? <==> (rate - mean) / sd > threshold))
  }

  lemma ScoredAs(answer: Option<Spike>, rate: real, mean: real, variance: real, sd: real, threshold: real)
    requires answer == if variance > 0.0 && W.ZAbove(rate - mean, variance, threshold)
                       then Some(Spike(rate, mean, variance)) else None
    ensures Scored(answer, rate, mean, variance, sd, threshold)
  {
    if sd > 0.0 && sd * sd == variance {
      var p := W.Product(sd, sd);
      W.ZBelowIsQuotient(rate - mean, variance, sd, threshold);
    }
  }

  /** The rate of the bucket that a cancel at `t` closes. */
  function ClosingRate(c: Cut, t: uint64, width: nat): (rate: real)
    requires c.ClosedBy(t, width) && width > 0
    ensures PerSecond(rate, |c.open|, Sub64(t, c.open[0]))
  {
    QuotientIsRate(|c.open|, Sub64(t, c.open[0]));
    |c.open| as real * 1000000000.0 / Sub64(t, c.open[0]) as real
  }

  lemma VerdictIsScored(cfg: Config, from: W.Stats, ts: seq<uint64>, t: uint64, s: W.Stats, rate: real, sd: real)
    requires ValidConfig(cfg) && Buckets(ts, cfg.rateWindowNs).ClosedBy(t, cfg.rateWindowNs)
    requires s == W.FoldFrom(from, Rates(ts, cfg.rateWindowNs))
    requires rate == ClosingRate(Buckets(ts, cfg.rateWindowNs), t, cfg.rateWindowNs)
    ensures s.count < 2 ==> Verdict(cfg, from, ts, t) == None
    ensures s.count >= 2 ==>
      Scored(Verdict(cfg, from, ts, t), rate, s.mean, s.m2 / s.count as real, sd, cfg.zThreshold)
  {
    if s.count >= 2 {
      QuotientPositive(s.m2, s.count as real, s.m2 / s.count as real);
      ScoredAs(Verdict(cfg, from, ts, t), rate, s.mean, s.m2 / s.count as real, sd, cfg.zThreshold);
    }
  }

  /** In a run with at most as many symbols as rows, an alert is raised exactly when
      the cancel closes a bucket of its own symbol, that symbol has closed two or more
      before, whose rates are not all equal, and the rate of the bucket closed lies
      more than the threshold in standard deviations above their mean.  It reports
      that rate, the mean and the variance. */
  lemma SpikesAreExact(cfg: Config, init: seq<Input<uint64>>, x: Input<uint64>, sd: real)
    returns (rates: seq<real>, rate: real)
    requires ValidConfig(cfg) && |Symbols(init + [x])| <= cfg.maxSymbols
    ensures
      var ts, width := TimesOf(Only(init, x.symbol)), cfg.rateWindowNs;
      var c, answer := Buckets(ts, width), Output(TheMachine(cfg), cfg.maxSymbols, init + [x]);
      && AreRates(rates, c.closed, Spans(ts, width))
      && (c.ClosedBy(x.x, width) ==> PerSecond(rate, |c.open|, Sub64(x.x, c.open[0])))
      && (!c.ClosedBy(x.x, width) || |rates| < 2 ==> answer == None)
      && (c.ClosedBy(x.x, width) && |rates| >= 2 ==>
            var mean := W.Sum(rates) / |rates| as real;
            Scored(answer, rate, mean, W.SquaredDeviations(rates, mean) / |rates| as real, sd, cfg.zThreshold))
  {
    var ts, width := TimesOf(Only(init, x.symbol)), cfg.rateWindowNs;
    rates, rate := Rates(ts, width), 0.0;
    BucketsAreWide(ts, width);
    AnswerIsVerdict(cfg, init, x);
    if Buckets(ts, width).ClosedBy(x.x, width) {
      rate := ClosingRate(Buckets(ts, width), x.x, width);
      W.FoldIsTwoPass(rates);
      VerdictIsScored(cfg, W.EMPTY, ts, x.x, W.TwoPass(rates), rate, sd);
    }
  }

  // ------------------------------------------------------------ more symbols than rows

  lemma AnswerSinceClaim(cfg: Config, init: seq<Input<uint64>>, x: Input<uint64>) returns (i: nat, k: nat)
    requires ValidConfig(cfg)
    ensures k <= |init| && HeldSince(TheMachine(cfg), cfg.maxSymbols, init + [x], i, x.symbol, k)
    ensures
      var found := Run(TheMachine(cfg), cfg.maxSymbols, init[..k])[i].entry.rateStats;
      Output(TheMachine(cfg), cfg.maxSymbols, init + [x])
      == Verdict(cfg, found, TimesOf(Only(init[k..], x.symbol)), x.x)
  {
    i, k := AnswersFollowTheClaim(TheMachine(cfg), cfg.maxSymbols, init, x);
    var found := Run(TheMachine(cfg), cfg.maxSymbols, init[..k])[i].entry.rateStats;
    var own := Only(init[k..], x.symbol);
    EntryFollowsBuckets(cfg, found, own);
    StepKeepsEntry(cfg, EntryFrom(TheMachine(cfg), Bucket(0, 0, found), own), found, TimesOf(own), x.x);
  }

  /** However many symbols a run has: an alert is exact for that symbol's cancels
      since it last took its row, judged by the statistics it found there continued
      with the rates of its own closed buckets. */
  lemma SpikesAreExactSinceClaim(cfg: Config, init: seq<Input<uint64>>, x: Input<uint64>, sd: real)
    returns (i: nat, k: nat, rates: seq<real>, rate: real)
    requires ValidConfig(cfg)
    ensures k <= |init| && HeldSince(TheMachine(cfg), cfg.maxSymbols, init + [x], i, x.symbol, k)
    ensures
      var ts, width := TimesOf(Only(init[k..], x.symbol)), cfg.rateWindowNs;
      var c, answer := Buckets(ts, width), Output(TheMachine(cfg), cfg.maxSymbols, init + [x]);
      var s := W.FoldFrom(Run(TheMachine(cfg), cfg.maxSymbols, init[..k])[i].entry.rateStats, rates);
      && AreRates(rates, c.closed, Spans(ts, width))
      && (c.ClosedBy(x.x, width) ==> PerSecond(rate, |c.open|, Sub64(x.x, c.open[0])))
      && (!c.ClosedBy(x.x, width) || s.count < 2 ==> answer == None)
      && (c.ClosedBy(x.x, width) && s.count >= 2 ==>
            Scored(answer, rate, s.mean, s.m2 / s.count as real, sd, cfg.zThreshold))
  {
    i, k := AnswerSinceClaim(cfg, init, x);
    var ts, width := TimesOf(Only(init[k..], x.symbol)), cfg.rateWindowNs;
    var found := Run(TheMachine(cfg), cfg.maxSymbols, init[..k])[i].entry.rateStats;
    rates, rate := Rates(ts, width), 0.0;
    BucketsAreWide(ts, width);
    if Buckets(ts, width).ClosedBy(x.x, width) {
      rate := ClosingRate(Buckets(ts, width), x.x, width);
      VerdictIsScored(cfg, found, ts, x.x, W.FoldFrom(found, rates), rate, sd);
    }
  }

  ghost predicate Crowded(t: seq<Row<Bucket>>) {
    forall z | 0 <= z < |t| :: t[z].valid
  }

  /** A new symbol takes a free row with blank statistics, or on a full table its
      home row with the statistics of the symbol it displaces. */
  lemma TakeoverInheritsStatistics(t: seq<Row<Bucket>>, symbol: uint16, cfg: Config)
    requires ValidConfig(cfg) && |t| == cfg.maxSymbols
    requires Chained(t) && FreeRowsBlank(t, NO_CANCELS) && !Knows(t, symbol)
    ensures
      var i := Locate(t, symbol, 0);
      FindOrInsert(t, symbol, TheMachine(cfg).claim)[i] ==
      Row(true, symbol, Bucket(0, 0, if Crowded(t) then t[symbol % |t|].entry.rateStats else W.EMPTY))
  {
    HomeIsRemainder(symbol, |t|);
    LocateNew(t, symbol);
    LocateKnown(t, symbol);
  }

  // ------------------------------------------------------------ when inherited statistics matter

  ghost predicate Plausible(s: W.Stats) {
    s.m2 >= 0.0 && (s.count == 0 ==> s == W.EMPTY)
  }

  /** In every run the statistics of every row are plausible. */
  lemma {:induction false} RunIsPlausible(cfg: Config, xs: seq<Input<uint64>>, i: nat)
    requires ValidConfig(cfg) && i < cfg.maxSymbols
    ensures Plausible(Run(TheMachine(cfg), cfg.maxSymbols, xs)[i].entry.rateStats)
    decreases |xs|
  {
    if xs != [] {
      var init, x := xs[..|xs| - 1], xs[|xs| - 1];
      var t := Run(TheMachine(cfg), cfg.maxSymbols, init);
      RunIsPlausible(cfg, init, i);
      RunIsPlausible(cfg, init, Locate(t, x.symbol, 0));
      StepWrites(TheMachine(cfg), t, x);
      StepIsPlausible(cfg, Start(TheMachine(cfg), t, x.symbol), x.x);
    }
  }

  lemma StepIsPlausible(cfg: Config, e: Bucket, now: uint64)
    requires Plausible(e.rateStats)
    ensures Plausible(EntryStep(cfg, e, now).0.rateStats)
  {
    var elapsed := Sub64(now, e.windowStartNs);
    if elapsed > 0 { W.UpdateSpreads(e.rateStats, Rate(e.cancelCount, elapsed)); }
  }

  /** Against statistics with any spread, a large enough bucket stands out. */
  lemma LargeBucketFires(cfg: Config, stats: W.Stats) returns (n: nat)
    requires ValidConfig(cfg) && stats.IsStable() && stats.Variance() > 0.0
    ensures n >= 1 && Judge(cfg, stats, Rate(n, cfg.rateWindowNs)).Some?
  {
    var v, thr, seconds := stats.Variance(), cfg.zThreshold, cfg.rateWindowNs as real / 1000000000.0;
    var bound := SquareTimes(thr, v) + 1.0;
    var target := stats.mean + bound;
    n := if target <= 0.0 then 1 else CountAbove(target, seconds);
    var rate := Rate(n, cfg.rateWindowNs);
    RateExceeds(n, seconds, target, rate);
    FarAboveStandsOut(rate - stats.mean, v, thr, bound);
  }

  function SquareTimes(thr: real, v: real): (p: real)
    requires v > 0.0
    ensures p == thr * thr * v && p >= 0.0
  {
    SquareTimesNonNegative(thr, v);
    thr * thr * v
  }

  lemma SquareTimesNonNegative(thr: real, v: real)
    requires v > 0.0
    ensures thr * thr * v >= 0.0
  {
    var a := if thr < 0.0 then -thr else thr;
    var s := W.Product(a, a);
    assert s == thr * thr;
    var p := W.Product(s, v);
  }

  function CountAbove(target: real, seconds: real): (n: nat)
    requires target > 0.0 && seconds > 0.0
    ensures n >= 1 && n as real > target * seconds
  {
    assert target * seconds > 0.0;
    (target * seconds).Floor + 1
  }

  lemma RateExceeds(n: nat, seconds: real, target: real, rate: real)
    requires seconds > 0.0 && n >= 1 && rate == n as real / seconds
    requires target <= 0.0 || n as real > target * seconds
    ensures rate > target
  {
    assert rate * seconds == n as real;
    W.ScaleOrder(if target <= 0.0 then 0.0 else target, rate, seconds);
  }

  lemma FarAboveStandsOut(d: real, v: real, thr: real, bound: real)
    requires v > 0.0 && bound == thr * thr * v + 1.0 && bound >= 1.0 && d > bound
    ensures W.ZAbove(d, v, thr)
  {
    var p := W.Product(d - 1.0, d);
    assert p == d * d - d;
    assert (-d) * (-d) == d * d && (-thr) * (-thr) == thr * thr;
  }

  /** A cancel at the clock value that opened the bucket joins it. */
  lemma JoinsBucket(ts: seq<uint64>, width: nat)
    requires width > 0 && !Buckets(ts, width).Unopened()
    ensures
      var c := Buckets(ts, width);
      var us := ts + [c.open[0]];
      Buckets(us, width) == Cut(c.closed, c.open + [c.open[0]]) && Rates(us, width) == Rates(ts, width)
  {
    BucketsSnoc(ts, Buckets(ts, width).open[0], width);
    RatesSnoc(ts, Buckets(ts, width).open[0], width);
  }

  lemma {:induction false} BucketGrows(ts: seq<uint64>, n: nat, width: nat) returns (us: seq<uint64>)
    requires width > 0 && !Buckets(ts, width).Unopened()
    ensures
      var c, d := Buckets(ts, width), Buckets(us, width);
      && d.open != [] && d.open[0] == c.open[0] && |d.open| == |c.open| + n
      && Rates(us, width) == Rates(ts, width)
  {
    us := ts;
    if n > 0 {
      var before := BucketGrows(ts, n - 1, width);
      JoinsBucket(before, width);
      us := before + [Buckets(before, width).open[0]];
    }
  }

  lemma BucketOpens(ts: seq<uint64>, a: uint64, width: nat)
    requires width > 0 && a > 0 && (Buckets(ts, width).Unopened() || Buckets(ts, width).ClosedBy(a, width))
    ensures Buckets(ts + [a], width).open == [a]
  {
    BucketsSnoc(ts, a, width);
  }

  /** `n` cancels at one clock value after the cancels `ts`, the first closing
      the open bucket or opening the very first. */
  lemma FreshBucket(ts: seq<uint64>, a: uint64, n: nat, width: nat) returns (us: seq<uint64>)
    requires width > 0 && n >= 1 && a > 0
    requires Buckets(ts, width).Unopened() || Buckets(ts, width).ClosedBy(a, width)
    ensures
      var d := Buckets(us, width);
      && d.open != [] && d.open[0] == a && |d.open| == n
      && Rates(us, width) == Rates(ts, width) + NewRate(Buckets(ts, width), a, width)
  {
    var first := ts + [a];
    BucketOpens(ts, a, width);
    RatesSnoc(ts, a, width);
    us := BucketGrows(first, n - 1, width);
  }

  lemma AloneStaysSilent(cfg: Config, ts: seq<uint64>, t: uint64)
    requires ValidConfig(cfg) && |Rates(ts, cfg.rateWindowNs)| <= 1
    ensures Verdict(cfg, W.EMPTY, ts, t) == None
  {
    W.FoldFromCount(W.EMPTY, Rates(ts, cfg.rateWindowNs));
  }

  /** A bucket of `n` cancels exactly one width long that stands out against `s`. */
  lemma ClosingFires(cfg: Config, from: W.Stats, ts: seq<uint64>, a: uint64, n: nat, s: W.Stats) returns (t: uint64)
    requires ValidConfig(cfg) && a > 0 && s == W.FoldFrom(from, Rates(ts, cfg.rateWindowNs))
    requires var open := Buckets(ts, cfg.rateWindowNs).open; open != [] && open[0] == a && |open| == n
    requires Judge(cfg, s, Rate(n, cfg.rateWindowNs)).Some?
    ensures Verdict(cfg, from, ts, t).Some?
  {
    t := Add64(a, cfg.rateWindowNs);
    VerdictIs(cfg, from, ts, t);
  }

  /** Inherited statistics with some spread are noticed at the first closed bucket. */
  lemma SpreadPrejudices(cfg: Config, from: W.Stats, a: uint64) returns (ts: seq<uint64>, t: uint64)
    requires ValidConfig(cfg) && from.IsStable() && from.Variance() > 0.0 && a > 0
    ensures Verdict(cfg, from, ts, t) != Verdict(cfg, W.EMPTY, ts, t)
  {
    var n := LargeBucketFires(cfg, from);
    ts := FreshBucket([], a, n, cfg.rateWindowNs);
    t := ClosingFires(cfg, from, ts, a, n, from);
    AloneStaysSilent(cfg, ts, t);
  }

  lemma TwoRates(cfg: Config, mean: real) returns (m: nat)
    requires ValidConfig(cfg)
    ensures m >= 1 && Rate(m, cfg.rateWindowNs) != mean
  {
    var seconds := cfg.rateWindowNs as real / 1000000000.0;
    assert Rate(1, cfg.rateWindowNs) * seconds == 1.0 && Rate(2, cfg.rateWindowNs) * seconds == 2.0;
    m := if Rate(1, cfg.rateWindowNs) == mean then 2 else 1;
  }

  /** Inherited statistics without spread gain some from the symbol's first bucket,
      and are then noticed at its second. */
  lemma CountPrejudices(cfg: Config, from: W.Stats, a: uint64) returns (ts: seq<uint64>, t: uint64)
    requires ValidConfig(cfg) && from.count >= 1 && from.m2 >= 0.0 && a > 0 && Add64(a, cfg.rateWindowNs) > 0
    ensures Verdict(cfg, from, ts, t) != Verdict(cfg, W.EMPTY, ts, t)
  {
    var width := cfg.rateWindowNs;
    var b := Add64(a, width);
    var m := TwoRates(cfg, from.mean);
    var r := Rate(m, width);
    var first := FreshBucket([], a, m, width);
    assert Rates(first, width) == [] + [];
    W.UpdateSpreads(from, r);
    var stats := W.Updated(from, r);
    var n := LargeBucketFires(cfg, stats);
    ts := FreshBucket(first, b, n, width);
    NewRateIs(Buckets(first, width), b, width);
    assert Rates(ts, width) == [] + [r];
    W.FoldFromSnoc(from, [], r);
    t := ClosingFires(cfg, from, ts, b, n, stats);
    AloneStaysSilent(cfg, ts, t);
  }

  /** Starting from the statistics `from`, every verdict is what it would be without. */
  ghost predicate Unprejudiced(cfg: Config, from: W.Stats)
    requires ValidConfig(cfg)
  {
    forall ts, t :: Verdict(cfg, from, ts, t) == Verdict(cfg, W.EMPTY, ts, t)
  }

  lemma UnprejudicedIff(cfg: Config, from: W.Stats)
    requires ValidConfig(cfg) && Plausible(from)
    ensures Unprejudiced(cfg, from) <==> from.count == 0
  {
    if from.count > 0 {
      var a: uint64 := if Add64(1, cfg.rateWindowNs) == 0 then 2 else 1;
      if from.IsStable() && from.Variance() > 0.0 {
        var ts, t := SpreadPrejudices(cfg, from, a);
      } else {
        var ts, t := CountPrejudices(cfg, from, a);
      }
    }
  }

  // ------------------------------------------------------------ a symbol's alerts are its own

  /** Inputs of one symbol at the given times. */
  function At(symbol: uint16, ts: seq<uint64>): seq<Input<uint64>> {
    if ts == [] then [] else At(symbol, ts[..|ts| - 1]) + [Input(symbol, ts[|ts| - 1])]
  }

  lemma {:induction false} AtTimes(symbol: uint16, ts: seq<uint64>)
    ensures |At(symbol, ts)| == |ts| && TimesOf(At(symbol, ts)) == ts && Only(At(symbol, ts), symbol) == At(symbol, ts)
    ensures forall i | 0 <= i < |ts| :: At(symbol, ts)[i].symbol == symbol
  {
    if ts != [] {
      AtTimes(symbol, ts[..|ts| - 1]);
      var xs := At(symbol, ts);
      assert xs[..|xs| - 1] == At(symbol, ts[..|ts| - 1]);
    }
  }

  /** After an input of the symbol it has a row. */
  lemma KnownAfter(cfg: Config, xs: seq<Input<uint64>>, x: Input<uint64>)
    requires ValidConfig(cfg)
    ensures Knows(Run(TheMachine(cfg), cfg.maxSymbols, xs + [x]), x.symbol)
  {
    var t := Run(TheMachine(cfg), cfg.maxSymbols, xs);
    RunSnoc(TheMachine(cfg), cfg.maxSymbols, xs, x);
    StepWrites(TheMachine(cfg), t, x);
    assert Run(TheMachine(cfg), cfg.maxSymbols, xs + [x])[Locate(t, x.symbol, 0)].symbol == x.symbol;
  }

  /** A symbol new to the table after `xs` and then fed alone takes its row at once. */
  lemma TakesRowAtOnce(cfg: Config, xs: seq<Input<uint64>>, own: seq<Input<uint64>>, symbol: uint16, i: nat, k: nat)
    requires ValidConfig(cfg) && !Knows(Run(TheMachine(cfg), cfg.maxSymbols, xs), symbol)
    requires own != [] && forall j | 0 <= j < |own| :: own[j].symbol == symbol
    requires HeldSince(TheMachine(cfg), cfg.maxSymbols, xs + own, i, symbol, k)
    ensures k == |xs| && i == Locate(Run(TheMachine(cfg), cfg.maxSymbols, xs), symbol, 0)
  {
    var all := xs + own;
    assert all[..|xs|] == xs;
    if k > |xs| {
      assert all[..k] == all[..k - 1] + [all[k - 1]];
      assert all[k - 1] == own[k - 1 - |xs|];
      KnownAfter(cfg, all[..k - 1], all[k - 1]);
    }
  }

  lemma {:induction false} ClaimAfterOwn(cfg: Config, xs: seq<Input<uint64>>, own: seq<Input<uint64>>,
                                         x: Input<uint64>, i: nat, k: nat)
    requires ValidConfig(cfg) && !Knows(Run(TheMachine(cfg), cfg.maxSymbols, xs), x.symbol)
    requires forall j | 0 <= j < |own| :: own[j].symbol == x.symbol
    requires HeldSince(TheMachine(cfg), cfg.maxSymbols, xs + own + [x], i, x.symbol, k)
    ensures k == |xs| && i == Locate(Run(TheMachine(cfg), cfg.maxSymbols, xs), x.symbol, 0)
  {
    assert xs + own + [x] == xs + (own + [x]);
    TakesRowAtOnce(cfg, xs, own + [x], x.symbol, i, k);
  }

  lemma AnswersAfterOwn(cfg: Config, xs: seq<Input<uint64>>, own: seq<Input<uint64>>, x: Input<uint64>)
    requires ValidConfig(cfg) && !Knows(Run(TheMachine(cfg), cfg.maxSymbols, xs), x.symbol)
    requires Only(own, x.symbol) == own && forall j | 0 <= j < |own| :: own[j].symbol == x.symbol
    ensures
      var table := Run(TheMachine(cfg), cfg.maxSymbols, xs);
      var found := table[Locate(table, x.symbol, 0)].entry.rateStats;
      Output(TheMachine(cfg), cfg.maxSymbols, xs + own + [x]) == Verdict(cfg, found, TimesOf(own), x.x)
  {
    var init := xs + own;
    var i, k := AnswerSinceClaim(cfg, init, x);
    ClaimAfterOwn(cfg, xs, own, x, i, k);
    assert init[..k] == xs && init[k..] == own;
  }

  /** And it is judged from the statistics found in that row. */
  lemma AnswersAfterTakeover(cfg: Config, xs: seq<Input<uint64>>, symbol: uint16, ts: seq<uint64>, t: uint64)
    requires ValidConfig(cfg) && !Knows(Run(TheMachine(cfg), cfg.maxSymbols, xs), symbol)
    ensures
      var table := Run(TheMachine(cfg), cfg.maxSymbols, xs);
      var found := table[Locate(table, symbol, 0)].entry.rateStats;
      Output(TheMachine(cfg), cfg.maxSymbols, xs + At(symbol, ts) + [Input(symbol, t)]) == Verdict(cfg, found, ts, t)
  {
    AtTimes(symbol, ts);
    AnswersAfterOwn(cfg, xs, At(symbol, ts), Input(symbol, t));
  }

  /** The answers to a symbol fed alone after `xs` are those of a detector that never
      saw `xs`. */
  ghost predicate OwnAlerts(cfg: Config, xs: seq<Input<uint64>>, symbol: uint16)
    requires ValidConfig(cfg)
  {
    forall ts, t ::
      Output(TheMachine(cfg), cfg.maxSymbols, xs + At(symbol, ts) + [Input(symbol, t)])
      == Output(TheMachine(cfg), cfg.maxSymbols, At(symbol, ts) + [Input(symbol, t)])
  }

  lemma AnswersFromNothing(cfg: Config, symbol: uint16, ts: seq<uint64>, t: uint64)
    requires ValidConfig(cfg)
    ensures Output(TheMachine(cfg), cfg.maxSymbols, At(symbol, ts) + [Input(symbol, t)]) == Verdict(cfg, W.EMPTY, ts, t)
  {
    AnswersAfterTakeover(cfg, [], symbol, ts, t);
    assert [] + At(symbol, ts) == At(symbol, ts);
  }

  lemma SameAnswerIff(cfg: Config, xs: seq<Input<uint64>>, symbol: uint16, ts: seq<uint64>, t: uint64, found: W.Stats)
    requires ValidConfig(cfg) && !Knows(Run(TheMachine(cfg), cfg.maxSymbols, xs), symbol)
    requires
      var table := Run(TheMachine(cfg), cfg.maxSymbols, xs);
      found == table[Locate(table, symbol, 0)].entry.rateStats
    ensures
      Output(TheMachine(cfg), cfg.maxSymbols, xs + At(symbol, ts) + [Input(symbol, t)])
      == Output(TheMachine(cfg), cfg.maxSymbols, At(symbol, ts) + [Input(symbol, t)])
      <==> Verdict(cfg, found, ts, t) == Verdict(cfg, W.EMPTY, ts, t)
  {
    AnswersAfterTakeover(cfg, xs, symbol, ts, t);
    AnswersFromNothing(cfg, symbol, ts, t);
  }

  lemma OwnAlertsAreUnprejudiced(cfg: Config, xs: seq<Input<uint64>>, symbol: uint16, found: W.Stats)
    requires ValidConfig(cfg) && !Knows(Run(TheMachine(cfg), cfg.maxSymbols, xs), symbol)
    requires
      var table := Run(TheMachine(cfg), cfg.maxSymbols, xs);
      found == table[Locate(table, symbol, 0)].entry.rateStats
    ensures OwnAlerts(cfg, xs, symbol) <==> Unprejudiced(cfg, found)
  {
    if OwnAlerts(cfg, xs, symbol) {
      forall ts, t ensures Verdict(cfg, found, ts, t) == Verdict(cfg, W.EMPTY, ts, t) {
        SameAnswerIff(cfg, xs, symbol, ts, t, found);
      }
    }
    if Unprejudiced(cfg, found) {
      forall ts, t
        ensures Output(TheMachine(cfg), cfg.maxSymbols, xs + At(symbol, ts) + [Input(symbol, t)])
                == Output(TheMachine(cfg), cfg.maxSymbols, At(symbol, ts) + [Input(symbol, t)])
      {
        SameAnswerIff(cfg, xs, symbol, ts, t, found);
      }
    }
  }

  /** In every run, a symbol without a row will be judged by its own history alone if
      and only if some row is free or the row it takes over has no closed bucket. */
  lemma OwnAlertsIff(cfg: Config, xs: seq<Input<uint64>>, symbol: uint16)
    requires ValidConfig(cfg) && !Knows(Run(TheMachine(cfg), cfg.maxSymbols, xs), symbol)
    ensures
      var table := Run(TheMachine(cfg), cfg.maxSymbols, xs);
      OwnAlerts(cfg, xs, symbol) <==> !Crowded(table) || table[symbol % |table|].entry.rateStats.count == 0
  {
    var table := Run(TheMachine(cfg), cfg.maxSymbols, xs);
    var i := Locate(table, symbol, 0);
    RunKeepsChain(TheMachine(cfg), cfg.maxSymbols, xs);
    HomeIsRemainder(symbol, |table|);
    LocateNew(table, symbol);
    RunIsPlausible(cfg, xs, i);
    UnprejudicedIff(cfg, table[i].entry.rateStats);
    OwnAlertsAreUnprejudiced(cfg, xs, symbol, table[i].entry.rateStats);
  }

  // ------------------------------------------------------------ a run

  lemma OneRowStep(cfg: Config, xs: seq<Input<uint64>>, x: Input<uint64>, row: Row<Bucket>)
    requires ValidConfig(cfg) && cfg.maxSymbols == 1 && Run(TheMachine(cfg), 1, xs) == [row]
    ensures
      var start := if row.valid && row.symbol == x.symbol then row.entry else Claimed(row.entry);
      var (e, o) := EntryStep(cfg, start, x.x);
      && Run(TheMachine(cfg), 1, xs + [x]) == [Row(true, x.symbol, e)]
      && Output(TheMachine(cfg), 1, xs + [x]) == o
  {
    RunSnoc(TheMachine(cfg), 1, xs, x);
    StepWrites(TheMachine(cfg), [row], x);
    assert Locate([row], x.symbol, 0) == 0;
  }

  const SECOND: uint64 := 1_000_000_000

  function CancelAt(symbol: uint16, seconds: uint8): Input<uint64> {
    Input(symbol, seconds * SECOND)
  }

  /** Symbol 1 has one cancel in a bucket of one second, then one in two seconds. */
  lemma TwoSlowBuckets(cfg: Config) returns (xs: seq<Input<uint64>>)
    requires ValidConfig(cfg) && cfg.maxSymbols == 1 && cfg.rateWindowNs == SECOND
    ensures xs == [CancelAt(1, 1), CancelAt(1, 2), CancelAt(1, 4)]
    ensures Run(TheMachine(cfg), 1, xs) == [Row(true, 1, Bucket(1, 4 * SECOND, W.Stats(2, 0.75, 0.125)))]
  {
    var x1, x2, x3 := CancelAt(1, 1), CancelAt(1, 2), CancelAt(1, 4);
    var blank: Row<Bucket> := Row(false, 0, NO_CANCELS);
    assert Run(TheMachine(cfg), 1, []) == [blank];
    OneRowStep(cfg, [], x1, blank);
    assert [] + [x1] == [x1];
    OneRowStep(cfg, [x1], x2, Row(true, 1, Bucket(1, SECOND, W.EMPTY)));
    assert [x1] + [x2] == [x1, x2];
    assert W.Updated(W.EMPTY, 1.0) == W.Stats(1, 1.0, 0.0);
    OneRowStep(cfg, [x1, x2], x3, Row(true, 1, Bucket(1, 2 * SECOND, W.Stats(1, 1.0, 0.0))));
    assert [x1, x2] + [x3] == [x1, x2, x3];
    assert W.Updated(W.Stats(1, 1.0, 0.0), 0.5) == W.Stats(2, 0.75, 0.125);
    xs := [x1, x2, x3];
  }

  /** Two cancels at five seconds and one at six, from a given claimed row. */
  lemma QuickBucket(cfg: Config, before: seq<Input<uint64>>, row: Row<Bucket>)
    requires ValidConfig(cfg) && cfg.maxSymbols == 1 && cfg.rateWindowNs == SECOND
    requires Run(TheMachine(cfg), 1, before) == [row] && !(row.valid && row.symbol == 2)
    ensures
      var xs := before + [CancelAt(2, 5)] + [CancelAt(2, 5)] + [CancelAt(2, 6)];
      Output(TheMachine(cfg), 1, xs) == Judge(cfg, row.entry.rateStats, 2.0)
  {
    var x, y, stats := CancelAt(2, 5), CancelAt(2, 6), row.entry.rateStats;
    OneRowStep(cfg, before, x, row);
    OneRowStep(cfg, before + [x], x, Row(true, 2, Bucket(1, 5 * SECOND, stats)));
    OneRowStep(cfg, before + [x] + [x], y, Row(true, 2, Bucket(2, 5 * SECOND, stats)));
    assert Rate(2, SECOND) == 2.0;
  }

  /** A run in which the inherited statistics raise an alert: on a table of one row,
      symbol 2 is judged by the history of symbol 1; fed alone it stays silent. */
  lemma InheritedHistoryFires(cfg: Config) returns (before: seq<Input<uint64>>, own: seq<Input<uint64>>)
    requires ValidConfig(cfg) && cfg.maxSymbols == 1 && cfg.rateWindowNs == SECOND && cfg.zThreshold == 3.0
    ensures own != [] && (forall x | x in before :: x.symbol == 1) && (forall x | x in own :: x.symbol == 2)
    ensures Output(TheMachine(cfg), 1, before + own).Some? && Output(TheMachine(cfg), 1, own).None?
  {
    before := TwoSlowBuckets(cfg);
    var x, y := CancelAt(2, 5), CancelAt(2, 6);
    own := [x, x, y];
    assert before + own == before + [x] + [x] + [y];
    assert own == [] + [x] + [x] + [y];
    QuickBucket(cfg, before, Row(true, 1, Bucket(1, 4 * SECOND, W.Stats(2, 0.75, 0.125))));
    QuickBucket(cfg, [], Row(false, 0, NO_CANCELS));
    assert W.Stats(2, 0.75, 0.125).Variance() == 0.0625;
    assert 1.25 * 1.25 > 9.0 * 0.0625;
  }
}
