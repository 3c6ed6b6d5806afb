/** Whole runs of the layering detector: when exactly it fires. */
module LayeringRuns {
  import opened Basics
  import opened MachineInts
  import opened Clock
  import opened FeedEvents
  import opened SymbolTable
  import opened LayeringDetector

  // ------------------------------------------------------------ one side

  /** The bounded state of one side after its orders so far. */
  function Live(cfg: Config, hs: seq<uint64>): (ts: seq<uint64>)
    ensures |ts| <= MAX_PER_SIDE
  {
    if hs == [] then [] else SideStep(cfg, Live(cfg, hs[..|hs| - 1]), hs[|hs| - 1]).0
  }

  /** The times no further back than the window, in order. */
  function Recent(ts: seq<uint64>, now: uint64, window: nat): seq<uint64> {
    if ts == [] then []
    else
      var last := ts[|ts| - 1];
      Recent(ts[..|ts| - 1], now, window) + if now - last <= window then [last] else []
  }

  /** The reference, with unbounded memory: all orders since the last alert, an
      alert being due when more than the threshold of them are recent. */
  function SinceAlert(cfg: Config, hs: seq<uint64>): seq<uint64> {
    if hs == [] then []
    else
      var last := hs[|hs| - 1];
      var all := SinceAlert(cfg, hs[..|hs| - 1]) + [last];
      if AlertDue(cfg, all, last) then [] else all
  }

  predicate AlertDue(cfg: Config, ts: seq<uint64>, now: uint64) {
    |Recent(ts, now, cfg.windowNs)| > cfg.countThreshold
  }

  /** While no time lies ahead of the clock, the wrapping age is the plain one. */
  lemma {:induction false} FreshIsRecent(cfg: Config, ts: seq<uint64>, now: uint64)
    requires forall i | 0 <= i < |ts| :: ts[i] <= now
    ensures Fresh(cfg, ts, now) == Recent(ts, now, cfg.windowNs)
  {
    if ts != [] { FreshIsRecent(cfg, ts[..|ts| - 1], now); }
  }

  lemma {:induction false} FreshConcat(cfg: Config, a: seq<uint64>, b: seq<uint64>, now: uint64)
    ensures Fresh(cfg, a + b, now) == Fresh(cfg, a, now) + Fresh(cfg, b, now)
  {
    if b == [] {
      assert a + b == a;
    } else {
      assert (a + b)[..|a + b| - 1] == a + b[..|b| - 1];
      FreshConcat(cfg, a, b[..|b| - 1], now);
    }
  }

  /** Times already dropped at an earlier moment would be dropped later anyway. */
  lemma {:induction false} FreshTwice(cfg: Config, ts: seq<uint64>, earlier: uint64, now: uint64)
    requires earlier <= now && forall i | 0 <= i < |ts| :: ts[i] <= earlier
    ensures Fresh(cfg, Fresh(cfg, ts, earlier), now) == Fresh(cfg, ts, now)
  {
    if ts != [] {
      var init, last := ts[..|ts| - 1], ts[|ts| - 1];
      FreshTwice(cfg, init, earlier, now);
      FreshConcat(cfg, Fresh(cfg, init, earlier), Fresh(cfg, [last], earlier), now);
      FreshOne(cfg, last, earlier);
      FreshOne(cfg, last, now);
    }
  }

  lemma FreshOne(cfg: Config, t: uint64, now: uint64)
    ensures Fresh(cfg, [t], now) == if Sub64(now, t) <= cfg.windowNs then [t] else []
    ensures Fresh(cfg, [], now) == []
  {
    assert [t][..0] == [];
  }

  lemma {:induction false} SinceAlertWithin(cfg: Config, hs: seq<uint64>)
    requires Rising(hs) && hs != []
    ensures forall i | 0 <= i < |SinceAlert(cfg, hs)| :: SinceAlert(cfg, hs)[i] <= hs[|hs| - 1]
  {
    var init := hs[..|hs| - 1];
    if init != [] { SinceAlertWithin(cfg, init); }
  }

  lemma SinceAlertBefore(cfg: Config, hs: seq<uint64>, now: uint64)
    requires Rising(hs + [now])
    ensures forall i | 0 <= i < |SinceAlert(cfg, hs)| :: SinceAlert(cfg, hs)[i] <= now
  {
    PrefixRises(hs, now);
    if hs != [] { SinceAlertWithin(cfg, hs); }
  }

  /** The window as the next order finds it. */
  ghost predicate Faithful(cfg: Config, ts: seq<uint64>, hs: seq<uint64>, now: uint64) {
    Fresh(cfg, ts, now) == Fresh(cfg, SinceAlert(cfg, hs), now)
  }

  /** With a threshold of at most 7 the eight slots never overflow, so the bounded
      state is the unbounded one seen through the window. */
  lemma {:induction false} LiveIsFaithful(cfg: Config, hs: seq<uint64>, now: uint64)
    requires cfg.countThreshold <= 7 && Rising(hs + [now])
    ensures |Live(cfg, hs)| <= cfg.countThreshold
    ensures Faithful(cfg, Live(cfg, hs), hs, now)
  {
    if hs != [] {
      var init, last := hs[..|hs| - 1], hs[|hs| - 1];
      assert init + [last] == hs && hs == (hs + [now])[..|hs|];
      assert last <= now by { assert (hs + [now])[|hs| - 1] == last && (hs + [now])[|hs|] == now; }
      assert Rising(hs);
      LiveIsFaithful(cfg, init, last);
      SideStepFaithful(cfg, init, last);
      SinceAlertWithin(cfg, hs);
      FreshTwice(cfg, SinceAlert(cfg, hs), last, now);
    }
  }

  /** While fewer than eight are kept, the bounded push loses nothing. */
  lemma RecordedIsFresh(cfg: Config, ts: seq<uint64>, all: seq<uint64>, now: uint64)
    requires |ts| <= 7 && Fresh(cfg, ts, now) == Fresh(cfg, all, now)
    ensures Recorded(cfg, ts, now) == Fresh(cfg, all + [now], now)
    ensures |Recorded(cfg, ts, now)| <= |ts| + 1
  {
    FreshConcat(cfg, all, [now], now);
    FreshOne(cfg, now, now);
  }

  /** What is recorded is what is recent: the orders since the alert, this one included. */
  lemma RecordedIsRecent(cfg: Config, ts: seq<uint64>, since: seq<uint64>, now: uint64)
    requires |ts| <= 7 && Fresh(cfg, ts, now) == Fresh(cfg, since, now)
    requires forall i | 0 <= i < |since| :: since[i] <= now
    ensures
      var kept := Recorded(cfg, ts, now);
      kept == Recent(since + [now], now, cfg.windowNs) && 0 < |kept| <= |ts| + 1
  {
    var all := since + [now];
    assert Recorded(cfg, ts, now) == Fresh(cfg, all, now) && |Fresh(cfg, all, now)| <= |ts| + 1 by {
      RecordedIsFresh(cfg, ts, since, now);
    }
    assert Fresh(cfg, all, now) == Recent(all, now, cfg.windowNs) by {
      forall i | 0 <= i < |all| ensures all[i] <= now { assert i < |since| ==> all[i] == since[i]; }
      FreshIsRecent(cfg, all, now);
    }
  }

  lemma SideStepBy(cfg: Config, ts: seq<uint64>, now: uint64, kept: seq<uint64>)
    requires |ts| <= cfg.countThreshold <= 7 && kept == Recorded(cfg, ts, now) && |kept| <= |ts| + 1
    ensures SideStep(cfg, ts, now) ==
            if |kept| > cfg.countThreshold then ([], Some((cfg.countThreshold + 1, kept[0]))) else (kept, None)
  {
  }

  /** One order: an alert is raised exactly when one is due, with threshold + 1
      orders and the first recent one; otherwise the recent ones are kept. */
  lemma StepOutcome(cfg: Config, ts: seq<uint64>, since: seq<uint64>, now: uint64)
    requires |ts| <= cfg.countThreshold <= 7 && Fresh(cfg, ts, now) == Fresh(cfg, since, now)
    requires forall i | 0 <= i < |since| :: since[i] <= now
    ensures
      var recent := Recent(since + [now], now, cfg.windowNs);
      && recent != []
      && SideStep(cfg, ts, now) ==
         if |recent| > cfg.countThreshold then ([], Some((cfg.countThreshold + 1, recent[0]))) else (recent, None)
  {
    RecordedIsRecent(cfg, ts, since, now);
    SideStepBy(cfg, ts, now, Recorded(cfg, ts, now));
  }

  lemma SideStepFaithful(cfg: Config, init: seq<uint64>, last: uint64)
    requires |Live(cfg, init)| <= cfg.countThreshold <= 7 && Faithful(cfg, Live(cfg, init), init, last)
    requires Rising(init + [last])
    ensures
      var hs := init + [last];
      Live(cfg, hs) == Fresh(cfg, SinceAlert(cfg, hs), last) && |Live(cfg, hs)| <= cfg.countThreshold
  {
    var hs := init + [last];
    assert hs[..|hs| - 1] == init;
    SinceAlertBefore(cfg, init, last);
    StepOutcome(cfg, Live(cfg, init), SinceAlert(cfg, init), last);
    FreshIsRecent(cfg, SinceAlert(cfg, init) + [last], last);
  }

  // ------------------------------------------------------------ one symbol

  /** The order times of one side among a symbol's inputs. */
  function SideTimes(own: seq<Input<Order>>, isBid: bool): seq<uint64> {
    if own == [] then []
    else
      var x := own[|own| - 1].x;
      SideTimes(own[..|own| - 1], isBid) + if x.isBid == isBid then [x.now] else []
  }

  /** The two sides of a symbol never touch each other. */
  lemma {:induction false} SidesAreIndependent(cfg: Config, own: seq<Input<Order>>)
    ensures Entry(TheMachine(cfg), own) == Sides(Live(cfg, SideTimes(own, true)), Live(cfg, SideTimes(own, false)))
  {
    if own != [] {
      var init, x := own[..|own| - 1], own[|own| - 1].x;
      SidesAreIndependent(cfg, init);
      var hs := SideTimes(own, x.isBid);
      assert hs == SideTimes(init, x.isBid) + [x.now];
      assert hs[..|hs| - 1] == SideTimes(init, x.isBid);
      assert SideTimes(own, !x.isBid) == SideTimes(init, !x.isBid);
    }
  }

  // ------------------------------------------------------------ whole runs

  /** Clock values never go back. */
  ghost predicate Ordered(xs: seq<Input<Order>>) {
    forall i, j | 0 <= i <= j < |xs| :: xs[i].x.now <= xs[j].x.now
  }

  /** One side's times rise with the clock and stay at or below its last value. */
  lemma {:induction false} TimesRise(xs: seq<Input<Order>>, symbol: uint16, isBid: bool, now: uint64)
    requires Ordered(xs) && forall i | 0 <= i < |xs| :: xs[i].x.now <= now
    ensures Rising(SideTimes(Only(xs, symbol), isBid) + [now])
  {
    if xs != [] {
      var init, last := xs[..|xs| - 1], xs[|xs| - 1];
      TimesRise(init, symbol, isBid, last.x.now);
      var before, after := SideTimes(Only(init, symbol), isBid), SideTimes(Only(xs, symbol), isBid);
      if last.symbol == symbol {
        var own := Only(xs, symbol);
        assert own[..|own| - 1] == Only(init, symbol);
      } else {
        assert Only(xs, symbol) == Only(init, symbol);
      }
      assert after == before || after == before + [last.x.now];
      RisingExtends(before, last.x.now, now);
    }
  }

  /** What the detector should say about an order, given its side's orders since
      that side's last alert. */
  function Verdict(cfg: Config, since: seq<uint64>, x: Order): Option<Cluster> {
    var recent := Recent(since + [x.now], x.now, cfg.windowNs);
    if |recent| > cfg.countThreshold
    then Some(Cluster(x.isBid, cfg.countThreshold + 1, recent[0]))
    else None
  }

  function Expected(cfg: Config, xs: seq<Input<Order>>): Option<Cluster>
    requires xs != []
  {
    var last := xs[|xs| - 1];
    Verdict(cfg, SinceAlert(cfg, SideTimes(Only(xs[..|xs| - 1], last.symbol), last.x.isBid)), last.x)
  }

  lemma VerdictIs(cfg: Config, since: seq<uint64>, isBid: bool, now: uint64, recent: seq<uint64>)
    requires recent == Recent(since + [now], now, cfg.windowNs)
    ensures Verdict(cfg, since, Order(isBid, now)) ==
            if |recent| > cfg.countThreshold then Some(Cluster(isBid, cfg.countThreshold + 1, recent[0])) else None
  {
  }

  lemma AnswerIsReported(cfg: Config, e: Sides, x: Order)
    requires |e.Of(x.isBid)| <= MAX_PER_SIDE
    ensures EntryStep(cfg, e, x).1 == Reported(x.isBid, SideStep(cfg, e.Of(x.isBid), x.now).1)
  {
  }

  lemma ReportedIs(cfg: Config, e: Sides, x: Order, r: (seq<uint64>, Option<(nat, uint64)>), recent: seq<uint64>)
    requires |e.Of(x.isBid)| <= MAX_PER_SIDE && r == SideStep(cfg, e.Of(x.isBid), x.now)
    requires r.1 == if |recent| > cfg.countThreshold then Some((cfg.countThreshold + 1, recent[0])) else None
    ensures EntryStep(cfg, e, x).1 ==
            if |recent| > cfg.countThreshold then Some(Cluster(x.isBid, cfg.countThreshold + 1, recent[0])) else None
  {
    AnswerIsReported(cfg, e, x);
  }

  lemma AnswerIsVerdict(cfg: Config, e: Sides, since: seq<uint64>, x: Order)
    requires |e.Of(x.isBid)| <= cfg.countThreshold <= 7
    requires Fresh(cfg, e.Of(x.isBid), x.now) == Fresh(cfg, since, x.now)
    requires forall i | 0 <= i < |since| :: since[i] <= x.now
    ensures EntryStep(cfg, e, x).1 == Verdict(cfg, since, x)
  {
    var recent := Recent(since + [x.now], x.now, cfg.windowNs);
    StepOutcome(cfg, e.Of(x.isBid), since, x.now);
    VerdictIs(cfg, since, x.isBid, x.now, recent);
    ReportedIs(cfg, e, x, SideStep(cfg, e.Of(x.isBid), x.now), recent);
  }

  /** What one symbol's entry, driven by its inputs in `xs`, answers to one more. */
  lemma AnswerAfter(cfg: Config, xs: seq<Input<Order>>, x: Input<Order>)
    requires cfg.countThreshold <= 7 && Ordered(xs) && forall i | 0 <= i < |xs| :: xs[i].x.now <= x.x.now
    ensures
      var own := Only(xs, x.symbol);
      EntryStep(cfg, Entry(TheMachine(cfg), own), x.x).1
      == Verdict(cfg, SinceAlert(cfg, SideTimes(own, x.x.isBid)), x.x)
  {
    var own := Only(xs, x.symbol);
    var hs := SideTimes(own, x.x.isBid);
    SidesAreIndependent(cfg, own);
    TimesRise(xs, x.symbol, x.x.isBid, x.x.now);
    LiveIsFaithful(cfg, hs, x.x.now);
    SinceAlertBefore(cfg, hs, x.x.now);
    AnswerIsVerdict(cfg, Entry(TheMachine(cfg), own), SinceAlert(cfg, hs), x.x);
  }

  /** For a threshold of at most 7, a clock that never goes back and at most as
      many symbols as the table has rows: an alert is raised exactly when the large
      orders of that symbol and side since that side's last alert, no older than
      the window, number more than the threshold; it then reports exactly
      threshold + 1 orders and the oldest of them. */
  lemma AlertsAreExact(cfg: Config, xs: seq<Input<Order>>)
    requires ValidConfig(cfg) && cfg.countThreshold <= 7
    requires xs != [] && Ordered(xs) && |Symbols(xs)| <= cfg.maxSymbols
    ensures Output(TheMachine(cfg), cfg.maxSymbols, xs) == Expected(cfg, xs)
  {
    var init, last := xs[..|xs| - 1], xs[|xs| - 1];
    RunIsIsolated(TheMachine(cfg), cfg.maxSymbols, xs);
    AnswerAfter(cfg, init, last);
  }

  /** With a threshold of 8 or more nothing ever fires, whatever the run. */
  lemma HighThresholdNeverFires(cfg: Config, xs: seq<Input<Order>>)
    requires ValidConfig(cfg) && cfg.countThreshold >= 8 && xs != []
    ensures Output(TheMachine(cfg), cfg.maxSymbols, xs) == None
  {
  }

  /** `n` orders of one symbol and side at one moment. */
  function Salvo(n: nat): seq<Input<Order>> {
    if n == 0 then [] else Salvo(n - 1) + [Input(0, Order(true, 0))]
  }

  lemma {:induction false} SalvoShape(n: nat)
    ensures |Salvo(n)| == n
    ensures forall i | 0 <= i < n :: Salvo(n)[i] == Input(0, Order(true, 0))
  {
    if n > 0 { SalvoShape(n - 1); }
  }

  lemma SalvoSnoc(n: nat)
    requires n > 0
    ensures Salvo(n) != [] && Salvo(n)[..|Salvo(n)| - 1] == Salvo(n - 1)
    ensures Salvo(n)[|Salvo(n)| - 1] == Input(0, Order(true, 0))
  {
  }

  lemma {:induction false} SalvoSymbol(n: nat)
    ensures Symbols(Salvo(n)) <= {0} && Only(Salvo(n), 0) == Salvo(n)
  {
    if n > 0 {
      SalvoSymbol(n - 1);
      SalvoSnoc(n);
    }
  }

  lemma {:induction false} SalvoTimes(n: nat)
    ensures
      var hs := SideTimes(Salvo(n), true);
      |hs| == n && forall i | 0 <= i < n :: hs[i] == 0
  {
    if n > 0 {
      SalvoTimes(n - 1);
      SalvoSnoc(n);
    }
  }

  lemma {:induction false} AllAtOnce(cfg: Config, hs: seq<uint64>)
    requires forall i | 0 <= i < |hs| :: hs[i] == 0
    ensures |Recent(hs, 0, cfg.windowNs)| == |hs|
  {
    if hs != [] { AllAtOnce(cfg, hs[..|hs| - 1]); }
  }

  lemma {:induction false} HoldsFire(cfg: Config, hs: seq<uint64>)
    requires |hs| <= cfg.countThreshold && forall i | 0 <= i < |hs| :: hs[i] == 0
    ensures SinceAlert(cfg, hs) == hs
  {
    if hs != [] {
      HoldsFire(cfg, hs[..|hs| - 1]);
      AllAtOnce(cfg, hs);
    }
  }

  lemma SalvoIsDue(cfg: Config, n: nat)
    requires n == cfg.countThreshold
    ensures Salvo(n + 1) != [] && Expected(cfg, Salvo(n + 1)).Some?
  {
    SalvoSnoc(n + 1);
    SalvoSymbol(n);
    SalvoTimes(n);
    HoldsFire(cfg, SideTimes(Salvo(n), true));
    AllAtOnce(cfg, SideTimes(Salvo(n), true) + [0]);
  }

  lemma SalvoFires(cfg: Config, n: nat)
    requires ValidConfig(cfg) && n == cfg.countThreshold <= 7
    ensures Salvo(n + 1) != [] && Output(TheMachine(cfg), cfg.maxSymbols, Salvo(n + 1)).Some?
  {
    SalvoIsDue(cfg, n);
    SalvoShape(n + 1);
    SalvoSymbol(n + 1);
    SubsetSize(Symbols(Salvo(n + 1)), {0});
    AlertsAreExact(cfg, Salvo(n + 1));
  }

  /** Some run raises an alert if and only if the threshold is at most 7. */
  lemma FiresIffThresholdBelowEight(cfg: Config)
    requires ValidConfig(cfg)
    ensures (exists xs | xs != [] :: Output(TheMachine(cfg), cfg.maxSymbols, xs).Some?) <==> cfg.countThreshold <= 7
  {
    if cfg.countThreshold <= 7 {
      SalvoFires(cfg, cfg.countThreshold);
    } else {
      forall xs: seq<Input<Order>> | xs != [] ensures Output(TheMachine(cfg), cfg.maxSymbols, xs).None? {
        HighThresholdNeverFires(cfg, xs);
      }
    }
  }

  lemma SalvoOrdered(n: nat)
    ensures Ordered(Salvo(n))
  {
    SalvoShape(n);
  }

  /** If the run is ordered and within capacity, its last answer is the one expected. */
  ghost predicate ExactOn(cfg: Config, xs: seq<Input<Order>>)
    requires ValidConfig(cfg)
  {
    xs != [] && Ordered(xs) && |Symbols(xs)| <= cfg.maxSymbols ==>
      Output(TheMachine(cfg), cfg.maxSymbols, xs) == Expected(cfg, xs)
  }

  lemma SalvoAllowed(cfg: Config, n: nat)
    requires ValidConfig(cfg)
    ensures Ordered(Salvo(n)) && |Symbols(Salvo(n))| <= cfg.maxSymbols
  {
    SalvoOrdered(n);
    SalvoSymbol(n);
    SubsetSize(Symbols(Salvo(n)), {0});
  }

  lemma NotExact(cfg: Config, xs: seq<Input<Order>>)
    requires ValidConfig(cfg) && cfg.countThreshold >= 8
    requires xs != [] && Ordered(xs) && |Symbols(xs)| <= cfg.maxSymbols && Expected(cfg, xs).Some?
    ensures !ExactOn(cfg, xs)
  {
    HighThresholdNeverFires(cfg, xs);
  }

  lemma SalvoMissed(cfg: Config, n: nat) returns (xs: seq<Input<Order>>)
    requires ValidConfig(cfg) && n == cfg.countThreshold >= 8
    ensures !ExactOn(cfg, xs)
  {
    xs := Salvo(n + 1);
    SalvoIsDue(cfg, n);
    SalvoAllowed(cfg, n + 1);
    NotExact(cfg, xs);
  }

  /** Alerts are exact in all ordered runs within capacity if and only if the
      threshold is at most 7. */
  lemma ExactIffThresholdBelowEight(cfg: Config)
    requires ValidConfig(cfg)
    ensures (forall xs :: ExactOn(cfg, xs)) <==> cfg.countThreshold <= 7
  {
    if cfg.countThreshold <= 7 {
      forall xs ensures ExactOn(cfg, xs) {
        if xs != [] && Ordered(xs) && |Symbols(xs)| <= cfg.maxSymbols { AlertsAreExact(cfg, xs); }
      }
    } else {
      var xs := SalvoMissed(cfg, cfg.countThreshold);
    }
  }

  // ------------------------------------------------------------ more symbols than rows

  lemma OrderedPart(xs: seq<Input<Order>>, x: Input<Order>, k: nat)
    requires Ordered(xs + [x]) && k <= |xs|
    ensures Ordered(xs[k..]) && forall i | 0 <= i < |xs[k..]| :: xs[k..][i].x.now <= x.x.now
  {
    var all := xs + [x];
    forall i | k <= i < |xs| ensures all[i] == xs[i] && all[i].x.now <= all[|xs|].x.now {
    }
  }

  /** However many symbols a run has: an alert is exact for the orders of that
      symbol and side since the symbol last took its row. */
  lemma AlertsAreExactSinceClaim(cfg: Config, init: seq<Input<Order>>, x: Input<Order>) returns (i: nat, k: nat)
    requires ValidConfig(cfg) && cfg.countThreshold <= 7 && Ordered(init + [x])
    ensures k <= |init| && HeldSince(TheMachine(cfg), cfg.maxSymbols, init + [x], i, x.symbol, k)
    ensures Output(TheMachine(cfg), cfg.maxSymbols, init + [x]) ==
            Verdict(cfg, SinceAlert(cfg, SideTimes(Only(init[k..], x.symbol), x.x.isBid)), x.x)
  {
    i, k := AnswersFollowTheClaim(TheMachine(cfg), cfg.maxSymbols, init, x);
    OrderedPart(init, x, k);
    AnswerAfter(cfg, init[k..], x);
  }

  // ------------------------------------------------------------ from feed events

  /** The detector on feed events: only large Adds touch the table. */
  function Processed(cfg: Config, t: seq<Row<Sides>>, e: Timed): (r: (seq<Row<Sides>>, Option<Cluster>))
    requires 0 < |t|
    ensures |r.0| == |t|
  {
    if e.event.kind.Add? && e.event.qty >= cfg.qtyThreshold
    then Step(TheMachine(cfg), t, Input(e.event.symbol, Order(e.event.isBid, e.now)))
    else (t, None)
  }

  function RunEvents(cfg: Config, es: seq<Timed>): (t: seq<Row<Sides>>)
    requires ValidConfig(cfg)
    ensures |t| == cfg.maxSymbols
  {
    if es == [] then EmptyTable(NO_ORDERS, cfg.maxSymbols)
    else Processed(cfg, RunEvents(cfg, es[..|es| - 1]), es[|es| - 1]).0
  }

  function LargeAdds(cfg: Config, es: seq<Timed>): seq<Input<Order>> {
    if es == [] then []
    else
      var e, now := es[|es| - 1].event, es[|es| - 1].now;
      LargeAdds(cfg, es[..|es| - 1]) +
      if e.kind.Add? && e.qty >= cfg.qtyThreshold then [Input(e.symbol, Order(e.isBid, now))] else []
  }

  lemma LargeAddsSnoc(cfg: Config, es: seq<Timed>, last: Timed)
    ensures LargeAdds(cfg, es + [last]) ==
            LargeAdds(cfg, es) +
            if last.event.kind.Add? && last.event.qty >= cfg.qtyThreshold
            then [Input(last.event.symbol, Order(last.event.isBid, last.now))] else []
  {
    assert (es + [last])[..|es + [last]| - 1] == es;
  }

  lemma {:induction false} EventsAreInputs(cfg: Config, es: seq<Timed>)
    requires ValidConfig(cfg)
    ensures RunEvents(cfg, es) == Run(TheMachine(cfg), cfg.maxSymbols, LargeAdds(cfg, es))
  {
    if es != [] {
      var init, last := es[..|es| - 1], es[|es| - 1];
      assert init + [last] == es;
      EventsAreInputs(cfg, init);
      LargeAddsSnoc(cfg, init, last);
      if last.event.kind.Add? && last.event.qty >= cfg.qtyThreshold {
        var x := Input(last.event.symbol, Order(last.event.isBid, last.now));
        RunSnoc(TheMachine(cfg), cfg.maxSymbols, LargeAdds(cfg, init), x);
      } else {
        assert LargeAdds(cfg, es) == LargeAdds(cfg, init);
      }
    }
  }

  /** The clock values at the large Adds of one symbol and side. */
  function AddTimes(cfg: Config, es: seq<Timed>, symbol: uint16, isBid: bool): seq<uint64> {
    if es == [] then []
    else
      var e, now := es[|es| - 1].event, es[|es| - 1].now;
      AddTimes(cfg, es[..|es| - 1], symbol, isBid) +
      if e.kind.Add? && e.qty >= cfg.qtyThreshold && e.symbol == symbol && e.isBid == isBid then [now] else []
  }

  lemma SideTimesSnoc(own: seq<Input<Order>>, x: Input<Order>, isBid: bool)
    ensures SideTimes(own + [x], isBid) == SideTimes(own, isBid) + if x.x.isBid == isBid then [x.x.now] else []
  {
    assert (own + [x])[..|own + [x]| - 1] == own;
  }

  lemma {:induction false} AddTimesAreSideTimes(cfg: Config, es: seq<Timed>, symbol: uint16, isBid: bool)
    ensures AddTimes(cfg, es, symbol, isBid) == SideTimes(Only(LargeAdds(cfg, es), symbol), isBid)
  {
    if es != [] {
      var init, last := es[..|es| - 1], es[|es| - 1];
      assert init + [last] == es;
      AddTimesAreSideTimes(cfg, init, symbol, isBid);
      LargeAddsSnoc(cfg, init, last);
      if last.event.kind.Add? && last.event.qty >= cfg.qtyThreshold {
        var x := Input(last.event.symbol, Order(last.event.isBid, last.now));
        OnlySnoc(LargeAdds(cfg, init), x, symbol);
        SideTimesSnoc(Only(LargeAdds(cfg, init), symbol), x, isBid);
        assert Only(LargeAdds(cfg, init), symbol) + [] == Only(LargeAdds(cfg, init), symbol);
      } else {
        assert LargeAdds(cfg, es) == LargeAdds(cfg, init);
      }
    }
  }

  lemma InputAlertIsExact(cfg: Config, xs: seq<Input<Order>>, x: Input<Order>)
    requires ValidConfig(cfg) && cfg.countThreshold <= 7
    requires Ordered(xs + [x]) && |Symbols(xs + [x])| <= cfg.maxSymbols
    ensures Step(TheMachine(cfg), Run(TheMachine(cfg), cfg.maxSymbols, xs), x).1
            == Verdict(cfg, SinceAlert(cfg, SideTimes(Only(xs, x.symbol), x.x.isBid)), x.x)
  {
    assert (xs + [x])[..|xs + [x]| - 1] == xs;
    RunSnoc(TheMachine(cfg), cfg.maxSymbols, xs, x);
    AlertsAreExact(cfg, xs + [x]);
  }

  /** Any other event leaves the table and raises nothing. */
  lemma OthersSayNothing(cfg: Config, t: seq<Row<Sides>>, last: Timed)
    requires 0 < |t| && !(last.event.kind.Add? && last.event.qty >= cfg.qtyThreshold)
    ensures Processed(cfg, t, last) == (t, None)
  {
  }

  /** A large Add is a step of the table. */
  lemma LargeAddsStep(cfg: Config, t: seq<Row<Sides>>, last: Timed)
    requires 0 < |t| && last.event.kind.Add? && last.event.qty >= cfg.qtyThreshold
    ensures
      var e := last.event;
      Processed(cfg, t, last) == Step(TheMachine(cfg), t, Input(e.symbol, Order(e.isBid, last.now)))
  {
  }

  lemma LargeAddAnswer(cfg: Config, es: seq<Timed>, last: Timed)
    requires ValidConfig(cfg) && cfg.countThreshold <= 7
    requires last.event.kind.Add? && last.event.qty >= cfg.qtyThreshold
    requires Ordered(LargeAdds(cfg, es + [last])) && |Symbols(LargeAdds(cfg, es + [last]))| <= cfg.maxSymbols
    ensures
      var e := last.event;
      Processed(cfg, RunEvents(cfg, es), last).1
      == Verdict(cfg, SinceAlert(cfg, AddTimes(cfg, es, e.symbol, e.isBid)), Order(e.isBid, last.now))
  {
    var e := last.event;
    LargeAddsSnoc(cfg, es, last);
    EventsAreInputs(cfg, es);
    AddTimesAreSideTimes(cfg, es, e.symbol, e.isBid);
    LargeAddsStep(cfg, RunEvents(cfg, es), last);
    InputAlertIsExact(cfg, LargeAdds(cfg, es), Input(e.symbol, Order(e.isBid, last.now)));
  }

  /** The same exactness from the feed: an event raises an alert if and only if it is
      an Add of at least the threshold quantity and, among the times of such Adds of
      its symbol and side since that side's last alert and its own, more than the
      count threshold lie no further back than the window; the alert then has its
      side, one order more than the threshold, and the first of those times. */
  lemma FeedAlertsAreExact(cfg: Config, es: seq<Timed>, last: Timed)
    requires ValidConfig(cfg) && cfg.countThreshold <= 7
    requires Ordered(LargeAdds(cfg, es + [last])) && |Symbols(LargeAdds(cfg, es + [last]))| <= cfg.maxSymbols
    ensures
      var e := last.event;
      var since := SinceAlert(cfg, AddTimes(cfg, es, e.symbol, e.isBid));
      var recent := Recent(since + [last.now], last.now, cfg.windowNs);
      Processed(cfg, RunEvents(cfg, es), last).1 ==
      if e.kind.Add? && e.qty >= cfg.qtyThreshold && |recent| > cfg.countThreshold
      then Some(Cluster(e.isBid, cfg.countThreshold + 1, recent[0])) else None
  {
    var e := last.event;
    if e.kind.Add? && e.qty >= cfg.qtyThreshold {
      var since := SinceAlert(cfg, AddTimes(cfg, es, e.symbol, e.isBid));
      LargeAddAnswer(cfg, es, last);
      VerdictIs(cfg, since, e.isBid, last.now, Recent(since + [last.now], last.now, cfg.windowNs));
    } else {
      OthersSayNothing(cfg, RunEvents(cfg, es), last);
    }
  }
}
