/** The signal engine: incremental signals over the order book.

    `Recomputed` reads every signal off the whole event history from scratch; the
    engine's `process` is proved to leave exactly that in its snapshot, also on
    the fast path that skips the recomputation. */
module SignalEngine {
  import opened MachineInts
  import opened FeedEvents
  import opened OrderBook
  import opened RollingWindow
  import W = Welford

  datatype TradeRecord = TradeRecord(qty: uint32, isBuy: bool)

  /** The program's snapshot, with the variance of the imbalance in place of its root. */
  datatype Snapshot = Snapshot(
    timestamp: uint64,
    midPrice: real,
    microprice: real,
    obi: real,
    spread: real,
    ofi: real,
    vamp: real,
    obiMean: real,
    obiVariance: real,
    tfi: real)

  const INITIAL_SNAPSHOT := Snapshot(0, 0.0, 0.0, 0.0, 0.0, 0.0, 0.0, 0.0, 0.0, 0.5)

  const OFI_WINDOW: nat := 10
  const OBI_WINDOW: nat := 20
  const TRADE_WINDOW: nat := 50
  const VAMP_DEPTH: nat := 3

  // ------------------------------------------------------------ signals from scratch

  function Obi(t: Bbo): real {
    var denom := t.bidQty as real + t.askQty as real;
    if denom > 0.0 then (t.bidQty as real - t.askQty as real) / denom else 0.0
  }

  /** Each best price, weighted by the quantity on the other side. */
  function CrossWeighted(t: Bbo): real {
    t.askQty as real * t.bid + t.bidQty as real * t.ask
  }

  function Microprice(t: Bbo): real {
    var denom := t.bidQty as real + t.askQty as real;
    if denom > 0.0 then CrossWeighted(t) / denom else 0.0
  }

  function Notional(ls: seq<Level>): real {
    if ls == [] then 0.0 else Notional(ls[..|ls| - 1]) + ls[|ls| - 1].price * ls[|ls| - 1].qty as real
  }

  function Quantity(ls: seq<Level>): (q: real)
    ensures q >= 0.0
  {
    if ls == [] then 0.0 else Quantity(ls[..|ls| - 1]) + ls[|ls| - 1].qty as real
  }

  function VampOf(ls: seq<Level>): real {
    if Quantity(ls) > 0.0 then Notional(ls) / Quantity(ls) else 0.0
  }

  /** The three best levels of each side. */
  function VampLevels(b: Book): seq<Level> {
    Levels(true, b.bids, VAMP_DEPTH) + Levels(false, b.asks, VAMP_DEPTH)
  }

  function Volume(ts: seq<TradeRecord>, isBuy: bool): (v: real)
    ensures v >= 0.0
  {
    if ts == [] then 0.0
    else Volume(ts[..|ts| - 1], isBuy) + if ts[|ts| - 1].isBuy == isBuy then ts[|ts| - 1].qty as real else 0.0
  }

  function TfiOf(ts: seq<TradeRecord>): real {
    var total := Volume(ts, true) + Volume(ts, false);
    if total > 0.0 then Volume(ts, true) / total else 0.5
  }

  function TopAfter(es: seq<Event>): Bbo {
    Top(Fold(es))
  }

  /** One entry for each event that changed the best bid or offer. */
  function ObiHistory(es: seq<Event>): seq<real> {
    if es == [] then []
    else
      var init := es[..|es| - 1];
      ObiHistory(init) + if TopAfter(es) != TopAfter(init) then [Obi(TopAfter(es))] else []
  }

  function OfiDelta(t: Bbo, t': Bbo): real {
    (t'.bidQty as real - t.bidQty as real) - (t'.askQty as real - t.askQty as real)
  }

  function OfiHistory(es: seq<Event>): seq<real> {
    if es == [] then []
    else
      var init := es[..|es| - 1];
      OfiHistory(init) +
      if TopAfter(es) != TopAfter(init) then [OfiDelta(TopAfter(init), TopAfter(es))] else []
  }

  function Trades(es: seq<Event>): seq<TradeRecord> {
    if es == [] then []
    else
      var e := es[|es| - 1];
      Trades(es[..|es| - 1]) + if e.kind.Trade? then [TradeRecord(e.qty, e.isBid)] else []
  }

  /** The signals of the best bid and offer.  The published `ofi` is the latest
      delta, not a mean of the window. */
  ghost function TopSignals(t: Bbo, obis: seq<real>, ofis: seq<real>, timestamp: uint64, vamp: real, tfi: real)
    : Snapshot
  {
    Snapshot(
      timestamp,
      (t.bid + t.ask) * 0.5,
      Microprice(t),
      Obi(t),
      t.ask - t.bid,
      if ofis == [] then 0.0 else ofis[|ofis| - 1],
      vamp,
      W.Mean(LastN(obis, OBI_WINDOW)),
      PopulationVariance(LastN(obis, OBI_WINDOW)),
      tfi)
  }

  /** Every signal, from the whole history. */
  ghost function Recomputed(es: seq<Event>, timestamp: uint64): Snapshot {
    TopSignals(TopAfter(es), ObiHistory(es), OfiHistory(es), timestamp,
               VampOf(VampLevels(Fold(es))), TfiOf(LastN(Trades(es), TRADE_WINDOW)))
  }

  /** The snapshot is the one recomputed at its own time. */
  ghost predicate Current(es: seq<Event>, s: Snapshot) {
    s == Recomputed(es, s.timestamp)
  }

  lemma InitialIsRecomputed(es: seq<Event>)
    requires es == []
    ensures Current(es, INITIAL_SNAPSHOT)
    ensures Fold(es) == EMPTY_BOOK && OfiHistory(es) == [] && ObiHistory(es) == [] && Trades(es) == []
    ensures TopAfter(es) == Bbo(0.0, 0.0, 0, 0)
  {
    assert VampLevels(Fold(es)) == [];
    assert LastN(ObiHistory(es), OBI_WINDOW) == [] && LastN(Trades(es), TRADE_WINDOW) == [];
    var s := Recomputed(es, 0);
    assert s.midPrice == 0.0 && s.microprice == 0.0 && s.obi == 0.0;
  }

  lemma OneMoreEvent(es: seq<Event>, e: Event)
    ensures
      var g := es + [e];
      && g[..|g| - 1] == es && Fold(g) == Applied(Fold(es), e)
      && ObiHistory(g) == ObiHistory(es) + (if TopAfter(g) != TopAfter(es) then [Obi(TopAfter(g))] else [])
      && OfiHistory(g) == OfiHistory(es) +
           (if TopAfter(g) != TopAfter(es) then [OfiDelta(TopAfter(es), TopAfter(g))] else [])
      && Trades(g) == Trades(es) + (if e.kind.Trade? then [TradeRecord(e.qty, e.isBid)] else [])
  {
    assert (es + [e])[..|es + [e]| - 1] == es;
  }

  /** When the top did not change, no signal of the top of the book did: skipping
      the recomputation only has to set the time. */
  lemma FastPathIsSound(es: seq<Event>, e: Event, ts: uint64, last: Snapshot)
    requires TopAfter(es + [e]) == TopAfter(es) && Current(es, last)
    ensures Recomputed(es + [e], ts).(vamp := last.vamp, tfi := last.tfi) == last.(timestamp := ts)
  {
    OneMoreEvent(es, e);
    assert ObiHistory(es + [e]) == ObiHistory(es) && OfiHistory(es + [e]) == OfiHistory(es);
  }

  // ------------------------------------------------------------ the object

  /** The loop run once over each side's levels. */
  method Accumulate(ls: seq<Level>, num0: real, den0: real) returns (num: real, den: real)
    ensures num == num0 + Notional(ls) && den == den0 + Quantity(ls)
  {
    num, den := num0, den0;
    for i := 0 to |ls|
      invariant num == num0 + Notional(ls[..i]) && den == den0 + Quantity(ls[..i])
    {
      assert ls[..i + 1][..i] == ls[..i];
      num := num + ls[i].price * ls[i].qty as real;
      den := den + ls[i].qty as real;
    }
    assert ls[..|ls|] == ls;
  }

  lemma {:induction false} Concatenated(a: seq<Level>, b: seq<Level>)
    ensures Notional(a + b) == Notional(a) + Notional(b)
    ensures Quantity(a + b) == Quantity(a) + Quantity(b)
  {
    if b == [] {
      assert a + b == a;
    } else {
      assert (a + b)[..|a + b| - 1] == a + b[..|b| - 1];
      Concatenated(a, b[..|b| - 1]);
    }
  }

  class SignalEngine {
    const book: OrderBook
    const ofiWindow: Window<real>
    const obiWindow: Window<real>
    const tradeWindow: Window<TradeRecord>
    var lastSnapshot: Snapshot
    var prevBestBidQty: real
    var prevBestAskQty: real
    ghost var events: seq<Event>     // everything processed since the last reset

    ghost predicate Separate() {
      && ofiWindow != obiWindow && ofiWindow.buf != obiWindow.buf
      && ofiWindow.buf.Length == OFI_WINDOW && obiWindow.buf.Length == OBI_WINDOW
      && tradeWindow.buf.Length == TRADE_WINDOW
    }

    ghost predicate StateOf(es: seq<Event>)
      reads this, book, ofiWindow, ofiWindow.buf, obiWindow, obiWindow.buf, tradeWindow, tradeWindow.buf
    {
      && book.Valid() && book.Value() == Fold(es)
      && ofiWindow.Valid() && ofiWindow.pushed == OfiHistory(es)
      && obiWindow.Valid() && obiWindow.pushed == ObiHistory(es)
      && tradeWindow.Valid() && tradeWindow.pushed == Trades(es)
      && prevBestBidQty == TopAfter(es).bidQty as real
      && prevBestAskQty == TopAfter(es).askQty as real
    }

    ghost predicate Valid()
      reads this, book, ofiWindow, ofiWindow.buf, obiWindow, obiWindow.buf, tradeWindow, tradeWindow.buf
    {
      Separate() && StateOf(events) && Current(events, lastSnapshot)
    }

    constructor ()
      ensures Valid() && events == []
      ensures fresh(book) && fresh(ofiWindow) && fresh(obiWindow) && fresh(tradeWindow)
      ensures fresh(ofiWindow.buf) && fresh(obiWindow.buf) && fresh(tradeWindow.buf)
    {
      book := new OrderBook();
      ofiWindow := new Window<real>(OFI_WINDOW, 0.0);
      obiWindow := new Window<real>(OBI_WINDOW, 0.0);
      tradeWindow := new Window<TradeRecord>(TRADE_WINDOW, TradeRecord(0, false));
      lastSnapshot := INITIAL_SNAPSHOT;
      prevBestBidQty, prevBestAskQty := 0.0, 0.0;
      events := [];
      new;
      UnfedIsValid();
    }

    /** An engine with nothing in it. */
    ghost predicate Unfed()
      reads this, book, ofiWindow, ofiWindow.buf, obiWindow, obiWindow.buf, tradeWindow, tradeWindow.buf
    {
      && book.Valid() && book.Value() == EMPTY_BOOK
      && ofiWindow.Valid() && obiWindow.Valid() && tradeWindow.Valid()
      && ofiWindow.pushed == obiWindow.pushed == [] && tradeWindow.pushed == []
      && prevBestBidQty == prevBestAskQty == 0.0 && lastSnapshot == INITIAL_SNAPSHOT && events == []
    }

    lemma UnfedIsValid()
      requires Separate() && Unfed()
      ensures Valid()
    {
      InitialIsRecomputed(events);
    }

    /** Feed one event; the snapshot is then what the whole history gives. */
    method Process(e: Event, ts: uint64) returns (snapshot: Snapshot)
      requires Valid()
      modifies this, book, ofiWindow, ofiWindow.buf, obiWindow, obiWindow.buf, tradeWindow, tradeWindow.buf
      ensures Valid() && events == old(events) + [e]
      ensures snapshot == lastSnapshot == Recomputed(events, ts)
    {
      ghost var es := events + [e];
      OneMoreEvent(events, e);
      UpdateTop(e, ts, es);
      var vamp := ComputeVamp();
      lastSnapshot := lastSnapshot.(vamp := vamp);
      if e.kind.Trade? {
        tradeWindow.Push(TradeRecord(e.qty, e.isBid));
        var tfi := ComputeTfi();
        lastSnapshot := lastSnapshot.(tfi := tfi);
      }
      events := es;
      snapshot := lastSnapshot;
    }

    /** The book, and the signals of the best bid and offer if those changed. */
    method UpdateTop(e: Event, ts: uint64, ghost es: seq<Event>)
      requires Valid() && es == events + [e]
      modifies this`lastSnapshot, this`prevBestBidQty, this`prevBestAskQty
      modifies book, ofiWindow, ofiWindow.buf, obiWindow, obiWindow.buf
      ensures book.Valid() && book.Value() == Fold(es)
      ensures ofiWindow.Valid() && ofiWindow.pushed == OfiHistory(es)
      ensures obiWindow.Valid() && obiWindow.pushed == ObiHistory(es)
      ensures prevBestBidQty == TopAfter(es).bidQty as real && prevBestAskQty == TopAfter(es).askQty as real
      ensures lastSnapshot ==
        Recomputed(es, ts).(vamp := old(lastSnapshot.vamp), tfi := old(lastSnapshot.tfi))
    {
      OneMoreEvent(events, e);
      var bboChanged := book.Process(e);
      if bboChanged {
        SlowPath(ts, es);
      } else {
        FastPathIsSound(events, e, ts, lastSnapshot);
        lastSnapshot := lastSnapshot.(timestamp := ts);
      }
    }

    /** The branch taken when the best bid or offer changed. */
    method SlowPath(ts: uint64, ghost es: seq<Event>)
      requires es != [] && Separate() && book.Valid() && book.Value() == Fold(es)
      requires var init := es[..|es| - 1];
        && ofiWindow.Valid() && ofiWindow.pushed + [OfiDelta(TopAfter(init), TopAfter(es))] == OfiHistory(es)
        && prevBestBidQty == TopAfter(init).bidQty as real && prevBestAskQty == TopAfter(init).askQty as real
      requires obiWindow.Valid() && obiWindow.pushed + [Obi(TopAfter(es))] == ObiHistory(es)
      modifies this`lastSnapshot, this`prevBestBidQty, this`prevBestAskQty
      modifies ofiWindow, ofiWindow.buf, obiWindow, obiWindow.buf
      ensures ofiWindow.Valid() && ofiWindow.pushed == OfiHistory(es)
      ensures obiWindow.Valid() && obiWindow.pushed == ObiHistory(es)
      ensures prevBestBidQty == TopAfter(es).bidQty as real && prevBestAskQty == TopAfter(es).askQty as real
      ensures lastSnapshot ==
        Recomputed(es, ts).(vamp := old(lastSnapshot.vamp), tfi := old(lastSnapshot.tfi))
    {
      PushOfi(es);
      RecomputeSignals(ts);
    }

    /** The signed change of the best quantities since the last change. */
    method PushOfi(ghost es: seq<Event>)
      requires es != [] && Separate() && book.Valid() && book.Value() == Fold(es)
      requires var init := es[..|es| - 1];
        && ofiWindow.Valid() && ofiWindow.pushed + [OfiDelta(TopAfter(init), TopAfter(es))] == OfiHistory(es)
        && prevBestBidQty == TopAfter(init).bidQty as real && prevBestAskQty == TopAfter(init).askQty as real
      modifies this`prevBestBidQty, this`prevBestAskQty, ofiWindow, ofiWindow.buf
      ensures ofiWindow.Valid() && ofiWindow.pushed == OfiHistory(es)
      ensures prevBestBidQty == TopAfter(es).bidQty as real && prevBestAskQty == TopAfter(es).askQty as real
    {
      var bidQty := book.bestBidQty as real;
      var askQty := book.bestAskQty as real;
      ofiWindow.Push((bidQty - prevBestBidQty) - (askQty - prevBestAskQty));
      prevBestBidQty := bidQty;
      prevBestAskQty := askQty;
    }

    /** Every signal of the best bid and offer, from the cached top and the windows. */
    method RecomputeSignals(ts: uint64)
      requires Separate() && book.Valid() && ofiWindow.Valid() && obiWindow.Valid()
      modifies this`lastSnapshot, obiWindow, obiWindow.buf
      ensures obiWindow.Valid() && obiWindow.pushed == old(obiWindow.pushed) + [Obi(Top(book.Value()))]
      ensures
        var t, obis, ofis := Top(book.Value()), obiWindow.pushed, ofiWindow.pushed;
        lastSnapshot == TopSignals(t, obis, ofis, ts, old(lastSnapshot.vamp), old(lastSnapshot.tfi))
    {
      var bid, ask := book.bestBid, book.bestAsk;
      var obi, microprice := Imbalance();
      lastSnapshot := lastSnapshot.(timestamp := ts, midPrice := (bid + ask) * 0.5, spread := ask - bid,
                                    obi := obi, microprice := microprice);
      var mean, variance := PushObi(obi);
      var ofi := LatestOfi();
      lastSnapshot := lastSnapshot.(obiMean := mean, obiVariance := variance, ofi := ofi);
    }

    /** The imbalance window takes one more value, and its statistics are computed. */
    method PushObi(obi: real) returns (mean: real, variance: real)
      requires obiWindow.Valid() && obiWindow.buf.Length == OBI_WINDOW
      modifies obiWindow, obiWindow.buf
      ensures obiWindow.Valid() && obiWindow.pushed == old(obiWindow.pushed) + [obi]
      ensures mean == W.Mean(LastN(obiWindow.pushed, OBI_WINDOW))
      ensures variance == PopulationVariance(LastN(obiWindow.pushed, OBI_WINDOW))
    {
      obiWindow.Push(obi);
      mean := Mean(obiWindow);
      variance := Variance(obiWindow);
    }

    method LatestOfi() returns (ofi: real)
      requires ofiWindow.Valid() && ofiWindow.buf.Length == OFI_WINDOW
      ensures ofi == var h := ofiWindow.pushed; if h == [] then 0.0 else h[|h| - 1]
    {
      var n := ofiWindow.count;
      ofi := 0.0;
      if n > 0 { ofi := ofiWindow.At(n - 1); }
    }

    method Imbalance() returns (obi: real, microprice: real)
      requires book.Valid()
      ensures obi == Obi(Top(book.Value())) && microprice == Microprice(Top(book.Value()))
    {
      var bid, ask := book.bestBid, book.bestAsk;
      var bidQty := book.bestBidQty as real;
      var askQty := book.bestAskQty as real;
      var denom := bidQty + askQty;
      if denom > 0.0 {
        obi := (bidQty - askQty) / denom;
        microprice := (askQty * bid + bidQty * ask) / denom;
      } else {
        obi, microprice := 0.0, 0.0;
      }
    }

    method ComputeVamp() returns (vamp: real)
      ensures vamp == VampOf(VampLevels(book.Value()))
    {
      var bids := book.TopLevels(true, VAMP_DEPTH);
      var num, den := Accumulate(bids, 0.0, 0.0);
      var asks := book.TopLevels(false, VAMP_DEPTH);
      num, den := Accumulate(asks, num, den);
      Concatenated(bids, asks);
      vamp := if den > 0.0 then num / den else 0.0;
    }

    method ComputeTfi() returns (tfi: real)
      requires tradeWindow.Valid()
      ensures tfi == TfiOf(tradeWindow.Contents())
    {
      ghost var c := tradeWindow.Contents();
      var buy, sell := 0.0, 0.0;
      for i := 0 to tradeWindow.count
        invariant buy == Volume(c[..i], true) && sell == Volume(c[..i], false)
      {
        assert c[..i + 1][..i] == c[..i];
        var t := tradeWindow.At(i);
        if t.isBuy { buy := buy + t.qty as real; } else { sell := sell + t.qty as real; }
      }
      assert c[..tradeWindow.count] == c;
      var total := buy + sell;
      tfi := if total > 0.0 then buy / total else 0.5;
    }

    method ClearWindows()
      requires Separate()
      modifies ofiWindow, ofiWindow.buf, obiWindow, obiWindow.buf, tradeWindow, tradeWindow.buf
      ensures ofiWindow.Valid() && ofiWindow.pushed == []
      ensures obiWindow.Valid() && obiWindow.pushed == []
      ensures tradeWindow.Valid() && tradeWindow.pushed == []
    {
      ofiWindow.Clear(0.0);
      obiWindow.Clear(0.0);
      tradeWindow.Clear(TradeRecord(0, false));
    }

    method Reset()
      requires Separate()
      modifies this, book, ofiWindow, ofiWindow.buf, obiWindow, obiWindow.buf, tradeWindow, tradeWindow.buf
      ensures Valid() && events == []
    {
      book.Clear();
      ClearWindows();
      prevBestBidQty, prevBestAskQty := 0.0, 0.0;
      lastSnapshot := INITIAL_SNAPSHOT;
      events := [];
      UnfedIsValid();
    }
  }

  // ------------------------------------------------------------ what the signals mean

  /** The order-flow deltas since reset add up to the current imbalance of the top. */
  lemma {:induction false} OfiTelescopes(es: seq<Event>)
    ensures W.Sum(OfiHistory(es)) == TopAfter(es).bidQty as real - TopAfter(es).askQty as real
  {
    if es != [] {
      var init := es[..|es| - 1];
      OfiTelescopes(init);
      if TopAfter(es) != TopAfter(init) {
        SumSnoc(OfiHistory(init), OfiDelta(TopAfter(init), TopAfter(es)));
      } else {
        assert OfiHistory(es) == OfiHistory(init);
      }
    }
  }

  lemma SumSnoc(h: seq<real>, x: real)
    ensures W.Sum(h + [x]) == W.Sum(h) + x
  {
    assert (h + [x])[..|h + [x]| - 1] == h;
  }

  /** One entry in each history for each change of the best bid or offer. */
  lemma {:induction false} HistoriesAligned(es: seq<Event>)
    ensures |ObiHistory(es)| == |OfiHistory(es)| <= |es|
    ensures ObiHistory(es) != [] ==> ObiHistory(es)[|ObiHistory(es)| - 1] == Obi(TopAfter(es))
  {
    if es != [] { HistoriesAligned(es[..|es| - 1]); }
  }

  lemma DivideBounds(x: real, lo: real, hi: real, d: real)
    requires d > 0.0 && lo * d <= x <= hi * d
    ensures lo <= x / d <= hi
  {
    assert (x / d) * d == x;
    W.QuotientMono(lo, x / d, d);
    W.QuotientMono(x / d, hi, d);
  }

  lemma QuotientSign(x: real, d: real)
    requires d > 0.0
    ensures x / d > 0.0 <==> x > 0.0
  {
    assert (x / d) * d == x;
    if x > 0.0 && x / d <= 0.0 { var p := W.Product(-(x / d), d); }
    if x / d > 0.0 { var p := W.Product(x / d, d); }
  }

  /** The imbalance lies in [-1, 1] and is positive exactly when bids outweigh asks. */
  lemma ObiInRange(t: Bbo)
    ensures -1.0 <= Obi(t) <= 1.0
    ensures Obi(t) > 0.0 <==> t.bidQty > t.askQty
  {
    var denom := t.bidQty as real + t.askQty as real;
    if denom > 0.0 {
      DivideBounds(t.bidQty as real - t.askQty as real, -1.0, 1.0, denom);
      QuotientSign(t.bidQty as real - t.askQty as real, denom);
    }
  }

  lemma ShiftedMid(b: real, a: real, bid: real, ask: real, obi: real, micro: real)
    requires b + a > 0.0 && obi * (b + a) == b - a && micro * (b + a) == a * bid + b * ask
    ensures micro == (bid + ask) * 0.5 + obi * (ask - bid) * 0.5
  {
    var d, m := b + a, (bid + ask) * 0.5 + obi * (ask - bid) * 0.5;
    assert m * d == (bid + ask) * 0.5 * d + (obi * d) * (ask - bid) * 0.5;
    assert (bid + ask) * 0.5 * d + (b - a) * (ask - bid) * 0.5 == a * bid + b * ask;
    W.QuotientUnique(micro, m, d);
  }

  // The snapshot, signal by signal, off the top of the book and the events.

  /** Half a spread to either side of the mid price lie the best bid and the best ask. */
  lemma MidAndSpread(es: seq<Event>, ts: uint64)
    ensures
      var s, t := Recomputed(es, ts), TopAfter(es);
      s.midPrice - s.spread / 2.0 == t.bid && s.midPrice + s.spread / 2.0 == t.ask && s.timestamp == ts
  {
  }

  /** `x` is the share of the top quantity by which the bid outweighs the ask. */
  predicate IsImbalance(x: real, t: Bbo) {
    if t.bidQty + t.askQty > 0 then x * (t.bidQty + t.askQty) as real == (t.bidQty - t.askQty) as real else x == 0.0
  }

  lemma ObiIsImbalance(t: Bbo)
    ensures IsImbalance(Obi(t), t)
  {
    var b, a := t.bidQty as real, t.askQty as real;
    assert (t.bidQty + t.askQty) as real == b + a && (t.bidQty - t.askQty) as real == b - a;
    if b + a > 0.0 { var q := W.QuotientTimes(b - a, b + a); }
  }

  lemma TopFields(es: seq<Event>, ts: uint64, t: Bbo)
    requires t == TopAfter(es)
    ensures
      var s := Recomputed(es, ts);
      && s.midPrice == (t.bid + t.ask) * 0.5 && s.spread == t.ask - t.bid
      && s.obi == Obi(t) && s.microprice == Microprice(t)
  {
  }

  /** The published imbalance is that share; without quantity it is 0, and so is the
      microprice. */
  lemma ImbalanceOfTop(es: seq<Event>, ts: uint64)
    ensures IsImbalance(Recomputed(es, ts).obi, TopAfter(es))
    ensures TopAfter(es).bidQty + TopAfter(es).askQty == 0 ==> Recomputed(es, ts).microprice == 0.0
  {
    TopFields(es, ts, TopAfter(es));
    ObiIsImbalance(TopAfter(es));
  }

  lemma MicropriceShifts(t: Bbo, mid: real, spread: real, obi: real, micro: real)
    requires t.bidQty + t.askQty > 0 && mid == (t.bid + t.ask) * 0.5 && spread == t.ask - t.bid
    requires obi == Obi(t) && micro == Microprice(t)
    ensures micro == mid + obi * spread * 0.5
  {
    var b, a := t.bidQty as real, t.askQty as real;
    var o := W.QuotientTimes(b - a, b + a);
    var m := W.QuotientTimes(CrossWeighted(t), b + a);
    ShiftedMid(b, a, t.bid, t.ask, o, m);
  }

  predicate IsShiftedMid(s: Snapshot) {
    s.microprice == s.midPrice + s.obi * s.spread * 0.5
  }

  lemma SnapshotShifts(t: Bbo, s: Snapshot)
    requires t.bidQty + t.askQty > 0 && s.midPrice == (t.bid + t.ask) * 0.5 && s.spread == t.ask - t.bid
    requires s.obi == Obi(t) && s.microprice == Microprice(t)
    ensures IsShiftedMid(s)
  {
    MicropriceShifts(t, s.midPrice, s.spread, s.obi, s.microprice);
  }

  /** In every snapshot with quantity at the top, microprice, mid price, imbalance and
      spread determine one another: the microprice is the mid price shifted by the
      imbalance times half the spread. */
  lemma MicropriceIsShiftedMid(es: seq<Event>, ts: uint64)
    requires TopAfter(es).bidQty + TopAfter(es).askQty > 0
    ensures IsShiftedMid(Recomputed(es, ts))
  {
    var t := TopAfter(es);
    TopFields(es, ts, t);
    SnapshotShifts(t, Recomputed(es, ts));
  }

  /** The published order flow is how much the quantity at the best bid grew less how
      much that at the best ask did, in the last event that changed the top. */
  lemma OfiIsLatestChange(es: seq<Event>, e: Event, ts: uint64, ts': uint64)
    ensures
      var s, s', t, t' := Recomputed(es, ts), Recomputed(es + [e], ts'), TopAfter(es), TopAfter(es + [e]);
      s'.ofi == if t' == t then s.ofi else (t'.bidQty - t.bidQty) as real - (t'.askQty - t.askQty) as real
    ensures Recomputed([], ts).ofi == 0.0
  {
    OneMoreEvent(es, e);
    assert OfiHistory([]) == [];
    if TopAfter(es + [e]) == TopAfter(es) { assert OfiHistory(es + [e]) == OfiHistory(es); }
  }

  /** `obis` are the imbalances at the changes of the top, oldest first. */
  ghost predicate AreImbalances(es: seq<Event>, obis: seq<real>) {
    if es == [] then obis == []
    else
      var init := es[..|es| - 1];
      if TopAfter(es) == TopAfter(init) then AreImbalances(init, obis)
      else
        && obis != [] && IsImbalance(obis[|obis| - 1], TopAfter(es))
        && AreImbalances(init, obis[..|obis| - 1])
  }

  lemma {:induction false} HistoryIsImbalances(es: seq<Event>)
    ensures AreImbalances(es, ObiHistory(es))
  {
    if es != [] {
      var init := es[..|es| - 1];
      HistoryIsImbalances(init);
      ObiIsImbalance(TopAfter(es));
      if TopAfter(es) == TopAfter(init) {
        assert ObiHistory(es) == ObiHistory(init);
      } else {
        assert ObiHistory(es)[..|ObiHistory(es)| - 1] == ObiHistory(init);
      }
    }
  }

  /** Mean and population variance of some values, 0 where there are too few. */
  ghost predicate AreStatistics(mean: real, variance: real, h: seq<real>) {
    && mean == (if h == [] then 0.0 else W.Sum(h) / |h| as real)
    && (if |h| < 2 then variance == 0.0 else variance * |h| as real == W.SquaredDeviations(h, mean))
  }

  lemma WindowStatistics(h: seq<real>)
    ensures AreStatistics(W.Mean(h), PopulationVariance(h), h)
  {
    VarianceTimesCount(h);
  }

  /** Mean and variance of the imbalance are those of its last twenty values, one for
      each change of the top. */
  lemma ObiStatistics(es: seq<Event>, ts: uint64) returns (obis: seq<real>)
    ensures AreImbalances(es, obis)
    ensures
      var s, recent := Recomputed(es, ts), if |obis| > 20 then obis[|obis| - 20..] else obis;
      AreStatistics(s.obiMean, s.obiVariance, recent)
  {
    obis := ObiHistory(es);
    HistoryIsImbalances(es);
    WindowStatistics(LastN(obis, OBI_WINDOW));
  }

  /** The quantity traded on one side in a list of trades. */
  function Traded(trades: seq<Event>, isBid: bool): real {
    if trades == [] then 0.0
    else
      var e := trades[|trades| - 1];
      Traded(trades[..|trades| - 1], isBid) + if e.isBid == isBid then e.qty as real else 0.0
  }

  function TradesOf(es: seq<Event>): seq<Event> {
    if es == [] then []
    else TradesOf(es[..|es| - 1]) + if es[|es| - 1].kind.Trade? then [es[|es| - 1]] else []
  }

  /** What the trade window keeps of a trade. */
  function Recorded(trades: seq<Event>): seq<TradeRecord> {
    seq(|trades|, i requires 0 <= i < |trades| => TradeRecord(trades[i].qty, trades[i].isBid))
  }

  lemma {:induction false} TradesAreRecorded(es: seq<Event>)
    ensures Trades(es) == Recorded(TradesOf(es))
  {
    if es != [] { TradesAreRecorded(es[..|es| - 1]); }
  }

  lemma {:induction false} VolumeIsTraded(trades: seq<Event>, isBid: bool)
    ensures Volume(Recorded(trades), isBid) == Traded(trades, isBid)
  {
    if trades != [] {
      VolumeIsTraded(trades[..|trades| - 1], isBid);
      assert Recorded(trades)[..|trades| - 1] == Recorded(trades[..|trades| - 1]);
    }
  }

  predicate IsShare(share: real, buy: real, sell: real) {
    if buy + sell > 0.0 then share * (buy + sell) == buy else share == 0.5
  }

  lemma TfiIsShare(ts: seq<TradeRecord>)
    ensures IsShare(TfiOf(ts), Volume(ts, true), Volume(ts, false))
  {
    var buy, sell := Volume(ts, true), Volume(ts, false);
    if buy + sell > 0.0 { var q := W.QuotientTimes(buy, buy + sell); }
  }

  /** Trade-flow imbalance is the share of bid-side quantity in the last fifty trades;
      a half without any. */
  lemma TfiIsBuyShare(es: seq<Event>, ts: uint64)
    ensures
      var s, trades := Recomputed(es, ts), TradesOf(es);
      var recent := if |trades| > 50 then trades[|trades| - 50..] else trades;
      var buy, sell := Traded(recent, true), Traded(recent, false);
      IsShare(s.tfi, buy, sell)
  {
    var trades := TradesOf(es);
    var recent := if |trades| > 50 then trades[|trades| - 50..] else trades;
    TradesAreRecorded(es);
    assert LastN(Trades(es), TRADE_WINDOW) == Recorded(recent);
    VolumeIsTraded(recent, true);
    VolumeIsTraded(recent, false);
    TfiIsShare(Recorded(recent));
  }

  function Quantities(ls: seq<Level>): seq<real> {
    seq(|ls|, i requires 0 <= i < |ls| => ls[i].qty as real)
  }

  function Worth(l: Level): real {
    l.price * l.qty as real
  }

  function Worths(ls: seq<Level>): seq<real> {
    seq(|ls|, i requires 0 <= i < |ls| => Worth(ls[i]))
  }

  lemma {:induction false} TotalsAreSums(ls: seq<Level>)
    ensures Quantity(ls) == W.Sum(Quantities(ls)) && Notional(ls) == W.Sum(Worths(ls))
  {
    if ls != [] {
      var init := ls[..|ls| - 1];
      TotalsAreSums(init);
      assert Quantities(ls)[..|init|] == Quantities(init) && Worths(ls)[..|init|] == Worths(init);
    }
  }

  predicate IsAverage(x: real, quantity: real, worth: real) {
    if quantity > 0.0 then x * quantity == worth else x == 0.0
  }

  lemma VampIsAverage(ls: seq<Level>)
    ensures IsAverage(VampOf(ls), W.Sum(Quantities(ls)), W.Sum(Worths(ls)))
  {
    TotalsAreSums(ls);
    if Quantity(ls) > 0.0 { var q := W.QuotientTimes(Notional(ls), Quantity(ls)); }
  }

  /** VAMP is the average price, by quantity, of the three best levels of each side. */
  lemma VampIsWeighted(es: seq<Event>, ts: uint64)
    ensures
      var b := Fold(es);
      var ls := Levels(true, b.bids, 3) + Levels(false, b.asks, 3);
      IsAverage(Recomputed(es, ts).vamp, W.Sum(Quantities(ls)), W.Sum(Worths(ls)))
  {
    VampIsAverage(VampLevels(Fold(es)));
  }

  /** The microprice lies between the two best prices. */
  lemma MicropriceBetween(t: Bbo)
    requires t.bidQty as real + t.askQty as real > 0.0
    ensures
      var lo, hi := if t.bid < t.ask then t.bid else t.ask, if t.bid < t.ask then t.ask else t.bid;
      lo <= Microprice(t) <= hi
  {
    var lo, hi := if t.bid < t.ask then t.bid else t.ask, if t.bid < t.ask then t.ask else t.bid;
    var a, b := t.askQty as real, t.bidQty as real;
    WeightedBetween(t.bid, t.ask, a, b, lo, hi);
    DivideBounds(CrossWeighted(t), lo, hi, b + a);
  }

  lemma WeightedBetween(x: real, y: real, a: real, b: real, lo: real, hi: real)
    requires a >= 0.0 && b >= 0.0 && lo <= x <= hi && lo <= y <= hi
    ensures lo * (b + a) <= a * x + b * y <= hi * (b + a)
  {
    var p := W.Product(a, x - lo);
    var q := W.Product(b, y - lo);
    WeightedAlgebra(x, y, a, b, lo, p, q);
    var p' := W.Product(a, hi - x);
    var q' := W.Product(b, hi - y);
    WeightedAlgebra(x, y, a, b, hi, -p', -q');
  }

  lemma WeightedAlgebra(x: real, y: real, a: real, b: real, c: real, p: real, q: real)
    requires p == a * (x - c) && q == b * (y - c)
    ensures a * x + b * y == c * (b + a) + p + q
  {
  }

  /** Adding one weighted price keeps a weighted sum between its bounds. */
  lemma WeightStep(lo: real, hi: real, price: real, q: real, sumQ: real, sumPQ: real, sumQ': real, sumPQ': real)
    requires lo <= price <= hi && q >= 0.0 && lo * sumQ <= sumPQ <= hi * sumQ
    requires sumQ' == sumQ + q && sumPQ' == sumPQ + price * q
    ensures lo * sumQ' <= sumPQ' <= hi * sumQ'
  {
    var a := W.Product(price - lo, q);
    var b := W.Product(hi - price, q);
    WeightAlgebra(lo, price, q, sumQ, a);
    WeightAlgebra(hi, price, q, sumQ, -b);
  }

  lemma WeightAlgebra(c: real, price: real, q: real, sumQ: real, d: real)
    requires d == (price - c) * q
    ensures c * (sumQ + q) == c * sumQ + price * q - d
  {
  }

  lemma TotalsStep(ls: seq<Level>)
    requires ls != []
    ensures
      var init, l := ls[..|ls| - 1], ls[|ls| - 1];
      Quantity(ls) == Quantity(init) + l.qty as real && Notional(ls) == Notional(init) + l.price * l.qty as real
  {
  }

  lemma {:induction false} NotionalBounds(ls: seq<Level>, lo: real, hi: real)
    requires forall i | 0 <= i < |ls| :: lo <= ls[i].price <= hi
    ensures lo * Quantity(ls) <= Notional(ls) <= hi * Quantity(ls)
  {
    if ls != [] {
      var init, l := ls[..|ls| - 1], ls[|ls| - 1];
      NotionalBounds(init, lo, hi);
      TotalsStep(ls);
      WeightStep(lo, hi, l.price, l.qty as real, Quantity(init), Notional(init), Quantity(ls), Notional(ls));
    }
  }

  /** VAMP lies between the least and the greatest price it is taken over. */
  lemma VampBetween(ls: seq<Level>, lo: real, hi: real)
    requires Quantity(ls) > 0.0
    requires forall i | 0 <= i < |ls| :: lo <= ls[i].price <= hi
    ensures lo <= VampOf(ls) <= hi
  {
    NotionalBounds(ls, lo, hi);
    DivideBounds(Notional(ls), lo, hi, Quantity(ls));
  }

  /** The buy share lies in [0, 1] and exceeds a half exactly when buys outweigh sells. */
  lemma TfiInRange(ts: seq<TradeRecord>)
    ensures 0.0 <= TfiOf(ts) <= 1.0
    ensures TfiOf(ts) > 0.5 <==> Volume(ts, true) > Volume(ts, false)
  {
    var buy, sell := Volume(ts, true), Volume(ts, false);
    var total := buy + sell;
    if total > 0.0 {
      DivideBounds(buy, 0.0, 1.0, total);
      QuotientSign(buy - sell, total);
      assert buy / total - 0.5 == 0.5 * ((buy - sell) / total) by {
        ShareAlgebra(buy, sell, buy / total, (buy - sell) / total);
      }
    }
  }

  lemma ShareAlgebra(buy: real, sell: real, share: real, skew: real)
    requires buy + sell > 0.0 && share * (buy + sell) == buy && skew * (buy + sell) == buy - sell
    ensures share - 0.5 == 0.5 * skew
  {
    assert (share - 0.5) * (buy + sell) == (0.5 * skew) * (buy + sell);
    W.QuotientUnique(share - 0.5, 0.5 * skew, buy + sell);
  }
}
