/** What one call of the simulator's next() makes of its draws, in the terms of the
    configuration, the state before and the draws; and how calls take turns. */
module SimulatorCalls {
  import opened MachineInts
  import opened FeedEvents
  import opened MarketSimulator
  import opened SimulatorFeed

  // ------------------------------------------------------------ numbers

  /** `k` is the integer nearest to `x`; halfway between two, the one further from 0. */
  predicate IsNearest(x: real, k: int) {
    && k as real - 0.5 <= x <= k as real + 0.5
    && (if x >= 0.0 then x != k as real + 0.5 else x != k as real - 0.5)
  }

  lemma RoundIsNearest(x: real)
    ensures IsNearest(x, Round(x))
  {
  }

  /** The drawn size, rounded and clamped. */
  ghost predicate IsSize(size: real, qty: nat) {
    exists k :: IsNearest(size, k) && qty == if k < 1 then 1 else if k > 1_000_000 then 1_000_000 else k
  }

  ghost predicate IsRounded(x: real, qty: nat) {
    exists k :: IsNearest(x, k) && qty == if k < 1 then 1 else k
  }

  /** A Modify's new size: the old one times the factor, rounded, and at least 1. */
  ghost predicate IsRescaled(qty: nat, factor: real, qty': nat) {
    IsRounded(qty as real * factor, qty')
  }

  lemma OrderQtyIsSize(size: real)
    ensures IsSize(size, OrderQty(size))
  {
    RoundIsNearest(size);
  }

  lemma ModifiedQtyIsRescaled(qty: nat, factor: real)
    ensures IsRescaled(qty, factor, ModifiedQty(qty, factor))
  {
    RoundIsNearest(qty as real * factor);
  }

  /** The mid price drawn towards the base price, with noise, at least one tick. */
  ghost predicate IsMid(cfg: Config, mid: real, noise: real, mid': real) {
    var x := mid + cfg.priceReversion * (cfg.basePrice - mid) + cfg.priceVolatility * noise;
    mid' == if x < cfg.tickSize then cfg.tickSize else x
  }

  /** `x` ticks, rounded to a whole number, and at least one. */
  ghost predicate IsTicks(x: real, tick: real, price: real) {
    exists k :: IsNearest(x, k) && price == if k as real * tick < tick then tick else k as real * tick
  }

  ghost predicate IsSnapped(x: real, tick: real, price: real)
    requires tick > 0.0
  {
    IsTicks(x / tick, tick, price)
  }

  /** Some ticks below the mid price for a bid and above it for an ask, on the nearest
      tick, and at least one. */
  ghost predicate IsPrice(cfg: Config, mid: real, d: AddDraw, price: real)
    requires cfg.tickSize > 0.0
  {
    var away := d.tickOffset as real * cfg.tickSize;
    IsSnapped(if d.isBid then mid - away else mid + away, cfg.tickSize, price)
  }

  lemma SnappedIsTicks(x: real, tick: real)
    requires tick > 0.0
    ensures IsSnapped(x, tick, Snapped(x, tick))
  {
    RoundIsNearest(x / tick);
  }

  lemma OrderPriceIsPrice(cfg: Config, mid: real, d: AddDraw)
    requires cfg.tickSize > 0.0
    ensures IsPrice(cfg, mid, d, OrderPrice(cfg, mid, d))
  {
    var away := d.tickOffset as real * cfg.tickSize;
    SnappedIsTicks(if d.isBid then mid - away else mid + away, cfg.tickSize);
  }

  // ------------------------------------------------------------ single events

  function Announced(kind: EventType, o: PendingOrder, sym: nat, ts: nat): SimEvent {
    SimEvent(kind, o.isBid, o.orderId, o.price, o.qty, sym % 65536, ts)
  }

  /** An order as drawn, once the mid price has moved to `mid`. */
  ghost predicate IsDrawn(cfg: Config, o: PendingOrder, id: nat, mid: real, d: AddDraw)
    requires cfg.tickSize > 0.0
  {
    o.orderId == id && o.isBid == d.isBid && IsPrice(cfg, mid, d, o.price) && IsSize(d.size, o.qty)
  }

  ghost predicate OtherSymbolsKept(s: State, s': State, sym: nat) {
    |s'.symbols| == |s.symbols| && forall i | 0 <= i < |s.symbols| && i != sym :: s'.symbols[i] == s.symbols[i]
  }

  /** One order more: the mid price moves, and the order drawn is appended and announced. */
  ghost predicate Adds(cfg: Config, s: State, sym: nat, ts: nat, d: AddDraw, s': State, ev: SimEvent)
    requires cfg.tickSize > 0.0 && sym < |s.symbols|
  {
    && OtherSymbolsKept(s, s', sym)
    && var st, st' := s.symbols[sym], s'.symbols[sym];
    && st'.pending != []
    && var o := st'.pending[|st'.pending| - 1];
    && st'.pending == st.pending + [o]
    && IsMid(cfg, st.midPrice, d.noise, st'.midPrice) && IsDrawn(cfg, o, s.nextOrderId, st'.midPrice, d)
    && ev == Announced(Add, o, sym, ts)
    && s'.nextOrderId == s.nextOrderId + 1
    && s'.nAdds == s.nAdds + 1 && s'.nCancels == s.nCancels && s'.nModifies == s.nModifies
  }

  /** The pending order drawn is taken out and announced as it was. */
  ghost predicate Cancels(s: State, sym: nat, ts: nat, i: nat, s': State, ev: SimEvent)
    requires sym < |s.symbols| && i < |s.symbols[sym].pending|
  {
    && OtherSymbolsKept(s, s', sym)
    && var st, st' := s.symbols[sym], s'.symbols[sym];
    && st'.midPrice == st.midPrice && st'.pending == st.pending[..i] + st.pending[i + 1..]
    && ev == Announced(Cancel, st.pending[i], sym, ts)
    && s'.nextOrderId == s.nextOrderId
    && s'.nAdds == s.nAdds && s'.nCancels == s.nCancels + 1 && s'.nModifies == s.nModifies
  }

  /** The pending order drawn gets its new size, in place, and is announced with it. */
  ghost predicate Modifies(s: State, sym: nat, ts: nat, i: nat, factor: real, s': State, ev: SimEvent)
    requires sym < |s.symbols| && i < |s.symbols[sym].pending|
  {
    && OtherSymbolsKept(s, s', sym)
    && var st, st' := s.symbols[sym], s'.symbols[sym];
    && |st'.pending| == |st.pending|
    && var o := st'.pending[i];
    && st'.midPrice == st.midPrice && st'.pending == st.pending[i := st.pending[i].(qty := o.qty)]
    && IsRescaled(st.pending[i].qty, factor, o.qty)
    && ev == Announced(Modify, o, sym, ts)
    && s'.nextOrderId == s.nextOrderId
    && s'.nAdds == s.nAdds && s'.nCancels == s.nCancels && s'.nModifies == s.nModifies + 1
  }

  lemma NewMidIsMid(cfg: Config, mid: real, noise: real)
    ensures IsMid(cfg, mid, noise, NewMid(cfg, mid, noise))
  {
  }

  lemma EmittedWithMid(cfg: Config, s: State, sym: nat, ts: nat, d: AddDraw, mid: real)
    requires ValidConfig(cfg) && sym < |s.symbols| && mid == NewMid(cfg, s.symbols[sym].midPrice, d.noise)
    requires IsMid(cfg, s.symbols[sym].midPrice, d.noise, mid)
    requires IsPrice(cfg, mid, d, OrderPrice(cfg, mid, d)) && IsSize(d.size, OrderQty(d.size))
    ensures var (s', ev) := EmitAdd(cfg, s, sym, ts, d); Adds(cfg, s, sym, ts, d, s', ev)
  {
  }

  lemma EmitAddAdds(cfg: Config, s: State, sym: nat, ts: nat, d: AddDraw)
    requires ValidConfig(cfg) && sym < |s.symbols|
    ensures var (s', ev) := EmitAdd(cfg, s, sym, ts, d); Adds(cfg, s, sym, ts, d, s', ev)
  {
    var mid := NewMid(cfg, s.symbols[sym].midPrice, d.noise);
    NewMidIsMid(cfg, s.symbols[sym].midPrice, d.noise);
    OrderPriceIsPrice(cfg, mid, d);
    OrderQtyIsSize(d.size);
    EmittedWithMid(cfg, s, sym, ts, d, mid);
  }

  lemma EmitCancelCancels(cfg: Config, s: State, sym: nat, ts: nat, d: Draws)
    requires ValidConfig(cfg) && sym < |s.symbols| && s.symbols[sym].pending != []
    ensures
      var (s', ev) := EmitCancel(cfg, s, sym, ts, d);
      Cancels(s, sym, ts, d.index % |s.symbols[sym].pending|, s', ev)
  {
  }

  lemma EmitModifyModifies(cfg: Config, s: State, sym: nat, ts: nat, d: Draws)
    requires ValidConfig(cfg) && sym < |s.symbols| && s.symbols[sym].pending != []
    ensures
      var (s', ev) := EmitModify(cfg, s, sym, ts, d);
      Modifies(s, sym, ts, d.index % |s.symbols[sym].pending|, d.factor, s', ev)
  {
    var st := s.symbols[sym];
    ModifiedQtyIsRescaled(st.pending[d.index % |st.pending|].qty, d.factor);
  }

  /** Which kind of event: a Cancel at the cap, an Add with nothing pending, and else by
      the draw, Cancels first, then Modifies, in shares of 1 + the two rates. */
  ghost predicate IsChoice(cfg: Config, pending: nat, choice: real, kind: EventType)
    requires 1.0 + cfg.cancelRate + cfg.modifyRate != 0.0
  {
    var total := 1.0 + cfg.cancelRate + cfg.modifyRate;
    var forCancel, forModify := cfg.cancelRate / total, cfg.modifyRate / total;
    && (kind.Cancel? <==> pending > 0 && (pending >= cfg.maxPendingOrders || choice < forCancel))
    && (kind.Modify? <==> 0 < pending < cfg.maxPendingOrders && forCancel <= choice < forCancel + forModify)
    && (kind.Add? || kind.Cancel? || kind.Modify?)
  }

  /** The event that a kind and the draws make of the state. */
  ghost predicate Emitted(cfg: Config, s: State, sym: nat, ts: nat, d: Draws, s': State, ev: SimEvent)
    requires cfg.tickSize > 0.0 && sym < |s.symbols|
  {
    var n := |s.symbols[sym].pending|;
    match ev.kind
    case Add => Adds(cfg, s, sym, ts, d.order, s', ev)
    case Cancel => n > 0 && Cancels(s, sym, ts, d.index % n, s', ev)
    case Modify => n > 0 && Modifies(s, sym, ts, d.index % n, d.factor, s', ev)
    case _ => false
  }

  lemma PickChooses(cfg: Config, s: State, sym: nat, ts: nat, d: Draws)
    requires ValidConfig(cfg) && sym < |s.symbols|
    ensures
      var (s', ev) := PickEvent(cfg, s, sym, ts, d);
      IsChoice(cfg, |s.symbols[sym].pending|, d.choice, ev.kind) && Emitted(cfg, s, sym, ts, d, s', ev)
  {
    EmitAddAdds(cfg, s, sym, ts, d.order);
    if s.symbols[sym].pending != [] {
      EmitCancelCancels(cfg, s, sym, ts, d);
      EmitModifyModifies(cfg, s, sym, ts, d);
    }
  }

  // ------------------------------------------------------------ one call

  /** The symbol whose turn it is. */
  function Turn(cfg: Config, s: State): (sym: nat)
    requires ValidConfig(cfg)
    ensures sym < cfg.numSymbols
  {
    s.nextSymbol % cfg.numSymbols
  }

  /** Something is left of a burst. */
  predicate Draining(s: State) {
    s.burstPos < |s.burstQueue|
  }

  /** A burst is due for the symbol whose turn it is. */
  predicate Due(cfg: Config, s: State, d: Draws)
    requires ValidConfig(cfg) && |s.symbols| == cfg.numSymbols
  {
    !Draining(s) && s.now + d.arrival >= s.symbols[Turn(cfg, s)].nextBurstNs
  }

  /** A queued event is delivered, at its time, and nothing else happens. */
  lemma DrainingCall(cfg: Config, s: State, d: Draws, s': State, ev: SimEvent)
    requires ValidConfig(cfg) && |s.symbols| == cfg.numSymbols && Next(cfg, s, d, s', ev) && Draining(s)
    ensures ev == s.burstQueue[s.burstPos] && s' == s.(now := ev.injectNs, burstPos := s.burstPos + 1)
  {
  }

  /** Any other call takes the next symbol in turn, and moves that symbol's next burst
      on by a period exactly when one is due. */
  lemma ArrivalMoves(cfg: Config, s: State, d: Draws, s': State, ev: SimEvent)
    requires ValidConfig(cfg) && |s.symbols| == cfg.numSymbols && Next(cfg, s, d, s', ev) && !Draining(s)
    ensures s'.nextSymbol == (s.nextSymbol + 1) % TWO_32 && |s'.symbols| == |s.symbols|
    ensures forall i | 0 <= i < |s.symbols| ::
      s'.symbols[i].nextBurstNs ==
      if i == Turn(cfg, s) && Due(cfg, s, d) then s.now + d.arrival + cfg.burstPeriodMs * 1_000_000
      else s.symbols[i].nextBurstNs
  {
    var a, sym := Advanced(s, d), Turn(cfg, s);
    if Due(cfg, s, d) {
      BurstKeepsSchedule(cfg, a, sym, a.now, d.burst);
      var s1 := Burst(cfg, a, sym, d).0;
      PickKeepsSchedule(cfg, s1, sym, s1.now, d);
    } else {
      PickKeepsSchedule(cfg, a, sym, a.now, d);
    }
  }

  ghost predicate SameSchedule(s: State, s': State) {
    && s'.nextSymbol == s.nextSymbol && |s'.symbols| == |s.symbols|
    && forall i | 0 <= i < |s.symbols| :: s'.symbols[i].nextBurstNs == s.symbols[i].nextBurstNs
  }

  lemma PickKeepsSchedule(cfg: Config, s: State, sym: nat, ts: nat, d: Draws)
    requires ValidConfig(cfg) && sym < |s.symbols|
    ensures SameSchedule(s, PickEvent(cfg, s, sym, ts, d).0)
  {
  }

  lemma {:induction false} BurstKeepsSchedule(cfg: Config, s: State, sym: nat, start: nat, burst: seq<BurstDraw>)
    requires ValidConfig(cfg) && sym < |s.symbols|
    ensures SameSchedule(s, BurstAdds(cfg, s, sym, start, burst).0)
    decreases |burst|
  {
    if burst != [] { BurstKeepsSchedule(cfg, s, sym, start, burst[..|burst| - 1]); }
  }

  /** A call with nothing queued and no burst to deliver makes one event for the symbol
      whose turn it is, at the arrival time, of the kind the draw chooses. */
  lemma SingleEvent(cfg: Config, s: State, d: Draws, s': State, ev: SimEvent)
    requires ValidConfig(cfg) && |s.symbols| == cfg.numSymbols && Next(cfg, s, d, s', ev)
    requires !Draining(s) && !(Due(cfg, s, d) && d.burst != [])
    ensures
      var sym := Turn(cfg, s);
      && IsChoice(cfg, |s.symbols[sym].pending|, d.choice, ev.kind)
      && Emitted(cfg, s, sym, s.now + d.arrival, d, s', ev)
    ensures s'.now == s.now + d.arrival == ev.injectNs && s'.burstQueue == []
  {
    var a, sym := Advanced(s, d), Turn(cfg, s);
    if Due(cfg, s, d) {
      var s1 := Burst(cfg, a, sym, d).0;
      assert s1 == a.(symbols := a.symbols[sym := s1.symbols[sym]]);
      PickChooses(cfg, s1, sym, a.now, d);
      EmittedAlike(cfg, s1, s, sym, a.now, d, s', ev);
    } else {
      PickChooses(cfg, a, sym, a.now, d);
      EmittedAlike(cfg, a, s, sym, a.now, d, s', ev);
    }
  }

  /** Neither the clock nor the schedule matters to what is emitted. */
  lemma EmittedAlike(cfg: Config, s1: State, s: State, sym: nat, ts: nat, d: Draws, s': State, ev: SimEvent)
    requires cfg.tickSize > 0.0 && sym < |s1.symbols| == |s.symbols| && Emitted(cfg, s1, sym, ts, d, s', ev)
    requires s1.symbols == s.symbols[sym := s1.symbols[sym]] && s1.nextOrderId == s.nextOrderId
    requires s1.symbols[sym].(nextBurstNs := 0) == s.symbols[sym].(nextBurstNs := 0)
    requires s1.nAdds == s.nAdds && s1.nCancels == s.nCancels && s1.nModifies == s.nModifies
    ensures Emitted(cfg, s, sym, ts, d, s', ev)
  {
    var st1, st := s1.symbols[sym], s.symbols[sym];
    assert st1.pending == st1.(nextBurstNs := 0).pending && st1.midPrice == st1.(nextBurstNs := 0).midPrice;
    assert OtherSymbolsKept(s, s', sym);
  }

  // ------------------------------------------------------------ a burst

  /** The orders of a burst as drawn: the mid price moves on from one to the next. */
  ghost predicate BurstOrders(cfg: Config, s: State, sym: nat, start: nat, burst: seq<BurstDraw>,
                              mids: seq<real>, orders: seq<PendingOrder>, evs: seq<SimEvent>)
    requires cfg.tickSize > 0.0 && sym < |s.symbols|
  {
    && |orders| == |evs| == |burst| && |mids| == |burst| + 1 && mids[0] == s.symbols[sym].midPrice
    && forall k | 0 <= k < |burst| ::
         && IsMid(cfg, mids[k], burst[k].order.noise, mids[k + 1])
         && IsDrawn(cfg, orders[k], s.nextOrderId + k, mids[k + 1], burst[k].order)
         && evs[k] == Announced(Add, orders[k], sym, start + burst[k].jitter)
  }

  /** State and events after the orders of a burst: they are pending, and announced. */
  ghost predicate BurstDrawn(cfg: Config, s: State, sym: nat, start: nat, burst: seq<BurstDraw>,
                             s': State, evs: seq<SimEvent>, mids: seq<real>, orders: seq<PendingOrder>)
    requires cfg.tickSize > 0.0 && sym < |s.symbols|
  {
    && BurstOrders(cfg, s, sym, start, burst, mids, orders, evs)
    && OtherSymbolsKept(s, s', sym)
    && s'.symbols[sym].midPrice == mids[|burst|] && s'.symbols[sym].pending == s.symbols[sym].pending + orders
    && s'.nextOrderId == s.nextOrderId + |burst|
  }

  lemma OneOrderMore(cfg: Config, s: State, sym: nat, start: nat, burst: seq<BurstDraw>, s1: State, evs: seq<SimEvent>,
                     mids: seq<real>, orders: seq<PendingOrder>, b: BurstDraw, s': State, ev: SimEvent)
    returns (mid: real, o: PendingOrder)
    requires cfg.tickSize > 0.0 && sym < |s.symbols| && BurstDrawn(cfg, s, sym, start, burst, s1, evs, mids, orders)
    requires Adds(cfg, s1, sym, start + b.jitter, b.order, s', ev)
    ensures BurstDrawn(cfg, s, sym, start, burst + [b], s', evs + [ev], mids + [mid], orders + [o])
  {
    var st' := s'.symbols[sym];
    mid, o := st'.midPrice, st'.pending[|st'.pending| - 1];
    assert BurstOrders(cfg, s, sym, start, burst + [b], mids + [mid], orders + [o], evs + [ev]);
  }

  lemma BurstAddsSnoc(cfg: Config, s: State, sym: nat, start: nat, init: seq<BurstDraw>, b: BurstDraw)
    requires ValidConfig(cfg) && sym < |s.symbols|
    ensures
      var (s1, evs) := BurstAdds(cfg, s, sym, start, init);
      var (s', ev) := EmitAdd(cfg, s1, sym, start + b.jitter, b.order);
      BurstAdds(cfg, s, sym, start, init + [b]) == (s', evs + [ev])
  {
    assert (init + [b])[..|init + [b]| - 1] == init;
  }

  lemma {:induction false} OneBurstAddMore(cfg: Config, s: State, sym: nat, start: nat, init: seq<BurstDraw>,
                                           mids0: seq<real>, orders0: seq<PendingOrder>, b: BurstDraw)
    returns (mids: seq<real>, orders: seq<PendingOrder>)
    requires ValidConfig(cfg) && sym < |s.symbols|
    requires
      var (s1, evs) := BurstAdds(cfg, s, sym, start, init);
      BurstDrawn(cfg, s, sym, start, init, s1, evs, mids0, orders0)
    ensures
      var (s', evs) := BurstAdds(cfg, s, sym, start, init + [b]);
      BurstDrawn(cfg, s, sym, start, init + [b], s', evs, mids, orders)
  {
    var (s1, evs) := BurstAdds(cfg, s, sym, start, init);
    var (s', ev) := EmitAdd(cfg, s1, sym, start + b.jitter, b.order);
    EmitAddAdds(cfg, s1, sym, start + b.jitter, b.order);
    var mid, o := OneOrderMore(cfg, s, sym, start, init, s1, evs, mids0, orders0, b, s', ev);
    mids, orders := mids0 + [mid], orders0 + [o];
    BurstAddsSnoc(cfg, s, sym, start, init, b);
  }

  lemma {:induction false} BurstIsAdds(cfg: Config, s: State, sym: nat, start: nat, burst: seq<BurstDraw>)
    returns (mids: seq<real>, orders: seq<PendingOrder>)
    requires ValidConfig(cfg) && sym < |s.symbols|
    ensures
      var (s', evs) := BurstAdds(cfg, s, sym, start, burst);
      BurstDrawn(cfg, s, sym, start, burst, s', evs, mids, orders)
    decreases |burst|
  {
    if burst == [] {
      mids, orders := [s.symbols[sym].midPrice], [];
    } else {
      var init, b := burst[..|burst| - 1], burst[|burst| - 1];
      mids, orders := BurstIsAdds(cfg, s, sym, start, init);
      mids, orders := OneBurstAddMore(cfg, s, sym, start, init, mids, orders, b);
      assert init + [b] == burst;
    }
  }

  /** A call with a burst due delivers the earliest of its Adds and queues the rest in
      order of time; all of them are pending at once, with consecutive new ids. */
  lemma BurstCall(cfg: Config, s: State, d: Draws, s': State, ev: SimEvent)
    returns (mids: seq<real>, orders: seq<PendingOrder>, evs: seq<SimEvent>)
    requires ValidConfig(cfg) && |s.symbols| == cfg.numSymbols && Next(cfg, s, d, s', ev)
    requires Due(cfg, s, d) && d.burst != []
    ensures BurstOrders(cfg, s, Turn(cfg, s), s.now + d.arrival, d.burst, mids, orders, evs)
    ensures
      var sym := Turn(cfg, s);
      && OtherSymbolsKept(s, s', sym) && s'.symbols[sym].pending == s.symbols[sym].pending + orders
      && s'.symbols[sym].midPrice == mids[|d.burst|] && s'.nextOrderId == s.nextOrderId + |d.burst|
    ensures multiset(s'.burstQueue) == multiset(evs) && InTime(s'.burstQueue)
    ensures s'.burstQueue != [] && s'.burstPos == 1 && ev == s'.burstQueue[0] && s'.now == ev.injectNs
  {
    var a, sym := Advanced(s, d), Turn(cfg, s);
    mids, orders := BurstIsAdds(cfg, a, sym, a.now, d.burst);
    evs := BurstAdds(cfg, a, sym, a.now, d.burst).1;
  }

  /** A burst has as many orders as configured, all within one millisecond. */
  lemma BurstIsShort(cfg: Config, s: State, d: Draws, s': State, ev: SimEvent)
    requires ValidConfig(cfg) && |s.symbols| == cfg.numSymbols && Next(cfg, s, d, s', ev)
    requires Possible(cfg, d) && Due(cfg, s, d) && d.burst != []
    ensures cfg.burstMinOrders <= |s'.burstQueue| <= cfg.burstMaxOrders
    ensures forall q | q in s'.burstQueue ::
      q.kind.Add? && s.now + d.arrival <= q.injectNs < s.now + d.arrival + 1_000_000
  {
    var mids, orders, evs := BurstCall(cfg, s, d, s', ev);
    assert |multiset(s'.burstQueue)| == |multiset(evs)|;
    forall q | q in s'.burstQueue ensures q in evs { assert q in multiset(s'.burstQueue); }
    forall k | 0 <= k < |evs| ensures d.burst[k].jitter <= 999_999 { assert d.burst[k] in d.burst; }
  }

  // ------------------------------------------------------------ whole runs

  /** How many of the first `n` calls were arrivals, not deliveries from a burst. */
  function Arrivals(states: seq<State>, n: nat): nat
    requires n <= |states|
  {
    if n == 0 then 0 else Arrivals(states, n - 1) + if Draining(states[n - 1]) then 0 else 1
  }

  lemma {:induction false} TurnsCount(cfg: Config, ds: seq<Draws>, states: seq<State>, feed: seq<SimEvent>, n: nat)
    requires IsRun(cfg, ds, states, feed) && n <= |feed|
    ensures states[n].nextSymbol == Arrivals(states, n) % TWO_32
  {
    if n > 0 {
      TurnsCount(cfg, ds, states, feed, n - 1);
      var a := Arrivals(states, n - 1);
      if Draining(states[n - 1]) {
        DrainingCall(cfg, states[n - 1], ds[n - 1], states[n], feed[n - 1]);
      } else {
        ArrivalMoves(cfg, states[n - 1], ds[n - 1], states[n], feed[n - 1]);
        NextModulo(a, TWO_32);
      }
    }
  }

  lemma NextModulo(a: nat, m: nat)
    requires m > 1
    ensures (a % m + 1) % m == (a + 1) % m
  {
    var q := a / m;
    assert a + 1 == m * q + (a % m + 1);
    ModShift(a + 1, m, q, a % m + 1);
  }

  /** Symbols take turns: in every run the event of an arrival is for the symbol with
      the number of arrivals before it, taken modulo 2^32 and then modulo the number of
      symbols. */
  lemma SymbolsTakeTurns(cfg: Config, ds: seq<Draws>, states: seq<State>, feed: seq<SimEvent>, n: nat)
    requires IsRun(cfg, ds, states, feed) && n < |feed| && !Draining(states[n])
    ensures feed[n].srcPort == Arrivals(states, n) % 0x1_0000_0000 % cfg.numSymbols % 65536
  {
    TurnsCount(cfg, ds, states, feed, n);
    if Due(cfg, states[n], ds[n]) && ds[n].burst != [] {
      var mids, orders, evs := BurstCall(cfg, states[n], ds[n], states[n + 1], feed[n]);
      assert feed[n] in multiset(states[n + 1].burstQueue);
      assert feed[n] in evs;
    } else {
      SingleEvent(cfg, states[n], ds[n], states[n + 1], feed[n]);
    }
  }

  /** The time of the call's arrival. */
  function ArrivalTime(ds: seq<Draws>, states: seq<State>, n: nat): nat
    requires n < |ds| && n < |states|
  {
    states[n].now + ds[n].arrival
  }

  /** When a symbol's next burst falls due after `n` calls: one period after the start,
      and then one period after each arrival of that symbol that found one due. */
  function Schedule(cfg: Config, ds: seq<Draws>, states: seq<State>, n: nat, sym: nat): nat
    requires ValidConfig(cfg) && n <= |ds| && n <= |states|
  {
    if n == 0 then cfg.burstPeriodMs * 1_000_000
    else
      var before := Schedule(cfg, ds, states, n - 1, sym);
      if !Draining(states[n - 1]) && Turn(cfg, states[n - 1]) == sym && ArrivalTime(ds, states, n - 1) >= before
      then ArrivalTime(ds, states, n - 1) + cfg.burstPeriodMs * 1_000_000
      else before
  }

  /** Every run keeps to that schedule: an arrival brings a burst if and only if it comes
      a period or more after the start and after its symbol's last one. */
  lemma {:induction false} BurstsKeepSchedule(cfg: Config, ds: seq<Draws>, states: seq<State>, feed: seq<SimEvent>,
                                              n: nat, sym: nat)
    requires IsRun(cfg, ds, states, feed) && n <= |feed| && sym < cfg.numSymbols
    ensures states[n].symbols[sym].nextBurstNs == Schedule(cfg, ds, states, n, sym)
    ensures n < |feed| && Turn(cfg, states[n]) == sym && !Draining(states[n]) ==>
      (Due(cfg, states[n], ds[n]) <==> ArrivalTime(ds, states, n) >= Schedule(cfg, ds, states, n, sym))
  {
    if n > 0 {
      BurstsKeepSchedule(cfg, ds, states, feed, n - 1, sym);
      if Draining(states[n - 1]) {
        DrainingCall(cfg, states[n - 1], ds[n - 1], states[n], feed[n - 1]);
      } else {
        ArrivalMoves(cfg, states[n - 1], ds[n - 1], states[n], feed[n - 1]);
      }
    }
  }
}
