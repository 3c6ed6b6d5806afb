/** The market simulator as a state machine over arbitrary random choices.

    Every draw of the generator is a parameter, restricted only to the range of
    its distribution; std::sort is any sorting, so the order of equal times is
    free.  The methods of the class are proved to take steps of `Next`. */
module MarketSimulator {
  import opened MachineInts
  import opened FeedEvents

  datatype Config = Config(
    numSymbols: uint32,
    tickSize: real,
    basePrice: real,
    cancelRate: real,
    modifyRate: real,
    priceReversion: real,
    priceVolatility: real,
    burstPeriodMs: uint32,
    burstMinOrders: uint32,
    burstMaxOrders: uint32,
    maxPendingOrders: uint32)

  ghost predicate ValidConfig(cfg: Config) {
    && cfg.numSymbols > 0 && cfg.tickSize > 0.0
    && 1.0 + cfg.cancelRate + cfg.modifyRate != 0.0
    && cfg.burstMinOrders <= cfg.burstMaxOrders
  }

  datatype PendingOrder = PendingOrder(orderId: nat, price: real, qty: nat, isBid: bool)

  datatype SymbolState = SymbolState(midPrice: real, nextBurstNs: nat, pending: seq<PendingOrder>)

  datatype SimEvent = SimEvent(
    kind: EventType, isBid: bool, orderId: nat, price: real, qty: nat, srcPort: uint16, injectNs: nat)

  datatype State = State(
    symbols: seq<SymbolState>,
    burstQueue: seq<SimEvent>,
    burstPos: nat,
    nextOrderId: nat,
    now: nat,
    nextSymbol: uint32,
    nAdds: nat, nCancels: nat, nModifies: nat)

  // ------------------------------------------------------------ draws

  /** What emit_add draws: price noise, side, tick offset and size. */
  datatype AddDraw = AddDraw(noise: real, isBid: bool, tickOffset: nat, size: real)

  datatype BurstDraw = BurstDraw(jitter: nat, order: AddDraw)

  datatype Draws = Draws(
    arrival: nat,               // nanoseconds to the next arrival
    burst: seq<BurstDraw>,      // the orders of a burst, should one be due
    choice: real,               // which kind of event
    order: AddDraw,             // the order, should it be an Add
    index: nat,                 // which pending order otherwise
    factor: real)               // and how a Modify scales it

  predicate InRange(d: AddDraw) {
    d.tickOffset <= 4
  }

  predicate Possible(cfg: Config, d: Draws) {
    && cfg.burstMinOrders <= |d.burst| <= cfg.burstMaxOrders
    && (forall b | b in d.burst :: b.jitter <= 999_999 && InRange(b.order))
    && 0.0 <= d.choice < 1.0 && InRange(d.order) && 0.5 <= d.factor < 1.5
  }

  // ------------------------------------------------------------ event emitters

  function Max(a: real, b: real): real {
    if a < b then b else a
  }

  /** std::round: halves go away from zero. */
  function Round(x: real): int {
    if x >= 0.0 then (x + 0.5).Floor else -((-x + 0.5).Floor)
  }

  /** next_qty: the drawn size rounded and clamped to [1, 1000000]. */
  function OrderQty(size: real): (q: nat)
    ensures 1 <= q <= 1_000_000
  {
    var r := Round(size);
    if r < 1 then 1 else if r > 1_000_000 then 1_000_000 else r
  }

  /** The program stores the result in 32 bits; see `ModifiesOverflowIff`. */
  function ModifiedQty(qty: nat, factor: real): (q: nat)
    ensures q >= 1
  {
    var r := Round(qty as real * factor);
    if r < 1 then 1 else r
  }

  /** The quantity of an order after a list of Modifies. */
  function Remodified(qty: nat, factors: seq<real>): nat {
    if factors == [] then qty else ModifiedQty(Remodified(qty, factors[..|factors| - 1]), factors[|factors| - 1])
  }

  predicate Factors(factors: seq<real>) {
    forall i | 0 <= i < |factors| :: 0.5 <= factors[i] < 1.5
  }

  /** The most that `n` Modifies can make of a quantity, and what `n` by 1.499 do. */
  function Most(qty: nat, n: nat): nat {
    if n == 0 then qty else 3 * Most(qty, n - 1) / 2
  }

  function Much(qty: nat, n: nat): nat {
    if n == 0 then qty else 1499 * Much(qty, n - 1) / 1000
  }

  lemma RoundBelow(x: real, qty: nat)
    requires 0.0 <= x <= 1.5 * qty as real && (qty > 0 ==> x < 1.5 * qty as real)
    ensures Round(x) <= 3 * qty / 2
  {
    var k := (x + 0.5).Floor;
    assert 2 * k <= 3 * qty;
  }

  lemma ProductBelow(q: real, factor: real) returns (x: real)
    requires 0.5 <= factor < 1.5 && q >= 0.0
    ensures x == q * factor && 0.0 <= x <= 1.5 * q && (q > 0.0 ==> x < 1.5 * q)
  {
    x := q * factor;
    assert (1.5 - factor) * q == 1.5 * q - x;
    if q > 0.0 { assert (1.5 - factor) * q > 0.0; }
  }

  lemma ModifyAtMost(qty: nat, factor: real, bound: nat)
    requires 0.5 <= factor < 1.5 && qty <= bound && bound >= 1
    ensures ModifiedQty(qty, factor) <= 3 * bound / 2
  {
    var x := ProductBelow(qty as real, factor);
    RoundBelow(x, qty);
    assert ModifiedQty(qty, factor) == if Round(x) < 1 then 1 else Round(x);
  }

  lemma ModifyAtLeast(qty: nat, bound: nat)
    requires qty >= bound
    ensures ModifiedQty(qty, 1.499) >= 1499 * bound / 1000
  {
  }

  lemma {:induction false} RemodifiedAtMost(qty: nat, factors: seq<real>)
    requires qty <= 1_000_000 && Factors(factors)
    ensures Remodified(qty, factors) <= Most(1_000_000, |factors|) && Most(1_000_000, |factors|) >= 2
  {
    if factors != [] {
      var init := factors[..|factors| - 1];
      RemodifiedAtMost(qty, init);
      ModifyAtMost(Remodified(qty, init), factors[|factors| - 1], Most(1_000_000, |init|));
    }
  }

  function Steady(n: nat): (factors: seq<real>)
    ensures |factors| == n && Factors(factors)
  {
    if n == 0 then [] else Steady(n - 1) + [1.499]
  }

  lemma {:induction false} RemodifiedAtLeast(qty: nat, n: nat)
    ensures Remodified(qty, Steady(n)) >= Much(qty, n)
  {
    if n > 0 {
      RemodifiedAtLeast(qty, n - 1);
      assert Steady(n)[..n - 1] == Steady(n - 1);
      ModifyAtLeast(Remodified(qty, Steady(n - 1)), Much(qty, n - 1));
    }
  }

  lemma {:induction false} MostGrows(a: nat, b: nat)
    requires a <= b
    ensures 1 <= Most(1_000_000, a) <= Most(1_000_000, b)
  {
    if b > 0 { MostGrows(if a < b then a else b - 1, b - 1); }
  }

  lemma {:induction false} MuchGrows(a: nat, b: nat)
    requires a <= b
    ensures 1_000_000 <= Much(1_000_000, a) <= Much(1_000_000, b)
  {
    if b > 0 { MuchGrows(if a < b then a else b - 1, b - 1); }
  }

  lemma MostFiveOn(q: nat, n: nat)
    ensures 32 * Most(q, n + 5) <= 243 * Most(q, n)
  {
    assert 2 * Most(q, n + 1) <= 3 * Most(q, n) && 2 * Most(q, n + 2) <= 3 * Most(q, n + 1);
    assert 2 * Most(q, n + 3) <= 3 * Most(q, n + 2) && 2 * Most(q, n + 4) <= 3 * Most(q, n + 3);
  }

  lemma MostAfterTwenty(q: nat)
    requires q == 1_000_000
    ensures Most(q, 20) < TWO_32
  {
    MostFiveOn(q, 0);
    MostFiveOn(q, 5);
    MostFiveOn(q, 10);
    MostFiveOn(q, 15);
  }

  lemma MuchThreeOn(q: nat, n: nat)
    requires Much(q, n) >= 1000
    ensures Much(q, n + 3) >= 1000 && 125_000_000 * Much(q, n + 3) >= 420_189_749 * Much(q, n)
  {
    assert Much(q, n + 1) >= 1000 && 500 * Much(q, n + 1) >= 749 * Much(q, n);
    assert Much(q, n + 2) >= 1000 && 500 * Much(q, n + 2) >= 749 * Much(q, n + 1);
  }

  lemma MuchAfterTwentyOne(q: nat)
    requires q == 1_000_000
    ensures Much(q, 21) >= TWO_32
  {
    MuchThreeOn(q, 0);
    MuchThreeOn(q, 3);
    MuchThreeOn(q, 6);
    MuchThreeOn(q, 9);
    MuchThreeOn(q, 12);
    MuchThreeOn(q, 15);
    MuchThreeOn(q, 18);
  }

  /** Some order as drawn passes 32 bits after `n` Modifies if and only if `n` is at
      least 21. */
  lemma ModifiesOverflowIff(n: nat)
    ensures
      (exists size, factors :: |factors| == n && Factors(factors) && Remodified(OrderQty(size), factors) >= TWO_32)
      <==> n >= 21
  {
    if n >= 21 {
      MuchAfterTwentyOne(1_000_000);
      MuchGrows(21, n);
      RemodifiedAtLeast(1_000_000, n);
      assert OrderQty(1_000_000.0) == 1_000_000;
      assert Remodified(OrderQty(1_000_000.0), Steady(n)) >= TWO_32;
    } else {
      MostAfterTwenty(1_000_000);
      MostGrows(n, 20);
      forall size: real, factors | |factors| == n && Factors(factors)
        ensures Remodified(OrderQty(size), factors) < TWO_32
      {
        RemodifiedAtMost(OrderQty(size), factors);
      }
    }
  }

  function NewMid(cfg: Config, mid: real, noise: real): real {
    Max(mid + cfg.priceReversion * (cfg.basePrice - mid) + cfg.priceVolatility * noise, cfg.tickSize)
  }

  /** To the nearest tick, and at least one. */
  function Snapped(price: real, tick: real): (p: real)
    requires tick > 0.0
    ensures p >= tick
  {
    Max(Round(price / tick) as real * tick, tick)
  }

  function OrderPrice(cfg: Config, mid: real, d: AddDraw): (p: real)
    requires cfg.tickSize > 0.0
    ensures p >= cfg.tickSize
  {
    var offset := d.tickOffset as real * cfg.tickSize;
    Snapped(if d.isBid then mid - offset else mid + offset, cfg.tickSize)
  }

  function Port(sym: nat): uint16 {
    sym % 65536
  }

  function EmitAdd(cfg: Config, s: State, sym: nat, ts: nat, d: AddDraw): (r: (State, SimEvent))
    requires ValidConfig(cfg) && sym < |s.symbols|
    ensures |r.0.symbols| == |s.symbols|
  {
    var st := s.symbols[sym];
    var mid := NewMid(cfg, st.midPrice, d.noise);
    var o := PendingOrder(s.nextOrderId, OrderPrice(cfg, mid, d), OrderQty(d.size), d.isBid);
    (s.(symbols := s.symbols[sym := st.(midPrice := mid, pending := st.pending + [o])],
        nextOrderId := s.nextOrderId + 1, nAdds := s.nAdds + 1),
     EventFor(Add, o, sym, ts))
  }

  function EventFor(kind: EventType, o: PendingOrder, sym: nat, ts: nat): SimEvent {
    SimEvent(kind, o.isBid, o.orderId, o.price, o.qty, Port(sym), ts)
  }

  function Without(ps: seq<PendingOrder>, i: nat): seq<PendingOrder>
    requires i < |ps|
  {
    ps[..i] + ps[i + 1..]
  }

  function EmitCancel(cfg: Config, s: State, sym: nat, ts: nat, d: Draws): (r: (State, SimEvent))
    requires ValidConfig(cfg) && sym < |s.symbols|
    ensures |r.0.symbols| == |s.symbols|
  {
    var st := s.symbols[sym];
    if st.pending == [] then EmitAdd(cfg, s, sym, ts, d.order)
    else
      var i := d.index % |st.pending|;
      (s.(symbols := s.symbols[sym := st.(pending := Without(st.pending, i))], nCancels := s.nCancels + 1),
       EventFor(Cancel, st.pending[i], sym, ts))
  }

  function EmitModify(cfg: Config, s: State, sym: nat, ts: nat, d: Draws): (r: (State, SimEvent))
    requires ValidConfig(cfg) && sym < |s.symbols|
    ensures |r.0.symbols| == |s.symbols|
  {
    var st := s.symbols[sym];
    if st.pending == [] then EmitAdd(cfg, s, sym, ts, d.order)
    else
      var i := d.index % |st.pending|;
      var o := st.pending[i].(qty := ModifiedQty(st.pending[i].qty, d.factor));
      (s.(symbols := s.symbols[sym := st.(pending := st.pending[i := o])], nModifies := s.nModifies + 1),
       EventFor(Modify, o, sym, ts))
  }

  function PickEvent(cfg: Config, s: State, sym: nat, ts: nat, d: Draws): (r: (State, SimEvent))
    requires ValidConfig(cfg) && sym < |s.symbols|
    ensures |r.0.symbols| == |s.symbols|
  {
    var pending := s.symbols[sym].pending;
    if |pending| >= cfg.maxPendingOrders then EmitCancel(cfg, s, sym, ts, d)
    else if pending == [] then EmitAdd(cfg, s, sym, ts, d.order)
    else
      var denom := 1.0 + cfg.cancelRate + cfg.modifyRate;
      var pCancel := cfg.cancelRate / denom;
      var pModify := cfg.modifyRate / denom;
      if d.choice < pCancel then EmitCancel(cfg, s, sym, ts, d)
      else if d.choice < pCancel + pModify then EmitModify(cfg, s, sym, ts, d)
      else EmitAdd(cfg, s, sym, ts, d.order)
  }

  /** The loop of fill_burst: the state and the events, in the order drawn. */
  function BurstAdds(cfg: Config, s: State, sym: nat, start: nat, burst: seq<BurstDraw>): (r: (State, seq<SimEvent>))
    requires ValidConfig(cfg) && sym < |s.symbols|
    ensures |r.0.symbols| == |s.symbols| && |r.1| == |burst|
  {
    if burst == [] then (s, [])
    else
      var (s1, evs) := BurstAdds(cfg, s, sym, start, burst[..|burst| - 1]);
      var b := burst[|burst| - 1];
      var (s2, ev) := EmitAdd(cfg, s1, sym, start + b.jitter, b.order);
      (s2, evs + [ev])
  }

  /** `q` is some sorting of `evs` by time. */
  ghost predicate Sorting(evs: seq<SimEvent>, q: seq<SimEvent>) {
    multiset(q) == multiset(evs) && InTime(q) && |q| == |evs|
  }

  ghost predicate InTime(q: seq<SimEvent>) {
    forall i, j | 0 <= i <= j < |q| :: q[i].injectNs <= q[j].injectNs
  }

  // ------------------------------------------------------------ one call of next()

  /** The state once the clock and the round robin have moved. */
  function Advanced(s: State, d: Draws): State {
    s.(burstQueue := [], burstPos := 0, now := s.now + d.arrival, nextSymbol := (s.nextSymbol + 1) % TWO_32)
  }

  /** The state once a due burst has been drawn, before it is queued. */
  function Burst(cfg: Config, s: State, sym: nat, d: Draws): (r: (State, seq<SimEvent>))
    requires ValidConfig(cfg) && sym < |s.symbols|
    ensures |r.0.symbols| == |s.symbols|
  {
    var (s1, evs) := BurstAdds(cfg, s, sym, s.now, d.burst);
    (s1.(symbols := s1.symbols[sym := s1.symbols[sym].(nextBurstNs := s.now + cfg.burstPeriodMs * 1_000_000)]), evs)
  }

  /** An arrival for `sym`: a burst if one is due and not empty, else one event. */
  ghost predicate Arrived(cfg: Config, s: State, sym: nat, d: Draws, s': State, ev: SimEvent)
    requires ValidConfig(cfg) && sym < |s.symbols|
  {
    if s.now >= s.symbols[sym].nextBurstNs then
      var (s1, evs) := Burst(cfg, s, sym, d);
      if evs != [] then
        var q := s'.burstQueue;
        && Sorting(evs, q)
        && ev == q[0] && s' == s1.(burstQueue := q, burstPos := 1, now := q[0].injectNs)
      else (s', ev) == PickEvent(cfg, s1, sym, s1.now, d)
    else (s', ev) == PickEvent(cfg, s, sym, s.now, d)
  }

  ghost predicate Next(cfg: Config, s: State, d: Draws, s': State, ev: SimEvent)
    requires ValidConfig(cfg) && |s.symbols| == cfg.numSymbols
  {
    if s.burstPos < |s.burstQueue| then
      ev == s.burstQueue[s.burstPos] && s' == s.(now := ev.injectNs, burstPos := s.burstPos + 1)
    else
      Arrived(cfg, Advanced(s, d), s.nextSymbol % cfg.numSymbols, d, s', ev)
  }

  function Init(cfg: Config): State {
    State(seq(cfg.numSymbols, _ => SymbolState(cfg.basePrice, cfg.burstPeriodMs * 1_000_000, [])),
          [], 0, 1, 0, 0, 0, 0, 0)
  }

  // ------------------------------------------------------------ the object

  class MarketSimulator {
    const cfg: Config
    var symbols: seq<SymbolState>
    var burstQueue: seq<SimEvent>
    var burstPos: nat
    var nextOrderId: nat
    var now: nat
    var nextSymbol: uint32
    var nAdds: nat
    var nCancels: nat
    var nModifies: nat

    function Value(): State
      reads this
    {
      State(symbols, burstQueue, burstPos, nextOrderId, now, nextSymbol, nAdds, nCancels, nModifies)
    }

    ghost predicate Valid()
      reads this
    {
      ValidConfig(cfg) && |symbols| == cfg.numSymbols
    }

    /** Nothing generated: every symbol at the base price, its first burst a period away. */
    ghost predicate AtStart()
      reads this
    {
      && (forall st | st in symbols :: st == SymbolState(cfg.basePrice, cfg.burstPeriodMs * 1_000_000, []))
      && burstQueue == [] && nextOrderId == 1 && now == 0 && nextSymbol == 0
      && nAdds == nCancels == nModifies == 0
    }

    constructor (cfg: Config)
      requires ValidConfig(cfg)
      ensures this.cfg == cfg && Valid() && Value() == Init(cfg) && AtStart()
    {
      this.cfg := cfg;
      symbols := seq(cfg.numSymbols, _ => SymbolState(cfg.basePrice, cfg.burstPeriodMs * 1_000_000, []));
      burstQueue, burstPos, nextOrderId, now, nextSymbol := [], 0, 1, 0, 0;
      nAdds, nCancels, nModifies := 0, 0, 0;
    }

    /** Returns the next event and advances the simulated clock. */
    method NextEvent(d: Draws) returns (ev: SimEvent)
      requires Valid() && Possible(cfg, d)
      modifies this
      ensures Valid() && Next(cfg, old(Value()), d, Value(), ev)
    {
      if burstPos < |burstQueue| {
        ev := ConsumeBurst();
        return;
      }
      burstQueue := [];
      burstPos := 0;
      now := now + d.arrival;
      var sym: nat := nextSymbol % cfg.numSymbols;
      nextSymbol := (nextSymbol + 1) % TWO_32;
      ev := Arrive(sym, d);
    }

    /** The rest of next(): check for a due burst, else pick an event. */
    method Arrive(sym: nat, d: Draws) returns (ev: SimEvent)
      requires Valid() && sym < |symbols| && burstQueue == [] && burstPos == 0
      modifies this
      ensures Valid() && Arrived(cfg, old(Value()), sym, d, Value(), ev)
    {
      if now >= symbols[sym].nextBurstNs {
        DrawBurst(sym, d);
        if burstQueue != [] {
          ev := ConsumeBurst();
          return;
        }
      }
      ev := Pick(sym, now, d);
    }

    /** A due burst is drawn and queued, and the next one scheduled. */
    method DrawBurst(sym: nat, d: Draws)
      requires Valid() && sym < |symbols| && burstQueue == [] && burstPos == 0
      modifies this`symbols, this`nextOrderId, this`nAdds, this`burstQueue
      ensures Valid()
      ensures
        var (s', evs) := Burst(cfg, old(Value()), sym, d);
        Value() == s'.(burstQueue := burstQueue) && Sorting(evs, burstQueue)
    {
      FillBurst(sym, now, d.burst);
      symbols := symbols[sym := symbols[sym].(nextBurstNs := now + cfg.burstPeriodMs * 1_000_000)];
    }

    method ConsumeBurst() returns (ev: SimEvent)
      requires burstPos < |burstQueue|
      modifies this`now, this`burstPos
      ensures ev == burstQueue[old(burstPos)] && now == ev.injectNs && burstPos == old(burstPos) + 1
    {
      ev := burstQueue[burstPos];
      now := ev.injectNs;
      burstPos := burstPos + 1;
    }

    method Pick(sym: nat, ts: nat, d: Draws) returns (ev: SimEvent)
      requires Valid() && sym < |symbols|
      modifies this
      ensures (Value(), ev) == PickEvent(cfg, old(Value()), sym, ts, d)
    {
      var pending := symbols[sym].pending;
      if |pending| >= cfg.maxPendingOrders {
        ev := DoCancel(sym, ts, d);
        return;
      }
      if pending == [] {
        ev := DoAdd(sym, ts, d.order);
        return;
      }
      var denom := 1.0 + cfg.cancelRate + cfg.modifyRate;
      var pCancel := cfg.cancelRate / denom;
      var pModify := cfg.modifyRate / denom;
      if d.choice < pCancel {
        ev := DoCancel(sym, ts, d);
      } else if d.choice < pCancel + pModify {
        ev := DoModify(sym, ts, d);
      } else {
        ev := DoAdd(sym, ts, d.order);
      }
    }

    method DoAdd(sym: nat, ts: nat, d: AddDraw) returns (ev: SimEvent)
      requires Valid() && sym < |symbols|
      modifies this`symbols, this`nextOrderId, this`nAdds
      ensures |symbols| == |old(symbols)| && (Value(), ev) == EmitAdd(cfg, old(Value()), sym, ts, d)
    {
      var st := symbols[sym];
      var mid := NewMid(cfg, st.midPrice, d.noise);
      var o := PendingOrder(nextOrderId, OrderPrice(cfg, mid, d), OrderQty(d.size), d.isBid);
      nextOrderId := nextOrderId + 1;
      symbols := symbols[sym := st.(midPrice := mid, pending := st.pending + [o])];
      nAdds := nAdds + 1;
      ev := EventFor(Add, o, sym, ts);
    }

    method DoCancel(sym: nat, ts: nat, d: Draws) returns (ev: SimEvent)
      requires Valid() && sym < |symbols|
      modifies this`symbols, this`nextOrderId, this`nAdds, this`nCancels
      ensures (Value(), ev) == EmitCancel(cfg, old(Value()), sym, ts, d)
    {
      var st := symbols[sym];
      if st.pending == [] {
        ev := DoAdd(sym, ts, d.order);
        return;
      }
      var i: nat := d.index % |st.pending|;
      symbols := symbols[sym := st.(pending := Without(st.pending, i))];
      nCancels := nCancels + 1;
      ev := EventFor(Cancel, st.pending[i], sym, ts);
    }

    method DoModify(sym: nat, ts: nat, d: Draws) returns (ev: SimEvent)
      requires Valid() && sym < |symbols|
      modifies this`symbols, this`nextOrderId, this`nAdds, this`nModifies
      ensures (Value(), ev) == EmitModify(cfg, old(Value()), sym, ts, d)
    {
      var st := symbols[sym];
      if st.pending == [] {
        ev := DoAdd(sym, ts, d.order);
        return;
      }
      var i: nat := d.index % |st.pending|;
      var o := st.pending[i].(qty := ModifiedQty(st.pending[i].qty, d.factor));
      symbols := symbols[sym := st.(pending := st.pending[i := o])];
      nModifies := nModifies + 1;
      ev := EventFor(Modify, o, sym, ts);
    }

    method FillBurst(sym: nat, start: nat, burst: seq<BurstDraw>)
      requires Valid() && sym < |symbols| && burstQueue == [] && burstPos == 0
      modifies this`symbols, this`nextOrderId, this`nAdds, this`burstQueue
      ensures |symbols| == |old(symbols)|
      ensures
        var (s', evs) := BurstAdds(cfg, old(Value()), sym, start, burst);
        && Value() == s'.(burstQueue := burstQueue)
        && Sorting(evs, burstQueue)
    {
      ghost var s := Value();
      for k := 0 to |burst|
        invariant |symbols| == |s.symbols|
        invariant
          var (s', evs) := BurstAdds(cfg, s, sym, start, burst[..k]);
          burstQueue == evs && Value() == s'.(burstQueue := evs)
      {
        assert burst[..k + 1][..k] == burst[..k];
        QueueIgnored(cfg, Value(), sym, start + burst[k].jitter, burst[k].order, []);
        var ev := DoAdd(sym, start + burst[k].jitter, burst[k].order);
        burstQueue := burstQueue + [ev];
      }
      assert burst[..|burst|] == burst;
      burstQueue := SortByTime(burstQueue);
    }

    /** Back to the start; the generator's seed is not part of this model. */
    method Reset()
      requires Valid()
      modifies this
      ensures Valid() && Value() == Init(cfg) && AtStart()
    {
      var due: nat := cfg.burstPeriodMs * 1_000_000;
      for i := 0 to cfg.numSymbols
        invariant |symbols| == cfg.numSymbols
        invariant forall j | 0 <= j < i :: symbols[j] == SymbolState(cfg.basePrice, due, [])
      {
        symbols := symbols[i := SymbolState(cfg.basePrice, due, [])];
      }
      burstQueue, burstPos, nextOrderId, now, nextSymbol := [], 0, 1, 0, 0;
      nAdds, nCancels, nModifies := 0, 0, 0;
    }
  }

  /** emit_add neither reads nor writes the burst queue. */
  lemma QueueIgnored(cfg: Config, s: State, sym: nat, ts: nat, d: AddDraw, q: seq<SimEvent>)
    requires ValidConfig(cfg) && sym < |s.symbols|
    ensures
      var (a, ev) := EmitAdd(cfg, s, sym, ts, d);
      EmitAdd(cfg, s.(burstQueue := q), sym, ts, d) == (a.(burstQueue := q), ev)
  {
  }

  lemma InsertInTime(r: seq<SimEvent>, x: SimEvent, j: nat)
    requires InTime(r) && j <= |r|
    requires j > 0 ==> r[j - 1].injectNs <= x.injectNs
    requires forall k | j <= k < |r| :: r[k].injectNs > x.injectNs
    ensures InTime(r[..j] + [x] + r[j..])
    ensures multiset(r[..j] + [x] + r[j..]) == multiset(r) + multiset{x}
  {
    assert r == r[..j] + r[j..];
  }

  /** std::sort, here as an insertion sort; callers rely only on its contract. */
  method SortByTime(q: seq<SimEvent>) returns (r: seq<SimEvent>)
    ensures Sorting(q, r)
  {
    r := [];
    for i := 0 to |q|
      invariant Sorting(q[..i], r)
    {
      var j := i;
      while j > 0 && r[j - 1].injectNs > q[i].injectNs
        invariant j <= i && forall k | j <= k < i :: r[k].injectNs > q[i].injectNs
      {
        j := j - 1;
      }
      InsertInTime(r, q[i], j);
      assert q[..i + 1] == q[..i] + [q[i]];
      r := r[..j] + [q[i]] + r[j..];
    }
    assert q[..|q|] == q;
  }
}
