/** What every feed of the simulator satisfies, whatever the draws. */
module SimulatorFeed {
  import opened MachineInts
  import opened FeedEvents
  import opened MarketSimulator

  // ------------------------------------------------------------ well-formed feeds

  /** What an order keeps for life: its symbol, side and price. */
  datatype Details = Details(srcPort: uint16, isBid: bool, price: real)

  function DetailsOf(e: SimEvent): Details {
    Details(e.srcPort, e.isBid, e.price)
  }

  /** Ids ever added. */
  function Ids(f: seq<SimEvent>): set<nat> {
    if f == [] then {}
    else Ids(f[..|f| - 1]) + if f[|f| - 1].kind.Add? then {f[|f| - 1].orderId} else {}
  }

  /** Orders added and not yet cancelled. */
  function Live(f: seq<SimEvent>): map<nat, Details> {
    if f == [] then map[]
    else
      var m, e := Live(f[..|f| - 1]), f[|f| - 1];
      if e.kind.Add? then m[e.orderId := DetailsOf(e)]
      else if e.kind.Cancel? then m - {e.orderId}
      else m
  }

  /** Adds bring new ids; Cancels and Modifies name a live order and agree with it. */
  ghost predicate WellFormed(f: seq<SimEvent>) {
    f == [] ||
    var init, e := f[..|f| - 1], f[|f| - 1];
    && WellFormed(init)
    && match e.kind
       case Add => e.orderId !in Ids(init)
       case Cancel => e.orderId in Live(init) && Live(init)[e.orderId] == DetailsOf(e)
       case Modify => e.orderId in Live(init) && Live(init)[e.orderId] == DetailsOf(e)
       case _ => false
  }

  /** Sizes are positive and prices at least a tick. */
  ghost predicate Sane(cfg: Config, f: seq<SimEvent>) {
    forall i | 0 <= i < |f| :: f[i].qty >= 1 && f[i].price >= cfg.tickSize
  }

  // ------------------------------------------------------------ state and events agree

  /** Every pending order is a live order of its symbol. */
  ghost predicate PendingLive(cfg: Config, symbols: seq<SymbolState>, live: map<nat, Details>) {
    forall i, k | 0 <= i < |symbols| && 0 <= k < |symbols[i].pending| ::
      var o := symbols[i].pending[k];
      && o.orderId in live && live[o.orderId] == Details(Port(i), o.isBid, o.price)
      && o.qty >= 1 && o.price >= cfg.tickSize
  }

  /** No order is pending twice. */
  ghost predicate PendingUnique(symbols: seq<SymbolState>) {
    forall i, k, i', k' | 0 <= i < |symbols| && 0 <= k < |symbols[i].pending|
                          && 0 <= i' < |symbols| && 0 <= k' < |symbols[i'].pending|
                          && symbols[i].pending[k].orderId == symbols[i'].pending[k'].orderId ::
      i == i' && k == k'
  }

  function Tally(f: seq<SimEvent>, kind: EventType): nat {
    if f == [] then 0 else Tally(f[..|f| - 1], kind) + if f[|f| - 1].kind == kind then 1 else 0
  }

  function TotalPending(symbols: seq<SymbolState>): nat {
    if symbols == [] then 0 else TotalPending(symbols[..|symbols| - 1]) + |symbols[|symbols| - 1].pending|
  }

  /** The part of the invariant that does not mention time; `all` is everything
      generated, delivered or still queued. */
  ghost predicate BookInv(cfg: Config, s: State, all: seq<SimEvent>) {
    && |s.symbols| == cfg.numSymbols
    && WellFormed(all) && Sane(cfg, all)
    && (forall id | id in Ids(all) :: id < s.nextOrderId)
    && PendingLive(cfg, s.symbols, Live(all)) && PendingUnique(s.symbols)
    && s.nAdds == s.nCancels + TotalPending(s.symbols)
    && s.nAdds + s.nCancels + s.nModifies == |all|
    && s.nAdds == Tally(all, Add) && s.nCancels == Tally(all, Cancel)
  }

  lemma {:induction false} LiveWasAdded(f: seq<SimEvent>)
    ensures forall id | id in Live(f) :: id in Ids(f)
  {
    if f != [] { LiveWasAdded(f[..|f| - 1]); }
  }

  lemma OneMore(f: seq<SimEvent>, e: SimEvent)
    ensures
      var g := f + [e];
      && g[..|g| - 1] == f && g[|g| - 1] == e
      && Ids(g) == Ids(f) + (if e.kind.Add? then {e.orderId} else {})
      && Live(g) == (if e.kind.Add? then Live(f)[e.orderId := DetailsOf(e)]
                     else if e.kind.Cancel? then Live(f) - {e.orderId} else Live(f))
      && (forall kind :: Tally(g, kind) == Tally(f, kind) + if e.kind == kind then 1 else 0)
  {
    assert (f + [e])[..|f + [e]| - 1] == f;
  }

  lemma {:induction false} TotalUpdate(symbols: seq<SymbolState>, i: nat, st: SymbolState)
    requires i < |symbols|
    ensures TotalPending(symbols[i := st]) == TotalPending(symbols) - |symbols[i].pending| + |st.pending|
  {
    var n := |symbols| - 1;
    var symbols' := symbols[i := st];
    if i == n {
      assert symbols'[..n] == symbols[..n];
    } else {
      assert symbols'[..n] == symbols[..n][i := st];
      TotalUpdate(symbols[..n], i, st);
    }
  }

  // ------------------------------------------------------------ the emitters

  lemma AddKeepsPending(cfg: Config, symbols: seq<SymbolState>, live: map<nat, Details>,
                        i: nat, st: SymbolState, o: PendingOrder)
    requires PendingLive(cfg, symbols, live) && PendingUnique(symbols) && i < |symbols|
    requires o.orderId !in live && o.qty >= 1 && o.price >= cfg.tickSize
    requires st.pending == symbols[i].pending + [o]
    ensures PendingLive(cfg, symbols[i := st], live[o.orderId := Details(Port(i), o.isBid, o.price)])
    ensures PendingUnique(symbols[i := st])
  {
    var symbols' := symbols[i := st];
    forall a, k | 0 <= a < |symbols'| && 0 <= k < |symbols'[a].pending|
      ensures (symbols'[a].pending[k] == o && a == i && k == |symbols[i].pending|)
              || (k < |symbols[a].pending| && symbols'[a].pending[k] == symbols[a].pending[k]
                  && symbols[a].pending[k].orderId in live)
    {
    }
  }

  lemma EmitAddKeepsBook(cfg: Config, s: State, all: seq<SimEvent>, sym: nat, ts: nat, d: AddDraw)
    requires ValidConfig(cfg) && BookInv(cfg, s, all) && sym < |s.symbols|
    ensures
      var (s', ev) := EmitAdd(cfg, s, sym, ts, d);
      BookInv(cfg, s', all + [ev]) && ev.kind.Add? && ev.injectNs == ts && ev.orderId == s.nextOrderId
      && s'.nextOrderId == s.nextOrderId + 1
  {
    var (s', ev) := EmitAdd(cfg, s, sym, ts, d);
    var st := s'.symbols[sym];
    var o := st.pending[|st.pending| - 1];
    OneMore(all, ev);
    LiveWasAdded(all);
    assert s.nextOrderId !in Ids(all);
    AddKeepsPending(cfg, s.symbols, Live(all), sym, st, o);
    TotalUpdate(s.symbols, sym, st);
  }

  lemma CancelKeepsPending(cfg: Config, symbols: seq<SymbolState>, live: map<nat, Details>,
                           i: nat, k: nat, st: SymbolState)
    requires PendingLive(cfg, symbols, live) && PendingUnique(symbols) && i < |symbols| && k < |symbols[i].pending|
    requires st.pending == Without(symbols[i].pending, k)
    ensures PendingLive(cfg, symbols[i := st], live - {symbols[i].pending[k].orderId})
    ensures PendingUnique(symbols[i := st])
  {
    var symbols' := symbols[i := st];
    var id := symbols[i].pending[k].orderId;
    forall a, b | 0 <= a < |symbols'| && 0 <= b < |symbols'[a].pending|
      ensures var b' := if a == i && b >= k then b + 1 else b;
              b' < |symbols[a].pending| && symbols'[a].pending[b] == symbols[a].pending[b']
              && symbols[a].pending[b'].orderId != id
    {
    }
  }

  lemma EmitCancelKeepsBook(cfg: Config, s: State, all: seq<SimEvent>, sym: nat, ts: nat, d: Draws)
    requires ValidConfig(cfg) && BookInv(cfg, s, all) && sym < |s.symbols|
    ensures
      var (s', ev) := EmitCancel(cfg, s, sym, ts, d);
      BookInv(cfg, s', all + [ev]) && ev.injectNs == ts
  {
    var st := s.symbols[sym];
    if st.pending == [] {
      EmitAddKeepsBook(cfg, s, all, sym, ts, d.order);
    } else {
      var k := d.index % |st.pending|;
      var (s', ev) := EmitCancel(cfg, s, sym, ts, d);
      OneMore(all, ev);
      CancelKeepsPending(cfg, s.symbols, Live(all), sym, k, s'.symbols[sym]);
      TotalUpdate(s.symbols, sym, s'.symbols[sym]);
    }
  }

  lemma ModifyKeepsPending(cfg: Config, symbols: seq<SymbolState>, live: map<nat, Details>,
                           i: nat, k: nat, st: SymbolState, q: nat)
    requires PendingLive(cfg, symbols, live) && PendingUnique(symbols) && i < |symbols| && k < |symbols[i].pending|
    requires q >= 1 && st.pending == symbols[i].pending[k := symbols[i].pending[k].(qty := q)]
    ensures PendingLive(cfg, symbols[i := st], live) && PendingUnique(symbols[i := st])
  {
    var symbols' := symbols[i := st];
    forall a, b | 0 <= a < |symbols'| && 0 <= b < |symbols'[a].pending|
      ensures b < |symbols[a].pending|
              && symbols'[a].pending[b].(qty := 1) == symbols[a].pending[b].(qty := 1)
              && symbols'[a].pending[b].qty >= 1
    {
    }
  }

  lemma EmitModifyKeepsBook(cfg: Config, s: State, all: seq<SimEvent>, sym: nat, ts: nat, d: Draws)
    requires ValidConfig(cfg) && BookInv(cfg, s, all) && sym < |s.symbols|
    ensures
      var (s', ev) := EmitModify(cfg, s, sym, ts, d);
      BookInv(cfg, s', all + [ev]) && ev.injectNs == ts
  {
    var st := s.symbols[sym];
    if st.pending == [] {
      EmitAddKeepsBook(cfg, s, all, sym, ts, d.order);
    } else {
      var k := d.index % |st.pending|;
      var (s', ev) := EmitModify(cfg, s, sym, ts, d);
      OneMore(all, ev);
      ModifyKeepsPending(cfg, s.symbols, Live(all), sym, k, s'.symbols[sym], ModifiedQty(st.pending[k].qty, d.factor));
      TotalUpdate(s.symbols, sym, s'.symbols[sym]);
    }
  }

  lemma PickKeepsBook(cfg: Config, s: State, all: seq<SimEvent>, sym: nat, ts: nat, d: Draws)
    requires ValidConfig(cfg) && BookInv(cfg, s, all) && sym < |s.symbols|
    ensures
      var (s', ev) := PickEvent(cfg, s, sym, ts, d);
      BookInv(cfg, s', all + [ev]) && ev.injectNs == ts
  {
    EmitAddKeepsBook(cfg, s, all, sym, ts, d.order);
    EmitCancelKeepsBook(cfg, s, all, sym, ts, d);
    EmitModifyKeepsBook(cfg, s, all, sym, ts, d);
  }

  // ------------------------------------------------------------ bursts

  /** A burst as drawn: Adds with consecutive new ids, inside one millisecond. */
  ghost predicate DrawnBurst(evs: seq<SimEvent>, firstId: nat, start: nat) {
    forall i | 0 <= i < |evs| ::
      evs[i].kind.Add? && evs[i].orderId == firstId + i && start <= evs[i].injectNs
  }

  lemma {:induction false} BurstIsDrawn(cfg: Config, s: State, sym: nat, start: nat, burst: seq<BurstDraw>)
    requires ValidConfig(cfg) && sym < |s.symbols|
    ensures
      var (s', evs) := BurstAdds(cfg, s, sym, start, burst);
      DrawnBurst(evs, s.nextOrderId, start) && s'.nextOrderId == s.nextOrderId + |evs|
    decreases |burst|
  {
    if burst != [] { BurstIsDrawn(cfg, s, sym, start, burst[..|burst| - 1]); }
  }

  lemma {:induction false} BurstKeepsBook(cfg: Config, s: State, all: seq<SimEvent>,
                                          sym: nat, start: nat, burst: seq<BurstDraw>)
    requires ValidConfig(cfg) && BookInv(cfg, s, all) && sym < |s.symbols|
    ensures
      var (s', evs) := BurstAdds(cfg, s, sym, start, burst);
      BookInv(cfg, s', all + evs)
    decreases |burst|
  {
    if burst == [] {
      assert all + [] == all;
    } else {
      var init, b := burst[..|burst| - 1], burst[|burst| - 1];
      var (s1, evs) := BurstAdds(cfg, s, sym, start, init);
      BurstKeepsBook(cfg, s, all, sym, start, init);
      var (s2, ev) := EmitAdd(cfg, s1, sym, start + b.jitter, b.order);
      assert BookInv(cfg, s2, all + evs + [ev]) by {
        EmitAddKeepsBook(cfg, s1, all + evs, sym, start + b.jitter, b.order);
      }
      assert all + (evs + [ev]) == all + evs + [ev];
      assert BurstAdds(cfg, s, sym, start, burst) == (s2, evs + [ev]);
    }
  }

  /** Adds whose ids are new and all different. */
  ghost predicate FreshAdds(q: seq<SimEvent>, used: set<nat>) {
    && (forall i | 0 <= i < |q| :: q[i].kind.Add? && q[i].orderId !in used)
    && (forall i, j | 0 <= i < j < |q| :: q[i].orderId != q[j].orderId)
  }

  lemma SeenTwice(q: seq<SimEvent>, i: nat, j: nat)
    requires i < j < |q| && q[i] == q[j]
    ensures multiset(q)[q[i]] >= 2
  {
    assert q == q[..j] + [q[j]] + q[j + 1..];
    assert q[i] in q[..j];
  }

  lemma SeenOnce(evs: seq<SimEvent>, e: SimEvent, used: set<nat>) returns (k: nat)
    requires FreshAdds(evs, used) && e in evs
    ensures k < |evs| && evs[k] == e && multiset(evs)[e] == 1
    ensures forall e' | e' in evs && e'.orderId == e.orderId :: e' == e
  {
    k :| 0 <= k < |evs| && evs[k] == e;
    assert evs == evs[..k] + [e] + evs[k + 1..];
    assert e !in evs[..k] && e !in evs[k + 1..];
  }

  /** Sorting a burst keeps its ids different. */
  lemma SortedStaysFresh(evs: seq<SimEvent>, q: seq<SimEvent>, used: set<nat>)
    requires FreshAdds(evs, used) && multiset(q) == multiset(evs)
    ensures FreshAdds(q, used)
  {
    forall i | 0 <= i < |q| ensures q[i] in evs {
      assert q[i] in multiset(q);
    }
    forall i, j | 0 <= i < j < |q| ensures q[i].orderId != q[j].orderId {
      var _ := SeenOnce(evs, q[i], used);
      if q[i] == q[j] { SeenTwice(q, i, j); }
    }
  }

  function IdsIn(q: seq<SimEvent>): set<nat> {
    set e | e in q :: e.orderId
  }

  lemma IdsInSnoc(init: seq<SimEvent>, e: SimEvent)
    ensures IdsIn(init + [e]) == IdsIn(init) + {e.orderId}
  {
    var q := init + [e];
    forall x ensures x in q <==> x in init || x == e {
    }
  }

  lemma {:induction false} AppendIds(all: seq<SimEvent>, q: seq<SimEvent>)
    requires forall i | 0 <= i < |q| :: q[i].kind.Add?
    ensures Ids(all + q) == Ids(all) + IdsIn(q)
    decreases |q|
  {
    if q == [] {
      assert all + q == all;
    } else {
      var init, e := q[..|q| - 1], q[|q| - 1];
      AppendIds(all, init);
      IdsInSnoc(init, e);
      assert q == init + [e];
      assert all + q == (all + init) + [e];
      OneMore(all + init, e);
    }
  }

  lemma WellFormedAdd(f: seq<SimEvent>, e: SimEvent)
    requires WellFormed(f) && e.kind.Add? && e.orderId !in Ids(f)
    ensures WellFormed(f + [e])
  {
    OneMore(f, e);
  }

  lemma {:induction false} AppendAdds(all: seq<SimEvent>, q: seq<SimEvent>)
    requires WellFormed(all) && FreshAdds(q, Ids(all))
    ensures WellFormed(all + q)
    decreases |q|
  {
    if q == [] {
      assert all + q == all;
    } else {
      var init, e := q[..|q| - 1], q[|q| - 1];
      AppendAdds(all, init);
      AppendIds(all, init);
      WellFormedAdd(all + init, e);
      assert all + q == (all + init) + [e];
    }
  }

  lemma {:induction false} AppendTally(all: seq<SimEvent>, q: seq<SimEvent>, kind: EventType)
    requires forall i | 0 <= i < |q| :: q[i].kind.Add?
    ensures Tally(all + q, kind) == Tally(all, kind) + if kind.Add? then |q| else 0
    decreases |q|
  {
    if q == [] {
      assert all + q == all;
    } else {
      AppendTally(all, q[..|q| - 1], kind);
      assert all + q == (all + q[..|q| - 1]) + [q[|q| - 1]];
      OneMore(all + q[..|q| - 1], q[|q| - 1]);
    }
  }

  /** Appending Adds does not touch the entries of other ids. */
  lemma {:induction false} AppendLiveOld(all: seq<SimEvent>, q: seq<SimEvent>, id: nat)
    requires (forall i | 0 <= i < |q| :: q[i].kind.Add?) && id !in IdsIn(q)
    ensures id in Live(all + q) <==> id in Live(all)
    ensures id in Live(all) ==> Live(all + q)[id] == Live(all)[id]
    decreases |q|
  {
    if q == [] {
      assert all + q == all;
    } else {
      var init, e := q[..|q| - 1], q[|q| - 1];
      assert q == init + [e];
      IdsInSnoc(init, e);
      AppendLiveOld(all, init, id);
      assert all + q == (all + init) + [e];
      OneMore(all + init, e);
    }
  }

  /** A new Add is live with its details, wherever among the others it stands. */
  lemma {:induction false} AppendLiveNew(all: seq<SimEvent>, q: seq<SimEvent>, used: set<nat>, x: SimEvent)
    requires FreshAdds(q, used) && x in q
    ensures x.orderId in Live(all + q) && Live(all + q)[x.orderId] == DetailsOf(x)
    decreases |q|
  {
    var init, e := q[..|q| - 1], q[|q| - 1];
    assert q == init + [e];
    assert all + q == (all + init) + [e];
    OneMore(all + init, e);
    if x != e {
      LastIsNew(q, used);
      AppendLiveNew(all, init, used, x);
    }
  }

  lemma LastIsNew(q: seq<SimEvent>, used: set<nat>)
    requires FreshAdds(q, used) && q != []
    ensures forall x | x in q[..|q| - 1] :: x.orderId != q[|q| - 1].orderId
  {
    var init := q[..|q| - 1];
    forall x | x in init ensures x.orderId != q[|q| - 1].orderId {
      var i :| 0 <= i < |init| && init[i] == x;
      assert q[i] == x;
    }
  }

  lemma SameEntry(all: seq<SimEvent>, evs: seq<SimEvent>, q: seq<SimEvent>, used: set<nat>, id: nat)
    requires FreshAdds(evs, used) && FreshAdds(q, used)
    requires forall e :: e in q <==> e in evs
    ensures id in Live(all + q) <==> id in Live(all + evs)
    ensures id in Live(all + q) ==> Live(all + q)[id] == Live(all + evs)[id]
  {
    assert IdsIn(q) == IdsIn(evs);
    if id in IdsIn(q) {
      var e :| e in q && e.orderId == id;
      AppendLiveNew(all, evs, used, e);
      AppendLiveNew(all, q, used, e);
    } else {
      AppendLiveOld(all, evs, id);
      AppendLiveOld(all, q, id);
    }
  }

  /** Sorting a burst leaves the same orders live. */
  lemma SameLive(all: seq<SimEvent>, evs: seq<SimEvent>, q: seq<SimEvent>, used: set<nat>)
    requires FreshAdds(evs, used) && FreshAdds(q, used)
    requires forall e :: e in q <==> e in evs
    ensures Live(all + q) == Live(all + evs)
  {
    forall id ensures id in Live(all + q) <==> id in Live(all + evs) {
      SameEntry(all, evs, q, used, id);
    }
    forall id | id in Live(all + q) ensures Live(all + q)[id] == Live(all + evs)[id] {
      SameEntry(all, evs, q, used, id);
    }
  }

  lemma SameMembers(evs: seq<SimEvent>, q: seq<SimEvent>)
    requires multiset(q) == multiset(evs)
    ensures forall e :: e in q <==> e in evs
  {
    forall e ensures e in q <==> e in evs {
      assert e in q <==> e in multiset(q);
      assert e in evs <==> e in multiset(evs);
    }
  }

  lemma SameIds(all: seq<SimEvent>, evs: seq<SimEvent>, q: seq<SimEvent>)
    requires (forall i | 0 <= i < |evs| :: evs[i].kind.Add?) && (forall i | 0 <= i < |q| :: q[i].kind.Add?)
    requires forall e :: e in q <==> e in evs
    ensures Ids(all + q) == Ids(all + evs)
  {
    AppendIds(all, evs);
    AppendIds(all, q);
    assert IdsIn(q) == IdsIn(evs);
  }

  lemma SameTally(all: seq<SimEvent>, evs: seq<SimEvent>, q: seq<SimEvent>, kind: EventType)
    requires (forall i | 0 <= i < |evs| :: evs[i].kind.Add?) && (forall i | 0 <= i < |q| :: q[i].kind.Add?)
    requires |q| == |evs|
    ensures Tally(all + q, kind) == Tally(all + evs, kind)
  {
    AppendTally(all, evs, kind);
    AppendTally(all, q, kind);
  }

  /** Sorting a burst before queueing it changes nothing that is asked of the feed. */
  lemma SortKeepsFeed(cfg: Config, all: seq<SimEvent>, evs: seq<SimEvent>, q: seq<SimEvent>)
    requires WellFormed(all) && FreshAdds(evs, Ids(all)) && Sorting(evs, q) && Sane(cfg, all + evs)
    ensures WellFormed(all + q) && Sane(cfg, all + q)
    ensures Ids(all + q) == Ids(all + evs) && Live(all + q) == Live(all + evs)
    ensures forall kind :: Tally(all + q, kind) == Tally(all + evs, kind)
  {
    SortedStaysFresh(evs, q, Ids(all));
    SameMembers(evs, q);
    AppendAdds(all, q);
    SameIds(all, evs, q);
    SameLive(all, evs, q, Ids(all));
    SaneApart(cfg, all, evs);
    SaneApart(cfg, all, q);
    forall kind ensures Tally(all + q, kind) == Tally(all + evs, kind) { SameTally(all, evs, q, kind); }
  }

  lemma SortKeepsBook(cfg: Config, s: State, all: seq<SimEvent>, evs: seq<SimEvent>, q: seq<SimEvent>)
    requires WellFormed(all) && FreshAdds(evs, Ids(all)) && BookInv(cfg, s, all + evs) && Sorting(evs, q)
    ensures BookInv(cfg, s, all + q)
  {
    SortKeepsFeed(cfg, all, evs, q);
  }

  lemma SaneApart(cfg: Config, all: seq<SimEvent>, q: seq<SimEvent>)
    ensures Sane(cfg, all + q) <==> Sane(cfg, all) && forall e | e in q :: e.qty >= 1 && e.price >= cfg.tickSize
  {
    var f := all + q;
    forall i | 0 <= i < |q| ensures f[|all| + i] == q[i] {
    }
    if Sane(cfg, f) {
      forall i | 0 <= i < |all| ensures all[i].qty >= 1 && all[i].price >= cfg.tickSize {
        assert f[i] == all[i];
      }
    }
  }

  // ------------------------------------------------------------ one step

  function LastTime(f: seq<SimEvent>): nat {
    if f == [] then 0 else f[|f| - 1].injectNs
  }

  /** The invariant: what is generated but not delivered is what is left of the
      queue, and the clock shows the time of the last delivery. */
  ghost predicate Inv(cfg: Config, s: State, all: seq<SimEvent>, sent: nat) {
    && BookInv(cfg, s, all) && InTime(all)
    && sent <= |all| && s.burstPos <= |s.burstQueue| && all[sent..] == s.burstQueue[s.burstPos..]
    && s.now == LastTime(all[..sent])
  }

  lemma InitInv(cfg: Config)
    requires ValidConfig(cfg)
    ensures Inv(cfg, Init(cfg), [], 0)
  {
    NonePending(Init(cfg).symbols);
  }

  lemma {:induction false} NonePending(symbols: seq<SymbolState>)
    requires forall i | 0 <= i < |symbols| :: symbols[i].pending == []
    ensures TotalPending(symbols) == 0
  {
    if symbols != [] { NonePending(symbols[..|symbols| - 1]); }
  }

  lemma InTimeAppend(f: seq<SimEvent>, q: seq<SimEvent>)
    requires InTime(f) && InTime(q)
    requires f != [] && q != [] ==> f[|f| - 1].injectNs <= q[0].injectNs
    ensures InTime(f + q)
  {
    var g := f + q;
    forall i, j | 0 <= i <= j < |g| ensures g[i].injectNs <= g[j].injectNs {
      if i < |f| <= j {
        assert f[i].injectNs <= f[|f| - 1].injectNs <= q[0].injectNs <= q[j - |f|].injectNs;
      }
    }
  }

  lemma SchedulingKeepsBook(cfg: Config, s: State, all: seq<SimEvent>, sym: nat, due: nat)
    requires BookInv(cfg, s, all) && sym < |s.symbols|
    ensures BookInv(cfg, s.(symbols := s.symbols[sym := s.symbols[sym].(nextBurstNs := due)]), all)
  {
    TotalUpdate(s.symbols, sym, s.symbols[sym].(nextBurstNs := due));
  }

  lemma DrawnIsFresh(evs: seq<SimEvent>, firstId: nat, start: nat, used: set<nat>)
    requires DrawnBurst(evs, firstId, start) && forall id | id in used :: id < firstId
    ensures FreshAdds(evs, used)
  {
  }

  lemma SortedNotBefore(evs: seq<SimEvent>, q: seq<SimEvent>, firstId: nat, start: nat)
    requires DrawnBurst(evs, firstId, start) && Sorting(evs, q)
    ensures forall i | 0 <= i < |q| :: q[i].injectNs >= start
  {
    forall i | 0 <= i < |q| ensures q[i].injectNs >= start {
      assert q[i] in multiset(q);
      assert q[i] in evs;
    }
  }

  lemma DrawnKeepsBook(cfg: Config, s: State, all: seq<SimEvent>, sym: nat, d: Draws)
    requires ValidConfig(cfg) && BookInv(cfg, s, all) && sym < |s.symbols|
    ensures var (s', evs) := Burst(cfg, s, sym, d); BookInv(cfg, s', all + evs)
  {
    var (s1, evs) := BurstAdds(cfg, s, sym, s.now, d.burst);
    BurstKeepsBook(cfg, s, all, sym, s.now, d.burst);
    SchedulingKeepsBook(cfg, s1, all + evs, sym, s.now + cfg.burstPeriodMs * 1_000_000);
  }

  lemma DrawnIsNew(cfg: Config, s: State, all: seq<SimEvent>, sym: nat, d: Draws)
    requires ValidConfig(cfg) && sym < |s.symbols| && forall id | id in Ids(all) :: id < s.nextOrderId
    ensures var evs := Burst(cfg, s, sym, d).1; DrawnBurst(evs, s.nextOrderId, s.now) && FreshAdds(evs, Ids(all))
  {
    BurstIsDrawn(cfg, s, sym, s.now, d.burst);
    DrawnIsFresh(Burst(cfg, s, sym, d).1, s.nextOrderId, s.now, Ids(all));
  }

  /** A due burst, drawn, sorted and queued. */
  lemma BurstStep(cfg: Config, s: State, all: seq<SimEvent>, sym: nat, d: Draws, q: seq<SimEvent>)
    requires ValidConfig(cfg) && BookInv(cfg, s, all) && sym < |s.symbols|
    requires Sorting(Burst(cfg, s, sym, d).1, q)
    ensures BookInv(cfg, Burst(cfg, s, sym, d).0, all + q)
    ensures forall i | 0 <= i < |q| :: q[i].injectNs >= s.now
  {
    var (s2, evs) := Burst(cfg, s, sym, d);
    DrawnKeepsBook(cfg, s, all, sym, d);
    DrawnIsNew(cfg, s, all, sym, d);
    SortKeepsBook(cfg, s2, all, evs, q);
    SortedNotBefore(evs, q, s.nextOrderId, s.now);
  }

  /** Queueing `more` and delivering its first event at once. */
  lemma Delivered(cfg: Config, s: State, all: seq<SimEvent>, more: seq<SimEvent>, s': State, start: nat)
    requires BookInv(cfg, s, all + more) && InTime(all) && InTime(more) && more != []
    requires LastTime(all) <= start <= more[0].injectNs
    requires s' == s.(burstQueue := s'.burstQueue, burstPos := s'.burstPos, now := more[0].injectNs)
    requires s'.burstPos <= |s'.burstQueue| && s'.burstQueue[s'.burstPos..] == more[1..]
    ensures Inv(cfg, s', all + more, |all| + 1)
  {
    InTimeAppend(all, more);
    assert (all + more)[|all| + 1..] == more[1..];
    assert (all + more)[..|all| + 1] == all + [more[0]];
  }

  lemma {:induction false} BurstLeavesRest(cfg: Config, s: State, sym: nat, start: nat, burst: seq<BurstDraw>)
    requires ValidConfig(cfg) && sym < |s.symbols|
    ensures
      var s' := BurstAdds(cfg, s, sym, start, burst).0;
      s'.now == s.now && s'.burstQueue == s.burstQueue && s'.burstPos == s.burstPos
    decreases |burst|
  {
    if burst != [] { BurstLeavesRest(cfg, s, sym, start, burst[..|burst| - 1]); }
  }

  lemma BurstDelivered(cfg: Config, s: State, all: seq<SimEvent>, sym: nat, d: Draws, s': State)
    requires ValidConfig(cfg) && BookInv(cfg, s, all) && InTime(all) && sym < |s.symbols| && LastTime(all) <= s.now
    requires
      var (s1, evs) := Burst(cfg, s, sym, d);
      var q := s'.burstQueue;
      evs != [] && Sorting(evs, q) && s' == s1.(burstQueue := q, burstPos := 1, now := q[0].injectNs)
    ensures Inv(cfg, s', all + s'.burstQueue, |all| + 1)
  {
    BurstStep(cfg, s, all, sym, d, s'.burstQueue);
    Delivered(cfg, Burst(cfg, s, sym, d).0, all, s'.burstQueue, s', s.now);
  }

  lemma PickDelivered(cfg: Config, s: State, all: seq<SimEvent>, sym: nat, d: Draws, s': State, ev: SimEvent)
    requires ValidConfig(cfg) && BookInv(cfg, s, all) && InTime(all) && sym < |s.symbols| && LastTime(all) <= s.now
    requires s.burstQueue == [] && s.burstPos == 0 && (s', ev) == PickEvent(cfg, s, sym, s.now, d)
    ensures Inv(cfg, s', all + [ev], |all| + 1)
  {
    PickKeepsBook(cfg, s, all, sym, s.now, d);
    Delivered(cfg, s', all, [ev], s', s.now);
  }

  /** An arrival, with nothing left queued. */
  lemma ArrivalKeepsInv(cfg: Config, s: State, all: seq<SimEvent>, sym: nat, d: Draws, s': State, ev: SimEvent)
    returns (more: seq<SimEvent>)
    requires ValidConfig(cfg) && BookInv(cfg, s, all) && InTime(all) && sym < |s.symbols|
    requires LastTime(all) <= s.now && s.burstQueue == [] && s.burstPos == 0
    requires Arrived(cfg, s, sym, d, s', ev)
    ensures more != [] && more[0] == ev && Inv(cfg, s', all + more, |all| + 1)
  {
    if s.now < s.symbols[sym].nextBurstNs {
      PickDelivered(cfg, s, all, sym, d, s', ev);
      more := [ev];
    } else if Burst(cfg, s, sym, d).1 != [] {
      BurstDelivered(cfg, s, all, sym, d, s');
      more := s'.burstQueue;
    } else {
      BurstLeavesRest(cfg, s, sym, s.now, d.burst);
      BurstStep(cfg, s, all, sym, d, []);
      assert all + [] == all;
      PickDelivered(cfg, Burst(cfg, s, sym, d).0, all, sym, d, s', ev);
      more := [ev];
    }
  }

  /** A queued event is delivered. */
  lemma QueuedKeepsInv(cfg: Config, s: State, all: seq<SimEvent>, sent: nat)
    requires Inv(cfg, s, all, sent) && s.burstPos < |s.burstQueue|
    ensures
      var ev := s.burstQueue[s.burstPos];
      && sent < |all| && all[sent] == ev
      && Inv(cfg, s.(now := ev.injectNs, burstPos := s.burstPos + 1), all, sent + 1)
  {
    assert all[sent] == all[sent..][0];
    assert all[sent + 1..] == all[sent..][1..] == s.burstQueue[s.burstPos..][1..];
  }

  lemma DrainedKeepsInv(cfg: Config, s: State, all: seq<SimEvent>, sent: nat, d: Draws, s': State, ev: SimEvent)
    returns (more: seq<SimEvent>)
    requires ValidConfig(cfg) && Inv(cfg, s, all, sent) && s.burstPos >= |s.burstQueue|
    requires |s.symbols| == cfg.numSymbols && Arrived(cfg, Advanced(s, d), s.nextSymbol % cfg.numSymbols, d, s', ev)
    ensures Inv(cfg, s', all + more, sent + 1) && (all + more)[sent] == ev
  {
    assert all[..sent] == all;
    more := ArrivalKeepsInv(cfg, Advanced(s, d), all, s.nextSymbol % cfg.numSymbols, d, s', ev);
  }

  lemma NextKeepsInv(cfg: Config, s: State, all: seq<SimEvent>, sent: nat, d: Draws, s': State, ev: SimEvent)
    returns (more: seq<SimEvent>)
    requires ValidConfig(cfg) && |s.symbols| == cfg.numSymbols && Inv(cfg, s, all, sent) && Next(cfg, s, d, s', ev)
    ensures Inv(cfg, s', all + more, sent + 1) && (all + more)[sent] == ev
  {
    if s.burstPos < |s.burstQueue| {
      more := [];
      assert all + more == all;
      QueuedKeepsInv(cfg, s, all, sent);
    } else {
      more := DrainedKeepsInv(cfg, s, all, sent, d, s', ev);
    }
  }

  // ------------------------------------------------------------ whole runs

  /** `feed` is what the calls of next() return, for the draws `ds`; `states` are
      the states in between. */
  ghost predicate IsRun(cfg: Config, ds: seq<Draws>, states: seq<State>, feed: seq<SimEvent>) {
    && ValidConfig(cfg) && |ds| == |feed| && |states| == |feed| + 1 && states[0] == Init(cfg)
    && (forall i | 0 <= i < |states| :: |states[i].symbols| == cfg.numSymbols)
    && (forall i | 0 <= i < |feed| :: Possible(cfg, ds[i]) && Next(cfg, states[i], ds[i], states[i + 1], feed[i]))
  }

  lemma Regroup(feed: seq<SimEvent>, before: seq<SimEvent>, more: seq<SimEvent>, ev: SimEvent)
    returns (queued: seq<SimEvent>)
    requires |feed| < |feed + before + more| && (feed + before + more)[|feed|] == ev
    ensures feed + before + more == feed + [ev] + queued
  {
    queued := (feed + before + more)[|feed| + 1..];
  }

  /** One call of next() in a run that has delivered `feed` and queued `before`. */
  lemma CallKeepsInv(cfg: Config, s: State, feed: seq<SimEvent>, before: seq<SimEvent>,
                     d: Draws, s': State, ev: SimEvent)
    returns (queued: seq<SimEvent>)
    requires ValidConfig(cfg) && |s.symbols| == cfg.numSymbols
    requires Inv(cfg, s, feed + before, |feed|) && Next(cfg, s, d, s', ev)
    ensures Inv(cfg, s', feed + [ev] + queued, |feed| + 1)
  {
    var all := feed + before;
    var more := NextKeepsInv(cfg, s, all, |feed|, d, s', ev);
    queued := Regroup(feed, before, more, ev);
  }

  lemma CallOfRun(cfg: Config, ds: seq<Draws>, states: seq<State>, feed: seq<SimEvent>, n: nat, before: seq<SimEvent>)
    returns (queued: seq<SimEvent>)
    requires IsRun(cfg, ds, states, feed) && n < |feed| && Inv(cfg, states[n], feed[..n] + before, n)
    ensures Inv(cfg, states[n + 1], feed[..n + 1] + queued, n + 1)
  {
    queued := CallKeepsInv(cfg, states[n], feed[..n], before, ds[n], states[n + 1], feed[n]);
    assert feed[..n + 1] == feed[..n] + [feed[n]];
  }

  /** The invariant holds along every run. */
  lemma {:induction false} RunKeepsInv(cfg: Config, ds: seq<Draws>, states: seq<State>, feed: seq<SimEvent>, n: nat)
    returns (queued: seq<SimEvent>)
    requires IsRun(cfg, ds, states, feed) && n <= |feed|
    ensures Inv(cfg, states[n], feed[..n] + queued, n)
  {
    if n == 0 {
      queued := [];
      InitInv(cfg);
      assert feed[..0] + queued == [];
    } else {
      var before := RunKeepsInv(cfg, ds, states, feed, n - 1);
      queued := CallOfRun(cfg, ds, states, feed, n - 1, before);
    }
  }

  // ------------------------------------------------------------ the feed, event by event

  lemma {:induction false} WellFormedPrefix(f: seq<SimEvent>, n: nat)
    requires WellFormed(f) && n <= |f|
    ensures WellFormed(f[..n])
    decreases |f|
  {
    if n == |f| {
      assert f[..n] == f;
    } else {
      WellFormedPrefix(f[..|f| - 1], n);
      assert f[..|f| - 1][..n] == f[..n];
    }
  }

  lemma {:induction false} IdWasAdded(f: seq<SimEvent>, i: nat)
    requires i < |f| && f[i].kind.Add?
    ensures f[i].orderId in Ids(f)
    decreases |f|
  {
    if i < |f| - 1 { IdWasAdded(f[..|f| - 1], i); }
  }

  /** A live order was added, with these details, and has not been cancelled since. */
  lemma {:induction false} LiveOrigin(f: seq<SimEvent>, id: nat) returns (i: nat)
    requires id in Live(f)
    ensures i < |f| && f[i].kind.Add? && f[i].orderId == id && DetailsOf(f[i]) == Live(f)[id]
    ensures forall k | i < k < |f| :: !(f[k].kind.Cancel? && f[k].orderId == id)
    decreases |f|
  {
    var init, e := f[..|f| - 1], f[|f| - 1];
    if e.kind.Add? && e.orderId == id {
      i := |f| - 1;
    } else {
      i := LiveOrigin(init, id);
    }
  }

  /** `j` refers to the order that `i` added, which nothing in between cancelled. */
  ghost predicate RefersTo(f: seq<SimEvent>, i: int, j: int)
    requires 0 <= i < |f| && 0 <= j < |f|
  {
    && i < j && f[i].kind.Add? && f[i].orderId == f[j].orderId && DetailsOf(f[i]) == DetailsOf(f[j])
    && forall k | i < k < j :: !(f[k].kind.Cancel? && f[k].orderId == f[j].orderId)
  }

  lemma EveryEventMakesSense(f: seq<SimEvent>, j: nat)
    requires WellFormed(f) && j < |f|
    ensures f[j].kind.Add? || f[j].kind.Cancel? || f[j].kind.Modify?
    ensures f[j].kind.Add? ==> forall i | 0 <= i < j && f[i].kind.Add? :: f[i].orderId != f[j].orderId
    ensures !f[j].kind.Add? ==> exists i :: 0 <= i < |f| && RefersTo(f, i, j)
  {
    WellFormedPrefix(f, j + 1);
    var g := f[..j];
    assert f[..j + 1][..j] == g;
    if f[j].kind.Add? {
      forall i | 0 <= i < j && f[i].kind.Add? ensures f[i].orderId != f[j].orderId {
        IdWasAdded(g, i);
        assert g[i] == f[i];
      }
    } else {
      var i := LiveOrigin(g, f[j].orderId);
      assert RefersTo(f, i, j);
    }
  }

  /** Main result: for every sequence of draws, in the feed delivered so far ids
      are unique, every Cancel and Modify refers to a delivered Add with the same
      symbol, side and price that nothing delivered since has cancelled, and time
      never runs backwards. */
  lemma FeedIsWellFormed(cfg: Config, ds: seq<Draws>, states: seq<State>, feed: seq<SimEvent>)
    requires IsRun(cfg, ds, states, feed)
    ensures InTime(feed) && Sane(cfg, feed)
    ensures forall j | 0 <= j < |feed| :: feed[j].kind.Add? || feed[j].kind.Cancel? || feed[j].kind.Modify?
    ensures forall i, j | 0 <= i < j < |feed| && feed[i].kind.Add? && feed[j].kind.Add? ::
              feed[i].orderId != feed[j].orderId
    ensures forall j | 0 <= j < |feed| && !feed[j].kind.Add? :: exists i :: 0 <= i < |feed| && RefersTo(feed, i, j)
  {
    var n := |feed|;
    var queued := RunKeepsInv(cfg, ds, states, feed, n);
    var all := feed[..n] + queued;
    assert all[..n] == feed;
    WellFormedPrefix(all, n);
    forall j | 0 <= j < n
      ensures feed[j] == all[j]
      ensures feed[j].kind.Add? || feed[j].kind.Cancel? || feed[j].kind.Modify?
      ensures feed[j].kind.Add? ==> forall i | 0 <= i < j && feed[i].kind.Add? :: feed[i].orderId != feed[j].orderId
      ensures !feed[j].kind.Add? ==> exists i :: 0 <= i < |feed| && RefersTo(feed, i, j)
    {
      EveryEventMakesSense(feed, j);
    }
  }

  /** What the totals count: everything delivered and everything still queued. */
  ghost predicate Conserved(s: State, feed: seq<SimEvent>) {
    && s.burstPos <= |s.burstQueue|
    && var queued := s.burstQueue[s.burstPos..];
    && s.nAdds + s.nCancels + s.nModifies == |feed| + |queued|
    && s.nAdds == Tally(feed + queued, Add) && s.nCancels == Tally(feed + queued, Cancel)
    && s.nAdds - s.nCancels == TotalPending(s.symbols)
    && (forall i | 0 <= i < |queued| :: queued[i].injectNs >= s.now)
  }

  lemma InvConserves(cfg: Config, s: State, feed: seq<SimEvent>, queued: seq<SimEvent>)
    requires Inv(cfg, s, feed + queued, |feed|)
    ensures Conserved(s, feed)
  {
    var all := feed + queued;
    assert all[|feed|..] == queued;
    assert all[..|feed|] == feed;
    forall i | 0 <= i < |queued| ensures queued[i].injectNs >= s.now {
      assert queued[i] == all[|feed| + i];
      if feed != [] {
        assert s.now == all[|feed| - 1].injectNs;
      }
    }
  }

  /** Main result: nothing is lost between generation and delivery.  The totals
      count the delivered events and the queued ones, and the orders pending are
      exactly the Adds less the Cancels. */
  lemma FeedConserved(cfg: Config, ds: seq<Draws>, states: seq<State>, feed: seq<SimEvent>)
    requires IsRun(cfg, ds, states, feed)
    ensures Conserved(states[|feed|], feed)
  {
    var queued := RunKeepsInv(cfg, ds, states, feed, |feed|);
    assert feed[..|feed|] == feed;
    InvConserves(cfg, states[|feed|], feed, queued);
  }

  // ------------------------------------------------------------ the cap on pending orders

  function PendingOf(s: State, sym: int): nat
    requires 0 <= sym < |s.symbols|
  {
    |s.symbols[sym].pending|
  }

  ghost predicate BurstDue(cfg: Config, s: State, d: Draws)
    requires ValidConfig(cfg) && |s.symbols| == cfg.numSymbols
  {
    && s.burstPos >= |s.burstQueue| && d.burst != []
    && s.now + d.arrival >= s.symbols[s.nextSymbol % cfg.numSymbols].nextBurstNs
  }

  lemma {:induction false} BurstGrowsPending(cfg: Config, s: State, sym: nat, start: nat, burst: seq<BurstDraw>)
    requires ValidConfig(cfg) && sym < |s.symbols|
    ensures
      var s' := BurstAdds(cfg, s, sym, start, burst).0;
      PendingOf(s', sym) == PendingOf(s, sym) + |burst|
      && forall i | 0 <= i < |s.symbols| && i != sym :: s'.symbols[i] == s.symbols[i]
    decreases |burst|
  {
    if burst != [] { BurstGrowsPending(cfg, s, sym, start, burst[..|burst| - 1]); }
  }

  /** The cap on pending orders restrains single events but not bursts.  A call
      takes a symbol above the larger of its count and the cap exactly when a burst
      is due that is larger than the room left.  (A cap of 0 acts as 1.) */
  lemma CapHoldsBetweenBursts(cfg: Config, s: State, d: Draws, s': State, ev: SimEvent)
    requires ValidConfig(cfg) && |s.symbols| == cfg.numSymbols && Possible(cfg, d) && Next(cfg, s, d, s', ev)
    ensures |s'.symbols| == |s.symbols|
    ensures
      var sym, cap := s.nextSymbol % cfg.numSymbols, if cfg.maxPendingOrders == 0 then 1 else cfg.maxPendingOrders;
      (exists i | 0 <= i < |s.symbols| :: PendingOf(s', i) > PendingOf(s, i) && PendingOf(s', i) > cap)
      <==> BurstDue(cfg, s, d) && PendingOf(s, sym) + |d.burst| > cap
  {
    var sym: nat := s.nextSymbol % cfg.numSymbols;
    var a := Advanced(s, d);
    if s.burstPos >= |s.burstQueue| && a.now >= a.symbols[sym].nextBurstNs {
      BurstGrowsPending(cfg, a, sym, a.now, d.burst);
      if d.burst != [] {
        assert PendingOf(s', sym) == PendingOf(s, sym) + |d.burst|;
      }
    }
  }

  /** With a cap of one, a first arrival that brings a burst of two leaves two pending. */
  lemma BurstIgnoresCap() returns (cfg: Config, d: Draws, s': State, ev: SimEvent)
    ensures ValidConfig(cfg) && Possible(cfg, d) && Next(cfg, Init(cfg), d, s', ev)
    ensures cfg.maxPendingOrders == 1 && |s'.symbols| == 1 && PendingOf(s', 0) == 2
  {
    cfg := Config(1, 1.0, 100.0, 0.4, 0.2, 0.0, 0.0, 1, 2, 2, 1);
    var order := AddDraw(0.0, true, 0, 1.0);
    var b := BurstDraw(0, order);
    d := Draws(1_000_000, [b, b], 0.0, order, 0, 1.0);
    var s := Advanced(Init(cfg), d);
    var (s1, evs) := Burst(cfg, s, 0, d);
    BurstGrowsPending(cfg, s, 0, s.now, d.burst);
    BurstIsDrawn(cfg, s, 0, s.now, d.burst);
    BurstTimes(cfg, s, 0, s.now, d.burst);
    assert Sorting(evs, evs);
    s' := s1.(burstQueue := evs, burstPos := 1, now := evs[0].injectNs);
    ev := evs[0];
  }

  lemma {:induction false} BurstTimes(cfg: Config, s: State, sym: nat, start: nat, burst: seq<BurstDraw>)
    requires ValidConfig(cfg) && sym < |s.symbols|
    ensures
      var evs := BurstAdds(cfg, s, sym, start, burst).1;
      forall i | 0 <= i < |burst| :: evs[i].injectNs == start + burst[i].jitter
    decreases |burst|
  {
    if burst != [] { BurstTimes(cfg, s, sym, start, burst[..|burst| - 1]); }
  }
}
