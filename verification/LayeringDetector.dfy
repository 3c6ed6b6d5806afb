/** The layering detector: many large orders on one side of a symbol, close in time. */
module LayeringDetector {
  import opened Basics
  import opened MachineInts
  import opened Circular
  import opened FeedEvents
  import opened SymbolTable

  datatype Config = Config(
    qtyThreshold: uint32,
    windowNs: uint64,
    countThreshold: uint32,
    maxSymbols: uint32)

  const MAX_PER_SIDE: nat := 8

  ghost predicate ValidConfig(cfg: Config) {
    PowerOfTwo(cfg.maxSymbols)
  }

  /** The times kept for each side of one symbol, oldest first. */
  datatype Sides = Sides(bid: seq<uint64>, ask: seq<uint64>) {
    function Of(isBid: bool): seq<uint64> {
      if isBid then bid else ask
    }

    function With(isBid: bool, ts: seq<uint64>): Sides {
      if isBid then this.(bid := ts) else this.(ask := ts)
    }
  }

  const NO_ORDERS := Sides([], [])

  datatype Order = Order(isBid: bool, now: uint64)

  datatype Cluster = Cluster(isBid: bool, orderCount: nat, windowStartNs: uint64)

  // ------------------------------------------------------------ one side, one order

  /** The times still inside the window, in order. */
  function Fresh(cfg: Config, ts: seq<uint64>, now: uint64): (r: seq<uint64>)
    ensures |r| <= |ts|
  {
    if ts == [] then []
    else
      var last := ts[|ts| - 1];
      Fresh(cfg, ts[..|ts| - 1], now) + if Sub64(now, last) <= cfg.windowNs then [last] else []
  }

  /** Each time is kept, as often as it is there, exactly if it is inside the window. */
  lemma {:induction false} FreshKeeps(cfg: Config, ts: seq<uint64>, now: uint64)
    ensures forall t :: multiset(Fresh(cfg, ts, now))[t] ==
                        if Sub64(now, t) <= cfg.windowNs then multiset(ts)[t] else 0
  {
    if ts != [] {
      FreshKeeps(cfg, ts[..|ts| - 1], now);
      assert ts == ts[..|ts| - 1] + [ts[|ts| - 1]];
    }
  }

  /** What the bounded array holds after one more order. */
  function Recorded(cfg: Config, ts: seq<uint64>, now: uint64): (r: seq<uint64>)
    requires |ts| <= MAX_PER_SIDE
    ensures 0 < |r| <= MAX_PER_SIDE
  {
    var kept := Fresh(cfg, ts, now);
    if |kept| < MAX_PER_SIDE then kept + [now] else kept[1..] + [now]
  }

  function SideStep(cfg: Config, ts: seq<uint64>, now: uint64): (r: (seq<uint64>, Option<(nat, uint64)>))
    requires |ts| <= MAX_PER_SIDE
    ensures |r.0| <= MAX_PER_SIDE
  {
    var ts' := Recorded(cfg, ts, now);
    if |ts'| <= cfg.countThreshold then (ts', None) else ([], Some((|ts'|, ts'[0])))
  }

  function Reported(isBid: bool, hit: Option<(nat, uint64)>): Option<Cluster> {
    match hit
    case None => None
    case Some((n, start)) => Some(Cluster(isBid, n, start))
  }

  /** The detector as a machine on one symbol's entry. */
  function EntryStep(cfg: Config, e: Sides, x: Order): (Sides, Option<Cluster>) {
    var ts := e.Of(x.isBid);
    if |ts| > MAX_PER_SIDE then (e, None)  // never the case for a stored entry
    else
      var (ts', hit) := SideStep(cfg, ts, x.now);
      (e.With(x.isBid, ts'), Reported(x.isBid, hit))
  }

  function TheMachine(cfg: Config): Machine<Sides, Order, Option<Cluster>> {
    Machine(NO_ORDERS, _ => NO_ORDERS, (e: Sides, x: Order) => EntryStep(cfg, e, x))
  }

  // ------------------------------------------------------------ the object

  /** A row of the program's table: the times sit in fixed arrays of eight. */
  datatype LayeringEntry = LayeringEntry(
    symbolId: uint16, valid: bool, bidCount: uint8, askCount: uint8,
    bidTimes: seq<uint64>, askTimes: seq<uint64>)
  {
    ghost predicate Sound() {
      && |bidTimes| == MAX_PER_SIDE && |askTimes| == MAX_PER_SIDE
      && bidCount <= MAX_PER_SIDE && askCount <= MAX_PER_SIDE
    }

    function Row(): Row<Sides>
      requires Sound()
    {
      SymbolTable.Row(valid, symbolId, Sides(bidTimes[..bidCount], askTimes[..askCount]))
    }

    function Invalidated(): LayeringEntry {
      this.(valid := false, symbolId := 0, bidCount := 0, askCount := 0)
    }
  }

  const FREE_ENTRY := LayeringEntry(0, false, 0, 0, [0, 0, 0, 0, 0, 0, 0, 0], [0, 0, 0, 0, 0, 0, 0, 0])

  datatype LayeringAlert = LayeringAlert(
    symbolId: uint16, isBid: bool, orderCount: nat, windowStartNs: uint64, triggeredNs: uint64)

  const NO_ALERT := LayeringAlert(0, false, 0, 0, 0)

  /** In-place compaction: keep the times inside the window, in order. */
  method Compact(cfg: Config, times0: seq<uint64>, cnt: nat, now: uint64) returns (times: seq<uint64>, w: nat)
    requires cnt <= |times0|
    ensures |times| == |times0| && w <= cnt && times[..w] == Fresh(cfg, times0[..cnt], now)
    ensures forall t :: multiset(times[..w])[t] ==
                        if Sub64(now, t) <= cfg.windowNs then multiset(times0[..cnt])[t] else 0
  {
    times, w := times0, 0;
    for r := 0 to cnt
      invariant |times| == |times0| && w <= r
      invariant forall j | r <= j < |times| :: times[j] == times0[j]
      invariant times[..w] == Fresh(cfg, times0[..r], now)
    {
      assert times0[..r + 1][..r] == times0[..r];
      if Sub64(now, times[r]) <= cfg.windowNs {
        times := times[w := times[r]];
        w := w + 1;
      }
    }
    FreshKeeps(cfg, times0[..cnt], now);
  }

  /** The rest of the bounded push: append, or shift left and append. */
  method PushTime(times0: seq<uint64>, cnt0: nat, now: uint64) returns (times: seq<uint64>, cnt: nat)
    requires |times0| == MAX_PER_SIDE && cnt0 <= MAX_PER_SIDE
    ensures |times| == MAX_PER_SIDE && 0 < cnt <= MAX_PER_SIDE
    ensures times[..cnt] == if cnt0 < MAX_PER_SIDE then times0[..cnt0] + [now] else times0[1..] + [now]
  {
    times, cnt := times0, cnt0;
    if cnt < MAX_PER_SIDE {
      times := times[cnt := now];
      cnt := cnt + 1;
    } else {
      for i := 0 to MAX_PER_SIDE - 1
        invariant |times| == MAX_PER_SIDE
        invariant forall j | 0 <= j < i :: times[j] == times0[j + 1]
        invariant forall j | i <= j < MAX_PER_SIDE :: times[j] == times0[j]
      {
        times := times[i := times[i + 1]];
      }
      times := times[MAX_PER_SIDE - 1 := now];
    }
  }

  /** Compaction, bounded push, and the reset after an alert. */
  method RecordSide(cfg: Config, times0: seq<uint64>, cnt0: nat, now: uint64)
      returns (times: seq<uint64>, cnt: nat, hit: Option<(nat, uint64)>)
    requires |times0| == MAX_PER_SIDE && cnt0 <= MAX_PER_SIDE
    ensures |times| == MAX_PER_SIDE && cnt <= MAX_PER_SIDE
    ensures (times[..cnt], hit) == SideStep(cfg, times0[..cnt0], now)
  {
    var w: nat;
    times, w := Compact(cfg, times0, cnt0, now);
    ghost var kept := times[..w];
    assert w == MAX_PER_SIDE ==> times[1..] == kept[1..];
    times, cnt := PushTime(times, w, now);
    assert times[..cnt] == Recorded(cfg, times0[..cnt0], now);
    if cnt <= cfg.countThreshold { return times, cnt, None; }
    hit := Some((cnt, times[0]));
    cnt := 0;
  }

  class LayeringDetector {
    const cfg: Config
    const mask: nat
    const table: array<LayeringEntry>
    var alertsFired: nat

    ghost predicate Valid()
      reads this, table
    {
      && ValidConfig(cfg) && mask == cfg.maxSymbols - 1 && table.Length == cfg.maxSymbols
      && forall i | 0 <= i < table.Length :: table[i].Sound()
    }

    ghost function Rows(): (t: seq<Row<Sides>>)
      requires Valid()
      reads this, table
      ensures |t| == table.Length
    {
      seq(table.Length, i requires 0 <= i < table.Length reads this, table requires Valid() => table[i].Row())
    }

    constructor (cfg: Config)
      requires ValidConfig(cfg)
      ensures this.cfg == cfg && Valid() && fresh(table)
      ensures Rows() == EmptyTable(NO_ORDERS, cfg.maxSymbols)
    {
      this.cfg := cfg;
      mask := cfg.maxSymbols - 1;
      table := new LayeringEntry[cfg.maxSymbols](_ => FREE_ENTRY);
      alertsFired := 0;
    }

    method FindOrInsertRow(symbol: uint16) returns (idx: nat)
      requires Valid()
      modifies table
      ensures Valid() && idx < table.Length
      ensures idx == Locate(old(Rows()), symbol, 0)
      ensures Rows() == FindOrInsert(old(Rows()), symbol, TheMachine(cfg).claim)
    {
      ghost var t := Rows();
      idx := And(symbol, mask);
      for i := 0 to table.Length
        invariant Valid() && Rows() == t && Probing(t, symbol, i, idx)
      {
        ProbeStep(t, symbol, i, idx);
        assert t[idx] == table[idx].Row();
        if !table[idx].valid {
          Claim(idx, symbol);
          return;
        }
        if table[idx].symbolId == symbol { return; }
        idx := Advance(idx, mask, cfg.maxSymbols);
      }
      ProbedAll(t, symbol, idx);
      idx := And(symbol, mask);
      Claim(idx, symbol);
    }

    /** A row is given to a symbol, with nothing left of its last owner. */
    method Claim(idx: nat, symbol: uint16)
      requires Valid() && idx < table.Length
      modifies table
      ensures Valid() && Rows() == old(Rows())[idx := Row(true, symbol, NO_ORDERS)]
    {
      ghost var t := Rows();
      table[idx] := table[idx].Invalidated().(symbolId := symbol, valid := true);
      assert Rows() == t[idx := table[idx].Row()];
    }

    /** One order on one row. */
    method RecordOrder(idx: nat, isBid: bool, now: uint64) returns (hit: Option<Cluster>)
      requires Valid() && idx < table.Length
      modifies table
      ensures Valid()
      ensures
        var row := old(Rows())[idx];
        var (e', o) := EntryStep(cfg, row.entry, Order(isBid, now));
        Rows() == old(Rows())[idx := row.(entry := e')] && hit == o
    {
      ghost var t := Rows();
      var entry := table[idx];
      assert t[idx] == entry.Row();
      var times, cnt, side := RecordSide(cfg, if isBid then entry.bidTimes else entry.askTimes,
                                         if isBid then entry.bidCount else entry.askCount, now);
      table[idx] := if isBid then entry.(bidTimes := times, bidCount := cnt)
                    else entry.(askTimes := times, askCount := cnt);
      assert table[idx].Row() == t[idx].(entry := t[idx].entry.With(isBid, times[..cnt]));
      assert Rows() == t[idx := table[idx].Row()];
      hit := Reported(isBid, side);
    }

    method ProcessWithTime(e: Event, now: uint64) returns (fired: bool, out: LayeringAlert)
      requires Valid()
      modifies this`alertsFired, table
      ensures Valid()
      ensures !(e.kind.Add? && e.qty >= cfg.qtyThreshold) ==> !fired && Rows() == old(Rows())
      ensures e.kind.Add? && e.qty >= cfg.qtyThreshold ==>
        var (t', hit) := Step(TheMachine(cfg), old(Rows()), Input(e.symbol, Order(e.isBid, now)));
        && Rows() == t' && (fired <==> hit.Some?)
        && (fired ==>
              out == LayeringAlert(e.symbol, hit.value.isBid, hit.value.orderCount, hit.value.windowStartNs, now))
      ensures alertsFired == old(alertsFired) + if fired then 1 else 0
    {
      out := NO_ALERT;
      if !e.kind.Add? { return false, out; }
      if e.qty < cfg.qtyThreshold { return false, out; }
      var idx := FindOrInsertRow(e.symbol);
      var hit := RecordOrder(idx, e.isBid, now);
      if hit.None? { return false, out; }
      out := LayeringAlert(e.symbol, e.isBid, hit.value.orderCount, hit.value.windowStartNs, now);
      alertsFired := alertsFired + 1;
      return true, out;
    }

    /** The times left in the arrays are dead: the table reads as a new one. */
    method Reset()
      requires Valid()
      modifies this, table
      ensures Valid() && Rows() == EmptyTable(NO_ORDERS, cfg.maxSymbols)
      ensures alertsFired == 0
    {
      for i := 0 to table.Length
        invariant Valid() && forall j | 0 <= j < i :: table[j].Row() == Row(false, 0, NO_ORDERS)
      {
        table[i] := table[i].Invalidated();
      }
      alertsFired := 0;
    }
  }
}
