/** Whole runs of the spoof detector. */
module SpoofRuns {
  import opened Basics
  import opened MachineInts
  import opened FeedEvents
  import opened OrderTable
  import opened SpoofDetector
  import W = Welford

  function Run(cfg: Config, es: seq<Timed>): (s: State)
    requires ValidConfig(cfg)
    ensures |s.table| == cfg.maxTrackedOrders
  {
    if es == [] then InitialState(cfg)
    else
      var last := es[|es| - 1];
      Step(cfg, Run(cfg, es[..|es| - 1]), last.event, last.now)
  }

  // ------------------------------------------------------------ what acts at all

  /** Only Adds of at least the threshold quantity and Cancels do anything. */
  lemma OnlyLargeAddsAndCancelsAct(cfg: Config, s: State, e: Event, now: uint64)
    requires 0 < |s.table|
    ensures !e.kind.Cancel? && !(e.kind.Add? && e.qty >= cfg.qtyThreshold) ==> Step(cfg, s, e, now) == s
  {
  }

  /** A large Add with a real id that is stored already or finds room becomes the
      map's entry for that id, with its price, its size and the clock value. */
  lemma LargeAddIsStored(cfg: Config, s: State, e: Event, now: uint64)
    requires 0 < |s.table| && Chained(s.table) && e.orderId != 0
    requires e.kind.Add? && e.qty >= cfg.qtyThreshold
    requires e.orderId in Contents(s.table) || |Contents(s.table)| < |s.table|
    ensures
      var s' := Step(cfg, s, e, now);
      && Chained(s'.table) && s'.samples == s.samples
      && Contents(s'.table) == Contents(s.table)[e.orderId := PendingOrder(e.orderId, e.price, e.qty, now)]
  {
    AddRefines(s.table, PendingOrder(e.orderId, e.price, e.qty, now));
  }

  /** The large Adds and the Cancels of a run. */
  function Acting(cfg: Config, es: seq<Timed>): seq<Timed> {
    if es == [] then []
    else
      var e := es[|es| - 1].event;
      Acting(cfg, es[..|es| - 1]) +
      if e.kind.Cancel? || (e.kind.Add? && e.qty >= cfg.qtyThreshold) then [es[|es| - 1]] else []
  }

  /** Every run ends as if nothing else had been in the feed. */
  lemma {:induction false} RunIsThatOfActing(cfg: Config, es: seq<Timed>)
    requires ValidConfig(cfg)
    ensures Run(cfg, es) == Run(cfg, Acting(cfg, es))
  {
    if es != [] {
      var init, last := es[..|es| - 1], es[|es| - 1];
      RunIsThatOfActing(cfg, init);
      OnlyLargeAddsAndCancelsAct(cfg, Run(cfg, init), last.event, last.now);
      RunSnoc(cfg, Acting(cfg, init), last);
      assert Acting(cfg, init) + [] == Acting(cfg, init);
    }
  }

  // ------------------------------------------------------------ refinement of a map

  /** What the detector is meant to track: each id's latest large Add, until it
      is cancelled. */
  function Tracked(cfg: Config, es: seq<Timed>): map<uint64, PendingOrder> {
    if es == [] then map[]
    else
      var m, last := Tracked(cfg, es[..|es| - 1]), es[|es| - 1];
      var e := last.event;
      if e.kind.Add? && e.qty >= cfg.qtyThreshold && e.orderId != 0 then
        m[e.orderId := PendingOrder(e.orderId, e.price, e.qty, last.now)]
      else if e.kind.Cancel? then m - {e.orderId}
      else m
  }

  /** The samples that map would give. */
  function TrackedSamples(cfg: Config, es: seq<Timed>): seq<Sample> {
    if es == [] then []
    else
      var before, last := es[..|es| - 1], es[|es| - 1];
      var m := Tracked(cfg, before);
      TrackedSamples(cfg, before) +
      if last.event.kind.Cancel? && last.event.orderId in m
      then [Sample(last.event.orderId, m[last.event.orderId].placedNs, last.now)] else []
  }

  /** The last event of the run loses nothing: no tracked order is stale when a
      Cancel arrives, and an Add of an absent id finds room. */
  predicate Lossless(cfg: Config, m: map<uint64, PendingOrder>, last: Timed) {
    var e := last.event;
    if e.kind.Add? && e.qty >= cfg.qtyThreshold then e.orderId in m || |m| < cfg.maxTrackedOrders
    else e.kind.Cancel? ==> forall id | id in m :: Sub64(last.now, m[id].placedNs) <= cfg.timeWindowNs
  }

  ghost predicate LosslessRun(cfg: Config, es: seq<Timed>) {
    forall k | 0 <= k < |es| :: Lossless(cfg, Tracked(cfg, es[..k]), es[k])
  }

  lemma LosslessPrefix(cfg: Config, es: seq<Timed>)
    requires LosslessRun(cfg, es) && es != []
    ensures LosslessRun(cfg, es[..|es| - 1])
    ensures Lossless(cfg, Tracked(cfg, es[..|es| - 1]), es[|es| - 1])
  {
    var init := es[..|es| - 1];
    forall k | 0 <= k < |init| ensures Lossless(cfg, Tracked(cfg, init[..k]), init[k]) {
      assert es[..k] == init[..k];
    }
  }

  lemma EmptyTableHoldsNothing(n: nat)
    ensures Chained(EmptyTable(n)) && Contents(EmptyTable(n)) == map[]
  {
  }

  /** Eviction of a table whose records are all fresh changes nothing. */
  lemma NothingStale(t: Table, now: uint64, window: uint64)
    requires Chained(t) && forall id | id in Contents(t) :: Sub64(now, Contents(t)[id].placedNs) <= window
    ensures Evict(t, now, window) == t
  {
    forall i | 0 <= i < |t| ensures !Stale(t[i], now, window) {
      if t[i].IsValid() { ContentsAt(t, i); }
    }
  }

  /** One event on a table that refines the map. */
  lemma StepRefines(cfg: Config, s: State, m: map<uint64, PendingOrder>, last: Timed)
    requires ValidConfig(cfg) && |s.table| == cfg.maxTrackedOrders
    requires Chained(s.table) && Contents(s.table) == m && Lossless(cfg, m, last)
    ensures
      var e, s' := last.event, Step(cfg, s, last.event, last.now);
      && Chained(s'.table)
      && Contents(s'.table) ==
           (if e.kind.Add? && e.qty >= cfg.qtyThreshold && e.orderId != 0
            then m[e.orderId := PendingOrder(e.orderId, e.price, e.qty, last.now)]
            else if e.kind.Cancel? then m - {e.orderId} else m)
      && s'.samples == s.samples +
           if e.kind.Cancel? && e.orderId in m then [Sample(e.orderId, m[e.orderId].placedNs, last.now)] else []
  {
    var e := last.event;
    if e.kind.Add? && e.qty >= cfg.qtyThreshold {
      var o := PendingOrder(e.orderId, e.price, e.qty, last.now);
      if e.orderId == 0 { ZeroAddChangesNothing(s.table, o); } else { AddRefines(s.table, o); }
    } else if e.kind.Cancel? {
      NothingStale(s.table, last.now, cfg.timeWindowNs);
      FindIsLookup(s.table, e.orderId);
      RemoveIsMapDeletion(s.table, e.orderId);
    }
  }

  lemma AddRefines(t: Table, o: PendingOrder)
    requires Chained(t) && 0 < |t| && o.IsValid() && (o.orderId in Contents(t) || |Contents(t)| < |t|)
    ensures Chained(Insert(t, o)) && Contents(Insert(t, o)) == Contents(t)[o.orderId := o]
  {
    if o.orderId !in Contents(t) { RoomMeansGap(t); }
    InsertIsMapUpdate(t, o);
  }

  lemma ZeroAddChangesNothing(t: Table, o: PendingOrder)
    requires Chained(t) && 0 < |t| && !o.IsValid() && (o.orderId in Contents(t) || |Contents(t)| < |t|)
    ensures Chained(Insert(t, o)) && Contents(Insert(t, o)) == Contents(t)
  {
    ZeroNeverStored(t);
    RoomMeansGap(t);
    InsertOfZero(t, o);
  }

  lemma ZeroNeverStored(t: Table)
    requires UniqueIds(t)
    ensures 0 !in Contents(t)
  {
    ContentsIn(t, 0);
  }

  /** Over every lossless run the table is the map, and the statistics are fed
      exactly the latencies the map gives. */
  lemma {:induction false} RunRefinesMap(cfg: Config, es: seq<Timed>)
    requires ValidConfig(cfg) && LosslessRun(cfg, es)
    ensures Chained(Run(cfg, es).table)
    ensures Contents(Run(cfg, es).table) == Tracked(cfg, es)
    ensures Run(cfg, es).samples == TrackedSamples(cfg, es)
  {
    if es == [] {
      EmptyTableHoldsNothing(cfg.maxTrackedOrders);
    } else {
      var init := es[..|es| - 1];
      LosslessPrefix(cfg, es);
      RunRefinesMap(cfg, init);
      StepRefines(cfg, Run(cfg, init), Tracked(cfg, init), es[|es| - 1]);
    }
  }

  // ------------------------------------------------------------ with eviction and full-table overwrites

  /** The map step when a Cancel first forgets what is stale, and a full table may
      lose the occupant of one slot; the id 0 is never entered. */
  ghost predicate MapStep(cfg: Config, t: Table, m: map<uint64, PendingOrder>, last: Timed,
                          m': map<uint64, PendingOrder>)
    requires 0 < |t|
  {
    var e := last.event;
    if e.kind.Add? && e.qty >= cfg.qtyThreshold then
      var home := t[e.orderId % |t|].orderId;
      var kept := if e.orderId !in m && IsFull(t) then m - {home} else m;
      m' == if e.orderId == 0 then kept else kept[e.orderId := PendingOrder(e.orderId, e.price, e.qty, last.now)]
    else if e.kind.Cancel? then m' == FreshOnly(m, last.now, cfg.timeWindowNs) - {e.orderId}
    else m' == m
  }

  /** The samples that an event adds, going by the map. */
  function MapSamples(cfg: Config, m: map<uint64, PendingOrder>, last: Timed): seq<Sample> {
    var id := last.event.orderId;
    if last.event.kind.Cancel? && id in FreshOnly(m, last.now, cfg.timeWindowNs)
    then [Sample(id, m[id].placedNs, last.now)] else []
  }

  /** A large Add of id 0 finds room, or a table where nothing probes past slot 0. */
  ghost predicate ZeroHarmless(cfg: Config, t: Table, e: Event) {
    e.kind.Add? && e.qty >= cfg.qtyThreshold && e.orderId == 0 ==> HasGap(t) || NonePassesFirst(t)
  }

  /** The event breaks no chain: neither as an Add of id 0 nor by its eviction. */
  ghost predicate Harmless(cfg: Config, t: Table, last: Timed) {
    && ZeroHarmless(cfg, t, last.event)
    && (last.event.kind.Cancel? ==> EvictionHarmless(t, last.now, cfg.timeWindowNs))
  }

  ghost predicate AllHarmless(cfg: Config, es: seq<Timed>)
    requires ValidConfig(cfg)
  {
    forall k | 0 <= k < |es| :: Harmless(cfg, Run(cfg, es[..k]).table, es[k])
  }

  /** The table as the event's lookup and removal find it. */
  function Swept(cfg: Config, t: Table, last: Timed): Table {
    if last.event.kind.Cancel? then Evict(t, last.now, cfg.timeWindowNs) else t
  }

  /** Chains hold after every eviction and after every event. */
  ghost predicate AlwaysChained(cfg: Config, es: seq<Timed>)
    requires ValidConfig(cfg)
  {
    && (forall n | 0 <= n <= |es| :: Chained(Run(cfg, es[..n]).table))
    && (forall k | 0 <= k < |es| :: Chained(Swept(cfg, Run(cfg, es[..k]).table, es[k])))
  }

  lemma ZeroOnChained(cfg: Config, s: State, last: Timed)
    requires |s.table| > 0 && Chained(s.table) && last.event.orderId == 0
    requires last.event.kind.Add? && last.event.qty >= cfg.qtyThreshold
    ensures
      var t' := Step(cfg, s, last.event, last.now).table;
      && (Chained(t') <==> ZeroHarmless(cfg, s.table, last.event))
      && UniqueIds(t') && MapStep(cfg, s.table, Contents(s.table), last, Contents(t'))
  {
    ZeroNeverStored(s.table);
    InsertOfZero(s.table, PendingOrder(0, last.event.price, last.event.qty, last.now));
  }

  lemma RealIdOnChained(cfg: Config, s: State, last: Timed)
    requires |s.table| > 0 && Chained(s.table) && last.event.orderId != 0
    requires last.event.kind.Add? && last.event.qty >= cfg.qtyThreshold
    requires Home(last.event.orderId, |s.table|) == last.event.orderId % |s.table|
    ensures
      var t' := Step(cfg, s, last.event, last.now).table;
      Chained(t') && MapStep(cfg, s.table, Contents(s.table), last, Contents(t'))
  {
    var e := last.event;
    InsertIsMapUpdate(s.table, PendingOrder(e.orderId, e.price, e.qty, last.now));
  }

  lemma AddOnChained(cfg: Config, s: State, last: Timed)
    requires ValidConfig(cfg) && |s.table| == cfg.maxTrackedOrders && Chained(s.table)
    requires last.event.kind.Add? && last.event.qty >= cfg.qtyThreshold
    ensures
      var t' := Step(cfg, s, last.event, last.now).table;
      && (Chained(t') <==> ZeroHarmless(cfg, s.table, last.event))
      && UniqueIds(t') && MapStep(cfg, s.table, Contents(s.table), last, Contents(t'))
  {
    var e := last.event;
    HomeIsRemainder(e.orderId, |s.table|);
    if e.orderId == 0 { ZeroOnChained(cfg, s, last); } else { RealIdOnChained(cfg, s, last); }
  }

  lemma CancelOnChained(cfg: Config, s: State, last: Timed)
    requires ValidConfig(cfg) && |s.table| == cfg.maxTrackedOrders && Chained(s.table) && last.event.kind.Cancel?
    requires EvictionHarmless(s.table, last.now, cfg.timeWindowNs)
    ensures
      var s' := Step(cfg, s, last.event, last.now);
      && Chained(s'.table) && MapStep(cfg, s.table, Contents(s.table), last, Contents(s'.table))
      && s'.samples == s.samples + MapSamples(cfg, Contents(s.table), last)
  {
    var t := Evict(s.table, last.now, cfg.timeWindowNs);
    EvictionKeepsChainIff(s.table, last.now, cfg.timeWindowNs);
    EvictIsFreshOnly(s.table, last.now, cfg.timeWindowNs);
    FindIsLookup(t, last.event.orderId);
    RemoveIsMapDeletion(t, last.event.orderId);
  }

  /** One event on a chained table: chains hold after its eviction and at its end
      exactly when it is harmless; then the contents take a map step and the
      samples are those of the map. */
  lemma EventOnChained(cfg: Config, s: State, last: Timed)
    requires ValidConfig(cfg) && |s.table| == cfg.maxTrackedOrders && Chained(s.table)
    ensures
      var s' := Step(cfg, s, last.event, last.now);
      && (Chained(Swept(cfg, s.table, last)) && Chained(s'.table) <==> Harmless(cfg, s.table, last))
      && (Harmless(cfg, s.table, last) ==>
            && MapStep(cfg, s.table, Contents(s.table), last, Contents(s'.table))
            && s'.samples == s.samples + MapSamples(cfg, Contents(s.table), last))
  {
    if last.event.kind.Add? && last.event.qty >= cfg.qtyThreshold {
      AddOnChained(cfg, s, last);
    } else if last.event.kind.Cancel? {
      EvictionKeepsChainIff(s.table, last.now, cfg.timeWindowNs);
      if Harmless(cfg, s.table, last) { CancelOnChained(cfg, s, last); }
    }
  }

  lemma StepOfRun(cfg: Config, es: seq<Timed>, k: nat)
    requires ValidConfig(cfg) && k < |es|
    ensures Run(cfg, es[..k + 1]) == Step(cfg, Run(cfg, es[..k]), es[k].event, es[k].now)
  {
    assert es[..k + 1][..k] == es[..k];
  }

  lemma {:induction false} HarmlessKeepsChains(cfg: Config, es: seq<Timed>, n: nat)
    requires ValidConfig(cfg) && AllHarmless(cfg, es) && n <= |es|
    ensures Chained(Run(cfg, es[..n]).table)
  {
    if n == 0 {
      EmptyTableHoldsNothing(cfg.maxTrackedOrders);
    } else {
      HarmlessKeepsChains(cfg, es, n - 1);
      StepOfRun(cfg, es, n - 1);
      EventOnChained(cfg, Run(cfg, es[..n - 1]), es[n - 1]);
    }
  }

  /** For every run: chains hold throughout, after each eviction and each event, if
      and only if no eviction blanks a record on a survivor's path and no large Add
      of id 0 meets a full table where a record probes past slot 0. */
  lemma ChainsHoldIffHarmless(cfg: Config, es: seq<Timed>)
    requires ValidConfig(cfg)
    ensures AlwaysChained(cfg, es) <==> AllHarmless(cfg, es)
  {
    if AllHarmless(cfg, es) {
      forall n | 0 <= n <= |es| ensures Chained(Run(cfg, es[..n]).table) {
        HarmlessKeepsChains(cfg, es, n);
      }
      forall k | 0 <= k < |es| ensures Chained(Swept(cfg, Run(cfg, es[..k]).table, es[k])) {
        EventOnChained(cfg, Run(cfg, es[..k]), es[k]);
      }
    }
    if AlwaysChained(cfg, es) {
      forall k | 0 <= k < |es| ensures Harmless(cfg, Run(cfg, es[..k]).table, es[k]) {
        StepOfRun(cfg, es, k);
        EventOnChained(cfg, Run(cfg, es[..k]), es[k]);
      }
    }
  }

  /** In such a run every event is a map step, a Cancel forgetting first what is
      stale, and each Cancel records exactly the sample the map gives; the only
      other loss is the occupant of the home slot of a new id on a full table. */
  lemma RunIsMapSteps(cfg: Config, es: seq<Timed>, k: nat)
    requires ValidConfig(cfg) && AllHarmless(cfg, es) && k < |es|
    ensures
      var s, s' := Run(cfg, es[..k]), Run(cfg, es[..k + 1]);
      && Chained(s.table) && Chained(s'.table)
      && MapStep(cfg, s.table, Contents(s.table), es[k], Contents(s'.table))
      && s'.samples == s.samples + MapSamples(cfg, Contents(s.table), es[k])
  {
    HarmlessKeepsChains(cfg, es, k);
    HarmlessKeepsChains(cfg, es, k + 1);
    StepOfRun(cfg, es, k);
    EventOnChained(cfg, Run(cfg, es[..k]), es[k]);
  }

  /** What the detector is documented to remember after one more event: each id's
      latest large Add, until it is cancelled or found too old at some Cancel. */
  function Recalled(cfg: Config, m: map<uint64, PendingOrder>, last: Timed): map<uint64, PendingOrder> {
    var e := last.event;
    if e.kind.Add? && e.qty >= cfg.qtyThreshold then
      if e.orderId == 0 then m else m[e.orderId := PendingOrder(e.orderId, e.price, e.qty, last.now)]
    else if e.kind.Cancel? then FreshOnly(m, last.now, cfg.timeWindowNs) - {e.orderId}
    else m
  }

  function Remembered(cfg: Config, es: seq<Timed>): map<uint64, PendingOrder> {
    if es == [] then map[] else Recalled(cfg, Remembered(cfg, es[..|es| - 1]), es[|es| - 1])
  }

  function RememberedSamples(cfg: Config, es: seq<Timed>): seq<Sample> {
    if es == [] then []
    else
      RememberedSamples(cfg, es[..|es| - 1]) + MapSamples(cfg, Remembered(cfg, es[..|es| - 1]), es[|es| - 1])
  }

  /** An Add of an id not remembered finds fewer orders remembered than slots. */
  ghost predicate Roomy(cfg: Config, es: seq<Timed>) {
    forall k | 0 <= k < |es| && es[k].event.kind.Add? && es[k].event.qty >= cfg.qtyThreshold ::
      es[k].event.orderId in Remembered(cfg, es[..k]) || |Remembered(cfg, es[..k])| < cfg.maxTrackedOrders
  }

  lemma RoomyStep(cfg: Config, t: Table, last: Timed, m': map<uint64, PendingOrder>)
    requires UniqueIds(t) && 0 < |t| && MapStep(cfg, t, Contents(t), last, m')
    requires last.event.kind.Add? && last.event.qty >= cfg.qtyThreshold ==>
      last.event.orderId in Contents(t) || |Contents(t)| < |t|
    ensures m' == Recalled(cfg, Contents(t), last)
  {
    if last.event.kind.Add? && last.event.orderId !in Contents(t) && |Contents(t)| < |t| { RoomMeansGap(t); }
  }

  lemma RememberedSnoc(cfg: Config, es: seq<Timed>, k: nat)
    requires k < |es|
    ensures Remembered(cfg, es[..k + 1]) == Recalled(cfg, Remembered(cfg, es[..k]), es[k])
    ensures RememberedSamples(cfg, es[..k + 1]) ==
            RememberedSamples(cfg, es[..k]) + MapSamples(cfg, Remembered(cfg, es[..k]), es[k])
  {
    assert es[..k + 1][..k] == es[..k];
  }

  /** Over every harmless run with room, evicting or not, the table is that map and
      the statistics are fed exactly its latencies. */
  lemma {:induction false} RunRefinesWindowMap(cfg: Config, es: seq<Timed>, n: nat)
    requires ValidConfig(cfg) && AllHarmless(cfg, es) && Roomy(cfg, es) && n <= |es|
    ensures
      var s := Run(cfg, es[..n]);
      && Chained(s.table) && Contents(s.table) == Remembered(cfg, es[..n])
      && s.samples == RememberedSamples(cfg, es[..n])
  {
    if n == 0 {
      EmptyTableHoldsNothing(cfg.maxTrackedOrders);
    } else {
      var k := n - 1;
      RunRefinesWindowMap(cfg, es, k);
      RunIsMapSteps(cfg, es, k);
      RoomyStep(cfg, Run(cfg, es[..k]).table, es[k], Contents(Run(cfg, es[..n]).table));
      RememberedSnoc(cfg, es, k);
    }
  }

  /** `h` are the latencies of the samples: from placing to cancelling. */
  ghost predicate AreLatencies(h: seq<real>, xs: seq<Sample>) {
    |h| == |xs| && forall i | 0 <= i < |xs| :: h[i] == Sub64(xs[i].cancelledNs, xs[i].placedNs) as real
  }

  /** An alert, from the order remembered and all latencies, the new one included:
      `sd` is any standard deviation of them. */
  ghost predicate AlertIsExact(cfg: Config, s: State, last: Timed, o: PendingOrder, h: seq<real>, sd: real)
    requires 0 < |s.table| && h != []
  {
    var latency := Sub64(last.now, o.placedNs) as real;
    var mean := W.Sum(h) / |h| as real;
    var variance := W.SquaredDeviations(h, mean) / |h| as real;
    && (Fires(cfg, s, last.event, last.now) ==>
          && |h| >= 2 && variance > 0.0
          && Taken(cfg, s, last.event, last.now).Some?
          && AlertOf(cfg, s, last.event, last.now) ==
             SpoofAlert(o.orderId, o.price, o.qty, o.placedNs, last.now, latency - mean, variance))
    && (|h| >= 2 && sd > 0.0 && sd * sd == variance ==>
          (Fires(cfg, s, last.event, last.now) <==> (latency - mean) / sd < cfg.zThreshold))
  }

  lemma TakenAlerts(cfg: Config, s: State, last: Timed, o: PendingOrder, h: seq<real>, sd: real)
    requires 0 < |s.table| && Taken(cfg, s, last.event, last.now) == Some(o) && o.orderId == last.event.orderId
    requires h != [] && AreLatencies(h, Step(cfg, s, last.event, last.now).samples)
    ensures AlertIsExact(cfg, s, last, o, h, sd)
  {
    assert h == Latencies(Step(cfg, s, last.event, last.now).samples);
    var mean := W.Mean(h);
    var variance := W.SquaredDeviations(h, mean) / |h| as real;
    if sd > 0.0 && sd * sd == variance {
      W.ZBelowIsQuotient(Sub64(last.now, o.placedNs) as real - mean, variance, sd, cfg.zThreshold);
      assert variance > 0.0 by { var p := W.Product(sd, sd); }
    }
  }

  /** Which record a Cancel takes on a chained table that its eviction does not harm. */
  lemma TakenIsRemembered(cfg: Config, s: State, last: Timed)
    requires 0 < |s.table| && Chained(s.table) && last.event.kind.Cancel?
    requires EvictionHarmless(s.table, last.now, cfg.timeWindowNs)
    ensures
      var m, id := Contents(s.table), last.event.orderId;
      Taken(cfg, s, last.event, last.now) ==
      if id in m && Sub64(last.now, m[id].placedNs) <= cfg.timeWindowNs then Some(m[id]) else None
  {
    EvictionKeepsChainIff(s.table, last.now, cfg.timeWindowNs);
    EvictIsFreshOnly(s.table, last.now, cfg.timeWindowNs);
    FindIsLookup(Evict(s.table, last.now, cfg.timeWindowNs), last.event.orderId);
  }

  lemma RememberedIds(cfg: Config, es: seq<Timed>, n: nat)
    requires ValidConfig(cfg) && AllHarmless(cfg, es) && Roomy(cfg, es) && n <= |es|
    ensures forall id | id in Remembered(cfg, es[..n]) :: Remembered(cfg, es[..n])[id].orderId == id
  {
    RunRefinesWindowMap(cfg, es, n);
    var t := Run(cfg, es[..n]).table;
    forall id | id in Contents(t) ensures Contents(t)[id].orderId == id { ContentsIn(t, id); }
  }

  /** Alerts over every harmless run with room: a last event raises one only if it is
      a Cancel of an order remembered and not older than the window; the alert then
      names that order, and it is raised if and only if there are two latencies or
      more, they are not all equal, and the new one lies the given number of standard
      deviations from the mean of all of them, itself included. */
  lemma AlertsAreExact(cfg: Config, es: seq<Timed>, last: Timed, h: seq<real>, sd: real)
    requires ValidConfig(cfg) && AllHarmless(cfg, es + [last]) && Roomy(cfg, es + [last])
    requires AreLatencies(h, RememberedSamples(cfg, es + [last]))
    ensures
      var s, m, id := Run(cfg, es), Remembered(cfg, es), last.event.orderId;
      if last.event.kind.Cancel? && id in m && Sub64(last.now, m[id].placedNs) <= cfg.timeWindowNs
      then h != [] && AlertIsExact(cfg, s, last, m[id], h, sd)
      else !Fires(cfg, s, last.event, last.now)
  {
    var all, s, m, id := es + [last], Run(cfg, es), Remembered(cfg, es), last.event.orderId;
    assert all[..|es|] == es && all[..|all|] == all;
    RunRefinesWindowMap(cfg, all, |es|);
    RunRefinesWindowMap(cfg, all, |all|);
    RememberedIds(cfg, all, |es|);
    RunSnoc(cfg, es, last);
    if last.event.kind.Cancel? {
      assert Harmless(cfg, Run(cfg, all[..|es|]).table, all[|es|]);
      TakenIsRemembered(cfg, s, last);
      LastLatency(cfg, s, last.event, last.now);
      if id in m && Sub64(last.now, m[id].placedNs) <= cfg.timeWindowNs { TakenAlerts(cfg, s, last, m[id], h, sd); }
    }
  }

  /** No tracked order is stale at a Cancel. */
  ghost predicate NothingEvicted(cfg: Config, es: seq<Timed>)
    requires ValidConfig(cfg)
  {
    forall k | 0 <= k < |es| && es[k].event.kind.Cancel? ::
      Evict(Run(cfg, es[..k]).table, es[k].now, cfg.timeWindowNs) == Run(cfg, es[..k]).table
  }

  lemma EvictingNothingIsHarmless(t: Table, now: uint64, window: uint64)
    requires Evict(t, now, window) == t
    ensures EvictionHarmless(t, now, window)
  {
    forall j | 0 <= j < |t| ensures !Stale(t[j], now, window) {
      assert Evict(t, now, window)[j] == t[j];
    }
  }

  /** In particular, while eviction removes nothing, only an Add of id 0 can break a chain. */
  lemma ChainsHoldIffZerosHarmless(cfg: Config, es: seq<Timed>)
    requires ValidConfig(cfg) && NothingEvicted(cfg, es)
    ensures AlwaysChained(cfg, es) <==>
            forall k | 0 <= k < |es| :: ZeroHarmless(cfg, Run(cfg, es[..k]).table, es[k].event)
  {
    ChainsHoldIffHarmless(cfg, es);
    forall k | 0 <= k < |es| && es[k].event.kind.Cancel?
      ensures EvictionHarmless(Run(cfg, es[..k]).table, es[k].now, cfg.timeWindowNs)
    {
      EvictingNothingIsHarmless(Run(cfg, es[..k]).table, es[k].now, cfg.timeWindowNs);
    }
  }

  /** From any state, chains broken or not: a Cancel finds the fresh record of its id
      in slot `i`, and records its latency, exactly when every slot on the record's
      probe path holds another order that the eviction spares. */
  lemma CancelSeesOrderIff(cfg: Config, s: State, last: Timed, i: nat)
    requires last.event.kind.Cancel? && i < |s.table| && s.table[i].IsValid()
    requires s.table[i].orderId == last.event.orderId && Sub64(last.now, s.table[i].placedNs) <= cfg.timeWindowNs
    ensures Find(Evict(s.table, last.now, cfg.timeWindowNs), last.event.orderId) == Some(i) <==>
            forall j | 0 <= j < |s.table| && OnPath(s.table, i, j) ::
              s.table[j].IsValid() && Sub64(last.now, s.table[j].placedNs) <= cfg.timeWindowNs
              && s.table[j].orderId != last.event.orderId
    ensures Find(Evict(s.table, last.now, cfg.timeWindowNs), last.event.orderId) == Some(i) ==>
            Step(cfg, s, last.event, last.now).samples ==
            s.samples + [Sample(last.event.orderId, s.table[i].placedNs, last.now)]
  {
    FoundAfterEviction(s.table, last.now, cfg.timeWindowNs, i);
    FindSound(Evict(s.table, last.now, cfg.timeWindowNs), last.event.orderId);
  }

  // ------------------------------------------------------------ facts of every run

  /** A record is the trace of some large Add. */
  ghost predicate FromAdd(cfg: Config, es: seq<Timed>, o: PendingOrder, j: nat) {
    && j < |es|
    && var e := es[j].event;
    e.kind.Add? && e.qty >= cfg.qtyThreshold && o == PendingOrder(e.orderId, e.price, e.qty, es[j].now)
  }

  /** A sample pairs a Cancel with an earlier large Add of the same id, not older than the window. */
  ghost predicate FromPair(cfg: Config, es: seq<Timed>, x: Sample, j: nat, k: nat) {
    && j < k < |es|
    && es[j].event.kind.Add? && es[j].event.qty >= cfg.qtyThreshold && es[k].event.kind.Cancel?
    && es[j].event.orderId == es[k].event.orderId == x.orderId
    && es[j].now == x.placedNs && es[k].now == x.cancelledNs
    && x.Latency() == Sub64(es[k].now, es[j].now) <= cfg.timeWindowNs
  }

  lemma {:induction false} RecordsComeFromAdds(cfg: Config, es: seq<Timed>)
    requires ValidConfig(cfg)
    ensures forall o | o in Records(Run(cfg, es).table) :: exists j :: FromAdd(cfg, es, o, j)
  {
    if es != [] {
      var init, last := es[..|es| - 1], es[|es| - 1];
      var t := Run(cfg, init).table;
      RecordsComeFromAdds(cfg, init);
      StepRecords(cfg, Run(cfg, init), last);
      forall o | o in Records(Run(cfg, es).table) ensures exists j :: FromAdd(cfg, es, o, j) {
        if o in Records(t) {
          var j :| FromAdd(cfg, init, o, j);
          assert FromAdd(cfg, es, o, j);
        } else {
          assert FromAdd(cfg, es, o, |init|);
        }
      }
    } else {
      assert Records(Run(cfg, es).table) == {};
    }
  }

  lemma StepRecords(cfg: Config, s: State, last: Timed)
    requires 0 < |s.table|
    ensures
      var e := last.event;
      Records(Step(cfg, s, e, last.now).table) <=
      Records(s.table) + if e.kind.Add? && e.qty >= cfg.qtyThreshold
                         then {PendingOrder(e.orderId, e.price, e.qty, last.now)} else {}
  {
    var e := last.event;
    if e.kind.Add? && e.qty >= cfg.qtyThreshold {
      InsertAddsOnly(s.table, PendingOrder(e.orderId, e.price, e.qty, last.now));
    } else if e.kind.Cancel? {
      EvictKeepsFresh(s.table, last.now, cfg.timeWindowNs);
      RemoveInventsNothing(Evict(s.table, last.now, cfg.timeWindowNs), e.orderId);
    }
  }

  /** In every run, whatever eviction did to the chains, each latency fed to the
      statistics belongs to an Add and a later Cancel of one id, within the window. */
  lemma {:induction false} SamplesAreRealPairs(cfg: Config, es: seq<Timed>)
    requires ValidConfig(cfg)
    ensures forall x | x in Run(cfg, es).samples :: exists j, k :: FromPair(cfg, es, x, j, k)
  {
    if es != [] {
      var init, last := es[..|es| - 1], es[|es| - 1];
      var s := Run(cfg, init);
      SamplesAreRealPairs(cfg, init);
      RecordsComeFromAdds(cfg, init);
      forall x | x in Run(cfg, es).samples ensures exists j, k :: FromPair(cfg, es, x, j, k) {
        if x in s.samples {
          var j, k :| FromPair(cfg, init, x, j, k);
          assert FromPair(cfg, es, x, j, k);
        } else {
          var o := TakenIsFresh(cfg, s, last);
          assert x == Sample(o.orderId, o.placedNs, last.now);
          var j :| FromAdd(cfg, init, o, j);
          assert FromPair(cfg, es, x, j, |init|);
        }
      }
    }
  }

  lemma TakenIsFresh(cfg: Config, s: State, last: Timed) returns (o: PendingOrder)
    requires 0 < |s.table| && Step(cfg, s, last.event, last.now).samples != s.samples
    ensures last.event.kind.Cancel? && o.orderId == last.event.orderId
    ensures o in Records(s.table) && Sub64(last.now, o.placedNs) <= cfg.timeWindowNs
    ensures Step(cfg, s, last.event, last.now).samples == s.samples + [Sample(o.orderId, o.placedNs, last.now)]
  {
    var t := Evict(s.table, last.now, cfg.timeWindowNs);
    FindSound(t, last.event.orderId);
    var i := Find(t, last.event.orderId).value;
    EvictKeepsFresh(s.table, last.now, cfg.timeWindowNs);
    assert t[i] in Records(t);
    o := t[i];
  }

  /** Hence the running mean never leaves [0, window]. */
  lemma MeanWithinWindow(cfg: Config, es: seq<Timed>)
    requires ValidConfig(cfg)
    ensures 0.0 <= W.Fold(Latencies(Run(cfg, es).samples)).mean <= cfg.timeWindowNs as real
  {
    var h := Latencies(Run(cfg, es).samples);
    LatenciesInWindow(cfg, es);
    if h != [] { W.FoldMeanInRange(h, 0.0, cfg.timeWindowNs as real); }
  }

  lemma LatenciesInWindow(cfg: Config, es: seq<Timed>)
    requires ValidConfig(cfg)
    ensures forall i | 0 <= i < |Latencies(Run(cfg, es).samples)| ::
      0.0 <= Latencies(Run(cfg, es).samples)[i] <= cfg.timeWindowNs as real
  {
    var xs := Run(cfg, es).samples;
    SamplesAreRealPairs(cfg, es);
    forall i | 0 <= i < |xs| ensures 0.0 <= xs[i].Latency() as real <= cfg.timeWindowNs as real {
      assert xs[i] in xs;
      var j, k :| FromPair(cfg, es, xs[i], j, k);
    }
  }

  lemma FiringNeedsSamples(cfg: Config, s: State, last: Timed)
    requires 0 < |s.table| && cfg.zThreshold <= 0.0 && Fires(cfg, s, last.event, last.now)
    ensures |Step(cfg, s, last.event, last.now).samples| as real > 1.0 + cfg.zThreshold * cfg.zThreshold
  {
    LastLatency(cfg, s, last.event, last.now);
    var h, g := Latencies(s.samples), Latencies(Step(cfg, s, last.event, last.now).samples);
    var x := Sub64(last.now, Taken(cfg, s, last.event, last.now).value.placedNs) as real;
    assert g == h + [x] && |g| == |Step(cfg, s, last.event, last.now).samples|;
    W.OutlierNeedsSamples(h, x, cfg.zThreshold);
  }

  /** With a threshold t <= 0, no run raises an alert before it has fed more than
      1 + t^2 latencies to the statistics. */
  lemma AlertsNeedHistory(cfg: Config, es: seq<Timed>, last: Timed)
    requires ValidConfig(cfg) && cfg.zThreshold <= 0.0
    requires Fires(cfg, Run(cfg, es), last.event, last.now)
    ensures |Run(cfg, es + [last]).samples| as real > 1.0 + cfg.zThreshold * cfg.zThreshold
  {
    assert (es + [last])[..|es + [last]| - 1] == es;
    FiringNeedsSamples(cfg, Run(cfg, es), last);
  }

  /** With the default threshold of -2, not before the sixth tracked cancel. */
  lemma DefaultNeedsSixCancels(cfg: Config, es: seq<Timed>, last: Timed)
    requires ValidConfig(cfg) && cfg.zThreshold == -2.0
    requires Fires(cfg, Run(cfg, es), last.event, last.now)
    ensures |Run(cfg, es + [last]).samples| >= 6
  {
    AlertsNeedHistory(cfg, es, last);
  }

  // ------------------------------------------------------------ the bound is sharp

  function Placed(cfg: Config, t: uint64): Timed {
    Timed(Event(Add, true, 1, 1.0, cfg.qtyThreshold, 0), t)
  }

  function Cancelled(cfg: Config, t: uint64): Timed {
    Timed(Event(Cancel, true, 1, 1.0, cfg.qtyThreshold, 0), t)
  }

  lemma RunSnoc(cfg: Config, es: seq<Timed>, e: Timed)
    requires ValidConfig(cfg)
    ensures Run(cfg, es + [e]) == Step(cfg, Run(cfg, es), e.event, e.now)
  {
    assert (es + [e])[..|es + [e]| - 1] == es;
  }

  ghost predicate NothingTracked(cfg: Config, s: State) {
    |s.table| == cfg.maxTrackedOrders && Chained(s.table) && Contents(s.table) == map[]
  }

  /** One order placed and cancelled leaves one sample and nothing tracked. */
  lemma OneRound(cfg: Config, s: State, t: uint64, t': uint64)
    requires ValidConfig(cfg) && NothingTracked(cfg, s) && t <= t' && t' - t <= cfg.timeWindowNs
    ensures
      var s1 := Step(cfg, s, Placed(cfg, t).event, t);
      var s2 := Step(cfg, s1, Cancelled(cfg, t').event, t');
      && Taken(cfg, s1, Cancelled(cfg, t').event, t') == Some(PendingOrder(1, 1.0, cfg.qtyThreshold, t))
      && NothingTracked(cfg, s2) && s2.samples == s.samples + [Sample(1, t, t')]
  {
    var add, cancel := Placed(cfg, t), Cancelled(cfg, t');
    var s1 := Step(cfg, s, add.event, t);
    StepRefines(cfg, s, map[], add);
    StepRefines(cfg, s1, Contents(s1.table), cancel);
    NothingStale(s1.table, t', cfg.timeWindowNs);
    FindIsLookup(s1.table, 1);
    assert Contents(s1.table) - {1} == map[];
  }

  lemma FoldSample(xs: seq<Sample>, x: Sample)
    ensures W.Fold(Latencies(xs + [x])) == W.Updated(W.Fold(Latencies(xs)), x.Latency() as real)
  {
    W.FoldSnoc(Latencies(xs), x.Latency() as real);
    assert Latencies(xs + [x]) == Latencies(xs) + [x.Latency() as real];
  }

  /** `n` samples of 10 ns recorded, and no order tracked. */
  ghost predicate Quiet(cfg: Config, s: State, n: nat) {
    NothingTracked(cfg, s) && W.Fold(Latencies(s.samples)) == W.Stats(n, if n == 0 then 0.0 else 10.0, 0.0)
  }

  lemma QuietRound(cfg: Config, s: State, n: nat, t: uint64, s1: State, s2: State)
    requires ValidConfig(cfg) && cfg.timeWindowNs >= 10 && Quiet(cfg, s, n) && t + 10 < TWO_64
    requires s1 == Step(cfg, s, Placed(cfg, t).event, t)
    requires s2 == Step(cfg, s1, Cancelled(cfg, t + 10).event, t + 10)
    ensures Quiet(cfg, s2, n + 1)
  {
    OneRound(cfg, s, t, t + 10);
    FoldSample(s.samples, Sample(1, t, t + 10));
    SameAgain(n);
  }

  lemma SameAgain(n: nat)
    ensures W.Updated(W.Stats(n, if n == 0 then 0.0 else 10.0, 0.0), 10.0) == W.Stats(n + 1, 10.0, 0.0)
  {
  }

  lemma QuietAtStart(cfg: Config)
    requires ValidConfig(cfg)
    ensures Quiet(cfg, Run(cfg, []), 0)
  {
    EmptyTableHoldsNothing(cfg.maxTrackedOrders);
  }

  lemma QuietAfter(cfg: Config, es: seq<Timed>, n: nat, t: uint64)
    requires ValidConfig(cfg) && cfg.timeWindowNs >= 10 && t + 10 < TWO_64
    requires Quiet(cfg, Run(cfg, es), n)
    ensures Quiet(cfg, Run(cfg, es + [Placed(cfg, t)] + [Cancelled(cfg, t + 10)]), n + 1)
  {
    var es1 := es + [Placed(cfg, t)];
    var es2 := es1 + [Cancelled(cfg, t + 10)];
    var s1, s2 := Run(cfg, es1), Run(cfg, es2);
    assert s1 == Step(cfg, Run(cfg, es), Placed(cfg, t).event, t) by { RunSnoc(cfg, es, Placed(cfg, t)); }
    assert s2 == Step(cfg, s1, Cancelled(cfg, t + 10).event, t + 10) by { RunSnoc(cfg, es1, Cancelled(cfg, t + 10)); }
    QuietRound(cfg, Run(cfg, es), n, t, s1, s2);
  }

  /** `n` rounds: one large order each time, cancelled after 10 ns. */
  lemma {:induction false} Rounds(cfg: Config, n: nat) returns (es: seq<Timed>)
    requires ValidConfig(cfg) && n <= 5 && cfg.timeWindowNs >= 10
    ensures Quiet(cfg, Run(cfg, es), n)
  {
    if n == 0 {
      es := [];
      QuietAtStart(cfg);
    } else {
      var before := Rounds(cfg, n - 1);
      QuietAfter(cfg, before, n - 1, 20 * n);
      es := before + [Placed(cfg, 20 * n)] + [Cancelled(cfg, 20 * n + 10)];
    }
  }

  /** After five such rounds an order cancelled at once is an outlier. */
  lemma QuickCancelFires(cfg: Config, s: State, t: uint64)
    requires ValidConfig(cfg) && cfg.zThreshold == -2.0 && Quiet(cfg, s, 5)
    ensures
      var s1 := Step(cfg, s, Placed(cfg, t).event, t);
      Fires(cfg, s1, Cancelled(cfg, t).event, t) && |Step(cfg, s1, Cancelled(cfg, t).event, t).samples| == 6
  {
    var xs := s.samples + [Sample(1, t, t)];
    OneRound(cfg, s, t, t);
    FoldSample(s.samples, Sample(1, t, t));
    W.FoldM2NonNegative(Latencies(s.samples));
    W.FoldIsTwoPass(Latencies(xs));
    ZeroAfterFive();
  }

  /** With the default threshold the sixth tracked cancel can raise an alert: five
      orders cancelled after 10 ns, then one cancelled at once. */
  lemma SixthCancelCanFire(cfg: Config) returns (es: seq<Timed>, last: Timed)
    requires ValidConfig(cfg) && cfg.zThreshold == -2.0 && cfg.timeWindowNs >= 10
    ensures Fires(cfg, Run(cfg, es), last.event, last.now)
    ensures |Run(cfg, es + [last]).samples| == 6
  {
    var before := Rounds(cfg, 5);
    es, last := before + [Placed(cfg, 120)], Cancelled(cfg, 120);
    RunSnoc(cfg, before, Placed(cfg, 120));
    RunSnoc(cfg, es, last);
    QuickCancelFires(cfg, Run(cfg, before), 120);
  }

  lemma ZeroAfterFive()
    ensures Outlier(W.Updated(W.Stats(5, 10.0, 0.0), 0.0), 0.0, -2.0)
  {
    var u := W.Updated(W.Stats(5, 10.0, 0.0), 0.0);
    assert u.mean == 25.0 / 3.0 && u.m2 == 250.0 / 3.0;
    assert u.Variance() == 125.0 / 9.0;
  }

  // ------------------------------------------------------------ two cautionary runs

  function AddAt(id: uint64, t: uint64): Timed {
    Timed(Event(Add, true, id, 1.0, 1000, 0), t)
  }

  /** The record it leaves. */
  function AddedAt(id: uint64, t: uint64): PendingOrder {
    PendingOrder(id, 1.0, 1000, t)
  }

  function CancelAt(id: uint64, t: uint64): Timed {
    Timed(Event(Cancel, true, id, 1.0, 1000, 0), t)
  }

  ghost predicate TwoSlots(cfg: Config) {
    cfg.maxTrackedOrders == 2 && cfg.rollingWindowSize > 0 && cfg.qtyThreshold <= 1000
  }

  /** Two orders of one home slot fill a table of two. */
  lemma TwoAdds(cfg: Config, t: uint64)
    requires TwoSlots(cfg)
    ensures ValidConfig(cfg)
    ensures
      var s := Run(cfg, [AddAt(2, 0), AddAt(4, t)]);
      s.table == [AddedAt(2, 0), AddedAt(4, t)] && s.samples == []
  {
    assert And(2, 1) == 0 && Home(2, 2) == 0 && Home(4, 2) == 0;
    var e1, e2 := [AddAt(2, 0)], [AddAt(2, 0), AddAt(4, t)];
    assert e1[..0] == [] && e2[..1] == e1;
    var t0, t1 := EmptyTable(2), Run(cfg, e1).table;
    assert t0 == [EMPTY_SLOT, EMPTY_SLOT] && Run(cfg, []) == InitialState(cfg);
    assert Scan(t0, 2, 0) == Gap(0);
    assert t1 == [AddedAt(2, 0), EMPTY_SLOT];
    assert Scan(t1, 4, 1) == Gap(1) && Scan(t1, 4, 0) == Gap(1);
  }

  /** An Add of id 0 into a full table hides an order that is still stored, and a
      cancel of that order goes unseen. */
  lemma ZeroIdHidesOrder(cfg: Config)
    requires TwoSlots(cfg)
    ensures ValidConfig(cfg)
    ensures
      var s := Run(cfg, [AddAt(2, 0), AddAt(4, 0), AddAt(0, 0)]);
      AddedAt(4, 0) in Records(s.table) && Find(s.table, 4) == None
  {
    TwoAdds(cfg, 0);
    var e2, e3 := [AddAt(2, 0), AddAt(4, 0)], [AddAt(2, 0), AddAt(4, 0), AddAt(0, 0)];
    assert e3[..2] == e2;
    assert Home(4, 2) == 0 && Home(0, 2) == 0;
    var t2, t3 := Run(cfg, e2).table, Run(cfg, e3).table;
    assert Scan(t2, 0, 2) == Exhausted && Scan(t2, 0, 1) == Exhausted && Scan(t2, 0, 0) == Exhausted;
    assert t3 == [AddedAt(0, 0), AddedAt(4, 0)];
    assert t3[1] == AddedAt(4, 0);
  }

  lemma TwoTracked(cfg: Config, t: uint64)
    requires TwoSlots(cfg)
    ensures
      var es := [AddAt(2, 0), AddAt(4, t)];
      && Tracked(cfg, es) == map[2 := AddedAt(2, 0), 4 := AddedAt(4, t)]
      && TrackedSamples(cfg, es) == []
  {
    var e1, e2 := [AddAt(2, 0)], [AddAt(2, 0), AddAt(4, t)];
    assert e1[..0] == [] && e2[..1] == e1;
    assert Tracked(cfg, e1) == map[2 := AddedAt(2, 0)];
    assert TrackedSamples(cfg, e1) == [];
  }

  /** A Cancel first evicts, and that alone can hide the order it names: here one
      placed 100 ns ago is stored and fresh, yet no latency is recorded for it. */
  lemma EvictionHidesOrder(cfg: Config)
    requires TwoSlots(cfg) && cfg.timeWindowNs == 500
    ensures ValidConfig(cfg)
    ensures
      var es := [AddAt(2, 0), AddAt(4, 900), CancelAt(4, 1000)];
      && TrackedSamples(cfg, es) == [Sample(4, 900, 1000)]
      && Run(cfg, es).samples == [] && AddedAt(4, 900) in Records(Run(cfg, es).table)
  {
    var e2, e3 := [AddAt(2, 0), AddAt(4, 900)], [AddAt(2, 0), AddAt(4, 900), CancelAt(4, 1000)];
    assert e3[..2] == e2;
    TwoAdds(cfg, 900);
    TwoTracked(cfg, 900);
    EvictionHidesRecord();
  }
}
