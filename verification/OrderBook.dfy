/** The two-sided order book and its cached best bid and offer.

    A side is an ordered map from price to quantity; bids are ordered downwards
    and asks upwards, so the first level is the best one on either side. */
module OrderBook {
  import opened Basics
  import opened MachineInts
  import opened FeedEvents

  type Side = map<real, uint32>

  datatype Level = Level(price: real, qty: uint32)

  datatype Book = Book(bids: Side, asks: Side) {
    function Of(isBid: bool): Side {
      if isBid then bids else asks
    }
  }

  const EMPTY_BOOK := Book(map[], map[])

  datatype Bbo = Bbo(bid: real, ask: real, bidQty: uint32, askQty: uint32)

  // ------------------------------------------------------------ ordered maps

  predicate Before(isBid: bool, p: real, q: real) {
    if isBid then p > q else p < q
  }

  ghost predicate IsFirst(isBid: bool, m: Side, p: real) {
    p in m && forall q | q in m && q != p :: Before(isBid, p, q)
  }

  lemma Member<T>(s: set<T>) returns (x: T)
    requires s != {}
    ensures x in s
  {
    x :| x in s;
  }

  lemma {:induction false} FirstExists(isBid: bool, keys: set<real>)
    requires keys != {}
    ensures exists p :: p in keys && forall q | q in keys && q != p :: Before(isBid, p, q)
    decreases |keys|
  {
    var x := Member(keys);
    var rest := keys - {x};
    if rest == {} {
      assert keys == {x};
      assert x in keys && forall q | q in keys && q != x :: Before(isBid, x, q);
    } else {
      FirstExists(isBid, rest);
      var p :| p in rest && forall q | q in rest && q != p :: Before(isBid, p, q);
      var best := if Before(isBid, x, p) then x else p;
      forall q | q in keys && q != best ensures Before(isBid, best, q) {
        assert q == x || q in rest;
      }
    }
  }

  /** begin() of the ordered map. */
  function First(isBid: bool, m: Side): (p: real)
    requires m != map[]
    ensures IsFirst(isBid, m, p)
  {
    assert m.Keys != {};
    FirstExists(isBid, m.Keys);
    assert exists p :: p in m && forall q | q in m && q != p :: Before(isBid, p, q);
    var p :| p in m && forall q | q in m && q != p :: Before(isBid, p, q);
    p
  }

  /** The first `n` levels in order. */
  function Levels(isBid: bool, m: Side, n: nat): (ls: seq<Level>)
    decreases n
  {
    if n == 0 || m == map[] then []
    else
      var p := First(isBid, m);
      [Level(p, m[p])] + Levels(isBid, m - {p}, n - 1)
  }

  lemma FirstLevel(isBid: bool, m: Side, n: nat, ls: seq<Level>)
    requires n > 0 && m != map[]
    ensures
      var p := First(isBid, m);
      ls + [Level(p, m[p])] + Levels(isBid, m - {p}, n - 1) == ls + Levels(isBid, m, n)
  {
    var p := First(isBid, m);
    assert Levels(isBid, m, n) == [Level(p, m[p])] + Levels(isBid, m - {p}, n - 1);
  }

  /** The levels listed belong to the side, and as many are listed as asked for
      or as there are. */
  lemma {:induction false} LevelsBelong(isBid: bool, m: Side, n: nat)
    ensures
      var ls := Levels(isBid, m, n);
      && |ls| == (if |m| < n then |m| else n)
      && forall i | 0 <= i < |ls| :: ls[i].price in m && m[ls[i].price] == ls[i].qty
    decreases n
  {
    if n > 0 && m != map[] {
      var p := First(isBid, m);
      assert (m - {p}).Keys == m.Keys - {p};
      LevelsBelong(isBid, m - {p}, n - 1);
    }
  }

  ghost predicate Listed(ls: seq<Level>, q: real) {
    exists j :: 0 <= j < |ls| && ls[j].price == q
  }

  ghost predicate AllBefore(isBid: bool, ls: seq<Level>, q: real) {
    forall i | 0 <= i < |ls| :: Before(isBid, ls[i].price, q)
  }

  /** They are in strict order, and every price left out comes after all of them. */
  lemma {:induction false} LevelsAreTheBest(isBid: bool, m: Side, n: nat)
    ensures
      var ls := Levels(isBid, m, n);
      && (forall i, j | 0 <= i < j < |ls| :: Before(isBid, ls[i].price, ls[j].price))
      && (forall q | q in m :: Listed(ls, q) || AllBefore(isBid, ls, q))
    decreases n
  {
    if n > 0 && m != map[] {
      var p := First(isBid, m);
      var rest := m - {p};
      LevelsAreTheBest(isBid, rest, n - 1);
      LevelsBelong(isBid, rest, n - 1);
      var tail, ls := Levels(isBid, rest, n - 1), Levels(isBid, m, n);
      assert ls == [Level(p, m[p])] + tail;
      forall q | q in m ensures Listed(ls, q) || AllBefore(isBid, ls, q) {
        if q == p {
          assert ls[0].price == q;
        } else {
          assert q in rest;
          if Listed(tail, q) {
            var j :| 0 <= j < |tail| && tail[j].price == q;
            assert ls[j + 1].price == q;
          }
        }
      }
    }
  }

  // ------------------------------------------------------------ events on values

  /** What an event does to the quantity at the price it names; None is no level. */
  function Touch(before: Option<uint32>, e: Event, isBid: bool): Option<uint32> {
    match e.kind
    case Add => if e.isBid == isBid then Some(((if before.Some? then before.value else 0) + e.qty) % TWO_32) else before
    case Modify => if e.isBid == isBid then Some(e.qty) else before
    case Cancel => if e.isBid == isBid then None else before
    case Trade =>
      // both sides lose the traded quantity at the traded price
      if before.None? || before.value <= e.qty then None else Some(before.value - e.qty)
    case Unknown => before
  }

  function Get(m: Side, p: real): Option<uint32> {
    if p in m then Some(m[p]) else None
  }

  function Put(m: Side, p: real, q: Option<uint32>): Side {
    match q
    case None => m - {p}
    case Some(v) => m[p := v]
  }

  function Applied(b: Book, e: Event): Book {
    Book(Put(b.bids, e.price, Touch(Get(b.bids, e.price), e, true)),
         Put(b.asks, e.price, Touch(Get(b.asks, e.price), e, false)))
  }

  /** The book after a list of events. */
  function Fold(es: seq<Event>): Book {
    if es == [] then EMPTY_BOOK else Applied(Fold(es[..|es| - 1]), es[|es| - 1])
  }

  /** The quantity at a price on a side, if there is a level. */
  function QtyAt(es: seq<Event>, isBid: bool, p: real): Option<uint32> {
    var m := if isBid then Fold(es).bids else Fold(es).asks;
    if p in m then Some(m[p]) else None
  }

  /** Nothing but the named price and side has changed. */
  ghost predicate OthersKept(es: seq<Event>, e: Event) {
    forall isBid, p | isBid != e.isBid || p != e.price :: QtyAt(es + [e], isBid, p) == QtyAt(es, isBid, p)
  }

  lemma FoldSnoc(es: seq<Event>, e: Event)
    ensures Fold(es + [e]) == Applied(Fold(es), e)
  {
    assert (es + [e])[..|es + [e]| - 1] == es;
  }

  /** An Add raises its level, from nothing if there is none, in 32 bits. */
  lemma AddRaises(es: seq<Event>, e: Event)
    requires e.kind.Add?
    ensures
      var before := QtyAt(es, e.isBid, e.price);
      QtyAt(es + [e], e.isBid, e.price) ==
      Some(((if before.Some? then before.value else 0) + e.qty) % 0x1_0000_0000)
    ensures OthersKept(es, e)
  {
    FoldSnoc(es, e);
  }

  /** A Modify makes its level exactly the quantity it names. */
  lemma ModifySets(es: seq<Event>, e: Event)
    requires e.kind.Modify?
    ensures QtyAt(es + [e], e.isBid, e.price) == Some(e.qty) && OthersKept(es, e)
  {
    FoldSnoc(es, e);
  }

  /** A Cancel leaves no level at its price and side. */
  lemma CancelErases(es: seq<Event>, e: Event)
    requires e.kind.Cancel?
    ensures QtyAt(es + [e], e.isBid, e.price) == None && OthersKept(es, e)
  {
    FoldSnoc(es, e);
  }

  /** A Trade takes its quantity from the level at its price on either side, and the
      level away when nothing is left; every other price keeps what it had. */
  lemma TradeLowers(es: seq<Event>, e: Event, isBid: bool, p: real)
    requires e.kind.Trade?
    ensures
      var before := QtyAt(es, isBid, p);
      QtyAt(es + [e], isBid, p) ==
      if p != e.price || before.None? then before
      else if before.value > e.qty then Some(before.value - e.qty) else None
  {
    FoldSnoc(es, e);
  }

  /** Any other event leaves the book alone. */
  lemma OtherEventsKeep(es: seq<Event>, e: Event)
    requires e.kind.Unknown?
    ensures Fold(es + [e]) == Fold(es)
  {
    FoldSnoc(es, e);
  }

  /** What a Cancel or a Modify leaves owes nothing to the events before it: after any
      further events its price and side hold what they would had the book begun empty,
      after a Modify with one Add of its quantity. */
  lemma {:induction false} CancelForgets(es: seq<Event>, e: Event, rest: seq<Event>)
    requires e.kind.Cancel? || e.kind.Modify?
    ensures
      QtyAt(es + [e] + rest, e.isBid, e.price) ==
      QtyAt((if e.kind.Modify? then [e.(kind := Add)] else []) + rest, e.isBid, e.price)
    decreases |rest|
  {
    var blank := if e.kind.Modify? then [e.(kind := Add)] else [];
    if rest == [] {
      assert es + [e] + rest == es + [e] && blank + rest == [] + blank;
      if e.kind.Modify? {
        ModifySets(es, e);
        AddRaises([], e.(kind := Add));
      } else {
        CancelErases(es, e);
      }
    } else {
      var init, last := rest[..|rest| - 1], rest[|rest| - 1];
      assert es + [e] + rest == (es + [e] + init) + [last] && blank + rest == (blank + init) + [last];
      CancelForgets(es, e, init);
      FoldSnoc(es + [e] + init, last);
      FoldSnoc(blank + init, last);
    }
  }

  /** The best bid and offer read off a book from scratch. */
  function Top(b: Book): Bbo {
    Bbo(if b.bids == map[] then 0.0 else First(true, b.bids),
        if b.asks == map[] then 0.0 else First(false, b.asks),
        if b.bids == map[] then 0 else b.bids[First(true, b.bids)],
        if b.asks == map[] then 0 else b.asks[First(false, b.asks)])
  }

  /** The quantity at one price, replaying only the events at that price. */
  function LevelHistory(es: seq<Event>, isBid: bool, p: real): Option<uint32> {
    if es == [] then None
    else
      var before, e := LevelHistory(es[..|es| - 1], isBid, p), es[|es| - 1];
      if e.price == p then Touch(before, e, isBid) else before
  }

  /** Price levels evolve independently: the book after any events holds at each
      price what the events at that price alone would leave there. */
  lemma {:induction false} LevelsAreIndependent(es: seq<Event>, isBid: bool, p: real)
    ensures Get(Fold(es).Of(isBid), p) == LevelHistory(es, isBid, p)
  {
    if es != [] {
      LevelsAreIndependent(es[..|es| - 1], isBid, p);
    }
  }

  /** With nothing on the other side at that price, a Trade takes back an Add of the
      same size if and only if there was no level, or one with a quantity above zero
      whose sum with the Add fits in 32 bits. */
  lemma TradeUndoesAdd(b: Book, add: Event, trade: Event)
    requires add.kind.Add? && trade.kind.Trade? && trade.price == add.price && trade.qty == add.qty
    requires add.price !in b.Of(!add.isBid)
    ensures
      var level := Get(b.Of(add.isBid), add.price);
      Applied(Applied(b, add), trade) == b <==>
      level.None? || (level.value > 0 && level.value + add.qty < TWO_32)
  {
    var p, mine, other := add.price, b.Of(add.isBid), b.Of(!add.isBid);
    var after := Applied(Applied(b, add), trade);
    assert after.Of(!add.isBid) == other;
    if p in mine && mine[p] > 0 && mine[p] + add.qty < TWO_32 {
      assert after.Of(add.isBid) == mine[p := mine[p]] == mine;
    } else {
      assert after.Of(add.isBid) == mine - {p};
      if p in mine { assert p !in after.Of(add.isBid); }
    }
  }

  /** The best bid after any events is the greatest price that still has a level,
      with that level's quantity; likewise the best ask is the least. */
  lemma TopIsExtreme(es: seq<Event>)
    ensures
      var t := Top(Fold(es));
      && (forall p :: LevelHistory(es, true, p).Some? ==>
            t.bid >= p && LevelHistory(es, true, t.bid) == Some(t.bidQty))
      && (forall p :: LevelHistory(es, false, p).Some? ==>
            t.ask <= p && LevelHistory(es, false, t.ask) == Some(t.askQty))
      && ((forall p :: LevelHistory(es, true, p).None?) ==> t.bid == 0.0 && t.bidQty == 0)
      && ((forall p :: LevelHistory(es, false, p).None?) ==> t.ask == 0.0 && t.askQty == 0)
  {
    var b, t := Fold(es), Top(Fold(es));
    forall p, isBid: bool ensures Get(b.Of(isBid), p) == LevelHistory(es, isBid, p) {
      LevelsAreIndependent(es, isBid, p);
    }
    forall p | LevelHistory(es, true, p).Some?
      ensures t.bid >= p && LevelHistory(es, true, t.bid) == Some(t.bidQty) {
      assert Get(b.Of(true), p).Some? && p in b.bids;
      assert Get(b.Of(true), t.bid) == LevelHistory(es, true, t.bid);
    }
    forall p | LevelHistory(es, false, p).Some?
      ensures t.ask <= p && LevelHistory(es, false, t.ask) == Some(t.askQty) {
      assert Get(b.Of(false), p).Some? && p in b.asks;
      assert Get(b.Of(false), t.ask) == LevelHistory(es, false, t.ask);
    }
    if b.bids != map[] { assert Get(b.Of(true), t.bid).Some?; assert LevelHistory(es, true, t.bid).Some?; }
    if b.asks != map[] { assert Get(b.Of(false), t.ask).Some?; assert LevelHistory(es, false, t.ask).Some?; }
  }

  // ------------------------------------------------------------ the object

  class OrderBook {
    var bids: Side
    var asks: Side
    var bestBid: real
    var bestAsk: real
    var bestBidQty: uint32
    var bestAskQty: uint32

    function Value(): Book
      reads this
    {
      Book(bids, asks)
    }

    function Cached(): Bbo
      reads this
    {
      Bbo(bestBid, bestAsk, bestBidQty, bestAskQty)
    }

    /** The cache is the top of the book. */
    ghost predicate Valid()
      reads this
    {
      Cached() == Top(Value())
    }

    constructor ()
      ensures Valid() && Value() == EMPTY_BOOK
    {
      bids, asks := map[], map[];
      bestBid, bestAsk, bestBidQty, bestAskQty := 0.0, 0.0, 0, 0;
    }

    method RefreshBbo()
      modifies this
      ensures Valid() && Value() == old(Value())
    {
      if bids != map[] {
        bestBid := First(true, bids);
        bestBidQty := bids[bestBid];
      } else {
        bestBid, bestBidQty := 0.0, 0;
      }
      if asks != map[] {
        bestAsk := First(false, asks);
        bestAskQty := asks[bestAsk];
      } else {
        bestAsk, bestAskQty := 0.0, 0;
      }
    }

    method OnAdd(e: Event)
      requires e.kind.Add?
      modifies this
      ensures Valid() && Value() == Applied(old(Value()), e)
    {
      if e.isBid {
        bids := bids[e.price := ((if e.price in bids then bids[e.price] else 0) + e.qty) % TWO_32];
      } else {
        asks := asks[e.price := ((if e.price in asks then asks[e.price] else 0) + e.qty) % TWO_32];
      }
      RefreshBbo();
      assert Value() == Applied(old(Value()), e);
    }

    method OnModify(e: Event)
      requires e.kind.Modify?
      modifies this
      ensures Valid() && Value() == Applied(old(Value()), e)
    {
      if e.isBid {
        bids := bids[e.price := e.qty];
      } else {
        asks := asks[e.price := e.qty];
      }
      RefreshBbo();
      assert Value() == Applied(old(Value()), e);
    }

    method OnCancel(e: Event)
      requires e.kind.Cancel?
      modifies this
      ensures Valid() && Value() == Applied(old(Value()), e)
    {
      if e.isBid {
        bids := bids - {e.price};
      } else {
        asks := asks - {e.price};
      }
      RefreshBbo();
      assert Value() == Applied(old(Value()), e);
    }

    method OnTrade(e: Event)
      requires e.kind.Trade?
      modifies this
      ensures Valid() && Value() == Applied(old(Value()), e)
    {
      if e.price in asks {
        if asks[e.price] <= e.qty {
          asks := asks - {e.price};
        } else {
          asks := asks[e.price := asks[e.price] - e.qty];
        }
      }
      if e.price in bids {
        if bids[e.price] <= e.qty {
          bids := bids - {e.price};
        } else {
          bids := bids[e.price := bids[e.price] - e.qty];
        }
      }
      RefreshBbo();
      assert Value() == Applied(old(Value()), e);
    }

    /** Returns whether the best bid or offer changed, price or quantity. */
    method Process(e: Event) returns (changed: bool)
      requires Valid()
      modifies this
      ensures Valid() && Value() == Applied(old(Value()), e)
      ensures changed <==> Top(Value()) != Top(old(Value()))
    {
      var before := Cached();
      match e.kind {
        case Add => OnAdd(e);
        case Modify => OnModify(e);
        case Cancel => OnCancel(e);
        case Trade => OnTrade(e);
        case Unknown =>
          UnknownChangesNothing(Value(), e);
          return false;
      }
      changed := bestBid != before.bid || bestAsk != before.ask
                 || bestBidQty != before.bidQty || bestAskQty != before.askQty;
    }

    /** top_bids and top_asks: the loop over the ordered map from its beginning. */
    method TopLevels(isBid: bool, n: nat) returns (ls: seq<Level>)
      ensures ls == Levels(isBid, Value().Of(isBid), n)
    {
      ls := [];
      var rest := if isBid then bids else asks;
      ghost var listed := Levels(isBid, rest, n);
      while |ls| < n && rest != map[]
        invariant |ls| <= n
        invariant ls + Levels(isBid, rest, n - |ls|) == listed
      {
        FirstLevel(isBid, rest, n - |ls|, ls);
        var p := First(isBid, rest);
        ls := ls + [Level(p, rest[p])];
        rest := rest - {p};
      }
    }

    method Clear()
      modifies this
      ensures Valid() && Value() == EMPTY_BOOK
    {
      bids, asks := map[], map[];
      bestBid, bestAsk, bestBidQty, bestAskQty := 0.0, 0.0, 0, 0;
    }
  }

  lemma UnknownChangesNothing(b: Book, e: Event)
    requires e.kind.Unknown?
    ensures Applied(b, e) == b
  {
  }
}
