/** The spoof detector's open-addressing order table, as functions on the
    sequence of its slots.

    A slot holds a valid record when its order id is not zero.  The home slot
    of an id is its low bits, collisions probe linearly and wrap around, and
    deletion re-inserts the rest of the cluster.  The detector's methods are
    proved equal to these functions; the theorems here are about them. */
module OrderTable {
  import opened Basics
  import opened MachineInts
  import opened Circular

  datatype PendingOrder = PendingOrder(orderId: uint64, price: real, qty: uint32, placedNs: uint64) {
    predicate IsValid() {
      orderId != 0
    }

    function Invalidated(): PendingOrder {
      this.(orderId := 0)
    }
  }

  type Table = seq<PendingOrder>

  function Home(id: uint64, n: nat): (h: nat)
    requires n > 0
    ensures h < n
  {
    And(id % TWO_32, n - 1)
  }

  /** The masked low bits are the remainder. */
  lemma HomeIsRemainder(id: uint64, n: uint32)
    requires PowerOfTwo(n)
    ensures Home(id, n) == id % n
  {
    Mask32(id, n);
  }

  // ------------------------------------------------------------ the operations

  datatype Probe = Hit(slot: nat) | Gap(slot: nat) | Exhausted

  /** The probe loop shared by lookup, insertion and deletion, from probe `k` on. */
  function Scan(t: Table, id: uint64, k: nat): (r: Probe)
    requires 0 < |t| && k <= |t|
    ensures r.Hit? ==> r.slot < |t| && t[r.slot].IsValid() && t[r.slot].orderId == id
    ensures r.Gap? ==> r.slot < |t| && !t[r.slot].IsValid()
    ensures !r.Exhausted? ==> k <= Dist(Home(id, |t|), r.slot, |t|)
                              && Passes(t, id, k, Dist(Home(id, |t|), r.slot, |t|))
    ensures r.Exhausted? ==> Passes(t, id, k, |t|)
    decreases |t| - k
  {
    if k == |t| then Exhausted
    else
      var i := Slot(Home(id, |t|), k, |t|);
      if !t[i].IsValid() then Gap(i)
      else if t[i].orderId == id then Hit(i)
      else Scan(t, id, k + 1)
  }

  /** Probes `k` to `d` all meet valid records of other orders. */
  ghost predicate Passes(t: Table, id: uint64, k: nat, d: nat)
    requires 0 < |t|
  {
    forall j | 0 <= j < |t| && k <= Dist(Home(id, |t|), j, |t|) < d ::
      t[j].IsValid() && t[j].orderId != id
  }

  /** The probe loop's state before probe `k`: nothing found so far, `idx` next. */
  ghost predicate Probing(t: Table, id: uint64, k: nat, idx: nat) {
    && k <= |t| && idx < |t|
    && Scan(t, id, 0) == Scan(t, id, k)
    && (k < |t| ==> idx == Slot(Home(id, |t|), k, |t|))
  }

  lemma ProbeStep(t: Table, id: uint64, k: nat, idx: nat)
    requires Probing(t, id, k, idx) && k < |t|
    ensures !t[idx].IsValid() ==> Scan(t, id, 0) == Gap(idx)
    ensures t[idx].IsValid() && t[idx].orderId == id ==> Scan(t, id, 0) == Hit(idx)
    ensures t[idx].IsValid() && t[idx].orderId != id ==> Probing(t, id, k + 1, Next(idx, |t|))
  {
  }

  function Find(t: Table, id: uint64): Option<nat>
    requires 0 < |t|
  {
    match Scan(t, id, 0)
    case Hit(i) => Some(i)
    case _ => None
  }

  function Insert(t: Table, o: PendingOrder): (t': Table)
    requires 0 < |t|
    ensures |t'| == |t|
  {
    match Scan(t, o.orderId, 0)
    case Exhausted => t[Home(o.orderId, |t|) := o]
    case p => t[p.slot := o]
  }

  function Blank(t: Table, i: nat): (t': Table)
    requires i < |t|
    ensures |t'| == |t|
  {
    t[i := t[i].Invalidated()]
  }

  function Reinsert(t: Table, next: nat): (t': Table)
    requires next < |t|
    ensures |t'| == |t|
  {
    Insert(Blank(t, next), t[next])
  }

  /** Re-insert every record from `next` to the next empty slot.  The table may
      be in any state, as long as some slot is empty. */
  function Rehash(t: Table, next: nat): (t': Table)
    requires next < |t| && HasGap(t)
    ensures |t'| == |t|
    decreases Load(t, |t|), RunLength(t, next, 0)
  {
    if !t[next].IsValid() then t
    else
      ReinsertDecreases(t, next);
      Rehash(Reinsert(t, next), Next(next, |t|))
  }

  /** One turn of the loop: progress, and the same final table. */
  lemma RehashTurn(t: Table, next: nat, t': Table, next': nat)
    requires next < |t| && HasGap(t) && t[next].IsValid()
    requires t' == Reinsert(t, next) && next' == Next(next, |t|)
    ensures HasGap(t') && Rehash(t', next') == Rehash(t, next)
    ensures Load(t', |t'|) < Load(t, |t|) || (t' == t && RunLength(t', next', 0) < RunLength(t, next, 0))
  {
    ReinsertDecreases(t, next);
  }

  function Remove(t: Table, id: uint64): (t': Table)
    requires 0 < |t|
    ensures |t'| == |t|
  {
    match Scan(t, id, 0)
    case Hit(i) =>
      assert !Blank(t, i)[i].IsValid();
      Rehash(Blank(t, i), Next(i, |t|))
    case _ => t
  }

  // ------------------------------------------------------------ termination of the rehash loop

  ghost predicate HasGap(t: Table) {
    exists i :: 0 <= i < |t| && !t[i].IsValid()
  }

  /** Over the first `m` slots, one for each valid record plus its distance from home. */
  ghost function Load(t: Table, m: nat): nat
    requires m <= |t|
  {
    if m == 0 then 0 else Load(t, m - 1) + SlotLoad(t[m - 1], m - 1, |t|)
  }

  ghost function SlotLoad(o: PendingOrder, i: nat, n: nat): nat
    requires i < n
  {
    if o.IsValid() then 1 + Dist(Home(o.orderId, n), i, n) else 0
  }

  lemma {:induction false} LoadUpdate(t: Table, m: nat, i: nat, o: PendingOrder)
    requires m <= |t| && i < |t|
    ensures Load(t[i := o], m) ==
            Load(t, m) + if i < m then SlotLoad(o, i, |t|) - SlotLoad(t[i], i, |t|) else 0
  {
    if m > 0 { LoadUpdate(t, m - 1, i, o); }
  }

  /** Distance from `next` to the first empty slot, counted from probe `k`. */
  ghost function RunLength(t: Table, next: nat, k: nat): (r: nat)
    requires next < |t| && k <= |t|
    ensures k + r <= |t|
    ensures k + r < |t| ==> !t[Slot(next, k + r, |t|)].IsValid()
    ensures forall j | 0 <= j < |t| && k <= Dist(next, j, |t|) < k + r :: t[j].IsValid()
    decreases |t| - k
  {
    if k == |t| || !t[Slot(next, k, |t|)].IsValid() then 0 else 1 + RunLength(t, next, k + 1)
  }

  lemma RunShortens(t: Table, next: nat)
    requires next < |t| && HasGap(t) && t[next].IsValid()
    ensures RunLength(t, Next(next, |t|), 0) < RunLength(t, next, 0)
  {
    var n, d := |t|, RunLength(t, next, 0);
    var z :| 0 <= z < n && !t[z].IsValid();
    var i := Slot(next, d, n);
    assert Dist(Next(next, n), i, n) == d - 1;
  }

  /** What one turn of the loop does, whatever the state of the table: the
      record merges with another of the same id, moves nearer home, or stays. */
  lemma ReinsertDecreases(t: Table, next: nat)
    requires next < |t| && HasGap(t) && t[next].IsValid()
    ensures HasGap(Reinsert(t, next))
    ensures || Load(Reinsert(t, next), |t|) < Load(t, |t|)
            || (&& Reinsert(t, next) == t
                && RunLength(t, Next(next, |t|), 0) < RunLength(t, next, 0))
  {
    var n, o, b := |t|, t[next], Blank(t, next);
    var h := Home(o.orderId, n);
    var p := Scan(b, o.orderId, 0);
    assert !b[next].IsValid() && !p.Exhausted?;
    LoadUpdate(t, n, next, b[next]);
    LoadUpdate(b, n, p.slot, o);
    if p.slot == next {
      assert Reinsert(t, next) == t;
      RunShortens(t, next);
    } else {
      assert !Reinsert(t, next)[next].IsValid();
      assert p.Gap? ==> Dist(h, p.slot, n) < Dist(h, next, n);
    }
  }

  // ------------------------------------------------------------ the probe-chain invariant

  /** Slot `j` is probed before slot `i` when looking for the record in slot `i`. */
  ghost predicate OnPath(t: Table, i: nat, j: nat)
    requires i < |t| && j < |t|
  {
    Dist(Home(t[i].orderId, |t|), j, |t|) < Dist(Home(t[i].orderId, |t|), i, |t|)
  }

  ghost predicate UniqueIds(t: Table) {
    forall i, j | 0 <= i < |t| && 0 <= j < |t| && t[i].IsValid() && t[j].IsValid()
                  && t[i].orderId == t[j].orderId :: i == j
  }

  /** Every record is reachable from its home slot, and no id is stored twice. */
  ghost predicate Chained(t: Table) {
    && UniqueIds(t)
    && forall i, j | 0 <= i < |t| && 0 <= j < |t| && t[i].IsValid() && OnPath(t, i, j) ::
         t[j].IsValid()
  }

  /** Inside the rehash loop: one hole `h`, and only records not yet scanned
      (those from `next` round to `h`) may have it on their path. */
  ghost predicate ChainedButHole(t: Table, h: nat, next: nat) {
    && h < |t| && next < |t| && !t[h].IsValid()
    && UniqueIds(t)
    && forall i, j | 0 <= i < |t| && 0 <= j < |t| && t[i].IsValid() && OnPath(t, i, j) ::
         t[j].IsValid() || (j == h && Dist(next, i, |t|) < Dist(next, h, |t|))
  }

  ghost function Records(t: Table): set<PendingOrder> {
    set i | 0 <= i < |t| && t[i].IsValid() :: t[i]
  }

  /** The table as a finite map from id to record. */
  ghost function Contents(t: Table): map<uint64, PendingOrder>
    requires UniqueIds(t)
  {
    map o | o in Records(t) :: o.orderId := o
  }

  lemma ContentsAt(t: Table, i: nat)
    requires UniqueIds(t) && i < |t| && t[i].IsValid()
    ensures t[i] in Records(t)
    ensures t[i].orderId in Contents(t) && Contents(t)[t[i].orderId] == t[i]
  {
    assert t[i] in Records(t);
  }

  /** Lookup from any table state only ever returns a record of the id asked for. */
  lemma FindSound(t: Table, id: uint64)
    requires 0 < |t|
    ensures Find(t, id).Some? ==>
      Find(t, id).value < |t| && t[Find(t, id).value].IsValid() && t[Find(t, id).value].orderId == id
  {
  }

  /** A record whose path is unbroken is found. */
  lemma FindComplete(t: Table, i: nat)
    requires Chained(t) && i < |t| && t[i].IsValid()
    ensures Find(t, t[i].orderId) == Some(i)
  {
    var p := Scan(t, t[i].orderId, 0);
    assert !p.Exhausted?;
    assert p.slot == i;
  }

  /** On a chained table, lookup is map lookup. */
  lemma FindIsLookup(t: Table, id: uint64)
    requires Chained(t) && 0 < |t|
    ensures match Find(t, id)
            case Some(i) => i < |t| && id in Contents(t) && Contents(t)[id] == t[i]
            case None => id !in Contents(t)
  {
    match Find(t, id)
    case Some(i) => ContentsAt(t, i);
    case None =>
      if id in Contents(t) {
        var i :| 0 <= i < |t| && t[i].IsValid() && t[i] == Contents(t)[id];
        FindComplete(t, i);
      }
  }

  // ------------------------------------------------------------ deletion

  /** Where the re-inserted record lands: in the hole if the hole is on its path. */
  lemma ReinsertLandsAt(t: Table, h: nat, next: nat)
    requires ChainedButHole(t, h, next) && t[next].IsValid()
    ensures Scan(Blank(t, next), t[next].orderId, 0) == Gap(if OnPath(t, next, h) then h else next)
  {
    var n, o, b := |t|, t[next], Blank(t, next);
    var home := Home(o.orderId, n);
    var p := Scan(b, o.orderId, 0);
    assert !b[next].IsValid() && !b[h].IsValid() && !p.Exhausted?;
    var d := Dist(home, p.slot, n);
    assert d <= Dist(home, next, n);
    assert p.slot != next ==> OnPath(t, next, p.slot);
    assert !p.Hit?;
    assert OnPath(t, next, h) ==> d <= Dist(home, h, n);
    assert p.slot == next || p.slot == h;
  }

  lemma MoveKeepsChain(t: Table, h: nat, next: nat)
    requires ChainedButHole(t, h, next) && t[next].IsValid() && OnPath(t, next, h)
    ensures ChainedButHole(Blank(t, next)[h := t[next]], next, Next(next, |t|))
  {
    var n, t' := |t|, Blank(t, next)[h := t[next]];
    assert UniqueIds(t');
    forall i, j | 0 <= i < n && 0 <= j < n && t'[i].IsValid() && OnPath(t', i, j)
      ensures t'[j].IsValid() || (j == next && Dist(Next(next, n), i, n) < Dist(Next(next, n), next, n))
    {
      if i == h {
        assert OnPath(t, next, j);
      } else {
        assert OnPath(t, i, j);
        if j != h && j != next { HoleBlocks(t, h, next, i, j); }
      }
    }
  }

  /** A record that has the hole on its path has no other gap there. */
  lemma HoleBlocks(t: Table, h: nat, next: nat, i: nat, j: nat)
    requires ChainedButHole(t, h, next) && i < |t| && j < |t| && t[i].IsValid() && OnPath(t, i, j) && j != h
    ensures t[j].IsValid()
  {
  }

  lemma StayKeepsChain(t: Table, h: nat, next: nat)
    requires ChainedButHole(t, h, next) && t[next].IsValid() && !OnPath(t, next, h)
    ensures ChainedButHole(t, h, Next(next, |t|))
  {
  }

  lemma ReinsertKeepsChain(t: Table, h: nat, next: nat) returns (h': nat)
    requires ChainedButHole(t, h, next) && t[next].IsValid()
    ensures ChainedButHole(Reinsert(t, next), h', Next(next, |t|))
    ensures Records(Reinsert(t, next)) == Records(t)
  {
    ReinsertLandsAt(t, h, next);
    if OnPath(t, next, h) {
      h' := next;
      MoveKeepsChain(t, h, next);
      MovedRecords(t, Reinsert(t, next), next, h);
    } else {
      h' := h;
      StayKeepsChain(t, h, next);
      assert Reinsert(t, next) == t;
    }
  }

  lemma MovedRecords(t: Table, t': Table, a: nat, b: nat)
    requires |t| == |t'| && a < |t| && b < |t| && a != b
    requires t[a].IsValid() && !t[b].IsValid() && t'[b] == t[a] && !t'[a].IsValid()
    requires forall i | 0 <= i < |t| && i != a && i != b :: t'[i] == t[i]
    ensures Records(t) == Records(t')
  {
    forall o | o in Records(t) ensures o in Records(t') {
      var i :| 0 <= i < |t| && t[i].IsValid() && t[i] == o;
      assert t'[if i == a then b else i] == o;
    }
    forall o | o in Records(t') ensures o in Records(t) {
      var i :| 0 <= i < |t| && t'[i].IsValid() && t'[i] == o;
      assert t[if i == b then a else i] == o;
    }
  }

  lemma HoleAtEndCloses(t: Table, h: nat, next: nat)
    requires ChainedButHole(t, h, next) && !t[next].IsValid()
    ensures Chained(t)
  {
  }

  lemma {:induction false} RehashRestoresChain(t: Table, h: nat, next: nat)
    requires ChainedButHole(t, h, next) && HasGap(t)
    ensures Chained(Rehash(t, next)) && Records(Rehash(t, next)) == Records(t)
    decreases Load(t, |t|), RunLength(t, next, 0)
  {
    if t[next].IsValid() {
      ReinsertDecreases(t, next);
      var h' := ReinsertKeepsChain(t, h, next);
      RehashRestoresChain(Reinsert(t, next), h', Next(next, |t|));
    } else {
      HoleAtEndCloses(t, h, next);
    }
  }

  lemma BlankOpensHole(t: Table, i: nat)
    requires Chained(t) && i < |t| && t[i].IsValid()
    ensures ChainedButHole(Blank(t, i), i, Next(i, |t|))
    ensures HasGap(Blank(t, i))
    ensures Records(Blank(t, i)) == Records(t) - {t[i]}
  {
    var b := Blank(t, i);
    assert !b[i].IsValid();
    forall o | o in Records(t) && o != t[i] ensures o in Records(b) {
      var j :| 0 <= j < |t| && t[j].IsValid() && t[j] == o;
      assert b[j] == o;
    }
    forall o | o in Records(b) ensures o in Records(t) && o != t[i] {
      var j :| 0 <= j < |t| && b[j].IsValid() && b[j] == o;
      assert t[j] == o;
    }
  }

  lemma ContentsIn(t: Table, id: uint64)
    requires UniqueIds(t)
    ensures id in Contents(t) <==> exists o :: o in Records(t) && o.orderId == id
    ensures id in Contents(t) ==> Contents(t)[id] in Records(t) && Contents(t)[id].orderId == id
  {
    if id in Contents(t) {
      var o := Contents(t)[id];
      assert o in Records(t) && o.orderId == id;
    }
  }

  lemma ContentsOf(t: Table, o: PendingOrder)
    requires UniqueIds(t) && o in Records(t)
    ensures o.orderId in Contents(t) && Contents(t)[o.orderId] == o
  {
  }

  lemma ContentsShrink(t: Table, t': Table, o: PendingOrder)
    requires UniqueIds(t) && UniqueIds(t') && o in Records(t)
    requires Records(t') == Records(t) - {o}
    ensures Contents(t') == Contents(t) - {o.orderId}
  {
    var m, m' := Contents(t), Contents(t');
    ContentsOf(t, o);
    forall id: uint64 ensures id in m' <==> id in m && id != o.orderId
                      ensures id in m' ==> id in m && m'[id] == m[id] {
      ContentsIn(t, id);
      ContentsIn(t', id);
      if id in m' { ContentsOf(t, m'[id]); }
      if id in m && id != o.orderId { ContentsOf(t', m[id]); }
    }
  }

  /** Deletion keeps the chain invariant and is map deletion, for every chained
      table: full, wrapped or neither. */
  lemma RemoveIsMapDeletion(t: Table, id: uint64)
    requires Chained(t) && 0 < |t|
    ensures Chained(Remove(t, id))
    ensures Contents(Remove(t, id)) == Contents(t) - {id}
  {
    FindIsLookup(t, id);
    match Scan(t, id, 0)
    case Hit(i) =>
      BlankOpensHole(t, i);
      RehashRestoresChain(Blank(t, i), i, Next(i, |t|));
      ContentsAt(t, i);
      ContentsShrink(t, Remove(t, id), t[i]);
    case _ =>
  }

  /** The same, seen through lookups. */
  lemma RemoveThenFind(t: Table, id: uint64, other: uint64)
    requires Chained(t) && 0 < |t|
    ensures Find(Remove(t, id), id) == None
    ensures other != id && Find(t, other).Some? ==>
      && Find(Remove(t, id), other).Some?
      && Find(Remove(t, id), other).value < |t| && Find(t, other).value < |t|
      && Remove(t, id)[Find(Remove(t, id), other).value] == t[Find(t, other).value]
    ensures other != id && Find(t, other).None? ==> Find(Remove(t, id), other).None?
  {
    RemoveIsMapDeletion(t, id);
    FindIsLookup(t, other);
    FindIsLookup(Remove(t, id), other);
    FindIsLookup(Remove(t, id), id);
  }

  // ------------------------------------------------------------ insertion

  ghost predicate IsFull(t: Table) {
    !HasGap(t)
  }

  lemma WriteContents(t: Table, i: nat, o: PendingOrder)
    requires UniqueIds(t) && i < |t| && o.IsValid()
    requires forall j | 0 <= j < |t| && j != i && t[j].IsValid() :: t[j].orderId != o.orderId
    ensures UniqueIds(t[i := o])
    ensures Contents(t[i := o]) ==
            (Contents(t) - if t[i].IsValid() then {t[i].orderId} else {})[o.orderId := o]
  {
    var t' := t[i := o];
    var m, m', gone := Contents(t), Contents(t'), if t[i].IsValid() then {t[i].orderId} else {};
    ContentsAt(t', i);
    forall id | id in m' && id != o.orderId ensures id in m && id !in gone && m'[id] == m[id] {
      ContentsIn(t', id);
      var j :| 0 <= j < |t| && t'[j].IsValid() && t'[j] == m'[id];
      ContentsAt(t, j);
    }
    forall id | id in m && id !in gone && id != o.orderId ensures id in m' {
      ContentsIn(t, id);
      var j :| 0 <= j < |t| && t[j].IsValid() && t[j] == m[id];
      assert t'[j] == t[j];
      ContentsAt(t', j);
    }
  }

  /** Insertion of a real id keeps the chain invariant and is map update; only
      when a new id meets a full table is something lost, and then exactly the
      occupant of its home slot. */
  lemma InsertIsMapUpdate(t: Table, o: PendingOrder)
    requires Chained(t) && 0 < |t| && o.IsValid()
    ensures Chained(Insert(t, o))
    ensures
      var lost := if o.orderId !in Contents(t) && IsFull(t)
                  then {t[Home(o.orderId, |t|)].orderId} else {};
      Contents(Insert(t, o)) == (Contents(t) - lost)[o.orderId := o]
  {
    var p := Scan(t, o.orderId, 0);
    var i := if p.Exhausted? then Home(o.orderId, |t|) else p.slot;
    InsertKeepsChain(t, o);
    InsertTarget(t, o.orderId, i);
    WriteContents(t, i, o);
    if p.Hit? { ContentsAt(t, i); }
  }

  /** The slot written, and that no other slot holds the id. */
  lemma InsertTarget(t: Table, id: uint64, i: nat)
    requires Chained(t) && 0 < |t| && id != 0
    requires i == var p := Scan(t, id, 0); if p.Exhausted? then Home(id, |t|) else p.slot
    ensures forall j | 0 <= j < |t| && j != i && t[j].IsValid() :: t[j].orderId != id
    ensures Scan(t, id, 0).Exhausted? <==> id !in Contents(t) && IsFull(t)
  {
    FindIsLookup(t, id);
    forall j | 0 <= j < |t| && j != i && t[j].IsValid() ensures t[j].orderId != id {
      if t[j].orderId == id { FindComplete(t, j); }
    }
    if Scan(t, id, 0).Exhausted? {
      assert forall j | 0 <= j < |t| :: Dist(Home(id, |t|), j, |t|) < |t|;
    }
  }

  lemma InsertKeepsChain(t: Table, o: PendingOrder)
    requires Chained(t) && 0 < |t| && o.IsValid()
    ensures Chained(Insert(t, o))
  {
    var n, p, t' := |t|, Scan(t, o.orderId, 0), Insert(t, o);
    var i := if p.Exhausted? then Home(o.orderId, n) else p.slot;
    InsertTarget(t, o.orderId, i);
    assert UniqueIds(t');
    forall k, j | 0 <= k < n && 0 <= j < n && t'[k].IsValid() && OnPath(t', k, j)
      ensures t'[j].IsValid()
    {
      if k == i {
        PathOfTarget(t, o.orderId, i, j);
      } else {
        assert OnPath(t, k, j);
      }
    }
  }

  lemma PathOfTarget(t: Table, id: uint64, i: nat, j: nat)
    requires 0 < |t| && i < |t| && j < |t|
    requires i == var p := Scan(t, id, 0); if p.Exhausted? then Home(id, |t|) else p.slot
    requires Dist(Home(id, |t|), j, |t|) < Dist(Home(id, |t|), i, |t|)
    ensures t[j].IsValid()
  {
  }

  /** A full chained table holds as many ids as it has slots. */
  lemma RoomMeansGap(t: Table)
    requires UniqueIds(t) && |Contents(t)| < |t|
    ensures HasGap(t)
  {
    if IsFull(t) {
      var ids := IdsBelow(t, |t|);
      forall id | id in ids ensures id in Contents(t) {
        var i :| 0 <= i < |t| && t[i].orderId == id;
        ContentsAt(t, i);
      }
      SubsetSize(ids, Contents(t).Keys);
      assert false;
    }
  }

  lemma {:induction false} IdsBelow(t: Table, m: nat) returns (ids: set<uint64>)
    requires UniqueIds(t) && IsFull(t) && m <= |t|
    ensures |ids| == m
    ensures forall id :: id in ids <==> exists i :: 0 <= i < m && t[i].orderId == id
  {
    if m == 0 { return {}; }
    ids := IdsBelow(t, m - 1);
    assert t[m - 1].orderId !in ids;
    ids := ids + {t[m - 1].orderId};
  }

  /** Slot 0 is on the probe path of no other record. */
  ghost predicate NonePassesFirst(t: Table) {
    forall i | 0 < i < |t| :: !OnPath(t, i, 0)
  }

  /** Writing the id 0 is writing an empty slot.  With room it changes nothing
      a lookup can see; on a full table it drops exactly the record in slot 0, and
      the chain survives exactly when no other record probes past slot 0. */
  lemma InsertOfZero(t: Table, o: PendingOrder)
    requires Chained(t) && 0 < |t| && !o.IsValid()
    ensures UniqueIds(Insert(t, o))
    ensures Contents(Insert(t, o)) == if IsFull(t) then Contents(t) - {t[0].orderId} else Contents(t)
    ensures HasGap(t) ==> Chained(Insert(t, o))
    ensures IsFull(t) ==>
      && Records(Insert(t, o)) == Records(t) - {t[0]}
      && (Chained(Insert(t, o)) <==> NonePassesFirst(t))
  {
    var n, p, t' := |t|, Scan(t, 0, 0), Insert(t, o);
    assert Home(0, n) == 0;
    assert !p.Hit?;
    if p.Gap? {
      assert forall i | 0 <= i < n :: t'[i].IsValid() == t[i].IsValid() && (t[i].IsValid() ==> t'[i] == t[i]);
      SameValidRecords(t, t');
    } else {
      assert IsFull(t) by { assert forall j | 0 <= j < n :: Dist(0, j, n) < n; }
      assert t' == t[0 := o] && !t'[0].IsValid();
      assert forall i, j | 0 < i < n && 0 <= j < n :: OnPath(t', i, j) == OnPath(t, i, j);
      FirstDropped(t, t');
    }
  }

  lemma FirstDropped(t: Table, t': Table)
    requires UniqueIds(t) && 0 < |t| && t[0].IsValid()
    requires |t'| == |t| && t' == t[0 := t'[0]] && !t'[0].IsValid()
    ensures UniqueIds(t') && Records(t') == Records(t) - {t[0]}
    ensures Contents(t') == Contents(t) - {t[0].orderId}
  {
    forall o | o in Records(t) && o != t[0] ensures o in Records(t') {
      var j :| 0 <= j < |t| && t[j].IsValid() && t[j] == o;
      assert t'[j] == o;
    }
    forall o | o in Records(t') ensures o in Records(t) && o != t[0] {
      var j :| 0 <= j < |t| && t'[j].IsValid() && t'[j] == o;
      assert t[j] == o;
    }
    ContentsAt(t, 0);
    ContentsShrink(t, t', t[0]);
  }

  lemma SameValidRecords(t: Table, t': Table)
    requires |t| == |t'| && Chained(t)
    requires forall i | 0 <= i < |t| :: t'[i].IsValid() == t[i].IsValid() && (t[i].IsValid() ==> t'[i] == t[i])
    ensures Chained(t') && Contents(t') == Contents(t)
  {
    forall i, j | 0 <= i < |t| && 0 <= j < |t| && t'[i].IsValid() && OnPath(t', i, j) ensures t'[j].IsValid() {
      assert OnPath(t, i, j);
    }
    assert Records(t') == Records(t) by {
      forall o | o in Records(t) ensures o in Records(t') {
        var i :| 0 <= i < |t| && t[i].IsValid() && t[i] == o;
        assert t'[i] == o;
      }
    }
  }

  // ------------------------------------------------------------ facts that need no invariant

  /** Insertion and deletion never invent a record, whatever the table state. */
  lemma InsertAddsOnly(t: Table, o: PendingOrder)
    requires 0 < |t|
    ensures Records(Insert(t, o)) <= Records(t) + {o}
  {
  }

  lemma {:induction false} RehashInventsNothing(t: Table, next: nat)
    requires next < |t| && HasGap(t)
    ensures Records(Rehash(t, next)) <= Records(t)
    decreases Load(t, |t|), RunLength(t, next, 0)
  {
    if t[next].IsValid() {
      ReinsertDecreases(t, next);
      InsertAddsOnly(Blank(t, next), t[next]);
      assert Records(Blank(t, next)) <= Records(t);
      RehashInventsNothing(Reinsert(t, next), Next(next, |t|));
    }
  }

  lemma RemoveInventsNothing(t: Table, id: uint64)
    requires 0 < |t|
    ensures Records(Remove(t, id)) <= Records(t)
  {
    match Scan(t, id, 0)
    case Hit(i) =>
      assert !Blank(t, i)[i].IsValid();
      assert Records(Blank(t, i)) <= Records(t);
      RehashInventsNothing(Blank(t, i), Next(i, |t|));
    case _ =>
  }

  // ------------------------------------------------------------ eviction

  predicate Stale(o: PendingOrder, now: uint64, window: uint64) {
    o.IsValid() && Sub64(now, o.placedNs) > window
  }

  /** Every slot older than the window is blanked in place; nothing is rehashed. */
  function Evict(t: Table, now: uint64, window: uint64): (t': Table)
    ensures |t'| == |t|
  {
    seq(|t|, i requires 0 <= i < |t| => if Stale(t[i], now, window) then t[i].Invalidated() else t[i])
  }

  lemma EvictKeepsFresh(t: Table, now: uint64, window: uint64)
    ensures forall o :: o in Records(Evict(t, now, window)) <==>
                        o in Records(t) && Sub64(now, o.placedNs) <= window
  {
    var t' := Evict(t, now, window);
    forall o | o in Records(t) && !Stale(o, now, window) ensures o in Records(t') {
      var i :| 0 <= i < |t| && t[i].IsValid() && t[i] == o;
      assert t'[i] == o;
    }
  }

  /** From any table state: a record is found in its slot exactly when its probe
      path is unbroken and holds no other record of its id. */
  lemma FoundIff(t: Table, i: nat)
    requires i < |t| && t[i].IsValid()
    ensures Find(t, t[i].orderId) == Some(i) <==>
            forall j | 0 <= j < |t| && OnPath(t, i, j) :: t[j].IsValid() && t[j].orderId != t[i].orderId
  {
    var n, home, p := |t|, Home(t[i].orderId, |t|), Scan(t, t[i].orderId, 0);
    assert !p.Exhausted?;
    assert Dist(home, p.slot, n) <= Dist(home, i, n);
    assert p.slot != i ==> OnPath(t, i, p.slot);
  }

  /** After eviction from any table, chains broken or not: a surviving record is
      found in its slot exactly when every slot on its probe path holds a record of
      another order that survived too. */
  lemma FoundAfterEviction(t: Table, now: uint64, window: uint64, i: nat)
    requires i < |t| && t[i].IsValid() && !Stale(t[i], now, window)
    ensures Find(Evict(t, now, window), t[i].orderId) == Some(i) <==>
            forall j | 0 <= j < |t| && OnPath(t, i, j) ::
              t[j].IsValid() && !Stale(t[j], now, window) && t[j].orderId != t[i].orderId
  {
    var t' := Evict(t, now, window);
    assert t'[i] == t[i];
    FoundIff(t', i);
    forall j | 0 <= j < |t|
      ensures OnPath(t', i, j) == OnPath(t, i, j)
      ensures t'[j].IsValid() <==> t[j].IsValid() && !Stale(t[j], now, window)
      ensures t'[j].IsValid() ==> t'[j] == t[j]
    {
    }
  }

  /** No surviving record has an evicted one on its probe path. */
  ghost predicate EvictionHarmless(t: Table, now: uint64, window: uint64) {
    forall i, j | 0 <= i < |t| && 0 <= j < |t| && t[i].IsValid() && !Stale(t[i], now, window) && OnPath(t, i, j) ::
      !Stale(t[j], now, window)
  }

  /** Eviction keeps a chained table chained exactly when it is harmless. */
  lemma EvictionKeepsChainIff(t: Table, now: uint64, window: uint64)
    requires Chained(t)
    ensures Chained(Evict(t, now, window)) <==> EvictionHarmless(t, now, window)
  {
    var t' := Evict(t, now, window);
    forall i, j | 0 <= i < |t| && 0 <= j < |t| && t'[i].IsValid()
      ensures t'[i] == t[i] && !Stale(t[i], now, window) && OnPath(t', i, j) == OnPath(t, i, j)
    {
    }
    if Chained(t') {
      forall i, j | 0 <= i < |t| && 0 <= j < |t| && t[i].IsValid() && !Stale(t[i], now, window) && OnPath(t, i, j)
        ensures !Stale(t[j], now, window)
      {
        assert t'[i] == t[i] && OnPath(t', i, j);
        assert t'[j].IsValid();
      }
    }
  }

  /** The records of a map that are not older than the window. */
  function FreshOnly(m: map<uint64, PendingOrder>, now: uint64, window: uint64): map<uint64, PendingOrder> {
    map id | id in m && Sub64(now, m[id].placedNs) <= window :: m[id]
  }

  lemma EvictIsFreshOnly(t: Table, now: uint64, window: uint64)
    requires UniqueIds(t)
    ensures UniqueIds(Evict(t, now, window))
    ensures Contents(Evict(t, now, window)) == FreshOnly(Contents(t), now, window)
  {
    var t' := Evict(t, now, window);
    forall i | 0 <= i < |t| && t'[i].IsValid() ensures t'[i] == t[i] {
    }
    EvictKeepsFresh(t, now, window);
    var m, m' := FreshOnly(Contents(t), now, window), Contents(t');
    forall id ensures id in m' <==> id in m
              ensures id in m ==> m'[id] == m[id] {
      ContentsIn(t, id);
      ContentsIn(t', id);
      if id in m' { ContentsOf(t, m'[id]); }
      if id in m { ContentsOf(t', m[id]); }
    }
  }

  /** Even evicting a record that sits in its own home slot hides another one. */
  lemma EvictionHidesRecord()
    ensures
      var old2, new4 := PendingOrder(2, 1.0, 1000, 0), PendingOrder(4, 1.0, 1000, 900);
      var t := [old2, new4];
      && Home(2, 2) == 0 && Chained(t) && Find(t, 4) == Some(1)
      && Find(Evict(t, 1000, 500), 4) == None && new4 in Records(Evict(t, 1000, 500))
  {
    var old2, new4 := PendingOrder(2, 1.0, 1000, 0), PendingOrder(4, 1.0, 1000, 900);
    var t := [old2, new4];
    assert Home(2, 2) == 0 && Home(4, 2) == 0;
    assert Scan(t, 4, 1) == Hit(1);
    var t' := Evict(t, 1000, 500);
    assert !t'[0].IsValid() && t'[1] == new4;
  }
}
