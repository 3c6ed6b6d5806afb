/** The per-symbol table shared by the layering and cancel-spike detectors.

    Entries are never removed, so the probe chains never break; what can go wrong
    is a full table, where a new symbol takes over its home slot.  `Machine` is
    what one detector does with one entry; the isolation theorem is proved once,
    for every machine. */
module SymbolTable {
  import opened Basics
  import opened MachineInts
  import opened Circular

  datatype Row<E> = Row(valid: bool, symbol: uint16, entry: E)

  /** `claim` is what taking over a slot does to the entry found there. */
  datatype Machine<!E, !X, !O> = Machine(blank: E, claim: E -> E, step: (E, X) -> (E, O))

  datatype Input<X> = Input(symbol: uint16, x: X)

  function Home(symbol: uint16, n: nat): (h: nat)
    requires n > 0
    ensures h < n
  {
    And(symbol, n - 1)
  }

  /** The masked symbol is the remainder. */
  lemma HomeIsRemainder(symbol: uint16, n: nat)
    requires PowerOfTwo(n)
    ensures Home(symbol, n) == symbol % n
  {
    MaskIsMod(symbol, n);
  }

  /** The slot `find_or_insert` settles on, from probe `k`: the symbol's own row,
      else the first free one, else (full) the home slot. */
  function Locate<E>(t: seq<Row<E>>, symbol: uint16, k: nat): (i: nat)
    requires 0 < |t| && k <= |t|
    ensures i < |t|
    decreases |t| - k
  {
    if k == |t| then Home(symbol, |t|)
    else
      var i := Slot(Home(symbol, |t|), k, |t|);
      if !t[i].valid || t[i].symbol == symbol then i else Locate(t, symbol, k + 1)
  }

  function FindOrInsert<E>(t: seq<Row<E>>, symbol: uint16, claim: E -> E): (t': seq<Row<E>>)
    requires 0 < |t|
    ensures |t'| == |t|
  {
    var i := Locate(t, symbol, 0);
    if t[i].valid && t[i].symbol == symbol then t
    else t[i := Row(true, symbol, claim(t[i].entry))]
  }

  function Step<E, X, O>(m: Machine<E, X, O>, t: seq<Row<E>>, input: Input<X>): (r: (seq<Row<E>>, O))
    requires 0 < |t|
    ensures |r.0| == |t|
  {
    var t1 := FindOrInsert(t, input.symbol, m.claim);
    var i := Locate(t, input.symbol, 0);
    var (e, o) := m.step(t1[i].entry, input.x);
    (t1[i := t1[i].(entry := e)], o)
  }

  // ------------------------------------------------------------ probing

  ghost predicate Probing<E>(t: seq<Row<E>>, symbol: uint16, k: nat, idx: nat) {
    && k <= |t| && idx < |t|
    && Locate(t, symbol, 0) == Locate(t, symbol, k)
    && (k < |t| ==> idx == Slot(Home(symbol, |t|), k, |t|))
    && forall j | 0 <= j < |t| && Dist(Home(symbol, |t|), j, |t|) < k :: t[j].valid && t[j].symbol != symbol
  }

  lemma ProbeStep<E>(t: seq<Row<E>>, symbol: uint16, k: nat, idx: nat)
    requires Probing(t, symbol, k, idx) && k < |t|
    ensures !t[idx].valid || t[idx].symbol == symbol ==> Locate(t, symbol, 0) == idx
    ensures t[idx].valid && t[idx].symbol != symbol ==> Probing(t, symbol, k + 1, Next(idx, |t|))
  {
  }

  /** The loop ran out: every row belongs to another symbol. */
  lemma ProbedAll<E>(t: seq<Row<E>>, symbol: uint16, idx: nat)
    requires Probing(t, symbol, |t|, idx)
    ensures Locate(t, symbol, 0) == Home(symbol, |t|) && t[Home(symbol, |t|)].symbol != symbol
  {
    assert Dist(Home(symbol, |t|), Home(symbol, |t|), |t|) < |t|;
  }

  // ------------------------------------------------------------ invariant

  ghost predicate OnPath<E>(t: seq<Row<E>>, i: nat, j: nat)
    requires i < |t| && j < |t|
  {
    Dist(Home(t[i].symbol, |t|), j, |t|) < Dist(Home(t[i].symbol, |t|), i, |t|)
  }

  ghost predicate Chained<E(!new)>(t: seq<Row<E>>) {
    && (forall i, j | 0 <= i < |t| && 0 <= j < |t| && t[i].valid && t[j].valid && t[i].symbol == t[j].symbol :: i == j)
    && (forall i, j | 0 <= i < |t| && 0 <= j < |t| && t[i].valid && OnPath(t, i, j) :: t[j].valid)
  }

  ghost predicate FreeRowsBlank<E(!new)>(t: seq<Row<E>>, blank: E) {
    forall i | 0 <= i < |t| && !t[i].valid :: t[i].entry == blank
  }

  ghost predicate Holds<E(!new)>(t: seq<Row<E>>, symbol: uint16, e: E) {
    exists i :: 0 <= i < |t| && t[i].valid && t[i].symbol == symbol && t[i].entry == e
  }

  ghost predicate Knows<E(!new)>(t: seq<Row<E>>, symbol: uint16) {
    exists i :: 0 <= i < |t| && t[i].valid && t[i].symbol == symbol
  }

  lemma {:induction false} LocateStops<E>(t: seq<Row<E>>, symbol: uint16, k: nat)
    requires 0 < |t| && k <= |t|
    ensures
      var i, h := Locate(t, symbol, k), Home(symbol, |t|);
      || (&& k <= Dist(h, i, |t|) && (!t[i].valid || t[i].symbol == symbol)
          && forall j | 0 <= j < |t| && k <= Dist(h, j, |t|) < Dist(h, i, |t|) ::
               t[j].valid && t[j].symbol != symbol)
      || (i == h && forall j | 0 <= j < |t| && k <= Dist(h, j, |t|) :: t[j].valid && t[j].symbol != symbol)
    decreases |t| - k
  {
    if k < |t| {
      var i := Slot(Home(symbol, |t|), k, |t|);
      if t[i].valid && t[i].symbol != symbol { LocateStops(t, symbol, k + 1); }
    }
  }

  /** A row that is there is found, whatever shares its cluster. */
  lemma LocateFinds<E(!new)>(t: seq<Row<E>>, i: nat)
    requires Chained(t) && i < |t| && t[i].valid
    ensures Locate(t, t[i].symbol, 0) == i
  {
    var j := Locate(t, t[i].symbol, 0);
    LocateStops(t, t[i].symbol, 0);
    assert !t[j].valid ==> !OnPath(t, i, j);
  }

  /** With a free row left, an unknown symbol gets a free row. */
  lemma LocateFree<E(!new)>(t: seq<Row<E>>, symbol: uint16, z: nat)
    requires Chained(t) && !Knows(t, symbol) && z < |t| && !t[z].valid
    ensures !t[Locate(t, symbol, 0)].valid
  {
    LocateStops(t, symbol, 0);
  }

  lemma ClaimKeepsChain<E(!new)>(t: seq<Row<E>>, symbol: uint16, e: E)
    requires Chained(t) && !Knows(t, symbol) && 0 < |t| && !t[Locate(t, symbol, 0)].valid
    ensures Chained(t[Locate(t, symbol, 0) := Row(true, symbol, e)])
  {
    var i := Locate(t, symbol, 0);
    var t' := t[i := Row(true, symbol, e)];
    LocateStops(t, symbol, 0);
    forall a, b | 0 <= a < |t| && 0 <= b < |t| && t'[a].valid && OnPath(t', a, b) ensures t'[b].valid {
      if a != i { assert OnPath(t, a, b); }
    }
  }

  lemma WriteKeepsChain<E(!new)>(t: seq<Row<E>>, i: nat, e: E)
    requires Chained(t) && i < |t| && t[i].valid
    ensures Chained(t[i := t[i].(entry := e)])
  {
    var t' := t[i := t[i].(entry := e)];
    forall a, b | 0 <= a < |t| && 0 <= b < |t| && t'[a].valid && OnPath(t', a, b) ensures t'[b].valid {
      assert OnPath(t, a, b);
    }
  }

  // ------------------------------------------------------------ runs, and symbol isolation

  function EmptyTable<E>(blank: E, n: nat): seq<Row<E>> {
    seq(n, _ => Row(false, 0, blank))
  }

  function Run<E, X, O>(m: Machine<E, X, O>, n: nat, xs: seq<Input<X>>): (t: seq<Row<E>>)
    requires n > 0
    ensures |t| == n
  {
    if xs == [] then EmptyTable(m.blank, n) else Step(m, Run(m, n, xs[..|xs| - 1]), xs[|xs| - 1]).0
  }

  /** What the detector answers to the last input of a run. */
  function Output<E, X, O>(m: Machine<E, X, O>, n: nat, xs: seq<Input<X>>): O
    requires n > 0 && xs != []
  {
    Step(m, Run(m, n, xs[..|xs| - 1]), xs[|xs| - 1]).1
  }

  function Symbols<X>(xs: seq<Input<X>>): set<uint16> {
    if xs == [] then {} else Symbols(xs[..|xs| - 1]) + {xs[|xs| - 1].symbol}
  }

  /** The inputs of one symbol. */
  function Only<X>(xs: seq<Input<X>>, symbol: uint16): seq<Input<X>> {
    if xs == [] then []
    else Only(xs[..|xs| - 1], symbol) + if xs[|xs| - 1].symbol == symbol then [xs[|xs| - 1]] else []
  }

  /** An entry driven on from `e` by one symbol's inputs. */
  function EntryFrom<E, X, O>(m: Machine<E, X, O>, e: E, own: seq<Input<X>>): E {
    if own == [] then e else m.step(EntryFrom(m, e, own[..|own| - 1]), own[|own| - 1].x).0
  }

  /** One entry on its own, driven by one symbol's inputs from the first on. */
  function Entry<E, X, O>(m: Machine<E, X, O>, own: seq<Input<X>>): E {
    EntryFrom(m, m.claim(m.blank), own)
  }

  /** Every row belongs to a symbol of the run and is what its inputs make of it. */
  ghost predicate RowsOwn<E, X, O>(m: Machine<E, X, O>, t: seq<Row<E>>, xs: seq<Input<X>>) {
    forall i | 0 <= i < |t| && t[i].valid ::
      t[i].symbol in Symbols(xs) && t[i].entry == Entry(m, Only(xs, t[i].symbol))
  }

  ghost predicate AllKnown<E(!new), X>(t: seq<Row<E>>, xs: seq<Input<X>>) {
    forall s | s in Symbols(xs) :: Knows(t, s)
  }

  ghost predicate Isolated<E(!new), X, O>(m: Machine<E, X, O>, t: seq<Row<E>>, xs: seq<Input<X>>) {
    Chained(t) && FreeRowsBlank(t, m.blank) && RowsOwn(m, t, xs) && AllKnown(t, xs)
  }

  lemma {:induction false} ValidRowsCounted<E(!new)>(t: seq<Row<E>>, k: nat) returns (ss: set<uint16>)
    requires Chained(t) && k <= |t| && forall i | 0 <= i < |t| :: t[i].valid
    ensures |ss| == k && forall s | s in ss :: exists i :: 0 <= i < k && t[i].symbol == s
  {
    if k == 0 { return {}; }
    ss := ValidRowsCounted(t, k - 1);
    assert t[k - 1].symbol !in ss;
    ss := ss + {t[k - 1].symbol};
  }

  lemma RoomLeft<E(!new), X, O>(m: Machine<E, X, O>, t: seq<Row<E>>, xs: seq<Input<X>>) returns (z: nat)
    requires Isolated(m, t, xs) && |Symbols(xs)| < |t|
    ensures z < |t| && !t[z].valid
  {
    if forall i | 0 <= i < |t| :: t[i].valid {
      var ss := ValidRowsCounted(t, |t|);
      SubsetSize(ss, Symbols(xs));
      assert false;
    }
    z :| 0 <= z < |t| && !t[z].valid;
  }

  lemma RowWrittenOwn<E(!new), X, O>(m: Machine<E, X, O>, t: seq<Row<E>>, init: seq<Input<X>>, x: Input<X>,
                                     i: nat, e: E)
    requires RowsOwn(m, t, init) && i < |t| && e == Entry(m, Only(init + [x], x.symbol))
    requires forall a | 0 <= a < |t| && a != i && t[a].valid :: t[a].symbol != x.symbol
    ensures RowsOwn(m, t[i := Row(true, x.symbol, e)], init + [x])
  {
    var t', xs := t[i := Row(true, x.symbol, e)], init + [x];
    EntryGrows(m, init, x);
    forall a | 0 <= a < |t'| && t'[a].valid
      ensures t'[a].symbol in Symbols(xs) && t'[a].entry == Entry(m, Only(xs, t'[a].symbol))
    {
      if a != i { OthersStay(init, x, t[a].symbol); }
    }
  }

  lemma RowWrittenKnown<E(!new), X>(t: seq<Row<E>>, init: seq<Input<X>>, x: Input<X>, i: nat, e: E)
    requires AllKnown(t, init) && i < |t| && (t[i].valid ==> t[i].symbol == x.symbol)
    ensures AllKnown(t[i := Row(true, x.symbol, e)], init + [x])
  {
    var t', xs := t[i := Row(true, x.symbol, e)], init + [x];
    assert xs[..|xs| - 1] == init;
    forall s | s in Symbols(xs) ensures Knows(t', s) {
      if s == x.symbol {
        assert t'[i].valid && t'[i].symbol == s;
      } else {
        assert s in Symbols(init) && Knows(t, s);
        var a :| 0 <= a < |t| && t[a].valid && t[a].symbol == s;
        assert t'[a].valid && t'[a].symbol == s;
      }
    }
  }

  /** Writing the row of the input's symbol, found or just claimed. */
  lemma RowWritten<E(!new), X, O>(m: Machine<E, X, O>, t: seq<Row<E>>, init: seq<Input<X>>, x: Input<X>, i: nat, e: E)
    requires Isolated(m, t, init) && i < |t|
    requires if t[i].valid then t[i].symbol == x.symbol else x.symbol !in Symbols(init)
    requires Chained(t[i := Row(true, x.symbol, e)])
    requires e == Entry(m, Only(init + [x], x.symbol))
    ensures Isolated(m, t[i := Row(true, x.symbol, e)], init + [x])
  {
    forall a | 0 <= a < |t| && a != i && t[a].valid ensures t[a].symbol != x.symbol {
      assert t[a].symbol in Symbols(init);
    }
    RowWrittenOwn(m, t, init, x, i, e);
    RowWrittenKnown(t, init, x, i, e);
  }

  /** One input of a symbol already known. */
  lemma KnownStep<E(!new), X, O>(m: Machine<E, X, O>, t: seq<Row<E>>, init: seq<Input<X>>, x: Input<X>)
    requires Isolated(m, t, init) && Knows(t, x.symbol) && 0 < |t|
    ensures
      var (t', o) := Step(m, t, x);
      Isolated(m, t', init + [x]) && o == m.step(Entry(m, Only(init, x.symbol)), x.x).1
  {
    var i :| 0 <= i < |t| && t[i].valid && t[i].symbol == x.symbol;
    LocateFinds(t, i);
    var e := m.step(t[i].entry, x.x).0;
    WriteKeepsChain(t, i, e);
    EntryGrows(m, init, x);
    assert t[i := t[i].(entry := e)] == t[i := Row(true, x.symbol, e)];
    RowWritten(m, t, init, x, i, e);
  }

  /** The first input of a symbol, while there is room. */
  lemma NewStep<E(!new), X, O>(m: Machine<E, X, O>, t: seq<Row<E>>, init: seq<Input<X>>, x: Input<X>)
    requires Isolated(m, t, init) && x.symbol !in Symbols(init) && |Symbols(init)| < |t|
    ensures
      var (t', o) := Step(m, t, x);
      Isolated(m, t', init + [x]) && o == m.step(Entry(m, Only(init, x.symbol)), x.x).1
  {
    assert !Knows(t, x.symbol);
    var z := RoomLeft(m, t, init);
    LocateFree(t, x.symbol, z);
    var i := Locate(t, x.symbol, 0);
    StepClaims(m, t, x, i);
    NothingOwn(init, x.symbol);
    var e := m.step(m.claim(m.blank), x.x).0;
    ClaimKeepsChain(t, x.symbol, e);
    EntryGrows(m, init, x);
    RowWritten(m, t, init, x, i, e);
  }

  lemma StepClaims<E(!new), X, O>(m: Machine<E, X, O>, t: seq<Row<E>>, x: Input<X>, i: nat)
    requires 0 < |t| && i == Locate(t, x.symbol, 0) && !t[i].valid && t[i].entry == m.blank
    ensures
      var (e, o) := m.step(m.claim(m.blank), x.x);
      Step(m, t, x) == (t[i := Row(true, x.symbol, e)], o)
  {
    var claimed := Row(true, x.symbol, m.claim(m.blank));
    var e := m.step(m.claim(m.blank), x.x).0;
    assert FindOrInsert(t, x.symbol, m.claim) == t[i := claimed];
    assert t[i := claimed][i := claimed.(entry := e)] == t[i := Row(true, x.symbol, e)];
  }

  lemma EntryGrows<E, X, O>(m: Machine<E, X, O>, init: seq<Input<X>>, x: Input<X>)
    ensures Symbols(init + [x]) == Symbols(init) + {x.symbol}
    ensures Entry(m, Only(init + [x], x.symbol)) == m.step(Entry(m, Only(init, x.symbol)), x.x).0
  {
    var xs := init + [x];
    assert xs[..|xs| - 1] == init;
    var own := Only(xs, x.symbol);
    assert own == Only(init, x.symbol) + [x];
    assert own[..|own| - 1] == Only(init, x.symbol);
  }

  lemma OthersStay<X>(init: seq<Input<X>>, x: Input<X>, symbol: uint16)
    requires symbol != x.symbol
    ensures Only(init + [x], symbol) == Only(init, symbol)
  {
    assert (init + [x])[..|init + [x]| - 1] == init;
  }

  lemma {:induction false} NothingOwn<X>(xs: seq<Input<X>>, symbol: uint16)
    requires symbol !in Symbols(xs)
    ensures Only(xs, symbol) == []
  {
    if xs != [] { NothingOwn(xs[..|xs| - 1], symbol); }
  }

  lemma SymbolsGrow<X>(xs: seq<Input<X>>)
    requires xs != []
    ensures Symbols(xs[..|xs| - 1]) <= Symbols(xs) && xs[|xs| - 1].symbol in Symbols(xs)
    ensures |Symbols(xs[..|xs| - 1])| <= |Symbols(xs)|
    ensures xs[|xs| - 1].symbol !in Symbols(xs[..|xs| - 1]) ==> |Symbols(xs[..|xs| - 1])| < |Symbols(xs)|
  {
    var init, s := xs[..|xs| - 1], xs[|xs| - 1].symbol;
    SubsetSize(Symbols(init), Symbols(xs));
  }

  /** While a run has at most as many symbols as rows, every row is what its own
      symbol's inputs alone would make of it. */
  lemma {:induction false} RunIsIsolated<E(!new), X, O>(m: Machine<E, X, O>, n: nat, xs: seq<Input<X>>)
    requires n > 0 && |Symbols(xs)| <= n
    ensures Isolated(m, Run(m, n, xs), xs)
    ensures xs != [] ==>
      var last := xs[|xs| - 1];
      Output(m, n, xs) == m.step(Entry(m, Only(xs[..|xs| - 1], last.symbol)), last.x).1
  {
    if xs != [] {
      var init, last := xs[..|xs| - 1], xs[|xs| - 1];
      assert init + [last] == xs;
      SymbolsGrow(xs);
      RunIsIsolated(m, n, init);
      if last.symbol in Symbols(init) {
        KnownStep(m, Run(m, n, init), init, last);
      } else {
        NewStep(m, Run(m, n, init), init, last);
      }
    }
  }

  lemma {:induction false} OnlyTwice<X>(xs: seq<Input<X>>, symbol: uint16)
    ensures Only(Only(xs, symbol), symbol) == Only(xs, symbol)
    ensures Symbols(Only(xs, symbol)) <= {symbol}
    ensures Only(xs, symbol) != [] ==> Only(xs, symbol)[|Only(xs, symbol)| - 1].symbol == symbol
  {
    if xs != [] {
      var init, last := xs[..|xs| - 1], xs[|xs| - 1];
      OnlyTwice(init, symbol);
      if last.symbol == symbol {
        var own := Only(xs, symbol);
        assert own[..|own| - 1] == Only(init, symbol);
      } else {
        assert Only(xs, symbol) == Only(init, symbol);
      }
    }
  }

  /** Symbol isolation: whatever the interleaving and the hash collisions, the
      answer to an input, and the entry it leaves, are those of a detector fed
      only that symbol's inputs. */
  lemma SymbolIsolation<E(!new), X, O>(m: Machine<E, X, O>, n: nat, xs: seq<Input<X>>)
    requires n > 0 && xs != [] && |Symbols(xs)| <= n
    ensures
      var symbol := xs[|xs| - 1].symbol;
      var own := Only(xs, symbol);
      && own != [] && Output(m, n, xs) == Output(m, n, own)
      && Holds(Run(m, n, xs), symbol, Entry(m, own)) && Holds(Run(m, n, own), symbol, Entry(m, own))
  {
    var init, last := xs[..|xs| - 1], xs[|xs| - 1];
    var symbol, own := last.symbol, Only(xs, last.symbol);
    assert own == Only(init, symbol) + [last] && own[..|own| - 1] == Only(init, symbol);
    RunIsIsolated(m, n, xs);
    OnlyTwice(xs, symbol);
    OnlyTwice(init, symbol);
    SubsetSize(Symbols(own), {symbol});
    RunIsIsolated(m, n, own);
    SymbolsGrow(xs);
    SymbolsGrow(own);
    KnownHolds(m, Run(m, n, xs), xs, symbol);
    KnownHolds(m, Run(m, n, own), own, symbol);
  }

  lemma KnownHolds<E(!new), X, O>(m: Machine<E, X, O>, t: seq<Row<E>>, xs: seq<Input<X>>, symbol: uint16)
    requires Isolated(m, t, xs) && symbol in Symbols(xs)
    ensures Holds(t, symbol, Entry(m, Only(xs, symbol)))
  {
    assert Knows(t, symbol);
  }

  // ------------------------------------------------------------ runs with any number of symbols

  /** The entry a step starts from: the symbol's own, or a claimed one. */
  function Start<E, X, O>(m: Machine<E, X, O>, t: seq<Row<E>>, symbol: uint16): E
    requires 0 < |t|
  {
    var row := t[Locate(t, symbol, 0)];
    if row.valid && row.symbol == symbol then row.entry else m.claim(row.entry)
  }

  lemma StepWrites<E, X, O>(m: Machine<E, X, O>, t: seq<Row<E>>, x: Input<X>)
    requires 0 < |t|
    ensures
      var (e, o) := m.step(Start(m, t, x.symbol), x.x);
      Step(m, t, x) == (t[Locate(t, x.symbol, 0) := Row(true, x.symbol, e)], o)
  {
    var i := Locate(t, x.symbol, 0);
    var e := m.step(Start(m, t, x.symbol), x.x).0;
    assert Step(m, t, x).0 == t[i := Row(true, x.symbol, e)];
  }

  /** The located row is the symbol's own exactly if it has one. */
  lemma LocateKnown<E(!new)>(t: seq<Row<E>>, symbol: uint16)
    requires Chained(t) && 0 < |t|
    ensures
      var row := t[Locate(t, symbol, 0)];
      Knows(t, symbol) <==> row.valid && row.symbol == symbol
  {
    if Knows(t, symbol) {
      var i :| 0 <= i < |t| && t[i].valid && t[i].symbol == symbol;
      LocateFinds(t, i);
    }
  }

  /** A new symbol gets a free row, or its home row if there is none. */
  lemma LocateNew<E(!new)>(t: seq<Row<E>>, symbol: uint16)
    requires Chained(t) && !Knows(t, symbol) && 0 < |t|
    ensures
      var i := Locate(t, symbol, 0);
      if forall z | 0 <= z < |t| :: t[z].valid then i == Home(symbol, |t|) else !t[i].valid
  {
    if z :| 0 <= z < |t| && !t[z].valid {
      LocateFree(t, symbol, z);
    } else {
      LocateStops(t, symbol, 0);
    }
  }

  lemma TakeoverKeepsChain<E(!new)>(t: seq<Row<E>>, symbol: uint16, i: nat, e: E)
    requires Chained(t) && !Knows(t, symbol) && i < |t| && forall z | 0 <= z < |t| :: t[z].valid
    ensures Chained(t[i := Row(true, symbol, e)])
  {
  }

  lemma StepKeepsChain<E(!new), X, O>(m: Machine<E, X, O>, t: seq<Row<E>>, x: Input<X>)
    requires Chained(t) && FreeRowsBlank(t, m.blank) && 0 < |t|
    ensures Chained(Step(m, t, x).0) && FreeRowsBlank(Step(m, t, x).0, m.blank)
  {
    var i := Locate(t, x.symbol, 0);
    var e := m.step(Start(m, t, x.symbol), x.x).0;
    StepWrites(m, t, x);
    LocateKnown(t, x.symbol);
    if Knows(t, x.symbol) {
      WriteKeepsChain(t, i, e);
      assert t[i := t[i].(entry := e)] == t[i := Row(true, x.symbol, e)];
    } else if t[i].valid {
      LocateNew(t, x.symbol);
      TakeoverKeepsChain(t, x.symbol, i, e);
    } else {
      ClaimKeepsChain(t, x.symbol, e);
    }
  }

  /** Rows are found and free rows are blank in every run, over capacity or not. */
  lemma {:induction false} RunKeepsChain<E(!new), X, O>(m: Machine<E, X, O>, n: nat, xs: seq<Input<X>>)
    requires n > 0
    ensures Chained(Run(m, n, xs)) && FreeRowsBlank(Run(m, n, xs), m.blank)
  {
    if xs != [] {
      var init, last := xs[..|xs| - 1], xs[|xs| - 1];
      RunKeepsChain(m, n, init);
      StepKeepsChain(m, Run(m, n, init), last);
    }
  }

  /** Row `i` was claimed for `symbol` by input `k`, and has been that symbol's since. */
  ghost predicate HeldSince<E(!new), X, O>(m: Machine<E, X, O>, n: nat, xs: seq<Input<X>>,
                                           i: nat, symbol: uint16, k: nat)
    requires n > 0
  {
    && k < |xs| && i < n && xs[k].symbol == symbol
    && !Knows(Run(m, n, xs[..k]), symbol) && i == Locate(Run(m, n, xs[..k]), symbol, 0)
    && forall j | k < j <= |xs| :: Run(m, n, xs[..j])[i].valid && Run(m, n, xs[..j])[i].symbol == symbol
  }

  /** What the claim at input `k` and the symbol's inputs from there on make of row `i`. */
  function SinceClaim<E, X, O>(m: Machine<E, X, O>, n: nat, xs: seq<Input<X>>, i: nat, symbol: uint16, k: nat): E
    requires n > 0 && i < n && k <= |xs|
  {
    EntryFrom(m, m.claim(Run(m, n, xs[..k])[i].entry), Only(xs[k..], symbol))
  }

  lemma HeldOn<E(!new), X, O>(m: Machine<E, X, O>, n: nat, init: seq<Input<X>>, x: Input<X>,
                              i: nat, symbol: uint16, k: nat)
    requires n > 0 && HeldSince(m, n, init, i, symbol, k)
    requires Run(m, n, init + [x])[i].valid && Run(m, n, init + [x])[i].symbol == symbol
    ensures HeldSince(m, n, init + [x], i, symbol, k)
  {
    var xs := init + [x];
    assert xs[..k] == init[..k];
    forall j | k < j <= |xs| ensures Run(m, n, xs[..j])[i].valid && Run(m, n, xs[..j])[i].symbol == symbol {
      if j <= |init| { assert xs[..j] == init[..j]; } else { assert xs[..j] == xs; }
    }
  }

  /** One more input of the symbol drives its entry on; others leave it alone. */
  lemma SinceClaimSnoc<E, X, O>(m: Machine<E, X, O>, n: nat, init: seq<Input<X>>, x: Input<X>,
                                i: nat, symbol: uint16, k: nat)
    requires n > 0 && i < n && k <= |init|
    ensures
      var e := SinceClaim(m, n, init, i, symbol, k);
      SinceClaim(m, n, init + [x], i, symbol, k) == if x.symbol == symbol then m.step(e, x.x).0 else e
  {
    var xs, own := init + [x], Only(init[k..], symbol);
    assert xs[..k] == init[..k] && xs[k..] == init[k..] + [x];
    OnlySnoc(init[k..], x, symbol);
    EntryFromSnoc(m, m.claim(Run(m, n, init[..k])[i].entry), own, x);
    assert Only(xs[k..], symbol) == own + if x.symbol == symbol then [x] else [];
    assert own + [] == own;
  }

  lemma EntryFromSnoc<E, X, O>(m: Machine<E, X, O>, e: E, own: seq<Input<X>>, x: Input<X>)
    ensures EntryFrom(m, e, own + [x]) == m.step(EntryFrom(m, e, own), x.x).0
  {
    assert (own + [x])[..|own + [x]| - 1] == own;
  }

  lemma OnlySnoc<X>(init: seq<Input<X>>, x: Input<X>, symbol: uint16)
    ensures Only(init + [x], symbol) == Only(init, symbol) + if x.symbol == symbol then [x] else []
  {
    assert (init + [x])[..|init + [x]| - 1] == init;
  }

  lemma JustClaimed<E, X, O>(m: Machine<E, X, O>, n: nat, init: seq<Input<X>>, x: Input<X>, i: nat)
    requires n > 0 && i < n
    ensures
      var xs := init + [x];
      SinceClaim(m, n, xs, i, x.symbol, |init|) == m.step(m.claim(Run(m, n, init)[i].entry), x.x).0
  {
    var xs := init + [x];
    var e := m.claim(Run(m, n, init)[i].entry);
    assert xs[..|init|] == init && xs[|init|..] == [] + [x];
    OnlySnoc([], x, x.symbol);
    assert Only(xs[|init|..], x.symbol) == [] + [x];
    EntryFromSnoc(m, e, [], x);
  }

  lemma RunSnoc<E, X, O>(m: Machine<E, X, O>, n: nat, init: seq<Input<X>>, x: Input<X>)
    requires n > 0
    ensures Run(m, n, init + [x]) == Step(m, Run(m, n, init), x).0
    ensures Output(m, n, init + [x]) == Step(m, Run(m, n, init), x).1
  {
    assert (init + [x])[..|init + [x]| - 1] == init;
  }

  lemma TenancyStep<E(!new), X, O>(m: Machine<E, X, O>, n: nat, init: seq<Input<X>>, x: Input<X>, i: nat, k0: nat)
    returns (k: nat)
    requires n > 0 && i < n
    requires
      var t := Run(m, n, init);
      Chained(t) && (t[i].valid ==> k0 <= |init| && HeldSince(m, n, init, i, t[i].symbol, k0)
                                    && t[i].entry == SinceClaim(m, n, init, i, t[i].symbol, k0))
    requires Run(m, n, init + [x])[i].valid
    ensures
      var row := Run(m, n, init + [x])[i];
      k <= |init| && HeldSince(m, n, init + [x], i, row.symbol, k)
      && row.entry == SinceClaim(m, n, init + [x], i, row.symbol, k)
  {
    var t := Run(m, n, init);
    RunSnoc(m, n, init, x);
    StepWrites(m, t, x);
    LocateKnown(t, x.symbol);
    var at := Locate(t, x.symbol, 0);
    if i == at && !Knows(t, x.symbol) {
      k := |init|;
      JustClaimed(m, n, init, x, i);
      ClaimHolds(m, n, init, x, i);
    } else {
      k := k0;
      if i != at && t[i].symbol == x.symbol { LocateFinds(t, i); }
      HeldOn(m, n, init, x, i, t[i].symbol, k);
      SinceClaimSnoc(m, n, init, x, i, t[i].symbol, k);
    }
  }

  lemma ClaimHolds<E(!new), X, O>(m: Machine<E, X, O>, n: nat, init: seq<Input<X>>, x: Input<X>, i: nat)
    requires n > 0 && i < n && !Knows(Run(m, n, init), x.symbol) && i == Locate(Run(m, n, init), x.symbol, 0)
    requires Run(m, n, init + [x])[i].valid && Run(m, n, init + [x])[i].symbol == x.symbol
    ensures HeldSince(m, n, init + [x], i, x.symbol, |init|)
  {
    var xs := init + [x];
    assert xs[..|init|] == init && xs[..|xs|] == xs;
  }

  /** In every run, however many symbols it has: each row is what its symbol's
      inputs since it was last claimed make of the entry found then. */
  lemma {:induction false} RowsFollowTheirClaim<E(!new), X, O>(m: Machine<E, X, O>, n: nat, xs: seq<Input<X>>, i: nat)
    returns (k: nat)
    requires n > 0 && i < n && Run(m, n, xs)[i].valid
    ensures
      var row := Run(m, n, xs)[i];
      k <= |xs| && HeldSince(m, n, xs, i, row.symbol, k) && row.entry == SinceClaim(m, n, xs, i, row.symbol, k)
    decreases |xs|
  {
    if xs == [] {
      assert false;
    } else {
      var init, x := xs[..|xs| - 1], xs[|xs| - 1];
      assert init + [x] == xs;
      RunKeepsChain(m, n, init);
      var k0 := 0;
      if Run(m, n, init)[i].valid { k0 := RowsFollowTheirClaim(m, n, init, i); }
      k := TenancyStep(m, n, init, x, i, k0);
    }
  }

  /** Likewise each answer: it is what the machine says after the symbol's inputs
      since its row was last claimed. */
  lemma AnswersFollowTheClaim<E(!new), X, O>(m: Machine<E, X, O>, n: nat, init: seq<Input<X>>, x: Input<X>)
    returns (i: nat, k: nat)
    requires n > 0
    ensures k <= |init| && HeldSince(m, n, init + [x], i, x.symbol, k)
    ensures Output(m, n, init + [x]) == m.step(SinceClaim(m, n, init, i, x.symbol, k), x.x).1
  {
    var t := Run(m, n, init);
    RunKeepsChain(m, n, init);
    RunSnoc(m, n, init, x);
    StepWrites(m, t, x);
    LocateKnown(t, x.symbol);
    i := Locate(t, x.symbol, 0);
    if Knows(t, x.symbol) {
      k := RowsFollowTheirClaim(m, n, init, i);
      HeldOn(m, n, init, x, i, x.symbol, k);
    } else {
      k := |init|;
      ClaimHolds(m, n, init, x, i);
      assert init[k..] == [] && init[..k] == init;
    }
  }
}
