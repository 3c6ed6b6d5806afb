/** Publication of the segment header: init_header against validate_header.

    As in `ShmProtocol`, a plain read may return any value of a field not older
    than the reader's view of it; a release store records what the writer had
    stored by then, and an acquire load that returns it takes that record over. */
module ShmHeader {
  import opened Basics
  import opened MachineInts

  datatype Field = Magic | Version | Capacity | ElementSize | WriteIdx | ReadIdx

  const MAGIC: uint64 := 0x4C41545449434500
  const VERSION: uint64 := 1

  /** A plain or a release store. */
  datatype Put = Put(field: Field, value: uint64, release: bool)

  function Plain(field: Field, value: uint64): Put {
    Put(field, value, false)
  }

  function Release(field: Field, value: uint64): Put {
    Put(field, value, true)
  }

  /** init_header: zero the region, store the indices, then the header, magic last. */
  function Program(capacity: uint32, elementSize: uint32): seq<Put> {
    [Plain(Magic, 0), Plain(Version, 0), Plain(Capacity, 0), Plain(ElementSize, 0),
     Plain(WriteIdx, 0), Plain(ReadIdx, 0),
     Release(WriteIdx, 0), Release(ReadIdx, 0),
     Plain(ElementSize, elementSize), Plain(Capacity, capacity), Plain(Version, VERSION),
     Release(Magic, MAGIC)]
  }

  datatype Error = NoError | BadMagic | VersionMismatch | SizeMismatch

  datatype Reader = Idle | AtVersion | AtCapacity | AtElementSize

  /** For each field, a place in its history. */
  type View = map<Field, nat>

  /** A value written, with the view it releases (empty for a plain store). */
  datatype Written = Written(value: uint64, view: View)

  type Histories = map<Field, seq<Written>>

  datatype State = State(
    capacity: uint32,
    elementSize: uint32,
    program: seq<Put>,         // the writer's stores, in order
    done: nat,                 // how many of them it has performed
    values: Histories,         // every value of each field, oldest first
    reader: Reader,
    view: View,                // the oldest value of each field the reader may still see
    outcomes: seq<Error>)      // results of validate_header, in order

  const FIELDS: set<Field> := {Magic, Version, Capacity, ElementSize, WriteIdx, ReadIdx}

  function Init(capacity: uint32, elementSize: uint32): State {
    State(capacity, elementSize, Program(capacity, elementSize), 0,
          map f | f in FIELDS :: [Written(0, map[])], Idle, map f | f in FIELDS :: 0, [])
  }

  datatype Step = Store | Load(at: nat)

  /** The field validate_header reads next, and what it should hold. */
  function Reads(r: Reader): Field {
    match r
    case Idle => Magic
    case AtVersion => Version
    case AtCapacity => Capacity
    case AtElementSize => ElementSize
  }

  function Expected(s: State): uint64 {
    match s.reader
    case Idle => MAGIC
    case AtVersion => VERSION
    case AtCapacity => s.capacity
    case AtElementSize => s.elementSize
  }

  function Complaint(r: Reader): Error {
    match r
    case Idle => BadMagic
    case AtVersion => VersionMismatch
    case _ => SizeMismatch
  }

  function After(r: Reader): Reader {
    match r
    case Idle => AtVersion
    case AtVersion => AtCapacity
    case AtCapacity => AtElementSize
    case AtElementSize => Idle
  }

  ghost predicate Shaped(s: State) {
    && (forall f: Field :: f in s.values && f in s.view)
    && (forall f: Field :: s.view[f] < |s.values[f]|)
  }

  ghost predicate Enabled(s: State, step: Step) {
    && Shaped(s)
    && match step
       case Store => s.done < |s.program|
       case Load(at) => s.view[Reads(s.reader)] <= at < |s.values[Reads(s.reader)]|
  }

  function Latest(values: Histories): View
    requires forall f | f in values :: values[f] != []
  {
    map f | f in values :: |values[f]| - 1
  }

  function Join(a: View, b: View): View {
    map f | f in a :: if f in b && a[f] < b[f] then b[f] else a[f]
  }

  /** The view after an acquire load of the magic that returned entry `at`. */
  function Acquired(values: Histories, view: View, at: nat): View
    requires Magic in values && at < |values[Magic]|
  {
    Join(view[Magic := at], values[Magic][at].view)
  }

  /** The histories after one store; a release store records how far they go. */
  function Stored(values: Histories, p: Put): Histories
    requires p.field in values && forall f | f in values :: values[f] != []
  {
    var plain := values[p.field := values[p.field] + [Written(p.value, map[])]];
    if p.release then values[p.field := values[p.field] + [Written(p.value, Latest(plain))]] else plain
  }

  function Apply(s: State, step: Step): State
    requires Enabled(s, step)
  {
    match step
    case Store =>
      s.(done := s.done + 1, values := Stored(s.values, s.program[s.done]))
    case Load(at) =>
      var f := Reads(s.reader);
      var v := s.values[f][at].value;
      var view := if s.reader.Idle? then Acquired(s.values, s.view, at) else s.view[f := at];
      if v != Expected(s) then
        s.(view := view, reader := Idle, outcomes := s.outcomes + [Complaint(s.reader)])
      else if s.reader.AtElementSize? then
        s.(view := view, reader := Idle, outcomes := s.outcomes + [NoError])
      else
        s.(view := view, reader := After(s.reader))
  }

  // ------------------------------------------------------------ invariant

  /** The value a field holds after the first `n` stores. */
  function Holds(p: seq<Put>, n: nat, f: Field): uint64
    requires n <= |p|
  {
    if n == 0 then 0 else if p[n - 1].field == f then p[n - 1].value else Holds(p, n - 1, f)
  }

  ghost predicate Complete(s: State) {
    s.done == |s.program|
  }

  /** What makes a store order safe: the magic is last, and the rest is then final. */
  ghost predicate MagicLast(p: seq<Put>) {
    && p != [] && p[|p| - 1] == Release(Magic, MAGIC)
    && forall i | 0 <= i < |p| - 1 :: !(p[i].field.Magic? && p[i].value == MAGIC)
  }

  ghost predicate FinalHeader(p: seq<Put>, capacity: uint32, elementSize: uint32) {
    && Holds(p, |p|, Version) == VERSION && Holds(p, |p|, Capacity) == capacity
    && Holds(p, |p|, ElementSize) == elementSize
    && Holds(p, |p|, WriteIdx) == 0 && Holds(p, |p|, ReadIdx) == 0
  }

  lemma ProgramIsSafe(capacity: uint32, elementSize: uint32)
    ensures MagicLast(Program(capacity, elementSize))
    ensures FinalHeader(Program(capacity, elementSize), capacity, elementSize)
    ensures MAGIC == 0x4C41545449434500 && VERSION == 1
  {
    var p := Program(capacity, elementSize);
    forall f: Field ensures Holds(p, 12, f) ==
      (match f case Magic => MAGIC case Version => VERSION case Capacity => capacity case ElementSize => elementSize
               case _ => Holds(p, 8, f)) {
      assert Holds(p, 9, f) == if f == ElementSize then elementSize else Holds(p, 8, f);
      assert Holds(p, 10, f) == if f == Capacity then capacity else Holds(p, 9, f);
      assert Holds(p, 11, f) == if f == Version then VERSION else Holds(p, 10, f);
    }
    assert Holds(p, 8, WriteIdx) == Holds(p, 7, WriteIdx) == 0;
    assert Holds(p, 8, ReadIdx) == 0;
  }

  /** Each field's newest value is what the stores so far put there. */
  ghost predicate NewestInv(values: Histories, p: seq<Put>, n: nat)
    requires n <= |p|
  {
    forall f: Field :: f in values && values[f] != [] && values[f][|values[f]| - 1].value == Holds(p, n, f)
  }

  /** No view goes past the end of a history. */
  ghost predicate Within(view: View, values: Histories) {
    forall f: Field :: f in view ==> f in values && view[f] < |values[f]|
  }

  /** The view goes to the end of every history. */
  ghost predicate Covers(view: View, values: Histories) {
    forall f: Field :: f in values && f in view && view[f] == |values[f]| - 1
  }

  /** The magic is there only once everything is, and releases all of it. */
  ghost predicate MagicInv(values: Histories, complete: bool)
    requires Magic in values
  {
    forall i | 0 <= i < |values[Magic]| ::
      var e := values[Magic][i];
      Within(e.view, values)
      && (e.value == MAGIC ==> complete && i == |values[Magic]| - 1 && Covers(e.view, values))
  }

  ghost predicate SeesAll(s: State) {
    Covers(s.view, s.values)
  }

  ghost predicate WriterInv(p: seq<Put>, n: nat, values: Histories, capacity: uint32, elementSize: uint32) {
    && n <= |p| && MagicLast(p) && FinalHeader(p, capacity, elementSize)
    && NewestInv(values, p, n) && MagicInv(values, n == |p|)
  }

  /** A reader past the magic, or one that ever succeeded, sees only final values. */
  ghost predicate ReaderInv(values: Histories, complete: bool, reader: Reader, view: View, outcomes: seq<Error>) {
    && (forall f: Field :: f in values && f in view && view[f] < |values[f]|)
    && (!reader.Idle? || NoError in outcomes ==> complete && Covers(view, values))
    && (forall x | x in outcomes :: x == NoError || x == BadMagic)
  }

  ghost predicate Inv(s: State) {
    && WriterInv(s.program, s.done, s.values, s.capacity, s.elementSize)
    && ReaderInv(s.values, Complete(s), s.reader, s.view, s.outcomes)
  }

  lemma StoredNewest(values: Histories, p: seq<Put>, n: nat)
    requires n < |p| && NewestInv(values, p, n)
    ensures NewestInv(Stored(values, p[n]), p, n + 1)
  {
  }

  lemma StoredMagic(values: Histories, p: seq<Put>, n: nat)
    requires n < |p| && MagicLast(p) && NewestInv(values, p, n) && MagicInv(values, false)
    ensures Magic in Stored(values, p[n]) && MagicInv(Stored(values, p[n]), n + 1 == |p|)
  {
    var put := p[n];
    var values': Histories := Stored(values, put);
    assert forall f: Field :: f in values' && |values[f]| <= |values'[f]|;
    forall i | 0 <= i < |values'[Magic]|
      ensures
        var e := values'[Magic][i];
        Within(e.view, values')
        && (e.value == MAGIC ==> n + 1 == |p| && i == |values'[Magic]| - 1 && Covers(e.view, values'))
    {
      if i < |values[Magic]| {
        assert values'[Magic][i] == values[Magic][i];
        assert Within(values[Magic][i].view, values);
      } else {
        assert values'[Magic][i].value == put.value && put.field.Magic?;
      }
    }
  }

  lemma StoredWriter(p: seq<Put>, n: nat, values: Histories, capacity: uint32, elementSize: uint32)
    requires WriterInv(p, n, values, capacity, elementSize) && n < |p|
    ensures WriterInv(p, n + 1, Stored(values, p[n]), capacity, elementSize)
  {
    StoredNewest(values, p, n);
    StoredMagic(values, p, n);
  }

  lemma StoredReader(values: Histories, put: Put, reader: Reader, view: View, outcomes: seq<Error>, complete: bool)
    requires (forall f: Field :: f in values && values[f] != []) && ReaderInv(values, false, reader, view, outcomes)
    ensures ReaderInv(Stored(values, put), complete, reader, view, outcomes)
  {
  }

  lemma StoreKeepsInv(s: State)
    requires Inv(s) && Enabled(s, Store)
    ensures Inv(Apply(s, Store))
  {
    StoredWriter(s.program, s.done, s.values, s.capacity, s.elementSize);
    StoredReader(s.values, s.program[s.done], s.reader, s.view, s.outcomes, s.done + 1 == |s.program|);
  }

  /** The magic is returned only when everything is stored, and then all of it is seen. */
  lemma AcquireMagic(values: Histories, complete: bool, view: View, at: nat)
    requires Magic in values && MagicInv(values, complete) && Magic in view && view[Magic] <= at < |values[Magic]|
    requires forall f: Field :: f in values && f in view && view[f] < |values[f]|
    ensures
      var seen := Acquired(values, view, at);
      && (forall f: Field :: f in seen && seen[f] < |values[f]|)
      && (values[Magic][at].value == MAGIC ==> complete && Covers(seen, values))
      && (Covers(view, values) ==> Covers(seen, values))
  {
    assert Within(values[Magic][at].view, values);
  }

  lemma LoadMagicKeepsInv(s: State, at: nat)
    requires Inv(s) && Enabled(s, Load(at)) && s.reader.Idle?
    ensures Inv(Apply(s, Load(at)))
  {
    var t, seen := Apply(s, Load(at)), Acquired(s.values, s.view, at);
    AcquireMagic(s.values, Complete(s), s.view, at);
    assert t.view == seen && t.values == s.values && Complete(t) == Complete(s);
    assert ReaderInv(t.values, Complete(t), t.reader, t.view, t.outcomes);
  }

  /** Later fields can only be read at their final values. */
  lemma FieldIsFinal(s: State, at: nat)
    requires Inv(s) && Enabled(s, Load(at)) && !s.reader.Idle?
    ensures at == s.view[Reads(s.reader)] == |s.values[Reads(s.reader)]| - 1
    ensures s.values[Reads(s.reader)][at].value == Expected(s)
  {
    assert Holds(s.program, s.done, Reads(s.reader)) == Expected(s);
  }

  lemma LoadFieldKeepsInv(s: State, at: nat)
    requires Inv(s) && Enabled(s, Load(at)) && !s.reader.Idle?
    ensures Inv(Apply(s, Load(at)))
  {
    FieldIsFinal(s, at);
    var t := Apply(s, Load(at));
    assert t.view == s.view && t.values == s.values;
  }

  // ------------------------------------------------------------ runs

  ghost function Exec(s: State, steps: seq<Step>): Option<State> {
    if steps == [] then Some(s)
    else
      match Exec(s, steps[..|steps| - 1])
      case None => None
      case Some(mid) =>
        if Enabled(mid, steps[|steps| - 1]) then Some(Apply(mid, steps[|steps| - 1])) else None
  }

  lemma {:induction false} ExecKeepsInv(s: State, steps: seq<Step>)
    requires Inv(s) && Exec(s, steps).Some?
    ensures
      var t := Exec(s, steps).value;
      Inv(t) && t.capacity == s.capacity && t.elementSize == s.elementSize
  {
    if steps != [] {
      var init, last := steps[..|steps| - 1], steps[|steps| - 1];
      ExecKeepsInv(s, init);
      match last
      case Store => StoreKeepsInv(Exec(s, init).value);
      case Load(at) =>
        var mid := Exec(s, init).value;
        if mid.reader.Idle? { LoadMagicKeepsInv(mid, at); } else { LoadFieldKeepsInv(mid, at); }
    }
  }

  lemma InitInv(capacity: uint32, elementSize: uint32)
    ensures Inv(Init(capacity, elementSize))
  {
    ProgramIsSafe(capacity, elementSize);
    forall f: Field ensures f in FIELDS {
      match f case Magic => case Version => case Capacity => case ElementSize => case WriteIdx => case ReadIdx =>
    }
  }

  ghost predicate NewestIsZero(s: State, f: Field) {
    f in s.values && s.values[f] != [] && s.values[f][|s.values[f]| - 1].value == 0
  }

  /** On a fresh segment, validation at any moment of init_header ends in BadMagic
      or success; and a success means that every store was made and is visible,
      with both indices zero. */
  lemma ValidationIsSafe(capacity: uint32, elementSize: uint32, steps: seq<Step>)
    requires Exec(Init(capacity, elementSize), steps).Some?
    ensures
      var t := Exec(Init(capacity, elementSize), steps).value;
      && (forall x | x in t.outcomes :: x == NoError || x == BadMagic)
      && (NoError in t.outcomes ==>
            Complete(t) && SeesAll(t) && NewestIsZero(t, WriteIdx) && NewestIsZero(t, ReadIdx))
  {
    InitInv(capacity, elementSize);
    ExecKeepsInv(Init(capacity, elementSize), steps);
  }

  /** Once every store is made, a reader that loads the newest values gets
      through: each load moves to the next field, and the fourth ends in success. */
  lemma NewestLoadAdvances(s: State)
    requires Inv(s) && Complete(s)
    ensures
      var newest := Load(|s.values[Reads(s.reader)]| - 1);
      && Enabled(s, newest)
      && var t := Apply(s, newest);
         t.reader == After(s.reader)
         && t.outcomes == if s.reader.AtElementSize? then s.outcomes + [NoError] else s.outcomes
  {
    assert Holds(s.program, |s.program|, Magic) == MAGIC;
    assert Holds(s.program, |s.program|, Reads(s.reader)) == Expected(s);
  }

  // ------------------------------------------------------------ any segment

  /** The field holds, or held, `v`. */
  ghost predicate Held(values: Histories, f: Field, v: uint64) {
    f in values && exists i :: 0 <= i < |values[f]| && values[f][i].value == v
  }

  /** It holds, or held, something else. */
  ghost predicate HeldOther(values: Histories, f: Field, v: uint64) {
    f in values && exists i :: 0 <= i < |values[f]| && values[f][i].value != v
  }

  /** What a reader past each test must have seen. */
  ghost predicate TestsPassed(s: State) {
    && (!s.reader.Idle? ==> Held(s.values, Magic, 0x4C41545449434500))
    && (s.reader.AtCapacity? || s.reader.AtElementSize? ==> Held(s.values, Version, 1))
    && (s.reader.AtElementSize? ==> Held(s.values, Capacity, s.capacity))
  }

  /** What each result of validation must have been based on. */
  ghost predicate ResultsGrounded(s: State) {
    && (NoError in s.outcomes ==>
          Held(s.values, Magic, 0x4C41545449434500) && Held(s.values, Version, 1)
          && Held(s.values, Capacity, s.capacity) && Held(s.values, ElementSize, s.elementSize))
    && (BadMagic in s.outcomes ==> HeldOther(s.values, Magic, 0x4C41545449434500))
    && (VersionMismatch in s.outcomes ==> Held(s.values, Magic, 0x4C41545449434500) && HeldOther(s.values, Version, 1))
    && (SizeMismatch in s.outcomes ==>
          Held(s.values, Magic, 0x4C41545449434500) && Held(s.values, Version, 1)
          && (HeldOther(s.values, Capacity, s.capacity)
              || (Held(s.values, Capacity, s.capacity) && HeldOther(s.values, ElementSize, s.elementSize))))
  }

  lemma StoreKeepsHeld(values: Histories, p: Put, f: Field, v: uint64)
    requires p.field in values && forall g | g in values :: values[g] != []
    ensures Held(values, f, v) ==> Held(Stored(values, p), f, v)
    ensures HeldOther(values, f, v) ==> HeldOther(Stored(values, p), f, v)
  {
    var values' := Stored(values, p);
    if Held(values, f, v) {
      var i :| 0 <= i < |values[f]| && values[f][i].value == v;
      assert values'[f][i] == values[f][i];
    }
    if HeldOther(values, f, v) {
      var i :| 0 <= i < |values[f]| && values[f][i].value != v;
      assert values'[f][i] == values[f][i];
    }
  }

  lemma StoreKeepsGrounds(s: State)
    requires Enabled(s, Store) && TestsPassed(s) && ResultsGrounded(s)
    ensures TestsPassed(Apply(s, Store)) && ResultsGrounded(Apply(s, Store))
  {
    forall f: Field, v: uint64
      ensures Held(s.values, f, v) ==> Held(Apply(s, Store).values, f, v)
      ensures HeldOther(s.values, f, v) ==> HeldOther(Apply(s, Store).values, f, v)
    {
      StoreKeepsHeld(s.values, s.program[s.done], f, v);
    }
  }

  lemma LoadKeepsGrounds(s: State, at: nat)
    requires Enabled(s, Load(at)) && TestsPassed(s) && ResultsGrounded(s)
    ensures TestsPassed(Apply(s, Load(at))) && ResultsGrounded(Apply(s, Load(at)))
  {
    var f := Reads(s.reader);
    assert f in s.values && 0 <= at < |s.values[f]|;
    if s.values[f][at].value == Expected(s) {
      assert Held(s.values, f, Expected(s));
    } else {
      assert HeldOther(s.values, f, Expected(s));
    }
  }

  /** Whatever a segment holds and its writer stores meanwhile: validation succeeds only
      if it has read this build's magic, version 1, its capacity and its element size,
      and each failure was read off the first field that is wrong. */
  lemma {:induction false} ResultsAreGrounded(s: State, steps: seq<Step>)
    requires s.reader.Idle? && s.outcomes == [] && Exec(s, steps).Some?
    ensures TestsPassed(Exec(s, steps).value) && ResultsGrounded(Exec(s, steps).value)
  {
    if steps != [] {
      var init, last := steps[..|steps| - 1], steps[|steps| - 1];
      ResultsAreGrounded(s, init);
      match last
      case Store => StoreKeepsGrounds(Exec(s, init).value);
      case Load(at) => LoadKeepsGrounds(Exec(s, init).value, at);
    }
  }
}
