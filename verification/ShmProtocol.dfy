/** The single-producer single-consumer ring as a step system.

    Memory follows the release/acquire rules of section 6.9.2 [intro.multithread]
    of ISO/IEC 14882:2020, stated with timestamps and views.  Each word of a slot
    keeps the history of the values written to it.  A plain read may return any
    value not older than the reader's view of that word; an acquire load of an
    index may return any store not older than the last one seen, and then takes
    over the view that the store published.  A slot is copied word by word, in
    any order, so a read torn between two elements is possible in the model
    unless the protocol prevents it. */
module ShmProtocol {
  import opened Basics
  import opened MachineInts

  type Word = uint64
  type Item = seq<Word>

  /** A value written to one word, stamped with its place in that word's history. */
  datatype Entry = Entry(stamp: nat, word: Word)

  /** One word of one slot. */
  datatype Cell = Cell(slot: nat, word: nat)

  type History = seq<Entry>
  type Memory = map<Cell, History>
  type View = map<Cell, nat>

  /** For each word the plain reads of it so far: which item each was for. */
  type ReadLog = map<Cell, seq<nat>>

  /** A store to an index: the 64-bit value, the unbounded count it stands for,
      and the view it releases: of the writes made, for write_idx, and of how many
      reads were made, for read_idx. */
  datatype Store = Store(idx: uint64, count: nat, view: View)

  datatype Producer =
    | PIdle
    | PCalled(item: Item)
    | PHaveOwn(item: Item, w: uint64)
    | PCopying(item: Item, w: uint64, todo: set<nat>)
    | PPublished

  datatype Consumer =
    | CIdle
    | CCalled
    | CHaveOwn(r: uint64)
    | CCopying(r: uint64, w: uint64, todo: set<nat>, buf: Item)
    | CPublished(r: uint64, w: uint64)
    | CReattaching(w: uint64)

  datatype State = State(
    capacity: nat,              // N
    words: nat,                 // words per element
    mem: Memory,
    writeStores: seq<Store>,    // every store to write_idx, oldest first
    readStores: seq<Store>,     // every store to read_idx
    producer: Producer,
    blocking: bool,             // the current call is write_blocking
    seenRead: nat,              // latest store to read_idx the producer has seen
    consumer: Consumer,
    seenWrite: nat,             // latest store to write_idx the consumer has seen
    view: View,                 // the consumer's view of the slots
    readLog: ReadLog,            // every plain read of a slot word
    seenReads: View,            // how many of them the producer knows to have happened
    received: nat, processed: nat, dropped: nat,
    depths: seq<uint64>,
    sent: seq<Item>,            // items published
    base: nat,                  // where the consumer last (re)attached
    delivered: seq<Item>)       // items read since then
  {
    /** Items published and items consumed (or skipped), unbounded. */
    function W(): nat requires writeStores != [] { |writeStores| - 1 }
    function R(): nat requires readStores != [] { readStores[|readStores| - 1].count }
  }

  function Wrap(n: nat): uint64 {
    n % TWO_64
  }

  function Latest(h: History): nat {
    if h == [] then 0 else h[|h| - 1].stamp
  }

  /** What the producer knows of the slots: its own last writes. */
  function LatestView(mem: Memory): View {
    map c | c in mem :: Latest(mem[c])
  }

  /** What the consumer releases: its reads so far. */
  function ReadCounts(log: ReadLog): View {
    map c | c in log :: |log[c]|
  }

  function Join(a: View, b: View): View {
    map c | c in a :: if c in b && a[c] < b[c] then b[c] else a[c]
  }

  function Cells(n: nat, words: nat): set<Cell> {
    set i, k | 0 <= i < n && 0 <= k < words :: Cell(i, k)
  }

  function Words(n: nat): (ks: set<nat>)
    ensures forall k: nat :: k in ks <==> k < n
  {
    if n == 0 then {} else Words(n - 1) + {n - 1}
  }

  function Init(capacity: nat, words: nat): State {
    var zeroView := map c | c in Cells(capacity, words) :: 0;
    State(capacity, words,
          map c | c in Cells(capacity, words) :: [Entry(0, 0)],
          [Store(0, 0, zeroView)], [Store(0, 0, zeroView)],
          PIdle, false, 0, CIdle, 0, zeroView,
          map c | c in Cells(capacity, words) :: [], zeroView,
          0, 0, 0, [], [], 0, [])
  }

  // ------------------------------------------------------------ steps

  datatype Step =
    | Write(item: Item, blocking: bool)   // try_write or write_blocking is called
    | LoadWriteIdx
    | LoadReadIdx(seen: nat)              // acquire; any store not older than the last seen
    | CopyIn(word: nat)
    | PublishWrite
    | CountProcessed
    | Read                                // try_read is called
    | LoadOwnReadIdx
    | LoadOtherWriteIdx(seen: nat)
    | CopyOut(word: nat, at: nat)         // any entry of the word not older than the view
    | PublishRead
    | RecordDepth
    | Reattach(seen: nat)                 // reattach loads write_idx
    | StoreReattach

  function SlotOf(s: State, idx: uint64): (i: nat)
    requires s.capacity > 0
    ensures i < s.capacity
  {
    And(idx, s.capacity - 1)
  }

  ghost predicate Grid<T>(g: map<Cell, T>, n: nat, words: nat) {
    forall c :: c in g <==> c.slot < n && c.word < words
  }

  /** Shapes that the operations index into. */
  ghost predicate Shaped(s: State) {
    && PowerOfTwo(s.capacity) && 2 <= s.capacity < TWO_64
    && Grid(s.mem, s.capacity, s.words) && Grid(s.view, s.capacity, s.words)
    && Grid(s.readLog, s.capacity, s.words)
    && |s.writeStores| > 0 && |s.readStores| > 0
    && s.seenRead < |s.readStores| && s.seenWrite < |s.writeStores|
  }

  /** Appending a write to a cell's history. */
  function Written(mem: Memory, c: Cell, e: Entry): Memory
    requires c in mem
  {
    mem[c := mem[c] + [e]]
  }

  // The producer: try_write, and write_blocking as a loop over it.

  function CallWrite(s: State, item: Item, blocking: bool): State {
    s.(producer := PCalled(item), blocking := blocking, received := s.received + 1)
  }

  function DoLoadWriteIdx(s: State): State
    requires Shaped(s) && s.producer.PCalled?
  {
    s.(producer := PHaveOwn(s.producer.item, s.writeStores[s.W()].idx))
  }

  ghost predicate CanLoadReadIdx(s: State, m: nat) {
    Shaped(s) && s.producer.PHaveOwn? && s.seenRead <= m < |s.readStores|
  }

  /** If full, the drop is counted and write_blocking calls try_write again. */
  function DoLoadReadIdx(s: State, m: nat): State
    requires CanLoadReadIdx(s, m)
  {
    var p, seenReads := s.producer, Join(s.seenReads, s.readStores[m].view);
    if Sub64(p.w, s.readStores[m].idx) >= s.capacity then
      if s.blocking then
        s.(seenRead := m, seenReads := seenReads,
           dropped := s.dropped + 1, producer := PCalled(p.item), received := s.received + 1)
      else
        s.(seenRead := m, seenReads := seenReads, dropped := s.dropped + 1, producer := PIdle)
    else
      s.(seenRead := m, seenReads := seenReads, producer := PCopying(p.item, p.w, Words(s.words)))
  }

  ghost predicate CanCopyIn(s: State, k: nat) {
    && Shaped(s) && s.producer.PCopying? && k in s.producer.todo
    && k < s.words && |s.producer.item| == s.words
  }

  function DoCopyIn(s: State, k: nat): State
    requires CanCopyIn(s, k)
  {
    var p := s.producer;
    s.(producer := p.(todo := p.todo - {k}),
       mem := Written(s.mem, Cell(SlotOf(s, p.w), k), Entry(s.W() + 1, p.item[k])))
  }

  ghost predicate CanPublishWrite(s: State) {
    Shaped(s) && s.producer.PCopying? && s.producer.todo == {}
  }

  function DoPublishWrite(s: State): State
    requires CanPublishWrite(s)
  {
    s.(producer := PPublished,
       sent := s.sent + [s.producer.item],
       writeStores := s.writeStores + [Store(Add64(s.producer.w, 1), s.W() + 1, LatestView(s.mem))])
  }

  function DoCountProcessed(s: State): State {
    s.(producer := PIdle, processed := s.processed + 1)
  }

  // The consumer: try_read and reattach.

  function DoLoadOwnReadIdx(s: State): State
    requires Shaped(s)
  {
    s.(consumer := CHaveOwn(s.readStores[|s.readStores| - 1].idx))
  }

  ghost predicate CanLoadOtherWriteIdx(s: State, m: nat) {
    Shaped(s) && s.consumer.CHaveOwn? && s.seenWrite <= m < |s.writeStores|
  }

  function DoLoadOtherWriteIdx(s: State, m: nat): State
    requires CanLoadOtherWriteIdx(s, m)
  {
    var store := s.writeStores[m];
    s.(seenWrite := m, view := Join(s.view, store.view),
       consumer := if s.consumer.r == store.idx then CIdle
                   else CCopying(s.consumer.r, store.idx, Words(s.words), seq(s.words, _ => 0)))
  }

  ghost predicate CanCopyOut(s: State, k: nat, at: nat) {
    && Shaped(s) && s.consumer.CCopying? && k in s.consumer.todo
    && k < s.words && |s.consumer.buf| == s.words
    && var c := Cell(SlotOf(s, s.consumer.r), k);
       at < |s.mem[c]| && s.view[c] <= s.mem[c][at].stamp
  }

  function DoCopyOut(s: State, k: nat, at: nat): State
    requires CanCopyOut(s, k, at)
  {
    var c := s.consumer;
    var cell := Cell(SlotOf(s, c.r), k);
    var e := s.mem[cell][at];
    s.(consumer := c.(todo := c.todo - {k}, buf := c.buf[k := e.word]),
       view := s.view[cell := e.stamp],
       readLog := s.readLog[cell := s.readLog[cell] + [s.R()]])
  }

  ghost predicate CanPublishRead(s: State) {
    Shaped(s) && s.consumer.CCopying? && s.consumer.todo == {}
  }

  function DoPublishRead(s: State): State
    requires CanPublishRead(s)
  {
    var c := s.consumer;
    s.(consumer := CPublished(c.r, c.w),
       delivered := s.delivered + [c.buf],
       readStores := s.readStores + [Store(Add64(c.r, 1), s.R() + 1, ReadCounts(s.readLog))])
  }

  function DoRecordDepth(s: State): State
    requires s.consumer.CPublished?
  {
    s.(consumer := CIdle,
       depths := s.depths + [Sub64(s.consumer.w, Add64(s.consumer.r, 1))])
  }

  ghost predicate CanReattach(s: State, m: nat) {
    Shaped(s) && s.consumer.CIdle? && s.seenWrite <= m < |s.writeStores|
  }

  function DoReattach(s: State, m: nat): State
    requires CanReattach(s, m)
  {
    s.(consumer := CReattaching(s.writeStores[m].idx),
       seenWrite := m, view := Join(s.view, s.writeStores[m].view))
  }

  function DoStoreReattach(s: State): State
    requires s.consumer.CReattaching?
  {
    s.(consumer := CIdle,
       readStores := s.readStores + [Store(s.consumer.w, s.seenWrite, ReadCounts(s.readLog))],
       base := s.seenWrite, delivered := [])
  }

  ghost predicate Enabled(s: State, step: Step) {
    Shaped(s) &&
    match step
    case Write(item, _) => s.producer.PIdle? && |item| == s.words
    case LoadWriteIdx => s.producer.PCalled?
    case LoadReadIdx(m) => CanLoadReadIdx(s, m)
    case CopyIn(k) => CanCopyIn(s, k)
    case PublishWrite => CanPublishWrite(s)
    case CountProcessed => s.producer.PPublished?
    case Read => s.consumer.CIdle?
    case LoadOwnReadIdx => s.consumer.CCalled?
    case LoadOtherWriteIdx(m) => CanLoadOtherWriteIdx(s, m)
    case CopyOut(k, at) => CanCopyOut(s, k, at)
    case PublishRead => CanPublishRead(s)
    case RecordDepth => s.consumer.CPublished?
    case Reattach(m) => CanReattach(s, m)
    case StoreReattach => s.consumer.CReattaching?
  }

  function Apply(s: State, step: Step): State
    requires Enabled(s, step)
  {
    match step
    case Write(item, blocking) => CallWrite(s, item, blocking)
    case LoadWriteIdx => DoLoadWriteIdx(s)
    case LoadReadIdx(m) => DoLoadReadIdx(s, m)
    case CopyIn(k) => DoCopyIn(s, k)
    case PublishWrite => DoPublishWrite(s)
    case CountProcessed => DoCountProcessed(s)
    case Read => s.(consumer := CCalled)
    case LoadOwnReadIdx => DoLoadOwnReadIdx(s)
    case LoadOtherWriteIdx(m) => DoLoadOtherWriteIdx(s, m)
    case CopyOut(k, at) => DoCopyOut(s, k, at)
    case PublishRead => DoPublishRead(s)
    case RecordDepth => DoRecordDepth(s)
    case Reattach(m) => DoReattach(s, m)
    case StoreReattach => DoStoreReattach(s)
  }

  // ------------------------------------------------------------ invariants

  function Mod(j: nat, n: nat): (i: nat)
    requires n > 0
    ensures i < n
  {
    j % n
  }

  /** The stores to write_idx count up by one; the 64-bit value is the count, wrapped. */
  ghost predicate WriteIdxInv(stores: seq<Store>) {
    forall i | 0 <= i < |stores| :: stores[i].count == i && stores[i].idx == Wrap(i)
  }

  /** The stores to read_idx never go back. */
  ghost predicate ReadIdxInv(stores: seq<Store>) {
    && (forall i | 0 <= i < |stores| :: stores[i].idx == Wrap(stores[i].count))
    && (forall i, j | 0 <= i <= j < |stores| :: stores[i].count <= stores[j].count)
  }

  ghost predicate CountInv(s: State)
    requires Shaped(s)
  {
    && |s.sent| == s.W()
    && s.R() <= s.seenWrite
    && s.W() - s.readStores[s.seenRead].count <= s.capacity
  }

  ghost predicate ProducerInv(s: State)
    requires Shaped(s)
  {
    && (s.producer.PHaveOwn? || s.producer.PCopying? ==> s.producer.w == Wrap(s.W()))
    && (s.producer.PCalled? || s.producer.PHaveOwn? || s.producer.PCopying? ==> |s.producer.item| == s.words)
    && (s.producer.PCopying? ==>
          && s.W() - s.readStores[s.seenRead].count < s.capacity
          && forall k | k in s.producer.todo :: k < s.words)
  }

  ghost predicate ConsumerInv(s: State)
    requires Shaped(s)
  {
    && (s.consumer.CHaveOwn? || s.consumer.CCopying? ==> s.consumer.r == Wrap(s.R()))
    && (s.consumer.CCopying? ==>
          && s.R() < s.seenWrite && s.consumer.w == Wrap(s.seenWrite)
          && forall k | k in s.consumer.todo :: k < s.words)
    && (s.consumer.CPublished? ==>
          && 0 < s.R() <= s.seenWrite < s.R() + s.capacity
          && s.consumer.r == Wrap(s.R() - 1) && s.consumer.w == Wrap(s.seenWrite))
    && (s.consumer.CReattaching? ==> s.consumer.w == Wrap(s.seenWrite))
  }

  /** What the consumer has copied so far is the item due. */
  ghost predicate BufferInv(words: nat, c: Consumer, sent: seq<Item>, r: nat) {
    c.CCopying? ==>
      && r < |sent| && |sent[r]| == words && |c.buf| == words
      && forall k | 0 <= k < words && k !in c.todo :: c.buf[k] == sent[r][k]
  }

  /** The item being copied in, and the words still to copy. */
  function InFlight(p: Producer): Option<(Item, set<nat>)> {
    if p.PCopying? then Some((p.item, p.todo)) else None
  }

  /** An entry is the initial zero, or the right word of a published item or of
      the part already copied of the item in flight. */
  ghost predicate Holds(n: nat, e: Entry, c: Cell, sent: seq<Item>, fly: Option<(Item, set<nat>)>)
    requires n > 0
  {
    e.stamp == 0 ||
    var j, k := e.stamp - 1, c.word;
    && Mod(j, n) == c.slot
    && (|| (j < |sent| && k < |sent[j]| && sent[j][k] == e.word)
        || (j == |sent| && fly.Some? && k !in fly.value.1 && k < |fly.value.0| && fly.value.0[k] == e.word))
  }

  ghost predicate MemoryInv(n: nat, mem: Memory, sent: seq<Item>, fly: Option<(Item, set<nat>)>)
    requires n > 0
  {
    forall c, a | c in mem && 0 <= a < |mem[c]| :: Holds(n, mem[c][a], c, sent, fly)
  }

  /** The view knows every word of item `j`, or of a later item in its slot. */
  ghost predicate Covers(n: nat, words: nat, v: View, j: nat)
    requires n > 0 && Grid(v, n, words)
  {
    forall k | 0 <= k < words :: v[Cell(Mod(j, n), k)] > j
  }

  ghost predicate CoversBelow(n: nat, words: nat, v: View, w: nat)
    requires n > 0 && Grid(v, n, words)
  {
    forall j | 0 <= j < w :: Covers(n, words, v, j)
  }

  /** No view is ahead of the memory. */
  ghost predicate Within(v: View, mem: Memory) {
    forall c | c in mem :: c in v && v[c] <= Latest(mem[c])
  }

  ghost predicate BoundInv(mem: Memory, view: View, stores: seq<Store>) {
    && (forall c | c in mem :: mem[c] != [])
    && Within(view, mem)
    && forall a | 0 <= a < |stores| :: Within(stores[a].view, mem)
  }

  /** A store to write_idx releases a view of everything published before it. */
  ghost predicate StoresInv(n: nat, words: nat, stores: seq<Store>)
    requires n > 0
  {
    forall i | 0 <= i < |stores| :: Grid(stores[i].view, n, words) && CoversBelow(n, words, stores[i].view, i)
  }

  ghost predicate FlightInv(n: nat, words: nat, mem: Memory, w: nat, fly: Option<(Item, set<nat>)>)
    requires n > 0 && Grid(mem, n, words)
  {
    fly.Some? ==>
      && |fly.value.0| == words
      && forall k | 0 <= k < words && k !in fly.value.1 :: Latest(mem[Cell(Mod(w, n), k)]) > w
  }

  ghost predicate DeliveryInv(sent: seq<Item>, base: nat, r: nat, delivered: seq<Item>) {
    base <= r <= |sent| && delivered == sent[base..r]
  }

  ghost predicate CounterInv(s: State) {
    && s.received == s.processed + s.dropped + (if s.producer.PIdle? then 0 else 1)
    && s.processed + (if s.producer.PPublished? then 1 else 0) == |s.sent|
  }

  ghost predicate DepthInv(n: nat, depths: seq<uint64>) {
    forall d | d in depths :: d < n
  }

  ghost predicate ItemInv(words: nat, sent: seq<Item>) {
    forall j | 0 <= j < |sent| :: |sent[j]| == words
  }

  ghost predicate IndexInv(s: State)
    requires Shaped(s)
  {
    WriteIdxInv(s.writeStores) && ReadIdxInv(s.readStores) && CountInv(s) && ProducerInv(s) && ConsumerInv(s)
  }

  ghost predicate ContentInv(s: State)
    requires Shaped(s)
  {
    && ItemInv(s.words, s.sent)
    && BufferInv(s.words, s.consumer, s.sent, s.R())
    && MemoryInv(s.capacity, s.mem, s.sent, InFlight(s.producer))
    && FlightInv(s.capacity, s.words, s.mem, s.W(), InFlight(s.producer))
  }

  ghost predicate ViewInv(s: State)
    requires Shaped(s)
  {
    && CoversBelow(s.capacity, s.words, LatestView(s.mem), s.W())
    && StoresInv(s.capacity, s.words, s.writeStores)
    && CoversBelow(s.capacity, s.words, s.view, s.seenWrite)
    && BoundInv(s.mem, s.view, s.writeStores)
  }

  ghost predicate ReportInv(s: State)
    requires Shaped(s)
  {
    DeliveryInv(s.sent, s.base, s.R(), s.delivered) && CounterInv(s) && DepthInv(s.capacity, s.depths)
  }

  ghost predicate Inv(s: State) {
    Shaped(s) && IndexInv(s) && ContentInv(s) && ViewInv(s) && ReportInv(s)
  }

  // ------------------------------------------------------------ 64-bit tests are the unbounded tests

  lemma WrapDifference(a: nat, b: nat)
    requires a <= b && b - a < TWO_64
    ensures Sub64(Wrap(b), Wrap(a)) == b - a
    ensures Wrap(a) == Wrap(b) <==> a == b
  {
  }

  lemma WrapSuccessor(a: nat)
    ensures Add64(Wrap(a), 1) == Wrap(a + 1)
  {
  }

  /** The slot chosen from a 64-bit index is the unbounded count modulo N. */
  lemma SlotIsMod(s: State, j: nat)
    requires PowerOfTwo(s.capacity) && s.capacity < TWO_64
    ensures SlotOf(s, Wrap(j)) == Mod(j, s.capacity)
  {
    Mask64(j, s.capacity);
  }

  lemma SameSlot(a: nat, b: nat, n: nat)
    requires n > 0 && a <= b < a + n && Mod(a, n) == Mod(b, n)
    ensures a == b
  {
    var p, q := a / n, b / n;
    assert a == n * p + a % n && b == n * q + b % n;
    MulGap(n, p, q);
    MulGap(n, q, p);
  }

  // ------------------------------------------------------------ every step keeps the invariants

  lemma InitInv(capacity: nat, words: nat)
    requires PowerOfTwo(capacity) && 2 <= capacity < TWO_64
    ensures Inv(Init(capacity, words))
  {
  }

  lemma JoinCovers(n: nat, words: nat, a: View, b: View, wa: nat, wb: nat)
    requires n > 0 && Grid(a, n, words) && Grid(b, n, words) && wa <= wb
    requires CoversBelow(n, words, a, wa) && CoversBelow(n, words, b, wb)
    ensures Grid(Join(a, b), n, words) && CoversBelow(n, words, Join(a, b), wb)
  {
    forall j | 0 <= j < wb ensures Covers(n, words, Join(a, b), j) {
      assert Covers(n, words, b, j);
    }
  }

  /** A consumer step touches neither memory nor what is published. */
  ghost predicate SameSlots(s: State, t: State) {
    && Shaped(s) && Shaped(t)
    && t.capacity == s.capacity && t.words == s.words && t.mem == s.mem && t.sent == s.sent
    && t.writeStores == s.writeStores && t.producer == s.producer
  }

  lemma ContentFrame(s: State, t: State)
    requires SameSlots(s, t) && ContentInv(s) && BufferInv(t.words, t.consumer, t.sent, t.R())
    ensures ContentInv(t)
  {
  }

  lemma ViewFrame(s: State, t: State)
    requires SameSlots(s, t) && ViewInv(s)
    requires CoversBelow(t.capacity, t.words, t.view, t.seenWrite) && Within(t.view, t.mem)
    ensures ViewInv(t)
  {
  }

  ghost predicate SameReports(s: State, t: State) {
    && Shaped(s) && Shaped(t)
    && t.capacity == s.capacity && t.producer == s.producer && t.sent == s.sent && t.R() == s.R()
    && t.base == s.base && t.delivered == s.delivered && t.depths == s.depths
    && t.received == s.received && t.processed == s.processed && t.dropped == s.dropped
  }

  lemma ReportFrame(s: State, t: State)
    requires SameReports(s, t) && ReportInv(s)
    ensures ReportInv(t)
  {
  }

  /** A step that changes only where the producer is and what it has counted. */
  ghost predicate SameConsumer(s: State, t: State) {
    && Shaped(s) && Shaped(t)
    && t.capacity == s.capacity && t.words == s.words && t.mem == s.mem && t.view == s.view && t.sent == s.sent
    && t.writeStores == s.writeStores && t.readStores == s.readStores
    && t.consumer == s.consumer && t.seenWrite == s.seenWrite
    && t.base == s.base && t.delivered == s.delivered && t.depths == s.depths
  }

  lemma IdleContentFrame(s: State, t: State)
    requires SameConsumer(s, t) && ContentInv(s) && InFlight(s.producer) == InFlight(t.producer) == None
    ensures ContentInv(t)
  {
  }

  lemma IdleViewFrame(s: State, t: State)
    requires SameConsumer(s, t) && ViewInv(s)
    ensures ViewInv(t)
  {
  }

  lemma CallIndices(s: State, step: Step)
    requires Enabled(s, step) && (step.Write? || step.LoadWriteIdx? || step.CountProcessed?) && IndexInv(s)
    ensures var t := Apply(s, step); Shaped(t) && IndexInv(t)
  {
  }

  lemma CallReports(s: State, step: Step)
    requires Enabled(s, step) && (step.Write? || step.LoadWriteIdx? || step.CountProcessed?) && ReportInv(s)
    ensures var t := Apply(s, step); Shaped(t) && ReportInv(t)
  {
  }

  lemma ProducerStepKeepsInv(s: State, step: Step)
    requires Inv(s) && Enabled(s, step) && (step.Write? || step.LoadWriteIdx? || step.CountProcessed?)
    ensures Inv(Apply(s, step))
  {
    var t := Apply(s, step);
    CallIndices(s, step);
    IdleContentFrame(s, t);
    IdleViewFrame(s, t);
    CallReports(s, step);
  }

  lemma ReadIndices(s: State, step: Step)
    requires Enabled(s, step) && (step.Read? || step.LoadOwnReadIdx?) && IndexInv(s)
    ensures var t := Apply(s, step); Shaped(t) && IndexInv(t)
  {
  }

  lemma ConsumerStepKeepsInv(s: State, step: Step)
    requires Inv(s) && Enabled(s, step) && (step.Read? || step.LoadOwnReadIdx?)
    ensures Inv(Apply(s, step))
  {
    var t := Apply(s, step);
    ReadIndices(s, step);
    ContentFrame(s, t);
    ViewFrame(s, t);
    ReportFrame(s, t);
  }

  lemma FlightOpens(n: nat, words: nat, mem: Memory, sent: seq<Item>, item: Item)
    requires n > 0 && MemoryInv(n, mem, sent, None)
    ensures MemoryInv(n, mem, sent, Some((item, Words(words))))
  {
    forall c, a | c in mem && 0 <= a < |mem[c]|
      ensures Holds(n, mem[c][a], c, sent, Some((item, Words(words))))
    {
      assert Holds(n, mem[c][a], c, sent, None);
    }
  }

  /** The full test on 64-bit values is the test on the unbounded counts. */
  lemma FullTestIsExact(s: State, m: nat)
    requires CanLoadReadIdx(s, m) && IndexInv(s)
    ensures s.readStores[m].count <= s.R() <= s.W() <= s.readStores[m].count + s.capacity
    ensures Sub64(s.producer.w, s.readStores[m].idx) == s.W() - s.readStores[m].count
  {
    assert s.readStores[s.seenRead].count <= s.readStores[m].count <= s.R();
    WrapDifference(s.readStores[m].count, s.W());
  }

  lemma LoadReadIdxUnbounded(s: State, m: nat)
    requires CanLoadReadIdx(s, m) && IndexInv(s)
    ensures DoLoadReadIdx(s, m) ==
      var seenReads := Join(s.seenReads, s.readStores[m].view);
      if s.W() - s.readStores[m].count == s.capacity then
        s.(seenRead := m, seenReads := seenReads, dropped := s.dropped + 1,
           producer := if s.blocking then PCalled(s.producer.item) else PIdle,
           received := if s.blocking then s.received + 1 else s.received)
      else
        s.(seenRead := m, seenReads := seenReads,
           producer := PCopying(s.producer.item, Wrap(s.W()), Words(s.words)))
  {
    FullTestIsExact(s, m);
  }

  lemma LoadReadIdxCount(s: State, m: nat)
    requires CanLoadReadIdx(s, m) && IndexInv(s)
    ensures var t := DoLoadReadIdx(s, m); Shaped(t) && CountInv(t)
  {
    FullTestIsExact(s, m);
  }

  lemma LoadReadIdxProducer(s: State, m: nat)
    requires CanLoadReadIdx(s, m) && IndexInv(s)
    ensures var t := DoLoadReadIdx(s, m); Shaped(t) && ProducerInv(t)
  {
    FullTestIsExact(s, m);
    LoadReadIdxUnbounded(s, m);
  }

  lemma LoadReadIdxMemory(s: State, m: nat)
    requires CanLoadReadIdx(s, m) && ContentInv(s)
    ensures var t := DoLoadReadIdx(s, m); Shaped(t) && MemoryInv(t.capacity, t.mem, t.sent, InFlight(t.producer))
  {
    FlightOpens(s.capacity, s.words, s.mem, s.sent, s.producer.item);
  }

  lemma LoadReadIdxFlight(s: State, m: nat)
    requires CanLoadReadIdx(s, m) && ProducerInv(s)
    ensures
      var t := DoLoadReadIdx(s, m);
      Shaped(t) && FlightInv(t.capacity, t.words, t.mem, t.W(), InFlight(t.producer))
  {
  }

  lemma LoadReadIdxReports(s: State, m: nat)
    requires CanLoadReadIdx(s, m) && ReportInv(s)
    ensures var t := DoLoadReadIdx(s, m); Shaped(t) && ReportInv(t)
  {
  }

  lemma LoadReadIdxFrame(s: State, m: nat)
    requires CanLoadReadIdx(s, m)
    ensures SameConsumer(s, DoLoadReadIdx(s, m))
  {
  }

  lemma IndexFromParts(s: State, t: State)
    requires SameConsumer(s, t) && IndexInv(s) && CountInv(t) && ProducerInv(t)
    ensures IndexInv(t)
  {
  }

  lemma ContentFromParts(s: State, t: State)
    requires SameConsumer(s, t) && ContentInv(s)
    requires MemoryInv(t.capacity, t.mem, t.sent, InFlight(t.producer))
    requires FlightInv(t.capacity, t.words, t.mem, t.W(), InFlight(t.producer))
    ensures ContentInv(t)
  {
  }

  lemma LoadReadIdxKeepsInv(s: State, m: nat)
    requires Inv(s) && CanLoadReadIdx(s, m)
    ensures Inv(DoLoadReadIdx(s, m))
  {
    var t := DoLoadReadIdx(s, m);
    LoadReadIdxFrame(s, m);
    assert IndexInv(t) by {
      LoadReadIdxCount(s, m);
      LoadReadIdxProducer(s, m);
      IndexFromParts(s, t);
    }
    assert ContentInv(t) by {
      LoadReadIdxMemory(s, m);
      LoadReadIdxFlight(s, m);
      ContentFromParts(s, t);
    }
    LoadReadIdxReports(s, m);
    IdleViewFrame(s, t);
  }

  lemma RaiseView(n: nat, words: nat, v: View, w: nat, c: Cell, stamp: nat)
    requires n > 0 && Grid(v, n, words) && CoversBelow(n, words, v, w)
    requires c in v && (v[c] <= stamp || w <= stamp)
    ensures Grid(v[c := stamp], n, words) && CoversBelow(n, words, v[c := stamp], w)
  {
    var v' := v[c := stamp];
    forall j | 0 <= j < w ensures Covers(n, words, v', j) {
      assert Covers(n, words, v, j);
    }
  }

  lemma CopyInMemory(n: nat, words: nat, mem: Memory, sent: seq<Item>, item: Item, todo: set<nat>, k: nat)
    requires n > 0 && Grid(mem, n, words) && k < words == |item|
    requires MemoryInv(n, mem, sent, Some((item, todo)))
    ensures
      var mem' := Written(mem, Cell(Mod(|sent|, n), k), Entry(|sent| + 1, item[k]));
      Grid(mem', n, words) && MemoryInv(n, mem', sent, Some((item, todo - {k})))
  {
    var e, cell := Entry(|sent| + 1, item[k]), Cell(Mod(|sent|, n), k);
    var mem' := Written(mem, cell, e);
    forall c, a | c in mem' && 0 <= a < |mem'[c]|
      ensures Holds(n, mem'[c][a], c, sent, Some((item, todo - {k})))
    {
      if a < |mem[c]| {
        assert mem'[c][a] == mem[c][a];
        assert Holds(n, mem[c][a], c, sent, Some((item, todo)));
      } else {
        assert c == cell && mem'[c][a] == e;
      }
    }
  }

  lemma CopyInViews(n: nat, words: nat, mem: Memory, w: nat, k: nat, word: Word)
    requires n > 0 && Grid(mem, n, words) && k < words
    requires CoversBelow(n, words, LatestView(mem), w)
    ensures
      var mem' := Written(mem, Cell(Mod(w, n), k), Entry(w + 1, word));
      Grid(mem', n, words) && CoversBelow(n, words, LatestView(mem'), w)
  {
    var cell := Cell(Mod(w, n), k);
    assert LatestView(Written(mem, cell, Entry(w + 1, word))) == LatestView(mem)[cell := w + 1];
    RaiseView(n, words, LatestView(mem), w, cell, w + 1);
  }

  lemma CopyInFlight(n: nat, words: nat, mem: Memory, w: nat, item: Item, todo: set<nat>, k: nat)
    requires n > 0 && Grid(mem, n, words) && k < words == |item|
    requires FlightInv(n, words, mem, w, Some((item, todo)))
    ensures
      var mem' := Written(mem, Cell(Mod(w, n), k), Entry(w + 1, item[k]));
      Grid(mem', n, words) && FlightInv(n, words, mem', w, Some((item, todo - {k})))
  {
  }

  /** The same step with the unbounded count in place of the 64-bit index. */
  lemma CopyInUnbounded(s: State, k: nat)
    requires CanCopyIn(s, k) && ProducerInv(s)
    ensures DoCopyIn(s, k) ==
      s.(producer := s.producer.(todo := s.producer.todo - {k}),
         mem := Written(s.mem, Cell(Mod(s.W(), s.capacity), k), Entry(s.W() + 1, s.producer.item[k])))
  {
    SlotIsMod(s, s.W());
  }

  lemma CopyInBounds(n: nat, mem: Memory, sent: seq<Item>, fly: Option<(Item, set<nat>)>,
                     view: View, stores: seq<Store>, cell: Cell, word: Word)
    requires n > 0 && cell in mem
    requires MemoryInv(n, mem, sent, fly) && BoundInv(mem, view, stores)
    ensures BoundInv(Written(mem, cell, Entry(|sent| + 1, word)), view, stores)
  {
    var h, mem' := mem[cell], Written(mem, cell, Entry(|sent| + 1, word));
    assert Holds(n, h[|h| - 1], cell, sent, fly);
    assert forall c | c in mem :: Latest(mem[c]) <= Latest(mem'[c]);
  }

  lemma CopyInContent(s: State, k: nat)
    requires CanCopyIn(s, k) && CountInv(s) && ProducerInv(s) && ContentInv(s)
    ensures var t := DoCopyIn(s, k); Shaped(t) && ContentInv(t)
  {
    var p := s.producer;
    CopyInUnbounded(s, k);
    CopyInMemory(s.capacity, s.words, s.mem, s.sent, p.item, p.todo, k);
    CopyInFlight(s.capacity, s.words, s.mem, s.W(), p.item, p.todo, k);
  }

  lemma CopyInViewInv(s: State, k: nat)
    requires CanCopyIn(s, k) && CountInv(s) && ProducerInv(s) && ContentInv(s) && ViewInv(s)
    ensures var t := DoCopyIn(s, k); Shaped(t) && ViewInv(t)
  {
    var p := s.producer;
    CopyInUnbounded(s, k);
    CopyInViews(s.capacity, s.words, s.mem, s.W(), k, p.item[k]);
    CopyInBounds(s.capacity, s.mem, s.sent, InFlight(p), s.view, s.writeStores,
                 Cell(Mod(s.W(), s.capacity), k), p.item[k]);
  }

  lemma CopyInKeepsInv(s: State, k: nat)
    requires Inv(s) && CanCopyIn(s, k)
    ensures Inv(DoCopyIn(s, k))
  {
    CopyInContent(s, k);
    CopyInViewInv(s, k);
  }

  lemma PublishMemory(n: nat, mem: Memory, sent: seq<Item>, item: Item)
    requires n > 0 && MemoryInv(n, mem, sent, Some((item, {})))
    ensures MemoryInv(n, mem, sent + [item], None)
  {
    forall c, a | c in mem && 0 <= a < |mem[c]| ensures Holds(n, mem[c][a], c, sent + [item], None) {
      assert Holds(n, mem[c][a], c, sent, Some((item, {})));
    }
  }

  lemma PublishViews(n: nat, words: nat, mem: Memory, w: nat, item: Item)
    requires n > 0 && Grid(mem, n, words)
    requires CoversBelow(n, words, LatestView(mem), w) && FlightInv(n, words, mem, w, Some((item, {})))
    ensures CoversBelow(n, words, LatestView(mem), w + 1)
  {
    assert Covers(n, words, LatestView(mem), w);
  }

  lemma PublishWriteContent(s: State)
    requires CanPublishWrite(s) && CountInv(s) && ProducerInv(s) && ContentInv(s) && s.R() <= |s.sent|
    ensures var t := DoPublishWrite(s); Shaped(t) && ContentInv(t)
  {
    PublishMemory(s.capacity, s.mem, s.sent, s.producer.item);
  }

  lemma PublishWriteView(s: State)
    requires CanPublishWrite(s) && ContentInv(s) && ViewInv(s) && s.seenWrite <= s.W()
    ensures var t := DoPublishWrite(s); Shaped(t) && ViewInv(t)
  {
    PublishViews(s.capacity, s.words, s.mem, s.W(), s.producer.item);
  }

  lemma PublishWriteIndices(s: State)
    requires CanPublishWrite(s) && IndexInv(s)
    ensures var t := DoPublishWrite(s); Shaped(t) && IndexInv(t)
  {
    WrapSuccessor(s.W());
  }

  lemma PublishWriteReports(s: State)
    requires CanPublishWrite(s) && ReportInv(s)
    ensures var t := DoPublishWrite(s); Shaped(t) && ReportInv(t)
  {
    assert (s.sent + [s.producer.item])[s.base..s.R()] == s.sent[s.base..s.R()];
  }

  lemma PublishWriteKeepsInv(s: State)
    requires Inv(s) && CanPublishWrite(s)
    ensures Inv(DoPublishWrite(s))
  {
    PublishWriteIndices(s);
    PublishWriteContent(s);
    PublishWriteView(s);
    PublishWriteReports(s);
  }

  /** The empty test on 64-bit values is the test on the unbounded counts. */
  lemma LoadOtherWriteIdxUnbounded(s: State, m: nat)
    requires CanLoadOtherWriteIdx(s, m) && IndexInv(s)
    ensures s.R() <= m <= s.R() + s.capacity
    ensures DoLoadOtherWriteIdx(s, m) ==
      s.(seenWrite := m, view := Join(s.view, s.writeStores[m].view),
         consumer := if s.R() == m then CIdle
                     else CCopying(Wrap(s.R()), Wrap(m), Words(s.words), seq(s.words, _ => 0)))
  {
    LapBound(s);
    WrapDifference(s.R(), m);
  }

  lemma LoadOtherWriteIdxIndices(s: State, m: nat)
    requires CanLoadOtherWriteIdx(s, m) && IndexInv(s)
    ensures var t := DoLoadOtherWriteIdx(s, m); Shaped(t) && IndexInv(t)
  {
    LoadOtherWriteIdxUnbounded(s, m);
  }

  lemma JoinWithin(a: View, b: View, mem: Memory)
    requires Within(a, mem) && Within(b, mem)
    ensures Within(Join(a, b), mem)
  {
  }

  /** A view joined with the one a store released knows all that store's items. */
  lemma AcquiredView(s: State, m: nat)
    requires Shaped(s) && ViewInv(s) && s.seenWrite <= m < |s.writeStores|
    ensures
      var v := Join(s.view, s.writeStores[m].view);
      Grid(v, s.capacity, s.words) && CoversBelow(s.capacity, s.words, v, m) && Within(v, s.mem)
  {
    JoinCovers(s.capacity, s.words, s.view, s.writeStores[m].view, s.seenWrite, m);
    JoinWithin(s.view, s.writeStores[m].view, s.mem);
  }

  lemma LoadOtherWriteIdxBuffer(s: State, m: nat)
    requires CanLoadOtherWriteIdx(s, m) && IndexInv(s) && ItemInv(s.words, s.sent)
    ensures var t := DoLoadOtherWriteIdx(s, m); Shaped(t) && BufferInv(t.words, t.consumer, t.sent, t.R())
  {
    LoadOtherWriteIdxUnbounded(s, m);
  }

  lemma LoadOtherWriteIdxKeepsInv(s: State, m: nat)
    requires Inv(s) && CanLoadOtherWriteIdx(s, m)
    ensures Inv(DoLoadOtherWriteIdx(s, m))
  {
    var t := DoLoadOtherWriteIdx(s, m);
    LoadOtherWriteIdxIndices(s, m);
    LoadOtherWriteIdxBuffer(s, m);
    ContentFrame(s, t);
    AcquiredView(s, m);
    ViewFrame(s, t);
    ReportFrame(s, t);
  }

  /** The producer is never more than a lap ahead, and strictly less while it copies. */
  lemma LapBound(s: State)
    requires Shaped(s) && IndexInv(s)
    ensures s.R() <= s.seenWrite <= s.W() <= s.R() + s.capacity
    ensures s.producer.PCopying? ==> s.W() < s.R() + s.capacity
  {
    assert s.readStores[s.seenRead].count <= s.R();
  }

  /** A history entry that a view covering item `r` still admits is item `r`'s
      word, as long as the producer is less than a lap ahead. */
  lemma EntryIsDue(n: nat, words: nat, mem: Memory, v: View, sent: seq<Item>, fly: Option<(Item, set<nat>)>,
                   r: nat, seen: nat, k: nat, at: nat)
    requires n > 0 && Grid(mem, n, words) && Grid(v, n, words) && k < words
    requires MemoryInv(n, mem, sent, fly) && CoversBelow(n, words, v, seen)
    requires r < seen <= |sent| <= r + n && (fly.Some? ==> |sent| < r + n)
    requires var c := Cell(Mod(r, n), k); at < |mem[c]| && v[c] <= mem[c][at].stamp
    ensures k < |sent[r]| && mem[Cell(Mod(r, n), k)][at] == Entry(r + 1, sent[r][k])
  {
    var c := Cell(Mod(r, n), k);
    var e := mem[c][at];
    assert Covers(n, words, v, r);
    assert Holds(n, e, c, sent, fly);
    SameSlot(r, e.stamp - 1, n);
  }

  /** Any value the plain read may return is the word of the item due. */
  lemma ReadIsExact(s: State, k: nat, at: nat)
    requires CanCopyOut(s, k, at) && IndexInv(s) && ContentInv(s) && ViewInv(s)
    ensures s.R() < |s.sent| && k < |s.sent[s.R()]|
    ensures s.mem[Cell(SlotOf(s, s.consumer.r), k)][at] == Entry(s.R() + 1, s.sent[s.R()][k])
  {
    SlotIsMod(s, s.R());
    LapBound(s);
    EntryIsDue(s.capacity, s.words, s.mem, s.view, s.sent, InFlight(s.producer), s.R(), s.seenWrite, k, at);
  }

  lemma CopyOutOf(s: State, k: nat, at: nat, word: Word)
    requires CanCopyOut(s, k, at) && ConsumerInv(s)
    requires s.mem[Cell(SlotOf(s, s.consumer.r), k)][at] == Entry(s.R() + 1, word)
    ensures DoCopyOut(s, k, at) ==
      s.(consumer := s.consumer.(todo := s.consumer.todo - {k}, buf := s.consumer.buf[k := word]),
         view := s.view[Cell(Mod(s.R(), s.capacity), k) := s.R() + 1],
         readLog := s.readLog[Cell(Mod(s.R(), s.capacity), k) := s.readLog[Cell(Mod(s.R(), s.capacity), k)] + [s.R()]])
  {
    SlotIsMod(s, s.R());
  }

  /** The copy with unbounded counts: word `k` of the item due, whatever the read returns. */
  lemma CopyOutUnbounded(s: State, k: nat, at: nat)
    requires CanCopyOut(s, k, at) && IndexInv(s) && ContentInv(s) && ViewInv(s)
    ensures s.R() < |s.sent| && k < |s.sent[s.R()]|
    ensures DoCopyOut(s, k, at) ==
      s.(consumer := s.consumer.(todo := s.consumer.todo - {k}, buf := s.consumer.buf[k := s.sent[s.R()][k]]),
         view := s.view[Cell(Mod(s.R(), s.capacity), k) := s.R() + 1],
         readLog := s.readLog[Cell(Mod(s.R(), s.capacity), k) := s.readLog[Cell(Mod(s.R(), s.capacity), k)] + [s.R()]])
  {
    ReadIsExact(s, k, at);
    CopyOutOf(s, k, at, s.sent[s.R()][k]);
  }

  lemma RaiseWithin(mem: Memory, view: View, c: Cell, stamp: nat)
    requires Within(view, mem) && c in mem && stamp <= Latest(mem[c])
    ensures Within(view[c := stamp], mem)
  {
  }

  lemma CopyOutView(s: State, c: Cell)
    requires Shaped(s) && ViewInv(s) && c in s.mem && s.seenWrite <= s.W()
    requires s.R() < s.seenWrite && c.slot == Mod(s.R(), s.capacity) && c.word < s.words
    requires s.view[c] <= s.R() + 1
    ensures var v := s.view[c := s.R() + 1];
            Grid(v, s.capacity, s.words) && CoversBelow(s.capacity, s.words, v, s.seenWrite) && Within(v, s.mem)
  {
    RaiseView(s.capacity, s.words, s.view, s.seenWrite, c, s.R() + 1);
    assert Covers(s.capacity, s.words, LatestView(s.mem), s.R());
    RaiseWithin(s.mem, s.view, c, s.R() + 1);
  }

  lemma CopyOutViewInv(s: State, k: nat, at: nat)
    requires CanCopyOut(s, k, at) && CountInv(s) && ConsumerInv(s) && ViewInv(s) && s.seenWrite <= s.W()
    requires s.mem[Cell(SlotOf(s, s.consumer.r), k)][at].stamp == s.R() + 1
    ensures var t := DoCopyOut(s, k, at); Shaped(t) && ViewInv(t)
  {
    SlotIsMod(s, s.R());
    var c := Cell(Mod(s.R(), s.capacity), k);
    CopyOutOf(s, k, at, s.mem[c][at].word);
    CopyOutView(s, c);
    ViewFrame(s, DoCopyOut(s, k, at));
  }

  lemma BufferGrows(words: nat, c: Consumer, sent: seq<Item>, r: nat, k: nat)
    requires BufferInv(words, c, sent, r) && c.CCopying? && r < |sent| && k < |sent[r]| && k < |c.buf|
    ensures BufferInv(words, c.(todo := c.todo - {k}, buf := c.buf[k := sent[r][k]]), sent, r)
  {
  }

  lemma CopyOutContent(s: State, k: nat, at: nat)
    requires CanCopyOut(s, k, at) && ConsumerInv(s) && ContentInv(s)
    requires s.R() < |s.sent| && k < |s.sent[s.R()]|
    requires s.mem[Cell(SlotOf(s, s.consumer.r), k)][at] == Entry(s.R() + 1, s.sent[s.R()][k])
    ensures var t := DoCopyOut(s, k, at); Shaped(t) && ContentInv(t)
  {
    CopyOutOf(s, k, at, s.sent[s.R()][k]);
    BufferGrows(s.words, s.consumer, s.sent, s.R(), k);
    ContentFrame(s, DoCopyOut(s, k, at));
  }

  lemma CopyOutIndices(s: State, k: nat, at: nat)
    requires CanCopyOut(s, k, at) && IndexInv(s)
    ensures var t := DoCopyOut(s, k, at); Shaped(t) && IndexInv(t)
  {
  }

  lemma CopyOutReports(s: State, k: nat, at: nat)
    requires CanCopyOut(s, k, at) && ReportInv(s)
    ensures var t := DoCopyOut(s, k, at); Shaped(t) && ReportInv(t)
  {
  }

  lemma CopyOutKeepsInv(s: State, k: nat, at: nat)
    requires Inv(s) && CanCopyOut(s, k, at)
    ensures Inv(DoCopyOut(s, k, at))
  {
    ReadIsExact(s, k, at);
    CopyOutIndices(s, k, at);
    CopyOutContent(s, k, at);
    CopyOutViewInv(s, k, at);
    CopyOutReports(s, k, at);
  }

  lemma PublishReadIndices(s: State)
    requires CanPublishRead(s) && IndexInv(s)
    ensures var t := DoPublishRead(s); Shaped(t) && IndexInv(t)
  {
    WrapSuccessor(s.R());
    LapBound(s);
  }

  lemma DeliverNext(sent: seq<Item>, base: nat, r: nat, delivered: seq<Item>, words: nat, c: Consumer)
    requires DeliveryInv(sent, base, r, delivered)
    requires c.CCopying? && c.todo == {} && BufferInv(words, c, sent, r)
    ensures DeliveryInv(sent, base, r + 1, delivered + [c.buf])
  {
    assert c.buf == sent[r];
    assert sent[base..r + 1] == sent[base..r] + [sent[r]];
  }

  lemma PublishReadKeepsInv(s: State)
    requires Inv(s) && CanPublishRead(s)
    ensures Inv(DoPublishRead(s))
  {
    PublishReadIndices(s);
    DeliverNext(s.sent, s.base, s.R(), s.delivered, s.words, s.consumer);
  }

  /** The recorded depth is the unbounded count of items left, as seen. */
  lemma RecordDepthUnbounded(s: State)
    requires Shaped(s) && ConsumerInv(s) && s.consumer.CPublished?
    ensures s.R() <= s.seenWrite < s.R() + s.capacity
    ensures DoRecordDepth(s) == s.(consumer := CIdle, depths := s.depths + [s.seenWrite - s.R()])
  {
    WrapSuccessor(s.R() - 1);
    WrapDifference(s.R(), s.seenWrite);
  }

  lemma RecordDepthKeepsInv(s: State)
    requires Inv(s) && s.consumer.CPublished?
    ensures Inv(DoRecordDepth(s))
  {
    RecordDepthUnbounded(s);
    var d: uint64 := s.seenWrite - s.R();
    assert forall x | x in s.depths + [d] :: x in s.depths || x == d;
  }

  lemma ReattachIndices(s: State, m: nat)
    requires CanReattach(s, m) && IndexInv(s)
    ensures var t := DoReattach(s, m); Shaped(t) && IndexInv(t)
  {
  }

  lemma ReattachKeepsInv(s: State, m: nat)
    requires Inv(s) && CanReattach(s, m)
    ensures Inv(DoReattach(s, m))
  {
    var t := DoReattach(s, m);
    ReattachIndices(s, m);
    ContentFrame(s, t);
    AcquiredView(s, m);
    ViewFrame(s, t);
    ReportFrame(s, t);
  }

  lemma StoreReattachKeepsInv(s: State)
    requires Inv(s) && s.consumer.CReattaching?
    ensures Inv(DoStoreReattach(s))
  {
  }

  lemma StepKeepsInv(s: State, step: Step)
    requires Inv(s) && Enabled(s, step)
    ensures Inv(Apply(s, step))
  {
    match step
    case LoadReadIdx(m) => LoadReadIdxKeepsInv(s, m);
    case CopyIn(k) => CopyInKeepsInv(s, k);
    case PublishWrite => PublishWriteKeepsInv(s);
    case LoadOtherWriteIdx(m) => LoadOtherWriteIdxKeepsInv(s, m);
    case CopyOut(k, at) => CopyOutKeepsInv(s, k, at);
    case PublishRead => PublishReadKeepsInv(s);
    case RecordDepth => RecordDepthKeepsInv(s);
    case Reattach(m) => ReattachKeepsInv(s, m);
    case StoreReattach => StoreReattachKeepsInv(s);
    case Read => ConsumerStepKeepsInv(s, step);
    case LoadOwnReadIdx => ConsumerStepKeepsInv(s, step);
    case _ => ProducerStepKeepsInv(s, step);
  }
}
