/** The kernel's build-time table compiler: from an abstract configuration to the flat
    region table, each task's eight region indices, and the two interrupt maps. */
module KernelTables {
  import opened Wrappers

  const U32: nat := 0x1_0000_0000
  const REGIONS_PER_TASK: nat := 8

  datatype SpecialRole = NoRole | Device | Dma
  datatype Attributes = Attributes(read: bool, write: bool, execute: bool, role: SpecialRole)
  datatype Region = Region(base: nat, size: nat, attributes: Attributes)

  /** A memory span cut into adjacent chunks. */
  datatype Span = Span(base: nat, sizes: seq<nat>, attributes: Attributes)

  datatype OwnedAddress = OwnedAddress(region: string, offset: nat)

  datatype Owned = Owned(name: string, span: Span)

  datatype Task = Task(owned: seq<Owned>, shared: seq<string>) {
    /** `owned_regions` is a map keyed by name. */
    predicate Keyed() { forall i, j :: 0 <= i < j < |owned| ==> owned[i].name != owned[j].name }
  }

  datatype SharedRegion = SharedRegion(name: string, region: Region)

  datatype Config = Config(tasks: seq<Task>, shared: seq<SharedRegion>) {
    predicate Keyed() {
      && (forall i, j :: 0 <= i < j < |shared| ==> shared[i].name != shared[j].name)
      && (forall i :: 0 <= i < |tasks| ==> tasks[i].Keyed())
    }
  }

  datatype Key = NullKey | SharedKey(name: string) | ChunkKey(task: nat, chunk: nat, name: string)
  datatype Entry = Entry(key: Key, region: Region)
  type Table = seq<Entry>

  const NULL_REGION: Region := Region(0, 32, Attributes(false, false, false, NoRole))

  // ----- What the table should contain -----

  function Sum(sizes: seq<nat>): nat {
    if sizes == [] then 0 else Sum(sizes[..|sizes| - 1]) + sizes[|sizes| - 1]
  }

  /** Chunk `j` starts where the chunks before it end. */
  function Chunk(s: Span, j: nat): Region
    requires j < |s.sizes|
  {
    Region(s.base + Sum(s.sizes[..j]), s.sizes[j], s.attributes)
  }

  function ChunkEntries(i: nat, o: Owned, n: nat): (t: Table)
    requires n <= |o.span.sizes|
    ensures |t| == n
    ensures forall j :: 0 <= j < n ==> t[j] == Entry(ChunkKey(i, j, o.name), Chunk(o.span, j))
  {
    seq(n, j requires 0 <= j < n => Entry(ChunkKey(i, j, o.name), Chunk(o.span, j)))
  }

  function OwnedEntries(i: nat, owned: seq<Owned>): Table {
    if owned == [] then []
    else
      var last := owned[|owned| - 1];
      OwnedEntries(i, owned[..|owned| - 1]) + ChunkEntries(i, last, |last.span.sizes|)
  }

  function TaskEntries(tasks: seq<Task>): Table {
    if tasks == [] then []
    else TaskEntries(tasks[..|tasks| - 1]) + OwnedEntries(|tasks| - 1, tasks[|tasks| - 1].owned)
  }

  function SharedEntries(shared: seq<SharedRegion>): (t: Table)
    ensures |t| == |shared|
    ensures forall i :: 0 <= i < |t| ==> t[i] == Entry(SharedKey(shared[i].name), shared[i].region)
  {
    seq(|shared|, i requires 0 <= i < |shared| => Entry(SharedKey(shared[i].name), shared[i].region))
  }

  function Flat(k: Config): Table {
    [Entry(NullKey, NULL_REGION)] + SharedEntries(k.shared) + TaskEntries(k.tasks)
  }

  /** The running `base` of a span stays a 32-bit address. */
  predicate InRange(s: Span) { s.base + Sum(s.sizes) < U32 || s.sizes == [] }

  predicate AllInRange(owned: seq<Owned>) { forall i :: 0 <= i < |owned| ==> InRange(owned[i].span) }

  // ----- Building it by insertion -----

  predicate Has(t: Table, key: Key) { exists i :: 0 <= i < |t| && t[i].key == key }

  function Find(t: Table, key: Key): (r: Option<nat>)
    ensures r.Some? <==> Has(t, key)
    ensures r.Some? ==> r.value < |t| && t[r.value].key == key
  {
    if t == [] then None
    else
      var front := Find(t[..|t| - 1], key);
      assert forall i :: 0 <= i < |t| - 1 ==> t[i] == t[..|t| - 1][i];
      if front.Some? then front else if t[|t| - 1].key == key then Some(|t| - 1) else None
  }

  /** `IndexMap::insert`: a known key keeps its place, a new one goes to the end. */
  function Insert(t: Table, key: Key, r: Region): Table {
    var at := Find(t, key);
    if at.Some? then t[at.value := Entry(key, r)] else t + [Entry(key, r)]
  }

  predicate Distinct(t: Table) { forall i, j :: 0 <= i < j < |t| ==> t[i].key != t[j].key }

  lemma {:induction false} InsertDistinct(t: Table, key: Key, r: Region)
    requires Distinct(t)
    ensures Distinct(Insert(t, key, r))
  {}

  lemma {:induction false} SumStep(sizes: seq<nat>, j: nat)
    requires j < |sizes|
    ensures Sum(sizes[..j + 1]) == Sum(sizes[..j]) + sizes[j]
  {
    assert sizes[..j + 1][..j] == sizes[..j];
  }

  lemma {:induction false} SumMonotone(sizes: seq<nat>, j: nat)
    requires j <= |sizes|
    ensures Sum(sizes[..j]) <= Sum(sizes)
    decreases |sizes| - j
  {
    if j < |sizes| {
      SumStep(sizes, j);
      SumMonotone(sizes, j + 1);
    } else {
      assert sizes[..j] == sizes;
    }
  }

  lemma ChunkIsNew(t0: Table, i: nat, o: Owned, j: nat)
    requires forall e :: e in t0 && e.key.ChunkKey? && e.key.task == i ==> e.key.name != o.name
    requires j < |o.span.sizes|
    ensures var t, key := t0 + ChunkEntries(i, o, j), ChunkKey(i, j, o.name);
      !Has(t, key) && t + [Entry(key, Chunk(o.span, j))] == t0 + ChunkEntries(i, o, j + 1)
  {
    var t := t0 + ChunkEntries(i, o, j);
    forall p | 0 <= p < |t| ensures t[p].key != ChunkKey(i, j, o.name) {
      if p < |t0| { assert t[p] in t0; }
    }
  }

  method AddSpan(t0: Table, i: nat, o: Owned) returns (t: Option<Table>)
    requires forall e :: e in t0 && e.key.ChunkKey? && e.key.task == i ==> e.key.name != o.name
    ensures t.Some? <==> InRange(o.span)
    ensures t.Some? ==> t.value == t0 + ChunkEntries(i, o, |o.span.sizes|)
    ensures t.Some? && Distinct(t0) ==> Distinct(t.value)
  {
    var table, base := t0, o.span.base;
    for j := 0 to |o.span.sizes|
      invariant base == o.span.base + Sum(o.span.sizes[..j])
      invariant j > 0 ==> base < U32
      invariant table == t0 + ChunkEntries(i, o, j)
      invariant Distinct(t0) ==> Distinct(table)
    {
      var r := Region(base, o.span.sizes[j], o.span.attributes);
      SumStep(o.span.sizes, j);
      if base + o.span.sizes[j] >= U32 {
        SumMonotone(o.span.sizes, j + 1);
        return None;
      }
      base := base + o.span.sizes[j];
      ChunkIsNew(t0, i, o, j);
      if Distinct(table) { InsertDistinct(table, ChunkKey(i, j, o.name), r); }
      table := Insert(table, ChunkKey(i, j, o.name), r);
    }
    assert o.span.sizes[..|o.span.sizes|] == o.span.sizes;
    t := Some(table);
  }

  lemma {:induction false} OwnedKeys(i: nat, owned: seq<Owned>, e: Entry)
    requires e in OwnedEntries(i, owned)
    ensures e.key.ChunkKey? && e.key.task == i
    ensures exists m :: 0 <= m < |owned| && owned[m].name == e.key.name && e.key.chunk < |owned[m].span.sizes|
              && e.region == Chunk(owned[m].span, e.key.chunk)
  {
    var front, m := owned[..|owned| - 1], |owned| - 1;
    if e in OwnedEntries(i, front) {
      OwnedKeys(i, front, e);
      var p :| 0 <= p < |front| && front[p].name == e.key.name && e.key.chunk < |front[p].span.sizes|
              && e.region == Chunk(front[p].span, e.key.chunk);
      assert owned[p] == front[p];
    } else {
      assert e in ChunkEntries(i, owned[m], |owned[m].span.sizes|);
      assert owned[m].name == e.key.name;
    }
  }

  method AddTask(t0: Table, i: nat, task: Task) returns (t: Option<Table>)
    requires task.Keyed()
    requires forall e :: e in t0 && e.key.ChunkKey? ==> e.key.task != i
    ensures t.Some? <==> AllInRange(task.owned)
    ensures t.Some? ==> t.value == t0 + OwnedEntries(i, task.owned)
    ensures t.Some? && Distinct(t0) ==> Distinct(t.value)
  {
    var table := t0;
    for m := 0 to |task.owned|
      invariant AllInRange(task.owned[..m])
      invariant table == t0 + OwnedEntries(i, task.owned[..m])
      invariant Distinct(t0) ==> Distinct(table)
    {
      var o := task.owned[m];
      forall e | e in table && e.key.ChunkKey? && e.key.task == i ensures e.key.name != o.name {
        assert e in OwnedEntries(i, task.owned[..m]);
        OwnedKeys(i, task.owned[..m], e);
      }
      OneMoreSpan(t0, i, task.owned, m);
      var next := AddSpan(table, i, o);
      if next.None? { return None; }
      table := next.value;
    }
    assert task.owned[..|task.owned|] == task.owned;
    t := Some(table);
  }

  lemma {:induction false} TaskKeys(tasks: seq<Task>, e: Entry)
    requires e in TaskEntries(tasks)
    ensures e.key.ChunkKey? && e.key.task < |tasks| && e in OwnedEntries(e.key.task, tasks[e.key.task].owned)
  {
    var front := tasks[..|tasks| - 1];
    if e in TaskEntries(front) {
      TaskKeys(front, e);
    } else {
      OwnedKeys(|tasks| - 1, tasks[|tasks| - 1].owned, e);
    }
  }

  method AddShared(shared: seq<SharedRegion>) returns (t: Table)
    requires forall i, j :: 0 <= i < j < |shared| ==> shared[i].name != shared[j].name
    ensures t == [Entry(NullKey, NULL_REGION)] + SharedEntries(shared)
    ensures forall e :: e in t ==> !e.key.ChunkKey?
    ensures Distinct(t)
  {
    t := Insert([], NullKey, NULL_REGION);
    for n := 0 to |shared|
      invariant t == [Entry(NullKey, NULL_REGION)] + SharedEntries(shared[..n])
    {
      assert !Has(t, SharedKey(shared[n].name));
      assert SharedEntries(shared[..n + 1])
          == SharedEntries(shared[..n]) + [Entry(SharedKey(shared[n].name), shared[n].region)];
      t := Insert(t, SharedKey(shared[n].name), shared[n].region);
    }
    assert shared[..|shared|] == shared;
  }

  lemma {:induction false} OneMoreTask(head: Table, tasks: seq<Task>, i: nat)
    requires i < |tasks|
    ensures head + TaskEntries(tasks[..i + 1]) == (head + TaskEntries(tasks[..i])) + OwnedEntries(i, tasks[i].owned)
  {
    assert tasks[..i + 1][..i] == tasks[..i];
  }

  lemma {:induction false} OneMoreSpan(head: Table, i: nat, owned: seq<Owned>, m: nat)
    requires m < |owned|
    ensures head + OwnedEntries(i, owned[..m + 1])
      == (head + OwnedEntries(i, owned[..m])) + ChunkEntries(i, owned[m], |owned[m].span.sizes|)
  {
    assert owned[..m + 1][..m] == owned[..m];
  }

  lemma {:induction false} TaskIsNew(head: Table, tasks: seq<Task>)
    requires forall e :: e in head ==> !e.key.ChunkKey?
    ensures forall e :: e in head + TaskEntries(tasks) && e.key.ChunkKey? ==> e.key.task != |tasks|
  {
    forall e | e in head + TaskEntries(tasks) && e.key.ChunkKey? ensures e.key.task != |tasks| {
      assert e in TaskEntries(tasks);
      TaskKeys(tasks, e);
    }
  }

  /** The three insertion loops. */
  method BuildFlat(k: Config) returns (t: Option<Table>)
    requires k.Keyed()
    ensures t.Some? <==> forall i :: 0 <= i < |k.tasks| ==> AllInRange(k.tasks[i].owned)
    ensures t.Some? ==> t.value == Flat(k) && Distinct(t.value)
  {
    var table := AddShared(k.shared);
    ghost var head := table;
    for i := 0 to |k.tasks|
      invariant forall p :: 0 <= p < i ==> AllInRange(k.tasks[p].owned)
      invariant table == head + TaskEntries(k.tasks[..i]) && Distinct(table)
    {
      TaskIsNew(head, k.tasks[..i]);
      OneMoreTask(head, k.tasks, i);
      var next := AddTask(table, i, k.tasks[i]);
      if next.None? { return None; }
      table := next.value;
    }
    assert k.tasks[..|k.tasks|] == k.tasks;
    t := Some(table);
  }

  // ----- What the table says, entry by entry -----

  /** Task `i` owns a span `m` with a chunk `j`. */
  predicate Owns(k: Config, i: nat, m: nat, j: nat) {
    i < |k.tasks| && m < |k.tasks[i].owned| && j < |k.tasks[i].owned[m].span.sizes|
  }

  /** `e` is the entry for that chunk: it follows the chunks before it, and has its size and
      the attributes of the span. */
  predicate IsChunk(e: Entry, k: Config, i: nat, m: nat, j: nat)
    requires Owns(k, i, m, j)
  {
    var o := k.tasks[i].owned[m];
    && e.key == ChunkKey(i, j, o.name)
    && e.region.base == o.span.base + Sum(o.span.sizes[..j])
    && e.region.size == o.span.sizes[j]
    && e.region.attributes == o.span.attributes
  }

  ghost predicate HasChunk(t: Table, k: Config, i: nat, m: nat, j: nat)
    requires Owns(k, i, m, j)
  {
    exists p: nat :: |k.shared| < p < |t| && IsChunk(t[p], k, i, m, j)
  }

  ghost predicate SomeChunk(e: Entry, k: Config) {
    exists i: nat, m: nat, j: nat :: Owns(k, i, m, j) && IsChunk(e, k, i, m, j)
  }

  /** A null region without any access, the shared regions as they are configured, and
      after them exactly the chunks of the spans that tasks own. */
  ghost predicate Describes(k: Config, t: Table) {
    Heads(k, t) && AllChunks(k, t) && OnlyChunks(k, t)
  }

  predicate Heads(k: Config, t: Table) {
    && |t| > |k.shared|
    && t[0] == Entry(NullKey, Region(0, 32, Attributes(false, false, false, NoRole)))
    && (forall j :: 0 <= j < |k.shared| ==> t[j + 1] == Entry(SharedKey(k.shared[j].name), k.shared[j].region))
  }

  ghost predicate AllChunks(k: Config, t: Table) {
    forall i: nat, m: nat, j: nat :: Owns(k, i, m, j) ==> HasChunk(t, k, i, m, j)
  }

  ghost predicate OnlyChunks(k: Config, t: Table) {
    forall p: nat :: |k.shared| < p < |t| ==> SomeChunk(t[p], k)
  }

  lemma {:induction false} EntryIsChunk(k: Config, e: Entry)
    requires e in TaskEntries(k.tasks)
    ensures SomeChunk(e, k)
  {
    TaskKeys(k.tasks, e);
    var i := e.key.task;
    var owned := k.tasks[i].owned;
    OwnedKeys(i, owned, e);
    var m :| 0 <= m < |owned| && owned[m].name == e.key.name && e.key.chunk < |owned[m].span.sizes|
              && e.region == Chunk(owned[m].span, e.key.chunk);
    assert Owns(k, i, m, e.key.chunk) && IsChunk(e, k, i, m, e.key.chunk);
  }

  lemma {:induction false} ChunkIsEntry(k: Config, i: nat, m: nat, j: nat)
    requires Owns(k, i, m, j)
    ensures HasChunk(Flat(k), k, i, m, j)
  {
    var owned, t := k.tasks[i].owned, TaskEntries(k.tasks);
    var e := Entry(ChunkKey(i, j, owned[m].name), Chunk(owned[m].span, j));
    OwnedComplete(i, owned, m, j);
    TasksComplete(k.tasks, i, e);
    var p :| 0 <= p < |t| && t[p] == e;
    assert Flat(k)[1 + |k.shared| + p] == e && IsChunk(e, k, i, m, j);
  }

  lemma {:induction false} FlatHasAllChunks(k: Config)
    ensures AllChunks(k, Flat(k))
  {
    forall i: nat, m: nat, j: nat | Owns(k, i, m, j) ensures HasChunk(Flat(k), k, i, m, j) {
      ChunkIsEntry(k, i, m, j);
    }
  }

  lemma {:induction false} FlatHasOnlyChunks(k: Config)
    ensures OnlyChunks(k, Flat(k))
  {
    var t := Flat(k);
    forall p: nat | |k.shared| < p < |t| ensures SomeChunk(t[p], k) {
      assert t[p] == TaskEntries(k.tasks)[p - 1 - |k.shared|];
      EntryIsChunk(k, t[p]);
    }
  }

  lemma {:induction false} FlatHeads(k: Config)
    ensures Heads(k, Flat(k))
  {}

  lemma {:induction false} FlatDescribes(k: Config)
    ensures Describes(k, Flat(k))
  {
    FlatHeads(k);
    FlatHasAllChunks(k);
    FlatHasOnlyChunks(k);
  }

  /** The table describes the configuration, with every key once, unless a span runs past
      the end of the address space. */
  method BuildTable(k: Config) returns (t: Option<Table>)
    requires k.Keyed()
    ensures t.Some? <==> forall i :: 0 <= i < |k.tasks| ==> AllInRange(k.tasks[i].owned)
    ensures t.Some? ==> t.value == Flat(k) && Describes(k, t.value) && Distinct(t.value)
  {
    t := BuildFlat(k);
    FlatDescribes(k);
  }

  // ----- The chunks of a span tile it -----

  predicate Covers(r: Region, addr: nat) { r.base <= addr < r.base + r.size }

  /** Each address of a span lies in exactly one chunk, and no chunk reaches outside. */
  lemma {:induction false} ChunksTile(s: Span, n: nat, addr: nat)
    requires n <= |s.sizes|
    ensures s.base <= addr < s.base + Sum(s.sizes[..n]) <==> exists j :: 0 <= j < n && Covers(Chunk(s, j), addr)
    ensures forall i, j :: 0 <= i < n && 0 <= j < n && Covers(Chunk(s, i), addr) && Covers(Chunk(s, j), addr) ==> i == j
  {
    if n > 0 {
      ChunksTile(s, n - 1, addr);
      SumStep(s.sizes, n - 1);
      assert Covers(Chunk(s, n - 1), addr) <==> s.base + Sum(s.sizes[..n - 1]) <= addr < s.base + Sum(s.sizes[..n]);
    }
  }

  // ----- Finding a task's own chunks in the flat table -----

  lemma {:induction false} OwnedComplete(i: nat, owned: seq<Owned>, m: nat, j: nat)
    requires m < |owned| && j < |owned[m].span.sizes|
    ensures Entry(ChunkKey(i, j, owned[m].name), Chunk(owned[m].span, j)) in OwnedEntries(i, owned)
  {
    if m < |owned| - 1 {
      OwnedComplete(i, owned[..|owned| - 1], m, j);
    } else {
      var es := ChunkEntries(i, owned[m], |owned[m].span.sizes|);
      assert es[j] in es;
    }
  }

  lemma {:induction false} TasksComplete(tasks: seq<Task>, i: nat, e: Entry)
    requires i < |tasks| && e in OwnedEntries(i, tasks[i].owned)
    ensures e in TaskEntries(tasks)
  {
    if i < |tasks| - 1 { TasksComplete(tasks[..|tasks| - 1], i, e); }
  }

  /** The table holds, under a chunk key, the chunk of the span that task owns by that
      name, and nothing else. */
  lemma {:induction false} ChunkLookup(k: Config, i: nat, m: nat, j: nat)
    requires k.Keyed() && i < |k.tasks| && m < |k.tasks[i].owned| && j < |k.tasks[i].owned[m].span.sizes|
    ensures var o := k.tasks[i].owned[m]; var at := Find(Flat(k), ChunkKey(i, j, o.name));
      at.Some? && Flat(k)[at.value].region == Chunk(o.span, j)
  {
    var owned := k.tasks[i].owned;
    var o, t := owned[m], Flat(k);
    var e := Entry(ChunkKey(i, j, o.name), Chunk(o.span, j));
    OwnedComplete(i, owned, m, j);
    TasksComplete(k.tasks, i, e);
    assert e in t;
    var p :| 0 <= p < |t| && t[p] == e;
    assert Has(t, e.key);
    var found := t[Find(t, e.key).value];
    assert found in TaskEntries(k.tasks) by {
      assert found in t && found.key.ChunkKey?;
    }
    TaskKeys(k.tasks, found);
    OwnedKeys(i, owned, found);
  }

  /** `translate_address`; `None` is the panic on an unknown region or an overflow. */
  function TranslateAddress(t: Table, i: nat, a: OwnedAddress): Option<nat> {
    match Find(t, ChunkKey(i, 0, a.region))
    case None => None
    case Some(p) => if t[p].region.base + a.offset < U32 then Some(t[p].region.base + a.offset) else None
  }

  /** A translated address lies in one of the task's own chunks of the named span
      exactly when its offset is inside the span. */
  lemma {:induction false} TranslatedAddressIsOwned(k: Config, i: nat, m: nat, offset: nat)
    requires k.Keyed() && i < |k.tasks| && m < |k.tasks[i].owned|
    requires var s := k.tasks[i].owned[m].span; s.sizes != [] && InRange(s)
    requires TranslateAddress(Flat(k), i, OwnedAddress(k.tasks[i].owned[m].name, offset)).Some?
    ensures var o := k.tasks[i].owned[m];
      var addr := TranslateAddress(Flat(k), i, OwnedAddress(o.name, offset)).value;
      && addr == o.span.base + offset
      && (offset < Sum(o.span.sizes) <==> exists j :: 0 <= j < |o.span.sizes| && Covers(Chunk(o.span, j), addr))
  {
    var s := k.tasks[i].owned[m].span;
    ChunkLookup(k, i, m, 0);
    assert s.sizes[..0] == [];
    assert s.sizes[..|s.sizes|] == s.sizes;
    ChunksTile(s, |s.sizes|, s.base + offset);
  }

  // ----- The eight regions of a task -----

  function BaseOf(t: Table, r: nat): nat { if r < |t| then t[r].region.base else 0 }
  function KeyOf(t: Table, r: nat): Key { if r < |t| then t[r].key else NullKey }

  function KeysAt(t: Table, rs: seq<nat>): (ks: seq<Key>)
    ensures |ks| == |rs| && forall i :: 0 <= i < |rs| ==> ks[i] == KeyOf(t, rs[i])
  {
    seq(|rs|, i requires 0 <= i < |rs| => KeyOf(t, rs[i]))
  }

  predicate Sorted(t: Table, rs: seq<nat>) {
    forall i, j :: 0 <= i < j < |rs| ==> BaseOf(t, rs[i]) <= BaseOf(t, rs[j])
  }

  predicate Within(t: Table, rs: seq<nat>) { forall i :: 0 <= i < |rs| ==> rs[i] < |t| }

  /** Inserts after every entry that does not start later, as a stable sort does. */
  function Place(t: Table, rs: seq<nat>, x: nat): (r: seq<nat>)
    ensures |r| == |rs| + 1
    ensures Within(t, rs) && x < |t| ==> Within(t, r)
  {
    if rs == [] then [x]
    else
      var front, last := rs[..|rs| - 1], rs[|rs| - 1];
      if BaseOf(t, last) <= BaseOf(t, x) then rs + [x] else Place(t, front, x) + [last]
  }

  function SortByBase(t: Table, rs: seq<nat>): (r: seq<nat>)
    ensures |r| == |rs|
    ensures Within(t, rs) ==> Within(t, r)
  {
    if rs == [] then [] else Place(t, SortByBase(t, rs[..|rs| - 1]), rs[|rs| - 1])
  }

  lemma {:induction false} PlaceBelow(t: Table, rs: seq<nat>, x: nat, top: nat)
    requires BaseOf(t, x) <= top && forall i :: 0 <= i < |rs| ==> BaseOf(t, rs[i]) <= top
    ensures forall i :: 0 <= i <= |rs| ==> BaseOf(t, Place(t, rs, x)[i]) <= top
  {
    if rs != [] { PlaceBelow(t, rs[..|rs| - 1], x, top); }
  }

  lemma {:induction false} PlaceSorted(t: Table, rs: seq<nat>, x: nat)
    requires Sorted(t, rs)
    ensures Sorted(t, Place(t, rs, x))
  {
    if rs != [] && BaseOf(t, rs[|rs| - 1]) > BaseOf(t, x) {
      PlaceSorted(t, rs[..|rs| - 1], x);
      PlaceBelow(t, rs[..|rs| - 1], x, BaseOf(t, rs[|rs| - 1]));
    }
  }

  /** The order that the kernel's access test relies on. */
  lemma {:induction false} SortedBySort(t: Table, rs: seq<nat>)
    ensures Sorted(t, SortByBase(t, rs))
  {
    if rs != [] {
      SortedBySort(t, rs[..|rs| - 1]);
      PlaceSorted(t, SortByBase(t, rs[..|rs| - 1]), rs[|rs| - 1]);
    }
  }

  lemma {:induction false} PlaceKeepsKeys(t: Table, rs: seq<nat>, x: nat)
    ensures multiset(KeysAt(t, Place(t, rs, x))) == multiset(KeysAt(t, rs)) + multiset{KeyOf(t, x)}
  {
    if rs == [] {
      assert KeysAt(t, [x]) == [KeyOf(t, x)];
    } else {
      var front, last := rs[..|rs| - 1], rs[|rs| - 1];
      assert KeysAt(t, rs) == KeysAt(t, front) + [KeyOf(t, last)];
      if BaseOf(t, last) <= BaseOf(t, x) {
        assert KeysAt(t, rs + [x]) == KeysAt(t, rs) + [KeyOf(t, x)];
      } else {
        PlaceKeepsKeys(t, front, x);
        assert KeysAt(t, Place(t, front, x) + [last]) == KeysAt(t, Place(t, front, x)) + [KeyOf(t, last)];
      }
    }
  }

  lemma {:induction false} SortKeepsKeys(t: Table, rs: seq<nat>)
    ensures multiset(KeysAt(t, SortByBase(t, rs))) == multiset(KeysAt(t, rs))
  {
    if rs != [] {
      var front, last := rs[..|rs| - 1], rs[|rs| - 1];
      SortKeepsKeys(t, front);
      PlaceKeepsKeys(t, SortByBase(t, front), last);
      assert KeysAt(t, rs) == KeysAt(t, front) + [KeyOf(t, last)];
    }
  }

  // ----- The keys a task asks for -----

  function SpanKeys(i: nat, o: Owned, n: nat): (ks: seq<Key>)
    ensures |ks| == n && forall j :: 0 <= j < n ==> ks[j] == ChunkKey(i, j, o.name)
  {
    seq(n, j requires 0 <= j < n => ChunkKey(i, j, o.name))
  }

  function AllSpanKeys(i: nat, owned: seq<Owned>): seq<Key> {
    if owned == [] then []
    else
      var last := owned[|owned| - 1];
      AllSpanKeys(i, owned[..|owned| - 1]) + SpanKeys(i, last, |last.span.sizes|)
  }

  function SharedKeys(names: seq<string>): (ks: seq<Key>)
    ensures |ks| == |names| && forall n :: 0 <= n < |names| ==> ks[n] == SharedKey(names[n])
  {
    seq(|names|, n requires 0 <= n < |names| => SharedKey(names[n]))
  }

  function Wanted(i: nat, task: Task): seq<Key> {
    [NullKey] + AllSpanKeys(i, task.owned) + SharedKeys(task.shared)
  }

  function Nulls(n: nat): (ks: seq<Key>)
    ensures |ks| == n && forall i :: 0 <= i < n ==> ks[i] == NullKey
  {
    seq(n, _ => NullKey)
  }

  datatype ConfigError = UnknownDevice(task: nat, name: string) | TooManyRegions(count: nat, task: nat)
  type Result<T> = Wrappers.Result<T, ConfigError>

  /** Pushes the indices of a task's own chunks. */
  method PushOwned(k: Config, i: nat, start: seq<nat>) returns (regions: seq<nat>)
    requires k.Keyed() && i < |k.tasks| && Within(Flat(k), start)
    ensures Within(Flat(k), regions)
    ensures KeysAt(Flat(k), regions) == KeysAt(Flat(k), start) + AllSpanKeys(i, k.tasks[i].owned)
  {
    var t, owned := Flat(k), k.tasks[i].owned;
    regions := start;
    for m := 0 to |owned|
      invariant Within(t, regions)
      invariant KeysAt(t, regions) == KeysAt(t, start) + AllSpanKeys(i, owned[..m])
    {
      ghost var before := regions;
      for j := 0 to |owned[m].span.sizes|
        invariant Within(t, regions)
        invariant KeysAt(t, regions) == KeysAt(t, before) + SpanKeys(i, owned[m], j)
      {
        ChunkLookup(k, i, m, j);
        var at := Find(t, ChunkKey(i, j, owned[m].name));
        assert SpanKeys(i, owned[m], j + 1) == SpanKeys(i, owned[m], j) + [ChunkKey(i, j, owned[m].name)];
        assert KeysAt(t, regions + [at.value]) == KeysAt(t, regions) + [ChunkKey(i, j, owned[m].name)];
        regions := regions + [at.value];
      }
      assert owned[..m + 1][..m] == owned[..m];
    }
    assert owned[..|owned|] == owned;
  }

  /** Pushes the indices of the shared regions a task names. */
  method PushShared(t: Table, names: seq<string>, start: seq<nat>) returns (regions: Option<seq<nat>>, missing: string)
    requires Within(t, start)
    ensures regions.Some? <==> forall n :: 0 <= n < |names| ==> Has(t, SharedKey(names[n]))
    ensures regions.Some? ==> Within(t, regions.value)
    ensures regions.Some? ==> KeysAt(t, regions.value) == KeysAt(t, start) + SharedKeys(names)
    ensures regions.None? ==> missing in names && !Has(t, SharedKey(missing))
  {
    var acc := start;
    for n := 0 to |names|
      invariant Within(t, acc)
      invariant forall p :: 0 <= p < n ==> Has(t, SharedKey(names[p]))
      invariant KeysAt(t, acc) == KeysAt(t, start) + SharedKeys(names[..n])
    {
      var at := Find(t, SharedKey(names[n]));
      if at.None? { return None, names[n]; }
      assert SharedKeys(names[..n + 1]) == SharedKeys(names[..n]) + [SharedKey(names[n])];
      assert KeysAt(t, acc + [at.value]) == KeysAt(t, acc) + [SharedKey(names[n])];
      acc := acc + [at.value];
    }
    assert names[..|names|] == names;
    regions, missing := Some(acc), "";
  }

  /** `resize(8, 0)` and `sort_by_key`; index 0 is the null region. */
  method PadAndSort(t: Table, regions: seq<nat>) returns (r: seq<nat>)
    requires t != [] && t[0].key == NullKey && Within(t, regions) && |regions| <= REGIONS_PER_TASK
    ensures |r| == REGIONS_PER_TASK && Within(t, r) && Sorted(t, r)
    ensures multiset(KeysAt(t, r)) == multiset(KeysAt(t, regions) + Nulls(REGIONS_PER_TASK - |regions|))
  {
    var padded := regions + seq(REGIONS_PER_TASK - |regions|, _ => 0);
    assert KeysAt(t, padded) == KeysAt(t, regions) + Nulls(REGIONS_PER_TASK - |regions|);
    SortedBySort(t, padded);
    SortKeepsKeys(t, padded);
    r := SortByBase(t, padded);
  }

  /** Every shared region the task names is in the table. */
  predicate Known(k: Config, i: nat)
    requires i < |k.tasks|
  {
    forall n :: 0 <= n < |k.tasks[i].shared| ==> Has(Flat(k), SharedKey(k.tasks[i].shared[n]))
  }

  /** Eight indices into the table, in order of base address, that are the task's own
      chunks, its shared regions and null padding. */
  ghost predicate Serves(k: Config, i: nat, rs: seq<nat>)
    requires i < |k.tasks|
  {
    var want := Wanted(i, k.tasks[i]);
    && |want| <= |rs| == REGIONS_PER_TASK && Within(Flat(k), rs) && Sorted(Flat(k), rs)
    && multiset(KeysAt(Flat(k), rs)) == multiset(want + Nulls(REGIONS_PER_TASK - |want|))
  }

  predicate Acceptable(k: Config, i: nat)
    requires i < |k.tasks|
  {
    Known(k, i) && |Wanted(i, k.tasks[i])| <= REGIONS_PER_TASK
  }

  // ----- What an accepted task gets, region by region -----

  predicate Configured(k: Config, name: string) { exists q :: 0 <= q < |k.shared| && k.shared[q].name == name }

  predicate AllConfigured(k: Config, i: nat)
    requires i < |k.tasks|
  {
    forall n :: 0 <= n < |k.tasks[i].shared| ==> Configured(k, k.tasks[i].shared[n])
  }

  function ChunkCount(owned: seq<Owned>): nat {
    if owned == [] then 0 else ChunkCount(owned[..|owned| - 1]) + |owned[|owned| - 1].span.sizes|
  }

  /** The null region, every chunk and every shared region. */
  function RegionCount(task: Task): nat { 1 + ChunkCount(task.owned) + |task.shared| }

  lemma {:induction false} SpanKeyCount(i: nat, owned: seq<Owned>)
    ensures |AllSpanKeys(i, owned)| == ChunkCount(owned)
  {
    if owned != [] { SpanKeyCount(i, owned[..|owned| - 1]); }
  }

  lemma {:induction false} WantedCount(i: nat, task: Task)
    ensures |Wanted(i, task)| == RegionCount(task)
  {
    SpanKeyCount(i, task.owned);
  }

  lemma {:induction false} SharedLookup(k: Config, name: string)
    ensures Has(Flat(k), SharedKey(name)) <==> Configured(k, name)
  {
    var t := Flat(k);
    if Has(t, SharedKey(name)) {
      var p :| 0 <= p < |t| && t[p].key == SharedKey(name);
      if p > |k.shared| {
        assert t[p] == TaskEntries(k.tasks)[p - 1 - |k.shared|];
        TaskKeys(k.tasks, t[p]);
      }
      assert k.shared[p - 1].name == name;
    }
    if Configured(k, name) {
      var q :| 0 <= q < |k.shared| && k.shared[q].name == name;
      assert t[q + 1].key == SharedKey(name);
    }
  }

  lemma {:induction false} KnownIs(k: Config, i: nat)
    requires i < |k.tasks|
    ensures Known(k, i) <==> AllConfigured(k, i)
    ensures forall name :: Has(Flat(k), SharedKey(name)) <==> Configured(k, name)
  {
    forall name ensures Has(Flat(k), SharedKey(name)) <==> Configured(k, name) { SharedLookup(k, name); }
  }

  lemma {:induction false} SpanKeysIs(i: nat, owned: seq<Owned>, key: Key)
    ensures key in AllSpanKeys(i, owned) <==>
      key.ChunkKey? && key.task == i
      && exists m :: 0 <= m < |owned| && owned[m].name == key.name && key.chunk < |owned[m].span.sizes|
  {
    if owned != [] {
      var front, last := owned[..|owned| - 1], owned[|owned| - 1];
      SpanKeysIs(i, front, key);
      var ks := SpanKeys(i, last, |last.span.sizes|);
      assert key in ks <==> key.ChunkKey? && key.task == i && key.name == last.name && key.chunk < |ks| by {
        if key.ChunkKey? && key.task == i && key.name == last.name && key.chunk < |ks| { assert ks[key.chunk] == key; }
      }
      if m :| 0 <= m < |owned| && key.ChunkKey? && owned[m].name == key.name && key.chunk < |owned[m].span.sizes| {
        assert m < |front| ==> front[m] == owned[m];
      }
      if m :| 0 <= m < |front| && key.ChunkKey? && front[m].name == key.name && key.chunk < |front[m].span.sizes| {
        assert owned[m] == front[m];
      }
    }
  }

  ghost predicate AmongThem(t: Table, rs: seq<nat>, e: Entry) {
    exists p :: 0 <= p < |rs| && rs[p] < |t| && t[rs[p]] == e
  }

  /** The eight regions give the null region, every chunk of every span the task owns, and
      every shared region it names, and nothing else, in order of base address. */
  ghost predicate Grants(k: Config, i: nat, rs: seq<nat>)
    requires i < |k.tasks|
  {
    var t, task := Flat(k), k.tasks[i];
    && |rs| == 8 && AmongThem(t, rs, t[0])
    && (forall m: nat, j: nat :: Owns(k, i, m, j) ==>
          exists p :: 0 <= p < 8 && rs[p] < |t| && IsChunk(t[rs[p]], k, i, m, j))
    && (forall q :: 0 <= q < |k.shared| && k.shared[q].name in task.shared ==> AmongThem(t, rs, t[q + 1]))
    && (forall p :: 0 <= p < 8 ==> rs[p] < |t| && Permitted(k, i, t[rs[p]]))
    && (forall p, q :: 0 <= p < q < 8 ==> t[rs[p]].region.base <= t[rs[q]].region.base)
  }

  ghost predicate Permitted(k: Config, i: nat, e: Entry)
    requires i < |k.tasks|
  {
    || e == Entry(NullKey, Region(0, 32, Attributes(false, false, false, NoRole)))
    || (exists q :: 0 <= q < |k.shared| && k.shared[q].name in k.tasks[i].shared
          && e == Entry(SharedKey(k.shared[q].name), k.shared[q].region))
    || (exists m: nat, j: nat :: Owns(k, i, m, j) && IsChunk(e, k, i, m, j))
  }

  lemma {:induction false} EntryKinds(k: Config, p: nat)
    requires p < |Flat(k)|
    ensures var e := Flat(k)[p];
      && (e.key.NullKey? ==> p == 0)
      && (e.key.SharedKey? ==> 0 < p <= |k.shared| && k.shared[p - 1].name == e.key.name)
      && (e.key.ChunkKey? ==> SomeChunk(e, k))
  {
    FlatDescribes(k);
    if p > |k.shared| {
      assert SomeChunk(Flat(k)[p], k);
    } else if p > 0 {
      assert Flat(k)[p - 1 + 1] == Entry(SharedKey(k.shared[p - 1].name), k.shared[p - 1].region);
    }
  }

  lemma {:induction false} ChunkByKey(k: Config, i: nat, m: nat, j: nat, e: Entry)
    requires k.Keyed() && Owns(k, i, m, j) && SomeChunk(e, k) && e.key == ChunkKey(i, j, k.tasks[i].owned[m].name)
    ensures IsChunk(e, k, i, m, j)
  {
    var i': nat, m': nat, j': nat :| Owns(k, i', m', j') && IsChunk(e, k, i', m', j');
    assert k.tasks[i].Keyed();
  }

  lemma {:induction false} KeyAmong(t: Table, rs: seq<nat>, want: seq<Key>, n: nat, key: Key)
    requires Within(t, rs) && multiset(KeysAt(t, rs)) == multiset(want + Nulls(n))
    ensures key in want ==> exists p :: 0 <= p < |rs| && t[rs[p]].key == key
    ensures forall p :: 0 <= p < |rs| ==> t[rs[p]].key == NullKey || t[rs[p]].key in want
  {
    var ks := KeysAt(t, rs);
    if key in want {
      assert key in multiset(want + Nulls(n));
      assert key in ks;
      var p :| 0 <= p < |ks| && ks[p] == key;
      assert t[rs[p]].key == key;
    }
    forall p | 0 <= p < |rs| ensures t[rs[p]].key == NullKey || t[rs[p]].key in want {
      assert ks[p] in multiset(ks);
      assert ks[p] in want + Nulls(n);
    }
  }

  lemma {:induction false} ChunkWanted(k: Config, i: nat, m: nat, j: nat)
    requires Owns(k, i, m, j)
    ensures ChunkKey(i, j, k.tasks[i].owned[m].name) in Wanted(i, k.tasks[i])
  {
    SpanKeysIs(i, k.tasks[i].owned, ChunkKey(i, j, k.tasks[i].owned[m].name));
  }

  lemma {:induction false} ChunkAt(k: Config, i: nat, m: nat, j: nat, p: nat)
    requires k.Keyed() && Owns(k, i, m, j)
    requires p < |Flat(k)| && Flat(k)[p].key == ChunkKey(i, j, k.tasks[i].owned[m].name)
    ensures IsChunk(Flat(k)[p], k, i, m, j)
  {
    EntryKinds(k, p);
    ChunkByKey(k, i, m, j, Flat(k)[p]);
  }

  lemma {:induction false} SharedWanted(k: Config, i: nat, q: nat)
    requires i < |k.tasks| && q < |k.shared| && k.shared[q].name in k.tasks[i].shared
    ensures SharedKey(k.shared[q].name) in Wanted(i, k.tasks[i])
  {
    var names := k.tasks[i].shared;
    var n :| 0 <= n < |names| && names[n] == k.shared[q].name;
    assert SharedKeys(names)[n] == SharedKey(k.shared[q].name);
  }

  lemma {:induction false} SharedAt(k: Config, q: nat, p: nat)
    requires k.Keyed() && q < |k.shared| && p < |Flat(k)| && Flat(k)[p].key == SharedKey(k.shared[q].name)
    ensures p == q + 1
  {
    EntryKinds(k, p);
  }

  lemma {:induction false} WantedKinds(i: nat, task: Task, key: Key)
    requires key in Wanted(i, task)
    ensures key.SharedKey? ==> key.name in task.shared
    ensures key.ChunkKey? ==> key in AllSpanKeys(i, task.owned)
  {
    SpanKeysIs(i, task.owned, key);
    var names := SharedKeys(task.shared);
    if key in names {
      var n :| 0 <= n < |names| && names[n] == key;
      assert task.shared[n] == key.name;
    }
  }

  lemma {:induction false} PermittedByKey(k: Config, i: nat, p: nat)
    requires k.Keyed() && i < |k.tasks| && p < |Flat(k)|
    requires Flat(k)[p].key == NullKey || Flat(k)[p].key in Wanted(i, k.tasks[i])
    ensures Permitted(k, i, Flat(k)[p])
  {
    var task, e := k.tasks[i], Flat(k)[p];
    EntryKinds(k, p);
    if e.key.NullKey? {
    } else {
      WantedKinds(i, task, e.key);
      if e.key.SharedKey? {
        assert e == Entry(SharedKey(k.shared[p - 1].name), k.shared[p - 1].region);
      } else {
        SpanKeysIs(i, task.owned, e.key);
        var m: nat :| m < |task.owned| && task.owned[m].name == e.key.name && e.key.chunk < |task.owned[m].span.sizes|;
        ChunkByKey(k, i, m, e.key.chunk, e);
      }
    }
  }

  ghost predicate KeyedAt(t: Table, rs: seq<nat>, key: Key) {
    exists p :: 0 <= p < |rs| && rs[p] < |t| && t[rs[p]].key == key
  }

  lemma {:induction false} GrantsOwned(k: Config, i: nat, rs: seq<nat>, m: nat, j: nat)
    requires k.Keyed() && Owns(k, i, m, j) && |rs| == 8
    requires KeyedAt(Flat(k), rs, ChunkKey(i, j, k.tasks[i].owned[m].name))
    ensures exists p :: 0 <= p < 8 && rs[p] < |Flat(k)| && IsChunk(Flat(k)[rs[p]], k, i, m, j)
  {
    var p :| 0 <= p < |rs| && rs[p] < |Flat(k)| && Flat(k)[rs[p]].key == ChunkKey(i, j, k.tasks[i].owned[m].name);
    ChunkAt(k, i, m, j, rs[p]);
  }

  lemma {:induction false} GrantsShared(k: Config, rs: seq<nat>, q: nat)
    requires k.Keyed() && q < |k.shared| && KeyedAt(Flat(k), rs, SharedKey(k.shared[q].name))
    ensures AmongThem(Flat(k), rs, Flat(k)[q + 1])
  {
    var p :| 0 <= p < |rs| && rs[p] < |Flat(k)| && Flat(k)[rs[p]].key == SharedKey(k.shared[q].name);
    SharedAt(k, q, rs[p]);
  }

  lemma {:induction false} GrantsNull(k: Config, rs: seq<nat>)
    requires KeyedAt(Flat(k), rs, NullKey)
    ensures AmongThem(Flat(k), rs, Flat(k)[0])
  {
    var p :| 0 <= p < |rs| && rs[p] < |Flat(k)| && Flat(k)[rs[p]].key == NullKey;
    EntryKinds(k, rs[p]);
  }

  lemma {:induction false} ServesKeys(k: Config, i: nat, rs: seq<nat>)
    requires i < |k.tasks| && Serves(k, i, rs)
    ensures forall key :: key in Wanted(i, k.tasks[i]) ==> KeyedAt(Flat(k), rs, key)
    ensures forall p :: 0 <= p < |rs| ==>
      rs[p] < |Flat(k)| && (Flat(k)[rs[p]].key == NullKey || Flat(k)[rs[p]].key in Wanted(i, k.tasks[i]))
  {
    var t, want := Flat(k), Wanted(i, k.tasks[i]);
    forall key | key in want ensures KeyedAt(t, rs, key) {
      KeyAmong(t, rs, want, REGIONS_PER_TASK - |want|, key);
    }
    KeyAmong(t, rs, want, REGIONS_PER_TASK - |want|, want[0]);
  }

  lemma {:induction false} ServesGrants(k: Config, i: nat, rs: seq<nat>)
    requires k.Keyed() && i < |k.tasks| && Serves(k, i, rs)
    ensures Grants(k, i, rs)
  {
    var t, want := Flat(k), Wanted(i, k.tasks[i]);
    ServesKeys(k, i, rs);
    assert want[0] in want;
    GrantsNull(k, rs);
    forall m: nat, j: nat | Owns(k, i, m, j)
      ensures exists p :: 0 <= p < 8 && rs[p] < |t| && IsChunk(t[rs[p]], k, i, m, j)
    {
      ChunkWanted(k, i, m, j);
      GrantsOwned(k, i, rs, m, j);
    }
    forall q | 0 <= q < |k.shared| && k.shared[q].name in k.tasks[i].shared ensures AmongThem(t, rs, t[q + 1]) {
      SharedWanted(k, i, q);
      GrantsShared(k, rs, q);
    }
    forall p | 0 <= p < 8 ensures rs[p] < |t| && Permitted(k, i, t[rs[p]]) { PermittedByKey(k, i, rs[p]); }
  }

  /** A task is accepted exactly when every shared region it names exists and it asks for
      at most eight regions, the null one included. */
  method TaskRegions(k: Config, i: nat) returns (r: Result<seq<nat>>)
    requires k.Keyed() && i < |k.tasks|
    ensures r.Ok? <==> Acceptable(k, i)
    ensures r.Ok? <==> AllConfigured(k, i) && RegionCount(k.tasks[i]) <= 8
    ensures r.Ok? ==> Serves(k, i, r.value) && Grants(k, i, r.value)
    ensures !AllConfigured(k, i) ==>
      r.Err? && r.error.UnknownDevice? && r.error.task == i && r.error.name in k.tasks[i].shared
      && !Configured(k, r.error.name)
    ensures AllConfigured(k, i) && r.Err? ==> r == Err(TooManyRegions(RegionCount(k.tasks[i]), i))
  {
    var t, task := Flat(k), k.tasks[i];
    KnownIs(k, i);
    WantedCount(i, task);
    assert t[0].key == NullKey && Has(t, NullKey);
    var first := Find(t, NullKey).value;
    var regions := [first];
    assert KeysAt(t, regions) == [NullKey];
    regions := PushOwned(k, i, regions);
    var all, missing := PushShared(t, task.shared, regions);
    if all.None? { return Err(UnknownDevice(i, missing)); }
    regions := all.value;
    assert KeysAt(t, regions) == Wanted(i, task);
    if |regions| > REGIONS_PER_TASK { return Err(TooManyRegions(|regions|, i)); }
    var sorted := PadAndSort(t, regions);
    ServesGrants(k, i, sorted);
    r := Ok(sorted);
  }

  /** An address can be translated exactly when the task owns a span by that name, the span
      has a chunk, and the sum is a 32-bit address. */
  lemma {:induction false} TranslatesIff(k: Config, i: nat, a: OwnedAddress)
    requires k.Keyed() && i < |k.tasks|
    ensures TranslateAddress(Flat(k), i, a).Some? <==>
      exists m: nat :: Owns(k, i, m, 0) && k.tasks[i].owned[m].name == a.region
        && k.tasks[i].owned[m].span.base + a.offset < 0x1_0000_0000
    ensures TranslateAddress(Flat(k), i, a).Some? ==>
      forall m: nat :: Owns(k, i, m, 0) && k.tasks[i].owned[m].name == a.region ==>
        TranslateAddress(Flat(k), i, a).value == k.tasks[i].owned[m].span.base + a.offset
  {
    var t, key := Flat(k), ChunkKey(i, 0, a.region);
    var at := Find(t, key);
    if at.Some? {
      EntryKinds(k, at.value);
      var i': nat, m': nat, j': nat :| Owns(k, i', m', j') && IsChunk(t[at.value], k, i', m', j');
      assert Owns(k, i, m', 0) && k.tasks[i].owned[m'].span.sizes[..0] == [];
      forall m: nat | Owns(k, i, m, 0) && k.tasks[i].owned[m].name == a.region ensures m == m' {
        assert k.tasks[i].Keyed();
      }
    } else if m: nat :| Owns(k, i, m, 0) && k.tasks[i].owned[m].name == a.region {
      ChunkLookup(k, i, m, 0);
    }
  }

  // ----- Interrupt maps -----

  datatype IrqConfig = IrqConfig(irq: nat, taskIndex: nat, notification: nat)
  datatype Owner = Owner(task: nat, notification: nat)

  /** The owner as both emitted maps write it; the task index is cut to 32 bits. */
  function OwnerOf(c: IrqConfig): Owner { Owner(c.taskIndex % U32, c.notification) }

  predicate Listed(m: map<Owner, seq<nat>>, o: Owner, irq: nat) { o in m && irq in m[o] }

  predicate NoRepeats(s: seq<nat>) { forall i, j :: 0 <= i < j < |s| ==> s[i] != s[j] }

  /** The two maps are inverse to each other: an interrupt is listed under an owner
      exactly when the other map sends it there, and it is listed once in all. */
  method BuildIrqMaps(irqs: seq<IrqConfig>) returns (toOwner: map<nat, Owner>, toIrqs: map<Owner, seq<nat>>)
    requires forall i, j :: 0 <= i < j < |irqs| ==> irqs[i].irq != irqs[j].irq
    ensures forall i :: 0 <= i < |irqs| ==>
      irqs[i].irq in toOwner && toOwner[irqs[i].irq] == Owner(irqs[i].taskIndex % 0x1_0000_0000, irqs[i].notification)
    ensures forall q :: q in toOwner ==> exists i :: 0 <= i < |irqs| && irqs[i].irq == q
    ensures forall o, q :: Listed(toIrqs, o, q) <==> q in toOwner && toOwner[q] == o
    ensures forall o :: o in toIrqs ==> NoRepeats(toIrqs[o]) && toIrqs[o] != []
  {
    toOwner, toIrqs := map[], map[];
    for n := 0 to |irqs|
      invariant forall i :: 0 <= i < n ==> irqs[i].irq in toOwner && toOwner[irqs[i].irq] == OwnerOf(irqs[i])
      invariant forall q :: q in toOwner ==> exists i :: 0 <= i < n && irqs[i].irq == q
      invariant forall o, q :: Listed(toIrqs, o, q) <==> q in toOwner && toOwner[q] == o
      invariant forall o :: o in toIrqs ==> NoRepeats(toIrqs[o]) && toIrqs[o] != []
    {
      var c := irqs[n];
      var o := OwnerOf(c);
      var listed := if o in toIrqs then toIrqs[o] else [];
      forall p | 0 <= p < |listed| ensures listed[p] != c.irq {
        assert Listed(toIrqs, o, listed[p]);
      }
      ghost var was := toIrqs;
      toIrqs := toIrqs[o := listed + [c.irq]];
      forall o', q
        ensures Listed(toIrqs, o', q) <==> Listed(was, o', q) || (o' == o && q == c.irq)
      {
        if o' == o { assert q in toIrqs[o] <==> q in listed || q == c.irq; }
      }
      toOwner := toOwner[c.irq := o];
    }
  }
}
