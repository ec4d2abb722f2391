/** The record log on real NOR bytes.  Every byte-level run, with operations torn
    bit by bit, is a run of the abstract log, so durability holds of the bytes. */
module HfBytes {
  import opened Nor
  import opened RecordLog
  import opened Wrappers
  import opened HfRecord
  import opened DurableRegister

  /** The contents of both flash chips. */
  datatype Chips = Chips(m0: seq<Byte>, m1: seq<Byte>) {
    function At(d: DevSelect): seq<Byte> { if d.Flash0? then m0 else m1 }
    function With(d: DevSelect, m: seq<Byte>): Chips {
      if d.Flash0? then Chips(m, m1) else Chips(m0, m)
    }
    predicate Sized() { |m0| >= SECTOR_SIZE && |m1| >= SECTOR_SIZE }
  }

  function SlotBytes(mem: seq<Byte>, i: nat): (bs: seq<Byte>)
    requires |mem| >= SECTOR_SIZE && i < SLOTS
    ensures |bs| == RAW_SIZE
  {
    mem[STRIDE * i..STRIDE * i + RAW_SIZE]
  }

  function ChipView(k: Codec, mem: seq<Byte>): (chip: Chip)
    requires |mem| >= SECTOR_SIZE
    ensures |chip| == SLOTS
    ensures forall i :: 0 <= i < SLOTS ==> chip[i] == k.view(SlotBytes(mem, i))
  {
    seq(SLOTS, i requires 0 <= i < SLOTS => k.view(SlotBytes(mem, i)))
  }

  function View(k: Codec, b: Chips): (f: Flash)
    requires b.Sized()
    ensures f.WellSized()
  {
    Flash(ChipView(k, b.m0), ChipView(k, b.m1))
  }

  // ----- Single operations -----

  predicate Runnable(op: Op) {
    op.ProgramSlot? ==> op.slot < SLOTS && op.rec.counter <= MAX_COUNTER
  }

  function Do(k: Codec, b: Chips, op: Op): (b': Chips)
    requires b.Sized()
    ensures b'.Sized()
  {
    match op
    case EraseSector(d) => b.With(d, Erase(b.At(d), 0))
    case ProgramSlot(d, i, r) =>
      if Runnable(op) then b.With(d, Program(b.At(d), STRIDE * i, k.encode(r))) else b
  }

  lemma EraseRefines(k: Codec, mem: seq<Byte>)
    requires |mem| >= SECTOR_SIZE
    ensures ChipView(k, Erase(mem, 0)) == Blanked(SLOTS)
  {
    var m' := Erase(mem, 0);
    forall i | 0 <= i < SLOTS ensures ChipView(k, m')[i] == Erased {
      assert AllBlank(SlotBytes(m', i));
    }
  }

  lemma ErasedIsBlank(k: Codec, mem: seq<Byte>, i: nat)
    requires |mem| >= SECTOR_SIZE && i < SLOTS && ChipView(k, mem)[i] == Erased
    ensures Blank(mem, STRIDE * i, STRIDE * i + RAW_SIZE)
  {
    forall k | STRIDE * i <= k < STRIDE * i + RAW_SIZE ensures mem[k] == BLANK {
      assert SlotBytes(mem, i)[k - STRIDE * i] == BLANK;
    }
  }

  lemma ProgramSlotBytes(mem: seq<Byte>, i: nat, data: seq<Byte>, j: nat)
    requires |mem| >= SECTOR_SIZE && i < SLOTS && j < SLOTS && |data| == RAW_SIZE
    ensures i != j ==> SlotBytes(Program(mem, STRIDE * i, data), j) == SlotBytes(mem, j)
    ensures i == j && Blank(mem, STRIDE * i, STRIDE * i + RAW_SIZE) ==>
      SlotBytes(Program(mem, STRIDE * i, data), j) == data
  {
    assert (STRIDE * i) % PAGE_SIZE + RAW_SIZE <= PAGE_SIZE;
    ProgramInPage(mem, STRIDE * i, data);
    if i == j && Blank(mem, STRIDE * i, STRIDE * i + RAW_SIZE) {
      ProgramBlank(mem, STRIDE * i, data);
    }
  }

  /** Programming a record into a blank slot changes that slot and no other. */
  lemma ProgramRefines(k: Codec, mem: seq<Byte>, i: nat, r: Record)
    requires |mem| >= SECTOR_SIZE && i < SLOTS && r.counter <= MAX_COUNTER
    requires ChipView(k, mem)[i] == Erased
    ensures ChipView(k, Program(mem, STRIDE * i, k.encode(r))) == ChipView(k, mem)[i := Live(r)]
  {
    var data := k.encode(r);
    ErasedIsBlank(k, mem, i);
    forall j | 0 <= j < SLOTS
      ensures ChipView(k, Program(mem, STRIDE * i, data))[j] == ChipView(k, mem)[i := Live(r)][j]
    {
      ProgramSlotBytes(mem, i, data, j);
    }
  }

  /** The operation is one the server can be about to run: records go to blank slots. */
  ghost predicate Fit(f: Flash, op: Op) {
    Runnable(op) && (op.ProgramSlot? ==> op.slot < |f.At(op.d)| && f.At(op.d)[op.slot] == Erased)
  }

  ghost predicate Fits(f: Flash, ops: seq<Op>)
    decreases |ops|
  {
    ops == [] || (Fit(f, ops[0]) && Fits(Apply(f, ops[0]), ops[1..]))
  }

  lemma DoRefines(k: Codec, b: Chips, op: Op)
    requires b.Sized() && Fit(View(k, b), op)
    ensures View(k, Do(k, b, op)) == Apply(View(k, b), op)
  {
    match op
    case EraseSector(d) => EraseRefines(k, b.At(d));
    case ProgramSlot(d, i, r) => ProgramRefines(k, b.At(d), i, r);
  }

  // ----- Power cuts -----

  /** The bits of an interrupted operation are old or new.  The one assumption about
      the CRC is here: a torn slot that reads as valid is the old or the new record. */
  ghost predicate TornBytes(k: Codec, b: Chips, op: Op, b': Chips)
    requires b.Sized()
  {
    var before, after, r := b.At(op.d), Do(k, b, op).At(op.d), b'.At(op.d);
    && b'.At(op.d.Other()) == b.At(op.d.Other())
    && Nor.Torn(before, after, r)
    && forall i :: 0 <= i < SLOTS && k.view(SlotBytes(r, i)).Live? ==>
         SlotBytes(r, i) == SlotBytes(before, i) || SlotBytes(r, i) == SlotBytes(after, i)
  }

  lemma TornKeepsCommonSlot(before: seq<Byte>, after: seq<Byte>, r: seq<Byte>, i: nat)
    requires Nor.Torn(before, after, r) && |r| >= SECTOR_SIZE && i < SLOTS
    requires SlotBytes(before, i) == SlotBytes(after, i)
    ensures SlotBytes(r, i) == SlotBytes(before, i)
  {
    forall k | 0 <= k < RAW_SIZE ensures SlotBytes(r, i)[k] == SlotBytes(before, i)[k] {
      assert SlotBytes(before, i)[k] == SlotBytes(after, i)[k];
      TornKeepsCommonBytes(before, after, r, STRIDE * i + k);
    }
  }

  lemma TornSlotRefines(k: Codec, b: Chips, op: Op, b': Chips, i: nat)
    requires b.Sized() && Fit(View(k, b), op) && TornBytes(k, b, op, b') && i < SLOTS
    ensures var v, v' := ChipView(k, b.At(op.d))[i], ChipView(k, b'.At(op.d))[i];
      match op
      case EraseSector(_) => v' in {v, Junk, Erased}
      case ProgramSlot(_, slot, r) => if i == slot then v' in {v, Junk, Live(r)} else v' == v
  {
    var before, after, r := b.At(op.d), Do(k, b, op).At(op.d), b'.At(op.d);
    DoRefines(k, b, op);
    assert ChipView(k, after) == Apply(View(k, b), op).At(op.d);
    assert ChipView(k, r)[i] in {ChipView(k, before)[i], ChipView(k, after)[i], Junk, Erased};
    if op.ProgramSlot? && i != op.slot {
      ProgramSlotBytes(before, op.slot, k.encode(op.rec), i);
      TornKeepsCommonSlot(before, after, r, i);
    }
  }

  lemma TornRefines(k: Codec, b: Chips, op: Op, b': Chips)
    requires b.Sized() && Fit(View(k, b), op) && TornBytes(k, b, op, b')
    ensures b'.Sized() && RecordLog.Torn(View(k, b), op, View(k, b'), false)
  {
    forall i: nat | i < SLOTS { TornSlotRefines(k, b, op, b', i); }
  }

  ghost predicate CutBytes(k: Codec, b: Chips, ops: seq<Op>, b': Chips)
    requires b.Sized()
    decreases |ops|
  {
    || b' == b
    || (ops != [] && (TornBytes(k, b, ops[0], b') || CutBytes(k, Do(k, b, ops[0]), ops[1..], b')))
  }

  function DoAll(k: Codec, b: Chips, ops: seq<Op>): (b': Chips)
    requires b.Sized()
    ensures b'.Sized()
    decreases |ops|
  {
    if ops == [] then b else DoAll(k, Do(k, b, ops[0]), ops[1..])
  }

  lemma {:induction false} DoAllRefines(k: Codec, b: Chips, ops: seq<Op>)
    requires b.Sized() && Fits(View(k, b), ops)
    ensures View(k, DoAll(k, b, ops)) == ApplyAll(View(k, b), ops)
    decreases |ops|
  {
    if ops != [] {
      DoRefines(k, b, ops[0]);
      DoAllRefines(k, Do(k, b, ops[0]), ops[1..]);
    }
  }

  lemma {:induction false} CutRefines(k: Codec, b: Chips, ops: seq<Op>, b': Chips)
    requires b.Sized() && Fits(View(k, b), ops)
    requires CutBytes(k, b, ops, b')
    ensures b'.Sized() && CutDuring(View(k, b), ops, View(k, b'), false)
    decreases |ops|
  {
    if b' == b {
    } else if TornBytes(k, b, ops[0], b') {
      TornRefines(k, b, ops[0], b');
    } else {
      DoRefines(k, b, ops[0]);
      CutRefines(k, Do(k, b, ops[0]), ops[1..], b');
    }
  }

  // ----- The server's operation lists only program blank slots -----

  ghost predicate Bounded(f: Flash) { forall r :: f.Holds(r) ==> r.counter <= MAX_COUNTER }

  lemma ViewBounded(k: Codec, b: Chips)
    requires b.Sized()
    ensures Bounded(View(k, b))
  {}

  lemma AppendFits(f: Flash, d: DevSelect, r: Record)
    requires f.WellSized() && r.counter <= MAX_COUNTER
    ensures Fits(f, AppendTo(f, d, r))
  {
    var ops := AppendTo(f, d, r);
    if |ops| == 1 {
      assert ops[1..] == [];
    } else {
      var g, rest := Apply(f, ops[0]), ops[1..];
      assert rest == [ProgramSlot(d, 0, r)] && rest[1..] == [];
      assert Fits(g, rest) by { assert Fits(Apply(g, rest[0]), rest[1..]); }
    }
  }

  lemma RepairFits(f: Flash, active: DevSelect)
    requires f.WellSized() && Bounded(f)
    ensures Fits(f, RepairOps(f, active))
  {
    NewestIsMaximum(f.c0);
    NewestIsMaximum(f.c1);
    var a, b := Newest(f.At(active.Other())), Newest(f.At(active));
    if b.Some? { AppendFits(f, active.Other(), b.value); }
    if a.Some? { AppendFits(f, active, a.value); }
  }

  lemma {:induction false} FitsSequence(f: Flash, xs: seq<Op>, ys: seq<Op>)
    requires Fits(f, xs) && Fits(ApplyAll(f, xs), ys)
    ensures Fits(f, xs + ys)
    decreases |xs|
  {
    if xs == [] {
      assert xs + ys == ys;
    } else {
      assert (xs + ys)[1..] == xs[1..] + ys;
      FitsSequence(Apply(f, xs[0]), xs[1..], ys);
    }
  }

  lemma WriteFits(f: Flash, active: DevSelect, v: DevSelect)
    requires f.WellSized() && WritePlan(f, active, v).Steps?
    ensures Fits(f, WritePlan(f, active, v).ops)
  {
    var r, a := WritePlan(f, active, v).rec, active.Other();
    AppendFits(f, a, r);
    DoneAppend(f, a, r);
    var g := ApplyAll(f, AppendTo(f, a, r));
    AppendFits(g, active, r);
    assert AppendTo(g, active, r) == AppendTo(f, active, r);
    FitsSequence(f, AppendTo(f, a, r), AppendTo(f, active, r));
  }

  // ----- Byte-level runs -----

  datatype Board = Board(chips: Chips, up: bool, active: DevSelect)

  function Abs(k: Codec, s: Board): State
    requires s.chips.Sized()
  {
    State(View(k, s.chips), s.up, s.active)
  }

  /** Nothing in the record sectors differs. */
  predicate SameRecords(b: Chips, b': Chips) {
    && |b'.m0| == |b.m0| && |b'.m1| == |b.m1| && b.Sized()
    && b'.m0[..SECTOR_SIZE] == b.m0[..SECTOR_SIZE] && b'.m1[..SECTOR_SIZE] == b.m1[..SECTOR_SIZE]
  }

  lemma SameRecordsView(k: Codec, b: Chips, b': Chips)
    requires SameRecords(b, b')
    ensures b'.Sized() && View(k, b') == View(k, b)
  {
    SameSectorView(k, b.m0, b'.m0);
    SameSectorView(k, b.m1, b'.m1);
  }

  lemma SameSectorView(k: Codec, m: seq<Byte>, m': seq<Byte>)
    requires SECTOR_SIZE <= |m| && SECTOR_SIZE <= |m'| && m'[..SECTOR_SIZE] == m[..SECTOR_SIZE]
    ensures ChipView(k, m') == ChipView(k, m)
  {
    forall i | 0 <= i < SLOTS ensures SlotBytes(m', i) == SlotBytes(m, i) {
      assert SlotBytes(m', i) == m'[..SECTOR_SIZE][STRIDE * i..STRIDE * i + RAW_SIZE];
      assert SlotBytes(m, i) == m[..SECTOR_SIZE][STRIDE * i..STRIDE * i + RAW_SIZE];
    }
  }

  ghost predicate NextBytes(k: Codec, s: Board, e: Event, s': Board) {
    && s.chips.Sized()
    && var f := View(k, s.chips);
    match e
    case Boot(seen) =>
      && !s.up && s'.up
      && s'.chips == DoAll(k, s.chips, RepairOps(f, Flash0))
      && seen == Shown(View(k, s'.chips), Flash0)
      && s'.active == BootDevice(View(k, s'.chips))
    case BootCut => !s.up && !s'.up && CutBytes(k, s.chips, RepairOps(f, Flash0), s'.chips)
    case PowerLoss => s.up && s' == s.(up := false)
    case Get(seen) => s.up && s' == s && seen == Shown(f, s.active)
    case SetDev(d) => s.up && s' == s.(active := d)
    case WriteOk(v) =>
      var p := WritePlan(f, s.active, v);
      && s.up && !p.Overflow?
      && if p.Stored? then s' == s
         else s' == s.(chips := DoAll(k, s.chips, p.ops))
    case WriteOverflow(v) => s.up && WritePlan(f, s.active, v).Overflow? && s' == s
    case WriteCutShort(v) =>
      var p := WritePlan(f, s.active, v);
      && s.up && !s'.up
      && if p.Steps? then CutBytes(k, s.chips, p.ops, s'.chips)
         else s'.chips == s.chips
    case Client(cut) => s.up && SameRecords(s.chips, s'.chips) && s' == Board(s'.chips, !cut, s.active)
  }

  /** Each byte-level step is an abstract step. */
  lemma NextRefines(k: Codec, s: Board, e: Event, s': Board)
    requires NextBytes(k, s, e, s')
    ensures s'.chips.Sized() && Next(Abs(k, s), e, Abs(k, s'), false)
  {
    var f := View(k, s.chips);
    ViewBounded(k, s.chips);
    RepairFits(f, Flash0);
    match e
    case Boot(_) => DoAllRefines(k, s.chips, RepairOps(f, Flash0));
    case BootCut => CutRefines(k, s.chips, RepairOps(f, Flash0), s'.chips);
    case WriteOk(v) =>
      if WritePlan(f, s.active, v).Steps? {
        WriteFits(f, s.active, v);
        DoAllRefines(k, s.chips, WritePlan(f, s.active, v).ops);
      }
    case WriteCutShort(v) =>
      if WritePlan(f, s.active, v).Steps? {
        WriteFits(f, s.active, v);
        CutRefines(k, s.chips, WritePlan(f, s.active, v).ops, s'.chips);
      }
    case Client(_) => SameRecordsView(k, s.chips, s'.chips);
    case _ =>
  }

  ghost predicate RunBytes(k: Codec, ss: seq<Board>, es: seq<Event>) {
    && |ss| == |es| + 1
    && ss[0].chips.Sized()
    && forall i :: 0 <= i < |es| ==> NextBytes(k, ss[i], es[i], ss[i + 1])
  }

  function AbsAll(k: Codec, ss: seq<Board>): (r: seq<State>)
    requires forall i :: 0 <= i < |ss| ==> ss[i].chips.Sized()
    ensures |r| == |ss| && forall i :: 0 <= i < |ss| ==> r[i] == Abs(k, ss[i])
  {
    seq(|ss|, i requires 0 <= i < |ss| => Abs(k, ss[i]))
  }

  lemma RunRefines(k: Codec, ss: seq<Board>, es: seq<Event>)
    requires RunBytes(k, ss, es)
    ensures forall i :: 0 <= i < |ss| ==> ss[i].chips.Sized()
    ensures Run(AbsAll(k, ss), es, false)
  {
    forall i | 0 <= i < |ss| ensures ss[i].chips.Sized() {
      if i > 0 { NextRefines(k, ss[i - 1], es[i - 1], ss[i]); }
    }
    var abs := AbsAll(k, ss);
    forall i | 0 <= i < |es| ensures Next(abs[i], es[i], abs[i + 1], false) {
      NextRefines(k, ss[i], es[i], ss[i + 1]);
    }
  }

  /** Durability of the stored bytes: for every CRC and every run from a powered-off
      board without conflicting records, some choice of which cut-short writes took
      effect explains every value ever read. */
  lemma BytesAreDurable(k: Codec, ss: seq<Board>, es: seq<Event>)
    requires RunBytes(k, ss, es) && !ss[0].up && Unique(View(k, ss[0].chips))
    ensures exists took :: Explains(Shown(View(k, ss[0].chips), Flash0), es, took)
  {
    RunRefines(k, ss, es);
    DurablyLinearizable(AbsAll(k, ss), es, false);
    var took := Took(AbsAll(k, ss), es);
    assert Explains(Shown(View(k, ss[0].chips), Flash0), es, took);
  }
}
