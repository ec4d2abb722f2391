/** The host flash server: mux and device-select pins, the record scan, boot repair,
    the persistent-data write and the client flash calls, as they change state. */
module HfServer {
  import opened Nor
  import opened RecordLog
  import opened Wrappers
  import opened HfRecord
  import opened HfBytes
  import opened DurableRegister

  datatype MuxState = SP | HostCPU
  datatype ProtectMode = ProtectSector0 | AllowModificationsToSector0

  datatype HfError =
    WriteEnableFailed | NoDevSelect | NotMuxedToSP | Sector0IsReserved
  | NoPersistentData | MonotonicCounterOverflow

  type Result<T> = Wrappers.Result<T, HfError>

  function Address(slot: Option<nat>): Option<nat> {
    match slot case None => None case Some(i) => Some(STRIDE * i)
  }

  lemma {:induction false} DoSequence(k: Codec, b: Chips, xs: seq<Op>, ys: seq<Op>)
    requires b.Sized()
    ensures DoAll(k, b, xs + ys) == DoAll(k, DoAll(k, b, xs), ys)
    decreases |xs|
  {
    if xs == [] {
      assert xs + ys == ys;
    } else {
      assert (xs + ys)[1..] == xs[1..] + ys;
      DoSequence(k, Do(k, b, xs[0]), xs[1..], ys);
    }
  }

  /** `after` is `before` with the first `done` of `ops` carried out, and `ok` says
      that none is missing. */
  ghost predicate Ran(k: Codec, before: Chips, ops: seq<Op>, done: nat, after: Chips, ok: bool) {
    && before.Sized() && done <= |ops|
    && after == DoAll(k, before, ops[..done])
    && (ok <==> done == |ops|)
  }

  lemma RanAll(k: Codec, before: Chips, ops: seq<Op>, done: nat, after: Chips)
    requires Ran(k, before, ops, done, after, true)
    ensures after == DoAll(k, before, ops)
  {
    assert ops[..done] == ops;
  }

  lemma RanOne(k: Codec, b: Chips, op: Op)
    requires b.Sized()
    ensures Ran(k, b, [op], 1, Do(k, b, op), true)
  {
    assert [op][..1] == [op] && [op][1..] == [];
    assert DoAll(k, b, [op]) == DoAll(k, Do(k, b, op), [op][1..]);
  }

  lemma RanInTurn(k: Codec, b0: Chips, xs: seq<Op>, b1: Chips, ys: seq<Op>, done: nat, b2: Chips, ok: bool)
    requires Ran(k, b0, xs, |xs|, b1, true) && Ran(k, b1, ys, done, b2, ok)
    ensures Ran(k, b0, xs + ys, |xs| + done, b2, ok)
  {
    assert xs[..|xs|] == xs && (xs + ys)[..|xs| + done] == xs + ys[..done];
    DoSequence(k, b0, xs, ys[..done]);
  }

  // ----- The commands behind an operation list -----

  /** A flash command as it goes out on the bus, to the chip that is wired up. */
  datatype Command =
    | SectorEraseAt(d: DevSelect, addr: nat)
    | PageProgramAt(d: DevSelect, addr: nat, data: seq<Byte>)
    | BulkEraseOf(d: DevSelect)

  function CommandOf(k: Codec, op: Op): Command {
    match op
    case EraseSector(d) => SectorEraseAt(d, 0)
    case ProgramSlot(d, i, r) => PageProgramAt(d, STRIDE * i, k.encode(r))
  }

  function Commands(k: Codec, ops: seq<Op>): (cs: seq<Command>)
    ensures |cs| == |ops| && forall i :: 0 <= i < |ops| ==> cs[i] == CommandOf(k, ops[i])
  {
    seq(|ops|, i requires 0 <= i < |ops| => CommandOf(k, ops[i]))
  }

  /** Since `past`, the commands of the first `done` of `ops` have been issued, in order,
      and no others. */
  ghost predicate Sent(k: Codec, past: seq<Command>, ops: seq<Op>, done: nat, issued: seq<Command>) {
    done <= |ops| && issued == past + Commands(k, ops[..done])
  }

  lemma SentOne(k: Codec, past: seq<Command>, op: Op)
    ensures Sent(k, past, [op], 1, past + [CommandOf(k, op)])
  {
    assert [op][..1] == [op] && Commands(k, [op]) == [CommandOf(k, op)];
  }

  lemma SentInTurn(k: Codec, past: seq<Command>, xs: seq<Op>, mid: seq<Command>, ys: seq<Op>, done: nat,
                   issued: seq<Command>)
    requires Sent(k, past, xs, |xs|, mid) && Sent(k, mid, ys, done, issued)
    ensures Sent(k, past, xs + ys, |xs| + done, issued)
  {
    assert xs[..|xs|] == xs && (xs + ys)[..|xs| + done] == xs + ys[..done];
    assert Commands(k, xs + ys[..done]) == Commands(k, xs) + Commands(k, ys[..done]);
  }

  /** A list that was not finished is a longer list that was not finished. */
  lemma StoppedShort(k: Codec, before: Chips, past: seq<Command>, xs: seq<Op>, ys: seq<Op>, done: nat,
                     after: Chips, issued: seq<Command>)
    requires Ran(k, before, xs, done, after, false) && Sent(k, past, xs, done, issued)
    ensures Ran(k, before, xs + ys, done, after, false) && Sent(k, past, xs + ys, done, issued)
  {
    assert (xs + ys)[..done] == xs[..done];
  }

  lemma NewestBounded(k: Codec, b: Chips)
    requires b.Sized()
    ensures forall d :: Newest(View(k, b).At(d)).Some? ==> Newest(View(k, b).At(d)).value.counter <= MAX_COUNTER
  {
    var f := View(k, b);
    ViewBounded(k, b);
    forall d | Newest(f.At(d)).Some? ensures Newest(f.At(d)).value.counter <= MAX_COUNTER {
      NewestIsMaximum(f.At(d));
      assert f.Holds(Newest(f.At(d)).value);
    }
  }

  function Carry(b: Chips, c: Command): (b': Chips)
    requires b.Sized()
    ensures b'.Sized()
  {
    match c
    case SectorEraseAt(d, addr) => b.With(d, Erase(b.At(d), addr))
    case PageProgramAt(d, addr, data) => if |data| <= PAGE_SIZE then b.With(d, Program(b.At(d), addr, data)) else b
    case BulkEraseOf(d) => b.With(d, seq(|b.At(d)|, _ => BLANK))
  }

  /** What a command cut short may leave: bits old or new, and, as assumed of the CRC, a
      slot that reads as valid is the old or the new one. */
  ghost predicate TornCommand(k: Codec, b: Chips, c: Command, b': Chips)
    requires b.Sized()
  {
    var before, after, r := b.At(c.d), Carry(b, c).At(c.d), b'.At(c.d);
    && b'.At(c.d.Other()) == b.At(c.d.Other())
    && Nor.Torn(before, after, r)
    && forall i :: 0 <= i < SLOTS && k.view(SlotBytes(r, i)).Live? ==>
         SlotBytes(r, i) == SlotBytes(before, i) || SlotBytes(r, i) == SlotBytes(after, i)
  }

  /** `b'` may be found after power failed while the commands `cs` were going out. */
  ghost predicate CutCommands(k: Codec, b: Chips, cs: seq<Command>, b': Chips)
    requires b.Sized()
    decreases |cs|
  {
    || b' == b
    || (cs != [] && (TornCommand(k, b, cs[0], b') || CutCommands(k, Carry(b, cs[0]), cs[1..], b')))
  }

  lemma CarryIsDo(k: Codec, b: Chips, op: Op)
    requires b.Sized() && Runnable(op)
    ensures Carry(b, CommandOf(k, op)) == Do(k, b, op)
  {}

  /** Power failing among the commands of any part of an operation list is a cut of that
      list. */
  lemma {:induction false} CutCommandsIsCut(k: Codec, b: Chips, ops: seq<Op>, done: nat, b': Chips)
    requires b.Sized() && done <= |ops| && forall op :: op in ops ==> Runnable(op)
    requires CutCommands(k, b, Commands(k, ops[..done]), b')
    ensures CutBytes(k, b, ops, b')
    decreases done
  {
    if b' != b {
      var cs, op := Commands(k, ops[..done]), ops[0];
      CarryIsDo(k, b, op);
      if !TornCommand(k, b, cs[0], b') {
        assert cs[1..] == Commands(k, ops[1..][..done - 1]);
        CutCommandsIsCut(k, Do(k, b, op), ops[1..], done - 1, b');
      }
    }
  }

  /** Power failing at any moment of a write, with any of its commands gone out, is one
      `WriteCutShort` step of the durable register. */
  lemma CutWrite(k: Codec, before: Chips, d: DevSelect, v: DevSelect, past: seq<Command>, done: nat,
                 issued: seq<Command>, b': Chips, d': DevSelect)
    requires before.Sized() && WritePlan(View(k, before), d, v).Steps?
    requires Sent(k, past, WritePlan(View(k, before), d, v).ops, done, issued)
    requires CutCommands(k, before, issued[|past|..], b')
    ensures NextBytes(k, Board(before, true, d), WriteCutShort(v), Board(b', false, d'))
  {
    var f := View(k, before);
    var ops := WritePlan(f, d, v).ops;
    assert issued[|past|..] == Commands(k, ops[..done]);
    WriteFits(f, d, v);
    FitsRunnable(f, ops);
    CutCommandsIsCut(k, before, ops, done, b');
  }

  /** The same for the boot repair. */
  lemma CutRepair(k: Codec, before: Chips, d: DevSelect, past: seq<Command>, done: nat, issued: seq<Command>, b': Chips)
    requires before.Sized() && Sent(k, past, RepairOps(View(k, before), Flash0), done, issued)
    requires CutCommands(k, before, issued[|past|..], b')
    ensures NextBytes(k, Board(before, false, d), BootCut, Board(b', false, d))
  {
    var f := View(k, before);
    var ops := RepairOps(f, Flash0);
    assert issued[|past|..] == Commands(k, ops[..done]);
    ViewBounded(k, before);
    RepairFits(f, Flash0);
    FitsRunnable(f, ops);
    CutCommandsIsCut(k, before, ops, done, b');
  }

  /** A client's command past the record sector and within its chip. */
  predicate PastRecords(b: Chips, c: Command) {
    !c.BulkEraseOf? && SECTOR_SIZE <= c.addr < |b.At(c.d)|
  }

  lemma PastRecordsKept(b: Chips, c: Command)
    requires b.Sized() && PastRecords(b, c)
    ensures SameRecords(b, Carry(b, c))
  {
    match c
    case SectorEraseAt(d, addr) => EraseKeepsSectorZero(b.At(d), addr);
    case PageProgramAt(d, addr, data) =>
      if |data| <= PAGE_SIZE { ProgramKeepsSectorZero(b.At(d), addr, data); }
    case BulkEraseOf(_) =>
  }

  /** Such a command, finished or torn at any moment, is one `Client` step of the durable
      register. */
  lemma ClientStep(k: Codec, b: Chips, c: Command, b': Chips, d: DevSelect)
    requires b.Sized() && PastRecords(b, c)
    ensures NextBytes(k, Board(b, true, d), Client(false), Board(Carry(b, c), true, d))
    ensures TornCommand(k, b, c, b') ==> NextBytes(k, Board(b, true, d), Client(true), Board(b', false, d))
  {
    PastRecordsKept(b, c);
    if TornCommand(k, b, c, b') {
      TornKeepsSector(b.At(c.d), Carry(b, c).At(c.d), b'.At(c.d));
      assert SameRecords(b, b');
    }
  }

  lemma TornKeepsSector(before: seq<Byte>, after: seq<Byte>, r: seq<Byte>)
    requires Nor.Torn(before, after, r) && |before| >= SECTOR_SIZE && after[..SECTOR_SIZE] == before[..SECTOR_SIZE]
    ensures |r| == |before| && r[..SECTOR_SIZE] == before[..SECTOR_SIZE]
  {
    forall i | 0 <= i < SECTOR_SIZE ensures r[i] == before[i] {
      assert after[..SECTOR_SIZE][i] == before[..SECTOR_SIZE][i];
      TornKeepsCommonBytes(before, after, r, i);
    }
  }

  lemma {:induction false} FitsRunnable(f: Flash, ops: seq<Op>)
    requires Fits(f, ops)
    ensures forall op :: op in ops ==> Runnable(op)
    decreases |ops|
  {
    if ops != [] { FitsRunnable(Apply(f, ops[0]), ops[1..]); }
  }

  lemma EraseKeepsSectorZero(mem: seq<Byte>, addr: nat)
    requires SECTOR_SIZE <= addr < |mem|
    ensures Erase(mem, addr)[..SECTOR_SIZE] == mem[..SECTOR_SIZE]
  {}

  lemma ProgramKeepsSectorZero(mem: seq<Byte>, addr: nat, data: seq<Byte>)
    requires SECTOR_SIZE <= addr < |mem| && |data| <= PAGE_SIZE
    ensures Program(mem, addr, data)[..SECTOR_SIZE] == mem[..SECTOR_SIZE]
  {}

  /** An acknowledged write is one `WriteOk` step of the durable register, and leaves
      both chips led by a record that carries `v`. */
  lemma AcknowledgedWrite(k: Codec, before: Chips, d: DevSelect, v: DevSelect, done: nat, after: Chips)
    requires before.Sized()
    requires match WritePlan(View(k, before), d, v)
      case Overflow => false
      case Stored => after == before
      case Steps(ops, _) => Ran(k, before, ops, done, after, true)
    ensures NextBytes(k, Board(before, true, d), WriteOk(v), Board(after, true, d))
    ensures after.Sized()
    ensures LedBy(View(k, after), v)
    ensures WritePlan(View(k, before), d, v).Steps? ==>
      Newest(View(k, after).c0) == Some(WritePlan(View(k, before), d, v).rec)
  {
    var f := View(k, before);
    var p := WritePlan(f, d, v);
    if p.Steps? {
      RanAll(k, before, p.ops, done, after);
      WriteFits(f, d, v);
      DoAllRefines(k, before, p.ops);
      WriteDone(f, d, v);
    }
  }

  /** On a board with one chip, an acknowledged write leaves it led by the new record. */
  lemma AcknowledgedSingle(k: Codec, before: Chips, v: DevSelect, done: nat, after: Chips)
    requires before.Sized() && SinglePlan(View(k, before), v).Steps?
    requires Ran(k, before, SinglePlan(View(k, before), v).ops, done, after, true)
    ensures after.Sized() && Newest(View(k, after).c0) == Some(SinglePlan(View(k, before), v).rec)
  {
    var f := View(k, before);
    var p := SinglePlan(f, v);
    RanAll(k, before, p.ops, done, after);
    AppendFits(f, Flash0, p.rec);
    DoAllRefines(k, before, p.ops);
    SingleDone(f, v);
  }

  /** `d` is the device of a record with the highest counter, or Flash0 if there is none. */
  ghost predicate Names(f: Flash, d: DevSelect) {
    if forall r :: !f.Holds(r) then d == Flash0
    else exists r :: f.Holds(r) && r.dev == d && forall q :: f.Holds(q) ==> q.counter <= r.counter
  }

  lemma ScanStep(view: Chip, i: nat)
    requires i < |view|
    ensures Newest(view[..i + 1]) == Newer(Newest(view[..i]), view[i])
    ensures FirstErased(view[..i + 1]) ==
      if FirstErased(view[..i]).Some? then FirstErased(view[..i])
      else if view[i] == Erased then Some(i) else None
  {
    assert view[..i + 1][..i] == view[..i];
  }

  class HostFlash {
    const codec: Codec
    const capacity: nat
    const twoChips: bool

    // The hardware: both chips and the two output pins.
    var chips: Chips
    var muxPin: bool
    var devPin: bool

    // What the server believes about the pins.
    var muxState: MuxState
    var devState: DevSelect

    // Every command that has gone out to a chip.
    ghost var issued: seq<Command>

    // Which requests to enable writing a chip refuses, counted from the start, and how
    // many have been made.
    const refuses: nat -> bool
    var asked: nat

    /** The write-enable latch: a program or erase needs it set, and clears it. */
    var latch: bool

    predicate Granted(a: nat, b: nat) { forall j :: a <= j < b ==> !refuses(j) }

    /** Since `a` requests had been made, `done` operations were carried out: the call
        fails exactly when a request is refused, and stops there. */
    ghost predicate Enabled(a: nat, done: nat, r: Result<()>)
      reads this
    {
      if r.Ok? then asked == a + done && Granted(a, asked)
      else r == Err(WriteEnableFailed) && asked == a + done + 1 && Granted(a, asked - 1) && refuses(asked - 1)
    }

    ghost predicate Valid()
      reads this
    {
      && SECTOR_SIZE <= capacity && |chips.m0| == capacity && |chips.m1| == capacity
      && (muxPin <==> muxState.HostCPU?)
      && (devPin <==> devState.Flash1?)
      && (!twoChips ==> devState.Flash0?)
    }

    /** The chip the device-select pin actually connects. */
    function Wired(): DevSelect
      reads this
    {
      if devPin then Flash1 else Flash0
    }

    /** A chip ignores the address bits above its capacity. */
    function Alias(addr: nat): (a: nat)
      requires capacity > 0
      ensures a < capacity
    {
      if addr < capacity then addr else addr % capacity
    }

    constructor (codec: Codec, capacity: nat, twoChips: bool, chips: Chips, refuses: nat -> bool)
      requires SECTOR_SIZE <= capacity && |chips.m0| == capacity && |chips.m1| == capacity
      ensures Valid() && muxState.SP? && devState.Flash0? && this.chips == chips
      ensures this.codec == codec && this.twoChips == twoChips && this.capacity == capacity
    {
      this.codec, this.capacity, this.twoChips, this.chips := codec, capacity, twoChips, chips;
      this.refuses, asked, latch := refuses, 0, false;
      muxPin, devPin, muxState, devState := false, false, SP, Flash0;
      issued := [];
    }

    // ----- QSPI commands.  Each demands that the mux pin connects the SP. -----

    method QspiRead(addr: nat, len: nat) returns (bs: seq<Byte>)
      requires Valid() && !muxPin
      ensures |bs| == len
      ensures addr + len <= capacity ==> bs == chips.At(Wired())[addr..addr + len]
    {
      var m := chips.At(Wired());
      bs := seq(len, k requires 0 <= k => m[Alias(addr + k)]);
      if addr + len <= capacity {
        forall k | 0 <= k < len ensures bs[k] == m[addr + k] { assert Alias(addr + k) == addr + k; }
      }
    }

    method QspiPageProgram(addr: nat, data: seq<Byte>)
      requires Valid() && !muxPin && latch && |data| <= PAGE_SIZE
      modifies this`chips, this`issued, this`latch
      ensures Valid()
      ensures chips == old(chips).With(Wired(), Program(old(chips).At(Wired()), Alias(addr), data))
      ensures issued == old(issued) + [PageProgramAt(Wired(), Alias(addr), data)]
    {
      latch := false;
      issued := issued + [PageProgramAt(Wired(), Alias(addr), data)];
      chips := chips.With(Wired(), Program(chips.At(Wired()), Alias(addr), data));
    }

    method QspiSectorErase(addr: nat)
      requires Valid() && !muxPin && latch
      modifies this`chips, this`issued, this`latch
      ensures Valid()
      ensures chips == old(chips).With(Wired(), Erase(old(chips).At(Wired()), Alias(addr)))
      ensures issued == old(issued) + [SectorEraseAt(Wired(), Alias(addr))]
    {
      latch := false;
      issued := issued + [SectorEraseAt(Wired(), Alias(addr))];
      chips := chips.With(Wired(), Erase(chips.At(Wired()), Alias(addr)));
    }

    method QspiBulkErase()
      requires Valid() && !muxPin && latch
      modifies this`chips, this`issued, this`latch
      ensures Valid()
      ensures chips == old(chips).With(Wired(), seq(capacity, _ => BLANK))
      ensures issued == old(issued) + [BulkEraseOf(Wired())]
    {
      latch := false;
      issued := issued + [BulkEraseOf(Wired())];
      chips := chips.With(Wired(), seq(capacity, _ => BLANK));
    }

    /** The status register shows whether the write-enable latch got set. */
    method SetAndCheckWriteEnable() returns (r: Result<()>)
      requires Valid() && !muxPin
      modifies this`asked, this`latch
      ensures asked == old(asked) + 1 && latch == !refuses(old(asked))
      ensures r == if latch then Ok(()) else Err(WriteEnableFailed)
    {
      latch, asked := !refuses(asked), asked + 1;
      r := if latch then Ok(()) else Err(WriteEnableFailed);
    }

    /** How a client's program or erase must answer. */
    ghost predicate Answered(reserved: bool, a: nat, r: Result<()>)
      reads this
    {
      if reserved then r == Err(Sector0IsReserved) && asked == a
      else if muxState.HostCPU? then r == Err(NotMuxedToSP) && asked == a
      else asked == a + 1 && r == if refuses(a) then Err(WriteEnableFailed) else Ok(())
    }

    // ----- Pins -----

    method SetDev(state: DevSelect) returns (r: Result<()>)
      requires Valid()
      modifies this`devPin, this`devState
      ensures Valid()
      ensures r == if !twoChips then Err(NoDevSelect) else if muxState.HostCPU? then Err(NotMuxedToSP) else Ok(())
      ensures devState == if r.Ok? then state else old(devState)
    {
      if !twoChips { return Err(NoDevSelect); }
      if muxState.HostCPU? { return Err(NotMuxedToSP); }
      devPin := state.Flash1?;
      devState := state;
      r := Ok(());
    }

    method SetMux(state: MuxState) returns (r: Result<()>)
      requires Valid()
      modifies this`muxPin, this`muxState
      ensures Valid() && r == Ok(()) && muxState == state
    {
      muxPin := state.HostCPU?;
      muxState := state;
      r := Ok(());
    }

    // ----- Reading records -----

    method ReadSlot(i: nat) returns (data: Slot, blank: bool)
      requires Valid() && muxState.SP? && i < SLOTS
      ensures data == View(codec, chips).At(devState)[i] && (blank <==> data == Erased)
    {
      var bytes := QspiRead(STRIDE * i, RAW_SIZE);
      assert bytes == SlotBytes(chips.At(devState), i);
      data, blank := codec.view(bytes), AllBlank(bytes);
    }

    /** The scan finds the newest valid record and the first blank slot of the chip
        that is wired up. */
    method Scan() returns (best: Option<Record>, empty: Option<nat>)
      requires Valid() && muxState.SP?
      ensures best == Newest(View(codec, chips).At(devState))
      ensures empty == Address(FirstErased(View(codec, chips).At(devState)))
    {
      best, empty := None, None;
      ghost var view := View(codec, chips).At(devState);
      for i := 0 to SLOTS
        invariant best == Newest(view[..i])
        invariant empty == Address(FirstErased(view[..i]))
      {
        var data, blank := ReadSlot(i);
        ScanStep(view, i);
        if data.Live? && (best.None? || best.value.counter < data.rec.counter) {
          best := Some(data.rec);
        }
        if empty.None? && blank {
          empty := Some(STRIDE * i);
        }
      }
      assert view[..SLOTS] == view;
    }

    /** Scans the inactive chip, then the active one, and is back where it began. */
    method ScanBoth() returns (a: Option<Record>, aNext: Option<nat>, b: Option<Record>, bNext: Option<nat>)
      requires Valid() && muxState.SP? && twoChips
      modifies this`devPin, this`devState
      ensures Valid() && devState == old(devState)
      ensures a == Newest(View(codec, chips).At(devState.Other()))
      ensures aNext == Address(FirstErased(View(codec, chips).At(devState.Other())))
      ensures b == Newest(View(codec, chips).At(devState))
      ensures bNext == Address(FirstErased(View(codec, chips).At(devState)))
    {
      var prev := devState;
      var _ := SetDev(prev.Other());
      a, aNext := Scan();
      var _ := SetDev(prev);
      b, bNext := Scan();
    }

    /** The current record: the valid one with the highest counter on any chip.  The
        device selection comes back as it was. */
    method GetRawPersistentData() returns (r: Result<Record>)
      requires Valid()
      modifies this`devPin, this`devState
      ensures Valid() && devState == old(devState)
      ensures muxState.HostCPU? ==> r == Err(NotMuxedToSP)
      ensures muxState.SP? ==>
        var best := if twoChips then Best(View(codec, chips), devState) else Newest(View(codec, chips).c0);
        r == if best.Some? then Ok(best.value) else Err(NoPersistentData)
    {
      if muxState.HostCPU? { return Err(NotMuxedToSP); }
      var best: Option<Record>;
      if twoChips {
        var a, _, b, _ := ScanBoth();
        if a.Some? && b.Some? {
          best := if a.value.counter > b.value.counter then a else b;
        } else {
          best := if a.Some? then a else b;
        }
      } else {
        var only, _ := Scan();
        best := only;
      }
      r := if best.Some? then Ok(best.value) else Err(NoPersistentData);
    }

    // ----- Writing records -----

    method SectorErase(addr: nat, protect: ProtectMode) returns (r: Result<()>)
      requires Valid()
      modifies this`chips, this`issued, this`asked, this`latch
      ensures Valid()
      ensures Answered(addr < SECTOR_SIZE && protect.ProtectSector0?, old(asked), r)
      ensures r.Err? ==> chips == old(chips) && issued == old(issued)
      ensures r.Ok? ==> chips == old(chips).With(devState, Erase(old(chips).At(devState), Alias(addr)))
      ensures r.Ok? ==> issued == old(issued) + [SectorEraseAt(devState, Alias(addr))]
      ensures protect.ProtectSector0? && addr < capacity ==> SectorZero(chips) == SectorZero(old(chips))
    {
      if addr / SECTOR_SIZE == 0 && protect.ProtectSector0? { return Err(Sector0IsReserved); }
      if muxState.HostCPU? { return Err(NotMuxedToSP); }
      r := SetAndCheckWriteEnable();
      if r.Err? { return; }
      if SECTOR_SIZE <= addr < capacity { EraseKeepsSectorZero(chips.At(devState), addr); }
      QspiSectorErase(addr);
    }

    method ProgramRecord(addr: nat, rec: Record, ghost slot: nat) returns (r: Result<()>, ghost done: nat)
      requires Valid() && muxState.SP? && rec.counter <= MAX_COUNTER
      requires slot < SLOTS && addr == STRIDE * slot
      modifies this`chips, this`issued, this`asked, this`latch
      ensures Valid()
      ensures Ran(codec, old(chips), [ProgramSlot(devState, slot, rec)], done, chips, r.Ok?)
      ensures Sent(codec, old(issued), [ProgramSlot(devState, slot, rec)], done, issued)
      ensures Enabled(old(asked), done, r)
    {
      done := 0;
      r := SetAndCheckWriteEnable();
      if r.Err? { return; }
      QspiPageProgram(addr, codec.encode(rec));
      done := 1;
      RanOne(codec, old(chips), ProgramSlot(devState, slot, rec));
      SentOne(codec, old(issued), ProgramSlot(devState, slot, rec));
    }

    method EraseRecords() returns (r: Result<()>, ghost done: nat)
      requires Valid() && muxState.SP?
      modifies this`chips, this`issued, this`asked, this`latch
      ensures Valid()
      ensures Ran(codec, old(chips), [EraseSector(devState)], done, chips, r.Ok?)
      ensures Sent(codec, old(issued), [EraseSector(devState)], done, issued)
      ensures Enabled(old(asked), done, r)
    {
      done := 0;
      r := SectorErase(0, AllowModificationsToSector0);
      if r.Err? { return; }
      done := 1;
      RanOne(codec, old(chips), EraseSector(devState));
      SentOne(codec, old(issued), EraseSector(devState));
    }

    /** Runs the append on the selected chip.  `done` counts the flash operations that
        were issued: all of them exactly when the call succeeds. */
    method WriteRawToAddr(addr: Option<nat>, rec: Record, ghost next: Option<nat>)
      returns (r: Result<()>, ghost done: nat)
      requires Valid() && muxState.SP? && rec.counter <= MAX_COUNTER
      requires addr == Address(next) && (next.Some? ==> next.value < SLOTS)
      modifies this`chips, this`issued, this`asked, this`latch
      ensures Valid()
      ensures Ran(codec, old(chips), AppendOps(devState, next, rec), done, chips, r.Ok?)
      ensures Sent(codec, old(issued), AppendOps(devState, next, rec), done, issued)
      ensures Enabled(old(asked), done, r)
    {
      if addr.Some? {
        r, done := ProgramRecord(addr.value, rec, next.value);
      } else {
        r, done := EraseRecords();
        ghost var ops := [EraseSector(devState)] + [ProgramSlot(devState, 0, rec)];
        assert AppendOps(devState, next, rec) == ops;
        if r.Err? {
          assert ops[..done] == [EraseSector(devState)][..done];
          return;
        }
        ghost var mid, midway, doneB := chips, issued, 0;
        r, doneB := ProgramRecord(0, rec, 0);
        SentInTurn(codec, old(issued), [EraseSector(devState)], midway, [ProgramSlot(devState, 0, rec)], doneB, issued);
        RanInTurn(codec, old(chips), [EraseSector(devState)], mid, [ProgramSlot(devState, 0, rec)],
                  doneB, chips, r.Ok?);
        done := 1 + doneB;
      }
    }

    /** The same on the chip that is not selected, with the selection restored before an
        error can be reported. */
    method WriteRawToOther(addr: Option<nat>, rec: Record, ghost next: Option<nat>)
      returns (r: Result<()>, ghost done: nat)
      requires Valid() && muxState.SP? && twoChips && rec.counter <= MAX_COUNTER
      requires addr == Address(next) && (next.Some? ==> next.value < SLOTS)
      modifies this`chips, this`issued, this`asked, this`latch, this`devPin, this`devState
      ensures Valid() && devState == old(devState)
      ensures Ran(codec, old(chips), AppendOps(devState.Other(), next, rec), done, chips, r.Ok?)
      ensures Sent(codec, old(issued), AppendOps(devState.Other(), next, rec), done, issued)
      ensures Enabled(old(asked), done, r)
    {
      var prev := devState;
      var _ := SetDev(prev.Other());
      r, done := WriteRawToAddr(addr, rec, next);
      var _ := SetDev(prev);
    }

    /** Copies the newer record, if the chips differ, onto the chip that lacks it. */
    method CopyNewer(a: Option<Record>, aNext: Option<nat>, b: Option<Record>, bNext: Option<nat>, ghost f: Flash)
      returns (r: Result<()>, ghost done: nat)
      requires Valid() && muxState.SP? && twoChips && f.WellSized()
      requires aNext == Address(FirstErased(f.At(devState.Other()))) && bNext == Address(FirstErased(f.At(devState)))
      requires (a.Some? ==> a.value.counter <= MAX_COUNTER) && (b.Some? ==> b.value.counter <= MAX_COUNTER)
      modifies this`chips, this`issued, this`asked, this`latch, this`devPin, this`devState
      ensures Valid() && devState == old(devState)
      ensures Ran(codec, old(chips), RepairFrom(f, devState, a, b), done, chips, r.Ok?)
      ensures Sent(codec, old(issued), RepairFrom(f, devState, a, b), done, issued)
      ensures Enabled(old(asked), done, r)
    {
      var prev := devState;
      if a.Some? && (b.None? || a.value.counter > b.value.counter) {
        r, done := WriteRawToAddr(bNext, a.value, FirstErased(f.At(prev)));
      } else if b.Some? && (a.None? || a.value.counter < b.value.counter) {
        r, done := WriteRawToOther(aNext, b.value, FirstErased(f.At(prev.Other())));
      } else {
        r, done := Ok(()), 0;
      }
    }

    /** Boot repair: the operations of `RepairOps`, stopped early only by a chip that
        refuses write enable, with the device selection restored either way. */
    method EnsureRedundant() returns (r: Result<()>, ghost done: nat)
      requires Valid() && muxState.SP?
      modifies this`chips, this`issued, this`asked, this`latch, this`devPin, this`devState
      ensures Valid() && devState == old(devState)
      ensures !twoChips ==> r == Ok(()) && chips == old(chips) && issued == old(issued)
      ensures twoChips ==>
        && Ran(codec, old(chips), RepairOps(old(View(codec, chips)), devState), done, chips, r.Ok?)
        && Sent(codec, old(issued), RepairOps(old(View(codec, chips)), devState), done, issued)
      ensures Enabled(old(asked), done, r)
    {
      if !twoChips { return Ok(()), 0; }
      ghost var f := View(codec, chips);
      NewestBounded(codec, chips);
      var a, aNext, b, bNext := ScanBoth();
      r, done := CopyNewer(a, aNext, b, bNext, f);
    }

    /** Appends to the inactive chip, then to the active one. */
    method WriteBoth(aNext: Option<nat>, bNext: Option<nat>, rec: Record, ghost f: Flash)
      returns (r: Result<()>, ghost done: nat)
      requires Valid() && muxState.SP? && twoChips && rec.counter <= MAX_COUNTER && f.WellSized()
      requires aNext == Address(FirstErased(f.At(devState.Other()))) && bNext == Address(FirstErased(f.At(devState)))
      modifies this`chips, this`issued, this`asked, this`latch, this`devPin, this`devState
      ensures Valid() && devState == old(devState)
      ensures Ran(codec, old(chips), AppendTo(f, devState.Other(), rec) + AppendTo(f, devState, rec),
                  done, chips, r.Ok?)
      ensures Sent(codec, old(issued), AppendTo(f, devState.Other(), rec) + AppendTo(f, devState, rec), done, issued)
      ensures Enabled(old(asked), done, r)
    {
      var prev := devState;
      ghost var opsA, opsB := AppendTo(f, prev.Other(), rec), AppendTo(f, prev, rec);
      r, done := WriteRawToOther(aNext, rec, FirstErased(f.At(prev.Other())));
      if r.Err? {
        StoppedShort(codec, old(chips), old(issued), opsA, opsB, done, chips, issued);
        return;
      }
      ghost var mid, midway, doneB := chips, issued, 0;
      r, doneB := WriteRawToAddr(bNext, rec, FirstErased(f.At(prev)));
      RanInTurn(codec, old(chips), opsA, mid, opsB, doneB, chips, r.Ok?);
      SentInTurn(codec, old(issued), opsA, midway, opsB, doneB, issued);
      done := |opsA| + doneB;
    }

    ghost predicate Followed(p: Plan, before: Chips, past: seq<Command>, a: nat, done: nat, r: Result<()>)
      reads this
    {
      match p
      case Overflow => r == Err(MonotonicCounterOverflow) && chips == before && issued == past && asked == a
      case Stored => r == Ok(()) && chips == before && issued == past && asked == a
      case Steps(ops, _) =>
        Ran(codec, before, ops, done, chips, r.Ok?) && Sent(codec, past, ops, done, issued) && Enabled(a, done, r)
    }

    method WriteTwoChips(v: DevSelect) returns (r: Result<()>, ghost done: nat)
      requires Valid() && muxState.SP? && twoChips
      modifies this`chips, this`issued, this`asked, this`latch, this`devPin, this`devState
      ensures Valid() && devState == old(devState)
      ensures Followed(WritePlan(old(View(codec, chips)), devState, v), old(chips), old(issued), old(asked), done, r)
    {
      ghost var f := View(codec, chips);
      var a, aNext, b, bNext := ScanBoth();
      match Decide(a, b, v)
      case Keep => r, done := Ok(()), 0;
      case CounterFull => r, done := Err(MonotonicCounterOverflow), 0;
      case Put(rec) => r, done := WriteBoth(aNext, bNext, rec, f);
    }

    method WriteOneChip(v: DevSelect) returns (r: Result<()>, ghost done: nat)
      requires Valid() && muxState.SP? && !twoChips
      modifies this`chips, this`issued, this`asked, this`latch
      ensures Valid()
      ensures Followed(SinglePlan(old(View(codec, chips)), v), old(chips), old(issued), old(asked), done, r)
    {
      var a, next := Scan();
      ghost var f := View(codec, chips);
      match Decide(a, a, v)
      case Keep => r, done := Ok(()), 0;
      case CounterFull => r, done := Err(MonotonicCounterOverflow), 0;
      case Put(rec) => r, done := WriteRawToAddr(next, rec, FirstErased(f.c0));
    }

    /** The records that count on this board. */
    ghost function Records(): (f: Flash)
      requires Valid()
      reads this
    {
      if twoChips then View(codec, chips) else Flash(View(codec, chips).c0, View(codec, chips).c0)
    }

    /** What a persistent-data write does: `done` operations of its plan, all of them
        exactly when it succeeds, with the device selection restored on every path.  It
        does nothing exactly when the value already leads every chip, refuses exactly when
        it is needed and the last counter is used up, and else either stores the value
        under the next counter on every chip or is stopped by a refused write enable. */
    method WritePersistentData(v: DevSelect) returns (r: Result<()>, ghost done: nat)
      requires Valid()
      modifies this`chips, this`issued, this`asked, this`latch, this`devPin, this`devState
      ensures Valid() && devState == old(devState)
      ensures muxState.HostCPU? ==> r == Err(NotMuxedToSP) && chips == old(chips) && issued == old(issued)
      ensures muxState.SP? && twoChips ==>
        Followed(WritePlan(old(View(codec, chips)), devState, v), old(chips), old(issued), old(asked), done, r)
      ensures muxState.SP? && !twoChips ==>
        Followed(SinglePlan(old(View(codec, chips)), v), old(chips), old(issued), old(asked), done, r)
      ensures muxState.SP? ==>
        var f := old(Records());
        if LedBy(f, v) then r == Ok(()) && chips == old(chips) && issued == old(issued)
        else if Exhausted(f) then r == Err(MonotonicCounterOverflow) && chips == old(chips) && issued == old(issued)
        else
          && Enabled(old(asked), done, r)
          && (r.Ok? ==> LedBy(Records(), v) && NextCounter(f, Newest(Records().c0).value.counter))
    {
      if muxState.HostCPU? { return Err(NotMuxedToSP), 0; }
      ghost var before := chips;
      if twoChips {
        r, done := WriteTwoChips(v);
        WritePlanMeans(View(codec, before), devState, v);
        if WritePlan(View(codec, before), devState, v).Steps? && r.Ok? {
          AcknowledgedWrite(codec, before, devState, v, done, chips);
        }
      } else {
        r, done := WriteOneChip(v);
        SinglePlanMeans(View(codec, before), v);
        if SinglePlan(View(codec, before), v).Steps? && r.Ok? {
          AcknowledgedSingle(codec, before, v, done, chips);
        }
      }
    }

    /** `main` up to the dispatch loop.  A refused write enable panics (`up` is false);
        otherwise the whole start is one `Boot` step of the durable register, and selects
        the chip that the current record names. */
    method Start() returns (up: bool)
      requires Valid() && muxState.SP? && devState.Flash0?
      modifies this`chips, this`issued, this`asked, this`latch, this`devPin, this`devState
      ensures Valid() && (up <==> Granted(old(asked), asked))
      ensures up && twoChips ==>
        NextBytes(codec, Board(old(chips), false, Flash0), Boot(Shown(View(codec, chips), Flash0)),
                  Board(chips, true, devState))
      ensures up && twoChips ==> Names(View(codec, chips), devState)
      ensures !twoChips ==> up && chips == old(chips) && devState.Flash0?
    {
      ghost var f := View(codec, chips);
      ViewBounded(codec, chips);
      var fixed, done := EnsureRedundant();
      if fixed.Err? { return false; }
      if twoChips { RanAll(codec, old(chips), RepairOps(f, Flash0), done, chips); }
      BestIsMaximum(View(codec, chips), Flash0);
      var data := GetRawPersistentData();
      if data.Ok? && twoChips {
        var _ := SetDev(data.value.dev);
      }
      up := true;
    }

    // ----- Client flash calls -----

    ghost function SectorZero(b: Chips): (seq<Byte>, seq<Byte>)
      requires b.Sized()
    {
      (b.m0[..SECTOR_SIZE], b.m1[..SECTOR_SIZE])
    }

    method PageProgram(addr: nat, protect: ProtectMode, data: seq<Byte>) returns (r: Result<()>)
      requires Valid() && |data| <= PAGE_SIZE
      modifies this`chips, this`issued, this`asked, this`latch
      ensures Valid()
      ensures Answered(addr < SECTOR_SIZE && protect.ProtectSector0?, old(asked), r)
      ensures r.Err? ==> chips == old(chips) && issued == old(issued)
      ensures r.Ok? ==> chips == old(chips).With(devState, Program(old(chips).At(devState), Alias(addr), data))
      ensures protect.ProtectSector0? && addr < capacity ==> SectorZero(chips) == SectorZero(old(chips))
    {
      if addr / SECTOR_SIZE == 0 && protect.ProtectSector0? { return Err(Sector0IsReserved); }
      if muxState.HostCPU? { return Err(NotMuxedToSP); }
      r := SetAndCheckWriteEnable();
      if r.Err? { return; }
      if SECTOR_SIZE <= addr < capacity { ProgramKeepsSectorZero(chips.At(devState), addr, data); }
      QspiPageProgram(addr, data);
    }

    method BulkErase(protect: ProtectMode) returns (r: Result<()>)
      requires Valid()
      modifies this`chips, this`issued, this`asked, this`latch
      ensures Valid()
      ensures Answered(protect.ProtectSector0?, old(asked), r)
      ensures r.Err? ==> chips == old(chips) && issued == old(issued)
      ensures r.Ok? ==> chips == old(chips).With(devState, seq(capacity, _ => BLANK))
    {
      if protect.ProtectSector0? { return Err(Sector0IsReserved); }
      if muxState.HostCPU? { return Err(NotMuxedToSP); }
      r := SetAndCheckWriteEnable();
      if r.Err? { return; }
      QspiBulkErase();
    }

    method Read(addr: nat, len: nat) returns (r: Result<seq<Byte>>)
      requires Valid() && len <= PAGE_SIZE
      ensures muxState.HostCPU? <==> r == Err(NotMuxedToSP)
      ensures r.Ok? && addr + len <= capacity ==> r.value == chips.At(devState)[addr..addr + len]
    {
      if muxState.HostCPU? { return Err(NotMuxedToSP); }
      var bs := QspiRead(addr, len);
      r := Ok(bs);
    }

    // ----- Whole API runs -----

    /** The calls that do not program or erase for a client. */
    method DispatchOther(q: Request)
      requires Valid() && !q.ForClient()
      modifies this
      ensures Valid() && (!q.PutData? ==> chips == old(chips))
      ensures muxState == if q.Mux? then q.state else old(muxState)
      ensures devState == if q.Dev? && twoChips && muxState.SP? then q.dev else old(devState)
    {
      match q {
        case Mux(state) => var _ := SetMux(state);
        case Dev(state) => var _ := SetDev(state);
        case GetData => var _ := GetRawPersistentData();
        case PutData(v) => var _, _ := WritePersistentData(v);
      }
    }

    /** The calls that do. */
    method DispatchClient(q: Request)
      requires Valid() && q.ForClient() && (q.ProgramAt? ==> |q.data| <= PAGE_SIZE)
      modifies this`chips, this`issued, this`asked, this`latch
      ensures Valid()
      ensures q.Guarded(capacity) ==> SectorZero(chips) == SectorZero(old(chips))
    {
      match q {
        case ProgramAt(addr, protect, data) => var _ := PageProgram(addr, protect, data);
        case EraseAt(addr, protect) => var _ := SectorErase(addr, protect);
        case EraseAll(protect) => var _ := BulkErase(protect);
      }
    }

    method Dispatch(q: Request)
      requires Valid() && (q.ProgramAt? ==> |q.data| <= PAGE_SIZE)
      modifies this
      ensures Valid()
      ensures q.Guarded(capacity) ==> SectorZero(chips) == SectorZero(old(chips))
    {
      if q.ForClient() { DispatchClient(q); } else { DispatchOther(q); }
    }

    /** The dispatch loop over any sequence of requests.  Pins and state never part, and
        clients that protect sector 0 and stay in capacity never change it. */
    method Serve(reqs: seq<Request>)
      requires Valid()
      requires forall q :: q in reqs && q.ProgramAt? ==> |q.data| <= PAGE_SIZE
      modifies this
      ensures Valid()
      ensures (forall q :: q in reqs ==> q.Guarded(capacity)) ==> SectorZero(chips) == SectorZero(old(chips))
    {
      for i := 0 to |reqs|
        invariant Valid()
        invariant (forall q :: q in reqs ==> q.Guarded(capacity)) ==> SectorZero(chips) == SectorZero(old(chips))
      {
        Dispatch(reqs[i]);
      }
    }
  }

  datatype Request =
    | Mux(state: MuxState)
    | Dev(dev: DevSelect)
    | ProgramAt(addr: nat, protect: ProtectMode, data: seq<Byte>)
    | EraseAt(addr: nat, protect: ProtectMode)
    | EraseAll(protect: ProtectMode)
    | GetData
    | PutData(v: DevSelect)
  {
    predicate ForClient() { ProgramAt? || EraseAt? || EraseAll? }

    predicate Guarded(capacity: nat) {
      match this
      case ProgramAt(addr, protect, _) => protect.ProtectSector0? && addr < capacity
      case EraseAt(addr, protect) => protect.ProtectSector0? && addr < capacity
      case EraseAll(protect) => protect.ProtectSector0?
      case PutData(_) => false
      case _ => true
    }
  }
}
