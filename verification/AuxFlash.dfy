/** The auxiliary flash server: slots of one NOR chip, the spare copy of the active
    slot, and client erases, writes and reads. */
module AuxFlash {
  import opened Nor
  import opened NorChip
  import opened Tlvc
  import opened Wrappers
  import opened AuxImage
  import opened AuxSpare

  type Result<T> = AuxImage.Result<T>

  // ----- Slot geometry -----

  datatype Geometry = Geometry(count: nat, size: nat) {
    /** What the build script and `main` assert about the configuration. */
    ghost predicate Valid() {
      && count >= 6 && size > 0 && size % SECTOR_SIZE == 0
      && exists k: nat :: count * size == Pow2(k)
    }

    /** Where a slot starts; the slot after the last one starts at the end of the chip. */
    function Base(slot: nat): nat { if slot == 0 then 0 else Base(slot - 1) + size }
  }

  lemma Halve(n: nat, m: nat)
    ensures n * m == 2 * (n * (m / 2)) + (if m % 2 == 0 then 0 else n)
  {
    var h, b := m / 2, m % 2;
    assert n * (2 * h + b) == 2 * (n * h) + n * b;
  }

  lemma {:induction false} DivisorOfPow2IsEven(n: nat, m: nat, k: nat)
    requires n > 1 && n * m == Pow2(k)
    ensures n % 2 == 0
    decreases k
  {
    Halve(n, m);
    var h := n * (m / 2);
    if k > 0 && m % 2 == 0 {
      assert h == Pow2(k - 1);
      DivisorOfPow2IsEven(n, m / 2, k - 1);
    }
  }

  function Spare(slot: nat): nat { if slot % 2 == 0 then slot + 1 else slot - 1 }

  /** The spare of every slot exists, is another slot, and has that slot as its spare. */
  lemma {:induction false} SpareInRange(g: Geometry, slot: nat)
    requires g.Valid() && slot < g.count
    ensures Spare(slot) < g.count && Spare(slot) != slot && Spare(Spare(slot)) == slot
    ensures Spare(slot) / 2 == slot / 2
  {
    var k: nat :| g.count * g.size == Pow2(k);
    DivisorOfPow2IsEven(g.count, g.size, k);
  }

  /** The address arithmetic of the source. */
  lemma {:induction false} BaseIsProduct(g: Geometry, slot: nat)
    ensures g.Base(slot) == slot * g.size
  {
    if slot > 0 { BaseIsProduct(g, slot - 1); }
  }

  lemma {:induction false} BasesAligned(g: Geometry, slot: nat)
    requires g.size % SECTOR_SIZE == 0
    ensures AtSectorStart(g.Base(slot))
  {
    if slot > 0 {
      BasesAligned(g, slot - 1);
      AtSectorStartIs(g.size);
      StartsAddUp(g.Base(slot - 1), g.size);
    }
  }

  lemma {:induction false} SlotsApart(g: Geometry, a: nat, b: nat)
    requires a < b
    ensures g.Base(a) + g.size <= g.Base(b)
    decreases b
  {
    if a < b - 1 { SlotsApart(g, a, b - 1); }
  }

  lemma SlotBounds(g: Geometry, slot: nat)
    requires g.size % SECTOR_SIZE == 0 && slot < g.count
    ensures g.Base(slot) + g.size <= g.Base(g.count)
    ensures AtSectorStart(g.Base(slot)) && AtSectorStart(g.Base(slot) + g.size)
  {
    SlotsApart(g, slot, g.count);
    BasesAligned(g, slot);
    BasesAligned(g, slot + 1);
  }

  lemma SlotPair(g: Geometry, a: nat, b: nat)
    requires g.size % SECTOR_SIZE == 0 && a < g.count && b < g.count && a != b
    ensures g.Base(a) + g.size <= g.Base(g.count) && g.Base(b) + g.size <= g.Base(g.count)
    ensures AtSectorStart(g.Base(b)) && AtSectorStart(g.Base(b) + g.size)
    ensures g.Base(a) + g.size <= g.Base(b) || g.Base(b) + g.size <= g.Base(a)
  {
    SlotBounds(g, a);
    SlotBounds(g, b);
    if a < b { SlotsApart(g, a, b); } else { SlotsApart(g, b, a); }
  }

  lemma {:induction false} PageInSlot(base: nat, offset: nat)
    requires AtSectorStart(base) && offset % PAGE_SIZE == 0
    ensures (base + offset) % PAGE_SIZE == 0
  {
    SectorStartsPage(base);
    PagesAddUp(base, offset);
  }

  lemma PagesAddUp(a: nat, b: nat)
    requires a % PAGE_SIZE == 0 && b % PAGE_SIZE == 0
    ensures (a + b) % PAGE_SIZE == 0
  {}

  function Image(g: Geometry, m: seq<Byte>, slot: nat): (r: seq<Byte>)
    requires g.size % SECTOR_SIZE == 0 && slot < g.count && |m| == g.Base(g.count)
    ensures |r| == g.size
  {
    SlotBounds(g, slot);
    m[g.Base(slot)..g.Base(slot) + g.size]
  }

  lemma SliceOfSlice(m: seq<Byte>, b: nat, size: nat, lo: nat, hi: nat)
    requires b + size <= |m| && lo <= hi <= size
    ensures m[b..b + size][lo..hi] == m[b + lo..b + hi]
  {
    var s := m[b..b + size];
    forall i | 0 <= i < hi - lo ensures s[lo..hi][i] == m[b + lo..b + hi][i] { assert s[lo + i] == m[b + lo + i]; }
  }

  lemma ImageSlice(g: Geometry, m: seq<Byte>, slot: nat, lo: nat, hi: nat)
    requires g.size % SECTOR_SIZE == 0 && slot < g.count && |m| == g.Base(g.count) && lo <= hi <= g.size
    ensures g.Base(slot) + g.size <= |m|
    ensures Image(g, m, slot)[lo..hi] == m[g.Base(slot) + lo..g.Base(slot) + hi]
  {
    SlotBounds(g, slot);
    SliceOfSlice(m, g.Base(slot), g.size, lo, hi);
  }

  lemma OtherSlotUntouched(g: Geometry, m: seq<Byte>, m': seq<Byte>, a: nat, b: nat)
    requires g.size % SECTOR_SIZE == 0 && a < g.count && b < g.count && a != b && |m| == g.Base(g.count)
    requires SameOutside(m, m', g.Base(b), g.Base(b) + g.size)
    ensures Image(g, m', a) == Image(g, m, a)
  {
    SlotBounds(g, a);
    if a < b { SlotsApart(g, a, b); } else { SlotsApart(g, b, a); }
  }

  lemma {:induction false} CopiedIsOverwritten(g: Geometry, was: seq<Byte>, m: seq<Byte>, a: nat, s: nat, n: nat)
    requires g.size % SECTOR_SIZE == 0 && a < g.count && s < g.count && n <= g.size
    requires |was| == |m| == g.Base(g.count) && CopiedTo(was, m, g.Base(a), g.Base(s), g.size, n)
    ensures Image(g, m, s) == Overwritten(Image(g, was, a), Image(g, was, s), n)
  {
    SlotBounds(g, a);
    SlotBounds(g, s);
    CopiedSlices(was, m, g.Base(a), g.Base(s), g.size, n);
  }

  lemma {:induction false} CopiedSlices(was: seq<Byte>, m: seq<Byte>, from: nat, to: nat, size: nat, n: nat)
    requires CopiedTo(was, m, from, to, size, n) && AtSectorStart(to)
    requires from + size <= |was| && to + size <= |m| == |was|
    ensures m[to..to + size] == Overwritten(was[from..from + size], was[to..to + size], n)
  {
    FrontierShift(to, n);
    var r := Overwritten(was[from..from + size], was[to..to + size], n);
    forall i | 0 <= i < size ensures m[to + i] == r[i] {
      if i < n { assert m[to..to + n][i] == was[from..from + n][i]; }
    }
  }

  class Server {
    const layout: Layout
    const sha: Hash
    const expected: seq<Byte>
    const g: Geometry
    const chip: Chip
    var activeSlot: Option<nat>

    ghost predicate Wired()
      reads this, chip
    {
      g.Valid() && chip.Valid() && |chip.mem| == g.Base(g.count)
    }

    /** The active slot, if any, holds an image with the expected checksum. */
    ghost predicate Valid()
      reads this, chip
    {
      Wired() && (activeSlot.Some? ==> Good(chip.mem, activeSlot.value))
    }

    function Checksum(m: seq<Byte>, slot: nat): Result<seq<Byte>>
      requires g.size % SECTOR_SIZE == 0 && |m| == g.Base(g.count)
    {
      if slot >= g.count then Err(InvalidSlot) else ImageChecksum(layout, sha, Image(g, m, slot))
    }

    predicate Good(m: seq<Byte>, slot: nat)
      requires g.size % SECTOR_SIZE == 0 && |m| == g.Base(g.count)
    {
      slot < g.count && Checksum(m, slot) == Ok(expected)
    }

    ghost predicate FirstGood(m: seq<Byte>, r: Option<nat>)
      requires g.size % SECTOR_SIZE == 0 && |m| == g.Base(g.count)
    {
      match r
      case None => forall i: nat :: !Good(m, i)
      case Some(s) => Good(m, s) && forall i: nat :: i < s ==> !Good(m, i)
    }

    /** `main` up to the scan: the active slot is the first with the expected checksum. */
    constructor (layout: Layout, sha: Hash, expected: seq<Byte>, g: Geometry, chip: Chip)
      requires g.Valid() && chip.Valid() && |chip.mem| == g.Base(g.count)
      ensures Valid() && this.chip == chip && this.g == g && FirstGood(chip.mem, activeSlot)
      ensures this.layout == layout && this.sha == sha && this.expected == expected
    {
      this.layout, this.sha, this.expected, this.g, this.chip := layout, sha, expected, g, chip;
      this.activeSlot := None;
      new;
      activeSlot := ScanForActiveSlot();
    }

    method ReadSlotChecksum(slot: nat) returns (r: Result<seq<Byte>>)
      requires Wired()
      ensures r == Checksum(chip.mem, slot)
    {
      if slot >= g.count { return Err(InvalidSlot); }
      r := ReadChecksum(layout, sha, Image(g, chip.mem, slot));
    }

    method ScanForActiveSlot() returns (r: Option<nat>)
      requires Wired()
      ensures FirstGood(chip.mem, r)
    {
      for i := 0 to g.count
        invariant forall k: nat :: k < i ==> !Good(chip.mem, k)
      {
        var chck := ReadSlotChecksum(i);
        if chck == Ok(expected) { return Some(i); }
      }
      r := None;
    }

    lemma KeepsActive(was: seq<Byte>, slot: nat)
      requires Wired() && |was| == |chip.mem| && slot < g.count && activeSlot != Some(slot)
      requires activeSlot.Some? ==> Good(was, activeSlot.value)
      requires SameOutside(was, chip.mem, g.Base(slot), g.Base(slot) + g.size)
      ensures Valid()
    {
      if activeSlot.Some? { OtherSlotUntouched(g, was, chip.mem, activeSlot.value, slot); }
    }

    /** Copies the first `n` bytes of slot `a` over slot `s`. */
    method CopySlot(a: nat, s: nat, n: nat) returns (ok: bool)
      requires Wired() && a < g.count && s < g.count && a != s && n <= g.size
      modifies chip
      ensures Wired() && chip.Confined(old(chip.journal), old(chip.mem), g.Base(s), g.Base(s) + g.size)
      ensures chip.asked >= old(chip.asked) && (ok <==> chip.Granted(old(chip.asked)))
      ensures ok ==> Image(g, chip.mem, s) == Overwritten(Image(g, old(chip.mem), a), Image(g, old(chip.mem), s), n)
    {
      SlotPair(g, a, s);
      ghost var was := chip.mem;
      ok := chip.CopyRange(g.Base(a), g.Base(s), n, g.size);
      if ok { CopiedIsOverwritten(g, was, chip.mem, a, s, n); }
    }

    /** Makes the spare slot a good copy of the active one.  Every other slot, the active
        one included, keeps its contents through every flash command.  A finished copy
        leaves exactly the active image, blank cells to the end of its last sector, and
        then the spare's old bytes; it succeeds exactly when those old bytes add no further
        CHCK or AUXI chunk. */
    method EnsureRedundancy() returns (r: Result<()>, ghost copied: bool)
      requires Valid()
      modifies chip
      ensures Valid()
      ensures activeSlot.None? ==>
        r == Err(NoActiveSlot) && chip.mem == old(chip.mem) && chip.journal == old(chip.journal)
      ensures activeSlot.Some? ==>
        var a, s := activeSlot.value, Spare(activeSlot.value);
        && s < g.count
        && chip.Confined(old(chip.journal), old(chip.mem), g.Base(s), g.Base(s) + g.size)
        && (r.Ok? ==> Good(chip.mem, s))
        && (old(Good(chip.mem, s)) ==> r == Ok(()) && chip.mem == old(chip.mem))
        && (copied <==> !old(Good(chip.mem, s)) && chip.Granted(old(chip.asked)))
        && (!old(Good(chip.mem, s)) && !copied ==> r == Err(WriteEnableFailed))
        && (copied && r.Err? ==>
              r.error == if Checksum(chip.mem, s).Err? then Checksum(chip.mem, s).error else ChckMismatch)
        && (copied ==>
              var image, n := Image(g, old(chip.mem), a), Stop(layout, Image(g, old(chip.mem), a), 0, g.size);
              && Image(g, chip.mem, s) == Overwritten(image, Image(g, old(chip.mem), s), n)
              && (r.Ok? <==> CleanFrom(layout, Overwritten(image, Image(g, old(chip.mem), s), n), n)))
    {
      copied := false;
      if activeSlot.None? { return Err(NoActiveSlot), false; }
      var active := activeSlot.value;
      var spare := Spare(active);
      ghost var was := chip.mem;
      SpareInRange(g, active);
      var chck := ReadSlotChecksum(spare);
      if chck == Ok(expected) { return Ok(()), false; }
      var image := Image(g, chip.mem, active);
      var size := Stop(layout, image, 0, g.size);
      var ok := CopySlot(active, spare, size);
      KeepsActive(was, spare);
      if !ok { return Err(WriteEnableFailed), false; }
      copied := true;
      CopyPassesIff(layout, sha, image, Image(g, was, spare), expected);
      chck := ReadSlotChecksum(spare);
      if chck.Err? { return Err(chck.error), true; }
      r := if chck.value == expected then Ok(()) else Err(ChckMismatch);
    }

    // ----- Client calls -----

    /** Erases a slot.  The source does not refuse the active one; erasing any other keeps
        the active image good. */
    method EraseSlot(slot: nat) returns (r: Result<()>)
      requires Wired()
      modifies chip
      ensures Wired() && (old(Valid()) && activeSlot != Some(slot) ==> Valid())
      ensures slot >= g.count ==>
        r == Err(InvalidSlot) && chip.mem == old(chip.mem) && chip.journal == old(chip.journal)
      ensures slot < g.count ==>
        && chip.Confined(old(chip.journal), old(chip.mem), g.Base(slot), g.Base(slot) + g.size)
        && (r.Ok? ==> Blank(chip.mem, g.Base(slot), g.Base(slot) + g.size))
        && r == (if chip.Granted(old(chip.asked)) then Ok(()) else Err(WriteEnableFailed))
        && chip.asked >= old(chip.asked)
    {
      if slot >= g.count { return Err(InvalidSlot); }
      SlotBounds(g, slot);
      ghost var was, valid := chip.mem, Valid();
      var ok := chip.EraseRange(g.Base(slot), g.Base(slot) + g.size);
      if valid && activeSlot != Some(slot) { KeepsActive(was, slot); }
      r := if ok then Ok(()) else Err(WriteEnableFailed);
    }

    /** Programs `data` at a page-aligned offset of a slot that is not active; the client
        stays for `pages` pages. */
    method WriteSlotWithOffset(slot: nat, offset: nat, data: seq<Byte>, pages: nat)
      returns (r: Result<()>, ghost done: nat)
      requires Wired() && slot < g.count
      modifies chip
      ensures Wired() && (old(Valid()) ==> Valid())
      ensures chip.Confined(old(chip.journal), old(chip.mem), g.Base(slot), g.Base(slot) + g.size)
      ensures
        if activeSlot == Some(slot) then r == Err(SlotActive) && chip.journal == old(chip.journal)
        else if offset % PAGE_SIZE != 0 then r == Err(UnalignedAddress) && chip.journal == old(chip.journal)
        else if offset + |data| > g.size then r == Err(AddressOverflow) && chip.journal == old(chip.journal)
        else
          && done <= |data| && g.Base(slot) + offset + |data| <= |chip.mem|
          && chip.mem == Overlay(old(chip.mem), g.Base(slot) + offset, data[..done])
          && (r.Ok? <==> done == |data|)
          && (r.Ok? ==> |data| <= pages * PAGE_SIZE && chip.Granted(old(chip.asked)))
          && (r == Err(ClientWentAway) ==> |data| > pages * PAGE_SIZE)
          && (r == Err(WriteEnableFailed) ==> !chip.Granted(old(chip.asked)))
          && (r.Err? ==> r.error in {ClientWentAway, WriteEnableFailed})
          && chip.asked >= old(chip.asked)
    {
      if activeSlot == Some(slot) { return Err(SlotActive), 0; }
      if offset % PAGE_SIZE != 0 { return Err(UnalignedAddress), 0; }
      if offset + |data| > g.size { return Err(AddressOverflow), 0; }
      ghost var was, valid := chip.mem, Valid();
      r, done := ProgramSlot(slot, offset, data, pages);
      if valid { KeepsActive(was, slot); }
    }

    /** The part of a slot write that programs the chip. */
    method ProgramSlot(slot: nat, offset: nat, data: seq<Byte>, pages: nat) returns (r: Result<()>, ghost done: nat)
      requires Wired() && slot < g.count
      requires offset % PAGE_SIZE == 0 && offset + |data| <= g.size
      modifies chip
      ensures Wired() && chip.Confined(old(chip.journal), old(chip.mem), g.Base(slot), g.Base(slot) + g.size)
      ensures done <= |data| && g.Base(slot) + offset + |data| <= |chip.mem|
      ensures chip.mem == Overlay(old(chip.mem), g.Base(slot) + offset, data[..done]) && (r.Ok? <==> done == |data|)
      ensures r.Ok? ==> |data| <= pages * PAGE_SIZE && chip.Granted(old(chip.asked))
      ensures r.Err? ==> r.error in {ClientWentAway, WriteEnableFailed} && chip.asked >= old(chip.asked)
      ensures r == Err(ClientWentAway) ==> |data| > pages * PAGE_SIZE
      ensures r == Err(WriteEnableFailed) ==> !chip.Granted(old(chip.asked))
      ensures chip.asked >= old(chip.asked)
    {
      SlotBounds(g, slot);
      PageInSlot(g.Base(slot), offset);
      ghost var was, past, start := chip.mem, chip.journal, g.Base(slot) + offset;
      var leased, enabled;
      leased, enabled, done := chip.WriteRange(g.Base(slot) + offset, data, pages);
      chip.ConfinedWider(past, was, g.Base(slot), g.Base(slot) + g.size, start, start + |data|);
      r := if !leased then Err(ClientWentAway) else if !enabled then Err(WriteEnableFailed) else Ok(());
    }

    /** Returns the bytes of the slot, buffer by buffer; the client stays for `buffers`. */
    method ReadSlotWithOffset(slot: nat, offset: nat, len: nat, buffers: nat) returns (r: Result<seq<Byte>>)
      requires Wired() && slot < g.count
      ensures
        if offset + len > g.size then r == Err(AddressOverflow)
        else if len > buffers * SCRATCH then r == Err(ClientWentAway)
        else r == Ok(Image(g, chip.mem, slot)[offset..offset + len])
    {
      if offset + len > g.size { return Err(AddressOverflow); }
      SlotBounds(g, slot);
      var start := g.Base(slot) + offset;
      var end, addr, i := start + len, start, 0;
      var dest: seq<Byte> := [];
      while addr < end
        invariant start <= addr <= end && dest == chip.mem[start..addr]
        invariant addr == start + i * SCRATCH || (addr == end <= start + i * SCRATCH)
        invariant i <= buffers
      {
        var amount := if end - addr < SCRATCH then end - addr else SCRATCH;
        if i >= buffers { return Err(ClientWentAway); }
        JoinSlices(chip.mem, start, addr, addr + amount);
        dest := dest + chip.mem[addr..addr + amount];
        addr, i := addr + amount, i + 1;
      }
      ImageSlice(g, chip.mem, slot, offset, offset + len);
      r := Ok(dest);
    }

    // ----- Round trip -----

    /** The writes of a client that fills a slot. */
    predicate Fill(ws: seq<Write>) {
      forall i :: 0 <= i < |ws| ==> ws[i].Fits(g.size)
    }

    /** One whole write that fits. */
    method Store(slot: nat, w: Write, pages: nat) returns (r: Result<()>)
      requires Wired() && slot < g.count && activeSlot != Some(slot) && w.Fits(g.size)
      modifies chip
      ensures Wired() && chip.Confined(old(chip.journal), old(chip.mem), g.Base(slot), g.Base(slot) + g.size)
      ensures r.Ok? ==> chip.mem == Overlay(old(chip.mem), g.Base(slot) + w.offset, w.data)
      ensures chip.asked >= old(chip.asked)
      ensures pages * PAGE_SIZE >= g.size ==> (r.Ok? <==> chip.Granted(old(chip.asked)))
    {
      ghost var done;
      r, done := WriteSlotWithOffset(slot, w.offset, w.data, pages);
      if r.Ok? { assert w.data[..done] == w.data; }
    }

    /** What holds when `i` of the writes have been made, since the chip held `was`. */
    ghost predicate Written(past: seq<seq<Byte>>, was: seq<Byte>, a: nat, slot: nat, ws: seq<Write>, i: nat,
                            pages: nat)
      requires i <= |ws|
      reads this, chip
    {
      && Wired() && chip.Confined(past, was, g.Base(slot), g.Base(slot) + g.size)
      && chip.mem == WriteAll(was, g.Base(slot), ws, i)
      && chip.asked >= a && (pages * PAGE_SIZE >= g.size ==> chip.Granted(a))
    }

    /** The `i`-th write. */
    method WriteNext(slot: nat, ws: seq<Write>, i: nat, pages: nat,
                     ghost past: seq<seq<Byte>>, ghost was: seq<Byte>, ghost a: nat)
      returns (r: Result<()>)
      requires slot < g.count && activeSlot != Some(slot) && i < |ws| && ws[i].Fits(g.size)
      requires Written(past, was, a, slot, ws, i, pages)
      modifies chip
      ensures r.Ok? ==> Written(past, was, a, slot, ws, i + 1, pages)
      ensures r.Err? ==> Wired() && chip.Confined(past, was, g.Base(slot), g.Base(slot) + g.size) && chip.asked >= a
      ensures r.Err? && pages * PAGE_SIZE >= g.size ==> !chip.Granted(a)
    {
      ghost var earlier, before, b := chip.journal, chip.mem, g.Base(slot);
      r := Store(slot, ws[i], pages);
      chip.ConfinedInTurn(past, was, earlier, before, b, b + g.size, b, b + g.size);
    }

    method WriteEach(slot: nat, ws: seq<Write>, pages: nat) returns (r: Result<()>)
      requires Wired() && slot < g.count && activeSlot != Some(slot) && Fill(ws)
      modifies chip
      ensures Wired() && chip.Confined(old(chip.journal), old(chip.mem), g.Base(slot), g.Base(slot) + g.size)
      ensures r.Ok? ==> chip.mem == WriteAll(old(chip.mem), g.Base(slot), ws, |ws|)
      ensures chip.asked >= old(chip.asked)
      ensures pages * PAGE_SIZE >= g.size ==> (r.Ok? <==> chip.Granted(old(chip.asked)))
    {
      ghost var was, past, a := chip.mem, chip.journal, chip.asked;
      r := Ok(());
      for i := 0 to |ws|
        invariant r.Ok? && Written(past, was, a, slot, ws, i, pages)
      {
        r := WriteNext(slot, ws, i, pages, past, was, a);
        if r.Err? { return; }
      }
    }

    /** Fills an erased slot and reads part of one of the writes. */
    method WriteAndRead(slot: nat, ws: seq<Write>, k: nat, lo: nat, hi: nat, pages: nat)
      returns (r: Result<seq<Byte>>)
      requires Wired() && slot < g.count && activeSlot != Some(slot) && Fill(ws)
      requires Disjoint(ws) && k < |ws| && lo <= hi <= |ws[k].data|
      requires Blank(chip.mem, g.Base(slot), g.Base(slot) + g.size)
      modifies chip
      ensures Wired() && chip.Confined(old(chip.journal), old(chip.mem), g.Base(slot), g.Base(slot) + g.size)
      ensures r.Ok? ==> r.value == ws[k].data[lo..hi]
      ensures chip.asked >= old(chip.asked)
      ensures pages * PAGE_SIZE >= g.size ==> (r.Ok? <==> chip.Granted(old(chip.asked)))
    {
      ghost var erased := chip.mem;
      var done := WriteEach(slot, ws, pages);
      if done.Err? { return Err(done.error); }
      SlotRoundTrip(g, erased, slot, ws, k, lo, hi);
      r := ReadSlotWithOffset(slot, ws[k].offset + lo, hi - lo, pages);
    }

    /** Erase a slot, fill it with writes that do not overlap, and read any part of one of
        them: if every call succeeds, the client gets its own data back, and no other slot
        has changed at any moment, however far the calls got.  With a client that stays,
        every call succeeds exactly when no write enable is refused. */
    method EraseWriteRead(slot: nat, ws: seq<Write>, k: nat, lo: nat, hi: nat, pages: nat)
      returns (r: Result<seq<Byte>>)
      requires Valid() && slot < g.count && activeSlot != Some(slot) && Fill(ws)
      requires Disjoint(ws) && k < |ws| && lo <= hi <= |ws[k].data|
      modifies chip
      ensures Valid() && chip.Confined(old(chip.journal), old(chip.mem), g.Base(slot), g.Base(slot) + g.size)
      ensures r.Ok? ==> r.value == ws[k].data[lo..hi]
      ensures pages * PAGE_SIZE >= g.size ==> (r.Ok? <==> chip.Granted(old(chip.asked)))
    {
      ghost var was, past, b := chip.mem, chip.journal, g.Base(slot);
      var done := EraseSlot(slot);
      if done.Err? { return Err(done.error); }
      ghost var erased, earlier := chip.mem, chip.journal;
      r := WriteAndRead(slot, ws, k, lo, hi, pages);
      chip.ConfinedInTurn(past, was, earlier, erased, b, b + g.size, b, b + g.size);
      KeepsActive(was, slot);
    }

    // ----- Whole lives -----

    lemma QuietIfConfined(past: seq<seq<Byte>>, was: seq<Byte>, slot: nat)
      requires Wired() && |was| == g.Base(g.count) && slot < g.count && activeSlot.Some? && activeSlot != Some(slot)
      requires activeSlot.value < g.count && chip.Confined(past, was, g.Base(slot), g.Base(slot) + g.size)
      ensures Quiet(past, was)
    {
      forall j | |past| <= j < |chip.journal| ensures SameSlot(g, was, chip.journal[j], activeSlot.value) {
        OtherSlotUntouched(g, was, chip.journal[j], activeSlot.value, slot);
      }
    }

    /** Since the journal was `past` and the content `was`, the active slot has read the
        same at every moment. */
    ghost predicate Quiet(past: seq<seq<Byte>>, was: seq<Byte>)
      requires Wired() && |was| == g.Base(g.count) && activeSlot.Some? && activeSlot.value < g.count
      reads this, chip
    {
      && past <= chip.journal
      && forall j :: |past| <= j < |chip.journal| ==> SameSlot(g, was, chip.journal[j], activeSlot.value)
    }

    method Dispatch(q: Request)
      requires Valid() && q.Allowed(g, activeSlot)
      modifies chip
      ensures Valid() && old(chip.journal) <= chip.journal
      ensures activeSlot.Some? ==> Quiet(old(chip.journal), old(chip.mem))
    {
      ghost var past, was := chip.journal, chip.mem;
      match q {
        case Redundancy =>
          var _, _ := EnsureRedundancy();
          if activeSlot.Some? {
            SpareInRange(g, activeSlot.value);
            QuietIfConfined(past, was, Spare(activeSlot.value));
          }
        case Erase(slot) =>
          var _ := EraseSlot(slot);
          if activeSlot.Some? && slot < g.count { QuietIfConfined(past, was, slot); }
        case Put(slot, offset, data, pages) =>
          var _, _ := WriteSlotWithOffset(slot, offset, data, pages);
          if activeSlot.Some? && activeSlot != Some(slot) { QuietIfConfined(past, was, slot); }
      }
    }

    /** Any sequence of redundancy copies and client calls is a life in which the active
        slot never changes. */
    method Serve(reqs: seq<Request>)
      requires Valid() && forall q :: q in reqs ==> q.Allowed(g, activeSlot)
      modifies chip
      ensures Valid() && old(chip.journal) <= chip.journal
      ensures activeSlot.Some? ==>
        Life(g, chip.journal[|old(chip.journal)| - 1..], old(chip.mem), activeSlot.value)
    {
      ghost var past, was := chip.journal, chip.mem;
      for i := 0 to |reqs|
        invariant Valid() && past <= chip.journal
        invariant activeSlot.Some? ==> SameSlot(g, was, chip.mem, activeSlot.value) && Quiet(past, was)
      {
        Dispatch(reqs[i]);
      }
    }
  }

  datatype Request = Redundancy | Erase(slot: nat) | Put(slot: nat, offset: nat, data: seq<Byte>, pages: nat) {
    /** Clients name existing slots to write to and do not erase the active one. */
    predicate Allowed(g: Geometry, active: Option<nat>) {
      (Erase? ==> active != Some(slot)) && (Put? ==> slot < g.count)
    }
  }

  // ----- Recovery -----

  /** Slot `a` reads the same in both contents. */
  ghost predicate SameSlot(g: Geometry, m: seq<Byte>, m': seq<Byte>, a: nat)
    requires g.size % SECTOR_SIZE == 0 && a < g.count && |m| == g.Base(g.count)
  {
    |m'| == |m| && Image(g, m', a) == Image(g, m, a)
  }

  lemma SameSlotBytes(g: Geometry, m: seq<Byte>, m': seq<Byte>, a: nat, i: nat)
    requires g.size % SECTOR_SIZE == 0 && a < g.count && |m| == g.Base(g.count) && SameSlot(g, m, m', a)
    requires g.Base(a) <= i < g.Base(a) + g.size
    ensures i < |m| && m'[i] == m[i]
  {
    SlotBounds(g, a);
    assert Image(g, m', a)[i - g.Base(a)] == Image(g, m, a)[i - g.Base(a)];
  }

  lemma TornKeepsSlot(g: Geometry, m: seq<Byte>, x: seq<Byte>, y: seq<Byte>, r: seq<Byte>, a: nat)
    requires g.size % SECTOR_SIZE == 0 && a < g.count && |m| == g.Base(g.count)
    requires SameSlot(g, m, x, a) && SameSlot(g, m, y, a) && Torn(x, y, r)
    ensures SameSlot(g, m, r, a)
  {
    SlotBounds(g, a);
    forall i | g.Base(a) <= i < g.Base(a) + g.size ensures r[i] == m[i] {
      SameSlotBytes(g, m, x, a, i);
      SameSlotBytes(g, m, y, a, i);
      TornKeepsCommonBytes(x, y, r, i);
    }
  }

  /** One life of the server over a chip that held `m`: whatever it does, the slot it
      found active reads the same in every content of the journal. */
  ghost predicate Life(g: Geometry, journal: seq<seq<Byte>>, m: seq<Byte>, a: nat)
    requires g.size % SECTOR_SIZE == 0 && a < g.count && |m| == g.Base(g.count)
  {
    journal != [] && forall j :: 0 <= j < |journal| ==> SameSlot(g, m, journal[j], a)
  }

  /** A power cut at any moment of a life, between flash commands or inside one, leaves
      the active slot as it was. */
  lemma LifeCut(g: Geometry, journal: seq<seq<Byte>>, m: seq<Byte>, a: nat, r: seq<Byte>)
    requires g.size % SECTOR_SIZE == 0 && a < g.count && |m| == g.Base(g.count)
    requires Life(g, journal, m, a) && CutState(journal, 0, r)
    ensures SameSlot(g, m, r, a)
  {
    var j: nat :| CutAt(journal, 0, r, j);
    if r != journal[j] { TornKeepsSlot(g, m, journal[j], journal[j + 1], r, a); }
  }

  /** `m'` may be what the next start finds on a chip that the last start found with `m`:
      whichever slot it then took to be active, some life with that slot, cut at some
      moment, leads there. */
  ghost predicate Restarted(s: Server, m: seq<Byte>, m': seq<Byte>)
    requires s.g.Valid() && |m| == s.g.Base(s.g.count)
  {
    forall a: nat :: s.FirstGood(m, Some(a)) ==> exists journal :: Life(s.g, journal, m, a) && CutState(journal, 0, m')
  }

  lemma RestartFindsImage(s: Server, m: seq<Byte>, a: nat, m': seq<Byte>)
    requires s.g.Valid() && |m| == s.g.Base(s.g.count) && Restarted(s, m, m') && s.FirstGood(m, Some(a))
    ensures |m'| == |m| && s.Good(m', a)
  {
    var journal :| Life(s.g, journal, m, a) && CutState(journal, 0, m');
    LifeCut(s.g, journal, m, a, m');
  }

  /** Some slot has the expected checksum. */
  ghost predicate HasGood(s: Server, m: seq<Byte>)
    requires s.g.Valid()
  {
    |m| == s.g.Base(s.g.count) && exists a: nat :: s.Good(m, a)
  }

  /** A good slot makes the scan succeed: some slot is the first good one. */
  lemma {:induction false} FirstOfGood(s: Server, m: seq<Byte>, a: nat) returns (first: nat)
    requires s.g.Valid() && |m| == s.g.Base(s.g.count) && s.Good(m, a)
    ensures s.FirstGood(m, Some(first))
    decreases a
  {
    if b: nat :| b < a && s.Good(m, b) {
      first := FirstOfGood(s, m, b);
    } else {
      first := a;
    }
  }

  /** Over any number of restarts, each after a power cut at any moment of any mixture of
      copies and client calls, every start finds a slot with the expected checksum. */
  lemma {:induction false} EveryRestartFindsImage(s: Server, ms: seq<seq<Byte>>, n: nat)
    requires s.g.Valid() && n < |ms| && HasGood(s, ms[0])
    requires forall k :: 0 <= k < |ms| - 1 && |ms[k]| == s.g.Base(s.g.count) ==> Restarted(s, ms[k], ms[k + 1])
    ensures HasGood(s, ms[n])
  {
    if n > 0 {
      EveryRestartFindsImage(s, ms, n - 1);
      var a: nat :| s.Good(ms[n - 1], a);
      var first := FirstOfGood(s, ms[n - 1], a);
      RestartFindsImage(s, ms[n - 1], first, ms[n]);
    }
  }

  // ----- Round trip -----

  datatype Write = Write(offset: nat, data: seq<Byte>) {
    predicate Covers(p: nat) { offset <= p < offset + |data| }
    predicate Fits(size: nat) { offset % PAGE_SIZE == 0 && offset + |data| <= size }
  }

  /** The content after the first `n` of a row of successful `write_slot_with_offset`
      calls on one slot. */
  function WriteAll(m: seq<Byte>, base: nat, ws: seq<Write>, n: nat): (r: seq<Byte>)
    requires n <= |ws|
    ensures |r| == |m|
  {
    if n == 0 then m else Overlay(WriteAll(m, base, ws, n - 1), base + ws[n - 1].offset, ws[n - 1].data)
  }

  predicate Apart(v: Write, w: Write) {
    v.data == [] || w.data == [] || v.offset + |v.data| <= w.offset || w.offset + |w.data| <= v.offset
  }

  /** No two writes have a cell in common. */
  predicate Disjoint(ws: seq<Write>) {
    forall i, j :: 0 <= i < j < |ws| ==> Apart(ws[i], ws[j])
  }

  lemma {:induction false} WriteOne(m: seq<Byte>, base: nat, ws: seq<Write>, n: nat, p: nat)
    requires 0 < n <= |ws| && base + p < |m|
    ensures var w, before := ws[n - 1], WriteAll(m, base, ws, n - 1)[base + p];
      WriteAll(m, base, ws, n)[base + p] == if w.Covers(p) then And(before, w.data[p - w.offset]) else before
  {}

  lemma {:induction false} WritesMiss(m: seq<Byte>, base: nat, ws: seq<Write>, n: nat, p: nat)
    requires n <= |ws| && base + p < |m| && forall i :: 0 <= i < n ==> !ws[i].Covers(p)
    ensures WriteAll(m, base, ws, n)[base + p] == m[base + p]
  {
    if n > 0 {
      WritesMiss(m, base, ws, n - 1, p);
      WriteOne(m, base, ws, n, p);
    }
  }

  /** Writes to disjoint ranges of an erased slot all read back, byte for byte. */
  lemma {:induction false} ErasedSlotRoundTrip(m: seq<Byte>, base: nat, ws: seq<Write>, n: nat, k: nat, p: nat)
    requires Disjoint(ws) && k < n <= |ws| && ws[k].Covers(p) && base + p < |m| && m[base + p] == BLANK
    ensures WriteAll(m, base, ws, n)[base + p] == ws[k].data[p - ws[k].offset]
  {
    WriteOne(m, base, ws, n, p);
    if k == n - 1 {
      forall i | 0 <= i < n - 1 ensures !ws[i].Covers(p) { assert Apart(ws[i], ws[k]); }
      WritesMiss(m, base, ws, n - 1, p);
      AndBlank(ws[k].data[p - ws[k].offset]);
    } else {
      ErasedSlotRoundTrip(m, base, ws, n - 1, k, p);
      assert Apart(ws[k], ws[n - 1]);
    }
  }

  lemma {:induction false} RangeRoundTrip(m: seq<Byte>, base: nat, size: nat, ws: seq<Write>, k: nat, lo: nat, hi: nat)
    requires base + size <= |m| && Blank(m, base, base + size)
    requires Disjoint(ws) && k < |ws| && ws[k].Fits(size) && lo <= hi <= |ws[k].data|
    ensures var at := base + ws[k].offset;
      WriteAll(m, base, ws, |ws|)[at + lo..at + hi] == ws[k].data[lo..hi]
  {
    var m', o := WriteAll(m, base, ws, |ws|), ws[k].offset;
    forall i | lo <= i < hi ensures m'[base + o + i] == ws[k].data[i] {
      ErasedSlotRoundTrip(m, base, ws, |ws|, k, o + i);
    }
  }

  /** After an erase and any disjoint writes, any part of one of them is in the slot. */
  lemma {:induction false} SlotRoundTrip(g: Geometry, m: seq<Byte>, slot: nat, ws: seq<Write>, k: nat, lo: nat, hi: nat)
    requires g.Valid() && slot < g.count && |m| == g.Base(g.count)
    requires Blank(m, g.Base(slot), g.Base(slot) + g.size)
    requires Disjoint(ws) && k < |ws| && ws[k].Fits(g.size) && lo <= hi <= |ws[k].data|
    ensures Image(g, WriteAll(m, g.Base(slot), ws, |ws|), slot)[ws[k].offset + lo..ws[k].offset + hi]
      == ws[k].data[lo..hi]
  {
    SlotBounds(g, slot);
    RangeRoundTrip(m, g.Base(slot), g.size, ws, k, lo, hi);
    ImageSlice(g, WriteAll(m, g.Base(slot), ws, |ws|), slot, ws[k].offset + lo, ws[k].offset + hi);
  }
}
