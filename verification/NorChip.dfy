/** One NOR chip behind the QSPI driver, with the ranged copy, erase and write loops of
    the auxiliary flash server.  A ghost journal keeps every content the chip has had,
    so that contracts can speak of a power cut at any point. */
module NorChip {
  import opened Nor

  ghost predicate SameOutside(m: seq<Byte>, m': seq<Byte>, lo: nat, hi: nat) {
    |m'| == |m| && forall i :: 0 <= i < |m| && !(lo <= i < hi) ==> m'[i] == m[i]
  }

  // ----- Power cuts -----

  ghost predicate CutAt(journal: seq<seq<Byte>>, from: nat, r: seq<Byte>, j: nat) {
    && from <= j < |journal|
    && (r == journal[j] || (j + 1 < |journal| && Torn(journal[j], journal[j + 1], r)))
  }

  /** `r` may be found after a restart: one of the recorded contents from `from` on, or
      a torn transition between two of them. */
  ghost predicate CutState(journal: seq<seq<Byte>>, from: nat, r: seq<Byte>) {
    exists j: nat :: CutAt(journal, from, r, j)
  }

  // ----- Writing over a range under NOR rules -----

  function Overlay(m: seq<Byte>, at: nat, data: seq<Byte>): (r: seq<Byte>)
    ensures |r| == |m|
  {
    seq(|m|, i requires 0 <= i < |m| =>
      if at <= i < at + |data| then And(m[i], data[i - at]) else m[i])
  }

  /** The end of the sector that holds `addr`. */
  function SectorEnd(addr: nat): (e: nat)
    ensures addr < e <= addr + SECTOR_SIZE
  {
    if addr < SECTOR_SIZE then SECTOR_SIZE else SECTOR_SIZE + SectorEnd(addr - SECTOR_SIZE)
  }

  /** The end of the last sector that writing up to `addr` has to erase. */
  function Frontier(addr: nat): (e: nat)
    ensures addr <= e
  {
    if AtSectorStart(addr) then addr else SectorEnd(addr)
  }

  predicate AtSectorStart(addr: nat) {
    addr == 0 || (addr >= SECTOR_SIZE && AtSectorStart(addr - SECTOR_SIZE))
  }

  predicate AtPageStart(addr: nat) {
    addr == 0 || (addr >= PAGE_SIZE && AtPageStart(addr - PAGE_SIZE))
  }

  lemma {:induction false} AtPageStartIs(addr: nat)
    ensures AtPageStart(addr) <==> addr % PAGE_SIZE == 0
  {
    if addr >= PAGE_SIZE { AtPageStartIs(addr - PAGE_SIZE); }
  }

  lemma {:induction false} AtSectorStartIs(addr: nat)
    ensures AtSectorStart(addr) <==> addr % SECTOR_SIZE == 0
  {
    if addr >= SECTOR_SIZE { AtSectorStartIs(addr - SECTOR_SIZE); }
  }

  lemma {:induction false} StartsAddUp(a: nat, b: nat)
    requires AtSectorStart(a) && AtSectorStart(b)
    ensures AtSectorStart(a + b)
    decreases b
  {
    if b > 0 { StartsAddUp(a, b - SECTOR_SIZE); }
  }

  lemma {:induction false} SectorEndIs(addr: nat)
    ensures SectorEnd(addr) == (addr / SECTOR_SIZE + 1) * SECTOR_SIZE
  {
    if addr >= SECTOR_SIZE { SectorEndIs(addr - SECTOR_SIZE); }
  }

  lemma {:induction false} SectorInside(hi: nat, addr: nat)
    requires addr < hi && AtSectorStart(hi)
    ensures SectorEnd(addr) <= hi
    decreases addr
  {
    if addr >= SECTOR_SIZE { SectorInside(hi - SECTOR_SIZE, addr - SECTOR_SIZE); }
  }

  /** Programming the next page extends the overlay by that page, and the page never
      wraps. */
  lemma OverlayPage(m: seq<Byte>, start: nat, data: seq<Byte>, read: nat, amount: nat)
    requires start % PAGE_SIZE == 0 && read % PAGE_SIZE == 0 && amount <= PAGE_SIZE
    requires read + amount <= |data| && start + |data| <= |m|
    ensures Program(Overlay(m, start, data[..read]), start + read, data[read..read + amount])
      == Overlay(m, start, data[..read + amount])
  {
    var o := Overlay(m, start, data[..read]);
    assert (start + read) % PAGE_SIZE == 0;
    ProgramInPage(o, start + read, data[read..read + amount]);
  }

  lemma {:induction false} SectorEndOfStart(addr: nat)
    requires AtSectorStart(addr)
    ensures SectorEnd(addr) == addr + SECTOR_SIZE
  {
    if addr > 0 { SectorEndOfStart(addr - SECTOR_SIZE); }
  }

  lemma EraseAligned(m: seq<Byte>, addr: nat)
    requires AtSectorStart(addr)
    ensures forall i :: 0 <= i < |m| ==> Erase(m, addr)[i] == if addr <= i < SectorEnd(addr) then BLANK else m[i]
  {
    AtSectorStartIs(addr);
    SectorEndIs(addr);
  }

  lemma PageFits(addr: nat, amount: nat)
    requires AtPageStart(addr) && amount <= PAGE_SIZE
    ensures addr % PAGE_SIZE + amount <= PAGE_SIZE && addr + amount <= SectorEnd(addr)
  {
    AtPageStartIs(addr);
    SectorEndIs(addr);
  }

  /** A page programmed into blank cells of its sector. */
  lemma PageInBlank(mem: seq<Byte>, addr: nat, data: seq<Byte>)
    requires AtPageStart(addr) && |data| <= PAGE_SIZE && addr + |data| <= |mem| && Blank(mem, addr, SectorEnd(addr))
    ensures var r := Program(mem, addr, data);
      && SameOutside(mem, r, addr, SectorEnd(addr))
      && r[addr..addr + |data|] == data && Blank(r, addr + |data|, SectorEnd(addr))
  {
    PageFits(addr, |data|);
    ProgramBlank(mem, addr, data);
  }

  class Chip {
    var mem: seq<Byte>
    ghost var journal: seq<seq<Byte>>

    // Which requests to enable writing are refused, counted from the start, and how many
    // have been made.
    const refuses: nat -> bool
    var asked: nat

    /** The write-enable latch: a program or erase needs it set, and clears it. */
    var latch: bool

    /** No request since `a` had been made was refused. */
    ghost predicate Granted(a: nat)
      reads this
    {
      forall j :: a <= j < asked ==> !refuses(j)
    }

    ghost predicate Valid()
      reads this
    {
      journal != [] && journal[|journal| - 1] == mem
    }

    /** Since `journal` was `past` and the content `m`, nothing outside `lo..hi` has
        changed at any moment. */
    ghost predicate Confined(past: seq<seq<Byte>>, m: seq<Byte>, lo: nat, hi: nat)
      reads this
    {
      && past <= journal && SameOutside(m, mem, lo, hi)
      && forall j :: |past| <= j < |journal| ==> SameOutside(m, journal[j], lo, hi)
    }

    constructor (mem: seq<Byte>, refuses: nat -> bool)
      ensures Valid() && this.mem == mem && journal == [mem] && this.refuses == refuses && asked == 0
    {
      this.mem, this.journal, this.refuses, this.asked, this.latch := mem, [mem], refuses, 0, false;
    }

    /** The status register shows whether the write-enable latch got set. */
    method SetAndCheckWriteEnable() returns (ok: bool)
      modifies this`asked, this`latch
      ensures asked == old(asked) + 1 && ok == latch == !refuses(old(asked))
    {
      latch, asked := !refuses(asked), asked + 1;
      ok := latch;
    }

    method PageProgram(addr: nat, data: seq<Byte>)
      requires Valid() && |data| <= PAGE_SIZE && latch
      modifies this`mem, this`journal, this`latch
      ensures Valid() && mem == Program(old(mem), addr, data) && journal == old(journal) + [mem]
    {
      mem, latch := Program(mem, addr, data), false;
      journal := journal + [mem];
    }

    method SectorErase(addr: nat)
      requires Valid() && latch
      modifies this`mem, this`journal, this`latch
      ensures Valid() && mem == Erase(old(mem), addr) && journal == old(journal) + [mem]
    {
      mem, latch := Erase(mem, addr), false;
      journal := journal + [mem];
    }

    /** Erases the sector if `write` starts one; the cells to come are then blank. */
    method EraseIfAtStart(write: nat) returns (ok: bool)
      requires Valid() && (!AtSectorStart(write) ==> Blank(mem, write, SectorEnd(write)))
      modifies this
      ensures Valid() && Confined(old(journal), old(mem), write, SectorEnd(write))
      ensures asked >= old(asked) && (ok <==> Granted(old(asked)))
      ensures ok ==> Blank(mem, write, SectorEnd(write))
    {
      ok := true;
      AtSectorStartIs(write);
      if write % SECTOR_SIZE == 0 {
        ok := SetAndCheckWriteEnable();
        if ok {
          EraseAligned(mem, write);
          SectorErase(write);
        }
      }
    }

    /** One turn of the copy loop.  Only cells from `write` to the end of its sector can
        differ, in every content the chip passes through. */
    method CopyPage(read: nat, write: nat, amount: nat) returns (ok: bool)
      requires Valid() && 0 < amount <= PAGE_SIZE
      requires read + amount <= |mem| && write + amount <= |mem| && AtPageStart(write)
      requires !AtSectorStart(write) ==> Blank(mem, write, SectorEnd(write))
      modifies this
      ensures Valid() && Confined(old(journal), old(mem), write, SectorEnd(write))
      ensures asked >= old(asked) && (ok <==> Granted(old(asked)))
      ensures ok ==> mem[write..write + amount] == old(mem)[read..read + amount]
      ensures ok ==> Blank(mem, write + amount, SectorEnd(write))
    {
      var buf := mem[read..read + amount];
      ok := EraseIfAtStart(write);
      if !ok { return; }
      ok := SetAndCheckWriteEnable();
      if !ok { return; }
      PageInBlank(mem, write, buf);
      PageProgram(write, buf);
    }

    /** What holds between turns of the copy loop, `done` bytes into it. */
    ghost predicate Copied(past: seq<seq<Byte>>, was: seq<Byte>, src: nat, dst: nat, size: nat, done: nat)
      reads this
    {
      Valid() && Confined(past, was, dst, dst + size) && CopiedTo(was, mem, src, dst, size, done)
    }

    method CopyNext(ghost past: seq<seq<Byte>>, ghost was: seq<Byte>, src: nat, dst: nat, size: nat,
                    done: nat, amount: nat)
      returns (ok: bool)
      requires 0 < amount <= PAGE_SIZE && done + amount <= size
      requires AtSectorStart(dst + size) && AtPageStart(dst + done)
      requires src + size <= dst || dst + size <= src
      requires Copied(past, was, src, dst, size, done)
      modifies this
      ensures Valid() && Confined(past, was, dst, dst + size)
      ensures asked >= old(asked) && (ok <==> Granted(old(asked)))
      ensures ok ==> CopiedTo(was, mem, src, dst, size, done + amount)
      ensures amount == PAGE_SIZE ==> AtPageStart(dst + (done + amount))
    {
      ghost var before, earlier := mem, journal;
      ReadyForPage(was, mem, src, dst, size, done, amount);
      ok := CopyPage(src + done, dst + done, amount);
      ConfinedInTurn(past, was, earlier, before, dst, dst + size, dst + done, SectorEnd(dst + done));
      if ok { CopiedOn(was, before, mem, src, dst, size, done, amount); }
    }

    /** The copy loop: on success the first `n` bytes at `dst` equal those at `src`, the
        rest of the last sector touched is blank, and nothing past it has changed. */
    method CopyRange(src: nat, dst: nat, n: nat, size: nat) returns (ok: bool)
      requires Valid() && n <= size
      requires src + size <= |mem| && dst + size <= |mem| && AtSectorStart(dst) && AtSectorStart(dst + size)
      requires src + size <= dst || dst + size <= src
      modifies this
      ensures Valid() && Confined(old(journal), old(mem), dst, dst + size)
      ensures asked >= old(asked) && (ok <==> Granted(old(asked)))
      ensures ok ==> CopiedTo(old(mem), mem, src, dst, size, n)
    {
      ghost var was, past := mem, journal;
      var done := 0;
      ok := true;
      SectorStartsPage(dst);
      NothingCopied(was, src, dst, size);
      while done < n
        invariant 0 <= done <= n && (AtPageStart(dst + done) || done == n)
        invariant Copied(past, was, src, dst, size, done)
        invariant ok && asked >= old(asked) && Granted(old(asked))
      {
        var amount := if n - done < PAGE_SIZE then n - done else PAGE_SIZE;
        ok := CopyNext(past, was, src, dst, size, done, amount);
        if !ok { return; }
        done := done + amount;
      }
    }

    lemma ConfinedWider(past: seq<seq<Byte>>, m: seq<Byte>, lo: nat, hi: nat, lo': nat, hi': nat)
      requires Confined(past, m, lo', hi') && lo <= lo' && hi' <= hi
      ensures Confined(past, m, lo, hi)
    {
      forall j | |past| <= j < |journal| ensures SameOutside(m, journal[j], lo, hi) {
        assert SameOutside(m, journal[j], lo', hi');
      }
    }

    lemma ConfinedInTurn(past: seq<seq<Byte>>, m: seq<Byte>, earlier: seq<seq<Byte>>, before: seq<Byte>,
                         lo: nat, hi: nat, lo': nat, hi': nat)
      requires past <= earlier && SameOutside(m, before, lo, hi)
      requires forall j :: |past| <= j < |earlier| ==> SameOutside(m, earlier[j], lo, hi)
      requires Confined(earlier, before, lo', hi') && lo <= lo' && hi' <= hi
      ensures Confined(past, m, lo, hi)
    {
      forall j | |past| <= j < |journal| ensures SameOutside(m, journal[j], lo, hi) {
        if j < |earlier| {
          assert journal[j] == earlier[j];
        } else {
          assert SameOutside(before, journal[j], lo', hi');
        }
      }
    }

    /** The sector loop of a slot erase. */
    method EraseRange(start: nat, end: nat) returns (ok: bool)
      requires Valid() && start <= end <= |mem| && AtSectorStart(start) && AtSectorStart(end)
      modifies this
      ensures Valid() && Confined(old(journal), old(mem), start, end)
      ensures asked >= old(asked) && (ok <==> Granted(old(asked)))
      ensures ok ==> Blank(mem, start, end)
    {
      ghost var was, past := mem, journal;
      var addr := start;
      ok := true;
      while addr < end
        invariant start <= addr <= end && AtSectorStart(addr)
        invariant Valid() && Confined(past, was, start, end)
        invariant Blank(mem, start, addr)
        invariant ok && asked >= old(asked) && Granted(old(asked))
      {
        ok := SetAndCheckWriteEnable();
        if !ok { return; }
        SectorInside(end, addr);
        EraseAligned(mem, addr);
        SectorErase(addr);
        SectorEndOfStart(addr);
        addr := addr + SECTOR_SIZE;
      }
    }

    method WritePage(ghost past: seq<seq<Byte>>, ghost was: seq<Byte>, start: nat, data: seq<Byte>,
                     read: nat, amount: nat, lease: bool)
      returns (leased: bool, enabled: bool)
      requires Valid() && start % PAGE_SIZE == 0 && read % PAGE_SIZE == 0 && amount <= PAGE_SIZE
      requires read + amount <= |data| && start + |data| <= |mem| == |was|
      requires mem == Overlay(was, start, data[..read]) && Confined(past, was, start, start + |data|)
      modifies this
      ensures Valid() && (leased || enabled) && Confined(past, was, start, start + |data|)
      ensures leased == lease && asked >= old(asked) && (enabled <==> Granted(old(asked)))
      ensures mem == Overlay(was, start, data[..if leased && enabled then read + amount else read])
    {
      leased, enabled := lease, true;
      if !leased { return; }
      enabled := SetAndCheckWriteEnable();
      if !enabled { return; }
      OverlayPage(was, start, data, read, amount);
      PageProgram(start + read, data[read..read + amount]);
    }

    /** The page loop of a slot write; the client stays for `pages` pages.  `done` bytes are
        stored, all of them exactly when it stays for all and no write enable is refused, and
        nothing outside the range changes at any moment. */
    method WriteRange(start: nat, data: seq<Byte>, pages: nat)
      returns (leased: bool, enabled: bool, ghost done: nat)
      requires Valid() && start % PAGE_SIZE == 0 && start + |data| <= |mem|
      modifies this
      ensures Valid() && Confined(old(journal), old(mem), start, start + |data|)
      ensures done <= |data| && mem == Overlay(old(mem), start, data[..done])
      ensures leased && enabled <==> done == |data|
      ensures (leased || enabled) && asked >= old(asked) && (enabled <==> Granted(old(asked)))
      ensures leased && enabled ==> |data| <= pages * PAGE_SIZE
      ensures !leased ==> |data| > pages * PAGE_SIZE
    {
      ghost var was, past := mem, journal;
      var read, i := 0, 0;
      done, leased, enabled := 0, true, true;
      while read < |data|
        invariant 0 <= read <= |data| && (read == i * PAGE_SIZE || (read == |data| <= i * PAGE_SIZE))
        invariant done == read && leased && enabled
        invariant asked >= old(asked) && Granted(old(asked)) && i <= pages
        invariant Valid() && mem == Overlay(was, start, data[..read]) && Confined(past, was, start, start + |data|)
      {
        var amount := if |data| - read < PAGE_SIZE then |data| - read else PAGE_SIZE;
        leased, enabled := WritePage(past, was, start, data, read, amount, i < pages);
        if !leased || !enabled { return; }
        read, i := read + amount, i + 1;
        done := read;
      }
    }
  }

  /** `mem` is `was` with the first `done` bytes at `dst` equal to those at `src`, the rest
      of the last sector touched blank, and nothing else of the chip changed. */
  ghost predicate CopiedTo(was: seq<Byte>, mem: seq<Byte>, src: nat, dst: nat, size: nat, done: nat) {
    && src + size <= |was| && dst + size <= |mem| && done <= size
    && mem[dst..dst + done] == was[src..src + done]
    && Blank(mem, dst + done, Frontier(dst + done))
    && SameOutside(was, mem, dst, Frontier(dst + done))
  }

  lemma {:induction false} NothingCopied(was: seq<Byte>, src: nat, dst: nat, size: nat)
    requires src + size <= |was| && dst + size <= |was| && AtSectorStart(dst)
    ensures CopiedTo(was, was, src, dst, size, 0)
  {}

  lemma {:induction false} ReadyForPage(was: seq<Byte>, mem: seq<Byte>, src: nat, dst: nat, size: nat,
                                        done: nat, amount: nat)
    requires CopiedTo(was, mem, src, dst, size, done) && AtSectorStart(dst + size) && AtPageStart(dst + done)
    requires 0 < amount && done + amount <= size
    ensures !AtSectorStart(dst + done) ==> Blank(mem, dst + done, SectorEnd(dst + done))
    ensures src + done + amount <= |mem| && SectorEnd(dst + done) <= dst + size <= |mem|
    ensures amount == PAGE_SIZE ==> AtPageStart(dst + (done + amount))
  {
    SectorInside(dst + size, dst + done);
    NextPage(dst + done);
  }

  lemma {:induction false} CopiedOn(was: seq<Byte>, before: seq<Byte>, after: seq<Byte>, src: nat, dst: nat,
                                    size: nat, done: nat, amount: nat)
    requires CopiedTo(was, before, src, dst, size, done) && AtPageStart(dst + done)
    requires 0 < amount <= PAGE_SIZE && done + amount <= size && (src + size <= dst || dst + size <= src)
    requires SectorEnd(dst + done) <= dst + size && SameOutside(was, before, dst, dst + size)
    requires SameOutside(before, after, dst + done, SectorEnd(dst + done))
    requires after[dst + done..dst + done + amount] == before[src + done..src + done + amount]
    requires Blank(after, dst + done + amount, SectorEnd(dst + done))
    ensures CopiedTo(was, after, src, dst, size, done + amount)
  {
    SourceUntouched(was, before, src + done, amount, dst, dst + size);
    CopiedSoFar(was, before, after, src, dst, done, amount);
    NextFrontier(dst + done, amount);
    SameFurther(was, before, after, dst, Frontier(dst + done), dst + done, SectorEnd(dst + done));
  }

  lemma {:induction false} NextPage(addr: nat)
    requires AtPageStart(addr)
    ensures AtPageStart(addr + PAGE_SIZE)
  {}

  lemma SourceUntouched(was: seq<Byte>, before: seq<Byte>, at: nat, amount: nat, lo: nat, hi: nat)
    requires SameOutside(was, before, lo, hi) && at + amount <= |was| && (at + amount <= lo || hi <= at)
    ensures before[at..at + amount] == was[at..at + amount]
  {}

  lemma CopiedSoFar(was: seq<Byte>, before: seq<Byte>, after: seq<Byte>, src: nat, dst: nat, done: nat, amount: nat)
    requires |was| == |before| == |after| && src + done + amount <= |was| && dst + done + amount <= |was|
    requires src + done + amount <= dst || dst + done + amount <= src
    requires before[dst..dst + done] == was[src..src + done]
    requires before[src + done..src + done + amount] == was[src + done..src + done + amount]
    requires forall i :: 0 <= i < dst + done ==> after[i] == before[i]
    requires after[dst + done..dst + done + amount] == before[src + done..src + done + amount]
    ensures after[dst..dst + done + amount] == was[src..src + done + amount]
  {
    assert after[dst..dst + done] == before[dst..dst + done];
    assert after[dst..dst + done + amount] == after[dst..dst + done] + after[dst + done..dst + done + amount];
    assert was[src..src + done + amount] == was[src..src + done] + was[src + done..src + done + amount];
  }

  lemma SectorStartsPage(addr: nat)
    requires AtSectorStart(addr)
    ensures addr % PAGE_SIZE == 0 && AtPageStart(addr)
  {
    AtSectorStartIs(addr);
    AtPageStartIs(addr);
  }

  /** Sectors look the same from every sector start. */
  lemma {:induction false} FrontierShift(base: nat, n: nat)
    requires AtSectorStart(base)
    ensures Frontier(base + n) == base + Frontier(n)
  {
    if base > 0 {
      FrontierShift(base - SECTOR_SIZE, n);
      assert AtSectorStart(base + n) <==> AtSectorStart(base - SECTOR_SIZE + n);
    }
  }

  lemma SameFurther(a: seq<Byte>, b: seq<Byte>, c: seq<Byte>, lo: nat, hi: nat, lo': nat, hi': nat)
    requires SameOutside(a, b, lo, hi) && SameOutside(b, c, lo', hi') && lo <= lo' && hi <= hi'
    ensures SameOutside(a, c, lo, hi')
  {}

  lemma {:induction false} NextFrontier(addr: nat, amount: nat)
    requires AtPageStart(addr) && 0 < amount <= PAGE_SIZE
    ensures Frontier(addr) <= Frontier(addr + amount) == SectorEnd(addr)
  {
    AtPageStartIs(addr);
    if addr >= SECTOR_SIZE {
      AtPageStartIs(addr - SECTOR_SIZE);
      NextFrontier(addr - SECTOR_SIZE, amount);
    }
  }
}
