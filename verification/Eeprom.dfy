/** The AT24CSW080 EEPROM: a writer that uses 16-byte page writes where it can must
    leave the memory as writing byte by byte would. */
module Eeprom {
  import opened Nor
  import opened Wrappers

  const EEPROM_SIZE: nat := 1024
  const EEPROM_PAGE: nat := 16
  const U16_MAX: nat := 65535

  datatype Error =
    | I2cError
    | InvalidAddress(addr: nat)
    | InvalidEndAddress(end: nat)
    | InvalidObjectSize(size: nat)
    | MisalignedPage(addr: nat)
    | InvalidPageSize(size: nat)

  type Result<T> = Wrappers.Result<T, Error>

  // ----- The reference: one byte at a time -----

  function WriteSimple(mem: seq<Byte>, addr: nat, buf: seq<Byte>): (r: seq<Byte>)
    requires addr + |buf| <= |mem|
    ensures |r| == |mem|
    decreases |buf|
  {
    if buf == [] then mem else WriteSimple(mem[addr := buf[0]], addr + 1, buf[1..])
  }

  /** Writing byte by byte sets exactly the addressed range. */
  lemma {:induction false} SimpleIsSplice(mem: seq<Byte>, addr: nat, buf: seq<Byte>)
    requires addr + |buf| <= |mem|
    ensures WriteSimple(mem, addr, buf) == mem[..addr] + buf + mem[addr + |buf|..]
    decreases |buf|
  {
    if buf != [] {
      SimpleIsSplice(mem[addr := buf[0]], addr + 1, buf[1..]);
    }
  }

  lemma {:induction false} SimpleInTurn(mem: seq<Byte>, addr: nat, xs: seq<Byte>, ys: seq<Byte>)
    requires addr + |xs| + |ys| <= |mem|
    ensures WriteSimple(WriteSimple(mem, addr, xs), addr + |xs|, ys) == WriteSimple(mem, addr, xs + ys)
    decreases |xs|
  {
    if xs == [] {
      assert xs + ys == ys;
    } else {
      assert (xs + ys)[1..] == xs[1..] + ys;
      SimpleInTurn(mem[addr := xs[0]], addr + 1, xs[1..], ys);
    }
  }

  /** What is written reads back. */
  lemma WriteThenRead(mem: seq<Byte>, addr: nat, buf: seq<Byte>)
    requires addr + |buf| <= |mem|
    ensures WriteSimple(mem, addr, buf)[addr..addr + |buf|] == buf
  {
    SimpleIsSplice(mem, addr, buf);
  }

  // ----- The chip -----

  /** A page write: the page is chosen by the address, the bytes wrap inside it. */
  function PageWrite(mem: seq<Byte>, addr: nat, data: seq<Byte>): (r: seq<Byte>)
    requires |data| <= EEPROM_PAGE
    ensures |r| == |mem|
  {
    seq(|mem|, i requires 0 <= i < |mem| =>
      var k := (i % EEPROM_PAGE + EEPROM_PAGE - addr % EEPROM_PAGE) % EEPROM_PAGE;
      if i / EEPROM_PAGE == addr / EEPROM_PAGE && k < |data| then data[k] else mem[i])
  }

  /** A page write that does not wrap is a simple write. */
  lemma {:induction false} PageWriteIsSimple(mem: seq<Byte>, addr: nat, data: seq<Byte>)
    requires addr % EEPROM_PAGE + |data| <= EEPROM_PAGE && addr + |data| <= |mem|
    ensures PageWrite(mem, addr, data) == WriteSimple(mem, addr, data)
  {
    SimpleIsSplice(mem, addr, data);
    forall i | 0 <= i < |mem|
      ensures PageWrite(mem, addr, data)[i] == (mem[..addr] + data + mem[addr + |data|..])[i]
    {
      assert i == i / EEPROM_PAGE * EEPROM_PAGE + i % EEPROM_PAGE;
      assert addr == addr / EEPROM_PAGE * EEPROM_PAGE + addr % EEPROM_PAGE;
    }
  }

  class At24Csw080 {
    /** The 7-bit bus address with the EEPROM address bits clear. */
    const bus: nat
    var mem: seq<Byte>

    // Which bus writes are acknowledged, counted from the start, and how many were made.
    const acks: nat -> bool
    var sent: nat

    /** Every bus write since `a` had been made was acknowledged. */
    ghost predicate Acked(a: nat)
      reads this
    {
      forall j :: a <= j < sent ==> acks(j)
    }

    ghost predicate Valid()
      reads this
    {
      |mem| == EEPROM_SIZE && bus % 4 == 0
    }

    constructor (bus: nat, mem: seq<Byte>, acks: nat -> bool)
      requires |mem| == EEPROM_SIZE && bus % 4 == 0
      ensures Valid() && this.mem == mem && this.bus == bus && this.acks == acks && sent == 0
    {
      this.bus, this.mem, this.acks, this.sent := bus, mem, acks, 0;
    }

    /** `DeviceHandle::eeprom`: address bits 9 and 8 go into the bus address.  The
        precondition is the assertion in the source, so every caller is shown to meet it. */
    function Handle(addr: nat): (device: nat)
      requires addr < EEPROM_SIZE && bus % 4 == 0
      ensures device % 4 * 256 + addr % 256 == addr
      ensures device / 4 == bus / 4
    {
      bus + addr / 256
    }

    /** One bus write: the chip rebuilds the address from the bus address and the first
        byte, and stores the rest.  A transfer that fails stores nothing. */
    method I2cWrite(device: nat, bytes: seq<Byte>) returns (ok: bool)
      requires Valid() && device / 4 == bus / 4 && 1 <= |bytes| <= EEPROM_PAGE + 1
      modifies this`mem, this`sent
      ensures Valid()
      ensures sent == old(sent) + 1 && ok == acks(old(sent))
      ensures mem == if ok then PageWrite(old(mem), device % 4 * 256 + bytes[0], bytes[1..]) else old(mem)
    {
      ok, sent := acks(sent), sent + 1;
      if ok { mem := PageWrite(mem, device % 4 * 256 + bytes[0], bytes[1..]); }
    }

    method WriteByte(addr: nat, val: Byte) returns (r: Result<()>)
      requires Valid()
      modifies this`mem, this`sent
      ensures Valid()
      ensures addr >= EEPROM_SIZE ==> r == Err(InvalidAddress(addr)) && mem == old(mem)
      ensures addr < EEPROM_SIZE ==> r == if acks(old(sent)) then Ok(()) else Err(I2cError)
      ensures sent == old(sent) + (if addr < EEPROM_SIZE then 1 else 0)
      ensures addr < EEPROM_SIZE ==> mem == WriteSimple(old(mem), addr, if r.Ok? then [val] else [])
    {
      if addr >= EEPROM_SIZE { return Err(InvalidAddress(addr)); }
      PageWriteIsSimple(mem, addr, [val]);
      assert [addr % 256, val][1..] == [val];
      var ok := I2cWrite(Handle(addr), [addr % 256, val]);
      r := if ok then Ok(()) else Err(I2cError);
    }

    method WritePage(addr: nat, buf: seq<Byte>) returns (r: Result<()>)
      requires Valid()
      modifies this`mem, this`sent
      ensures Valid()
      ensures addr >= EEPROM_SIZE ==> r == Err(InvalidAddress(addr))
      ensures addr < EEPROM_SIZE && addr % EEPROM_PAGE != 0 ==> r == Err(MisalignedPage(addr))
      ensures addr < EEPROM_SIZE && addr % EEPROM_PAGE == 0 && |buf| > EEPROM_PAGE ==> r == Err(InvalidPageSize(|buf|))
      ensures addr < EEPROM_SIZE && addr % EEPROM_PAGE == 0 && |buf| <= EEPROM_PAGE ==>
        sent == old(sent) + 1 && r == if acks(old(sent)) then Ok(()) else Err(I2cError)
      ensures r.Err? ==> mem == old(mem)
      ensures r.Ok? ==> addr + |buf| <= EEPROM_SIZE && mem == WriteSimple(old(mem), addr, buf)
    {
      if addr >= EEPROM_SIZE { return Err(InvalidAddress(addr)); }
      if addr % EEPROM_PAGE != 0 { return Err(MisalignedPage(addr)); }
      if |buf| > EEPROM_PAGE { return Err(InvalidPageSize(|buf|)); }
      assert addr + |buf| <= EEPROM_SIZE;
      PageWriteIsSimple(mem, addr, buf);
      assert ([addr % 256] + buf)[1..] == buf;
      var ok := I2cWrite(Handle(addr), [addr % 256] + buf);
      r := if ok then Ok(()) else Err(I2cError);
    }

    /** The unaligned head of a buffer, one byte at a time. */
    method WriteHead(addr: nat, buf: seq<Byte>) returns (r: Result<()>, n: nat)
      requires Valid() && addr + |buf| <= EEPROM_SIZE
      modifies this`mem, this`sent
      ensures Valid() && n <= |buf| && mem == WriteSimple(old(mem), addr, buf[..n])
      ensures r.Ok? ==> n == |buf| || (addr + n) % EEPROM_PAGE == 0
      ensures r.Err? ==> r == Err(I2cError) && n < |buf|
      ensures sent >= old(sent) && (r.Ok? <==> Acked(old(sent)))
    {
      r, n := Ok(()), 0;
      while (addr + n) % EEPROM_PAGE != 0 && n < |buf|
        invariant n <= |buf| && r.Ok? && sent >= old(sent) && Acked(old(sent))
        invariant Valid() && mem == WriteSimple(old(mem), addr, buf[..n])
        decreases |buf| - n
      {
        SimpleInTurn(old(mem), addr, buf[..n], [buf[n]]);
        assert buf[..n] + [buf[n]] == buf[..n + 1];
        r := WriteByte(addr + n, buf[n]);
        if r.Err? { return; }
        n := n + 1;
      }
    }

    /** The aligned rest, in pages.  `n` bytes are already written. */
    method WritePages(addr: nat, buf: seq<Byte>, n: nat, ghost was: seq<Byte>) returns (r: Result<()>, ghost done: nat)
      requires Valid() && addr + |buf| <= EEPROM_SIZE && n <= |buf|
      requires n == |buf| || (addr + n) % EEPROM_PAGE == 0
      requires |was| == EEPROM_SIZE && mem == WriteSimple(was, addr, buf[..n])
      modifies this`mem, this`sent
      ensures Valid() && done <= |buf| && mem == WriteSimple(was, addr, buf[..done])
      ensures r == if done == |buf| then Ok(()) else Err(I2cError)
      ensures sent >= old(sent) && (r.Ok? <==> Acked(old(sent)))
    {
      r, done := Ok(()), n;
      var pos := n;
      while pos < |buf|
        invariant pos == done <= |buf| && r == Ok(()) && sent >= old(sent) && Acked(old(sent))
        invariant pos == |buf| || (addr + pos) % EEPROM_PAGE == 0
        invariant Valid() && mem == WriteSimple(was, addr, buf[..pos])
        decreases |buf| - pos
      {
        var len := if |buf| - pos < EEPROM_PAGE then |buf| - pos else EEPROM_PAGE;
        var chunk := buf[pos..pos + len];
        SimpleInTurn(was, addr, buf[..pos], chunk);
        assert buf[..pos] + chunk == buf[..pos + len];
        r := WritePage(addr + pos, chunk);
        if r.Err? { return; }
        pos := pos + len;
        done := pos;
      }
    }

    /** The fast writer.  An accepted call stores a prefix of the buffer as the simple
        writer would, and all of it exactly when it succeeds. */
    method WriteBuffer(addr: nat, buf: seq<Byte>) returns (r: Result<()>, ghost done: nat)
      requires Valid()
      modifies this`mem, this`sent
      ensures Valid()
      ensures
        if addr >= EEPROM_SIZE then r == Err(InvalidAddress(addr)) && mem == old(mem)
        else if |buf| > U16_MAX then r == Err(InvalidObjectSize(|buf|)) && mem == old(mem)
        else if addr + |buf| > EEPROM_SIZE then
          r == Err(InvalidEndAddress(if addr + |buf| > U16_MAX then U16_MAX else addr + |buf|)) && mem == old(mem)
        else
          && done <= |buf| && mem == WriteSimple(old(mem), addr, buf[..done])
          && r == (if done == |buf| then Ok(()) else Err(I2cError))
          && sent >= old(sent) && (r.Ok? <==> Acked(old(sent)))
    {
      done := 0;
      if addr >= EEPROM_SIZE { return Err(InvalidAddress(addr)), 0; }
      if |buf| > U16_MAX { return Err(InvalidObjectSize(|buf|)), 0; }
      var end := if addr + |buf| > U16_MAX then U16_MAX else addr + |buf|;
      if end > EEPROM_SIZE { return Err(InvalidEndAddress(end)), 0; }
      ghost var was := mem;
      var n;
      r, n := WriteHead(addr, buf);
      done := n;
      if r.Err? { return; }
      r, done := WritePages(addr, buf, n, was);
    }

    /** `acked` says whether the bus carries the transfer out. */
    method ReadInto(addr: nat, len: nat, acked: bool) returns (r: Result<seq<Byte>>)
      requires Valid()
      ensures
        if addr >= EEPROM_SIZE || len >= U16_MAX then r == Err(InvalidAddress(addr))
        else if addr + len > EEPROM_SIZE then
          r == Err(InvalidEndAddress(if addr + len > U16_MAX then U16_MAX else addr + len))
        else r == if acked then Ok(mem[addr..addr + len]) else Err(I2cError)
    {
      if addr >= EEPROM_SIZE || len >= U16_MAX { return Err(InvalidAddress(addr)); }
      var end := if addr + len > U16_MAX then U16_MAX else addr + len;
      if end > EEPROM_SIZE { return Err(InvalidEndAddress(end)); }
      var from := Handle(addr) % 4 * 256 + addr % 256;
      r := if acked then Ok(mem[from..from + len]) else Err(I2cError);
    }

    /** A buffer that was written and is read back from the same place is unchanged, unless
        the bus fails. */
    method RoundTrip(addr: nat, buf: seq<Byte>, acked: bool) returns (r: Result<seq<Byte>>)
      requires Valid() && addr < EEPROM_SIZE && addr + |buf| <= EEPROM_SIZE
      modifies this`mem, this`sent
      ensures Valid() && (r.Ok? ==> r.value == buf && mem == old(mem)[..addr] + buf + old(mem)[addr + |buf|..])
      ensures r.Ok? <==> Acked(old(sent)) && acked
    {
      ghost var was := mem;
      var w, done := WriteBuffer(addr, buf);
      if w.Err? { return Err(w.error); }
      assert buf[..done] == buf;
      WriteThenRead(was, addr, buf);
      SimpleIsSplice(was, addr, buf);
      r := ReadInto(addr, |buf|, acked);
    }
  }
}
