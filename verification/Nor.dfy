/** NOR flash as seen through the QSPI driver: programming a page can only clear
    bits and wraps inside its 256-byte page, erasing a sector sets every bit. */
module Nor {
  type Byte = x: nat | x < 256

  const PAGE_SIZE: nat := 256
  const SECTOR_SIZE: nat := 65536
  const BLANK: Byte := 0xFF

  // ----- Bits of a byte -----

  function Pow2(k: nat): (p: nat)
    ensures p > 0
  {
    if k == 0 then 1 else 2 * Pow2(k - 1)
  }

  predicate Bit(x: nat, i: nat) {
    if i == 0 then x % 2 == 1 else Bit(x / 2, i - 1)
  }

  function AndBits(a: nat, b: nat, k: nat): (r: nat)
    ensures r <= a && r <= b
  {
    if k == 0 then 0
    else 2 * AndBits(a / 2, b / 2, k - 1) + (if a % 2 == 1 && b % 2 == 1 then 1 else 0)
  }

  function And(a: Byte, b: Byte): Byte { AndBits(a, b, 8) }

  /** `AndBits` is the bitwise conjunction. */
  lemma {:induction false} AndBitsIsConjunction(a: nat, b: nat, k: nat, i: nat)
    requires i < k
    ensures Bit(AndBits(a, b, k), i) <==> Bit(a, i) && Bit(b, i)
    decreases k
  {
    var rest := AndBits(a / 2, b / 2, k - 1);
    assert AndBits(a, b, k) / 2 == rest;
    if i > 0 { AndBitsIsConjunction(a / 2, b / 2, k - 1, i - 1); }
  }

  lemma {:induction false} AndOnes(b: nat, k: nat)
    requires b < Pow2(k)
    ensures AndBits(Pow2(k) - 1, b, k) == b
  {
    if k > 0 { AndOnes(b / 2, k - 1); }
  }

  /** A blank cell takes whatever is programmed into it. */
  lemma AndBlank(b: Byte)
    ensures And(BLANK, b) == b
  {
    assert Pow2(4) == 16 && Pow2(8) == 16 * Pow2(4);
    AndOnes(b, 8);
  }

  lemma {:induction false} SameBits(x: nat, y: nat, k: nat)
    requires x < Pow2(k) && y < Pow2(k)
    requires forall i :: 0 <= i < k ==> Bit(x, i) == Bit(y, i)
    ensures x == y
  {
    if k > 0 {
      assert Bit(x, 0) == Bit(y, 0);
      forall i | 0 <= i < k - 1 ensures Bit(x / 2, i) == Bit(y / 2, i) {
        assert Bit(x, i + 1) == Bit(y, i + 1);
      }
      SameBits(x / 2, y / 2, k - 1);
    }
  }

  lemma JoinSlices(m: seq<Byte>, a: nat, b: nat, c: nat)
    requires a <= b <= c <= |m|
    ensures m[a..b] + m[b..c] == m[a..c]
  {}

  // ----- Flash commands -----

  /** Which byte of a page-program payload lands on address `i` of the page. */
  function Lane(addr: nat, i: nat): (k: nat)
    ensures k < PAGE_SIZE
  {
    (i % PAGE_SIZE + PAGE_SIZE - addr % PAGE_SIZE) % PAGE_SIZE
  }

  predicate Hit(addr: nat, len: nat, i: nat) {
    i / PAGE_SIZE == addr / PAGE_SIZE && Lane(addr, i) < len
  }

  function Program(mem: seq<Byte>, addr: nat, data: seq<Byte>): (r: seq<Byte>)
    requires |data| <= PAGE_SIZE
    ensures |r| == |mem|
  {
    seq(|mem|, i requires 0 <= i < |mem| =>
      if Hit(addr, |data|, i) then And(mem[i], data[Lane(addr, i)]) else mem[i])
  }

  function Erase(mem: seq<Byte>, addr: nat): (r: seq<Byte>)
    ensures |r| == |mem|
  {
    seq(|mem|, i requires 0 <= i < |mem| =>
      if i / SECTOR_SIZE == addr / SECTOR_SIZE then BLANK else mem[i])
  }

  /** A program that stays inside its page touches exactly the addressed bytes. */
  lemma ProgramInPage(mem: seq<Byte>, addr: nat, data: seq<Byte>)
    requires addr % PAGE_SIZE + |data| <= PAGE_SIZE
    requires addr + |data| <= |mem|
    ensures var r := Program(mem, addr, data);
      forall i :: 0 <= i < |mem| ==>
        r[i] == if addr <= i < addr + |data| then And(mem[i], data[i - addr]) else mem[i]
  {
    forall i | 0 <= i < |mem|
      ensures Hit(addr, |data|, i) <==> addr <= i < addr + |data|
      ensures addr <= i < addr + |data| ==> Lane(addr, i) == i - addr
    {
      assert addr == addr / PAGE_SIZE * PAGE_SIZE + addr % PAGE_SIZE;
      assert i == i / PAGE_SIZE * PAGE_SIZE + i % PAGE_SIZE;
    }
  }

  predicate Blank(mem: seq<Byte>, lo: nat, hi: nat) {
    forall i :: lo <= i < hi && i < |mem| ==> mem[i] == BLANK
  }

  /** Programming blank cells deposits the payload itself. */
  lemma ProgramBlank(mem: seq<Byte>, addr: nat, data: seq<Byte>)
    requires addr % PAGE_SIZE + |data| <= PAGE_SIZE
    requires addr + |data| <= |mem|
    requires Blank(mem, addr, addr + |data|)
    ensures Program(mem, addr, data) == mem[..addr] + data + mem[addr + |data|..]
  {
    ProgramInPage(mem, addr, data);
    forall i | addr <= i < addr + |data| ensures Program(mem, addr, data)[i] == data[i - addr] {
      AndBlank(data[i - addr]);
    }
  }

  /** Programming never sets a bit. */
  lemma ProgramOnlyClears(mem: seq<Byte>, addr: nat, data: seq<Byte>, i: nat, b: nat)
    requires |data| <= PAGE_SIZE && i < |mem| && b < 8
    ensures Bit(Program(mem, addr, data)[i], b) ==> Bit(mem[i], b)
  {
    if Hit(addr, |data|, i) { AndBitsIsConjunction(mem[i], data[Lane(addr, i)], 8, b); }
  }

  /** A flash operation cut short by power loss: a bit that the whole operation
      would not have changed keeps its value, any other bit may hold either one. */
  ghost predicate Torn(before: seq<Byte>, after: seq<Byte>, r: seq<Byte>) {
    && |before| == |after| == |r|
    && forall i, b :: 0 <= i < |r| && 0 <= b < 8 ==>
         Bit(r[i], b) == Bit(before[i], b) || Bit(r[i], b) == Bit(after[i], b)
  }

  lemma TornKeepsCommonBytes(before: seq<Byte>, after: seq<Byte>, r: seq<Byte>, i: nat)
    requires Torn(before, after, r) && i < |r| && before[i] == after[i]
    ensures r[i] == before[i]
  {
    assert Pow2(4) == 16 && Pow2(8) == 16 * Pow2(4);
    SameBits(r[i], before[i], 8);
  }
}
