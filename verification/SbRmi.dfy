/** SB-RMI alert decoding: 32 registers of four alert bits become 128 thread bits. */
module SbRmi {
  import opened Wrappers

  type Result<T> = Wrappers.Result<T, ()>

  const BANK_SIZE: nat := 16

  function Mask(k: nat): (m: bv8)
    requires k < 8
    ensures m == 1 << k
  {
    match k
    case 0 => 0x01 case 1 => 0x02 case 2 => 0x04 case 3 => 0x08
    case 4 => 0x10 case 5 => 0x20 case 6 => 0x40 case _ => 0x80
  }

  predicate BitSet(x: bv8, k: nat)
    requires k < 8
  {
    x & Mask(k) != 0
  }

  lemma OrSetsOneBit(x: bv8, k: nat, j: nat)
    requires k < 8 && j < 8
    ensures BitSet(x | Mask(k), j) <==> j == k || BitSet(x, j)
  {
    assert j != k ==> Mask(k) & Mask(j) == 0;
    assert Mask(j) & Mask(j) != 0;
    assert (x | Mask(k)) & Mask(j) == (x & Mask(j)) | (Mask(k) & Mask(j));
  }

  /** The register that holds the alert of thread `t`, and its bit there. */
  function RegisterOf(t: nat): nat { (if t < 64 then 0x10 else 0x50) + t % 16 }
  function BitOf(t: nat): (b: nat)
    ensures b < 4
  {
    t % 64 / 16
  }

  type Registers = nat -> Result<bv8>

  function Read(regs: Registers, bank: nat, offs: nat): Result<bv8> {
    regs((if bank == 0 then 0x10 else 0x50) + offs)
  }

  /** Thread `t` is marked in the output. */
  predicate Marked(r: seq<bv8>, t: nat)
    requires |r| == 16 && t < 128
  {
    BitSet(r[t / 8], t % 8)
  }

  ghost predicate Alerting(regs: Registers, t: nat) {
    regs(RegisterOf(t)).Ok? && BitSet(regs(RegisterOf(t)).value, BitOf(t))
  }

  /** The thread whose alert is bit `bit` of register `offs` in bank `bank`. */
  function ThreadOf(bank: nat, offs: nat, bit: nat): (t: nat)
    requires bank < 2 && offs < 16 && bit < 4
    ensures t < 128 && BitOf(t) == bit && RegisterOf(t) == (if bank == 0 then 0x10 else 0x50) + offs
  {
    bank * 64 + bit * 16 + offs
  }

  /** The output byte and bit computed by the loop are those of that thread. */
  lemma OutputPosition(bank: nat, offs: nat, bit: nat)
    requires bank < 2 && offs < 16 && bit < 4
    ensures bank * 8 + 2 * bit + offs / 8 % 2 == ThreadOf(bank, offs, bit) / 8
    ensures offs % 8 == ThreadOf(bank, offs, bit) % 8
  {}

  /** Threads whose register has been decoded: whole registers before (`bank`, `offs`),
      and in that one the bits below `bit`. */
  predicate Decoded(t: nat, bank: nat, offs: nat, bit: nat) {
    || t / 64 < bank
    || (t / 64 == bank && (t % 16 < offs || (t % 16 == offs && BitOf(t) < bit)))
  }

  lemma MarkOne(r: seq<bv8>, t: nat, u: nat)
    requires |r| == 16 && t < 128 && u < 128
    ensures Marked(r[t / 8 := r[t / 8] | Mask(t % 8)], u) <==> u == t || Marked(r, u)
  {
    if u / 8 == t / 8 { OrSetsOneBit(r[t / 8], t % 8, u % 8); }
  }

  lemma DecodedNext(u: nat, bank: nat, offs: nat, bit: nat)
    requires u < 128 && bank < 2 && offs < 16 && bit < 4
    ensures Decoded(u, bank, offs, bit + 1) <==> Decoded(u, bank, offs, bit) || u == ThreadOf(bank, offs, bit)
  {}

  /** The four bits of one register. */
  method DecodeRegister(regs: Registers, alert: bv8, bank: nat, offs: nat, r0: seq<bv8>) returns (r: seq<bv8>)
    requires bank < 2 && offs < 16 && |r0| == 16
    requires Read(regs, bank, offs) == Ok(alert)
    requires forall u :: 0 <= u < 128 ==> (Marked(r0, u) <==> Decoded(u, bank, offs, 0) && Alerting(regs, u))
    ensures |r| == 16
    ensures forall u :: 0 <= u < 128 ==> (Marked(r, u) <==> Decoded(u, bank, offs, 4) && Alerting(regs, u))
  {
    r := r0;
    for bit := 0 to 4
      invariant |r| == 16
      invariant forall u :: 0 <= u < 128 ==> (Marked(r, u) <==> Decoded(u, bank, offs, bit) && Alerting(regs, u))
    {
      ghost var t := ThreadOf(bank, offs, bit);
      ghost var was := r;
      OutputPosition(bank, offs, bit);
      if BitSet(alert, bit) {
        var byte := bank * 8 + 2 * bit + offs / 8 % 2;
        r := r[byte := r[byte] | Mask(offs % 8)];
      }
      forall u | 0 <= u < 128
        ensures Marked(r, u) <==> Decoded(u, bank, offs, bit + 1) && Alerting(regs, u)
      {
        DecodedNext(u, bank, offs, bit);
        MarkOne(was, t, u);
      }
    }
  }

  /** The decoding loops. */
  method Decode(regs: Registers) returns (r: Result<seq<bv8>>)
    ensures r.Ok? <==> forall b, o :: 0 <= b < 2 && 0 <= o < BANK_SIZE ==> Read(regs, b, o).Ok?
    ensures r.Ok? ==> |r.value| == 16
    ensures r.Ok? ==> forall t :: 0 <= t < 128 ==> (Marked(r.value, t) <==> Alerting(regs, t))
  {
    var rval: seq<bv8> := seq(16, _ => 0);
    for bank := 0 to 2
      invariant |rval| == 16
      invariant forall b, o :: 0 <= b < bank && 0 <= o < BANK_SIZE ==> Read(regs, b, o).Ok?
      invariant forall u :: 0 <= u < 128 ==> (Marked(rval, u) <==> Decoded(u, bank, 0, 0) && Alerting(regs, u))
    {
      for offs := 0 to BANK_SIZE
        invariant |rval| == 16
        invariant forall o :: 0 <= o < offs ==> Read(regs, bank, o).Ok?
        invariant forall u :: 0 <= u < 128 ==> (Marked(rval, u) <==> Decoded(u, bank, offs, 0) && Alerting(regs, u))
      {
        var alert := Read(regs, bank, offs);
        if alert.Err? { return Err(()); }
        rval := DecodeRegister(regs, alert.value, bank, offs, rval);
        assert forall u :: 0 <= u < 128 ==> (Decoded(u, bank, offs, 4) <==> Decoded(u, bank, offs + 1, 0));
      }
      assert forall u :: 0 <= u < 128 ==> (Decoded(u, bank, 16, 0) <==> Decoded(u, bank + 1, 0, 0));
    }
    r := Ok(rval);
  }

  // ----- The same in register addresses and shifts -----

  lemma BitIsShift(x: bv8, k: nat)
    requires k < 8
    ensures BitSet(x, k) <==> (x >> k) & 1 == 1
  {
    if k == 0 { assert x & 0x01 != 0 <==> (x >> 0) & 1 == 1; }
    else if k == 1 { assert x & 0x02 != 0 <==> (x >> 1) & 1 == 1; }
    else if k == 2 { assert x & 0x04 != 0 <==> (x >> 2) & 1 == 1; }
    else if k == 3 { assert x & 0x08 != 0 <==> (x >> 3) & 1 == 1; }
    else if k == 4 { assert x & 0x10 != 0 <==> (x >> 4) & 1 == 1; }
    else if k == 5 { assert x & 0x20 != 0 <==> (x >> 5) & 1 == 1; }
    else if k == 6 { assert x & 0x40 != 0 <==> (x >> 6) & 1 == 1; }
    else { assert x & 0x80 != 0 <==> (x >> 7) & 1 == 1; }
  }

  /** The registers at 0x10 to 0x1F and at 0x50 to 0x5F. */
  predicate IsAlertRegister(a: nat) { 0x10 <= a <= 0x1F || 0x50 <= a <= 0x5F }

  lemma AlertRegisters(regs: Registers)
    ensures (forall b, o :: 0 <= b < 2 && 0 <= o < BANK_SIZE ==> Read(regs, b, o).Ok?) <==>
      forall a: nat :: IsAlertRegister(a) ==> regs(a).Ok?
  {
    if forall b, o :: 0 <= b < 2 && 0 <= o < BANK_SIZE ==> Read(regs, b, o).Ok? {
      forall a: nat | IsAlertRegister(a) ensures regs(a).Ok? {
        assert Read(regs, if a < 0x50 then 0 else 1, a % 16).Ok?;
      }
    }
    if forall a: nat :: IsAlertRegister(a) ==> regs(a).Ok? {
      forall b, o | 0 <= b < 2 && 0 <= o < BANK_SIZE ensures Read(regs, b, o).Ok? {
        assert IsAlertRegister((if b == 0 then 0x10 else 0x50) + o);
      }
    }
  }

  /** `alert`: it succeeds exactly when all 32 registers can be read, and then bit `t % 8`
      of byte `t / 8` is set exactly when bit `t % 64 / 16` of register `t % 16` of bank
      `t / 64` is. */
  method Alert(regs: Registers) returns (r: Result<seq<bv8>>)
    ensures r.Ok? <==> forall a: nat :: IsAlertRegister(a) ==> regs(a).Ok?
    ensures r.Ok? ==> |r.value| == 16
    ensures r.Ok? ==> forall t :: 0 <= t < 128 ==>
      regs((if t / 64 == 0 then 0x10 else 0x50) + t % 16).Ok?
      && ((r.value[t / 8] >> (t % 8)) & 1 == 1 <==>
          (regs((if t / 64 == 0 then 0x10 else 0x50) + t % 16).value >> (t % 64 / 16)) & 1 == 1)
  {
    r := Decode(regs);
    AlertRegisters(regs);
    if r.Ok? {
      forall t | 0 <= t < 128
        ensures regs((if t / 64 == 0 then 0x10 else 0x50) + t % 16).Ok?
          && ((r.value[t / 8] >> (t % 8)) & 1 == 1 <==>
              (regs((if t / 64 == 0 then 0x10 else 0x50) + t % 16).value >> (t % 64 / 16)) & 1 == 1)
      {
        AlertBit(regs, r.value, t);
      }
    }
  }

  lemma AlertBit(regs: Registers, r: seq<bv8>, t: nat)
    requires |r| == 16 && t < 128 && (forall a: nat :: IsAlertRegister(a) ==> regs(a).Ok?)
    requires Marked(r, t) <==> Alerting(regs, t)
    ensures var a := (if t / 64 == 0 then 0x10 else 0x50) + t % 16;
      regs(a).Ok? && ((r[t / 8] >> (t % 8)) & 1 == 1 <==> (regs(a).value >> (t % 64 / 16)) & 1 == 1)
  {
    var a := (if t / 64 == 0 then 0x10 else 0x50) + t % 16;
    assert IsAlertRegister(a) && RegisterOf(t) == a;
    BitIsShift(r[t / 8], t % 8);
    BitIsShift(regs(a).value, t % 64 / 16);
  }
}
