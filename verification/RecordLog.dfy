/** The two-chip persistent record log of the host flash server, one level above
    bytes: each chip is a row of record slots, and every server operation is a
    list of flash operations that a power cut may stop, or tear, anywhere. */
module RecordLog {
  import opened Wrappers

  datatype DevSelect = Flash0 | Flash1 {
    function Other(): DevSelect { if Flash0? then Flash1 else Flash0 }
  }

  const MAX_COUNTER: nat := 0xFFFF_FFFF_FFFF_FFFF
  const SLOTS: nat := 512

  datatype Record = Record(counter: nat, dev: DevSelect)

  /** `Junk` is a slot that is neither blank nor a valid record. */
  datatype Slot = Erased | Junk | Live(rec: Record)

  type Chip = seq<Slot>

  datatype Flash = Flash(c0: Chip, c1: Chip) {
    function At(d: DevSelect): Chip { if d.Flash0? then c0 else c1 }
    function With(d: DevSelect, chip: Chip): Flash {
      if d.Flash0? then Flash(chip, c1) else Flash(c0, chip)
    }
    ghost predicate WellSized() { |c0| == SLOTS && |c1| == SLOTS }
    ghost predicate Holds(r: Record) { Live(r) in c0 || Live(r) in c1 }
  }

  // ----- Scanning one chip -----

  function Newer(best: Option<Record>, s: Slot): Option<Record> {
    if s.Live? && (best.None? || best.value.counter < s.rec.counter) then Some(s.rec) else best
  }

  function Newest(chip: Chip): Option<Record> {
    if chip == [] then None else Newer(Newest(chip[..|chip| - 1]), chip[|chip| - 1])
  }

  function FirstErased(chip: Chip): (r: Option<nat>)
    ensures r.Some? ==> r.value < |chip| && chip[r.value] == Erased
    ensures r.Some? ==> forall i :: 0 <= i < r.value ==> chip[i] != Erased
    ensures r.None? ==> Erased !in chip
  {
    if chip == [] then None else
    var front := FirstErased(chip[..|chip| - 1]);
    if front.Some? then front
    else if chip[|chip| - 1] == Erased then Some(|chip| - 1) else None
  }

  lemma {:induction false} NewestIsMaximum(chip: Chip)
    ensures Newest(chip).None? <==> forall r :: Live(r) !in chip
    ensures Newest(chip).Some? ==> Live(Newest(chip).value) in chip
    ensures Newest(chip).Some? ==>
      forall r :: Live(r) in chip ==> r.counter <= Newest(chip).value.counter
  {
    if chip != [] {
      var front, last := chip[..|chip| - 1], chip[|chip| - 1];
      NewestIsMaximum(front);
      assert chip == front + [last];
      forall r ensures Live(r) in chip <==> Live(r) in front || Live(r) == last {}
      if last.Live? { assert Live(last.rec) in chip; }
    }
  }

  // ----- The current value: the record with the highest counter anywhere -----

  /** What `get_raw_persistent_data` picks; a tie goes to the active chip. */
  function Best(f: Flash, active: DevSelect): Option<Record> {
    var a, b := Newest(f.At(active.Other())), Newest(f.At(active));
    if a.Some? && b.Some? then (if a.value.counter > b.value.counter then a else b)
    else if a.Some? then a else b
  }

  ghost predicate Unique(f: Flash) {
    forall q, r :: f.Holds(q) && f.Holds(r) && q.counter == r.counter ==> q == r
  }

  /** `o` is the one record newer than every other valid record on either chip. */
  ghost predicate Top(f: Flash, o: Option<Record>) {
    match o
    case None => forall r :: !f.Holds(r)
    case Some(t) => f.Holds(t) && forall r :: f.Holds(r) ==> r == t || r.counter < t.counter
  }

  lemma BestIsMaximum(f: Flash, active: DevSelect)
    ensures Best(f, active).None? <==> forall r :: !f.Holds(r)
    ensures Best(f, active).Some? ==> f.Holds(Best(f, active).value)
    ensures Best(f, active).Some? ==>
      forall r :: f.Holds(r) ==> r.counter <= Best(f, active).value.counter
  {
    NewestIsMaximum(f.c0);
    NewestIsMaximum(f.c1);
    if Best(f, active).Some? {
      assert f.Holds(Best(f, active).value);
    } else {
      forall r ensures !f.Holds(r) {}
    }
  }

  lemma BestIsTop(f: Flash, active: DevSelect, o: Option<Record>)
    requires Unique(f)
    ensures Top(f, o) <==> o == Best(f, active)
  {
    BestIsMaximum(f, active);
  }

  // ----- Flash operations -----

  datatype Op = EraseSector(d: DevSelect) | ProgramSlot(d: DevSelect, slot: nat, rec: Record)

  function Blanked(n: nat): (c: Chip)
    ensures |c| == n && forall i :: 0 <= i < n ==> c[i] == Erased
  {
    seq(n, _ => Erased)
  }

  function Apply(f: Flash, op: Op): Flash {
    match op
    case EraseSector(d) => f.With(d, Blanked(|f.At(d)|))
    case ProgramSlot(d, i, r) =>
      if i < |f.At(d)| then f.With(d, f.At(d)[i := Live(r)]) else f
  }

  function ApplyAll(f: Flash, ops: seq<Op>): Flash
    decreases |ops|
  {
    if ops == [] then f else ApplyAll(Apply(f, ops[0]), ops[1..])
  }

  /** What one flash operation may leave behind when power fails during it.  With
      `atomic` an erase either has not started or has finished. */
  ghost predicate Torn(f: Flash, op: Op, f': Flash, atomic: bool) {
    && f'.At(op.d.Other()) == f.At(op.d.Other())
    && var c, c' := f.At(op.d), f'.At(op.d);
    && |c'| == |c|
    && match op
       case EraseSector(_) =>
         if atomic then c' == c || c' == Blanked(|c|)
         else forall i :: 0 <= i < |c| ==> c'[i] in {c[i], Junk, Erased}
       case ProgramSlot(_, slot, r) =>
         forall i :: 0 <= i < |c| ==>
           if i == slot then c'[i] in {c[i], Junk, Live(r)} else c'[i] == c[i]
  }

  /** `f'` may be found on the chips after power failed while `ops` was running. */
  ghost predicate CutDuring(f: Flash, ops: seq<Op>, f': Flash, atomic: bool)
    decreases |ops|
  {
    || f' == f
    || (ops != [] && (Torn(f, ops[0], f', atomic) || CutDuring(Apply(f, ops[0]), ops[1..], f', atomic)))
  }

  // ----- The server's operations as operation lists -----

  /** `write_raw_persistent_data_to_addr`, given the slot the scan found. */
  function AppendOps(d: DevSelect, next: Option<nat>, r: Record): (ops: seq<Op>)
    ensures |ops| == if next.None? then 2 else 1
  {
    match next
    case Some(i) => [ProgramSlot(d, i, r)]
    case None => [EraseSector(d), ProgramSlot(d, 0, r)]
  }

  function AppendTo(f: Flash, d: DevSelect, r: Record): seq<Op> {
    AppendOps(d, FirstErased(f.At(d)), r)
  }

  /** `ensure_persistent_data_is_redundant`, given what the two scans found. */
  function RepairFrom(f: Flash, active: DevSelect, a: Option<Record>, b: Option<Record>): seq<Op> {
    if a.Some? && (b.None? || a.value.counter > b.value.counter) then AppendTo(f, active, a.value)
    else if b.Some? && (a.None? || a.value.counter < b.value.counter) then AppendTo(f, active.Other(), b.value)
    else []
  }

  function RepairOps(f: Flash, active: DevSelect): seq<Op> {
    RepairFrom(f, active, Newest(f.At(active.Other())), Newest(f.At(active)))
  }

  datatype Plan = Stored | Overflow | Steps(ops: seq<Op>, rec: Record)

  function LastCounter(a: Option<Record>, b: Option<Record>): nat {
    match (a, b)
    case (Some(x), Some(y)) => if x.counter > y.counter then x.counter else y.counter
    case (Some(x), None) => x.counter
    case (None, Some(y)) => y.counter
    case (None, None) => 0
  }

  datatype Decision = Keep | CounterFull | Put(rec: Record)

  /** Whether a write is needed, given the newest record of each chip. */
  function Decide(a: Option<Record>, b: Option<Record>, v: DevSelect): Decision {
    var last := LastCounter(a, b);
    if a == b && a == Some(Record(last, v)) then Keep
    else if last >= MAX_COUNTER then CounterFull
    else Put(Record(last + 1, v))
  }

  function PlanFor(d: Decision, ops: seq<Op>): Plan {
    match d case Keep => Stored case CounterFull => Overflow case Put(r) => Steps(ops, r)
  }

  /** What `write_persistent_data` does on a two-chip board. */
  function WritePlan(f: Flash, active: DevSelect, v: DevSelect): Plan {
    var d := Decide(Newest(f.At(active.Other())), Newest(f.At(active)), v);
    PlanFor(d, if d.Put? then AppendTo(f, active.Other(), d.rec) + AppendTo(f, active, d.rec) else [])
  }

  /** The same on a board with one chip. */
  function SinglePlan(f: Flash, v: DevSelect): Plan {
    var d := Decide(Newest(f.c0), Newest(f.c0), v);
    PlanFor(d, if d.Put? then AppendTo(f, Flash0, d.rec) else [])
  }

  // ----- What the plans mean -----

  /** Every chip is led by the same record, and it carries `v`. */
  predicate LedBy(f: Flash, v: DevSelect) {
    Newest(f.c0) == Newest(f.c1) && Newest(f.c0).Some? && Newest(f.c0).value.dev == v
  }

  /** Some record has used the last counter. */
  ghost predicate Exhausted(f: Flash) { exists q :: f.Holds(q) && q.counter >= MAX_COUNTER }

  /** `c` is one above the highest counter held, and 1 if no record is. */
  ghost predicate NextCounter(f: Flash, c: nat) {
    && (forall q :: f.Holds(q) ==> q.counter < c)
    && (c == 1 || exists q :: f.Holds(q) && q.counter + 1 == c)
  }

  ghost predicate Meant(f: Flash, v: DevSelect, p: Plan) {
    && (p.Stored? <==> LedBy(f, v))
    && (p.Overflow? <==> !LedBy(f, v) && Exhausted(f))
    && (p.Steps? ==> p.rec.dev == v && NextCounter(f, p.rec.counter))
  }

  lemma DecideMeans(f: Flash, active: DevSelect, v: DevSelect, ops: seq<Op>)
    ensures Meant(f, v, PlanFor(Decide(Newest(f.At(active.Other())), Newest(f.At(active)), v), ops))
  {
    NewestIsMaximum(f.c0);
    NewestIsMaximum(f.c1);
    BestIsMaximum(f, active);
    var best := Best(f, active);
    if best.Some? { assert f.Holds(best.value); }
  }

  /** A write is skipped exactly when every chip is already led by the requested value,
      refused exactly when it is needed and a record has used the last counter, and
      otherwise stores the value under the next counter. */
  lemma WritePlanMeans(f: Flash, active: DevSelect, v: DevSelect)
    ensures Meant(f, v, WritePlan(f, active, v))
  {
    var d := Decide(Newest(f.At(active.Other())), Newest(f.At(active)), v);
    DecideMeans(f, active, v, if d.Put? then AppendTo(f, active.Other(), d.rec) + AppendTo(f, active, d.rec) else []);
  }

  /** The same with one chip. */
  lemma SinglePlanMeans(f: Flash, v: DevSelect)
    ensures Meant(Flash(f.c0, f.c0), v, SinglePlan(f, v))
  {
    var d := Decide(Newest(f.c0), Newest(f.c0), v);
    DecideMeans(Flash(f.c0, f.c0), Flash0, v, if d.Put? then AppendTo(f, Flash0, d.rec) else []);
  }

  // ----- What an append can do to its chip, finished or cut -----

  ghost predicate Extends(c: Chip, r: Record, c': Chip) {
    |c'| == |c| && forall q :: Live(q) in c' ==> Live(q) in c || q == r
  }

  lemma BlankedHoldsNothing(n: nat, q: Record)
    ensures Live(q) !in Blanked(n)
  {}

  lemma ProgramExtends(f: Flash, d: DevSelect, i: nat, r: Record)
    ensures Extends(f.At(d), r, Apply(f, ProgramSlot(d, i, r)).At(d))
    ensures i < |f.At(d)| ==> Live(r) in Apply(f, ProgramSlot(d, i, r)).At(d)
  {
    var c, c' := f.At(d), Apply(f, ProgramSlot(d, i, r)).At(d);
    if i < |c| { assert c'[i] == Live(r); }
  }

  lemma TornExtends(f: Flash, op: Op, f': Flash, atomic: bool, r: Record)
    requires Torn(f, op, f', atomic) && (op.ProgramSlot? ==> op.rec == r)
    ensures Extends(f.At(op.d), r, f'.At(op.d))
  {
    var c, c' := f.At(op.d), f'.At(op.d);
    forall q | Live(q) in c' ensures Live(q) in c || q == r {
      var i :| 0 <= i < |c'| && c'[i] == Live(q);
      assert c[i] == Live(q) || q == r;
    }
  }

  /** Every state an interrupted append can leave: the other chip is untouched and
      this one holds nothing but old records and perhaps the new one. */
  lemma CutAppend(f: Flash, d: DevSelect, r: Record, f': Flash, atomic: bool)
    requires f.WellSized()
    requires CutDuring(f, AppendTo(f, d, r), f', atomic)
    ensures f'.At(d.Other()) == f.At(d.Other())
    ensures Extends(f.At(d), r, f'.At(d))
  {
    var ops := AppendTo(f, d, r);
    if f' == f {
    } else if Torn(f, ops[0], f', atomic) {
      TornExtends(f, ops[0], f', atomic, r);
    } else {
      var g := Apply(f, ops[0]);
      assert CutDuring(g, ops[1..], f', atomic);
      if |ops| == 1 {
        ProgramExtends(f, d, ops[0].slot, r);
      } else {
        var rest := ops[1..];
        assert rest == [ProgramSlot(d, 0, r)];
        if f' != g && !Torn(g, rest[0], f', atomic) {
          assert CutDuring(Apply(g, rest[0]), rest[1..], f', atomic) && rest[1..] == [];
          ProgramExtends(g, d, 0, r);
        } else if f' != g {
          TornExtends(g, rest[0], f', atomic, r);
        }
        forall q ensures Live(q) !in g.At(d) { BlankedHoldsNothing(|f.At(d)|, q); }
      }
    }
  }

  lemma DoneAppend(f: Flash, d: DevSelect, r: Record)
    requires f.WellSized()
    ensures var g := ApplyAll(f, AppendTo(f, d, r));
      && g.WellSized()
      && g.At(d.Other()) == f.At(d.Other())
      && Extends(f.At(d), r, g.At(d))
      && Live(r) in g.At(d)
  {
    var ops := AppendTo(f, d, r);
    var g := Apply(f, ops[0]);
    if |ops| == 1 {
      assert ops[1..] == [];
      ProgramExtends(f, d, ops[0].slot, r);
    } else {
      var rest := ops[1..];
      assert rest == [ProgramSlot(d, 0, r)] && rest[1..] == [];
      assert ApplyAll(f, ops) == ApplyAll(g, rest) == ApplyAll(Apply(g, rest[0]), rest[1..]);
      ProgramExtends(g, d, 0, r);
      forall q ensures Live(q) !in g.At(d) { BlankedHoldsNothing(|f.At(d)|, q); }
    }
  }

  lemma {:induction false} CutSequence(f: Flash, xs: seq<Op>, ys: seq<Op>, f': Flash, atomic: bool)
    requires CutDuring(f, xs + ys, f', atomic)
    ensures CutDuring(f, xs, f', atomic) || CutDuring(ApplyAll(f, xs), ys, f', atomic)
    decreases |xs|
  {
    if xs == [] {
      assert xs + ys == ys;
    } else if f' != f && !Torn(f, xs[0], f', atomic) {
      assert (xs + ys)[1..] == xs[1..] + ys;
      CutSequence(Apply(f, xs[0]), xs[1..], ys, f', atomic);
    }
  }

  lemma {:induction false} ApplySequence(f: Flash, xs: seq<Op>, ys: seq<Op>)
    ensures ApplyAll(f, xs + ys) == ApplyAll(ApplyAll(f, xs), ys)
    decreases |xs|
  {
    if xs == [] {
      assert xs + ys == ys;
    } else {
      assert (xs + ys)[1..] == xs[1..] + ys;
      ApplySequence(Apply(f, xs[0]), xs[1..], ys);
    }
  }

  lemma {:induction false} CompletionIsACut(f: Flash, ops: seq<Op>, atomic: bool)
    ensures CutDuring(f, ops, ApplyAll(f, ops), atomic)
    decreases |ops|
  {
    if ops != [] { CompletionIsACut(Apply(f, ops[0]), ops[1..], atomic); }
  }
}
