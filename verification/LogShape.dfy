/** The shape of the record log: used slots, then blank ones, with counters rising.  It
    holds over every run in which erases are atomic, and this module says exactly when a
    torn erase can break it. */
module LogShape {
  import opened RecordLog
  import opened DurableRegister
  import opened Wrappers

  /** Used slots, then blank slots, with counters rising along the used ones. */
  ghost predicate LogShaped(c: Chip) {
    && (forall i, j :: 0 <= i < j < |c| && c[i] == Erased ==> c[j] == Erased)
    && (forall i, j :: 0 <= i < j < |c| && c[i].Live? && c[j].Live? ==> c[i].rec.counter < c[j].rec.counter)
  }

  /** In a shaped log the append point splits used from blank, and the newest record
      is the last valid one. */
  lemma ShapeMeaning(c: Chip)
    requires LogShaped(c)
    ensures FirstErased(c).Some? ==>
      forall i :: 0 <= i < |c| ==> (c[i] == Erased <==> FirstErased(c).value <= i)
    ensures forall i :: 0 <= i < |c| && c[i].Live? && (forall j :: i < j < |c| ==> !c[j].Live?) ==>
      Newest(c) == Some(c[i].rec)
  {
    forall i | 0 <= i < |c| && c[i].Live? && (forall j :: i < j < |c| ==> !c[j].Live?)
      ensures Newest(c) == Some(c[i].rec)
    {
      forall q | Live(q) in c ensures q == c[i].rec || q.counter < c[i].rec.counter {
        var k :| 0 <= k < |c| && c[k] == Live(q);
      }
      NewestIs(c, c[i].rec);
    }
  }

  lemma ShapedAfterProgram(c: Chip, i: nat, s: Slot, r: Record)
    requires LogShaped(c) && FirstErased(c) == Some(i)
    requires s in {Erased, Junk, Live(r)}
    requires forall q :: Live(q) in c ==> q.counter < r.counter
    ensures LogShaped(c[i := s])
  {
    var c' := c[i := s];
    forall j, k | 0 <= j < k < |c| && c'[j].Live? && c'[k].Live?
      ensures c'[j].rec.counter < c'[k].rec.counter
    {
      assert c[j] in c && c[k] in c;
    }
  }

  lemma ShapedCutAppend(f: Flash, d: DevSelect, r: Record, f': Flash)
    requires f.WellSized() && LogShaped(f.At(d))
    requires forall q :: Live(q) in f.At(d) ==> q.counter < r.counter
    requires CutDuring(f, AppendTo(f, d, r), f', true)
    ensures LogShaped(f'.At(d))
  {
    var ops := AppendTo(f, d, r);
    var c, c' := f.At(d), f'.At(d);
    if |ops| == 1 {
      assert ops[1..] == [];
      var i := ops[0].slot;
      ShapedAfterProgram(c, i, c'[i], r);
      assert c' == c[i := c'[i]];
    } else {
      var g, rest := Apply(f, ops[0]), ops[1..];
      assert rest == [ProgramSlot(d, 0, r)] && rest[1..] == [];
      if f' != f && !Torn(f, ops[0], f', true) && f' != g {
        assert Torn(g, rest[0], f', true) || CutDuring(Apply(g, rest[0]), rest[1..], f', true);
        assert c'[0] in {Erased, Junk, Live(r)} && forall i :: 0 < i < |c'| ==> c'[i] == Erased;
      }
    }
  }

  ghost predicate Shaped(f: Flash) { LogShaped(f.c0) && LogShaped(f.c1) }

  lemma ShapedCutRepair(f: Flash, active: DevSelect, f': Flash)
    requires f.WellSized() && Unique(f) && Shaped(f)
    requires CutDuring(f, RepairOps(f, active), f', true)
    ensures Shaped(f')
  {
    var d, r := RepairShape(f, active);
    if RepairOps(f, active) != [] {
      ShapedCutAppend(f, d, r, f');
      CutAppend(f, d, r, f', true);
    }
  }

  lemma ShapedCutWrite(f: Flash, active: DevSelect, v: DevSelect, f': Flash)
    requires f.WellSized() && Shaped(f)
    requires WritePlan(f, active, v).Steps?
    requires CutDuring(f, WritePlan(f, active, v).ops, f', true)
    ensures Shaped(f')
  {
    var r := WritePlan(f, active, v).rec;
    var a := active.Other();
    var opsA := AppendTo(f, a, r);
    var g := ApplyAll(f, opsA);
    PlanIsNewer(f, active, v);
    assert forall q :: Live(q) in f.c0 || Live(q) in f.c1 ==> f.Holds(q);
    DoneAppend(f, a, r);
    CompletionIsACut(f, opsA, true);
    ShapedCutAppend(f, a, r, g);
    CutSequence(f, opsA, AppendTo(f, active, r), f', true);
    if CutDuring(f, opsA, f', true) {
      CutAppend(f, a, r, f', true);
      ShapedCutAppend(f, a, r, f');
    } else {
      assert FirstErased(g.At(active)) == FirstErased(f.At(active));
      CutAppend(g, active, r, f', true);
      ShapedCutAppend(g, active, r, f');
    }
  }

  lemma StepKeepsShape(s: State, e: Event, s': State)
    requires Inv(s) && Shaped(s.flash) && Next(s, e, s', true)
    ensures Shaped(s'.flash)
  {
    match e
    case Boot(_) =>
      CompletionIsACut(s.flash, RepairOps(s.flash, Flash0), true);
      ShapedCutRepair(s.flash, Flash0, s'.flash);
    case BootCut => ShapedCutRepair(s.flash, Flash0, s'.flash);
    case WriteOk(v) =>
      var p := WritePlan(s.flash, s.active, v);
      if p.Steps? {
        CompletionIsACut(s.flash, p.ops, true);
        ShapedCutWrite(s.flash, s.active, v, s'.flash);
      }
    case WriteCutShort(v) =>
      if WritePlan(s.flash, s.active, v).Steps? {
        ShapedCutWrite(s.flash, s.active, v, s'.flash);
      }
    case _ =>
  }

  /** Every state of every run with atomic erases keeps both logs shaped. */
  lemma {:induction false} RunKeepsShape(ss: seq<State>, es: seq<Event>, n: nat)
    requires Run(ss, es, true) && Initial(ss[0]) && Shaped(ss[0].flash) && n <= |es|
    ensures Shaped(ss[n].flash)
  {
    if n > 0 {
      RunKeepsShape(ss, es, n - 1);
      RunKeepsInv(ss, es, true, n - 1);
      StepKeepsShape(ss[n - 1], es[n - 1], ss[n]);
    }
  }

  // ----- Torn erases -----

  /** Without an erase there is nothing for a cut to tear but slots being programmed. */
  lemma {:induction false} CutWithoutErase(f: Flash, ops: seq<Op>, f': Flash)
    requires CutDuring(f, ops, f', false) && forall op :: op in ops ==> op.ProgramSlot?
    ensures CutDuring(f, ops, f', true)
    decreases |ops|
  {
    if f' == f {
    } else if Torn(f, ops[0], f', false) {
      assert ops[0] in ops;
      assert Torn(f, ops[0], f', true);
    } else {
      CutWithoutErase(Apply(f, ops[0]), ops[1..], f');
    }
  }

  lemma {:induction false} CutLater(f: Flash, xs: seq<Op>, ys: seq<Op>, f': Flash, atomic: bool)
    requires CutDuring(ApplyAll(f, xs), ys, f', atomic)
    ensures CutDuring(f, xs + ys, f', atomic)
    decreases |xs|
  {
    if xs == [] {
      assert xs + ys == ys;
    } else {
      assert (xs + ys)[1..] == xs[1..] + ys;
      CutLater(Apply(f, xs[0]), xs[1..], ys, f', atomic);
    }
  }

  /** Every power cut during `ops`, torn erases included, leaves the log shaped. */
  ghost predicate CutsKeepShape(f: Flash, ops: seq<Op>) {
    forall f' :: CutDuring(f, ops, f', false) ==> Shaped(f')
  }

  /** An append to a full chip can be torn so that a blank slot precedes used ones. */
  lemma TornAppend(f: Flash, d: DevSelect, r: Record) returns (f': Flash)
    requires f.WellSized() && FirstErased(f.At(d)).None?
    ensures CutDuring(f, AppendTo(f, d, r), f', false) && !Shaped(f')
  {
    var c := f.At(d);
    f' := f.With(d, c[0 := Erased]);
    assert c[1] in c;
    assert f'.At(d)[0] == Erased && f'.At(d)[1] != Erased;
    assert Torn(f, EraseSector(d), f', false);
  }

  /** A write keeps the shape through every power cut, torn erases included, exactly when
      neither chip is full. */
  lemma WriteShapeSafeIff(f: Flash, active: DevSelect, v: DevSelect)
    requires f.WellSized() && Shaped(f) && WritePlan(f, active, v).Steps?
    ensures CutsKeepShape(f, WritePlan(f, active, v).ops) <==> FirstErased(f.c0).Some? && FirstErased(f.c1).Some?
  {
    var r, a := WritePlan(f, active, v).rec, active.Other();
    var opsA, opsB := AppendTo(f, a, r), AppendTo(f, active, r);
    if FirstErased(f.c0).Some? && FirstErased(f.c1).Some? {
      forall f' | CutDuring(f, opsA + opsB, f', false) ensures Shaped(f') {
        CutWithoutErase(f, opsA + opsB, f');
        ShapedCutWrite(f, active, v, f');
      }
    } else if FirstErased(f.At(a)).None? {
      var f' := TornAppend(f, a, r);
      CutEarlier(f, opsA, opsB, f', false);
    } else {
      var g := ApplyAll(f, opsA);
      DoneAppend(f, a, r);
      assert AppendTo(g, active, r) == opsB;
      var f' := TornAppend(g, active, r);
      CutLater(f, opsA, opsB, f', false);
    }
  }

  lemma {:induction false} CutEarlier(f: Flash, xs: seq<Op>, ys: seq<Op>, f': Flash, atomic: bool)
    requires CutDuring(f, xs, f', atomic)
    ensures CutDuring(f, xs + ys, f', atomic)
    decreases |xs|
  {
    if f' != f {
      assert (xs + ys)[1..] == xs[1..] + ys && (xs + ys)[0] == xs[0];
      if !Torn(f, xs[0], f', atomic) { CutEarlier(Apply(f, xs[0]), xs[1..], ys, f', atomic); }
    }
  }

  /** The other chip has a newer record, so repair will write to chip `d`. */
  predicate Behind(f: Flash, d: DevSelect) {
    var mine, other := Newest(f.At(d)), Newest(f.At(d.Other()));
    other.Some? && (mine.None? || mine.value.counter < other.value.counter)
  }

  lemma BehindIsRepaired(f: Flash, active: DevSelect, d: DevSelect)
    ensures Behind(f, d) ==> RepairOps(f, active) == AppendTo(f, d, Newest(f.At(d.Other())).value)
    ensures !Behind(f, d) && !Behind(f, d.Other()) ==> RepairOps(f, active) == []
    ensures Behind(f, d) ==> !Behind(f, d.Other())
  {
    assert d == active || d == active.Other();
  }

  lemma RepairOfBehind(f: Flash, active: DevSelect, d: DevSelect)
    requires f.WellSized() && Unique(f) && Shaped(f) && Behind(f, d)
    ensures CutsKeepShape(f, RepairOps(f, active)) <==> FirstErased(f.At(d)).Some?
  {
    BehindIsRepaired(f, active, d);
    if FirstErased(f.At(d)).None? {
      var f' := TornAppend(f, d, Newest(f.At(d.Other())).value);
    } else {
      forall f' | CutDuring(f, RepairOps(f, active), f', false) ensures Shaped(f') {
        CutWithoutErase(f, RepairOps(f, active), f');
        ShapedCutRepair(f, active, f');
      }
    }
  }

  /** Boot repair keeps the shape through every power cut exactly when the chip it has to
      write to, if any, is not full. */
  lemma RepairShapeSafeIff(f: Flash, active: DevSelect)
    requires f.WellSized() && Unique(f) && Shaped(f)
    ensures CutsKeepShape(f, RepairOps(f, active)) <==>
      (Behind(f, Flash0) ==> FirstErased(f.c0).Some?) && (Behind(f, Flash1) ==> FirstErased(f.c1).Some?)
  {
    BehindIsRepaired(f, active, Flash0);
    if Behind(f, Flash0) {
      RepairOfBehind(f, active, Flash0);
    } else if Behind(f, Flash1) {
      RepairOfBehind(f, active, Flash1);
    }
  }

  // ----- A run in which a torn erase breaks the shape -----

  function FullChip(): (c: Chip)
    ensures |c| == SLOTS && forall i :: 0 <= i < SLOTS ==> c[i] == Live(Record(i, Flash0))
  {
    seq(SLOTS, i requires 0 <= i => Live(Record(i, Flash0)))
  }

  /** A full, shaped chip whose records are those with counters up to 511. */
  ghost predicate Full(c: Chip) {
    && |c| == SLOTS && LogShaped(c) && FirstErased(c).None?
    && (forall q :: Live(q) in c ==> q.dev == Flash0)
    && Newest(c) == Some(Record(SLOTS - 1, Flash0))
  }

  lemma FullChipIsFull()
    ensures Full(FullChip())
  {
    var c := FullChip();
    assert c[SLOTS - 1] == Live(Record(SLOTS - 1, Flash0));
    NewestIs(c, Record(SLOTS - 1, Flash0));
  }

  lemma FullBoardBoots(f: Flash)
    requires Full(f.c0) && Full(f.c1)
    ensures Next(State(f, false, Flash0), Boot(Some(Flash0)), State(f, true, Flash0), false)
    ensures f.WellSized() && Unique(f) && Shaped(f) && WritePlan(f, Flash0, Flash1).Steps?
  {
    assert Best(f, Flash0) == Some(Record(SLOTS - 1, Flash0));
  }

  /** A run that starts shaped and ends otherwise. */
  ghost predicate LosesShape(ss: seq<State>, es: seq<Event>) {
    Run(ss, es, false) && Initial(ss[0]) && Shaped(ss[0].flash) && !Shaped(ss[|es|].flash)
  }

  lemma RunOfTwo(s0: State, s1: State, s2: State, e0: Event, e1: Event)
    requires Next(s0, e0, s1, false) && Next(s1, e1, s2, false)
    requires Initial(s0) && Shaped(s0.flash) && !Shaped(s2.flash)
    ensures LosesShape([s0, s1, s2], [e0, e1])
  {}

  /** Both chips are full and in step; the board boots, is asked to store the other
      device, and loses power inside the erase that this write starts with. */
  lemma TornEraseBreaksShape() returns (ss: seq<State>, es: seq<Event>)
    ensures es == [Boot(Some(Flash0)), WriteCutShort(Flash1)] && LosesShape(ss, es)
  {
    FullChipIsFull();
    var f := Flash(FullChip(), FullChip());
    var e0, e1 := Boot(Some(Flash0)), WriteCutShort(Flash1);
    FullBoardBoots(f);
    var f' := FullBoardCut(f);
    var s0, s1, s2 := State(f, false, Flash0), State(f, true, Flash0), State(f', false, Flash0);
    RunOfTwo(s0, s1, s2, e0, e1);
    ss, es := [s0, s1, s2], [e0, e1];
  }

  lemma FullBoardCut(f: Flash) returns (f': Flash)
    requires Full(f.c0) && Full(f.c1)
    ensures Next(State(f, true, Flash0), WriteCutShort(Flash1), State(f', false, Flash0), false) && !Shaped(f')
  {
    FullBoardBoots(f);
    WriteShapeSafeIff(f, Flash0, Flash1);
    f' :| CutDuring(f, WritePlan(f, Flash0, Flash1).ops, f', false) && !Shaped(f');
  }
}
