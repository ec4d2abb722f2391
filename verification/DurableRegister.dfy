/** Crash safety of the two-chip record log.  Over every run of boots, reads,
    writes and power cuts the log behaves like one atomic register: each write
    takes effect as a whole or not at all, and an acknowledged one always does. */
module DurableRegister {
  import opened RecordLog
  import opened Wrappers

  // ----- One operation, finished or cut -----

  lemma KeepTop(f: Flash, f': Flash, t: Option<Record>)
    requires Unique(f) && Top(f, t)
    requires forall q :: f'.Holds(q) ==> f.Holds(q)
    requires t.Some? ==> f'.Holds(t.value)
    ensures Unique(f') && Top(f', t)
  {}

  lemma RaiseTop(f: Flash, f': Flash, r: Record)
    requires Unique(f)
    requires forall q :: f.Holds(q) ==> q.counter < r.counter
    requires forall q :: f'.Holds(q) ==> f.Holds(q) || q == r
    requires f'.Holds(r)
    ensures Unique(f') && Top(f', Some(r))
  {}

  lemma NewestIs(c: Chip, r: Record)
    requires Live(r) in c && forall q :: Live(q) in c ==> q == r || q.counter < r.counter
    ensures Newest(c) == Some(r)
  {
    NewestIsMaximum(c);
  }

  /** Repair either finds both chips in step or copies the newest record onto the
      chip that lacks it, leaving the chip that has it alone. */
  lemma RepairShape(f: Flash, active: DevSelect) returns (d: DevSelect, r: Record)
    requires Unique(f)
    ensures RepairOps(f, active) == [] ==> Newest(f.c0) == Newest(f.c1)
    ensures RepairOps(f, active) != [] ==>
      && RepairOps(f, active) == AppendTo(f, d, r)
      && Best(f, active) == Some(r)
      && Live(r) in f.At(d.Other())
      && forall q :: Live(q) in f.At(d) ==> q.counter < r.counter
  {
    NewestIsMaximum(f.c0);
    NewestIsMaximum(f.c1);
    var a, b := Newest(f.At(active.Other())), Newest(f.At(active));
    d, r := active, Record(0, Flash0);
    if a.None? && b.None? {
    } else if b.None? || (a.Some? && a.value.counter > b.value.counter) {
      r := a.value;
    } else if a.None? || a.value.counter < b.value.counter {
      d, r := active.Other(), b.value;
    } else {
      assert f.Holds(a.value) && f.Holds(b.value);
    }
  }

  /** However boot repair is interrupted, the current record survives. */
  lemma RepairCut(f: Flash, active: DevSelect, f': Flash, atomic: bool)
    requires f.WellSized() && Unique(f)
    requires CutDuring(f, RepairOps(f, active), f', atomic)
    ensures f'.WellSized() && Unique(f')
    ensures forall d :: Best(f', d) == Best(f, active)
  {
    var d, r := RepairShape(f, active);
    if RepairOps(f, active) != [] {
      CutAppend(f, d, r, f', atomic);
    }
    BestIsTop(f, active, Best(f, active));
    KeepTop(f, f', Best(f, active));
    forall e ensures Best(f', e) == Best(f, active) { BestIsTop(f', e, Best(f, active)); }
  }

  lemma RepairDone(f: Flash, active: DevSelect)
    requires f.WellSized() && Unique(f)
    ensures var g := ApplyAll(f, RepairOps(f, active)); Newest(g.c0) == Newest(g.c1)
  {
    var d, r := RepairShape(f, active);
    if RepairOps(f, active) != [] {
      DoneAppend(f, d, r);
      var g := ApplyAll(f, RepairOps(f, active));
      BestIsTop(f, active, Some(r));
      assert forall q :: Live(q) in f.At(d.Other()) ==> f.Holds(q);
      NewestIs(g.At(d), r);
      NewestIs(g.At(d.Other()), r);
    }
  }

  /** Both chips agree on the newest record, as they do whenever requests are served. */
  ghost predicate InStep(f: Flash) { Newest(f.c0) == Newest(f.c1) }

  lemma PlanIsNewer(f: Flash, active: DevSelect, v: DevSelect)
    requires WritePlan(f, active, v).Steps?
    ensures forall q :: f.Holds(q) ==> q.counter < WritePlan(f, active, v).rec.counter
  {
    NewestIsMaximum(f.c0);
    NewestIsMaximum(f.c1);
  }

  /** However a write is interrupted, the log shows the old record or the new one. */
  lemma WriteCut(f: Flash, active: DevSelect, v: DevSelect, f': Flash, atomic: bool)
    requires f.WellSized() && Unique(f) && InStep(f)
    requires WritePlan(f, active, v).Steps?
    requires CutDuring(f, WritePlan(f, active, v).ops, f', atomic)
    ensures f'.WellSized() && Unique(f')
    ensures || (forall d :: Best(f', d) == Best(f, active))
            || (forall d :: Best(f', d) == Some(WritePlan(f, active, v).rec))
  {
    var r := WritePlan(f, active, v).rec;
    var a := active.Other();
    var opsA := AppendTo(f, a, r);
    var g := ApplyAll(f, opsA);
    PlanIsNewer(f, active, v);
    NewestIsMaximum(f.c0);
    NewestIsMaximum(f.c1);
    DoneAppend(f, a, r);
    CutSequence(f, opsA, AppendTo(f, active, r), f', atomic);
    if CutDuring(f, opsA, f', atomic) {
      CutAppend(f, a, r, f', atomic);
    } else {
      assert FirstErased(g.At(active)) == FirstErased(f.At(active));
      CutAppend(g, active, r, f', atomic);
      assert forall q :: f'.Holds(q) ==> f.Holds(q) || q == r;
    }
    if f'.Holds(r) {
      RaiseTop(f, f', r);
      forall d ensures Best(f', d) == Some(r) { BestIsTop(f', d, Some(r)); }
    } else {
      BestIsTop(f, active, Best(f, active));
      KeepTop(f, f', Best(f, active));
      forall d ensures Best(f', d) == Best(f, active) { BestIsTop(f', d, Best(f, active)); }
    }
  }

  lemma WriteDone(f: Flash, active: DevSelect, v: DevSelect)
    requires f.WellSized()
    requires WritePlan(f, active, v).Steps?
    ensures var p := WritePlan(f, active, v); var g := ApplyAll(f, p.ops);
      g.WellSized() && Newest(g.c0) == Newest(g.c1) == Some(p.rec) && p.rec.dev == v
  {
    var r := WritePlan(f, active, v).rec;
    var a := active.Other();
    var opsA := AppendTo(f, a, r);
    var g := ApplyAll(f, opsA);
    PlanIsNewer(f, active, v);
    DoneAppend(f, a, r);
    assert FirstErased(g.At(active)) == FirstErased(f.At(active));
    DoneAppend(g, active, r);
    ApplySequence(f, opsA, AppendTo(f, active, r));
    var h := ApplyAll(f, WritePlan(f, active, v).ops);
    assert forall q :: Live(q) in f.c0 || Live(q) in f.c1 ==> f.Holds(q);
    NewestIs(h.At(a), r);
    NewestIs(h.At(active), r);
  }

  // ----- Runs -----

  /** One externally visible step.  `seen` is what the server reads back.  `Client` is any
      flash command of a client outside the record sector, finished or cut short. */
  datatype Event =
    | Boot(seen: Option<DevSelect>)
    | BootCut
    | PowerLoss
    | Get(seen: Option<DevSelect>)
    | SetDev(dev: DevSelect)
    | WriteOk(v: DevSelect)
    | WriteOverflow(v: DevSelect)
    | WriteCutShort(v: DevSelect)
    | Client(cut: bool)

  datatype State = State(flash: Flash, up: bool, active: DevSelect)

  function Shown(f: Flash, active: DevSelect): Option<DevSelect> {
    match Best(f, active) case None => None case Some(r) => Some(r.dev)
  }

  function BootDevice(f: Flash): DevSelect {
    match Shown(f, Flash0) case None => Flash0 case Some(d) => d
  }

  ghost predicate Next(s: State, e: Event, s': State, atomic: bool) {
    match e
    case Boot(seen) =>
      && !s.up && s'.up
      && s'.flash == ApplyAll(s.flash, RepairOps(s.flash, Flash0))
      && seen == Shown(s'.flash, Flash0)
      && s'.active == BootDevice(s'.flash)
    case BootCut =>
      && !s.up && !s'.up
      && CutDuring(s.flash, RepairOps(s.flash, Flash0), s'.flash, atomic)
    case PowerLoss => s.up && s' == s.(up := false)
    case Get(seen) => s.up && s' == s && seen == Shown(s.flash, s.active)
    case SetDev(d) => s.up && s' == s.(active := d)
    case WriteOk(v) =>
      && s.up
      && var p := WritePlan(s.flash, s.active, v);
      && !p.Overflow?
      && s' == if p.Stored? then s else s.(flash := ApplyAll(s.flash, p.ops))
    case WriteOverflow(v) => s.up && WritePlan(s.flash, s.active, v).Overflow? && s' == s
    case WriteCutShort(v) =>
      && s.up && !s'.up
      && var p := WritePlan(s.flash, s.active, v);
      && if p.Steps? then CutDuring(s.flash, p.ops, s'.flash, atomic) else s'.flash == s.flash
    case Client(cut) => s.up && s' == s.(up := !cut)
  }

  ghost predicate Run(ss: seq<State>, es: seq<Event>, atomic: bool) {
    && |ss| == |es| + 1
    && forall i :: 0 <= i < |es| ==> Next(ss[i], es[i], ss[i + 1], atomic)
  }

  /** A powered-off board whose chips hold no two different records with one counter,
      for instance a new board. */
  ghost predicate Initial(s: State) {
    !s.up && s.flash.WellSized() && Unique(s.flash)
  }

  ghost predicate Inv(s: State) {
    s.flash.WellSized() && Unique(s.flash) && (s.up ==> InStep(s.flash))
  }

  /** The register value implied by which writes took effect. */
  function Register(init: Option<DevSelect>, es: seq<Event>, took: seq<bool>, n: nat): Option<DevSelect>
    requires n <= |es| && |took| == |es|
  {
    if n == 0 then init
    else if (es[n - 1].WriteOk? || es[n - 1].WriteCutShort?) && took[n - 1] then Some(es[n - 1].v)
    else Register(init, es, took, n - 1)
  }

  /** `took` explains the run: acknowledged writes took effect, and every read
      returns the value of the last write before it that did. */
  ghost predicate Explains(init: Option<DevSelect>, es: seq<Event>, took: seq<bool>) {
    && |took| == |es|
    && (forall i :: 0 <= i < |es| && es[i].WriteOk? ==> took[i])
    && (forall i :: 0 <= i < |es| && (es[i].Boot? || es[i].Get?) ==>
          es[i].seen == Register(init, es, took, i))
  }

  lemma SameBestAnywhere(f: Flash)
    requires Unique(f)
    ensures Shown(f, Flash0) == Shown(f, Flash1)
  {
    BestIsTop(f, Flash0, Best(f, Flash0));
    BestIsTop(f, Flash1, Best(f, Flash0));
  }

  /** One step keeps the invariant and moves the shown value only by a write. */
  lemma StepRefines(s: State, e: Event, s': State, atomic: bool)
    requires Inv(s) && Next(s, e, s', atomic)
    ensures Inv(s')
    ensures (e.Boot? || e.Get?) ==> e.seen == Shown(s.flash, Flash0)
    ensures e.Boot? ==> s'.active == if e.seen.Some? then e.seen.value else Flash0
    ensures e.WriteOk? ==> Shown(s'.flash, Flash0) == Some(e.v)
    ensures e.WriteCutShort? ==>
      Shown(s'.flash, Flash0) == Shown(s.flash, Flash0) || Shown(s'.flash, Flash0) == Some(e.v)
    ensures !e.WriteOk? && !e.WriteCutShort? ==> Shown(s'.flash, Flash0) == Shown(s.flash, Flash0)
  {
    SameBestAnywhere(s.flash);
    match e
    case Boot(_) =>
      CompletionIsACut(s.flash, RepairOps(s.flash, Flash0), atomic);
      RepairCut(s.flash, Flash0, s'.flash, atomic);
      RepairDone(s.flash, Flash0);
    case BootCut => RepairCut(s.flash, Flash0, s'.flash, atomic);
    case WriteOk(v) =>
      var p := WritePlan(s.flash, s.active, v);
      if p.Steps? {
        WriteDone(s.flash, s.active, v);
        CompletionIsACut(s.flash, p.ops, atomic);
        WriteCut(s.flash, s.active, v, s'.flash, atomic);
        assert Best(s'.flash, Flash0) == Some(p.rec);
      }
    case WriteCutShort(v) =>
      var p := WritePlan(s.flash, s.active, v);
      if p.Steps? {
        WriteCut(s.flash, s.active, v, s'.flash, atomic);
        assert p.rec.dev == v;
      }
    case _ =>
  }

  lemma {:induction false} RunKeepsInv(ss: seq<State>, es: seq<Event>, atomic: bool, n: nat)
    requires Run(ss, es, atomic) && Initial(ss[0]) && n <= |es|
    ensures Inv(ss[n])
  {
    if n > 0 {
      RunKeepsInv(ss, es, atomic, n - 1);
      StepRefines(ss[n - 1], es[n - 1], ss[n], atomic);
    }
  }

  /** Counter uniqueness in every reachable state, torn writes and erases included:
      so equal counters at boot mean equal data. */
  lemma CountersUniqueInEveryRun(ss: seq<State>, es: seq<Event>, atomic: bool, n: nat, q: Record, r: Record)
    requires Run(ss, es, atomic) && Initial(ss[0]) && n <= |es|
    requires ss[n].flash.Holds(q) && ss[n].flash.Holds(r) && q.counter == r.counter
    ensures q == r
  {
    RunKeepsInv(ss, es, atomic, n);
  }

  function Took(ss: seq<State>, es: seq<Event>): (t: seq<bool>)
    requires |ss| == |es| + 1
    ensures |t| == |es|
  {
    seq(|es|, i requires 0 <= i < |es| =>
      es[i].WriteOk? || Shown(ss[i + 1].flash, Flash0) != Shown(ss[i].flash, Flash0))
  }

  lemma {:induction false} RegisterIsShown(ss: seq<State>, es: seq<Event>, atomic: bool, n: nat)
    requires Run(ss, es, atomic) && Initial(ss[0]) && n <= |es|
    ensures Register(Shown(ss[0].flash, Flash0), es, Took(ss, es), n) == Shown(ss[n].flash, Flash0)
  {
    if n > 0 {
      RegisterIsShown(ss, es, atomic, n - 1);
      RunKeepsInv(ss, es, atomic, n - 1);
      StepRefines(ss[n - 1], es[n - 1], ss[n], atomic);
    }
  }

  /** The main theorem: every run, with power cuts between or inside any flash
      operations, is explained by an atomic register. */
  lemma DurablyLinearizable(ss: seq<State>, es: seq<Event>, atomic: bool)
    requires Run(ss, es, atomic) && Initial(ss[0])
    ensures Explains(Shown(ss[0].flash, Flash0), es, Took(ss, es))
  {
    forall i | 0 <= i < |es| && (es[i].Boot? || es[i].Get?)
      ensures es[i].seen == Register(Shown(ss[0].flash, Flash0), es, Took(ss, es), i)
    {
      RegisterIsShown(ss, es, atomic, i);
      RunKeepsInv(ss, es, atomic, i);
      StepRefines(ss[i], es[i], ss[i + 1], atomic);
    }
  }

  // ----- Consequences for clients -----

  lemma {:induction false} RegisterSince(init: Option<DevSelect>, es: seq<Event>, took: seq<bool>, i: nat, j: nat)
    requires i <= j <= |es| && |took| == |es|
    ensures || Register(init, es, took, j) == Register(init, es, took, i)
            || (exists k :: i <= k < j && (es[k].WriteOk? || es[k].WriteCutShort?)
                  && took[k] && Register(init, es, took, j) == Some(es[k].v))
    decreases j
  {
    if i < j { RegisterSince(init, es, took, i, j - 1); }
  }

  /** A read after an acknowledged write returns its value, or that of a later write. */
  lemma ReadsAckedOrCutShort(ss: seq<State>, es: seq<Event>, atomic: bool, i: nat, j: nat)
    requires Run(ss, es, atomic) && Initial(ss[0])
    requires i < j < |es| && es[i].WriteOk? && (es[j].Boot? || es[j].Get?)
    requires forall k :: i < k < j ==> !es[k].WriteOk?
    ensures || es[j].seen == Some(es[i].v)
            || exists k :: i < k < j && es[k].WriteCutShort? && es[j].seen == Some(es[k].v)
  {
    DurablyLinearizable(ss, es, atomic);
    RegisterSince(Shown(ss[0].flash, Flash0), es, Took(ss, es), i + 1, j);
  }

  /** Between writes the value never moves: once a read has returned the old value,
      no boot, cut repair or power loss can bring a cut-short record back. */
  lemma CutShortNeverSurfacesLater(ss: seq<State>, es: seq<Event>, atomic: bool, j: nat, l: nat)
    requires Run(ss, es, atomic) && Initial(ss[0])
    requires j < l < |es| && (es[j].Boot? || es[j].Get?) && (es[l].Boot? || es[l].Get?)
    requires forall k :: j < k < l ==> !es[k].WriteOk? && !es[k].WriteCutShort?
    ensures es[l].seen == es[j].seen
  {
    DurablyLinearizable(ss, es, atomic);
    RegisterSince(Shown(ss[0].flash, Flash0), es, Took(ss, es), j, l);
  }

  // ----- When exactly a write survives every power cut -----

  lemma KeptByProgram(f: Flash, d: DevSelect, i: nat, r: Record, f': Flash, q: Record)
    requires i < |f.At(d)| && f.At(d)[i] == Erased && Live(q) in f.At(d)
    requires CutDuring(f, [ProgramSlot(d, i, r)], f', false)
    ensures Live(q) in f'.At(d)
  {
    var ops := [ProgramSlot(d, i, r)];
    assert ops[1..] == [];
    var k :| 0 <= k < |f.At(d)| && f.At(d)[k] == Live(q);
    assert f'.At(d)[k] == Live(q);
  }

  /** The current record is also on the active chip, or the inactive chip, which is
      written first, has a free slot and need not be erased. */
  ghost predicate Covered(f: Flash, active: DevSelect) {
    || FirstErased(f.At(active.Other())).Some?
    || Best(f, active).None?
    || Live(Best(f, active).value) in f.At(active)
  }

  lemma CoveredWriteCut(f: Flash, active: DevSelect, v: DevSelect, f': Flash)
    requires f.WellSized() && Unique(f) && WritePlan(f, active, v).Steps? && Covered(f, active)
    requires CutDuring(f, WritePlan(f, active, v).ops, f', false)
    ensures Best(f', active) in {Best(f, active), Some(WritePlan(f, active, v).rec)}
  {
    var r, a := WritePlan(f, active, v).rec, active.Other();
    var opsA := AppendTo(f, a, r);
    var g := ApplyAll(f, opsA);
    PlanIsNewer(f, active, v);
    BestIsTop(f, active, Best(f, active));
    DoneAppend(f, a, r);
    CutSequence(f, opsA, AppendTo(f, active, r), f', false);
    if CutDuring(f, opsA, f', false) {
      CutAppend(f, a, r, f', false);
      if !f'.Holds(r) {
        if Best(f, active).Some? && Live(Best(f, active).value) !in f.At(active) {
          KeptByProgram(f, a, FirstErased(f.At(a)).value, r, f', Best(f, active).value);
        }
        KeepTop(f, f', Best(f, active));
        BestIsTop(f', active, Best(f, active));
      }
    } else {
      assert AppendTo(g, active, r) == AppendTo(f, active, r);
      CutAppend(g, active, r, f', false);
    }
    if f'.Holds(r) {
      RaiseTop(f, f', r);
      BestIsTop(f', active, Some(r));
    }
  }

  /** A write shows the old record or the new one after every power cut exactly when the
      current record is covered.  Boot repair establishes this by putting it on both
      chips; a write refused by the second chip can take it away until the next boot. */
  lemma WriteCrashSafeIff(f: Flash, active: DevSelect, v: DevSelect)
    requires f.WellSized() && Unique(f) && WritePlan(f, active, v).Steps?
    ensures (forall f' :: CutDuring(f, WritePlan(f, active, v).ops, f', false) ==>
               Best(f', active) in {Best(f, active), Some(WritePlan(f, active, v).rec)})
       <==> Covered(f, active)
  {
    var p := WritePlan(f, active, v);
    if Covered(f, active) {
      forall f' | CutDuring(f, p.ops, f', false)
        ensures Best(f', active) in {Best(f, active), Some(p.rec)}
      {
        CoveredWriteCut(f, active, v, f');
      }
    } else {
      var g := Apply(f, p.ops[0]);
      assert CutDuring(g, p.ops[1..], g, false);
      assert CutDuring(f, p.ops, g, false);
      PlanIsNewer(f, active, v);
      BestIsMaximum(g, active);
      assert !f.Holds(p.rec);
    }
  }

  lemma InStepIsCovered(f: Flash, active: DevSelect)
    requires InStep(f)
    ensures Covered(f, active)
  {
    NewestIsMaximum(f.c0);
    NewestIsMaximum(f.c1);
  }

  // ----- Boards with a single chip -----

  lemma SingleDone(f: Flash, v: DevSelect)
    requires f.WellSized() && SinglePlan(f, v).Steps?
    ensures Newest(ApplyAll(f, SinglePlan(f, v).ops).c0) == Some(SinglePlan(f, v).rec)
  {
    var r := SinglePlan(f, v).rec;
    NewestIsMaximum(f.c0);
    DoneAppend(f, Flash0, r);
    NewestIs(ApplyAll(f, SinglePlan(f, v).ops).c0, r);
  }

  lemma SingleChipAppendSafe(f: Flash, v: DevSelect, f': Flash)
    requires f.WellSized() && Unique(f) && SinglePlan(f, v).Steps?
    requires FirstErased(f.c0).Some? || Newest(f.c0).None?
    requires CutDuring(f, SinglePlan(f, v).ops, f', false)
    ensures Newest(f'.c0) in {Newest(f.c0), Some(SinglePlan(f, v).rec)}
  {
    var r := SinglePlan(f, v).rec;
    NewestIsMaximum(f.c0);
    NewestIsMaximum(f'.c0);
    CutAppend(f, Flash0, r, f', false);
    if Live(r) in f'.c0 {
      NewestIs(f'.c0, r);
    } else if Newest(f.c0).Some? {
      KeptByProgram(f, Flash0, FirstErased(f.c0).value, r, f', Newest(f.c0).value);
      forall p | Live(p) in f'.c0 ensures p == Newest(f.c0).value || p.counter < Newest(f.c0).value.counter {
        assert f.Holds(p) && f.Holds(Newest(f.c0).value);
      }
      NewestIs(f'.c0, Newest(f.c0).value);
    }
  }

  /** With one chip a write survives every power cut exactly when it need not erase
      a sector that still holds the current record. */
  lemma SingleChipCrashSafeIff(f: Flash, v: DevSelect)
    requires f.WellSized() && Unique(f) && SinglePlan(f, v).Steps?
    ensures (forall f' :: CutDuring(f, SinglePlan(f, v).ops, f', false) ==>
               Newest(f'.c0) in {Newest(f.c0), Some(SinglePlan(f, v).rec)})
       <==> FirstErased(f.c0).Some? || Newest(f.c0).None?
  {
    var p := SinglePlan(f, v);
    if FirstErased(f.c0).Some? || Newest(f.c0).None? {
      forall f' | CutDuring(f, p.ops, f', false)
        ensures Newest(f'.c0) in {Newest(f.c0), Some(p.rec)}
      {
        SingleChipAppendSafe(f, v, f');
      }
    } else {
      var g := Apply(f, p.ops[0]);
      assert CutDuring(g, p.ops[1..], g, false);
      assert CutDuring(f, p.ops, g, false);
      NewestIsMaximum(g.c0);
    }
  }
}
