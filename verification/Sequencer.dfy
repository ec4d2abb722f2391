/** The Gimlet power sequencer as a state machine: what requests and timer ticks do to
    the power state, the hardware around it and the state reported to jefe. */
module Sequencer {
  import opened Wrappers

  datatype PowerState = A2 | A2PlusFans | A1 | A0 | A0PlusHP | A0Thermtrip | A0Reset {
    predicate InA0() { A0? || A0PlusHP? || A0Thermtrip? || A0Reset? }
    predicate Polled() { A0? || A0PlusHP? }
  }

  datatype SeqError =
    IllegalTransition | A1Timeout | CPUNotPresent | UnrecognizedCPU | A0TimeoutGroupC | A0Timeout | I2cFault

  datatype Mux = ToSP | ToHost

  /** The power control register. */
  datatype Enables = Enables(a1pwren: bool, a0aEn: bool)
  const NO_ENABLES: Enables := Enables(false, false)
  const A1_ENABLE: Enables := Enables(true, false)
  const A0_ENABLE: Enables := Enables(false, true)

  datatype Rail = VCore | Soc

  /** How far switching the two core rails got: VCore is always first. */
  datatype Reach = Neither | VCoreOnly | Both {
    predicate Took(rail: Rail) { if rail.VCore? then !Neither? else Both? }
  }

  /** What the server does to the hardware and to jefe. */
  datatype Act =
    | SetMux(mux: Mux)
    | WriteEnables(enables: Enables)
    | ClearEnables
    | SetCldRst
    | ClearCldRst
    | Rails(on: bool, reach: Reach)
    | UartOn
    | UartOff
    | Report(state: PowerState)

  datatype Hw = Hw(enables: Enables, cldRst: bool, mux: Mux, reported: PowerState, vcore: bool, soc: bool, uart: bool) {
    predicate On(rail: Rail) { if rail.VCore? then vcore else soc }

    function Turned(on: bool, reach: Reach): Hw {
      this.(vcore := if reach.Neither? then vcore else on, soc := if reach.Both? then on else soc)
    }
  }

  function Effect(hw: Hw, act: Act): Hw {
    match act
    case SetMux(m) => hw.(mux := m)
    case WriteEnables(on) => hw.(enables := on)
    case ClearEnables => hw.(enables := NO_ENABLES)
    case SetCldRst => hw.(cldRst := true)
    case ClearCldRst => hw.(cldRst := false)
    case Rails(on, reach) => hw.Turned(on, reach)
    case UartOn => hw.(uart := true)
    case UartOff => hw.(uart := false)
    case Report(s) => hw.(reported := s)
  }

  function Replay(hw: Hw, acts: seq<Act>): Hw
    decreases |acts|
  {
    if acts == [] then hw else Effect(Replay(hw, acts[..|acts| - 1]), acts[|acts| - 1])
  }

  // ----- The scripts of the two transitions -----

  function UpActs(up: Reach): seq<Act> {
    [SetMux(ToHost), WriteEnables(A1_ENABLE), WriteEnables(A0_ENABLE), Rails(true, up), UartOn, Report(A0)]
  }

  function RollbackActs(down: Reach): seq<Act> { [ClearEnables, Rails(false, down), SetMux(ToSP)] }

  function DownActs(down: Reach): seq<Act> {
    [UartOff, SetCldRst, ClearEnables, Rails(false, down), SetMux(ToSP), Report(A2)]
  }

  /** How much of the way up has been done when it fails with each error. */
  function Climbed(e: SeqError): nat {
    match e
    case A1Timeout | CPUNotPresent | UnrecognizedCPU => 2
    case A0TimeoutGroupC => 3
    case I2cFault | A0Timeout => 4
    case IllegalTransition => 0
  }

  /** How far the rails came on by then. */
  predicate UpFits(e: SeqError, up: Reach) {
    if e.I2cFault? then !up.Both? else if e.A0Timeout? then up.Both? else up.Neither?
  }

  /** Every way a request in state `s` for state `t` can go, with the rails getting `up`
      on the way up and `down` on the way down or back. */
  ghost predicate Requested(s: PowerState, t: PowerState, r: Result<(), SeqError>, up: Reach, down: Reach,
                            acts: seq<Act>, s': PowerState)
  {
    if s.A2? && t.A0? then
      if r.Ok? then up.Both? && down.Neither? && acts == UpActs(up) && s' == A0
      else
        && r.error != IllegalTransition && UpFits(r.error, up) && s' == A2
        && acts == UpActs(up)[..Climbed(r.error)] + RollbackActs(down)
    else if s.InA0() && t.A2? then
      && up.Neither?
      && if r.Ok? then down.Both? && acts == DownActs(down) && s' == A2
         else r.error == I2cFault && !down.Both? && acts == DownActs(down)[..4] && s' == s
    else r == Err(IllegalTransition) && up.Neither? && down.Neither? && acts == [] && s' == s
  }

  /** What a timer tick does, given the latched interrupt flags and the NIC pin. */
  function Latched(s: PowerState, reset: bool, thermtrip: bool): PowerState {
    if thermtrip then A0Thermtrip else if reset then A0Reset else s
  }

  function LatchActs(reset: bool, thermtrip: bool): seq<Act> {
    if reset && thermtrip then [Report(A0Reset), Report(A0Thermtrip)]
    else if reset then [Report(A0Reset)]
    else if thermtrip then [Report(A0Thermtrip)]
    else []
  }

  /** Matching the NIC's power state to its enable pin. */
  function Settled(s: PowerState, pwrenL: bool): PowerState {
    if s.A0? && !pwrenL then A0PlusHP else if s.A0PlusHP? && pwrenL then A0 else s
  }

  function SettleActs(s: PowerState, pwrenL: bool): seq<Act> {
    if s.A0? && !pwrenL then [ClearCldRst, Report(A0PlusHP)]
    else if s.A0PlusHP? && pwrenL then [SetCldRst, Report(A0)]
    else []
  }

  function Ticked(s: PowerState, reset: bool, thermtrip: bool, pwrenL: bool): (seq<Act>, PowerState) {
    if !s.Polled() then ([], s) else
    var s1 := Latched(s, reset, thermtrip);
    (LatchActs(reset, thermtrip) + SettleActs(s1, pwrenL), Settled(s1, pwrenL))
  }

  // ----- Runs -----

  datatype Snapshot = Snapshot(state: PowerState, hw: Hw)

  datatype Event =
    | SetState(target: PowerState, outcome: Result<(), SeqError>, up: Reach, down: Reach)
    | Tick(reset: bool, thermtrip: bool, pwrenL: bool)
  {
    predicate TurnsOn(rail: Rail) { SetState? && up.Took(rail) }
    predicate TurnsOff(rail: Rail) { SetState? && down.Took(rail) }
  }

  ghost predicate Next(s: Snapshot, e: Event, s': Snapshot) {
    match e
    case SetState(t, r, up, down) =>
      exists acts :: Requested(s.state, t, r, up, down, acts, s'.state) && s'.hw == Replay(s.hw, acts)
    case Tick(reset, thermtrip, pwrenL) =>
      var (acts, state) := Ticked(s.state, reset, thermtrip, pwrenL);
      s' == Snapshot(state, Replay(s.hw, acts))
  }

  /** The coupling between the state, jefe and the hardware. */
  ghost predicate Coupled(s: Snapshot) {
    && s.hw.reported == s.state
    && !s.state.A1? && !s.state.A2PlusFans?
    && (s.state.A2? ==> s.hw.enables == NO_ENABLES && s.hw.cldRst && s.hw.mux == ToSP && !s.hw.uart)
    && (s.state.A0? ==> s.hw.cldRst)
    && (!s.state.A2? ==> s.hw.mux == ToHost)
  }

  const COLD_BOOT: Snapshot := Snapshot(A2, Hw(NO_ENABLES, true, ToSP, A2, false, false, false))

  ghost predicate Run(ss: seq<Snapshot>, es: seq<Event>) {
    && |ss| == |es| + 1 && ss[0] == COLD_BOOT
    && forall i :: 0 <= i < |es| ==> Next(ss[i], es[i], ss[i + 1])
  }

  // ----- What the scripts do -----

  lemma ReplayAppend(hw: Hw, xs: seq<Act>, x: Act)
    ensures Replay(hw, xs + [x]) == Effect(Replay(hw, xs), x)
  {
    assert (xs + [x])[..|xs|] == xs;
  }

  lemma ReplayOneMore(hw: Hw, acts: seq<Act>, n: nat)
    requires 0 < n <= |acts|
    ensures Replay(hw, acts[..n]) == Effect(Replay(hw, acts[..n - 1]), acts[n - 1])
  {
    assert acts[..n][..n - 1] == acts[..n - 1];
  }

  lemma {:induction false} ReplayInTurn(hw: Hw, xs: seq<Act>, ys: seq<Act>)
    ensures Replay(hw, xs + ys) == Replay(Replay(hw, xs), ys)
    decreases |ys|
  {
    if ys == [] {
      assert xs + ys == xs;
    } else {
      var front, last := ys[..|ys| - 1], ys[|ys| - 1];
      ReplayInTurn(hw, xs, front);
      assert xs + ys == (xs + front) + [last];
      ReplayAppend(hw, xs + front, last);
    }
  }

  lemma ReplayTwo(hw: Hw, x: Act, y: Act)
    ensures Replay(hw, [x]) == Effect(hw, x)
    ensures Replay(hw, [x, y]) == Effect(Effect(hw, x), y)
  {
    assert [x][..0] == [] && [x, y][..1] == [x];
  }

  /** The hardware after the first `n` acts of the way up. */
  lemma {:induction false} UpEffect(hw: Hw, up: Reach, n: nat)
    requires n <= |UpActs(up)|
    ensures Replay(hw, UpActs(up)[..n]) == Hw(
      if n < 2 then hw.enables else if n == 2 then A1_ENABLE else A0_ENABLE,
      hw.cldRst,
      if n == 0 then hw.mux else ToHost,
      if n < 6 then hw.reported else A0,
      hw.vcore || (n >= 4 && !up.Neither?),
      hw.soc || (n >= 4 && up.Both?),
      hw.uart || n >= 5)
  {
    if n > 0 {
      UpEffect(hw, up, n - 1);
      ReplayOneMore(hw, UpActs(up), n);
    }
  }

  /** The hardware after the first `n` acts of the way down. */
  lemma {:induction false} DownEffect(hw: Hw, down: Reach, n: nat)
    requires n <= |DownActs(down)|
    ensures Replay(hw, DownActs(down)[..n]) == Hw(
      if n < 3 then hw.enables else NO_ENABLES,
      hw.cldRst || n >= 2,
      if n < 5 then hw.mux else ToSP,
      if n < 6 then hw.reported else A2,
      hw.vcore && (n < 4 || down.Neither?),
      hw.soc && (n < 4 || !down.Both?),
      hw.uart && n == 0)
  {
    if n > 0 {
      DownEffect(hw, down, n - 1);
      ReplayOneMore(hw, DownActs(down), n);
    }
  }

  /** The enables go first, before any rail is touched, and the mux last. */
  lemma RollbackEffect(hw: Hw, down: Reach)
    ensures Replay(hw, RollbackActs(down)[..1]) == hw.(enables := NO_ENABLES)
    ensures Replay(hw, RollbackActs(down)[..2]) == hw.(enables := NO_ENABLES).Turned(false, down)
    ensures Replay(hw, RollbackActs(down)) == hw.(enables := NO_ENABLES, mux := ToSP).Turned(false, down)
  {
    ReplayTwo(hw, ClearEnables, Rails(false, down));
    ReplayAppend(hw, [ClearEnables, Rails(false, down)], SetMux(ToSP));
    assert RollbackActs(down) == [ClearEnables, Rails(false, down)] + [SetMux(ToSP)];
    assert RollbackActs(down)[..1] == [ClearEnables] && RollbackActs(down)[..2] == [ClearEnables, Rails(false, down)];
  }

  /** A failed power-up, wherever it failed, takes the enables and the mux back.  A rail
      stays on exactly when it was on, or came on, and switching it off did not reach it. */
  lemma FailedUpRollsBack(hw: Hw, e: SeqError, up: Reach, down: Reach)
    requires e != IllegalTransition && UpFits(e, up)
    ensures var h := Replay(hw, UpActs(up)[..Climbed(e)] + RollbackActs(down));
      && h == hw.(enables := NO_ENABLES, mux := ToSP, vcore := h.vcore, soc := h.soc)
      && forall rail :: h.On(rail) <==> (hw.On(rail) || up.Took(rail)) && !down.Took(rail)
  {
    var n := Climbed(e);
    UpEffect(hw, up, n);
    ReplayInTurn(hw, UpActs(up)[..n], RollbackActs(down));
    RollbackEffect(Replay(hw, UpActs(up)[..n]), down);
  }

  /** The transitions there are. */
  predicate Legal(s: PowerState, t: PowerState) {
    (s == A2 && t == A0) || (s in {A0, A0PlusHP, A0Thermtrip, A0Reset} && t == A2)
  }

  /** One request keeps the coupling, leaves exactly the documented hardware behind when it
      succeeds, and moves each rail as its switching reached it. */
  lemma RequestEffect(s: Snapshot, t: PowerState, r: Result<(), SeqError>, up: Reach, down: Reach, s': Snapshot)
    requires Coupled(s) && Next(s, SetState(t, r, up, down), s')
    ensures Coupled(s')
    ensures !s.state.A2? ==> s'.state == s.state || s'.state == A2
    ensures s.state.A2? ==> s'.state == A2 || s'.state == A0
    ensures r.Err? ==> s'.state == s.state
    ensures r == Err(IllegalTransition) <==> !Legal(s.state, t)
    ensures r.Ok? ==> s'.state == t
    ensures r.Ok? && t == A0 ==> s'.hw == Hw(Enables(false, true), s.hw.cldRst, ToHost, A0, true, true, true)
    ensures r.Ok? && t == A2 ==> s'.hw == Hw(Enables(false, false), true, ToSP, A2, false, false, false)
    ensures forall rail :: s'.hw.On(rail) <==> (s.hw.On(rail) || up.Took(rail)) && !down.Took(rail)
    ensures !s'.state.A2? ==>
      if s.state.A2? then s'.hw.enables == A0_ENABLE && s'.hw.uart
      else if t.A2? then s'.hw.enables == NO_ENABLES && !s'.hw.uart
      else s'.hw == s.hw
  {
    if s.state.A2? && t.A0? {
      if r.Ok? {
        assert UpActs(up)[..6] == UpActs(up);
        UpEffect(s.hw, up, 6);
      } else {
        FailedUpRollsBack(s.hw, r.error, up, down);
      }
    } else if s.state.InA0() && t.A2? {
      assert DownActs(down)[..6] == DownActs(down);
      DownEffect(s.hw, down, 6);
      DownEffect(s.hw, down, 4);
    }
  }

  lemma LatchEffect(hw: Hw, s: PowerState, reset: bool, thermtrip: bool)
    requires hw.reported == s
    ensures Replay(hw, LatchActs(reset, thermtrip)) == hw.(reported := Latched(s, reset, thermtrip))
  {
    ReplayTwo(hw, Report(A0Reset), Report(A0Thermtrip));
    ReplayTwo(hw, Report(A0Thermtrip), Report(A0Thermtrip));
  }

  lemma SettleEffect(hw: Hw, s: PowerState, pwrenL: bool)
    requires hw.reported == s
    ensures var h := Replay(hw, SettleActs(s, pwrenL));
      h == hw.(reported := Settled(s, pwrenL),
               cldRst := if s.A0? && !pwrenL then false else if s.A0PlusHP? && pwrenL then true else hw.cldRst)
  {
    ReplayTwo(hw, ClearCldRst, Report(A0PlusHP));
    ReplayTwo(hw, SetCldRst, Report(A0));
  }

  /** What a tick makes of the state: only A0 and A0PlusHP are looked at, a thermal trip
      wins over a reset, and without either the NIC pin decides. */
  function TickedTo(s: PowerState, reset: bool, thermtrip: bool, pwrenL: bool): PowerState {
    if s != A0 && s != A0PlusHP then s
    else if thermtrip then A0Thermtrip
    else if reset then A0Reset
    else if pwrenL then A0
    else A0PlusHP
  }

  /** And of CLD_RST: it follows the NIC when that is switched, and else stays. */
  function CldRstAfter(s: PowerState, s': PowerState, cldRst: bool): bool {
    if s == A0 && s' == A0PlusHP then false else if s == A0PlusHP && s' == A0 then true else cldRst
  }

  /** A tick keeps the coupling and changes the state, the report and CLD_RST as above and
      nothing else. */
  lemma TickEffect(s: Snapshot, reset: bool, thermtrip: bool, pwrenL: bool, s': Snapshot)
    requires Coupled(s) && Next(s, Tick(reset, thermtrip, pwrenL), s')
    ensures Coupled(s')
    ensures s'.state == TickedTo(s.state, reset, thermtrip, pwrenL)
    ensures s'.hw == s.hw.(reported := s'.state, cldRst := CldRstAfter(s.state, s'.state, s.hw.cldRst))
  {
    if s.state.Polled() {
      var s1 := Latched(s.state, reset, thermtrip);
      var h1 := Replay(s.hw, LatchActs(reset, thermtrip));
      ReplayInTurn(s.hw, LatchActs(reset, thermtrip), SettleActs(s1, pwrenL));
      LatchEffect(s.hw, s.state, reset, thermtrip);
      SettleEffect(h1, s1, pwrenL);
    }
  }

  lemma StepKeepsCoupling(s: Snapshot, e: Event, s': Snapshot)
    requires Coupled(s) && Next(s, e, s')
    ensures Coupled(s')
    ensures s.state.A0Reset? || s.state.A0Thermtrip? ==> s'.state == s.state || s'.state == A2
    ensures s.state.A2? ==> s'.state == A2 || s'.state == A0
    ensures forall rail :: s'.hw.On(rail) <==> (s.hw.On(rail) || e.TurnsOn(rail)) && !e.TurnsOff(rail)
  {
    match e
    case SetState(t, r, up, down) => RequestEffect(s, t, r, up, down, s');
    case Tick(reset, thermtrip, pwrenL) => TickEffect(s, reset, thermtrip, pwrenL, s');
  }

  // ----- What holds over whole runs -----

  /** Over every run of requests, failed or not, and timer ticks the coupling holds. */
  lemma {:induction false} RunKeepsCoupling(ss: seq<Snapshot>, es: seq<Event>, n: nat)
    requires Run(ss, es) && n <= |es|
    ensures Coupled(ss[n])
  {
    if n > 0 {
      RunKeepsCoupling(ss, es, n - 1);
      StepKeepsCoupling(ss[n - 1], es[n - 1], ss[n]);
    }
  }

  /** A reset or a thermal trip can only be left through A2: between it and any other
      state of the A0 family the machine has been in A2. */
  lemma {:induction false} LatchedStatesLeaveThroughA2(ss: seq<Snapshot>, es: seq<Event>, i: nat, j: nat)
    requires Run(ss, es) && i < j <= |es|
    requires ss[i].state.A0Reset? || ss[i].state.A0Thermtrip?
    requires ss[j].state != ss[i].state
    ensures exists k :: i < k <= j && ss[k].state == A2
    decreases j - i
  {
    RunKeepsCoupling(ss, es, i);
    StepKeepsCoupling(ss[i], es[i], ss[i + 1]);
    if ss[i + 1].state != A2 { LatchedStatesLeaveThroughA2(ss, es, i + 1, j); }
  }

  /** Since A2 was last left, a request at `k` to go back there has failed. */
  ghost predicate FailedDownAt(ss: seq<Snapshot>, es: seq<Event>, k: nat, n: nat)
    requires |ss| == |es| + 1 && n <= |es|
  {
    && k < n && es[k].SetState? && es[k].target.A2? && es[k].outcome.Err?
    && forall j :: k <= j <= n ==> !ss[j].state.A2?
  }

  ghost predicate FailedDown(ss: seq<Snapshot>, es: seq<Event>, n: nat)
    requires |ss| == |es| + 1 && n <= |es|
  {
    exists k: nat :: FailedDownAt(ss, es, k, n)
  }

  lemma FailedDownNext(ss: seq<Snapshot>, es: seq<Event>, n: nat)
    requires |ss| == |es| + 1 && 0 < n <= |es| && !ss[n].state.A2?
    ensures FailedDown(ss, es, n) <==>
      && !ss[n - 1].state.A2?
      && (FailedDown(ss, es, n - 1) || (es[n - 1].SetState? && es[n - 1].target.A2? && es[n - 1].outcome.Err?))
  {
    if FailedDown(ss, es, n) {
      var k: nat :| FailedDownAt(ss, es, k, n);
      assert k < n - 1 ==> FailedDownAt(ss, es, k, n - 1);
    }
    if !ss[n - 1].state.A2? {
      if FailedDown(ss, es, n - 1) {
        var k: nat :| FailedDownAt(ss, es, k, n - 1);
        assert FailedDownAt(ss, es, k, n);
      }
      if es[n - 1].SetState? && es[n - 1].target.A2? && es[n - 1].outcome.Err? {
        assert FailedDownAt(ss, es, n - 1, n);
      }
    }
  }

  /** In every A0-family state of a run the host is enabled and its UART connected,
      except exactly after a way down that failed since A2 was last left: then the
      enables are clear and the UART is off although the state is still reported. */
  lemma {:induction false} EnablesInA0(ss: seq<Snapshot>, es: seq<Event>, n: nat)
    requires Run(ss, es) && n <= |es| && !ss[n].state.A2?
    ensures ss[n].hw.enables == if FailedDown(ss, es, n) then NO_ENABLES else A0_ENABLE
    ensures ss[n].hw.uart <==> !FailedDown(ss, es, n)
  {
    if n > 0 {
      RunKeepsCoupling(ss, es, n - 1);
      FailedDownNext(ss, es, n);
      var s, e := ss[n - 1], es[n - 1];
      if !s.state.A2? { EnablesInA0(ss, es, n - 1); }
      match e
      case SetState(t, r, up, down) => RequestEffect(s, t, r, up, down, ss[n]);
      case Tick(reset, thermtrip, pwrenL) => TickEffect(s, reset, thermtrip, pwrenL, ss[n]);
    }
  }

  /** Request `i` switched the rail on and none up to `n`, itself included, switched it off. */
  ghost predicate OnSince(es: seq<Event>, i: nat, n: nat, rail: Rail)
    requires n <= |es|
  {
    i < n && es[i].TurnsOn(rail) && forall j :: i <= j < n ==> !es[j].TurnsOff(rail)
  }

  lemma OnSinceNext(es: seq<Event>, m: nat, n: nat, rail: Rail)
    requires n == m + 1 <= |es|
    ensures (exists i: nat :: OnSince(es, i, n, rail)) <==>
      ((exists i: nat :: OnSince(es, i, m, rail)) || es[m].TurnsOn(rail)) && !es[m].TurnsOff(rail)
  {
    if i: nat :| OnSince(es, i, n, rail) {
      assert i < m ==> OnSince(es, i, m, rail);
    }
    if !es[m].TurnsOff(rail) {
      if i: nat :| OnSince(es, i, m, rail) { assert OnSince(es, i, n, rail); }
      if es[m].TurnsOn(rail) { assert OnSince(es, m, n, rail); }
    }
  }

  /** A rail is on exactly when some request switched it on and none has switched it off
      since, the rollback of that same request included. */
  lemma {:induction false} RailOnIff(ss: seq<Snapshot>, es: seq<Event>, n: nat, rail: Rail)
    requires Run(ss, es) && n <= |es|
    ensures ss[n].hw.On(rail) <==> exists i: nat :: OnSince(es, i, n, rail)
  {
    if n > 0 {
      RailOnIff(ss, es, n - 1, rail);
      OnSinceNext(es, n - 1, n, rail);
      RunKeepsCoupling(ss, es, n - 1);
      StepKeepsCoupling(ss[n - 1], es[n - 1], ss[n]);
    }
  }

  /** A request that brought a rail on and did not switch it off again itself. */
  predicate LeavesRail(e: Event, rail: Rail) { e.TurnsOn(rail) && !e.TurnsOff(rail) }

  predicate BothOff(hw: Hw) { !hw.On(VCore) && !hw.On(Soc) }

  ghost predicate OffAfter(es: seq<Event>, i: nat, n: nat, rail: Rail)
    requires n <= |es|
  {
    exists j :: i < j < n && es[j].TurnsOff(rail)
  }

  /** A2 has both rails off exactly when every rail that a request brought on, and did
      not switch off again itself, has been switched off by a later one. */
  lemma A2RailsOffIff(ss: seq<Snapshot>, es: seq<Event>, n: nat)
    requires Run(ss, es) && n <= |es| && ss[n].state.A2?
    ensures BothOff(ss[n].hw) <==>
      forall rail, i: nat :: i < n && LeavesRail(es[i], rail) ==> OffAfter(es, i, n, rail)
  {
    forall rail ensures ss[n].hw.On(rail) <==>
      exists i: nat :: i < n && LeavesRail(es[i], rail) && !OffAfter(es, i, n, rail)
    {
      RailOnIff(ss, es, n, rail);
      if ss[n].hw.On(rail) {
        var i: nat :| OnSince(es, i, n, rail);
        assert LeavesRail(es[i], rail) && !OffAfter(es, i, n, rail);
      }
      if i: nat :| i < n && LeavesRail(es[i], rail) && !OffAfter(es, i, n, rail) {
        assert OnSince(es, i, n, rail);
      }
    }
    if BothOff(ss[n].hw) {
      forall rail, i: nat | i < n && LeavesRail(es[i], rail) ensures OffAfter(es, i, n, rail) {
        assert !ss[n].hw.On(rail);
      }
    } else {
      assert ss[n].hw.On(VCore) || ss[n].hw.On(Soc);
    }
  }

  /** A way down that is acknowledged ends in A2 with both rails off. */
  lemma DownTurnsRailsOff(ss: seq<Snapshot>, es: seq<Event>, n: nat)
    requires Run(ss, es) && n < |es| && !ss[n].state.A2?
    requires es[n].SetState? && es[n].target.A2? && es[n].outcome.Ok?
    ensures ss[n + 1].state == A2 && BothOff(ss[n + 1].hw)
  {
    RunKeepsCoupling(ss, es, n);
    StepKeepsCoupling(ss[n], es[n], ss[n + 1]);
  }

  predicate AckedDown(s: Snapshot, e: Event) {
    !s.state.A2? && e.SetState? && e.target.A2? && e.outcome.Ok?
  }

  predicate RailTrouble(e: Event) {
    e.SetState? && (e.outcome == Err(I2cFault) || e.outcome == Err(A0Timeout))
  }

  /** What a caller can see: as long as no request has answered with an I2C fault or an A0
      timeout since boot or since the last acknowledged way down, A2 has both rails off. */
  lemma {:induction false} QuietA2HasRailsOff(ss: seq<Snapshot>, es: seq<Event>, k: nat, n: nat)
    requires Run(ss, es) && k <= n <= |es| && ss[n].state.A2?
    requires k == 0 || AckedDown(ss[k - 1], es[k - 1])
    requires forall i :: k <= i < n ==> !RailTrouble(es[i])
    ensures BothOff(ss[n].hw)
    decreases n
  {
    if n > k {
      RunKeepsCoupling(ss, es, n - 1);
      StepKeepsCoupling(ss[n - 1], es[n - 1], ss[n]);
      assert !RailTrouble(es[n - 1]);
      if ss[n - 1].state.A2? { QuietA2HasRailsOff(ss, es, k, n - 1); }
      if es[n - 1].Tick? {
        TickEffect(ss[n - 1], es[n - 1].reset, es[n - 1].thermtrip, es[n - 1].pwrenL, ss[n]);
      }
    } else if k > 0 {
      DownTurnsRailsOff(ss, es, k - 1);
    }
  }

  // ----- The two ways the hardware can disagree with the state -----

  lemma StepUp(s: Snapshot)
    requires s.state.A2?
    ensures Next(s, SetState(A0, Ok(()), Both, Neither), Snapshot(A0, Replay(s.hw, UpActs(Both))))
  {
    assert Requested(A2, A0, Ok(()), Both, Neither, UpActs(Both), A0);
  }

  /** A run into an A0 state whose host is not enabled: up, then a way down on which
      VCore does not answer. */
  lemma FailedDownRun()
    ensures exists ss: seq<Snapshot>, es ::
      Run(ss, es) && |es| == 2 && ss[2].state == A0 && ss[2].hw.enables == NO_ENABLES
  {
    var s1 := Snapshot(A0, Replay(COLD_BOOT.hw, UpActs(Both)));
    var s2 := Snapshot(A0, Replay(s1.hw, DownActs(Neither)[..4]));
    var up, down := SetState(A0, Ok(()), Both, Neither), SetState(A2, Err(I2cFault), Neither, Neither);
    StepUp(COLD_BOOT);
    assert Requested(A0, A2, Err(I2cFault), Neither, Neither, DownActs(Neither)[..4], A0);
    var ss, es := [COLD_BOOT, s1, s2], [up, down];
    assert Run(ss, es);
    DownEffect(s1.hw, Neither, 4);
  }

  /** A run into A2 with both rails on: A0 is never done and the rollback's attempt to
      switch the rails off, whose result is ignored, gets no answer. */
  lemma RailsOnInA2Run()
    ensures exists ss: seq<Snapshot>, es ::
      Run(ss, es) && |es| == 1 && ss[1].state == A2 && ss[1].hw.On(VCore) && ss[1].hw.On(Soc)
  {
    var acts := UpActs(Both)[..4] + RollbackActs(Neither);
    var s1 := Snapshot(A2, Replay(COLD_BOOT.hw, acts));
    var e := SetState(A0, Err(A0Timeout), Both, Neither);
    assert Requested(A2, A0, Err(A0Timeout), Both, Neither, acts, A2);
    assert Run([COLD_BOOT, s1], [e]);
    FailedUpRollsBack(COLD_BOOT.hw, A0Timeout, Both, Neither);
  }
}
