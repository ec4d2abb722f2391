/** The Gimlet power sequencer server: polling loops, CPU checks, rail switching and the
    timer handler, run against status registers, pins and an I2C bus that may do anything. */
module SequencerServer {
  import opened Wrappers
  import opened Sequencer

  const A0_TIMEOUT_MILLIS: nat := 2000
  const TIMER_INTERVAL: nat := 10

  // Encodings of the sequencer FPGA's status registers.
  const A1_DONE: nat := 5
  const A0_GROUPC_PG: nat := 7
  const A0_DONE: nat := 12

  // ----- Everything outside the server -----

  /** The server's reads, acts, transactions and sleeps happen at successive instants.
      This is what a register or pin read, or a transaction, made at each instant gives,
      and by how many ticks the timer moves on then, beyond what a sleep asks for. */
  datatype World = World(
    a1Status: nat -> nat,
    a0Status: nat -> nat,
    cpuPresentL: nat -> bool,
    coretype: nat -> bool,
    sp3r1: nat -> bool,
    sp3r2: nat -> bool,
    acks: nat -> bool,
    drift: nat -> nat)
  {
    /** The pins, read one after the other from instant `t`, show the CPU we expect. */
    predicate RightType(t: nat) { coretype(t) && sp3r1(t + 1) && !sp3r2(t + 2) }
    predicate RightCpu(t: nat) { !cpuPresentL(t) && RightType(t + 1) }

    /** The outcome of the two CPU checks when the pins are read from instant `t` on. */
    function CpuVerdict(t: nat): Option<SeqError> {
      if cpuPresentL(t) then Some(CPUNotPresent)
      else if !RightType(t + 1) then Some(UnrecognizedCPU)
      else None
    }

    /** A transaction that starts at `t` and is tried up to four times is acknowledged. */
    predicate Answers(t: nat) { acks(t) || acks(t + 1) || acks(t + 2) || acks(t + 3) }

    /** The attempts such a transaction makes. */
    function Tries(t: nat): (n: nat)
      ensures 1 <= n <= 4
    {
      if acks(t) then 1 else if acks(t + 1) then 2 else if acks(t + 2) then 3 else 4
    }

    /** How far switching the rails gets from instant `t` on, and when it is over. */
    function Switching(t: nat): Reach {
      if !Answers(t) then Neither else if !Answers(t + Tries(t)) then VCoreOnly else Both
    }

    function Switched(t: nat): (t': nat)
      ensures t' > t
    {
      if !Answers(t) then t + Tries(t) else t + Tries(t) + Tries(t + Tries(t))
    }

    /** What the timer shows at an instant, beyond the ticks slept through until then. */
    function Ticks(t: nat): nat { if t == 0 then 0 else Ticks(t - 1) + drift(t - 1) }
  }

  lemma {:induction false} TicksGrow(w: World, a: nat, b: nat)
    requires a <= b
    ensures w.Ticks(a) <= w.Ticks(b)
  {
    if a < b { TicksGrow(w, a, b - 1); }
  }

  /** The instant of the `k`-th reading of a polling loop entered at `t`: each turn is a
      reading, a look at the timer and a sleep. */
  function Poll(t: nat, k: nat): nat { t + 3 * k }

  /** The first `n` readings of a polling loop entered at `t` did not show `want`. */
  ghost predicate Unseen(reg: nat -> nat, want: nat, t: nat, n: nat) {
    forall j: nat :: j < n ==> reg(Poll(t, j)) != want
  }

  lemma UnseenNext(reg: nat -> nat, want: nat, t: nat, n: nat)
    requires Unseen(reg, want, t, n) && reg(Poll(t, n)) != want
    ensures Unseen(reg, want, t, n + 1)
  {}

  lemma NextPoll(t: nat, k: nat)
    ensures Poll(t, k + 1) == Poll(t, k) + 3 && Poll(t, k) >= t
  {}

  /** The `n`-th reading was the first to show `want`. */
  ghost predicate FirstSeen(reg: nat -> nat, want: nat, t: nat, n: nat) {
    reg(Poll(t, n)) == want && Unseen(reg, want, t, n)
  }

  // ----- The timeline of a power-up attempt that begins at instant `from` -----

  /** How often each of the three polling loops slept. */
  datatype Naps = Naps(a1: nat, groupC: nat, a0: nat) {
    function Total(): nat { a1 + groupC + a0 }
  }

  // The mux is set at `from`, the timer read next, and A1 enabled after that.
  function A1From(from: nat): nat { from + 3 }
  function A1Seen(from: nat, n: Naps): nat { Poll(A1From(from), n.a1) }

  // Then come four pins and the A0 enable.
  function GroupCFrom(from: nat, n: Naps): nat { A1Seen(from, n) + 6 }
  function RailsAt(from: nat, n: Naps): nat { Poll(GroupCFrom(from, n), n.groupC) + 1 }
  function A0From(w: World, from: nat, n: Naps): nat { w.Switched(RailsAt(from, n)) }
  function A0Seen(w: World, from: nat, n: Naps): nat { Poll(A0From(w, from, n), n.a0) }

  // What has been read, stage by stage.
  ghost predicate PassedA1(w: World, from: nat, n: Naps) { FirstSeen(w.a1Status, A1_DONE, A1From(from), n.a1) }

  ghost predicate PassedCpu(w: World, from: nat, n: Naps) {
    PassedA1(w, from, n) && w.RightCpu(A1Seen(from, n) + 1)
  }

  /** A1 was done, then the pins showed the right CPU, then Group C was good. */
  ghost predicate PassedGroupC(w: World, from: nat, n: Naps) {
    PassedCpu(w, from, n) && FirstSeen(w.a0Status, A0_GROUPC_PG, GroupCFrom(from, n), n.groupC)
  }

  ghost predicate PassedRails(w: World, from: nat, n: Naps) {
    PassedGroupC(w, from, n) && w.Switching(RailsAt(from, n)).Both?
  }

  ghost predicate PassedA0(w: World, from: nat, n: Naps) {
    PassedRails(w, from, n) && FirstSeen(w.a0Status, A0_DONE, A0From(w, from, n), n.a0)
  }

  /** After `naps` naps of one tick each, the timer looked at at instant `t` is past the
      deadline counted from the look at `from + 1`. */
  predicate Late(w: World, from: nat, naps: nat, t: nat) {
    naps + w.Ticks(t) > w.Ticks(from + 1) + A0_TIMEOUT_MILLIS
  }

  /** A polling loop entered at `t` read `n + 1` times, never saw `want`, and was late when
      it last looked at the timer. */
  ghost predicate Missed(w: World, from: nat, reg: nat -> nat, want: nat, t: nat, n: nat, naps: nat) {
    Unseen(reg, want, t, n + 1) && Late(w, from, naps, Poll(t, n) + 1)
  }

  /** Why an attempt failed: how far it had passed, and what was read then. */
  ghost predicate Explained(w: World, from: nat, e: SeqError, n: Naps) {
    match e
    case A1Timeout => Missed(w, from, w.a1Status, A1_DONE, A1From(from), n.a1, n.a1)
    case CPUNotPresent | UnrecognizedCPU => PassedA1(w, from, n) && w.CpuVerdict(A1Seen(from, n) + 1) == Some(e)
    case A0TimeoutGroupC =>
      PassedCpu(w, from, n) && Missed(w, from, w.a0Status, A0_GROUPC_PG, GroupCFrom(from, n), n.groupC, n.a1 + n.groupC)
    case I2cFault => PassedGroupC(w, from, n) && !w.Switching(RailsAt(from, n)).Both?
    case A0Timeout =>
      PassedRails(w, from, n) && Missed(w, from, w.a0Status, A0_DONE, A0From(w, from, n), n.a0, n.Total())
    case IllegalTransition => false
  }

  /** How the wait for Group C can end. */
  lemma GroupCExplained(w: World, from: nat, n0: Naps, c: nat, seen: bool)
    requires PassedCpu(w, from, n0)
    requires seen ==> FirstSeen(w.a0Status, A0_GROUPC_PG, GroupCFrom(from, n0), c)
    requires !seen ==> Missed(w, from, w.a0Status, A0_GROUPC_PG, GroupCFrom(from, n0), c, n0.a1 + c)
    ensures var n := n0.(groupC := c);
      && RailsAt(from, n) == Poll(GroupCFrom(from, n0), c) + 1
      && if seen then PassedGroupC(w, from, n) else Explained(w, from, A0TimeoutGroupC, n)
  {}

  /** How the wait for the end of the A0 sequence can end. */
  lemma A0Explained(w: World, from: nat, n0: Naps, c: nat, seen: bool)
    requires PassedRails(w, from, n0) && n0.a0 == 0
    requires seen ==> FirstSeen(w.a0Status, A0_DONE, A0From(w, from, n0), c)
    requires !seen ==> Missed(w, from, w.a0Status, A0_DONE, A0From(w, from, n0), c, n0.Total() + c)
    ensures var n := n0.(a0 := c);
      && PassedRails(w, from, n) && A0Seen(w, from, n) == Poll(A0From(w, from, n0), c)
      && if seen then PassedA0(w, from, n) else Explained(w, from, A0Timeout, n)
  {
    var n := n0.(a0 := c);
    assert RailsAt(from, n) == RailsAt(from, n0) && PassedGroupC(w, from, n);
    assert A0From(w, from, n) == A0From(w, from, n0) && n.Total() == n0.Total() + c;
  }

  /** The instant at which an attempt that fails with `e` gives up. */
  function GivesUpAt(w: World, from: nat, e: SeqError, n: Naps): nat {
    match e
    case A1Timeout => A1Seen(from, n) + 2
    case CPUNotPresent => A1Seen(from, n) + 2
    case UnrecognizedCPU => A1Seen(from, n) + 5
    case A0TimeoutGroupC => RailsAt(from, n) + 1
    case I2cFault => A0From(w, from, n)
    case A0Timeout => A0Seen(w, from, n) + 2
    case IllegalTransition => from
  }

  // ----- The same in register values and pin levels -----

  /** What has been read by the time the rails come on, and in which order. */
  lemma RailsSaw(w: World, from: nat, n: Naps)
    requires PassedGroupC(w, from, n)
    ensures exists t1: nat, t2: nat ::
      && from < t1 && t1 + 4 < t2 < RailsAt(from, n)
      && w.a1Status(t1) == 5
      && !w.cpuPresentL(t1 + 1) && w.coretype(t1 + 2) && w.sp3r1(t1 + 3) && !w.sp3r2(t1 + 4)
      && w.a0Status(t2) == 7
  {
    var t1, t2 := A1Seen(from, n), RailsAt(from, n) - 1;
    assert w.a1Status(t1) == 5 && w.a0Status(t2) == 7;
  }

  /** What has been read by the time A0 is declared. */
  lemma A0Saw(w: World, from: nat, n: Naps)
    requires PassedA0(w, from, n)
    ensures w.a0Status(A0Seen(w, from, n)) == 12 && RailsAt(from, n) < A0Seen(w, from, n)
    ensures w.Answers(RailsAt(from, n)) && w.Answers(RailsAt(from, n) + w.Tries(RailsAt(from, n)))
  {}

  /** What the CPU checks saw when they failed. */
  lemma CpuErrorSaw(w: World, from: nat, e: SeqError, n: Naps)
    requires Explained(w, from, e, n) && (e == CPUNotPresent || e == UnrecognizedCPU)
    ensures exists t: nat ::
      && t > from && w.a1Status(t) == 5
      && if e == CPUNotPresent then w.cpuPresentL(t + 1)
         else !w.cpuPresentL(t + 1) && (!w.coretype(t + 2) || !w.sp3r1(t + 3) || w.sp3r2(t + 4))
  {
    assert w.a1Status(A1Seen(from, n)) == 5;
  }

  /** A timeout: three instants a turn, no reading had the awaited value, and two thousand
      ticks had gone by since the attempt began. */
  lemma TimeoutSaw(w: World, from: nat, e: SeqError, n: Naps)
    requires Explained(w, from, e, n)
    ensures e == A1Timeout ==>
      && (forall j: nat :: j <= n.a1 ==> w.a1Status(Poll(A1From(from), j)) != 5)
      && n.a1 + w.Ticks(from + 3 * n.a1 + 4) > w.Ticks(from + 1) + 2000
    ensures e == A0TimeoutGroupC ==>
      && (forall j: nat :: j <= n.groupC ==> w.a0Status(Poll(GroupCFrom(from, n), j)) != 7)
      && n.a1 + n.groupC + w.Ticks(GroupCFrom(from, n) + 3 * n.groupC + 1) > w.Ticks(from + 1) + 2000
    ensures e == A0Timeout ==>
      && (forall j: nat :: j <= n.a0 ==> w.a0Status(Poll(A0From(w, from, n), j)) != 12)
      && n.Total() + w.Ticks(A0From(w, from, n) + 3 * n.a0 + 1) > w.Ticks(from + 1) + 2000
  {
    assert Poll(A1From(from), n.a1) + 1 == from + 3 * n.a1 + 4;
    assert Poll(GroupCFrom(from, n), n.groupC) + 1 == GroupCFrom(from, n) + 3 * n.groupC + 1;
    assert Poll(A0From(w, from, n), n.a0) + 1 == A0From(w, from, n) + 3 * n.a0 + 1;
  }

  /** Before the rails the way up does not depend on how far they will come on. */
  lemma ThenRails(acts: seq<Act>, up: Reach)
    requires acts == UpActs(Neither)[..3]
    ensures acts + [Rails(true, up)] == UpActs(up)[..4]
  {}

  // ----- Retries -----

  /** `retry_i2c_txn`: up to four attempts, stopping at the first success; the last
      error is reported when all four fail. */
  method RetryI2cTxn<T, E>(txn: nat -> Result<T, E>) returns (r: Result<T, E>, attempts: nat)
    ensures 1 <= attempts <= 4
    ensures r == txn(attempts - 1)
    ensures forall i :: 0 <= i < attempts - 1 ==> txn(i).Err?
    ensures r.Err? ==> attempts == 4
  {
    attempts := 0;
    var remaining := 3;
    while true
      invariant attempts + remaining == 3 && 0 <= remaining <= 3
      invariant forall i :: 0 <= i < attempts ==> txn(i).Err?
      decreases remaining
    {
      r := txn(attempts);
      attempts := attempts + 1;
      if r.Ok? || remaining == 0 { return; }
      remaining := remaining - 1;
    }
  }

  method SwitchRail(w: World, t: nat) returns (ok: bool, t': nat)
    ensures ok == w.Answers(t) && t' == t + w.Tries(t)
  {
    var txn := (k: nat) => if w.acks(t + k) then Ok(()) else Err(());
    var r, n := RetryI2cTxn(txn);
    assert n > 1 ==> txn(0).Err?;
    assert n > 2 ==> txn(1).Err?;
    assert n > 3 ==> txn(2).Err?;
    ok, t' := r.Ok?, t + n;
  }

  /** `vcore_soc_on` and `vcore_soc_off` on the bus: the second rail is tried only after
      the first has answered. */
  method SwitchRails(w: World, t: nat) returns (reach: Reach, t': nat)
    ensures reach == w.Switching(t) && t' == w.Switched(t)
  {
    var ok, mid := SwitchRail(w, t);
    if !ok { return Neither, mid; }
    ok, t' := SwitchRail(w, mid);
    reach := if ok then Both else VCoreOnly;
  }

  function PollInterval(s: PowerState): (r: Option<nat>)
    ensures r.Some? <==> s == A0 || s == A0PlusHP
    ensures r.Some? ==> r.value == if s.A0? then TIMER_INTERVAL else 100
  {
    match s case A0 => Some(10) case A0PlusHP => Some(100) case _ => None
  }

  class Server {
    const w: World
    var state: PowerState
    var hw: Hw
    /** The current instant, and the ticks slept through so far. */
    var clock: nat
    var slept: nat
    var deadline: nat
    /** The deadline set with the kernel, if any; a sleep restores it. */
    var timer: Option<nat>

    ghost predicate Valid()
      reads this
    {
      Coupled(Snapshot(state, hw))
    }

    /** While the host may be running, the kernel timer is set for our deadline. */
    ghost predicate Armed()
      reads this
    {
      state == A0 || state == A0PlusHP ==> timer == Some(deadline)
    }

    constructor (w: World)
      ensures Valid() && Armed() && Snapshot(state, hw) == COLD_BOOT && this.w == w
    {
      this.w := w;
      state, hw, clock, slept, deadline, timer := A2, COLD_BOOT.hw, 0, 0, 0, None;
    }

    /** The kernel's timer. */
    function Now(): nat
      reads this
    {
      w.Ticks(clock) + slept
    }

    // ----- One instant each -----

    method SleepFor(n: nat)
      modifies this`clock, this`slept
      ensures slept == old(slept) + n && clock == old(clock) + 1
    {
      slept, clock := slept + n, clock + 1;
    }

    method Read<T>(reg: nat -> T) returns (value: T)
      modifies this`clock
      ensures value == reg(old(clock)) && clock == old(clock) + 1
    {
      value, clock := reg(clock), clock + 1;
    }

    method ReadTimer() returns (t: nat)
      modifies this`clock
      ensures t == old(Now()) && clock == old(clock) + 1
    {
      t, clock := Now(), clock + 1;
    }

    method Do(act: Act, ghost before: Hw, ghost acts: seq<Act>) returns (ghost acts': seq<Act>)
      requires hw == Replay(before, acts) && !act.Rails?
      modifies this`hw, this`clock
      ensures acts' == acts + [act] && hw == Replay(before, acts') && clock == old(clock) + 1
    {
      ReplayAppend(before, acts, act);
      acts' := acts + [act];
      hw, clock := Effect(hw, act), clock + 1;
    }

    /** Switches both rails; a transaction that is not acknowledged has no effect.  They
        may be switched on only at the instant at which all checks since `from` have passed. */
    method DoRails(on: bool, ghost from: nat, ghost n: Naps, ghost before: Hw, ghost acts: seq<Act>)
      returns (reach: Reach, ghost acts': seq<Act>)
      requires hw == Replay(before, acts) && (on ==> PassedGroupC(w, from, n) && clock == RailsAt(from, n))
      modifies this`hw, this`clock
      ensures reach == w.Switching(old(clock)) && clock == w.Switched(old(clock))
      ensures acts' == acts + [Rails(on, reach)] && hw == Replay(before, acts')
    {
      var after;
      reach, after := SwitchRails(w, clock);
      ReplayAppend(before, acts, Rails(on, reach));
      acts' := acts + [Rails(on, reach)];
      hw, clock := Effect(hw, Rails(on, reach)), after;
    }

    /** One turn of a polling loop: a reading, and, if it misses, a look at the timer and a
        nap of one tick unless it is late. */
    method Turn(reg: nat -> nat, want: nat, limit: nat) returns (seen: bool, late: bool)
      modifies this`clock, this`slept
      ensures seen <==> reg(old(clock)) == want
      ensures late <==> !seen && old(slept) + w.Ticks(old(clock) + 1) > limit
      ensures clock == old(clock) + (if seen then 1 else if late then 2 else 3)
      ensures slept == old(slept) + (if seen || late then 0 else 1)
    {
      late := false;
      var status := Read(reg);
      seen := status == want;
      if seen { return; }
      var time := ReadTimer();
      late := time > limit;
      if !late { SleepFor(1); }
    }

    /** A polling loop: it ends at the first reading with the awaited value, or, that value
        never having been read, as soon as a look at the timer is past the limit.  Each turn
        takes three instants and one nap of a tick, so all loops since the timer showed
        `start` at instant `from` together nap at most once per tick up to the limit, and
        once more. */
    method PollUntil(reg: nat -> nat, want: nat, start: nat, limit: nat, ghost from: nat, ghost naps: nat)
      returns (seen: bool, ghost n: nat)
      requires from <= clock && start <= limit && slept + w.Ticks(from) == start + naps && naps <= limit - start + 1
      modifies this`clock, this`slept
      ensures slept == old(slept) + n && naps + n <= limit - start + 1
      ensures seen ==> FirstSeen(reg, want, old(clock), n) && clock == Poll(old(clock), n) + 1
      ensures !seen ==> Unseen(reg, want, old(clock), n + 1) && clock == Poll(old(clock), n) + 2
      ensures !seen ==> slept + w.Ticks(Poll(old(clock), n) + 1) > limit
    {
      ghost var t := clock;
      n := 0;
      while true
        invariant clock == Poll(t, n) && Unseen(reg, want, t, n)
        invariant slept == old(slept) + n && naps + n <= limit - start + 1
        decreases limit - start + 1 - naps - n
      {
        NextPoll(t, n);
        TicksGrow(w, from, clock + 1);
        var late;
        seen, late := Turn(reg, want, limit);
        if seen { return; }
        UnseenNext(reg, want, t, n);
        if late { return; }
        n := n + 1;
      }
    }

    // ----- Transitions -----

    /** Clears the enables, waits, and switches the rails off as far as the bus allows. */
    method CutPower(ghost before: Hw, ghost acts: seq<Act>)
      returns (reach: Reach, ghost acts': seq<Act>, ghost offAt: nat)
      requires hw == Replay(before, acts)
      modifies this`hw, this`clock, this`slept
      ensures acts' == acts + [ClearEnables, Rails(false, reach)] && hw == Replay(before, acts')
      ensures old(clock) + 2 == offAt < clock && reach == w.Switching(offAt)
    {
      acts' := Do(ClearEnables, before, acts);
      SleepFor(1);
      offAt := clock;
      reach, acts' := DoRails(false, 0, Naps(0, 0, 0), before, acts');
    }

    /** `a0_failure`: power cut as far as the bus allows, mux back to the SP. */
    method A0Failure(err: SeqError, ghost before: Hw, ghost acts: seq<Act>)
      returns (e: SeqError, ghost down: Reach, ghost acts': seq<Act>)
      requires hw == Replay(before, acts)
      modifies this`hw, this`clock, this`slept
      ensures e == err && hw == Replay(before, acts') && clock > old(clock) + 2
      ensures acts' == acts + RollbackActs(down) && down == w.Switching(old(clock) + 2)
    {
      var reach;
      ghost var offAt;
      reach, acts', offAt := CutPower(before, acts);
      down := reach;
      acts' := Do(SetMux(ToSP), before, acts');
      e := err;
    }

    /** The two CPU checks, each pin read in turn. */
    method CheckCpu() returns (err: Option<SeqError>)
      modifies this`clock
      ensures err == w.CpuVerdict(old(clock))
      ensures clock == old(clock) + (if err == Some(CPUNotPresent) then 1 else 4)
    {
      var presentL := Read(w.cpuPresentL);
      if presentL { return Some(CPUNotPresent); }
      var coretype := Read(w.coretype);
      var sp3r1 := Read(w.sp3r1);
      var sp3r2 := Read(w.sp3r2);
      err := if !coretype || !sp3r1 || sp3r2 then Some(UnrecognizedCPU) else None;
    }

    /** Since the timer showed `start` at instant `from + 1`, exactly `naps` naps of a tick
        each have been taken, and no more than the deadline allows. */
    ghost predicate Napped(from: nat, start: nat, naps: nat)
      reads this
    {
      from < clock && slept + w.Ticks(from + 1) == start + naps && naps <= A0_TIMEOUT_MILLIS + 1
    }

    /** Sets the mux, starts the clock, enables A1 and waits for it. */
    method ClimbToA1(ghost before: Hw) returns (seen: bool, start: nat, ghost acts: seq<Act>, ghost n: nat)
      requires hw == before
      modifies this`hw, this`clock, this`slept
      ensures hw == Replay(before, acts) && acts == [SetMux(ToHost), WriteEnables(A1_ENABLE)]
      ensures Napped(old(clock), start, n)
      ensures seen ==> FirstSeen(w.a1Status, A1_DONE, A1From(old(clock)), n)
      ensures !seen ==> Missed(w, old(clock), w.a1Status, A1_DONE, A1From(old(clock)), n, n)
      ensures clock == Poll(A1From(old(clock)), n) + (if seen then 1 else 2)
    {
      ghost var from := clock;
      acts := Do(SetMux(ToHost), before, []);
      start := ReadTimer();
      acts := Do(WriteEnables(A1_ENABLE), before, acts);
      seen, n := PollUntil(w.a1Status, A1_DONE, start, start + A0_TIMEOUT_MILLIS, from + 1, 0);
    }

    /** The way up to the CPU checks: `err` says which one failed, if any. */
    method ClimbToCpu(ghost before: Hw) returns (err: Option<SeqError>, start: nat, ghost acts: seq<Act>, ghost n: Naps)
      requires hw == before
      modifies this`hw, this`clock, this`slept
      ensures hw == Replay(before, acts) && acts == [SetMux(ToHost), WriteEnables(A1_ENABLE)]
      ensures n == Naps(n.a1, 0, 0) && Napped(old(clock), start, n.a1)
      ensures err.Some? ==> Climbed(err.value) == 2 && UpFits(err.value, Neither)
      ensures err.Some? ==> Explained(w, old(clock), err.value, n) && clock == GivesUpAt(w, old(clock), err.value, n)
      ensures err.None? ==> PassedCpu(w, old(clock), n) && clock + 1 == GroupCFrom(old(clock), n)
    {
      var seen;
      ghost var a1;
      seen, start, acts, a1 := ClimbToA1(before);
      n := Naps(a1, 0, 0);
      if !seen { return Some(A1Timeout), start, acts, n; }
      err := CheckCpu();
    }

    /** Enables A0 and waits for Group C. */
    method ClimbToGroupC(start: nat, ghost from: nat, ghost n0: Naps, ghost before: Hw, ghost acts0: seq<Act>)
      returns (seen: bool, ghost acts: seq<Act>, ghost n: Naps)
      requires hw == Replay(before, acts0) && Napped(from, start, n0.a1)
      requires PassedCpu(w, from, n0) && clock + 1 == GroupCFrom(from, n0)
      modifies this`hw, this`clock, this`slept
      ensures acts == acts0 + [WriteEnables(A0_ENABLE)] && hw == Replay(before, acts)
      ensures n == n0.(groupC := n.groupC)
      ensures Napped(from, start, n.a1 + n.groupC)
      ensures seen ==> PassedGroupC(w, from, n) && clock == RailsAt(from, n)
      ensures !seen ==> Explained(w, from, A0TimeoutGroupC, n) && clock == GivesUpAt(w, from, A0TimeoutGroupC, n)
    {
      acts := Do(WriteEnables(A0_ENABLE), before, acts0);
      ghost var c;
      seen, c := PollUntil(w.a0Status, A0_GROUPC_PG, start, start + A0_TIMEOUT_MILLIS, from + 1, n0.a1);
      n := n0.(groupC := c);
      GroupCExplained(w, from, n0, c, seen);
    }

    /** Waits for the end of the A0 sequence. */
    method WaitForA0(start: nat, ghost from: nat, ghost n0: Naps) returns (seen: bool, ghost n: Naps)
      requires Napped(from, start, n0.Total()) && n0.a0 == 0
      requires PassedRails(w, from, n0) && clock == A0From(w, from, n0)
      modifies this`clock, this`slept
      ensures n == n0.(a0 := n.a0) && Napped(from, start, n.Total()) && PassedRails(w, from, n)
      ensures if seen then PassedA0(w, from, n) else Explained(w, from, A0Timeout, n)
      ensures clock == A0Seen(w, from, n) + (if seen then 1 else 2)
    {
      ghost var c;
      seen, c := PollUntil(w.a0Status, A0_DONE, start, start + A0_TIMEOUT_MILLIS, from + 1, n0.Total());
      n := n0.(a0 := c);
      A0Explained(w, from, n0, c, seen);
    }

    /** Switches the rails on and waits for the end of the A0 sequence. */
    method ClimbToA0(start: nat, ghost from: nat, ghost n0: Naps, ghost before: Hw, ghost acts0: seq<Act>)
      returns (err: Option<SeqError>, ghost up: Reach, ghost acts: seq<Act>, ghost n: Naps)
      requires hw == Replay(before, acts0) && n0.a0 == 0 && Napped(from, start, n0.Total())
      requires PassedGroupC(w, from, n0) && clock == RailsAt(from, n0)
      modifies this`hw, this`clock, this`slept
      ensures acts == acts0 + [Rails(true, up)] && hw == Replay(before, acts)
      ensures n == n0.(a0 := n.a0) && Napped(from, start, n.Total())
      ensures PassedGroupC(w, from, n) && up == w.Switching(RailsAt(from, n))
      ensures err.Some? ==> err.value == if up.Both? then A0Timeout else I2cFault
      ensures err.Some? ==> Explained(w, from, err.value, n) && clock == GivesUpAt(w, from, err.value, n)
      ensures err.None? ==> PassedA0(w, from, n) && clock == A0Seen(w, from, n) + 1
    {
      var reach, seen;
      n := n0;
      reach, acts := DoRails(true, from, n0, before, acts0);
      up := reach;
      if !reach.Both? { return Some(I2cFault), up, acts, n; }
      seen, n := WaitForA0(start, from, n0);
      err := if seen then None else Some(A0Timeout);
    }

    /** Everything that comes before the rails. */
    method ClimbToRails(ghost before: Hw)
      returns (err: Option<SeqError>, start: nat, ghost acts: seq<Act>, ghost n: Naps)
      requires hw == before
      modifies this`hw, this`clock, this`slept
      ensures hw == Replay(before, acts)
      ensures acts == UpActs(Neither)[..if err.Some? then Climbed(err.value) else 3]
      ensures Napped(old(clock), start, n.Total())
      ensures err.Some? ==> 2 <= Climbed(err.value) <= 3 && UpFits(err.value, Neither)
      ensures err.Some? ==> Explained(w, old(clock), err.value, n) && clock == GivesUpAt(w, old(clock), err.value, n)
      ensures err.None? ==> PassedGroupC(w, old(clock), n) && clock == RailsAt(old(clock), n)
      ensures n.a0 == 0
    {
      ghost var from := clock;
      err, start, acts, n := ClimbToCpu(before);
      if err.Some? { return; }
      var seen;
      seen, acts, n := ClimbToGroupC(start, from, n, before, acts);
      if !seen { err := Some(A0TimeoutGroupC); }
    }

    /** The whole climb, up to the point where A0 can be declared. */
    method Climb(ghost before: Hw)
      returns (err: Option<SeqError>, ghost up: Reach, ghost acts: seq<Act>, ghost n: Naps)
      requires hw == before
      modifies this`hw, this`clock, this`slept
      ensures hw == Replay(before, acts)
      ensures acts == UpActs(up)[..if err.Some? then Climbed(err.value) else 4]
      ensures err.Some? ==> err != Some(IllegalTransition) && UpFits(err.value, up)
      ensures err.Some? ==> Explained(w, old(clock), err.value, n) && clock == GivesUpAt(w, old(clock), err.value, n)
      ensures |acts| == 4 ==> PassedGroupC(w, old(clock), n) && up == w.Switching(RailsAt(old(clock), n))
      ensures err.None? ==> up.Both? && PassedA0(w, old(clock), n) && clock == A0Seen(w, old(clock), n) + 1
      ensures n.Total() <= A0_TIMEOUT_MILLIS + 1
    {
      ghost var from := clock;
      var start;
      up := Neither;
      err, start, acts, n := ClimbToRails(before);
      if err.Some? { return; }
      ghost var acts0 := acts;
      err, up, acts, n := ClimbToA0(start, from, n, before, acts);
      ThenRails(acts0, up);
    }

    /** From A2 towards A0.  The acts are the script, cut where the first check failed and
        followed by the rollback.  `n` counts the naps of each polling loop and so fixes the
        instant of every reading.  The rails are switched on only after readings of A1 done,
        of the right CPU and of Group C good, in that order, and A0 is declared only after
        one of A0 done.  A failure is explained by what was read, and a timeout by every
        polled reading having missed the awaited value until the deadline was past. */
    method PowerUp() returns (r: Result<(), SeqError>, ghost up: Reach, ghost down: Reach,
                              ghost acts: seq<Act>, ghost n: Naps)
      requires Valid() && state.A2?
      modifies this
      ensures Valid() && Requested(A2, A0, r, up, down, acts, state) && hw == Replay(old(hw), acts)
      ensures Rails(true, up) in acts ==> PassedGroupC(w, old(clock), n) && up == w.Switching(RailsAt(old(clock), n))
      ensures r.Ok? ==> PassedA0(w, old(clock), n) && A0Seen(w, old(clock), n) < clock
      ensures r.Err? ==> Explained(w, old(clock), r.error, n) && GivesUpAt(w, old(clock), r.error, n) < clock
      ensures r.Err? ==> down == w.Switching(GivesUpAt(w, old(clock), r.error, n) + 2)
      ensures Armed() && n.Total() <= A0_TIMEOUT_MILLIS + 1
    {
      ghost var before := hw;
      var err;
      down := Neither;
      err, up, acts, n := Climb(before);
      if err.Some? {
        r, down, acts := Fail(err.value, before, up, acts);
        return;
      }
      Declare(before, up, acts);
      acts := UpActs(up);
      r := Ok(());
    }

    /** Arms the timer, connects the UART and declares A0. */
    method Declare(ghost before: Hw, ghost up: Reach, ghost acts: seq<Act>)
      requires hw == Replay(before, acts) && acts == UpActs(up)[..4] && up.Both?
      requires state.A2? && Coupled(Snapshot(A2, before))
      modifies this
      ensures Valid() && Armed() && state == A0 && hw == Replay(before, UpActs(up))
      ensures clock > old(clock)
    {
      deadline := Now() + TIMER_INTERVAL;
      timer := Some(deadline);
      ghost var acts' := Do(UartOn, before, acts);
      state := A0;
      acts' := Do(Report(A0), before, acts');
      assert acts' == UpActs(up);
      Step(before, A2, A0, Ok(()), up, Neither, acts');
    }

    method Fail(err: SeqError, ghost before: Hw, ghost up: Reach, ghost acts: seq<Act>)
      returns (r: Result<(), SeqError>, ghost down: Reach, ghost acts': seq<Act>)
      requires hw == Replay(before, acts) && acts == UpActs(up)[..Climbed(err)]
      requires err != IllegalTransition && UpFits(err, up)
      requires state.A2? && Coupled(Snapshot(A2, before))
      modifies this`hw, this`clock, this`slept
      ensures Valid() && r == Err(err) && hw == Replay(before, acts') && clock > old(clock)
      ensures Requested(A2, A0, r, up, down, acts', A2)
      ensures Rails(true, up) in acts' ==> |acts| == 4
      ensures down == w.Switching(old(clock) + 2)
    {
      var e;
      e, down, acts' := A0Failure(err, before, acts);
      r := Err(e);
      Step(before, A2, A0, r, up, down, acts');
    }

    /** A request carried out as `Requested` says is a step of a run. */
    lemma Step(before: Hw, was: PowerState, t: PowerState, r: Result<(), SeqError>, up: Reach, down: Reach,
               acts: seq<Act>)
      requires Coupled(Snapshot(was, before)) && Requested(was, t, r, up, down, acts, state)
      requires hw == Replay(before, acts)
      ensures Valid() && Next(Snapshot(was, before), SetState(t, r, up, down), Snapshot(state, hw))
    {
      RequestEffect(Snapshot(was, before), t, r, up, down, Snapshot(state, hw));
    }

    /** The start of the way down: UART off and CLD_RST set. */
    method Quiesce(ghost before: Hw) returns (ghost acts: seq<Act>)
      requires hw == before
      modifies this`hw, this`clock, this`slept
      ensures acts == [UartOff, SetCldRst] && hw == Replay(before, acts) && clock > old(clock)
    {
      acts := Do(UartOff, before, []);
      acts := Do(SetCldRst, before, acts);
    }

    /** The end of it: mux to the SP, A2 reported, and time for the rails to drain. */
    method Settle(ghost before: Hw, ghost acts: seq<Act>) returns (ghost acts': seq<Act>)
      requires hw == Replay(before, acts)
      modifies this`hw, this`clock, this`slept, this`state
      ensures acts' == acts + [SetMux(ToSP), Report(A2)] && hw == Replay(before, acts')
      ensures state == A2 && clock > old(clock)
    {
      acts' := Do(SetMux(ToSP), before, acts);
      state := A2;
      acts' := Do(Report(A2), before, acts');
      SleepFor(100);
      SleepFor(100);
    }

    /** The way down.  It fails exactly when switching the rails off, begun at `offAt`, gets
        stuck, and then stops there. */
    method PowerDown() returns (r: Result<(), SeqError>, ghost down: Reach, ghost acts: seq<Act>, ghost offAt: nat)
      requires Valid() && state.InA0()
      modifies this
      ensures Valid() && Requested(old(state), A2, r, Neither, down, acts, state) && hw == Replay(old(hw), acts)
      ensures old(clock) < offAt < clock && down == w.Switching(offAt) && (r.Ok? <==> down.Both?)
      ensures deadline == old(deadline) && timer == old(timer)
    {
      ghost var before, was := hw, state;
      var reach;
      acts := Quiesce(before);
      reach, acts, offAt := CutPower(before, acts);
      down := reach;
      if reach.Both? {
        acts := Settle(before, acts);
        r := Ok(());
      } else {
        r := Err(I2cFault);
      }
      Step(before, was, A2, r, Neither, down, acts);
    }

    /** `set_state`: one step of the run, whatever the request and however it ends. */
    method SetStateInternal(target: PowerState) returns (r: Result<(), SeqError>, ghost up: Reach, ghost down: Reach)
      requires Valid()
      modifies this
      ensures Valid() && (old(Armed()) ==> Armed())
      ensures Next(Snapshot(old(state), old(hw)), SetState(target, r, up, down), Snapshot(state, hw))
      ensures old(state).A2? && r.Err? ==> state == A2 && hw.enables == NO_ENABLES && hw.mux == ToSP
      ensures r == Err(IllegalTransition) <==> !Legal(old(state), target)
      ensures state == if r.Ok? then target else old(state)
      ensures r.Ok? && target == A0 ==> hw == Hw(Enables(false, true), old(hw).cldRst, ToHost, A0, true, true, true)
      ensures r.Ok? && target == A2 ==> hw == Hw(Enables(false, false), true, ToSP, A2, false, false, false)
    {
      ghost var acts: seq<Act>, before, was, at, n := [], hw, state, 0, Naps(0, 0, 0);
      up, down := Neither, Neither;
      if state.A2? && target.A0? {
        r, up, down, acts, n := PowerUp();
      } else if state.InA0() && target.A2? {
        r, down, acts, at := PowerDown();
      } else {
        r := Err(IllegalTransition);
      }
      Step(before, was, target, r, up, down, acts);
      RequestEffect(Snapshot(was, before), target, r, up, down, Snapshot(state, hw));
    }

    // ----- The timer -----

    method UpdateState(s: PowerState, ghost before: Hw, ghost acts: seq<Act>) returns (ghost acts': seq<Act>)
      requires hw == Replay(before, acts)
      modifies this`state, this`hw, this`clock, this`slept
      ensures state == s && acts' == acts + [Report(s)] && hw == Replay(before, acts')
    {
      state := s;
      acts' := Do(Report(s), before, acts);
    }

    /** `check_reset`, then `check_thermtrip`. */
    method CheckLatches(reset: bool, thermtrip: bool, ghost before: Hw) returns (ghost acts: seq<Act>)
      requires hw == before
      modifies this`state, this`hw, this`clock, this`slept
      ensures acts == LatchActs(reset, thermtrip) && hw == Replay(before, acts)
      ensures state == Latched(old(state), reset, thermtrip)
    {
      acts := [];
      if reset { acts := UpdateState(A0Reset, before, acts); }
      if thermtrip { acts := UpdateState(A0Thermtrip, before, acts); }
    }

    method MatchNicPower(pwrenL: bool, ghost before: Hw, ghost acts0: seq<Act>) returns (ghost acts: seq<Act>)
      requires hw == Replay(before, acts0)
      modifies this`state, this`hw, this`clock, this`slept
      ensures acts == acts0 + SettleActs(old(state), pwrenL) && hw == Replay(before, acts)
      ensures state == Settled(old(state), pwrenL)
    {
      acts := acts0;
      if state.A0? && !pwrenL {
        acts := Do(ClearCldRst, before, acts);
        acts := UpdateState(A0PlusHP, before, acts);
      } else if state.A0PlusHP? && pwrenL {
        acts := Do(SetCldRst, before, acts);
        acts := UpdateState(A0, before, acts);
      }
    }

    /** The timer handler, for a notification that may also be a stale one: a new deadline
        is set exactly while there is something to poll for, and nothing else moves it. */
    method HandleTimer(reset: bool, thermtrip: bool, pwrenL: bool)
      requires Valid()
      modifies this
      ensures Valid() && Armed()
      ensures Next(Snapshot(old(state), old(hw)), Tick(reset, thermtrip, pwrenL), Snapshot(state, hw))
      ensures deadline == old(deadline) + (if state.A0? then 10 else if state.A0PlusHP? then 100 else 0)
      ensures state != A0 && state != A0PlusHP ==> timer == old(timer)
      ensures state == TickedTo(old(state), reset, thermtrip, pwrenL)
      ensures hw == old(hw).(reported := state, cldRst := CldRstAfter(old(state), state, old(hw).cldRst))
    {
      ghost var before, was := hw, state;
      if state.Polled() {
        ghost var acts := CheckLatches(reset, thermtrip, before);
        acts := MatchNicPower(pwrenL, before, acts);
      }
      TickEffect(Snapshot(was, before), reset, thermtrip, pwrenL, Snapshot(state, hw));
      var interval := PollInterval(state);
      if interval.Some? {
        deadline := deadline + interval.value;
        timer := Some(deadline);
      }
    }
  }
}
