/** The FPGA server's lock protocol and its user-design port.  Closed receive is part of
    the model: while a task holds the lock, only its messages are delivered. */
module FpgaServer {
  import opened Nor
  import opened Wrappers

  datatype FpgaError = BadDevice | NotLocked | AlreadyLocked | ImplError | ClientWentAway
  type Result<T> = Wrappers.Result<T, FpgaError>

  const BUFFER: nat := 128

  datatype LockState = LockState(task: nat, device: nat)

  /** Traffic on the user-design ports, in order. */
  datatype Spi =
    | Take(device: nat)
    | Send(device: nat, data: seq<Byte>)
    | Receive(device: nat, reply: seq<Byte>)
    | Give(device: nat)

  /** Which port is held after `wire`: `None` if the bracketing was ever broken. */
  function Held(wire: seq<Spi>): Option<Option<nat>> {
    if wire == [] then Some(None)
    else
      var before, last := Held(wire[..|wire| - 1]), wire[|wire| - 1];
      if before.None? then None
      else match last
        case Take(d) => if before.value.None? then Some(Some(d)) else None
        case Give(d) => if before.value == Some(d) then Some(None) else None
        case Send(d, _) => if before.value == Some(d) then before else None
        case Receive(d, _) => if before.value == Some(d) then before else None
  }

  ghost predicate Balanced(wire: seq<Spi>) { Held(wire) == Some(None) }

  lemma HeldAppend(wire: seq<Spi>, s: Spi)
    ensures Held(wire + [s]) ==
      var before := Held(wire);
      if before.None? then None
      else match s
        case Take(d) => if before.value.None? then Some(Some(d)) else None
        case Give(d) => if before.value == Some(d) then Some(None) else None
        case Send(d, _) => if before.value == Some(d) then before else None
        case Receive(d, _) => if before.value == Some(d) then before else None
  {
    assert (wire + [s])[..|wire|] == wire;
  }

  /** The bytes sent by a stretch of traffic. */
  function Sent(wire: seq<Spi>): seq<Byte> {
    if wire == [] then []
    else Sent(wire[..|wire| - 1]) + (if wire[|wire| - 1].Send? then wire[|wire| - 1].data else [])
  }

  lemma SentAppend(wire: seq<Spi>, s: Spi)
    ensures Sent(wire + [s]) == Sent(wire) + (if s.Send? then s.data else [])
  {
    assert (wire + [s])[..|wire|] == wire;
  }

  /** `UserDesignRequestHeader`: the command, then the address high byte first. */
  function Header(cmd: Byte, addr: nat): (h: seq<Byte>)
    requires addr < 65536
    ensures |h| == 3 && h[0] == cmd
    ensures var high: int, low: int := h[1], h[2]; high * 256 + low == addr
  {
    [cmd, addr / 256, addr % 256]
  }

  /** A whole exchange on port `d`: taken once, given back once, nothing in between but
      traffic on `d`. */
  predicate Exchange(seg: seq<Spi>, d: nat) {
    && |seg| >= 2 && seg[0] == Take(d) && seg[|seg| - 1] == Give(d)
    && forall i :: 0 < i < |seg| - 1 ==> (seg[i].Send? || seg[i].Receive?) && seg[i].device == d
  }

  predicate Odd(n: nat) { n > 0 && !Odd(n - 1) }

  class Server {
    const devices: nat
    var lockHolder: Option<LockState>
    var loading: bool
    var wire: seq<Spi>

    // Which accesses to a port or to a client's lease fail, what a port replies, and how
    // many accesses were made.
    const fails: nat -> bool
    const reply: (nat, nat) -> Byte
    var accesses: nat

    /** No access since `a` had been made failed. */
    ghost predicate Clean(a: nat)
      reads this
    {
      forall j :: a <= j < accesses ==> !fails(j)
    }

    method Access() returns (ok: bool)
      modifies this`accesses
      ensures accesses == old(accesses) + 1 && ok == !fails(old(accesses))
    {
      ok, accesses := !fails(accesses), accesses + 1;
    }

    /** How a request on a port must answer, `first` being its first access: every access
        is made until one fails, and the error tells an access to the port from one to the
        lease.  After the first two, accesses to both alternate; `leaseFirst` says how. */
    ghost predicate Answered(first: nat, leaseFirst: bool, r: Result<()>)
      reads this
    {
      && accesses >= first
      && if r.Ok? then Clean(first)
         else
           && accesses > first && fails(accesses - 1) && (forall j :: first <= j < accesses - 1 ==> !fails(j))
           && r.error ==
                if accesses - first > 2 && Odd(accesses - first) == leaseFirst then ClientWentAway else ImplError
    }

    ghost predicate Valid()
      reads this
    {
      Balanced(wire)
    }

    constructor (devices: nat, fails: nat -> bool, reply: (nat, nat) -> Byte)
      ensures Valid() && lockHolder.None? && !loading && wire == [] && accesses == 0
      ensures this.devices == devices && this.fails == fails && this.reply == reply
    {
      this.devices, lockHolder, loading, wire := devices, None, false, [];
      this.fails, this.reply, accesses := fails, reply, 0;
    }

    /** Whose messages the kernel delivers. */
    function RecvSource(): Option<nat>
      reads this
    {
      if lockHolder.Some? then Some(lockHolder.value.task) else None
    }

    /** The kernel's promise under closed receive. */
    predicate Admitted(sender: nat)
      reads this
    {
      RecvSource().None? || RecvSource() == Some(sender)
    }

    method ClosedRecvFail()
      requires Valid()
      modifies this`lockHolder, this`loading
      ensures Valid() && lockHolder.None? && !loading
    {
      lockHolder, loading := None, false;
    }

    method Lock(sender: nat, device: nat) returns (r: Result<()>)
      requires Valid() && Admitted(sender)
      modifies this`lockHolder
      ensures Valid() && Admitted(sender)
      ensures r == if old(lockHolder).Some? then Err(AlreadyLocked) else Ok(())
      ensures lockHolder == if r.Ok? then Some(LockState(sender, device)) else old(lockHolder)
    {
      if lockHolder.Some? {
        assert lockHolder.value.task == sender;
        return Err(AlreadyLocked);
      }
      lockHolder := Some(LockState(sender, device));
      r := Ok(());
    }

    method Release(sender: nat) returns (r: Result<()>)
      requires Valid() && Admitted(sender)
      modifies this`lockHolder
      ensures Valid() && lockHolder.None?
      ensures r == if old(lockHolder).Some? then Ok(()) else Err(NotLocked)
    {
      if lockHolder.None? { return Err(NotLocked); }
      assert lockHolder.value.task == sender;
      lockHolder := None;
      r := Ok(());
    }

    /** The ownership assertion in the source holds for every admitted caller; a request
        that names another device than the locked one, or none that exists, is refused. */
    method CheckLockAndGetDevice(caller: nat, device: nat) returns (r: Result<nat>)
      requires Admitted(caller)
      ensures r.Ok? <==> device < devices && (lockHolder.Some? ==> lockHolder.value.device == device)
      ensures r == if r.Ok? then Ok(device) else Err(BadDevice)
    {
      if lockHolder.Some? {
        assert lockHolder.value.task == caller;
        if lockHolder.value.device != device { return Err(BadDevice); }
      }
      r := if device < devices then Ok(device) else Err(BadDevice);
    }

    method Put(s: Spi, ghost start: seq<Spi>, ghost seg: seq<Spi>) returns (ghost seg': seq<Spi>)
      requires wire == start + seg
      modifies this`wire
      ensures seg' == seg + [s] && wire == start + seg'
    {
      wire := wire + [s];
      seg' := seg + [s];
    }

    /** The caller may use the device. */
    predicate MayUse(device: nat)
      reads this
    {
      device < devices && (lockHolder.Some? ==> lockHolder.value.device == device)
    }

    /** Locks the port of a device the caller may use.  Failure takes nothing. */
    method LockUserDesign(caller: nat, device: nat) returns (r: Result<()>)
      requires Valid() && Admitted(caller)
      modifies this`wire, this`accesses
      ensures wire == if r.Ok? then old(wire) + [Take(device)] else old(wire)
      ensures !MayUse(device) ==> r == Err(BadDevice) && accesses == old(accesses)
      ensures MayUse(device) ==>
        accesses == old(accesses) + 1 && r == if fails(old(accesses)) then Err(ImplError) else Ok(())
    {
      var d := CheckLockAndGetDevice(caller, device);
      if d.Err? { return Err(d.error); }
      var ok := Access();
      if !ok { return Err(ImplError); }
      wire := wire + [Take(device)];
      r := Ok(());
    }

    /** One chunk: had from the client, then sent. */
    method SendChunk(device: nat, chunk: seq<Byte>, ghost start: seq<Spi>, ghost seg0: seq<Spi>)
      returns (r: Result<()>, ghost seg: seq<Spi>)
      requires wire == start + seg0 && Open(seg0, device)
      modifies this`wire, this`accesses
      ensures wire == start + seg && Open(seg, device)
      ensures Sent(seg) == Sent(seg0) + (if r.Ok? then chunk else [])
      ensures accesses == old(accesses) + (if fails(old(accesses)) then 1 else 2)
      ensures r ==
        if fails(old(accesses)) then Err(ClientWentAway)
        else if fails(old(accesses) + 1) then Err(ImplError) else Ok(())
    {
      seg := seg0;
      var leased := Access();
      if !leased { return Err(ClientWentAway), seg; }
      var ok := Access();
      if !ok { return Err(ImplError), seg; }
      SentAppend(seg, Send(device, chunk));
      seg := Put(Send(device, chunk), start, seg);
      r := Ok(());
    }

    /** The sending loop, inside the lock. */
    method SendAll(device: nat, data: seq<Byte>, ghost start: seq<Spi>, ghost seg0: seq<Spi>, ghost first: nat)
      returns (r: Result<()>, ghost seg: seq<Spi>)
      requires wire == start + seg0 && Open(seg0, device) && accesses == first + 2 && Clean(first)
      modifies this`wire, this`accesses
      ensures wire == start + seg && Open(seg, device) && Answered(first, true, r)
      ensures r.Ok? ==> Sent(seg) == Sent(seg0) + data
      ensures r.Err? ==> exists n :: 0 <= n <= |data| && Sent(seg) == Sent(seg0) + data[..n]
    {
      seg := seg0;
      r := Ok(());
      var index := 0;
      while index < |data|
        invariant 0 <= index <= |data| && r.Ok?
        invariant wire == start + seg && Open(seg, device)
        invariant accesses >= first + 2 && !Odd(accesses - first) && Clean(first)
        invariant Sent(seg) == Sent(seg0) + data[..index]
      {
        var size := if |data| - index < BUFFER then |data| - index else BUFFER;
        assert data[..index + size] == data[..index] + data[index..index + size];
        r, seg := SendChunk(device, data[index..index + size], start, seg);
        if r.Err? { return; }
        index := index + size;
      }
      assert data[..index] == data;
    }

    /** Takes the port and sends the header.  If the port was taken at all, it is open. */
    method Begin(sender: nat, device: nat, header: seq<Byte>) returns (r: Result<()>, taken: bool, ghost seg: seq<Spi>)
      requires Valid() && Admitted(sender)
      modifies this`wire, this`accesses
      ensures wire == old(wire) + seg && (if taken then Open(seg, device) else seg == [])
      ensures r.Ok? ==> taken && Sent(seg) == header && Received(seg) == []
      ensures !MayUse(device) ==> r == Err(BadDevice) && seg == [] && accesses == old(accesses)
      ensures MayUse(device) && r.Ok? ==> accesses == old(accesses) + 2 && Clean(old(accesses))
      ensures MayUse(device) && r.Err? ==> Answered(old(accesses), false, r) && Answered(old(accesses), true, r)
    {
      ghost var start := wire;
      taken, seg := false, [];
      r := LockUserDesign(sender, device);
      if r.Err? { return; }
      taken, seg := true, [Take(device)];
      var ok := Access();
      if !ok { return Err(ImplError), true, seg; }
      seg := Put(Send(device, header), start, seg);
      HeaderSent(device, header);
    }

    /** Dropping the lock guard gives the port back, on every path. */
    method End(device: nat, taken: bool, ghost start: seq<Spi>, ghost seg: seq<Spi>) returns (ghost seg': seq<Spi>)
      requires Balanced(start) && wire == start + seg && (if taken then Open(seg, device) else seg == [])
      modifies this`wire
      ensures Valid() && wire == start + seg' && (!taken ==> seg' == [])
      ensures taken ==> Exchange(seg', device) && Sent(seg') == Sent(seg) && Received(seg') == Received(seg)
    {
      seg' := seg;
      if taken {
        SentAppend(seg, Give(device));
        ReceivedAppend(seg, Give(device));
        CloseExchange(start, seg, device);
        seg' := Put(Give(device), start, seg);
      } else {
        assert start + [] == start;
      }
    }

    /** `user_design_write`: a refused request puts nothing on the wire; any other is one
        exchange that goes on until an access fails, and a successful one sends exactly the
        header and the client's bytes. */
    method UserDesignWrite(sender: nat, device: nat, op: Byte, addr: nat, data: seq<Byte>)
      returns (r: Result<()>, ghost seg: seq<Spi>)
      requires Valid() && Admitted(sender) && addr < 65536
      modifies this`wire, this`accesses
      ensures Valid() && wire == old(wire) + seg
      ensures seg == [] || Exchange(seg, device)
      ensures r.Ok? ==> seg != [] && Sent(seg) == Header(op, addr) + data
      ensures if MayUse(device) then Answered(old(accesses), true, r) else r == Err(BadDevice) && seg == []
    {
      ghost var start := wire;
      var taken;
      r, taken, seg := BeginAndSend(sender, device, Header(op, addr), data);
      seg := End(device, taken, start, seg);
    }

    /** Everything inside the lock of a write. */
    method BeginAndSend(sender: nat, device: nat, header: seq<Byte>, data: seq<Byte>)
      returns (r: Result<()>, taken: bool, ghost seg: seq<Spi>)
      requires Valid() && Admitted(sender)
      modifies this`wire, this`accesses
      ensures wire == old(wire) + seg && (if taken then Open(seg, device) else seg == [])
      ensures r.Ok? ==> taken && Sent(seg) == header + data
      ensures if MayUse(device) then Answered(old(accesses), true, r) else r == Err(BadDevice) && !taken
    {
      ghost var start, first := wire, accesses;
      r, taken, seg := Begin(sender, device, header);
      if r.Ok? { r, seg := SendAll(device, data, start, seg, first); }
    }

    /** `user_design_read`: one exchange that sends the header and hands the client exactly
        what the port replied, as many bytes as asked for. */
    method UserDesignRead(sender: nat, device: nat, op: Byte, addr: nat, len: nat)
      returns (r: Result<()>, got: seq<Byte>, ghost seg: seq<Spi>)
      requires Valid() && Admitted(sender) && addr < 65536
      modifies this`wire, this`accesses
      ensures Valid() && wire == old(wire) + seg
      ensures seg == [] || Exchange(seg, device)
      ensures r.Ok? ==> seg != [] && Sent(seg) == Header(op, addr) && got == Received(seg) && |got| == len
      ensures if MayUse(device) then Answered(old(accesses), false, r) else r == Err(BadDevice) && seg == []
    {
      ghost var start := wire;
      var taken;
      r, got, taken, seg := BeginAndReceive(sender, device, Header(op, addr), len);
      seg := End(device, taken, start, seg);
    }

    /** Everything inside the lock of a read. */
    method BeginAndReceive(sender: nat, device: nat, header: seq<Byte>, len: nat)
      returns (r: Result<()>, got: seq<Byte>, taken: bool, ghost seg: seq<Spi>)
      requires Valid() && Admitted(sender)
      modifies this`wire, this`accesses
      ensures wire == old(wire) + seg && (if taken then Open(seg, device) else seg == [])
      ensures r.Ok? ==> taken && Sent(seg) == header && got == Received(seg) && |got| == len
      ensures if MayUse(device) then Answered(old(accesses), false, r) else r == Err(BadDevice) && !taken
    {
      ghost var start, first := wire, accesses;
      got := [];
      r, taken, seg := Begin(sender, device, header);
      if r.Ok? { r, got, seg := ReceiveAll(device, len, start, seg, first); }
    }

    /** One chunk: received, then handed to the client. */
    method ReceiveChunk(device: nat, size: nat, ghost start: seq<Spi>, ghost seg0: seq<Spi>)
      returns (r: Result<()>, chunk: seq<Byte>, ghost seg: seq<Spi>)
      requires wire == start + seg0 && Open(seg0, device)
      modifies this`wire, this`accesses
      ensures wire == start + seg && Open(seg, device) && Sent(seg) == Sent(seg0)
      ensures r.Ok? ==> |chunk| == size && Received(seg) == Received(seg0) + chunk
      ensures accesses == old(accesses) + (if fails(old(accesses)) then 1 else 2)
      ensures r ==
        if fails(old(accesses)) then Err(ImplError)
        else if fails(old(accesses) + 1) then Err(ClientWentAway) else Ok(())
    {
      seg, chunk := seg0, [];
      var ok := Access();
      if !ok { return Err(ImplError), chunk, seg; }
      var n := accesses;
      chunk := seq(size, k requires 0 <= k => reply(n, k));
      SentAppend(seg, Receive(device, chunk));
      ReceivedAppend(seg, Receive(device, chunk));
      seg := Put(Receive(device, chunk), start, seg);
      var leased := Access();
      r := if leased then Ok(()) else Err(ClientWentAway);
    }

    method ReceiveAll(device: nat, len: nat, ghost start: seq<Spi>, ghost seg0: seq<Spi>, ghost first: nat)
      returns (r: Result<()>, got: seq<Byte>, ghost seg: seq<Spi>)
      requires wire == start + seg0 && Open(seg0, device) && accesses == first + 2 && Clean(first)
      modifies this`wire, this`accesses
      ensures wire == start + seg && Open(seg, device) && Sent(seg) == Sent(seg0) && Answered(first, false, r)
      ensures r.Ok? ==> |got| == len && Received(seg) == Received(seg0) + got
    {
      seg, got := seg0, [];
      r := Ok(());
      while |got| < len
        invariant |got| <= len && r.Ok?
        invariant wire == start + seg && Open(seg, device)
        invariant accesses >= first + 2 && !Odd(accesses - first) && Clean(first)
        invariant Sent(seg) == Sent(seg0) && Received(seg) == Received(seg0) + got
      {
        var size := if len - |got| < BUFFER then len - |got| else BUFFER;
        var chunk;
        r, chunk, seg := ReceiveChunk(device, size, start, seg);
        if r.Err? { return; }
        got := got + chunk;
      }
    }

    /** One event under closed receive.  A message of another task waits while the lock is
        held; a dead holder gives the lock up.  While the lock is held, traffic is caused
        only by the holder and is only on the locked device. */
    method Handle(e: Event)
      requires Valid() && (e.Write? || e.Read? ==> e.addr < 65536)
      modifies this
      ensures Valid() && old(wire) <= wire && lockHolder == After(old(lockHolder), e)
      ensures forall j :: |old(wire)| <= j < |wire| ==> Permitted(old(lockHolder), e, wire[j])
    {
      if e.HolderDied? {
        if lockHolder.Some? { ClosedRecvFail(); }
      } else if Admitted(e.sender) {
        match e {
          case TakeLock(s, d) => var _ := Lock(s, d);
          case GiveLock(s) => var _ := Release(s);
          case Write(s, d, op, addr, data) => var _, _ := UserDesignWrite(s, d, op, addr, data);
          case Read(s, d, op, addr, len) => var _, _, _ := UserDesignRead(s, d, op, addr, len);
        }
      }
    }

    /** The dispatch loop over any sequence of events: the ports stay balanced, every
        ownership assertion holds, and `marks` records the lock and the length of the
        traffic before each event. */
    method Serve(events: seq<Event>) returns (ghost marks: seq<Mark>)
      requires Valid()
      requires forall e :: e in events && (e.Write? || e.Read?) ==> e.addr < 65536
      modifies this
      ensures Valid() && old(wire) <= wire && Traced(marks, events, wire)
      ensures marks[0] == Mark(old(lockHolder), |old(wire)|)
    {
      marks := [Mark(lockHolder, |wire|)];
      for i := 0 to |events|
        invariant Valid() && old(wire) <= wire && Traced(marks, events[..i], wire)
        invariant marks[0] == Mark(old(lockHolder), |old(wire)|) && marks[i] == Mark(lockHolder, |wire|)
      {
        ghost var before := wire;
        Handle(events[i]);
        TracedOn(marks, events, i, before, wire, lockHolder);
        marks := marks + [Mark(lockHolder, |wire|)];
      }
      assert events[..|events|] == events;
    }
  }

  // ----- Exclusion -----

  /** What an event does to the lock: only the holder's messages are delivered. */
  function After(lock: Option<LockState>, e: Event): Option<LockState> {
    if e.HolderDied? then None
    else if lock.Some? && lock.value.task != e.sender then lock
    else if e.GiveLock? then None
    else if e.TakeLock? && lock.None? then Some(LockState(e.sender, e.device))
    else lock
  }

  /** Traffic that an event may cause under a lock. */
  predicate Permitted(lock: Option<LockState>, e: Event, x: Spi) {
    lock.Some? ==> x.device == lock.value.device && (e.Write? || e.Read?) && e.sender == lock.value.task
  }

  datatype Mark = Mark(lock: Option<LockState>, at: nat)

  /** The lock and the traffic, event by event. */
  ghost predicate Traced(marks: seq<Mark>, events: seq<Event>, wire: seq<Spi>) {
    && |marks| == |events| + 1 && marks[|events|].at <= |wire|
    && forall i :: 0 <= i < |events| ==> TracedAt(marks[i], events[i], marks[i + 1], wire)
  }

  ghost predicate TracedAt(m: Mark, e: Event, m': Mark, wire: seq<Spi>) {
    && m.at <= m'.at <= |wire| && m'.lock == After(m.lock, e)
    && forall j :: m.at <= j < m'.at ==> Permitted(m.lock, e, wire[j])
  }

  lemma TracedOn(marks: seq<Mark>, events: seq<Event>, i: nat, before: seq<Spi>, wire: seq<Spi>,
                 lock: Option<LockState>)
    requires i < |events| && Traced(marks, events[..i], before) && marks[i].at == |before| && before <= wire
    requires lock == After(marks[i].lock, events[i])
    requires forall j :: |before| <= j < |wire| ==> Permitted(marks[i].lock, events[i], wire[j])
    ensures Traced(marks + [Mark(lock, |wire|)], events[..i + 1], wire)
  {
    var marks', events' := marks + [Mark(lock, |wire|)], events[..i + 1];
    forall k | 0 <= k < i + 1 ensures TracedAt(marks'[k], events'[k], marks'[k + 1], wire) {
      if k < i { assert TracedAt(marks[k], events[..i][k], marks[k + 1], before); }
    }
  }

  predicate Ends(h: LockState, e: Event) { e.HolderDied? || (e.GiveLock? && e.sender == h.task) }

  /** From when a lock is granted until its holder releases it or dies, the lock stays with
      it and everything on the wire is on the locked device, put there by the holder. */
  lemma {:induction false} LockExcludes(marks: seq<Mark>, events: seq<Event>, wire: seq<Spi>,
                                        i: nat, k: nat, h: LockState)
    requires Traced(marks, events, wire) && i <= k <= |events| && marks[i].lock == Some(h)
    requires forall m :: i <= m < k ==> !Ends(h, events[m])
    ensures marks[k].lock == Some(h) && marks[i].at <= marks[k].at <= |wire|
    ensures forall j :: marks[i].at <= j < marks[k].at ==> wire[j].device == h.device
    ensures forall m :: i <= m < k && marks[m].at < marks[m + 1].at ==>
      (events[m].Write? || events[m].Read?) && events[m].sender == h.task
    decreases k
  {
    if i < k {
      LockExcludes(marks, events, wire, i, k - 1, h);
      assert TracedAt(marks[k - 1], events[k - 1], marks[k], wire) && !Ends(h, events[k - 1]);
      if marks[k - 1].at < marks[k].at {
        assert Permitted(Some(h), events[k - 1], wire[marks[k - 1].at]);
      }
    } else if k < |events| {
      assert TracedAt(marks[k], events[k], marks[k + 1], wire);
    } else if k > 0 {
      assert TracedAt(marks[k - 1], events[k - 1], marks[k], wire);
    }
  }

  datatype Event =
    | TakeLock(sender: nat, device: nat)
    | GiveLock(sender: nat)
    | Write(sender: nat, device: nat, op: Byte, addr: nat, data: seq<Byte>)
    | Read(sender: nat, device: nat, op: Byte, addr: nat, len: nat)
    | HolderDied

  /** An exchange that has been opened and not yet closed. */
  predicate Open(seg: seq<Spi>, d: nat) {
    && |seg| >= 1 && seg[0] == Take(d)
    && forall i :: 0 < i < |seg| ==> (seg[i].Send? || seg[i].Receive?) && seg[i].device == d
  }

  /** The bytes received by a stretch of traffic. */
  function Received(wire: seq<Spi>): seq<Byte> {
    if wire == [] then []
    else Received(wire[..|wire| - 1]) + (if wire[|wire| - 1].Receive? then wire[|wire| - 1].reply else [])
  }

  lemma ReceivedAppend(wire: seq<Spi>, s: Spi)
    ensures Received(wire + [s]) == Received(wire) + (if s.Receive? then s.reply else [])
  {
    assert (wire + [s])[..|wire|] == wire;
  }

  lemma HeaderSent(d: nat, header: seq<Byte>)
    ensures var seg := [Take(d)] + [Send(d, header)]; Sent(seg) == header && Received(seg) == []
  {
    assert [] + [Take(d)] == [Take(d)];
    SentAppend([], Take(d));
    ReceivedAppend([], Take(d));
    SentAppend([Take(d)], Send(d, header));
    ReceivedAppend([Take(d)], Send(d, header));
  }

  lemma {:induction false} OpenHolds(start: seq<Spi>, seg: seq<Spi>, d: nat)
    requires Balanced(start) && Open(seg, d)
    ensures Held(start + seg) == Some(Some(d))
    decreases |seg|
  {
    var front, last := seg[..|seg| - 1], seg[|seg| - 1];
    assert start + seg == (start + front) + [last];
    HeldAppend(start + front, last);
    if front == [] {
      assert start + front == start;
    } else {
      OpenHolds(start, front, d);
    }
  }

  lemma CloseExchange(start: seq<Spi>, seg: seq<Spi>, d: nat)
    requires Balanced(start) && Open(seg, d)
    ensures Balanced(start + (seg + [Give(d)])) && Exchange(seg + [Give(d)], d)
  {
    OpenHolds(start, seg, d);
    assert start + (seg + [Give(d)]) == (start + seg) + [Give(d)];
    HeldAppend(start + seg, Give(d));
  }
}
