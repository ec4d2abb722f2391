/** Streaming a bitstream from auxiliary flash into an FPGA.  Flash may change between
    reads; the running hash decides whether the load is finished or cancelled. */
module BitstreamLoad {
  import opened Nor
  import opened Tlvc
  import opened Wrappers
  import opened AuxImage

  datatype FpgaError = AuxReadError | AuxChecksumMismatch | ServerError(code: nat)
  datatype Outcome = Done | Failed(error: FpgaError)

  /** Requests sent to the FPGA server, in order. */
  datatype Call = Lock | Start | Continue(data: seq<Byte>) | Finish | Cancel | Release

  /** Everything outside this function: what the `i`-th flash read returns at each
      address and whether it succeeds, and how the FPGA server answers. */
  datatype World = World(
    flash: (nat, nat) -> Byte,
    readOk: nat -> bool,
    lock: Outcome,
    start: Outcome,
    send: nat -> Outcome,
    finish: Outcome)
  {
    ghost predicate Stable(image: seq<Byte>) {
      forall i: nat, p: nat :: p < |image| ==> flash(i, p) == image[p]
    }
  }

  const BUFFER: nat := 128

  /** Every piece of the blob can be read from flash and sent to the FPGA. */
  ghost predicate AllPieces(w: World, blob: Blob) {
    forall i: nat :: blob.start + i * BUFFER < blob.end ==> PieceOk(w, i)
  }

  predicate PieceOk(w: World, i: nat) { w.readOk(i) && w.send(i).Done? }

  /** Piece `i` is the first that cannot be read or sent, and `e` says which. */
  ghost predicate FailsAt(w: World, blob: Blob, i: nat, e: FpgaError) {
    && blob.start + i * BUFFER < blob.end && (forall k: nat :: k < i ==> PieceOk(w, k))
    && if !w.readOk(i) then e == AuxReadError else w.send(i) == Failed(e)
  }

  /** The bytes streamed to the FPGA by a row of calls. */
  function Streamed(log: seq<Call>): seq<Byte> {
    if log == [] then [] else (if log[0].Continue? then log[0].data else []) + Streamed(log[1..])
  }

  lemma {:induction false} StreamedConcat(xs: seq<Call>, ys: seq<Call>)
    ensures Streamed(xs + ys) == Streamed(xs) + Streamed(ys)
    decreases |xs|
  {
    if xs == [] {
      assert xs + ys == ys;
    } else {
      assert (xs + ys)[1..] == xs[1..] + ys;
      StreamedConcat(xs[1..], ys);
    }
  }

  predicate OnlyData(calls: seq<Call>) { forall c :: c in calls ==> c.Continue? }

  lemma ChunkIsSlice(w: World, i: nat, pos: nat, chunk: seq<Byte>, image: seq<Byte>)
    requires w.Stable(image) && pos + |chunk| <= |image|
    requires forall k :: 0 <= k < |chunk| ==> chunk[k] == w.flash(i, pos + k)
    ensures chunk == image[pos..pos + |chunk|]
  {}

  /** The read-and-send loop: it runs to the end exactly when every piece can be read and
      sent, and then the bytes hashed are exactly the bytes sent. */
  method StreamBlob(w: World, blob: Blob, ghost image: seq<Byte>)
    returns (err: Option<FpgaError>, absorbed: seq<Byte>, calls: seq<Call>)
    ensures OnlyData(calls)
    ensures err.None? <==> AllPieces(w, blob)
    ensures err.Some? ==> exists i: nat :: FailsAt(w, blob, i, err.value)
    ensures err.None? ==> absorbed == Streamed(calls)
    ensures err.None? ==> |absorbed| == if blob.start < blob.end then blob.end - blob.start else 0
    ensures err.None? ==> FromReads(w, blob.start, absorbed)
    ensures err.None? && w.Stable(image) && blob.start <= blob.end <= |image| ==>
      absorbed == image[blob.start..blob.end]
  {
    err, absorbed, calls := None, [], [];
    var pos, i := blob.start, 0;
    while pos < blob.end
      invariant pos < blob.end ==> pos == blob.start + i * BUFFER
      invariant pos >= blob.end ==> blob.end <= blob.start + i * BUFFER
      invariant err.None? && (if blob.start <= blob.end then pos <= blob.end else pos == blob.start)
      invariant forall k: nat :: k < i ==> PieceOk(w, k)
      invariant OnlyData(calls) && absorbed == Streamed(calls) && Copies(w, image, blob.start, pos, absorbed)
      invariant FromReads(w, blob.start, absorbed)
      decreases blob.end - pos
    {
      var amount := if blob.end - pos < BUFFER then blob.end - pos else BUFFER;
      ghost var was := absorbed;
      err, absorbed, calls := StreamPiece(w, i, pos, amount, absorbed, calls, blob.start, image);
      if err.Some? {
        assert FailsAt(w, blob, i, err.value);
        return;
      }
      FromOneMoreRead(w, blob.start, was, i, amount);
      pos, i := pos + amount, i + 1;
    }
  }

  /** Each byte is what the read of its piece returned at its address. */
  ghost predicate FromReads(w: World, start: nat, absorbed: seq<Byte>) {
    forall j :: 0 <= j < |absorbed| ==> absorbed[j] == w.flash(j / BUFFER, start + j)
  }

  lemma FromOneMoreRead(w: World, start: nat, absorbed: seq<Byte>, i: nat, amount: nat)
    requires FromReads(w, start, absorbed) && |absorbed| == i * BUFFER && amount <= BUFFER
    ensures FromReads(w, start, absorbed + seq(amount, k requires 0 <= k => w.flash(i, start + |absorbed| + k)))
  {
    forall j | i * BUFFER <= j < i * BUFFER + amount ensures j / BUFFER == i {}
  }

  /** On flash that stays put, `absorbed` is what the image holds from `start` to `pos`. */
  ghost predicate Copies(w: World, image: seq<Byte>, start: nat, pos: nat, absorbed: seq<Byte>) {
    start <= pos && |absorbed| == pos - start && (w.Stable(image) && pos <= |image| ==> absorbed == image[start..pos])
  }

  /** Reads one piece, hands it on and hashes it. */
  method StreamPiece(w: World, i: nat, pos: nat, amount: nat, absorbed: seq<Byte>, calls: seq<Call>,
                     ghost start: nat, ghost image: seq<Byte>)
    returns (err: Option<FpgaError>, absorbed': seq<Byte>, calls': seq<Call>)
    requires OnlyData(calls) && absorbed == Streamed(calls) && Copies(w, image, start, pos, absorbed)
    ensures OnlyData(calls') && (err.None? <==> PieceOk(w, i))
    ensures err.Some? ==> if !w.readOk(i) then err.value == AuxReadError else w.send(i) == Failed(err.value)
    ensures err.None? ==> absorbed' == Streamed(calls') && Copies(w, image, start, pos + amount, absorbed')
    ensures err.None? ==> absorbed' == absorbed + seq(amount, k requires 0 <= k => w.flash(i, pos + k))
  {
    err, absorbed', calls' := None, absorbed, calls;
    if !w.readOk(i) { return Some(AuxReadError), absorbed, calls; }
    var chunk := seq(amount, k requires 0 <= k => w.flash(i, pos + k));
    calls' := SendPiece(calls, chunk, absorbed);
    if w.send(i).Failed? { return Some(w.send(i).error), absorbed, calls'; }
    if w.Stable(image) && pos + amount <= |image| {
      ChunkIsSlice(w, i, pos, chunk, image);
      JoinSlices(image, start, pos, pos + amount);
    }
    absorbed' := absorbed + chunk;
  }

  /** Hands one piece to the FPGA server. */
  method SendPiece(calls: seq<Call>, chunk: seq<Byte>, ghost absorbed: seq<Byte>) returns (calls': seq<Call>)
    requires OnlyData(calls) && absorbed == Streamed(calls)
    ensures OnlyData(calls') && absorbed + chunk == Streamed(calls')
  {
    StreamedConcat(calls, [Continue(chunk)]);
    assert [Continue(chunk)][1..] == [];
    calls' := calls + [Continue(chunk)];
  }

  /** The three ways a session with the FPGA server can go. */
  predicate Refused(log: seq<Call>) { log == [Lock] || log == [Lock, Start, Release] }

  predicate Session(log: seq<Call>, calls: seq<Call>, last: Call) {
    OnlyData(calls) && log == [Lock, Start] + calls + [last, Release]
  }

  lemma SessionStreams(log: seq<Call>, calls: seq<Call>, last: Call)
    requires Session(log, calls, last) && !last.Continue?
    ensures Streamed(log) == Streamed(calls)
    ensures forall c :: c in log <==> c in calls || c in {Lock, Start, last, Release}
  {
    StreamedConcat([Lock, Start] + calls, [last, Release]);
    StreamedConcat([Lock, Start], calls);
    assert [last, Release][1..] == [Release] && [Release][1..] == [];
    assert [Lock, Start][1..] == [Start] && [Start][1..] == [];
  }

  /** What an opened session answers: the FPGA server's word on the finish, a mismatch, or
      the first piece that failed. */
  ghost predicate Concluded(w: World, blob: Blob, finished: bool, r: Outcome) {
    if finished then r == w.finish
    else if AllPieces(w, blob) then r == Failed(AuxChecksumMismatch)
    else r.Failed? && exists i: nat :: FailsAt(w, blob, i, r.error)
  }

  /** Whatever flash returns, the load is finished exactly when a session could be
      opened, every piece was read and sent, and the hash of the bytes that were streamed is
      the expected one; otherwise it is cancelled, and the lock is released either way. */
  method LoadBitstreamFromAuxflash(w: World, sha: Hash, blob: Blob, expected: seq<Byte>, ghost image: seq<Byte>)
    returns (r: Outcome, log: seq<Call>)
    ensures Refused(log) || exists calls, last :: last in {Finish, Cancel} && Session(log, calls, last)
    ensures Finish in log <==>
      w.lock.Done? && w.start.Done? && AllPieces(w, blob) && sha(Streamed(log)) == expected
    ensures Finish in log ==> Cancel !in log
    ensures w.lock.Failed? ==> r == w.lock && log == [Lock]
    ensures w.lock.Done? && w.start.Failed? ==> r == w.start && log == [Lock, Start, Release]
    ensures w.lock.Done? && w.start.Done? ==> Concluded(w, blob, Finish in log, r)
    ensures Finish in log && w.Stable(image) && blob.start <= blob.end <= |image| ==>
      Streamed(log) == image[blob.start..blob.end]
  {
    if w.lock.Failed? { return w.lock, [Lock]; }
    if w.start.Failed? { return w.start, [Lock, Start, Release]; }
    var err, absorbed, calls := StreamBlob(w, blob, image);
    r, log := Conclude(w, sha, expected, err, absorbed, calls);
  }

  /** The end of a session: finish if everything was streamed and hashes as expected,
      else cancel. */
  method Conclude(w: World, sha: Hash, expected: seq<Byte>, err: Option<FpgaError>, absorbed: seq<Byte>,
                  calls: seq<Call>)
    returns (r: Outcome, log: seq<Call>)
    requires OnlyData(calls) && (err.None? ==> absorbed == Streamed(calls))
    ensures exists last :: last in {Finish, Cancel} && Session(log, calls, last)
    ensures Streamed(log) == Streamed(calls)
    ensures Finish in log <==> err.None? && sha(absorbed) == expected
    ensures Finish in log ==> Cancel !in log
    ensures r ==
      if err.Some? then Failed(err.value) else if Finish in log then w.finish else Failed(AuxChecksumMismatch)
  {
    var ok := err.None? && sha(absorbed) == expected;
    var last := if ok then Finish else Cancel;
    log := [Lock, Start] + calls + [last, Release];
    assert Session(log, calls, last);
    SessionStreams(log, calls, last);
    r := if err.Some? then Failed(err.value) else if !ok then Failed(AuxChecksumMismatch) else w.finish;
  }

  lemma BlobInside(f: Layout, image: seq<Byte>, slot: nat, tag: Tag)
    requires FindBlob(f, image, slot, tag).Ok?
    ensures var b := FindBlob(f, image, slot, tag).value; b.start <= b.end <= |image| && b.slot == slot
  {
    FoundInside(Chunks(f, image, 0, |image|), AUXI, 0, |image|);
    var outer := FindTag(Chunks(f, image, 0, |image|), AUXI).value;
    FoundInside(Chunks(f, image, outer.body, outer.body + outer.len), tag, outer.body, outer.body + outer.len);
  }
}
