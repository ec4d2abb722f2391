/** Loading an FPGA from the auxiliary flash server itself: the blob is looked up in the
    active slot and every piece of it is read through the server. */
module ActiveLoad {
  import opened Nor
  import opened Tlvc
  import opened Wrappers
  import opened AuxImage
  import opened BitstreamLoad
  import AuxFlash

  ghost predicate ReadSoFar(image: seq<Byte>, start: nat, pos: nat, absorbed: seq<Byte>) {
    start <= pos <= |image| && absorbed == image[start..pos]
  }

  /** Reads one piece through the server, hands it on and hashes it. */
  method PieceFromServer(s: AuxFlash.Server, w: World, slot: nat, i: nat, pos: nat, amount: nat,
                         absorbed: seq<Byte>, calls: seq<Call>, ghost start: nat)
    returns (err: Option<FpgaError>, absorbed': seq<Byte>, calls': seq<Call>)
    requires s.Valid() && slot < s.g.count && 0 < amount <= BUFFER && pos + amount <= s.g.size
    requires OnlyData(calls) && absorbed == Streamed(calls)
    requires ReadSoFar(AuxFlash.Image(s.g, s.chip.mem, slot), start, pos, absorbed)
    ensures OnlyData(calls') && (err.None? <==> PieceOk(w, i))
    ensures err.Some? ==> if !w.readOk(i) then err.value == AuxReadError else w.send(i) == Failed(err.value)
    ensures err.None? ==> absorbed' == Streamed(calls')
    ensures err.None? ==> ReadSoFar(AuxFlash.Image(s.g, s.chip.mem, slot), start, pos + amount, absorbed')
  {
    err, absorbed', calls' := None, absorbed, calls;
    var chunk := s.ReadSlotWithOffset(slot, pos, amount, if w.readOk(i) then 1 else 0);
    if chunk.Err? { return Some(AuxReadError), absorbed, calls; }
    calls' := SendPiece(calls, chunk.value, absorbed);
    if w.send(i).Failed? { return Some(w.send(i).error), absorbed, calls'; }
    JoinSlices(AuxFlash.Image(s.g, s.chip.mem, slot), start, pos, pos + amount);
    absorbed' := absorbed + chunk.value;
  }

  /** The read-and-send loop over the server's slot reads. */
  method StreamFromServer(s: AuxFlash.Server, w: World, blob: Blob)
    returns (err: Option<FpgaError>, absorbed: seq<Byte>, calls: seq<Call>)
    requires s.Valid() && blob.slot < s.g.count && blob.start <= blob.end <= s.g.size
    ensures OnlyData(calls) && (err.None? <==> AllPieces(w, blob))
    ensures err.Some? ==> exists i: nat :: FailsAt(w, blob, i, err.value)
    ensures err.None? ==>
      absorbed == Streamed(calls) == AuxFlash.Image(s.g, s.chip.mem, blob.slot)[blob.start..blob.end]
  {
    ghost var image := AuxFlash.Image(s.g, s.chip.mem, blob.slot);
    err, absorbed, calls := None, [], [];
    var pos, i := blob.start, 0;
    while pos < blob.end
      invariant err.None? && pos <= blob.end
      invariant pos == blob.start + i * BUFFER || (pos == blob.end <= blob.start + i * BUFFER)
      invariant forall k: nat :: k < i ==> PieceOk(w, k)
      invariant OnlyData(calls) && absorbed == Streamed(calls) && ReadSoFar(image, blob.start, pos, absorbed)
    {
      var amount := if blob.end - pos < BUFFER then blob.end - pos else BUFFER;
      err, absorbed, calls := PieceFromServer(s, w, blob.slot, i, pos, amount, absorbed, calls, blob.start);
      if err.Some? {
        assert FailsAt(w, blob, i, err.value);
        return;
      }
      pos, i := pos + amount, i + 1;
    }
  }

  /** The chunk that a tag names in an image. */
  ghost predicate Named(f: Layout, image: seq<Byte>, tag: Tag, c: Chunk) {
    var outer := Tagged(Chunks(f, image, 0, |image|), AUXI);
    && outer != [] && Tagged(Inside(f, image, outer[0]), tag) != []
    && c == Tagged(Inside(f, image, outer[0]), tag)[0]
  }

  /** What looking a tag up has to do with the chunk it names. */
  lemma NamedIsFound(f: Layout, image: seq<Byte>, slot: nat, tag: Tag, c: Chunk)
    ensures FindBlob(f, image, slot, tag).Err? ==> !Named(f, image, tag, c)
    ensures Named(f, image, tag, c) ==>
      && FindBlob(f, image, slot, tag) == Ok(Blob(slot, c.body, c.body + c.len))
      && c.body + c.len <= |image| && Body(image, c) == image[c.body..c.body + c.len]
  {
    FindBlobIs(f, image, slot, tag);
    if FindBlob(f, image, slot, tag).Ok? { BlobInside(f, image, slot, tag); }
  }

  /** One session for a blob of a slot. */
  method LoadBlob(s: AuxFlash.Server, w: World, sha: Hash, blob: Blob, expected: seq<Byte>)
    returns (r: Outcome, log: seq<Call>)
    requires s.Valid() && blob.slot < s.g.count && blob.start <= blob.end <= s.g.size
    ensures var body := AuxFlash.Image(s.g, s.chip.mem, blob.slot)[blob.start..blob.end];
      && (Finish in log <==> w.lock.Done? && w.start.Done? && AllPieces(w, blob) && sha(body) == expected)
      && (Finish in log ==> Streamed(log) == body && r == w.finish)
    ensures log != []
  {
    if w.lock.Failed? { return w.lock, [Lock]; }
    if w.start.Failed? { return w.start, [Lock, Start, Release]; }
    var err, absorbed, calls := StreamFromServer(s, w, blob);
    r, log := Conclude(w, sha, expected, err, absorbed, calls);
    assert Release in log;
  }

  /** End to end.  The load is finished exactly when there is an active slot, whose image
      has the expected checksum, the tag names a chunk in it, a session can be opened, every
      piece of its body is read and sent, and the body hashes as expected; and then exactly
      that body was streamed. */
  method LoadActive(s: AuxFlash.Server, w: World, sha: Hash, tag: Tag, expected: seq<Byte>)
    returns (r: Outcome, log: seq<Call>)
    requires s.Valid()
    ensures s.activeSlot.None? ==> log == [] && r.Failed?
    ensures s.activeSlot.Some? ==>
      s.Good(s.chip.mem, s.activeSlot.value) &&
      var image := AuxFlash.Image(s.g, s.chip.mem, s.activeSlot.value);
      && (log == [] ==> r.Failed? && forall c :: !Named(s.layout, image, tag, c))
      && forall c :: Named(s.layout, image, tag, c) ==>
           && (Finish in log <==>
                 && w.lock.Done? && w.start.Done?
                 && AllPieces(w, Blob(s.activeSlot.value, c.body, c.body + c.len))
                 && sha(Body(image, c)) == expected)
           && (Finish in log ==> Streamed(log) == Body(image, c) && r == w.finish)
  {
    if s.activeSlot.None? { return Failed(ServerError(0)), []; }
    var slot := s.activeSlot.value;
    var image := AuxFlash.Image(s.g, s.chip.mem, slot);
    forall c { NamedIsFound(s.layout, image, slot, tag, c); }
    var found := GetBlobByTag(s.layout, image, slot, tag);
    if found.Err? { return Failed(ServerError(0)), []; }
    BlobInside(s.layout, image, slot, tag);
    r, log := LoadBlob(s, w, sha, found.value, expected);
  }
}
