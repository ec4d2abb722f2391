/** Reading an auxiliary-flash image: its stored and computed checksums, and where a
    named blob lies.  The hash (SHA3-256) is a parameter. */
module AuxImage {
  import opened Nor
  import opened Tlvc
  import opened Wrappers

  type Hash = seq<Byte> -> seq<Byte>

  const CHCK: Tag := [0x43, 0x48, 0x43, 0x4B]
  const AUXI: Tag := [0x41, 0x55, 0x58, 0x49]
  const CHECKSUM_SIZE: nat := 32
  const SCRATCH: nat := 256

  datatype AuxFlashError =
    WriteEnableFailed | InvalidSlot | BadChckSize | MissingChck | MissingAuxi | MultipleChck
  | MultipleAuxi | ChckMismatch | AddressOverflow | UnalignedAddress | NoActiveSlot | NoSuchBlob
  | SlotActive | ClientWentAway

  type Result<T> = Wrappers.Result<T, AuxFlashError>

  datatype Blob = Blob(slot: nat, start: nat, end: nat)

  /** The verdict on a row of chunks, given the checksums met so far. */
  function Judge(sha: Hash, m: seq<Byte>, cs: seq<Chunk>, expected: Option<seq<Byte>>, actual: Option<seq<Byte>>)
    : Result<seq<Byte>>
    decreases |cs|
  {
    if cs == [] then
      if expected.None? then Err(MissingChck)
      else if actual.None? then Err(MissingAuxi)
      else if expected != actual then Err(ChckMismatch)
      else Ok(expected.value)
    else if cs[0].tag == CHCK then
      if expected.Some? then Err(MultipleChck)
      else if cs[0].len != CHECKSUM_SIZE then Err(BadChckSize)
      else Judge(sha, m, cs[1..], Some(Body(m, cs[0])), actual)
    else if cs[0].tag == AUXI then
      if actual.Some? then Err(MultipleAuxi)
      else Judge(sha, m, cs[1..], expected, Some(sha(Body(m, cs[0]))))
    else Judge(sha, m, cs[1..], expected, actual)
  }

  function ImageChecksum(f: Layout, sha: Hash, m: seq<Byte>): Result<seq<Byte>> {
    Judge(sha, m, Chunks(f, m, 0, |m|), None, None)
  }

  method HashBody(sha: Hash, m: seq<Byte>, c: Chunk) returns (digest: seq<Byte>)
    requires c.body + c.len <= |m|
    ensures digest == sha(Body(m, c))
  {
    var absorbed: seq<Byte> := [];
    var i := 0;
    while i < c.len
      invariant 0 <= i <= c.len
      invariant absorbed == m[c.body..c.body + i]
    {
      var amount := if c.len - i < SCRATCH then c.len - i else SCRATCH;
      absorbed := absorbed + m[c.body + i..c.body + i + amount];
      i := i + amount;
    }
    digest := sha(absorbed);
  }

  method ReadChecksum(f: Layout, sha: Hash, m: seq<Byte>) returns (r: Result<seq<Byte>>)
    ensures r == ImageChecksum(f, sha, m)
    ensures Verdict(sha, m, Chunks(f, m, 0, |m|), r)
  {
    ImageVerdict(f, sha, m);
    var expected, actual: Option<seq<Byte>> := None, None;
    var pos := 0;
    var step := Next(f, m, pos, |m|);
    while step.Got?
      invariant pos <= |m| && step == Next(f, m, pos, |m|)
      invariant Judge(sha, m, Chunks(f, m, pos, |m|), expected, actual) == ImageChecksum(f, sha, m)
      decreases |m| - pos
    {
      var chunk := step.chunk;
      assert Chunks(f, m, pos, |m|)[1..] == Chunks(f, m, step.next, |m|);
      if chunk.tag == CHCK {
        if expected.Some? { return Err(MultipleChck); }
        if chunk.len != CHECKSUM_SIZE { return Err(BadChckSize); }
        expected := Some(Body(m, chunk));
      } else if chunk.tag == AUXI {
        if actual.Some? { return Err(MultipleAuxi); }
        var digest := HashBody(sha, m, chunk);
        actual := Some(digest);
      }
      pos := step.next;
      step := Next(f, m, pos, |m|);
    }
    if expected.None? { return Err(MissingChck); }
    if actual.None? { return Err(MissingAuxi); }
    r := if expected != actual then Err(ChckMismatch) else Ok(expected.value);
  }

  /** The chunks tagged `tag`, in order. */
  function Tagged(cs: seq<Chunk>, tag: Tag): seq<Chunk> {
    if cs == [] then []
    else (if cs[0].tag == tag then [cs[0]] else []) + Tagged(cs[1..], tag)
  }

  ghost predicate StoredIs(m: seq<Byte>, cs: seq<Chunk>, x: seq<Byte>)
  {
    var stored := Tagged(cs, CHCK);
    |stored| == 1 && stored[0].len == CHECKSUM_SIZE && Body(m, stored[0]) == x
  }

  ghost predicate ComputedIs(sha: Hash, m: seq<Byte>, cs: seq<Chunk>, x: seq<Byte>)
  {
    var data := Tagged(cs, AUXI);
    |data| == 1 && sha(Body(m, data[0])) == x
  }

  lemma {:induction false} JudgeOkIff(sha: Hash, m: seq<Byte>, cs: seq<Chunk>,
                                      e: Option<seq<Byte>>, a: Option<seq<Byte>>, x: seq<Byte>)
    ensures Judge(sha, m, cs, e, a) == Ok(x) <==>
      && (if e.Some? then e.value == x && Tagged(cs, CHCK) == [] else StoredIs(m, cs, x))
      && (if a.Some? then a.value == x && Tagged(cs, AUXI) == [] else ComputedIs(sha, m, cs, x))
    decreases |cs|
  {
    if cs != [] {
      var rest := cs[1..];
      var e' := if cs[0].tag == CHCK then Some(Body(m, cs[0])) else e;
      var a' := if cs[0].tag == AUXI then Some(sha(Body(m, cs[0]))) else a;
      JudgeOkIff(sha, m, rest, e', a', x);
    }
  }

  /** An image is accepted with checksum `x` exactly when it has one CHCK chunk, of 32
      bytes, and one AUXI chunk, and both the stored and the computed hash are `x`. */
  lemma AcceptedIff(f: Layout, sha: Hash, m: seq<Byte>, x: seq<Byte>)
    ensures var cs := Chunks(f, m, 0, |m|);
      ImageChecksum(f, sha, m) == Ok(x) <==> StoredIs(m, cs, x) && ComputedIs(sha, m, cs, x)
  {
    JudgeOkIff(sha, m, Chunks(f, m, 0, |m|), None, None, x);
  }

  lemma {:induction false} TaggedConcat(xs: seq<Chunk>, ys: seq<Chunk>, tag: Tag)
    ensures Tagged(xs + ys, tag) == Tagged(xs, tag) + Tagged(ys, tag)
    decreases |xs|
  {
    if xs == [] {
      assert xs + ys == ys;
    } else {
      var head, rest := if xs[0].tag == tag then [xs[0]] else [], xs[1..];
      TaggedConcat(rest, ys, tag);
      assert (xs + ys)[1..] == rest + ys && (xs + ys)[0] == xs[0];
      assert Tagged(xs + ys, tag) == head + Tagged(rest + ys, tag);
      assert head + (Tagged(rest, tag) + Tagged(ys, tag)) == (head + Tagged(rest, tag)) + Tagged(ys, tag);
    }
  }

  /** No complaint about the chunks so far: at most one CHCK, of 32 bytes, and one AUXI. */
  predicate Fine(cs: seq<Chunk>) {
    var stored := Tagged(cs, CHCK);
    |stored| <= 1 && (stored != [] ==> stored[0].len == CHECKSUM_SIZE) && |Tagged(cs, AUXI)| <= 1
  }

  function StoredIn(m: seq<Byte>, cs: seq<Chunk>): Option<seq<Byte>> {
    if Tagged(cs, CHCK) == [] then None else Some(Body(m, Tagged(cs, CHCK)[0]))
  }

  function ComputedIn(sha: Hash, m: seq<Byte>, cs: seq<Chunk>): Option<seq<Byte>> {
    if Tagged(cs, AUXI) == [] then None else Some(sha(Body(m, Tagged(cs, AUXI)[0])))
  }

  /** The complaint about a chunk that follows `before`. */
  function Complaint(before: seq<Chunk>, c: Chunk): AuxFlashError {
    if c.tag != CHCK then MultipleAuxi
    else if Tagged(before, CHCK) != [] then MultipleChck
    else BadChckSize
  }

  /** The verdict on an image: the first chunk that is one too many or of the wrong size is
      complained about; else what is missing; else whether the hashes differ. */
  ghost predicate Verdict(sha: Hash, m: seq<Byte>, cs: seq<Chunk>, r: Result<seq<Byte>>) {
    if Fine(cs) then
      r == (if StoredIn(m, cs).None? then Err(MissingChck)
            else if ComputedIn(sha, m, cs).None? then Err(MissingAuxi)
            else if StoredIn(m, cs) != ComputedIn(sha, m, cs) then Err(ChckMismatch)
            else Ok(StoredIn(m, cs).value))
    else exists j: nat :: FirstBad(cs, j) && r == Err(Complaint(cs[..j], cs[j]))
  }

  predicate FirstBad(cs: seq<Chunk>, j: nat) { j < |cs| && Fine(cs[..j]) && !Fine(cs[..j + 1]) }

  lemma TaggedOneMore(pre: seq<Chunk>, c: Chunk, tag: Tag)
    ensures Tagged(pre + [c], tag) == Tagged(pre, tag) + (if c.tag == tag then [c] else [])
  {
    TaggedConcat(pre, [c], tag);
    assert [c][1..] == [];
  }

  lemma {:induction false} NotFineLater(cs: seq<Chunk>, j: nat)
    requires j <= |cs| && !Fine(cs[..j])
    ensures !Fine(cs)
  {
    assert cs == cs[..j] + cs[j..];
    TaggedConcat(cs[..j], cs[j..], CHCK);
    TaggedConcat(cs[..j], cs[j..], AUXI);
  }

  /** `Judge` is that verdict: `pre` has been walked, `cs` is still to come. */
  lemma {:induction false} JudgeIsVerdict(sha: Hash, m: seq<Byte>, pre: seq<Chunk>, cs: seq<Chunk>)
    requires Fine(pre)
    ensures Verdict(sha, m, pre + cs, Judge(sha, m, cs, StoredIn(m, pre), ComputedIn(sha, m, pre)))
    decreases |cs|
  {
    if cs == [] {
      assert pre + cs == pre;
    } else {
      var c, all := cs[0], pre + cs;
      TaggedOneMore(pre, c, CHCK);
      TaggedOneMore(pre, c, AUXI);
      assert CHCK[1] != AUXI[1];
      assert all == (pre + [c]) + cs[1..];
      assert all[..|pre|] == pre && all[..|pre| + 1] == pre + [c] && all[|pre|] == c;
      if Fine(pre + [c]) {
        JudgeIsVerdict(sha, m, pre + [c], cs[1..]);
      } else {
        assert FirstBad(all, |pre|);
        NotFineLater(all, |pre| + 1);
      }
    }
  }

  /** The checksum of an image is the verdict on its chunks, errors included. */
  lemma ImageVerdict(f: Layout, sha: Hash, m: seq<Byte>)
    ensures Verdict(sha, m, Chunks(f, m, 0, |m|), ImageChecksum(f, sha, m))
  {
    var cs := Chunks(f, m, 0, |m|);
    JudgeIsVerdict(sha, m, [], cs);
    assert [] + cs == cs;
  }

  lemma {:induction false} TaggedIsIn(cs: seq<Chunk>, tag: Tag, c: Chunk)
    requires c in Tagged(cs, tag)
    ensures c in cs
  {
    if c != cs[0] { TaggedIsIn(cs[1..], tag, c); }
  }

  /** From `e` on the reader finds nothing that the checksum looks at. */
  predicate CleanFrom(f: Layout, m: seq<Byte>, e: nat)
    requires e <= |m|
  {
    var rest := Chunks(f, m, e, |m|);
    Tagged(rest, CHCK) == [] && Tagged(rest, AUXI) == []
  }

  lemma SameBody(f: Layout, m: seq<Byte>, m': seq<Byte>, tag: Tag, c: Chunk)
    requires |m'| == |m| && c in Tagged(Chunks(f, m, 0, |m|), tag)
    requires var e := Stop(f, m, 0, |m|); m'[..e] == m[..e]
    ensures Body(m', c) == Body(m, c)
  {
    var cs := Chunks(f, m, 0, |m|);
    TaggedIsIn(cs, tag, c);
    var i :| 0 <= i < |cs| && cs[i] == c;
    BodiesAgree(f, m, m', 0, |m|, i);
  }

  /** A copy of the walked part of an accepted image is accepted, with the same checksum,
      exactly when what follows it in the copy holds no further CHCK or AUXI chunk. */
  lemma CopyAcceptedIff(f: Layout, sha: Hash, m: seq<Byte>, m': seq<Byte>, x: seq<Byte>)
    requires |m'| == |m| && ImageChecksum(f, sha, m) == Ok(x)
    requires var e := Stop(f, m, 0, |m|); m'[..e] == m[..e]
    ensures ImageChecksum(f, sha, m') == Ok(x) <==> CleanFrom(f, m', Stop(f, m, 0, |m|))
  {
    var cs := Chunks(f, m, 0, |m|);
    var rest := Chunks(f, m', Stop(f, m, 0, |m|), |m|);
    WalkSplits(f, m, m', 0, |m|);
    TaggedConcat(cs, rest, CHCK);
    TaggedConcat(cs, rest, AUXI);
    AcceptedIff(f, sha, m, x);
    AcceptedIff(f, sha, m', x);
    SameBody(f, m, m', CHCK, Tagged(cs, CHCK)[0]);
    SameBody(f, m, m', AUXI, Tagged(cs, AUXI)[0]);
  }

  // ----- Finding a blob -----

  function FindTag(cs: seq<Chunk>, tag: Tag): Option<Chunk> {
    if cs == [] then None else if cs[0].tag == tag then Some(cs[0]) else FindTag(cs[1..], tag)
  }

  lemma {:induction false} FoundInside(cs: seq<Chunk>, tag: Tag, lo: nat, hi: nat)
    requires forall i :: 0 <= i < |cs| ==> lo < cs[i].body <= cs[i].body + cs[i].len <= hi
    ensures FindTag(cs, tag).Some? ==>
      lo < FindTag(cs, tag).value.body && FindTag(cs, tag).value.body + FindTag(cs, tag).value.len <= hi
  {
    if cs != [] { FoundInside(cs[1..], tag, lo, hi); }
  }

  lemma {:induction false} FindTagIsFirst(cs: seq<Chunk>, tag: Tag)
    ensures FindTag(cs, tag) == if Tagged(cs, tag) == [] then None else Some(Tagged(cs, tag)[0])
  {
    if cs != [] && cs[0].tag != tag {
      FindTagIsFirst(cs[1..], tag);
      assert Tagged(cs, tag) == Tagged(cs[1..], tag);
    }
  }

  function BlobOf(slot: nat, inner: Option<Chunk>): Result<Blob> {
    if inner.None? then Err(NoSuchBlob)
    else Ok(Blob(slot, inner.value.body, inner.value.body + inner.value.len))
  }

  function FindInner(f: Layout, m: seq<Byte>, slot: nat, tag: Tag, outer: Chunk): Result<Blob>
    requires outer.body + outer.len <= |m|
  {
    BlobOf(slot, FindTag(Chunks(f, m, outer.body, outer.body + outer.len), tag))
  }

  /** The first inner chunk tagged `tag` of the first AUXI chunk. */
  function FindBlob(f: Layout, m: seq<Byte>, slot: nat, tag: Tag): Result<Blob> {
    var outer := FindTag(Chunks(f, m, 0, |m|), AUXI);
    FoundInside(Chunks(f, m, 0, |m|), AUXI, 0, |m|);
    if outer.None? then Err(MissingAuxi) else FindInner(f, m, slot, tag, outer.value)
  }

  lemma FindStep(f: Layout, m: seq<Byte>, pos: nat, limit: nat, tag: Tag)
    requires pos <= limit <= |m|
    ensures var s := Next(f, m, pos, limit);
      FindTag(Chunks(f, m, pos, limit), tag) ==
        if !s.Got? then None
        else if s.chunk.tag == tag then Some(s.chunk)
        else FindTag(Chunks(f, m, s.next, limit), tag)
  {
    var s := Next(f, m, pos, limit);
    if s.Got? {
      assert Chunks(f, m, pos, limit)[1..] == Chunks(f, m, s.next, limit);
    }
  }

  /** Runs a reader from `from` until it yields a chunk tagged `tag`; `next` is where
      the reader then stands. */
  method ReadUntil(f: Layout, m: seq<Byte>, from: nat, limit: nat, tag: Tag) returns (r: Option<Chunk>, next: nat)
    requires from <= limit <= |m|
    ensures r == FindTag(Chunks(f, m, from, limit), tag)
    ensures r.Some? ==> r.value.body + r.value.len <= limit
    ensures r.Some? ==> next + f.headerSize == r.value.body + f.total(r.value.len)
  {
    var pos := from;
    var step := Next(f, m, pos, limit);
    while step.Got?
      invariant pos <= limit && step == Next(f, m, pos, limit)
      invariant FindTag(Chunks(f, m, pos, limit), tag) == FindTag(Chunks(f, m, from, limit), tag)
      decreases limit - pos
    {
      FindStep(f, m, pos, limit, tag);
      if step.chunk.tag == tag {
        return Some(step.chunk), step.next;
      }
      pos := step.next;
      step := Next(f, m, pos, limit);
    }
    FindStep(f, m, pos, limit, tag);
    r, next := None, pos;
  }

  function BackOff(f: Layout, pos: nat, c: Chunk): (start: nat)
    requires pos + f.headerSize == c.body + f.total(c.len)
    ensures start == c.body
  {
    pos - f.total(c.len) + f.headerSize
  }

  /** The blob's position is recovered by backing off from where the inner reader
      stands after the chunk. */
  method GetInner(f: Layout, m: seq<Byte>, slot: nat, tag: Tag, outer: Chunk) returns (r: Result<Blob>)
    requires outer.body + outer.len <= |m|
    ensures r == FindInner(f, m, slot, tag, outer)
  {
    var inner, pos := ReadUntil(f, m, outer.body, outer.body + outer.len, tag);
    if inner.None? { return Err(NoSuchBlob); }
    var start := BackOff(f, pos, inner.value);
    r := Ok(Blob(slot, start, start + inner.value.len));
  }

  /** The chunks inside a chunk. */
  function Inside(f: Layout, m: seq<Byte>, c: Chunk): seq<Chunk> {
    if c.body + c.len <= |m| then Chunks(f, m, c.body, c.body + c.len) else []
  }

  /** The blob is the body of the first chunk with the tag inside the first AUXI chunk. */
  lemma FindBlobIs(f: Layout, m: seq<Byte>, slot: nat, tag: Tag)
    ensures var outer := Tagged(Chunks(f, m, 0, |m|), AUXI);
      if outer == [] then FindBlob(f, m, slot, tag) == Err(MissingAuxi)
      else
        var inner := Tagged(Inside(f, m, outer[0]), tag);
        if inner == [] then FindBlob(f, m, slot, tag) == Err(NoSuchBlob)
        else FindBlob(f, m, slot, tag) == Ok(Blob(slot, inner[0].body, inner[0].body + inner[0].len))
  {
    var cs := Chunks(f, m, 0, |m|);
    FindTagIsFirst(cs, AUXI);
    FoundInside(cs, AUXI, 0, |m|);
    if Tagged(cs, AUXI) != [] { FindTagIsFirst(Inside(f, m, Tagged(cs, AUXI)[0]), tag); }
  }

  method GetBlobByTag(f: Layout, m: seq<Byte>, slot: nat, tag: Tag) returns (r: Result<Blob>)
    ensures r == FindBlob(f, m, slot, tag)
    ensures var outer := Tagged(Chunks(f, m, 0, |m|), AUXI);
      if outer == [] then r == Err(MissingAuxi)
      else
        var inner := Tagged(Inside(f, m, outer[0]), tag);
        if inner == [] then r == Err(NoSuchBlob)
        else r == Ok(Blob(slot, inner[0].body, inner[0].body + inner[0].len))
  {
    FindBlobIs(f, m, slot, tag);
    var outer, _ := ReadUntil(f, m, 0, |m|, AUXI);
    if outer.None? { return Err(MissingAuxi); }
    r := GetInner(f, m, slot, tag, outer.value);
  }
}
