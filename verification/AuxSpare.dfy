/** What the redundancy copy leaves in the spare slot, and when that passes the check. */
module AuxSpare {
  import opened Nor
  import opened NorChip
  import opened Tlvc
  import opened Wrappers
  import opened AuxImage
  import opened LittleEndian

  /** The spare `s` after the first `n` bytes of `a` were copied over it: the copy, blank
      cells up to the end of the last erased sector, and then what `s` held before. */
  function Overwritten(a: seq<Byte>, s: seq<Byte>, n: nat): (r: seq<Byte>)
    requires |a| == |s|
    ensures |r| == |a|
  {
    seq(|a|, i requires 0 <= i < |a| => if i < n then a[i] else if i < Frontier(n) then BLANK else s[i])
  }

  /** The copy that replaces a bad spare succeeds exactly when what follows the image in
      the overwritten spare holds no further CHCK or AUXI chunk. */
  lemma CopyPassesIff(f: Layout, sha: Hash, a: seq<Byte>, s: seq<Byte>, x: seq<Byte>)
    requires |a| == |s| && ImageChecksum(f, sha, a) == Ok(x)
    ensures var n := Stop(f, a, 0, |a|); var r := Overwritten(a, s, n);
      ImageChecksum(f, sha, r) == Ok(x) <==> CleanFrom(f, r, n)
  {
    var n := Stop(f, a, 0, |a|);
    assert Overwritten(a, s, n)[..n] == a[..n];
    CopyAcceptedIff(f, sha, a, Overwritten(a, s, n), x);
  }

  /** Trying again cannot help: a second copy reproduces the first. */
  lemma CopyAgain(a: seq<Byte>, s: seq<Byte>, n: nat)
    requires |a| == |s|
    ensures Overwritten(a, Overwritten(a, s, n), n) == Overwritten(a, s, n)
  {}

  // ----- Spares that always pass -----

  /** Erased cells do not parse as a chunk header. */
  ghost predicate BlankIsNoHeader(f: Layout) {
    f.parse(seq(f.headerSize, _ => BLANK)).None?
  }

  /** A reader that meets a blank header, or has no room for a header, stops. */
  lemma BlankHeaderIsClean(f: Layout, m: seq<Byte>, n: nat)
    requires n <= |m| && BlankIsNoHeader(f)
    requires n + f.headerSize <= |m| ==> Blank(m, n, n + f.headerSize)
    ensures CleanFrom(f, m, n)
  {
    if n + f.headerSize <= |m| {
      assert m[n..n + f.headerSize] == seq(f.headerSize, _ => BLANK);
    }
  }

  /** After `n` image bytes the slot has no room for a header, or the sector that the
      image ends in has room for a whole one. */
  predicate RoomForBlankHeader(f: Layout, size: nat, n: nat) {
    n + f.headerSize > size || n + f.headerSize <= Frontier(n)
  }

  /** With such room, or over a spare that was erased, the copy passes. */
  lemma CopyPassesInRoom(f: Layout, a: seq<Byte>, s: seq<Byte>, n: nat)
    requires |a| == |s| && n <= |a| && BlankIsNoHeader(f)
    requires RoomForBlankHeader(f, |a|, n) || Blank(s, n, |s|)
    ensures CleanFrom(f, Overwritten(a, s, n), n)
  {
    BlankHeaderIsClean(f, Overwritten(a, s, n), n);
  }

  // ----- Spares that never do -----

  /** An image that ends with a sector leaves the rest of the spare as it was, so that
      rest alone decides. */
  lemma FullSectorsPassIff(f: Layout, sha: Hash, a: seq<Byte>, s: seq<Byte>, x: seq<Byte>)
    requires |a| == |s| && ImageChecksum(f, sha, a) == Ok(x) && AtSectorStart(Stop(f, a, 0, |a|))
    ensures var n := Stop(f, a, 0, |a|);
      ImageChecksum(f, sha, Overwritten(a, s, n)) == Ok(x) <==> CleanFrom(f, s, n)
  {
    var n := Stop(f, a, 0, |a|);
    CopyPassesIff(f, sha, a, s, x);
    assert Frontier(n) == n;
    forall i | n <= i < |a| ensures Overwritten(a, s, n)[i] == s[i] {}
    WalkDependsOnTail(f, s, Overwritten(a, s, n), n, |a|);
  }

  /** Whatever the format and the hash, such a copy fails, however often it is repeated,
      when the spare goes on with a CHCK or AUXI chunk of an older image. */
  lemma StaleSpareNeverPasses(f: Layout, sha: Hash, a: seq<Byte>, s: seq<Byte>, x: seq<Byte>)
    requires |a| == |s| && ImageChecksum(f, sha, a) == Ok(x) && AtSectorStart(Stop(f, a, 0, |a|))
    requires var step := Next(f, s, Stop(f, a, 0, |a|), |s|); step.Got? && step.chunk.tag in {CHCK, AUXI}
    ensures var r := Overwritten(a, s, Stop(f, a, 0, |a|));
      ImageChecksum(f, sha, r) != Ok(x) && Overwritten(a, r, Stop(f, a, 0, |a|)) == r
  {
    var n := Stop(f, a, 0, |a|);
    var rest := Chunks(f, s, n, |s|);
    assert Tagged(rest, rest[0].tag) != [];
    FullSectorsPassIff(f, sha, a, s, x);
    CopyAgain(a, s, n);
  }

  // ----- An instance -----

  const HEAD: nat := 6

  function SmallParse(bs: seq<Byte>): Option<Header> {
    if |bs| != HEAD || bs[0] == BLANK then None else Some(Header(bs[..4], FromLe(bs[4..])))
  }

  /** A layout with a tag and a two-byte length, and no padding or trailer. */
  function SmallLayout(): Layout { Format(HEAD, (bs: seq<Byte>) => SmallParse(bs), (n: nat) => HEAD + n) }

  function Cells(n: nat, b: Byte): (r: seq<Byte>)
    ensures |r| == n && forall i :: 0 <= i < n ==> r[i] == b
  {
    seq(n, _ => b)
  }

  function Head(tag: Tag, len: nat): (r: seq<Byte>)
    requires |tag| == 4 && len < SECTOR_SIZE
    ensures |r| == HEAD
  {
    tag + Le(len, 2)
  }

  lemma HeadIsRead(m: seq<Byte>, pos: nat, tag: Tag, len: nat)
    requires |tag| == 4 && tag[0] != BLANK && len < SECTOR_SIZE && pos + HEAD + len <= |m|
    requires m[pos..pos + HEAD] == Head(tag, len)
    ensures Next(SmallLayout(), m, pos, |m|) == Got(Chunk(tag, pos + HEAD, len), pos + HEAD + len)
  {
    var bs := m[pos..pos + HEAD];
    assert bs[..4] == tag && bs[4..] == Le(len, 2);
    assert Pow256(1) == 256 && Pow256(2) == 65536;
    LeRoundTrip(len, 2);
  }

  /** An image that fills its first sector exactly and stores the hash `x`. */
  function FullImage(x: seq<Byte>): (r: seq<Byte>)
    requires |x| == CHECKSUM_SIZE
    ensures |r| == 2 * SECTOR_SIZE
  {
    Head(CHCK, 32) + x + Head(AUXI, 65492) + Cells(65492, 0) + Cells(SECTOR_SIZE, BLANK)
  }

  /** A spare whose second sector begins with a chunk of an older image. */
  function StaleSpare(): (r: seq<Byte>)
    ensures |r| == 2 * SECTOR_SIZE
  {
    Cells(SECTOR_SIZE, BLANK) + Head(CHCK, 32) + Cells(SECTOR_SIZE - HEAD, BLANK)
  }

  lemma FullImageHeads(x: seq<Byte>)
    requires |x| == CHECKSUM_SIZE
    ensures var m := FullImage(x);
      && m[0..0 + HEAD] == Head(CHCK, 32) && m[6..38] == x
      && m[38..38 + HEAD] == Head(AUXI, 65492) && m[44..65536] == Cells(65492, 0)
      && Chunks(SmallLayout(), m, SECTOR_SIZE, |m|) == [] && Stop(SmallLayout(), m, SECTOR_SIZE, |m|) == SECTOR_SIZE
  {
    assert FullImage(x)[SECTOR_SIZE..SECTOR_SIZE + HEAD][0] == BLANK;
  }

  lemma FullImageWalk(x: seq<Byte>)
    requires |x| == CHECKSUM_SIZE
    ensures var m, f := FullImage(x), SmallLayout();
      && Chunks(f, m, 0, |m|) == [Chunk(CHCK, 6, 32), Chunk(AUXI, 44, 65492)]
      && Stop(f, m, 0, |m|) == SECTOR_SIZE
  {
    var m, f := FullImage(x), SmallLayout();
    FullImageHeads(x);
    HeadIsRead(m, 38, AUXI, 65492);
    assert Chunks(f, m, 38, |m|) == [Chunk(AUXI, 44, 65492)] && Stop(f, m, 38, |m|) == SECTOR_SIZE;
    HeadIsRead(m, 0, CHCK, 32);
  }

  lemma TaggedPair(c1: Chunk, c2: Chunk)
    requires c1.tag == CHCK && c2.tag == AUXI
    ensures Tagged([c1, c2], CHCK) == [c1] && Tagged([c1, c2], AUXI) == [c2]
  {
    assert CHCK[1] != AUXI[1];
    assert [c1, c2][1..] == [c2] && [c2][1..] == [];
    assert Tagged([c2], CHCK) == [] && Tagged([c2], AUXI) == [c2];
  }

  lemma FullImageAccepted(sha: Hash, x: seq<Byte>)
    requires x == sha(Cells(65492, 0)) && |x| == CHECKSUM_SIZE
    ensures ImageChecksum(SmallLayout(), sha, FullImage(x)) == Ok(x)
    ensures Stop(SmallLayout(), FullImage(x), 0, |FullImage(x)|) == SECTOR_SIZE
  {
    var c1, c2 := Chunk(CHCK, 6, 32), Chunk(AUXI, 44, 65492);
    FullImageWalk(x);
    FullImageHeads(x);
    TaggedPair(c1, c2);
    AcceptedIff(SmallLayout(), sha, FullImage(x), x);
  }

  lemma StaleSpareReads()
    ensures Chunks(SmallLayout(), StaleSpare(), 0, |StaleSpare()|) == []
    ensures var step := Next(SmallLayout(), StaleSpare(), SECTOR_SIZE, |StaleSpare()|);
      step.Got? && step.chunk.tag == CHCK
  {
    var s := StaleSpare();
    assert s[0..HEAD][0] == BLANK;
    assert s[SECTOR_SIZE..SECTOR_SIZE + HEAD] == Head(CHCK, 32);
    HeadIsRead(s, SECTOR_SIZE, CHCK, 32);
  }

  /** With any hash of 32 bytes there are an accepted image and a bad spare over which the
      copy does not pass. */
  lemma StaleSpareExample(sha: Hash)
    requires |sha(Cells(65492, 0))| == CHECKSUM_SIZE
    ensures var f, s, x := SmallLayout(), StaleSpare(), sha(Cells(65492, 0)); var a := FullImage(x);
      && ImageChecksum(f, sha, a) == Ok(x)
      && ImageChecksum(f, sha, s) != Ok(x)
      && ImageChecksum(f, sha, Overwritten(a, s, Stop(f, a, 0, |a|))) != Ok(x)
  {
    var x := sha(Cells(65492, 0));
    FullImageAccepted(sha, x);
    StaleSpareReads();
    assert AtSectorStart(0) && AtSectorStart(SECTOR_SIZE);
    StaleSpareNeverPasses(SmallLayout(), sha, FullImage(x), StaleSpare(), x);
  }
}
