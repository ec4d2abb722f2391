/** TLV-C as the auxiliary flash uses it: a row of chunks, each a header followed by
    its body and trailer.  The header parser and the chunk size rule are parameters. */
module Tlvc {
  import opened Nor
  import opened Wrappers

  type Tag = seq<Byte>
  datatype Header = Header(tag: Tag, len: nat)

  datatype Format = Format(headerSize: nat, parse: seq<Byte> -> Option<Header>, total: nat -> nat) {
    ghost predicate Sound() {
      headerSize > 0 && forall n :: total(n) >= headerSize + n
    }
  }

  type Layout = f: Format | f.Sound() ghost witness Format(1, _ => None, n => n + 1)

  datatype Chunk = Chunk(tag: Tag, body: nat, len: nat)

  datatype Step = End | Bad | Got(chunk: Chunk, next: nat)

  /** `TlvcReader::next` at position `pos` of a reader limited to `limit`. */
  function Next(f: Layout, m: seq<Byte>, pos: nat, limit: nat): (s: Step)
    requires pos <= limit <= |m|
    ensures s.Got? ==> pos < s.chunk.body <= s.chunk.body + s.chunk.len <= s.next <= limit
  {
    if pos == limit then End
    else if limit - pos < f.headerSize then Bad
    else
      match f.parse(m[pos..pos + f.headerSize])
      case None => Bad
      case Some(h) =>
        if limit - pos < f.total(h.len) then Bad
        else Got(Chunk(h.tag, pos + f.headerSize, h.len), pos + f.total(h.len))
  }

  /** The chunks a reader yields before it runs out or meets something unreadable. */
  function Chunks(f: Layout, m: seq<Byte>, pos: nat, limit: nat): (cs: seq<Chunk>)
    requires pos <= limit <= |m|
    ensures forall i :: 0 <= i < |cs| ==> pos < cs[i].body <= cs[i].body + cs[i].len <= limit
    decreases limit - pos
  {
    match Next(f, m, pos, limit)
    case Got(c, next) => [c] + Chunks(f, m, next, limit)
    case _ => []
  }

  /** Where that reader stands afterwards. */
  function Stop(f: Layout, m: seq<Byte>, pos: nat, limit: nat): (e: nat)
    requires pos <= limit <= |m|
    ensures pos <= e <= limit
    decreases limit - pos
  {
    match Next(f, m, pos, limit)
    case Got(_, next) => Stop(f, m, next, limit)
    case _ => pos
  }

  function Body(m: seq<Byte>, c: Chunk): seq<Byte> {
    if c.body + c.len <= |m| then m[c.body..c.body + c.len] else []
  }

  lemma SlicesAgree(m: seq<Byte>, m': seq<Byte>, e: nat, lo: nat, hi: nat)
    requires lo <= hi <= e <= |m| && e <= |m'| && m'[..e] == m[..e]
    ensures m'[lo..hi] == m[lo..hi]
  {
    assert m'[lo..hi] == m'[..e][lo..hi];
  }

  lemma {:induction false} ChunksEndBeforeStop(f: Layout, m: seq<Byte>, pos: nat, limit: nat, i: nat)
    requires pos <= limit <= |m| && i < |Chunks(f, m, pos, limit)|
    ensures var c := Chunks(f, m, pos, limit)[i]; c.body + c.len <= Stop(f, m, pos, limit)
    decreases limit - pos
  {
    var next := Next(f, m, pos, limit).next;
    if i > 0 { ChunksEndBeforeStop(f, m, next, limit, i - 1); }
  }

  lemma SameStep(f: Layout, m: seq<Byte>, m': seq<Byte>, pos: nat, limit: nat, e: nat)
    requires pos <= limit <= |m| && limit <= |m'| && e <= limit && m'[..e] == m[..e]
    requires Next(f, m, pos, limit).Got? && Next(f, m, pos, limit).next <= e
    ensures Next(f, m', pos, limit) == Next(f, m, pos, limit)
  {
    SlicesAgree(m, m', e, pos, pos + f.headerSize);
  }

  /** A reader of bytes that agree up to where another stopped yields the same chunks
      and then goes on from there. */
  lemma {:induction false} WalkSplits(f: Layout, m: seq<Byte>, m': seq<Byte>, pos: nat, limit: nat)
    requires pos <= limit <= |m| && limit <= |m'|
    requires var e := Stop(f, m, pos, limit); m'[..e] == m[..e]
    ensures Chunks(f, m', pos, limit) == Chunks(f, m, pos, limit) + Chunks(f, m', Stop(f, m, pos, limit), limit)
    decreases limit - pos
  {
    match Next(f, m, pos, limit)
    case Got(_, next) =>
      SameStep(f, m, m', pos, limit, Stop(f, m, pos, limit));
      WalkSplits(f, m, m', next, limit);
    case _ =>
  }

  /** A reader depends only on the bytes from where it starts. */
  lemma {:induction false} WalkDependsOnTail(f: Layout, m: seq<Byte>, m': seq<Byte>, pos: nat, limit: nat)
    requires pos <= limit <= |m| == |m'| && forall i :: pos <= i < |m| ==> m'[i] == m[i]
    ensures Chunks(f, m', pos, limit) == Chunks(f, m, pos, limit)
    decreases limit - pos
  {
    if pos + f.headerSize <= limit { assert m'[pos..pos + f.headerSize] == m[pos..pos + f.headerSize]; }
    match Next(f, m, pos, limit)
    case Got(_, next) => WalkDependsOnTail(f, m, m', next, limit);
    case _ =>
  }

  lemma BodiesAgree(f: Layout, m: seq<Byte>, m': seq<Byte>, pos: nat, limit: nat, i: nat)
    requires pos <= limit <= |m| && limit <= |m'| && i < |Chunks(f, m, pos, limit)|
    requires var e := Stop(f, m, pos, limit); m'[..e] == m[..e]
    ensures Body(m', Chunks(f, m, pos, limit)[i]) == Body(m, Chunks(f, m, pos, limit)[i])
  {
    var c := Chunks(f, m, pos, limit)[i];
    ChunksEndBeforeStop(f, m, pos, limit, i);
    SlicesAgree(m, m', Stop(f, m, pos, limit), c.body, c.body + c.len);
  }
}
