/**
 Resident pages as a plain map: byte reads, writes that span pages, and the
 zeroed pages that `gm_sparse_prepare` adds (runtime/GuestSparseMemory.c:242-303).
 */
module SparseFrames {
  import opened GuestTypes

  /** What a resident page holds: its bytes and the generation of its last write, 0 when never written. */
  datatype Frame = Frame(bytes: seq<byte>, generation: nat)

  ghost predicate Whole(m: map<nat, Frame>) {
    forall p :: p in m ==> |m[p].bytes| == PAGE
  }

  const FRESH: Frame := Frame(Zeros(PAGE), 0)

  /** The byte at `x`: zero where no page is resident. */
  ghost function ByteAt(m: map<nat, Frame>, x: nat): byte
    requires Whole(m)
  {
    if PageBase(x) in m then m[PageBase(x)].bytes[Offset(x)] else 0
  }

  ghost function GenerationAt(m: map<nat, Frame>, p: nat): nat {
    if p in m then m[p].generation else 0
  }

  // ----- the pages of a range -----

  predicate Touches(a: nat, n: nat, p: nat) {
    p % PAGE == 0 && p < a + n && a < p + PAGE
  }

  /** The pages that `[a, a + n)` meets. */
  ghost function Touched(a: nat, n: nat): set<nat> {
    if n == 0 then {} else set p: nat | p < a + n && Touches(a, n, p)
  }

  lemma TouchedNothing(a: nat)
    ensures Touched(a, 0) == {}
  {}

  lemma PageOf(x: nat)
    ensures PageBase(x) % PAGE == 0 && PageBase(x) <= x < PageBase(x) + PAGE
    ensures forall p: nat :: p % PAGE == 0 && p <= x < p + PAGE ==> p == PageBase(x)
  {}

  /** A walk through `[a, a + n)` page by page stands at `done`: at its start, or at a page boundary. */
  ghost predicate AtChunk(a: nat, done: nat, n: nat) {
    done <= n && (0 < done < n ==> Offset(a + done) == 0)
  }

  /** The end of the chunk that starts after `done` of `n` bytes from `a`. */
  function Next(a: nat, done: nat, n: nat): (next: nat)
    requires done < n
    ensures done < next <= n
  {
    done + Chunk(a + done, n - done)
  }

  /** The next chunk keeps the walk going, in the next page or at the end. */
  lemma WalkStep(a: nat, done: nat, n: nat)
    requires AtChunk(a, done, n) && done < n
    ensures var page, next := PageBase(a + done), Next(a, done, n);
            && page % PAGE == 0 && Touches(a, n, page)
            && AtChunk(a, next, n)
            && (if next < n then PageBase(a + next) == page + PAGE else page + PAGE >= a + n)
  {}

  /** It adds just one page to those met. */
  lemma TouchedStep(a: nat, done: nat, n: nat)
    requires AtChunk(a, done, n) && done < n
    ensures Touched(a, Next(a, done, n)) == Touched(a, done) + {PageBase(a + done)}
    ensures PageBase(a + done) !in Touched(a, done)
  {
    var page, next := PageBase(a + done), Next(a, done, n);
    forall p: nat ensures p in Touched(a, next) <==> p in Touched(a, done) + {page} {
      if Touches(a, next, p) && !(done > 0 && Touches(a, done, p)) {
        assert p <= a + done < p + PAGE || p < a + done;
        assert p == page;
      }
    }
  }

  // ----- writing -----

  /** Byte `k` of page `p` after `bytes` were written at `a`. */
  ghost function NewByte(m: map<nat, Frame>, a: nat, bytes: seq<byte>, p: nat, k: nat): byte
    requires Whole(m) && k < PAGE
  {
    if a <= p + k < a + |bytes| then bytes[p + k - a] else if p in m then m[p].bytes[k] else 0
  }

  ghost function NewBytes(m: map<nat, Frame>, a: nat, bytes: seq<byte>, p: nat): (s: seq<byte>)
    requires Whole(m)
    ensures |s| == PAGE && forall k :: 0 <= k < PAGE ==> s[k] == NewByte(m, a, bytes, p, k)
  {
    seq(PAGE, k requires 0 <= k < PAGE => NewByte(m, a, bytes, p, k))
  }

  /** The resident pages after `bytes` were written at `a` as write number `generation`. */
  ghost function WriteFrames(m: map<nat, Frame>, a: nat, bytes: seq<byte>, generation: nat): (r: map<nat, Frame>)
    requires Whole(m)
    ensures Whole(r) && r.Keys == m.Keys + Touched(a, |bytes|)
  {
    map p | p in m.Keys + Touched(a, |bytes|) ::
      if p in Touched(a, |bytes|) then Frame(NewBytes(m, a, bytes, p), generation) else m[p]
  }

  lemma WrittenByte(m: map<nat, Frame>, a: nat, bytes: seq<byte>, generation: nat, x: nat)
    requires Whole(m)
    ensures ByteAt(WriteFrames(m, a, bytes, generation), x)
         == if a <= x < a + |bytes| then bytes[x - a] else ByteAt(m, x)
  {
    PageOf(x);
    if a <= x < a + |bytes| {
      assert PageBase(x) in Touched(a, |bytes|);
    }
  }

  lemma WrittenFrame(m: map<nat, Frame>, a: nat, bytes: seq<byte>, generation: nat, p: nat)
    requires Whole(m) && p in m.Keys + Touched(a, |bytes|)
    ensures var r := WriteFrames(m, a, bytes, generation);
            if p in Touched(a, |bytes|) then r[p].generation == generation else r[p] == m[p]
  {}

  /** `bytes` copied over `page` from `offset` on. */
  function Splice(page: seq<byte>, offset: nat, bytes: seq<byte>): (out: seq<byte>)
    requires offset + |bytes| <= |page|
    ensures |out| == |page|
    ensures forall k ::
      0 <= k < |page| ==> out[k] == if offset <= k < offset + |bytes| then bytes[k - offset] else page[k]
  {
    page[..offset] + bytes + page[offset + |bytes|..]
  }

  /** What one chunk does to its page. */
  ghost function Chunked(m: map<nat, Frame>, page: nat, offset: nat, chunk: seq<byte>, generation: nat): map<nat, Frame>
    requires Whole(m) && offset + |chunk| <= PAGE
  {
    var was := if page in m then m[page].bytes else Zeros(PAGE);
    m[page := Frame(Splice(was, offset, chunk), generation)]
  }

  lemma ChunkPage(m: map<nat, Frame>, a: nat, bytes: seq<byte>, done: nat, generation: nat)
    requires Whole(m) && AtChunk(a, done, |bytes|) && done < |bytes|
    ensures var page, next := PageBase(a + done), Next(a, done, |bytes|);
            var before := WriteFrames(m, a, bytes[..done], generation);
            var was := if page in before then before[page].bytes else Zeros(PAGE);
            Splice(was, Offset(a + done), bytes[done..next]) == NewBytes(m, a, bytes[..next], page)
  {
    hide Splice, Touched, NewByte, Offset, PageBase;
    TouchedStep(a, done, |bytes|);
    var page, next := PageBase(a + done), Next(a, done, |bytes|);
    forall k | 0 <= k < PAGE
      ensures Splice(PageBytes(m, page), Offset(a + done), bytes[done..next])[k]
           == NewByte(m, a, bytes[..next], page, k)
    {
      ChunkByte(m, a, bytes, done, k);
    }
  }

  function PageBytes(m: map<nat, Frame>, page: nat): seq<byte> { if page in m then m[page].bytes else Zeros(PAGE) }

  lemma ChunkByte(m: map<nat, Frame>, a: nat, bytes: seq<byte>, done: nat, k: nat)
    requires Whole(m) && AtChunk(a, done, |bytes|) && done < |bytes| && k < PAGE
    ensures var page, next := PageBase(a + done), Next(a, done, |bytes|);
            Splice(PageBytes(m, page), Offset(a + done), bytes[done..next])[k] == NewByte(m, a, bytes[..next], page, k)
  {
    hide Splice;
    var page, offset := PageBase(a + done), Offset(a + done);
    assert page + offset == a + done;
  }

  lemma OtherPage(m: map<nat, Frame>, a: nat, bytes: seq<byte>, done: nat, p: nat)
    requires Whole(m) && AtChunk(a, done, |bytes|) && done < |bytes|
    requires p in Touched(a, done)
    ensures NewBytes(m, a, bytes[..Next(a, done, |bytes|)], p) == NewBytes(m, a, bytes[..done], p)
  {
    assert Touches(a, done, p);
    assert p + PAGE <= a + done;
    forall k | 0 <= k < PAGE
      ensures NewByte(m, a, bytes[..Next(a, done, |bytes|)], p, k) == NewByte(m, a, bytes[..done], p, k)
    {}
  }

  /** One turn of the copy loop extends the written prefix by its chunk. */
  lemma ChunkStep(m: map<nat, Frame>, a: nat, bytes: seq<byte>, done: nat, generation: nat)
    requires Whole(m) && AtChunk(a, done, |bytes|) && done < |bytes|
    ensures Chunked(WriteFrames(m, a, bytes[..done], generation), PageBase(a + done), Offset(a + done),
                    bytes[done..Next(a, done, |bytes|)], generation)
         == WriteFrames(m, a, bytes[..Next(a, done, |bytes|)], generation)
  {
    hide Splice, NewBytes, Touched, Offset, PageBase;
    var next := Next(a, done, |bytes|);
    TouchedStep(a, done, |bytes|);
    ChunkPage(m, a, bytes, done, generation);
    forall p | p in Touched(a, done) { OtherPage(m, a, bytes, done, p); }
    var left := Chunked(WriteFrames(m, a, bytes[..done], generation), PageBase(a + done), Offset(a + done),
                        bytes[done..next], generation);
    assert |bytes[..done]| == done && |bytes[..next]| == next;
    assert left.Keys == m.Keys + Touched(a, next);
  }

  // ----- preparing -----

  /** The resident pages once every page of `ps` has backing. */
  ghost function PrepareFrames(m: map<nat, Frame>, ps: set<nat>): map<nat, Frame> {
    map p | p in m.Keys + ps :: if p in m then m[p] else FRESH
  }

  lemma PrepareNone(m: map<nat, Frame>)
    ensures PrepareFrames(m, {}) == m
  {}

  lemma PrepareMore(m: map<nat, Frame>, pages: set<nat>, page: nat)
    ensures PrepareFrames(m, pages + {page})
         == if page in PrepareFrames(m, pages) then PrepareFrames(m, pages) else PrepareFrames(m, pages)[page := FRESH]
  {}

  /** A fresh page changes no byte and no generation. */
  lemma PreparedSame(m: map<nat, Frame>, ps: set<nat>, x: nat)
    requires Whole(m)
    ensures Whole(PrepareFrames(m, ps))
    ensures ByteAt(PrepareFrames(m, ps), x) == ByteAt(m, x)
    ensures GenerationAt(PrepareFrames(m, ps), x) == GenerationAt(m, x)
  {}

  /** The pages left after those in `[from, to)` are discarded. */
  ghost function Without(m: map<nat, Frame>, from: nat, to: nat): map<nat, Frame> {
    map p | p in m && !(from <= p < to) :: m[p]
  }

  lemma DiscardedByte(m: map<nat, Frame>, from: nat, to: nat, x: nat)
    requires Whole(m) && from % PAGE == 0 && to % PAGE == 0
    ensures Whole(Without(m, from, to))
    ensures ByteAt(Without(m, from, to), x) == if from <= x < to then 0 else ByteAt(m, x)
  {
    PageOf(x);
  }
}
