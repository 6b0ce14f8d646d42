/**
 Checked access to guest pages: permissions, bytes, writes and instruction
 fetches (runtime/GuestMemory.c:61-154).
 */
module GuestAccess {
  import opened GuestTypes
  import opened Octets
  import opened GuestPages

  /** The JIT write protection of the accessing thread; loaders and plain reads have none. */
  type Thread = Option<bool>

  predicate JitBlocks(p: Page, t: Thread, permission: Prot) {
    p.jit && t.Some? && ((permission == WRITE && t.value) || (permission == EXEC && !t.value))
  }

  function Verdict(pages: seq<Page>, t: Thread, base: nat, permission: Prot): Status {
    var p := PageAt(pages, base);
    if p.None? then Unmapped
    else if !Allows(p.value.prot, permission) || JitBlocks(p.value, t, permission) then Protection
    else Status.Ok
  }

  /** The verdict and the fault address of the bytes from `a` up to `end`. */
  function AccessFrom(pages: seq<Page>, t: Thread, a: nat, end: nat, permission: Prot): (Status, nat)
    decreases end - a
  {
    if a >= end then (Status.Ok, 0)
    else
      var v := Verdict(pages, t, PageBase(a), permission);
      if v != Status.Ok then (v, a) else AccessFrom(pages, t, a + Chunk(a, end - a), end, permission)
  }

  function Access(pages: seq<Page>, t: Thread, a: nat, n: nat, permission: Prot): (Status, nat) {
    if n + a > U64_MAX then (Invalid, a) else AccessFrom(pages, t, a, a + n, permission)
  }

  predicate Allowed(pages: seq<Page>, t: Thread, x: nat, permission: Prot) {
    Verdict(pages, t, PageBase(x), permission) == Status.Ok
  }

  lemma SamePage(a: nat, n: nat, x: nat)
    requires a <= x < a + Chunk(a, n)
    ensures PageBase(x) == PageBase(a)
  {
  }

  /** Access is granted exactly when every byte is; otherwise the lowest refused byte is the fault. */
  lemma {:induction false} AccessMeans(pages: seq<Page>, t: Thread, a: nat, end: nat, permission: Prot)
    ensures AccessFrom(pages, t, a, end, permission).0 == Status.Ok <==>
            forall x :: a <= x < end ==> Allowed(pages, t, x, permission)
    ensures AccessFrom(pages, t, a, end, permission).0 == Status.Ok ==> AccessFrom(pages, t, a, end, permission).1 == 0
    ensures var (v, f) := AccessFrom(pages, t, a, end, permission);
      v != Status.Ok ==>
        a <= f < end && v == Verdict(pages, t, PageBase(f), permission)
        && forall x :: a <= x < f ==> Allowed(pages, t, x, permission)
    decreases end - a
  {
    hide Verdict, PageBase, Chunk;
    if a < end {
      var c := Chunk(a, end - a);
      AccessMeans(pages, t, a + c, end, permission);
      forall x | a <= x < a + c ensures PageBase(x) == PageBase(a) { SamePage(a, end - a, x); }
      assert PageBase(a) == PageBase(a);
      assert Allowed(pages, t, a, permission) <==> Verdict(pages, t, PageBase(a), permission) == Status.Ok;
    }
  }

  // ----- bytes -----

  function Content(p: Page): seq<octet> {
    if p.bytes.Some? then p.bytes.value else Blank(PAGE)
  }

  function ByteAt(pages: seq<Page>, x: nat): octet
    requires Good(pages)
  {
    var p := PageAt(pages, PageBase(x));
    if p.Some? then assert GoodPage(p.value); Content(p.value)[Offset(x)] else 0
  }

  function Bytes(pages: seq<Page>, a: nat, n: nat): seq<octet>
    requires Good(pages)
  {
    seq<octet>(n, k requires 0 <= k < n => ByteAt(pages, a + k))
  }

  predicate Touches(p: Page, a: nat, n: nat) {
    n > 0 && p.address < a + n && a < p.address + PAGE
  }

  function PokedByte(p: Page, a: nat, bytes: seq<octet>, k: nat): octet
    requires k < |Content(p)|
  {
    if In(p.address + k, a, |bytes|) then bytes[p.address + k - a] else Content(p)[k]
  }

  function Poke(p: Page, a: nat, bytes: seq<octet>): Page
    requires |Content(p)| == PAGE
  {
    if Touches(p, a, |bytes|)
    then p.(bytes := Some(seq(PAGE, k requires 0 <= k < PAGE => PokedByte(p, a, bytes, k))))
    else p
  }

  /** The pages after `bytes` were written from `a` on. */
  function Poked(pages: seq<Page>, a: nat, bytes: seq<octet>): seq<Page>
    requires Good(pages)
  {
    seq(|pages|, i requires 0 <= i < |pages| => assert GoodPage(pages[i]); Poke(pages[i], a, bytes))
  }

  predicate ExecTouched(pages: seq<Page>, a: nat, n: nat) {
    exists i :: 0 <= i < |pages| && Touches(pages[i], a, n) && Allows(pages[i].prot, EXEC)
  }

  /** Gives demand-zero pages below `end` their bytes while `room` lasts. */
  function Filled(pages: seq<Page>, i: nat, end: nat, room: nat): (seq<Page>, bool)
    decreases |pages| - i
  {
    if i >= |pages| || pages[i].address >= end then (pages, true)
    else if pages[i].bytes.Some? then Filled(pages, i + 1, end, room)
    else if room == 0 then (pages, false)
    else Filled(pages[i := pages[i].(bytes := Some(Blank(PAGE)))], i + 1, end, room - 1)
  }

  /** The same pages, some of them given the zero bytes they stood for. */
  predicate Alike(pages: seq<Page>, r: seq<Page>) {
    |r| == |pages|
    && forall i :: 0 <= i < |pages| ==>
         r[i] == pages[i] || (pages[i].bytes.None? && r[i] == pages[i].(bytes := Some(Blank(PAGE))))
  }

  lemma {:induction false} FilledMeans(pages: seq<Page>, i: nat, end: nat, room: nat)
    requires i <= |pages|
    ensures Alike(pages, Filled(pages, i, end, room).0)
    ensures Filled(pages, i, end, room).1 && Sorted(pages) ==>
      forall j :: i <= j < |pages| && pages[j].address < end ==> Filled(pages, i, end, room).0[j].bytes.Some?
    ensures forall j :: 0 <= j < i ==> Filled(pages, i, end, room).0[j] == pages[j]
    decreases |pages| - i
  {
    if i >= |pages| || pages[i].address >= end {
    } else if pages[i].bytes.Some? {
      FilledMeans(pages, i + 1, end, room);
    } else if room > 0 {
      FilledMeans(pages[i := pages[i].(bytes := Some(Blank(PAGE)))], i + 1, end, room - 1);
    }
  }

  lemma AlikeGood(pages: seq<Page>, r: seq<Page>)
    requires Good(pages) && Alike(pages, r)
    ensures Good(r)
  {
    forall i | 0 <= i < |r| ensures GoodPage(r[i]) { assert GoodPage(pages[i]); }
  }

  /** Pages that differ in their bytes only are found at the same places. */
  lemma SamePlaces(pages: seq<Page>, r: seq<Page>, base: nat)
    requires Sorted(pages) && |r| == |pages| && forall i :: 0 <= i < |pages| ==> r[i].address == pages[i].address
    ensures Lower(r, base) == Lower(pages, base)
    ensures PageAt(r, base).Some? == PageAt(pages, base).Some?
    ensures PageAt(pages, base).Some? ==>
      var k := Lower(pages, base); PageAt(pages, base).value == pages[k] && PageAt(r, base).value == r[k]
  {
    LowerUnique(r, base, Lower(pages, base));
  }

  /** Filling changes no byte and no permission. */
  lemma AlikeMeans(pages: seq<Page>, r: seq<Page>, x: nat)
    requires Good(pages) && Good(r) && Alike(pages, r)
    ensures ByteAt(r, x) == ByteAt(pages, x)
    ensures forall t, permission :: Verdict(r, t, PageBase(x), permission) == Verdict(pages, t, PageBase(x), permission)
  {
    hide Lower, PageBase, Offset, GoodPage;
    SamePlaces(pages, r, PageBase(x));
  }

  lemma PokedGood(pages: seq<Page>, a: nat, bytes: seq<octet>)
    requires Good(pages)
    ensures Good(Poked(pages, a, bytes))
  {
    forall i | 0 <= i < |pages| ensures GoodPage(Poked(pages, a, bytes)[i]) { assert GoodPage(pages[i]); }
  }

  /** Writing changes exactly the written bytes, and no permission. */
  lemma PokedMeans(pages: seq<Page>, a: nat, bytes: seq<octet>, x: nat)
    requires Good(pages) && Good(Poked(pages, a, bytes))
    ensures PageAt(pages, PageBase(x)).Some? ==>
      ByteAt(Poked(pages, a, bytes), x) == if In(x, a, |bytes|) then bytes[x - a] else ByteAt(pages, x)
    ensures forall t, permission ::
      Verdict(Poked(pages, a, bytes), t, PageBase(x), permission) == Verdict(pages, t, PageBase(x), permission)
  {
    hide Lower;
    var base := PageBase(x);
    SamePlaces(pages, Poked(pages, a, bytes), base);
    if PageAt(pages, base).Some? {
      var p := PageAt(pages, base).value;
      assert GoodPage(p);
      PokeByte(p, a, bytes, Offset(x));
      assert p.address + Offset(x) == x;
    }
  }

  lemma PokeByte(p: Page, a: nat, bytes: seq<octet>, k: nat)
    requires |Content(p)| == PAGE && k < PAGE
    ensures |Content(Poke(p, a, bytes))| == PAGE
    ensures Content(Poke(p, a, bytes))[k] == PokedByte(p, a, bytes, k)
  {
  }

  // ----- writing chunk by chunk -----

  /** A page with `bytes` stored at `at`. */
  function Stored(p: Page, at: nat, bytes: seq<octet>): Page
    requires |Content(p)| == PAGE && at + |bytes| <= PAGE
  {
    p.(bytes := Some(Content(p)[..at] + bytes + Content(p)[at + |bytes|..]))
  }

  lemma StoredIsPoke(p: Page, a: nat, bytes: seq<octet>, done: nat, c: nat)
    requires |Content(p)| == PAGE && p.bytes.Some? && done + c <= |bytes| && c > 0
    requires p.address <= a + done && a + done + c <= p.address + PAGE
    ensures |Content(Poke(p, a, bytes[..done]))| == PAGE
    ensures Stored(Poke(p, a, bytes[..done]), a + done - p.address, bytes[done..done + c])
         == Poke(p, a, bytes[..done + c])
  {
    var q := Poke(p, a, bytes[..done]);
    forall k | 0 <= k < PAGE ensures |Content(q)| == PAGE && Content(q)[k] == PokedByte(p, a, bytes[..done], k) {
      PokeByte(p, a, bytes[..done], k);
    }
    var s := Stored(q, a + done - p.address, bytes[done..done + c]);
    var g := Poke(p, a, bytes[..done + c]);
    assert Touches(p, a, done + c);
    assert |s.bytes.value| == PAGE;
    forall k | 0 <= k < PAGE ensures s.bytes.value[k] == g.bytes.value[k] {
      StoredByte(q, a + done - p.address, bytes[done..done + c], k);
    }
    assert s.bytes.value == g.bytes.value;
  }

  lemma StoredByte(p: Page, at: nat, bytes: seq<octet>, k: nat)
    requires |Content(p)| == PAGE && at + |bytes| <= PAGE && k < PAGE
    ensures |Stored(p, at, bytes).bytes.value| == PAGE
    ensures Stored(p, at, bytes).bytes.value[k] == if at <= k < at + |bytes| then bytes[k - at] else Content(p)[k]
  {
  }

  lemma PokeElsewhere(p: Page, a: nat, bytes: seq<octet>, done: nat, c: nat)
    requires |Content(p)| == PAGE && p.address % PAGE == 0 && done + c <= |bytes| && 0 < c
    requires Offset(a + done) + c <= PAGE
    requires p.address != PageBase(a + done)
    ensures Poke(p, a, bytes[..done + c]) == Poke(p, a, bytes[..done])
  {
    OtherPage(p.address, a + done, c);
    assert Touches(p, a, done + c) == Touches(p, a, done);
    if Touches(p, a, done) {
      var g, w := Poke(p, a, bytes[..done + c]), Poke(p, a, bytes[..done]);
      forall k | 0 <= k < PAGE ensures g.bytes.value[k] == w.bytes.value[k] {
        assert !In(p.address + k, a + done, c);
      }
      assert g.bytes.value == w.bytes.value;
    }
  }

  /** A chunk inside one page misses every other page. */
  lemma OtherPage(address: nat, x: nat, c: nat)
    requires address % PAGE == 0 && Offset(x) + c <= PAGE && address != PageBase(x)
    ensures address + PAGE <= x || x + c <= address
  {
  }

  /** Storing one chunk extends the written prefix. */
  lemma PokedChunk(pages: seq<Page>, a: nat, bytes: seq<octet>, done: nat, c: nat, i: nat)
    requires Good(pages) && done < |bytes| && c == Chunk(a + done, |bytes| - done)
    requires i < |pages| && pages[i].address == PageBase(a + done) && pages[i].bytes.Some?
    ensures var q := Poked(pages, a, bytes[..done]);
      |Content(q[i])| == PAGE
      && Poked(pages, a, bytes[..done + c]) == q[i := Stored(q[i], Offset(a + done), bytes[done..done + c])]
  {
    hide Poke, Stored, Lower, PageBase, Offset, Chunk, Content;
    var q, r := Poked(pages, a, bytes[..done]), Poked(pages, a, bytes[..done + c]);
    assert GoodPage(pages[i]);
    ChunkInPage(a + done, |bytes| - done);
    ContentSize(pages[i]);
    StoredIsPoke(pages[i], a, bytes, done, c);
    forall j | 0 <= j < |pages| && j != i ensures r[j] == q[j] {
      assert GoodPage(pages[j]);
      ContentSize(pages[j]);
      assert pages[j].address != pages[i].address;
      PokeElsewhere(pages[j], a, bytes, done, c);
    }
  }

  lemma ContentSize(p: Page)
    requires GoodPage(p)
    ensures |Content(p)| == PAGE
  {
  }

  lemma ChunkInPage(x: nat, n: nat)
    requires n > 0
    ensures PageBase(x) <= x && x + Chunk(x, n) <= PageBase(x) + PAGE && x - PageBase(x) == Offset(x)
    ensures 0 < Chunk(x, n) <= n && Offset(x) + Chunk(x, n) <= PAGE
  {
  }

  lemma PokedNothing(pages: seq<Page>, a: nat)
    requires Good(pages)
    ensures Poked(pages, a, []) == pages
  {
    forall i | 0 <= i < |pages| ensures Poked(pages, a, [])[i] == pages[i] { assert GoodPage(pages[i]); }
  }

  // ----- fetching -----

  /** The instruction word at `pc`, if it may be executed. */
  function FetchWord(pages: seq<Page>, t: Thread, pc: nat): (word: Option<nat>)
    requires Good(pages)
    ensures word.Some? ==> word.value < 0x1_0000_0000
  {
    LittleBelow(Bytes(pages, pc, 4));
    assert Power(4) == 0x1_0000_0000;
    if pc % 4 == 0 && Access(pages, t, pc, 4, EXEC).0 == Status.Ok then Some(Little(Bytes(pages, pc, 4))) else None
  }

  ghost predicate SameCode(pages: seq<Page>, r: seq<Page>)
    requires Good(pages) && Good(r)
  {
    forall t, pc :: FetchWord(r, t, pc) == FetchWord(pages, t, pc)
  }

  /** Fetching sees only what executable pages hold. */
  lemma SameFetch(pages: seq<Page>, r: seq<Page>)
    requires Good(pages) && Good(r)
    requires forall t, x :: Verdict(r, t, PageBase(x), EXEC) == Verdict(pages, t, PageBase(x), EXEC)
    requires forall t, x :: Allowed(pages, t, x, EXEC) ==> ByteAt(r, x) == ByteAt(pages, x)
    ensures SameCode(pages, r)
  {
    hide Verdict, ByteAt, AccessFrom, Little, PageBase;
    forall t, pc: nat ensures FetchWord(r, t, pc) == FetchWord(pages, t, pc) {
      AccessMeans(pages, t, pc, pc + 4, EXEC);
      AccessMeans(r, t, pc, pc + 4, EXEC);
      forall x: nat ensures Allowed(r, t, x, EXEC) == Allowed(pages, t, x, EXEC) {
      }
      if FetchWord(pages, t, pc).Some? {
        forall k | 0 <= k < 4 ensures Bytes(r, pc, 4)[k] == Bytes(pages, pc, 4)[k] {
          assert Allowed(pages, t, pc + k, EXEC);
        }
        assert Bytes(r, pc, 4) == Bytes(pages, pc, 4);
      }
    }
  }

  lemma AlikeCode(pages: seq<Page>, r: seq<Page>)
    requires Good(pages) && Good(r) && Alike(pages, r)
    ensures SameCode(pages, r)
  {
    hide Verdict, ByteAt, PageBase;
    forall t, x: nat
      ensures Verdict(r, t, PageBase(x), EXEC) == Verdict(pages, t, PageBase(x), EXEC)
      ensures ByteAt(r, x) == ByteAt(pages, x)
    {
      AlikeMeans(pages, r, x);
    }
    SameFetch(pages, r);
  }

  /** A write that touches no executable page changes no instruction. */
  lemma PokedCode(pages: seq<Page>, a: nat, bytes: seq<octet>)
    requires Good(pages) && Good(Poked(pages, a, bytes)) && !ExecTouched(pages, a, |bytes|)
    ensures SameCode(pages, Poked(pages, a, bytes))
  {
    hide ByteAt, PageBase, Poked, Verdict;
    var r := Poked(pages, a, bytes);
    forall t, x: nat
      ensures Verdict(r, t, PageBase(x), EXEC) == Verdict(pages, t, PageBase(x), EXEC)
      ensures Allowed(pages, t, x, EXEC) ==> ByteAt(r, x) == ByteAt(pages, x)
    {
      PokedMeans(pages, a, bytes, x);
      if Allowed(pages, t, x, EXEC) { ExecUntouched(pages, t, a, |bytes|, x); }
    }
    SameFetch(pages, r);
  }

  lemma ExecUntouched(pages: seq<Page>, t: Thread, a: nat, n: nat, x: nat)
    requires Good(pages) && Allowed(pages, t, x, EXEC) && !ExecTouched(pages, a, n)
    ensures !In(x, a, n) && PageAt(pages, PageBase(x)).Some?
  {
    hide Lower;
    var p := PageAt(pages, PageBase(x)).value;
    var i :| 0 <= i < |pages| && pages[i] == p;
    assert !Touches(pages[i], a, n);
  }
}
