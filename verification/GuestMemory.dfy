/**
 Guest memory as the interpreter uses it (runtime/GuestMemory.c): a sorted array
 of pages changed in place, with a generation that counts every change and one
 that counts changes to code.
 */
module GuestMemory {
  import opened GuestTypes
  import opened Octets
  import opened GuestPages
  import opened GuestAccess

  const ALL: Prot := 7

  datatype Mem = Mem(pages: seq<Page>, generation: nat, codeGeneration: nat)

  function Bumped(m: Mem, pages: seq<Page>): Mem {
    Mem(pages, m.generation + 1, m.codeGeneration + 1)
  }

  // ----- what each call does -----

  function MapResult(m: Mem, a: nat, n: nat, prot: Prot, maxprot: Prot, replace: bool, allocates: bool): Status {
    if !Aligned(a, n) || Exceeds(maxprot, ALL) || Exceeds(prot, maxprot) then Invalid
    else if !replace && Lower(m.pages, a) != Lower(m.pages, a + n) then Overlap
    else if !allocates then NoMem
    else Status.Ok
  }

  function AfterMap(m: Mem, a: nat, n: nat, prot: Prot, maxprot: Prot, jit: bool, replace: bool, allocates: bool): Mem {
    if MapResult(m, a, n, prot, maxprot, replace, allocates) == Status.Ok
    then Bumped(m, Mapped(m.pages, a, n, prot, maxprot, jit)) else m
  }

  function AfterUnmap(m: Mem, a: nat, n: nat): Mem {
    if Aligned(a, n) then Bumped(m, Without(m.pages, a, n)) else m
  }

  predicate ProtectFits(m: Mem, a: nat, n: nat, prot: Prot) {
    forall i :: Lower(m.pages, a) <= i < Lower(m.pages, a + n) ==> !Exceeds(prot, m.pages[i].maxprot)
  }

  function ProtectResult(m: Mem, a: nat, n: nat, prot: Prot): Status {
    if !Aligned(a, n) || Exceeds(prot, ALL) then Invalid
    else if Lower(m.pages, a + n) - Lower(m.pages, a) != n / PAGE then Unmapped
    else if !ProtectFits(m, a, n, prot) then Protection
    else Status.Ok
  }

  function AfterProtect(m: Mem, a: nat, n: nat, prot: Prot): Mem
    requires Sorted(m.pages)
  {
    LowerOrdered(m.pages, a, a + n);
    if ProtectResult(m, a, n, prot) == Status.Ok
    then Bumped(m, Protected(m.pages, Lower(m.pages, a), Lower(m.pages, a + n), prot)) else m
  }

  /** A write of `bytes` when `room` more pages can be given storage: new memory, result, fault address. */
  function AfterWrite(m: Mem, t: Thread, a: nat, bytes: seq<octet>, permission: Prot, room: nat): (Mem, Status, nat)
    requires Good(m.pages)
  {
    var (v, f) := Access(m.pages, t, a, |bytes|, permission);
    if v != Status.Ok then (m, v, f)
    else if bytes == [] then (m, Status.Ok, 0)
    else
      var first := Lower(m.pages, PageBase(a));
      var (filled, ok) := Filled(m.pages, first, a + |bytes|, room);
      FilledMeans(m.pages, first, a + |bytes|, room);
      AlikeGood(m.pages, filled);
      if !ok then (m.(pages := filled), NoMem, 0)
      else
        (Mem(Poked(filled, a, bytes), m.generation + 1,
             m.codeGeneration + if ExecTouched(m.pages, a, |bytes|) then 1 else 0), Status.Ok, 0)
  }

  // ----- meanings -----

  /** A page of the range exists exactly when the two bounds differ. */
  lemma OverlapMeans(pages: seq<Page>, a: nat, n: nat)
    requires Sorted(pages)
    ensures Lower(pages, a) != Lower(pages, a + n) <==> exists i :: 0 <= i < |pages| && In(pages[i].address, a, n)
  {
    LowerSplits(pages, a);
    LowerSplits(pages, a + n);
    LowerOrdered(pages, a, a + n);
    if Lower(pages, a) != Lower(pages, a + n) {
      assert In(pages[Lower(pages, a)].address, a, n);
    }
  }

  ghost predicate Whole(pages: seq<Page>, a: nat, n: nat) {
    forall base: nat :: base % PAGE == 0 && In(base, a, n) ==> PageAt(pages, base).Some?
  }

  /** Pages of the range are at least one page apart. */
  lemma {:induction false} Spaced(pages: seq<Page>, i: nat, j: nat)
    requires Good(pages) && i <= j < |pages|
    ensures pages[j].address >= pages[i].address + (j - i) * PAGE
    decreases j - i
  {
    if i < j {
      Spaced(pages, i, j - 1);
      assert GoodPage(pages[j - 1]) && GoodPage(pages[j]) && pages[j - 1].address < pages[j].address;
      NextPage(pages[j - 1].address, pages[j].address);
    }
  }

  lemma RangeAt(pages: seq<Page>, a: nat, n: nat, k: nat)
    requires Good(pages) && Aligned(a, n)
    requires Lower(pages, a + n) - Lower(pages, a) == n / PAGE && k < n / PAGE
    ensures pages[Lower(pages, a) + k].address == a + k * PAGE
  {
    hide Lower;
    var first, last := Lower(pages, a), Lower(pages, a + n);
    assert pages[last - 1].address < a + n && GoodPage(pages[last - 1]);
    hide GoodPage, Sorted;
    NextPage(pages[last - 1].address, a + n);
    Spaced(pages, first, first + k);
    Spaced(pages, first + k, last - 1);
  }

  /** If every page of the range is there, the k-th is at index `first + k`. */
  lemma {:induction false} WholeAt(pages: seq<Page>, a: nat, n: nat, k: nat)
    requires Good(pages) && Aligned(a, n) && Whole(pages, a, n) && k <= n / PAGE
    ensures Lower(pages, a + k * PAGE) == Lower(pages, a) + k
  {
    hide Good, Lower;
    if k > 0 {
      WholeAt(pages, a, n, k - 1);
      var base := a + (k - 1) * PAGE;
      FreshFits(a, n, k - 1);
      assert PageAt(pages, base).Some?;
      var i := Lower(pages, base);
      NextLower(pages, i);
    }
  }

  lemma NextLower(pages: seq<Page>, i: nat)
    requires Good(pages) && i < |pages|
    ensures Lower(pages, pages[i].address + PAGE) == i + 1
  {
    if i + 1 < |pages| {
      assert GoodPage(pages[i]) && GoodPage(pages[i + 1]);
      NextPage(pages[i].address, pages[i + 1].address);
    }
    LowerUnique(pages, pages[i].address + PAGE, i + 1);
  }

  /** The page count of the range decides whether all of it is mapped. */
  lemma WholeMeans(pages: seq<Page>, a: nat, n: nat)
    requires Good(pages) && Aligned(a, n)
    ensures Lower(pages, a + n) - Lower(pages, a) == n / PAGE <==> Whole(pages, a, n)
  {
    hide Lower, PageAt, Good;
    if Whole(pages, a, n) {
      WholeAt(pages, a, n, n / PAGE);
      assert a + n / PAGE * PAGE == a + n;
    }
    if Lower(pages, a + n) - Lower(pages, a) == n / PAGE {
      forall base: nat | base % PAGE == 0 && In(base, a, n) ensures PageAt(pages, base).Some? {
        var k := PageIndex(a, n, base);
        RangeAt(pages, a, n, k);
        IndexFound(pages, Lower(pages, a) + k);
      }
    }
  }

  lemma IndexFound(pages: seq<Page>, k: nat)
    requires Good(pages) && k < |pages|
    ensures PageAt(pages, pages[k].address).Some?
  {
    PageAtIndex(pages, k);
  }

  /** Memory moved on: no step back, and unless the code generation grew every fetch answers as before. */
  ghost predicate Advances(m: Mem, r: Mem) {
    Good(m.pages) && Good(r.pages) && m.codeGeneration <= r.codeGeneration
    && (m.codeGeneration == r.codeGeneration ==> SameCode(m.pages, r.pages))
  }

  lemma MapAdvances(m: Mem, a: nat, n: nat, prot: Prot, maxprot: Prot, jit: bool, replace: bool, allocates: bool)
    requires Good(m.pages)
    ensures Advances(m, AfterMap(m, a, n, prot, maxprot, jit, replace, allocates))
  {
    hide Good, Mapped, FetchWord;
    if Aligned(a, n) { MappedMeans(m.pages, a, n, prot, maxprot, jit, 0); }
  }

  lemma UnmapAdvances(m: Mem, a: nat, n: nat)
    requires Good(m.pages)
    ensures Advances(m, AfterUnmap(m, a, n))
  {
    hide Good, Without, FetchWord;
    WithoutMeans(m.pages, a, n, 0);
  }

  lemma ProtectAdvances(m: Mem, a: nat, n: nat, prot: Prot)
    requires Good(m.pages)
    ensures Advances(m, AfterProtect(m, a, n, prot))
  {
    hide Protected, FetchWord;
    ProtectedMeans(m.pages, a, n, prot, 0);
  }

  lemma WriteAdvances(m: Mem, t: Thread, a: nat, bytes: seq<octet>, permission: Prot, room: nat)
    requires Good(m.pages)
    ensures Advances(m, AfterWrite(m, t, a, bytes, permission, room).0)
  {
    hide Lower, Filled, Poked, Access, FetchWord, GoodPage, Touches;
    var first := Lower(m.pages, PageBase(a));
    var filled := Filled(m.pages, first, a + |bytes|, room).0;
    FilledMeans(m.pages, first, a + |bytes|, room);
    AlikeGood(m.pages, filled);
    AlikeCode(m.pages, filled);
    PokedGood(filled, a, bytes);
    AlikeTouched(m.pages, filled, a, |bytes|);
    if !ExecTouched(m.pages, a, |bytes|) { PokedCode(filled, a, bytes); }
  }

  lemma AlikeTouched(pages: seq<Page>, r: seq<Page>, a: nat, n: nat)
    requires Alike(pages, r)
    ensures ExecTouched(r, a, n) == ExecTouched(pages, a, n)
  {
    if ExecTouched(pages, a, n) {
      var i :| 0 <= i < |pages| && Touches(pages[i], a, n) && Allows(pages[i].prot, EXEC);
      assert Touches(r[i], a, n);
    }
  }

  /** A write that is granted changes exactly the written bytes and no permission; any other write changes neither. */
  lemma WriteMeans(m: Mem, t: Thread, a: nat, bytes: seq<octet>, permission: Prot, room: nat, x: nat)
    requires Good(m.pages)
    ensures var (r, v, _) := AfterWrite(m, t, a, bytes, permission, room);
      Good(r.pages)
      && ByteAt(r.pages, x) == (if v == Status.Ok && In(x, a, |bytes|) then bytes[x - a] else ByteAt(m.pages, x))
      && forall u, p :: Verdict(r.pages, u, PageBase(x), p) == Verdict(m.pages, u, PageBase(x), p)
  {
    hide Lower, Filled, Poked, AccessFrom, FetchWord, GoodPage, Touches, ByteAt, Verdict, PageBase;
    WriteAdvances(m, t, a, bytes, permission, room);
    var first := Lower(m.pages, PageBase(a));
    var filled := Filled(m.pages, first, a + |bytes|, room).0;
    FilledMeans(m.pages, first, a + |bytes|, room);
    AlikeGood(m.pages, filled);
    AlikeMeans(m.pages, filled, x);
    PokedGood(filled, a, bytes);
    PokedMeans(filled, a, bytes, x);
    if Access(m.pages, t, a, |bytes|, permission).0 == Status.Ok && In(x, a, |bytes|) {
      AccessMeans(m.pages, t, a, a + |bytes|, permission);
      assert Allowed(m.pages, t, x, permission);
      AllowedMapped(m.pages, filled, t, x, permission);
    }
    UnmappedReadsZero(m.pages, filled, a, bytes, x);
  }

  lemma AllowedMapped(pages: seq<Page>, r: seq<Page>, t: Thread, x: nat, permission: Prot)
    requires Good(pages) && Good(r) && Alike(pages, r) && Allowed(pages, t, x, permission)
    ensures PageAt(r, PageBase(x)).Some?
  {
    SamePlaces(pages, r, PageBase(x));
  }

  lemma UnmappedReadsZero(pages: seq<Page>, r: seq<Page>, a: nat, bytes: seq<octet>, x: nat)
    requires Good(pages) && Good(r) && Alike(pages, r) && Good(Poked(r, a, bytes))
    ensures PageAt(r, PageBase(x)).None? ==> ByteAt(Poked(r, a, bytes), x) == 0 == ByteAt(r, x)
  {
    SamePlaces(r, Poked(r, a, bytes), PageBase(x));
  }

  // ----- the memory itself -----

  class Memory {
    var pages: seq<Page>
    var generation: nat
    var codeGeneration: nat
    var fault: nat

    ghost predicate Valid()
      reads this
    {
      Good(pages)
    }

    ghost function M(): Mem
      reads this
    {
      Mem(pages, generation, codeGeneration)
    }

    constructor ()
      ensures Valid() && M() == Mem([], 0, 0)
    {
      pages, generation, codeGeneration, fault := [], 0, 0, 0;
    }

    method LowerBound(a: nat) returns (i: nat)
      requires Sorted(pages)
      ensures i == Lower(pages, a)
    {
      var lo: nat, hi: nat := 0, |pages|;
      while lo < hi
        invariant lo <= hi <= |pages|
        invariant forall k :: 0 <= k < lo ==> pages[k].address < a
        invariant hi < |pages| ==> pages[hi].address >= a
      {
        var mid := lo + (hi - lo) / 2;
        if pages[mid].address < a { lo := mid + 1; } else { hi := mid; }
      }
      LowerUnique(pages, a, lo);
      return lo;
    }

    method Map(a: nat, n: nat, prot: Prot, maxprot: Prot, jit: bool, replace: bool, allocates: bool) returns (r: Status)
      requires Valid()
      modifies this
      ensures Valid() && fault == old(fault)
      ensures r == MapResult(old(M()), a, n, prot, maxprot, replace, allocates)
      ensures M() == AfterMap(old(M()), a, n, prot, maxprot, jit, replace, allocates)
    {
      hide Lower, Good, Fresh, PageAt, Exceeds, Aligned, In;
      if !Aligned(a, n) || Exceeds(maxprot, ALL) || Exceeds(prot, maxprot) { return Invalid; }
      GoodSorted(pages);
      var first := LowerBound(a);
      var last := LowerBound(a + n);
      if !replace && first != last { return Overlap; }
      if !allocates { return NoMem; }
      var added := NewPages(a, n / PAGE, prot, maxprot, jit);
      MappedMeans(pages, a, n, prot, maxprot, jit, 0);
      Renew(pages[..first] + added + pages[last..]);
      return Status.Ok;
    }

    /** A new page array; both generations move on. */
    method Renew(next: seq<Page>)
      requires Good(next)
      modifies this`pages, this`generation, this`codeGeneration
      ensures Valid() && M() == Bumped(old(M()), next)
    {
      hide Good;
      pages, generation, codeGeneration := next, generation + 1, codeGeneration + 1;
    }

    method Unmap(a: nat, n: nat) returns (r: Status)
      requires Valid()
      modifies this
      ensures Valid() && fault == old(fault)
      ensures r == if Aligned(a, n) then Status.Ok else Invalid
      ensures M() == AfterUnmap(old(M()), a, n)
    {
      hide Lower, Good;
      if !Aligned(a, n) { return Invalid; }
      GoodSorted(pages);
      var first := LowerBound(a);
      var last := LowerBound(a + n);
      WithoutMeans(pages, a, n, 0);
      assert pages[..first] + pages[last..] == Without(pages, a, n);
      Renew(pages[..first] + pages[last..]);
      return Status.Ok;
    }

    method Protect(a: nat, n: nat, prot: Prot) returns (r: Status)
      requires Valid()
      modifies this
      ensures Valid() && fault == old(fault)
      ensures r == ProtectResult(old(M()), a, n, prot)
      ensures M() == AfterProtect(old(M()), a, n, prot)
    {
      hide Lower, GoodPage, Sorted, Protected, Exceeds;
      if !Aligned(a, n) || Exceeds(prot, ALL) { return Invalid; }
      var first := LowerBound(a);
      var last := LowerBound(a + n);
      if last - first != n / PAGE { return Unmapped; }
      var fits := CheckMaximum(pages, first, last, prot);
      if !fits { return Protection; }
      ProtectedMeans(pages, a, n, prot, 0);
      var next := SetProtection(pages, first, last, prot);
      Renew(next);
      return Status.Ok;
    }

    method AccessRange(t: Thread, a: nat, n: nat, permission: Prot) returns (r: Status)
      requires Valid()
      modifies this`fault
      ensures (r, fault) == Access(pages, t, a, n, permission)
    {
      hide Lower, Good, PageBase, Chunk, Verdict;
      if n + a > U64_MAX {
        fault := a;
        return Invalid;
      }
      var at, end := a, a + n;
      while at < end
        invariant at <= end
        invariant AccessFrom(pages, t, at, end, permission) == AccessFrom(pages, t, a, end, permission)
      {
        r := Look(t, at, permission);
        if r != Status.Ok { return; }
        at := at + Chunk(at, end - at);
      }
      fault := 0;
      return Status.Ok;
    }

    /** The page of one address: found, permitted, or the fault. */
    method Look(t: Thread, a: nat, permission: Prot) returns (r: Status)
      requires Valid()
      modifies this`fault
      ensures r == Verdict(pages, t, PageBase(a), permission) && fault == a
    {
      var base := PageBase(a);
      var i := LowerBound(base);
      fault := a;
      if i == |pages| || pages[i].address != base { return Unmapped; }
      var p := pages[i];
      if !Allows(p.prot, permission) || JitBlocks(p, t, permission) { return Protection; }
      return Status.Ok;
    }

    /** Copies `n` bytes out once all of them may be accessed. */
    method CopyOut(t: Thread, a: nat, n: nat, permission: Prot) returns (r: Status, bytes: seq<octet>)
      requires Valid()
      modifies this`fault
      ensures (r, fault) == Access(pages, t, a, n, permission)
      ensures r == Status.Ok ==> bytes == Bytes(pages, a, n)
    {
      hide Lower, GoodPage, Sorted, PageBase, Offset, AccessFrom, Verdict, Bytes;
      bytes := [];
      if 0 < n <= PAGE - Offset(a) && n <= U64_MAX - a {
        OnePage(pages, t, a, n, permission);
        r := Look(t, a, permission);
        if r != Status.Ok { return; }
        fault := 0;
        bytes := PageBytes(t, a, n, permission);
        return;
      }
      r := AccessRange(t, a, n, permission);
      if r != Status.Ok { return; }
      bytes := Collect(t, a, n, permission);
    }

    /** The bytes from `a` on, all in the page of `a`. */
    method PageBytes(ghost t: Thread, a: nat, n: nat, ghost permission: Prot) returns (bytes: seq<octet>)
      requires Valid() && Allowed(pages, t, a, permission) && 0 < n <= PAGE - Offset(a)
      ensures bytes == Bytes(pages, a, n)
    {
      hide Sorted, GoodPage, Bytes, ByteAt, Offset, PageBase;
      var i := LowerBound(PageBase(a));
      PageGood(pages, i);
      PageSlice(pages, a, n, pages[i]);
      bytes := if pages[i].bytes.Some? then pages[i].bytes.value[Offset(a)..Offset(a) + n] else Blank(n);
    }

    method Collect(ghost t: Thread, a: nat, n: nat, ghost permission: Prot) returns (bytes: seq<octet>)
      requires Valid() && AccessFrom(pages, t, a, a + n, permission).0 == Status.Ok
      ensures bytes == Bytes(pages, a, n)
    {
      hide Lower, Sorted, GoodPage, PageBase, Offset, Chunk, Allowed, AccessFrom, ByteAt;
      AccessMeans(pages, t, a, a + n, permission);
      bytes := [];
      while |bytes| < n
        invariant |bytes| <= n && bytes == Bytes(pages, a, |bytes|)
      {
        var at, c := a + |bytes|, Chunk(a + |bytes|, n - |bytes|);
        var chunk := PageBytes(t, at, c, permission);
        BytesMore(pages, a, |bytes|, c);
        bytes := bytes + chunk;
      }
    }

    /** Copies bytes in, all or none of them. */
    method CopyIn(t: Thread, a: nat, bytes: seq<octet>, permission: Prot, room: nat) returns (r: Status)
      requires Valid()
      modifies this
      ensures Valid() && (M(), r, fault) == AfterWrite(old(M()), t, a, bytes, permission, room)
    {
      hide Lower, GoodPage, Sorted, PageBase, Offset, AccessFrom, Verdict, Filled, Poked;
      if 0 < |bytes| <= PAGE - Offset(a) && |bytes| <= U64_MAX - a {
        OnePage(pages, t, a, |bytes|, permission);
        r := Look(t, a, permission);
        if r != Status.Ok { return; }
        fault := 0;
        r := Store(t, a, bytes, permission, room);
        return;
      }
      r := AccessRange(t, a, |bytes|, permission);
      AccessMeans(pages, t, a, a + |bytes|, permission);
      if r != Status.Ok || bytes == [] { return; }
      r := StoreAcross(t, a, bytes, permission, room);
    }

    /** The quick way for bytes inside one page. */
    method Store(ghost t: Thread, a: nat, bytes: seq<octet>, ghost permission: Prot, room: nat) returns (r: Status)
      requires Valid() && Allowed(pages, t, a, permission) && 0 < |bytes| <= PAGE - Offset(a) && fault == 0
      requires Access(pages, t, a, |bytes|, permission) == (Status.Ok, 0)
      modifies this`pages, this`generation, this`codeGeneration
      ensures Valid() && (M(), r, fault) == AfterWrite(old(M()), t, a, bytes, permission, room)
    {
      hide Sorted, GoodPage, AccessFrom, Filled, Poked, Poke, Touches, PageBase, Offset, Access;
      var i := LowerBound(PageBase(a));
      hide Lower;
      AlonePage(pages, a, bytes, i, room);
      var p := pages[i];
      if p.bytes.None? {
        if room == 0 { return NoMem; }
        p := p.(bytes := Some(Blank(PAGE)));
      }
      p := Stored(p, Offset(a), bytes);
      pages := pages[i := p];
      generation := generation + 1;
      if Allows(p.prot, EXEC) { codeGeneration := codeGeneration + 1; }
      return Status.Ok;
    }

    /** The slow way: first give every page storage, then copy page by page. */
    method StoreAcross(ghost t: Thread, a: nat, bytes: seq<octet>, ghost permission: Prot,
                       room: nat) returns (r: Status)
      requires Valid() && bytes != [] && Access(pages, t, a, |bytes|, permission) == (Status.Ok, 0) && fault == 0
      modifies this`pages, this`generation, this`codeGeneration
      ensures Valid() && (M(), r, fault) == AfterWrite(old(M()), t, a, bytes, permission, room)
    {
      hide Sorted, GoodPage, Access, Filled, Poked, Touches, Lower;
      var first := LowerBound(PageBase(a));
      var filled, ok := Fill(pages, first, a + |bytes|, room);
      FilledMeans(pages, first, a + |bytes|, room);
      AlikeGood(pages, filled);
      AlikeTouched(pages, filled, a, |bytes|);
      FilledReady(pages, filled, t, a, |bytes|, permission, room);
      pages := filled;
      if !ok { return NoMem; }
      var executable := CopyPages(a, bytes);
      generation := generation + 1;
      if executable { codeGeneration := codeGeneration + 1; }
      return Status.Ok;
    }

    method CopyPages(a: nat, bytes: seq<octet>) returns (executable: bool)
      requires Valid() && Ready(pages, a, |bytes|)
      modifies this`pages
      ensures Valid() && pages == Poked(old(pages), a, bytes)
      ensures executable <==> ExecTouched(old(pages), a, |bytes|)
    {
      hide Lower, GoodPage, Sorted, PageBase, Offset, Chunk, Poked, ExecTouched, Poke, Ready, Stored;
      ghost var was := pages;
      var done := 0;
      executable := false;
      PokedNothing(was, a);
      NoneTouched(was, a);
      assert bytes[..0] == [];
      while done < |bytes|
        invariant done <= |bytes| && Good(was) && Valid() && Ready(was, a, |bytes|)
        invariant pages == Poked(was, a, bytes[..done])
        invariant executable <==> ExecTouched(was, a, done)
      {
        ghost var x: nat := a + done;
        PokedPlaces(was, a, bytes[..done], PageBase(a + done));
        ReadyAt(was, a, |bytes|, a + done);
        var i := LowerBound(PageBase(a + done));
        if Allows(pages[i].prot, EXEC) { executable := true; }
        var c := Chunk(a + done, |bytes| - done);
        TouchedMore(was, a, done, c, i, |bytes|);
        PokedChunk(was, a, bytes, done, c, i);
        ChunkInPage(a + done, |bytes| - done);
        pages := pages[i := Stored(pages[i], Offset(a + done), bytes[done..done + c])];
        PokedGood(was, a, bytes[..done + c]);
        done := done + c;
      }
      assert bytes[..done] == bytes;
    }

    method Fetch(t: Thread, pc: nat) returns (r: Status, word: nat)
      requires Valid()
      modifies this`fault
      ensures (r == Status.Ok <==> FetchWord(pages, t, pc).Some?)
      ensures (r == Status.Ok ==> Some(word) == FetchWord(pages, t, pc))
      ensures (r, fault) == if pc % 4 != 0 then (Invalid, pc) else Access(pages, t, pc, 4, EXEC)
    {
      hide Good, Access, Bytes, Little;
      word := 0;
      if pc % 4 != 0 {
        fault := pc;
        return Invalid, 0;
      }
      var bytes;
      r, bytes := CopyOut(t, pc, 4, EXEC);
      if r == Status.Ok { word := Little(bytes); }
    }

    /** The lowest free place for `n` bytes at or above `hint`. */
    method FindFree(hint: nat, n: nat) returns (r: Status, a: nat)
      requires Valid()
      ensures r == Invalid <==> !Aligned(hint, n)
      ensures r == Status.Ok ==> Free(pages, hint, n, a) && forall c :: hint <= c < a ==> !Free(pages, hint, n, c)
      ensures r != Status.Ok && r != Invalid ==> r == NoMem && forall c :: !Free(pages, hint, n, c)
    {
      hide Lower, GoodPage;
      a := hint;
      if !Aligned(hint, n) { return Invalid, hint; }
      var i := LowerBound(hint);
      LowerSplits(pages, hint);
      while i < |pages|
        invariant i <= |pages| && hint <= a && Aligned(a, n)
        invariant forall k :: i <= k < |pages| ==> pages[k].address >= a
        invariant forall k :: 0 <= k < i ==> pages[k].address < a
        invariant forall c :: hint <= c < a ==> !Free(pages, hint, n, c)
        decreases |pages| - i
      {
        if pages[i].address >= a + n { break; }
        NextPlace(pages, hint, n, a, i);
        a := pages[i].address + PAGE;
        i := i + 1;
        if n > U64_MAX - a { return NoMem, a; }
      }
      return Status.Ok, a;
    }
  }

  /** `c` is a page-aligned place at or above `hint` whose `n` bytes are free and do not wrap. */
  ghost predicate Free(pages: seq<Page>, hint: nat, n: nat, c: nat) {
    hint <= c && c % PAGE == 0 && n <= U64_MAX - c && forall k :: 0 <= k < |pages| ==> !In(pages[k].address, c, n)
  }

  /** Passing over page `i` passes over no free place. */
  lemma NextPlace(pages: seq<Page>, hint: nat, n: nat, a: nat, i: nat)
    requires Good(pages) && Aligned(a, n) && i < |pages| && a <= pages[i].address < a + n
    ensures forall c :: a <= c < pages[i].address + PAGE ==> !Free(pages, hint, n, c)
    ensures forall k :: i < k < |pages| ==> pages[k].address >= pages[i].address + PAGE
    ensures (pages[i].address + PAGE) % PAGE == 0
  {
    assert GoodPage(pages[i]);
    forall c | a <= c < pages[i].address + PAGE ensures !Free(pages, hint, n, c) {
      if c % PAGE == 0 {
        if c > pages[i].address { NextPage(pages[i].address, c); }
        assert In(pages[i].address, c, n);
      }
    }
    forall k | i < k < |pages| ensures pages[k].address >= pages[i].address + PAGE {
      assert GoodPage(pages[k]);
      NextPage(pages[i].address, pages[k].address);
    }
  }

  lemma OnePage(pages: seq<Page>, t: Thread, a: nat, n: nat, permission: Prot)
    requires 0 < n <= PAGE - Offset(a) && n <= U64_MAX - a
    ensures var v := Verdict(pages, t, PageBase(a), permission);
      Access(pages, t, a, n, permission) == (v, if v == Status.Ok then 0 else a)
  {
    assert Chunk(a, n) == n;
    assert AccessFrom(pages, t, a + n, a + n, permission) == (Status.Ok, 0);
  }

  lemma BytesMore(pages: seq<Page>, a: nat, n: nat, c: nat)
    requires Good(pages)
    ensures Bytes(pages, a, n) + Bytes(pages, a + n, c) == Bytes(pages, a, n + c)
  {
    hide ByteAt, Good;
    var left, right := Bytes(pages, a, n) + Bytes(pages, a + n, c), Bytes(pages, a, n + c);
    forall k | 0 <= k < n + c ensures left[k] == right[k] {
      if k >= n { assert a + n + (k - n) == a + k; }
    }
  }

  /** Every page that `n` bytes from `a` touch exists and has storage. */
  ghost predicate Ready(pages: seq<Page>, a: nat, n: nat) {
    forall x :: a <= x < a + n ==> Backed(pages, PageBase(x))
  }

  predicate Backed(pages: seq<Page>, base: nat) {
    PageAt(pages, base).Some? && PageAt(pages, base).value.bytes.Some?
  }

  lemma ReadyAt(pages: seq<Page>, a: nat, n: nat, x: nat)
    requires Ready(pages, a, n) && a <= x < a + n
    ensures var i := Lower(pages, PageBase(x)); i < |pages| && pages[i].address == PageBase(x) && pages[i].bytes.Some?
  {
    assert Backed(pages, PageBase(x));
  }

  lemma FilledReady(pages: seq<Page>, filled: seq<Page>, t: Thread, a: nat, n: nat, permission: Prot, room: nat)
    requires Good(pages) && Good(filled) && Alike(pages, filled) && n > 0
    requires Access(pages, t, a, n, permission).0 == Status.Ok
    requires filled == Filled(pages, Lower(pages, PageBase(a)), a + n, room).0
    ensures Filled(pages, Lower(pages, PageBase(a)), a + n, room).1 ==> Ready(filled, a, n)
  {
    hide Lower, Filled, Good, PageBase, Sorted, Backed, Allowed, Alike;
    AccessMeans(pages, t, a, a + n, permission);
    if Filled(pages, Lower(pages, PageBase(a)), a + n, room).1 {
      forall x | a <= x < a + n ensures Backed(filled, PageBase(x)) {
        FilledAt(pages, filled, t, a, n, permission, room, x);
      }
    }
  }

  lemma FilledAt(pages: seq<Page>, filled: seq<Page>, t: Thread, a: nat, n: nat, permission: Prot, room: nat, x: nat)
    requires Good(pages) && Good(filled) && Alike(pages, filled) && a <= x < a + n && Allowed(pages, t, x, permission)
    requires var r := Filled(pages, Lower(pages, PageBase(a)), a + n, room); filled == r.0 && r.1
    ensures Backed(filled, PageBase(x))
  {
    hide Lower, Filled, GoodPage, PageBase, Sorted;
    FilledMeans(pages, Lower(pages, PageBase(a)), a + n, room);
    SamePlaces(pages, filled, PageBase(x));
    BaseOrder(a, x);
    LowerOrdered(pages, PageBase(a), PageBase(x));
  }

  lemma BaseOrder(a: nat, x: nat)
    requires a <= x
    ensures PageBase(a) <= PageBase(x) <= x
  {
  }

  lemma NoneTouched(pages: seq<Page>, a: nat)
    ensures !ExecTouched(pages, a, 0)
  {
  }

  lemma PokedPlaces(pages: seq<Page>, a: nat, bytes: seq<octet>, base: nat)
    requires Good(pages)
    ensures var r := Poked(pages, a, bytes); |r| == |pages| && Sorted(r) && Lower(r, base) == Lower(pages, base)
    ensures forall i :: 0 <= i < |pages| ==> Poked(pages, a, bytes)[i].prot == pages[i].prot
  {
    hide Lower;
    SamePlaces(pages, Poked(pages, a, bytes), base);
  }

  /** One more chunk touches one more page at most. */
  lemma TouchedMore(pages: seq<Page>, a: nat, done: nat, c: nat, i: nat, n: nat)
    requires Good(pages) && done < n && c == Chunk(a + done, n - done) && i < |pages|
    requires pages[i].address == PageBase(a + done)
    ensures ExecTouched(pages, a, done + c) <==> ExecTouched(pages, a, done) || Allows(pages[i].prot, EXEC)
  {
    hide PageBase, Offset, Chunk, Allows, Lower;
    ChunkInPage(a + done, n - done);
    assert Touches(pages[i], a, done + c);
    forall j | 0 <= j < |pages| && j != i ensures Touches(pages[j], a, done + c) == Touches(pages[j], a, done) {
      assert GoodPage(pages[j]) && pages[j].address != pages[i].address;
      OtherPage(pages[j].address, a + done, c);
    }
    if ExecTouched(pages, a, done) {
      var k :| 0 <= k < |pages| && Touches(pages[k], a, done) && Allows(pages[k].prot, EXEC);
      assert Touches(pages[k], a, done + c);
    }
    if ExecTouched(pages, a, done + c) && !Allows(pages[i].prot, EXEC) {
      var k :| 0 <= k < |pages| && Touches(pages[k], a, done + c) && Allows(pages[k].prot, EXEC);
      assert Touches(pages[k], a, done);
    }
  }

  /** What the general write does when only one page is concerned. */
  lemma AlonePage(pages: seq<Page>, a: nat, bytes: seq<octet>, i: nat, room: nat)
    requires Good(pages) && 0 < |bytes| <= PAGE - Offset(a) && i < |pages|
    requires i == Lower(pages, PageBase(a)) && pages[i].address == PageBase(a)
    ensures |Content(pages[i])| == PAGE
    ensures ExecTouched(pages, a, |bytes|) <==> Allows(pages[i].prot, EXEC)
    ensures var p := pages[i].(bytes := Some(Content(pages[i])));
      |Content(p)| == PAGE && var (filled, ok) := Filled(pages, i, a + |bytes|, room);
      ok == (pages[i].bytes.Some? || room > 0)
      && (if ok then filled == pages[i := p] else filled == pages)
      && Good(pages[i := p]) && Good(filled)
      && (ok ==> && Poked(filled, a, bytes) == pages[i := Stored(p, Offset(a), bytes)]
                 && Good(pages[i := Stored(p, Offset(a), bytes)]))
  {
    hide PageBase, Offset, Chunk, Allows, Lower, Poked, Poke, Stored;
    assert Chunk(a, |bytes|) == |bytes| by { WholeChunk(a, |bytes|); }
    PageGood(pages, i);
    ContentSize(pages[i]);
    NoneTouched(pages, a);
    TouchedMore(pages, a, 0, |bytes|, i, |bytes|);
    var p := pages[i].(bytes := Some(Content(pages[i])));
    var (filled, ok) := Filled(pages, i, a + |bytes|, room);
    FilledOne(pages, i, a + |bytes|, room);
    FilledMeans(pages, i, a + |bytes|, room);
    AlikeGood(pages, filled);
    AlikeGood(pages, pages[i := p]);
    if ok {
      PokedNothing(filled, a);
      PokedChunk(filled, a, bytes, 0, |bytes|, i);
      PokedGood(filled, a, bytes);
      assert bytes[..0] == [] && bytes[0..|bytes|] == bytes && bytes[..|bytes|] == bytes;
      assert filled[i := Stored(p, Offset(a), bytes)] == pages[i := Stored(p, Offset(a), bytes)];
    }
  }

  lemma InPage(a: nat, n: nat, k: nat)
    requires k < n <= PAGE - Offset(a)
    ensures PageBase(a + k) == PageBase(a) && Offset(a + k) == Offset(a) + k
  {
  }

  /** Bytes that lie in one page are a slice of what it holds. */
  lemma PageSlice(pages: seq<Page>, a: nat, n: nat, p: Page)
    requires Good(pages) && PageAt(pages, PageBase(a)) == Some(p) && GoodPage(p) && 0 < n <= PAGE - Offset(a)
    ensures p.bytes.Some? ==> |p.bytes.value| == PAGE && Bytes(pages, a, n) == p.bytes.value[Offset(a)..Offset(a) + n]
    ensures p.bytes.None? ==> Bytes(pages, a, n) == Blank(n)
  {
    hide Good, Bytes, ByteAt, PageAt;
    BytesAre(pages, a, n);
    var held := if p.bytes.Some? then p.bytes.value[Offset(a)..Offset(a) + n] else Blank(n);
    forall k | 0 <= k < n ensures Bytes(pages, a, n)[k] == held[k] { SliceByte(pages, a, n, p, k); }
  }

  lemma BytesAre(pages: seq<Page>, a: nat, n: nat)
    requires Good(pages)
    ensures |Bytes(pages, a, n)| == n && forall k :: 0 <= k < n ==> Bytes(pages, a, n)[k] == ByteAt(pages, a + k)
  {
    hide Good, ByteAt;
  }

  lemma SliceByte(pages: seq<Page>, a: nat, n: nat, p: Page, k: nat)
    requires Good(pages) && PageAt(pages, PageBase(a)) == Some(p) && GoodPage(p) && k < n <= PAGE - Offset(a)
    ensures ByteAt(pages, a + k) == if p.bytes.Some? then p.bytes.value[Offset(a) + k] else 0
  {
    hide Good, PageAt, Offset, PageBase;
    InPage(a, n, k);
  }

  lemma WholeChunk(a: nat, n: nat)
    requires 0 < n <= PAGE - Offset(a)
    ensures Chunk(a, n) == n && a + n <= PageBase(a) + PAGE
  {
  }

  lemma PageGood(pages: seq<Page>, i: nat)
    requires Good(pages) && i < |pages|
    ensures GoodPage(pages[i])
  {
  }

  lemma FilledOne(pages: seq<Page>, i: nat, end: nat, room: nat)
    requires Good(pages) && i < |pages| && pages[i].address < end <= pages[i].address + PAGE
    ensures var (filled, ok) := Filled(pages, i, end, room);
      ok == (pages[i].bytes.Some? || room > 0)
      && filled == if ok then pages[i := pages[i].(bytes := Some(Content(pages[i])))] else pages
  {
    if i + 1 < |pages| {
      assert GoodPage(pages[i]) && GoodPage(pages[i + 1]);
      NextPage(pages[i].address, pages[i + 1].address);
    }
  }

  method Fill(pages: seq<Page>, first: nat, end: nat, room: nat) returns (r: seq<Page>, ok: bool)
    requires first <= |pages|
    ensures (r, ok) == Filled(pages, first, end, room)
  {
    r := pages;
    var i, left := first, room;
    while i < |r| && r[i].address < end
      invariant first <= i <= |r| == |pages|
      invariant Filled(r, i, end, left) == Filled(pages, first, end, room)
      decreases |r| - i
    {
      if r[i].bytes.None? {
        if left == 0 { return r, false; }
        r := r[i := r[i].(bytes := Some(Blank(PAGE)))];
        left := left - 1;
      }
      i := i + 1;
    }
    return r, true;
  }

  method NewPages(a: nat, count: nat, prot: Prot, maxprot: Prot, jit: bool) returns (added: seq<Page>)
    ensures added == Fresh(a, count, prot, maxprot, jit)
  {
    added := [];
    for i := 0 to count
      invariant |added| == i && forall k :: 0 <= k < i ==> added[k] == Page(a + k * PAGE, None, prot, maxprot, jit)
    {
      added := added + [Page(a + i * PAGE, None, prot, maxprot, jit)];
    }
  }

  method CheckMaximum(pages: seq<Page>, first: nat, last: nat, prot: Prot) returns (fits: bool)
    requires first <= last <= |pages|
    ensures fits <==> forall i :: first <= i < last ==> !Exceeds(prot, pages[i].maxprot)
  {
    for i := first to last
      invariant forall k :: first <= k < i ==> !Exceeds(prot, pages[k].maxprot)
    {
      if Exceeds(prot, pages[i].maxprot) { return false; }
    }
    return true;
  }

  method SetProtection(pages: seq<Page>, first: nat, last: nat, prot: Prot) returns (r: seq<Page>)
    requires first <= last <= |pages|
    ensures r == Protected(pages, first, last, prot)
  {
    r := pages;
    for i := first to last
      invariant |r| == |pages|
      invariant forall k :: 0 <= k < |pages| ==> r[k] == if first <= k < i then pages[k].(prot := prot) else pages[k]
    {
      r := r[i := r[i].(prot := prot)];
    }
  }
}
