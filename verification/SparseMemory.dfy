/**
 The sparse memory as the source keeps it: one object whose fields every public
 call updates in place (runtime/GuestSparseMemory.c). A call runs under the
 object's lock, so each method is one atomic step.
 */
module SparseMemory {
  import opened GuestTypes
  import opened SparseRegions
  import opened SparseScan
  import opened SparseFrames
  import opened SparseSpec
  import P = SparsePlain
  import PT = PageTable

  /** The table's hash: a 64-bit mixer of the page number (lines 48-51). */
  function PageHash(address: nat): nat {
    var h0 := ((address / PAGE) % (U64_MAX + 1)) as bv64;
    var h1 := (h0 ^ (h0 >> 30)) * 0xbf58476d1ce4e5b9;
    var h2 := (h1 ^ (h1 >> 27)) * 0x94d049bb133111eb;
    (h2 ^ (h2 >> 31)) as nat
  }

  /** The sizes a table can have: 16 doubled `k` times. */
  function Doubled(k: nat): nat { if k == 0 then 16 else 2 * Doubled(k - 1) }

  /** Table sizes are powers of two, so masking the hash is reduction modulo the size. */
  method SlotCount(capacity: nat) returns (slots: nat)
    requires capacity > 0
    ensures slots >= 16 && slots >= 2 * capacity && (slots == 16 || slots < 4 * capacity)
    ensures exists k :: slots == Doubled(k)
  {
    slots := 16;
    ghost var k := 0;
    while slots < capacity * 2
      invariant slots >= 16 && (slots == 16 || slots < 4 * capacity) && slots == Doubled(k)
    {
      slots := slots * 2;
      k := k + 1;
    }
  }

  const RECORD_SIZE: nat := 24
  const INDEX_SIZE: nat := 8

  /**
   The size checks of lines 98-104 pass for every byte count of 64 bits: neither
   the number of slots nor the size of any table overflows.
   */
  lemma TablesFit(backingBytes: nat, slots: nat)
    requires backingBytes <= U64_MAX && (slots == 16 || slots < 4 * (backingBytes / PAGE))
    ensures backingBytes / PAGE <= U64_MAX / 2 && slots <= U64_MAX / 2
    ensures slots <= U64_MAX / RECORD_SIZE && backingBytes / PAGE <= U64_MAX / INDEX_SIZE
  {}

  /** `initialize`; `host` says whether the host can allocate the tables and the arena. */
  method Initialize(base: nat, size: nat, backingBytes: nat, host: bool) returns (result: Status, memory: Memory?)
    ensures result == if base == 0 || !Aligned(base, size) || backingBytes == 0 || backingBytes % PAGE != 0 then Invalid
                      else if host then Ok else NoMem
    ensures result == Ok ==> memory != null && memory.Valid() && fresh(memory.Repr())
                             && memory.space == Space(base, base + size, backingBytes / PAGE)
                             && memory.S() == State([], map[], 0, 0)
  {
    memory := null;
    if base == 0 || !Aligned(base, size) || backingBytes == 0 || backingBytes % PAGE != 0 {
      return Invalid, null;
    }
    if !host {
      return NoMem, null;
    }
    memory := new Memory(base, size, backingBytes / PAGE);
    result := Ok;
  }

  /** Where the probing of a page starts. */
  method HomeSlots(slots: nat) returns (home: nat -> nat)
    requires slots > 0
    ensures forall a :: home(a) == PageHash(a) % slots
    ensures PT.Homes(home, slots)
  {
    hide PageHash;
    home := (a: nat) => PageHash(a) % slots;
  }

  lemma EmptyLegal(base: nat, size: nat, capacity: nat)
    requires Aligned(base, size) && base != 0 && capacity > 0
    ensures Legal(Space(base, base + size, capacity), State([], map[], 0, 0))
  {
    hide Lookup;
  }

  class Memory {
    const space: Space
    const pages: PT.Pages
    var regions: seq<Region>
    var generation: nat
    var mappingGeneration: nat

    ghost function Repr(): set<object> {
      {this, pages, pages.pages, pages.freeBacking, pages.blocks}
    }

    /** The state as a value. */
    ghost function S(): State
      reads this, pages
    {
      State(regions, PT.Frames(pages.table), generation, mappingGeneration)
    }

    ghost predicate Valid()
      reads this, pages, pages.pages, pages.freeBacking, pages.blocks
    {
      pages.Valid() && pages.capacity == space.capacity && Legal(space, S())
    }

    constructor (base: nat, size: nat, capacity: nat)
      requires Aligned(base, size) && base != 0 && capacity > 0
      ensures Valid() && fresh(Repr() - {this}) && space == Space(base, base + size, capacity)
      ensures S() == State([], map[], 0, 0)
    {
      hide PT.Good, PT.Homes, PT.Pages.Valid, Legal;
      EmptyLegal(base, size, capacity);
      var slots := SlotCount(capacity);
      var home := HomeSlots(slots);
      space := Space(base, base + size, capacity);
      pages := new PT.Pages(capacity, slots, home);
      regions, generation, mappingGeneration := [], 0, 0;
    }

    lemma Resident()
      requires Valid()
      ensures pages.resident == |S().frames|
    {}

    /** `change`: map, unmap or protect a range. */
    method Change(a: nat, n: nat, prot: Prot, maxprot: Prot, replace: bool, op: Operation) returns (result: Status)
      requires Valid()
      modifies Repr()
      ensures Valid()
      ensures result == ChangeResult(space, old(S()), a, n, prot, maxprot, replace, op)
      ensures S() == AfterChange(space, old(S()), a, n, prot, maxprot, replace, op)
    {
      hide PT.Frames, PT.Good, PT.Pages.Valid, Lookup, Changed, Refusal, Exceeds, Legal, Without;
      if !Aligned(a, n) || !SparseSpec.Contains(space, a, n) || Exceeds(maxprot, 7) || Exceeds(prot, maxprot) {
        return Invalid;
      }
      var c := SparseRegions.Change(op, a, a + n, Attr(prot, maxprot));
      LegalTable(space, S());
      result := CheckChange(regions, c, replace);
      if result != Ok {
        return;
      }
      var ok, next := Rebuild(regions, c);
      if !ok {
        return NoMem;
      }
      P.ChangeKeepsLegal(space, S(), c);
      if op != PROTECT {
        pages.Discard(a, a + n);
      }
      regions := next;
      mappingGeneration := mappingGeneration + 1;
    }

    /** `check_access`. */
    method Check(a: nat, n: nat, permission: Prot) returns (result: Status)
      requires Valid()
      ensures result == AccessResult(space, S(), a, n, permission)
    {
      hide PT.Frames, PT.Good, Lookup, Allows;
      if !SparseSpec.Contains(space, a, n) {
        return Invalid;
      }
      result := CheckAccess(regions, a, n, permission);
    }

    method Read(a: nat, n: nat) returns (result: Status, bytes: seq<byte>)
      requires Valid()
      ensures result == AccessResult(space, S(), a, n, READ)
      ensures result == Ok ==> bytes == BytesAt(S(), a, n)
    {
      hide PT.Frames, PT.Good, PT.Pages.Valid, Lookup, Allows, ByteAt, Access, Canonical, Housed;
      bytes := [];
      result := Check(a, n, READ);
      if result == Ok {
        bytes := pages.ReadBytes(a, n);
      }
    }

    method Write(a: nat, bytes: seq<byte>) returns (result: Status)
      requires Valid()
      modifies Repr()
      ensures Valid()
      ensures result == WriteResult(space, old(S()), a, |bytes|)
      ensures S() == AfterWrite(space, old(S()), a, bytes)
    {
      hide PT.Frames, PT.Good, PT.Pages.Valid, Access, Legal, WriteFrames, PT.Missing, Touched;
      LegalWhole();
      result := Check(a, |bytes|, WRITE);
      if result != Ok || |bytes| == 0 {
        return;
      }
      Resident();
      Placed(a, |bytes|);
      var room := pages.Room(a, |bytes|);
      if !room {
        return NoMem;
      }
      Store(a, bytes);
    }

    lemma LegalWhole()
      requires Valid()
      ensures Legal(space, S()) && Whole(S().frames)
    {
      hide Canonical, Housed, PT.Pages.Valid;
    }

    lemma Placed(a: nat, n: nat)
      requires Valid() && AccessResult(space, S(), a, n, WRITE) == Ok
      ensures PAGE <= a && a + n <= U64_MAX
    {
      hide PT.Frames, PT.Pages.Valid, Access, Canonical, Housed;
    }

    /** The bytes of a granted write, under the next write number. */
    method Store(a: nat, bytes: seq<byte>)
      requires Valid() && bytes != [] && WriteResult(space, S(), a, |bytes|) == Ok && Whole(S().frames)
      modifies Repr()
      ensures Valid() && S() == WriteState(old(S()), a, bytes)
    {
      hide PT.Frames, PT.Good, PT.Pages.Valid, Access, Legal, WriteFrames, PT.Missing, Touched;
      Resident();
      Placed(a, |bytes|);
      P.WriteKeepsLegal(space, S(), a, bytes);
      generation := generation + 1;
      pages.WriteBytes(a, bytes, generation);
    }

    method Prepare(a: nat, n: nat, permissions: Prot) returns (result: Status)
      requires Valid()
      modifies Repr()
      ensures Valid()
      ensures result == PrepareResult(space, old(S()), a, n, permissions)
      ensures S() == AfterPrepare(space, old(S()), a, n, permissions)
    {
      hide PT.Frames, PT.Good, PT.Pages.Valid, Lookup, ByteAt, Access, Canonical, Housed, PrepareFrames, PT.Missing,
           Touched, Exceeds;
      if Exceeds(permissions, READ | WRITE) {
        return Invalid;
      }
      result := Check(a, n, permissions);
      if result != Ok || n == 0 || !Allows(permissions, WRITE) {
        return;
      }
      Resident();
      var room := pages.Room(a, n);
      if !room {
        return NoMem;
      }
      P.PrepareKeepsLegal(space, S(), a, n, permissions);
      pages.PrepareBytes(a, n);
    }

    /** The lowest address where `size` bytes are free. */
    method FindFree(size: nat) returns (result: Status, address: nat)
      requires Valid()
      ensures result == if !Aligned(0, size) then Invalid
                        else if exists a :: FreeAt(regions, space.base, space.end, size, a) then Ok else NoMem
      ensures result == Ok ==> FreeAt(regions, space.base, space.end, size, address)
                               && NoneBelow(regions, space.base, space.end, size, address)
    {
      LegalTable(space, S());
      result, address := SparseScan.FindFree(regions, space.base, space.end, size);
    }

    method LoadExclusive(a: nat, n: nat, monitor: Monitor) returns (result: Status, bytes: seq<byte>, after: Monitor)
      requires Valid()
      ensures result == LoadResult(space, S(), a, n)
      ensures result == Ok ==> bytes == BytesAt(S(), a, n)
      ensures after == AfterLoad(space, S(), a, n, monitor)
    {
      hide PT.Frames, PT.Good, PT.Pages.Valid, Lookup, Allows, Legal, Access, BytesAt;
      bytes, after := [], monitor;
      if !AtomicSize(a, n) {
        return Invalid, bytes, after;
      }
      result, bytes := Read(a, n);
      if result == Ok {
        PageInside(space, S(), a, n);
        var g := pages.Generation(PageBase(a));
        after := Monitor(a, g, mappingGeneration, n, true);
      }
    }

    method StoreExclusive(a: nat, bytes: seq<byte>, monitor: Monitor)
      returns (result: Status, stored: bool, after: Monitor)
      requires Valid()
      modifies Repr()
      ensures Valid()
      ensures result == StoreResult(space, old(S()), a, |bytes|, monitor)
      ensures stored == Stores(space, old(S()), a, |bytes|, monitor)
      ensures S() == AfterStore(space, old(S()), a, bytes, monitor)
      ensures after == MonitorAfterStore(space, old(S()), a, |bytes|, monitor)
    {
      hide PT.Frames, PT.Good, PT.Pages.Valid, Lookup, Allows, Legal, Access, WriteState, Backable;
      stored, after := false, monitor;
      if !AtomicSize(a, |bytes|) {
        return Invalid, stored, after;
      }
      var g := 0;
      if SparseSpec.Contains(space, a, |bytes|) {
        PageInside(space, S(), a, |bytes|);
        g := pages.Generation(PageBase(a));
      } else {
        PageOutside(space, S(), a, |bytes|);
      }
      var valid := monitor.valid && monitor.address == a && monitor.size == |bytes|
        && monitor.changes == mappingGeneration && monitor.generation == g;
      result := Ok;
      if valid {
        result := Write(a, bytes);
      }
      if result == Ok {
        stored := valid;
        after := monitor.(valid := false);
      }
    }

    method CompareExchange(a: nat, expected: seq<byte>, desired: seq<byte>) returns (result: Status,
                           previous: seq<byte>)
      requires Valid() && |expected| == |desired|
      modifies Repr()
      ensures Valid()
      ensures result == CasResult(space, old(S()), a, expected)
      ensures result == Ok ==> previous == BytesAt(old(S()), a, |expected|)
      ensures S() == AfterCas(space, old(S()), a, expected, desired)
    {
      hide PT.Frames, PT.Good, PT.Pages.Valid, Lookup, Allows, Legal, Access, WriteState, Backable, BytesAt;
      previous := [];
      if !AtomicSize(a, |expected|) {
        return Invalid, previous;
      }
      result := Check(a, |expected|, READ | WRITE);
      if result != Ok {
        return;
      }
      BothPermissions(space, S(), a, |expected|);
      var was;
      result, was := Read(a, |expected|);
      if was == expected {
        result := Write(a, desired);
      }
      if result == Ok {
        previous := was;
      }
    }

    method AtomicUpdate(a: nat, n: nat, op: Atomic, operand: bv64) returns (result: Status, previous: seq<byte>)
      requires Valid()
      modifies Repr()
      ensures Valid()
      ensures result == AtomicResult(space, old(S()), a, n)
      ensures result == Ok ==> previous == BytesAt(old(S()), a, n)
      ensures S() == AfterAtomic(space, old(S()), a, n, op, operand)
    {
      hide PT.Frames, PT.Good, PT.Pages.Valid, Lookup, Allows, Legal, Access, WriteState, Backable, BytesAt,
           AtomicBytes;
      previous := [];
      if n > 8 || !AtomicSize(a, n) {
        return Invalid, previous;
      }
      var was;
      result, was := Read(a, n);
      if result != Ok {
        return;
      }
      result := Write(a, AtomicBytes(op, was, operand));
      if result == Ok {
        previous := was;
      }
    }
  }

  /** The page of an address of the space is a page the table can hold. */
  lemma PageInside(sp: Space, s: State, a: nat, n: nat)
    requires Legal(sp, s) && n > 0 && SparseSpec.Contains(sp, a, n)
    ensures PT.PageAddress(PageBase(a))
  {
    hide Canonical, Housed;
  }

  /** No page outside the space is resident. */
  lemma PageOutside(sp: Space, s: State, a: nat, n: nat)
    requires Legal(sp, s) && AtomicSize(a, n) && !SparseSpec.Contains(sp, a, n)
    ensures GenerationAt(s.frames, PageBase(a)) == 0
  {
    hide Canonical, Offset, PageBase;
    PageOf(a);
    AtomicInPage(a, n);
    InsideWhole(sp, PageBase(a), a, n);
  }

  lemma InsideWhole(sp: Space, p: nat, a: nat, n: nat)
    requires Sound(sp) && p % PAGE == 0 && p <= a && a + n <= p + PAGE && !SparseSpec.Contains(sp, a, n)
    ensures !(sp.base <= p < sp.end)
  {}

  lemma LegalTable(sp: Space, s: State)
    requires Legal(sp, s)
    ensures Canonical(s.rs, sp.base, sp.end)
  {}
}
