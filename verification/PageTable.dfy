/**
 The resident pages of the sparse memory (runtime/GuestSparseMemory.c): an
 open-addressed table with tombstones, a fixed backing arena and a stack of
 recycled backing indices. Abstractly, one map from the address of each resident
 page to its frame: its bytes and its write generation.
 */
module PageTable {
  import opened GuestTypes
  import opened SparseFrames

  datatype Page = Page(address: nat, generation: nat, backing: nat)

  const EMPTY: nat := 0
  const DELETED: nat := U64_MAX

  predicate Live(p: Page) {
    p.address != EMPTY && p.address != DELETED
  }

  predicate PageAddress(a: nat) {
    0 < a < U64_MAX && a % PAGE == 0
  }

  /** How many probes after `home` the slot `i` of `n` is looked at. */
  function Distance(home: nat, i: nat, n: nat): (d: nat)
    requires home < n && i < n
    ensures d < n
  {
    if home <= i then i - home else i + n - home
  }

  /** Every address starts its probing inside the table. */
  ghost predicate Homes(home: nat -> nat, n: nat) {
    forall a :: home(a) < n
  }

  // ----- invariants on the slots -----

  /** `slotOf` names the slot of each live address, and only those. */
  ghost predicate Indexed(ps: seq<Page>, slotOf: map<nat, nat>) {
    && (forall a :: a in slotOf ==> PageAddress(a) && slotOf[a] < |ps| && ps[slotOf[a]].address == a)
    && (forall i :: 0 <= i < |ps| && Live(ps[i]) ==> ps[i].address in slotOf && slotOf[ps[i].address] == i)
  }

  /** No empty slot lies on the probe path from `from` to `slot`. */
  ghost predicate Clear(ps: seq<Page>, from: nat, slot: nat)
    requires from < |ps| && slot < |ps|
  {
    forall j :: 0 <= j < |ps| && Distance(from, j, |ps|) < Distance(from, slot, |ps|) ==> ps[j].address != EMPTY
  }

  /** Every live page is reached from its home before any empty slot. */
  ghost predicate Probed(ps: seq<Page>, slotOf: map<nat, nat>, home: nat -> nat)
    requires Homes(home, |ps|) && Indexed(ps, slotOf)
  {
    forall a :: a in slotOf ==> Clear(ps, home(a), slotOf[a])
  }

  /** Who holds a backing index: the page at an address, or a position of the free stack. */
  datatype Holder = Owned(address: nat) | Spare(position: nat)

  /**
   The backing indices handed out so far: each belongs to exactly one live
   page or lies at exactly one position of the free stack, as `holder` says.
   */
  ghost predicate Backed(ps: seq<Page>, slotOf: map<nat, nat>, free: seq<nat>, holder: seq<Holder>)
    requires Indexed(ps, slotOf)
  {
    && |slotOf| + |free| == |holder|
    && (forall a :: a in slotOf ==> ps[slotOf[a]].backing < |holder| && holder[ps[slotOf[a]].backing] == Owned(a))
    && (forall k :: 0 <= k < |free| ==> free[k] < |holder| && holder[free[k]] == Spare(k))
    && (forall b :: 0 <= b < |holder| ==>
          match holder[b]
          case Owned(a) => a in slotOf && ps[slotOf[a]].backing == b
          case Spare(k) => k < |free| && free[k] == b)
  }

  /** With every slot live there are as many live addresses as slots. */
  lemma {:induction false} AllLiveCount(ps: seq<Page>, slotOf: map<nat, nat>, n: nat) returns (s: set<nat>)
    requires Indexed(ps, slotOf) && n <= |ps| && forall i :: 0 <= i < n ==> Live(ps[i])
    ensures s <= slotOf.Keys && |s| == n && forall a :: a in s ==> slotOf[a] < n
  {
    s := {};
    if n > 0 {
      s := AllLiveCount(ps, slotOf, n - 1);
      s := s + {ps[n - 1].address};
    }
  }

  lemma SomeSlotReusable(ps: seq<Page>, slotOf: map<nat, nat>)
    requires Indexed(ps, slotOf) && |slotOf| < |ps|
    ensures exists i :: 0 <= i < |ps| && !Live(ps[i])
  {
    var n := 0;
    while n < |ps| && Live(ps[n])
      invariant 0 <= n <= |ps| && forall i :: 0 <= i < n ==> Live(ps[i])
    {
      n := n + 1;
    }
    var s := AllLiveCount(ps, slotOf, n);
    assert slotOf.Keys == s + (slotOf.Keys - s);
  }

  /** `slot` is where an absent address goes: the first slot on its path that holds no page. */
  ghost predicate FirstReusable(ps: seq<Page>, home: nat, slot: nat)
    requires home < |ps|
  {
    slot < |ps| && !Live(ps[slot]) && LiveBefore(ps, home, Distance(home, slot, |ps|))
  }

  ghost predicate LiveBefore(ps: seq<Page>, home: nat, step: nat)
    requires home < |ps|
  {
    forall j :: 0 <= j < |ps| && Distance(home, j, |ps|) < step ==> Live(ps[j])
  }

  /** An empty slot reached before the address proves it absent. */
  lemma EmptyMeansAbsent(ps: seq<Page>, slotOf: map<nat, nat>, home: nat -> nat, a: nat, i: nat)
    requires Homes(home, |ps|) && Indexed(ps, slotOf) && Probed(ps, slotOf, home)
    requires i < |ps| && ps[i].address == EMPTY
    requires Passed(ps, a, home(a), Distance(home(a), i, |ps|))
    ensures a !in slotOf
  {
  }

  /** The first `step` probes met neither the address nor an empty slot. */
  ghost predicate Passed(ps: seq<Page>, a: nat, home: nat, step: nat)
    requires home < |ps|
  {
    forall j :: 0 <= j < |ps| && Distance(home, j, |ps|) < step ==> ps[j].address != a && ps[j].address != EMPTY
  }

  /** One more probe. */
  lemma PassOne(ps: seq<Page>, a: nat, home: nat, i: nat)
    requires home < |ps| && i < |ps| && Passed(ps, a, home, Distance(home, i, |ps|))
    requires ps[i].address != a && ps[i].address != EMPTY
    ensures Passed(ps, a, home, Distance(home, i, |ps|) + 1)
    ensures Live(ps[i]) && LiveBefore(ps, home, Distance(home, i, |ps|)) ==>
      LiveBefore(ps, home, Distance(home, i, |ps|) + 1)
  {}

  /** `page_slot`: find the address, or (for an insertion) the slot to put it in. */
  method PageSlot(pages: array<Page>, home: nat -> nat, address: nat, insertion: bool, ghost slotOf: map<nat, nat>)
    returns (slot: Option<nat>)
    requires Homes(home, pages.Length) && |slotOf| < pages.Length && PageAddress(address)
    requires Indexed(pages[..], slotOf) && Probed(pages[..], slotOf, home)
    ensures address in slotOf ==> slot == Some(slotOf[address])
    ensures address !in slotOf && !insertion ==> slot == None
    ensures address !in slotOf && insertion ==> slot.Some? && FirstReusable(pages[..], home(address), slot.value)
  {
    var n := pages.Length;
    var from := home(address);
    ghost var ps := pages[..];
    var firstDeleted: Option<nat> := None;
    var i := from;
    var step := 0;
    while step < n
      invariant 0 <= step <= n && 0 <= i < n
      invariant step < n ==> Distance(from, i, n) == step
      invariant Passed(ps, address, from, step)
      invariant firstDeleted.None? ==> LiveBefore(ps, from, step)
      invariant firstDeleted.Some? ==> FirstReusable(ps, from, firstDeleted.value)
    {
      var found := pages[i].address;
      assert found == ps[i].address;
      if found == address {
        return Some(i);
      }
      if found == EMPTY {
        EmptyMeansAbsent(ps, slotOf, home, address, i);
        return if !insertion then None else if firstDeleted.Some? then firstDeleted else Some(i);
      }
      if found == DELETED && firstDeleted == None {
        firstDeleted := Some(i);
      }
      PassOne(ps, address, from, i);
      step := step + 1;
      i := if i + 1 == n then 0 else i + 1;
    }
    SomeSlotReusable(ps, slotOf);
    slot := if insertion then firstDeleted else None;
  }

  // ----- what insertion and removal keep -----

  lemma InsertIndexed(ps: seq<Page>, slotOf: map<nat, nat>, p: Page, slot: nat)
    requires Indexed(ps, slotOf) && PageAddress(p.address) && p.address !in slotOf
    requires slot < |ps| && !Live(ps[slot])
    ensures Indexed(ps[slot := p], slotOf[p.address := slot])
    ensures |slotOf[p.address := slot]| == |slotOf| + 1
    ensures forall a :: a in slotOf ==> slotOf[a] != slot
  {
    assert slotOf[p.address := slot].Keys == slotOf.Keys + {p.address};
  }

  lemma InsertProbed(ps: seq<Page>, slotOf: map<nat, nat>, home: nat -> nat, p: Page, slot: nat)
    requires Homes(home, |ps|) && Indexed(ps, slotOf) && Probed(ps, slotOf, home)
    requires PageAddress(p.address) && p.address !in slotOf && FirstReusable(ps, home(p.address), slot)
    requires Indexed(ps[slot := p], slotOf[p.address := slot])
    ensures Probed(ps[slot := p], slotOf[p.address := slot], home)
  {
    var qs := ps[slot := p];
    forall a | a in slotOf ensures Clear(qs, home(a), slotOf[a]) {
      assert Clear(ps, home(a), slotOf[a]);
    }
    assert Clear(qs, home(p.address), slot);
  }

  lemma InsertBackedSpare(ps: seq<Page>, slotOf: map<nat, nat>, free: seq<nat>, holder: seq<Holder>, p: Page, slot: nat)
    requires Indexed(ps, slotOf) && Backed(ps, slotOf, free, holder) && slot < |ps|
    requires p.address !in slotOf && Indexed(ps[slot := p], slotOf[p.address := slot])
    requires |slotOf[p.address := slot]| == |slotOf| + 1
    requires forall a :: a in slotOf ==> slotOf[a] != slot
    requires free != [] && p.backing == free[|free| - 1] < |holder|
    ensures Backed(ps[slot := p], slotOf[p.address := slot], free[..|free| - 1], holder[p.backing := Owned(p.address)])
  {}

  lemma InsertBackedFresh(ps: seq<Page>, slotOf: map<nat, nat>, holder: seq<Holder>, p: Page, slot: nat)
    requires Indexed(ps, slotOf) && Backed(ps, slotOf, [], holder) && slot < |ps|
    requires p.address !in slotOf && Indexed(ps[slot := p], slotOf[p.address := slot])
    requires |slotOf[p.address := slot]| == |slotOf| + 1
    requires forall a :: a in slotOf ==> slotOf[a] != slot
    requires p.backing == |holder|
    ensures Backed(ps[slot := p], slotOf[p.address := slot], [], holder + [Owned(p.address)])
  {}

  lemma RemoveIndexed(ps: seq<Page>, slotOf: map<nat, nat>, i: nat)
    requires Indexed(ps, slotOf) && i < |ps| && Live(ps[i])
    ensures Indexed(ps[i := ps[i].(address := DELETED)], slotOf - {ps[i].address})
    ensures |slotOf - {ps[i].address}| == |slotOf| - 1
    ensures forall a :: a in slotOf - {ps[i].address} ==> slotOf[a] != i
  {
    var to := slotOf - {ps[i].address};
    assert slotOf.Keys == to.Keys + {ps[i].address};
  }

  lemma RemoveProbed(ps: seq<Page>, slotOf: map<nat, nat>, home: nat -> nat, i: nat)
    requires Homes(home, |ps|) && Indexed(ps, slotOf) && Probed(ps, slotOf, home)
    requires i < |ps| && Live(ps[i])
    requires Indexed(ps[i := ps[i].(address := DELETED)], slotOf - {ps[i].address})
    ensures Probed(ps[i := ps[i].(address := DELETED)], slotOf - {ps[i].address}, home)
  {
    var qs, to := ps[i := ps[i].(address := DELETED)], slotOf - {ps[i].address};
    forall a | a in to ensures Clear(qs, home(a), to[a]) {
      assert Clear(ps, home(a), slotOf[a]);
    }
  }

  lemma RemoveBacked(ps: seq<Page>, slotOf: map<nat, nat>, free: seq<nat>, holder: seq<Holder>, i: nat)
    requires Indexed(ps, slotOf) && Backed(ps, slotOf, free, holder) && i < |ps| && Live(ps[i])
    requires Indexed(ps[i := ps[i].(address := DELETED)], slotOf - {ps[i].address})
    requires |slotOf - {ps[i].address}| == |slotOf| - 1
    requires forall a :: a in slotOf - {ps[i].address} ==> slotOf[a] != i
    ensures ps[i].backing < |holder|
    ensures Backed(ps[i := ps[i].(address := DELETED)], slotOf - {ps[i].address},
                   free + [ps[i].backing], holder[ps[i].backing := Spare(|free|)])
  {}

  // ----- the table as a value -----

  /** The class's arrays, the index of the live slots and the holders of the backing indices. */
  datatype Table = Table(home: nat -> nat, pages: seq<Page>, slotOf: map<nat, nat>,
                         free: seq<nat>, holder: seq<Holder>, blocks: seq<seq<byte>>)

  ghost predicate Sized(t: Table) {
    && 0 < |t.blocks| && 2 * |t.blocks| <= |t.pages| && Homes(t.home, |t.pages|)
    && |t.holder| <= |t.blocks|
    && (forall b :: 0 <= b < |t.blocks| ==> |t.blocks[b]| == PAGE)
  }

  ghost predicate Good(t: Table) {
    && Sized(t)
    && Indexed(t.pages, t.slotOf)
    && Probed(t.pages, t.slotOf, t.home)
    && Backed(t.pages, t.slotOf, t.free, t.holder)
  }

  type GoodTable = t: Table | Good(t)
    ghost witness Table(_ => 0, [Page(EMPTY, 0, 0), Page(EMPTY, 0, 0)], map[], [], [], [Zeros(PAGE)])

  /** Live pages and the free stack partition the backing indices handed out, of which there are at most `capacity`. */
  lemma BackingPartition(t: GoodTable, b: nat)
    requires b < |t.holder|
    ensures |t.holder| <= |t.blocks|
    ensures (exists a :: a in t.slotOf && t.pages[t.slotOf[a]].backing == b) != (b in t.free)
  {
    hide Probed;
    match t.holder[b]
    case Owned(a) => assert a in t.slotOf && t.pages[t.slotOf[a]].backing == b;
    case Spare(k) => assert t.free[k] == b;
  }

  lemma ResidentSlot(t: GoodTable, a: nat)
    requires a in t.slotOf
    ensures |t.slotOf| < |t.pages| && PageAddress(a)
    ensures t.slotOf[a] < |t.pages| && Live(t.pages[t.slotOf[a]]) && t.pages[t.slotOf[a]].backing < |t.blocks|
  {}

  ghost function FrameOf(t: GoodTable, a: nat): Frame
    requires a in t.slotOf
  {
    var p := t.pages[t.slotOf[a]];
    Frame(t.blocks[p.backing], p.generation)
  }

  /** The table as a plain map from page addresses. */
  ghost function Frames(t: GoodTable): (m: map<nat, Frame>)
    ensures m.Keys == t.slotOf.Keys && Whole(m)
    ensures forall a :: a in m ==> |m[a].bytes| == PAGE && PageAddress(a)
  {
    map a | a in t.slotOf :: FrameOf(t, a)
  }

  /** The backing index the next insertion takes: the top of the free stack, or a fresh one. */
  function NextBacking(t: Table): nat {
    if t.free != [] then t.free[|t.free| - 1] else |t.holder|
  }

  function Inserted(t: Table, slot: nat, address: nat): Table
    requires slot < |t.pages| && NextBacking(t) < |t.blocks|
    requires t.free != [] ==> NextBacking(t) < |t.holder|
  {
    var backing := NextBacking(t);
    t.(pages := t.pages[slot := Page(address, 0, backing)],
       slotOf := t.slotOf[address := slot],
       free := if t.free != [] then t.free[..|t.free| - 1] else [],
       holder := if t.free != [] then t.holder[backing := Owned(address)] else t.holder + [Owned(address)],
       blocks := t.blocks[backing := Zeros(PAGE)])
  }

  ghost predicate MayInsert(t: GoodTable, slot: nat, address: nat) {
    && |t.slotOf| < |t.blocks| && PageAddress(address) && address !in t.slotOf
    && FirstReusable(t.pages, t.home(address), slot)
  }

  lemma NextBackingFits(t: GoodTable)
    requires |t.slotOf| < |t.blocks|
    ensures NextBacking(t) < |t.blocks| && (t.free != [] ==> NextBacking(t) < |t.holder|)
    ensures forall a :: a in t.slotOf ==> t.pages[t.slotOf[a]].backing != NextBacking(t)
  {}

  lemma InsertedGood(t: GoodTable, slot: nat, address: nat) returns (u: GoodTable)
    requires MayInsert(t, slot, address)
    ensures NextBacking(t) < |t.blocks| && (t.free != [] ==> NextBacking(t) < |t.holder|)
    ensures u == Inserted(t, slot, address) && |u.slotOf| == |t.slotOf| + 1
  {
    hide Indexed, Probed, Backed;
    var p := Page(address, 0, NextBacking(t));
    NextBackingFits(t);
    InsertIndexed(t.pages, t.slotOf, p, slot);
    InsertProbed(t.pages, t.slotOf, t.home, p, slot);
    if t.free != [] {
      InsertBackedSpare(t.pages, t.slotOf, t.free, t.holder, p, slot);
    } else {
      InsertBackedFresh(t.pages, t.slotOf, t.holder, p, slot);
    }
    var r := Inserted(t, slot, address);
    assert Sized(r);
    u := r;
  }

  lemma InsertedFrame(t: GoodTable, slot: nat, address: nat, u: GoodTable, a: nat)
    requires MayInsert(t, slot, address) && a in t.slotOf
    requires NextBacking(t) < |t.blocks| && (t.free != [] ==> NextBacking(t) < |t.holder|)
    requires u == Inserted(t, slot, address)
    ensures FrameOf(u, a) == FrameOf(t, a)
  {
    NextBackingFits(t);
  }

  lemma InsertedNew(t: GoodTable, slot: nat, address: nat, u: GoodTable)
    requires MayInsert(t, slot, address)
    requires NextBacking(t) < |t.blocks| && (t.free != [] ==> NextBacking(t) < |t.holder|)
    requires u == Inserted(t, slot, address)
    ensures u.slotOf.Keys == t.slotOf.Keys + {address}
    ensures FrameOf(u, address) == FRESH
  {
    hide Indexed, Probed, Backed, LiveBefore;
  }

  lemma InsertedMeans(t: GoodTable, slot: nat, address: nat, u: GoodTable)
    requires MayInsert(t, slot, address)
    requires NextBacking(t) < |t.blocks| && (t.free != [] ==> NextBacking(t) < |t.holder|)
    requires u == Inserted(t, slot, address)
    ensures Frames(u) == Frames(t)[address := FRESH]
  {
    hide Indexed, Probed, Backed, FirstReusable, Homes, Inserted, FrameOf;
    forall a | a in t.slotOf { InsertedFrame(t, slot, address, u, a); }
    InsertedNew(t, slot, address, u);
  }

  function Updated(t: Table, slot: nat, offset: nat, bytes: seq<byte>, generation: nat): Table
    requires slot < |t.pages| && t.pages[slot].backing < |t.blocks|
    requires offset + |bytes| <= |t.blocks[t.pages[slot].backing]|
  {
    var p := t.pages[slot];
    t.(pages := t.pages[slot := p.(generation := generation)],
       blocks := t.blocks[p.backing := Splice(t.blocks[p.backing], offset, bytes)])
  }

  lemma UpdatedGood(t: GoodTable, slot: nat, offset: nat, bytes: seq<byte>, generation: nat) returns (u: GoodTable)
    requires slot < |t.pages| && Live(t.pages[slot]) && offset + |bytes| <= PAGE
    ensures t.pages[slot].backing < |t.blocks|
    ensures u == Updated(t, slot, offset, bytes, generation)
  {
    hide Splice;
    var r := Updated(t, slot, offset, bytes, generation);
    assert forall j :: 0 <= j < |t.pages| ==>
      r.pages[j].address == t.pages[j].address && r.pages[j].backing == t.pages[j].backing;
    assert Indexed(r.pages, r.slotOf);
    forall a | a in r.slotOf ensures Clear(r.pages, r.home(a), r.slotOf[a]) {
      assert Clear(t.pages, t.home(a), t.slotOf[a]);
    }
    u := r;
  }

  lemma UpdatedFrame(t: GoodTable, address: nat, offset: nat, bytes: seq<byte>, generation: nat, u: GoodTable, a: nat)
    requires address in t.slotOf && a in t.slotOf && a != address && offset + |bytes| <= PAGE
    requires t.pages[t.slotOf[address]].backing < |t.blocks|
    requires u == Updated(t, t.slotOf[address], offset, bytes, generation)
    ensures FrameOf(u, a) == FrameOf(t, a)
  {}

  lemma UpdatedSame(t: GoodTable, address: nat, offset: nat, bytes: seq<byte>, generation: nat, u: GoodTable)
    requires address in t.slotOf && offset + |bytes| <= PAGE
    requires t.pages[t.slotOf[address]].backing < |t.blocks|
    requires u == Updated(t, t.slotOf[address], offset, bytes, generation)
    ensures FrameOf(u, address) == Frame(Splice(FrameOf(t, address).bytes, offset, bytes), generation)
  {}

  lemma UpdatedMeans(t: GoodTable, address: nat, offset: nat, bytes: seq<byte>, generation: nat, u: GoodTable)
    requires address in t.slotOf && offset + |bytes| <= PAGE
    requires t.pages[t.slotOf[address]].backing < |t.blocks|
    requires u == Updated(t, t.slotOf[address], offset, bytes, generation)
    ensures Frames(u) == Frames(t)[address := Frame(Splice(Frames(t)[address].bytes, offset, bytes), generation)]
  {
    hide Indexed, Probed, Backed, Homes;
    forall a | a in t.slotOf && a != address { UpdatedFrame(t, address, offset, bytes, generation, u, a); }
    UpdatedSame(t, address, offset, bytes, generation, u);
  }

  function Removed(t: Table, i: nat): Table
    requires i < |t.pages| && t.pages[i].backing < |t.holder|
  {
    t.(pages := t.pages[i := t.pages[i].(address := DELETED)],
       slotOf := t.slotOf - {t.pages[i].address},
       free := t.free + [t.pages[i].backing],
       holder := t.holder[t.pages[i].backing := Spare(|t.free|)])
  }

  lemma RemovedGood(t: GoodTable, i: nat) returns (u: GoodTable)
    requires i < |t.pages| && Live(t.pages[i])
    ensures t.pages[i].backing < |t.holder| && |t.free| < |t.blocks| && |u.slotOf| == |t.slotOf| - 1
    ensures u == Removed(t, i)
  {
    RemoveIndexed(t.pages, t.slotOf, i);
    RemoveProbed(t.pages, t.slotOf, t.home, i);
    RemoveBacked(t.pages, t.slotOf, t.free, t.holder, i);
    var r := Removed(t, i);
    assert Sized(r);
    u := r;
  }

  lemma RemovedFrame(t: GoodTable, i: nat, u: GoodTable, a: nat)
    requires i < |t.pages| && Live(t.pages[i]) && a in t.slotOf && a != t.pages[i].address
    requires t.pages[i].backing < |t.holder| && u == Removed(t, i)
    ensures FrameOf(u, a) == FrameOf(t, a)
  {}

  lemma RemovedMeans(t: GoodTable, i: nat, u: GoodTable)
    requires i < |t.pages| && Live(t.pages[i])
    requires t.pages[i].backing < |t.holder| && u == Removed(t, i)
    ensures Frames(u) == Frames(t) - {t.pages[i].address}
  {
    hide Indexed, Probed, Backed;
    forall a | a in u.slotOf { RemovedFrame(t, i, u, a); }
  }

  method Put<T>(a: array<T>, i: nat, value: T)
    requires i < a.Length
    modifies a
    ensures a[..] == old(a[..])[i := value]
  {
    a[i] := value;
  }

  method Push<T>(a: array<T>, count: nat, value: T)
    requires count < a.Length
    modifies a
    ensures a[..count + 1] == old(a[..count]) + [value]
  {
    a[count] := value;
  }

  /** Some pages of `[from, to)` are gone, and nothing else has changed. */
  ghost predicate Between(before: map<nat, Frame>, now: map<nat, Frame>, from: nat, to: nat) {
    && (forall a :: a in now ==> a in before && now[a] == before[a])
    && (forall a :: a in before && !(from <= a < to) ==> a in now)
  }

  // ----- counting the pages a range still needs -----

  /** How many pages of `[a, a + n)` are not among `keys`. */
  ghost function Missing(a: nat, n: nat, keys: set<nat>): nat {
    |Touched(a, n) - keys|
  }

  lemma MissingGrows(a: nat, m: nat, n: nat, keys: set<nat>)
    requires m <= n
    ensures Missing(a, m, keys) <= Missing(a, n, keys)
  {
    TouchedGrows(a, m, n);
    assert Touched(a, n) - keys == (Touched(a, m) - keys) + ((Touched(a, n) - keys) - (Touched(a, m) - keys));
  }

  lemma TouchedGrows(a: nat, m: nat, n: nat)
    requires m <= n
    ensures Touched(a, m) <= Touched(a, n)
  {
    assert forall p :: Touches(a, m, p) ==> Touches(a, n, p);
  }

  lemma WriteNothing(m: map<nat, Frame>, a: nat, generation: nat)
    requires Whole(m)
    ensures WriteFrames(m, a, [], generation) == m
  {}

  lemma MissingNone(a: nat, keys: set<nat>)
    ensures Missing(a, 0, keys) == 0
  {}

  /** Walking one page further. */
  lemma MissingStep(a: nat, done: nat, n: nat, keys: set<nat>)
    requires AtChunk(a, done, n) && done < n
    ensures Missing(a, Next(a, done, n), keys) == Missing(a, done, keys) + if PageBase(a + done) in keys then 0 else 1
  {
    TouchedStep(a, done, n);
    var p := PageBase(a + done);
    if p in keys {
      assert Touched(a, Next(a, done, n)) - keys == Touched(a, done) - keys;
    } else {
      assert Touched(a, Next(a, done, n)) - keys == (Touched(a, done) - keys) + {p};
    }
  }

  /** Giving one missing page backing. */
  lemma TakeMissing(a: nat, n: nat, p: nat, keys: set<nat>)
    requires n > 0 && Touches(a, n, p) && p !in keys
    ensures Missing(a, n, keys + {p}) == Missing(a, n, keys) - 1
  {
    var s := Touched(a, n);
    assert s - keys == (s - (keys + {p})) + {p};
  }

  ghost predicate Cleared(ps: seq<Page>, from: nat, to: nat) {
    forall j :: 0 <= j < |ps| && Live(ps[j]) ==> !(from <= ps[j].address < to)
  }

  lemma NothingCleared(from: nat, to: nat)
    ensures Cleared([], from, to)
  {
  }

  lemma ClearedMore(ps: seq<Page>, p: Page, from: nat, to: nat)
    requires Cleared(ps, from, to) && (Live(p) ==> !(from <= p.address < to))
    ensures Cleared(ps + [p], from, to)
  {
  }

  lemma DeletedLive(p: Page)
    ensures !Live(p.(address := DELETED))
  {
  }

  lemma NothingGone(m: map<nat, Frame>, from: nat, to: nat)
    ensures Between(m, m, from, to)
  {
  }

  lemma GoneMore(before: map<nat, Frame>, now: map<nat, Frame>, from: nat, to: nat, a: nat)
    requires Between(before, now, from, to) && from <= a < to
    ensures Between(before, now - {a}, from, to)
  {
  }

  lemma AllCleared(t: GoodTable, before: map<nat, Frame>, from: nat, to: nat)
    requires Cleared(t.pages, from, to) && Between(before, Frames(t), from, to)
    ensures Frames(t) == Without(before, from, to)
  {
    hide Good, Indexed, Probed, Backed, FrameOf, Cleared;
    forall a | a in Frames(t) ensures !(from <= a < to) { NotCleared(t, from, to, a); }
  }

  lemma NotCleared(t: GoodTable, from: nat, to: nat, a: nat)
    requires Cleared(t.pages, from, to) && a in t.slotOf
    ensures !(from <= a < to)
  {
    hide Probed, Backed;
    assert Live(t.pages[t.slotOf[a]]);
  }

  lemma SpareSlots(t: GoodTable)
    ensures |t.slotOf| < |t.pages|
  {}

  lemma PageFits(a: nat, n: nat, page: nat)
    requires PAGE <= a && a + n <= U64_MAX && Touches(a, n, page)
    ensures PageAddress(page)
  {}

  lemma SamePage(at: nat, k: nat)
    requires Offset(at) + k < PAGE
    ensures PageBase(at + k) == PageBase(at) && Offset(at + k) == Offset(at) + k
  {}

  class Pages {
    const capacity: nat
    const home: nat -> nat
    const pages: array<Page>
    const freeBacking: array<nat>
    const blocks: array<seq<byte>>
    var resident: nat
    var nextBacking: nat
    var freeCount: nat
    ghost var table: GoodTable

    /** The arrays hold the table. */
    ghost predicate Valid()
      reads this, pages, freeBacking, blocks
    {
      && pages as object != blocks && pages as object != freeBacking && blocks as object != freeBacking
      && table.home == home && pages[..] == table.pages && blocks[..] == table.blocks && blocks.Length == capacity
      && freeBacking.Length == capacity && freeCount <= capacity && freeBacking[..freeCount] == table.free
      && resident == |table.slotOf| && nextBacking == |table.holder|
    }

    constructor (capacity: nat, slots: nat, home: nat -> nat)
      requires 0 < capacity && 2 * capacity <= slots && Homes(home, slots)
      ensures Valid() && this.capacity == capacity && this.home == home
      ensures Frames(table) == map[]
      ensures fresh(pages) && fresh(freeBacking) && fresh(blocks)
    {
      this.capacity := capacity;
      this.home := home;
      pages := new Page[slots](_ => Page(EMPTY, 0, 0));
      freeBacking := new nat[capacity](_ => 0);
      blocks := new seq<byte>[capacity](_ => Zeros(PAGE));
      resident, nextBacking, freeCount := 0, 0, 0;
      new;
      table := Table(home, pages[..], map[], [], [], blocks[..]);
    }

    /** Give an absent page a zeroed backing block. */
    method Insert(page: nat)
      requires Valid() && PageAddress(page) && page !in Frames(table) && resident < capacity
      modifies this, pages, blocks
      ensures Valid() && resident == old(resident) + 1
      ensures Frames(table) == old(Frames(table))[page := FRESH]
    {
      hide Indexed, Probed, Backed, Homes, FirstReusable, Frames;
      var found := PageSlot(pages, home, page, true, table.slotOf);
      var slot := found.value;
      ghost var next := InsertedGood(table, slot, page);
      InsertedMeans(table, slot, page, next);
      if freeCount > 0 {
        assert freeBacking[..freeCount - 1] == next.free;
        Occupy(slot, Page(page, 0, freeBacking[freeCount - 1]), freeCount - 1, nextBacking, next);
      } else {
        Occupy(slot, Page(page, 0, nextBacking), freeCount, nextBacking + 1, next);
      }
    }

    /** The arrays and counters of a table with one page more. */
    method Occupy(slot: nat, p: Page, free: nat, used: nat, ghost next: GoodTable)
      requires Valid() && slot < pages.Length && p.backing < blocks.Length && free <= freeCount
      requires next.home == home && next.pages == table.pages[slot := p]
      requires next.blocks == table.blocks[p.backing := Zeros(PAGE)]
      requires freeBacking[..free] == next.free && used == |next.holder| && |next.slotOf| == resident + 1
      modifies this, pages, blocks
      ensures Valid() && table == next && resident == old(resident) + 1
    {
      hide Good;
      freeCount, nextBacking, resident := free, used, resident + 1;
      Put(blocks, p.backing, Zeros(PAGE));
      Put(pages, slot, p);
      table := next;
    }

    /** Copy `bytes` into a resident page and stamp it with `generation`. */
    method Update(page: nat, offset: nat, bytes: seq<byte>, generation: nat)
      requires Valid() && page in Frames(table) && offset + |bytes| <= PAGE
      modifies this`table, pages, blocks
      ensures Valid()
      ensures Frames(table)
           == old(Frames(table))[page := Frame(Splice(old(Frames(table))[page].bytes, offset, bytes), generation)]
    {
      hide Indexed, Probed, Backed, Homes, Frames;
      ResidentSlot(table, page);
      var found := PageSlot(pages, home, page, false, table.slotOf);
      var slot := found.value;
      ghost var next := UpdatedGood(table, slot, offset, bytes, generation);
      UpdatedMeans(table, page, offset, bytes, generation, next);
      var p := pages[slot];
      Put(blocks, p.backing, Splice(blocks[p.backing], offset, bytes));
      Put(pages, slot, p.(generation := generation));
      table := next;
    }

    /** Tombstone one live slot and recycle its backing. */
    method Remove(i: nat)
      requires Valid() && i < pages.Length && Live(pages[i])
      modifies this, pages, freeBacking
      ensures Valid()
      ensures pages[..] == old(pages[..])[i := old(pages[i]).(address := DELETED)]
      ensures Frames(table) == old(Frames(table)) - {old(pages[i]).address}
    {
      hide Indexed, Probed, Backed, Homes, Frames;
      ghost var next := RemovedGood(table, i);
      RemovedMeans(table, i, next);
      Vacate(i, next);
    }

    /** The arrays and counters of a table with one page less. */
    method Vacate(i: nat, ghost next: GoodTable)
      requires Valid() && i < pages.Length && freeCount < freeBacking.Length
      requires next.home == home && next.pages == table.pages[i := table.pages[i].(address := DELETED)]
      requires next.blocks == table.blocks
      requires next.free == table.free + [table.pages[i].backing] && nextBacking == |next.holder|
      requires |next.slotOf| == resident - 1
      modifies this, pages, freeBacking
      ensures Valid() && table == next
    {
      hide Good;
      var p := pages[i];
      Push(freeBacking, freeCount, p.backing);
      freeCount, resident := freeCount + 1, resident - 1;
      Put(pages, i, p.(address := DELETED));
      table := next;
    }

    /** `discard_pages`: forget every resident page in `[from, to)`. */
    method Discard(from: nat, to: nat)
      requires Valid()
      modifies this, pages, freeBacking
      ensures Valid()
      ensures Frames(table) == Without(old(Frames(table)), from, to)
    {
      hide Good, Indexed, Probed, Backed, Homes, FrameOf, Frames, Between, Cleared, Live;
      NothingGone(Frames(table), from, to);
      NothingCleared(from, to);
      assert table.pages[..0] == [];
      var i := 0;
      while i < pages.Length
        invariant 0 <= i <= pages.Length && Valid()
        invariant Cleared(table.pages[..i], from, to)
        invariant Between(old(Frames(table)), Frames(table), from, to)
      {
        var p := pages[i];
        assert p == table.pages[i];
        ghost var head := table.pages[..i];
        if Live(p) && from <= p.address < to {
          GoneMore(old(Frames(table)), Frames(table), from, to, p.address);
          Remove(i);
          DeletedLive(p);
          assert table.pages[..i] == head;
        }
        ClearedMore(head, table.pages[i], from, to);
        assert table.pages[..i + 1] == head + [table.pages[i]];
        i := i + 1;
      }
      assert table.pages[..i] == table.pages;
      AllCleared(table, old(Frames(table)), from, to);
    }

    method Contains(page: nat) returns (found: bool)
      requires Valid() && PageAddress(page)
      ensures found == (page in Frames(table))
    {
      hide Indexed, Probed, Backed, Homes, FrameOf;
      SpareSlots(table);
      var slot := PageSlot(pages, home, page, false, table.slotOf);
      found := slot.Some?;
    }

    /** `page_generation`: 0 for a page that is not resident. */
    method Generation(page: nat) returns (generation: nat)
      requires Valid() && PageAddress(page)
      ensures generation == GenerationAt(Frames(table), page)
    {
      hide Probed, Backed, Homes;
      SpareSlots(table);
      var slot := PageSlot(pages, home, page, false, table.slotOf);
      generation := if slot.Some? then pages[slot.value].generation else 0;
    }

    method Fetch(page: nat, offset: nat, n: nat) returns (bytes: seq<byte>)
      requires Valid() && PageAddress(page) && offset + n <= PAGE
      ensures bytes == if page in Frames(table) then Frames(table)[page].bytes[offset..offset + n] else Zeros(n)
    {
      hide Probed, Homes, Backed;
      SpareSlots(table);
      var slot := PageSlot(pages, home, page, false, table.slotOf);
      if slot.Some? {
        ResidentSlot(table, page);
        var p := pages[slot.value];
        bytes := blocks[p.backing][offset..offset + n];
      } else {
        bytes := Zeros(n);
      }
    }

    /** Lines 248-252 and 287-291: whether the missing pages of a range fit in the free backing. */
    method Room(a: nat, n: nat) returns (ok: bool)
      requires Valid() && PAGE <= a && 0 < n && a + n <= U64_MAX
      ensures ok == (Missing(a, n, Frames(table).Keys) <= capacity - resident)
    {
      hide Missing, Valid, Good, Indexed, Probed, Backed, Homes, FrameOf, Frames, Touched, Offset, PageBase;
      ghost var keys := Frames(table).Keys;
      var end, needed, page := a + n, 0, PageBase(a);
      ghost var done: nat := 0;
      RoomFits();
      MissingNone(a, keys);
      while page < end
        invariant AtChunk(a, done, n) && (if done < n then page == PageBase(a + done) else page >= end)
        invariant needed == Missing(a, done, keys) <= capacity - resident
      {
        ghost var next := Next(a, done, n);
        WalkStep(a, done, n);
        MissingStep(a, done, n, keys);
        PageFits(a, n, page);
        var found := Contains(page);
        if !found {
          needed := needed + 1;
          if needed > capacity - resident {
            MissingGrows(a, next, n, keys);
            return false;
          }
        }
        done := next;
        page := page + PAGE;
      }
      ok := true;
    }

    /** The table never holds more pages than the arena. */
    lemma RoomFits()
      requires Valid()
      ensures resident <= capacity
    {}

    /** Lines 256-276, writing: allocate each missing page and copy, chunk by chunk. */
    method WriteBytes(a: nat, bytes: seq<byte>, generation: nat)
      requires Valid() && PAGE <= a && a + |bytes| <= U64_MAX
      requires Missing(a, |bytes|, Frames(table).Keys) <= capacity - resident
      modifies this, pages, blocks
      ensures Valid()
      ensures Frames(table) == WriteFrames(old(Frames(table)), a, bytes, generation)
    {
      hide Missing, Valid, Good, Indexed, Probed, Backed, Homes, FrameOf, Frames, Touched, NewBytes, Splice, Offset,
           PageBase,
        WriteFrames, Chunked;
      ghost var m := Frames(table);
      var done := 0;
      WriteNothing(m, a, generation);
      while done < |bytes|
        invariant AtChunk(a, done, |bytes|) && Valid()
        invariant Frames(table) == WriteFrames(m, a, bytes[..done], generation)
        invariant Missing(a, |bytes|, Frames(table).Keys) <= capacity - resident
      {
        var next := Next(a, done, |bytes|);
        WalkStep(a, done, |bytes|);
        ChunkStep(m, a, bytes, done, generation);
        PageFits(a, |bytes|, PageBase(a + done));
        WriteChunk(a, |bytes|, PageBase(a + done), Offset(a + done), bytes[done..next], generation);
        done := next;
      }
      assert bytes[..done] == bytes;
    }

    /** One turn of the copy loop of a write to `[a, a + n)`. */
    method WriteChunk(a: nat, n: nat, page: nat, offset: nat, chunk: seq<byte>, generation: nat)
      requires Valid() && PageAddress(page) && offset + |chunk| <= PAGE && Touches(a, n, page) && n > 0
      requires Missing(a, n, Frames(table).Keys) <= capacity - resident
      modifies this, pages, blocks
      ensures Valid()
      ensures Frames(table) == Chunked(old(Frames(table)), page, offset, chunk, generation)
      ensures Missing(a, n, Frames(table).Keys) <= capacity - resident
    {
      hide Missing, Valid, Good, Indexed, Probed, Backed, Homes, FrameOf, Frames, Splice;
      var found := Contains(page);
      if !found {
        ghost var keys := Frames(table).Keys;
        TakeMissing(a, n, page, keys);
        Insert(page);
        assert Frames(table).Keys == keys + {page};
      }
      ghost var keys := Frames(table).Keys;
      Update(page, offset, chunk, generation);
      assert Frames(table).Keys == keys;
    }

    /** Lines 292-299: give every page of the range backing. */
    method PrepareBytes(a: nat, n: nat)
      requires Valid() && PAGE <= a && 0 < n && a + n <= U64_MAX
      requires Missing(a, n, Frames(table).Keys) <= capacity - resident
      modifies this, pages, blocks
      ensures Valid()
      ensures Frames(table) == PrepareFrames(old(Frames(table)), Touched(a, n))
    {
      hide Missing, Valid, Good, Indexed, Probed, Backed, Homes, FrameOf, Frames, Touched, Offset, PageBase,
           PrepareFrames;
      ghost var m := Frames(table);
      ghost var done: nat := 0;
      var end, page := a + n, PageBase(a);
      TouchedNothing(a);
      PrepareNone(m);
      while page < end
        invariant Valid() && AtChunk(a, done, n) && (if done < n then page == PageBase(a + done) else page >= end)
        invariant done <= n && Frames(table) == PrepareFrames(m, Touched(a, done))
        invariant Missing(a, n, Frames(table).Keys) <= capacity - resident
      {
        ghost var next := Next(a, done, n);
        WalkStep(a, done, n);
        TouchedStep(a, done, n);
        PageFits(a, n, page);
        PrepareMore(m, Touched(a, done), page);
        var found := Contains(page);
        if !found {
          ghost var keys := Frames(table).Keys;
          TakeMissing(a, n, page, keys);
          Insert(page);
          assert Frames(table).Keys == keys + {page};
        }
        done := next;
        page := page + PAGE;
      }
    }

    /** Lines 256-276, reading: bytes of resident pages, zeros elsewhere. */
    method ReadBytes(a: nat, n: nat) returns (bytes: seq<byte>)
      requires Valid() && PAGE <= a && a + n <= U64_MAX
      ensures |bytes| == n && forall k :: 0 <= k < n ==> bytes[k] == ByteAt(Frames(table), a + k)
    {
      hide Missing, Valid, Good, Indexed, Probed, Backed, Homes, FrameOf, Frames;
      bytes := [];
      while |bytes| < n
        invariant |bytes| <= n
        invariant forall k :: 0 <= k < |bytes| ==> bytes[k] == ByteAt(Frames(table), a + k)
      {
        var at := a + |bytes|;
        var chunk := Chunk(at, n - |bytes|);
        var got := Fetch(PageBase(at), Offset(at), chunk);
        forall k | 0 <= k < chunk ensures got[k] == ByteAt(Frames(table), at + k) {
          SamePage(at, k);
        }
        bytes := bytes + got;
      }
    }
  }
}
