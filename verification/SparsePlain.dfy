/**
 The sparse memory seen as a plain map from addresses to protection, maximum
 protection and byte. Every call of SparseSpec is an operation of that map; the
 region table, the pages and the counters do not show through, except that a
 call may be refused for want of table entries or backing.
 */
module SparsePlain {
  import opened GuestTypes
  import opened SparseRegions
  import opened SparseScan
  import opened SparseFrames
  import opened SparseSpec
  import PageTable

  datatype Cell = Cell(attr: Attr, value: byte)
  type Plain = map<nat, Cell>

  /** What a program can observe of a state. */
  ghost function View(s: State): Plain
    requires Whole(s.frames)
  {
    map x: nat | x < U64_MAX && MappedAt(s.rs, x) :: Cell(At(s.rs, x).value, ByteAt(s.frames, x))
  }

  // ----- operations of the plain map -----

  /** Interval override with zero bytes, interval removal, interval re-protection. */
  ghost function PlainChange(m: Plain, c: Change): Plain {
    match c.op
    case MAP => map x: nat | x < U64_MAX && (x in m || c.start <= x < c.end) ::
                  if c.start <= x < c.end then Cell(c.attr, 0) else m[x]
    case UNMAP => map x | x in m && !(c.start <= x < c.end) :: m[x]
    case PROTECT => map x | x in m ::
                      if c.start <= x < c.end then m[x].(attr := Attr(c.attr.prot, m[x].attr.maxprot)) else m[x]
  }

  ghost predicate PlainAny(m: Plain, a: nat, end: nat) {
    exists x :: a <= x < end && x in m
  }

  ghost predicate PlainAll(m: Plain, a: nat, end: nat) {
    forall x :: a <= x < end ==> x in m
  }

  ghost predicate PlainCapped(m: Plain, a: nat, end: nat, prot: Prot) {
    exists x :: a <= x < end && x in m && Exceeds(prot, m[x].attr.maxprot)
  }

  ghost function PlainRefusal(m: Plain, c: Change, replace: bool): Status {
    if c.op == MAP && !replace && PlainAny(m, c.start, c.end) then Overlap
    else if c.op == PROTECT && !PlainAll(m, c.start, c.end) then Unmapped
    else if c.op == PROTECT && PlainCapped(m, c.start, c.end, c.attr.prot) then Protection
    else Ok
  }

  /** The verdict of the lowest address of `[a, end)` that cannot be accessed. */
  ghost function PlainAccess(m: Plain, a: nat, end: nat, permission: Prot): Status
    decreases end - a
  {
    if a >= end then Ok
    else if a !in m then Unmapped
    else if !Allows(m[a].attr.prot, permission) then Protection
    else PlainAccess(m, a + 1, end, permission)
  }

  ghost function WrittenCell(c: Cell, a: nat, bytes: seq<byte>, x: nat): Cell {
    if a <= x < a + |bytes| then c.(value := bytes[x - a]) else c
  }

  ghost function PlainWrite(m: Plain, a: nat, bytes: seq<byte>): Plain {
    map x | x in m :: WrittenCell(m[x], a, bytes, x)
  }

  ghost function PlainRead(m: Plain, a: nat, n: nat): (bytes: seq<byte>)
    ensures |bytes| == n
  {
    seq(n, k requires 0 <= k < n => if a + k in m then m[a + k].value else 0)
  }

  // ----- the view follows the state -----

  lemma ViewAt(s: State, x: nat)
    requires Whole(s.frames) && Sorted(s.rs) && forall i :: 0 <= i < |s.rs| ==> s.rs[i].end <= U64_MAX
    ensures (x in View(s) <==> MappedAt(s.rs, x)) && (x in View(s) ==> x < U64_MAX)
    ensures x in View(s) ==> View(s)[x] == Cell(At(s.rs, x).value, ByteAt(s.frames, x))
  {}

  lemma ViewOf(sp: Space, s: State, x: nat)
    requires Legal(sp, s)
    ensures (x in View(s) <==> MappedAt(s.rs, x)) && (x in View(s) ==> x < U64_MAX)
    ensures x in View(s) ==> View(s)[x] == Cell(At(s.rs, x).value, ByteAt(s.frames, x))
  {
    ViewAt(s, x);
  }

  /** With the table unchanged only the bytes can differ. */
  lemma ViewSame(sp: Space, s: State, t: State, x: nat)
    requires Legal(sp, s) && t.rs == s.rs && Whole(t.frames)
    ensures x in View(t) <==> x in View(s)
    ensures x in View(t) ==>
      View(t)[x] == View(s)[x].(value := ByteAt(t.frames, x)) && View(s)[x].value == ByteAt(s.frames, x)
  {
    hide Lookup;
    ViewAt(s, x);
    ViewAt(t, x);
  }

  /** `m` and `n` agree at `x`. */
  ghost predicate Agree(m: Plain, n: Plain, x: nat) {
    (x in m <==> x in n) && (x in m ==> m[x] == n[x])
  }

  /** Two plain maps with the same answer at every address are the same. */
  lemma SamePlain(m: Plain, n: Plain)
    requires forall x: nat :: Agree(m, n, x)
    ensures m == n
  {
    forall x | x in m ensures x in n && m[x] == n[x] { assert Agree(m, n, x); }
    forall x | x in n ensures x in m { assert Agree(m, n, x); }
  }

  lemma ViewChangeAt(sp: Space, s: State, c: Change, x: nat)
    requires Legal(sp, s) && ChangeFits(c, sp.base, sp.end)
    requires Whole(ChangeState(s, c).frames)
    ensures Agree(View(ChangeState(s, c)), PlainChange(View(s), c), x)
  {
    hide Lookup, View, Changed, ByteAt, Without, Housed, Offset, PageBase;
    ChangedMeans(s.rs, c, sp.base, sp.end);
    ViewOf(sp, s, x);
    ViewAt(ChangeState(s, c), x);
    assert At(ChangeState(s, c).rs, x) == Target(c, s.rs, |s.rs|, x);
    DiscardedByte(s.frames, c.start, c.end, x);
  }

  lemma ViewChange(sp: Space, s: State, c: Change)
    requires Legal(sp, s) && ChangeFits(c, sp.base, sp.end)
    ensures Whole(ChangeState(s, c).frames)
    ensures View(ChangeState(s, c)) == PlainChange(View(s), c)
  {
    hide Lookup, View, Changed, ByteAt, Housed, PlainChange;
    DiscardedByte(s.frames, c.start, c.end, 0);
    forall x: nat ensures Agree(View(ChangeState(s, c)), PlainChange(View(s), c), x) { ViewChangeAt(sp, s, c, x); }
    SamePlain(View(ChangeState(s, c)), PlainChange(View(s), c));
  }

  lemma LegalWhole(sp: Space, s: State)
    requires Legal(sp, s)
    ensures Whole(s.frames)
  {
  }

  lemma ViewWriteAt(sp: Space, s: State, a: nat, bytes: seq<byte>, x: nat)
    requires Legal(sp, s)
    ensures Agree(View(WriteState(s, a, bytes)), PlainWrite(View(s), a, bytes), x)
  {
    hide Lookup, View, WriteFrames, ByteAt, Legal;
    LegalWhole(sp, s);
    var t := WriteState(s, a, bytes);
    WrittenByte(s.frames, a, bytes, s.writes + 1, x);
    ViewSame(sp, s, t, x);
  }

  lemma ViewWrite(sp: Space, s: State, a: nat, bytes: seq<byte>)
    requires Legal(sp, s)
    ensures View(WriteState(s, a, bytes)) == PlainWrite(View(s), a, bytes)
  {
    hide Lookup, View, ByteAt, Housed, WriteState, PlainWrite;
    forall x: nat ensures Agree(View(WriteState(s, a, bytes)), PlainWrite(View(s), a, bytes), x) {
      ViewWriteAt(sp, s, a, bytes, x);
    }
    SamePlain(View(WriteState(s, a, bytes)), PlainWrite(View(s), a, bytes));
  }

  lemma ViewPrepare(sp: Space, s: State, ps: set<nat>)
    requires Legal(sp, s)
    ensures Whole(PrepareFrames(s.frames, ps))
    ensures View(s.(frames := PrepareFrames(s.frames, ps))) == View(s)
  {
    hide Lookup, View, PrepareFrames, ByteAt, Housed;
    PreparedSame(s.frames, ps, 0);
    var t := s.(frames := PrepareFrames(s.frames, ps));
    forall x: nat ensures Agree(View(t), View(s), x) {
      ViewSame(sp, s, t, x);
      PreparedSame(s.frames, ps, x);
    }
    SamePlain(View(t), View(s));
  }

  lemma ViewRefusal(sp: Space, s: State, c: Change, replace: bool)
    requires Legal(sp, s)
    ensures Refusal(s.rs, c, replace) == PlainRefusal(View(s), c, replace)
  {
    hide Lookup, View, ByteAt, Housed, Exceeds;
    forall x: nat
      ensures (x in View(s) <==> MappedAt(s.rs, x)) && (x in View(s) ==> View(s)[x].attr == At(s.rs, x).value)
    {
      ViewOf(sp, s, x);
    }
    if AnyMapped(s.rs, c.start, c.end) {
      var x :| c.start <= x < c.end && MappedAt(s.rs, x);
      assert x in View(s);
    }
    if AnyCapped(s.rs, c.start, c.end, c.attr.prot) {
      var x :| c.start <= x < c.end && CappedAt(s.rs, x, c.attr.prot);
      assert x in View(s);
    }
    if PlainCapped(View(s), c.start, c.end, c.attr.prot) {
      var x :| c.start <= x < c.end && x in View(s) && Exceeds(c.attr.prot, View(s)[x].attr.maxprot);
      assert CappedAt(s.rs, x, c.attr.prot);
    }
  }

  lemma {:induction false} ViewAccess(sp: Space, s: State, a: nat, end: nat, permission: Prot)
    requires Legal(sp, s)
    ensures Access(s.rs, a, end, permission) == PlainAccess(View(s), a, end, permission)
    decreases end - a
  {
    hide Lookup, View, ByteAt, Housed, Allows;
    ViewOf(sp, s, a);
    if a < end { ViewAccess(sp, s, a + 1, end, permission); }
  }

  /** A range the check accepts reads as the plain map reads. */
  lemma ViewRead(sp: Space, s: State, a: nat, n: nat, permission: Prot)
    requires Legal(sp, s) && Access(s.rs, a, a + n, permission) == Ok
    ensures BytesAt(s, a, n) == PlainRead(View(s), a, n)
  {
    hide Lookup, View, ByteAt, Housed, Allows;
    AccessOk(s.rs, a, a + n, permission);
    forall k | 0 <= k < n ensures BytesAt(s, a, n)[k] == PlainRead(View(s), a, n)[k] {
      ViewOf(sp, s, a + k);
    }
  }

  // ----- every call keeps the state legal -----

  /** With page-aligned regions, a page is mapped as soon as one of its bytes is. */
  lemma PageMapped(rs: seq<Region>, base: nat, end: nat, x: nat)
    requires Sorted(rs) && Bounded(rs, base, end) && MappedAt(rs, x)
    ensures MappedAt(rs, PageBase(x)) && base <= PageBase(x)
  {
    var i := AtFrom(rs, x);
    assert Holds(rs[i], PageBase(x));
    LookupIs(rs, |rs|, i, PageBase(x));
  }

  lemma ChangeKeepsLegal(sp: Space, s: State, c: Change)
    requires Legal(sp, s) && ChangeFits(c, sp.base, sp.end) && |Changed(s.rs, c)| <= REGION_LIMIT
    ensures Legal(sp, ChangeState(s, c))
  {
    hide Lookup, Changed;
    ChangedMeans(s.rs, c, sp.base, sp.end);
    var t := ChangeState(s, c);
    assert t.frames.Keys <= s.frames.Keys;
    CountLess(t.frames.Keys, s.frames.Keys);
    forall p | p in t.frames ensures MappedAt(t.rs, p) {
      assert At(t.rs, p) == Target(c, s.rs, |s.rs|, p);
    }
  }

  lemma CountLess(s: set<nat>, t: set<nat>)
    requires s <= t
    ensures |s| <= |t|
  {
    assert t == s + (t - s);
  }

  /** The pages of an accessible range are mapped pages of the space. */
  lemma TouchedHoused(sp: Space, s: State, a: nat, n: nat, permission: Prot, p: nat)
    requires Legal(sp, s) && AccessResult(sp, s, a, n, permission) == Ok && p in Touched(a, n)
    ensures p % PAGE == 0 && sp.base <= p < sp.end && MappedAt(s.rs, p)
  {
    hide Lookup, Allows, Housed;
    AccessOk(s.rs, a, a + n, permission);
    var x := if p < a then a else p;
    assert Touches(a, n, p);
    assert MappedAt(s.rs, x);
    PageOf(x);
    PageMapped(s.rs, sp.base, sp.end, x);
  }

  lemma GrownCount(sp: Space, s: State, a: nat, n: nat, keys: set<nat>)
    requires |s.frames| <= sp.capacity && Backable(sp, s, a, n) && keys == s.frames.Keys + Touched(a, n)
    ensures |keys| <= sp.capacity
  {
    assert keys == s.frames.Keys + (Touched(a, n) - s.frames.Keys);
  }

  lemma WriteKeepsLegal(sp: Space, s: State, a: nat, bytes: seq<byte>)
    requires Legal(sp, s) && WriteResult(sp, s, a, |bytes|) == Ok
    ensures Legal(sp, WriteState(s, a, bytes))
  {
    hide Lookup, Allows, WriteFrames, Touched, Canonical, PageTable.Missing;
    if bytes != [] {
      var t := WriteState(s, a, bytes);
      GrownCount(sp, s, a, |bytes|, t.frames.Keys);
      forall p | p in t.frames
        ensures p % PAGE == 0 && sp.base <= p < sp.end && MappedAt(t.rs, p) && t.frames[p].generation <= t.writes
      {
        WrittenFrame(s.frames, a, bytes, t.writes, p);
        if p in Touched(a, |bytes|) { TouchedHoused(sp, s, a, |bytes|, WRITE, p); }
      }
    }
  }

  lemma PrepareKeepsLegal(sp: Space, s: State, a: nat, n: nat, permissions: Prot)
    requires Legal(sp, s)
    ensures Legal(sp, AfterPrepare(sp, s, a, n, permissions))
  {
    hide Lookup, Allows, Touched, Exceeds, Canonical, PageTable.Missing;
    var t := AfterPrepare(sp, s, a, n, permissions);
    if t != s {
      GrownCount(sp, s, a, n, t.frames.Keys);
      forall p | p in t.frames
        ensures p % PAGE == 0 && sp.base <= p < sp.end && MappedAt(t.rs, p) && t.frames[p].generation <= t.writes
      {
        if p !in s.frames { TouchedHoused(sp, s, a, n, permissions, p); }
      }
    }
  }
}
