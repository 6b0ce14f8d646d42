/**
 The loops of the sparse memory that only read the region table
 (runtime/GuestSparseMemory.c): the checks that precede a mapping call, the
 bounded rebuild, the access check and the search for free addresses.
 */
module SparseScan {
  import opened GuestTypes
  import opened SparseRegions

  ghost predicate MappedAt(rs: seq<Region>, x: int) {
    At(rs, x).Some?
  }

  /** Some address of `[a, end)` is mapped, respectively unmapped, respectively capped below `prot`. */
  ghost predicate AnyMapped(rs: seq<Region>, a: nat, end: nat) {
    exists x :: a <= x < end && MappedAt(rs, x)
  }

  ghost predicate AllMapped(rs: seq<Region>, a: nat, end: nat) {
    forall x :: a <= x < end ==> MappedAt(rs, x)
  }

  ghost predicate CappedAt(rs: seq<Region>, x: int, prot: Prot) {
    At(rs, x).Some? && Exceeds(prot, At(rs, x).value.maxprot)
  }

  ghost predicate AnyCapped(rs: seq<Region>, a: nat, end: nat, prot: Prot) {
    exists x :: a <= x < end && CappedAt(rs, x, prot)
  }

  /** What a mapping call answers before it rebuilds the table. */
  ghost function Refusal(rs: seq<Region>, c: Change, replace: bool): Status {
    if c.op == MAP && !replace && AnyMapped(rs, c.start, c.end) then Overlap
    else if c.op == PROTECT && !AllMapped(rs, c.start, c.end) then Unmapped
    else if c.op == PROTECT && AnyCapped(rs, c.start, c.end, c.attr.prot) then Protection
    else Ok
  }

  predicate Meets(r: Region, a: nat, end: nat) {
    !(r.end <= a || r.start >= end)
  }

  /** A region that meets the range shares an address with it. */
  lemma MeetsAt(rs: seq<Region>, i: nat, a: nat, end: nat)
    requires Sorted(rs) && i < |rs| && Meets(rs[i], a, end) && a < end
    ensures a <= Greater(rs[i].start, a) < end && At(rs, Greater(rs[i].start, a)) == Some(rs[i].attr)
  {
    LookupIs(rs, |rs|, i, Greater(rs[i].start, a));
  }

  lemma AtFrom(rs: seq<Region>, x: int) returns (i: nat)
    requires Sorted(rs) && MappedAt(rs, x)
    ensures i < |rs| && Holds(rs[i], x) && At(rs, x) == Some(rs[i].attr)
  {
    i :| 0 <= i < |rs| && Holds(rs[i], x);
    LookupIs(rs, |rs|, i, x);
  }

  lemma NotMet(rs: seq<Region>, a: nat, end: nat, x: nat)
    requires a <= x < end && forall j :: 0 <= j < |rs| ==> !Meets(rs[j], a, end)
    ensures !MappedAt(rs, x)
  {}

  /** The covered prefix of the range after region `i - 1`: mapped below, nothing beyond it so far. */
  ghost predicate Covering(rs: seq<Region>, i: nat, a: nat, end: nat, covered: nat) {
    && i <= |rs| && a <= covered <= end
    && (forall x :: a <= x < covered ==> MappedAt(rs, x))
    && (forall j :: 0 <= j < i && rs[j].start < end ==> rs[j].end <= covered || covered == end)
  }

  lemma CoverMore(rs: seq<Region>, i: nat, a: nat, end: nat, covered: nat)
    requires Sorted(rs) && i < |rs| && a < end && Covering(rs, i, a, end, covered)
    requires Meets(rs[i], a, end) && rs[i].start <= covered
    ensures Covering(rs, i + 1, a, end, Lesser(rs[i].end, end))
  {
    forall x | a <= x < Lesser(rs[i].end, end) ensures MappedAt(rs, x) {
      if x >= rs[i].start { LookupIs(rs, |rs|, i, x); }
    }
    forall j | 0 <= j < i + 1 ensures rs[j].end <= rs[i].end { Order(rs, j, i); }
  }

  /** A gap at `covered`: no region up to `i` reaches it and region `i` starts beyond it. */
  lemma GapAt(rs: seq<Region>, i: nat, a: nat, end: nat, covered: nat)
    requires Sorted(rs) && Covering(rs, i, a, end, covered) && covered < end
    requires i < |rs| ==> rs[i].start > covered
    ensures !MappedAt(rs, covered)
  {
    forall j | 0 <= j < |rs| ensures !Holds(rs[j], covered) {
      if i < |rs| { Order(rs, i, j); }
    }
  }

  /** Lines 165-183: the refusals of a mapping call. */
  method CheckChange(rs: seq<Region>, c: Change, replace: bool) returns (result: Status)
    requires Sorted(rs) && c.start < c.end
    ensures result == Refusal(rs, c, replace)
  {
    hide Lookup, Exceeds;
    var covered: nat := c.start;
    for i := 0 to |rs|
      invariant c.op == MAP && !replace ==> forall j :: 0 <= j < i ==> !Meets(rs[j], c.start, c.end)
      invariant c.op == PROTECT ==> Covering(rs, i, c.start, c.end, covered)
    {
      var r := rs[i];
      if Meets(r, c.start, c.end) {
        MeetsAt(rs, i, c.start, c.end);
        if c.op == MAP && !replace {
          assert MappedAt(rs, Greater(r.start, c.start));
          return Overlap;
        }
        if c.op == PROTECT {
          if r.start > covered {
            GapAt(rs, i, c.start, c.end, covered);
            return Unmapped;
          }
          CoverMore(rs, i, c.start, c.end, covered);
          covered := Lesser(r.end, c.end);
        }
      }
    }
    if c.op == PROTECT && covered != c.end {
      GapAt(rs, |rs|, c.start, c.end, covered);
      return Unmapped;
    }
    if c.op == MAP && !replace {
      forall x | c.start <= x < c.end ensures !MappedAt(rs, x) { NotMet(rs, c.start, c.end, x); }
    }
    result := Ok;
    if c.op == PROTECT {
      result := CheckCaps(rs, c);
    }
  }

  method CheckCaps(rs: seq<Region>, c: Change) returns (result: Status)
    requires Sorted(rs) && c.start < c.end
    ensures result == if AnyCapped(rs, c.start, c.end, c.attr.prot) then Protection else Ok
  {
    hide Lookup, Exceeds;
    for i := 0 to |rs|
      invariant forall j :: 0 <= j < i && Meets(rs[j], c.start, c.end) ==> !Exceeds(c.attr.prot, rs[j].attr.maxprot)
    {
      var r := rs[i];
      if Meets(r, c.start, c.end) && Exceeds(c.attr.prot, r.attr.maxprot) {
        MeetsAt(rs, i, c.start, c.end);
        assert CappedAt(rs, Greater(r.start, c.start), c.attr.prot);
        return Protection;
      }
    }
    result := Ok;
    forall x | c.start <= x < c.end && MappedAt(rs, x) ensures !CappedAt(rs, x, c.attr.prot) {
      var i := AtFrom(rs, x);
      assert Meets(rs[i], c.start, c.end);
    }
  }

  /** `append`: false when the fixed table is full. */
  method Add(next: seq<Region>, r: Region) returns (ok: bool, out: seq<Region>)
    requires |next| <= REGION_LIMIT
    ensures out == if ok then Append(next, r) else next
    ensures ok == (|Append(next, r)| <= REGION_LIMIT)
  {
    if r.start == r.end {
      return true, next;
    }
    if next != [] && Touching(next[|next| - 1], r) {
      return true, next[|next| - 1 := next[|next| - 1].(end := r.end)];
    }
    if |next| == REGION_LIMIT {
      return false, next;
    }
    return true, next + [r];
  }

  /** Lines 184-207: rebuild the table within its limit. */
  method Rebuild(rs: seq<Region>, c: Change) returns (ok: bool, next: seq<Region>)
    ensures ok == (|Changed(rs, c)| <= REGION_LIMIT)
    ensures ok ==> next == Changed(rs, c)
  {
    next := [];
    var inserted := c.op != MAP;
    for i := 0 to |rs|
      invariant |next| <= REGION_LIMIT
      invariant Rewrite(rs, i, c, next, inserted) == Changed(rs, c)
    {
      RewriteGrows(rs, i + 1, c, Turn(rs[i], c, next, inserted).0, Turn(rs[i], c, next, inserted).1);
      ok, next, inserted := RebuildOne(rs[i], c, next, inserted);
      if !ok { return false, next; }
    }
    ok := true;
    if !inserted {
      ok, next := Add(next, Piece(c));
    }
  }

  /** One region of the rebuild; gives up as soon as the table is full. */
  method RebuildOne(r: Region, c: Change, before: seq<Region>, was: bool)
    returns (ok: bool, next: seq<Region>, inserted: bool)
    requires |before| <= REGION_LIMIT
    ensures ok == (|Turn(r, c, before, was).0| <= REGION_LIMIT)
    ensures ok ==> (next, inserted) == Turn(r, c, before, was)
  {
    hide Append;
    next, inserted := before, was;
    if r.end <= c.start {
      ok, next := Add(next, r);
      return;
    }
    if !inserted {
      if r.start < c.start {
        ok, next := Add(next, Region(r.start, c.start, r.attr));
        if !ok { return; }
      }
      ok, next := Add(next, Piece(c));
      if !ok { return; }
      inserted := true;
    }
    if r.start >= c.end {
      ok, next := Add(next, r);
      return;
    }
    if c.op != MAP && r.start < c.start {
      ok, next := Add(next, Region(r.start, c.start, r.attr));
      if !ok { return; }
    }
    if c.op == PROTECT {
      ok, next := Add(next, Inside(r, c));
      if !ok { return; }
    }
    ok := true;
    if r.end > c.end {
      ok, next := Add(next, Region(c.end, r.end, r.attr));
    }
  }

  // ----- access checks -----

  /** The verdict on `[a, end)`: that of its lowest address that is unmapped or lacks the permission. */
  ghost function Access(rs: seq<Region>, a: nat, end: nat, permission: Prot): Status
    decreases end - a
  {
    if a >= end then Ok
    else match At(rs, a)
      case None => Unmapped
      case Some(attr) => if Allows(attr.prot, permission) then Access(rs, a + 1, end, permission) else Protection
  }

  lemma {:induction false} AccessSkips(rs: seq<Region>, a: nat, b: nat, end: nat, permission: Prot)
    requires a <= b <= end
    requires forall x :: a <= x < b ==> At(rs, x).Some? && Allows(At(rs, x).value.prot, permission)
    ensures Access(rs, a, end, permission) == Access(rs, b, end, permission)
    decreases b - a
  {
    if a < b { AccessSkips(rs, a + 1, b, end, permission); }
  }

  /** The access check answers Ok exactly when every address is mapped with the permission. */
  lemma {:induction false} AccessOk(rs: seq<Region>, a: nat, end: nat, permission: Prot)
    ensures Access(rs, a, end, permission) == Ok
       <==> forall x :: a <= x < end ==> At(rs, x).Some? && Allows(At(rs, x).value.prot, permission)
    decreases end - a
  {
    if a < end { AccessOk(rs, a + 1, end, permission); }
  }

  /** `check_access` on a range already known to lie inside the space. */
  method CheckAccess(rs: seq<Region>, a: nat, n: nat, permission: Prot) returns (result: Status)
    requires Sorted(rs)
    ensures result == Access(rs, a, a + n, permission)
  {
    hide Lookup, Allows;
    if n == 0 { return Ok; }
    var end, covered, i := a + n, a, 0;
    while i < |rs| && covered < end
      invariant 0 <= i <= |rs| && a <= covered <= end
      invariant Access(rs, a, end, permission) == Access(rs, covered, end, permission)
      invariant forall j :: 0 <= j < i ==> rs[j].end <= covered || covered == end
    {
      var r := rs[i];
      if r.end > covered {
        if r.start > covered {
          break;
        }
        LookupIs(rs, |rs|, i, covered);
        if !Allows(r.attr.prot, permission) {
          return Protection;
        }
        var next := Lesser(r.end, end);
        forall x | covered <= x < next ensures At(rs, x) == Some(r.attr) { LookupIs(rs, |rs|, i, x); }
        AccessSkips(rs, covered, next, end, permission);
        forall j | 0 <= j <= i ensures rs[j].end <= r.end { Order(rs, j, i); }
        covered := next;
      }
      i := i + 1;
    }
    if covered < end {
      NothingAt(rs, i, covered);
    }
    result := if covered == end then Ok else Unmapped;
  }

  lemma NothingAt(rs: seq<Region>, i: nat, x: nat)
    requires Sorted(rs) && i <= |rs| && forall j :: 0 <= j < i ==> rs[j].end <= x
    requires i < |rs| ==> rs[i].start > x
    ensures At(rs, x) == None
  {
    forall j | 0 <= j < |rs| ensures !Holds(rs[j], x) {
      if i < |rs| { Order(rs, i, j); }
    }
  }

  // ----- free addresses -----

  /** `[a, a + size)` lies inside the space and holds nothing. */
  ghost predicate FreeAt(rs: seq<Region>, base: nat, end: nat, size: nat, a: nat) {
    base <= a && a + size <= end && !AnyMapped(rs, a, a + size)
  }

  /** No range of `size` bytes that starts below `candidate` is free. */
  ghost predicate NoneBelow(rs: seq<Region>, base: nat, end: nat, size: nat, candidate: nat) {
    forall a :: base <= a < candidate ==> !FreeAt(rs, base, end, size, a)
  }

  lemma PastRegion(rs: seq<Region>, base: nat, end: nat, size: nat, candidate: nat, i: nat)
    requires Sorted(rs) && i < |rs| && NoneBelow(rs, base, end, size, candidate)
    requires candidate <= rs[i].start < candidate + size
    ensures NoneBelow(rs, base, end, size, rs[i].end)
  {
    forall a | candidate <= a < rs[i].end ensures !FreeAt(rs, base, end, size, a) {
      LookupIs(rs, |rs|, i, Greater(a, rs[i].start));
      assert MappedAt(rs, Greater(a, rs[i].start));
    }
  }

  /** `gm_sparse_find_free`: the lowest free address, of any alignment, or NoMem when there is none. */
  method FindFree(rs: seq<Region>, base: nat, end: nat, size: nat) returns (result: Status, address: nat)
    requires Canonical(rs, base, end) && base <= end
    ensures result == if !Aligned(0, size) then Invalid
                      else if exists a :: FreeAt(rs, base, end, size, a) then Ok else NoMem
    ensures result == Ok ==> FreeAt(rs, base, end, size, address) && NoneBelow(rs, base, end, size, address)
  {
    hide Lookup;
    address := base;
    if !Aligned(0, size) { return Invalid, address; }
    var i := 0;
    while i < |rs|
      invariant 0 <= i <= |rs| && base <= address <= end
      invariant i < |rs| ==> address <= rs[i].start
      invariant forall j :: 0 <= j < i ==> rs[j].end <= address
      invariant NoneBelow(rs, base, end, size, address)
    {
      if size <= rs[i].start - address {
        break;
      }
      PastRegion(rs, base, end, size, address, i);
      forall j | 0 <= j <= i ensures rs[j].end <= rs[i].end { Order(rs, j, i); }
      if i + 1 < |rs| { Order(rs, i, i + 1); }
      address := rs[i].end;
      i := i + 1;
    }
    if size <= end - address {
      HoleFree(rs, i, address, size);
      assert FreeAt(rs, base, end, size, address);
      result := Ok;
    } else {
      result := NoMem;
    }
  }

  lemma HoleFree(rs: seq<Region>, i: nat, a: nat, size: nat)
    requires Sorted(rs) && i <= |rs| && forall j :: 0 <= j < i ==> rs[j].end <= a
    requires i < |rs| ==> a + size <= rs[i].start
    ensures !AnyMapped(rs, a, a + size)
  {
    forall x | a <= x < a + size ensures !MappedAt(rs, x) { NothingAt(rs, i, x); }
  }
}
