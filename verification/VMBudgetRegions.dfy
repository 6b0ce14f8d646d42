/**
 The reservation table of runtime/GuestVMBudget.c as a value: regions with a
 granted part, a guard page and a missing tail, what each address is to a call
 that begins in a given mapping, and the sum of the bytes mapped.
 */
module VMBudgetRegions {
  import opened GuestTypes

  const MAX_REGIONS: nat := 256
  const MAX_CLAIMS: nat := 1024

  /** `[start, end)` granted, `[end, limit)` guard, `[limit, span)` missing. */
  datatype Region = Region(start: nat, end: nat, limit: nat, span: nat)

  /** A later mapping of the application inside a missing part. */
  datatype Claim = Claim(start: nat, end: nat)

  datatype Part = OUTSIDE | GRANTED | GUARD | MISSING

  predicate Shaped(r: Region) {
    r.start <= r.end <= r.limit <= r.span
  }

  predicate Apart(r: Region, s: Region) {
    r.span <= s.start || s.span <= r.start
  }

  ghost predicate Disjoint(rs: seq<Region>) {
    forall i, j :: 0 <= i < |rs| && 0 <= j < |rs| && i != j ==> Apart(rs[i], rs[j])
  }

  ghost predicate AllShaped(rs: seq<Region>) {
    forall i :: 0 <= i < |rs| ==> Shaped(rs[i])
  }

  // ----- page alignment -----

  ghost predicate Multiple(x: nat, page: nat) {
    exists k: nat :: Times(k, page) == x
  }

  function Times(k: nat, page: nat): nat { k * page }

  ghost predicate AlignedRegion(r: Region, page: nat) {
    Multiple(r.start, page) && Multiple(r.end, page) && Multiple(r.limit, page) && Multiple(r.span, page)
  }

  ghost predicate AllAligned(rs: seq<Region>, page: nat) {
    forall i :: 0 <= i < |rs| ==> AlignedRegion(rs[i], page)
  }

  /** `page_end`: the end of the last page of the range, or 0 past the end of the address space. */
  function PageEnd(page: nat, address: nat, size: nat): nat
    requires page > 0
  {
    if address + size > U64_MAX || address + size + (page - 1) > U64_MAX then 0
    else (address + size + (page - 1)) / page * page
  }

  lemma PageEndBounds(page: nat, address: nat, size: nat)
    requires page > 0
    ensures PageEnd(page, address, size) != 0 ==>
      && address + size <= PageEnd(page, address, size) < address + size + page
      && Multiple(PageEnd(page, address, size), page)
  {
    if PageEnd(page, address, size) != 0 {
      var x := address + size + (page - 1);
      assert x == x / page * page + x % page;
      assert Times(x / page, page) == PageEnd(page, address, size);
    }
  }

  lemma TimesNext(k: nat, page: nat)
    ensures Times(k + 1, page) == Times(k, page) + page
  {}

  lemma {:induction false} TimesOrder(j: nat, k: nat, page: nat)
    requires page > 0
    ensures j < k ==> Times(j, page) + page <= Times(k, page)
    decreases k
  {
    hide Times;
    if j < k {
      TimesNext(k - 1, page);
      TimesOrder(j, k - 1, page);
    }
  }

  /** The rounded end is the least multiple of the page at or above the end. */
  lemma PageEndLeast(page: nat, address: nat, size: nat, m: nat)
    requires page > 0 && Multiple(m, page) && address + size <= m && PageEnd(page, address, size) != 0
    ensures PageEnd(page, address, size) <= m
  {
    hide Times, PageEnd;
    PageEndBounds(page, address, size);
    var e := PageEnd(page, address, size);
    var j :| Times(j, page) == e;
    var k :| Times(k, page) == m;
    TimesOrder(k, j, page);
    TimesOrder(j, k, page);
  }

  lemma MultipleSum(a: nat, b: nat, page: nat)
    requires Multiple(a, page) && Multiple(b, page)
    ensures Multiple(a + b, page)
  {
    var j: nat :| Times(j, page) == a;
    var k: nat :| Times(k, page) == b;
    assert Times(j + k, page) == a + b;
  }

  lemma MultipleSelf(page: nat)
    ensures Multiple(page, page) && Multiple(0, page)
  {
    assert Times(1, page) == page;
    assert Times(0, page) == 0;
  }

  // ----- the bytes mapped -----

  /** The sum of `limit - start`. */
  ghost function Total(rs: seq<Region>): int {
    if rs == [] then 0 else Total(rs[..|rs| - 1]) + rs[|rs| - 1].limit - rs[|rs| - 1].start
  }

  lemma {:induction false} TotalUpdate(rs: seq<Region>, i: nat, r: Region)
    requires i < |rs|
    ensures Total(rs[i := r]) == Total(rs) - (rs[i].limit - rs[i].start) + (r.limit - r.start)
    decreases |rs|
  {
    var last := |rs| - 1;
    if i == last {
      assert rs[i := r][..last] == rs[..last];
    } else {
      assert rs[i := r][..last] == rs[..last][i := r];
      TotalUpdate(rs[..last], i, r);
    }
  }

  lemma TotalAppend(rs: seq<Region>, r: Region)
    ensures Total(rs + [r]) == Total(rs) + r.limit - r.start
  {
    assert (rs + [r])[..|rs|] == rs;
  }

  /** `*r = regions[--count]`: the last region takes the place of region `i`. */
  function Dropped<T>(rs: seq<T>, i: nat): (out: seq<T>)
    requires i < |rs|
    ensures |out| == |rs| - 1
  {
    if i == |rs| - 1 then rs[..i] else rs[..|rs| - 1][i := rs[|rs| - 1]]
  }

  lemma TotalDrop(rs: seq<Region>, i: nat)
    requires i < |rs|
    ensures Total(Dropped(rs, i)) == Total(rs) - (rs[i].limit - rs[i].start)
  {
    hide Total;
    var front, last := rs[..|rs| - 1], rs[|rs| - 1];
    assert rs == front + [last];
    TotalAppend(front, last);
    if i < |front| { TotalUpdate(front, i, last); }
  }

  lemma {:induction false} TotalNonnegative(rs: seq<Region>)
    requires AllShaped(rs)
    ensures Total(rs) >= 0
  {
    if rs != [] { TotalNonnegative(rs[..|rs| - 1]); }
  }

  // ----- what an address is -----

  predicate Owns(r: Region, x: int) {
    r.start <= x < r.limit
  }

  predicate Lacks(r: Region, x: int) {
    r.limit <= x < r.span
  }

  /** Some region maps `x`, as granted memory or as its guard. */
  ghost predicate OwnAt(rs: seq<Region>, x: int) {
    exists i :: 0 <= i < |rs| && Owns(rs[i], x)
  }

  /** Some region asked for `x` and did not get it. */
  ghost predicate MissingAt(rs: seq<Region>, x: int) {
    exists i :: 0 <= i < |rs| && Lacks(rs[i], x)
  }

  ghost predicate GuardAt(rs: seq<Region>, x: int) {
    exists i :: 0 <= i < |rs| && Owns(rs[i], x) && rs[i].end <= x
  }

  /** What `x` is to a call that began in the mapping `[from, to)`. */
  ghost function Class(rs: seq<Region>, from: nat, to: nat, x: int): Part {
    if !(from <= x < to) && MissingAt(rs, x) then MISSING
    else if GuardAt(rs, x) then GUARD
    else if OwnAt(rs, x) then GRANTED
    else OUTSIDE
  }

  predicate InClaim(c: Claim, x: int) { c.start <= x < c.end }

  ghost predicate ClaimedAt(claims: seq<Claim>, x: int) {
    exists i :: 0 <= i < |claims| && InClaim(claims[i], x)
  }

  lemma OwnerUnique(rs: seq<Region>, i: nat, j: nat, x: int)
    requires Disjoint(rs) && AllShaped(rs) && i < |rs| && j < |rs|
    requires rs[i].start <= x < rs[i].span && rs[j].start <= x < rs[j].span
    ensures i == j
  {
  }

  lemma OthersOutside(rs: seq<Region>, i: nat, j: nat, x: int)
    requires Disjoint(rs) && AllShaped(rs) && i < |rs| && j < |rs| && i != j && Owns(rs[i], x)
    ensures !(rs[j].start <= x < rs[j].span)
  {
    assert Apart(rs[i], rs[j]);
  }

  /** The class of an address a region maps. */
  lemma OwnedClass(rs: seq<Region>, i: nat, from: nat, to: nat, x: int)
    requires Disjoint(rs) && AllShaped(rs) && i < |rs| && Owns(rs[i], x)
    ensures Class(rs, from, to, x) == if x < rs[i].end then GRANTED else GUARD
  {
    forall j | 0 <= j < |rs| && rs[j].start <= x < rs[j].span ensures j == i { OwnerUnique(rs, i, j, x); }
    assert forall j :: 0 <= j < |rs| && Lacks(rs[j], x) ==> rs[j].start <= x < rs[j].span;
    assert forall j :: 0 <= j < |rs| && Owns(rs[j], x) ==> rs[j].start <= x < rs[j].span;
  }

  /** `anchor_at`: the mapping a call begins in, a region's own first, then a claim. */
  method AnchorAt(rs: seq<Region>, claims: seq<Claim>, address: nat) returns (from: nat, to: nat)
    ensures from <= address <= to
    ensures from == to == address || from <= address < to
    ensures (exists i :: 0 <= i < |rs| && Owns(rs[i], address) && from == rs[i].start && to == rs[i].limit)
         || (!OwnAt(rs, address)
             && exists i :: 0 <= i < |claims| && claims[i] == Claim(from, to) && from <= address < to)
         || (!OwnAt(rs, address) && from == to == address && !ClaimedAt(claims, address))
  {
    from, to := address, address;
    for i := 0 to |rs|
      invariant forall j :: 0 <= j < i ==> !Owns(rs[j], address)
    {
      if Owns(rs[i], address) {
        return rs[i].start, rs[i].limit;
      }
    }
    for i := 0 to |claims|
      invariant forall j :: 0 <= j < i ==> !(claims[j].start <= address < claims[j].end)
    {
      if claims[i].start <= address < claims[i].end {
        return claims[i].start, claims[i].end;
      }
    }
  }

  /** Lines 52-56: the region whose missing part holds `cursor`, or how far no missing part begins. */
  method MissingPart(rs: seq<Region>, cursor: nat, end: nat, ghost page: nat) returns (region: nat, next: nat)
    requires AllShaped(rs) && cursor < end
    ensures region <= |rs| && cursor < next <= end
    ensures region < |rs| ==> Lacks(rs[region], cursor) && next == Lesser(rs[region].span, end)
    ensures region == |rs| ==> forall x :: cursor <= x < next ==> !MissingAt(rs, x)
    ensures AllAligned(rs, page) && Multiple(end, page) ==> Multiple(next, page)
  {
    hide Multiple;
    next := end;
    for i := 0 to |rs|
      invariant cursor < next <= end && (AllAligned(rs, page) && Multiple(end, page) ==> Multiple(next, page))
      invariant forall j :: 0 <= j < i ==> !Lacks(rs[j], cursor)
      invariant forall j :: 0 <= j < i && cursor < rs[j].limit < rs[j].span ==> next <= rs[j].limit
    {
      var r := rs[i];
      if Lacks(r, cursor) {
        return i, Lesser(r.span, end);
      }
      if r.limit > cursor && r.limit < r.span {
        next := Lesser(next, r.limit);
      }
    }
    region := |rs|;
  }

  /** Lines 57-67: the region that maps `cursor`, or how far no region begins. */
  method OwnPart(rs: seq<Region>, cursor: nat, clear: nat, ghost page: nat) returns (region: nat, until: nat)
    requires AllShaped(rs) && Disjoint(rs) && cursor < clear
    ensures region <= |rs| && cursor < until <= clear
    ensures region < |rs| ==>
      && Owns(rs[region], cursor)
      && until == Lesser(if cursor < rs[region].end then rs[region].end else rs[region].limit, clear)
    ensures region == |rs| ==> forall x :: cursor <= x < until ==> !OwnAt(rs, x)
    ensures AllAligned(rs, page) && Multiple(clear, page) ==> Multiple(until, page)
  {
    hide Multiple;
    until := clear;
    for i := 0 to |rs|
      invariant cursor < until <= clear && (AllAligned(rs, page) && Multiple(clear, page) ==> Multiple(until, page))
      invariant forall j :: 0 <= j < i ==> !Owns(rs[j], cursor)
      invariant forall j :: 0 <= j < i && rs[j].start > cursor ==> until <= rs[j].start
      invariant forall j :: i <= j < |rs| && Owns(rs[j], cursor) ==> Lesser(clear, rs[j].limit) <= until
    {
      var r := rs[i];
      if Owns(r, cursor) {
        return i, Lesser(if cursor < r.end then r.end else r.limit, until);
      }
      if r.start > cursor {
        forall j | i < j < |rs| && Owns(rs[j], cursor) ensures rs[j].limit <= r.start { assert Apart(rs[i], rs[j]); }
        until := Lesser(until, r.start);
      }
    }
    region := |rs|;
  }

  /**
   `[cursor, until)` is a nonempty piece of `[cursor, end)` of one class; within
   the mapping the call began in it ends exactly where that class does.
   */
  ghost predicate IsPart(rs: seq<Region>, cursor: nat, end: nat, from: nat, to: nat, kind: Part, until: nat,
                         region: nat)
  {
    && cursor < until <= end
    && (forall x :: cursor <= x < until ==> Class(rs, from, to, x) == kind)
    && (kind == OUTSIDE <==> region == |rs|) && region <= |rs|
    && (kind == MISSING ==> Lacks(rs[region], cursor) && until <= rs[region].span)
    && (kind == GRANTED ==> rs[region].start <= cursor && until <= rs[region].end)
    && (kind == GUARD ==> rs[region].end <= cursor && until <= rs[region].limit)
    && (cursor < to && kind == GRANTED ==> until == Lesser(rs[region].end, Lesser(end, to)))
    && (cursor < to && kind == GUARD ==> until == Lesser(rs[region].limit, Lesser(end, to)))
  }

  /** `part`: what the piece of `[cursor, end)` at `cursor` is, where it ends and the region it is in. */
  method PartAt(rs: seq<Region>, cursor: nat, end: nat, from: nat, to: nat, ghost page: nat)
    returns (kind: Part, until: nat, region: nat)
    requires AllShaped(rs) && Disjoint(rs) && from <= cursor < end
    ensures IsPart(rs, cursor, end, from, to, kind, until, region)
    ensures AllAligned(rs, page) && Multiple(end, page) && Multiple(to, page) ==> Multiple(until, page)
  {
    hide Multiple, Disjoint, AllAligned, OwnAt, GuardAt, MissingAt;
    var next: nat := Lesser(end, to);
    if cursor >= to {
      region, next := MissingPart(rs, cursor, end, page);
      if region < |rs| {
        LackedClass(rs, region, from, to, cursor, next);
        return MISSING, next, region;
      }
    }
    region, until := OwnPart(rs, cursor, next, page);
    if region < |rs| {
      kind := if cursor < rs[region].end then GRANTED else GUARD;
      forall x | cursor <= x < until ensures Class(rs, from, to, x) == kind { OwnedClass(rs, region, from, to, x); }
    } else {
      kind := OUTSIDE;
      forall x | cursor <= x < until ensures !GuardAt(rs, x) { GuardOwned(rs, x); }
    }
  }

  lemma GuardOwned(rs: seq<Region>, x: int)
    ensures GuardAt(rs, x) ==> OwnAt(rs, x)
  {}

  lemma LackedClass(rs: seq<Region>, i: nat, from: nat, to: nat, cursor: nat, until: nat)
    requires i < |rs| && Lacks(rs[i], cursor) && until <= rs[i].span && from <= cursor && !(from <= cursor < to)
    ensures forall x :: cursor <= x < until ==> Class(rs, from, to, x) == MISSING
  {
    forall x | cursor <= x < until ensures MissingAt(rs, x) { assert Lacks(rs[i], x); }
  }

  // ----- forgetting a released piece -----

  /** What is left of the region after `[from, to)` was released at its front or in its middle. */
  function Behind(r: Region, to: nat): Region { Region(to, Greater(r.end, to), r.limit, r.span) }

  /** What is left of the region after its tail from `from` on was released; what it asked for stays missing. */
  function TailCut(r: Region, from: nat): Region { Region(r.start, Lesser(r.end, from), from, r.span) }

  /** The part before a hole, as a region of its own that misses nothing. */
  function Ahead(r: Region, from: nat): Region { Region(r.start, Lesser(r.end, from), from, from) }

  /** `forget`: with the table full, a hole in the middle stays counted. */
  function Forgotten(rs: seq<Region>, i: nat, from: nat, to: nat): seq<Region>
    requires i < |rs|
  {
    var r := rs[i];
    if from <= r.start then rs[i := Behind(r, to)]
    else if to >= r.limit then rs[i := TailCut(r, from)]
    else if |rs| < MAX_REGIONS then rs[i := Behind(r, to)] + [Ahead(r, from)]
    else rs
  }

  /** The piece is a hole that the full table cannot record. */
  predicate Unrecorded(rs: seq<Region>, i: nat, from: nat, to: nat)
    requires i < |rs|
  {
    rs[i].start < from && to < rs[i].limit && |rs| >= MAX_REGIONS
  }

  ghost predicate Within(rs: seq<Region>, i: nat, from: nat, to: nat) {
    i < |rs| && rs[i].start <= from < to <= rs[i].limit
  }

  lemma ForgetShaped(rs: seq<Region>, i: nat, from: nat, to: nat)
    requires AllShaped(rs) && Disjoint(rs) && Within(rs, i, from, to)
    ensures AllShaped(Forgotten(rs, i, from, to)) && Disjoint(Forgotten(rs, i, from, to))
  {
    var out := Forgotten(rs, i, from, to);
    forall j, k | 0 <= j < |out| && 0 <= k < |out| && j != k ensures Apart(out[j], out[k]) {
      var j' := if j == |rs| then i else j;
      var k' := if k == |rs| then i else k;
      assert j' != k' ==> Apart(rs[j'], rs[k']);
    }
  }

  lemma ForgetTotal(rs: seq<Region>, i: nat, from: nat, to: nat)
    requires Within(rs, i, from, to)
    ensures Total(Forgotten(rs, i, from, to)) == Total(rs) - if Unrecorded(rs, i, from, to) then 0 else to - from
  {
    hide Total;
    var r := rs[i];
    if from <= r.start {
      TotalUpdate(rs, i, Behind(r, to));
    } else if to >= r.limit {
      TotalUpdate(rs, i, TailCut(r, from));
    } else if |rs| < MAX_REGIONS {
      TotalUpdate(rs, i, Behind(r, to));
      TotalAppend(rs[i := Behind(r, to)], Ahead(r, from));
    }
  }

  lemma ForgetAligned(rs: seq<Region>, i: nat, from: nat, to: nat, page: nat)
    requires AllAligned(rs, page) && Within(rs, i, from, to) && Multiple(from, page) && Multiple(to, page)
    ensures AllAligned(Forgotten(rs, i, from, to), page)
  {
    hide Multiple;
  }

  /** Forgetting changes nothing for an address at or beyond the piece. */
  lemma ForgetAhead(rs: seq<Region>, i: nat, from: nat, to: nat, x: int)
    requires AllShaped(rs) && Within(rs, i, from, to) && to <= x
    ensures OwnAt(Forgotten(rs, i, from, to), x) == OwnAt(rs, x)
    ensures GuardAt(Forgotten(rs, i, from, to), x) == GuardAt(rs, x)
    ensures MissingAt(Forgotten(rs, i, from, to), x) == MissingAt(rs, x)
  {
    var out := Forgotten(rs, i, from, to);
    assert forall j :: 0 <= j < |rs| ==>
      (Owns(out[j], x) <==> Owns(rs[j], x)) && (Lacks(out[j], x) <==> Lacks(rs[j], x));
    assert forall j :: 0 <= j < |rs| && Owns(rs[j], x) ==> (out[j].end <= x <==> rs[j].end <= x);
    assert |out| > |rs| ==> !Owns(out[|rs|], x) && !Lacks(out[|rs|], x);
    Bring(rs, out, x);
  }

  /** Position by position agreement carries over to the whole tables. */
  lemma Bring(rs: seq<Region>, out: seq<Region>, x: int)
    requires |rs| <= |out|
    requires forall j ::
      0 <= j < |rs| ==> (Owns(out[j], x) <==> Owns(rs[j], x)) && (Lacks(out[j], x) <==> Lacks(rs[j], x))
    requires forall j :: 0 <= j < |rs| && Owns(rs[j], x) ==> (out[j].end <= x <==> rs[j].end <= x)
    requires forall j :: |rs| <= j < |out| ==> !Owns(out[j], x) && !Lacks(out[j], x)
    ensures OwnAt(out, x) == OwnAt(rs, x) && GuardAt(out, x) == GuardAt(rs, x) && MissingAt(out, x) == MissingAt(rs, x)
  {
    if j :| 0 <= j < |rs| && Owns(rs[j], x) { assert Owns(out[j], x); }
    if j :| 0 <= j < |rs| && Lacks(rs[j], x) { assert Lacks(out[j], x); }
    if j :| 0 <= j < |rs| && Owns(rs[j], x) && rs[j].end <= x { assert Owns(out[j], x) && out[j].end <= x; }
  }

  /** Recorded, the released piece is exactly what the table no longer maps. */
  lemma ForgetOwn(rs: seq<Region>, i: nat, from: nat, to: nat, x: int)
    requires AllShaped(rs) && Disjoint(rs) && Within(rs, i, from, to) && !Unrecorded(rs, i, from, to)
    ensures OwnAt(Forgotten(rs, i, from, to), x) <==> OwnAt(rs, x) && !(from <= x < to)
  {
    var out := Forgotten(rs, i, from, to);
    if j :| 0 <= j < |rs| && Owns(rs[j], x) {
      if from <= x < to {
        OwnerUnique(rs, i, j, x);
      } else if j != i {
        assert Owns(out[j], x);
      } else if x < from && |out| > |rs| {
        assert Owns(out[|rs|], x);
      } else {
        assert Owns(out[i], x);
      }
    }
    if j :| 0 <= j < |out| && Owns(out[j], x) {
      if j == |rs| || j == i {
        assert Owns(rs[i], x);
      } else {
        assert Owns(rs[j], x);
        OthersOutside(rs, j, i, x);
      }
    }
  }

  // ----- a full table -----

  /**
   How far into an unmap of `[address, end)` the region stays counted when the
   table has no room to split it: nowhere unless the range begins inside the
   region's own mapping; all the way if it also ends inside; and to the guard
   page if the range covers the rest of a downsized region.
   */
  function HeldTo(r: Region, address: nat, end: nat): nat {
    if !(r.start < address < r.limit) then address
    else if end < r.limit then end
    else if r.end < r.limit then r.end
    else address
  }

  /** The region once a full table has released `[address, cursor)`. */
  function Cut(r: Region, address: nat, cursor: nat): Region {
    if r.limit <= address || cursor <= r.start then r
    else if address <= r.start then Behind(r, Lesser(cursor, r.limit))
    else if cursor < r.limit then r
    else TailCut(r, if address < r.end < r.limit then r.end else address)
  }

  /** The pieces of the range end where the region's parts do. */
  predicate Stopped(r: Region, address: nat, end: nat, cursor: nat) {
    r.start < address < r.limit ==>
      cursor == address || cursor >= r.limit || cursor == end || cursor == r.end
  }

  lemma CutOwns(r: Region, address: nat, end: nat, x: int)
    requires Shaped(r) && address <= end
    ensures Owns(Cut(r, address, end), x) <==> Owns(r, x) && (!(address <= x < end) || x < HeldTo(r, address, end))
  {}

  /** Beyond the cursor a region still maps what it did. */
  lemma CutAhead(r: Region, address: nat, cursor: nat, x: int)
    requires Shaped(r) && address <= cursor <= x
    ensures Owns(Cut(r, address, cursor), x) <==> Owns(r, x)
  {}

  /** A region that maps nothing of `[cursor, until)` is not changed by releasing it. */
  lemma CutSame(r: Region, address: nat, end: nat, cursor: nat, until: nat)
    requires Shaped(r) && address <= cursor < until && Stopped(r, address, end, cursor)
    requires forall x: int :: cursor <= x < until ==> !Owns(r, x)
    ensures Cut(r, address, until) == Cut(r, address, cursor) && Stopped(r, address, end, until)
  {
    assert !Owns(r, cursor) && (cursor <= r.start < until ==> !Owns(r, r.start));
  }

  /** Releasing the piece at the cursor from the region that maps it. */
  lemma CutStep(r: Region, address: nat, end: nat, cursor: nat, until: nat)
    requires Shaped(r) && address <= cursor < until <= end && Owns(r, cursor) && Stopped(r, address, end, cursor)
    requires until <= if cursor < r.end then r.end else r.limit
    requires r.start < address ==> until == Lesser(if cursor < r.end then r.end else r.limit, end)
    ensures Stopped(r, address, end, until)
    ensures var c := Cut(r, address, cursor);
            Cut(r, address, until) == if cursor <= c.start then Behind(c, until)
                                      else if until >= c.limit then TailCut(c, cursor)
                                      else c
  {}

  // ----- sweeping -----

  lemma DropKeeps(rs: seq<Region>, i: nat)
    requires i < |rs| && AllShaped(rs) && Disjoint(rs) && rs[i].start >= rs[i].limit
    ensures AllShaped(Dropped(rs, i)) && Disjoint(Dropped(rs, i)) && Total(Dropped(rs, i)) == Total(rs)
    ensures forall j :: 0 <= j < |Dropped(rs, i)| ==> Dropped(rs, i)[j] in rs
  {
    hide Total;
    TotalDrop(rs, i);
    var out := Dropped(rs, i);
    var last := |rs| - 1;
    assert forall j :: 0 <= j < |out| ==> out[j] == if j == i then rs[last] else rs[j];
    forall j, k | 0 <= j < |out| && 0 <= k < |out| && j != k ensures Apart(out[j], out[k]) {
      assert Apart(rs[if j == i then last else j], rs[if k == i then last else k]);
    }
  }

  lemma DropOwns(rs: seq<Region>, i: nat, x: int)
    requires i < |rs| && rs[i].start >= rs[i].limit
    ensures OwnAt(Dropped(rs, i), x) == OwnAt(rs, x)
  {
    var out, last := Dropped(rs, i), |rs| - 1;
    assert forall j :: 0 <= j < |out| ==> out[j] == if j == i then rs[last] else rs[j];
    if j :| 0 <= j < |rs| && Owns(rs[j], x) {
      assert Owns(out[if j == last then i else j], x);
    }
    if j :| 0 <= j < |out| && Owns(out[j], x) {
      assert Owns(rs[if j == i then last else j], x);
    }
  }
}
