/**
 The budget of runtime/GuestVMBudget.c: large reservations may be granted
 smaller than asked, and unmap, protect and advise are applied piece by piece
 so that the missing part of a reservation is never touched. The kernel is a
 parameter: it may place a mapping anywhere the source allows, or refuse.
 */
module VMBudget {
  import opened GuestTypes
  import opened VMBudgetRegions

  /** What the kernel answers to one mapping request. */
  datatype Placement = At(address: nat) | OutOfMemory | Refused

  datatype Operation = UNMAP | PROTECT | ADVISE

  /** The range of one system call the budget issues. */
  datatype Piece = Piece(lo: nat, hi: nat)

  datatype Answer = Success | Failure | NoSuchMemory | BadArgument

  /**
   An address the kernel may return for a mapping of `size` bytes: page aligned, short
   of the top of the address space.
   */
  ghost predicate Placeable(page: nat, address: nat, size: nat) {
    page > 0 && Multiple(address, page) && address + size + 2 * page <= U64_MAX
  }

  ghost predicate Covered(issued: seq<Piece>, x: int) {
    exists k :: 0 <= k < |issued| && issued[k].lo <= x < issued[k].hi
  }

  /** The calls that reach an address of each class: missing memory never, guards only to be unmapped. */
  predicate Touchable(op: Operation, kind: Part) {
    kind != MISSING && (kind == GUARD ==> op == UNMAP)
  }

  ghost predicate ClaimsOk(claims: seq<Claim>, page: nat) {
    forall i :: 0 <= i < |claims| ==>
      claims[i].start < claims[i].end && Multiple(claims[i].start, page) && Multiple(claims[i].end, page)
  }

  /** The claim still covers `x` once `[from, to)` is unclaimed: a hole strictly inside it is not recorded. */
  predicate Keeps(c: Claim, from: nat, to: nat, x: int) {
    InClaim(c, x) && (!(from <= x < to) || (c.start < from && to < c.end))
  }

  /** Exactly what the claims keep is still claimed. */
  ghost predicate Unclaimed(before: seq<Claim>, after: seq<Claim>, from: nat, to: nat) {
    forall x: int :: ClaimedAt(after, x) <==> exists i :: 0 <= i < |before| && Keeps(before[i], from, to, x)
  }

  /** The claim and the piece have no address in common. */
  predicate Misses(c: Claim, p: Piece) { c.end <= p.lo || p.hi <= c.start || p.hi <= p.lo }

  /** The piece is a hole strictly inside the claim. */
  predicate Straddles(c: Claim, p: Piece) { c.start < p.lo && p.hi < c.end }

  /** `d` is what is left of `c` once the pieces are gone: those it still meets were holes inside `c`. */
  ghost predicate Descends(d: Claim, c: Claim, gone: seq<Piece>) {
    && c.start <= d.start && d.end <= c.end
    && forall k :: 0 <= k < |gone| ==> Misses(d, gone[k]) || Straddles(c, gone[k])
  }

  ghost predicate Descended(d: Claim, before: seq<Claim>, gone: seq<Piece>) {
    exists j :: 0 <= j < |before| && Descends(d, before[j], gone)
  }

  /** The claims lost nothing but the pieces, and what still meets a piece was a hole in a claim. */
  ghost predicate Shed(before: seq<Claim>, after: seq<Claim>, gone: seq<Piece>) {
    && (forall i :: 0 <= i < |after| ==> Descended(after[i], before, gone))
    && (forall x: int :: ClaimedAt(before, x) && !Covered(gone, x) ==> ClaimedAt(after, x))
  }

  lemma ShedNothing(claims: seq<Claim>)
    ensures Shed(claims, claims, [])
  {
    assert forall i :: 0 <= i < |claims| ==> Descends(claims[i], claims[i], []);
  }

  /** Some pieces after others. */
  lemma ShedMore(first: seq<Claim>, before: seq<Claim>, after: seq<Claim>, gone: seq<Piece>, more: seq<Piece>)
    requires Shed(first, before, gone) && Shed(before, after, more)
    ensures Shed(first, after, gone + more)
  {
    hide ClaimedAt, Covered, Misses, Straddles;
    forall i | 0 <= i < |after| ensures Descended(after[i], first, gone + more) {
      var j :| 0 <= j < |before| && Descends(after[i], before[j], more);
      assert Descended(before[j], first, gone);
      var k :| 0 <= k < |first| && Descends(before[j], first[k], gone);
      DescendMore(after[i], before[j], first[k], gone, more);
    }
    forall x: int | ClaimedAt(first, x) && !Covered(gone + more, x) ensures ClaimedAt(after, x) {
      CoverConcat(gone, more, x);
    }
  }

  lemma DescendMore(e: Claim, d: Claim, c: Claim, gone: seq<Piece>, more: seq<Piece>)
    requires Descends(d, c, gone) && Descends(e, d, more)
    ensures Descends(e, c, gone + more)
  {
    forall k | 0 <= k < |gone + more| ensures Misses(e, (gone + more)[k]) || Straddles(c, (gone + more)[k]) {
      if k < |gone| {
        assert Misses(d, gone[k]) || Straddles(c, gone[k]);
      } else {
        assert Misses(e, more[k - |gone|]) || Straddles(d, more[k - |gone|]);
      }
    }
  }

  /** Claims before `i` have been treated, the others not yet. */
  ghost predicate Halfway(claims: seq<Claim>, i: nat, from: nat, to: nat, x: int) {
    exists j :: 0 <= j < |claims| && if j < i then InClaim(claims[j], x) else Keeps(claims[j], from, to, x)
  }

  lemma HalfDrop(claims: seq<Claim>, i: nat, from: nat, to: nat)
    requires i < |claims| && from <= claims[i].start && to >= claims[i].end
    ensures forall x: int :: Halfway(Dropped(claims, i), i, from, to, x) == Halfway(claims, i, from, to, x)
  {
    var out, last := Dropped(claims, i), |claims| - 1;
    assert forall j :: 0 <= j < |out| ==> out[j] == if j == i then claims[last] else claims[j];
    forall x: int ensures Halfway(out, i, from, to, x) == Halfway(claims, i, from, to, x) {
      if j :| 0 <= j < |claims| && if j < i then InClaim(claims[j], x) else Keeps(claims[j], from, to, x) {
        var k := if j == last then i else j;
        assert out[k] == claims[j] && (k < i <==> j < i);
      }
      if k :| 0 <= k < |out| && if k < i then InClaim(out[k], x) else Keeps(out[k], from, to, x) {
        var j := if k == i then last else k;
        assert out[k] == claims[j] && (k < i <==> j < i);
      }
    }
  }

  lemma DroppedIn(claims: seq<Claim>, i: nat)
    requires i < |claims|
    ensures forall j :: 0 <= j < |Dropped(claims, i)| ==> Dropped(claims, i)[j] in claims
  {}

  lemma DroppedFrom(claims: seq<Claim>, i: nat)
    requires i < |claims|
    ensures forall j :: 0 <= j < i ==> Dropped(claims, i)[j] == claims[j]
    ensures forall j :: i <= j < |Dropped(claims, i)| ==> Dropped(claims, i)[j] in claims[i..]
  {
    var last := |claims| - 1;
    assert i < last ==> claims[i..][last - i] == claims[last];
    forall j | i < j < |Dropped(claims, i)| ensures Dropped(claims, i)[j] in claims[i..] {
      assert claims[i..][j - i] == claims[j];
    }
  }

  lemma UnclaimedIs(before: seq<Claim>, after: seq<Claim>, from: nat, to: nat)
    requires forall x: int :: Halfway(after, |after|, from, to, x) == Halfway(before, 0, from, to, x)
    ensures Unclaimed(before, after, from, to)
  {
    forall x: int ensures ClaimedAt(after, x) <==> exists i :: 0 <= i < |before| && Keeps(before[i], from, to, x) {
      assert Halfway(after, |after|, from, to, x) == Halfway(before, 0, from, to, x);
    }
  }

  lemma UnclaimedSheds(before: seq<Claim>, after: seq<Claim>, from: nat, to: nat)
    requires Unclaimed(before, after, from, to)
    requires forall i :: 0 <= i < |after| ==> Descended(after[i], before, [Piece(from, to)])
    ensures Shed(before, after, [Piece(from, to)])
  {
    forall x: int | ClaimedAt(before, x) && !Covered([Piece(from, to)], x) ensures ClaimedAt(after, x) {
      var i :| 0 <= i < |before| && InClaim(before[i], x);
      assert !([Piece(from, to)][0].lo <= x < [Piece(from, to)][0].hi);
      assert Keeps(before[i], from, to, x);
    }
  }

  lemma HalfStep(claims: seq<Claim>, i: nat, from: nat, to: nat, d: Claim)
    requires i < |claims| && forall x: int :: InClaim(d, x) == Keeps(claims[i], from, to, x)
    ensures forall x: int :: Halfway(claims[i := d], i + 1, from, to, x) == Halfway(claims, i, from, to, x)
  {
    hide InClaim, Keeps;
    var out := claims[i := d];
    forall x: int ensures Halfway(out, i + 1, from, to, x) == Halfway(claims, i, from, to, x) {
      if j :| 0 <= j < |claims| && if j < i then InClaim(claims[j], x) else Keeps(claims[j], from, to, x) {
        assert if j < i + 1 then InClaim(out[j], x) else Keeps(out[j], from, to, x);
      }
      if j :| 0 <= j < |out| && if j < i + 1 then InClaim(out[j], x) else Keeps(out[j], from, to, x) {
        assert if j < i then InClaim(claims[j], x) else Keeps(claims[j], from, to, x);
      }
    }
  }

  /** The mapping meets the region's missing part, or runs into it from its own. */
  predicate Reached(r: Region, address: nat, size: nat) {
    !(address + size <= r.limit || address >= r.span)
  }

  ghost predicate NoneReached(rs: seq<Region>, address: nat, size: nat) {
    forall i :: 0 <= i < |rs| ==> !Reached(rs[i], address, size)
  }

  function Receded(r: Region, address: nat, size: nat): Region {
    if Reached(r, address, size) then r.(span := Greater(address, r.limit)) else r
  }

  /**
   A mapping of the application at `[address, address + size)`: one that reaches
   a missing part is remembered as its own, or with no room for that ends every
   missing part it reaches where it begins.
   */
  ghost predicate Claimed(page: nat, before: seq<Region>, claims: seq<Claim>, after: seq<Region>, later: seq<Claim>,
                          address: nat, size: nat)
    requires page > 0
  {
    if NoneReached(before, address, size) then after == before && later == claims
    else if |claims| < MAX_CLAIMS then
      after == before && later == claims + [Claim(address, PageEnd(page, address, size))]
    else
      && later == claims && |after| == |before|
      && forall i :: 0 <= i < |before| ==> after[i] == Receded(before[i], address, size)
  }

  lemma AlignedAt(rs: seq<Region>, i: nat, page: nat)
    requires AllAligned(rs, page) && i < |rs|
    ensures AlignedRegion(rs[i], page)
  {}

  class Budget {
    const page: nat
    const budget: nat
    const floor: nat
    const threshold: nat
    var reserved: nat
    var regions: seq<Region>
    var claims: seq<Claim>

    ghost predicate Valid()
      reads this
    {
      && 0 < page && page <= floor && Multiple(floor, page)
      && |regions| <= MAX_REGIONS && |claims| <= MAX_CLAIMS
      && AllShaped(regions) && Disjoint(regions) && AllAligned(regions, page)
      && reserved == Total(regions)
      && ClaimsOk(claims, page)
    }

    /**
     `gv_init`, with the page size as the host reports it: the floor is cut to whole
     pages and is never less than one.
     */
    constructor (page: nat, bytes: nat, threshold: nat, floor: nat)
      requires page > 0
      ensures Valid() && this.page == page && budget == bytes && regions == [] && claims == [] && reserved == 0
      ensures this.threshold == Greater(threshold, page)
      ensures floor > page ==> Multiple(this.floor, page) && this.floor <= floor < this.floor + page
      ensures floor <= page ==> this.floor == page
    {
      this.page := page;
      budget := bytes;
      this.threshold := if threshold > page then threshold else page;
      this.floor := if floor > page then floor - floor % page else page;
      reserved, regions, claims := 0, [], [];
      new;
      FloorAligned(page, floor);
    }

    /** `gv_counts`, for a budget that is on: the kernel places an anonymous mapping of at least the threshold. */
    predicate Counts(address: nat, size: nat, anonymous: bool, fixed: bool)
      reads this
    {
      budget != 0 && address == 0 && anonymous && !fixed && size >= threshold
    }

    /** `unclaim`: the application no longer maps `[from, to)`, unless that is a hole inside one claim. */
    method Unclaim(from: nat, to: nat)
      requires Valid() && Multiple(from, page) && Multiple(to, page)
      modifies `claims
      ensures Valid() && |claims| <= |old(claims)|
      ensures Unclaimed(old(claims), claims, from, to) && Shed(old(claims), claims, [Piece(from, to)])
    {
      hide Multiple, Total, Disjoint, AllShaped, AllAligned, Dropped, Shed, Unclaimed;
      ghost var was := claims;
      var i := 0;
      while i < |claims|
        invariant Valid() && 0 <= i <= |claims| <= |was|
        invariant forall x: int :: Halfway(claims, i, from, to, x) == Halfway(was, 0, from, to, x)
        invariant forall k :: 0 <= k < i ==> Descended(claims[k], was, [Piece(from, to)])
        invariant forall k :: i <= k < |claims| ==> claims[k] in was
        decreases |claims| - i
      {
        var c := claims[i];
        if from <= c.start && to >= c.end {
          HalfDrop(claims, i, from, to);
          DroppedIn(claims, i);
          DroppedFrom(claims, i);
          claims := Dropped(claims, i);
        } else {
          var d := c;
          if from <= c.start && to > c.start {
            d := Claim(to, c.end);
          } else if from < c.end && to >= c.end {
            d := Claim(c.start, from);
          }
          HalfStep(claims, i, from, to, d);
          assert Descends(d, c, [Piece(from, to)]);
          assert Descended(d, was, [Piece(from, to)]);
          claims := claims[i := d];
          i := i + 1;
        }
      }
      UnclaimedIs(was, claims, from, to);
      UnclaimedSheds(was, claims, from, to);
    }

    /** `claim`: remember a mapping inside a missing part, or end the missing parts where it begins. */
    method ClaimMapping(address: nat, size: nat)
      requires Valid() && Placeable(page, address, size) && 0 < size
      modifies `regions, `claims
      ensures Valid() && |regions| == |old(regions)|
      ensures Claimed(page, old(regions), old(claims), regions, claims, address, size)
    {
      hide Multiple, Total, PageEnd, Disjoint, AllAligned;
      PageEndExact(page, address, size);
      ghost var was := regions;
      var i := 0;
      while i < |regions|
        invariant Valid() && 0 <= i <= |regions| == |was| && claims == old(claims)
        invariant forall j :: 0 <= j < i ==> regions[j] == Receded(was[j], address, size)
        invariant forall j :: i <= j < |regions| ==> regions[j] == was[j]
        invariant |claims| < MAX_CLAIMS ==> regions == was && forall j :: 0 <= j < i ==> !Reached(was[j], address, size)
      {
        var r := regions[i];
        if Reached(r, address, size) {
          if |claims| < MAX_CLAIMS {
            claims := claims + [Claim(address, PageEnd(page, address, size))];
            return;
          }
          AlignedAt(regions, i, page);
          ShrinkKeeps(regions, i, Greater(address, r.limit), page);
          regions := regions[i := r.(span := Greater(address, r.limit))];
        }
        i := i + 1;
      }
      if NoneReached(was, address, size) {
        assert forall j :: 0 <= j < |was| ==> regions[j] == was[j];
      }
    }

    /**
     `sweep`: regions that map nothing any more are gone, and with them the
     claims in their missing parts, which `gone` lists.
     */
    method Sweep() returns (ghost gone: seq<Piece>)
      requires Valid()
      modifies `regions, `claims
      ensures Valid() && forall x: int :: OwnAt(regions, x) == OwnAt(old(regions), x)
      ensures forall i :: 0 <= i < |regions| ==> regions[i].start < regions[i].limit && regions[i] in old(regions)
      ensures |regions| <= |old(regions)|
      ensures Shed(old(claims), claims, gone) && AllGone(old(regions), [], gone)
    {
      hide Multiple, Total, OwnAt, Disjoint, Dropped, Shed, AllShaped, ClaimsOk, AllGone;
      gone := [];
      ShedNothing(claims);
      GoneNone(regions);
      var i := 0;
      while i < |regions|
        invariant Valid() && 0 <= i <= |regions| <= |old(regions)|
        invariant forall x: int :: OwnAt(regions, x) == OwnAt(old(regions), x)
        invariant forall j :: 0 <= j < i ==> regions[j].start < regions[j].limit
        invariant forall j :: 0 <= j < |regions| ==> regions[j] in old(regions)
        invariant Shed(old(claims), claims, gone) && AllGone(old(regions), regions[i..], gone)
        decreases |regions| - i
      {
        var r := regions[i];
        if r.start < r.limit {
          GonePast(old(regions), regions, i, gone);
          i := i + 1;
        } else {
          AlignedAt(regions, i, page);
          ghost var before := claims;
          Unclaim(r.limit, r.span);
          ShedMore(old(claims), before, claims, gone, [Lost(r)]);
          GoneDrop(old(regions), regions, i, gone);
          gone := gone + [Lost(r)];
          DropKeeps(regions, i);
          forall x: int { DropOwns(regions, i, x); }
          DropPrefix(regions, i);
          regions := Dropped(regions, i);
        }
      }
      assert regions[i..] == [];
    }

    /** `forget`: `[from, to)` of a region's own mapping is gone. */
    method Forget(i: nat, from: nat, to: nat)
      requires Valid() && Within(regions, i, from, to) && Multiple(from, page) && Multiple(to, page)
      modifies `regions, `reserved
      ensures Valid() && regions == old(Forgotten(regions, i, from, to))
    {
      hide Multiple, Total, Disjoint;
      ForgetShaped(regions, i, from, to);
      ForgetTotal(regions, i, from, to);
      ForgetAligned(regions, i, from, to, page);
      TotalNonnegative(Forgotten(regions, i, from, to));
      var r := regions[i];
      if from <= r.start {
        regions := regions[i := Region(to, if r.end < to then to else r.end, r.limit, r.span)];
      } else if to >= r.limit {
        regions := regions[i := Region(r.start, if r.end > from then from else r.end, from, r.span)];
      } else if |regions| < MAX_REGIONS {
        regions := regions[i := Region(to, if r.end < to then to else r.end, r.limit, r.span)]
                   + [Region(r.start, Lesser(r.end, from), from, from)];
      } else {
        return;
      }
      reserved := reserved - (to - from);
    }

    // ----- reserving -----

    /** `overlaps_reservation`: the range meets what some region asked for, or does not fit the address space. */
    method Overlaps(from: nat, size: nat) returns (overlap: bool)
      requires Valid()
      ensures overlap == !Vacant(regions, page, from, size)
    {
      hide Multiple, Total, Disjoint, AllShaped, AllAligned, PageEnd;
      var end := PageEnd(page, from, size);
      if end == 0 {
        return true;
      }
      for i := 0 to |regions|
        invariant forall j :: 0 <= j < i ==> !(from < regions[j].span && end > regions[j].start)
      {
        if from < regions[i].span && end > regions[i].start {
          return true;
        }
      }
      overlap := false;
    }

    /** `free_span`: the first hole of `size` bytes at or above `from`, 0 when the search gives up. */
    method FreeSpan(from: nat, size: nat, above: nat -> Option<Piece>) returns (hole: nat)
      requires Valid() && Multiple(from, page) && Surveyed(above, page)
      ensures hole != 0 ==> from <= hole && Multiple(hole, page) && hole + size <= U64_MAX && size > 0
      ensures hole != 0 ==> Free(regions, above, hole, size)
      ensures hole != 0 && Steady(above) ==> forall c :: from <= c < hole ==> !Free(regions, above, c, size)
    {
      hide Multiple, Total, Disjoint, AllShaped, Free;
      var at: nat := from;
      var step := 0;
      while step < 4096 && size > 0 && at + size <= U64_MAX
        invariant from <= at && Multiple(at, page)
        invariant Steady(above) ==> forall c :: from <= c < at ==> !Free(regions, above, c, size)
      {
        step := step + 1;
        var next := Beyond(at, size);
        if next != at {
          Taken(regions, above, at, next, size);
          at := next;
        } else {
          var found := above(at);
          if found.None? || found.value.lo >= at + size {
            FreeAt(regions, above, at, size);
            return at;
          }
          Mapped(regions, above, at, size);
          at := found.value.hi;
        }
      }
      hole := 0;
    }

    /** Lines 143-147: past the furthest region that `[at, at + size)` meets. */
    method Beyond(at: nat, size: nat) returns (next: nat)
      requires Valid() && Multiple(at, page)
      ensures at <= next && Multiple(next, page)
      ensures next == at ==> forall i :: 0 <= i < |regions| ==> regions[i].span <= at || at + size <= regions[i].start
      ensures next > at ==> exists i :: 0 <= i < |regions| && regions[i].start < at + size && regions[i].span == next
    {
      hide Multiple, Total, Disjoint, AllShaped;
      next := at;
      for i := 0 to |regions|
        invariant at <= next && Multiple(next, page)
        invariant next == at ==> forall j :: 0 <= j < i ==> regions[j].span <= at || at + size <= regions[j].start
        invariant next > at ==> exists j :: 0 <= j < i && regions[j].start < at + size && regions[j].span == next
      {
        var r := regions[i];
        if at < r.span && at + size > r.start && r.span > next {
          AlignedAt(regions, i, page);
          next := r.span;
        }
      }
    }

    /**
     `gv_reserve`: grant what the budget has room for, or at least the floor,
     never more than asked; what is granted short ends in a guard page, and the
     rest of what was asked is recorded as missing. What is counted stays within
     the budget exactly when the whole request, rounded up to pages, fits in what
     is left of it, unless the kernel itself runs short.
     */
    method Reserve(size: nat, mmap: nat -> Placement, clear: (nat, nat) -> bool, bottom: nat,
                   above: nat -> Option<Piece>, hint: (nat, nat) -> Placement)
      returns (result: Placement, granted: nat)
      requires Valid() && 0 < size <= U64_MAX && Multiple(bottom, page) && Surveyed(above, page)
      requires forall n :: mmap(n).At? ==> Placeable(page, mmap(n).address, n)
      requires forall a, n :: hint(a, n).At? ==> Placeable(page, hint(a, n).address, n)
      modifies this
      ensures Valid()
      ensures !result.At? ==>
        granted == 0 && regions == old(regions) && claims == old(claims) && reserved == old(reserved)
      ensures |old(regions)| == MAX_REGIONS ==> result == mmap(size)
      ensures |old(regions)| == MAX_REGIONS && result.At? ==>
        && granted == size && reserved == old(reserved)
        && Claimed(page, old(regions), old(claims), regions, claims, result.address, size)
      ensures |old(regions)| < MAX_REGIONS && result.At? ==>
        && 0 < granted <= size && (old(reserved) + granted <= budget || granted <= floor) && claims == old(claims)
        && |regions| == |old(regions)| + 1 && regions[..|old(regions)|] == old(regions)
        && IsGrant(regions[|old(regions)|], page, result.address, size, granted)
        && reserved == old(reserved) + Charge(page, size, granted)
        && TailFree(regions[|old(regions)|], page, size, clear, above)
      ensures |old(regions)| < MAX_REGIONS && result.At? && old(reserved) + RoundedUp(size, page) <= budget ==>
        reserved <= budget
      ensures |old(regions)| < MAX_REGIONS && result.At? && (forall n :: mmap(n) != OutOfMemory) ==>
        (reserved <= budget <==> old(reserved) + RoundedUp(size, page) <= budget)
      ensures |old(regions)| < MAX_REGIONS && Roomy(mmap, clear, old(regions), page, size) ==> result.At?
    {
      hide Multiple, Total, Disjoint, AllShaped, AllAligned, PageEnd, Vacant, RoundedUp, Claimed, IsGrant, Clears,
           TailFree, Grant;
      granted := 0;
      if |regions| == MAX_REGIONS {
        result := mmap(size);
        if result.At? {
          ClaimMapping(result.address, size);
          granted := size;
        }
        return;
      }
      var want := Wanted(size);
      var mapped;
      result, want, mapped := MapShrinking(size, want, mmap);
      if !result.At? {
        return;
      }
      var start := Settle(result.address, size, want, mapped, clear, bottom, above, hint);
      if start.None? {
        return OutOfMemory, 0;
      }
      result := At(start.value);
      ShortCharge(page, size, want);
      Record(start.value, size, want);
      granted := want;
    }

    /**
     Lines 188-208: keep the kernel's place if the whole span asked for is free
     there, move the mapping to the first hole that is, or give it back.
     */
    method Settle(first: nat, size: nat, want: nat, mapped: nat, clear: (nat, nat) -> bool, bottom: nat,
                  above: nat -> Option<Piece>, hint: (nat, nat) -> Placement)
      returns (start: Option<nat>)
      requires Valid() && Multiple(bottom, page) && Surveyed(above, page)
      requires 0 < want <= size && (want < size ==> Multiple(want, page))
      requires mapped == if want < size then want + page else want
      requires Placeable(page, first, mapped)
      requires forall a, n :: hint(a, n).At? ==> Placeable(page, hint(a, n).address, n)
      ensures start.Some? ==>
        && Fitting(page, start.value, size, want) && Clears(regions, Grant(page, start.value, size, want))
        && TailFree(Grant(page, start.value, size, want), page, size, clear, above)
      ensures Vacant(regions, page, first, size) && (forall a, n :: clear(a, n)) ==> start == Some(first)
    {
      hide Multiple, Total, Disjoint, AllShaped, AllAligned, PageEnd, Vacant, IsGrant, Free, NoneMapped, Clears;
      var asked := PageEnd(page, first, size);
      var overlap := Overlaps(first, size);
      if overlap || (want < size && asked > first + mapped && !clear(first + mapped, asked - first - mapped)) {
        var hole := FreeSpan(bottom, size, above);
        var moved := if hole != 0 then hint(hole, mapped) else OutOfMemory;
        if moved != At(hole) {
          return None;
        }
        FreeMeans(regions, above, hole, size);
        HoleVacant(regions, page, hole, size, want);
        return Some(hole);
      }
      VacantGrant(regions, page, first, size, want);
      GrantCharge(page, first, size, want);
      return Some(first);
    }

    /** Lines 209-218: the region recorded and counted. */
    method Record(start: nat, size: nat, want: nat)
      requires Valid() && |regions| < MAX_REGIONS
      requires Fitting(page, start, size, want) && Clears(regions, Grant(page, start, size, want))
      modifies `regions, `reserved
      ensures Valid() && regions == old(regions) + [Grant(page, start, size, want)]
      ensures IsGrant(Grant(page, start, size, want), page, start, size, want)
      ensures reserved == old(reserved) + Charge(page, size, want)
    {
      hide Multiple, Total, Disjoint, AllShaped, AllAligned, PageEnd, IsGrant, Clears, RoundedUp;
      var region := Grant(page, start, size, want);
      GrantShape(page, start, size, want);
      GrantKeeps(regions, region, page);
      GrantCharge(page, start, size, want);
      regions := regions + [region];
      reserved := reserved + (region.limit - region.start);
    }

    /**
     Lines 173-177: how much to ask the kernel for first. The bytes stay within
     the budget exactly when the smaller of the request and the floor does; with
     the page rounding and the guard they do so exactly when the whole request does.
     */
    method Wanted(size: nat) returns (want: nat)
      requires Valid() && size > 0
      ensures 0 < want <= size && (want < size ==> Multiple(want, page) && page <= want)
      ensures reserved + want <= budget || want <= floor
      ensures reserved + want <= budget <==> reserved + Lesser(size, floor) <= budget
      ensures reserved + Charge(page, size, want) <= budget <==> reserved + RoundedUp(size, page) <= budget
    {
      hide Total, Disjoint, AllShaped, AllAligned, Multiple, RoundedDown, RoundedUp;
      var room := if reserved < budget then budget - reserved else 0;
      want := size;
      RoundUp(size, page);
      if want > room {
        want := if room > floor then room else floor;
      }
      if want > size {
        want := size;
      }
      if want < size {
        RoundDown(want, page);
        DownSame(floor, page);
        want := RoundedDown(want, page);
      }
    }

    /** Lines 180-186: halve the request while the kernel has no memory for it. */
    method MapShrinking(size: nat, first: nat, mmap: nat -> Placement) returns (result: Placement, want: nat,
                        mapped: nat)
      requires page > 0 && 0 < first <= size && (first < size ==> Multiple(first, page) && page <= first)
      ensures 0 < want <= first && (want < size ==> Multiple(want, page) && page <= want)
      ensures mapped == (if want < size then want + page else want) && result == mmap(mapped)
      ensures result == OutOfMemory ==> want <= page
      ensures (forall n :: mmap(n) != OutOfMemory) ==> want == first
    {
      hide Multiple, RoundedDown;
      want := first;
      while true
        invariant 0 < want <= first && (want < size ==> Multiple(want, page) && page <= want)
        invariant (forall n :: mmap(n) != OutOfMemory) ==> want == first
        decreases want
      {
        mapped := if want < size then want + page else want;
        result := mmap(mapped);
        if result != OutOfMemory || want <= page {
          break;
        }
        RoundDown(want / 2, page);
        MultipleSelf(page);
        want := RoundedDown(want / 2, page);
        if want < page {
          want := page;
        }
      }
    }

    // ----- mapping, unmapping, protecting, advising -----

    /** Lines 229-234 and 258-266: whether any address of `[cursor, end)` is a guard or missing to this call. */
    method Withheld(cursor: nat, end: nat, from: nat, to: nat) returns (withheld: bool)
      requires AllShaped(regions) && Disjoint(regions) && from <= cursor
      ensures withheld == AnyWithheld(regions, from, to, cursor, end)
    {
      hide Disjoint, AllShaped, Class;
      var at := cursor;
      while at < end
        invariant cursor <= at && (at <= end || at == cursor)
        invariant forall x ::
          cursor <= x < at ==> Class(regions, from, to, x) != GUARD && Class(regions, from, to, x) != MISSING
      {
        var kind, until, region := PartAt(regions, at, end, from, to, page);
        if kind == GUARD || kind == MISSING {
          assert Class(regions, from, to, at) == kind;
          return true;
        }
        at := until;
      }
      withheld := false;
    }

    /**
     `gv_map`: a fixed mapping into a guard or a missing part is refused, a hint
     there is dropped, and the mapping made becomes the application's own.
     `address` 0 is no hint; the end of the range wraps as 64-bit sums do.
     */
    method Map(address: nat, size: nat, fixed: bool, mmap: nat -> Placement)
      returns (result: Placement, asked: seq<nat>, from: nat, to: nat)
      requires Valid() && address <= U64_MAX && 0 < size <= U64_MAX
      requires forall a :: mmap(a).At? ==> Placeable(page, mmap(a).address, size)
      modifies `regions, `claims
      ensures Valid() && reserved == old(reserved)
      ensures from <= address <= to && IsAnchor(old(regions), old(claims), address, from, to)
      ensures MapWithheld(old(regions), from, to, address, size) && fixed ==> asked == [] && result == OutOfMemory
      ensures MapWithheld(old(regions), from, to, address, size) && !fixed ==> asked == [0] && result == mmap(0)
      ensures !MapWithheld(old(regions), from, to, address, size) ==> asked == [address] && result == mmap(address)
      ensures if result.At? then Claimed(page, old(regions), old(claims), regions, claims, result.address, size)
              else regions == old(regions) && claims == old(claims)
    {
      hide Multiple, Total, Disjoint, AllShaped, AllAligned, Placeable, Claimed;
      asked := [];
      from, to := AnchorAt(regions, claims, address);
      var withheld := false;
      if address != 0 {
        withheld := Withheld(address, WrappedEnd(address, size), from, to);
      }
      if withheld && fixed {
        return OutOfMemory, [], from, to;
      }
      var place := if withheld then 0 else address;
      asked := [place];
      result := mmap(place);
      if result.At? {
        ClaimMapping(result.address, size);
      }
    }

    /**
     `apply`: an empty range goes to the kernel as it is; a range that is not
     page aligned or does not fit the address space is refused unchanged.
     */
    method Apply(op: Operation, usable: bool, address: nat, size: nat, kernel: Piece -> bool)
      returns (result: Answer, issued: seq<Piece>, from: nat, to: nat, ghost shed: seq<Piece>)
      requires Valid() && address <= U64_MAX && size <= U64_MAX
      modifies `regions, `claims, `reserved
      ensures Valid()
      ensures size == 0 ==>
        issued == [Piece(address, address)] && result == (if kernel(Piece(address, address)) then Success else Failure)
      ensures size > 0 && (PageEnd(page, address, size) == 0 || !Multiple(address, page)) ==>
        result == BadArgument && issued == []
      ensures size == 0 || PageEnd(page, address, size) == 0 || !Multiple(address, page) ==>
        regions == old(regions) && claims == old(claims) && reserved == old(reserved)
      ensures size > 0 && PageEnd(page, address, size) != 0 && Multiple(address, page) ==>
        && address < PageEnd(page, address, size)
        && Applied(op, usable, address, PageEnd(page, address, size), kernel, old(regions), regions, old(claims),
                   result, issued, from, to)
        && (if op == UNMAP then Shed(old(claims), claims, shed) else claims == old(claims))
        && Sheds(Job(op, address, PageEnd(page, address, size), kernel, old(regions), from, to), issued, shed)
    {
      hide Multiple, Total, Disjoint, AllShaped, AllAligned, PageEnd, ClaimsOk, Applied, Shed, Sheds;
      from, to, shed := address, address, [];
      var end := PageEnd(page, address, size);
      PageEndBounds(page, address, size);
      RemainderMultiple(address, page);
      if size == 0 {
        return if kernel(Piece(address, address)) then Success else Failure, [Piece(address, address)], from, to, [];
      }
      if end == 0 || address % page != 0 {
        return BadArgument, [], from, to, [];
      }
      result, issued, from, to, shed := ApplyRange(op, usable, address, end, kernel);
    }

    /** One piece of an unmap the kernel carried out. */
    method Release(kind: Part, region: nat, cursor: nat, until: nat)
      requires Valid() && cursor < until && Multiple(cursor, page) && Multiple(until, page)
      requires kind == GRANTED || kind == GUARD ==> Within(regions, region, cursor, until)
      requires kind != MISSING
      modifies `regions, `claims, `reserved
      ensures Valid()
      ensures regions == if kind == OUTSIDE then old(regions) else old(Forgotten(regions, region, cursor, until))
      ensures if kind == OUTSIDE then Unclaimed(old(claims), claims, cursor, until) else claims == old(claims)
      ensures kind == OUTSIDE ==> Shed(old(claims), claims, [Piece(cursor, until)])
    {
      hide Multiple, Total, Disjoint, AllShaped, AllAligned, Unclaimed, Shed;
      if kind == OUTSIDE {
        Unclaim(cursor, until);
      } else {
        Forget(region, cursor, until);
      }
    }

    /**
     `apply`, for a nonempty page-aligned range `[address, end)`: the calls it
     issues cover exactly the addresses the operation may touch, each piece once.
     A request for usable protection that meets a guard or a missing part
     issues nothing. `kernel` says which pieces the kernel carries out.
     */
    method ApplyRange(op: Operation, usable: bool, address: nat, end: nat, kernel: Piece -> bool)
      returns (result: Answer, issued: seq<Piece>, from: nat, to: nat, ghost shed: seq<Piece>)
      requires Valid() && address < end && Multiple(address, page) && Multiple(end, page)
      modifies `regions, `claims, `reserved
      ensures Valid()
      ensures Applied(op, usable, address, end, kernel, old(regions), regions, old(claims), result, issued, from, to)
      ensures op != UNMAP ==> claims == old(claims) && reserved == old(reserved)
      ensures op == UNMAP ==> Shed(old(claims), claims, shed)
      ensures Sheds(Job(op, address, end, kernel, old(regions), from, to), issued, shed)
    {
      hide Multiple, Total, Disjoint, AllShaped, AllAligned, ClaimsOk, IsPart, Class, Shed, Sheds, Walked;
      from, to := AnchorAt(regions, claims, address);
      issued, shed := [], [];
      ghost var job := Job(op, address, end, kernel, regions, from, to);
      StartWalk(job);
      ShedNothing(claims);
      if op == PROTECT && usable {
        var withheld := Withheld(address, end, from, to);
        if withheld {
          ShedsNothing(job, []);
          return NoSuchMemory, [], from, to, [];
        }
      }
      result := Success;
      var cursor: nat := address;
      AnchorAligned(regions, claims, page, address, from, to);
      AnchorIn(regions, claims, address, from, to);
      while cursor < end
        invariant Valid() && address <= cursor <= end && Multiple(cursor, page)
        invariant Walked(job, cursor, regions, issued, shed, result)
        invariant if op == UNMAP then Shed(old(claims), claims, shed)
                  else claims == old(claims) && reserved == old(reserved)
      {
        var kind, until, region := PartAt(regions, cursor, end, from, to, page);
        PartTouches(regions, cursor, end, from, to, kind, until, region);
        if !Touchable(op, kind) {
          WalkSkip(job, cursor, regions, issued, shed, result, kind, until, region);
        } else {
          var piece := Piece(cursor, until);
          if !kernel(piece) {
            WalkFail(job, cursor, regions, issued, shed, result, kind, until, region);
            result := Failure;
          } else {
            WalkDone(job, cursor, regions, issued, shed, result, kind, until, region);
            if op == UNMAP {
              ghost var before := claims;
              Release(kind, region, cursor, until);
              if kind == OUTSIDE {
                ShedMore(old(claims), before, claims, shed, [piece]);
                shed := shed + [piece];
              }
            }
          }
          issued := issued + [piece];
        }
        cursor := until;
      }
      ghost var mid, before := regions, claims;
      if op == UNMAP {
        ghost var gone := Sweep();
        ShedMore(old(claims), before, claims, shed, gone);
        WalkEnd(job, mid, issued, shed, result);
        ShedAll(job, mid, issued, shed, gone);
        shed := shed + gone;
      } else {
        WalkEnd(job, mid, issued, shed, result);
        ShedsNothing(job, issued);
      }
    }
  }

  /** `above(a)` is the kernel's first mapping that ends above `a`, if any. */
  ghost predicate Surveyed(above: nat -> Option<Piece>, page: nat) {
    forall a: nat :: above(a).Some? ==> Multiple(above(a).value.hi, page) && a < above(a).value.hi
  }

  /** The answers are about one layout: up to its end a mapping stays the first. */
  ghost predicate Steady(above: nat -> Option<Piece>) {
    forall a: nat, b: nat :: above(a).Some? && a <= b < above(a).value.hi ==> above(b) == above(a)
  }

  /** The kernel reports nothing mapped in `[from, from + size)`. */
  ghost predicate NoneMapped(above: nat -> Option<Piece>, from: nat, size: nat) {
    above(from).None? || above(from).value.lo >= from + size
  }

  /** `[at, at + size)` is unmapped and meets nothing that any region asked for. */
  ghost predicate Free(rs: seq<Region>, above: nat -> Option<Piece>, at: nat, size: nat) {
    && (forall i :: 0 <= i < |rs| ==> rs[i].span <= at || at + size <= rs[i].start)
    && NoneMapped(above, at, size)
  }

  /** A region that reaches from below `at + size` up to `next` leaves no room before its end. */
  lemma Taken(rs: seq<Region>, above: nat -> Option<Piece>, at: nat, next: nat, size: nat)
    requires exists i :: 0 <= i < |rs| && rs[i].start < at + size && rs[i].span == next
    ensures forall c :: at <= c < next ==> !Free(rs, above, c, size)
  {
    var i :| 0 <= i < |rs| && rs[i].start < at + size && rs[i].span == next;
    forall c | at <= c < next ensures !Free(rs, above, c, size) {
      assert !(rs[i].span <= c || c + size <= rs[i].start);
    }
  }

  /** Nor does a mapping the kernel reports. */
  lemma Mapped(rs: seq<Region>, above: nat -> Option<Piece>, at: nat, size: nat)
    requires above(at).Some? && above(at).value.lo < at + size
    ensures Steady(above) ==> forall c :: at <= c < above(at).value.hi ==> !Free(rs, above, c, size)
  {}

  lemma FreeAt(rs: seq<Region>, above: nat -> Option<Piece>, at: nat, size: nat)
    requires forall i :: 0 <= i < |rs| ==> rs[i].span <= at || at + size <= rs[i].start
    requires NoneMapped(above, at, size)
    ensures Free(rs, above, at, size)
  {}

  /** Nothing that any region asked for meets `[from, from + size)`, rounded up to pages. */
  ghost predicate Vacant(rs: seq<Region>, page: nat, from: nat, size: nat)
    requires page > 0
  {
    && PageEnd(page, from, size) != 0
    && forall i :: 0 <= i < |rs| ==> !(from < rs[i].span && PageEnd(page, from, size) > rs[i].start)
  }

  /** Lines 209-216: the region recorded for `want` of `size` bytes at `start`. */
  function Grant(page: nat, start: nat, size: nat, want: nat): Region
    requires page > 0
  {
    var own := PageEnd(page, start, want);
    if want < size then
      var asked := PageEnd(page, start, size);
      Region(start, own, own + page, if asked > own + page then asked else own + page)
    else Region(start, own, own, own)
  }

  /**
   A full grant covers what was asked, to the page; a short one is followed by one
   guard page and the missing rest.
   */
  ghost predicate IsGrant(r: Region, page: nat, start: nat, size: nat, granted: nat)
    requires page > 0
  {
    && r.start == start && start + granted <= r.end < start + granted + page
    && (granted == size ==> r.limit == r.span == r.end)
    && (granted < size ==> r.end == start + granted && r.limit == r.end + page
                           && (PageEnd(page, start, size) != 0 ==> r.span == PageEnd(page, start, size)))
  }

  /** Cut to whole pages. */
  function RoundedDown(x: nat, page: nat): (r: nat)
    requires page > 0
    ensures r <= x
  {
    assert x % page <= x;
    x - x % page
  }

  /** Filled up to whole pages. */
  function RoundedUp(x: nat, page: nat): nat
    requires page > 0
  {
    (x + (page - 1)) / page * page
  }

  /** What a grant of `granted` of `size` bytes counts for: whole pages, and a guard page if it falls short. */
  function Charge(page: nat, size: nat, granted: nat): nat
    requires page > 0
  {
    if granted < size then granted + page else RoundedUp(size, page)
  }

  lemma RoundUp(x: nat, page: nat)
    requires page > 0
    ensures x <= RoundedUp(x, page) < x + page && Multiple(RoundedUp(x, page), page)
  {
    hide Times;
    Divided(x + (page - 1), page);
    assert Times((x + (page - 1)) / page, page) == RoundedUp(x, page) by { TimesIs((x + (page - 1)) / page, page); }
  }

  lemma TimesIs(k: nat, page: nat)
    ensures Times(k, page) == k * page
  {}

  lemma DownSame(x: nat, page: nat)
    requires page > 0 && Multiple(x, page)
    ensures RoundedDown(x, page) == x
  {
    hide Multiple;
    RemainderMultiple(x, page);
  }

  /** Between multiples of the page there is nothing to choose. */
  lemma OneMultiple(a: nat, b: nat, page: nat)
    requires page > 0 && Multiple(a, page) && Multiple(b, page) && a < b + page && b < a + page
    ensures a == b
  {
    hide Multiple;
    if a < b { NextMultiple(a, b, page); } else if b < a { NextMultiple(b, a, page); }
  }

  /** The recorded region counts what the grant is charged for. */
  lemma GrantCharge(page: nat, start: nat, size: nat, want: nat)
    requires Fitting(page, start, size, want)
    ensures var r := Grant(page, start, size, want); r.limit - r.start == Charge(page, size, want)
  {
    hide Multiple, PageEnd, RoundedUp;
    PageEndExact(page, start, want);
    if want < size {
      MultipleSum(start, want, page);
      PageEndLeast(page, start, want, start + want);
    } else {
      RoundUp(size, page);
      MultipleSum(start, RoundedUp(size, page), page);
      OneMultiple(PageEnd(page, start, size), start + RoundedUp(size, page), page);
    }
  }

  /** A short grant and its guard count no more than the whole request would. */
  lemma ShortCharge(page: nat, size: nat, want: nat)
    requires page > 0 && want <= size && (want < size ==> Multiple(want, page))
    ensures Charge(page, size, want) <= RoundedUp(size, page)
  {
    hide Multiple, RoundedUp;
    RoundUp(size, page);
    if want < size { NextMultiple(want, RoundedUp(size, page), page); }
  }

  /** What was asked for beyond the guard is free address space, by the one check or the other. */
  ghost predicate TailFree(r: Region, page: nat, size: nat, clear: (nat, nat) -> bool, above: nat -> Option<Piece>)
    requires page > 0
  {
    r.end < r.limit && PageEnd(page, r.start, size) > r.limit ==>
      clear(r.limit, PageEnd(page, r.start, size) - r.limit) || NoneMapped(above, r.start, size)
  }

  /** The kernel places every request where the whole span asked for is free. */
  ghost predicate Roomy(mmap: nat -> Placement, clear: (nat, nat) -> bool, rs: seq<Region>, page: nat, size: nat)
    requires page > 0
  {
    && (forall n: nat :: n <= size + page ==> mmap(n).At? && Vacant(rs, page, mmap(n).address, size))
    && (forall a, n :: clear(a, n))
  }

  lemma FreeMeans(rs: seq<Region>, above: nat -> Option<Piece>, at: nat, size: nat)
    requires Free(rs, above, at, size)
    ensures forall i :: 0 <= i < |rs| ==> rs[i].span <= at || at + size <= rs[i].start
    ensures NoneMapped(above, at, size)
  {}

  lemma RoundDown(x: nat, page: nat)
    requires page > 0
    ensures Multiple(RoundedDown(x, page), page) && (x >= page ==> RoundedDown(x, page) >= page)
    ensures RoundedDown(x, page) <= x < RoundedDown(x, page) + page
  {
    hide Times;
    Divided(x, page);
    TimesOrder(0, x / page, page);
    TimesZero(page);
  }

  lemma TimesZero(page: nat)
    ensures Times(0, page) == 0
  {}

  /** Consecutive multiples are a page apart. */
  lemma NextMultiple(a: nat, b: nat, page: nat)
    requires page > 0 && Multiple(a, page) && Multiple(b, page) && a < b
    ensures a + page <= b
  {
    hide Times;
    var j: nat :| Times(j, page) == a;
    var k: nat :| Times(k, page) == b;
    TimesOrder(j, k, page);
    TimesOrder(k, j, page);
  }

  ghost predicate Fitting(page: nat, start: nat, size: nat, want: nat) {
    && page > 0 && Multiple(start, page) && 0 < want <= size
    && (want < size ==> Multiple(want, page))
    && start + want + 2 * page <= U64_MAX
  }

  lemma GrantShape(page: nat, start: nat, size: nat, want: nat)
    requires Fitting(page, start, size, want)
    ensures var r := Grant(page, start, size, want);
            Shaped(r) && AlignedRegion(r, page) && IsGrant(r, page, start, size, want)
  {
    hide Multiple, PageEnd;
    PageEndExact(page, start, want);
    var own, asked := PageEnd(page, start, want), PageEnd(page, start, size);
    MultipleSelf(page);
    MultipleSum(own, page, page);
    if want < size {
      MultipleSum(start, want, page);
      PageEndLeast(page, start, want, start + want);
      PageEndBounds(page, start, size);
      if asked != 0 { NextMultiple(own, asked, page); }
    }
  }

  /** The recorded region stays clear of every other when the range asked for is vacant. */
  lemma VacantGrant(rs: seq<Region>, page: nat, start: nat, size: nat, want: nat)
    requires Fitting(page, start, size, want) && Vacant(rs, page, start, size)
    ensures var r := Grant(page, start, size, want);
            Shaped(r) && AlignedRegion(r, page) && IsGrant(r, page, start, size, want) && Clears(rs, r)
  {
    hide Multiple, PageEnd;
    GrantShape(page, start, size, want);
  }

  ghost predicate Clears(rs: seq<Region>, r: Region) {
    forall i :: 0 <= i < |rs| ==> rs[i].span <= r.start || r.span <= rs[i].start
  }

  lemma HoleVacant(rs: seq<Region>, page: nat, hole: nat, size: nat, want: nat)
    requires Fitting(page, hole, size, want) && AllAligned(rs, page)
    requires forall i :: 0 <= i < |rs| ==> rs[i].span <= hole || hole + size <= rs[i].start
    ensures var r := Grant(page, hole, size, want);
            Shaped(r) && AlignedRegion(r, page) && IsGrant(r, page, hole, size, want) && Clears(rs, r)
  {
    hide Multiple, PageEnd, AlignedRegion;
    GrantShape(page, hole, size, want);
    var r := Grant(page, hole, size, want);
    forall i | 0 <= i < |rs| ensures rs[i].span <= r.start || r.span <= rs[i].start {
      AlignedAt(rs, i, page);
      if rs[i].span > hole { HoleClear(page, hole, size, want, rs[i]); }
    }
  }

  lemma HoleClear(page: nat, hole: nat, size: nat, want: nat, s: Region)
    requires Fitting(page, hole, size, want) && AlignedRegion(s, page) && hole + size <= s.start
    ensures Grant(page, hole, size, want).span <= s.start
  {
    hide Multiple, PageEnd;
    PageEndExact(page, hole, want);
    if PageEnd(page, hole, size) != 0 { PageEndLeast(page, hole, size, s.start); }
    PageEndLeast(page, hole, want, s.start);
    if want < size {
      MultipleSum(hole, want, page);
      PageEndLeast(page, hole, want, hole + want);
      NextMultiple(hole + want, s.start, page);
    }
  }

  lemma GrantKeeps(rs: seq<Region>, r: Region, page: nat)
    requires AllShaped(rs) && Disjoint(rs) && AllAligned(rs, page) && Shaped(r) && AlignedRegion(r, page)
    requires Clears(rs, r)
    ensures AllShaped(rs + [r]) && Disjoint(rs + [r]) && AllAligned(rs + [r], page)
    ensures Total(rs + [r]) == Total(rs) + r.limit - r.start
  {
    hide Multiple, Total;
    TotalAppend(rs, r);
    var out := rs + [r];
    forall j, k | 0 <= j < |out| && 0 <= k < |out| && j != k ensures Apart(out[j], out[k]) {
      if j < |rs| && k < |rs| { assert Apart(rs[j], rs[k]); }
    }
  }

  lemma FloorAligned(page: nat, floor: nat)
    requires page > 0
    ensures floor > page ==> Multiple(floor - floor % page, page) && floor - floor % page >= page
    ensures Multiple(page, page)
  {
    MultipleSelf(page);
    RoundDown(floor, page);
  }

  lemma PageEndExact(page: nat, address: nat, size: nat)
    requires Placeable(page, address, size)
    ensures var e := PageEnd(page, address, size); e != 0 ==>
      address + size <= e < address + size + page && Multiple(e, page)
    ensures size > 0 ==> PageEnd(page, address, size) != 0
  {
    PageEndBounds(page, address, size);
    var x := address + size + (page - 1);
    assert x == x / page * page + x % page;
  }

  /** Ending a missing part earlier. */
  lemma ShrinkKeeps(rs: seq<Region>, i: nat, span: nat, page: nat)
    requires i < |rs| && AllShaped(rs) && Disjoint(rs) && AllAligned(rs, page) && Multiple(span, page)
    requires rs[i].limit <= span <= rs[i].span
    ensures var out := rs[i := rs[i].(span := span)];
            AllShaped(out) && Disjoint(out) && AllAligned(out, page) && Total(out) == Total(rs)
  {
    hide Multiple, Total;
    var out := rs[i := rs[i].(span := span)];
    TotalUpdate(rs, i, out[i]);
    forall j, k | 0 <= j < |out| && 0 <= k < |out| && j != k ensures Apart(out[j], out[k]) {
      assert Apart(rs[j], rs[k]);
    }
  }

  /** The missing part of a region. */
  function Lost(r: Region): Piece { Piece(r.limit, r.span) }

  predicate Hollow(r: Region) { r.start >= r.limit }

  /** `gone` lists the missing parts of the regions that map nothing, except those still `left`. */
  ghost predicate AllGone(rs: seq<Region>, left: seq<Region>, gone: seq<Piece>) {
    && (forall i :: 0 <= i < |rs| && Hollow(rs[i]) && rs[i] !in left ==> Lost(rs[i]) in gone)
    && (forall k :: 0 <= k < |gone| ==> LostBy(rs, gone[k]))
  }

  ghost predicate LostBy(rs: seq<Region>, p: Piece) {
    exists i :: 0 <= i < |rs| && Hollow(rs[i]) && p == Lost(rs[i])
  }

  lemma GoneNone(rs: seq<Region>)
    ensures AllGone(rs, rs[0..], [])
  {
    assert rs[0..] == rs;
  }

  lemma GonePast(rs: seq<Region>, regions: seq<Region>, i: nat, gone: seq<Piece>)
    requires i < |regions| && !Hollow(regions[i]) && AllGone(rs, regions[i..], gone)
    ensures AllGone(rs, regions[i + 1..], gone)
  {
    assert regions[i..] == [regions[i]] + regions[i + 1..];
  }

  lemma GoneDrop(rs: seq<Region>, regions: seq<Region>, i: nat, gone: seq<Piece>)
    requires i < |regions| && Hollow(regions[i]) && regions[i] in rs && AllGone(rs, regions[i..], gone)
    ensures AllGone(rs, Dropped(regions, i)[i..], gone + [Lost(regions[i])])
  {
    var r, left, more := regions[i], Dropped(regions, i)[i..], gone + [Lost(regions[i])];
    forall j | 0 <= j < |rs| && Hollow(rs[j]) && rs[j] !in left ensures Lost(rs[j]) in more {
      if rs[j] != r {
        DroppedRest(regions, i, rs[j]);
        assert Lost(rs[j]) in gone;
      } else {
        assert more[|gone|] == Lost(r);
      }
    }
    forall k | 0 <= k < |more| ensures LostBy(rs, more[k]) {
      if k < |gone| { assert more[k] == gone[k]; }
    }
  }

  lemma DroppedRest(regions: seq<Region>, i: nat, r: Region)
    requires i < |regions| && r != regions[i]
    ensures r in regions[i..] ==> r in Dropped(regions, i)[i..]
  {
    var out, last := Dropped(regions, i), |regions| - 1;
    if r in regions[i..] {
      var k :| 0 <= k < |regions[i..]| && regions[i..][k] == r;
      var at := if i + k == last then i else i + k;
      assert out[i..][at - i] == out[at] == r;
    }
  }

  lemma DropPrefix(rs: seq<Region>, i: nat)
    requires i < |rs|
    ensures forall j :: 0 <= j < i ==> Dropped(rs, i)[j] == rs[j]
  {}

  // ----- the walk over the pieces of a call -----

  ghost predicate IsAnchor(rs: seq<Region>, claims: seq<Claim>, address: nat, from: nat, to: nat) {
    || (exists i :: 0 <= i < |rs| && Owns(rs[i], address) && from == rs[i].start && to == rs[i].limit)
    || (!OwnAt(rs, address) && exists i :: 0 <= i < |claims| && claims[i] == Claim(from, to) && from <= address < to)
    || (!OwnAt(rs, address) && from == to == address && !ClaimedAt(claims, address))
  }

  ghost predicate AnyWithheld(rs: seq<Region>, from: nat, to: nat, address: nat, end: nat) {
    exists x :: address <= x < end && (Class(rs, from, to, x) == GUARD || Class(rs, from, to, x) == MISSING)
  }

  function WrappedEnd(address: nat, size: nat): nat {
    if address + size > U64_MAX then address + size - U64_MAX - 1 else address + size
  }

  ghost predicate MapWithheld(rs: seq<Region>, from: nat, to: nat, address: nat, size: nat) {
    address != 0 && AnyWithheld(rs, from, to, address, WrappedEnd(address, size))
  }

  /**
   The table still maps `x` after `[address, end)` was unmapped: it did before,
   and either `x` is outside the range or the table was full and the region's
   own mapping would have had to be split.
   */
  ghost predicate RemainsAt(rs: seq<Region>, address: nat, end: nat, x: int) {
    exists i :: 0 <= i < |rs| && Owns(rs[i], x)
      && (!(address <= x < end) || (|rs| >= MAX_REGIONS && x < HeldTo(rs[i], address, end)))
  }

  /**
   What a call on `[address, end)` issued and left behind: nothing if it asked
   for usable protection of withheld memory; otherwise, in ascending pieces,
   exactly the addresses it may touch. A carried-out unmap releases exactly its
   range from the table, but for what a full table cannot record.
   */
  ghost predicate Applied(op: Operation, usable: bool, address: nat, end: nat, kernel: Piece -> bool,
                          before: seq<Region>, after: seq<Region>, claims: seq<Claim>,
                          result: Answer, issued: seq<Piece>, from: nat, to: nat)
  {
    && from <= address <= to && IsAnchor(before, claims, address, from, to)
    && (if op == PROTECT && usable && AnyWithheld(before, from, to, address, end)
        then result == NoSuchMemory && issued == []
        else && (forall x: int :: Covered(issued, x) <==>
                   address <= x < end && Touchable(op, Class(before, from, to, x)))
             && Ascending(issued)
             && result == (if Carried(kernel, issued) then Success else Failure))
    && (op != UNMAP ==> after == before)
    && (op == UNMAP && result == Success ==> forall x: int :: OwnAt(after, x) <==> RemainsAt(before, address, end, x))
  }

  /** One call of `apply` on `[address, end)`, on the table `was`, begun in the mapping `[from, to)`. */
  datatype Job = Job(op: Operation, address: nat, end: nat, kernel: Piece -> bool, was: seq<Region>, from: nat, to: nat)

  /**
   The pieces an unmap took from the claims: every carried-out piece outside all
   regions, and beyond its range only missing parts of regions.
   */
  ghost predicate Sheds(j: Job, issued: seq<Piece>, shed: seq<Piece>) {
    && (j.op != UNMAP ==> shed == [])
    && (j.op == UNMAP ==> Lists(j, issued, shed))
    && (forall x: int :: Covered(shed, x) ==> j.address <= x < j.end || MissingAt(j.was, x))
  }

  ghost predicate Lists(j: Job, issued: seq<Piece>, shed: seq<Piece>) {
    forall k :: 0 <= k < |issued| && j.kernel(issued[k]) && Class(j.was, j.from, j.to, issued[k].lo) == OUTSIDE ==>
      issued[k] in shed
  }

  ghost predicate Shedding(j: Job, cursor: nat, rs: seq<Region>, issued: seq<Piece>, shed: seq<Piece>) {
    && Lists(j, issued, shed)
    && (forall x: int :: Covered(shed, x) ==> j.address <= x < cursor)
    && (forall x: int :: MissingAt(rs, x) ==> MissingAt(j.was, x) || j.address <= x < cursor)
  }

  lemma ShedsNothing(j: Job, issued: seq<Piece>)
    requires j.op != UNMAP
    ensures Sheds(j, issued, [])
  {}

  lemma SheddingStep(j: Job, cursor: nat, until: nat, kind: Part, region: nat, rs: seq<Region>, next: seq<Region>,
                     log: seq<Piece>, issued: seq<Piece>, lost: seq<Piece>, shed: seq<Piece>)
    requires j.address <= cursor < until && Shedding(j, cursor, rs, log, lost)
    requires Class(j.was, j.from, j.to, cursor) == kind && AllShaped(rs)
    requires issued == log || issued == log + [Piece(cursor, until)]
    requires shed == if kind == OUTSIDE && |issued| > |log| && j.kernel(Piece(cursor, until))
                     then lost + [Piece(cursor, until)]
                     else lost
    requires next == rs || (Within(rs, region, cursor, until) && next == Forgotten(rs, region, cursor, until))
    ensures Shedding(j, until, next, issued, shed)
  {
    hide Class, MissingAt, Forgotten, Covered;
    var piece := Piece(cursor, until);
    forall x: int | Covered(shed, x) ensures j.address <= x < until { CoverAppend(lost, piece, x); }
    forall x: int | MissingAt(next, x) ensures MissingAt(j.was, x) || j.address <= x < until {
      if next != rs { ForgetMissing(rs, region, cursor, until, x); }
    }
    forall k | 0 <= k < |issued| && j.kernel(issued[k]) && Class(j.was, j.from, j.to, issued[k].lo) == OUTSIDE
      ensures issued[k] in shed
    {
      if k < |log| { assert issued[k] == log[k]; }
    }
  }

  lemma ShedAll(j: Job, rs: seq<Region>, issued: seq<Piece>, shed: seq<Piece>, gone: seq<Piece>)
    requires j.op == UNMAP && Shedding(j, j.end, rs, issued, shed) && AllGone(rs, [], gone)
    ensures Sheds(j, issued, shed + gone)
  {
    hide Class;
    forall x: int | Covered(shed + gone, x) ensures j.address <= x < j.end || MissingAt(j.was, x) {
      CoverConcat(shed, gone, x);
      if Covered(gone, x) {
        var k :| 0 <= k < |gone| && gone[k].lo <= x < gone[k].hi;
        assert LostBy(rs, gone[k]);
        var i :| 0 <= i < |rs| && Hollow(rs[i]) && gone[k] == Lost(rs[i]);
        assert Lacks(rs[i], x) by { assert gone[k].lo == rs[i].limit && gone[k].hi == rs[i].span; }
      }
    }
  }

  /** The walk has dealt with `[address, cursor)` and left the rest as it was. */
  ghost predicate Walked(j: Job, cursor: nat, rs: seq<Region>, issued: seq<Piece>, shed: seq<Piece>, result: Answer) {
    && j.address <= cursor <= j.end
    && (forall x: int :: cursor <= x ==> Class(rs, j.from, j.to, x) == Class(j.was, j.from, j.to, x))
    && (forall x: int :: Covered(issued, x) <==>
          j.address <= x < cursor && Touchable(j.op, Class(j.was, j.from, j.to, x)))
    && Ascending(issued) && Below(issued, cursor)
    && result == (if Carried(j.kernel, issued) then Success else Failure)
    && (j.op != UNMAP ==> rs == j.was && shed == [])
    && (j.op == UNMAP ==> Shedding(j, cursor, rs, issued, shed))
    && (j.op == UNMAP && result == Success ==> Progress(j.was, rs, j.address, j.end, cursor))
  }

  lemma StartWalk(j: Job)
    requires AllShaped(j.was) && j.address <= j.end
    ensures Walked(j, j.address, j.was, [], [], Success)
  {
    hide Class;
    StartProgress(j.was, j.address, j.end, j.kernel);
  }

  lemma WalkEnd(j: Job, rs: seq<Region>, issued: seq<Piece>, shed: seq<Piece>, result: Answer)
    requires Walked(j, j.end, rs, issued, shed, result) && AllShaped(j.was)
    ensures forall x: int ::
      Covered(issued, x) <==> j.address <= x < j.end && Touchable(j.op, Class(j.was, j.from, j.to, x))
    ensures Ascending(issued) && result == (if Carried(j.kernel, issued) then Success else Failure)
    ensures j.op != UNMAP ==> rs == j.was && shed == []
    ensures j.op == UNMAP ==> Shedding(j, j.end, rs, issued, shed)
    ensures j.op == UNMAP && result == Success ==>
      forall x: int :: OwnAt(rs, x) <==> RemainsAt(j.was, j.address, j.end, x)
  {
    hide Class, Progress, Shedding, OwnAt, RemainsAt, Covered;
    if j.op == UNMAP { ProgressMeans(j.was, rs, j.address, j.end); }
  }

  /** A piece the call may not touch. */
  lemma WalkSkip(j: Job, cursor: nat, rs: seq<Region>, issued: seq<Piece>, shed: seq<Piece>, result: Answer,
                 kind: Part, until: nat, region: nat)
    requires Walked(j, cursor, rs, issued, shed, result) && IsPart(rs, cursor, j.end, j.from, j.to, kind, until, region)
    requires AllShaped(rs) && Disjoint(rs) && AllShaped(j.was) && !Touchable(j.op, kind)
    ensures Walked(j, until, rs, issued, shed, result)
  {
    hide Class, Progress, Shedding, Covered, Ascending, Below, Carried, Disjoint, AllShaped;
    ClassAhead(j, cursor, rs, issued, shed, result, kind, until, region);
    BelowLater(issued, cursor, until);
    CoverStep(issued, issued, j.op, j.was, j.from, j.to, j.address, cursor, until, kind);
    if j.op == UNMAP {
      SkipProgress(j.was, rs, j.from, j.to, j.address, j.end, cursor, until);
      SheddingStep(j, cursor, until, kind, region, rs, rs, issued, issued, shed, shed);
    }
  }

  /** The classes of the piece are those it had when the call began. */
  lemma ClassAhead(j: Job, cursor: nat, rs: seq<Region>, issued: seq<Piece>, shed: seq<Piece>, result: Answer,
                   kind: Part, until: nat, region: nat)
    requires Walked(j, cursor, rs, issued, shed, result) && IsPart(rs, cursor, j.end, j.from, j.to, kind, until, region)
    ensures forall x: int :: cursor <= x < until ==> Class(j.was, j.from, j.to, x) == kind
    ensures Class(j.was, j.from, j.to, cursor) == Class(rs, j.from, j.to, cursor) == kind
  {
    hide Class, Progress, Shedding, Covered, Ascending, Below, Carried;
  }

  /** A piece the kernel refused. */
  lemma WalkFail(j: Job, cursor: nat, rs: seq<Region>, issued: seq<Piece>, shed: seq<Piece>, result: Answer,
                 kind: Part, until: nat, region: nat)
    requires Walked(j, cursor, rs, issued, shed, result) && IsPart(rs, cursor, j.end, j.from, j.to, kind, until, region)
    requires AllShaped(rs) && Touchable(j.op, kind) && !j.kernel(Piece(cursor, until))
    ensures Walked(j, until, rs, issued + [Piece(cursor, until)], shed, Failure)
  {
    hide Class, Progress, Shedding, Covered, Ascending, Below, Carried, AllShaped;
    var more := issued + [Piece(cursor, until)];
    ClassAhead(j, cursor, rs, issued, shed, result, kind, until, region);
    LogStep(j.kernel, issued, Piece(cursor, until));
    CoverStep(issued, more, j.op, j.was, j.from, j.to, j.address, cursor, until, kind);
    if j.op == UNMAP { SheddingStep(j, cursor, until, kind, region, rs, rs, issued, more, shed, shed); }
  }

  /** A piece the kernel carried out. */
  lemma WalkDone(j: Job, cursor: nat, rs: seq<Region>, issued: seq<Piece>, shed: seq<Piece>, result: Answer,
                 kind: Part, until: nat, region: nat)
    requires Walked(j, cursor, rs, issued, shed, result) && IsPart(rs, cursor, j.end, j.from, j.to, kind, until, region)
    requires AllShaped(rs) && Disjoint(rs) && AllShaped(j.was) && Disjoint(j.was)
    requires AnchoredIn(j.was, j.address, j.from, j.to)
    requires Touchable(j.op, kind) && j.kernel(Piece(cursor, until))
    ensures Walked(j, until, if j.op == UNMAP then Released(rs, kind, region, cursor, until) else rs,
                   issued + [Piece(cursor, until)],
                   if j.op == UNMAP && kind == OUTSIDE then shed + [Piece(cursor, until)] else shed, result)
  {
    hide Class, Progress, Shedding, Covered, Ascending, Below, Carried, AllShaped, Disjoint, AnchoredIn, Forgotten;
    var piece := Piece(cursor, until);
    ClassAhead(j, cursor, rs, issued, shed, result, kind, until, region);
    LogStep(j.kernel, issued, piece);
    CoverStep(issued, issued + [piece], j.op, j.was, j.from, j.to, j.address, cursor, until, kind);
    if j.op == UNMAP {
      ReleaseWithin(rs, j.from, j.to, cursor, until, kind, region);
      ReleaseAhead(rs, j.from, j.to, cursor, until, kind, region);
      if kind == OUTSIDE {
        SkipProgress(j.was, rs, j.from, j.to, j.address, j.end, cursor, until);
        SheddingStep(j, cursor, until, kind, region, rs, rs, issued, issued + [piece], shed, shed + [piece]);
      } else {
        ReleaseProgress(j.was, rs, j.from, j.to, j.address, j.end, cursor, until, region);
        SheddingStep(j, cursor, until, kind, region, rs, Forgotten(rs, region, cursor, until), issued,
                     issued + [piece], shed, shed);
      }
    }
  }

  lemma PartTouches(rs: seq<Region>, cursor: nat, end: nat, from: nat, to: nat, kind: Part, until: nat, region: nat)
    requires AllShaped(rs) && Disjoint(rs) && IsPart(rs, cursor, end, from, to, kind, until, region)
    ensures cursor < until <= end && (kind == OUTSIDE <==> region == |rs|) && region <= |rs|
    ensures kind == GRANTED || kind == GUARD ==> Within(rs, region, cursor, until)
  {
    hide Disjoint;
    assert Class(rs, from, to, cursor) == kind;
    ReleaseWithin(rs, from, to, cursor, until, kind, region);
  }

  /** Forgetting a piece makes nothing else missing. */
  lemma ForgetMissing(rs: seq<Region>, i: nat, from: nat, to: nat, x: int)
    requires AllShaped(rs) && Within(rs, i, from, to)
    ensures MissingAt(Forgotten(rs, i, from, to), x) ==> MissingAt(rs, x) || from <= x < to
  {
    var out := Forgotten(rs, i, from, to);
    if j :| 0 <= j < |out| && Lacks(out[j], x) {
      if j < |rs| && !(from <= x < to) { assert Lacks(rs[j], x); }
    }
  }

  lemma Divided(x: nat, page: nat)
    requires page > 0
    ensures x == Times(x / page, page) + x % page && 0 <= x % page < page
  {}

  lemma RemainderMultiple(x: nat, page: nat)
    requires page > 0
    ensures x % page == 0 <==> Multiple(x, page)
  {
    hide Times;
    Divided(x, page);
    if Multiple(x, page) {
      var k: nat :| Times(k, page) == x;
      TimesOrder(k, x / page, page);
      TimesOrder(x / page, k, page);
    }
  }

  /** The issued pieces follow one another without overlap. */
  ghost predicate Ascending(issued: seq<Piece>) {
    && (forall k :: 0 <= k < |issued| ==> issued[k].lo < issued[k].hi)
    && (forall k, l :: 0 <= k < l < |issued| ==> issued[k].hi <= issued[l].lo)
  }

  ghost predicate Below(issued: seq<Piece>, cursor: nat) {
    forall k :: 0 <= k < |issued| ==> issued[k].hi <= cursor
  }

  /** The kernel carried out every issued piece. */
  ghost predicate Carried(kernel: Piece -> bool, issued: seq<Piece>) {
    forall k :: 0 <= k < |issued| ==> kernel(issued[k])
  }

  lemma LogStep(kernel: Piece -> bool, log: seq<Piece>, p: Piece)
    requires Ascending(log) && Below(log, p.lo) && p.lo < p.hi
    ensures Ascending(log + [p]) && Below(log + [p], p.hi)
    ensures Carried(kernel, log + [p]) <==> Carried(kernel, log) && kernel(p)
  {
    if Carried(kernel, log + [p]) {
      assert (log + [p])[|log|] == p;
      forall k | 0 <= k < |log| ensures kernel(log[k]) { assert (log + [p])[k] == log[k]; }
    }
  }

  lemma BelowLater(log: seq<Piece>, cursor: nat, until: nat)
    requires Below(log, cursor) && cursor <= until
    ensures Below(log, until)
  {}

  lemma AnchorAligned(rs: seq<Region>, claims: seq<Claim>, page: nat, address: nat, from: nat, to: nat)
    requires AllAligned(rs, page) && ClaimsOk(claims, page) && Multiple(address, page)
    requires IsAnchor(rs, claims, address, from, to)
    ensures Multiple(to, page)
  {
    hide Multiple, OwnAt;
    if i :| 0 <= i < |rs| && Owns(rs[i], address) && from == rs[i].start && to == rs[i].limit {
      AlignedAt(rs, i, page);
    }
  }

  lemma CoverStep(log: seq<Piece>, issued: seq<Piece>, op: Operation, was: seq<Region>, from: nat, to: nat,
                  address: nat, cursor: nat, until: nat, kind: Part)
    requires address <= cursor < until
    requires forall x: int :: Covered(log, x) <==> address <= x < cursor && Touchable(op, Class(was, from, to, x))
    requires forall x: int :: cursor <= x < until ==> Class(was, from, to, x) == kind
    requires issued == if Touchable(op, kind) then log + [Piece(cursor, until)] else log
    ensures forall x: int :: Covered(issued, x) <==> address <= x < until && Touchable(op, Class(was, from, to, x))
  {
    hide Class;
    forall x: int ensures Covered(issued, x) <==> address <= x < until && Touchable(op, Class(was, from, to, x)) {
      assert Covered(log, x) <==> address <= x < cursor && Touchable(op, Class(was, from, to, x));
      CoverAppend(log, Piece(cursor, until), x);
    }
  }

  lemma CoverConcat(log: seq<Piece>, more: seq<Piece>, x: int)
    ensures Covered(log + more, x) <==> Covered(log, x) || Covered(more, x)
  {
    if k :| 0 <= k < |log| && log[k].lo <= x < log[k].hi {
      assert (log + more)[k].lo <= x < (log + more)[k].hi;
    }
    if k :| 0 <= k < |more| && more[k].lo <= x < more[k].hi {
      assert (log + more)[|log| + k].lo <= x < (log + more)[|log| + k].hi;
    }
  }

  lemma CoverAppend(log: seq<Piece>, p: Piece, x: int)
    ensures Covered(log + [p], x) <==> Covered(log, x) || p.lo <= x < p.hi
  {
    if k :| 0 <= k < |log| && log[k].lo <= x < log[k].hi {
      assert (log + [p])[k].lo <= x < (log + [p])[k].hi;
    }
    if p.lo <= x < p.hi {
      assert (log + [p])[|log|].lo <= x < (log + [p])[|log|].hi;
    }
  }

  lemma ReleaseWithin(rs: seq<Region>, from: nat, to: nat, cursor: nat, until: nat, kind: Part, region: nat)
    requires AllShaped(rs) && Disjoint(rs) && cursor < until && Class(rs, from, to, cursor) == kind
    requires kind == GRANTED ==> region < |rs| && rs[region].start <= cursor && until <= rs[region].end
    requires kind == GUARD ==> region < |rs| && rs[region].end <= cursor && until <= rs[region].limit
    ensures kind == GRANTED || kind == GUARD ==> Within(rs, region, cursor, until)
  {}

  /** The table after one carried-out piece of an unmap. */
  function Released(rs: seq<Region>, kind: Part, region: nat, cursor: nat, until: nat): seq<Region>
    requires kind != OUTSIDE ==> region < |rs|
  {
    if kind == OUTSIDE then rs else Forgotten(rs, region, cursor, until)
  }

  lemma ReleaseAhead(rs: seq<Region>, from: nat, to: nat, cursor: nat, until: nat, kind: Part, region: nat)
    requires AllShaped(rs) && kind != MISSING && (kind != OUTSIDE ==> Within(rs, region, cursor, until))
    ensures forall x: int ::
      until <= x ==> Class(Released(rs, kind, region, cursor, until), from, to, x) == Class(rs, from, to, x)
  {
    hide OwnAt, GuardAt, MissingAt, Forgotten;
    if kind != OUTSIDE {
      forall x: int | until <= x { ForgetAhead(rs, region, cursor, until, x); }
    }
  }

  /** Granted in full, as the header describes a region that was not downsized. */
  predicate Full(r: Region) {
    r.start < r.end == r.limit == r.span
  }

  /**
   A full region that loses a piece stays full unless it loses its tail while
   keeping its front: then what was unmapped becomes a missing part of it.
   */
  lemma FullStaysFull(rs: seq<Region>, i: nat, from: nat, to: nat)
    requires Within(rs, i, from, to) && Full(rs[i]) && (rs[i].start < from || to < rs[i].limit)
    ensures Full(Forgotten(rs, i, from, to)[i]) <==> from <= rs[i].start || to < rs[i].limit
  {
    var out := Forgotten(rs, i, from, to);
    if rs[i].start < from && to >= rs[i].limit {
      assert out[i] == TailCut(rs[i], from);
    }
  }

  /** The header's description of a full region fails after the last page of three is unmapped. */
  lemma TrimmedRegionMisses()
    ensures Forgotten([Region(0x10000, 0x1C000, 0x1C000, 0x1C000)], 0, 0x18000, 0x1C000)
         == [Region(0x10000, 0x18000, 0x18000, 0x1C000)]
    ensures MissingAt([Region(0x10000, 0x18000, 0x18000, 0x1C000)], 0x18000)
  {
    assert Lacks([Region(0x10000, 0x18000, 0x18000, 0x1C000)][0], 0x18000);
  }

  /** With a budget of one page and a floor of two, the first reservation is counted beyond the budget. */
  method FloorExceeds() returns (b: Budget, result: Placement, granted: nat)
    ensures b.Valid() && result.At? && 0 < granted && b.budget == 0x4000 < b.reserved
  {
    hide Total, Multiple, Disjoint;
    b := new Budget(0x4000, 0x4000, 0, 0x8000);
    MultipleSelf(0x4000);
    AtMultiple();
    var mmap := (n: nat) => if n <= 0x14000 then At(0x1_0000_0000) else Refused;
    result, granted := b.Reserve(0x10000, mmap, (a, n) => true, 0, a => None, (a, n) => Refused);
  }

  lemma AtMultiple()
    ensures Multiple(0x1_0000_0000, 0x4000)
  {
    assert Times(0x40000, 0x4000) == 0x1_0000_0000;
  }

  /** 256 regions of two pages with a guard page each. */
  function Crowd(): seq<Region> {
    seq(MAX_REGIONS, (i: nat) => Region(0x20000 * i, 0x20000 * i + 0x8000, 0x20000 * i + 0xC000, 0x20000 * i + 0x10000))
  }

  /** In a full table, unmapping a downsized region from its second page to its limit leaves that page counted. */
  lemma FullTableHolds()
    ensures |Crowd()| == MAX_REGIONS && AllShaped(Crowd()) && Disjoint(Crowd())
    ensures RemainsAt(Crowd(), 0x4000, 0xC000, 0x4000) && !RemainsAt(Crowd(), 0x4000, 0xC000, 0x8000)
  {
    var rs := Crowd();
    assert rs[0] == Region(0, 0x8000, 0xC000, 0x10000);
    assert Owns(rs[0], 0x4000);
    forall i, j | 0 <= i < j < |rs| ensures rs[i].span <= rs[j].start {
      assert rs[i].span <= 0x20000 * (i + 1) <= rs[j].start;
    }
  }

  // ----- an unmap releases exactly its range -----

  /** No region's own mapping reaches across `x`. */
  ghost predicate NoneAcross(rs: seq<Region>, x: nat) {
    forall i :: 0 <= i < |rs| ==> !(rs[i].start < x < rs[i].limit)
  }

  /** Up to `cursor` the range is released, nothing else is, and at most the first piece can have split a region. */
  ghost predicate Split(was: seq<Region>, rs: seq<Region>, address: nat, cursor: nat) {
    && (forall x: int :: OwnAt(rs, x) <==> OwnAt(was, x) && !(address <= x < cursor))
    && (cursor == address ==> rs == was)
    && (cursor > address ==> NoneAcross(rs, cursor) && |rs| <= |was| + 1)
  }

  /** Without room to split, each region is cut on its own. */
  ghost predicate Unsplit(was: seq<Region>, rs: seq<Region>, address: nat, end: nat, cursor: nat) {
    && |rs| == |was|
    && forall k :: 0 <= k < |was| ==> rs[k] == Cut(was[k], address, cursor) && Stopped(was[k], address, end, cursor)
  }

  ghost predicate Progress(was: seq<Region>, rs: seq<Region>, address: nat, end: nat, cursor: nat) {
    if |was| < MAX_REGIONS then Split(was, rs, address, cursor) else Unsplit(was, rs, address, end, cursor)
  }

  lemma StartProgress(rs: seq<Region>, address: nat, end: nat, kernel: Piece -> bool)
    requires AllShaped(rs)
    ensures Progress(rs, rs, address, end, address) && Ascending([]) && Below([], address) && Carried(kernel, [])
    ensures forall x: int :: !Covered([], x)
  {}

  lemma ProgressMeans(was: seq<Region>, rs: seq<Region>, address: nat, end: nat)
    requires AllShaped(was) && address <= end
    ensures Progress(was, rs, address, end, end) ==> forall x: int :: OwnAt(rs, x) <==> RemainsAt(was, address, end, x)
  {
    if Progress(was, rs, address, end, end) {
      forall x: int ensures OwnAt(rs, x) <==> RemainsAt(was, address, end, x) {
        if |was| < MAX_REGIONS {
          SplitRemains(was, address, end, x);
        } else {
          UnsplitRemains(was, rs, address, end, x);
        }
      }
    }
  }

  lemma SplitRemains(was: seq<Region>, address: nat, end: nat, x: int)
    requires |was| < MAX_REGIONS
    ensures RemainsAt(was, address, end, x) <==> OwnAt(was, x) && !(address <= x < end)
  {}

  lemma UnsplitRemains(was: seq<Region>, rs: seq<Region>, address: nat, end: nat, x: int)
    requires AllShaped(was) && address <= end && |was| >= MAX_REGIONS && Unsplit(was, rs, address, end, end)
    ensures OwnAt(rs, x) <==> RemainsAt(was, address, end, x)
  {
    hide Owns, HeldTo, Cut, Stopped;
    if k :| 0 <= k < |rs| && Owns(rs[k], x) { CutOwns(was[k], address, end, x); }
    if k :| 0 <= k < |was| && Owns(was[k], x) && (!(address <= x < end) || x < HeldTo(was[k], address, end)) {
      CutOwns(was[k], address, end, x);
      assert Owns(rs[k], x);
    }
  }

  lemma SkipProgress(was: seq<Region>, rs: seq<Region>, from: nat, to: nat, address: nat, end: nat, cursor: nat,
                     until: nat)
    requires AllShaped(rs) && Disjoint(rs) && AllShaped(was) && cursor < until && address <= cursor
    requires forall x :: cursor <= x < until ==> Class(rs, from, to, x) == MISSING || Class(rs, from, to, x) == OUTSIDE
    ensures Progress(was, rs, address, end, cursor) ==> Progress(was, rs, address, end, until)
  {
    hide Class, OwnAt, Unsplit;
    forall x: int | cursor <= x < until ensures !OwnAt(rs, x) { UnownedClass(rs, from, to, x); }
    NoneAcrossAt(rs, until);
    if |was| >= MAX_REGIONS && Unsplit(was, rs, address, end, cursor) {
      UnsplitSkip(was, rs, address, end, cursor, until);
    }
  }

  lemma UnsplitSkip(was: seq<Region>, rs: seq<Region>, address: nat, end: nat, cursor: nat, until: nat)
    requires AllShaped(was) && address <= cursor < until && Unsplit(was, rs, address, end, cursor)
    requires forall x: int :: cursor <= x < until ==> !OwnAt(rs, x)
    ensures Unsplit(was, rs, address, end, until)
  {
    hide Owns, Cut, Stopped;
    forall k | 0 <= k < |was|
      ensures Cut(was[k], address, until) == rs[k] && Stopped(was[k], address, end, until)
    {
      forall x: int | cursor <= x < until ensures !Owns(was[k], x) {
        CutAhead(was[k], address, cursor, x);
        assert !OwnAt(rs, x);
      }
      CutSame(was[k], address, end, cursor, until);
    }
  }

  lemma UnownedClass(rs: seq<Region>, from: nat, to: nat, x: int)
    requires AllShaped(rs) && Disjoint(rs)
    requires Class(rs, from, to, x) == MISSING || Class(rs, from, to, x) == OUTSIDE
    ensures !OwnAt(rs, x)
  {
    forall i | 0 <= i < |rs| && Owns(rs[i], x) ensures Class(rs, from, to, x) in {GRANTED, GUARD} {
      OwnedClass(rs, i, from, to, x);
    }
  }

  /** With the byte below `x` unmapped, no mapping reaches across `x`. */
  lemma NoneAcrossAt(rs: seq<Region>, x: nat)
    requires x > 0 && !OwnAt(rs, x - 1)
    ensures NoneAcross(rs, x)
  {
    assert forall i :: 0 <= i < |rs| ==> !Owns(rs[i], x - 1);
  }

  lemma ReleaseProgress(was: seq<Region>, rs: seq<Region>, from: nat, to: nat, address: nat, end: nat,
                        cursor: nat, until: nat, region: nat)
    requires AllShaped(rs) && Disjoint(rs) && AllShaped(was) && Disjoint(was)
    requires address <= cursor < until <= end && Within(rs, region, cursor, until)
    requires Ends(rs[region], cursor, end, to, until) && AnchoredIn(was, address, from, to)
    ensures Progress(was, rs, address, end, cursor) ==>
      Progress(was, Forgotten(rs, region, cursor, until), address, end, until)
  {
    hide Split, Unsplit, Ends, AnchoredIn, Forgotten, OwnAt;
    if Progress(was, rs, address, end, cursor) {
      if |was| < MAX_REGIONS {
        SplitRelease(was, rs, address, cursor, until, region);
      } else {
        UnsplitRelease(was, rs, from, to, address, end, cursor, until, region);
      }
    }
  }

  /** A piece of a region's own mapping ends with its part, with the range, or with the mapping the call began in. */
  predicate Ends(r: Region, cursor: nat, end: nat, to: nat, until: nat) {
    && until <= (if cursor < r.end then r.end else r.limit)
    && (cursor < to ==> until == Lesser(if cursor < r.end then r.end else r.limit, Lesser(end, to)))
  }

  /** If the range begins inside a region's own mapping, that mapping is the one the call began in. */
  ghost predicate AnchoredIn(rs: seq<Region>, address: nat, from: nat, to: nat) {
    forall k :: 0 <= k < |rs| && Owns(rs[k], address) ==> from == rs[k].start && to == rs[k].limit
  }

  lemma AnchorIn(rs: seq<Region>, claims: seq<Claim>, address: nat, from: nat, to: nat)
    requires AllShaped(rs) && Disjoint(rs) && IsAnchor(rs, claims, address, from, to)
    ensures AnchoredIn(rs, address, from, to)
  {
    forall i, k | 0 <= i < |rs| && 0 <= k < |rs| && Owns(rs[i], address) && Owns(rs[k], address) ensures i == k {
      OwnerUnique(rs, i, k, address);
    }
  }

  lemma SplitRelease(was: seq<Region>, rs: seq<Region>, address: nat, cursor: nat, until: nat, region: nat)
    requires AllShaped(rs) && Disjoint(rs) && address <= cursor < until && Within(rs, region, cursor, until)
    requires |was| < MAX_REGIONS && Split(was, rs, address, cursor)
    ensures Split(was, Forgotten(rs, region, cursor, until), address, until)
  {
    hide OwnAt, Forgotten;
    assert !Unrecorded(rs, region, cursor, until);
    forall x: int { ForgetOwn(rs, region, cursor, until, x); }
    NoneAcrossAt(Forgotten(rs, region, cursor, until), until);
    ForgottenSize(rs, region, cursor, until);
  }

  lemma UnsplitRelease(was: seq<Region>, rs: seq<Region>, from: nat, to: nat, address: nat, end: nat,
                       cursor: nat, until: nat, region: nat)
    requires AllShaped(was) && Disjoint(was) && |was| >= MAX_REGIONS && Unsplit(was, rs, address, end, cursor)
    requires address <= cursor < until <= end && Within(rs, region, cursor, until)
    requires Ends(rs[region], cursor, end, to, until) && AnchoredIn(was, address, from, to)
    ensures Unsplit(was, Forgotten(rs, region, cursor, until), address, end, until)
  {
    hide AllShaped;
    var out := Forgotten(rs, region, cursor, until);
    ShapedAt(was, region);
    CutAhead(was[region], address, cursor, cursor);
    CutAhead(was[region], address, cursor, until - 1);
    CutEnds(was[region], address, end, to, cursor, until);
    CutStep(was[region], address, end, cursor, until);
    forall k | 0 <= k < |was| && k != region
      ensures out[k] == Cut(was[k], address, until) && Stopped(was[k], address, end, until)
    {
      ShapedAt(was, k);
      assert Apart(was[region], was[k]);
      CutSame(was[k], address, end, cursor, until);
    }
  }

  lemma ShapedAt(rs: seq<Region>, i: nat)
    requires AllShaped(rs) && i < |rs|
    ensures Shaped(rs[i])
  {}

  /** What `Ends` says of the region as cut so far holds of the region itself. */
  lemma CutEnds(r: Region, address: nat, end: nat, to: nat, cursor: nat, until: nat)
    requires Shaped(r) && address <= cursor < until <= end && Owns(r, cursor) && until <= r.limit
    requires Ends(Cut(r, address, cursor), cursor, end, to, until) && (r.start < address ==> to == r.limit)
    ensures until <= if cursor < r.end then r.end else r.limit
    ensures r.start < address ==> until == Lesser(if cursor < r.end then r.end else r.limit, end)
  {}

  lemma ForgottenSize(rs: seq<Region>, i: nat, from: nat, to: nat)
    requires Within(rs, i, from, to)
    ensures |rs| <= |Forgotten(rs, i, from, to)| <= |rs| + 1
    ensures from <= rs[i].start ==> |Forgotten(rs, i, from, to)| == |rs|
  {}
}
