/**
 The region table of the sparse memory: a sorted list of disjoint, coalesced
 intervals (runtime/GuestSparseMemory.c, `append`, `change`), specified by the
 function from addresses to attributes that it denotes.
 */
module SparseRegions {
  import opened GuestTypes

  const REGION_LIMIT: nat := 256

  datatype Attr = Attr(prot: Prot, maxprot: Prot)
  datatype Region = Region(start: nat, end: nat, attr: Attr)

  predicate Holds(r: Region, x: int) {
    r.start <= x < r.end
  }

  /** The attributes of address `x` according to the first `n` regions. */
  ghost function Lookup(rs: seq<Region>, n: nat, x: int): Option<Attr>
    requires n <= |rs|
  {
    if exists i :: 0 <= i < n && Holds(rs[i], x)
    then var i :| 0 <= i < n && Holds(rs[i], x); Some(rs[i].attr)
    else None
  }

  ghost function At(rs: seq<Region>, x: int): Option<Attr> {
    Lookup(rs, |rs|, x)
  }

  ghost predicate Sorted(rs: seq<Region>) {
    && (forall i :: 0 <= i < |rs| ==> rs[i].start < rs[i].end)
    && (forall i, j :: 0 <= i < j < |rs| ==> rs[i].end <= rs[j].start)
  }

  predicate Touching(r: Region, s: Region) {
    r.end == s.start && r.attr == s.attr
  }

  /** Page-aligned and inside `[base, end)`. */
  ghost predicate Bounded(rs: seq<Region>, base: nat, end: nat) {
    forall i :: 0 <= i < |rs| ==>
      base <= rs[i].start && rs[i].end <= end && rs[i].start % PAGE == 0 && rs[i].end % PAGE == 0
  }

  ghost predicate Coalesced(rs: seq<Region>) {
    forall i, j :: 0 <= i < j < |rs| && j == i + 1 ==> !Touching(rs[i], rs[j])
  }

  ghost predicate Canonical(rs: seq<Region>, base: nat, end: nat) {
    Sorted(rs) && Bounded(rs, base, end) && Coalesced(rs)
  }

  /** The order of two regions of a sorted table, whichever way round their indices are. */
  lemma Order(rs: seq<Region>, i: nat, j: nat)
    requires Sorted(rs) && i < |rs| && j < |rs|
    ensures i < j ==> rs[i].end <= rs[j].start
    ensures j < i ==> rs[j].end <= rs[i].start
  {}

  lemma LookupIs(rs: seq<Region>, n: nat, i: nat, x: int)
    requires Sorted(rs) && i < n <= |rs| && Holds(rs[i], x)
    ensures Lookup(rs, n, x) == Some(rs[i].attr)
  {
    var j :| 0 <= j < n && Holds(rs[j], x) && Lookup(rs, n, x) == Some(rs[j].attr);
    Order(rs, i, j);
  }

  /** Adding one more region to the looked-up prefix. */
  lemma LookupStep(rs: seq<Region>, n: nat, x: int)
    requires Sorted(rs) && n < |rs|
    ensures Lookup(rs, n + 1, x) == if Holds(rs[n], x) then Some(rs[n].attr) else Lookup(rs, n, x)
  {
    if Holds(rs[n], x) {
      LookupIs(rs, n + 1, n, x);
    } else if i :| 0 <= i < n && Holds(rs[i], x) {
      LookupIs(rs, n, i, x);
      LookupIs(rs, n + 1, i, x);
    }
  }

  // ----- the canonical table is unique -----

  /** A canonical table is determined by the function it denotes. */
  lemma CanonicalUnique(rs: seq<Region>, ss: seq<Region>, base: nat, end: nat)
    requires Canonical(rs, base, end) && Canonical(ss, base, end)
    requires forall x: int :: At(rs, x) == At(ss, x)
    ensures rs == ss
  {
    SamePrefix(rs, ss, Lesser(|rs|, |ss|));
    if |rs| < |ss| {
      ExtraRegion(rs, ss);
    } else if |ss| < |rs| {
      ExtraRegion(ss, rs);
    }
  }

  lemma ExtraRegion(rs: seq<Region>, ss: seq<Region>)
    requires Sorted(ss) && |rs| < |ss| && forall i :: 0 <= i < |rs| ==> rs[i] == ss[i]
    ensures At(rs, ss[|rs|].start) == None && At(ss, ss[|rs|].start).Some?
  {
    LookupIs(ss, |ss|, |rs|, ss[|rs|].start);
  }

  lemma {:induction false} SamePrefix(rs: seq<Region>, ss: seq<Region>, n: nat)
    requires Sorted(rs) && Coalesced(rs) && Sorted(ss) && Coalesced(ss)
    requires forall x: int :: At(rs, x) == At(ss, x)
    requires n <= |rs| && n <= |ss|
    ensures forall i :: 0 <= i < n ==> rs[i] == ss[i]
  {
    if n > 0 {
      SamePrefix(rs, ss, n - 1);
      SameRegion(rs, ss, n - 1);
    }
  }

  lemma SameRegion(rs: seq<Region>, ss: seq<Region>, k: nat)
    requires Sorted(rs) && Coalesced(rs) && Sorted(ss) && Coalesced(ss)
    requires forall x: int :: At(rs, x) == At(ss, x)
    requires k < |rs| && k < |ss| && forall i :: 0 <= i < k ==> rs[i] == ss[i]
    ensures rs[k] == ss[k]
  {
    StartAt(rs, ss, k);
    StartAt(ss, rs, k);
    EndAt(rs, ss, k);
    EndAt(ss, rs, k);
    LookupIs(rs, |rs|, k, rs[k].start);
    LookupIs(ss, |ss|, k, rs[k].start);
    assert At(rs, rs[k].start) == At(ss, rs[k].start);
  }

  lemma StartAt(rs: seq<Region>, ss: seq<Region>, k: nat)
    requires Sorted(rs) && Sorted(ss) && k < |rs| && k < |ss|
    requires forall x: int :: At(rs, x) == At(ss, x)
    requires forall i :: 0 <= i < k ==> rs[i] == ss[i]
    ensures ss[k].start <= rs[k].start
  {
    var x := rs[k].start;
    LookupIs(rs, |rs|, k, x);
    assert At(ss, x) == At(rs, x);
    var j :| 0 <= j < |ss| && Holds(ss[j], x);
    Order(ss, j, k);
    Order(rs, if j < k then j else k, k);
  }

  lemma EndAt(rs: seq<Region>, ss: seq<Region>, k: nat)
    requires Sorted(rs) && Sorted(ss) && Coalesced(ss) && k < |rs| && k < |ss|
    requires forall x: int :: At(rs, x) == At(ss, x)
    requires rs[k].start == ss[k].start
    ensures rs[k].end <= ss[k].end
  {
    if ss[k].end < rs[k].end {
      var x := ss[k].end;
      LookupIs(rs, |rs|, k, x);
      LookupIs(rs, |rs|, k, ss[k].start);
      LookupIs(ss, |ss|, k, ss[k].start);
      assert At(ss, ss[k].start) == At(rs, ss[k].start);
      assert At(ss, x) == At(rs, x);
      var j :| 0 <= j < |ss| && Holds(ss[j], x);
      LookupIs(ss, |ss|, j, x);
      Order(ss, j, k);
      Order(ss, j, if k + 1 < |ss| then k + 1 else k);
    }
  }

  // ----- appending a piece -----

  /** `append` without its limit: drop an empty piece, extend a touching last region, or add one. */
  function Append(next: seq<Region>, r: Region): (out: seq<Region>)
    ensures |next| <= |out| <= |next| + 1
  {
    if r.start == r.end then next
    else if next != [] && Touching(next[|next| - 1], r) then
      next[..|next| - 1] + [next[|next| - 1].(end := r.end)]
    else next + [r]
  }

  ghost predicate Fits(next: seq<Region>, r: Region, base: nat, end: nat) {
    && base <= r.start <= r.end <= end && r.start % PAGE == 0 && r.end % PAGE == 0
    && (next != [] ==> next[|next| - 1].end <= r.start)
  }

  lemma AppendCanonical(next: seq<Region>, r: Region, base: nat, end: nat)
    requires Canonical(next, base, end) && Fits(next, r, base, end) && r.start < r.end
    ensures Canonical(Append(next, r), base, end)
  {
    var out := Append(next, r);
    var last := |next| - 1;
    forall i, j | 0 <= i < j < |out| ensures out[i].end <= out[j].start && (j == i + 1 ==> !Touching(out[i], out[j])) {
      if j < |next| {
        Order(next, i, j);
        assert j == i + 1 ==> !Touching(next[i], next[j]);
      } else {
        Order(next, i, last);
      }
    }
  }

  lemma AppendAt(next: seq<Region>, r: Region, x: int)
    requires Sorted(next) && Sorted(Append(next, r)) && r.start < r.end
    ensures At(Append(next, r), x) == if Holds(r, x) then Some(r.attr) else At(next, x)
  {
    var out := Append(next, r);
    if Holds(r, x) {
      LookupIs(out, |out|, |out| - 1, x);
    } else if i :| 0 <= i < |next| && Holds(next[i], x) {
      LookupIs(next, |next|, i, x);
      assert Holds(out[i], x);
      LookupIs(out, |out|, i, x);
    } else {
      assert forall k :: 0 <= k < |out| && Holds(out[k], x) ==> k < |next| && Holds(next[k], x);
    }
  }

  lemma AppendFits(next: seq<Region>, r: Region, base: nat, end: nat)
    requires Canonical(next, base, end) && Fits(next, r, base, end)
    ensures Canonical(Append(next, r), base, end)
    ensures forall x: int :: At(Append(next, r), x) == if Holds(r, x) then Some(r.attr) else At(next, x)
    ensures r.start < r.end ==> Append(next, r) != [] && Append(next, r)[|Append(next, r)| - 1].end == r.end
  {
    hide Lookup;
    if r.start < r.end {
      AppendCanonical(next, r, base, end);
      forall x: int { AppendAt(next, r, x); }
    }
  }

  // ----- rewriting the table for one mapping call -----

  datatype Operation = MAP | UNMAP | PROTECT
  datatype Change = Change(op: Operation, start: nat, end: nat, attr: Attr)

  /** The attributes after the call, given those of the first `n` old regions. */
  ghost function Target(c: Change, was: seq<Region>, n: nat, x: int): Option<Attr>
    requires n <= |was|
  {
    var before := Lookup(was, n, x);
    if c.start <= x < c.end then
      match c.op
      case MAP => Some(c.attr)
      case UNMAP => None
      case PROTECT => if before.Some? then Some(Attr(c.attr.prot, before.value.maxprot)) else None
    else before
  }

  /** The piece that covers the whole changed interval. */
  function Piece(c: Change): Region { Region(c.start, c.end, c.attr) }

  function Before(r: Region, c: Change): Region { Region(r.start, Lesser(r.end, c.start), r.attr) }
  function After(r: Region, c: Change): Region { Region(Greater(r.start, c.end), r.end, r.attr) }
  function Inside(r: Region, c: Change): Region {
    Region(Greater(r.start, c.start), Lesser(r.end, c.end), Attr(c.attr.prot, r.attr.maxprot))
  }

  /** One turn of the rebuilding loop, without the size limit. */
  function Turn(r: Region, c: Change, next: seq<Region>, inserted: bool): (seq<Region>, bool) {
    if r.end <= c.start then (Append(next, r), inserted)
    else
      var ready := if inserted then next
                    else Append(if r.start < c.start then Append(next, Before(r, c)) else next, Piece(c));
      if r.start >= c.end then (Append(ready, r), true)
      else
        var left := if c.op != MAP && r.start < c.start then Append(ready, Before(r, c)) else ready;
        var middle := if c.op == PROTECT then Append(left, Inside(r, c)) else left;
        (if r.end > c.end then Append(middle, After(r, c)) else middle, true)
  }

  /** What the rebuilding loop leaves from region `i` on, without the size limit. */
  function Rewrite(was: seq<Region>, i: nat, c: Change, next: seq<Region>, inserted: bool): seq<Region>
    requires i <= |was|
    decreases |was| - i
  {
    if i == |was| then (if inserted then next else Append(next, Piece(c)))
    else
      var (next', inserted') := Turn(was[i], c, next, inserted);
      Rewrite(was, i + 1, c, next', inserted')
  }

  lemma TurnGrows(r: Region, c: Change, next: seq<Region>, inserted: bool)
    ensures |next| <= |Turn(r, c, next, inserted).0|
  {}

  lemma {:induction false} RewriteGrows(was: seq<Region>, i: nat, c: Change, next: seq<Region>, inserted: bool)
    requires i <= |was|
    ensures |next| <= |Rewrite(was, i, c, next, inserted)|
    decreases |was| - i
  {
    if i < |was| {
      var (next', inserted') := Turn(was[i], c, next, inserted);
      TurnGrows(was[i], c, next, inserted);
      RewriteGrows(was, i + 1, c, next', inserted');
    }
  }

  ghost predicate ChangeFits(c: Change, base: nat, end: nat) {
    base <= c.start < c.end <= end && c.start % PAGE == 0 && c.end % PAGE == 0
  }

  /** What holds before turn `i`. */
  ghost predicate Rebuilding(was: seq<Region>, i: nat, c: Change, next: seq<Region>, inserted: bool,
                             base: nat, end: nat)
  {
    && i <= |was|
    && Canonical(was, base, end) && Canonical(next, base, end) && ChangeFits(c, base, end)
    && (c.op != MAP ==> inserted)
    && (forall x: int :: At(next, x) == if inserted then Target(c, was, i, x) else Lookup(was, i, x))
    && (next != [] ==> || (i > 0 && next[|next| - 1].end <= was[i - 1].end)
                       || (c.op == MAP && inserted && next[|next| - 1].end <= c.end))
    && (!inserted ==> i > 0 ==> was[i - 1].end <= c.start)
    && (c.op == MAP && inserted ==> i > 0 && c.start < was[i - 1].end)
  }

  /** A region that ends before the changed interval is kept. */
  lemma TurnBefore(was: seq<Region>, i: nat, c: Change, next: seq<Region>, inserted: bool, base: nat, end: nat)
    requires i < |was| && Rebuilding(was, i, c, next, inserted, base, end)
    requires was[i].end <= c.start
    ensures Rebuilding(was, i + 1, c, Append(next, was[i]), inserted, base, end)
  {
    hide Lookup, Append;
    if i > 0 { Order(was, i - 1, i); }
    AppendFits(next, was[i], base, end);
    forall x: int { LookupStep(was, i, x); }
  }

  /** Opening the mapped interval at the first region that does not end before it. */
  lemma TurnOpens(was: seq<Region>, i: nat, c: Change, next: seq<Region>, base: nat, end: nat)
    requires i < |was| && Rebuilding(was, i, c, next, false, base, end)
    requires c.start < was[i].end
    ensures var left := if was[i].start < c.start then Append(next, Before(was[i], c)) else next;
            Opened(was, i, c, Append(left, Piece(c)), base, end)
  {
    hide Lookup, Append;
    var r := was[i];
    if i > 0 { Order(was, i - 1, i); }
    var left := next;
    if r.start < c.start {
      AppendFits(next, Before(r, c), base, end);
      left := Append(next, Before(r, c));
    }
    AppendFits(left, Piece(c), base, end);
    forall x: int ensures At(Append(left, Piece(c)), x) == OpenedAt(was, i, c, x) {
      LookupStep(was, i, x);
    }
  }

  /** The table between the two halves of a turn: everything below `c.end` that region `i` leaves there. */
  ghost function OpenedAt(was: seq<Region>, i: nat, c: Change, x: int): Option<Attr>
    requires i < |was|
  {
    if c.op == MAP && x < c.end then Target(c, was, i + 1, x) else Target(c, was, i, x)
  }

  ghost predicate Opened(was: seq<Region>, i: nat, c: Change, next: seq<Region>, base: nat, end: nat) {
    && i < |was|
    && Canonical(was, base, end) && Canonical(next, base, end) && ChangeFits(c, base, end)
    && (forall x: int :: At(next, x) == OpenedAt(was, i, c, x))
    && (next != [] ==> || next[|next| - 1].end <= was[i].start
                       || (c.op == MAP && next[|next| - 1].end <= c.end))
    && c.start < was[i].end
  }

  lemma TurnAlreadyOpen(was: seq<Region>, i: nat, c: Change, next: seq<Region>, base: nat, end: nat)
    requires i < |was| && Rebuilding(was, i, c, next, true, base, end)
    requires c.start < was[i].end
    ensures Opened(was, i, c, next, base, end)
  {
    hide Lookup, Append;
    if i > 0 { Order(was, i - 1, i); }
    forall x: int ensures At(next, x) == OpenedAt(was, i, c, x) {
      LookupStep(was, i, x);
    }
  }

  lemma TurnAfter(was: seq<Region>, i: nat, c: Change, next: seq<Region>, base: nat, end: nat)
    requires Opened(was, i, c, next, base, end)
    requires was[i].start >= c.end
    ensures Rebuilding(was, i + 1, c, Append(next, was[i]), true, base, end)
  {
    hide Lookup, Append;
    AppendFits(next, was[i], base, end);
    forall x: int { LookupStep(was, i, x); }
  }

  lemma TurnAcrossUnmap(was: seq<Region>, i: nat, c: Change, next: seq<Region>, base: nat, end: nat)
    requires Opened(was, i, c, next, base, end)
    requires was[i].start < c.end && c.op != PROTECT
    ensures var r := was[i];
            var left := if c.op != MAP && r.start < c.start then Append(next, Before(r, c)) else next;
            var out := if r.end > c.end then Append(left, After(r, c)) else left;
            Rebuilding(was, i + 1, c, out, true, base, end)
  {
    hide Lookup, Append;
    var r := was[i];
    var left := next;
    if c.op != MAP && r.start < c.start {
      AppendFits(next, Before(r, c), base, end);
      left := Append(next, Before(r, c));
    }
    var out := left;
    if r.end > c.end {
      AppendFits(left, After(r, c), base, end);
      out := Append(left, After(r, c));
    }
    forall x: int ensures At(out, x) == Target(c, was, i + 1, x) {
      LookupStep(was, i, x);
      LookupBelow(was, i, x);
    }
  }

  lemma AcrossProtectAt(was: seq<Region>, i: nat, c: Change, next: seq<Region>, x: int)
    requires i < |was| && Sorted(was) && c.op == PROTECT && c.start < c.end
    requires c.start < was[i].end && was[i].start < c.end && At(next, x) == Target(c, was, i, x)
    ensures Target(c, was, i + 1, x)
         == if Holds(After(was[i], c), x) then Some(was[i].attr)
            else if Holds(Inside(was[i], c), x) then Some(Inside(was[i], c).attr)
            else if Holds(Before(was[i], c), x) then Some(was[i].attr)
            else At(next, x)
  {
    LookupStep(was, i, x);
    LookupBelow(was, i, x);
  }

  lemma TurnAcrossProtect(was: seq<Region>, i: nat, c: Change, next: seq<Region>, base: nat, end: nat)
    requires Opened(was, i, c, next, base, end)
    requires was[i].start < c.end && c.op == PROTECT
    ensures var r := was[i];
            var left := if r.start < c.start then Append(next, Before(r, c)) else next;
            var middle := Append(left, Inside(r, c));
            var out := if r.end > c.end then Append(middle, After(r, c)) else middle;
            Rebuilding(was, i + 1, c, out, true, base, end)
  {
    hide Lookup, Append;
    var r := was[i];
    var left := next;
    if r.start < c.start {
      AppendFits(next, Before(r, c), base, end);
      left := Append(next, Before(r, c));
    }
    AppendFits(left, Inside(r, c), base, end);
    var middle := Append(left, Inside(r, c));
    var out := middle;
    if r.end > c.end {
      AppendFits(middle, After(r, c), base, end);
      out := Append(middle, After(r, c));
    }
    forall x: int ensures At(out, x) == Target(c, was, i + 1, x) {
      AcrossProtectAt(was, i, c, next, x);
    }
  }

  /** The first `i` regions hold nothing from region `i` on. */
  lemma LookupBelow(was: seq<Region>, i: nat, x: int)
    requires Sorted(was) && i < |was|
    ensures was[i].start <= x ==> Lookup(was, i, x) == None
  {}

  lemma TurnKeeps(was: seq<Region>, i: nat, c: Change, next: seq<Region>, inserted: bool, base: nat, end: nat)
    requires i < |was| && Rebuilding(was, i, c, next, inserted, base, end)
    ensures var (next', inserted') := Turn(was[i], c, next, inserted);
            Rebuilding(was, i + 1, c, next', inserted', base, end)
  {
    hide Lookup, Append, Rebuilding, Opened;
    var r := was[i];
    if r.end <= c.start {
      TurnBefore(was, i, c, next, inserted, base, end);
    } else {
      var ready := next;
      if inserted {
        TurnAlreadyOpen(was, i, c, next, base, end);
      } else {
        TurnOpens(was, i, c, next, base, end);
        ready := Append(if r.start < c.start then Append(next, Before(r, c)) else next, Piece(c));
      }
      if r.start >= c.end {
        TurnAfter(was, i, c, ready, base, end);
      } else if c.op == PROTECT {
        TurnAcrossProtect(was, i, c, ready, base, end);
      } else {
        TurnAcrossUnmap(was, i, c, ready, base, end);
      }
    }
  }

  /** The rebuilt table is canonical and denotes exactly interval override, removal or re-protection. */
  lemma {:induction false} RewriteMeans(was: seq<Region>, i: nat, c: Change, next: seq<Region>, inserted: bool,
                                        base: nat, end: nat)
    requires Rebuilding(was, i, c, next, inserted, base, end)
    ensures var out := Rewrite(was, i, c, next, inserted);
            && Canonical(out, base, end)
            && (forall x: int :: At(out, x) == Target(c, was, |was|, x))
    decreases |was| - i
  {
    hide Lookup, Append, Turn;
    if i < |was| {
      TurnKeeps(was, i, c, next, inserted, base, end);
      var (next', inserted') := Turn(was[i], c, next, inserted);
      RewriteMeans(was, i + 1, c, next', inserted', base, end);
    } else if !inserted {
      AppendFits(next, Piece(c), base, end);
      forall x: int ensures At(Append(next, Piece(c)), x) == Target(c, was, |was|, x) {}
    }
  }

  /** The table after a mapping call. */
  function Changed(rs: seq<Region>, c: Change): seq<Region> {
    Rewrite(rs, 0, c, [], c.op != MAP)
  }

  lemma ChangedMeans(rs: seq<Region>, c: Change, base: nat, end: nat)
    requires Canonical(rs, base, end) && ChangeFits(c, base, end)
    ensures Canonical(Changed(rs, c), base, end)
    ensures forall x: int :: At(Changed(rs, c), x) == Target(c, rs, |rs|, x)
  {
    RewriteMeans(rs, 0, c, [], c.op != MAP, base, end);
  }
}
