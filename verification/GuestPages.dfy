/**
 The page array of guest memory as values: a sorted sequence of pages, some of
 them demand-zero (runtime/GuestMemory.c).
 */
module GuestPages {
  import opened GuestTypes
  import opened Octets

  datatype Page = Page(address: nat, bytes: Option<seq<octet>>, prot: Prot, maxprot: Prot, jit: bool)

  ghost predicate GoodPage(p: Page) {
    p.address % PAGE == 0 && p.address + PAGE <= U64_MAX && (p.bytes.Some? ==> |p.bytes.value| == PAGE)
  }

  predicate Sorted(pages: seq<Page>) {
    forall i, j :: 0 <= i < j < |pages| ==> pages[i].address < pages[j].address
  }

  ghost predicate Good(pages: seq<Page>) {
    Sorted(pages) && forall i :: 0 <= i < |pages| ==> GoodPage(pages[i])
  }

  /** The index of the first page at or above `a`. */
  function Lower(pages: seq<Page>, a: nat): (i: nat)
    ensures i <= |pages|
    ensures i < |pages| ==> pages[i].address >= a
    ensures forall k :: 0 <= k < i ==> pages[k].address < a
  {
    if pages == [] || pages[0].address >= a then 0 else 1 + Lower(pages[1..], a)
  }

  lemma LowerUnique(pages: seq<Page>, a: nat, i: nat)
    requires i <= |pages| && (forall k :: 0 <= k < i ==> pages[k].address < a)
    requires (i < |pages| ==> pages[i].address >= a)
    ensures i == Lower(pages, a)
  {
  }

  lemma LowerSplits(pages: seq<Page>, a: nat)
    requires Sorted(pages)
    ensures forall k :: Lower(pages, a) <= k < |pages| ==> pages[k].address >= a
  {
  }

  lemma LowerOrdered(pages: seq<Page>, a: nat, b: nat)
    requires Sorted(pages) && a <= b
    ensures Lower(pages, a) <= Lower(pages, b)
  {
  }

  function PageAt(pages: seq<Page>, base: nat): (p: Option<Page>)
    ensures p.Some? ==> p.value in pages && p.value.address == base
  {
    var i := Lower(pages, base);
    if i < |pages| && pages[i].address == base then Some(pages[i]) else None
  }

  /** A page is found exactly where it is stored. */
  lemma PageAtIndex(pages: seq<Page>, k: nat)
    requires Sorted(pages) && k < |pages|
    ensures Lower(pages, pages[k].address) == k && PageAt(pages, pages[k].address) == Some(pages[k])
  {
    LowerUnique(pages, pages[k].address, k);
  }

  lemma PageAtNone(pages: seq<Page>, base: nat)
    requires Sorted(pages)
    ensures PageAt(pages, base).None? <==> forall k :: 0 <= k < |pages| ==> pages[k].address != base
  {
    forall k | 0 <= k < |pages| && pages[k].address == base ensures PageAt(pages, base).Some? { PageAtIndex(pages, k); }
  }

  /** In a sorted array a page is stored exactly when looking up its address finds it. */
  lemma PageAtIff(pages: seq<Page>, p: Page)
    requires Sorted(pages)
    ensures p in pages <==> PageAt(pages, p.address) == Some(p)
  {
    if p in pages {
      var k :| 0 <= k < |pages| && pages[k] == p;
      PageAtIndex(pages, k);
    }
  }

  // ----- mapping -----

  /** `count` demand-zero pages from `a`. */
  function Fresh(a: nat, count: nat, prot: Prot, maxprot: Prot, jit: bool): seq<Page> {
    seq(count, i requires 0 <= i < count => Page(a + i * PAGE, None, prot, maxprot, jit))
  }

  /** The pages below `a`, then `middle`, then the pages from `b` on. */
  function Spliced(pages: seq<Page>, a: nat, middle: seq<Page>, b: nat): seq<Page> {
    pages[..Lower(pages, a)] + middle + pages[Lower(pages, b)..]
  }

  function Mapped(pages: seq<Page>, a: nat, n: nat, prot: Prot, maxprot: Prot, jit: bool): seq<Page> {
    Spliced(pages, a, Fresh(a, n / PAGE, prot, maxprot, jit), a + n)
  }

  function Without(pages: seq<Page>, a: nat, n: nat): seq<Page> {
    Spliced(pages, a, [], a + n)
  }

  function Protected(pages: seq<Page>, first: nat, last: nat, prot: Prot): seq<Page>
    requires first <= last <= |pages|
  {
    seq(|pages|, i requires 0 <= i < |pages| => if first <= i < last then pages[i].(prot := prot) else pages[i])
  }

  predicate In(x: nat, a: nat, n: nat) {
    a <= x < a + n
  }

  ghost predicate Between(pages: seq<Page>, a: nat, b: nat) {
    forall p :: p in pages ==> a <= p.address < b
  }

  lemma GoodConcat(x: seq<Page>, y: seq<Page>, a: nat, m: nat, b: nat)
    requires Good(x) && Good(y) && Between(x, a, m) && Between(y, m, b) && a <= m <= b
    ensures Good(x + y) && Between(x + y, a, b)
  {
    var z := x + y;
    forall i | 0 <= i < |z| ensures GoodPage(z[i]) {
      hide GoodPage;
      assert z[i] == if i < |x| then x[i] else y[i - |x|];
    }
    forall i, j | 0 <= i < j < |z| ensures z[i].address < z[j].address {
      hide GoodPage;
      if i < |x| <= j {
        assert z[i] in x && z[j] in y;
      }
    }
  }

  lemma GoodPart(pages: seq<Page>, a: nat)
    requires Good(pages)
    ensures Good(pages[..Lower(pages, a)]) && Between(pages[..Lower(pages, a)], 0, a)
    ensures Good(pages[Lower(pages, a)..]) && forall p :: p in pages[Lower(pages, a)..] ==> p.address >= a
  {
    hide GoodPage;
    LowerSplits(pages, a);
  }

  lemma PartIff(pages: seq<Page>, a: nat, p: Page)
    requires Good(pages)
    ensures p in pages[..Lower(pages, a)] <==> p in pages && p.address < a
    ensures p in pages[Lower(pages, a)..] <==> p in pages && p.address >= a
  {
    hide GoodPage;
    LowerSplits(pages, a);
  }

  lemma SplicedGood(pages: seq<Page>, a: nat, middle: seq<Page>, b: nat)
    requires Good(pages) && Good(middle) && a <= b && Between(middle, a, b)
    ensures Good(Spliced(pages, a, middle, b))
  {
    hide Good, Lower;
    GoodPart(pages, a);
    GoodPart(pages, b);
    GoodConcat(pages[..Lower(pages, a)], middle, 0, a, b);
    var rest := pages[Lower(pages, b)..];
    var top := Top(rest, b);
    GoodConcat(pages[..Lower(pages, a)] + middle, rest, 0, b, top);
  }

  lemma Top(pages: seq<Page>, b: nat) returns (top: nat)
    requires Good(pages) && forall p :: p in pages ==> p.address >= b
    ensures top >= b && Between(pages, b, top)
  {
    hide GoodPage;
    top := if pages == [] then b else pages[|pages| - 1].address + 1;
  }

  /** Outside the spliced range pages are found as before, inside as in the middle. */
  lemma SplicedMeans(pages: seq<Page>, a: nat, middle: seq<Page>, b: nat, base: nat)
    requires Good(pages) && Good(middle) && a <= b && Between(middle, a, b)
    ensures PageAt(Spliced(pages, a, middle, b), base)
         == if a <= base < b then PageAt(middle, base) else PageAt(pages, base)
  {
    var r := Spliced(pages, a, middle, b);
    SplicedGood(pages, a, middle, b);
    var source := if a <= base < b then middle else pages;
    assert Sorted(r) && Sorted(source);
    hide Good, Lower, Sorted, PageAt;
    forall p: Page | p.address == base ensures p in r <==> p in source {
      PartIff(pages, a, p);
      PartIff(pages, b, p);
    }
    SameLookup(r, source, base);
  }

  lemma SameLookup(r: seq<Page>, s: seq<Page>, base: nat)
    requires Sorted(r) && Sorted(s) && forall p: Page :: p.address == base ==> (p in r <==> p in s)
    ensures PageAt(r, base) == PageAt(s, base)
  {
    hide Sorted;
    if PageAt(r, base).Some? { PageAtIff(s, PageAt(r, base).value); }
    if PageAt(s, base).Some? { PageAtIff(r, PageAt(s, base).value); }
  }

  /** Unmapping removes exactly the pages of the range. */
  lemma WithoutMeans(pages: seq<Page>, a: nat, n: nat, base: nat)
    requires Good(pages)
    ensures Good(Without(pages, a, n))
    ensures PageAt(Without(pages, a, n), base) == if In(base, a, n) then None else PageAt(pages, base)
  {
    hide Lower, Spliced, GoodPage;
    SplicedGood(pages, a, [], a + n);
    SplicedMeans(pages, a, [], a + n, base);
    PageAtNone([], base);
  }

  lemma FreshGood(a: nat, n: nat, prot: Prot, maxprot: Prot, jit: bool)
    requires Aligned(a, n)
    ensures Good(Fresh(a, n / PAGE, prot, maxprot, jit)) && Between(Fresh(a, n / PAGE, prot, maxprot, jit), a, a + n)
  {
    var f := Fresh(a, n / PAGE, prot, maxprot, jit);
    forall i | 0 <= i < |f| ensures GoodPage(f[i]) && a <= f[i].address < a + n { FreshFits(a, n, i); }
  }

  lemma FreshFits(a: nat, n: nat, k: nat)
    requires Aligned(a, n) && k < n / PAGE
    ensures (a + k * PAGE) % PAGE == 0 && a + k * PAGE + PAGE <= a + n
  {
  }

  lemma PageIndex(a: nat, n: nat, base: nat) returns (k: nat)
    requires Aligned(a, n) && base % PAGE == 0 && In(base, a, n)
    ensures k < n / PAGE && base == a + k * PAGE
  {
    k := (base - a) / PAGE;
  }

  lemma FreshAt(a: nat, n: nat, prot: Prot, maxprot: Prot, jit: bool, base: nat)
    requires Aligned(a, n) && base % PAGE == 0 && In(base, a, n)
    ensures PageAt(Fresh(a, n / PAGE, prot, maxprot, jit), base) == Some(Page(base, None, prot, maxprot, jit))
  {
    hide GoodPage, Lower, Sorted;
    FreshGood(a, n, prot, maxprot, jit);
    var k := PageIndex(a, n, base);
    PageAtIndex(Fresh(a, n / PAGE, prot, maxprot, jit), k);
  }

  /** Mapping overrides exactly the pages of the range. */
  lemma MappedMeans(pages: seq<Page>, a: nat, n: nat, prot: Prot, maxprot: Prot, jit: bool, base: nat)
    requires Good(pages) && Aligned(a, n) && base % PAGE == 0
    ensures Good(Mapped(pages, a, n, prot, maxprot, jit))
    ensures PageAt(Mapped(pages, a, n, prot, maxprot, jit), base) ==
            if In(base, a, n) then Some(Page(base, None, prot, maxprot, jit)) else PageAt(pages, base)
  {
    hide Lower, Spliced, Good, Fresh, PageAt, Between;
    FreshGood(a, n, prot, maxprot, jit);
    SplicedGood(pages, a, Fresh(a, n / PAGE, prot, maxprot, jit), a + n);
    SplicedMeans(pages, a, Fresh(a, n / PAGE, prot, maxprot, jit), a + n, base);
    if In(base, a, n) { FreshAt(a, n, prot, maxprot, jit, base); }
  }

  /** Protecting changes the protection of exactly the pages of the range. */
  lemma ProtectedMeans(pages: seq<Page>, a: nat, n: nat, prot: Prot, base: nat)
    requires Good(pages)
    ensures Lower(pages, a) <= Lower(pages, a + n)
    ensures Good(Protected(pages, Lower(pages, a), Lower(pages, a + n), prot))
    ensures PageAt(Protected(pages, Lower(pages, a), Lower(pages, a + n), prot), base) ==
            if PageAt(pages, base).Some? && In(base, a, n) then Some(PageAt(pages, base).value.(prot := prot))
            else PageAt(pages, base)
  {
    hide Lower, GoodPage, Protected, PageAt, Good;
    GoodSorted(pages);
    LowerOrdered(pages, a, a + n);
    var r := Protected(pages, Lower(pages, a), Lower(pages, a + n), prot);
    ProtectedGood(pages, Lower(pages, a), Lower(pages, a + n), prot);
    GoodSorted(r);
    PageAtNone(pages, base);
    PageAtNone(r, base);
    if k :| 0 <= k < |pages| && pages[k].address == base {
      PageAtIndex(pages, k);
      PageAtIndex(r, k);
      LowerPlace(pages, a, k);
      LowerPlace(pages, a + n, k);
    }
  }

  lemma GoodSorted(pages: seq<Page>)
    requires Good(pages)
    ensures Sorted(pages)
  {}

  lemma ProtectedGood(pages: seq<Page>, first: nat, last: nat, prot: Prot)
    requires Good(pages) && first <= last <= |pages|
    ensures var r := Protected(pages, first, last, prot);
            && Good(r) && |r| == |pages| && forall i :: 0 <= i < |pages| ==>
                 r[i] == (if first <= i < last then pages[i].(prot := prot) else pages[i])
  {}

  /** A page lies at or behind the bound of an address exactly when its own address is no lower. */
  lemma LowerPlace(pages: seq<Page>, a: nat, k: nat)
    requires Sorted(pages) && k < |pages|
    ensures Lower(pages, a) <= k <==> a <= pages[k].address
  {
    LowerSplits(pages, a);
  }
}
