/** The paged bitmap that records which host clusters are claimed while an image is opened. */
module ClusterOwners {
  import opened Collections

  const PAGE_CLUSTERS: nat := 4096
  const MAX_PAGES: nat := 64 * 1024 * 1024 / (PAGE_CLUSTERS / 8)

  /** 64 words of 64 bits. */
  type Page = seq<seq<bool>>

  predicate WholePage(p: Page) {
    |p| == 64 && forall w :: 0 <= w < 64 ==> |p[w]| == 64
  }

  function Blank(): (p: Page)
    ensures WholePage(p)
    ensures forall w, b :: 0 <= w < 64 && 0 <= b < 64 ==> !p[w][b]
  {
    seq(64, _ => seq(64, _ => false))
  }

  predicate Bit(p: Page, k: nat)
    requires WholePage(p) && k < PAGE_CLUSTERS
  {
    p[k / 64][k % 64]
  }

  function SetBit(p: Page, k: nat): (r: Page)
    requires WholePage(p) && k < PAGE_CLUSTERS
    ensures WholePage(r)
  {
    p[k / 64 := p[k / 64][k % 64 := true]]
  }

  lemma SetBitOnly(p: Page, k: nat, h: nat)
    requires WholePage(p) && k < PAGE_CLUSTERS && h < PAGE_CLUSTERS
    ensures Bit(SetBit(p, k), h) == (h == k || Bit(p, h))
  {
  }

  type Pages = map<nat, Page>

  ghost predicate Whole(pages: Pages) {
    |pages| <= MAX_PAGES && forall i :: i in pages ==> WholePage(pages[i])
  }

  /** The set of clusters the pages stand for. */
  ghost function Members(pages: Pages): iset<nat>
    requires Whole(pages)
  {
    iset c: nat | c / PAGE_CLUSTERS in pages && Bit(pages[c / PAGE_CLUSTERS], c % PAGE_CLUSTERS)
  }

  predicate Between(a: nat, d: nat, b: nat) { a <= d < b }

  /** The clusters from `a` up to but not including `b`. */
  ghost function Span(a: nat, b: nat): iset<nat> { iset d: nat | Between(a, d, b) }

  /** Adding a blank page changes nothing. */
  lemma BlankPage(pages: Pages, i: nat)
    requires Whole(pages) && i !in pages && |pages| < MAX_PAGES
    ensures Whole(pages[i := Blank()]) && Members(pages[i := Blank()]) == Members(pages)
  {
    var pages' := pages[i := Blank()];
    assert pages'.Keys == pages.Keys + {i};
    assert |pages'| == |pages'.Keys| == |pages.Keys| + 1;
    forall c: nat
      ensures c in Members(pages') <==> c in Members(pages)
    {
    }
  }

  /** Setting the bit of `c` adds `c`. */
  lemma ClusterSet(pages: Pages, c: nat)
    requires Whole(pages) && c / PAGE_CLUSTERS in pages
    ensures var i := c / PAGE_CLUSTERS;
            var pages' := pages[i := SetBit(pages[i], c % PAGE_CLUSTERS)];
            Whole(pages') && Members(pages') == Members(pages) + iset{c}
  {
    var i := c / PAGE_CLUSTERS;
    var pages' := pages[i := SetBit(pages[i], c % PAGE_CLUSTERS)];
    assert pages'.Keys == pages.Keys;
    assert |pages'| == |pages'.Keys| == |pages.Keys| == |pages|;
    forall d: nat
      ensures d in Members(pages') <==> d in Members(pages) || d == c
    {
      if d / PAGE_CLUSTERS == i {
        SetBitOnly(pages[i], c % PAGE_CLUSTERS, d % PAGE_CLUSTERS);
      }
    }
  }

  /** No page is kept without a cluster in it. */
  ghost predicate Used(pages: Pages)
    requires Whole(pages)
  {
    forall i :: i in pages ==> exists c: nat :: c in Members(pages) && c / PAGE_CLUSTERS == i
  }

  lemma UsedMore(pages: Pages, pages': Pages, c: nat)
    requires Whole(pages) && Used(pages) && Whole(pages')
    requires pages'.Keys == pages.Keys + {c / PAGE_CLUSTERS} && Members(pages') == Members(pages) + iset{c}
    ensures Used(pages')
  {
    forall i | i in pages'
      ensures exists d: nat :: d in Members(pages') && d / PAGE_CLUSTERS == i
    {
      if i == c / PAGE_CLUSTERS {
        assert c in Members(pages');
      } else {
        assert i in pages;
        var d: nat :| d in Members(pages) && d / PAGE_CLUSTERS == i;
        assert d in Members(pages');
      }
    }
  }

  /** Pages run out only on an image with more clusters than all of them can hold. */
  lemma FullMeansMany(pages: Pages, c: nat, limit: nat)
    requires Whole(pages) && Used(pages) && |pages| == MAX_PAGES && c / PAGE_CLUSTERS !in pages
    requires c < limit && forall d: nat :: d in Members(pages) ==> d < limit
    ensures limit > MAX_PAGES * PAGE_CLUSTERS
  {
    if limit <= MAX_PAGES * PAGE_CLUSTERS {
      forall i | i in pages
        ensures i < MAX_PAGES
      {
        var d: nat :| d in Members(pages) && d / PAGE_CLUSTERS == i;
      }
      var all := pages.Keys + {c / PAGE_CLUSTERS};
      assert |all| == MAX_PAGES + 1;
      BelowSize(all, MAX_PAGES);
    }
  }

  class Owners {
    var pages: Pages

    constructor ()
      ensures Valid() && Set() == iset{}
    {
      pages := map[];
    }

    ghost predicate Valid()
      reads this
    {
      Whole(pages) && Used(pages)
    }

    ghost function Set(): iset<nat>
      requires Valid()
      reads this
    {
      Members(pages)
    }

    /** Claims the clusters of a region: refused exactly when one was claimed before, or pages run out. */
    method Claim(offset: nat, length: nat, cs: nat) returns (overlap: bool, full: bool, ghost at: nat)
      requires Valid() && cs > 0
      modifies this
      ensures Valid()
      ensures !overlap && !full ==>
        var span := Span(offset / cs, offset / cs + (length + cs - 1) / cs);
        span !! old(Set()) && Set() == old(Set()) + span
      ensures overlap ==> at in Span(offset / cs, offset / cs + (length + cs - 1) / cs) && at in old(Set())
      ensures full ==>
        && |pages| == MAX_PAGES && at / PAGE_CLUSTERS !in pages
        && at in Span(offset / cs, offset / cs + (length + cs - 1) / cs)
        && forall c: nat :: c in Set() ==>
             c in old(Set()) || c in Span(offset / cs, offset / cs + (length + cs - 1) / cs)
    {
      hide Whole, Used, Members;
      overlap, full, at := false, false, 0;
      var first, count := offset / cs, (length + cs - 1) / cs;
      var c := first;
      while c < first + count
        invariant first <= c <= first + count && !overlap && !full
        invariant Valid()
        invariant Set() == old(Set()) + Span(first, c)
        invariant Span(first, c) !! old(Set())
      {
        overlap, full := ClaimOne(c);
        if overlap || full {
          at := c;
          assert at in Span(first, first + count);
          return;
        }
        assert Span(first, c + 1) == Span(first, c) + iset{c};
        c := c + 1;
      }
    }

    method ClaimOne(c: nat) returns (overlap: bool, full: bool)
      requires Valid()
      modifies this
      ensures Valid()
      ensures full ==> !overlap && c !in old(Set()) && |pages| == MAX_PAGES && c / PAGE_CLUSTERS !in pages
      ensures !full ==> (overlap <==> c in old(Set()))
      ensures Set() == if overlap || full then old(Set()) else old(Set()) + iset{c}
    {
      var i := c / PAGE_CLUSTERS;
      if i !in pages {
        if |pages| >= MAX_PAGES {
          return false, true;
        }
        BlankPage(pages, i);
        pages := pages[i := Blank()];
      }
      if Bit(pages[i], c % PAGE_CLUSTERS) {
        return true, false;
      }
      ClusterSet(pages, c);
      pages := pages[i := SetBit(pages[i], c % PAGE_CLUSTERS)];
      UsedMore(old(pages), pages, c);
      return false, false;
    }
  }
}
