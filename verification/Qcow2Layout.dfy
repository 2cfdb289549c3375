/** Open-time validation: what is accepted is consistent, and what is called corrupt is not. */
module Qcow2Layout {
  import opened Arith
  import opened Bytes
  import opened ClusterOwners
  import opened Qcow2Meta
  import opened Qcow2Handle
  import opened Qcow2Image

  /** `Unchecked`: a read failed or the bitmap ran out of pages, so nothing is known. */
  datatype Verdict = Accepted | Corrupt | Unchecked

  // The image that the tables describe.

  function U64At(f: seq<byte>, p: nat): (r: u64)
    ensures r == BeAt(f, p, 8)
  {
    if p + 8 <= |f| then
      ToFromBe(f[p..p + 8]);
      Pow256Values();
      FromBe(f[p..p + 8])
    else 0
  }

  function StoredTable(f: seq<byte>, off: nat, n: nat): (r: seq<u64>)
    ensures |r| == n
    ensures forall j :: 0 <= j < n ==> r[j] == BeAt(f, off + 8 * j, 8)
  {
    seq(n, j requires 0 <= j < n => U64At(f, off + 8 * j))
  }

  /** The metadata with every L2 table as it is stored. */
  ghost function Described(g: Geometry, l1: seq<u64>, rt: seq<u64>, f: seq<byte>): Meta {
    Meta(g, l1, rt, map i: nat | i < |l1| && l1[i] != 0 :: StoredTable(f, ClusterOffset(l1[i]), g.L2n()))
  }

  // Bookkeeping.

  /** Cluster `c` belongs to `o`. */
  ghost predicate Covers(m: Meta, o: Owner, c: nat) {
    m.Live(o) && m.Off(o) <= c * m.g.cs < m.Off(o) + m.Len(o)
  }

  /** `claimed` is exactly what the owners in `seen` cover; they lie in the file and are pairwise apart. */
  ghost predicate Tracked(m: Meta, claimed: iset<nat>, seen: set<Owner>, n: nat) {
    && m.g.cs > 0
    && (forall o :: o in seen ==> m.Live(o) && m.Off(o) % m.g.cs == 0 && 0 < m.Len(o) && m.Off(o) + m.Len(o) <= n)
    && (forall o, c: nat :: o in seen && Covers(m, o, c) ==> c in claimed)
    && (forall c: nat :: c in claimed ==> exists o :: o in seen && Covers(m, o, c))
    && (forall o, p :: o in seen && p in seen && o != p ==> Apart(m.Off(o), m.Len(o), m.Off(p), m.Len(p)))
  }

  /** The clusters that a claim of an aligned region visits are those whose first byte is in it. */
  lemma RegionSpan(offset: nat, length: nat, cs: nat, c: nat)
    requires cs > 0 && offset % cs == 0
    ensures c in Span(offset / cs, offset / cs + (length + cs - 1) / cs) <==> offset <= c * cs < offset + length
  {
    var a, k := offset / cs, (length + cs - 1) / cs;
    assert offset == cs * a;
    assert length + cs - 1 == cs * k + (length + cs - 1) % cs;
    if c < a {
      MulStep(cs, a, c);
    } else {
      var d := c - a;
      assert c * cs == offset + cs * d;
      if d < k {
        MulStep(cs, k, d);
      } else if d > k {
        MulStep(cs, d, k);
      }
    }
  }

  /** Aligned regions that overlap share the first byte of a cluster. */
  lemma OverlapShares(a: nat, la: nat, b: nat, lb: nat, cs: nat) returns (c: nat)
    requires cs > 0 && a % cs == 0 && b % cs == 0 && 0 < la && 0 < lb && !Apart(a, la, b, lb)
    ensures a <= c * cs < a + la && b <= c * cs < b + lb
  {
    c := if a < b then b / cs else a / cs;
    Exactly(a, cs);
    Exactly(b, cs);
  }

  lemma Exactly(a: nat, cs: nat)
    requires cs > 0 && a % cs == 0
    ensures a / cs * cs == a
  {
  }

  lemma TrackMore(m: Meta, claimed: iset<nat>, seen: set<Owner>, n: nat, o: Owner, span: iset<nat>)
    requires m.g.cs > 0 && Tracked(m, claimed, seen, n)
    requires m.Live(o) && m.Off(o) % m.g.cs == 0 && 0 < m.Len(o) && m.Off(o) + m.Len(o) <= n
    requires span == Span(m.Off(o) / m.g.cs, m.Off(o) / m.g.cs + (m.Len(o) + m.g.cs - 1) / m.g.cs)
    requires span !! claimed
    ensures Tracked(m, claimed + span, seen + {o}, n)
  {
    forall c: nat
      ensures c in span <==> Covers(m, o, c)
    {
      RegionSpan(m.Off(o), m.Len(o), m.g.cs, c);
    }
    forall p | p in seen && p != o
      ensures Apart(m.Off(o), m.Len(o), m.Off(p), m.Len(p))
    {
      if !Apart(m.Off(o), m.Len(o), m.Off(p), m.Len(p)) {
        var c := OverlapShares(m.Off(o), m.Len(o), m.Off(p), m.Len(p), m.g.cs);
        assert Covers(m, p, c) && Covers(m, o, c);
      }
    }
    forall c: nat | c in claimed + span
      ensures exists p :: p in seen + {o} && Covers(m, p, c)
    {
      if c in span {
        assert o in seen + {o} && Covers(m, o, c);
      } else {
        var p :| p in seen && Covers(m, p, c);
        assert p in seen + {o};
      }
    }
  }

  /** A second claim of a cluster breaks ownership. */
  lemma ClaimedTwice(m: Meta, claimed: iset<nat>, seen: set<Owner>, n: nat, o: Owner, c: nat)
    requires m.g.cs > 0 && Tracked(m, claimed, seen, n)
    requires m.Live(o) && m.Off(o) % m.g.cs == 0 && o !in seen
    requires c in claimed
    requires c in Span(m.Off(o) / m.g.cs, m.Off(o) / m.g.cs + (m.Len(o) + m.g.cs - 1) / m.g.cs)
    ensures !m.Owned(n)
  {
    RegionSpan(m.Off(o), m.Len(o), m.g.cs, c);
    var p :| p in seen && Covers(m, p, c);
    assert !Apart(m.Off(o), m.Len(o), m.Off(p), m.Len(p));
  }

  /** The image has more clusters than the bitmap may hold. */
  predicate OverBitmap(fileSize: nat, cs: nat) { fileSize > MAX_PAGES * PAGE_CLUSTERS * cs }

  lemma FullMeansLarge(m: Meta, pages: Pages, claimed: iset<nat>, seen: set<Owner>, n: nat, o: Owner, at: nat)
    requires m.g.cs > 0 && Tracked(m, claimed, seen, n)
    requires m.Live(o) && m.Off(o) % m.g.cs == 0 && m.Off(o) + m.Len(o) <= n
    requires Whole(pages) && Used(pages) && |pages| == MAX_PAGES && at / PAGE_CLUSTERS !in pages
    requires at in Span(m.Off(o) / m.g.cs, m.Off(o) / m.g.cs + (m.Len(o) + m.g.cs - 1) / m.g.cs)
    requires forall c: nat :: c in Members(pages) ==>
      c in claimed || c in Span(m.Off(o) / m.g.cs, m.Off(o) / m.g.cs + (m.Len(o) + m.g.cs - 1) / m.g.cs)
    ensures OverBitmap(n, m.g.cs)
  {
    hide Whole, Used, Members, Tracked, Span;
    if !OverBitmap(n, m.g.cs) {
      ClaimedInFile(m, claimed, seen, n, o, at);
      Smaller(at, MAX_PAGES * PAGE_CLUSTERS, m.g.cs);
      forall c: nat | c in Members(pages)
        ensures c < MAX_PAGES * PAGE_CLUSTERS
      {
        ClaimedInFile(m, claimed, seen, n, o, c);
        Smaller(c, MAX_PAGES * PAGE_CLUSTERS, m.g.cs);
      }
      FullMeansMany(pages, at, MAX_PAGES * PAGE_CLUSTERS);
    }
  }

  lemma ClaimedInFile(m: Meta, claimed: iset<nat>, seen: set<Owner>, n: nat, o: Owner, c: nat)
    requires m.g.cs > 0 && Tracked(m, claimed, seen, n)
    requires m.Live(o) && m.Off(o) % m.g.cs == 0 && m.Off(o) + m.Len(o) <= n
    requires c in claimed || c in Span(m.Off(o) / m.g.cs, m.Off(o) / m.g.cs + (m.Len(o) + m.g.cs - 1) / m.g.cs)
    ensures c * m.g.cs < n
  {
    RegionSpan(m.Off(o), m.Len(o), m.g.cs, c);
    hide Span;
    if c in claimed {
      var p :| p in seen && Covers(m, p, c);
    }
  }

  lemma OutsideFile(m: Meta, o: Owner, n: nat)
    requires m.Live(o) && m.Off(o) + m.Len(o) > n
    ensures !m.Owned(n)
  {
  }

  lemma Smaller(a: nat, b: nat, cs: nat)
    requires a * cs < b * cs
    ensures a < b
  {
    if a >= b {
      MulStep(cs, a + 1, b);
    }
  }

  /** Every refcount block lies in the file. */
  ghost predicate BlocksInFile(m: Meta, n: nat) {
    forall t: nat :: m.Live(RefBlock(t)) ==> m.rt[t] + m.g.cs <= n
  }

  method ClaimRegion(owners: Owners, fileSize: nat, ghost m: Meta, ghost seen: set<Owner>,
                     ghost o: Owner, offset: nat, length: nat, cs: nat)
    returns (v: Verdict)
    requires owners.Valid() && cs == m.g.cs > 0 && Tracked(m, owners.Set(), seen, fileSize)
    requires o !in seen && m.Live(o) && offset == m.Off(o) && 0 < length == m.Len(o) && AlignedTo(offset, cs)
    modifies owners
    ensures owners.Valid()
    ensures v.Accepted? ==> Tracked(m, owners.Set(), seen + {o}, fileSize)
    ensures v.Corrupt? ==> !m.Owned(fileSize)
    ensures v.Unchecked? ==> OverBitmap(fileSize, cs)
  {
    hide Whole, Used, Members, Tracked, Meta.Owned, Span, OverBitmap;
    AlignedMeaning(offset, cs);
    if offset > fileSize || length > fileSize - offset {
      OutsideFile(m, o, fileSize);
      return Corrupt;
    }
    ghost var claimed := owners.Set();
    var overlap, full;
    ghost var at;
    overlap, full, at := owners.Claim(offset, length, cs);
    if overlap {
      ClaimedTwice(m, claimed, seen, fileSize, o, at);
      return Corrupt;
    }
    if full {
      FullMeansLarge(m, owners.pages, claimed, seen, fileSize, o, at);
      return Unchecked;
    }
    TrackMore(m, claimed, seen, fileSize, o, Span(offset / cs, offset / cs + (length + cs - 1) / cs));
    return Accepted;
  }

  // The passes.

  method ClaimRefcountBlocks(owners: Owners, fileSize: nat, rt: seq<u64>, cs: nat, ghost m: Meta,
                             ghost seen0: set<Owner>)
    returns (v: Verdict, ghost seen: set<Owner>)
    requires owners.Valid() && cs == m.g.cs && m.g.Valid() && rt == m.rt
    requires Tracked(m, owners.Set(), seen0, fileSize) && forall o :: o in seen0 ==> !o.RefBlock?
    modifies owners
    ensures owners.Valid()
    ensures v.Accepted? ==>
      && Tracked(m, owners.Set(), seen, fileSize)
      && (forall o :: o in seen <==> o in seen0 || (o.RefBlock? && m.Live(o)))
      && (forall t :: 0 <= t < |rt| ==> AlignedTo(rt[t], cs))
    ensures v.Corrupt? ==> !m.Shape() || !m.Owned(fileSize)
    ensures v.Unchecked? ==> OverBitmap(fileSize, cs)
  {
    hide Tracked, Meta.Shape, Meta.Owned, AlignedTo, OverBitmap, Whole, Used, Members;
    ZeroAligned(cs);
    seen := seen0;
    var t := 0;
    while t < |rt|
      invariant 0 <= t <= |rt| && owners.Valid()
      invariant Tracked(m, owners.Set(), seen, fileSize)
      invariant forall o :: o in seen <==> o in seen0 || (o.RefBlock? && o.t < t && m.Live(o))
      invariant forall k :: 0 <= k < t ==> AlignedTo(rt[k], cs)
    {
      if rt[t] != 0 {
        if !AlignedTo(rt[t], 512) || !AlignedTo(rt[t], cs) {
          UnalignedBlock(m, t);
          return Corrupt, seen;
        }
        v := ClaimRegion(owners, fileSize, m, seen, RefBlock(t), rt[t], cs, cs);
        if !v.Accepted? {
          return;
        }
        seen := seen + {RefBlock(t)};
      }
      t := t + 1;
    }
    v := Accepted;
  }

  lemma UnalignedBlock(m: Meta, t: nat)
    requires m.g.Valid() && t < |m.rt|
    requires !AlignedTo(m.rt[t], 512) || !AlignedTo(m.rt[t], m.g.cs)
    ensures !m.Shape()
  {
    if m.rt[t] % m.g.cs == 0 {
      Qcow2Publish.MultipleOfSector(m.rt[t], m.g.cs);
    }
  }

  method ClaimL2Tables(owners: Owners, fileSize: nat, l1: seq<u64>, cs: nat, ghost m: Meta, ghost seen0: set<Owner>)
    returns (v: Verdict, ghost seen: set<Owner>)
    requires owners.Valid() && cs == m.g.cs && m.g.Valid() && l1 == m.l1
    requires Tracked(m, owners.Set(), seen0, fileSize) && forall o :: o in seen0 ==> !o.L2Table?
    modifies owners
    ensures owners.Valid()
    ensures v.Accepted? ==>
      && Tracked(m, owners.Set(), seen, fileSize)
      && (forall o :: o in seen <==> o in seen0 || (o.L2Table? && m.Live(o)))
      && (forall i :: 0 <= i < |l1| ==> m.GoodL1(l1[i]))
    ensures v.Corrupt? ==> !m.Shape() || !m.Owned(fileSize)
    ensures v.Unchecked? ==> OverBitmap(fileSize, cs)
  {
    hide Tracked, Meta.Owned, ClusterOffset, ReservedL1Bits, OverBitmap, Whole, Used, Members;
    seen := seen0;
    var i := 0;
    while i < |l1|
      invariant 0 <= i <= |l1| && owners.Valid()
      invariant Tracked(m, owners.Set(), seen, fileSize)
      invariant forall o :: o in seen <==> o in seen0 || (o.L2Table? && o.i < i && m.Live(o))
      invariant forall k :: 0 <= k < i ==> m.GoodL1(l1[k])
    {
      if l1[i] != 0 {
        var off := ClusterOffset(l1[i]);
        if ReservedL1Bits(l1[i]) || off == 0 || off % cs != 0 {
          assert !m.GoodL1(m.l1[i]);
          return Corrupt, seen;
        }
        assert AlignedTo(off, cs);
        v := ClaimRegion(owners, fileSize, m, seen, L2Table(i), off, cs, cs);
        if !v.Accepted? {
          return;
        }
        seen := seen + {L2Table(i)};
      }
      i := i + 1;
    }
    v := Accepted;
  }

  /** Every cluster of `o` has reference count one. */
  ghost predicate CountedOnce(m: Meta, f: seq<byte>, o: Owner) {
    forall x: nat :: m.OwnsCluster(o, x) ==> m.Rc(f, x) == 1
  }

  method CheckRefcounts(q: Image, offset: nat, length: nat, ghost m: Meta, ghost o: Owner) returns (v: Verdict)
    requires q.Countable() && m.g == q.g && m.rt == q.rt
    requires m.Live(o) && m.Off(o) == offset && m.Len(o) == length && AlignedTo(offset, q.g.cs)
    modifies q.cache
    ensures q.Countable()
    ensures v.Accepted? ==> CountedOnce(m, q.file.bytes, o)
    ensures v.Corrupt? ==> !m.Counted(q.file.bytes)
    ensures v.Unchecked? ==> !(q.file.reliable && BlocksInFile(m, |q.file.bytes|))
  {
    var c := offset;
    while c < offset + length
      invariant q.Countable() && offset <= c && c % q.g.cs == 0
      invariant forall x: nat :: m.OwnsCluster(o, x) && x < c ==> m.Rc(q.file.bytes, x) == 1
    {
      var r := q.Refcount(c);
      if r.ReadFailed? {
        assert m.Live(RefBlock(m.RcTab(c)));
        return Unchecked;
      }
      if r != Count(1) {
        assert m.OwnsCluster(o, c) && m.Rc(q.file.bytes, c) != 1;
        return Corrupt;
      }
      forall x: nat | m.OwnsCluster(o, x) && c <= x < c + q.g.cs
        ensures x == c
      {
        AlignedStart(x, c, q.g.cs);
      }
      NextBlock(c, q.g.cs);
      c := c + q.g.cs;
    }
    return Accepted;
  }

  /** Claims and counts the cluster of one L2 entry. */
  method ClaimData(q: Image, owners: Owners, fileSize: nat, off: nat, ghost i: nat, ghost j: nat,
                   ghost m: Meta, ghost seen: set<Owner>)
    returns (v: Verdict)
    requires q.Countable() && m.g == q.g && m.rt == q.rt && fileSize == |q.file.bytes|
    requires owners.Valid() && Tracked(m, owners.Set(), seen, fileSize)
    requires m.Live(Data(i, j)) && m.Off(Data(i, j)) == off && AlignedTo(off, q.g.cs) && Data(i, j) !in seen
    modifies q.cache, owners
    ensures q.Countable() && owners.Valid()
    ensures v.Accepted? ==> Tracked(m, owners.Set(), seen + {Data(i, j)}, fileSize)
    ensures v.Accepted? ==> CountedOnce(m, q.file.bytes, Data(i, j))
    ensures v.Corrupt? ==> !m.Owned(fileSize) || !m.Counted(q.file.bytes)
    ensures v.Unchecked? ==> !(q.file.reliable && BlocksInFile(m, fileSize)) || OverBitmap(fileSize, q.g.cs)
  {
    hide Tracked, Meta.Owned, Meta.Counted, CountedOnce, BlocksMatch, AlignedTo, BlocksInFile, OverBitmap, Whole,
         Used, Members;
    v := ClaimRegion(owners, fileSize, m, seen, Data(i, j), off, q.g.cs, q.g.cs);
    if v.Accepted? {
      v := CheckRefcounts(q, off, q.g.cs, m, Data(i, j));
    }
  }

  method ValidateDataMappings(q: Image, owners: Owners, fileSize: nat, table: seq<u64>, ghost i: nat,
                              ghost m: Meta, ghost seen0: set<Owner>)
    returns (v: Verdict, ghost seen: set<Owner>)
    requires q.Countable() && m.g == q.g && m.rt == q.rt && fileSize == |q.file.bytes|
    requires owners.Valid() && Tracked(m, owners.Set(), seen0, fileSize)
    requires i in m.l2 && table == m.l2[i] && forall o :: o in seen0 ==> !(o.Data? && o.i == i)
    modifies q.cache, owners
    ensures q.Countable() && owners.Valid()
    ensures v.Accepted? ==>
      && Tracked(m, owners.Set(), seen, fileSize)
      && (forall o :: o in seen <==> o in seen0 || (o.Data? && o.i == i && m.Live(o)))
      && (forall j :: 0 <= j < |table| ==> m.GoodL2(table[j]))
      && (forall j: nat :: m.Live(Data(i, j)) ==> CountedOnce(m, q.file.bytes, Data(i, j)))
    ensures v.Corrupt? ==> !m.Shape() || !m.Owned(fileSize) || !m.Counted(q.file.bytes)
    ensures v.Unchecked? ==> !(q.file.reliable && BlocksInFile(m, fileSize)) || OverBitmap(fileSize, q.g.cs)
  {
    hide Tracked, Meta.Owned, Meta.Counted, CountedOnce, BlocksMatch, ClusterOffset, ValidL2Entry, AlignedTo,
         BlocksInFile, OverBitmap, Whole, Used, Members;
    seen := seen0;
    var j := 0;
    while j < |table|
      invariant 0 <= j <= |table| && q.Countable() && owners.Valid()
      invariant Tracked(m, owners.Set(), seen, fileSize)
      invariant forall o :: o in seen <==> o in seen0 || (o.Data? && o.i == i && o.j < j && m.Live(o))
      invariant forall k :: 0 <= k < j ==> m.GoodL2(table[k])
      invariant forall k: nat :: k < j && m.Live(Data(i, k)) ==> CountedOnce(m, q.file.bytes, Data(i, k))
    {
      var off := ClusterOffset(table[j]);
      AlignedMeaning(off, q.g.cs);
      if !ValidL2Entry(q.g.version, table[j]) || !AlignedTo(off, q.g.cs) {
        assert !m.GoodL2(m.l2[i][j]);
        return Corrupt, seen;
      }
      if off != 0 {
        v := ClaimData(q, owners, fileSize, off, i, j, m, seen);
        if !v.Accepted? {
          return;
        }
        seen := seen + {Data(i, j)};
      }
      j := j + 1;
    }
    v := Accepted;
  }

  lemma TrackNone(m: Meta, claimed: iset<nat>, n: nat)
    requires m.g.cs > 0 && claimed == iset{}
    ensures Tracked(m, claimed, {}, n)
  {
  }

  /** Claims the header, the L1 table and the refcount table. */
  method ClaimMetadata(q: Image, owners: Owners, fileSize: nat, ghost m: Meta)
    returns (v: Verdict, ghost seen: set<Owner>)
    requires m.g == q.g && q.g.Valid()
    requires owners.Valid() && owners.Set() == iset{}
    modifies owners
    ensures owners.Valid()
    ensures v.Accepted? ==> seen == {Header, L1Table, RefTable} && Tracked(m, owners.Set(), seen, fileSize)
    ensures v.Corrupt? ==> !m.Owned(fileSize)
    ensures v.Unchecked? ==> OverBitmap(fileSize, q.g.cs)
  {
    hide Tracked, Meta.Owned, AlignedTo, OverBitmap, Whole, Used, Members;
    var g := q.g;
    ZeroAligned(g.cs);
    AlignedMeaning(g.l1Off, g.cs);
    AlignedMeaning(g.rtOff, g.cs);
    seen := {};
    TrackNone(m, owners.Set(), fileSize);
    v := ClaimRegion(owners, fileSize, m, seen, Header, 0, g.cs, g.cs);
    if !v.Accepted? {
      return;
    }
    seen := seen + {Header};
    v := ClaimRegion(owners, fileSize, m, seen, L1Table, g.l1Off, 8 * g.l1Len, g.cs);
    if !v.Accepted? {
      return;
    }
    seen := seen + {L1Table};
    v := ClaimRegion(owners, fileSize, m, seen, RefTable, g.rtOff, 8 * g.rtLen, g.cs);
    seen := seen + {RefTable};
    assert seen == {Header, L1Table, RefTable};
  }

  /** Counts the clusters of the header, the L1 table, the refcount table and the refcount blocks. */
  method CheckMetadata(q: Image, ghost m: Meta) returns (v: Verdict)
    requires q.Countable() && m.g == q.g && m.rt == q.rt && q.g.Valid()
    modifies q.cache
    ensures q.Countable()
    ensures v.Accepted? ==> forall o :: m.Live(o) && !o.L2Table? && !o.Data? ==> CountedOnce(m, q.file.bytes, o)
    ensures v.Corrupt? ==> !m.Counted(q.file.bytes)
    ensures v.Unchecked? ==> !(q.file.reliable && BlocksInFile(m, |q.file.bytes|))
  {
    hide CountedOnce, Meta.Counted, BlocksMatch, AlignedTo, BlocksInFile;
    ZeroAligned(q.g.cs);
    AlignedMeaning(q.g.l1Off, q.g.cs);
    AlignedMeaning(q.g.rtOff, q.g.cs);
    v := CheckRefcounts(q, 0, q.g.cs, m, Header);
    if !v.Accepted? {
      return;
    }
    v := CheckRefcounts(q, q.g.l1Off, 8 * q.g.l1Len, m, L1Table);
    if !v.Accepted? {
      return;
    }
    v := CheckRefcounts(q, q.g.rtOff, 8 * q.g.rtLen, m, RefTable);
    if !v.Accepted? {
      return;
    }
    var t := 0;
    while t < |q.rt|
      invariant 0 <= t <= |q.rt| && q.Countable()
      invariant forall o :: m.Live(o) && !o.L2Table? && !o.Data? && (o.RefBlock? ==> o.t < t) ==>
        CountedOnce(m, q.file.bytes, o)
    {
      if q.rt[t] != 0 {
        v := CheckRefcounts(q, q.rt[t], q.g.cs, m, RefBlock(t));
        if !v.Accepted? {
          return;
        }
      }
      t := t + 1;
    }
    v := Accepted;
  }

  lemma SeenInFile(m: Meta, claimed: iset<nat>, seen: set<Owner>, n: nat, o: Owner)
    requires Tracked(m, claimed, seen, n) && o in seen
    ensures m.Live(o) && m.Off(o) + m.Len(o) <= n
  {
  }

  /** Counts one L2 table, and claims and counts what it maps. */
  method CheckTable(q: Image, owners: Owners, fileSize: nat, i: nat, ghost m: Meta, ghost seen0: set<Owner>)
    returns (v: Verdict, ghost seen: set<Owner>)
    requires q.Countable() && m == Described(q.g, q.l1, q.rt, q.file.bytes)
    requires fileSize == |q.file.bytes| && owners.Valid() && Tracked(m, owners.Set(), seen0, fileSize)
    requires i < |q.l1| && q.l1[i] != 0 && AlignedTo(ClusterOffset(q.l1[i]), q.g.cs)
    requires L2Table(i) in seen0 && forall o :: o in seen0 ==> !(o.Data? && o.i == i)
    modifies q.cache, owners
    ensures q.Countable() && owners.Valid()
    ensures v.Accepted? ==>
      && Tracked(m, owners.Set(), seen, fileSize)
      && (forall o :: o in seen <==> o in seen0 || (o.Data? && o.i == i && m.Live(o)))
      && (forall j :: 0 <= j < |m.l2[i]| ==> m.GoodL2(m.l2[i][j]))
      && CountedOnce(m, q.file.bytes, L2Table(i))
      && (forall j: nat :: m.Live(Data(i, j)) ==> CountedOnce(m, q.file.bytes, Data(i, j)))
    ensures v.Corrupt? ==> !m.Shape() || !m.Owned(fileSize) || !m.Counted(q.file.bytes)
    ensures v.Unchecked? ==> !(q.file.reliable && BlocksInFile(m, fileSize)) || OverBitmap(fileSize, q.g.cs)
  {
    SeenInFile(m, owners.Set(), seen0, fileSize, L2Table(i));
    TableSize(q.cache.limit, q.g.cs);
    hide Tracked, Meta.Owned, Meta.Counted, CountedOnce, BlocksMatch, ClusterOffset, Meta.GoodL2, Meta.Shape, AlignedTo,
         BlocksInFile, OverBitmap, Whole, Used, Members;
    seen := seen0;
    v := CheckRefcounts(q, ClusterOffset(q.l1[i]), q.g.cs, m, L2Table(i));
    if !v.Accepted? {
      return;
    }
    var ok, table := Image.ReadTable(q.file, ClusterOffset(q.l1[i]), q.g.L2n());
    if !ok {
      return Unchecked, seen;
    }
    assert table == m.l2[i];
    v, seen := ValidateDataMappings(q, owners, fileSize, table, i, m, seen);
  }

  /** The first `n` L2 tables are well formed, and they and their data clusters are counted once. */
  ghost predicate TablesDone(m: Meta, f: seq<byte>, n: nat) {
    && (forall k, j :: k in m.l2 && k < n && 0 <= j < |m.l2[k]| ==> m.g.cs > 0 && m.GoodL2(m.l2[k][j]))
    && (forall o :: m.Live(o) && ((o.L2Table? && o.i < n) || (o.Data? && o.i < n)) ==> CountedOnce(m, f, o))
  }

  lemma NoTables(m: Meta, f: seq<byte>)
    ensures TablesDone(m, f, 0)
  {
  }

  lemma TableDone(m: Meta, f: seq<byte>, i: nat)
    requires m.g.cs > 0 && i < |m.l1|
    ensures TablesDone(m, f, i) && i !in m.l2 && m.l1[i] == 0 ==> TablesDone(m, f, i + 1)
    ensures
      && TablesDone(m, f, i) && i in m.l2
      && (forall j :: 0 <= j < |m.l2[i]| ==> m.GoodL2(m.l2[i][j]))
      && CountedOnce(m, f, L2Table(i))
      && (forall j: nat :: m.Live(Data(i, j)) ==> CountedOnce(m, f, Data(i, j)))
      ==> TablesDone(m, f, i + 1)
  {
  }

  /** Does so for every L2 table. */
  method CheckTables(q: Image, owners: Owners, fileSize: nat, ghost m: Meta, ghost seen0: set<Owner>)
    returns (v: Verdict, ghost seen: set<Owner>)
    requires q.Countable() && m == Described(q.g, q.l1, q.rt, q.file.bytes)
    requires fileSize == |q.file.bytes| && owners.Valid() && Tracked(m, owners.Set(), seen0, fileSize)
    requires forall o :: o in seen0 <==> m.Live(o) && !o.Data?
    requires forall i :: 0 <= i < |q.l1| ==> m.GoodL1(q.l1[i])
    modifies q.cache, owners
    ensures q.Countable() && owners.Valid()
    ensures v.Accepted? ==>
      && Tracked(m, owners.Set(), seen, fileSize)
      && (forall o :: m.Live(o) ==> o in seen)
      && TablesDone(m, q.file.bytes, |q.l1|)
    ensures v.Corrupt? ==> !m.Shape() || !m.Owned(fileSize) || !m.Counted(q.file.bytes)
    ensures v.Unchecked? ==> !(q.file.reliable && BlocksInFile(m, fileSize)) || OverBitmap(fileSize, q.g.cs)
  {
    hide BlocksInFile, OverBitmap, Whole, Used, Members;
    hide TablesDone, Tracked, Meta.Owned, Meta.Counted, CountedOnce, BlocksMatch, ClusterOffset, Meta.GoodL2,
         Meta.Shape,
         AlignedTo;
    seen := seen0;
    var i := 0;
    NoTables(m, q.file.bytes);
    while i < |q.l1|
      invariant 0 <= i <= |q.l1| && q.Countable() && owners.Valid()
      invariant Tracked(m, owners.Set(), seen, fileSize)
      invariant forall o :: o in seen <==> m.Live(o) && (o.Data? ==> o.i < i)
      invariant TablesDone(m, q.file.bytes, i)
    {
      TableDone(m, q.file.bytes, i);
      if q.l1[i] != 0 {
        assert m.GoodL1(q.l1[i]);
        AlignedMeaning(ClusterOffset(q.l1[i]), q.g.cs);
        v, seen := CheckTable(q, owners, fileSize, i, m, seen);
        if !v.Accepted? {
          return;
        }
        TableDone(m, q.file.bytes, i);
      }
      i := i + 1;
    }
    v := Accepted;
  }

  /** All the passes together establish a consistent image. */
  lemma AllChecked(m: Meta, f: seq<byte>, claimed: iset<nat>, seen: set<Owner>)
    requires m == Described(m.g, m.l1, m.rt, f)
    requires m.g.Valid() && |m.l1| == m.g.l1Len && |m.rt| == m.g.rtLen && m.L1OnDisk(f) && m.RtOnDisk(f)
    requires Tracked(m, claimed, seen, |f|) && forall o :: m.Live(o) ==> o in seen
    requires forall i :: 0 <= i < |m.l1| ==> m.GoodL1(m.l1[i])
    requires forall t :: 0 <= t < |m.rt| ==> AlignedTo(m.rt[t], m.g.cs)
    requires TablesDone(m, f, |m.l1|)
    requires forall o :: m.Live(o) && !o.L2Table? && !o.Data? ==> CountedOnce(m, f, o)
    ensures m.Healthy(f)
  {
    forall o, x: nat | m.OwnsCluster(o, x)
      ensures m.Rc(f, x) == 1
    {
      assert CountedOnce(m, f, o);
    }
  }

  lemma SeenMetadata(m: Meta, meta: set<Owner>, blocks: set<Owner>, tables: set<Owner>)
    requires meta == {Header, L1Table, RefTable}
    requires forall o :: o in blocks <==> o in meta || (o.RefBlock? && m.Live(o))
    requires forall o :: o in tables <==> o in blocks || (o.L2Table? && m.Live(o))
    ensures forall o :: o in tables <==> m.Live(o) && !o.Data?
  {
  }

  lemma BlocksSeen(m: Meta, claimed: iset<nat>, seen: set<Owner>, n: nat)
    requires Tracked(m, claimed, seen, n) && forall o: Owner :: o.RefBlock? && m.Live(o) ==> o in seen
    ensures BlocksInFile(m, n)
  {
    forall t: nat | m.Live(RefBlock(t))
      ensures m.rt[t] + m.g.cs <= n
    {
      SeenInFile(m, claimed, seen, n, RefBlock(t));
    }
  }

  /** The passes in order. */
  method CheckLayout(q: Image, ghost m: Meta) returns (v: Verdict)
    requires q.file.Valid() && q.cache.Valid() && q.cache.cs == q.g.cs && q.cache.Blocks() == map[]
    requires m == Described(q.g, q.l1, q.rt, q.file.bytes)
    requires q.g.Valid() && |q.l1| == q.g.l1Len && |q.rt| == q.g.rtLen
    requires m.L1OnDisk(q.file.bytes) && m.RtOnDisk(q.file.bytes)
    modifies q.cache
    ensures v.Accepted? ==> m.Healthy(q.file.bytes) && q.Countable()
    ensures v.Corrupt? ==> !m.Healthy(q.file.bytes)
    ensures v.Unchecked? ==> !q.file.reliable || OverBitmap(|q.file.bytes|, q.g.cs)
  {
    hide BlocksInFile, OverBitmap, Whole, Used, Members;
    hide TablesDone, Tracked, CountedOnce, Meta.Owned, Meta.Counted, Meta.Shape, Meta.L1OnDisk, Meta.RtOnDisk,
         Meta.GoodL1, Meta.GoodL2, BlockMatches, AlignedTo;
    var ok, fileSize := q.file.Stat();
    if !ok {
      return Unchecked;
    }
    var owners := new Owners();
    ghost var seen;
    v, seen := ClaimMetadata(q, owners, fileSize, m);
    if !v.Accepted? {
      return;
    }
    ghost var meta := seen;
    v, seen := ClaimRefcountBlocks(owners, fileSize, q.rt, q.g.cs, m, seen);
    ghost var blocks := seen;
    if !v.Accepted? {
      return;
    }
    BlocksSeen(m, owners.Set(), seen, fileSize);
    v, seen := ClaimL2Tables(owners, fileSize, q.l1, q.g.cs, m, seen);
    if !v.Accepted? {
      return;
    }
    v := CheckMetadata(q, m);
    if !v.Accepted? {
      return;
    }
    SeenMetadata(m, meta, blocks, seen);
    v, seen := CheckTables(q, owners, fileSize, m, seen);
    if !v.Accepted? {
      return;
    }
    AllChecked(m, q.file.bytes, owners.Set(), seen);
  }

  lemma CountableIntact(m: Meta, m': Meta, blocks: map<nat, seq<byte>>, f: seq<byte>)
    requires m'.Healthy(f) && m.g == m'.g && m.rt == m'.rt && BlocksMatch(m, blocks, f)
    ensures Intact(m', map[], blocks, f, false)
  {
    HealthyReadable(m', map[], f);
    forall b | b in blocks
      ensures BlockMatches(m', b, blocks[b], f)
    {
      assert BlockMatches(m, b, blocks[b], f);
      var t: nat :| m.Live(RefBlock(t)) && m.rt[t] == b;
      assert m'.Live(RefBlock(t));
    }
  }

  /**
   Checks an image whose tables were just read.  Accepted means consistent and ready to use; corrupt
   means that the file does not hold a consistent image.
   */
  method ValidateLayout(q: Image) returns (v: Verdict)
    requires q.file.Valid() && q.cache.Valid() && q.cache.cs == q.g.cs && q.cache.Blocks() == map[]
    requires q.g.Valid() && |q.l1| == q.g.l1Len && |q.rt| == q.g.rtLen && q.l2Cache == map[] && !q.fault
    requires Described(q.g, q.l1, q.rt, q.file.bytes).L1OnDisk(q.file.bytes)
    requires Described(q.g, q.l1, q.rt, q.file.bytes).RtOnDisk(q.file.bytes)
    modifies q`l2, q.cache
    ensures v.Accepted? ==> q.Valid() && q.M() == Described(q.g, q.l1, q.rt, q.file.bytes)
    ensures v.Corrupt? ==> !Described(q.g, q.l1, q.rt, q.file.bytes).Healthy(q.file.bytes)
    ensures v.Unchecked? ==> !q.file.reliable || OverBitmap(|q.file.bytes|, q.g.cs)
  {
    hide Meta.Healthy, Intact, BlocksMatch;
    ghost var m := Described(q.g, q.l1, q.rt, q.file.bytes);
    v := CheckLayout(q, m);
    if v.Accepted? {
      CountableIntact(q.M(), m, q.cache.Blocks(), q.file.bytes);
      q.l2 := m.l2;
    }
  }

  /** Whatever tables a consistent reading of the file has, they are the stored ones. */
  lemma DescribedUnique(m: Meta, f: seq<byte>)
    requires m.Healthy(f)
    ensures m == Described(m.g, m.l1, m.rt, f)
  {
    hide Meta.Owned, Meta.Counted, Meta.L1OnDisk, Meta.RtOnDisk, Meta.GoodL1, Meta.GoodL2, ClusterOffset, BeAt;
    var d := Described(m.g, m.l1, m.rt, f);
    forall i | i in m.l2
      ensures m.l2[i] == StoredTable(f, ClusterOffset(m.l1[i]), m.g.L2n())
    {
      assert m.L2OnDisk(f, i);
    }
    assert m.l2 == d.l2;
  }
}
