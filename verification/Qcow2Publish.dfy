/** Publishing a new cluster: pointing an L1, L2 or refcount-table entry at it. */
module Qcow2Publish {
  import opened Arith
  import opened Bytes
  import opened Qcow2Meta

  // Entries.

  /** The entry that maps the cluster at `off`. */
  function EntryFor(off: nat): (e: u64)
    requires off < MAX_HOST
  {
    off + COPIED
  }

  lemma MultipleOfSector(off: nat, cs: nat)
    requires cs >= 512 && cs % 512 == 0 && off % cs == 0
    ensures off % 512 == 0
  {
    var a, b := off / cs, cs / 512;
    assert off == a * cs && cs == 512 * b;
    assert a * (512 * b) == 512 * (a * b);
  }

  /** `e` is a well-formed, readable pointer to `off`. */
  ghost predicate PointsTo(m: Meta, e: u64, off: nat) {
    && m.g.cs > 0 && m.GoodL1(e) && m.GoodL2(e)
    && e != 0 && ClusterOffset(e) == off && !ZeroFlag(e)
  }

  lemma EntryPointsTo(m: Meta, off: nat)
    requires m.g.cs >= 512 && m.g.cs % 512 == 0 && off % m.g.cs == 0 && 0 < off < MAX_HOST
    ensures PointsTo(m, EntryFor(off), off)
  {
    MultipleOfSector(off, m.g.cs);
    EntryFields(off);
    hide ClusterOffset, ZeroFlag, CopiedFlag, CompressedFlag, ReservedL1Bits, ReservedL2Bits, EntryFor;
  }

  /** The entry holds the offset, the copied flag and nothing else. */
  lemma EntryFields(off: nat)
    requires off % 512 == 0 && off < MAX_HOST
    ensures EntryFor(off) != 0 && ClusterOffset(EntryFor(off)) == off && !ZeroFlag(EntryFor(off))
    ensures !CompressedFlag(EntryFor(off)) && !ReservedL1Bits(EntryFor(off)) && !ReservedL2Bits(EntryFor(off))
  {
    var e := EntryFor(off);
    assert e / 512 == off / 512 + 0x40_0000_0000_0000;
    assert e % 512 == 0;
    assert e / MAX_HOST == 128;
    assert e / 0x4000_0000_0000_0000 == 2;
    assert e / 2 == 256 * (e / 512);
  }

  /** `f'` is `f` with the eight bytes at `at` now holding `e`. */
  ghost predicate Rewrites(f: seq<byte>, f': seq<byte>, at: nat, e: u64) {
    && at + 8 <= |f| == |f'|
    && BeAt(f', at, 8) == e
    && (forall k :: 0 <= k < |f| && (k < at || at + 8 <= k) ==> f'[k] == f[k])
  }

  lemma PatchRewrites(f: seq<byte>, at: nat, e: u64)
    requires at + 8 <= |f|
    ensures Rewrites(f, Patch(f, at, ToBe(e, 8)), at, e)
  {
    Pow256Values();
    BeAtPatched(f, at, e, 8);
  }

  /** Rewriting an entry inside one owner keeps all the others. */
  lemma RewriteKeeps(m: Meta, f: seq<byte>, f': seq<byte>, o: Owner, at: nat, e: u64)
    requires m.Owned(|f|) && Rewrites(f, f', at, e)
    requires m.Live(o) && m.Off(o) <= at && at + 8 <= m.Off(o) + m.Len(o)
    ensures m.KeepsAllBut(f, f', o)
  {
    forall p | p != o && m.Live(p)
      ensures m.Keeps(f, f', p)
    {
      assert Apart(m.Off(o), m.Len(o), m.Off(p), m.Len(p));
    }
  }

  /** `off` is a zeroed cluster of the file whose counter already says one. */
  ghost predicate Ready(m: Meta, f: seq<byte>, off: nat) {
    && m.g.cs > 0 && off % m.g.cs == 0
    && off + m.g.cs <= |f|
    && m.Rc(f, off) == 1
    && (forall k :: off <= k < off + m.g.cs ==> f[k] == 0)
  }

  // Adding one claim.

  /** `m'` claims what `m` claims, at the same places, and also `o`. */
  ghost predicate Extends(m: Meta, m': Meta, o: Owner) {
    && m'.g == m.g
    && m'.Live(o)
    && (forall p :: m'.Live(p) <==> m.Live(p) || p == o)
    && (forall p :: m.Live(p) ==> m'.Off(p) == m.Off(p))
  }

  lemma OwnedMore(m: Meta, m': Meta, n: nat, o: Owner)
    requires m.Owned(n) && Extends(m, m', o)
    requires m'.Off(o) + m'.Len(o) <= n
    requires forall p :: m.Live(p) && p != o ==> Apart(m.Off(p), m.Len(p), m'.Off(o), m'.Len(o))
    ensures m'.Owned(n)
  {
    hide ClusterOffset;
    forall p, q | m'.Live(p) && m'.Live(q) && p != q
      ensures Apart(m'.Off(p), m'.Len(p), m'.Off(q), m'.Len(q))
    {
      if p != o && q != o {
        assert m.Live(p) && m.Live(q);
      } else {
        assert m.Live(if p == o then q else p);
      }
    }
  }

  lemma CountedMore(m: Meta, m': Meta, f: seq<byte>, f': seq<byte>, o: Owner)
    requires m.Counted(f) && Extends(m, m', o)
    requires m.g.cs > 0 && m'.Off(o) % m.g.cs == 0 && m'.Len(o) == m.g.cs
    requires m'.Rc(f', m'.Off(o)) == 1
    requires forall p, x: nat :: m.OwnsCluster(p, x) ==> m'.Rc(f', x) == m.Rc(f, x)
    ensures m'.Counted(f')
  {
    forall p, x: nat | m'.OwnsCluster(p, x)
      ensures m'.Rc(f', x) == 1
    {
      if p == o {
        AlignedStart(x, m'.Off(o), m.g.cs);
      } else {
        assert m.OwnsCluster(p, x);
      }
    }
  }

  // An empty L2 table.

  function WithL2Table(m: Meta, i: nat, e: u64): Meta
    requires i < |m.l1|
  {
    m.(l1 := Put(m.l1, i, e), l2 := m.l2[i := seq(m.g.L2n(), _ => 0)])
  }

  lemma ZeroEntry(m: Meta)
    requires m.g.cs > 0
    ensures m.GoodL2(0) && ClusterOffset(0) == 0
  {
  }

  lemma L2TableExtends(m: Meta, i: nat, e: u64, off: nat)
    requires m.Shape() && PointsTo(m, e, off)
    requires i < |m.l1| && m.l1[i] == 0
    ensures Extends(m, WithL2Table(m, i, e), L2Table(i))
  {
    ZeroEntry(m);
    var m' := WithL2Table(m, i, e);
    forall p
      ensures m'.Live(p) <==> m.Live(p) || p == L2Table(i)
      ensures m.Live(p) ==> m'.Off(p) == m.Off(p)
    {
    }
  }

  lemma L2TableShape(m: Meta, i: nat, e: u64, off: nat)
    requires m.Shape() && PointsTo(m, e, off)
    requires i < |m.l1| && m.l1[i] == 0
    ensures WithL2Table(m, i, e).Shape()
  {
    ZeroEntry(m);
    var m' := WithL2Table(m, i, e);
    forall k, j | k in m'.l2 && 0 <= j < |m'.l2[k]|
      ensures m'.GoodL2(m'.l2[k][j])
    {
      if k != i {
        assert m.GoodL2(m.l2[k][j]);
      }
    }
    forall k | 0 <= k < |m'.l1|
      ensures m'.GoodL1(m'.l1[k])
    {
      if k != i {
        assert m.GoodL1(m.l1[k]);
      }
    }
  }

  lemma L2TablePublished(m: Meta, f: seq<byte>, f': seq<byte>, i: nat, e: u64, off: nat)
    requires m.Healthy(f) && Ready(m, f, off) && m.Fresh(off) && PointsTo(m, e, off)
    requires i < |m.l1| && m.l1[i] == 0
    requires Rewrites(f, f', m.g.l1Off + 8 * i, e)
    ensures WithL2Table(m, i, e).Healthy(f')
    ensures WithL2Table(m, i, e).Guest(f') == m.Guest(f)
  {
    var m' := WithL2Table(m, i, e);
    L2TableExtends(m, i, e, off);
    OwnedMore(m, m', |f|, L2Table(i));
    assert m.Live(L1Table);
    RewriteKeeps(m, f, f', L1Table, m.g.l1Off + 8 * i, e);
    L2TableShape(m, i, e, off);
    L2TableOnDisk(m, f, f', i, e, off);
    L2TableCounted(m, f, f', i, e, off);
    GuestKeeps(m, f, f');
    L2TableGuest(m, f', i, e);
  }

  lemma L2TableCounted(m: Meta, f: seq<byte>, f': seq<byte>, i: nat, e: u64, off: nat)
    requires m.g.cs >= 512 && m.Owned(|f|) && m.Counted(f) && Ready(m, f, off) && PointsTo(m, e, off)
    requires i < |m.l1|
    requires m.KeepsAllBut(f, f', L1Table) && Extends(m, WithL2Table(m, i, e), L2Table(i))
    ensures WithL2Table(m, i, e).Counted(f')
  {
    forall x: nat ensures WithL2Table(m, i, e).Rc(f', x) == m.Rc(f, x) {
      RcKeeps(m, f, f', x);
    }
    CountedMore(m, WithL2Table(m, i, e), f, f', L2Table(i));
  }

  lemma L2TableGuest(m: Meta, f: seq<byte>, i: nat, e: u64)
    requires i < |m.l1| && i !in m.l2
    ensures WithL2Table(m, i, e).Guest(f) == m.Guest(f)
  {
    var m' := WithL2Table(m, i, e);
    forall x | 0 <= x < m.g.size
      ensures m'.GuestByte(f, x) == m.GuestByte(f, x)
    {
      if m.g.L1Index(x) == i && m.g.L2Index(x) < |m'.l2[i]| {
        assert ClusterOffset(m'.l2[i][m.g.L2Index(x)]) == 0;
      }
    }
  }

  lemma L2TableOnDisk(m: Meta, f: seq<byte>, f': seq<byte>, i: nat, e: u64, off: nat)
    requires m.Healthy(f) && Ready(m, f, off) && m.Fresh(off) && PointsTo(m, e, off)
    requires i < |m.l1| && m.l1[i] == 0
    requires Rewrites(f, f', m.g.l1Off + 8 * i, e)
    requires m.KeepsAllBut(f, f', L1Table)
    ensures WithL2Table(m, i, e).OnDisk(f')
  {
    hide Meta.Counted, Meta.GoodL1, Meta.GoodL2, BeAt;
    var m' := WithL2Table(m, i, e);
    assert m.Live(L1Table);
    L1EntryStored(m, f, f', i, e);
    RtKeeps(m, f, f');
    forall k | k in m'.l2
      ensures m'.L2OnDisk(f', k)
    {
      if k == i {
        EmptyTable(m', f', i);
      } else {
        L2Keeps(m, f, f', k);
      }
    }
  }

  lemma L1EntryStored(m: Meta, f: seq<byte>, f': seq<byte>, i: nat, e: u64)
    requires m.L1OnDisk(f) && |m.l1| == m.g.l1Len && m.g.l1Off + 8 * m.g.l1Len <= |f|
    requires i < |m.l1| && Rewrites(f, f', m.g.l1Off + 8 * i, e)
    ensures WithL2Table(m, i, e).L1OnDisk(f')
  {
    forall k | 0 <= k < |m.l1|
      ensures BeAt(f', m.g.l1Off + 8 * k, 8) == Put(m.l1, i, e)[k]
    {
      if k != i {
        BeAtFrame(f, f', m.g.l1Off + 8 * k, 8);
      }
    }
  }

  lemma EmptyTable(m: Meta, f: seq<byte>, i: nat)
    requires i < |m.l1| && i in m.l2 && ClusterOffset(m.l1[i]) + 8 * |m.l2[i]| <= |f|
    requires forall j :: 0 <= j < |m.l2[i]| ==> m.l2[i][j] == 0
    requires forall k :: ClusterOffset(m.l1[i]) <= k < ClusterOffset(m.l1[i]) + 8 * |m.l2[i]| ==> f[k] == 0
    ensures m.L2OnDisk(f, i)
  {
    forall j | 0 <= j < |m.l2[i]|
      ensures BeAt(f, ClusterOffset(m.l1[i]) + 8 * j, 8) == 0
    {
      var p := ClusterOffset(m.l1[i]) + 8 * j;
      FromBeZeros(f[p..p + 8]);
    }
  }

  // A data cluster.

  function WithData(m: Meta, i: nat, j: nat, e: u64): Meta
    requires i in m.l2 && j < |m.l2[i]|
  {
    m.(l2 := m.l2[i := Put(m.l2[i], j, e)])
  }

  /** Entry (i, j) reads as zeros and may take `off`: it has no cluster yet, or it already owns `off`. */
  ghost predicate Takes(m: Meta, i: nat, j: nat, off: nat) {
    && i in m.l2 && j < |m.l2[i]|
    && !m.Mapped(i, j)
    && (if ClusterOffset(m.l2[i][j]) == 0 then m.Fresh(off) else ClusterOffset(m.l2[i][j]) == off)
  }

  lemma DataExtends(m: Meta, i: nat, j: nat, e: u64, off: nat)
    requires m.Shape() && Takes(m, i, j, off) && PointsTo(m, e, off) && off != 0
    ensures Extends(m, WithData(m, i, j, e), Data(i, j))
  {
    var m' := WithData(m, i, j, e);
    forall p
      ensures m'.Live(p) <==> m.Live(p) || p == Data(i, j)
      ensures m.Live(p) ==> m'.Off(p) == m.Off(p)
    {
    }
  }

  lemma DataShape(m: Meta, i: nat, j: nat, e: u64, off: nat)
    requires m.Shape() && Takes(m, i, j, off) && PointsTo(m, e, off)
    ensures WithData(m, i, j, e).Shape()
  {
    var m' := WithData(m, i, j, e);
    forall k, h | k in m'.l2 && 0 <= h < |m'.l2[k]|
      ensures m'.GoodL2(m'.l2[k][h])
    {
      if k != i || h != j {
        assert m.GoodL2(m.l2[k][h]);
      }
    }
    forall k | 0 <= k < |m'.l1|
      ensures m'.GoodL1(m'.l1[k])
    {
      assert m.GoodL1(m.l1[k]);
    }
  }

  lemma DataSetup(m: Meta, f: seq<byte>, f': seq<byte>, i: nat, j: nat, e: u64, off: nat)
    requires m.Healthy(f) && Ready(m, f, off) && Takes(m, i, j, off) && PointsTo(m, e, off) && off != 0
    requires Rewrites(f, f', ClusterOffset(m.l1[i]) + 8 * j, e)
    ensures Extends(m, WithData(m, i, j, e), Data(i, j))
    ensures WithData(m, i, j, e).Owned(|f'|)
    ensures m.KeepsAllBut(f, f', L2Table(i))
    ensures m.Guest(f') == m.Guest(f)
  {
    DataExtends(m, i, j, e, off);
    OwnedMore(m, WithData(m, i, j, e), |f|, Data(i, j));
    assert m.Live(L2Table(i));
    RewriteKeeps(m, f, f', L2Table(i), ClusterOffset(m.l1[i]) + 8 * j, e);
    GuestKeeps(m, f, f');
  }

  /** Rewriting a table entry does not reach the cluster that is being published. */
  lemma DataStaysZero(m: Meta, f: seq<byte>, f': seq<byte>, i: nat, j: nat, e: u64, off: nat)
    requires m.Shape() && Ready(m, f, off) && Takes(m, i, j, off) && PointsTo(m, e, off)
    requires Rewrites(f, f', ClusterOffset(m.l1[i]) + 8 * j, e)
    requires WithData(m, i, j, e).Owned(|f'|) && Extends(m, WithData(m, i, j, e), Data(i, j))
    ensures forall k :: off <= k < off + m.g.cs && k < |f'| ==> f'[k] == 0
  {
    var m' := WithData(m, i, j, e);
    assert m'.Live(L2Table(i)) && m'.Live(Data(i, j));
    assert Apart(m'.Off(L2Table(i)), m.g.cs, m'.Off(Data(i, j)), m.g.cs);
  }

  lemma DataPublished(m: Meta, f: seq<byte>, f': seq<byte>, i: nat, j: nat, e: u64, off: nat)
    requires m.Healthy(f) && Ready(m, f, off) && Takes(m, i, j, off) && PointsTo(m, e, off) && off != 0
    requires Rewrites(f, f', ClusterOffset(m.l1[i]) + 8 * j, e)
    ensures WithData(m, i, j, e).Healthy(f')
    ensures WithData(m, i, j, e).Guest(f') == m.Guest(f)
  {
    DataSetup(m, f, f', i, j, e, off);
    hide Meta.Owned, Meta.Counted, Meta.OnDisk, Meta.KeepsAllBut, Meta.Guest, Extends, ClusterOffset;
    DataShape(m, i, j, e, off);
    DataOnDisk(m, f, f', i, j, e);
    DataCounted(m, f, f', i, j, e, off);
    DataStaysZero(m, f, f', i, j, e, off);
    DataGuest(m, f', i, j, e, off);
  }

  lemma DataCounted(m: Meta, f: seq<byte>, f': seq<byte>, i: nat, j: nat, e: u64, off: nat)
    requires m.g.cs >= 512 && m.Owned(|f|) && m.Counted(f) && Ready(m, f, off) && Takes(m, i, j, off)
    requires PointsTo(m, e, off) && off != 0
    requires m.KeepsAllBut(f, f', L2Table(i)) && Extends(m, WithData(m, i, j, e), Data(i, j))
    ensures WithData(m, i, j, e).Counted(f')
  {
    forall x: nat ensures WithData(m, i, j, e).Rc(f', x) == m.Rc(f, x) {
      RcKeeps(m, f, f', x);
    }
    CountedMore(m, WithData(m, i, j, e), f, f', Data(i, j));
  }

  lemma DataOnDisk(m: Meta, f: seq<byte>, f': seq<byte>, i: nat, j: nat, e: u64)
    requires m.Healthy(f) && i in m.l2 && j < |m.l2[i]|
    requires Rewrites(f, f', ClusterOffset(m.l1[i]) + 8 * j, e)
    requires m.KeepsAllBut(f, f', L2Table(i))
    ensures WithData(m, i, j, e).OnDisk(f')
  {
    hide Meta.Counted, Meta.Fresh, Meta.GoodL1, Meta.GoodL2, BeAt;
    var m' := WithData(m, i, j, e);
    assert m'.L1OnDisk(f') by { L1Keeps(m, f, f'); }
    assert m'.RtOnDisk(f') by { RtKeeps(m, f, f'); }
    forall k | k in m'.l2
      ensures m'.L2OnDisk(f', k)
    {
      if k == i {
        assert m.Live(L2Table(i));
        L2EntryStored(m, f, f', i, j, e);
      } else {
        L2Keeps(m, f, f', k);
        assert m'.l2[k] == m.l2[k];
      }
    }
  }

  lemma L2EntryStored(m: Meta, f: seq<byte>, f': seq<byte>, i: nat, j: nat, e: u64)
    requires m.L2OnDisk(f, i) && j < |m.l2[i]|
    requires ClusterOffset(m.l1[i]) + 8 * |m.l2[i]| <= |f|
    requires Rewrites(f, f', ClusterOffset(m.l1[i]) + 8 * j, e)
    ensures WithData(m, i, j, e).L2OnDisk(f', i)
  {
    forall k | 0 <= k < |m.l2[i]|
      ensures BeAt(f', ClusterOffset(m.l1[i]) + 8 * k, 8) == Put(m.l2[i], j, e)[k]
    {
      if k != j {
        BeAtFrame(f, f', ClusterOffset(m.l1[i]) + 8 * k, 8);
      }
    }
  }

  /** A zeroed cluster reads like no cluster. */
  lemma DataGuest(m: Meta, f: seq<byte>, i: nat, j: nat, e: u64, off: nat)
    requires m.g.cs > 0 && Takes(m, i, j, off) && PointsTo(m, e, off)
    requires forall k :: off <= k < off + m.g.cs && k < |f| ==> f[k] == 0
    ensures WithData(m, i, j, e).Guest(f) == m.Guest(f)
  {
    var m' := WithData(m, i, j, e);
    forall x | 0 <= x < m.g.size
      ensures m'.GuestByte(f, x) == m.GuestByte(f, x)
    {
      assert m.g.InCluster(x) < m.g.cs;
    }
  }

  // A refcount block, which counts itself.

  function WithRefBlock(m: Meta, off: u64): Meta
    requires m.RcTab(off) < |m.rt|
  {
    m.(rt := Put(m.rt, m.RcTab(off), off))
  }

  lemma RefBlockShape(m: Meta, off: u64)
    requires m.Shape() && off % m.g.cs == 0 && off != 0
    requires m.RcTab(off) < |m.rt| && m.rt[m.RcTab(off)] == 0
    ensures WithRefBlock(m, off).Shape()
    ensures Extends(m, WithRefBlock(m, off), RefBlock(m.RcTab(off)))
  {
    var m' := WithRefBlock(m, off);
    forall i | 0 <= i < |m'.l1|
      ensures m'.GoodL1(m'.l1[i])
    {
      assert m.GoodL1(m.l1[i]);
    }
    forall i, j | i in m'.l2 && 0 <= j < |m'.l2[i]|
      ensures m'.GoodL2(m'.l2[i][j])
    {
      assert m.GoodL2(m.l2[i][j]);
    }
    forall p
      ensures m'.Live(p) <==> m.Live(p) || p == RefBlock(m.RcTab(off))
      ensures m.Live(p) ==> m'.Off(p) == m.Off(p)
    {
    }
  }

  lemma RefBlockPublished(m: Meta, f: seq<byte>, f': seq<byte>, off: u64)
    requires m.Healthy(f) && m.Fresh(off)
    requires off % m.g.cs == 0 && off != 0 && off + m.g.cs <= |f|
    requires m.RcTab(off) < |m.rt| && m.rt[m.RcTab(off)] == 0
    requires BeAt(f, off + 2 * m.RcSlot(off), 2) == 1
    requires Rewrites(f, f', m.g.rtOff + 8 * m.RcTab(off), off)
    ensures WithRefBlock(m, off).Healthy(f')
    ensures WithRefBlock(m, off).Guest(f') == m.Guest(f)
  {
    var m' := WithRefBlock(m, off);
    var t := m.RcTab(off);
    RefBlockShape(m, off);
    OwnedMore(m, m', |f|, RefBlock(t));
    assert m.Live(RefTable) && m'.Live(RefTable);
    RewriteKeeps(m, f, f', RefTable, m.g.rtOff + 8 * t, off);
    RewriteKeeps(m', f, f', RefTable, m.g.rtOff + 8 * t, off);
    assert |f'| == |f| && m'.Keeps(f, f', RefBlock(t));
    RefBlockGuest(m, f, f', off);
    hide Meta.Shape, Meta.Owned, Meta.Counted, Meta.OnDisk, Meta.KeepsAllBut, Meta.Keeps, Meta.Guest, Meta.Fresh,
         Extends, Rewrites, BeAt, WithRefBlock;
    RefBlockOnDisk(m, f, f', off);
    RefBlockCounted(m, f, f', off);
  }

  lemma RefBlockGuest(m: Meta, f: seq<byte>, f': seq<byte>, off: u64)
    requires m.Healthy(f) && m.KeepsAllBut(f, f', RefTable) && |f'| == |f| && m.RcTab(off) < |m.rt|
    ensures WithRefBlock(m, off).Guest(f') == m.Guest(f)
  {
    GuestKeeps(m, f, f');
    assert WithRefBlock(m, off).Guest(f') == m.Guest(f');
  }

  lemma RefBlockOnDisk(m: Meta, f: seq<byte>, f': seq<byte>, off: u64)
    requires m.Healthy(f) && m.KeepsAllBut(f, f', RefTable)
    requires m.RcTab(off) < |m.rt|
    requires Rewrites(f, f', m.g.rtOff + 8 * m.RcTab(off), off)
    ensures WithRefBlock(m, off).OnDisk(f')
  {
    var m' := WithRefBlock(m, off);
    RefTableOnDisk(m, f, f', off);
    TablesKept(m, f, f');
    hide Meta.Healthy, Meta.KeepsAllBut, Rewrites, BeAt, ClusterOffset, Meta.RtOnDisk;
    forall k | k in m.l2
      ensures m'.L2OnDisk(f', k)
    {
      SameTable(m, m', f', k);
    }
    assert m'.L1OnDisk(f');
  }

  /** L1 and L2 tables that nobody touched are still stored. */
  lemma TablesKept(m: Meta, f: seq<byte>, f': seq<byte>)
    requires m.Healthy(f) && m.KeepsAllBut(f, f', RefTable)
    ensures m.L1OnDisk(f') && forall k :: k in m.l2 ==> m.L2OnDisk(f', k)
  {
    L1Keeps(m, f, f');
    forall k | k in m.l2
      ensures m.L2OnDisk(f', k)
    {
      L2Keeps(m, f, f', k);
    }
  }

  lemma SameTable(m: Meta, m': Meta, f: seq<byte>, k: nat)
    requires m'.l1 == m.l1 && m'.l2 == m.l2 && m.L2OnDisk(f, k)
    ensures m'.L2OnDisk(f, k)
  {
  }

  lemma RefTableOnDisk(m: Meta, f: seq<byte>, f': seq<byte>, off: u64)
    requires m.Healthy(f) && m.RcTab(off) < |m.rt| && Rewrites(f, f', m.g.rtOff + 8 * m.RcTab(off), off)
    ensures WithRefBlock(m, off).RtOnDisk(f')
  {
    var m' := WithRefBlock(m, off);
    assert m.Live(RefTable) && m.RtOnDisk(f) && m.g.rtOff + 8 * |m.rt| <= |f|;
    hide Meta.Healthy, BeAt;
    forall t | 0 <= t < |m.rt|
      ensures BeAt(f', m.g.rtOff + 8 * t, 8) == m'.rt[t]
    {
      if t != m.RcTab(off) {
        BeAtFrame(f, f', m.g.rtOff + 8 * t, 8);
      }
    }
  }

  lemma RefBlockCounted(m: Meta, f: seq<byte>, f': seq<byte>, off: u64)
    requires m.Healthy(f) && m.KeepsAllBut(f, f', RefTable)
    requires off % m.g.cs == 0 && off != 0
    requires m.RcTab(off) < |m.rt| && m.rt[m.RcTab(off)] == 0
    requires BeAt(f, off + 2 * m.RcSlot(off), 2) == 1
    requires WithRefBlock(m, off).Keeps(f, f', RefBlock(m.RcTab(off))) && off + m.g.cs <= |f|
    requires Extends(m, WithRefBlock(m, off), RefBlock(m.RcTab(off)))
    ensures WithRefBlock(m, off).Counted(f')
  {
    var m' := WithRefBlock(m, off);
    NewCounter(m, f, f', off);
    assert m.Counted(f);
    hide Meta.Healthy, Meta.Shape, Meta.Owned, Extends, BeAt;
    forall p, x: nat | m.OwnsCluster(p, x)
      ensures m'.Rc(f', x) == m.Rc(f, x)
    {
      OldCounterKept(m, f, f', off, x);
    }
    hide WithRefBlock, Meta.Rc;
    CountedMore(m, m', f, f', RefBlock(m.RcTab(off)));
  }

  lemma NewCounter(m: Meta, f: seq<byte>, f': seq<byte>, off: u64)
    requires m.Healthy(f) && off != 0 && off % m.g.cs == 0
    requires m.RcTab(off) < |m.rt| && BeAt(f, off + 2 * m.RcSlot(off), 2) == 1
    requires WithRefBlock(m, off).Keeps(f, f', RefBlock(m.RcTab(off))) && off + m.g.cs <= |f|
    ensures WithRefBlock(m, off).Rc(f', off) == 1
  {
    RcInBlock(WithRefBlock(m, off), off);
    hide Meta.Healthy;
    BeAtFrame(f, f', off + 2 * m.RcSlot(off), 2);
  }

  lemma OldCounterKept(m: Meta, f: seq<byte>, f': seq<byte>, off: u64, x: nat)
    requires m.Healthy(f) && m.KeepsAllBut(f, f', RefTable) && off % m.g.cs == 0 && off != 0
    requires m.RcTab(off) < |m.rt| && m.rt[m.RcTab(off)] == 0 && m.Rc(f, x) == 1
    ensures WithRefBlock(m, off).Rc(f', x) == m.Rc(f, x)
  {
    hide BeAt;
    assert m.Keeps(f, f', RefBlock(m.RcTab(x)));
    RcKeeps(m, f, f', x);
  }
}
