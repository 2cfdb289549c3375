/** What an open handle must keep true of its caches, even after a metadata write could not be undone. */
module Qcow2Handle {
  import opened Arith
  import opened Bytes
  import opened Qcow2Meta
  import opened Qcow2Steps
  import opened Qcow2Publish

  /** Everything a read consults is intact: loaded L2 tables in memory, the others on disk. */
  ghost predicate Readable(m: Meta, cached: map<nat, seq<u64>>, f: seq<byte>) {
    && m.Shape()
    && m.Owned(|f|)
    && (forall i :: i in cached ==> i in m.l2 && cached[i] == m.l2[i])
    && (forall i :: i in m.l2 && i !in cached ==> m.L2OnDisk(f, i))
  }

  /** Every cached refcount block is a live one and equals its copy on disk. */
  ghost predicate BlocksMatch(m: Meta, blocks: map<nat, seq<byte>>, f: seq<byte>) {
    forall b :: b in blocks ==> BlockMatches(m, b, blocks[b], f)
  }

  ghost predicate BlockMatches(m: Meta, b: nat, block: seq<byte>, f: seq<byte>) {
    && (exists t: nat :: m.Live(RefBlock(t)) && m.rt[t] == b)
    && b + m.g.cs <= |f|
    && block == f[b..b + m.g.cs]
  }

  lemma ReadableKeeps(m: Meta, cached: map<nat, seq<u64>>, f: seq<byte>, f': seq<byte>, o: Owner)
    requires Readable(m, cached, f) && m.KeepsAllBut(f, f', o)
    requires m.Live(o) ==> m.Off(o) + m.Len(o) <= |f'|
    requires o.L2Table? ==> o.i in cached
    ensures Readable(m, cached, f')
  {
    forall p | m.Live(p)
      ensures m.Off(p) + m.Len(p) <= |f'|
    {
      assert p != o ==> m.Keeps(f, f', p);
    }
    forall i | i in m.l2 && i !in cached
      ensures m.L2OnDisk(f', i)
    {
      assert L2Table(i) != o;
      L2Keeps(m, f, f', i);
    }
  }

  lemma HealthyReadable(m: Meta, cached: map<nat, seq<u64>>, f: seq<byte>)
    requires m.Healthy(f)
    requires forall i :: i in cached ==> i in m.l2 && cached[i] == m.l2[i]
    ensures Readable(m, cached, f)
  {
  }

  /** `m'` has every refcount block of `m`. */
  ghost predicate KeepsRefBlocks(m: Meta, m': Meta) {
    m'.g == m.g && forall t: nat :: m.Live(RefBlock(t)) ==> m'.Live(RefBlock(t)) && m'.rt[t] == m.rt[t]
  }

  lemma BlocksKeep(m: Meta, m': Meta, blocks: map<nat, seq<byte>>, f: seq<byte>, f': seq<byte>, o: Owner)
    requires BlocksMatch(m, blocks, f) && KeepsRefBlocks(m, m')
    requires m.Owned(|f|) && m.KeepsAllBut(f, f', o)
    requires o.RefBlock? && m.Live(o) ==> m.rt[o.t] !in blocks
    ensures BlocksMatch(m', blocks, f')
  {
    hide BlockMatches, Meta.Owned, Meta.KeepsAllBut, KeepsRefBlocks;
    forall b | b in blocks
      ensures BlockMatches(m', b, blocks[b], f')
    {
      BlockKeeps(m, m', b, blocks[b], f, f', o);
    }
  }

  lemma BlockKeeps(m: Meta, m': Meta, b: nat, block: seq<byte>, f: seq<byte>, f': seq<byte>, o: Owner)
    requires BlockMatches(m, b, block, f) && KeepsRefBlocks(m, m') && m.KeepsAllBut(f, f', o)
    requires o.RefBlock? && m.Live(o) ==> m.rt[o.t] != b
    ensures BlockMatches(m', b, block, f')
  {
    var t: nat :| m.Live(RefBlock(t)) && m.rt[t] == b;
    assert m'.Live(RefBlock(t)) && m'.rt[t] == b;
    assert m.Keeps(f, f', RefBlock(t));
    assert f'[b..b + m.g.cs] == f[b..b + m.g.cs];
  }

  /** Setting a counter in a cached block and on disk keeps them equal. */
  lemma BlockUpdated(m: Meta, blocks: map<nat, seq<byte>>, f: seq<byte>, x: nat, v: nat)
    requires m.Shape() && m.Owned(|f|) && BlocksMatch(m, blocks, f) && m.HasRc(x)
    ensures var b: nat := m.rt[m.RcTab(x)];
            var f' := Patch(f, m.RcPos(x), ToBe(v, 2));
            var block := if b in blocks then Patch(blocks[b], 2 * m.RcSlot(x), ToBe(v, 2)) else [];
            BlocksMatch(m, if b in blocks then blocks[b := block] else blocks, f')
  {
    var t := m.RcTab(x);
    var b: nat := m.rt[t];
    var f' := Patch(f, m.RcPos(x), ToBe(v, 2));
    RcInBlock(m, x);
    PatchKeeps(m, f, RefBlock(t), m.RcPos(x), ToBe(v, 2));
    BlocksKeep(m, m, blocks - {b}, f, f', RefBlock(t));
    if b in blocks {
      var block := Patch(blocks[b], 2 * m.RcSlot(x), ToBe(v, 2));
      assert BlockMatches(m, b, blocks[b], f);
      assert block == f'[b..b + m.g.cs];
      assert BlockMatches(m, b, block, f');
      var after := blocks[b := block];
      forall c | c in after
        ensures BlockMatches(m, c, after[c], f')
      {
        if c != b {
          assert c in blocks - {b};
        }
      }
    } else {
      assert blocks - {b} == blocks;
    }
  }

  /** A block that was just read may be cached. */
  lemma BlockInserted(m: Meta, old_: map<nat, seq<byte>>, blocks: map<nat, seq<byte>>, f: seq<byte>, b: nat,
                      block: seq<byte>)
    requires BlocksMatch(m, old_, f) && BlockMatches(m, b, block, f)
    requires forall c :: c in blocks ==> if c == b then blocks[c] == block else c in old_ && blocks[c] == old_[c]
    ensures BlocksMatch(m, blocks, f)
  {
  }

  // A handle: its tables, its caches and the file.

  /** Reads are served from intact tables; unless writing is disabled, the whole image is consistent. */
  ghost predicate Intact(m: Meta, cached: map<nat, seq<u64>>, blocks: map<nat, seq<byte>>, f: seq<byte>, fault: bool) {
    && Readable(m, cached, f)
    && BlocksMatch(m, blocks, f)
    && (!fault ==> m.Healthy(f))
  }

  /** The plain facts about sizes that follow. */
  lemma Basics(m: Meta, cached: map<nat, seq<u64>>, blocks: map<nat, seq<byte>>, f: seq<byte>, fault: bool)
    requires Intact(m, cached, blocks, f, fault)
    ensures m.g.cs >= 512 && m.g.cs % 512 == 0
    ensures |m.l1| == m.g.l1Len && |m.rt| == m.g.rtLen
    ensures forall t :: 0 <= t < |m.rt| ==> AlignedTo(m.rt[t], m.g.cs)
    ensures m.g.cs <= |f|
  {
    assert m.Live(Header);
  }

  /** The cache may hold any blocks that match the file. */
  lemma OtherBlocks(m: Meta, cached: map<nat, seq<u64>>, old_: map<nat, seq<byte>>, blocks: map<nat, seq<byte>>,
                    f: seq<byte>, fault: bool)
    requires Intact(m, cached, old_, f, fault) && BlocksMatch(m, blocks, f)
    ensures Intact(m, cached, blocks, f, fault)
  {
  }

  /** What is known of L1 entry `i` and its table. */
  lemma TableFacts(m: Meta, cached: map<nat, seq<u64>>, blocks: map<nat, seq<byte>>, f: seq<byte>, fault: bool, i: nat)
    requires Intact(m, cached, blocks, f, fault) && i < |m.l1|
    ensures m.l1[i] != 0 <==> i in m.l2
    ensures m.l1[i] != 0 <==> ClusterOffset(m.l1[i]) != 0
    ensures ClusterOffset(m.l1[i]) % m.g.cs == 0
    ensures i in m.l2 ==> |m.l2[i]| == m.g.L2n()
    ensures i in m.l2 ==> forall j :: 0 <= j < |m.l2[i]| ==> m.GoodL2(m.l2[i][j])
    ensures i in cached ==> i in m.l2 && cached[i] == m.l2[i]
    ensures i in m.l2 && i !in cached ==> m.L2OnDisk(f, i)
  {
    assert m.GoodL1(m.l1[i]);
  }

  /** Every guest byte has an L1 entry. */
  lemma IndexInTable(m: Meta, cached: map<nat, seq<u64>>, blocks: map<nat, seq<byte>>, f: seq<byte>, fault: bool,
                     x: nat)
    requires Intact(m, cached, blocks, f, fault) && x < m.g.size
    ensures m.g.L1Index(x) < |m.l1|
  {
  }

  /** A table lies in the file. */
  lemma TableInFile(m: Meta, cached: map<nat, seq<u64>>, blocks: map<nat, seq<byte>>, f: seq<byte>, fault: bool, i: nat)
    requires Intact(m, cached, blocks, f, fault) && i in m.l2
    ensures i < |m.l1| && ClusterOffset(m.l1[i]) + 8 * m.g.L2n() <= |f|
  {
    assert m.Live(L2Table(i));
  }

  /** A counter lies in the file. */
  lemma CounterInFile(m: Meta, cached: map<nat, seq<u64>>, blocks: map<nat, seq<byte>>, f: seq<byte>, fault: bool,
                      x: nat)
    requires Intact(m, cached, blocks, f, fault) && m.HasRc(x)
    ensures m.rt[m.RcTab(x)] + m.g.cs <= |f| && m.RcPos(x) + 2 <= |f|
  {
    RcInBlock(m, x);
  }

  /** A table may be loaded. */
  lemma Loaded(m: Meta, cached: map<nat, seq<u64>>, blocks: map<nat, seq<byte>>, f: seq<byte>, fault: bool, i: nat)
    requires Intact(m, cached, blocks, f, fault) && i in m.l2
    ensures Intact(m, cached[i := m.l2[i]], blocks, f, fault)
  {
  }

  /** The stored form of an L1 entry. */
  lemma L1Entry(m: Meta, cached: map<nat, seq<u64>>, blocks: map<nat, seq<byte>>, f: seq<byte>, i: nat)
    requires Intact(m, cached, blocks, f, false) && i < |m.l1|
    ensures m.Live(L1Table) && m.Off(L1Table) <= m.g.l1Off + 8 * i
    ensures m.g.l1Off + 8 * i + 8 <= m.Off(L1Table) + m.Len(L1Table) <= |f|
    ensures BeAt(f, m.g.l1Off + 8 * i, 8) == m.l1[i]
  {
    assert m.Live(L1Table);
  }

  /** The stored form of an L2 entry. */
  lemma L2Entry(m: Meta, cached: map<nat, seq<u64>>, blocks: map<nat, seq<byte>>, f: seq<byte>, i: nat, j: nat)
    requires Intact(m, cached, blocks, f, false) && i in m.l2 && j < |m.l2[i]|
    ensures m.Live(L2Table(i)) && m.Off(L2Table(i)) == ClusterOffset(m.l1[i])
    ensures ClusterOffset(m.l1[i]) + 8 * j + 8 <= m.Off(L2Table(i)) + m.Len(L2Table(i)) <= |f|
    ensures BeAt(f, ClusterOffset(m.l1[i]) + 8 * j, 8) == m.l2[i][j]
  {
    assert m.Live(L2Table(i));
    assert m.L2OnDisk(f, i);
  }

  /** Every owned cluster is counted once. */
  lemma DataCounter(m: Meta, cached: map<nat, seq<u64>>, blocks: map<nat, seq<byte>>, f: seq<byte>, i: nat, j: nat)
    requires Intact(m, cached, blocks, f, false) && m.Live(Data(i, j))
    ensures m.HasRc(m.Off(Data(i, j))) && m.Rc(f, m.Off(Data(i, j))) == 1
    ensures m.Off(Data(i, j)) % m.g.cs == 0 && m.Off(Data(i, j)) + m.g.cs <= |f|
  {
    assert m.GoodL2(m.l2[i][j]);
    assert m.OwnsCluster(Data(i, j), m.Off(Data(i, j)));
  }

  lemma TableCounter(m: Meta, cached: map<nat, seq<u64>>, blocks: map<nat, seq<byte>>, f: seq<byte>, i: nat)
    requires Intact(m, cached, blocks, f, false) && i in m.l2
    ensures i < |m.l1| && m.HasRc(ClusterOffset(m.l1[i])) && m.Rc(f, ClusterOffset(m.l1[i])) == 1
  {
    assert m.GoodL1(m.l1[i]);
    assert m.OwnsCluster(L2Table(i), m.Off(L2Table(i)));
  }

  /** Bytes past the end of every claim may come, and go. */
  lemma TailChange(m: Meta, cached: map<nat, seq<u64>>, blocks: map<nat, seq<byte>>, f: seq<byte>, f': seq<byte>)
    requires Intact(m, cached, blocks, f, false) && m.KeepsAll(f, f')
    ensures Intact(m, cached, blocks, f', false) && Intact(m, cached, blocks, f', true)
    ensures m.Guest(f') == m.Guest(f)
  {
    Untouched(m, f, f');
    HealthyReadable(m, cached, f');
    assert m.KeepsAllBut(f, f', Header);
    BlocksKeep(m, m, blocks, f, f', Header);
  }

  /** A torn table entry that could not be restored: the tables in memory still serve every read. */
  lemma TornEntry(m: Meta, cached: map<nat, seq<u64>>, blocks: map<nat, seq<byte>>, f: seq<byte>,
                  o: Owner, at: nat, torn: seq<byte>)
    requires Intact(m, cached, blocks, f, false)
    requires o.L1Table? || o.RefTable? || (o.L2Table? && o.i in cached)
    requires m.Live(o) && m.Off(o) <= at && at + |torn| <= m.Off(o) + m.Len(o)
    ensures Intact(m, cached, blocks, Patch(f, at, torn), true)
    ensures m.Guest(Patch(f, at, torn)) == m.Guest(f)
  {
    var f' := Patch(f, at, torn);
    PatchKeeps(m, f, o, at, torn);
    ReadableKeeps(m, cached, f, f', o);
    BlocksKeep(m, m, blocks, f, f', o);
    GuestKeeps(m, f, f');
  }

  /** Setting the counter of an unowned cluster, with the cached copy updated. */
  lemma CounterSet(m: Meta, cached: map<nat, seq<u64>>, blocks: map<nat, seq<byte>>, f: seq<byte>, x: nat, v: nat)
    requires Intact(m, cached, blocks, f, false)
    requires x % m.g.cs == 0 && m.Fresh(x) && m.HasRc(x) && v < 0x1_0000
    ensures var b: nat := m.rt[m.RcTab(x)];
            var f' := Patch(f, m.RcPos(x), ToBe(v, 2));
            var blocks' := if b in blocks then blocks[b := Patch(blocks[b], 2 * m.RcSlot(x), ToBe(v, 2))] else blocks;
            && Intact(m, cached, blocks', f', false)
            && m.Guest(f') == m.Guest(f)
            && m.Rc(f', x) == v
  {
    CounterChange(m, f, x, ToBe(v, 2));
    HealthyReadable(m, cached, Patch(f, m.RcPos(x), ToBe(v, 2)));
    BlockUpdated(m, blocks, f, x, v);
    RcInBlock(m, x);
    Pow256Values();
    BeAtPatched(f, m.RcPos(x), v, 2);
  }

  /** A torn counter, with the cached copy dropped. */
  lemma CounterTorn(m: Meta, cached: map<nat, seq<u64>>, blocks: map<nat, seq<byte>>, f: seq<byte>, x: nat,
                    d: seq<byte>)
    requires Intact(m, cached, blocks, f, false)
    requires x % m.g.cs == 0 && m.Fresh(x) && m.HasRc(x) && |d| <= 2
    ensures var b: nat := m.rt[m.RcTab(x)];
            var f' := Patch(f, m.RcPos(x), d);
            && Intact(m, cached, blocks - {b}, f', false)
            && m.Guest(f') == m.Guest(f)
  {
    var f' := Patch(f, m.RcPos(x), d);
    CounterChange(m, f, x, d);
    HealthyReadable(m, cached, f');
    BlocksKeep(m, m, blocks - {m.rt[m.RcTab(x)]}, f, f', RefBlock(m.RcTab(x)));
  }

  /** Writing a counter does not reach the cluster it counts. */
  lemma CounterElsewhere(m: Meta, cached: map<nat, seq<u64>>, blocks: map<nat, seq<byte>>, f: seq<byte>, x: nat,
                         d: seq<byte>)
    requires Intact(m, cached, blocks, f, false)
    requires m.Fresh(x) && m.HasRc(x) && |d| <= 2
    ensures var f' := Patch(f, m.RcPos(x), d);
            |f'| == |f| && forall k :: x <= k < x + m.g.cs && k < |f| ==> f'[k] == f[k]
  {
    RcInBlock(m, x);
    var b := RefBlock(m.RcTab(x));
    assert Apart(m.Off(b), m.Len(b), x, m.g.cs);
  }

  /** The counter of `x` read from a copy of its block. */
  lemma CounterInBlock(m: Meta, f: seq<byte>, x: nat)
    requires m.g.cs >= 512 && m.HasRc(x) && m.rt[m.RcTab(x)] + m.g.cs <= |f|
    ensures var b := m.rt[m.RcTab(x)];
            BeAt(f[b..b + m.g.cs], 2 * m.RcSlot(x), 2) == m.Rc(f, x)
  {
    RcInBlock(m, x);
    var b, s := m.rt[m.RcTab(x)], 2 * m.RcSlot(x);
    SliceOfSlice(f, b, m.g.cs, s, 2);
  }

  lemma CounterCached(m: Meta, blocks: map<nat, seq<byte>>, f: seq<byte>, x: nat)
    requires m.g.cs >= 512 && BlocksMatch(m, blocks, f) && m.HasRc(x)
    ensures var b: nat := m.rt[m.RcTab(x)]; b in blocks ==> BeAt(blocks[b], 2 * m.RcSlot(x), 2) == m.Rc(f, x)
  {
    var b: nat := m.rt[m.RcTab(x)];
    if b in blocks {
      assert BlockMatches(m, b, blocks[b], f);
      CounterInBlock(m, f, x);
    }
  }

  lemma CounterRead(m: Meta, f: seq<byte>, x: nat)
    requires m.g.cs >= 512 && m.HasRc(x) && m.rt[m.RcTab(x)] + m.g.cs <= |f|
    ensures var b := m.rt[m.RcTab(x)];
            && BlockMatches(m, b, f[b..b + m.g.cs], f)
            && BeAt(f[b..b + m.g.cs], 2 * m.RcSlot(x), 2) == m.Rc(f, x)
  {
    assert m.Live(RefBlock(m.RcTab(x)));
    CounterInBlock(m, f, x);
  }

  /** A refcount block enters the table, and the cache. */
  lemma RefBlockJoins(m: Meta, cached: map<nat, seq<u64>>, blocks: map<nat, seq<byte>>, f: seq<byte>, f': seq<byte>,
                      off: u64, block: seq<byte>)
    requires Intact(m, cached, blocks, f, false) && m.Fresh(off)
    requires off % m.g.cs == 0 && off != 0 && off + m.g.cs <= |f| && block == f[off..off + m.g.cs]
    requires m.RcTab(off) < |m.rt| && m.rt[m.RcTab(off)] == 0
    requires BeAt(f, off + 2 * m.RcSlot(off), 2) == 1
    requires Rewrites(f, f', m.g.rtOff + 8 * m.RcTab(off), off)
    ensures Intact(WithRefBlock(m, off), cached, blocks, f', false)
    ensures BlockMatches(WithRefBlock(m, off), off, block, f')
    ensures WithRefBlock(m, off).Guest(f') == m.Guest(f)
  {
    var m' := WithRefBlock(m, off);
    assert m.Live(RefTable);
    RewriteKeeps(m, f, f', RefTable, m.g.rtOff + 8 * m.RcTab(off), off);
    assert BlockMatches(m', off, block, f') by {
      assert m'.Live(RefBlock(m.RcTab(off)));
      assert Apart(m.Off(RefTable), m.Len(RefTable), off, m.g.cs);
      assert f'[off..off + m.g.cs] == block;
    }
    BlocksKeep(m, m', blocks, f, f', RefTable);
    RefBlockPublished(m, f, f', off);
    hide Meta.Owned, Meta.Counted, Meta.OnDisk, Meta.Guest, BlockMatches;
    HealthyReadable(m', cached, f');
  }

  /** An empty L2 table enters the L1 table, and the cache. */
  lemma L2TableJoins(m: Meta, cached: map<nat, seq<u64>>, blocks: map<nat, seq<byte>>, f: seq<byte>, f': seq<byte>,
                     i: nat, e: u64, off: nat)
    requires Intact(m, cached, blocks, f, false)
    requires Ready(m, f, off) && m.Fresh(off) && PointsTo(m, e, off)
    requires i < |m.l1| && m.l1[i] == 0
    requires Rewrites(f, f', m.g.l1Off + 8 * i, e)
    ensures var m' := WithL2Table(m, i, e);
            Intact(m', cached[i := m'.l2[i]], blocks, f', false) && m'.Guest(f') == m.Guest(f)
  {
    var m' := WithL2Table(m, i, e);
    L2TablePublished(m, f, f', i, e, off);
    HealthyReadable(m', cached[i := m'.l2[i]], f');
    assert m.Live(L1Table);
    RewriteKeeps(m, f, f', L1Table, m.g.l1Off + 8 * i, e);
    BlocksKeep(m, m', blocks, f, f', L1Table);
  }

  /** A data cluster enters a loaded L2 table. */
  lemma DataJoins(m: Meta, cached: map<nat, seq<u64>>, blocks: map<nat, seq<byte>>, f: seq<byte>, f': seq<byte>,
                  i: nat, j: nat, e: u64, off: nat)
    requires Intact(m, cached, blocks, f, false)
    requires Ready(m, f, off) && Takes(m, i, j, off) && PointsTo(m, e, off) && off != 0
    requires Rewrites(f, f', ClusterOffset(m.l1[i]) + 8 * j, e)
    ensures var m' := WithData(m, i, j, e);
            Intact(m', cached[i := m'.l2[i]], blocks, f', false) && m'.Guest(f') == m.Guest(f)
  {
    var m' := WithData(m, i, j, e);
    DataBlocks(m, cached, blocks, f, f', i, j, e);
    DataPublished(m, f, f', i, j, e, off);
    hide Meta.Owned, Meta.Counted, Meta.OnDisk, Meta.Guest, BlocksMatch, ClusterOffset, Rewrites, Takes, Ready,
         PointsTo;
    HealthyReadable(m', cached[i := m'.l2[i]], f');
  }

  lemma DataBlocks(m: Meta, cached: map<nat, seq<u64>>, blocks: map<nat, seq<byte>>, f: seq<byte>, f': seq<byte>,
                   i: nat, j: nat, e: u64)
    requires Intact(m, cached, blocks, f, false) && i in m.l2 && i < |m.l1| && j < |m.l2[i]|
    requires Rewrites(f, f', ClusterOffset(m.l1[i]) + 8 * j, e)
    ensures BlocksMatch(WithData(m, i, j, e), blocks, f')
  {
    assert m.Live(L2Table(i));
    RewriteKeeps(m, f, f', L2Table(i), ClusterOffset(m.l1[i]) + 8 * j, e);
    BlocksKeep(m, WithData(m, i, j, e), blocks, f, f', L2Table(i));
  }

  /** Any bytes may be written inside a data cluster. */
  lemma DataWritten(m: Meta, cached: map<nat, seq<u64>>, blocks: map<nat, seq<byte>>, f: seq<byte>,
                    i: nat, j: nat, at: nat, d: seq<byte>)
    requires Intact(m, cached, blocks, f, false) && m.Live(Data(i, j))
    requires m.Off(Data(i, j)) <= at && at + |d| <= m.Off(Data(i, j)) + m.g.cs
    ensures Intact(m, cached, blocks, Patch(f, at, d), false)
    ensures |Patch(f, at, d)| == |f|
  {
    PatchKeeps(m, f, Data(i, j), at, d);
    DataChange(m, f, Patch(f, at, d), i, j);
    HealthyReadable(m, cached, Patch(f, at, d));
    BlocksKeep(m, m, blocks, f, Patch(f, at, d), Data(i, j));
  }

  // Where a counter is.

  datatype Location = Unaligned | TableTooSmall | UnalignedBlock | Missing | Found(block: nat, slot: nat)

  function Locate(g: Geometry, rt: seq<u64>, x: nat): Location
    requires g.cs >= 512
  {
    if x % g.cs != 0 then Unaligned
    else
      var c := x / g.cs;
      if c / g.Rbe() >= |rt| then TableTooSmall
      else if rt[c / g.Rbe()] == 0 then Missing
      else
        var block := rt[c / g.Rbe()] / 512 * 512;
        if block % g.cs != 0 then UnalignedBlock else Found(block, c % g.Rbe())
  }

  /** When refcount blocks are aligned, the location of a counter is the one `Meta` means. */
  lemma LocateMeaning(m: Meta, x: nat)
    requires m.g.cs >= 512 && m.g.cs % 512 == 0
    requires forall t :: 0 <= t < |m.rt| ==> AlignedTo(m.rt[t], m.g.cs)
    ensures var at := Locate(m.g, m.rt, x);
            && at != UnalignedBlock
            && (at.Unaligned? <==> x % m.g.cs != 0)
            && (at.TableTooSmall? <==> x % m.g.cs == 0 && m.RcTab(x) >= |m.rt|)
            && (at.Missing? ==> !m.HasRc(x) && m.RcTab(x) < |m.rt|)
            && (at.Found? ==> m.HasRc(x) && at.block == m.rt[m.RcTab(x)] && at.slot == m.RcSlot(x))
  {
    var t := m.RcTab(x);
    if t < |m.rt| {
      MultipleOfSector(m.rt[t], m.g.cs);
    }
  }
}
