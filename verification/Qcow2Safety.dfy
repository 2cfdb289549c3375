/** What holds of every open image, after any run of reads and writes, torn or not. */
module Qcow2Safety {
  import opened Arith
  import opened Bytes
  import opened Qcow2Meta
  import opened Qcow2Handle
  import opened Qcow2Guest
  import opened Qcow2Image

  /** While writing is enabled the file holds exactly the tables of the handle, and they are consistent. */
  lemma ConsistentOnDisk(q: Image)
    requires q.Valid() && !q.fault
    ensures forall i :: 0 <= i < |q.l1| ==> BeAt(q.file.bytes, q.g.l1Off + 8 * i, 8) == q.l1[i]
    ensures forall t :: 0 <= t < |q.rt| ==> BeAt(q.file.bytes, q.g.rtOff + 8 * t, 8) == q.rt[t]
    ensures forall i :: i in q.l2Cache ==> i < |q.l1| && TableAt(q.file.bytes, ClusterOffset(q.l1[i]), q.l2Cache[i])
    ensures q.M().Healthy(q.file.bytes)
  {
    hide Meta.Shape, Meta.Owned, Meta.Counted, BlocksMatch, BeAt, ClusterOffset;
    var m, f := q.M(), q.file.bytes;
    forall i | i in q.l2Cache
      ensures i < |q.l1| && TableAt(f, ClusterOffset(q.l1[i]), q.l2Cache[i])
    {
      assert m.L2OnDisk(f, i);
    }
  }

  /** The table is stored at `off`. */
  ghost predicate TableAt(f: seq<byte>, off: nat, table: seq<u64>) {
    forall j :: 0 <= j < |table| ==> BeAt(f, off + 8 * j, 8) == table[j]
  }

  /**
   No host cluster has bytes of two owners: header, tables, refcount blocks and data clusters do not
   even share the rest of a cluster that a table does not fill.  All their bytes lie in the file.
   */
  lemma OneOwner(q: Image, o: Owner, p: Owner, x: nat, y: nat)
    requires q.Valid() && q.M().OwnsByte(o, x) && q.M().OwnsByte(p, y) && q.g.cs > 0
    ensures x < |q.file.bytes| && (x / q.g.cs == y / q.g.cs ==> o == p)
  {
    var m := q.M();
    assert m.Owned(|q.file.bytes|) && m.Shape();
    if x / q.g.cs == y / q.g.cs {
      OwnsStart(m, o, x);
      OwnsStart(m, p, y);
      OneOwnerOf(m, |q.file.bytes|, o, p, ClusterStart(x, q.g.cs));
    }
    OneOwnerOf(m, |q.file.bytes|, o, o, x);
  }

  function ClusterStart(x: nat, cs: nat): nat
    requires cs > 0
  {
    cs * (x / cs)
  }

  /** Who owns a byte owns the start of its cluster. */
  lemma OwnsStart(m: Meta, o: Owner, x: nat)
    requires m.Shape() && m.OwnsByte(o, x) && m.g.cs > 0
    ensures m.OwnsByte(o, ClusterStart(x, m.g.cs))
  {
    OffAligned(m, o);
    hide Meta.Shape;
    StartBefore(m.Off(o), x, m.g.cs);
  }

  lemma StartBefore(off: nat, x: nat, cs: nat)
    requires cs > 0 && AlignedTo(off, cs) && off <= x
    ensures off <= ClusterStart(x, cs) <= x
  {
    var a, b := off / cs, x / cs;
    assert off == cs * a && x == cs * b + x % cs;
    if a > b {
      MulStep(cs, a, b);
    } else if b > a {
      MulStep(cs, b, a);
    }
  }

  lemma OffAligned(m: Meta, o: Owner)
    requires m.Shape() && m.Live(o)
    ensures AlignedTo(m.Off(o), m.g.cs)
  {
    hide ClusterOffset, ReservedL1Bits, ValidL2Entry, Geometry.L1Index;
    assert AlignedTo(m.g.l1Off, m.g.cs) && AlignedTo(m.g.rtOff, m.g.cs);
    match o
    case Header =>
      ZeroAligned(m.g.cs);
    case Data(i, j) =>
      assert m.GoodL2(m.l2[i][j]);
    case L2Table(i) =>
      assert m.GoodL1(m.l1[i]);
    case _ =>
  }

  lemma OneOwnerOf(m: Meta, n: nat, o: Owner, p: Owner, x: nat)
    requires m.Owned(n)
    ensures m.OwnsByte(o, x) && m.OwnsByte(p, x) ==> o == p && x < n
  {
    if o != p && m.Live(o) && m.Live(p) {
      assert Apart(m.Off(o), m.Len(o), m.Off(p), m.Len(p));
    }
  }

  /** Every owned cluster is counted exactly once; a refcount block counts itself. */
  lemma OneReference(q: Image, o: Owner, x: nat)
    requires q.Valid() && !q.fault && q.M().OwnsCluster(o, x)
    ensures q.M().HasRc(x) && q.M().Rc(q.file.bytes, x) == 1
  {
    assert q.M().Counted(q.file.bytes);
  }

  lemma BlockCountsItself(q: Image, t: nat)
    requires q.Valid() && !q.fault && t < |q.rt| && q.rt[t] != 0
    ensures q.M().Rc(q.file.bytes, q.rt[t]) == 1
  {
    var m := q.M();
    assert m.Live(RefBlock(t)) && m.OwnsCluster(RefBlock(t), q.rt[t]);
    OneReference(q, RefBlock(t), q.rt[t]);
  }

  /** Two guest bytes never share a host byte. */
  lemma MappingInjective(q: Image, x: nat, y: nat, host: nat)
    requires q.Valid() && StoredAt(q.M(), x, host) && StoredAt(q.M(), y, host)
    ensures x == y
  {
    var m := q.M();
    var i, j, k, h := m.g.L1Index(x), m.g.L2Index(x), m.g.L1Index(y), m.g.L2Index(y);
    assert m.Live(Data(i, j)) && m.Live(Data(k, h));
    assert m.g.InCluster(x) < m.g.cs && m.g.InCluster(y) < m.g.cs;
    OneOwner(q, Data(i, j), Data(k, h), host, host);
    IndexesUnique(m.g, x, y);
  }

  /** Guest data is never stored on metadata. */
  lemma DataOffMetadata(q: Image, x: nat, host: nat, o: Owner)
    requires q.Valid() && StoredAt(q.M(), x, host) && q.M().OwnsByte(o, host)
    ensures o == Data(q.g.L1Index(x), q.g.L2Index(x))
  {
    var m := q.M();
    var i, j := m.g.L1Index(x), m.g.L2Index(x);
    assert m.Live(Data(i, j)) && m.g.InCluster(x) < m.g.cs;
    OneOwner(q, Data(i, j), o, host, host);
  }

  /** A cached refcount block equals the block on disk, even after a torn refcount write. */
  lemma CacheAgrees(q: Image, b: nat)
    requires q.Valid() && b in q.cache.Blocks()
    ensures b + q.g.cs <= |q.file.bytes| && q.cache.Blocks()[b] == q.file.bytes[b..b + q.g.cs]
    ensures exists t: nat :: t < |q.rt| && q.rt[t] == b != 0
  {
    assert BlockMatches(q.M(), b, q.cache.Blocks()[b], q.file.bytes);
    var t: nat :| q.M().Live(RefBlock(t)) && q.rt[t] == b;
  }
}
