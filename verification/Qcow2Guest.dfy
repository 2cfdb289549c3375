/** Reading and writing one chunk of the virtual disk through the tables. */
module Qcow2Guest {
  import opened Arith
  import opened Bytes
  import opened Qcow2Meta
  import opened Qcow2Publish
  import opened Qcow2Handle

  /** Two guest bytes in the same cluster. */
  lemma SameCluster(g: Geometry, x: nat, y: nat)
    requires g.cs >= 512
    requires x <= y && g.InCluster(x) + (y - x) < g.cs
    ensures g.L1Index(y) == g.L1Index(x) && g.L2Index(y) == g.L2Index(x)
    ensures g.InCluster(y) == g.InCluster(x) + (y - x)
  {
    Quotient(y, g.cs, x / g.cs, x % g.cs + (y - x));
  }

  /** A guest byte is determined by its table indexes and its place in the cluster. */
  lemma IndexesUnique(g: Geometry, x: nat, y: nat)
    requires g.cs >= 512
    requires g.L1Index(x) == g.L1Index(y) && g.L2Index(x) == g.L2Index(y) && g.InCluster(x) == g.InCluster(y)
    ensures x == y
  {
    DivModUnique(x / g.cs, y / g.cs, g.L2n());
    DivModUnique(x, y, g.cs);
  }

  /** Guest byte `x` is stored at host offset `host`. */
  ghost predicate StoredAt(m: Meta, x: nat, host: nat) {
    var i, j := m.g.L1Index(x), m.g.L2Index(x);
    m.Mapped(i, j) && host == ClusterOffset(m.l2[i][j]) + m.g.InCluster(x)
  }

  /** A chunk inside one mapped cluster. */
  ghost predicate Chunk(m: Meta, x: nat, n: nat) {
    && m.g.cs >= 512
    && m.g.InCluster(x) + n <= m.g.cs
    && x + n <= m.g.size
  }

  /** Writing the chunk on the host writes it on the virtual disk, and nothing else there. */
  lemma ChunkWritten(m: Meta, cached: map<nat, seq<u64>>, blocks: map<nat, seq<byte>>, f: seq<byte>,
                     x: nat, host: nat, d: seq<byte>)
    requires Intact(m, cached, blocks, f, false)
    requires StoredAt(m, x, host) && Chunk(m, x, |d|)
    ensures Intact(m, cached, blocks, Patch(f, host, d), false)
    ensures m.Guest(Patch(f, host, d)) == Patch(m.Guest(f), x, d) && |Patch(f, host, d)| == |f|
  {
    var i, j := m.g.L1Index(x), m.g.L2Index(x);
    assert m.Live(Data(i, j));
    DataWritten(m, cached, blocks, f, i, j, host, d);
    forall y: nat | y < m.g.size
      ensures m.GuestByte(Patch(f, host, d), y) == Patch(m.Guest(f), x, d)[y]
    {
      ByteWritten(m, f, x, host, d, y);
    }
  }

  lemma ByteWritten(m: Meta, f: seq<byte>, x: nat, host: nat, d: seq<byte>, y: nat)
    requires m.Shape() && m.Owned(|f|)
    requires StoredAt(m, x, host) && Chunk(m, x, |d|) && y < m.g.size
    ensures m.GuestByte(Patch(f, host, d), y) == if x <= y < x + |d| then d[y - x] else m.GuestByte(f, y)
  {
    hide Meta.Shape, Meta.Owned, StoredAt, Chunk, Meta.GuestByte, Meta.Mapped;
    var f' := Patch(f, host, d);
    ChunkInFile(m, f, x, host, |d|);
    if x <= y < x + |d| {
      StoredBeside(m, x, host, |d|, y);
      StoredByte(m, f', y, host + (y - x));
    } else if m.Mapped(m.g.L1Index(y), m.g.L2Index(y)) {
      var at := OtherByte(m, f, x, host, d, y);
      StoredByte(m, f, y, at);
      StoredByte(m, f', y, at);
    } else {
      ZeroByte(m, f, y);
      ZeroByte(m, f', y);
    }
  }

  lemma StoredByte(m: Meta, f: seq<byte>, y: nat, host: nat)
    requires StoredAt(m, y, host) && host < |f|
    ensures m.GuestByte(f, y) == f[host]
  {
    hide Geometry.L1Index, Geometry.L2Index, Geometry.InCluster, ClusterOffset;
  }

  lemma ZeroByte(m: Meta, f: seq<byte>, y: nat)
    requires !m.Mapped(m.g.L1Index(y), m.g.L2Index(y))
    ensures m.GuestByte(f, y) == 0
  {
    hide Geometry.L1Index, Geometry.L2Index, Geometry.InCluster, ClusterOffset;
  }

  lemma ChunkInFile(m: Meta, f: seq<byte>, x: nat, host: nat, n: nat)
    requires m.Owned(|f|) && StoredAt(m, x, host) && Chunk(m, x, n)
    ensures host + n <= |f|
  {
    assert m.Live(Data(m.g.L1Index(x), m.g.L2Index(x)));
    hide Geometry.L1Index, Geometry.L2Index, Geometry.InCluster;
  }

  /** The bytes of a chunk are stored one after the other. */
  lemma StoredBeside(m: Meta, x: nat, host: nat, n: nat, y: nat)
    requires StoredAt(m, x, host) && Chunk(m, x, n) && x <= y < x + n
    ensures StoredAt(m, y, host + (y - x))
  {
    SameCluster(m.g, x, y);
    hide Geometry.L1Index, Geometry.L2Index, Geometry.InCluster, ClusterOffset;
  }

  /** A mapped guest byte outside the chunk is stored outside it. */
  lemma OtherByte(m: Meta, f: seq<byte>, x: nat, host: nat, d: seq<byte>, y: nat) returns (at: nat)
    requires m.Owned(|f|) && StoredAt(m, x, host) && Chunk(m, x, |d|) && y < m.g.size && !(x <= y < x + |d|)
    requires m.Mapped(m.g.L1Index(y), m.g.L2Index(y))
    ensures StoredAt(m, y, at) && at < |f| && !(host <= at < host + |d|)
  {
    var i, j := m.g.L1Index(x), m.g.L2Index(x);
    var k, h := m.g.L1Index(y), m.g.L2Index(y);
    at := ClusterOffset(m.l2[k][h]) + m.g.InCluster(y);
    assert m.Live(Data(i, j)) && m.Live(Data(k, h));
    assert m.g.InCluster(y) < m.g.cs;
    if k == i && h == j {
      var z := x + m.g.InCluster(y) - m.g.InCluster(x);
      if m.g.InCluster(y) >= m.g.InCluster(x) && m.g.InCluster(y) < m.g.InCluster(x) + |d| {
        SameCluster(m.g, x, z);
        IndexesUnique(m.g, y, z);
      }
    } else {
      assert Apart(m.Off(Data(i, j)), m.g.cs, m.Off(Data(k, h)), m.g.cs);
    }
  }

  /** What a read of the chunk finds. */
  lemma ChunkRead(m: Meta, cached: map<nat, seq<u64>>, blocks: map<nat, seq<byte>>, f: seq<byte>, fault: bool,
                  x: nat, n: nat)
    requires Intact(m, cached, blocks, f, fault) && Chunk(m, x, n)
    ensures var i, j := m.g.L1Index(x), m.g.L2Index(x);
            if m.Mapped(i, j)
            then
              var host := ClusterOffset(m.l2[i][j]) + m.g.InCluster(x);
              host + n <= |f| && m.Guest(f)[x..x + n] == f[host..host + n]
            else m.Guest(f)[x..x + n] == Zeros(n)
  {
    assert m.Owned(|f|);
    hide Intact, Meta.Owned, Meta.Guest, Geometry.L1Index, Geometry.L2Index, Geometry.InCluster, ClusterOffset, Chunk;
    var i, j := m.g.L1Index(x), m.g.L2Index(x);
    if m.Mapped(i, j) {
      var host := ClusterOffset(m.l2[i][j]) + m.g.InCluster(x);
      ChunkInFile(m, f, x, host, n);
      MappedRead(m, f, x, n, host);
    } else {
      UnmappedRead(m, f, x, n);
    }
  }

  lemma MappedRead(m: Meta, f: seq<byte>, x: nat, n: nat, host: nat)
    requires StoredAt(m, x, host) && Chunk(m, x, n) && host + n <= |f|
    ensures m.Guest(f)[x..x + n] == f[host..host + n]
  {
    hide StoredAt, Meta.GuestByte, Geometry.InCluster;
    var guest, data := m.Guest(f)[x..x + n], f[host..host + n];
    forall k | 0 <= k < n
      ensures guest[k] == data[k]
    {
      StoredBeside(m, x, host, n, x + k);
      StoredByte(m, f, x + k, host + k);
    }
  }

  lemma UnmappedRead(m: Meta, f: seq<byte>, x: nat, n: nat)
    requires !m.Mapped(m.g.L1Index(x), m.g.L2Index(x)) && Chunk(m, x, n)
    ensures m.Guest(f)[x..x + n] == Zeros(n)
  {
    hide Meta.Mapped, Meta.GuestByte, Geometry.L1Index, Geometry.L2Index, Geometry.InCluster;
    var guest := m.Guest(f)[x..x + n];
    forall k | 0 <= k < n
      ensures guest[k] == 0
    {
      SameCluster(m.g, x, x + k);
      ZeroByte(m, f, x + k);
    }
  }

  /** The bytes under a cluster that is flagged as zeros are invisible. */
  lemma HiddenWritten(m: Meta, cached: map<nat, seq<u64>>, blocks: map<nat, seq<byte>>, f: seq<byte>,
                      i: nat, j: nat, d: seq<byte>)
    requires Intact(m, cached, blocks, f, false)
    requires m.Live(Data(i, j)) && !m.Mapped(i, j) && |d| <= m.g.cs
    ensures Intact(m, cached, blocks, Patch(f, m.Off(Data(i, j)), d), false)
    ensures m.Guest(Patch(f, m.Off(Data(i, j)), d)) == m.Guest(f)
  {
    var f' := Patch(f, m.Off(Data(i, j)), d);
    DataWritten(m, cached, blocks, f, i, j, m.Off(Data(i, j)), d);
    PatchKeeps(m, f, Data(i, j), m.Off(Data(i, j)), d);
    forall x: nat | x < m.g.size
      ensures m.GuestByte(f', x) == m.GuestByte(f, x)
    {
      var k, h := m.g.L1Index(x), m.g.L2Index(x);
      if m.Mapped(k, h) {
        assert m.Live(Data(k, h)) && m.Keeps(f, f', Data(k, h));
        assert m.g.InCluster(x) < m.g.cs;
      }
    }
  }

  /** Once zeroed, it may lose the flag. */
  lemma ZeroedReady(m: Meta, cached: map<nat, seq<u64>>, blocks: map<nat, seq<byte>>, f: seq<byte>, i: nat, j: nat)
    requires Intact(m, cached, blocks, f, false)
    requires m.Live(Data(i, j)) && !m.Mapped(i, j)
    requires var off := m.Off(Data(i, j)); off + m.g.cs <= |f| && forall k :: off <= k < off + m.g.cs ==> f[k] == 0
    ensures Ready(m, f, m.Off(Data(i, j))) && Takes(m, i, j, m.Off(Data(i, j)))
  {
    DataCounter(m, cached, blocks, f, i, j);
  }

  /** The chunk that a read takes from where `x` is stored. */
  lemma ChunkSource(m: Meta, cached: map<nat, seq<u64>>, blocks: map<nat, seq<byte>>, f: seq<byte>, fault: bool,
                    x: nat, n: nat, zero: bool, host: nat)
    requires Intact(m, cached, blocks, f, fault) && Chunk(m, x, n)
    requires if zero then !m.Mapped(m.g.L1Index(x), m.g.L2Index(x)) else StoredAt(m, x, host)
    ensures if zero then m.Guest(f)[x..x + n] == Zeros(n)
            else host + n <= |f| && m.Guest(f)[x..x + n] == f[host..host + n]
  {
    ChunkRead(m, cached, blocks, f, fault, x, n);
  }

  /** A disk after the first `n` bytes of `b` were written at `off`. */
  ghost function Overlay(guest: seq<byte>, off: nat, b: seq<byte>, n: nat): seq<byte>
    requires n <= |b|
  {
    Patch(guest, off, b[..n])
  }

  lemma OverlayNone(guest: seq<byte>, off: nat, b: seq<byte>)
    ensures Overlay(guest, off, b, 0) == guest
  {
  }

  lemma OverlayMore(guest: seq<byte>, off: nat, b: seq<byte>, done: nat, chunk: nat, kept: nat)
    requires off + |b| <= |guest| && done + chunk <= |b| && kept <= chunk
    ensures Overlay(Overlay(guest, off, b, done), off + done, b[done..done + chunk], kept)
            == Overlay(guest, off, b, done + kept)
  {
    assert b[done..done + chunk][..kept] == b[done..done + kept];
  }
}
