/** An image of version 3 whose second cluster has been written. */
module Qcow2Sample {
  import opened Bytes
  import opened Qcow2Meta
  import Qcow2Extensions
  import opened Qcow2Header
  import opened Qcow2Handle
  import opened Qcow2Publish
  import opened Qcow2Open
  import opened Qcow2Reopen
  import opened Qcow2Format

  /** A disk of 1000 bytes in clusters of 512; the file has six of them. */
  const GEOMETRY: Geometry := Geometry(3, 1000, 512, 512, 1, 1024, 64)

  function Version3(): (r: seq<byte>)
    ensures |r| == 512
  {
    MAGIC + ToBe(3, 4) + Zeros(12) + ToBe(9, 4) + ToBe(1000, 8) + Zeros(4) + ToBe(1, 4) + ToBe(512, 8) + ToBe(1024, 8)
    + ToBe(1, 4) + Zeros(36) + ToBe(4, 4) + ToBe(104, 4) + Zeros(408)
  }

  /** A table or block that starts with `v`. */
  function Starting(v: nat): (r: seq<byte>)
    ensures |r| == 512
  {
    ToBe(v, 8) + Zeros(504)
  }

  function Counters(): (r: seq<byte>)
    ensures |r| == 512
  {
    ToBe(1, 2) + ToBe(1, 2) + ToBe(1, 2) + ToBe(1, 2) + ToBe(1, 2) + ToBe(1, 2) + Zeros(500)
  }

  function Table(): (r: seq<byte>)
    ensures |r| == 512
  {
    Zeros(8) + ToBe(EntryFor(2560), 8) + Zeros(496)
  }

  function Sevens(n: nat): (r: seq<byte>)
    ensures |r| == n && forall k :: 0 <= k < n ==> r[k] == 7
  {
    seq(n, _ => 7)
  }

  function Sample(): (r: seq<byte>)
    ensures |r| == 3072
  {
    Version3() + Starting(EntryFor(2048)) + Starting(1536) + Counters() + Table() + Sevens(512)
  }

  const TABLES: Meta := Meta(
    GEOMETRY, [EntryFor(2048)], [1536] + seq(63, _ => 0), map[0 := [0, EntryFor(2560)] + seq(62, _ => 0)])

  lemma Parts()
    ensures Sample()[..512] == Version3() && Sample()[512..1024] == Starting(EntryFor(2048))
    ensures Sample()[1024..1536] == Starting(1536) && Sample()[1536..2048] == Counters()
    ensures Sample()[2048..2560] == Table() && Sample()[2560..] == Sevens(512)
  {
    hide Version3, Starting, Counters, Table, Sevens, EntryFor;
  }

  /** A number that stands in a part of the file. */
  lemma NumberIn(f: seq<byte>, p: nat, part: seq<byte>, q: nat, v: nat, n: nat)
    requires p + |part| <= |f| && f[p..p + |part|] == part && q + n <= |part|
    requires part[q..q + n] == ToBe(v, n) && v < Pow256(n)
    ensures BeAt(f, p + q, n) == v
  {
    FromToBe(v, n);
    hide ToBe, FromBe;
    SliceOfSlice(f, p, |part|, q, n);
  }

  lemma ZeroIn(f: seq<byte>, p: nat, part: seq<byte>, q: nat, n: nat)
    requires p + |part| <= |f| && f[p..p + |part|] == part && q + n <= |part|
    requires forall k :: q <= k < q + n ==> part[k] == 0
    ensures f[p + q..p + q + n] == Zeros(n) && BeAt(f, p + q, n) == 0
  {
    SliceOfSlice(f, p, |part|, q, n);
    assert part[q..q + n] == Zeros(n);
    FromBeZeros(Zeros(n));
  }

  lemma HeaderNumbers(f: seq<byte>)
    requires |f| >= 512 && f[..512] == Version3()
    ensures f[..4] == MAGIC && BeAt(f, 4, 4) == 3 && BeAt(f, 20, 4) == 9 && BeAt(f, 24, 8) == 1000
    ensures BeAt(f, 36, 4) == 1 && BeAt(f, 40, 8) == 512 && BeAt(f, 48, 8) == 1024 && BeAt(f, 56, 4) == 1
    ensures BeAt(f, 96, 4) == 4 && BeAt(f, 100, 4) == 104
  {
    Pow256Values();
    hide ToBe, FromBe, BeAt, Pow256, Zeros;
    var h := Version3();
    assert f[..4] == f[..512][..4] == MAGIC;
    NumberIn(f, 0, h, 4, 3, 4);
    NumberIn(f, 0, h, 20, 9, 4);
    NumberIn(f, 0, h, 24, 1000, 8);
    NumberIn(f, 0, h, 36, 1, 4);
    NumberIn(f, 0, h, 40, 512, 8);
    NumberIn(f, 0, h, 48, 1024, 8);
    NumberIn(f, 0, h, 56, 1, 4);
    NumberIn(f, 0, h, 96, 4, 4);
    NumberIn(f, 0, h, 100, 104, 4);
  }

  lemma HeaderZeros(f: seq<byte>)
    requires |f| >= 512 && f[..512] == Version3()
    ensures f[8..20] == Zeros(12) && f[32..36] == Zeros(4) && f[60..72] == Zeros(12)
    ensures f[72..80] == Zeros(8) && f[88..96] == Zeros(8) && f[104..512] == Zeros(408)
  {
    hide ToBe, BeAt;
    var h := Version3();
    ZeroIn(f, 0, h, 8, 12);
    ZeroIn(f, 0, h, 32, 4);
    ZeroIn(f, 0, h, 60, 12);
    ZeroIn(f, 0, h, 72, 8);
    ZeroIn(f, 0, h, 88, 8);
    ZeroIn(f, 0, h, 104, 408);
  }

  lemma NoExtensions()
    ensures Qcow2Extensions.Accepted(Zeros(408), {})
  {
    ZeroIn(Zeros(408), 0, Zeros(408), 0, 4);
    ZeroIn(Zeros(408), 0, Zeros(408), 4, 4);
  }

  lemma SampleStart(f: seq<byte>)
    requires |f| >= 512 && f[..512] == Version3()
    ensures SupportedStart(f) && Pow2(9) == 512
  {
    HeaderNumbers(f);
    HeaderZeros(f);
    NoExtensions();
    assert Pow2(3) == 8 && Pow2(6) == 8 * Pow2(3) && Pow2(9) == 8 * Pow2(6);
    hide Version3, Pow2, BeAt, Qcow2Extensions.Accepted, Zeros;
    assert SupportedTables(f, 512);
    hide SupportedTables;
    assert SupportedVersion3(f, 104, 512);
    hide SupportedVersion3;
  }

  lemma SampleHeader(f: seq<byte>)
    requires |f| >= 512 && f[..512] == Version3()
    ensures Headed(GEOMETRY, f)
  {
    hide Version3, Pow2, BeAt, GoodStart, HeaderOf, GeometryOf, SupportedStart;
    HeaderNumbers(f);
    SampleStart(f);
    SupportedIff(f);
    GeometryBytes(GeometryOf(HeaderOf(f)), f);
  }

  lemma TableNumbers()
    ensures BeAt(Sample(), 512, 8) == EntryFor(2048) && BeAt(Sample(), 1024, 8) == 1536
    ensures forall t :: 1 <= t < 64 ==> BeAt(Sample(), 1024 + 8 * t, 8) == 0
    ensures BeAt(Sample(), 2056, 8) == EntryFor(2560)
    ensures forall j :: 0 <= j < 64 && j != 1 ==> BeAt(Sample(), 2048 + 8 * j, 8) == 0
  {
    Parts();
    Pow256Values();
    var f := Sample();
    hide Sample, ToBe, BeAt, Pow256, EntryFor;
    NumberIn(f, 512, Starting(EntryFor(2048)), 0, EntryFor(2048), 8);
    NumberIn(f, 1024, Starting(1536), 0, 1536, 8);
    NumberIn(f, 2048, Table(), 8, EntryFor(2560), 8);
    forall t | 1 <= t < 64
      ensures BeAt(f, 1024 + 8 * t, 8) == 0
    {
      ZeroIn(f, 1024, Starting(1536), 8 * t, 8);
    }
    forall j | 0 <= j < 64 && j != 1
      ensures BeAt(f, 2048 + 8 * j, 8) == 0
    {
      ZeroIn(f, 2048, Table(), 8 * j, 8);
    }
  }

  lemma CounterNumbers()
    ensures forall c :: 0 <= c < 6 ==> BeAt(Sample(), 1536 + 2 * c, 2) == 1
  {
    Parts();
    Pow256Values();
    var f := Sample();
    hide Sample, ToBe, BeAt, Pow256, Zeros;
    var part := Counters();
    NumberIn(f, 1536, part, 0, 1, 2);
    NumberIn(f, 1536, part, 2, 1, 2);
    NumberIn(f, 1536, part, 4, 1, 2);
    NumberIn(f, 1536, part, 6, 1, 2);
    NumberIn(f, 1536, part, 8, 1, 2);
    NumberIn(f, 1536, part, 10, 1, 2);
  }

  /** The entries of the two tables, one of them in use. */
  lemma Entries()
    ensures TABLES.rt[0] == 1536 && forall t :: 1 <= t < 64 ==> TABLES.rt[t] == 0
    ensures TABLES.l2[0][1] == EntryFor(2560) && forall j :: 0 <= j < 64 && j != 1 ==> TABLES.l2[0][j] == 0
    ensures TABLES.GoodL1(EntryFor(2048)) && TABLES.GoodL2(EntryFor(2560)) && TABLES.GoodL2(0)
    ensures EntryFor(2048) != 0 && ClusterOffset(EntryFor(2048)) == 2048
    ensures ClusterOffset(EntryFor(2560)) == 2560 && !ZeroFlag(EntryFor(2560)) && ClusterOffset(0) == 0
  {
    EntryPointsTo(TABLES, 2048);
    EntryPointsTo(TABLES, 2560);
  }

  lemma SampleShape()
    ensures TABLES.Shape() && TABLES.Owned(3072)
  {
    Entries();
    hide Meta.GoodL1, Meta.GoodL2, ClusterOffset, EntryFor;
    var m := TABLES;
    forall x: nat | x < GEOMETRY.size
      ensures GEOMETRY.L1Index(x) == 0
    {
      assert x / 512 <= 1;
    }
    forall o | m.Live(o)
      ensures o in {Owner.Header, L1Table, RefTable, RefBlock(0), L2Table(0), Data(0, 1)}
    {
    }
  }

  lemma SampleCounted()
    ensures TABLES.Counted(Sample())
  {
    Entries();
    CounterNumbers();
    SampleShape();
    var m, f := TABLES, Sample();
    hide Sample, BeAt, Meta.Shape, EntryFor;
    forall o, x: nat | m.OwnsCluster(o, x)
      ensures m.Rc(f, x) == 1
    {
      assert x < 3072 && x % 512 == 0;
      var c := x / 512;
      assert 0 <= c < 6 && c / 256 == 0 && c % 256 == c;
    }
  }

  lemma SampleDisk()
    ensures TABLES.Guest(Sample()) == Zeros(512) + Sevens(488)
  {
    var m, f := TABLES, Sample();
    Entries();
    Parts();
    hide Sample, BeAt, EntryFor, ClusterOffset, ZeroFlag, Version3, Starting, Counters, Table;
    var disk := Zeros(512) + Sevens(488);
    forall x | 0 <= x < 1000
      ensures m.GuestByte(f, x) == disk[x]
    {
      if x >= 512 {
        assert x / 512 == 1 && x % 512 == x - 512;
        assert f[2560..][x - 512] == 7;
      } else {
        assert x / 512 == 0;
      }
    }
    hide Meta.GuestByte;
    assert m.Guest(f) == disk;
  }

  lemma SampleOnDisk()
    ensures TABLES.OnDisk(Sample())
  {
    var m, f := TABLES, Sample();
    Entries();
    TableNumbers();
    hide Sample, BeAt, EntryFor, ClusterOffset, ZeroFlag, Meta.GoodL1, Meta.GoodL2;
    assert m.L1OnDisk(f) && m.RtOnDisk(f) && m.L2OnDisk(f, 0);
  }

  /** A handle that has loaded nothing yet is valid on a consistent file. */
  lemma NothingLoaded(m: Meta, f: seq<byte>)
    requires m.Healthy(f)
    ensures Intact(m, map[], map[], f, false)
  {
  }

  /** The image is consistent, and the disk shows the written bytes where they were written. */
  lemma SampleConsistent()
    ensures TABLES.Healthy(Sample()) && Intact(TABLES, map[], map[], Sample(), false)
    ensures Headed(GEOMETRY, Sample()) && TABLES.Guest(Sample()) == Zeros(512) + Sevens(488)
  {
    SampleShape();
    SampleCounted();
    SampleOnDisk();
    SampleDisk();
    hide Meta.Shape, Meta.Owned, Meta.Counted, Meta.OnDisk, Headed, Meta.Guest, Intact;
    assert Headed(GEOMETRY, Sample()) by {
      Parts();
      SampleHeader(Sample());
    }
    hide Sample;
    NothingLoaded(TABLES, Sample());
  }
}
