/**
 The image format in the bytes of the file: byte offsets, lengths and bit positions, and none of the
 definitions that the handle works with.
 */
module Qcow2Format {
  import opened Arith
  import opened Bytes
  import opened Qcow2Meta
  import Qcow2Extensions
  import opened Qcow2Header
  import opened Qcow2Open
  import opened Qcow2Publish
  import opened Qcow2Reopen
  import opened Qcow2Safety

  // The header.

  /** The first cluster of a supported image, byte by byte. */
  ghost predicate SupportedStart(f: seq<byte>) {
    && |f| >= 512 && f[..4] == [0x51, 0x46, 0x49, 0xfb]
    && f[8..20] == Zeros(12) && f[32..36] == Zeros(4) && f[60..72] == Zeros(12)
    && 9 <= BeAt(f, 20, 4) <= 21 && 512 <= Pow2(BeAt(f, 20, 4)) <= |f|
    && SupportedTables(f, Pow2(BeAt(f, 20, 4)))
    && match BeAt(f, 4, 4) {
         case 2 => Qcow2Extensions.Accepted(f[72..Pow2(BeAt(f, 20, 4))], {})
         case 3 => SupportedVersion3(f, BeAt(f, 100, 4), Pow2(BeAt(f, 20, 4)))
         case _ => false
       }
  }

  /** Disk size, L1 table and refcount table. */
  ghost predicate SupportedTables(f: seq<byte>, cs: nat) {
    && BeAt(f, 24, 8) < 0x8000_0000_0000_0000
    && 0 < BeAt(f, 36, 4) <= 0x40_0000
    && 0 < BeAt(f, 56, 4) && BeAt(f, 56, 4) * cs <= 0x80_0000
    && 0 < BeAt(f, 40, 8) < 0x8000_0000_0000_0000 - 8 * BeAt(f, 36, 4)
    && 0 < BeAt(f, 48, 8) < 0x8000_0000_0000_0000 - BeAt(f, 56, 4) * cs
    && cs >= 8 && BeAt(f, 40, 8) % cs == 0 && BeAt(f, 48, 8) % cs == 0
    && forall x: nat {:trigger x / cs} :: x < BeAt(f, 24, 8) ==> x / cs / (cs / 8) < BeAt(f, 36, 4)
  }

  /** The longer header of version 3: no incompatible and no autoclear features, 16-bit counters. */
  ghost predicate SupportedVersion3(f: seq<byte>, length: nat, cs: nat)
    requires 512 <= |f| && cs <= |f|
  {
    && f[72..80] == Zeros(8) && f[88..96] == Zeros(8) && BeAt(f, 96, 4) == 4
    && 104 <= length <= cs && length % 8 == 0
    && (length > 104 ==> f[104..112] == Zeros(8))
    && Qcow2Extensions.Accepted(f[length..cs], {})
  }

  lemma ZeroRun(f: seq<byte>, p: nat, n: nat)
    requires p + n <= |f|
    ensures BeAt(f, p, n) == 0 <==> f[p..p + n] == Zeros(n)
  {
    var s := f[p..p + n];
    FromBeZeros(Zeros(n));
    ToFromBe(s);
    ToFromBe(Zeros(n));
  }

  /** Two neighbouring fields are zero when all their bytes are. */
  lemma ZeroPair(f: seq<byte>, p: nat, a: nat, b: nat)
    requires p + a + b <= |f|
    ensures BeAt(f, p, a) == 0 && BeAt(f, p + a, b) == 0 <==> f[p..p + a + b] == Zeros(a + b)
  {
    ZeroRun(f, p, a);
    ZeroRun(f, p + a, b);
    ZeroRun(f, p, a + b);
    hide BeAt;
    var s := f[p..p + a + b];
    assert s == f[p..p + a] + f[p + a..p + a + b];
    assert Zeros(a + b) == Zeros(a) + Zeros(b);
    if s == Zeros(a + b) {
      assert f[p..p + a] == s[..a] == Zeros(a) && f[p + a..p + a + b] == s[a..] == Zeros(b);
    }
  }

  lemma TablesIff(f: seq<byte>)
    requires 9 <= BeAt(f, 20, 4) <= 21 && HeaderOf(f).headerLength <= Pow2(BeAt(f, 20, 4))
    ensures var h := HeaderOf(f); var cs := Pow2(BeAt(f, 20, 4));
      SupportedTables(f, cs) <==>
        && h.size <= MAX_INT64 && h.l1Size != 0 && h.l1TableOffset != 0 && h.refcountTableOffset != 0
        && h.refcountTableClusters != 0 && h.l1TableOffset % cs == 0 && h.refcountTableOffset % cs == 0
        && ValidGeometry(h)
  {
    var h, cs := HeaderOf(f), Pow2(BeAt(f, 20, 4));
    Pow2Sector(BeAt(f, 20, 4));
    L1CoverageExact(h.size, cs, h.l1Size);
    hide Pow2, RequiredL1, BeAt;
  }

  /** The accepted header clusters are exactly the supported ones. */
  lemma SupportedIff(f: seq<byte>)
    ensures GoodStart(f) <==> SupportedStart(f)
  {
    if |f| >= 512 && 9 <= BeAt(f, 20, 4) <= 21 {
      Pow2Sector(BeAt(f, 20, 4));
      ZeroPair(f, 8, 8, 4);
      ZeroRun(f, 32, 4);
      ZeroPair(f, 60, 4, 8);
      ZeroRun(f, 72, 8);
      ZeroRun(f, 88, 8);
      if HeaderOf(f).headerLength <= Pow2(BeAt(f, 20, 4)) {
        TablesIff(f);
      }
      hide Pow2, BeAt, ValidGeometry, SupportedTables, Qcow2Extensions.Accepted;
    } else if GoodStart(f) {
      Pow2Sector(BeAt(f, 20, 4));
    }
  }

  /** The geometry that an accepted header gives. */
  lemma GeometryBytes(g: Geometry, f: seq<byte>)
    requires Headed(g, f)
    ensures 512 <= g.cs == Pow2(BeAt(f, 20, 4)) && g.size == BeAt(f, 24, 8) && g.version == BeAt(f, 4, 4)
    ensures g.l1Off == BeAt(f, 40, 8) && g.l1Len == BeAt(f, 36, 4)
    ensures g.rtOff == BeAt(f, 48, 8) && 8 * g.rtLen == BeAt(f, 56, 4) * g.cs
  {
    HeaderGeometry(HeaderOf(f));
  }

  // Table entries.

  /** An L2 entry is a sector-aligned host offset below 2^56, a zero flag and a copied flag. */
  ghost predicate IsL2Entry(version: nat, e: nat, off: nat, zero: bool, copied: bool) {
    && e == off + (if zero then 1 else 0) + (if copied then 0x8000_0000_0000_0000 else 0)
    && off % 512 == 0 && off < 0x100_0000_0000_0000
    && (zero ==> version != 2) && (copied ==> off != 0)
  }

  /** The valid entries are exactly these, and the fields read from one are the fields it is made of. */
  lemma ValidL2Iff(version: nat, e: u64)
    ensures ValidL2Entry(version, e) <==> exists off: nat, zero, copied :: IsL2Entry(version, e, off, zero, copied)
    ensures forall off: nat, zero, copied :: IsL2Entry(version, e, off, zero, copied) ==>
      ClusterOffset(e) == off && ZeroFlag(e) == zero && CopiedFlag(e) == copied
  {
    hide ClusterOffset, ZeroFlag, CopiedFlag, CompressedFlag, ReservedL2Bits;
    forall off: nat, zero, copied | IsL2Entry(version, e, off, zero, copied)
      ensures ClusterOffset(e) == off && ZeroFlag(e) == zero && CopiedFlag(e) == copied
      ensures !CompressedFlag(e) && !ReservedL2Bits(e)
    {
      L2Fields(e, off / 512, zero, copied);
    }
    if ValidL2Entry(version, e) {
      L2Parts(e);
      assert IsL2Entry(version, e, ClusterOffset(e), ZeroFlag(e), CopiedFlag(e));
    }
  }

  lemma L2Fields(e: nat, sector: nat, zero: bool, copied: bool)
    requires e == 512 * sector + (if zero then 1 else 0) + (if copied then 0x8000_0000_0000_0000 else 0)
    requires sector < 0x8000_0000_0000
    ensures ClusterOffset(e) == 512 * sector && ZeroFlag(e) == zero && CopiedFlag(e) == copied
    ensures !CompressedFlag(e) && !ReservedL2Bits(e)
  {
    var low, high := if zero then 1 else 0, if copied then 128 else 0;
    Split(e, high, sector, low);
  }

  /** The two flags and the offset are all there is to an entry without reserved bits. */
  lemma L2Parts(e: u64)
    requires !CompressedFlag(e) && !ReservedL2Bits(e)
    ensures ClusterOffset(e) % 512 == 0 && ClusterOffset(e) < 0x100_0000_0000_0000
    ensures e == ClusterOffset(e) + (if ZeroFlag(e) then 1 else 0)
                 + (if CopiedFlag(e) then 0x8000_0000_0000_0000 else 0)
  {
    var high, sector, low := e / MAX_HOST, e / 512 % 0x8000_0000_0000, e % 512;
    assert e == MAX_HOST * high + 512 * sector + low;
    Split(e, high, sector, low);
  }

  /** The fields of a number in terms of its bits 56 to 63, 9 to 55 and 0 to 8. */
  lemma Split(e: nat, high: nat, sector: nat, low: nat)
    requires e == MAX_HOST * high + 512 * sector + low && high < 256 && sector < 0x8000_0000_0000 && low < 512
    ensures ClusterOffset(e) == 512 * sector && (ZeroFlag(e) <==> low % 2 == 1)
    ensures CopiedFlag(e) <==> high >= 128
    ensures CompressedFlag(e) <==> high / 64 % 2 == 1
    ensures ReservedL2Bits(e) <==> low / 2 != 0 || high % 64 != 0
    ensures ReservedL1Bits(e) <==> low != 0 || high % 128 != 0
  {
    assert e / 512 == 0x8000_0000_0000 * high + sector && e % 512 == low;
    assert e / MAX_HOST == high;
    assert e / COPIED == high / 128;
    assert e / 0x4000_0000_0000_0000 == high / 64;
    assert e / 2 == 256 * (e / 512) + low / 2;
  }

  /** An L1 entry is the cluster-aligned offset of a table, with or without the copied flag. */
  ghost predicate IsL1Entry(cs: nat, e: nat, off: nat)
    requires cs > 0
  {
    && off % cs == 0 && 0 < off < 0x100_0000_0000_0000
    && (e == off || e == off + 0x8000_0000_0000_0000)
  }

  /** The accepted L1 entries are exactly these and the empty one. */
  lemma ValidL1Iff(m: Meta, e: u64)
    requires m.g.cs >= 512 && m.g.cs % 512 == 0
    ensures m.GoodL1(e) <==> e == 0 || exists off: nat :: IsL1Entry(m.g.cs, e, off)
  {
    hide ClusterOffset, ReservedL1Bits;
    if m.GoodL1(e) && e != 0 {
      L1Parts(e);
      assert IsL1Entry(m.g.cs, e, ClusterOffset(e));
    }
    forall off: nat | IsL1Entry(m.g.cs, e, off)
      ensures m.GoodL1(e)
    {
      SectorAligned(off, m.g.cs);
      L1Fields(e, off / 512);
    }
  }

  lemma L1Fields(e: nat, sector: nat)
    requires e == 512 * sector || e == 512 * sector + 0x8000_0000_0000_0000
    requires sector < 0x8000_0000_0000
    ensures ClusterOffset(e) == 512 * sector && !ReservedL1Bits(e)
  {
    Split(e, if e == 512 * sector then 0 else 128, sector, 0);
  }

  lemma L1Parts(e: u64)
    requires !ReservedL1Bits(e)
    ensures ClusterOffset(e) < 0x100_0000_0000_0000
    ensures e == ClusterOffset(e) || e == ClusterOffset(e) + 0x8000_0000_0000_0000
  {
    var high, sector, low := e / MAX_HOST, e / 512 % 0x8000_0000_0000, e % 512;
    assert e == MAX_HOST * high + 512 * sector + low;
    Split(e, high, sector, low);
  }

  lemma SectorAligned(off: nat, cs: nat)
    requires cs > 0 && cs % 512 == 0 && off % cs == 0
    ensures off % 512 == 0
  {
    var a, b := off / cs, cs / 512;
    assert off == cs * a == 512 * b * a;
    Quotient(off, 512, b * a, 0);
  }

  /** The entries that are written have the copied flag and nothing else beside their offset. */
  lemma WrittenEntry(version: nat, off: nat)
    requires off % 512 == 0 && 0 < off < 0x100_0000_0000_0000
    ensures IsL2Entry(version, EntryFor(off), off, false, true)
  {
  }

  // The virtual disk.

  /** Two table entries of eight bytes lead from `x` to a byte of the file, or to zero. */
  ghost predicate Shows(f: seq<byte>, cs: nat, l1Off: nat, x: nat, b: byte)
    requires cs >= 512
  {
    var e1 := BeAt(f, l1Off + 8 * (x / cs / (cs / 8)), 8);
    var table := e1 % 0x100_0000_0000_0000 / 512 * 512;
    var e2 := BeAt(f, table + 8 * (x / cs % (cs / 8)), 8);
    var off := e2 % 0x100_0000_0000_0000 / 512 * 512;
    if e1 == 0 || off == 0 || e2 % 2 == 1 then b == 0 else off + x % cs < |f| && b == f[off + x % cs]
  }

  /** The two entries for `x` are in the file, and so is the cluster they lead to. */
  lemma EntriesInFile(m: Meta, f: seq<byte>, x: nat)
    requires m.Healthy(f) && x < m.g.size
    ensures m.g.cs >= 512
    ensures var i, j := m.g.L1Index(x), m.g.L2Index(x);
      && i < |m.l1| && BeAt(f, m.g.l1Off + 8 * i, 8) == m.l1[i] && (i in m.l2 <==> m.l1[i] != 0)
      && (i in m.l2 ==>
            && j < |m.l2[i]| && BeAt(f, ClusterOffset(m.l1[i]) + 8 * j, 8) == m.l2[i][j]
            && (ClusterOffset(m.l2[i][j]) != 0 ==> ClusterOffset(m.l2[i][j]) + m.g.InCluster(x) < |f|))
  {
    hide BeAt, Meta.Counted, Meta.GoodL1, Meta.GoodL2, ClusterOffset;
    var i, j := m.g.L1Index(x), m.g.L2Index(x);
    if i in m.l2 {
      assert m.L2OnDisk(f, i) && j < |m.l2[i]|;
      if ClusterOffset(m.l2[i][j]) != 0 {
        assert m.Live(Data(i, j));
      }
    }
  }

  lemma FlatByte(m: Meta, f: seq<byte>, x: nat)
    requires m.Healthy(f) && x < m.g.size
    ensures m.g.cs >= 512 && Shows(f, m.g.cs, m.g.l1Off, x, m.Guest(f)[x])
  {
    EntriesInFile(m, f, x);
    Indexes(m.g, x);
    var i, j := m.g.L1Index(x), m.g.L2Index(x);
    OffsetBits(m.l1[i]);
    if i in m.l2 {
      OffsetBits(m.l2[i][j]);
    }
    hide BeAt, Meta.Healthy, Geometry.L1Index, Geometry.L2Index, Geometry.InCluster, ClusterOffset;
  }

  lemma Indexes(g: Geometry, x: nat)
    requires g.cs >= 512
    ensures g.L1Index(x) == x / g.cs / (g.cs / 8) && g.L2Index(x) == x / g.cs % (g.cs / 8) && g.InCluster(x) == x % g.cs
  {
  }

  lemma OffsetBits(e: nat)
    ensures ClusterOffset(e) == e % 0x100_0000_0000_0000 / 512 * 512
  {
  }

  /** The flat disk of a consistent image, from the bytes of its file alone. */
  lemma FlatDisk(m: Meta, f: seq<byte>)
    requires m.Healthy(f) && Headed(m.g, f)
    ensures |m.Guest(f)| == BeAt(f, 24, 8) && Pow2(BeAt(f, 20, 4)) >= 512
    ensures forall x :: 0 <= x < |m.Guest(f)| ==> Shows(f, Pow2(BeAt(f, 20, 4)), BeAt(f, 40, 8), x, m.Guest(f)[x])
  {
    hide Meta.Healthy, Meta.Guest, BeAt, Headed, Shows, Pow2;
    GeometryBytes(m.g, f);
    forall x | 0 <= x < |m.Guest(f)|
      ensures Shows(f, m.g.cs, m.g.l1Off, x, m.Guest(f)[x])
    {
      FlatByte(m, f, x);
    }
  }

  /** The refcount table leads to a counter of one for the cluster of byte `x`. */
  ghost predicate CountsOnce(f: seq<byte>, cs: nat, rtOff: nat, x: nat)
    requires cs >= 512
  {
    var block := BeAt(f, rtOff + 8 * (x / cs / (cs / 2)), 8);
    block != 0 && BeAt(f, block + 2 * (x / cs % (cs / 2)), 2) == 1
  }

  /** The counter of every owned cluster, from the bytes of a consistent file. */
  lemma CountInFile(m: Meta, f: seq<byte>, o: Owner, x: nat)
    requires m.Healthy(f) && m.OwnsByte(o, x)
    ensures m.g.cs >= 512 && CountsOnce(f, m.g.cs, m.g.rtOff, x)
  {
    hide BeAt, Meta.GoodL1, Meta.GoodL2, Meta.L1OnDisk, Meta.L2OnDisk, Meta.Owned;
    var cs := m.g.cs;
    var y := ClusterStart(x, cs);
    OwnsStart(m, o, x);
    Quotient(y, cs, x / cs, 0);
    assert m.OwnsCluster(o, y);
    assert m.Rc(f, y) == 1;
    assert m.HasRc(y);
  }
}
