/** The image header: which ones are accepted, and the geometry they promise. */
module Qcow2Header {
  import opened Arith
  import opened RefcountCache
  import opened Qcow2Meta

  const MAX_REFCOUNT_TABLE_BYTES: nat := 8 * 1024 * 1024

  datatype Header = Fields(
    version: nat, backingFileOffset: nat, backingFileSize: nat, clusterBits: nat, size: nat, cryptMethod: nat,
    l1Size: nat, l1TableOffset: nat, refcountTableOffset: nat, refcountTableClusters: nat,
    nbSnapshots: nat, snapshotsOffset: nat, incompatibleFeatures: nat, autoclearFeatures: nat,
    refcountOrder: nat, headerLength: nat)

  function Pow2(n: nat): (r: nat)
    ensures r > 0
  {
    if n == 0 then 1 else 2 * Pow2(n - 1)
  }

  function ClusterSize(h: Header): nat { Pow2(h.clusterBits) }

  /** L1 entries that a disk of this size needs. */
  function RequiredL1(size: nat, cs: nat): nat
    requires cs >= 8
  {
    var coverage := cs * (cs / 8);
    if coverage == 0 then 0
    else size / coverage + (if size % coverage != 0 then 1 else 0)
  }

  predicate ValidGeometry(h: Header)
    requires h.clusterBits >= 9
  {
    Pow2Sector(h.clusterBits);
    var cs := ClusterSize(h);
    && h.headerLength <= cs
    && 8 * h.l1Size <= MAX_L1_BYTES
    && h.refcountTableClusters * cs <= MAX_REFCOUNT_TABLE_BYTES
    && h.l1TableOffset + 8 * h.l1Size <= MAX_INT64
    && h.refcountTableOffset + h.refcountTableClusters * cs <= MAX_INT64
    && RequiredL1(h.size, cs) <= h.l1Size
  }

  predicate ValidHeader(h: Header) {
    && h.version in {2, 3}
    && h.backingFileOffset == 0 && h.backingFileSize == 0
    && 9 <= h.clusterBits <= 21
    && h.size <= MAX_INT64
    && h.cryptMethod == 0
    && h.l1Size != 0
    && h.l1TableOffset != 0 && h.refcountTableOffset != 0
    && h.refcountTableClusters != 0
    && h.nbSnapshots == 0 && h.snapshotsOffset == 0
    && h.incompatibleFeatures == 0 // every known bit is refused by name, every other bit as unknown
    && h.autoclearFeatures == 0
    && h.refcountOrder == 4
    && (h.version == 3 ==> h.headerLength >= 104 && h.headerLength % 8 == 0)
    && h.l1TableOffset % ClusterSize(h) == 0
    && h.refcountTableOffset % ClusterSize(h) == 0
    && ValidGeometry(h)
  }

  function GeometryOf(h: Header): Geometry {
    Geometry(h.version, h.size, ClusterSize(h), h.l1TableOffset, h.l1Size, h.refcountTableOffset,
             h.refcountTableClusters * ClusterSize(h) / 8)
  }

  lemma {:induction false} Pow2Sector(bits: nat)
    requires bits >= 9
    ensures Pow2(bits) >= 512 && Pow2(bits) % 512 == 0
  {
    if bits > 9 {
      Pow2Sector(bits - 1);
      var p := Pow2(bits - 1);
      Quotient(2 * p, 512, 2 * (p / 512), 0);
    } else {
      assert Pow2(3) == 8 && Pow2(6) == 8 * Pow2(3) && Pow2(9) == 8 * Pow2(6);
    }
  }

  lemma {:induction false} Pow2Monotone(a: nat, b: nat)
    requires a <= b
    ensures Pow2(a) <= Pow2(b)
  {
    if a < b {
      Pow2Monotone(a, b - 1);
    }
  }

  lemma Pow2Max()
    ensures Pow2(21) == 2 * 1024 * 1024
  {
    assert Pow2(3) == 8 && Pow2(6) == 8 * Pow2(3) && Pow2(9) == 8 * Pow2(6);
    assert Pow2(12) == 8 * Pow2(9) && Pow2(15) == 8 * Pow2(12) && Pow2(18) == 8 * Pow2(15) && Pow2(21) == 8 * Pow2(18);
  }

  lemma DivDiv(x: nat, a: nat, b: nat)
    requires a > 0 && b > 0
    ensures a * b > 0 && x / a / b == x / (a * b)
  {
    assert a * b > 0;
    var q, r := x / a, x % a;
    var p, s := q / b, q % b;
    assert x == a * q + r && q == b * p + s;
    assert a * (b * p + s) == (a * b) * p + a * s;
    assert x == (a * b) * p + (a * s + r);
    MulStep(a, b, s);
    Quotient(x, a * b, p, a * s + r);
  }

  /** The L1 table is large enough exactly when every guest byte has an entry. */
  lemma L1CoverageExact(size: nat, cs: nat, l1Len: nat)
    requires cs >= 8
    ensures RequiredL1(size, cs) <= l1Len <==> forall x: nat {:trigger x / cs} :: x < size ==> x / cs / (cs / 8) < l1Len
  {
    hide RequiredL1;
    forall x: nat | x < size && RequiredL1(size, cs) <= l1Len
      ensures x / cs / (cs / 8) < l1Len
    {
      Indexed(size, cs, x);
    }
    if RequiredL1(size, cs) > l1Len {
      LastIndexed(size, cs);
    }
  }

  /** Every guest byte is indexed below the required length. */
  lemma Indexed(size: nat, cs: nat, x: nat)
    requires cs >= 8 && x < size
    ensures x / cs / (cs / 8) < RequiredL1(size, cs)
  {
    var k := cs * (cs / 8);
    DivDiv(x, cs, cs / 8);
    Below(x, size, k);
  }

  lemma Below(x: nat, size: nat, k: nat)
    requires k > 0 && x < size
    ensures x / k < size / k + if size % k != 0 then 1 else 0
  {
    var p, q := x / k, size / k;
    assert x == k * p + x % k && size == k * q + size % k;
    if p > q {
      MulStep(k, p, q);
    }
  }

  /** The last guest byte needs all of it. */
  lemma LastIndexed(size: nat, cs: nat)
    requires cs >= 8 && RequiredL1(size, cs) > 0
    ensures size > 0 && (size - 1) / cs / (cs / 8) == RequiredL1(size, cs) - 1
  {
    var k := cs * (cs / 8);
    DivDiv(0, cs, cs / 8);
    LastBelow(size, k);
    DivDiv(size - 1, cs, cs / 8);
  }

  lemma LastBelow(size: nat, k: nat)
    requires k > 0 && (size / k > 0 || size % k != 0)
    ensures size > 0 && (size - 1) / k == size / k - if size % k != 0 then 0 else 1
  {
    var q, r := size / k, size % k;
    assert size == k * q + r;
    if r == 0 {
      assert k * q == k * (q - 1) + k;
      Quotient(size - 1, k, q - 1, k - 1);
    } else {
      Quotient(size - 1, k, q, r - 1);
    }
  }

  lemma IndexCovered(g: Geometry, x: nat)
    requires g.cs >= 8 && RequiredL1(g.size, g.cs) <= g.l1Len && x < g.size
    ensures g.L1Index(x) < g.l1Len
  {
    L1CoverageExact(g.size, g.cs, g.l1Len);
    hide RequiredL1;
    assert x / g.cs / (g.cs / 8) < g.l1Len;
  }

  lemma EightDivides(cs: nat)
    requires cs % 512 == 0
    ensures cs % 8 == 0
  {
    Quotient(cs, 8, 64 * (cs / 512), 0);
  }

  lemma WholeClusters(k: nat, cs: nat)
    requires k > 0 && cs >= 8 && cs % 8 == 0
    ensures 8 * (k * cs / 8) == k * cs && k * cs / 8 > 0
  {
    var c := cs / 8;
    assert cs == 8 * c;
    assert k * cs == 8 * (k * c);
    assert k * c >= 1;
  }

  /** An accepted header gives a geometry in which every guest byte of the disk has an L1 entry. */
  lemma HeaderGeometry(h: Header)
    requires ValidHeader(h)
    ensures GeometryOf(h).Valid()
    ensures 512 <= GeometryOf(h).cs <= CACHE_BYTES
    ensures 8 * GeometryOf(h).rtLen == h.refcountTableClusters * ClusterSize(h)
  {
    var cs := ClusterSize(h);
    Pow2Sector(h.clusterBits);
    Pow2Monotone(h.clusterBits, 21);
    Pow2Max();
    hide Pow2, RequiredL1, Geometry.L1Index;
    EightDivides(cs);
    WholeClusters(h.refcountTableClusters, cs);
    var g := GeometryOf(h);
    forall x: nat | x < g.size
      ensures g.L1Index(x) < g.l1Len
    {
      IndexCovered(g, x);
    }
  }
}
