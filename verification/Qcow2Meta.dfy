/**
 The metadata of a QCOW2 image as a value, what it claims of the host file, and what the
 guest sees through it.  Everything here is about pure values: `Meta` is what the handle
 believes, `f` is the host file, and the invariants relate the two.
 */
module Qcow2Meta {
  import opened Bytes

  const COPIED: nat := 0x8000_0000_0000_0000
  const MAX_INT64: nat := 0x7fff_ffff_ffff_ffff
  const MAX_L1_BYTES: nat := 32 * 1024 * 1024
  const MAX_HOST: nat := 0x100_0000_0000_0000 // 2^56, the width of an entry's offset field

  type u64 = x: int | 0 <= x < 0x1_0000_0000_0000_0000

  /** Table `t` with entry `j` replaced. */
  function Put(t: seq<u64>, j: nat, e: u64): seq<u64>
    requires j < |t|
  {
    t[j := e]
  }

  /** Division that is zero for a zero divisor. */
  function Quot(a: nat, b: nat): nat { if b == 0 then 0 else a / b }

  // Fields of an L1 or L2 entry.  A mask is written as the arithmetic that selects its bits.

  /** Bits 9 to 55. */
  function ClusterOffset(e: nat): nat { e / 512 % 0x8000_0000_0000 * 512 }

  /** Bit 0: the cluster reads as zeros, whatever its host offset. */
  predicate ZeroFlag(e: nat) { e % 2 == 1 }

  /** Bit 63. */
  predicate CopiedFlag(e: nat) { e / COPIED % 2 == 1 }

  /** Bit 62. */
  predicate CompressedFlag(e: nat) { e / 0x4000_0000_0000_0000 % 2 == 1 }

  /** Bits 1 to 8 and 56 to 61. */
  predicate ReservedL2Bits(e: nat) { e / 2 % 256 != 0 || e / MAX_HOST % 64 != 0 }

  /** Bits 0 to 8 and 56 to 62. */
  predicate ReservedL1Bits(e: nat) { e % 512 != 0 || e / MAX_HOST % 128 != 0 }

  predicate ValidL2Entry(version: nat, e: nat) {
    && !(version == 2 && ZeroFlag(e))
    && !(ClusterOffset(e) == 0 && CopiedFlag(e))
    && !CompressedFlag(e)
    && !ReservedL2Bits(e)
  }

  datatype Geometry = Geometry(version: nat, size: nat, cs: nat, l1Off: nat, l1Len: nat, rtOff: nat, rtLen: nat) {
    /** Entries of an L2 table. */
    function L2n(): nat { cs / 8 }

    /** Entries of a refcount block. */
    function Rbe(): nat { cs / 2 }

    predicate Valid() {
      && cs >= 512 && cs % 512 == 0
      && l1Off % cs == 0 && rtOff % cs == 0
      && l1Len > 0 && rtLen > 0
      && (forall x: nat :: x < size ==> L1Index(x) < l1Len)
    }

    function L1Index(x: nat): nat
    {
      Quot(Quot(x, cs), L2n())
    }

    function L2Index(x: nat): nat
    {
      if L2n() == 0 then 0 else x / cs % L2n()
    }

    function InCluster(x: nat): nat
    {
      if cs == 0 then 0 else x % cs
    }
  }

  /** Everything that can occupy host clusters. */
  datatype Owner =
    | Header
    | L1Table
    | RefTable
    | RefBlock(t: nat)
    | L2Table(i: nat)
    | Data(i: nat, j: nat)

  predicate Apart(a: nat, la: nat, b: nat, lb: nat) { a + la <= b || b + lb <= a }

  /** `l2` holds the table of every nonzero L1 entry, whether or not the handle has loaded it. */
  datatype Meta = Meta(g: Geometry, l1: seq<u64>, rt: seq<u64>, l2: map<nat, seq<u64>>) {

    predicate Live(o: Owner) {
      match o
      case Header => true
      case L1Table => true
      case RefTable => true
      case RefBlock(t) => t < |rt| && rt[t] != 0
      case L2Table(i) => i < |l1| && l1[i] != 0
      case Data(i, j) => i in l2 && j < |l2[i]| && ClusterOffset(l2[i][j]) != 0
    }

    function Off(o: Owner): nat
      requires Live(o)
    {
      match o
      case Header => 0
      case L1Table => g.l1Off
      case RefTable => g.rtOff
      case RefBlock(t) => rt[t]
      case L2Table(i) => ClusterOffset(l1[i])
      case Data(i, j) => ClusterOffset(l2[i][j])
    }

    function Len(o: Owner): nat {
      match o
      case L1Table => 8 * g.l1Len
      case RefTable => 8 * g.rtLen
      case _ => g.cs
    }

    predicate GoodL1(e: u64)
      requires g.cs > 0
    {
      e != 0 ==> !ReservedL1Bits(e) && ClusterOffset(e) != 0 && ClusterOffset(e) % g.cs == 0
    }

    predicate GoodL2(e: u64)
      requires g.cs > 0
    {
      ValidL2Entry(g.version, e) && ClusterOffset(e) % g.cs == 0
    }

    /** The tables have their sizes and every entry is well formed. */
    ghost predicate Shape() {
      && g.Valid()
      && |l1| == g.l1Len && |rt| == g.rtLen
      && (forall i: nat :: i in l2 <==> i < |l1| && l1[i] != 0)
      && (forall i :: 0 <= i < |l1| ==> GoodL1(l1[i]))
      && (forall t :: 0 <= t < |rt| ==> rt[t] % g.cs == 0)
      && (forall i :: i in l2 ==> |l2[i]| == g.L2n())
      && (forall i, j :: i in l2 && 0 <= j < |l2[i]| ==> GoodL2(l2[i][j]))
    }

    /** All claims lie in a file of `n` bytes, and no two of them share a byte. */
    ghost predicate Owned(n: nat) {
      && (forall o :: Live(o) ==> Off(o) + Len(o) <= n)
      && (forall o, p :: Live(o) && Live(p) && o != p ==> Apart(Off(o), Len(o), Off(p), Len(p)))
    }

    // Reference counts.

    function RcTab(x: nat): nat
    {
      Quot(Quot(x, g.cs), g.Rbe())
    }

    function RcSlot(x: nat): nat
    {
      if g.Rbe() == 0 then 0 else x / g.cs % g.Rbe()
    }

    predicate HasRc(x: nat) { RcTab(x) < |rt| && rt[RcTab(x)] != 0 }

    function RcPos(x: nat): nat
      requires HasRc(x)
    {
      rt[RcTab(x)] + 2 * RcSlot(x)
    }

    /** The stored reference count of the host cluster that starts at `x`. */
    function Rc(f: seq<byte>, x: nat): nat {
      if HasRc(x) then BeAt(f, RcPos(x), 2) else 0
    }

    predicate OwnsByte(o: Owner, x: nat) {
      Live(o) && Off(o) <= x < Off(o) + Len(o)
    }

    /** `x` starts a host cluster that belongs to `o`. */
    predicate OwnsCluster(o: Owner, x: nat) {
      OwnsByte(o, x) && g.cs > 0 && x % g.cs == 0
    }

    ghost predicate Counted(f: seq<byte>) {
      forall o, x: nat :: OwnsCluster(o, x) ==> Rc(f, x) == 1
    }

    // The tables as they are stored.

    ghost predicate L1OnDisk(f: seq<byte>) {
      forall i :: 0 <= i < |l1| ==> BeAt(f, g.l1Off + 8 * i, 8) == l1[i]
    }

    ghost predicate RtOnDisk(f: seq<byte>) {
      forall t :: 0 <= t < |rt| ==> BeAt(f, g.rtOff + 8 * t, 8) == rt[t]
    }

    ghost predicate L2OnDisk(f: seq<byte>, i: nat) {
      i in l2 && i < |l1| &&
      forall j :: 0 <= j < |l2[i]| ==> BeAt(f, ClusterOffset(l1[i]) + 8 * j, 8) == l2[i][j]
    }

    ghost predicate OnDisk(f: seq<byte>) {
      && L1OnDisk(f)
      && RtOnDisk(f)
      && (forall i :: i in l2 ==> L2OnDisk(f, i))
    }

    /** The image is consistent: the handle and the file agree, and every claim is exclusive and counted. */
    ghost predicate Healthy(f: seq<byte>) {
      && Shape()
      && Owned(|f|)
      && Counted(f)
      && OnDisk(f)
    }

    // The guest's view.

    predicate Mapped(i: nat, j: nat) {
      i in l2 && j < |l2[i]| && ClusterOffset(l2[i][j]) != 0 && !ZeroFlag(l2[i][j])
    }

    function GuestByte(f: seq<byte>, x: nat): byte {
      var i, j := g.L1Index(x), g.L2Index(x);
      if Mapped(i, j) && ClusterOffset(l2[i][j]) + g.InCluster(x) < |f|
      then f[ClusterOffset(l2[i][j]) + g.InCluster(x)]
      else 0
    }

    /** The virtual disk as a flat byte array. */
    function Guest(f: seq<byte>): (r: seq<byte>)
      ensures |r| == g.size
      ensures forall x :: 0 <= x < g.size ==> r[x] == GuestByte(f, x)
    {
      seq(g.size, x requires 0 <= x => GuestByte(f, x))
    }

    // Frames.

    /** `f'` still holds what `p` owns in `f`. */
    ghost predicate Keeps(f: seq<byte>, f': seq<byte>, p: Owner) {
      Live(p) ==>
        && Off(p) + Len(p) <= |f'|
        && forall k :: Off(p) <= k < Off(p) + Len(p) && k < |f| ==> f'[k] == f[k]
    }

    ghost predicate KeepsAllBut(f: seq<byte>, f': seq<byte>, o: Owner) {
      forall p :: p != o ==> Keeps(f, f', p)
    }

    ghost predicate KeepsAll(f: seq<byte>, f': seq<byte>) {
      forall p :: Keeps(f, f', p)
    }

    /** A cluster nobody owns, at or after the end of every claim. */
    ghost predicate Fresh(x: nat) {
      forall o :: Live(o) ==> Apart(Off(o), Len(o), x, g.cs)
    }
  }

  /** A change confined to one owner's bytes keeps every other owner's. */
  lemma PatchKeeps(m: Meta, f: seq<byte>, o: Owner, at: nat, d: seq<byte>)
    requires m.Owned(|f|)
    requires m.Live(o) && m.Off(o) <= at && at + |d| <= m.Off(o) + m.Len(o)
    ensures |Patch(f, at, d)| == |f|
    ensures m.KeepsAllBut(f, Patch(f, at, d), o)
  {
    var f' := Patch(f, at, d);
    forall p | p != o && m.Live(p)
      ensures m.Keeps(f, f', p)
    {
      assert Apart(m.Off(o), m.Len(o), m.Off(p), m.Len(p));
    }
  }

  lemma L1Keeps(m: Meta, f: seq<byte>, f': seq<byte>)
    requires m.Shape() && m.Owned(|f|) && m.Keeps(f, f', L1Table) && m.L1OnDisk(f)
    ensures m.L1OnDisk(f')
  {
    assert m.Live(L1Table);
    forall i | 0 <= i < |m.l1|
      ensures BeAt(f', m.g.l1Off + 8 * i, 8) == m.l1[i]
    {
      BeAtFrame(f, f', m.g.l1Off + 8 * i, 8);
    }
  }

  lemma RtKeeps(m: Meta, f: seq<byte>, f': seq<byte>)
    requires m.Shape() && m.Owned(|f|) && m.Keeps(f, f', RefTable) && m.RtOnDisk(f)
    ensures m.RtOnDisk(f')
  {
    assert m.Live(RefTable);
    forall t | 0 <= t < |m.rt|
      ensures BeAt(f', m.g.rtOff + 8 * t, 8) == m.rt[t]
    {
      BeAtFrame(f, f', m.g.rtOff + 8 * t, 8);
    }
  }

  lemma L2Keeps(m: Meta, f: seq<byte>, f': seq<byte>, i: nat)
    requires m.Shape() && m.Owned(|f|) && m.Keeps(f, f', L2Table(i)) && m.L2OnDisk(f, i)
    ensures m.L2OnDisk(f', i)
  {
    assert m.Live(L2Table(i));
    forall j | 0 <= j < |m.l2[i]|
      ensures BeAt(f', ClusterOffset(m.l1[i]) + 8 * j, 8) == m.l2[i][j]
    {
      BeAtFrame(f, f', ClusterOffset(m.l1[i]) + 8 * j, 8);
    }
  }

  /** The counter of a cluster lies inside its refcount block. */
  lemma RcInBlock(m: Meta, x: nat)
    requires m.g.cs >= 512 && m.HasRc(x)
    ensures m.Live(RefBlock(m.RcTab(x)))
    ensures m.Off(RefBlock(m.RcTab(x))) <= m.RcPos(x)
    ensures m.RcPos(x) + 2 <= m.Off(RefBlock(m.RcTab(x))) + m.g.cs
  {
    assert m.RcSlot(x) < m.g.Rbe();
  }

  lemma RcKeeps(m: Meta, f: seq<byte>, f': seq<byte>, x: nat)
    requires m.g.cs >= 512 && m.Owned(|f|) && m.Keeps(f, f', RefBlock(m.RcTab(x)))
    ensures m.Rc(f', x) == m.Rc(f, x)
  {
    if m.HasRc(x) {
      RcInBlock(m, x);
      BeAtFrame(f, f', m.RcPos(x), 2);
    }
  }

  lemma GuestKeeps(m: Meta, f: seq<byte>, f': seq<byte>)
    requires m.Shape() && m.Owned(|f|) && m.Owned(|f'|)
    requires forall i, j :: m.Live(Data(i, j)) ==> m.Keeps(f, f', Data(i, j))
    ensures m.Guest(f') == m.Guest(f)
  {
    forall x | 0 <= x < m.g.size
      ensures m.GuestByte(f', x) == m.GuestByte(f, x)
    {
      var i, j := m.g.L1Index(x), m.g.L2Index(x);
      if m.Mapped(i, j) {
        assert m.Live(Data(i, j));
        assert m.g.InCluster(x) < m.g.cs;
      }
    }
  }
}
