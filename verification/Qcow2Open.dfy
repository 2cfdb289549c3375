/** Opening an image: header, tables, layout. */
module Qcow2Open {
  import opened Bytes
  import opened HostFile
  import opened Qcow2Meta
  import opened Qcow2Header
  import opened Qcow2Extensions
  import opened Qcow2Image
  import opened Qcow2Layout

  const MAGIC: seq<byte> := [0x51, 0x46, 0x49, 0xfb]

  /** The header fields of the first `|b|` bytes; version 2 has only the first 72. */
  function HeaderOf(b: seq<byte>): (h: Header) {
    var v3 := BeAt(b, 4, 4) == 3;
    Fields(
      BeAt(b, 4, 4), BeAt(b, 8, 8), BeAt(b, 16, 4), BeAt(b, 20, 4), BeAt(b, 24, 8), BeAt(b, 32, 4),
      BeAt(b, 36, 4), BeAt(b, 40, 8), BeAt(b, 48, 8), BeAt(b, 56, 4),
      BeAt(b, 60, 4), BeAt(b, 64, 8),
      if v3 then BeAt(b, 72, 8) else 0,
      if v3 then BeAt(b, 88, 8) else 0,
      if v3 then BeAt(b, 96, 4) else 4,
      if v3 then BeAt(b, 100, 4) else 72)
  }

  lemma HeaderPrefix(b: seq<byte>, f: seq<byte>, n: nat)
    requires n <= |f| && b == f[..n] && n >= 72
    requires BeAt(b, 4, 4) == 3 ==> n >= 104
    ensures HeaderOf(b) == HeaderOf(f)
  {
    forall p: nat, k: nat | p + k <= n
      ensures BeAt(b, p, k) == BeAt(f, p, k)
    {
      assert b[p..p + k] == f[p..p + k];
    }
  }

  /** The header cluster behind the header: zero padding, then the extensions. */
  ghost predicate GoodCluster(f: seq<byte>, h: Header) {
    && h.headerLength <= ClusterSize(h) <= |f|
    && (h.version == 3 && h.headerLength > 104 ==> h.headerLength >= 112 && f[104..112] == Zeros(8))
    && Qcow2Extensions.Accepted(f[h.headerLength..ClusterSize(h)], {})
  }

  method ValidateHeaderCluster(file: File, h: Header) returns (v: Verdict)
    requires ValidHeader(h)
    ensures v.Accepted? <==> GoodCluster(file.bytes, h) && !v.Unchecked?
    ensures v.Unchecked? ==> !file.reliable || |file.bytes| < ClusterSize(h)
  {
    hide Pow2, RequiredL1, Qcow2Extensions.Accepted;
    var cs := ClusterSize(h);
    var ok, cluster := file.ReadAt(0, cs);
    if !ok {
      return Unchecked;
    }
    assert cluster == file.bytes[..cs];
    if h.version == 3 && h.headerLength > 104 {
      assert cluster[104..112] == file.bytes[104..112];
      if cluster[104..112] != Zeros(8) {
        return Corrupt;
      }
    }
    assert cluster[h.headerLength..] == file.bytes[h.headerLength..cs];
    ok := ValidateHeaderExtensions(cluster[h.headerLength..]);
    return if ok then Accepted else Corrupt;
  }

  /** The file starts with an acceptable header cluster. */
  ghost predicate GoodStart(f: seq<byte>) {
    MAGIC <= f && ValidHeader(HeaderOf(f)) && GoodCluster(f, HeaderOf(f))
  }

  method ReadHeader(file: File) returns (v: Verdict, h: Header)
    ensures v.Accepted? ==> |file.bytes| >= 72 && h == HeaderOf(file.bytes) && GoodStart(file.bytes)
    ensures v.Corrupt? ==> !GoodStart(file.bytes)
    ensures v.Unchecked? ==> !file.reliable || |file.bytes| < 104 || |file.bytes| < ClusterSize(HeaderOf(file.bytes))
  {
    hide GoodCluster, ValidHeader;
    h := HeaderOf([]);
    var ok, b := file.ReadAt(0, 72);
    if !ok {
      return Unchecked, h;
    }
    assert b[..4] == file.bytes[..4];
    if b[..4] != MAGIC {
      assert !(MAGIC <= file.bytes);
      return Corrupt, h;
    }
    assert b[4..8] == file.bytes[4..8];
    if BeAt(b, 4, 4) == 3 {
      ok, b := file.ReadAt(0, 104);
      if !ok {
        return Unchecked, h;
      }
    }
    HeaderPrefix(b, file.bytes, |b|);
    h := HeaderOf(b);
    if !ValidHeader(h) {
      return Corrupt, h;
    }
    v := ValidateHeaderCluster(file, h);
  }

  /**
   Opens an image.  An accepted handle is valid, and the disk it shows is the one the file describes;
   an image is called corrupt only when its header is unacceptable or its tables are inconsistent.
   On a reliable host a consistent image is refused only if it is too large for the ownership bitmap.
   */
  method Open(file: File) returns (v: Verdict, img: Image?)
    requires file.Valid()
    ensures v.Accepted? ==>
      && img != null && fresh(img) && img.file == file && img.Valid() && !img.fault
      && GoodStart(file.bytes) && img.g == GeometryOf(HeaderOf(file.bytes))
      && img.M() == Described(img.g, img.l1, img.rt, file.bytes)
    ensures v.Corrupt? ==>
      var g := GeometryOf(HeaderOf(file.bytes));
      !GoodStart(file.bytes)
      || !Described(g, StoredTable(file.bytes, g.l1Off, g.l1Len), StoredTable(file.bytes, g.rtOff, g.rtLen), file.bytes)
          .Healthy(file.bytes)
    ensures v.Unchecked? && file.reliable ==>
      var g := GeometryOf(HeaderOf(file.bytes));
      |file.bytes| < 104 || OverBitmap(|file.bytes|, g.cs)
      || !Described(g, StoredTable(file.bytes, g.l1Off, g.l1Len), StoredTable(file.bytes, g.rtOff, g.rtLen), file.bytes)
          .Healthy(file.bytes)
  {
    hide Meta.Healthy, Described, OverBitmap, StoredTable, GoodCluster;
    img := null;
    var h;
    v, h := ReadHeader(file);
    if !v.Accepted? {
      if |file.bytes| < ClusterSize(HeaderOf(file.bytes)) {
        HeaderInside(GeometryOf(HeaderOf(file.bytes)), file.bytes);
      }
      return;
    }
    HeaderGeometry(h);
    var g := GeometryOf(h);
    TablesSmall(h);
    hide ValidHeader;
    if g.l1Off + 8 * g.l1Len > |file.bytes| || g.rtOff + 8 * g.rtLen > |file.bytes| {
      TablesInside(g, file.bytes);
    }
    var ok, l1 := Image.ReadTable(file, g.l1Off, g.l1Len);
    if !ok {
      return Unchecked, null;
    }
    var rt;
    ok, rt := Image.ReadTable(file, g.rtOff, g.rtLen);
    if !ok {
      return Unchecked, null;
    }
    var q := new Image(g, file, l1, rt);
    TablesOnDisk(g, l1, rt, file.bytes);
    v := ValidateLayout(q);
    if v.Accepted? {
      img := q;
    }
  }

  lemma TablesSmall(h: Header)
    requires ValidHeader(h)
    ensures GeometryOf(h).l1Len <= MAX_L1_BYTES / 8 && GeometryOf(h).rtLen <= MAX_L1_BYTES / 8
  {
    HeaderGeometry(h);
  }

  /** The tables of a consistent image lie in the file. */
  lemma TablesInside(g: Geometry, f: seq<byte>)
    requires g.l1Off + 8 * g.l1Len > |f| || g.rtOff + 8 * g.rtLen > |f|
    ensures !Described(g, StoredTable(f, g.l1Off, g.l1Len), StoredTable(f, g.rtOff, g.rtLen), f).Healthy(f)
  {
    var m := Described(g, StoredTable(f, g.l1Off, g.l1Len), StoredTable(f, g.rtOff, g.rtLen), f);
    assert m.Live(L1Table) && m.Live(RefTable);
  }

  lemma HeaderInside(g: Geometry, f: seq<byte>)
    requires g.cs > |f|
    ensures !Described(g, StoredTable(f, g.l1Off, g.l1Len), StoredTable(f, g.rtOff, g.rtLen), f).Healthy(f)
  {
    var m := Described(g, StoredTable(f, g.l1Off, g.l1Len), StoredTable(f, g.rtOff, g.rtLen), f);
    assert m.Live(Owner.Header);
  }

  lemma TablesOnDisk(g: Geometry, l1: seq<u64>, rt: seq<u64>, f: seq<byte>)
    requires |l1| == g.l1Len && forall k :: 0 <= k < g.l1Len ==> l1[k] == BeAt(f, g.l1Off + 8 * k, 8)
    requires |rt| == g.rtLen && forall k :: 0 <= k < g.rtLen ==> rt[k] == BeAt(f, g.rtOff + 8 * k, 8)
    ensures l1 == StoredTable(f, g.l1Off, g.l1Len) && rt == StoredTable(f, g.rtOff, g.rtLen)
    ensures Described(g, l1, rt, f).L1OnDisk(f) && Described(g, l1, rt, f).RtOnDisk(f)
  {
    hide BeAt;
    var m := Described(g, l1, rt, f);
    assert m.L1OnDisk(f);
    assert m.RtOnDisk(f);
  }
}
