/** Closing an image and opening it again: what was written is what is found. */
module Qcow2Reopen {
  import opened Bytes
  import opened HostFile
  import opened Qcow2Meta
  import opened Qcow2Header
  import opened Qcow2Handle
  import opened Qcow2Guest
  import opened Qcow2Growth
  import opened Qcow2Crash
  import opened Qcow2Image
  import opened Qcow2Layout
  import opened Qcow2Open

  /** The file starts with an acceptable header that promises the geometry `g`. */
  ghost predicate Headed(g: Geometry, f: seq<byte>) {
    GoodStart(f) && g == GeometryOf(HeaderOf(f))
  }

  /** The header lies in the first cluster, so whatever leaves that alone leaves the header alone. */
  lemma HeadedKeeps(g: Geometry, f: seq<byte>, f': seq<byte>)
    requires Headed(g, f) && SameStart(f, f', g.cs)
    ensures Headed(g, f')
  {
    hide RequiredL1, ValidGeometry, Qcow2Extensions.Accepted;
    var h, cs := HeaderOf(f), g.cs;
    Pow2Sector(h.clusterBits);
    hide Pow2;
    HeaderPrefix(f[..cs], f, cs);
    HeaderPrefix(f'[..cs], f', cs);
    assert f[..4] == f[..cs][..4] == f'[..4];
    assert f[104..112] == f[..cs][104..112] == f'[104..112];
    assert f[h.headerLength..cs] == f[..cs][h.headerLength..] == f'[h.headerLength..cs];
  }

  /** No step that an open image takes touches its header, whatever fails. */
  lemma HeadedEvolves(m: Meta, f: seq<byte>, m': Meta, f': seq<byte>, fault: bool)
    requires Headed(m.g, f) && Evolves(m, f, m', f', fault)
    ensures Headed(m.g, f')
  {
    HeadedKeeps(m.g, f, f');
  }

  /** The tables of a consistent image are the ones stored in its file. */
  lemma StoredTables(m: Meta, f: seq<byte>)
    requires m.Healthy(f)
    ensures m.l1 == StoredTable(f, m.g.l1Off, m.g.l1Len) && m.rt == StoredTable(f, m.g.rtOff, m.g.rtLen)
    ensures m == Described(m.g, m.l1, m.rt, f) && 512 <= m.g.cs <= |f|
  {
    DescribedUnique(m, f);
    assert m.Live(Owner.Header);
    hide Meta.Owned, Meta.Counted, BeAt;
  }

  /** Opens a consistent file with an acceptable header: it has the tables `m` and no others. */
  method OpenConsistent(file: File, ghost m: Meta) returns (v: Verdict, img: Image?)
    requires file.Valid() && m.Healthy(file.bytes) && Headed(m.g, file.bytes)
    ensures !v.Corrupt?
    ensures file.reliable && !OverBitmap(|file.bytes|, m.g.cs) ==> v.Accepted?
    ensures v.Accepted? ==>
      img != null && fresh(img) && img.file == file && img.Valid() && !img.fault && img.M() == m
  {
    hide Meta.Healthy, Described, StoredTable, GoodStart, OverBitmap, Meta.Guest;
    StoredTables(m, file.bytes);
    v, img := Open(file);
    if v.Accepted? {
      SameTables(m, img.M(), file.bytes);
    }
  }

  /**
   Opens the file of an image once more.  If writing was not disabled the image is never called corrupt,
   and what is opened has the same tables and shows the same disk.
   */
  method Reopen(q: Image) returns (v: Verdict, img: Image?)
    requires q.Valid() && !q.fault && Headed(q.g, q.file.bytes)
    ensures !v.Corrupt?
    ensures q.file.reliable && !OverBitmap(|q.file.bytes|, q.g.cs) ==> v.Accepted?
    ensures v.Accepted? ==>
      img != null && fresh(img) && img.file == q.file && img.Valid() && !img.fault
      && img.M() == q.M() && img.Guest() == q.Guest() && Headed(img.g, img.file.bytes)
  {
    hide Meta.Healthy, GoodStart, OverBitmap, Meta.Guest;
    v, img := OpenConsistent(q.file, q.M());
  }

  /**
   The machine stopped right after host call `k` of a write of `b`, unless that call split a table entry.
   Opening what is left on disk is never refused as corrupt, and shows the disk as it was before the write
   with a first part of `b` in place.
   */
  method ReopenAfterCrash(left: File, ghost t0: seq<Moment>, ghost t: seq<Moment>, ghost k: nat, ghost g: Geometry,
                          ghost f0: seq<byte>, ghost guest: seq<byte>, ghost off: nat, ghost b: seq<byte>)
    returns (v: Verdict, img: Image?, ghost n: nat)
    requires Within(t0, t, g, f0, guest, off, b) && |t0| <= k < |t| && !t[k].split && Headed(g, f0)
    requires left.Valid() && left.bytes == t[k].bytes
    ensures !v.Corrupt? && n <= |b|
    ensures left.reliable && !OverBitmap(|left.bytes|, g.cs) ==> v.Accepted?
    ensures v.Accepted? ==>
      img != null && fresh(img) && img.file == left && img.Valid() && !img.fault && img.g == g
      && img.Guest() == Overlay(guest, off, b, n) && Headed(g, left.bytes)
  {
    hide Meta.Healthy, GoodStart, OverBitmap, Meta.Guest, Overlay, SameStart;
    assert PartWritten(t[k], g, f0, guest, off, b);
    n :| n <= |b| && Sound(t[k], g, f0, Overlay(guest, off, b, n));
    ghost var m: Meta :| m.g == g && m.Healthy(left.bytes) && m.Guest(left.bytes) == Overlay(guest, off, b, n);
    HeadedKeeps(g, f0, left.bytes);
    v, img := OpenConsistent(left, m);
  }

  /** A file has one consistent reading. */
  lemma SameTables(m: Meta, m': Meta, f: seq<byte>)
    requires m.Healthy(f) && m'.Healthy(f) && m'.g == m.g
    ensures m' == m
  {
    hide Meta.Healthy, Described, StoredTable;
    StoredTables(m, f);
    StoredTables(m', f);
  }

  /**
   Writes to an open image and opens its file again.  The second handle shows the disk as the first
   one left it: the old contents with the written bytes in place.
   */
  method WriteAndReopen(q: Image, b: seq<byte>, off: nat)
    returns (done: nat, err: IoError, ghost torn: nat, v: Verdict, img: Image?)
    requires q.Valid() && !q.fault && Headed(q.g, q.file.bytes)
    modifies q, q.file, q.cache
    ensures q.Valid() && Headed(q.g, q.file.bytes)
    ensures !q.fault ==> !v.Corrupt?
    ensures !q.fault && q.file.reliable && !OverBitmap(|q.file.bytes|, q.g.cs) ==> v.Accepted?
    ensures !q.fault && v.Accepted? ==>
      img != null && img.file == q.file && img.Valid() && done + torn <= |b|
      && img.Guest() == Overlay(old(q.Guest()), off, b, done + torn)
    ensures err.NoError? <==> done == |b|
  {
    hide Intact, Meta.Guest, GoodStart, OverBitmap, Evolves, MapsOnly, Overlay, Within;
    done, err, torn := q.WriteAt(b, off);
    HeadedEvolves(old(q.M()), old(q.file.bytes), q.M(), q.file.bytes, q.fault);
    v, img := Unchecked, null;
    if !q.fault {
      v, img := Reopen(q);
    }
  }
}
