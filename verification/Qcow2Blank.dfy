/** The smallest image: an empty disk of one cluster.  It shows that the invariants can be met. */
module Qcow2Blank {
  import opened Bytes
  import opened Qcow2Meta
  import Qcow2Extensions
  import opened Qcow2Header
  import opened Qcow2Handle
  import opened Qcow2Open
  import opened Qcow2Reopen

  /** Header, L1 table, refcount table and refcount block of 512 bytes each. */
  const GEOMETRY: Geometry := Geometry(2, 512, 512, 512, 1, 1024, 64)

  /** The header of version 2, without extensions. */
  function HeaderBytes(): (r: seq<byte>)
    ensures |r| == 512
  {
    MAGIC + ToBe(2, 4) + ToBe(0, 8) + ToBe(0, 4) + ToBe(9, 4) + ToBe(512, 8) + ToBe(0, 4) + ToBe(1, 4)
    + ToBe(512, 8) + ToBe(1024, 8) + ToBe(1, 4) + ToBe(0, 4) + ToBe(0, 8) + Zeros(440)
  }

  function RefTableBytes(): (r: seq<byte>)
    ensures |r| == 512
  {
    ToBe(1536, 8) + Zeros(504)
  }

  /** The four clusters are counted once. */
  function RefBlockBytes(): (r: seq<byte>)
    ensures |r| == 512
  {
    ToBe(1, 2) + ToBe(1, 2) + ToBe(1, 2) + ToBe(1, 2) + Zeros(504)
  }

  function Blank(): (r: seq<byte>)
    ensures |r| == 2048
  {
    HeaderBytes() + Zeros(512) + RefTableBytes() + RefBlockBytes()
  }

  const TABLES: Meta := Meta(GEOMETRY, [0], [1536] + seq(63, _ => 0), map[])

  // Reading the fields back.

  lemma Field(before: seq<byte>, v: nat, n: nat, after: seq<byte>)
    requires v < Pow256(n)
    ensures BeAt(before + ToBe(v, n) + after, |before|, n) == v
  {
    FromToBe(v, n);
    assert (before + ToBe(v, n) + after)[|before|..|before| + n] == ToBe(v, n);
  }

  lemma ZeroField(f: seq<byte>, p: nat, n: nat)
    requires p + n <= |f| && forall k :: p <= k < p + n ==> f[k] == 0
    ensures BeAt(f, p, n) == 0
  {
    FromBeZeros(f[p..p + n]);
  }

  lemma HeaderFields()
    ensures HeaderOf(HeaderBytes()) == HEADER
    ensures MAGIC <= HeaderBytes() && HeaderBytes()[72..] == Zeros(440)
  {
    Pow256Values();
    hide ToBe, FromBe, BeAt, Zeros, Pow256;
    var z := Zeros(440);
    var t13 := ToBe(0, 8) + z;
    var t12 := ToBe(0, 4) + t13;
    var t11 := ToBe(1, 4) + t12;
    var t10 := ToBe(1024, 8) + t11;
    var t9 := ToBe(512, 8) + t10;
    var t8 := ToBe(1, 4) + t9;
    var t7 := ToBe(0, 4) + t8;
    var t6 := ToBe(512, 8) + t7;
    var t5 := ToBe(9, 4) + t6;
    var t4 := ToBe(0, 4) + t5;
    var t3 := ToBe(0, 8) + t4;
    var t2 := ToBe(2, 4) + t3;
    var f := HeaderBytes();
    assert f == MAGIC + t2;
    FieldAt(f, 4, 2, 4, t2, t3);
    FieldAt(f, 8, 0, 8, t3, t4);
    FieldAt(f, 16, 0, 4, t4, t5);
    FieldAt(f, 20, 9, 4, t5, t6);
    FieldAt(f, 24, 512, 8, t6, t7);
    FieldAt(f, 32, 0, 4, t7, t8);
    FieldAt(f, 36, 1, 4, t8, t9);
    FieldAt(f, 40, 512, 8, t9, t10);
    FieldAt(f, 48, 1024, 8, t10, t11);
    FieldAt(f, 56, 1, 4, t11, t12);
    FieldAt(f, 60, 0, 4, t12, t13);
    FieldAt(f, 64, 0, 8, t13, z);
  }

  /** The next field of a file whose rest from `p` on is `rest`. */
  lemma FieldAt(f: seq<byte>, p: nat, v: nat, n: nat, rest: seq<byte>, after: seq<byte>)
    requires p <= |f| && f[p..] == rest == ToBe(v, n) + after && v < Pow256(n)
    ensures BeAt(f, p, n) == v && f[p + n..] == after
  {
    assert f == f[..p] + ToBe(v, n) + after;
    Field(f[..p], v, n, after);
  }

  /** Where the parts of the file start. */
  lemma PartsOf()
    ensures Blank()[..512] == HeaderBytes()
    ensures forall k :: 512 <= k < 1024 ==> Blank()[k] == 0
    ensures Blank()[1024..1536] == RefTableBytes() && Blank()[1536..] == RefBlockBytes()
  {
    hide HeaderBytes, RefTableBytes, RefBlockBytes;
  }

  lemma TableFields()
    ensures BeAt(Blank(), 512, 8) == 0 && BeAt(Blank(), 1024, 8) == 1536
    ensures forall t :: 1 <= t < 64 ==> BeAt(Blank(), 1024 + 8 * t, 8) == 0
  {
    PartsOf();
    Pow256Values();
    var f := Blank();
    hide Blank, ToBe, BeAt, Pow256;
    ZeroField(f, 512, 8);
    assert f[1024..] == f[1024..1536] + f[1536..];
    assert f[1024..] == ToBe(1536, 8) + (Zeros(504) + f[1536..]);
    FieldAt(f, 1024, 1536, 8, f[1024..], Zeros(504) + f[1536..]);
    forall t | 1 <= t < 64
      ensures BeAt(f, 1024 + 8 * t, 8) == 0
    {
      forall k | 1024 + 8 * t <= k < 1032 + 8 * t
        ensures f[k] == 0
      {
        assert f[k] == f[1024..1536][k - 1024];
      }
      ZeroField(f, 1024 + 8 * t, 8);
    }
  }

  lemma CounterFields()
    ensures forall c :: 0 <= c < 4 ==> BeAt(Blank(), 1536 + 2 * c, 2) == 1
  {
    PartsOf();
    Pow256Values();
    var f := Blank();
    hide Blank, ToBe, BeAt, Pow256;
    var z := Zeros(504);
    var t4 := ToBe(1, 2) + z;
    var t3 := ToBe(1, 2) + t4;
    var t2 := ToBe(1, 2) + t3;
    assert f[1536..] == ToBe(1, 2) + t2;
    FieldAt(f, 1536, 1, 2, f[1536..], t2);
    FieldAt(f, 1538, 1, 2, t2, t3);
    FieldAt(f, 1540, 1, 2, t3, t4);
    FieldAt(f, 1542, 1, 2, t4, z);
  }

  lemma BlankShape()
    ensures TABLES.Shape() && TABLES.Owned(2048)
  {
    hide ReservedL1Bits, ValidL2Entry, Blank;
    forall x: nat | x < GEOMETRY.size
      ensures GEOMETRY.L1Index(x) == 0
    {
      assert x / 512 == 0;
    }
    assert TABLES.rt[0] == 1536 && forall t :: 1 <= t < 64 ==> TABLES.rt[t] == 0;
  }

  lemma BlankCounted()
    ensures TABLES.Counted(Blank())
  {
    CounterFields();
    var m, f := TABLES, Blank();
    hide Blank, BeAt;
    assert m.rt[0] == 1536 && forall t :: 1 <= t < 64 ==> m.rt[t] == 0;
    forall o, x: nat | m.OwnsCluster(o, x)
      ensures m.Rc(f, x) == 1
    {
      assert x < 2048 && x % 512 == 0;
      var c := x / 512;
      assert 0 <= c < 4 && c / 256 == 0 && c % 256 == c;
    }
  }

  /** The blank image is consistent, and a handle without loaded tables on it is valid. */
  lemma BlankConsistent()
    ensures TABLES.Healthy(Blank()) && Intact(TABLES, map[], map[], Blank(), false)
    ensures Headed(GEOMETRY, Blank()) && TABLES.Guest(Blank()) == Zeros(512)
  {
    BlankShape();
    BlankCounted();
    TableFields();
    BlankHeader();
    hide Blank, BeAt, Meta.Shape, Meta.Owned, Meta.Counted, Headed;
    assert TABLES.rt[0] == 1536 && forall t :: 1 <= t < 64 ==> TABLES.rt[t] == 0;
    assert TABLES.L1OnDisk(Blank()) && TABLES.RtOnDisk(Blank());
  }

  const HEADER: Header := Fields(2, 0, 0, 9, 512, 0, 1, 512, 1024, 1, 0, 0, 0, 0, 4, 72)

  lemma BlankHeader()
    ensures Headed(GEOMETRY, Blank())
  {
    hide HeaderBytes, Headed;
    BlankStart(Blank()) by {
      PartsOf();
    }
  }

  /** Any file that starts like this one has its header. */
  lemma BlankStart(f: seq<byte>)
    requires |f| >= 512 && f[..512] == HeaderBytes()
    ensures Headed(GEOMETRY, f)
  {
    hide HeaderBytes, HeaderOf, ValidHeader, Zeros, Qcow2Extensions.Accepted, GeometryOf, Pow2, BeAt, FromBe;
    HeaderFields();
    HeaderIsValid();
    NoExtensions();
    HeaderPrefix(HeaderBytes(), f, 512);
    assert f[..4] == f[..512][..4] && f[72..512] == f[..512][72..];
    assert GoodCluster(f, HEADER);
  }

  lemma HeaderIsValid()
    ensures ValidHeader(HEADER) && GeometryOf(HEADER) == GEOMETRY && ClusterSize(HEADER) == 512
  {
    assert Pow2(3) == 8 && Pow2(6) == 8 * Pow2(3) && Pow2(9) == 8 * Pow2(6);
    hide Pow2;
    assert RequiredL1(512, 512) == 1;
  }

  lemma NoExtensions()
    ensures Qcow2Extensions.Accepted(Zeros(440), {})
  {
    ZeroField(Zeros(440), 0, 4);
    ZeroField(Zeros(440), 4, 4);
  }
}
