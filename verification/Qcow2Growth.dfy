/** What a run of steps leaves behind: the header as it was, and no cluster without an owner. */
module Qcow2Growth {
  import opened Arith
  import opened Bytes
  import opened Qcow2Meta
  import opened Qcow2Publish
  import opened Qcow2Handle

  /** The host cluster that starts at `x` belongs to somebody. */
  ghost predicate Taken(m: Meta, x: nat) { exists o :: m.OwnsCluster(o, x) }

  /** The file grew from `n` to `n'` bytes by owned clusters only, and nobody lost or moved a claim. */
  ghost predicate Grew(m: Meta, n: nat, m': Meta, n': nat) {
    && m'.g == m.g && n <= n'
    && (forall o :: m.Live(o) ==> m'.Live(o) && m'.Off(o) == m.Off(o))
    && (forall x: nat :: n <= x < n' && AlignedTo(x, m.g.cs) ==> Taken(m', x))
  }

  /** A table of a new claim maps nothing. */
  ghost predicate Zeroed(table: seq<u64>) { forall j :: 0 <= j < |table| ==> table[j] == 0 }

  /** The header cluster is the same. */
  ghost predicate SameStart(f: seq<byte>, f': seq<byte>, cs: nat) {
    cs <= |f| && cs <= |f'| && f'[..cs] == f[..cs]
  }

  /** From `m` and `f` to `m'` and `f'`; when writing had to be disabled only the header is certain. */
  ghost predicate Evolves(m: Meta, f: seq<byte>, m': Meta, f': seq<byte>, fault: bool) {
    SameStart(f, f', m.g.cs) && (!fault ==> Grew(m, |f|, m', |f'|))
  }

  lemma StartSame(f: seq<byte>, cs: nat)
    requires cs <= |f|
    ensures SameStart(f, f, cs)
  {
  }

  lemma GrewNone(m: Meta, n: nat)
    ensures Grew(m, n, m, n)
  {
  }

  lemma GrewTwice(m: Meta, n: nat, m1: Meta, n1: nat, m2: Meta, n2: nat)
    requires Grew(m, n, m1, n1) && Grew(m1, n1, m2, n2)
    ensures Grew(m, n, m2, n2)
  {
    forall x: nat | n <= x < n2 && AlignedTo(x, m.g.cs)
      ensures Taken(m2, x)
    {
      if x < n1 {
        assert Taken(m1, x);
        var o :| m1.OwnsCluster(o, x);
        assert m2.OwnsCluster(o, x);
      }
    }
  }

  /** One more owner takes the cluster that was appended for it. */
  lemma GrewOne(m: Meta, n: nat, m': Meta, o: Owner, off: nat)
    requires Extends(m, m', o) && m'.Off(o) == off && m'.Len(o) == m.g.cs
    requires m.g.cs > 0 && off % m.g.cs == 0 && n <= off < n + m.g.cs
    ensures Grew(m, n, m', off + m.g.cs)
  {
    forall x: nat | n <= x < off + m.g.cs && AlignedTo(x, m.g.cs)
      ensures Taken(m', x)
    {
      if x < off {
        AlignedStart(off, x, m.g.cs);
      } else {
        AlignedStart(x, off, m.g.cs);
      }
      assert m'.OwnsCluster(o, x);
    }
  }

  /** Rounding up adds no cluster. */
  lemma GrewUp(m: Meta, n: nat, m': Meta, n': nat, off: nat)
    requires Grew(m, n, m', n') && m.g.cs > 0 && off % m.g.cs == 0 && n' <= off < n' + m.g.cs
    ensures Grew(m, n, m', off)
  {
    forall x: nat | n <= x < off && AlignedTo(x, m.g.cs)
      ensures Taken(m', x)
    {
      if n' <= x {
        AlignedStart(off, x, m.g.cs);
      }
    }
  }

  /** A claim that changes its entry but not its place. */
  lemma GrewSame(m: Meta, n: nat, m': Meta, o: Owner)
    requires Extends(m, m', o)
    ensures Grew(m, n, m', n)
  {
  }

  lemma EvolvesNone(m: Meta, f: seq<byte>, fault: bool)
    requires m.g.cs <= |f|
    ensures Evolves(m, f, m, f, fault)
  {
    GrewNone(m, |f|);
  }

  lemma EvolvesTwice(m: Meta, f: seq<byte>, m1: Meta, f1: seq<byte>, m2: Meta, f2: seq<byte>, fault: bool)
    requires Evolves(m, f, m1, f1, false) && Evolves(m1, f1, m2, f2, fault)
    ensures Evolves(m, f, m2, f2, fault)
  {
    hide Grew;
    assert m1.g == m.g by {
      GrewGeometry(m, |f|, m1, |f1|);
    }
    if !fault {
      GrewTwice(m, |f|, m1, |f1|, m2, |f2|);
    }
  }

  lemma EvolvesStart(m: Meta, f: seq<byte>, m': Meta, f': seq<byte>, fault: bool)
    requires Evolves(m, f, m', f', fault)
    ensures SameStart(f, f', m.g.cs)
  {
  }

  lemma GrewGeometry(m: Meta, n: nat, m': Meta, n': nat)
    requires Grew(m, n, m', n')
    ensures m'.g == m.g
  {
  }

  // The header survives every kind of step.

  /** A change inside somebody else's claim. */
  lemma StartPatched(m: Meta, f: seq<byte>, o: Owner, at: nat, d: seq<byte>)
    requires m.Owned(|f|) && m.Live(o) && !o.Header? && m.Off(o) <= at && at + |d| <= m.Off(o) + m.Len(o)
    ensures SameStart(f, Patch(f, at, d), m.g.cs)
  {
    assert m.Live(Header);
    assert Apart(m.Off(Header), m.Len(Header), m.Off(o), m.Len(o));
    ApartStart(m, o, at, d);
  }

  lemma ApartStart(m: Meta, o: Owner, at: nat, d: seq<byte>)
    requires m.Live(o) && Apart(0, m.g.cs, m.Off(o), m.Len(o)) && m.Off(o) <= at && at + |d| <= m.Off(o) + m.Len(o)
    ensures d == [] || m.g.cs <= at
  {
  }

  lemma StartRewritten(m: Meta, f: seq<byte>, f': seq<byte>, o: Owner, at: nat, e: u64)
    requires m.Owned(|f|) && m.Live(o) && !o.Header? && m.Off(o) <= at && at + 8 <= m.Off(o) + m.Len(o)
    requires Rewrites(f, f', at, e)
    ensures SameStart(f, f', m.g.cs)
  {
    assert m.Live(Header);
    assert Apart(m.Off(Header), m.Len(Header), m.Off(o), m.Len(o));
  }

  lemma StartPastEnd(f: seq<byte>, cs: nat, at: nat, d: seq<byte>)
    requires cs <= |f| <= at
    ensures SameStart(f, Patch(f, at, d), cs)
  {
  }

  lemma StartResized(f: seq<byte>, cs: nat, n: nat)
    requires cs <= |f| && cs <= n
    ensures SameStart(f, Resize(f, n), cs)
  {
  }

  // The same for an open handle.

  lemma EntryPatched(m: Meta, cached: map<nat, seq<u64>>, blocks: map<nat, seq<byte>>, f: seq<byte>, o: Owner,
                     at: nat, d: seq<byte>)
    requires Intact(m, cached, blocks, f, false)
    requires m.Live(o) && !o.Header? && m.Off(o) <= at && at + |d| <= m.Off(o) + m.Len(o)
    ensures SameStart(f, Patch(f, at, d), m.g.cs)
  {
    StartPatched(m, f, o, at, d);
  }

  lemma EntryRewritten(m: Meta, cached: map<nat, seq<u64>>, blocks: map<nat, seq<byte>>, f: seq<byte>, f': seq<byte>,
                       o: Owner, at: nat, e: u64)
    requires Intact(m, cached, blocks, f, false)
    requires m.Live(o) && !o.Header? && m.Off(o) <= at && at + 8 <= m.Off(o) + m.Len(o) && Rewrites(f, f', at, e)
    ensures SameStart(f, f', m.g.cs)
  {
    StartRewritten(m, f, f', o, at, e);
  }

  lemma CounterPatched(m: Meta, cached: map<nat, seq<u64>>, blocks: map<nat, seq<byte>>, f: seq<byte>, x: nat,
                       d: seq<byte>)
    requires Intact(m, cached, blocks, f, false) && m.HasRc(x) && |d| <= 2
    ensures SameStart(f, Patch(f, m.RcPos(x), d), m.g.cs)
  {
    RcInBlock(m, x);
    StartPatched(m, f, RefBlock(m.RcTab(x)), m.RcPos(x), d);
  }

  lemma DataAdded(m: Meta, cached: map<nat, seq<u64>>, blocks: map<nat, seq<byte>>, f: seq<byte>,
                  i: nat, j: nat, e: u64, off: nat)
    requires Intact(m, cached, blocks, f, false) && Takes(m, i, j, off) && PointsTo(m, e, off) && off != 0
    ensures Extends(m, WithData(m, i, j, e), Data(i, j)) && WithData(m, i, j, e).Off(Data(i, j)) == off
  {
    DataExtends(m, i, j, e, off);
  }

  lemma TableAdded(m: Meta, cached: map<nat, seq<u64>>, blocks: map<nat, seq<byte>>, f: seq<byte>, i: nat, e: u64,
                   off: nat)
    requires Intact(m, cached, blocks, f, false) && PointsTo(m, e, off) && i < |m.l1| && m.l1[i] == 0
    ensures Extends(m, WithL2Table(m, i, e), L2Table(i)) && WithL2Table(m, i, e).Off(L2Table(i)) == off
  {
    L2TableExtends(m, i, e, off);
  }

  /** Everything that follows when entry (i, j) was pointed at the zeroed, counted cluster at `off`. */
  lemma DataUpdated(m: Meta, cached: map<nat, seq<u64>>, blocks: map<nat, seq<byte>>, f: seq<byte>, f': seq<byte>,
                    i: nat, j: nat, off: nat)
    requires Intact(m, cached, blocks, f, false) && i < |m.l1|
    requires Ready(m, f, off) && Takes(m, i, j, off) && 0 < off < MAX_HOST
    requires Rewrites(f, f', ClusterOffset(m.l1[i]) + 8 * j, EntryFor(off))
    ensures var m' := WithData(m, i, j, EntryFor(off));
      && Intact(m', cached[i := m'.l2[i]], blocks, f', false) && m'.Guest(f') == m.Guest(f)
      && Extends(m, m', Data(i, j)) && m'.Off(Data(i, j)) == off
    ensures SameStart(f, f', m.g.cs) && |f'| == |f|
  {
    hide Intact, Meta.Guest, Meta.Fresh, Takes, PointsTo, Extends, SameStart, EntryFor, ClusterOffset;
    var at, e := ClusterOffset(m.l1[i]) + 8 * j, EntryFor(off);
    TakesEntry(m, i, j, off);
    Basics(m, cached, blocks, f, false);
    L2Entry(m, cached, blocks, f, i, j);
    EntryPointsTo(m, off);
    RewritesLength(f, f', at, e);
    hide Rewrites, Ready;
    DataJoins(m, cached, blocks, f, f', i, j, e, off);
    DataAdded(m, cached, blocks, f, i, j, e, off);
    EntryRewritten(m, cached, blocks, f, f', L2Table(i), at, e);
  }

  lemma TakesEntry(m: Meta, i: nat, j: nat, off: nat)
    requires Takes(m, i, j, off)
    ensures i in m.l2 && j < |m.l2[i]|
  {
  }

  lemma RewritesLength(f: seq<byte>, f': seq<byte>, at: nat, e: u64)
    requires Rewrites(f, f', at, e)
    ensures |f'| == |f|
  {
  }

  /** The same for an empty L1 entry. */
  lemma TableUpdated(m: Meta, cached: map<nat, seq<u64>>, blocks: map<nat, seq<byte>>, f: seq<byte>, f': seq<byte>,
                     i: nat, off: nat)
    requires Intact(m, cached, blocks, f, false) && i < |m.l1| && m.l1[i] == 0
    requires Ready(m, f, off) && m.Fresh(off) && 0 < off < MAX_HOST
    requires Rewrites(f, f', m.g.l1Off + 8 * i, EntryFor(off))
    ensures var m' := WithL2Table(m, i, EntryFor(off));
      && Intact(m', cached[i := m'.l2[i]], blocks, f', false) && m'.Guest(f') == m.Guest(f)
      && Extends(m, m', L2Table(i)) && m'.Off(L2Table(i)) == off
    ensures SameStart(f, f', m.g.cs) && |f'| == |f|
  {
    hide Intact, Meta.Guest, Meta.Fresh, PointsTo, Extends, SameStart, EntryFor, ClusterOffset;
    var at, e := m.g.l1Off + 8 * i, EntryFor(off);
    Basics(m, cached, blocks, f, false);
    L1Entry(m, cached, blocks, f, i);
    EntryPointsTo(m, off);
    RewritesLength(f, f', at, e);
    hide Rewrites, Ready;
    L2TableJoins(m, cached, blocks, f, f', i, e, off);
    TableAdded(m, cached, blocks, f, i, e, off);
    EntryRewritten(m, cached, blocks, f, f', L1Table, at, e);
  }

  /** What is left when the entry could be neither written nor restored. */
  lemma EntryTorn(m: Meta, cached: map<nat, seq<u64>>, blocks: map<nat, seq<byte>>, f: seq<byte>, o: Owner, at: nat,
                  torn: seq<byte>)
    requires Intact(m, cached, blocks, f, false)
    requires o.L1Table? || o.RefTable? || (o.L2Table? && o.i in cached)
    requires m.Live(o) && m.Off(o) <= at && at + |torn| <= m.Off(o) + m.Len(o)
    ensures Intact(m, cached, blocks, Patch(f, at, torn), true) && m.Guest(Patch(f, at, torn)) == m.Guest(f)
    ensures SameStart(f, Patch(f, at, torn), m.g.cs)
  {
    hide Intact, Meta.Guest, SameStart;
    TornEntry(m, cached, blocks, f, o, at, torn);
    EntryPatched(m, cached, blocks, f, o, at, torn);
  }

  lemma BlockAdded(m: Meta, cached: map<nat, seq<u64>>, blocks: map<nat, seq<byte>>, f: seq<byte>, off: u64)
    requires Intact(m, cached, blocks, f, false) && off % m.g.cs == 0 && off != 0
    requires m.RcTab(off) < |m.rt| && m.rt[m.RcTab(off)] == 0
    ensures Extends(m, WithRefBlock(m, off), RefBlock(m.RcTab(off)))
    ensures WithRefBlock(m, off).Off(RefBlock(m.RcTab(off))) == off
  {
    RefBlockShape(m, off);
  }

  // Taking a cluster back.

  /** Counting a new cluster, whole or torn, then clearing its counter and cutting the file back. */
  lemma TakenBack(f: seq<byte>, n: nat, at: nat, torn: seq<byte>, zero: seq<byte>)
    requires at + |zero| <= |f| <= n && |torn| <= |zero|
    ensures Resize(Patch(Patch(Resize(f, n), at, torn), at, zero), |f|) == Patch(f, at, zero)
  {
    hide Patch, Resize;
    PatchTwice(Resize(f, n), at, torn, zero);
  }

  lemma CounterCleared(m: Meta, f: seq<byte>, x: nat)
    requires m.HasRc(x) && m.RcPos(x) + 2 <= |f|
    ensures m.Rc(Patch(f, m.RcPos(x), ToBe(0, 2)), x) == 0
  {
    Pow256Values();
    BeAtPatched(f, m.RcPos(x), 0, 2);
  }

  /** The counter of the last cluster lies before that cluster, so it survives the cut. */
  lemma CounterSurvives(m: Meta, cached: map<nat, seq<u64>>, blocks: map<nat, seq<byte>>, f: seq<byte>, x: nat)
    requires Intact(m, cached, blocks, f, false) && m.Owned(x) && x <= |f| && m.HasRc(x)
    ensures m.Rc(Resize(f, x), x) == m.Rc(f, x)
  {
    RcInBlock(m, x);
    BeAtFrame(f, Resize(f, x), m.RcPos(x), 2);
  }

  // Appending a cluster, then publishing it or taking it back.

  lemma StartTwice(f: seq<byte>, f1: seq<byte>, f2: seq<byte>, cs: nat)
    requires SameStart(f, f1, cs) && SameStart(f1, f2, cs)
    ensures SameStart(f, f2, cs)
  {
  }

  lemma Published(m: Meta, f: seq<byte>, m1: Meta, f1: seq<byte>, m2: Meta, f2: seq<byte>, o: Owner, off: nat)
    requires SameStart(f, f1, m.g.cs) && Grew(m, |f|, m1, off) && SameStart(f1, f2, m.g.cs)
    requires Extends(m1, m2, o) && m2.Off(o) == off && m2.Len(o) == m1.g.cs
    requires m.g.cs > 0 && off % m.g.cs == 0 && |f2| == off + m.g.cs
    ensures Evolves(m, f, m2, f2, false)
  {
    GrewGeometry(m, |f|, m1, off);
    hide Grew, Extends;
    GrewOne(m1, off, m2, o, off);
    GrewTwice(m, |f|, m1, off, m2, |f2|);
  }

  lemma Withdrawn(m: Meta, f: seq<byte>, m1: Meta, f1: seq<byte>, f2: seq<byte>, f3: seq<byte>, off: nat, fault: bool)
    requires SameStart(f, f1, m.g.cs) && Grew(m, |f|, m1, off)
    requires SameStart(f1, f2, m.g.cs) && SameStart(f2, f3, m.g.cs) && (!fault ==> |f3| == off)
    ensures Evolves(m, f, m1, f3, fault)
  {
    hide Grew;
  }

  lemma EvolvesSoFar(m: Meta, f: seq<byte>, m1: Meta, f1: seq<byte>, fault: bool)
    requires SameStart(f, f1, m.g.cs) && (!fault ==> Grew(m, |f|, m1, |f1|))
    ensures Evolves(m, f, m1, f1, fault)
  {
  }

  lemma EvolvesStill(m: Meta, f: seq<byte>, f1: seq<byte>)
    requires SameStart(f, f1, m.g.cs) && |f1| == |f|
    ensures Evolves(m, f, m, f1, false)
  {
    GrewNone(m, |f|);
  }

  /** An entry is rewritten, or torn, without a new cluster. */
  lemma EvolvesInPlace(m: Meta, f: seq<byte>, f1: seq<byte>, m2: Meta, f2: seq<byte>, o: Owner, fault: bool)
    requires SameStart(f, f1, m.g.cs) && SameStart(f1, f2, m.g.cs)
    requires !fault ==> |f2| == |f| && (m2 == m || Extends(m, m2, o))
    ensures Evolves(m, f, m2, f2, fault)
  {
    GrewNone(m, |f|);
    if !fault && m2 != m {
      GrewSame(m, |f|, m2, o);
    }
  }

  // Which guest clusters a step maps.

  /** Every guest cluster that is mapped now was mapped before, or holds a byte of `lo..hi`. */
  ghost predicate MapsOnly(m: Meta, m': Meta, lo: nat, hi: nat) {
    forall i: nat, j: nat :: m'.Mapped(i, j) ==> m.Mapped(i, j) || Holds(m, i, j, lo, hi)
  }

  /** Some guest byte of `lo..hi` lies in guest cluster (i, j). */
  ghost predicate Holds(m: Meta, i: nat, j: nat, lo: nat, hi: nat) {
    exists x: nat :: lo <= x < hi && m.g.L1Index(x) == i && m.g.L2Index(x) == j
  }

  lemma MapsOnlyNone(m: Meta, m': Meta, x: nat)
    requires m'.l2 == m.l2
    ensures MapsOnly(m, m', x, x)
  {
  }

  lemma MapsOnlyTwice(m: Meta, m1: Meta, m2: Meta, lo: nat, mid: nat, hi: nat)
    requires m1.g == m.g && lo <= mid <= hi
    requires MapsOnly(m, m1, lo, mid) && MapsOnly(m1, m2, mid, hi)
    ensures MapsOnly(m, m2, lo, hi)
  {
    forall i: nat, j: nat | m2.Mapped(i, j)
      ensures m.Mapped(i, j) || Holds(m, i, j, lo, hi)
    {
      if !m.Mapped(i, j) {
        if m1.Mapped(i, j) {
          HoldsMore(m, i, j, lo, mid, lo, hi);
        } else {
          HoldsMore(m1, i, j, mid, hi, lo, hi);
        }
      }
    }
  }

  lemma MapsOnlyMore(m: Meta, m': Meta, lo: nat, hi: nat, hi': nat)
    requires MapsOnly(m, m', lo, hi) && hi <= hi'
    ensures MapsOnly(m, m', lo, hi')
  {
    forall i: nat, j: nat | m'.Mapped(i, j)
      ensures m.Mapped(i, j) || Holds(m, i, j, lo, hi')
    {
      if !m.Mapped(i, j) {
        HoldsMore(m, i, j, lo, hi, lo, hi');
      }
    }
  }

  lemma HoldsMore(m: Meta, i: nat, j: nat, lo: nat, hi: nat, lo': nat, hi': nat)
    requires Holds(m, i, j, lo, hi) && lo' <= lo && hi <= hi'
    ensures Holds(m, i, j, lo', hi')
  {
    var x: nat :| lo <= x < hi && m.g.L1Index(x) == i && m.g.L2Index(x) == j;
  }

  /** The tables are the same outside entry (i, j). */
  ghost predicate SameOthers(l2: map<nat, seq<u64>>, l2': map<nat, seq<u64>>, i: nat, j: nat) {
    && (forall a :: a in l2' ==> a in l2 && |l2'[a]| == |l2[a]|)
    && (forall a, b :: a in l2' && 0 <= b < |l2'[a]| && (a != i || b != j) ==> l2'[a][b] == l2[a][b])
  }

  lemma MapsOnlyOne(m: Meta, m': Meta, x: nat)
    requires SameOthers(m.l2, m'.l2, m.g.L1Index(x), m.g.L2Index(x))
    ensures MapsOnly(m, m', x, x + 1)
  {
    forall i: nat, j: nat | m'.Mapped(i, j)
      ensures m.Mapped(i, j) || Holds(m, i, j, x, x + 1)
    {
      if i == m.g.L1Index(x) && j == m.g.L2Index(x) {
        assert Holds(m, i, j, x, x + 1);
      }
    }
  }

  /** A new table maps nothing. */
  lemma MapsOnlyTable(m: Meta, m': Meta, i: nat, table: seq<u64>, x: nat)
    requires m'.l2 == m.l2[i := table] && Zeroed(table) && ClusterOffset(0) == 0
    ensures MapsOnly(m, m', x, x)
  {
  }
}
