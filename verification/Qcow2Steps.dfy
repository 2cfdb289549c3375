/** What each kind of change to the host file does to a consistent image. */
module Qcow2Steps {
  import opened Arith
  import opened Bytes
  import opened Qcow2Meta

  /** Different clusters have different counters. */
  lemma RcSeparate(m: Meta, x: nat, y: nat)
    requires m.g.cs >= 512 && x % m.g.cs == 0 && y % m.g.cs == 0 && x != y
    ensures m.RcTab(x) != m.RcTab(y) || m.RcSlot(x) != m.RcSlot(y)
  {
    if m.RcTab(x) == m.RcTab(y) && m.RcSlot(x) == m.RcSlot(y) {
      DivModUnique(x / m.g.cs, y / m.g.cs, m.g.Rbe());
      DivModUnique(x, y, m.g.cs);
    }
  }

  // Changes that leave the tables alone.

  /** Rewriting a data cluster, or changing only unowned bytes, keeps the image consistent. */
  lemma DataChange(m: Meta, f: seq<byte>, f': seq<byte>, i: nat, j: nat)
    requires m.Healthy(f)
    requires m.KeepsAllBut(f, f', Data(i, j))
    requires m.Live(Data(i, j)) ==> m.Off(Data(i, j)) + m.g.cs <= |f'|
    ensures m.Healthy(f')
  {
    assert m.Owned(|f'|) by {
      forall o | m.Live(o)
        ensures m.Off(o) + m.Len(o) <= |f'|
      {
        assert o != Data(i, j) ==> m.Keeps(f, f', o);
      }
    }
    L1Keeps(m, f, f');
    RtKeeps(m, f, f');
    forall k | k in m.l2
      ensures m.L2OnDisk(f', k)
    {
      L2Keeps(m, f, f', k);
    }
    forall o, x: nat | m.OwnsCluster(o, x)
      ensures m.Rc(f', x) == 1
    {
      RcKeeps(m, f, f', x);
    }
  }

  /** Changing only bytes nobody owns, or the length of the file past every claim, changes nothing. */
  lemma Untouched(m: Meta, f: seq<byte>, f': seq<byte>)
    requires m.Healthy(f)
    requires m.KeepsAll(f, f')
    ensures m.Healthy(f')
    ensures m.Guest(f') == m.Guest(f)
  {
    var o := Data(0, 0);
    assert m.Keeps(f, f', o);
    DataChange(m, f, f', 0, 0);
    GuestKeeps(m, f, f');
  }

  /** Writing, or tearing a write of, the counter of an unowned cluster. */
  lemma CounterChange(m: Meta, f: seq<byte>, x: nat, d: seq<byte>)
    requires m.Healthy(f)
    requires x % m.g.cs == 0 && m.Fresh(x) && m.HasRc(x)
    requires |d| <= 2
    ensures var f' := Patch(f, m.RcPos(x), d);
            && |f'| == |f|
            && m.Healthy(f')
            && m.Guest(f') == m.Guest(f)
            && m.KeepsAllBut(f, f', RefBlock(m.RcTab(x)))
  {
    var b := RefBlock(m.RcTab(x));
    var f' := Patch(f, m.RcPos(x), d);
    RcInBlock(m, x);
    PatchKeeps(m, f, b, m.RcPos(x), d);
    L1Keeps(m, f, f');
    RtKeeps(m, f, f');
    forall k | k in m.l2
      ensures m.L2OnDisk(f', k)
    {
      L2Keeps(m, f, f', k);
    }
    forall o, y: nat | m.OwnsCluster(o, y)
      ensures m.Rc(f', y) == 1
    {
      OtherCounter(m, f, x, y, d);
    }
    GuestKeeps(m, f, f');
  }

  lemma OtherCounter(m: Meta, f: seq<byte>, x: nat, y: nat, d: seq<byte>)
    requires m.Shape() && m.Owned(|f|)
    requires x % m.g.cs == 0 && y % m.g.cs == 0 && x != y && m.HasRc(x)
    requires |d| <= 2
    ensures m.Rc(Patch(f, m.RcPos(x), d), y) == m.Rc(f, y)
  {
    RcSeparate(m, x, y);
    RcInBlock(m, x);
    PatchKeeps(m, f, RefBlock(m.RcTab(x)), m.RcPos(x), d);
    var f' := Patch(f, m.RcPos(x), d);
    if m.RcTab(y) == m.RcTab(x) {
      RcInBlock(m, y);
      BeAtFrame(f, f', m.RcPos(y), 2);
    } else {
      RcKeeps(m, f, f', y);
    }
  }
}
