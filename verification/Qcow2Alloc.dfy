/** How far an append reaches: the refcount blocks it needs and the room it must find first. */
module Qcow2Alloc {
  import opened Arith
  import opened Bytes
  import opened Qcow2Meta
  import opened Qcow2Publish
  import opened Qcow2Handle

  /** Refcount blocks that must be appended before the cluster at `x`, or the one after them, is counted. */
  function Needed(m: Meta, x: nat): nat {
    if m.HasRc(x) then 0
    else if m.RcTab(x + m.g.cs) == m.RcTab(x) || m.HasRc(x + m.g.cs) then 1
    else 2
  }

  /** The cluster an append at `x` ends up with, after the blocks it needs. */
  function Target(m: Meta, x: nat): nat { x + Needed(m, x) * m.g.cs }

  /** Appending at `x` stays inside the refcount table and the signed file range. */
  predicate Capacity(m: Meta, x: nat) {
    && Target(m, x) + m.g.cs <= MAX_INT64
    && m.RcTab(x) < |m.rt|
    && m.RcTab(Target(m, x)) < |m.rt|
  }

  /** A file of `n` bytes may grow by `k` clusters, all of which the refcount table can count. */
  ghost predicate Spacious(m: Meta, n: nat, k: nat) {
    && m.g.cs > 0
    && End(m, n, k) <= MAX_HOST
    && forall x: nat :: x < End(m, n, k) ==> m.RcTab(x) < |m.rt|
  }

  /** Where a file of `n` bytes ends when it is rounded up and grows by `k` clusters. */
  function End(m: Meta, n: nat, k: nat): nat
    requires m.g.cs > 0
  {
    AlignUp(n, m.g.cs) + k * m.g.cs
  }

  /** Three clusters are room enough for one append. */
  lemma SpaciousCapacity(m: Meta, n: nat)
    requires Spacious(m, n, 3)
    ensures var end := AlignUp(n, m.g.cs);
            Capacity(m, end) && Target(m, end) + m.g.cs <= MAX_HOST
  {
    TargetBound(m, n);
  }

  lemma TargetBound(m: Meta, n: nat)
    requires m.g.cs > 0
    ensures Target(m, AlignUp(n, m.g.cs)) + m.g.cs <= End(m, n, 3)
  {
  }

  lemma NotYetThere(m: Meta, x: nat)
    requires !m.HasRc(x)
    ensures x + m.g.cs <= Target(m, x)
  {
  }

  /** Room for more remains after growing by less. */
  lemma SpaciousLater(m: Meta, n: nat, k: nat, m': Meta, n': nat, k': nat, more: nat)
    requires Spacious(m, n, k) && m'.g == m.g && |m'.rt| == |m.rt|
    requires n' <= End(m, n, more) && more + k' <= k
    ensures Spacious(m', n', k')
  {
    var cs := m.g.cs;
    AlignedSum(AlignUp(n, cs), cs, more);
    AlignedBelow(n', cs, End(m, n, more));
    MulSum(more, k', k, cs);
    assert forall x: nat :: m'.RcTab(x) == m.RcTab(x);
  }

  lemma EndLater(m: Meta, n: nat, m': Meta, n': nat, k: nat, k': nat)
    requires m.g.cs > 0 && m'.g == m.g && n' <= End(m, n, k)
    ensures End(m', n', k') <= End(m, n, k + k') && n' <= End(m, n, k + k')
  {
    var cs := m.g.cs;
    AlignedSum(AlignUp(n, cs), cs, k);
    AlignedBelow(n', cs, End(m, n, k));
    MulSum(k, k', k + k', cs);
    assert (k + k') * cs == k * cs + k' * cs;
  }

  /** How many clusters `n` bytes at `x` touch. */
  function Touched(cs: nat, x: nat, n: nat): nat
    requires cs > 0
  {
    if n == 0 then 0 else (x % cs + n + cs - 1) / cs
  }

  /** The chunk in the first cluster takes one of them. */
  lemma TouchedStep(cs: nat, x: nat, n: nat)
    requires cs > 0 && n > 0
    ensures var c := Min(n, cs - x % cs);
            0 < c <= n && Touched(cs, x, n) == Touched(cs, x + c, n - c) + 1
  {
    var c := Min(n, cs - x % cs);
    if c == n {
      Quotient(x % cs + n + cs - 1, cs, 1, x % cs + n - 1);
    } else {
      var q := x / cs;
      assert x + c == cs * (q + 1);
      MulMod(cs, q + 1);
      var k := n - c + cs - 1;
      assert x % cs + n + cs - 1 == k + cs;
      var a, r := k / cs, k % cs;
      assert k + cs == cs * (a + 1) + r;
      Quotient(k + cs, cs, a + 1, r);
    }
  }

  /** Six host clusters for each touched cluster: a table and a cluster, each with two refcount blocks at most. */
  ghost predicate RoomFor(m: Meta, n: nat, touched: nat) { Spacious(m, n, 6 * touched) }

  lemma RoomForOne(m: Meta, n: nat, touched: nat)
    requires RoomFor(m, n, touched) && touched > 0
    ensures Spacious(m, n, 6)
  {
    SpaciousLater(m, n, 6 * touched, m, n, 6, 0);
  }

  lemma RoomForRest(m: Meta, n: nat, touched: nat, m': Meta, n': nat)
    requires RoomFor(m, n, touched) && touched > 0 && m'.g == m.g && |m'.rt| == |m.rt| && n' <= End(m, n, 6)
    ensures RoomFor(m', n', touched - 1)
  {
    SpaciousLater(m, n, 6 * touched, m', n', 6 * (touched - 1), 6);
  }

  lemma MulSum(a: nat, b: nat, c: nat, cs: nat)
    requires a + b <= c
    ensures a * cs + b * cs <= c * cs
  {
    assert (c - a - b) * cs >= 0;
  }

  lemma AlignedSum(a: nat, cs: nat, k: nat)
    requires cs > 0 && a % cs == 0
    ensures (a + k * cs) % cs == 0
  {
    var q := a / cs;
    assert a + k * cs == cs * (q + k);
    MulMod(cs, q + k);
  }

  lemma AlignedBelow(n: nat, cs: nat, a: nat)
    requires cs > 0 && a % cs == 0 && n <= a
    ensures AlignUp(n, cs) <= a
  {
    if AlignUp(n, cs) > a {
      var p, q := AlignUp(n, cs) / cs, a / cs;
      assert AlignUp(n, cs) == cs * p && a == cs * q;
      MulStep(cs, p, q);
    }
  }

  lemma NextTab(m: Meta, x: nat)
    requires m.g.cs >= 512 && x % m.g.cs == 0
    ensures (x + m.g.cs) % m.g.cs == 0
    ensures m.RcSlot(x) + 1 < m.g.Rbe() ==> m.RcTab(x + m.g.cs) == m.RcTab(x) && m.RcSlot(x + m.g.cs) == m.RcSlot(x) + 1
    ensures m.RcSlot(x) + 1 == m.g.Rbe() ==> m.RcTab(x + m.g.cs) == m.RcTab(x) + 1 && m.RcSlot(x + m.g.cs) == 0
  {
    NextBlock(x, m.g.cs);
    var c, n := x / m.g.cs, m.g.Rbe();
    var q, s := c / n, c % n;
    assert c == n * q + s;
    if s + 1 < n {
      assert c + 1 == n * q + (s + 1);
      Quotient(c + 1, n, q, s + 1);
    } else {
      assert c + 1 == n * (q + 1);
      MulMod(n, q + 1);
    }
  }

  /** Two appended blocks always suffice: the second starts a table range, so it counts its successor. */
  lemma NeededSteps(m: Meta, x: nat)
    requires m.g.cs >= 512 && x % m.g.cs == 0 && !m.HasRc(x) && m.RcTab(x) < |m.rt|
    requires x < 0x1_0000_0000_0000_0000 && x != 0
    ensures Needed(WithRefBlock(m, x), x + m.g.cs) == Needed(m, x) - 1
    ensures Target(WithRefBlock(m, x), x + m.g.cs) == Target(m, x)
    ensures Capacity(m, x) ==> Capacity(WithRefBlock(m, x), x + m.g.cs)
  {
    NextTab(m, x);
    NextTab(m, x + m.g.cs);
    assert m.g.Rbe() >= 2;
  }

  // Growing and shrinking the file.

  /** Whatever is written past the end belongs to nobody. */
  lemma Appended(m: Meta, cached: map<nat, seq<u64>>, blocks: map<nat, seq<byte>>, f: seq<byte>, f': seq<byte>,
                 off: nat)
    requires Intact(m, cached, blocks, f, false)
    requires |f| <= off && |f| <= |f'|
    requires forall k :: 0 <= k < |f| ==> f'[k] == f[k]
    ensures Intact(m, cached, blocks, f', false) && Intact(m, cached, blocks, f', true)
    ensures m.Guest(f') == m.Guest(f)
    ensures m.Fresh(off)
  {
    assert m.KeepsAll(f, f');
    TailChange(m, cached, blocks, f, f');
  }

  /** The file may be cut back to any length it had while it held the same claims. */
  lemma CutTo(m: Meta, cached: map<nat, seq<u64>>, blocks: map<nat, seq<byte>>, f: seq<byte>, n: nat)
    requires Intact(m, cached, blocks, f, false)
    requires m.Owned(n) && n <= |f|
    ensures Intact(m, cached, blocks, Resize(f, n), false)
    ensures m.Guest(Resize(f, n)) == m.Guest(f)
  {
    assert m.KeepsAll(f, Resize(f, n));
    TailChange(m, cached, blocks, f, Resize(f, n));
  }

  /** A cluster nobody owns at the end of the file may be cut off. */
  lemma LastClusterFree(m: Meta, cached: map<nat, seq<u64>>, blocks: map<nat, seq<byte>>, f: seq<byte>, x: nat)
    requires Intact(m, cached, blocks, f, false)
    requires m.Fresh(x) && x + m.g.cs == |f|
    ensures m.Owned(x)
  {
    forall o | m.Live(o)
      ensures m.Off(o) + m.Len(o) <= x
    {
      assert Apart(m.Off(o), m.Len(o), x, m.g.cs);
    }
  }

  /** Disabling writes promises less. */
  lemma Disabled(m: Meta, cached: map<nat, seq<u64>>, blocks: map<nat, seq<byte>>, f: seq<byte>)
    requires Intact(m, cached, blocks, f, false)
    ensures Intact(m, cached, blocks, f, true)
    ensures m.Owned(|f|)
  {
  }

  /** A write past the end, whole or torn, is undone by cutting the file back. */
  lemma CutBack(f: seq<byte>, off: nat, d: seq<byte>)
    requires off >= |f|
    ensures Resize(Patch(f, off, d), |f|) == f
  {
  }

  /** A refcount block in which only counter `slot` is one. */
  function NewBlock(cs: nat, slot: nat): (r: seq<byte>)
    requires 2 * slot + 2 <= cs
    ensures |r| == cs
  {
    Patch(Zeros(cs), 2 * slot, ToBe(1, 2))
  }

  lemma NewBlockCountsItself(m: Meta, f: seq<byte>, off: nat)
    requires m.g.cs >= 512 && off >= |f|
    ensures 2 * m.RcSlot(off) + 2 <= m.g.cs
    ensures var f' := Patch(f, off, NewBlock(m.g.cs, m.RcSlot(off)));
            && |f'| == off + m.g.cs
            && f'[off..off + m.g.cs] == NewBlock(m.g.cs, m.RcSlot(off))
            && BeAt(f', off + 2 * m.RcSlot(off), 2) == 1
  {
    assert m.RcSlot(off) < m.g.Rbe();
    var block := NewBlock(m.g.cs, m.RcSlot(off));
    var f' := Patch(f, off, block);
    var p := off + 2 * m.RcSlot(off);
    assert f'[p..p + 2] == ToBe(1, 2);
    Pow256Values();
    FromToBe(1, 2);
  }

  /** The stored form of a refcount-table entry. */
  lemma RtEntry(m: Meta, cached: map<nat, seq<u64>>, blocks: map<nat, seq<byte>>, f: seq<byte>, t: nat)
    requires Intact(m, cached, blocks, f, false) && t < |m.rt|
    ensures m.g.rtOff + 8 * t + 8 <= m.Off(RefTable) + m.Len(RefTable) <= |f|
    ensures m.Live(RefTable) && m.Off(RefTable) <= m.g.rtOff + 8 * t
    ensures BeAt(f, m.g.rtOff + 8 * t, 8) == m.rt[t]
  {
    assert m.Live(RefTable);
  }
}
