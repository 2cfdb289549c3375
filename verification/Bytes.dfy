/** Byte strings, big- and little-endian numbers, and the two ways a host file changes. */
module Bytes {
  import opened Arith

  type byte = x: int | 0 <= x < 256

  function Zeros(n: nat): (r: seq<byte>)
    ensures |r| == n
    ensures forall k :: 0 <= k < n ==> r[k] == 0
  {
    seq(n, _ => 0)
  }

  /** `f` after `d` has been written at `off`: a write past the end fills the gap with zeros. */
  function Patch(f: seq<byte>, off: nat, d: seq<byte>): (r: seq<byte>)
    ensures |r| == if d == [] then |f| else Max(|f|, off + |d|)
    ensures forall k :: 0 <= k < |r| ==>
      r[k] == if off <= k < off + |d| then d[k - off] else if k < |f| then f[k] else 0
  {
    if d == [] then f
    else if off + |d| <= |f| then f[..off] + d + f[off + |d|..]
    else if off <= |f| then f[..off] + d
    else f + Zeros(off - |f|) + d
  }

  /** `f` after truncation or extension to `n` bytes. */
  function Resize(f: seq<byte>, n: nat): (r: seq<byte>)
    ensures |r| == n
    ensures forall k :: 0 <= k < n ==> r[k] == if k < |f| then f[k] else 0
  {
    if n <= |f| then f[..n] else f + Zeros(n - |f|)
  }

  function Pow256(n: nat): (r: nat)
    ensures r > 0
  {
    if n == 0 then 1 else 256 * Pow256(n - 1)
  }

  lemma Pow256Values()
    ensures Pow256(2) == 0x1_0000
    ensures Pow256(4) == 0x1_0000_0000
    ensures Pow256(8) == 0x1_0000_0000_0000_0000
  {
    assert Pow256(1) == 256;
    assert Pow256(3) == 256 * Pow256(2);
    assert Pow256(5) == 256 * Pow256(4);
    assert Pow256(6) == 256 * Pow256(5);
    assert Pow256(7) == 256 * Pow256(6);
  }

  /** The number a big-endian byte string denotes. */
  function FromBe(s: seq<byte>): nat {
    if s == [] then 0 else FromBe(s[..|s| - 1]) * 256 + s[|s| - 1]
  }

  lemma {:induction false} FromBeZeros(s: seq<byte>)
    requires forall k :: 0 <= k < |s| ==> s[k] == 0
    ensures FromBe(s) == 0
  {
    if s != [] {
      FromBeZeros(s[..|s| - 1]);
    }
  }

  /** The low `n` bytes of `v`, most significant first. */
  function ToBe(v: nat, n: nat): (r: seq<byte>)
    ensures |r| == n
  {
    if n == 0 then [] else ToBe(v / 256, n - 1) + [v % 256]
  }

  lemma {:induction false} FromToBe(v: nat, n: nat)
    requires v < Pow256(n)
    ensures FromBe(ToBe(v, n)) == v
  {
    if n > 0 {
      FromToBe(v / 256, n - 1);
      assert ToBe(v, n)[..n - 1] == ToBe(v / 256, n - 1);
    }
  }

  lemma {:induction false} ToFromBe(s: seq<byte>)
    ensures FromBe(s) < Pow256(|s|)
    ensures ToBe(FromBe(s), |s|) == s
  {
    if s != [] {
      ToFromBe(s[..|s| - 1]);
      assert s == s[..|s| - 1] + [s[|s| - 1]];
    }
  }

  lemma SliceOfSlice(f: seq<byte>, p: nat, n: nat, q: nat, k: nat)
    requires q + k <= n && p + n <= |f|
    ensures f[p..p + n][q..q + k] == f[p + q..p + q + k]
  {
    var part := f[p..p + n];
    assert forall i :: 0 <= i < n ==> part[i] == f[p + i];
  }

  /** Two attempts at the same place amount to one. */
  lemma PatchTwice(f: seq<byte>, p: nat, a: seq<byte>, b: seq<byte>)
    requires p <= |f|
    ensures Patch(Patch(f, p, a), p, b) == Patch(f, p, if |b| >= |a| then b else b + a[|b|..])
  {
  }

  /** Big-endian number of `n` bytes at offset `p`; zero when it does not lie in `f`. */
  function BeAt(f: seq<byte>, p: nat, n: nat): nat {
    if p + n <= |f| then FromBe(f[p..p + n]) else 0
  }

  lemma BeAtPatched(f: seq<byte>, p: nat, v: nat, n: nat)
    requires v < Pow256(n)
    requires p + n <= |f|
    ensures BeAt(Patch(f, p, ToBe(v, n)), p, n) == v
  {
    FromToBe(v, n);
    assert Patch(f, p, ToBe(v, n))[p..p + n] == ToBe(v, n);
  }

  /** A number is unaffected by changes outside its own bytes. */
  lemma BeAtFrame(f: seq<byte>, f': seq<byte>, p: nat, n: nat)
    requires p + n <= |f| && p + n <= |f'|
    requires forall k :: p <= k < p + n ==> f'[k] == f[k]
    ensures BeAt(f', p, n) == BeAt(f, p, n)
  {
    assert f'[p..p + n] == f[p..p + n];
  }

  /** Rewriting the number that was there heals any torn attempt to replace it. */
  lemma RestoreHeals(f: seq<byte>, p: nat, torn: seq<byte>, n: nat)
    requires p + n <= |f|
    requires |torn| <= n
    ensures Patch(Patch(f, p, torn), p, ToBe(BeAt(f, p, n), n)) == f
  {
    hide FromBe, ToBe, Patch;
    var was := f[p..p + n];
    ToFromBe(was);
    PatchTwice(f, p, torn, was);
    assert Patch(f, p, was) == f;
  }

  /** The number a little-endian byte string denotes. */
  function FromLe(s: seq<byte>): nat {
    if s == [] then 0 else s[0] + 256 * FromLe(s[1..])
  }

  /** The low `n` bytes of `v`, least significant first. */
  function ToLe(v: nat, n: nat): (r: seq<byte>)
    ensures |r| == n
  {
    if n == 0 then [] else [v % 256] + ToLe(v / 256, n - 1)
  }

  lemma {:induction false} FromToLe(v: nat, n: nat)
    requires v < Pow256(n)
    ensures FromLe(ToLe(v, n)) == v
  {
    if n > 0 {
      FromToLe(v / 256, n - 1);
      assert ToLe(v, n)[1..] == ToLe(v / 256, n - 1);
    }
  }
}
