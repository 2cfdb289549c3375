/** What a crash between two host calls leaves behind, when the host keeps the order of the calls. */
module Qcow2Crash {
  import opened Bytes
  import opened HostFile
  import opened Qcow2Meta
  import opened Qcow2Publish
  import opened Qcow2Handle
  import opened Qcow2Alloc
  import opened Qcow2Guest
  import opened Qcow2Growth

  /** The file has the header of `f0` and is consistent for some tables, which show the disk `guest`. */
  ghost predicate Stands(g: Geometry, f0: seq<byte>, f: seq<byte>, guest: seq<byte>) {
    SameStart(f0, f, g.cs) && exists m: Meta :: m.g == g && m.Healthy(f) && m.Guest(f) == guest
  }

  ghost predicate Sound(s: Moment, g: Geometry, f0: seq<byte>, guest: seq<byte>) {
    !s.split ==> Stands(g, f0, s.bytes, guest)
  }

  /** From trace `t0` to `t`, every call left such a file. */
  ghost predicate Kept(t0: seq<Moment>, t: seq<Moment>, g: Geometry, f0: seq<byte>, guest: seq<byte>) {
    t0 <= t && forall k :: |t0| <= k < |t| ==> Sound(t[k], g, f0, guest)
  }

  lemma Standing(m: Meta, cached: map<nat, seq<u64>>, blocks: map<nat, seq<byte>>, f0: seq<byte>, f: seq<byte>,
                 guest: seq<byte>)
    requires Intact(m, cached, blocks, f, false) && SameStart(f0, f, m.g.cs) && m.Guest(f) == guest
    ensures Stands(m.g, f0, f, guest)
  {
    hide SameStart, Meta.Guest, Meta.Shape, Meta.Owned, Meta.Counted, Meta.OnDisk, BlocksMatch, Readable;
  }

  lemma KeptNone(t: seq<Moment>, g: Geometry, f0: seq<byte>, guest: seq<byte>)
    ensures Kept(t, t, g, f0, guest)
  {
  }

  lemma SoundFrom(s: Moment, g: Geometry, f0: seq<byte>, f1: seq<byte>, guest: seq<byte>)
    requires Sound(s, g, f1, guest) && SameStart(f0, f1, g.cs)
    ensures Sound(s, g, f0, guest)
  {
  }

  lemma KeptTwice(t0: seq<Moment>, t1: seq<Moment>, t2: seq<Moment>, g: Geometry, f0: seq<byte>, f1: seq<byte>,
                  guest: seq<byte>)
    requires Kept(t0, t1, g, f0, guest) && Kept(t1, t2, g, f1, guest) && SameStart(f0, f1, g.cs)
    ensures Kept(t0, t2, g, f0, guest)
  {
    hide Sound, SameStart;
    forall k | |t0| <= k < |t2|
      ensures Sound(t2[k], g, f0, guest)
    {
      if k < |t1| {
        assert t2[k] == t1[k];
      } else {
        SoundFrom(t2[k], g, f0, f1, guest);
      }
    }
  }

  /** One more call left a consistent file. */
  lemma KeptOne(t0: seq<Moment>, t: seq<Moment>, s: Moment, m: Meta, cached: map<nat, seq<u64>>,
                blocks: map<nat, seq<byte>>, f0: seq<byte>, guest: seq<byte>)
    requires Kept(t0, t, m.g, f0, guest)
    requires Intact(m, cached, blocks, s.bytes, false) && SameStart(f0, s.bytes, m.g.cs) && m.Guest(s.bytes) == guest
    ensures Kept(t0, t + [s], m.g, f0, guest)
  {
    hide Intact, SameStart, Meta.Guest, Stands;
    Standing(m, cached, blocks, f0, s.bytes, guest);
  }

  // Writing a table entry.

  /** A call that is not split left the old entry or the new one. */
  ghost predicate EntryTrace(t0: seq<Moment>, t: seq<Moment>, f: seq<byte>, at: nat, e: u64) {
    t0 <= t && forall k :: |t0| <= k < |t| && !t[k].split ==> t[k].bytes == f || Rewrites(f, t[k].bytes, at, e)
  }

  /** Both are consistent: an entry that went out whole is published, whatever was reported of it. */
  lemma DataMoments(m: Meta, cached: map<nat, seq<u64>>, blocks: map<nat, seq<byte>>, f: seq<byte>, i: nat, j: nat,
                    off: nat, t0: seq<Moment>, t: seq<Moment>)
    requires Intact(m, cached, blocks, f, false) && i < |m.l1|
    requires Ready(m, f, off) && Takes(m, i, j, off) && 0 < off < MAX_HOST
    requires EntryTrace(t0, t, f, ClusterOffset(m.l1[i]) + 8 * j, EntryFor(off))
    ensures Kept(t0, t, m.g, f, m.Guest(f))
  {
    hide Intact, Meta.Guest, Ready, Takes, Rewrites, SameStart, Stands, EntryFor, ClusterOffset, Extends;
    Basics(m, cached, blocks, f, false);
    StartSame(f, m.g.cs);
    Standing(m, cached, blocks, f, f, m.Guest(f));
    forall k | |t0| <= k < |t| && !t[k].split && t[k].bytes != f
      ensures Stands(m.g, f, t[k].bytes, m.Guest(f))
    {
      TakesEntry(m, i, j, off);
      DataUpdated(m, cached, blocks, f, t[k].bytes, i, j, off);
      var m' := WithData(m, i, j, EntryFor(off));
      Standing(m', cached[i := m'.l2[i]], blocks, f, t[k].bytes, m.Guest(f));
    }
  }

  lemma TableMoments(m: Meta, cached: map<nat, seq<u64>>, blocks: map<nat, seq<byte>>, f: seq<byte>, i: nat, off: nat,
                     t0: seq<Moment>, t: seq<Moment>)
    requires Intact(m, cached, blocks, f, false) && i < |m.l1| && m.l1[i] == 0
    requires Ready(m, f, off) && m.Fresh(off) && 0 < off < MAX_HOST
    requires EntryTrace(t0, t, f, m.g.l1Off + 8 * i, EntryFor(off))
    ensures Kept(t0, t, m.g, f, m.Guest(f))
  {
    hide Intact, Meta.Guest, Meta.Fresh, Ready, Rewrites, SameStart, Stands, EntryFor, Extends;
    Basics(m, cached, blocks, f, false);
    StartSame(f, m.g.cs);
    Standing(m, cached, blocks, f, f, m.Guest(f));
    forall k | |t0| <= k < |t| && !t[k].split && t[k].bytes != f
      ensures Stands(m.g, f, t[k].bytes, m.Guest(f))
    {
      TableUpdated(m, cached, blocks, f, t[k].bytes, i, off);
      var m' := WithL2Table(m, i, EntryFor(off));
      Standing(m', cached[i := m'.l2[i]], blocks, f, t[k].bytes, m.Guest(f));
    }
  }

  lemma BlockMoments(m: Meta, cached: map<nat, seq<u64>>, blocks: map<nat, seq<byte>>, f: seq<byte>, off: u64,
                     t0: seq<Moment>, t: seq<Moment>)
    requires Intact(m, cached, blocks, f, false) && m.Fresh(off)
    requires off % m.g.cs == 0 && off != 0 && off + m.g.cs <= |f|
    requires m.RcTab(off) < |m.rt| && m.rt[m.RcTab(off)] == 0
    requires BeAt(f, off + 2 * m.RcSlot(off), 2) == 1
    requires EntryTrace(t0, t, f, m.g.rtOff + 8 * m.RcTab(off), off)
    ensures Kept(t0, t, m.g, f, m.Guest(f))
  {
    hide Intact, Meta.Guest, Meta.Fresh, Rewrites, SameStart, Stands, BeAt, BlockMatches;
    Basics(m, cached, blocks, f, false);
    StartSame(f, m.g.cs);
    Standing(m, cached, blocks, f, f, m.Guest(f));
    RtEntry(m, cached, blocks, f, m.RcTab(off));
    forall k | |t0| <= k < |t| && !t[k].split && t[k].bytes != f
      ensures Stands(m.g, f, t[k].bytes, m.Guest(f))
    {
      RefBlockJoins(m, cached, blocks, f, t[k].bytes, off, f[off..off + m.g.cs]);
      EntryRewritten(m, cached, blocks, f, t[k].bytes, RefTable, m.g.rtOff + 8 * m.RcTab(off), off);
      Standing(WithRefBlock(m, off), cached, blocks, f, t[k].bytes, m.Guest(f));
    }
  }

  // Writing data.

  /** Every call from `t0` to `t` left a file that shows `guest` with some first part of `b` written at `off`. */
  ghost predicate Within(t0: seq<Moment>, t: seq<Moment>, g: Geometry, f0: seq<byte>, guest: seq<byte>, off: nat,
                         b: seq<byte>)
  {
    t0 <= t && forall k :: |t0| <= k < |t| ==> PartWritten(t[k], g, f0, guest, off, b)
  }

  ghost predicate PartWritten(s: Moment, g: Geometry, f0: seq<byte>, guest: seq<byte>, off: nat, b: seq<byte>) {
    exists n: nat :: n <= |b| && Sound(s, g, f0, Overlay(guest, off, b, n))
  }

  lemma WithinNone(t0: seq<Moment>, t: seq<Moment>, g: Geometry, f0: seq<byte>, guest: seq<byte>, off: nat,
                   b: seq<byte>)
    requires Kept(t0, t, g, f0, guest)
    ensures Within(t0, t, g, f0, guest, off, b)
  {
    hide Sound, Overlay;
    OverlayNone(guest, off, b);
    forall k | |t0| <= k < |t|
      ensures PartWritten(t[k], g, f0, guest, off, b)
    {
      assert Sound(t[k], g, f0, Overlay(guest, off, b, 0));
    }
  }

  /** The data write itself, whole or not. */
  lemma WithinData(t0: seq<Moment>, t: seq<Moment>, s: Moment, m: Meta, cached: map<nat, seq<u64>>,
                   blocks: map<nat, seq<byte>>, f0: seq<byte>, guest: seq<byte>, off: nat, b: seq<byte>, n: nat)
    requires Within(t0, t, m.g, f0, guest, off, b) && n <= |b|
    requires Intact(m, cached, blocks, s.bytes, false) && SameStart(f0, s.bytes, m.g.cs)
    requires m.Guest(s.bytes) == Overlay(guest, off, b, n)
    ensures Within(t0, t + [s], m.g, f0, guest, off, b)
  {
    hide Intact, SameStart, Meta.Guest, Stands, Overlay;
    Standing(m, cached, blocks, f0, s.bytes, Overlay(guest, off, b, n));
    assert Sound(s, m.g, f0, Overlay(guest, off, b, n));
    hide Sound;
    assert PartWritten(s, m.g, f0, guest, off, b);
    hide PartWritten;
  }

  /** A chunk of `b` after the first `done` bytes. */
  lemma WithinChunk(s: Moment, g: Geometry, f0: seq<byte>, f1: seq<byte>, guest: seq<byte>, off: nat, b: seq<byte>,
                    done: nat, chunk: nat)
    requires off + |b| <= |guest| && done + chunk <= |b| && SameStart(f0, f1, g.cs)
    requires PartWritten(s, g, f1, Overlay(guest, off, b, done), off + done, b[done..done + chunk])
    ensures PartWritten(s, g, f0, guest, off, b)
  {
    hide Sound, SameStart, Overlay;
    var d := b[done..done + chunk];
    var n: nat :| n <= |d| && Sound(s, g, f1, Overlay(Overlay(guest, off, b, done), off + done, d, n));
    OverlayMore(guest, off, b, done, chunk, n);
    SoundFrom(s, g, f0, f1, Overlay(guest, off, b, done + n));
  }

  lemma WithinMore(t0: seq<Moment>, t1: seq<Moment>, t2: seq<Moment>, g: Geometry, f0: seq<byte>, f1: seq<byte>,
                   guest: seq<byte>, off: nat, b: seq<byte>, done: nat, chunk: nat)
    requires off + |b| <= |guest| && done + chunk <= |b| && SameStart(f0, f1, g.cs)
    requires Within(t0, t1, g, f0, guest, off, b)
    requires Within(t1, t2, g, f1, Overlay(guest, off, b, done), off + done, b[done..done + chunk])
    ensures Within(t0, t2, g, f0, guest, off, b)
  {
    hide PartWritten, SameStart, Overlay;
    forall k | |t0| <= k < |t2|
      ensures PartWritten(t2[k], g, f0, guest, off, b)
    {
      if k < |t1| {
        assert t2[k] == t1[k];
      } else {
        WithinChunk(t2[k], g, f0, f1, guest, off, b, done, chunk);
      }
    }
  }
}
