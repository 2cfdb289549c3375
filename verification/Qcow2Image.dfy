/** The writable image: allocation, publication and rollback under a failing metadata writer. */
module Qcow2Image {
  import opened Arith
  import opened Bytes
  import opened HostFile
  import opened RefcountCache
  import opened Qcow2Meta
  import opened Qcow2Publish
  import opened Qcow2Handle
  import opened Qcow2Alloc
  import opened Qcow2Guest
  import opened Qcow2Growth
  import opened Qcow2Crash

  /** A write fails for its metadata or for its data, a read for either. */
  datatype IoError =
    | NoError | EndOfFile | NegativeOffset | TooLarge | WritesDisabled
    | MetadataFailed | DataFailed | Unreadable

  datatype CountResult = Count(n: nat) | NoLocation | ReadFailed

  class Image {
    const g: Geometry
    const file: File
    const cache: Cache
    var l1: seq<u64>
    var rt: seq<u64>
    var l2Cache: map<nat, seq<u64>>
    var fault: bool // recovery could not restore metadata; no write is accepted any more
    ghost var l2: map<nat, seq<u64>> // the tables of all L1 entries, loaded or not

    constructor (g: Geometry, file: File, l1: seq<u64>, rt: seq<u64>)
      requires 0 < g.cs <= CACHE_BYTES
      ensures this.g == g && this.file == file && this.l1 == l1 && this.rt == rt
      ensures fresh(cache) && cache.Valid() && cache.cs == g.cs && cache.Blocks() == map[]
      ensures l2Cache == map[] && !fault
    {
      this.g, this.file, this.l1, this.rt := g, file, l1, rt;
      l2Cache, fault, l2 := map[], false, map[];
      cache := new Cache(g.cs);
    }

    ghost function M(): Meta
      reads this
    {
      Meta(g, l1, rt, l2)
    }

    ghost predicate Valid()
      reads this, file, cache
    {
      && file.Valid() && cache.Valid() && cache.cs == g.cs
      && Intact(M(), l2Cache, cache.Blocks(), file.bytes, fault)
    }

    /** What reading a counter needs; it also holds while an image is still being checked. */
    ghost predicate Countable()
      reads this, file, cache
    {
      && file.Valid() && cache.Valid() && cache.cs == g.cs
      && g.cs >= 512 && g.cs % 512 == 0
      && (forall t :: 0 <= t < |rt| ==> AlignedTo(rt[t], g.cs))
      && BlocksMatch(M(), cache.Blocks(), file.bytes)
    }

    lemma ValidCountable()
      requires Valid()
      ensures Countable()
    {
    }

    /** The virtual disk as a flat byte array. */
    ghost function Guest(): (r: seq<byte>)
      reads this, file
    {
      M().Guest(file.bytes)
    }

    // Metadata writes.

    method WriteMetadata(data: seq<byte>, off: nat) returns (ok: bool, ghost kept: nat)
      requires file.Valid()
      modifies file
      ensures file.Valid()
      ensures kept <= |data| && file.bytes == Patch(old(file.bytes), off, data[..kept])
      ensures ok ==> kept == |data| && file.bytes == Patch(old(file.bytes), off, data)
      ensures file.reliable && off + |data| <= MAX_HOST ==> ok
      ensures file.failures == old(file.failures) + if ok then 0 else 1
      ensures file.trace == old(file.trace) + [Moment(file.bytes, kept < |data| == ENTRY)]
    {
      var n, err;
      n, err, kept := file.WriteMetadataAt(data, off);
      ok := !err && n == |data|;
      assert ok ==> data[..kept] == data;
    }

    /** Writes a table entry.  On failure either the old entry is back in place, or writing is disabled. */
    method WriteMetadataEntry(off: nat, previous: u64, next: u64) returns (ok: bool, ghost torn: seq<byte>)
      requires file.Valid() && !fault
      requires off + 8 <= |file.bytes| && BeAt(file.bytes, off, 8) == previous
      modifies `fault, file
      ensures file.Valid() && |torn| <= 8
      ensures ok ==> !fault && Rewrites(old(file.bytes), file.bytes, off, next)
      ensures !ok && !fault ==> file.bytes == old(file.bytes)
      ensures !ok && fault ==> file.bytes == Patch(old(file.bytes), off, torn)
      ensures file.reliable ==> ok
      ensures file.failures >= old(file.failures) + if ok then 0 else if fault then 2 else 1
      ensures EntryTrace(old(file.trace), file.trace, old(file.bytes), off, next)
    {
      hide ToBe, BeAt, Patch, Rewrites;
      torn := [];
      ghost var kept, again;
      ok, kept := WriteMetadata(ToBe(next, 8), off);
      PatchRewrites(old(file.bytes), off, next);
      assert ToBe(next, 8)[..8] == ToBe(next, 8);
      if ok {
        return;
      }
      ghost var first := ToBe(next, 8)[..kept];
      var restored;
      restored, again := WriteMetadata(ToBe(previous, 8), off);
      RestoreHeals(old(file.bytes), off, first, 8);
      assert ToBe(previous, 8)[..8] == ToBe(previous, 8);
      if !restored {
        fault := true;
        ghost var second := ToBe(previous, 8)[..again];
        torn := if |second| >= |first| then second else second + first[|second|..];
        PatchTwice(old(file.bytes), off, first, second);
      }
    }

    // Reference counts.

    method Refcount(x: nat) returns (r: CountResult)
      requires Countable()
      modifies cache
      ensures Countable() && (old(Valid()) ==> Valid())
      ensures r.Count? ==> x % g.cs == 0 && r.n == M().Rc(file.bytes, x)
      ensures r.NoLocation? ==> x % g.cs != 0 || !M().HasRc(x)
      ensures r.ReadFailed? ==> M().HasRc(x) && !(file.reliable && M().rt[M().RcTab(x)] + g.cs <= |file.bytes|)
    {
      hide Intact, BlocksMatch, BlockMatches;
      ghost var m, f, before, valid := M(), file.bytes, cache.Blocks(), Valid();
      LocateMeaning(m, x);
      var at := Locate(g, rt, x);
      if !at.Found? {
        return if at.Missing? then Count(0) else NoLocation;
      }
      var block := cache.Lookup(at.block);
      if block.Some? {
        CounterCached(m, before, f, x);
        return Count(BeAt(block.value, 2 * at.slot, 2));
      }
      var ok, data := file.ReadAt(at.block, g.cs);
      if !ok {
        return ReadFailed;
      }
      CounterRead(m, f, x);
      cache.Insert(at.block, data);
      BlockInserted(m, before, cache.Blocks(), f, at.block, data);
      if valid {
        OtherBlocks(m, l2Cache, before, cache.Blocks(), f, fault);
      }
      r := Count(BeAt(data, 2 * at.slot, 2));
    }

    /** Sets the counter of a cluster nobody owns; a torn attempt still leaves the image consistent. */
    method SetRefcount(x: nat, v: nat) returns (ok: bool, ghost kept: nat)
      requires Valid() && !fault && v < 0x1_0000
      requires x % g.cs == 0 && M().Fresh(x)
      modifies file, cache
      ensures Valid() && Guest() == old(Guest())
      ensures |file.bytes| == |old(file.bytes)| && SameStart(old(file.bytes), file.bytes, g.cs)
      ensures forall k :: x <= k < x + g.cs && k < |file.bytes| ==> file.bytes[k] == old(file.bytes)[k]
      ensures kept <= 2 && file.bytes == if M().HasRc(x) then Patch(old(file.bytes), M().RcPos(x), ToBe(v, 2)[..kept])
                                         else old(file.bytes)
      ensures ok ==> M().HasRc(x) && M().Rc(file.bytes, x) == v && kept == 2
      ensures file.reliable && M().HasRc(x) ==> ok
      ensures file.failures == old(file.failures) + if ok || !M().HasRc(x) then 0 else 1
      ensures Kept(old(file.trace), file.trace, g, old(file.bytes), old(Guest()))
    {
      hide Intact, Meta.Fresh, Meta.Guest, SameStart, ToBe, Kept;
      ghost var m, f, blocks := M(), file.bytes, cache.Blocks();
      Basics(m, l2Cache, blocks, f, false);
      LocateMeaning(m, x);
      var at := Locate(g, rt, x);
      StartSame(f, g.cs);
      KeptNone(file.trace, g, f, m.Guest(f));
      if !at.Found? {
        return false, 0;
      }
      RcInBlock(m, x);
      CounterInFile(m, l2Cache, blocks, f, false, x);
      ok, kept := WriteMetadata(ToBe(v, 2), at.block + 2 * at.slot);
      CounterElsewhere(m, l2Cache, blocks, f, x, ToBe(v, 2)[..kept]);
      CounterPatched(m, l2Cache, blocks, f, x, ToBe(v, 2)[..kept]);
      if ok {
        assert ToBe(v, 2)[..kept] == ToBe(v, 2);
        CounterSet(m, l2Cache, blocks, f, x, v);
        cache.Update(at.block, at.slot, v);
      } else {
        CounterTorn(m, l2Cache, blocks, f, x, ToBe(v, 2)[..kept]);
        cache.Invalidate(at.block);
      }
      KeptOne(old(file.trace), old(file.trace), Moment(file.bytes, false), m, l2Cache, cache.Blocks(), f, m.Guest(f));
    }

    // Allocation.

    /** Whether an append at `x` fits the refcount table and the signed file range, blocks included. */
    method ValidateAppendCapacity(x: nat) returns (ok: bool)
      requires Valid() && x % g.cs == 0
      ensures ok <==> Capacity(M(), x)
    {
      hide Intact;
      ghost var m := M();
      Basics(m, l2Cache, cache.Blocks(), file.bytes, fault);
      NextTab(m, x);
      NextTab(m, x + g.cs);
      var off := x;
      ok := false;
      while true
        invariant off == x || (off == x + g.cs && !m.HasRc(x) && m.RcTab(x) < |rt| && m.RcTab(off) != m.RcTab(x))
        invariant !ok
        decreases x + g.cs - off
      {
        if off + g.cs > MAX_INT64 {
          return;
        }
        LocateMeaning(m, off);
        var at := Locate(g, rt, off);
        if !at.Found? && !at.Missing? {
          return;
        }
        if at.Found? {
          return true;
        }
        if off + 2 * g.cs > MAX_INT64 {
          return;
        }
        var next := off + g.cs;
        if next / g.cs / g.Rbe() == off / g.cs / g.Rbe() {
          return true;
        }
        off := next;
      }
    }

    /** Appends the block that counts the cluster at `off`, which is the block itself. */
    method AppendRefcountBlock(off: nat, oldSize: nat) returns (ok: bool)
      requires Valid() && !fault
      requires oldSize == |file.bytes| <= off && 0 < off && off % g.cs == 0
      requires M().RcTab(off) < |rt| && rt[M().RcTab(off)] == 0
      modifies `rt, `fault, file, cache
      ensures Valid() && Guest() == old(Guest()) && SameStart(old(file.bytes), file.bytes, g.cs)
      ensures ok ==> off < MAX_HOST && !fault && M() == WithRefBlock(old(M()), off) && |file.bytes| == off + g.cs
      ensures !ok ==> rt == old(rt) && (!fault ==> file.bytes == old(file.bytes))
      ensures file.reliable && off + g.cs <= MAX_HOST ==> ok
      ensures file.failures >= old(file.failures) + if ok then 0 else if fault then 2 else 1
      ensures file.reliable ==> !fault
      ensures Kept(old(file.trace), file.trace, g, old(file.bytes), old(Guest()))
    {
      hide Intact, Meta.Fresh, Meta.Guest, Rewrites, BlockMatches, Kept, SameStart, Patch, BeAt, NewBlock;
      ghost var m, f, blocks := M(), file.bytes, cache.Blocks();
      Basics(m, l2Cache, blocks, f, false);
      StartSame(f, g.cs);
      var block;
      ghost var d;
      ok, block, d := WriteNewBlock(off);
      ghost var f1 := file.bytes;
      ghost var t0, t1 := old(file.trace), file.trace;
      if !ok {
        CutFile(oldSize, f, off, d);
        KeptTwice(t0, t1, file.trace, g, f, f1, m.Guest(f));
        return;
      }
      ok := PublishRefcountBlock(off, block);
      ghost var t2 := file.trace;
      KeptTwice(t0, t1, t2, g, f, f1, m.Guest(f));
      StartTwice(f, f1, file.bytes, g.cs);
      if !ok && !fault {
        CutFile(oldSize, f, off, d);
        KeptTwice(t0, t2, file.trace, g, f, f1, m.Guest(f));
      }
    }

    /** Writes a block that counts only itself past the end of the file; `d` of it arrives. */
    method WriteNewBlock(off: nat) returns (ok: bool, block: seq<byte>, ghost d: seq<byte>)
      requires Valid() && !fault && |file.bytes| <= off && 0 < off && off % g.cs == 0
      modifies file
      ensures Valid() && Guest() == old(Guest()) && SameStart(old(file.bytes), file.bytes, g.cs)
      ensures M().Fresh(off) && file.bytes == Patch(old(file.bytes), off, d)
      ensures ok ==>
        && off + g.cs == |file.bytes| && block == file.bytes[off..off + g.cs]
        && BeAt(file.bytes, off + 2 * M().RcSlot(off), 2) == 1
      ensures file.reliable && off + g.cs <= MAX_HOST ==> ok
      ensures file.failures == old(file.failures) + if ok then 0 else 1
      ensures Kept(old(file.trace), file.trace, g, old(file.bytes), old(Guest()))
    {
      hide Intact, Meta.Fresh, Meta.Guest, Kept;
      ghost var m, f, t0 := M(), file.bytes, file.trace;
      Basics(m, l2Cache, cache.Blocks(), f, false);
      NewBlockCountsItself(m, f, off);
      block := NewBlock(g.cs, off / g.cs % g.Rbe());
      ghost var kept;
      ok, kept := WriteMetadata(block, off);
      d := block[..kept];
      StartPastEnd(f, g.cs, off, d);
      Appended(m, l2Cache, cache.Blocks(), f, file.bytes, off);
      KeptNone(t0, g, f, m.Guest(f));
      KeptOne(t0, t0, Moment(file.bytes, false), m, l2Cache, cache.Blocks(), f, m.Guest(f));
    }

    /** Cuts off what was written at or past the end of `f`, or disables writing. */
    method CutFile(oldSize: nat, ghost f: seq<byte>, ghost off: nat, ghost d: seq<byte>)
      requires Valid() && !fault && |f| == oldSize <= off && file.bytes == Patch(f, off, d)
      requires Intact(M(), l2Cache, cache.Blocks(), f, false) && M().Guest(f) == Guest()
      requires SameStart(f, file.bytes, g.cs)
      modifies `fault, file
      ensures Valid() && Guest() == old(Guest()) && SameStart(f, file.bytes, g.cs)
      ensures file.bytes == if fault then old(file.bytes) else f
      ensures file.failures == old(file.failures) + if fault then 1 else 0
      ensures file.reliable ==> !fault
      ensures Kept(old(file.trace), file.trace, g, old(file.bytes), old(Guest()))
    {
      hide Intact, Meta.Guest, Kept, Patch, Resize;
      ghost var f1, t1 := file.bytes, file.trace;
      Basics(M(), l2Cache, cache.Blocks(), f1, false);
      Disabled(M(), l2Cache, cache.Blocks(), f1);
      CutBack(f, off, d);
      KeptNone(t1, g, f1, Guest());
      var cut := file.Truncate(oldSize);
      KeptOne(t1, t1, Moment(file.bytes, false), M(), l2Cache, cache.Blocks(), f1, old(Guest()));
      fault := !cut;
    }

    /** Points the refcount table at a block already written at `off`, and caches it. */
    method PublishRefcountBlock(off: nat, block: seq<byte>) returns (ok: bool)
      requires Valid() && !fault && M().Fresh(off)
      requires 0 < off < MAX_HOST && off % g.cs == 0
      requires off + g.cs <= |file.bytes| && block == file.bytes[off..off + g.cs]
      requires M().RcTab(off) < |rt| && rt[M().RcTab(off)] == 0
      requires BeAt(file.bytes, off + 2 * M().RcSlot(off), 2) == 1
      modifies `rt, `fault, file, cache
      ensures Valid() && Guest() == old(Guest()) && SameStart(old(file.bytes), file.bytes, g.cs)
      ensures ok ==> !fault && M() == WithRefBlock(old(M()), off) && |file.bytes| == |old(file.bytes)|
      ensures !ok ==>
        rt == old(rt) && (!fault ==> file.bytes == old(file.bytes) && cache.Blocks() == old(cache.Blocks()))
      ensures file.reliable ==> ok
      ensures file.failures >= old(file.failures) + if ok then 0 else if fault then 2 else 1
      ensures Kept(old(file.trace), file.trace, g, old(file.bytes), old(Guest()))
    {
      hide Intact, Meta.Fresh, Meta.Guest, Rewrites, BlockMatches, Kept;
      ghost var m, f, blocks := M(), file.bytes, cache.Blocks();
      Basics(m, l2Cache, blocks, f, false);
      var t := off / g.cs / g.Rbe();
      RtEntry(m, l2Cache, blocks, f, t);
      EvolvesNone(m, f, false);
      ghost var torn;
      ok, torn := WriteMetadataEntry(g.rtOff + 8 * t, 0, off);
      BlockMoments(m, l2Cache, blocks, f, off, old(file.trace), file.trace);
      if ok {
        RefBlockJoins(m, l2Cache, blocks, f, file.bytes, off, block);
        EntryRewritten(m, l2Cache, blocks, f, file.bytes, RefTable, g.rtOff + 8 * t, off);
        RewritesLength(f, file.bytes, g.rtOff + 8 * t, off);
        rt := Put(rt, t, off);
        cache.Insert(off, block);
        BlockCached(M(), l2Cache, blocks, cache.Blocks(), file.bytes, off, block);
      } else if fault {
        EntryTorn(m, l2Cache, blocks, f, RefTable, g.rtOff + 8 * t, torn);
      }
    }

    /**
     Appends a zeroed cluster with its counter already one, and before it exactly the refcount
     blocks it needs.  Once capacity is validated, only the host file can make it fail.
     */
    method AllocateCluster() returns (ok: bool, off: nat)
      requires Valid() && !fault
      modifies `rt, `fault, file, cache
      ensures Valid() && Guest() == old(Guest()) && SameStart(old(file.bytes), file.bytes, g.cs)
      ensures ok ==> !fault && g.cs <= off && off % g.cs == 0 && off + g.cs == |file.bytes|
      ensures !fault ==> Grew(old(M()), |old(file.bytes)|, M(), if ok then off else |file.bytes|)
      ensures !fault ==> (if ok then off else |file.bytes|) <= Target(old(M()), AlignUp(|old(file.bytes)|, g.cs))
      ensures ok ==> Ready(M(), file.bytes, off) && M().Fresh(off) && M().HasRc(off)
      ensures ok ==> var end := AlignUp(|old(file.bytes)|, g.cs); off == Target(old(M()), end)
      ensures var end := AlignUp(|old(file.bytes)|, g.cs);
              file.reliable && Capacity(old(M()), end) && Target(old(M()), end) + g.cs <= MAX_HOST ==> ok
      ensures file.failures >= old(file.failures) + if fault then 2 else 0
      ensures file.reliable ==> !fault
      ensures Kept(old(file.trace), file.trace, g, old(file.bytes), old(Guest()))
    {
      hide Intact, Meta.Fresh, Meta.Guest, Target, Capacity, Grew, Kept;
      ghost var m0, f0 := M(), file.bytes;
      Basics(m0, l2Cache, cache.Blocks(), file.bytes, false);
      EvolvesNone(m0, f0, false);
      ghost var t0 := file.trace;
      KeptNone(t0, g, f0, m0.Guest(f0));
      TargetAbove(m0, AlignUp(|f0|, g.cs));
      off := 0;
      var oldSize;
      ok, oldSize := file.Stat();
      if !ok {
        return;
      }
      off := AlignUp(oldSize, g.cs);
      ok := ValidateAppendCapacity(off);
      if !ok {
        return;
      }
      ok, off, oldSize := AppendRefcountBlocks(off, oldSize);
      if !ok {
        return;
      }
      ghost var f, t := file.bytes, file.trace;
      GrewUp(m0, |f0|, M(), oldSize, off);
      ok := CountNewCluster(off, oldSize);
      StartTwice(f0, f, file.bytes, g.cs);
      KeptTwice(t0, t, file.trace, g, f0, f, m0.Guest(f0));
    }

    /** Appends the refcount blocks that the cluster at `start` needs before it can be counted. */
    method AppendRefcountBlocks(start: nat, size: nat) returns (ok: bool, off: nat, oldSize: nat)
      requires Valid() && !fault && Capacity(M(), start)
      requires start % g.cs == 0 && g.cs <= start && |file.bytes| == size <= start < size + g.cs
      modifies `rt, `fault, file, cache
      ensures Valid() && Guest() == old(Guest()) && SameStart(old(file.bytes), file.bytes, g.cs)
      ensures !fault ==> Grew(old(M()), size, M(), |file.bytes|) && |file.bytes| <= Target(old(M()), start)
      ensures ok ==>
        && !fault && off == Target(old(M()), start) && M().HasRc(off)
        && off % g.cs == 0 && g.cs <= off && |file.bytes| == oldSize <= off < oldSize + g.cs
      ensures file.reliable && Target(old(M()), start) + g.cs <= MAX_HOST ==> ok
      ensures file.failures >= old(file.failures) + if fault then 2 else 0
      ensures file.reliable ==> !fault
      ensures Kept(old(file.trace), file.trace, g, old(file.bytes), old(Guest()))
    {
      hide Intact, Meta.Fresh, Meta.Guest, Needed, Target, Capacity, WithRefBlock, Grew, Extends, Kept;
      ghost var m0, f0 := M(), file.bytes;
      Basics(m0, l2Cache, cache.Blocks(), file.bytes, false);
      EvolvesNone(m0, f0, false);
      ghost var t0 := file.trace;
      KeptNone(t0, g, f0, m0.Guest(f0));
      TargetAbove(m0, start);
      ok, off, oldSize := true, start, size;
      while true
        invariant Valid() && !fault && Guest() == old(Guest()) && file.failures >= old(file.failures)
        invariant off % g.cs == 0 && |file.bytes| == oldSize <= off < oldSize + g.cs && g.cs <= off
        invariant Capacity(M(), off) && Target(M(), off) == Target(m0, start)
        invariant SameStart(f0, file.bytes, g.cs) && Grew(m0, |f0|, M(), oldSize)
        invariant Kept(t0, file.trace, g, f0, m0.Guest(f0))
        decreases Needed(M(), off)
      {
        ghost var m, f, cached, blocks := M(), file.bytes, l2Cache, cache.Blocks();
        Basics(m, cached, blocks, f, false);
        LocateMeaning(m, off);
        CapacityTab(m, off);
        TargetAbove(m, off);
        var at := Locate(g, rt, off);
        if at.Found? {
          break;
        }
        NotYetThere(m, off);
        ghost var t := file.trace;
        ok := AppendRefcountBlock(off, oldSize);
        StartTwice(f0, f, file.bytes, g.cs);
        KeptTwice(t0, t, file.trace, g, f0, f, m0.Guest(f0));
        if !ok {
          return;
        }
        BlockAdded(m, cached, blocks, f, off);
        GrewOne(m, |f|, M(), RefBlock(m.RcTab(off)), off);
        GrewTwice(m0, |f0|, m, |f|, M(), off + g.cs);
        NeededSteps(m, off);
        NextBlock(off, g.cs);
        off := off + g.cs;
        oldSize := off;
      }
      NeededNone(M(), off);
    }

    /**
     Extends the file by the cluster at `off` and counts it.  A failure leaves the file as it was, or
     as it was with the counter cleared, or disables writing.
     */
    method CountNewCluster(off: nat, oldSize: nat) returns (ok: bool)
      requires Valid() && !fault
      requires off % g.cs == 0 && |file.bytes| == oldSize <= off
      modifies `fault, file, cache
      ensures Valid() && Guest() == old(Guest()) && SameStart(old(file.bytes), file.bytes, g.cs)
      ensures ok ==> !fault && off + g.cs == |file.bytes|
      ensures ok ==> Ready(M(), file.bytes, off) && M().Fresh(off)
      ensures !ok && !fault ==> |file.bytes| == oldSize
      ensures !ok && !fault && file.bytes != old(file.bytes) ==>
        && M().HasRc(off) && file.bytes == Patch(old(file.bytes), M().RcPos(off), ToBe(0, 2))
        && M().Rc(file.bytes, off) == 0
      ensures file.reliable && off + g.cs <= MAX_HOST && M().HasRc(off) ==> ok
      ensures M().HasRc(off) ==> file.failures >= old(file.failures) + if fault then 2 else 0
      ensures M().HasRc(off) && file.reliable ==> !fault
      ensures Kept(old(file.trace), file.trace, g, old(file.bytes), old(Guest()))
    {
      hide Intact, Meta.Fresh, Meta.Guest, Meta.Owned, Patch, Resize, Kept;
      ghost var m, f := M(), file.bytes;
      Basics(m, l2Cache, cache.Blocks(), f, false);
      Disabled(m, l2Cache, cache.Blocks(), f);
      EvolvesNone(m, f, false);
      ghost var t0 := file.trace;
      KeptNone(t0, g, f, m.Guest(f));
      ok := file.Truncate(off + g.cs);
      ghost var f1, t1 := file.bytes, file.trace;
      if !ok {
        KeptOne(t0, t0, Moment(f, false), m, l2Cache, cache.Blocks(), f, m.Guest(f));
        return;
      }
      StartResized(f, g.cs, off + g.cs);
      Appended(m, l2Cache, cache.Blocks(), f, file.bytes, off);
      KeptOne(t0, t0, Moment(f1, false), m, l2Cache, cache.Blocks(), f, m.Guest(f));
      ghost var kept;
      ok, kept := SetRefcount(off, 1);
      ghost var f2, t2 := file.bytes, file.trace;
      KeptTwice(t0, t1, t2, g, f, f1, m.Guest(f));
      if !ok {
        StartTwice(f, f1, f2, g.cs);
        TakeBackCluster(off, oldSize, f, ToBe(1, 2)[..kept]);
        KeptTwice(t0, t2, file.trace, g, f, f2, m.Guest(f));
      }
    }

    /** Clears the counter of the cluster appended to `f` and cuts it off, or disables writing. */
    method TakeBackCluster(off: nat, oldSize: nat, ghost f: seq<byte>, ghost torn: seq<byte>)
      requires Valid() && !fault && off % g.cs == 0 && M().Fresh(off)
      requires g.cs <= |f| == oldSize <= off && M().Owned(|f|) && |torn| <= 2
      requires file.bytes == if M().HasRc(off) then Patch(Resize(f, off + g.cs), M().RcPos(off), torn)
                             else Resize(f, off + g.cs)
      modifies `fault, file, cache
      ensures Valid() && Guest() == old(Guest()) && SameStart(old(file.bytes), file.bytes, g.cs)
      ensures !fault ==>
        && M().HasRc(off) && file.bytes == Patch(f, M().RcPos(off), ToBe(0, 2))
        && |file.bytes| == oldSize && M().Rc(file.bytes, off) == 0
      ensures M().HasRc(off) ==> file.failures >= old(file.failures) + if fault then 1 else 0
      ensures M().HasRc(off) && file.reliable ==> !fault
      ensures Kept(old(file.trace), file.trace, g, old(file.bytes), old(Guest()))
    {
      hide Intact, Meta.Fresh, Meta.Guest, Meta.Owned, Patch, Resize, Kept;
      ghost var m := M();
      Basics(m, l2Cache, cache.Blocks(), file.bytes, false);
      var ok;
      ghost var kept;
      ok, kept := SetRefcount(off, 0); // before the cluster goes, so that no stale count is left behind
      Disabled(m, l2Cache, cache.Blocks(), file.bytes);
      ghost var f1, t1 := file.bytes, file.trace;
      if !ok {
        fault := true;
      } else {
        CutTo(m, l2Cache, cache.Blocks(), file.bytes, oldSize);
        StartResized(file.bytes, g.cs, oldSize);
        OldCounter(m, f, off + g.cs, off, torn, ToBe(0, 2)[..kept]);
        var cut := file.Truncate(oldSize);
        fault := !cut;
        StartTwice(old(file.bytes), f1, file.bytes, g.cs);
        KeptOne(old(file.trace), t1, Moment(file.bytes, false), m, l2Cache, cache.Blocks(), old(file.bytes),
                m.Guest(f1));
      }
    }

    /** Reclaims a cluster whose pointer was restored, its counter included, or disables writing. */
    method RollbackNewCluster(off: nat)
      requires Valid()
      requires !fault ==> off % g.cs == 0 && M().Fresh(off) && g.cs <= off && off + g.cs == |file.bytes|
      modifies `fault, file, cache
      ensures Valid() && Guest() == old(Guest()) && SameStart(old(file.bytes), file.bytes, g.cs)
      ensures old(fault) ==> fault && file.bytes == old(file.bytes)
      ensures !fault ==>
        && M().HasRc(off) && file.bytes == Resize(Patch(old(file.bytes), M().RcPos(off), ToBe(0, 2)), off)
        && |file.bytes| == off && M().Rc(file.bytes, off) == 0
      ensures file.failures >= old(file.failures)
      ensures fault && !old(fault) && M().HasRc(off) ==> file.failures > old(file.failures) && !file.reliable
      ensures Kept(old(file.trace), file.trace, g, old(file.bytes), old(Guest()))
    {
      hide Intact, Meta.Fresh, Meta.Guest, Meta.Owned, Patch, Resize, Kept;
      Basics(M(), l2Cache, cache.Blocks(), file.bytes, fault);
      EvolvesNone(M(), file.bytes, true);
      KeptNone(file.trace, g, file.bytes, Guest());
      if fault {
        return;
      }
      ghost var kept;
      var ok;
      ok, kept := SetRefcount(off, 0);
      ghost var m := M();
      Disabled(m, l2Cache, cache.Blocks(), file.bytes);
      ghost var f1, t1 := file.bytes, file.trace;
      if !ok {
        fault := true;
      } else {
        assert ToBe(0, 2)[..kept] == ToBe(0, 2);
        LastClusterFree(m, l2Cache, cache.Blocks(), file.bytes, off);
        CutTo(m, l2Cache, cache.Blocks(), file.bytes, off);
        CounterSurvives(m, l2Cache, cache.Blocks(), file.bytes, off);
        StartResized(file.bytes, g.cs, off);
        var cut := file.Truncate(off);
        fault := !cut;
        StartTwice(old(file.bytes), f1, file.bytes, g.cs);
        KeptOne(old(file.trace), t1, Moment(file.bytes, false), m, l2Cache, cache.Blocks(), old(file.bytes),
                m.Guest(f1));
      }
    }

    // Tables.

    static method ReadTable(file: File, off: nat, entries: nat) returns (ok: bool, table: seq<u64>)
      ensures ok ==> |table| == entries && off + 8 * entries <= |file.bytes|
      ensures ok ==> forall k :: 0 <= k < entries ==> table[k] == BeAt(file.bytes, off + 8 * k, 8)
      ensures file.reliable && entries <= MAX_L1_BYTES / 8 && off + 8 * entries <= |file.bytes| ==> ok
    {
      table := [];
      if entries > MAX_L1_BYTES / 8 {
        return false, [];
      }
      var size;
      ok, size := file.Stat();
      if !ok || off > size || 8 * entries > size - off {
        return false, [];
      }
      var buf;
      ok, buf := file.ReadAt(off, 8 * entries);
      if !ok {
        return;
      }
      var k := 0;
      while k < entries
        invariant 0 <= k == |table| <= entries
        invariant forall h :: 0 <= h < k ==> table[h] == BeAt(file.bytes, off + 8 * h, 8)
      {
        assert buf[8 * k..8 * k + 8] == file.bytes[off + 8 * k..off + 8 * k + 8];
        ToFromBe(buf[8 * k..8 * k + 8]);
        Pow256Values();
        table := table + [BeAt(buf, 8 * k, 8)];
        k := k + 1;
      }
    }

    method LoadL2(i: nat) returns (ok: bool, table: seq<u64>)
      requires Valid() && i < |l1|
      modifies `l2Cache
      ensures Valid()
      ensures ok ==> i in l2 && i in l2Cache && table == l2[i]
      ensures old(i in l2Cache) ==> ok && l2Cache == old(l2Cache)
      ensures file.reliable && i in l2 ==> ok
    {
      hide Intact, Meta.Guest;
      ghost var m := M();
      Basics(m, l2Cache, cache.Blocks(), file.bytes, fault);
      TableFacts(m, l2Cache, cache.Blocks(), file.bytes, fault, i);
      if i in l2Cache {
        return true, l2Cache[i];
      }
      var off := ClusterOffset(l1[i]);
      if off == 0 || off % g.cs != 0 {
        return false, [];
      }
      if i in l2 {
        TableInFile(m, l2Cache, cache.Blocks(), file.bytes, fault, i);
        TableSize(cache.limit, g.cs);
      }
      ok, table := ReadTable(file, off, g.L2n());
      if ok {
        assert table == m.l2[i];
        Loaded(m, l2Cache, cache.Blocks(), file.bytes, fault, i);
        l2Cache := l2Cache[i := table];
      }
    }

    /** Points a loaded L2 entry that reads as zeros at a zeroed, counted cluster. */
    method UpdateL2Entry(i: nat, j: nat, off: nat) returns (ok: bool)
      requires Valid() && !fault && 0 < off
      requires i in l2 && i in l2Cache && i < |l1| && j < |l2[i]|
      requires Ready(M(), file.bytes, off) && Takes(M(), i, j, off)
      modifies `l2Cache, `l2, `fault, file
      ensures Valid() && Guest() == old(Guest()) && SameStart(old(file.bytes), file.bytes, g.cs)
      ensures ok ==> !fault && off < MAX_HOST && M() == WithData(old(M()), i, j, EntryFor(off))
      ensures ok ==> Extends(old(M()), M(), Data(i, j)) && M().Off(Data(i, j)) == off
      ensures ok ==> |file.bytes| == |old(file.bytes)|
      ensures !ok ==> M() == old(M()) && (!fault ==> file.bytes == old(file.bytes))
      ensures file.reliable ==> ok
      ensures file.failures >= old(file.failures) + if ok then 0 else if fault then 2 else 1
      ensures Kept(old(file.trace), file.trace, g, old(file.bytes), old(Guest()))
    {
      hide Intact, Meta.Guest, Meta.Fresh, Takes, Rewrites, Meta.GoodL2, Extends, SameStart, ClusterOffset, EntryFor,
           Kept;
      ghost var m, f := M(), file.bytes;
      Basics(m, l2Cache, cache.Blocks(), f, false);
      StartSame(f, g.cs);
      TableFacts(m, l2Cache, cache.Blocks(), f, false, i);
      L2Entry(m, l2Cache, cache.Blocks(), f, i, j);
      var table;
      ok, table := LoadL2(i);
      var entry := EntryFor(off);
      ghost var torn;
      ok, torn := WriteMetadataEntry(ClusterOffset(l1[i]) + 8 * j, table[j], entry);
      DataMoments(m, l2Cache, cache.Blocks(), f, i, j, off, old(file.trace), file.trace);
      if ok {
        DataUpdated(m, l2Cache, cache.Blocks(), f, file.bytes, i, j, off);
        l2Cache := l2Cache[i := Put(table, j, entry)];
        l2 := l2[i := Put(table, j, entry)];
      } else if fault {
        EntryTorn(m, l2Cache, cache.Blocks(), f, L2Table(i), ClusterOffset(l1[i]) + 8 * j, torn);
      }
    }

    /** Points an empty L1 entry at a zeroed, counted cluster. */
    method UpdateL1Entry(i: nat, off: nat) returns (ok: bool)
      requires Valid() && !fault && 0 < off
      requires i < |l1| && l1[i] == 0
      requires Ready(M(), file.bytes, off) && M().Fresh(off)
      modifies `l1, `l2Cache, `l2, `fault, file
      ensures Valid() && Guest() == old(Guest()) && SameStart(old(file.bytes), file.bytes, g.cs)
      ensures ok ==> !fault && off < MAX_HOST && M() == WithL2Table(old(M()), i, EntryFor(off)) && i in l2Cache
      ensures ok ==> Extends(old(M()), M(), L2Table(i)) && M().Off(L2Table(i)) == off
      ensures !ok ==> M() == old(M()) && (!fault ==> file.bytes == old(file.bytes))
      ensures ok ==> |file.bytes| == |old(file.bytes)|
      ensures file.reliable ==> ok
      ensures file.failures >= old(file.failures) + if ok then 0 else if fault then 2 else 1
      ensures Kept(old(file.trace), file.trace, g, old(file.bytes), old(Guest()))
    {
      hide Intact, Meta.Guest, Meta.Fresh, Rewrites, Extends, SameStart, EntryFor, Kept;
      ghost var m, f := M(), file.bytes;
      Basics(m, l2Cache, cache.Blocks(), f, false);
      StartSame(f, g.cs);
      L1Entry(m, l2Cache, cache.Blocks(), f, i);
      var entry := EntryFor(off);
      ghost var torn;
      ok, torn := WriteMetadataEntry(g.l1Off + 8 * i, l1[i], entry);
      TableMoments(m, l2Cache, cache.Blocks(), f, i, off, old(file.trace), file.trace);
      if ok {
        TableUpdated(m, l2Cache, cache.Blocks(), f, file.bytes, i, off);
        l1 := Put(l1, i, entry);
        l2Cache := l2Cache[i := seq(g.L2n(), _ => 0)];
        l2 := l2[i := seq(g.L2n(), _ => 0)];
      } else if fault {
        EntryTorn(m, l2Cache, cache.Blocks(), f, L1Table, g.l1Off + 8 * i, torn);
      }
    }

    /** Makes sure the table of L1 entry `i` exists and is loaded. */
    method EnsureL2Table(i: nat) returns (ok: bool, table: seq<u64>)
      requires Valid() && !fault && i < |l1|
      modifies `l1, `l2, `l2Cache, `rt, `fault, file, cache
      ensures Valid() && Guest() == old(Guest())
      ensures |l1| == |old(l1)|
      ensures ok ==> !fault && i in l2 && i in l2Cache && table == l2[i] && |table| == g.L2n()
      ensures Evolves(old(M()), old(file.bytes), M(), file.bytes, fault)
      ensures !fault ==> |file.bytes| <= End(old(M()), |old(file.bytes)|, 3)
      ensures if ok && i !in old(l2) then l2 == old(l2)[i := table] && Zeroed(table) else l1 == old(l1) && l2 == old(l2)
      ensures file.reliable && Spacious(old(M()), |old(file.bytes)|, 3) ==> ok
      ensures file.failures >= old(file.failures) + if fault then 2 else 0
      ensures file.reliable ==> !fault
      ensures Kept(old(file.trace), file.trace, g, old(file.bytes), old(Guest()))
    {
      hide Intact, Meta.Guest, Meta.Fresh, Ready, Spacious, Capacity, Target, End, Evolves, Grew, Extends, SameStart,
           Kept;
      table := [];
      ghost var m0, f0, t0 := M(), file.bytes, file.trace;
      KeptNone(t0, g, f0, m0.Guest(f0));
      EvolvesNone(m0, f0, false) by {
        Basics(M(), l2Cache, cache.Blocks(), file.bytes, false);
      }
      Basics(M(), l2Cache, cache.Blocks(), file.bytes, false);
      TableFacts(M(), l2Cache, cache.Blocks(), file.bytes, false, i);
      Room(M(), |file.bytes|);
      if i in l2Cache {
        return true, l2Cache[i];
      }
      if l1[i] != 0 {
        if ClusterOffset(l1[i]) == 0 {
          return false, [];
        }
        ValidCountable();
        TableCounter(M(), l2Cache, cache.Blocks(), file.bytes, i);
        CounterInFile(M(), l2Cache, cache.Blocks(), file.bytes, false, ClusterOffset(l1[i]));
        var count := Refcount(ClusterOffset(l1[i]));
        if count != Count(1) {
          return false, [];
        }
        ok, table := LoadL2(i);
        return;
      }
      var off;
      ok, off := AllocateCluster();
      ghost var m1, f1, t1 := M(), file.bytes, file.trace;
      if ok {
        ok := UpdateL1Entry(i, off);
        KeptTwice(t0, t1, file.trace, g, f0, f1, m0.Guest(f0));
        if ok {
          TableFacts(M(), l2Cache, cache.Blocks(), file.bytes, false, i);
          table := l2Cache[i];
          Published(m0, f0, m1, f1, M(), file.bytes, L2Table(i), off);
        } else {
          ghost var f2, t2 := file.bytes, file.trace;
          StartTwice(f0, f1, f2, g.cs);
          RollbackNewCluster(off);
          KeptTwice(t0, t2, file.trace, g, f0, f2, m0.Guest(f0));
          Withdrawn(m0, f0, m1, f1, f2, file.bytes, off, fault);
        }
      } else {
        EvolvesSoFar(m0, f0, m1, f1, fault);
      }
    }

    /** Makes the existing cluster of entry (i, j) writable: it must be counted once and lose its zero flag. */
    method PrepareMappedCluster(i: nat, j: nat, off: nat) returns (ok: bool)
      requires Valid() && !fault
      requires i in l2 && i in l2Cache && i < |l1| && j < |l2[i]|
      requires M().Live(Data(i, j)) && off == ClusterOffset(l2[i][j])
      modifies `l2, `l2Cache, `fault, file, cache
      ensures Valid() && Guest() == old(Guest())
      ensures ok ==> !fault && i in l2 && j < |l2[i]| && M().Mapped(i, j) && ClusterOffset(l2[i][j]) == off
      ensures !fault ==> |file.bytes| == |old(file.bytes)|
      ensures Evolves(old(M()), old(file.bytes), M(), file.bytes, fault)
      ensures if ok then SameOthers(old(l2), l2, i, j) else l2 == old(l2)
      ensures file.reliable ==> ok
      ensures file.failures >= old(file.failures) + if fault then 2 else 0
      ensures file.reliable ==> !fault
      ensures Kept(old(file.trace), file.trace, g, old(file.bytes), old(Guest()))
    {
      hide Intact, Meta.Guest, Meta.Fresh, Evolves, Grew, Extends, SameStart, Kept, Ready, Takes;
      ghost var m, f := M(), file.bytes;
      Basics(m, l2Cache, cache.Blocks(), file.bytes, false);
      EvolvesNone(m, f, false);
      ghost var t0 := file.trace;
      KeptNone(t0, g, f, m.Guest(f));
      TableFacts(m, l2Cache, cache.Blocks(), file.bytes, false, i);
      ValidCountable();
      DataCounter(m, l2Cache, cache.Blocks(), file.bytes, i, j);
      CounterInFile(m, l2Cache, cache.Blocks(), file.bytes, false, off);
      var count := Refcount(off);
      if count != Count(1) {
        return false;
      }
      if !ZeroFlag(l2Cache[i][j]) {
        return true;
      }
      ghost var kept;
      ok, kept := file.WriteAt(Zeros(g.cs), off);
      ghost var f1 := file.bytes;
      HiddenWritten(m, l2Cache, cache.Blocks(), f, i, j, Zeros(g.cs)[..kept]);
      EntryPatched(m, l2Cache, cache.Blocks(), f, Data(i, j), off, Zeros(g.cs)[..kept]);
      ghost var t1 := file.trace;
      KeptOne(t0, t0, Moment(f1, false), m, l2Cache, cache.Blocks(), f, m.Guest(f));
      if !ok {
        EvolvesStill(m, f, f1);
        return;
      }
      ZeroedReady(m, l2Cache, cache.Blocks(), file.bytes, i, j);
      ok := UpdateL2Entry(i, j, off);
      KeptTwice(t0, t1, file.trace, g, f, f1, m.Guest(f));
      EvolvesInPlace(m, f, f1, M(), file.bytes, Data(i, j), fault);
      if ok {
        EntryPointsTo(m, off);
      }
    }

    /** Finds or makes a host cluster for guest byte `x`. */
    method EnsureWritableCluster(x: nat) returns (ok: bool, host: nat)
      requires Valid() && !fault
      modifies `l1, `l2, `l2Cache, `rt, `fault, file, cache
      ensures Valid() && Guest() == old(Guest())
      ensures ok ==> !fault && StoredAt(M(), x, host)
      ensures Evolves(old(M()), old(file.bytes), M(), file.bytes, fault)
      ensures !fault ==> |file.bytes| <= End(old(M()), |old(file.bytes)|, 6)
      ensures MapsOnly(old(M()), M(), x, if ok then x + 1 else x)
      ensures file.reliable && x < g.size && Spacious(old(M()), |old(file.bytes)|, 6) ==> ok
      ensures file.failures >= old(file.failures) + if fault then 2 else 0
      ensures file.reliable ==> !fault
      ensures Kept(old(file.trace), file.trace, g, old(file.bytes), old(Guest()))
    {
      hide Intact, Meta.Guest, Meta.Fresh, Ready, EntryFor, ClusterOffset, ZeroFlag, ValidL2Entry, PointsTo,
           Spacious, Capacity, Target, End, Evolves, MapsOnly, SameOthers, Kept;
      ghost var m0, f0, n0, t0 := M(), file.bytes, |file.bytes|, file.trace;
      KeptNone(t0, g, f0, m0.Guest(f0));
      if x < g.size {
        IndexInTable(M(), l2Cache, cache.Blocks(), file.bytes, false, x);
      }
      Basics(M(), l2Cache, cache.Blocks(), file.bytes, false);
      var i, j := g.L1Index(x), g.L2Index(x);
      host := 0;
      EndGrows(m0, n0, 6);
      if i >= |l1| {
        EvolvesNone(m0, f0, false);
        MapsOnlyNone(m0, m0, x);
        return false, 0;
      }
      var table;
      RoomTwice(m0, n0);
      ok, table := EnsureL2Table(i);
      ghost var m1, f1, t1 := M(), file.bytes, file.trace;
      NewTable(m0, m1, i, table, x, ok);
      Basics(M(), l2Cache, cache.Blocks(), file.bytes, fault);
      if !fault {
        RoomLeft(m0, n0, m1, |f1|);
      }
      if !ok {
        return;
      }
      TableFacts(M(), l2Cache, cache.Blocks(), file.bytes, false, i);
      var entry := table[j];
      if !ValidL2Entry(g.version, entry) {
        ok := false;
        return;
      }
      var off := ClusterOffset(entry);
      ZeroEntry(M());
      if entry != 0 && off != 0 {
        ok := PrepareMappedCluster(i, j, off);
      } else {
        ok, off := MapNewCluster(i, j);
      }
      host := off + g.InCluster(x);
      EvolvesTwice(m0, f0, m1, f1, M(), file.bytes, fault);
      EvolvesStart(m0, f0, m1, f1, false);
      KeptTwice(t0, t1, file.trace, g, f0, f1, m0.Guest(f0));
      NewEntry(m0, m1, M(), x, ok);
    }

    /** Gives the unmapped entry (i, j) a new cluster. */
    method MapNewCluster(i: nat, j: nat) returns (ok: bool, off: nat)
      requires Valid() && !fault
      requires i in l2 && i in l2Cache && i < |l1| && j < |l2[i]| && ClusterOffset(l2[i][j]) == 0
      modifies `l2, `l2Cache, `rt, `fault, file, cache
      ensures Valid() && Guest() == old(Guest())
      ensures ok ==> !fault && i in l2 && j < |l2[i]| && M().Mapped(i, j) && ClusterOffset(l2[i][j]) == off
      ensures Evolves(old(M()), old(file.bytes), M(), file.bytes, fault)
      ensures !fault ==> |file.bytes| <= End(old(M()), |old(file.bytes)|, 3)
      ensures if ok then SameOthers(old(l2), l2, i, j) else l2 == old(l2)
      ensures file.reliable && Spacious(old(M()), |old(file.bytes)|, 3) ==> ok
      ensures file.failures >= old(file.failures) + if fault then 2 else 0
      ensures file.reliable ==> !fault
      ensures Kept(old(file.trace), file.trace, g, old(file.bytes), old(Guest()))
    {
      hide Intact, Meta.Guest, Meta.Fresh, Ready, EntryFor, ClusterOffset, ZeroFlag, PointsTo, Spacious, Capacity,
           Target,
           End, Evolves, Grew, Extends, SameStart, Kept;
      ghost var m0, f0, t0 := M(), file.bytes, file.trace;
      Basics(M(), l2Cache, cache.Blocks(), file.bytes, false);
      TableFacts(M(), l2Cache, cache.Blocks(), file.bytes, false, i);
      Room(M(), |file.bytes|);
      ok, off := AllocateCluster();
      ghost var m1, f1, t1 := M(), file.bytes, file.trace;
      if !ok {
        EvolvesSoFar(m0, f0, m1, f1, fault);
        return;
      }
      ok := UpdateL2Entry(i, j, off);
      KeptTwice(t0, t1, file.trace, g, f0, f1, m0.Guest(f0));
      if !ok {
        ghost var f2, t2 := file.bytes, file.trace;
        StartTwice(f0, f1, f2, g.cs);
        RollbackNewCluster(off);
        KeptTwice(t0, t2, file.trace, g, f0, f2, m0.Guest(f0));
        Withdrawn(m0, f0, m1, f1, f2, file.bytes, off, fault);
      } else {
        EntryMaps(M(), off);
        Published(m0, f0, m1, f1, M(), file.bytes, Data(i, j), off);
      }
    }

    // The virtual disk.

    /**
     Writes `b` at `off`.  The virtual disk changes by a prefix of `b`: the reported bytes and, when
     the host stopped a data write, some more of the same cluster.  When metadata could not be
     recovered writing is disabled for good, and reads still see the disk as it was.
     */
    method WriteAt(b: seq<byte>, off: int) returns (done: nat, err: IoError, ghost torn: nat)
      requires Valid()
      modifies `l1, `l2, `l2Cache, `rt, `fault, file, cache
      ensures Valid()
      ensures done + torn <= |b| && (err.NoError? <==> done == |b|)
      ensures Guest() == if off < 0 then old(Guest()) else Overlay(old(Guest()), off, b, done + torn)
      ensures torn > 0 ==> 0 <= off && err.DataFailed? && g.InCluster(off + done) + torn <= g.cs
      ensures fault && !old(fault) ==> err.MetadataFailed?
      ensures done > 0 ==> 0 <= off && off + |b| <= g.size
      ensures old(fault) ==> fault && file.bytes == old(file.bytes) && M() == old(M()) && l2Cache == old(l2Cache)
      ensures err.WritesDisabled? <==> old(fault) && b != []
      ensures err.NegativeOffset? <==> !old(fault) && b != [] && off < 0
      ensures err.TooLarge? <==> !old(fault) && b != [] && 0 <= off && off + |b| > g.size
      ensures !err.EndOfFile? && !err.Unreadable?
      ensures Evolves(old(M()), old(file.bytes), M(), file.bytes, fault)
      ensures 0 <= off ==> MapsOnly(old(M()), M(), off, if err.DataFailed? then off + done + 1 else off + done)
      ensures err in {WritesDisabled, NegativeOffset, TooLarge} ==> file.bytes == old(file.bytes) && M() == old(M())
      ensures !fault && 0 <= off && g.cs > 0 ==>
        |file.bytes| <= End(old(M()), |old(file.bytes)|, 6 * Touched(g.cs, off, |b|))
      ensures file.reliable && !old(fault) && 0 <= off && off + |b| <= g.size && g.cs > 0 ==>
        RoomFor(old(M()), |old(file.bytes)|, Touched(g.cs, off, |b|)) ==> err.NoError?
      ensures fault && !old(fault) ==> file.failures >= old(file.failures) + 2 && !file.reliable
      ensures file.failures >= old(file.failures)
      ensures 0 <= off ==> Within(old(file.trace), file.trace, g, old(file.bytes), old(Guest()), off, b)
      ensures b == [] || err in {WritesDisabled, NegativeOffset, TooLarge} ==> file.trace == old(file.trace)
    {
      hide Intact, Meta.Guest, Overlay, Spacious, RoomFor, Touched, End, Evolves, MapsOnly, Within;
      done, err, torn := 0, NoError, 0;
      Basics(M(), l2Cache, cache.Blocks(), file.bytes, fault);
      EvolvesNone(M(), file.bytes, fault);
      if off >= 0 {
        OverlayNone(Guest(), off, b);
        KeptNone(file.trace, g, file.bytes, Guest());
        WithinNone(file.trace, file.trace, g, file.bytes, Guest(), off, b);
        MapsOnlyNone(M(), M(), off);
        EndGrows(M(), |file.bytes|, 6 * Touched(g.cs, off, |b|));
      }
      if b == [] {
        return;
      }
      if fault {
        return 0, WritesDisabled, 0;
      }
      if off < 0 {
        return 0, NegativeOffset, 0;
      }
      if off >= g.size || |b| > g.size - off {
        return 0, TooLarge, 0;
      }
      done, err, torn := WriteChunks(b, off);
    }

    /** The chunks of a write that fits the disk, one cluster at a time. */
    method WriteChunks(b: seq<byte>, off: nat) returns (done: nat, err: IoError, ghost torn: nat)
      requires Valid() && !fault && off + |b| <= g.size
      modifies `l1, `l2, `l2Cache, `rt, `fault, file, cache
      ensures Valid() && done + torn <= |b| && (err.NoError? <==> done == |b|)
      ensures err.NoError? || err.MetadataFailed? || err.DataFailed?
      ensures Guest() == Overlay(old(Guest()), off, b, done + torn)
      ensures torn > 0 ==> err.DataFailed? && g.InCluster(off + done) + torn <= g.cs
      ensures fault ==> err.MetadataFailed?
      ensures Evolves(old(M()), old(file.bytes), M(), file.bytes, fault)
      ensures MapsOnly(old(M()), M(), off, if err.DataFailed? then off + done + 1 else off + done)
      ensures !fault && g.cs > 0 ==> |file.bytes| <= End(old(M()), |old(file.bytes)|, 6 * Touched(g.cs, off, |b|))
      ensures file.reliable && g.cs > 0 && RoomFor(old(M()), |old(file.bytes)|, Touched(g.cs, off, |b|)) ==>
        err.NoError?
      ensures file.failures >= old(file.failures) + if fault then 2 else 0
      ensures file.reliable ==> !fault
      ensures Within(old(file.trace), file.trace, g, old(file.bytes), old(Guest()), off, b)
    {
      hide Intact, Meta.Guest, Overlay, Spacious, RoomFor, Touched, End, Evolves, MapsOnly, Progress, Within;
      done, err, torn := 0, NoError, 0;
      OverlayNone(Guest(), off, b);
      ghost var m0, f0 := M(), file.bytes;
      Basics(M(), l2Cache, cache.Blocks(), file.bytes, false);
      NoProgress(m0, f0, off);
      ghost var t0, guest := file.trace, Guest();
      KeptNone(t0, g, f0, guest);
      WithinNone(t0, t0, g, f0, guest, off, b);
      ghost var all := Touched(g.cs, off, |b|);
      ghost var left := all;
      ghost var roomy := file.reliable && RoomFor(M(), |file.bytes|, all);
      while done < |b|
        invariant Valid() && !fault && err.NoError? && torn == 0 && file.failures >= old(file.failures)
        invariant done <= |b| && Guest() == Overlay(old(Guest()), off, b, done)
        invariant left == Touched(g.cs, off + done, |b| - done) <= all
        invariant Progress(m0, f0, M(), file.bytes, off, off + done, all - left)
        invariant Within(t0, file.trace, g, f0, guest, off, b)
        invariant roomy ==> RoomFor(M(), |file.bytes|, left)
      {
        Basics(M(), l2Cache, cache.Blocks(), file.bytes, false);
        ghost var m1, f1, t1 := M(), file.bytes, file.trace;
        var x := off + done;
        var chunk := Min(|b| - done, g.cs - g.InCluster(x));
        TouchedStep(g.cs, x, |b| - done);
        err, torn := WriteChunk(b[done..done + chunk], x, left);
        OverlayMore(old(Guest()), off, b, done, chunk, torn);
        ProgressStart(m0, f0, m1, f1, off, x, all - left);
        WithinMore(t0, t1, file.trace, g, f0, f1, guest, off, b, done, chunk);
        ProgressMore(m0, f0, m1, f1, M(), file.bytes, off, x, chunk, err, fault, all, left);
        if !err.NoError? {
          return;
        }
        done, torn, left := done + chunk, 0, left - 1;
      }
      ProgressMade(m0, f0, M(), file.bytes, off, off + done, all - left, all);
    }

    /** Writes bytes that lie in one cluster; `kept` of them reach the virtual disk. */
    method WriteChunk(d: seq<byte>, x: nat, ghost touched: nat) returns (err: IoError, ghost kept: nat)
      requires Valid() && !fault && Chunk(M(), x, |d|)
      modifies `l1, `l2, `l2Cache, `rt, `fault, file, cache
      ensures Valid() && kept <= |d| && Guest() == Overlay(old(Guest()), x, d, kept)
      ensures err.NoError? || err.MetadataFailed? || err.DataFailed?
      ensures err.NoError? ==> kept == |d|
      ensures err.MetadataFailed? ==> kept == 0
      ensures fault ==> err.MetadataFailed?
      ensures Evolves(old(M()), old(file.bytes), M(), file.bytes, fault)
      ensures MapsOnly(old(M()), M(), x, if err.MetadataFailed? then x else x + 1)
      ensures !fault ==> |file.bytes| <= End(old(M()), |old(file.bytes)|, 6)
      ensures touched > 0 && RoomFor(old(M()), |old(file.bytes)|, touched) ==>
        && (file.reliable && d != [] ==> err.NoError?)
        && (err.NoError? ==> RoomFor(M(), |file.bytes|, touched - 1))
      ensures file.failures >= old(file.failures) + if fault then 2 else 0
      ensures file.reliable ==> !fault
      ensures Within(old(file.trace), file.trace, g, old(file.bytes), old(Guest()), x, d)
    {
      hide Intact, Meta.Guest, StoredAt, Spacious, End, RoomFor, Evolves, Grew, MapsOnly, Kept, Within;
      ghost var m, n := M(), |file.bytes|;
      Basics(m, l2Cache, cache.Blocks(), file.bytes, false);
      if touched > 0 && RoomFor(m, n, touched) {
        RoomForOne(m, n, touched);
      }
      kept := 0;
      OverlayNone(Guest(), x, d);
      var ok, host := EnsureWritableCluster(x);
      ghost var f0, t1 := old(file.bytes), file.trace;
      WithinNone(old(file.trace), t1, g, f0, old(Guest()), x, d);
      if !ok {
        return MetadataFailed, 0;
      }
      ghost var m1, f := M(), file.bytes;
      ChunkSource(m1, l2Cache, cache.Blocks(), f, false, x, |d|, false, host);
      ok, kept := file.WriteAt(d, host);
      err := if ok then NoError else DataFailed;
      ChunkWritten(m1, l2Cache, cache.Blocks(), f, x, host, d[..kept]);
      ChunkEvolves(m, old(file.bytes), m1, l2Cache, cache.Blocks(), f, x, host, d[..kept]);
      EvolvesStart(m, f0, m1, file.bytes, false);
      WithinData(old(file.trace), t1, Moment(file.bytes, false), m1, l2Cache, cache.Blocks(), f0, old(Guest()), x, d,
                 kept);
      Basics(M(), l2Cache, cache.Blocks(), file.bytes, false);
      if touched > 0 && RoomFor(m, n, touched) {
        RoomForRest(m, n, touched, M(), |file.bytes|);
      }
    }

    /** Where guest byte `x` is stored, unless it reads as zero. */
    method HostOffset(x: nat) returns (ok: bool, zero: bool, host: nat)
      requires Valid()
      modifies `l2Cache
      ensures Valid()
      ensures ok ==> if zero then !M().Mapped(g.L1Index(x), g.L2Index(x)) else StoredAt(M(), x, host)
      ensures file.reliable && x < g.size ==> ok
    {
      hide Intact, Meta.Guest, ClusterOffset, ZeroFlag, ValidL2Entry;
      Basics(M(), l2Cache, cache.Blocks(), file.bytes, fault);
      var i, j := g.L1Index(x), g.L2Index(x);
      zero, host := true, 0;
      if x < g.size {
        IndexInTable(M(), l2Cache, cache.Blocks(), file.bytes, fault, x);
      }
      if i >= |l1| {
        return false, true, 0;
      }
      TableFacts(M(), l2Cache, cache.Blocks(), file.bytes, fault, i);
      if ClusterOffset(l1[i]) == 0 {
        return true, true, 0;
      }
      var table;
      ok, table := LoadL2(i);
      if !ok {
        return;
      }
      var entry := table[j];
      ZeroEntry(M());
      if entry == 0 {
        return;
      }
      if !ValidL2Entry(g.version, entry) {
        ok := false;
        return;
      }
      if ZeroFlag(entry) || ClusterOffset(entry) == 0 {
        return;
      }
      zero, host := false, ClusterOffset(entry) + g.InCluster(x);
    }

    /** Reads bytes that lie in one cluster. */
    method ReadChunk(x: nat, n: nat) returns (ok: bool, data: seq<byte>)
      requires Valid() && Chunk(M(), x, n)
      modifies `l2Cache
      ensures Valid() && Guest() == old(Guest())
      ensures ok ==> data == Guest()[x..x + n]
      ensures file.reliable && n > 0 ==> ok
    {
      hide Intact, Meta.Guest, StoredAt, Meta.Mapped;
      var zero, host;
      ok, zero, host := HostOffset(x);
      data := Zeros(n);
      if ok {
        ChunkSource(M(), l2Cache, cache.Blocks(), file.bytes, fault, x, n, zero, host);
        if !zero {
          ok, data := file.ReadAt(host, n);
        }
      }
    }

    /** Reads up to `n` bytes at `off`, as a flat array of the disk's size would give them. */
    method ReadAt(n: nat, off: int) returns (buf: seq<byte>, err: IoError)
      requires Valid()
      modifies `l2Cache
      ensures Valid() && Guest() == old(Guest())
      ensures |buf| <= n && (buf != [] ==> 0 <= off && off + |buf| <= g.size && buf == Guest()[off..off + |buf|])
      ensures err.NoError? <==> |buf| == n
      ensures err.EndOfFile? ==> n > 0 && 0 <= off && off + |buf| == Max(off, g.size)
      ensures err.NegativeOffset? <==> n > 0 && off < 0
      ensures err.Unreadable? ==> 0 <= off && |buf| < Min(n, g.size - off)
      ensures err in {NoError, EndOfFile, NegativeOffset, Unreadable}
      ensures file.reliable ==> !err.Unreadable?
    {
      hide Intact, Meta.Guest, Geometry.InCluster;
      buf, err := [], NoError;
      if n == 0 {
        return;
      }
      if off < 0 {
        return [], NegativeOffset;
      }
      if off >= g.size {
        return [], EndOfFile;
      }
      var ok;
      ok, buf := ReadChunks(Min(n, g.size - off), off);
      if !ok {
        err := Unreadable;
      } else if |buf| < n {
        err := EndOfFile;
      }
    }

    /** Reads `n` bytes at `off`, one cluster at a time, until one fails. */
    method ReadChunks(n: nat, off: nat) returns (ok: bool, buf: seq<byte>)
      requires Valid() && off + n <= g.size
      modifies `l2Cache
      ensures Valid() && Guest() == old(Guest()) && |Guest()| == g.size
      ensures |buf| <= n && buf == Guest()[off..off + |buf|] && (ok <==> |buf| == n)
      ensures file.reliable ==> ok
    {
      hide Intact, Meta.Guest, Chunk, Geometry.InCluster;
      ok, buf := true, [];
      GuestSize(M(), file.bytes);
      while |buf| < n
        invariant Valid() && Guest() == old(Guest()) && ok
        invariant |buf| <= n && buf == Guest()[off..off + |buf|]
      {
        Basics(M(), l2Cache, cache.Blocks(), file.bytes, fault);
        var x := off + |buf|;
        FirstChunk(M(), x, n - |buf|);
        var chunk := Min(n - |buf|, g.cs - g.InCluster(x));
        var data;
        ok, data := ReadChunk(x, chunk);
        if !ok {
          return;
        }
        SliceMore(Guest(), off, |buf|, chunk);
        buf := buf + data;
      }
    }
  }

  lemma GuestSize(m: Meta, f: seq<byte>)
    ensures |m.Guest(f)| == m.g.size
  {
  }

  /** The part of a request that lies in the cluster of its first byte. */
  lemma FirstChunk(m: Meta, x: nat, n: nat)
    requires m.g.cs >= 512 && n > 0 && x + n <= m.g.size
    ensures var c := Min(n, m.g.cs - m.g.InCluster(x)); 0 < c <= n && Chunk(m, x, c)
  {
  }

  /** A cluster that fits the cache is small enough for a table. */
  lemma TableSize(limit: nat, cs: nat)
    requires 0 < limit && limit * cs <= CACHE_BYTES
    ensures cs / 8 <= MAX_L1_BYTES / 8
  {
    assert cs <= limit * cs;
  }

  lemma SliceMore(guest: seq<byte>, off: nat, done: nat, chunk: nat)
    requires off + done + chunk <= |guest|
    ensures guest[off..off + done + chunk] == guest[off..off + done] + guest[off + done..off + done + chunk]
  {
  }

  lemma CapacityTab(m: Meta, x: nat)
    requires Capacity(m, x)
    ensures m.RcTab(x) < |m.rt|
  {
  }

  /** What three clusters of room mean for one append, and where it ends. */
  lemma Room(m: Meta, n: nat)
    requires m.g.cs > 0
    ensures n <= End(m, n, 3) && Target(m, AlignUp(n, m.g.cs)) + m.g.cs <= End(m, n, 3)
    ensures Spacious(m, n, 3) ==> Capacity(m, AlignUp(n, m.g.cs)) && Target(m, AlignUp(n, m.g.cs)) + m.g.cs <= MAX_HOST
  {
    TargetBound(m, n);
    if Spacious(m, n, 3) {
      SpaciousCapacity(m, n);
    }
  }

  /** Room for a table and a cluster is room for a table, and then for a cluster. */
  lemma RoomTwice(m: Meta, n: nat)
    requires m.g.cs > 0
    ensures n <= End(m, n, 0) && (Spacious(m, n, 6) ==> Spacious(m, n, 3))
  {
    if Spacious(m, n, 6) {
      SpaciousLater(m, n, 6, m, n, 3, 0);
    }
  }

  lemma RoomLeft(m: Meta, n: nat, m': Meta, n': nat)
    requires m.g.cs > 0 && m'.g == m.g && |m'.rt| == |m.rt| && n' <= End(m, n, 3)
    ensures End(m', n', 3) <= End(m, n, 6) && n' <= End(m, n, 6)
    ensures Spacious(m, n, 6) ==> Spacious(m', n', 3)
  {
    EndLater(m, n, m', n', 3, 3);
    if Spacious(m, n, 6) {
      SpaciousLater(m, n, 6, m', n', 3, 3);
    }
  }

  lemma EntryMaps(m: Meta, off: nat)
    requires m.g.cs >= 512 && m.g.cs % 512 == 0 && off % m.g.cs == 0 && 0 < off < MAX_HOST
    ensures ClusterOffset(EntryFor(off)) == off && !ZeroFlag(EntryFor(off))
  {
    EntryPointsTo(m, off);
  }

  /** The file after the counter of the new cluster was cleared and the cluster cut off. */
  lemma OldCounter(m: Meta, f: seq<byte>, n: nat, x: nat, torn: seq<byte>, zero: seq<byte>)
    requires m.g.cs >= 512 && m.Owned(|f|) && |f| <= n && m.HasRc(x) && |torn| <= 2 && zero == ToBe(0, 2)[..2]
    ensures Resize(Patch(Patch(Resize(f, n), m.RcPos(x), torn), m.RcPos(x), zero), |f|)
            == Patch(f, m.RcPos(x), ToBe(0, 2))
    ensures m.Rc(Patch(f, m.RcPos(x), ToBe(0, 2)), x) == 0
    ensures |Patch(f, m.RcPos(x), ToBe(0, 2))| == |f|
  {
    RcInBlock(m, x);
    assert zero == ToBe(0, 2);
    TakenBack(f, n, m.RcPos(x), torn, zero);
    CounterCleared(m, f, x);
  }

  lemma TargetAbove(m: Meta, x: nat)
    ensures x <= Target(m, x)
  {
  }

  lemma NeededNone(m: Meta, x: nat)
    requires m.HasRc(x)
    ensures Target(m, x) == x
  {
  }

  lemma BlockCached(m: Meta, cached: map<nat, seq<u64>>, old_: map<nat, seq<byte>>, blocks: map<nat, seq<byte>>,
                    f: seq<byte>, b: nat, block: seq<byte>)
    requires Intact(m, cached, old_, f, false) && BlockMatches(m, b, block, f)
    requires forall c :: c in blocks ==> if c == b then blocks[c] == block else c in old_ && blocks[c] == old_[c]
    ensures Intact(m, cached, blocks, f, false)
  {
    BlockInserted(m, old_, blocks, f, b, block);
  }

  /** What `EnsureL2Table` mapped: nothing. */
  lemma NewTable(m: Meta, m': Meta, i: nat, table: seq<u64>, x: nat, ok: bool)
    requires m'.g == m.g && m.g.cs > 0
    requires if ok && i !in m.l2 then m'.l2 == m.l2[i := table] && Zeroed(table) else m'.l2 == m.l2
    ensures MapsOnly(m, m', x, x)
  {
    if ok && i !in m.l2 {
      ZeroEntry(m);
      MapsOnlyTable(m, m', i, table, x);
    } else {
      MapsOnlyNone(m, m', x);
    }
  }

  /** What the entry of `x` added to it. */
  lemma NewEntry(m: Meta, m1: Meta, m2: Meta, x: nat, ok: bool)
    requires m1.g == m.g && m2.g == m.g && MapsOnly(m, m1, x, x)
    requires if ok then SameOthers(m1.l2, m2.l2, m.g.L1Index(x), m.g.L2Index(x)) else m2.l2 == m1.l2
    ensures MapsOnly(m, m2, x, if ok then x + 1 else x)
  {
    if ok {
      MapsOnlyOne(m1, m2, x);
      MapsOnlyTwice(m, m1, m2, x, x, x + 1);
    } else {
      MapsOnlyNone(m1, m2, x);
      MapsOnlyTwice(m, m1, m2, x, x, x);
    }
  }

  /** What a run of chunks up to guest offset `hi` did, with at most six host clusters for each of `used`. */
  ghost predicate Progress(m0: Meta, f0: seq<byte>, m: Meta, f: seq<byte>, off: nat, hi: nat, used: nat) {
    && m.g == m0.g && m.g.cs > 0 && Evolves(m0, f0, m, f, false)
    && MapsOnly(m0, m, off, hi) && |f| <= End(m0, |f0|, 6 * used)
  }

  lemma NoProgress(m: Meta, f: seq<byte>, off: nat)
    requires 0 < m.g.cs <= |f|
    ensures Progress(m, f, m, f, off, off, 0)
  {
    hide Evolves, MapsOnly, End;
    EvolvesNone(m, f, false);
    MapsOnlyNone(m, m, off);
    EndGrows(m, |f|, 0);
  }

  lemma ProgressStart(m0: Meta, f0: seq<byte>, m: Meta, f: seq<byte>, off: nat, hi: nat, used: nat)
    requires Progress(m0, f0, m, f, off, hi, used)
    ensures SameStart(f0, f, m0.g.cs)
  {
  }

  lemma ProgressMade(m0: Meta, f0: seq<byte>, m: Meta, f: seq<byte>, off: nat, hi: nat, used: nat, all: nat)
    requires Progress(m0, f0, m, f, off, hi, used) && used <= all
    ensures m0.g.cs > 0 && |f| <= End(m0, |f0|, 6 * all) && Evolves(m0, f0, m, f, false) && MapsOnly(m0, m, off, hi)
  {
    hide Evolves, MapsOnly, End;
    EndMore(m0, |f0|, 6 * used, 6 * all);
  }

  /** One more chunk, whether or not it fails. */
  lemma ProgressMore(m0: Meta, f0: seq<byte>, m1: Meta, f1: seq<byte>, m2: Meta, f2: seq<byte>, off: nat, x: nat,
                     chunk: nat, err: IoError, fault: bool, all: nat, left: nat)
    requires 0 < left <= all && off <= x && chunk > 0
    requires Progress(m0, f0, m1, f1, off, x, all - left) && m2.g == m1.g
    requires Evolves(m1, f1, m2, f2, fault) && MapsOnly(m1, m2, x, if err.MetadataFailed? then x else x + 1)
    requires !fault ==> |f2| <= End(m1, |f1|, 6)
    ensures Evolves(m0, f0, m2, f2, fault) && MapsOnly(m0, m2, off, if err.MetadataFailed? then x else x + 1)
    ensures m0.g.cs > 0 && (!fault ==> |f2| <= End(m0, |f0|, 6 * all))
    ensures !fault && err.NoError? ==> Progress(m0, f0, m2, f2, off, x + chunk, all - (left - 1))
  {
    hide Evolves, MapsOnly, End;
    EvolvesTwice(m0, f0, m1, f1, m2, f2, fault);
    MapsOnlyStep(m0, m1, m2, off, x, chunk, err);
    if !fault {
      EndStep(m0, |f0|, m1, |f1|, |f2|, all, left);
    }
  }

  lemma MapsOnlyStep(m: Meta, m1: Meta, m2: Meta, off: nat, x: nat, chunk: nat, err: IoError)
    requires m1.g == m.g && off <= x && chunk > 0
    requires MapsOnly(m, m1, off, x) && MapsOnly(m1, m2, x, if err.MetadataFailed? then x else x + 1)
    ensures MapsOnly(m, m2, off, if err.MetadataFailed? then x else x + 1)
    ensures !err.MetadataFailed? ==> MapsOnly(m, m2, off, x + chunk)
  {
    MapsOnlyTwice(m, m1, m2, off, x, if err.MetadataFailed? then x else x + 1);
    if !err.MetadataFailed? {
      MapsOnlyMore(m, m2, off, x + 1, x + chunk);
    }
  }

  /** A data write stays in its cluster. */
  lemma ChunkEvolves(m: Meta, f: seq<byte>, m1: Meta, cached: map<nat, seq<u64>>, blocks: map<nat, seq<byte>>,
                     f1: seq<byte>,
                     x: nat, host: nat, d: seq<byte>)
    requires Evolves(m, f, m1, f1, false) && Intact(m1, cached, blocks, f1, false)
    requires Chunk(m1, x, |d|) && StoredAt(m1, x, host) && host + |d| <= |f1|
    ensures Evolves(m, f, m1, Patch(f1, host, d), false) && |Patch(f1, host, d)| == |f1|
  {
    hide Evolves, Grew, SameStart, Intact, Meta.Guest;
    var i, j := m1.g.L1Index(x), m1.g.L2Index(x);
    EntryPatched(m1, cached, blocks, f1, Data(i, j), host, d);
    EvolvesStill(m1, f1, Patch(f1, host, d));
    EvolvesTwice(m, f, m1, f1, m1, Patch(f1, host, d), false);
  }

  lemma EndGrows(m: Meta, n: nat, k: nat)
    requires m.g.cs > 0
    ensures n <= End(m, n, k)
  {
  }

  /** Six more clusters for one chunk. */
  lemma EndStep(m: Meta, n: nat, m1: Meta, n1: nat, n2: nat, all: nat, left: nat)
    requires m.g.cs > 0 && m1.g == m.g && 0 < left <= all
    requires n1 <= End(m, n, 6 * (all - left)) && n2 <= End(m1, n1, 6)
    ensures n2 <= End(m, n, 6 * (all - (left - 1))) <= End(m, n, 6 * all)
  {
    EndLater(m, n, m1, n1, 6 * (all - left), 6);
    EndMore(m, n, 6 * (all - (left - 1)), 6 * all);
  }

  lemma EndMore(m: Meta, n: nat, k: nat, k': nat)
    requires m.g.cs > 0 && k <= k'
    ensures End(m, n, k) <= End(m, n, k')
  {
    MulSum(k, 0, k', m.g.cs);
  }
}
