/** The bounded FIFO cache of refcount blocks. */
module RefcountCache {
  import opened Bytes
  import opened Collections

  const CACHE_BYTES: nat := 4 * 1024 * 1024

  /** A slot whose block has been invalidated keeps its old offset but no data. */
  datatype Slot = Slot(offset: nat, data: Option<seq<byte>>)

  /** The index is a bijection between block offsets and live slots, and live slots hold whole blocks. */
  ghost predicate Bijective(index: map<nat, nat>, slots: seq<Slot>, cs: nat) {
    && (forall off :: off in index ==>
          && index[off] < |slots|
          && slots[index[off]].offset == off
          && slots[index[off]].data.Some?)
    && (forall k :: 0 <= k < |slots| && slots[k].data.Some? ==>
          && |slots[k].data.value| == cs
          && slots[k].offset in index
          && index[slots[k].offset] == k)
  }

  /** The blocks a lookup can return. */
  ghost function Contents(index: map<nat, nat>, slots: seq<Slot>, cs: nat): map<nat, seq<byte>>
    requires Bijective(index, slots, cs)
  {
    map off | off in index :: slots[index[off]].data.value
  }

  /** `index` without the block that slot `at` holds, if it holds one. */
  function Evicted(index: map<nat, nat>, slots: seq<Slot>, at: nat): map<nat, nat>
    requires at < |slots|
  {
    if slots[at].data.Some? then index - {slots[at].offset} else index
  }

  /**
   Reusing a slot drops the mapping of its occupant and no other.  An invalidated occupant has
   none, even when a newer slot maps the same block again.
   */
  lemma ReuseSlot(index: map<nat, nat>, slots: seq<Slot>, cs: nat, at: nat, off: nat, block: seq<byte>)
    requires Bijective(index, slots, cs) && at < |slots| && off !in index && |block| == cs
    ensures var index' := Evicted(index, slots, at)[off := at];
            var slots' := slots[at := Slot(off, Some(block))];
            var old_ := Contents(index, slots, cs);
            && Bijective(index', slots', cs)
            && Contents(index', slots', cs)
               == (if slots[at].data.Some? then old_ - {slots[at].offset} else old_)[off := block]
  {
    var kept := Evicted(index, slots, at);
    assert forall o :: o in kept ==> o in index && kept[o] == index[o] && kept[o] != at;
    var index' := kept[off := at];
    var slots' := slots[at := Slot(off, Some(block))];
    forall k | 0 <= k < |slots'| && slots'[k].data.Some? && k != at
      ensures slots[k].offset in kept && kept[slots[k].offset] == k
    {
      assert index[slots[k].offset] == k;
    }
  }

  lemma NewSlot(index: map<nat, nat>, slots: seq<Slot>, cs: nat, off: nat, block: seq<byte>)
    requires Bijective(index, slots, cs) && off !in index && |block| == cs
    ensures var index' := index[off := |slots|];
            var slots' := slots + [Slot(off, Some(block))];
            && Bijective(index', slots', cs)
            && Contents(index', slots', cs) == Contents(index, slots, cs)[off := block]
  {
    var index' := index[off := |slots|];
    var slots' := slots + [Slot(off, Some(block))];
    assert forall o :: o in index ==> index'[o] == index[o] && slots'[index[o]] == slots[index[o]];
  }

  lemma SameSlot(index: map<nat, nat>, slots: seq<Slot>, cs: nat, off: nat, block: seq<byte>)
    requires Bijective(index, slots, cs) && off in index && |block| == cs
    ensures var slots' := slots[index[off] := Slot(off, Some(block))];
            && Bijective(index, slots', cs)
            && Contents(index, slots', cs) == Contents(index, slots, cs)[off := block]
  {
  }

  lemma DropSlot(index: map<nat, nat>, slots: seq<Slot>, cs: nat, off: nat)
    requires Bijective(index, slots, cs) && off in index
    ensures var slots' := slots[index[off] := Slot(off, None)];
            && Bijective(index - {off}, slots', cs)
            && Contents(index - {off}, slots', cs) == Contents(index, slots, cs) - {off}
  {
  }

  // Memory held by the cache.

  function Resident(slots: seq<Slot>): nat {
    if slots == [] then 0
    else Resident(slots[..|slots| - 1]) + (if slots[|slots| - 1].data.Some? then |slots[|slots| - 1].data.value| else 0)
  }

  lemma {:induction false} ResidentBound(slots: seq<Slot>, size: nat)
    requires forall k :: 0 <= k < |slots| && slots[k].data.Some? ==> |slots[k].data.value| == size
    ensures Resident(slots) <= |slots| * size
  {
    if slots != [] {
      ResidentBound(slots[..|slots| - 1], size);
      assert |slots| * size == (|slots| - 1) * size + size;
    }
  }

  lemma AtMost(a: nat, b: nat, c: nat)
    requires a <= b
    ensures a * c <= b * c
  {
  }

  class Cache {
    const cs: nat
    const limit: nat // slots
    var index: map<nat, nat>
    var slots: seq<Slot>
    var next: nat

    constructor (cs: nat)
      requires 0 < cs <= CACHE_BYTES
      ensures Valid() && this.cs == cs && Blocks() == map[]
    {
      this.cs := cs;
      limit := CACHE_BYTES / cs;
      index, slots, next := map[], [], 0;
    }

    ghost predicate Valid()
      reads this
    {
      && 0 < cs && limit * cs <= CACHE_BYTES
      && |slots| <= limit && next < limit
      && Bijective(index, slots, cs)
    }

    ghost function Blocks(): map<nat, seq<byte>>
      requires Valid()
      reads this
    {
      Contents(index, slots, cs)
    }

    /** Resident data never exceeds the cache's budget, whatever the cluster size. */
    lemma Bounded()
      requires Valid()
      ensures Resident(slots) <= CACHE_BYTES
    {
      ResidentBound(slots, cs);
      AtMost(|slots|, limit, cs);
    }

    method Lookup(off: nat) returns (r: Option<seq<byte>>)
      requires Valid()
      ensures r == if off in Blocks() then Some(Blocks()[off]) else None
    {
      if off in index {
        r := slots[index[off]].data;
      } else {
        r := None;
      }
    }

    /** A cached block is replaced; a new one takes a free slot, or the next slot in turn. */
    method Insert(off: nat, block: seq<byte>)
      requires Valid() && |block| == cs
      modifies this
      ensures Valid()
      ensures var full := off !in old(Blocks()) && |old(slots)| == limit;
              && (if full && old(slots)[old(next)].data.Some?
                  then Blocks() == (old(Blocks()) - {old(slots)[old(next)].offset})[off := block]
                  else Blocks() == old(Blocks())[off := block])
              && next == if full then (old(next) + 1) % limit else old(next)
    {
      if off in index {
        SameSlot(index, slots, cs, off, block);
        slots := slots[index[off] := Slot(off, Some(block))];
      } else if |slots| < limit {
        NewSlot(index, slots, cs, off, block);
        index, slots := index[off := |slots|], slots + [Slot(off, Some(block))];
      } else {
        ReuseSlot(index, slots, cs, next, off, block);
        index, slots := Evicted(index, slots, next)[off := next], slots[next := Slot(off, Some(block))];
        next := (next + 1) % limit;
      }
    }

    method Invalidate(off: nat)
      requires Valid()
      modifies this
      ensures Valid()
      ensures Blocks() == old(Blocks()) - {off}
    {
      if off in index {
        DropSlot(index, slots, cs, off);
        index, slots := index - {off}, slots[index[off] := Slot(off, None)];
      }
    }

    /** Updates the counter at position `slot` of a cached block in place. */
    method Update(off: nat, slot: nat, v: nat)
      requires Valid() && 2 * slot + 2 <= cs
      modifies this
      ensures Valid()
      ensures Blocks() == if off in old(Blocks())
                          then old(Blocks())[off := Patch(old(Blocks())[off], 2 * slot, ToBe(v, 2))]
                          else old(Blocks())
    {
      if off in index {
        var block := Patch(slots[index[off]].data.value, 2 * slot, ToBe(v, 2));
        SameSlot(index, slots, cs, off, block);
        slots := slots[index[off] := Slot(off, Some(block))];
      }
    }
  }
}
