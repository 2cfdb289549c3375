/** Where the initial RAM disk goes. */
module Initrd {
  import opened Arith

  const HIGH_MEM_BASE: nat := 0x10_0000
  const FOUR_GIB: nat := 0x1_0000_0000
  const PAGE: nat := 4096
  const VESA: Range := Range(0x0100_0000, 0x40_0000)

  datatype Range = Range(addr: nat, size: nat) {
    predicate Overlaps(other: Range) {
      size != 0 && other.size != 0 && addr < other.addr + other.size && other.addr < addr + size
    }

    ghost predicate Holds(byte: nat) { addr <= byte < addr + size }
  }

  /** Two ranges overlap exactly when they share a byte. */
  lemma OverlapIsSharing(r: Range, s: Range)
    ensures r.Overlaps(s) <==> exists b: nat :: r.Holds(b) && s.Holds(b)
  {
    if r.Overlaps(s) {
      var b := if r.addr < s.addr then s.addr else r.addr;
      assert r.Holds(b) && s.Holds(b);
    }
  }

  /** The end of the memory the RAM disk may use. */
  function Limit(low: nat, maxAddr: nat): nat { Min(low, Min(maxAddr, FOUR_GIB - 1) + 1) }

  /** A page-aligned place at or above 1 MiB, below `limit` and clear of everything in `occupied`. */
  ghost predicate Fits(addr: nat, size: nat, limit: nat, occupied: seq<Range>) {
    && HIGH_MEM_BASE <= addr && addr % PAGE == 0 && addr + size <= limit
    && forall i :: 0 <= i < |occupied| ==> !Range(addr, size).Overlaps(occupied[i])
  }

  /**
   The same byte by byte: all of them are low RAM that the kernel can address, below 4 GiB, and neither
   reserved nor, with a VESA display, part of its framebuffer.
   */
  ghost predicate Suits(addr: nat, size: nat, low: nat, maxAddr: nat, occupied: seq<Range>, vesa: bool) {
    && 0x10_0000 <= addr && addr % 4096 == 0
    && forall b :: addr <= b < addr + size ==> Usable(b, low, maxAddr, occupied, vesa)
  }

  ghost predicate Usable(b: nat, low: nat, maxAddr: nat, occupied: seq<Range>, vesa: bool) {
    && b < low && b <= maxAddr && b < 0x1_0000_0000
    && !(vesa && 0x100_0000 <= b < 0x140_0000)
    && forall i :: 0 <= i < |occupied| ==> !occupied[i].Holds(b)
  }

  lemma FitsIff(addr: nat, size: nat, low: nat, maxAddr: nat, occupied: seq<Range>, vesa: bool)
    requires size > 0
    ensures Fits(addr, size, Limit(low, maxAddr), Reserved(occupied, vesa)) <==>
            Suits(addr, size, low, maxAddr, occupied, vesa)
  {
    var limit, ranges := Limit(low, maxAddr), Reserved(occupied, vesa);
    assert vesa ==> ranges[|occupied|] == VESA;
    assert forall i :: 0 <= i < |occupied| ==> ranges[i] == occupied[i];
    if Fits(addr, size, limit, ranges) {
      forall b | addr <= b < addr + size
        ensures Usable(b, low, maxAddr, occupied, vesa)
      {
        forall i | 0 <= i < |ranges|
          ensures !ranges[i].Holds(b)
        {
          OverlapIsSharing(Range(addr, size), ranges[i]);
          assert Range(addr, size).Holds(b);
        }
      }
    }
    if Suits(addr, size, low, maxAddr, occupied, vesa) {
      assert Usable(addr + size - 1, low, maxAddr, occupied, vesa);
      forall i | 0 <= i < |ranges|
        ensures !Range(addr, size).Overlaps(ranges[i])
      {
        OverlapIsSharing(Range(addr, size), ranges[i]);
        forall b: nat | Range(addr, size).Holds(b)
          ensures !ranges[i].Holds(b)
        {
          assert Usable(b, low, maxAddr, occupied, vesa);
        }
      }
    }
  }

  datatype Placement = Placed(addr: nat) | TooLarge | Empty | NoRoom

  function Reserved(occupied: seq<Range>, vesa: bool): seq<Range> {
    if vesa then occupied + [VESA] else occupied
  }

  /** The highest aligned address that leaves `size` bytes below `limit`. */
  lemma HighestAligned(limit: nat, size: nat, addr: nat)
    requires size <= limit && addr % PAGE == 0 && addr + size <= limit
    ensures addr <= (limit - size) / PAGE * PAGE
  {
    assert addr == addr / PAGE * PAGE;
  }

  /** A place that is clear of a conflicting range lies entirely below it. */
  lemma BelowConflict(limit: nat, size: nat, addr: nat, occupied: seq<Range>, i: nat, other: nat)
    requires i < |occupied| && Range(addr, size).Overlaps(occupied[i])
    requires Fits(other, size, limit, occupied) && other <= addr
    ensures other + size <= occupied[i].addr
  {
    assert !Range(other, size).Overlaps(occupied[i]);
  }

  /** Takes the highest place that fits; fails only if there is none. */
  method InitrdImage(size: int, low: nat, maxAddr: nat, occupied: seq<Range>, vesa: bool) returns (r: Placement)
    ensures r.TooLarge? <==> size < 0 || size > low || size > maxAddr + 1 || size > 0x1_0000_0000
    ensures r.Empty? <==> size == 0
    ensures r.NoRoom? ==> size > 0 && forall a: nat :: !Suits(a, size, low, maxAddr, occupied, vesa)
    ensures r.Placed? ==> size > 0 && Suits(r.addr, size, low, maxAddr, occupied, vesa)
    ensures r.Placed? ==> forall a: nat :: Suits(a, size, low, maxAddr, occupied, vesa) ==> a <= r.addr
  {
    var limit: nat := Limit(low, maxAddr);
    ghost var top := limit;
    if size < 0 || size > limit {
      return TooLarge;
    }
    if size == 0 {
      return Empty;
    }
    var ranges := Reserved(occupied, vesa);
    forall a: nat
      ensures Fits(a, size, top, ranges) <==> Suits(a, size, low, maxAddr, occupied, vesa)
    {
      FitsIff(a, size, low, maxAddr, occupied, vesa);
    }
    hide Suits;
    while size <= limit
      invariant limit <= top
      invariant forall a: nat :: Fits(a, size, top, ranges) ==> a + size <= limit
      decreases limit
    {
      var addr := (limit - size) / PAGE * PAGE;
      forall a: nat | Fits(a, size, top, ranges)
        ensures a <= addr
      {
        HighestAligned(limit, size, a);
      }
      if addr < HIGH_MEM_BASE {
        break;
      }
      var before := limit;
      var conflict := false;
      for i := 0 to |ranges|
        invariant limit <= before && (conflict <==> limit < before)
        invariant conflict <==> exists k :: 0 <= k < i && Range(addr, size).Overlaps(ranges[k])
        invariant forall a: nat :: Fits(a, size, top, ranges) ==> a + size <= limit
      {
        if Range(addr, size).Overlaps(ranges[i]) {
          forall a: nat | Fits(a, size, top, ranges)
            ensures a + size <= ranges[i].addr
          {
            BelowConflict(top, size, addr, ranges, i, a);
          }
          limit := Min(limit, ranges[i].addr);
          conflict := true;
        }
      }
      if !conflict {
        return Placed(addr);
      }
    }
    return NoRoom;
  }
}
