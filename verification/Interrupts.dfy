/** The shared interrupt line and the ACPI system control interrupt driven through it. */
module Interrupts {

  ghost predicate AnyHigh(levels: seq<bool>) {
    exists i :: 0 <= i < |levels| && levels[i]
  }

  ghost function CountHigh(levels: seq<bool>): nat {
    if levels == [] then 0 else CountHigh(levels[..|levels| - 1]) + if levels[|levels| - 1] then 1 else 0
  }

  lemma CountIsAny(levels: seq<bool>)
    ensures CountHigh(levels) != 0 <==> AnyHigh(levels)
  {
    if levels != [] {
      var n := |levels| - 1;
      CountIsAny(levels[..n]);
      if AnyHigh(levels[..n]) {
        var i :| 0 <= i < n && levels[..n][i];
        assert levels[i];
      }
      if AnyHigh(levels) && !levels[n] {
        var i :| 0 <= i < |levels| && levels[i];
        assert levels[..n][i];
      }
    }
  }

  /** Flipping one source moves the count by one. */
  lemma CountFlip(levels: seq<bool>, i: nat)
    requires i < |levels|
    ensures CountHigh(levels[i := !levels[i]]) == CountHigh(levels) + if levels[i] then -1 else 1
  {
    var n := |levels| - 1;
    var flipped := levels[i := !levels[i]];
    if i < n {
      CountFlip(levels[..n], i);
      assert flipped[..n] == levels[..n][i := !levels[i]];
    } else {
      assert flipped[..n] == levels[..n];
    }
  }

  /** One line shared by several sources; each source remembers the level it asserts. */
  class SharedLine {
    var asserted: int
    var high: bool
    var levels: seq<bool>
    ghost var wire: bool // the level the interrupt controller was last given

    constructor ()
      ensures Valid() && levels == [] && !wire
    {
      asserted, high, levels, wire := 0, false, [], false;
    }

    ghost predicate Valid()
      reads this
    {
      asserted == CountHigh(levels) && high == wire
    }

    method NewSource() returns (id: nat)
      requires Valid()
      modifies this
      ensures Valid() && id == |old(levels)| && levels == old(levels) + [false] && wire == old(wire)
    {
      id := |levels|;
      assert (levels + [false])[..|levels|] == levels;
      levels := levels + [false];
    }

    /**
     Source `id` asks for `level`.  The interrupt controller refuses the update when `works` is
     false and then keeps its level; the request is remembered all the same.
     */
    method Set(id: nat, level: bool, works: bool) returns (ok: bool)
      requires Valid() && id < |levels|
      modifies this
      ensures Valid() && levels == old(levels)[id := level]
      ensures ok ==> (wire <==> AnyHigh(levels))
      ensures !ok ==> wire == old(wire) && !works && (wire <==> !AnyHigh(levels))
    {
      if level != levels[id] {
        CountFlip(levels, id);
        asserted := if level then asserted + 1 else asserted - 1;
        levels := levels[id := level];
      } else {
        assert levels[id := level] == levels;
      }
      CountIsAny(levels);
      var want := asserted != 0;
      if want == high {
        return true;
      }
      if !works {
        return false;
      }
      wire := want;
      high := want;
      return true;
    }
  }

  const PORT: nat := 0xb000

  /** A 16-bit register as its low and high byte, the units in which it is written. */
  datatype Register = Register(lo: bv8, hi: bv8)

  const ZERO := Registers(Register(0, 0), Register(0, 0), Register(0, 0))

  datatype Registers = Registers(status: Register, enable: Register, control: Register) {
    /** Bit 8 of the status register: the power button was pressed. */
    predicate Pressed() { status.hi & 1 != 0 }

    /** Bit 8 of the enable register. */
    predicate ButtonEnabled() { enable.hi & 1 != 0 }

    /** Bit 0 of the control register. */
    predicate AcpiMode() { control.lo & 1 != 0 }

    /** Bit 13 of the control register. */
    predicate SleepEnable() { control.hi & 0x20 != 0 }

    /** The level the interrupt should have: enabled and pending, with ACPI mode on. */
    predicate Sci() { AcpiMode() && status.hi & enable.hi & 1 != 0 }

    /** One byte written at an I/O address. */
    function Put(addr: nat, b: bv8): Registers {
      if addr == PORT then this.(status := status.(lo := Cleared(status.lo, b)))
      else if addr == PORT + 1 then this.(status := status.(hi := Cleared(status.hi, b)))
      else if addr == PORT + 2 then this.(enable := enable.(lo := b))
      else if addr == PORT + 3 then this.(enable := enable.(hi := b))
      else if addr == PORT + 4 then this.(control := control.(lo := b))
      else if addr == PORT + 5 then this.(control := control.(hi := b))
      else this
    }

    function PutAll(port: nat, data: seq<bv8>): Registers
      decreases |data|
    {
      if data == [] then this else PutAll(port, data[..|data| - 1]).Put(port + |data| - 1, data[|data| - 1])
    }

    function AcpiOn(): Registers { this.(control := control.(lo := control.lo | 1)) }

    function AcpiOff(): Registers { this.(control := control.(lo := control.lo & 0xfe)) }

    /** The sleep trigger does not read back. */
    function Settled(): Registers { this.(control := control.(hi := control.hi & 0xdf)) }
  }

  /** The byte last written to `addr` by the access, if any. */
  ghost predicate Hits(port: nat, data: seq<bv8>, addr: nat) { port <= addr < port + |data| }

  /** The byte of the access for `addr`, or `other`. */
  function ByteFor(port: nat, data: seq<bv8>, addr: nat, other: bv8): bv8 {
    if port <= addr < port + |data| then data[addr - port] else other
  }

  lemma ByteForMore(port: nat, data: seq<bv8>, addr: nat, other: bv8)
    requires data != []
    ensures ByteFor(port, data, addr, other)
            == if addr == port + |data| - 1 then data[|data| - 1] else ByteFor(port, data[..|data| - 1], addr, other)
    ensures addr == port + |data| - 1 ==> ByteFor(port, data[..|data| - 1], addr, other) == other
  {
  }

  /** What is left of a status byte after a write: ones clear. */
  function Cleared(x: bv8, b: bv8): bv8 { x & !b }

  lemma ClearNone(x: bv8)
    ensures Cleared(x, 0) == x
  {
  }

  /** What an access leaves in the six bytes: ones written to the status bytes clear, the others are stored. */
  lemma {:induction false} PutBytes(r: Registers, port: nat, data: seq<bv8>)
    ensures r.PutAll(port, data) == Registers(
      Register(Cleared(r.status.lo, ByteFor(port, data, 0xb000, 0)),
               Cleared(r.status.hi, ByteFor(port, data, 0xb001, 0))),
      Register(ByteFor(port, data, 0xb002, r.enable.lo), ByteFor(port, data, 0xb003, r.enable.hi)),
      Register(ByteFor(port, data, 0xb004, r.control.lo), ByteFor(port, data, 0xb005, r.control.hi)))
    decreases |data|
  {
    ClearNone(r.status.lo);
    ClearNone(r.status.hi);
    if data != [] {
      ByteForMore(port, data, 0xb000, 0);
      ByteForMore(port, data, 0xb001, 0);
      ByteForMore(port, data, 0xb002, r.enable.lo);
      ByteForMore(port, data, 0xb003, r.enable.hi);
      ByteForMore(port, data, 0xb004, r.control.lo);
      ByteForMore(port, data, 0xb005, r.control.hi);
      hide Cleared, ByteFor;
      PutBytes(r, port, data[..|data| - 1]);
    }
  }

  /** The sleep trigger is never left set, so only a write to it with sleep type zero asks for soft-off. */
  lemma SoftOff(was: bv8, b: bv8)
    ensures b & 0x20 != 0 && b & 0x1c == 0 <==> b & 0x3c == 0x20
    ensures was & 0x20 == 0 ==> was & 0xdf == was
  {
  }

  lemma ClearBit(x: bv8, b: bv8)
    ensures x & !b & 1 != 0 <==> x & 1 != 0 && b & 1 == 0
  {
  }

  lemma BothBits(x: bv8, y: bv8)
    ensures x & y & 1 != 0 <==> x & 1 != 0 && y & 1 != 0
  {
  }

  lemma SleepBits(x: bv8)
    ensures x & 0xdf & 0x20 == 0
    ensures (x >> 2) & 7 == 0 <==> x & 0x1c == 0
  {
  }

  /** The registers agree in every bit but bit 0. */
  ghost predicate SameButMode(a: Register, b: Register) { a.hi == b.hi && a.lo & 0xfe == b.lo & 0xfe }

  lemma ModeBits(r: Registers)
    ensures r.AcpiOn().AcpiMode() && !r.AcpiOff().AcpiMode()
    ensures r.AcpiOn().SleepEnable() == r.SleepEnable() == r.AcpiOff().SleepEnable()
    ensures SameButMode(r.AcpiOn().control, r.control) && SameButMode(r.AcpiOff().control, r.control)
    ensures SameButMode(r.control, r.control)
    ensures r.AcpiOn().status == r.status == r.AcpiOff().status && r.AcpiOn().enable == r.enable == r.AcpiOff().enable
  {
  }

  /** The interrupt level in terms of the three bits it depends on. */
  lemma SciBits(r: Registers)
    ensures r.Sci() <==> r.AcpiMode() && r.Pressed() && r.ButtonEnabled()
    ensures !r.Settled().SleepEnable() && r.Settled().Sci() == r.Sci()
  {
    BothBits(r.status.hi, r.enable.hi);
    SleepBits(r.control.hi);
  }

  lemma PutBits(r: Registers, addr: nat, b: bv8)
    ensures r.Put(addr, b).Pressed() <==> r.Pressed() && !(addr == PORT + 1 && b & 1 != 0)
    ensures r.Put(addr, b).ButtonEnabled() <==> if addr == PORT + 3 then b & 1 != 0 else r.ButtonEnabled()
    ensures r.Put(addr, b).AcpiMode() <==> if addr == PORT + 4 then b & 1 != 0 else r.AcpiMode()
  {
    ClearBit(r.status.hi, b);
  }

  /** The power button stays pressed until a one is written to its own bit; the enables are plain stores. */
  lemma PowerButtonSticks(r: Registers, port: nat, data: seq<bv8>)
    ensures r.PutAll(port, data).Pressed() <==>
      r.Pressed() && !(Hits(port, data, PORT + 1) && data[PORT + 1 - port] & 1 != 0)
    ensures r.PutAll(port, data).ButtonEnabled() <==>
      if Hits(port, data, PORT + 3) then data[PORT + 3 - port] & 1 != 0 else r.ButtonEnabled()
    ensures r.PutAll(port, data).AcpiMode() <==>
      if Hits(port, data, PORT + 4) then data[PORT + 4 - port] & 1 != 0 else r.AcpiMode()
    decreases |data|
  {
    hide Registers.Pressed, Registers.ButtonEnabled, Registers.AcpiMode, Registers.Put;
    if data != [] {
      var n := |data| - 1;
      PowerButtonSticks(r, port, data[..n]);
      PutBits(r.PutAll(port, data[..n]), port + n, data[n]);
    }
  }

  /** The PM1 event and control registers of the chipset. */
  class Power {
    var regs: Registers
    var sciHigh: bool
    var sciPending: bool
    const line: SharedLine
    const source: nat

    constructor (line: SharedLine, source: nat)
      requires line.Valid() && source < |line.levels| && !line.levels[source]
      ensures Valid() && this.line == line && this.source == source && regs == ZERO
    {
      regs, sciHigh, sciPending := ZERO, false, false;
      this.line, this.source := line, source;
    }

    /** Unless an update is owed, the interrupt source asserts what was last asked for. */
    ghost predicate Valid()
      reads this, line
    {
      && line.Valid() && source < |line.levels|
      && (!sciPending ==> line.levels[source] == sciHigh)
      && !regs.SleepEnable()
    }

    /** Brings the interrupt source up to date; an update that failed is retried the next time. */
    method UpdateSci(works: bool) returns (ok: bool)
      requires Valid()
      modifies this`sciHigh, this`sciPending, line
      ensures Valid() && |line.levels| == |old(line.levels)|
      ensures ok ==> line.levels[source] == regs.Sci()
      ensures ok && (old(sciPending) || regs.Sci() != old(sciHigh)) ==> (line.wire <==> AnyHigh(line.levels))
      ensures !ok ==> sciPending && !works && line.wire == old(line.wire)
      ensures forall i :: 0 <= i < |line.levels| && i != source ==> line.levels[i] == old(line.levels[i])
    {
      var high := regs.Sci();
      if high == sciHigh && !sciPending {
        return true;
      }
      ok := line.Set(source, high, works);
      if !ok {
        sciPending := true;
        return false;
      }
      sciHigh := high;
      sciPending := false;
    }

    /** A guest write to the PM1 registers; `shutdown` tells whether it asked for soft-off. */
    method Write(port: nat, data: seq<bv8>, works: bool) returns (ok: bool, shutdown: bool)
      requires Valid()
      modifies this`regs, this`sciHigh, this`sciPending, line
      ensures Valid() && (shutdown <==> Hits(port, data, 0xb005) && data[0xb005 - port] & 0x3c == 0x20)
      ensures regs.status.lo == old(regs).status.lo & !ByteFor(port, data, 0xb000, 0)
      ensures regs.status.hi == old(regs).status.hi & !ByteFor(port, data, 0xb001, 0)
      ensures regs.enable.lo == ByteFor(port, data, 0xb002, old(regs).enable.lo)
      ensures regs.enable.hi == ByteFor(port, data, 0xb003, old(regs).enable.hi)
      ensures regs.control.lo == ByteFor(port, data, 0xb004, old(regs).control.lo)
      ensures regs.control.hi == ByteFor(port, data, 0xb005, old(regs).control.hi) & 0xdf
      ensures regs == old(regs).PutAll(port, data).Settled()
      ensures ok ==> line.levels[source] == regs.Sci()
      ensures |line.levels| == |old(line.levels)| && line.levels == old(line.levels)[source := line.levels[source]]
      ensures ok && (old(sciPending) || regs.Sci() != old(sciHigh)) ==> (line.wire <==> AnyHigh(line.levels))
      ensures !ok ==> sciPending && !works && line.wire == old(line.wire)
    {
      hide Registers.Put, Registers.Sci;
      var i := 0;
      var r := regs;
      while i < |data|
        invariant 0 <= i <= |data| && r == regs.PutAll(port, data[..i])
      {
        assert data[..i + 1][..i] == data[..i];
        r := r.Put(port + i, data[i]);
        i := i + 1;
      }
      assert data[..i] == data;
      PutBytes(regs, port, data);
      SciBits(r);
      SleepBits(r.control.hi);
      SoftOff(regs.control.hi, r.control.hi);
      shutdown := r.SleepEnable() && (r.control.hi >> 2) & 7 == 0;
      regs := r.Settled();
      ok := UpdateSci(works);
    }

    /** The firmware switches ACPI mode on or off. */
    method Smi(data: seq<bv8>, works: bool) returns (ok: bool)
      requires Valid()
      modifies this`regs, this`sciHigh, this`sciPending, line
      ensures Valid() && regs.status == old(regs.status) && regs.enable == old(regs.enable)
      ensures SameButMode(regs.control, old(regs.control))
      ensures regs.AcpiMode() <==>
        if |data| > 0 && data[0] == 0xf1 then true
        else if |data| > 0 && data[0] == 0xf0 then false else old(regs).AcpiMode()
      ensures ok ==> line.levels[source] == regs.Sci()
      ensures |line.levels| == |old(line.levels)| && line.levels == old(line.levels)[source := line.levels[source]]
      ensures ok && (old(sciPending) || regs.Sci() != old(sciHigh)) ==> (line.wire <==> AnyHigh(line.levels))
      ensures !ok ==> sciPending && !works && line.wire == old(line.wire)
    {
      ModeBits(regs);
      hide Registers.SleepEnable, Registers.AcpiMode, Registers.Sci, Registers.AcpiOn, Registers.AcpiOff,
           SameButMode;
      if |data| > 0 {
        if data[0] == 0xf1 {
          regs := regs.AcpiOn();
        } else if data[0] == 0xf0 {
          regs := regs.AcpiOff();
        }
      }
      ok := UpdateSci(works);
    }

    /** Presses the power button, whether or not its event is enabled. */
    method PressPowerButton(works: bool) returns (ok: bool)
      requires Valid()
      modifies this`regs, this`sciHigh, this`sciPending, line
      ensures Valid() && regs.Pressed() && regs.enable == old(regs.enable) && regs.control == old(regs.control)
      ensures regs.status.lo == old(regs.status.lo) && regs.status.hi == old(regs.status.hi) | 1
      ensures ok ==> line.levels[source] == regs.Sci()
      ensures |line.levels| == |old(line.levels)| && line.levels == old(line.levels)[source := line.levels[source]]
      ensures ok && (old(sciPending) || regs.Sci() != old(sciHigh)) ==> (line.wire <==> AnyHigh(line.levels))
      ensures ok ==> (line.levels[source] <==> regs.AcpiMode() && regs.ButtonEnabled())
      ensures !ok ==> sciPending && !works && line.wire == old(line.wire)
    {
      regs := regs.(status := regs.status.(hi := regs.status.hi | 1));
      SciBits(regs);
      ok := UpdateSci(works);
    }
  }
}
