/** The virtio block device: batches, completion order and durability. */
module Blk {
  import opened Arith
  import opened Bytes
  import opened Collections

  const SECTOR: nat := 512
  const QUEUE_SIZE: nat := 32
  const MMIO_START: nat := 0xd000_0000
  const HIGH_RAM_START: nat := 0x1_0000_0000
  const U16: nat := 0x1_0000
  const U32: nat := 0x1_0000_0000

  /** The range is guest RAM, outside the device hole. */
  predicate ValidRange(memLen: nat, addr: nat, size: nat) {
    && addr + size <= memLen
    && (addr >= HIGH_RAM_START || addr + size <= MMIO_START)
  }

  /** No byte of a range is past the end of memory or in the hole below 4 GiB; an empty one stands outside the hole. */
  lemma RangeIff(memLen: nat, addr: nat, size: nat)
    ensures ValidRange(memLen, addr, size) <==>
      if size == 0 then addr <= memLen && !(0xd000_0000 < addr < 0x1_0000_0000)
      else forall a: nat | addr <= a < addr + size :: InRam(memLen, a)
  {
    if size > 0 && forall a: nat | addr <= a < addr + size :: InRam(memLen, a) {
      assert InRam(memLen, addr) && InRam(memLen, addr + size - 1);
      assert addr <= 0xffff_ffff < addr + size ==> InRam(memLen, 0xffff_ffff);
    }
  }

  predicate InRam(memLen: nat, a: nat) { a < memLen && !(0xd000_0000 <= a < 0x1_0000_0000) }

  /** Ring sizes are powers of two. */
  predicate RingSize(n: nat) { 0 < n <= QUEUE_SIZE && U16 % n == 0 }

  datatype Desc = Desc(addr: nat, len: nat, flags: nat, next: nat) {
    predicate Next() { flags % 2 == 1 }
    predicate DeviceWrites() { flags / 2 % 2 == 1 }
  }

  /** What the driver has programmed: descriptor table, available ring and negotiated size. */
  datatype Queue = Queue(desc: seq<Desc>, availIdx: nat, availRing: seq<nat>, size: nat) {
    predicate Valid() {
      && |desc| == QUEUE_SIZE && |availRing| == QUEUE_SIZE
      && availIdx < U16
      && RingSize(Size())
    }

    function Size(): (n: nat)
      ensures 0 < n <= QUEUE_SIZE
    {
      if size != 0 && size <= QUEUE_SIZE then size else QUEUE_SIZE
    }

    /** The head of the `k`-th request after position `last`. */
    function Head(last: nat, k: nat): nat
      requires Valid()
    {
      availRing[Wrap(last + k) % Size()]
    }
  }

  datatype Request = Request(
    id: nat, length: nat, status: nat, data: nat, dataLen: nat, offset: nat, result: nat, write: bool, flush: bool)
  {
    /** Everything the I/O phase will touch was checked: guest addresses, and the sector range. */
    predicate Safe(memLen: nat, capacity: nat) {
      && ValidRange(memLen, status, 1)
      && ValidRange(memLen, data, dataLen)
      && result <= 2 && (write ==> result <= 1)
      && !(write && flush)
      && (result == 0 && !flush ==> offset + dataLen <= capacity * SECTOR)
    }
  }

  // The image under the device.

  /** `version` counts the writes attempted; all up to `durable` survive a crash. */
  class Disk {
    var contents: seq<byte>
    var version: nat
    const reliable: bool // no call fails
    ghost var durable: nat

    ghost predicate Valid()
      reads this
    {
      durable <= version
    }

    /** A failed write may still have changed some of the bytes. */
    method WriteAt(data: seq<byte>, off: nat) returns (ok: bool, ghost kept: nat)
      requires Valid()
      modifies this
      ensures Valid() && version == old(version) + 1 && durable == old(durable)
      ensures |contents| == |old(contents)| && kept <= |data|
      ensures contents == Patch(old(contents), off, data[..kept])
      ensures ok ==> off + |data| <= |contents| && kept == |data|
      ensures reliable && off + |data| <= |contents| ==> ok
    {
      version, kept := version + 1, 0;
      if off + |data| > |contents| {
        ok := false;
        assert contents == Patch(contents, off, data[..0]);
        return;
      }
      var k :| 0 <= k <= |data|;
      ok := *;
      if reliable {
        k, ok := |data|, true;
      }
      ok := ok && k == |data|;
      kept := k;
      contents := Patch(contents, off, data[..k]);
    }

    /** A failed read may have delivered some bytes already. */
    method ReadAt(off: nat, n: nat) returns (ok: bool, data: seq<byte>)
      ensures |data| <= n
      ensures ok ==> off + n <= |contents| && data == contents[off..off + n]
      ensures reliable && off + n <= |contents| ==> ok
    {
      ok, data := *, [];
      ok := ok || reliable;
      if off + n > |contents| {
        ok := false;
      } else if ok {
        data := contents[off..off + n];
      } else {
        var k :| 0 <= k <= n;
        data := contents[off..off + k];
      }
    }

    method Sync() returns (ok: bool)
      requires Valid()
      modifies this
      ensures Valid() && contents == old(contents) && version == old(version)
      ensures durable == if ok then version else old(durable)
      ensures reliable ==> ok
    {
      ok := *;
      ok := ok || reliable;
      if ok {
        durable := version;
      }
    }
  }

  /** A completed request.  `version` is the disk's when it was completed; `through` marks a writethrough batch. */
  datatype Done = Done(id: nat, length: nat, status: nat, write: bool, flush: bool, through: bool, version: nat)

  /** What the guest may rely on, whatever was completed when. */
  ghost predicate Honest(log: seq<Done>, durable: nat) {
    && (forall i :: 0 <= i < |log| && log[i].write && log[i].through && log[i].status == 0 ==>
          log[i].version <= durable)
    && (forall i, j :: 0 <= i < j < |log| && log[i].write && log[j].flush && log[j].status == 0 ==>
          log[i].version <= durable)
  }

  lemma HonestLater(log: seq<Done>, durable: nat, later: nat)
    requires Honest(log, durable) && durable <= later
    ensures Honest(log, later)
  {
  }

  function RequestType(q: Queue, mem: seq<byte>, head: nat): nat
    requires head < |q.desc| && q.desc[head].addr + 16 <= |mem|
  {
    FromLe(mem[q.desc[head].addr..q.desc[head].addr + 4])
  }

  function RequestSector(q: Queue, mem: seq<byte>, head: nat): nat
    requires head < |q.desc| && q.desc[head].addr + 16 <= |mem|
  {
    FromLe(mem[q.desc[head].addr + 8..q.desc[head].addr + 16])
  }

  /** The header that a driver writes is read back as its type and sector. */
  lemma DriverHeader(q: Queue, mem: seq<byte>, head: nat, typ: nat, reserved: seq<byte>, sector: nat)
    requires head < |q.desc| && q.desc[head].addr + 16 <= |mem|
    requires typ < 0x1_0000_0000 && |reserved| == 4 && sector < 0x1_0000_0000_0000_0000
    requires mem[q.desc[head].addr..q.desc[head].addr + 16] == ToLe(typ, 4) + reserved + ToLe(sector, 8)
    ensures RequestType(q, mem, head) == typ && RequestSector(q, mem, head) == sector
  {
    var a := q.desc[head].addr;
    Pow256Values();
    FromToLe(typ, 4);
    FromToLe(sector, 8);
    hide FromLe, ToLe;
    SliceOfSlice(mem, a, 16, 0, 4);
    SliceOfSlice(mem, a, 16, 8, 8);
    var header := ToLe(typ, 4) + reserved + ToLe(sector, 8);
    assert header[..4] == ToLe(typ, 4) && header[8..] == ToLe(sector, 8);
  }

  /** The command fields as the request header gives them, before the length is known. */
  predicate Headed(c: Request, typ: nat, sector: nat, capacity: nat, writeback: bool) {
    && (c.write <==> typ == 1)
    && (c.flush <==> typ == 4 && writeback)
    && c.result == (if typ > 1 && !c.flush then 2 else if sector > capacity then 1 else 0)
    && (sector <= capacity ==> c.offset == sector * SECTOR)
  }

  /** What the driver asked for: header, then data, then status for a read or a write. */
  predicate Means(q: Queue, mem: seq<byte>, capacity: nat, head: nat, writeback: bool, c: Request)
    requires q.Valid()
  {
    && head < q.Size() && q.desc[head].addr + 16 <= |mem|
    && c.id == head
    && var typ, sector := RequestType(q, mem, head), RequestSector(q, mem, head);
    && (c.write <==> typ == 1)
    && (c.flush <==> typ == 4 && writeback)
    && (c.result == 2 <==> typ > 1 && !c.flush)
    && (typ <= 1 ==>
          var d1 := q.desc[head].next;
          && d1 < q.Size() && q.desc[d1].next < q.Size()
          && c.data == q.desc[d1].addr && c.dataLen == q.desc[d1].len
          && c.status == q.desc[q.desc[d1].next].addr
          && (c.result == 0 <==> sector * 512 + c.dataLen <= capacity * 512)
          && (c.result == 0 ==> c.offset == sector * 512))
    && (c.flush ==> (c.result == 0 <==> sector <= capacity))
    && c.length == if c.flush then 1 else ChainLength(q, typ <= 1, head, 0) % 0x1_0000_0000
  }

  /** The bytes of all descriptors of the chain from its `j`-th, `d`, on. */
  function ChainLength(q: Queue, rw: bool, d: nat, j: nat): nat
    requires q.Valid()
    decreases q.Size() - j
  {
    if j >= q.Size() || d >= q.Size() then 0
    else
      var desc := q.desc[d];
      desc.len + if (if rw then j == 2 else !desc.Next()) then 0 else ChainLength(q, rw, desc.next, j + 1)
  }

  lemma ChainLengthOnce(q: Queue, rw: bool, d: nat, j: nat)
    requires q.Valid() && j < q.Size() && d < q.Size()
    ensures ChainLength(q, rw, d, j)
            == q.desc[d].len
               + if (if rw then j == 2 else !q.desc[d].Next()) then 0 else ChainLength(q, rw, q.desc[d].next, j + 1)
  {
  }

  /** The length reported for a read or write is that of header, data and status together. */
  lemma ThreeLengths(q: Queue, mem: seq<byte>, head: nat)
    requires q.Valid() && Acceptable(q, mem, head) && RequestType(q, mem, head) <= 1
    ensures var d1 := q.desc[head].next;
      && d1 < q.Size() && q.desc[d1].next < q.Size()
      && ChainLength(q, true, head, 0) == q.desc[head].len + q.desc[d1].len + q.desc[q.desc[d1].next].len
  {
    hide Rest, RingSize;
    var d1 := q.desc[head].next;
    RestOnce(q, |mem|, true, d1, {head}, 1);
    var d2 := q.desc[d1].next;
    RestOnce(q, |mem|, true, d2, {head} + {d1}, 2);
    hide ChainLength, ValidRange;
    ChainLengthOnce(q, true, head, 0);
    ChainLengthOnce(q, true, d1, 1);
    ChainLengthOnce(q, true, d2, 2);
  }

  /** `length` and the rest of the chain from `d` on make up the whole, in 32 bits. */
  ghost predicate Adding(q: Queue, rw: bool, head: nat, d: nat, j: nat, length: nat)
    requires q.Valid()
  {
    (length + ChainLength(q, rw, d, j)) % U32 == ChainLength(q, rw, head, 0) % U32
  }

  /** The next descriptor is added; it may have been the last. */
  lemma AddedLength(q: Queue, rw: bool, head: nat, d: nat, j: nat, length: nat)
    requires q.Valid() && j < q.Size() && d < q.Size()
    requires if j == 0 then d == head && length == 0 else Adding(q, rw, head, d, j, length)
    ensures var sum := (length + q.desc[d].len) % U32;
      if (if rw then j == 2 else !q.desc[d].Next()) then sum == ChainLength(q, rw, head, 0) % U32
      else Adding(q, rw, head, q.desc[d].next, j + 1, sum)
  {
    hide ChainLength, RingSize;
    ChainLengthOnce(q, rw, d, j);
    RestOfSum(length + q.desc[d].len, ChainLength(q, rw, d, j) - q.desc[d].len);
  }

  lemma RestOfSum(a: nat, b: nat)
    ensures (a % U32 + b) % U32 == (a + b) % U32
  {
    var x := a % U32 + b;
    var q, r := x / U32, x % U32;
    Quotient(a + b, U32, a / U32 + q, r);
  }

  /**
   The chain from its `j`-th descriptor `d` on: in range, without repetition, and ending in a status
   byte.  A read or write has three descriptors, whatever their flags say; other requests end where
   the flags end them.
   */
  predicate Rest(q: Queue, memLen: nat, rw: bool, d: nat, seen: set<nat>, j: nat)
    requires q.Valid()
    decreases q.Size() - j
  {
    && j < q.Size() && d < q.Size() && d !in seen
    && var desc := q.desc[d];
    && ValidRange(memLen, desc.addr, desc.len)
    && if (if rw then j == 2 else !desc.Next()) then desc.len != 0 && (rw || desc.DeviceWrites())
       else Rest(q, memLen, rw, desc.next, seen + {d}, j + 1)
  }

  /** The request can be taken: its header and the rest of its chain are sound. */
  predicate Acceptable(q: Queue, mem: seq<byte>, head: nat)
    requires q.Valid()
  {
    && head < q.Size() && ValidRange(|mem|, q.desc[head].addr, q.desc[head].len) && 16 <= q.desc[head].len
    && var rw := RequestType(q, mem, head) <= 1;
    && (rw || q.desc[head].Next())
    && Rest(q, |mem|, rw, q.desc[head].next, {head}, 1)
  }

  lemma RestOnce(q: Queue, memLen: nat, rw: bool, d: nat, seen: set<nat>, j: nat)
    requires q.Valid()
    ensures Rest(q, memLen, rw, d, seen, j) <==>
      && j < q.Size() && d < q.Size() && d !in seen && ValidRange(memLen, q.desc[d].addr, q.desc[d].len)
      && if (if rw then j == 2 else !q.desc[d].Next()) then q.desc[d].len != 0 && (rw || q.desc[d].DeviceWrites())
         else Rest(q, memLen, rw, q.desc[d].next, seen + {d}, j + 1)
  {
  }

  /** A read or write is taken exactly when its three descriptors are distinct and in range. */
  lemma ThreeDescriptors(q: Queue, mem: seq<byte>, head: nat)
    requires q.Valid() && head < q.Size() && 16 <= q.desc[head].len
    requires ValidRange(|mem|, q.desc[head].addr, q.desc[head].len) && RequestType(q, mem, head) <= 1
    ensures Acceptable(q, mem, head) <==>
      var d1 := q.desc[head].next;
      && d1 < q.Size() && d1 != head && ValidRange(|mem|, q.desc[d1].addr, q.desc[d1].len)
      && var d2 := q.desc[d1].next;
      && d2 < q.Size() && d2 != head && d2 != d1 && ValidRange(|mem|, q.desc[d2].addr, q.desc[d2].len)
      && q.desc[d2].len != 0
  {
    hide Rest, ValidRange, RingSize;
    var d1 := q.desc[head].next;
    RestOnce(q, |mem|, true, d1, {head}, 1);
    if d1 < q.Size() && d1 != head {
      var d2 := q.desc[d1].next;
      RestOnce(q, |mem|, true, d2, {head} + {d1}, 2);
      if d2 < q.Size() && d2 != head && d2 != d1 {
        BelowSize({head, d1, d2}, q.Size());
      }
    }
  }

  /** Any other request of two descriptors is taken exactly when the flags chain them and give the device the second. */
  lemma TwoDescriptors(q: Queue, mem: seq<byte>, head: nat)
    requires q.Valid() && head < q.Size() && 16 <= q.desc[head].len
    requires ValidRange(|mem|, q.desc[head].addr, q.desc[head].len) && RequestType(q, mem, head) > 1
    requires var d1 := q.desc[head].next; d1 < q.Size() && d1 != head && q.desc[d1].flags % 2 == 0
    ensures Acceptable(q, mem, head) <==>
      var d1 := q.desc[head].next;
      && q.desc[head].flags % 2 == 1 && q.desc[d1].flags % 4 >= 2
      && ValidRange(|mem|, q.desc[d1].addr, q.desc[d1].len) && q.desc[d1].len != 0
  {
    hide Rest, ValidRange, RingSize;
    RestOnce(q, |mem|, false, q.desc[head].next, {head}, 1);
    BelowSize({head, q.desc[head].next}, q.Size());
  }

  /**
   Follows the descriptor chain of one request and keeps only what it validated: the I/O phase never
   looks at the descriptor table again, so the guest may rewrite it meanwhile.
   */
  method SnapshotRequest(q: Queue, mem: seq<byte>, capacity: nat, head: nat, writeback: bool)
    returns (ok: bool, c: Request)
    requires q.Valid()
    ensures ok ==> c.Safe(|mem|, capacity) && Means(q, mem, capacity, head, writeback, c)
    ensures ok <==> Acceptable(q, mem, head)
  {
    hide Rest, RingSize, ChainLength, Adding;
    c := Request(head, 0, 0, 0, 0, 0, 0, false, false);
    ok := false;
    var d: nat := head;
    var seen: set<nat> := {};
    ghost var typ0, sector0 := 0, 0;
    var j := 0;
    while j < q.Size() && !ok
      invariant 0 <= j <= q.Size()
      invariant c.id == head && c.result <= 2 && !(c.write && c.flush)
      invariant j == 0 ==> !ok && c == Request(head, 0, 0, 0, 0, 0, 0, false, false) && d == head
      invariant j > 0 ==>
        head < q.Size() && ValidRange(|mem|, q.desc[head].addr, q.desc[head].len) && 16 <= q.desc[head].len
      invariant j > 0 ==> typ0 == RequestType(q, mem, head) && sector0 == RequestSector(q, mem, head)
      invariant j > 0 ==> Headed(c, typ0, sector0, capacity, writeback)
      invariant j == 1 ==> d == q.desc[head].next && c.dataLen == 0
      invariant j >= 2 && typ0 <= 1 ==>
        && q.desc[head].next < q.Size() && ValidRange(|mem|, c.data, c.dataLen)
        && c.data == q.desc[q.desc[head].next].addr && c.dataLen == q.desc[q.desc[head].next].len
        && (j == 2 && !ok ==> d == q.desc[q.desc[head].next].next)
      invariant j > 0 && typ0 > 1 ==> c.dataLen == 0 && c.data == 0
      invariant ok ==> c.length == if c.flush then 1 else ChainLength(q, typ0 <= 1, head, 0) % U32
      invariant j > 0 && !ok ==> Adding(q, typ0 <= 1, head, d, j, c.length)
      invariant typ0 <= 1 ==> j <= 2
      invariant ok ==> j > 0 && ValidRange(|mem|, c.status, 1)
      invariant j == 0 ==> seen == {}
      invariant j > 0 && !ok ==> (Acceptable(q, mem, head) <==> Rest(q, |mem|, typ0 <= 1, d, seen, j))
      invariant ok ==> Acceptable(q, mem, head)
      invariant ok && typ0 <= 1 ==>
        j == 2 && d == q.desc[q.desc[head].next].next < q.Size() && c.status == q.desc[d].addr
      decreases q.Size() - j, if ok then 0 else 1
    {
      RestOnce(q, |mem|, typ0 <= 1, d, seen, j);
      if d >= q.Size() || d in seen {
        return false, c;
      }
      assert j == 0 ==> seen + {d} == {head};
      seen := seen + {d};
      var desc := q.desc[d];
      if !ValidRange(|mem|, desc.addr, desc.len) || (j == 0 && desc.len < 16) {
        return false, c;
      }
      AddedLength(q, (if j == 0 then RequestType(q, mem, head) else typ0) <= 1, head, d, j, c.length);
      c := c.(length := (c.length + desc.len) % U32);
      if j == 0 {
        var typ := FromLe(mem[desc.addr..desc.addr + 4]);
        var sector := FromLe(mem[desc.addr + 8..desc.addr + 16]);
        typ0, sector0 := typ, sector;
        c := c.(write := typ == 1, flush := typ == 4 && writeback);
        if sector > capacity {
          c := c.(result := 1);
        } else {
          c := c.(offset := sector * SECTOR);
        }
        if typ != 0 && typ != 1 && !c.flush {
          c := c.(result := 2);
        }
      } else if c.result != 2 && !c.flush && j == 1 {
        c := c.(data := desc.addr, dataLen := desc.len);
      }
      var last := if c.result == 2 || c.flush then !desc.Next() else j == 2;
      if last {
        if j == 0 || desc.len == 0 || ((c.result == 2 || c.flush) && !desc.DeviceWrites()) {
          return false, c;
        }
        c := c.(status := desc.addr);
        if c.flush {
          c := c.(length := 1);
        }
        ok := true;
      } else {
        d := desc.next;
        j := j + 1;
      }
    }
    RestOnce(q, |mem|, typ0 <= 1, d, seen, j);
    if ok && c.result == 0 && !c.flush && c.dataLen > capacity * SECTOR - c.offset {
      c := c.(result := 1);
    }
  }

  // Ring positions.

  /** Positions of a batch no longer than the ring are distinct, across the 16-bit wrap. */
  lemma RingDistinct(base: nat, i: nat, j: nat, n: nat)
    requires RingSize(n) && i < j < i + n
    ensures (base + i) % U16 % n != (base + j) % U16 % n
  {
    ModMod(base + i, n);
    ModMod(base + j, n);
    ModDistinct(base + i, base + j, n);
  }

  lemma ModDistinct(a: nat, b: nat, n: nat)
    requires 0 < n && a < b < a + n
    ensures a % n != b % n
  {
    var p, q := a / n, b / n;
    assert a == n * p + a % n && b == n * q + b % n;
    if q > p {
      MulStep(n, q, p);
    } else if p > q {
      MulStep(n, p, q);
    }
  }

  lemma ModMod(a: nat, n: nat)
    requires RingSize(n)
    ensures a % U16 % n == a % n
  {
    var k, q := U16 / n, a / U16;
    assert U16 == n * k;
    var r := a % U16;
    assert a == U16 * q + r;
    assert U16 * q == n * (k * q);
    var p, s := r / n, r % n;
    assert a == n * (k * q + p) + s;
    Quotient(a, n, k * q + p, s);
  }

  datatype IoResult = Closed | NoRequests | BadChain | Completed

  /** A 16-bit ring index. */
  function Wrap(x: int): (r: nat)
    ensures r < U16
  {
    x % U16
  }

  lemma WrapAdd(x: int, n: int)
    ensures Wrap(Wrap(x) + n) == Wrap(x + n)
    ensures 0 <= x < U16 ==> Wrap(x) == x
  {
  }

  lemma WrapDistance(from: nat, to: nat)
    requires from < U16 && to < U16
    ensures Wrap(from + Wrap(to - from)) == to && (Wrap(to - from) == 0 <==> to == from)
  {
  }

  /** The used-ring position of the `k`-th completion after `base`. */
  function Slot(base: nat, k: nat, size: nat): (r: nat)
    requires 0 < size
    ensures r < size
  {
    Wrap(base + k) % size
  }

  /** The completions of `batch` are in the used ring, from position `base` on. */
  ghost predicate InRing(ring: seq<(nat, nat)>, base: nat, size: nat, batch: seq<Done>) {
    && |ring| == QUEUE_SIZE && 0 < size <= QUEUE_SIZE && |batch| <= size
    && forall k :: 0 <= k < |batch| ==> ring[Slot(base, k, size)] == (batch[k].id, batch[k].length)
  }

  /**
   The heads are taken from the available ring and handed back through the used ring in the same order,
   both across the 16-bit wrap of the indices and the end of a ring of the negotiated size.
   */
  ghost predicate HandedBack(q: Queue, last: nat, ring: seq<(nat, nat)>, base: nat, batch: seq<Done>) {
    var n := if 0 < q.size <= 32 then q.size else 32;
    && |q.availRing| == 32 && |ring| == 32
    && |batch| == (q.availIdx - last) % 0x1_0000 <= n
    && (forall k :: 0 <= k < |batch| ==> batch[k].id == q.availRing[(last + k) % 0x1_0000 % n])
    && (forall k :: 0 <= k < |batch| ==> ring[(base + k) % 0x1_0000 % n] == (batch[k].id, batch[k].length))
  }

  lemma HandsBack(q: Queue, mem: seq<byte>, capacity: nat, writeback: bool, asked: seq<Request>, batch: seq<Done>,
                  last: nat, ring: seq<(nat, nat)>, base: nat, works: bool, readOnly: bool)
    requires q.Valid() && |batch| == Wrap(q.availIdx - last) && InRing(ring, base, q.Size(), batch)
    requires Completes(batch, asked, works, readOnly)
    requires forall k :: 0 <= k < |asked| ==> Means(q, mem, capacity, q.Head(last, k), writeback, asked[k])
    ensures HandedBack(q, last, ring, base, batch)
  {
    hide RingSize, ChainLength, RequestType, RequestSector;
    forall k | 0 <= k < |batch|
      ensures batch[k].id == q.availRing[(last + k) % 0x1_0000 % q.Size()]
    {
      assert Finished(batch[k], asked[k], works, readOnly);
    }
    forall k | 0 <= k < |batch|
      ensures ring[(base + k) % 0x1_0000 % q.Size()] == (batch[k].id, batch[k].length)
    {
      assert ring[Slot(base, k, q.Size())] == (batch[k].id, batch[k].length);
    }
  }

  lemma InRingMore(ring: seq<(nat, nat)>, base: nat, size: nat, batch: seq<Done>, e: Done)
    requires InRing(ring, base, size, batch) && |batch| < size && RingSize(size)
    ensures InRing(ring[Slot(base, |batch|, size) := (e.id, e.length)], base, size, batch + [e])
  {
    forall k | 0 <= k < |batch|
      ensures Slot(base, k, size) != Slot(base, |batch|, size)
    {
      RingDistinct(base, k, |batch|, size);
    }
  }

  /** Guest memory after each request of `done` got its status byte, in order. */
  function Answered(mem: seq<byte>, done: seq<Request>): (r: seq<byte>)
    ensures |r| == |mem|
  {
    if done == [] then mem
    else
      var c, before := done[|done| - 1], Answered(mem, done[..|done| - 1]);
      if c.status < |mem| && c.result < 256 then before[c.status := c.result] else before
  }

  lemma AnsweredNone(mem: seq<byte>, done: seq<Request>)
    ensures Answered(mem, done[..0]) == mem
  {
  }

  lemma AnsweredOne(mem: seq<byte>, done: seq<Request>, i: nat)
    requires i < |done| && done[i].status < |mem| && done[i].result < 256
    ensures Answered(mem, done[..i + 1]) == Answered(mem, done[..i])[done[i].status := done[i].result]
  {
    assert done[..i + 1][..i] == done[..i];
  }

  /** A status byte that no later request shares says how the request ended. */
  lemma {:induction false} AnsweredStatus(mem: seq<byte>, done: seq<Request>, k: nat)
    requires k < |done| && done[k].status < |mem| && done[k].result < 256
    requires forall i :: k < i < |done| ==> done[i].status != done[k].status
    ensures Answered(mem, done)[done[k].status] == done[k].result
  {
    var n := |done| - 1;
    if k < n {
      AnsweredStatus(mem, done[..n], k);
    }
  }

  /** The log entry of a request completed while the disk is at `version`. */
  function Entry(c: Request, through: bool, version: nat): Done {
    Done(c.id, c.length, c.result, c.write, c.flush, through, version)
  }

  function Entries(cs: seq<Request>, through: bool, version: nat): (r: seq<Done>)
    ensures |r| == |cs|
    ensures forall k :: 0 <= k < |cs| ==> r[k] == Entry(cs[k], through, version)
  {
    seq(|cs|, k requires 0 <= k < |cs| => Entry(cs[k], through, version))
  }

  /** Completing requests is honest when each success that promises durability has it. */
  lemma HonestMore(log: seq<Done>, durable: nat, version: nat, cs: seq<Request>, through: bool)
    requires Honest(log, durable) && forall i :: 0 <= i < |log| ==> log[i].version <= version
    requires forall k :: 0 <= k < |cs| && cs[k].result == 0 && (cs[k].flush || (cs[k].write && through)) ==>
      durable == version
    ensures Honest(log + Entries(cs, through, version), durable)
    ensures forall i :: 0 <= i < |log + Entries(cs, through, version)| ==>
      (log + Entries(cs, through, version))[i].version <= version
  {
  }

  // What a batch does to the disk and to guest memory.

  /**
   What one request did: `ran` is the request with its outcome, `payload` its buffer when it started,
   `written` what reached the disk and `filled` what reached the buffer.
   */
  datatype Effect = Effect(ran: Request, payload: seq<byte>, written: seq<byte>, filled: seq<byte>)

  /** A write puts a prefix of its payload on the disk, all of it when it succeeds; nothing else does. */
  ghost predicate Proper(e: Effect, c: Request, readOnly: bool) {
    && e.ran == c.(result := e.ran.result)
    && |e.payload| == c.dataLen && e.written <= e.payload && |e.filled| <= c.dataLen
    && (c.write && e.ran.result == 0 ==> e.written == e.payload)
    && (!c.write || readOnly || c.result != 0 ==> e.written == [])
    && (c.write || c.flush || c.result != 0 ==> e.filled == [])
  }

  /** The disk after the requests, in order. */
  function OnDisk(contents: seq<byte>, effects: seq<Effect>): seq<byte> {
    if effects == [] then contents
    else
      var e := effects[|effects| - 1];
      Patch(OnDisk(contents, effects[..|effects| - 1]), e.ran.offset, e.written)
  }

  /** Guest memory after the requests, in order; `back` when each is answered as soon as it is done. */
  function InMemory(mem: seq<byte>, effects: seq<Effect>, back: bool): seq<byte> {
    if effects == [] then mem
    else
      var e := effects[|effects| - 1];
      Next(InMemory(mem, effects[..|effects| - 1], back), e, back)
  }

  /** A successful read delivers what the writes before it left on the disk. */
  ghost predicate Served(contents: seq<byte>, effects: seq<Effect>) {
    forall k :: 0 <= k < |effects| ==> Delivered(effects[k], OnDisk(contents, effects[..k]))
  }

  /** If the request is a read that succeeded, its buffer got the bytes of disk `d`. */
  ghost predicate Delivered(e: Effect, d: seq<byte>) {
    var c := e.ran;
    c.result == 0 && !c.write && !c.flush ==>
      c.offset + c.dataLen <= |d| && e.filled == d[c.offset..c.offset + c.dataLen]
  }

  /** Each payload is what the buffer held when its turn came. */
  ghost predicate Payloads(mem: seq<byte>, effects: seq<Effect>, back: bool) {
    forall k :: 0 <= k < |effects| ==> Loaded(effects[k], InMemory(mem, effects[..k], back))
  }

  /** The payload is what the buffer holds in memory `m`. */
  ghost predicate Loaded(e: Effect, m: seq<byte>) {
    var c := e.ran;
    c.data + c.dataLen <= |m| && e.payload == m[c.data..c.data + c.dataLen]
  }

  /** From one disk and memory to the next by the given effects; memory counts only if the driver waits. */
  ghost predicate Carried(contents: seq<byte>, contents': seq<byte>, mem: seq<byte>, mem': seq<byte>,
                          effects: seq<Effect>, back: bool, waits: bool)
  {
    && contents' == OnDisk(contents, effects) && Served(contents, effects)
    && (waits ==> mem' == InMemory(mem, effects, back) && Payloads(mem, effects, back))
  }

  lemma CarriedNone(contents: seq<byte>, mem: seq<byte>, back: bool, waits: bool)
    ensures Carried(contents, contents, mem, mem, [], back, waits)
  {
  }

  /** What ran on the disk `d` and the memory `m`. */
  ghost predicate RanOn(e: Effect, d: seq<byte>, m: seq<byte>) { Loaded(e, m) && Delivered(e, d) }

  lemma OneMore(effects: seq<Effect>, e: Effect, k: nat)
    requires k <= |effects|
    ensures var all := effects + [e]; all[..k] == effects[..k] && all[k] == if k < |effects| then effects[k] else e
    ensures effects[..|effects|] == effects
  {
  }

  lemma ServedMore(contents: seq<byte>, effects: seq<Effect>, e: Effect, m: seq<byte>)
    requires Served(contents, effects) && RanOn(e, OnDisk(contents, effects), m)
    ensures Served(contents, effects + [e])
    ensures OnDisk(contents, effects + [e]) == Patch(OnDisk(contents, effects), e.ran.offset, e.written)
  {
    hide OnDisk, Delivered, Loaded;
    OnDiskMore(contents, effects, e);
    var all := effects + [e];
    forall k | 0 <= k < |all|
      ensures Delivered(all[k], OnDisk(contents, all[..k]))
    {
      OneMore(effects, e, k);
    }
  }

  lemma OnDiskMore(contents: seq<byte>, effects: seq<Effect>, e: Effect)
    ensures OnDisk(contents, effects + [e]) == Patch(OnDisk(contents, effects), e.ran.offset, e.written)
  {
    assert (effects + [e])[..|effects|] == effects;
  }

  lemma PayloadsMore(mem: seq<byte>, effects: seq<Effect>, e: Effect, d: seq<byte>, back: bool)
    requires Payloads(mem, effects, back) && RanOn(e, d, InMemory(mem, effects, back))
    ensures Payloads(mem, effects + [e], back)
    ensures InMemory(mem, effects + [e], back) == Next(InMemory(mem, effects, back), e, back)
  {
    hide InMemory, Delivered, Loaded, Next;
    InMemoryMore(mem, effects, e, back);
    var all := effects + [e];
    forall k | 0 <= k < |all|
      ensures Loaded(all[k], InMemory(mem, all[..k], back))
    {
      OneMore(effects, e, k);
    }
  }

  lemma InMemoryMore(mem: seq<byte>, effects: seq<Effect>, e: Effect, back: bool)
    ensures InMemory(mem, effects + [e], back) == Next(InMemory(mem, effects, back), e, back)
  {
    hide Next;
    assert (effects + [e])[..|effects|] == effects;
  }

  /** Memory after one request. */
  function Next(m: seq<byte>, e: Effect, back: bool): seq<byte> {
    if back then Answered(Patch(m, e.ran.data, e.filled), [e.ran]) else Patch(m, e.ran.data, e.filled)
  }

  /** One more request, run on the disk `d` and the memory `m` that the ones before it left. */
  lemma CarriedMore(contents: seq<byte>, d: seq<byte>, mem: seq<byte>, m: seq<byte>, effects: seq<Effect>, back: bool,
                    waits: bool, e: Effect)
    requires Carried(contents, d, mem, m, effects, back, waits) && RanOn(e, d, m)
    ensures Carried(contents, Patch(d, e.ran.offset, e.written), mem, Next(m, e, back), effects + [e], back, waits)
  {
    hide Served, Payloads, OnDisk, InMemory, Next, RanOn;
    ServedMore(contents, effects, e, m);
    if waits {
      PayloadsMore(mem, effects, e, d, back);
    }
  }

  /** How the batch reports its effects: as they were, except that a failed sync fails every write. */
  ghost predicate Reports(batch: seq<Done>, asked: seq<Request>, effects: seq<Effect>, readOnly: bool, back: bool) {
    && |effects| == |asked| == |batch|
    && forall k :: 0 <= k < |batch| ==>
         && Proper(effects[k], asked[k], readOnly)
         && (batch[k].status == effects[k].ran.result || (!back && asked[k].write && batch[k].status == 1))
  }

  /** The requests with the outcome they report. */
  function Answers(effects: seq<Effect>, batch: seq<Done>): seq<Request>
    requires |effects| == |batch|
  {
    seq(|effects|, k requires 0 <= k < |effects| => effects[k].ran.(result := batch[k].status))
  }

  /** Guest memory when the batch is over. */
  function AfterBatch(mem: seq<byte>, effects: seq<Effect>, batch: seq<Done>, back: bool): seq<byte>
    requires |effects| == |batch|
  {
    if back then InMemory(mem, effects, true) else Answered(InMemory(mem, effects, false), Answers(effects, batch))
  }

  class Device {
    const disk: Disk
    const capacity: nat // sectors
    const readOnly: bool
    const waits: bool // the driver leaves memory alone while requests are pending
    var mem: seq<byte>
    var usedIdx: nat
    var usedRing: seq<(nat, nat)>
    var lastAvail: nat
    var dirty: bool // kept across resets
    var closed: bool
    ghost var log: seq<Done>

    constructor (disk: Disk, readOnly: bool, waits: bool, mem: seq<byte>)
      requires disk.Valid() && disk.durable == disk.version
      ensures Valid() && this.disk == disk && log == []
    {
      this.disk, this.readOnly, this.waits, this.mem := disk, readOnly, waits, mem;
      capacity := |disk.contents| / SECTOR;
      usedIdx, usedRing, lastAvail := 0, seq(QUEUE_SIZE, _ => (0, 0)), 0;
      dirty, closed, log := false, false, [];
    }

    /** A clear dirty flag means nothing is unsynced, and every completion so far was honest. */
    ghost predicate Valid()
      reads this, disk
    {
      && disk.Valid() && capacity * SECTOR <= |disk.contents|
      && usedIdx < U16 && lastAvail < U16 && |usedRing| == QUEUE_SIZE
      && (!dirty ==> disk.durable == disk.version)
      && (forall i :: 0 <= i < |log| ==> log[i].version <= disk.version)
      && Honest(log, disk.durable)
    }

    /** The driver resets the device: ring positions are lost, unsynced data is remembered. */
    method Reset()
      requires Valid()
      modifies `lastAvail
      ensures Valid() && lastAvail == 0 && dirty == old(dirty)
    {
      lastAvail := 0;
    }

    /** A driver that does not wait may rewrite its memory at any time. */
    method GuestRuns()
      modifies `mem
      ensures |mem| == |old(mem)| && (waits ==> mem == old(mem))
    {
      var i: int, b: byte := *, *;
      if !waits && 0 <= i < |mem| {
        mem := mem[i := b];
      }
    }

    method SyncImage() returns (ok: bool)
      requires Valid()
      modifies `dirty, disk
      ensures Valid() && disk.contents == old(disk.contents) && disk.version == old(disk.version)
      ensures ok ==> !dirty && disk.durable == disk.version
      ensures disk.reliable ==> ok
      ensures !ok ==> dirty == old(dirty) && disk.durable == old(disk.durable)
    {
      ok := disk.Sync();
      HonestLater(log, old(disk.durable), disk.durable);
      if ok {
        dirty := false;
      }
    }

    /** Runs one validated request. */
    method Execute(c: Request) returns (r: Request, ghost e: Effect)
      requires Valid() && c.Safe(|mem|, capacity)
      modifies `mem, `dirty, disk
      ensures Valid() && |mem| == |old(mem)|
      ensures r == c.(result := r.result) && r.Safe(|mem|, capacity)
      ensures c.result != 0 ==> r.result == c.result
      ensures r.result == 0 && r.write ==> Reaches(c, readOnly)
      ensures disk.version == old(disk.version) + (if Reaches(c, readOnly) then 1 else 0)
      ensures disk.durable == if r.flush && r.result == 0 then disk.version else old(disk.durable)
      ensures dirty == if r.flush && r.result == 0 then false else old(dirty) || Reaches(c, readOnly)
      ensures disk.reliable && c.result == 0 && !(c.write && readOnly) ==> r.result == 0
      ensures e.ran == r && Proper(e, c, readOnly) && RanOn(e, old(disk.contents), old(mem))
      ensures disk.contents == Patch(old(disk.contents), c.offset, e.written)
      ensures mem == Patch(old(mem), c.data, e.filled)
    {
      r, e := c, Effect(c, mem[c.data..c.data + c.dataLen], [], []);
      if c.result != 0 {
        return;
      }
      var ok := true;
      if c.flush {
        ok := SyncImage();
      } else if c.write && readOnly {
        ok := false;
      } else if c.write {
        dirty := true; // before the call, because even a write that fails may leave bytes behind
        ghost var kept;
        ok, kept := disk.WriteAt(mem[c.data..c.data + c.dataLen], c.offset);
        e := e.(written := e.payload[..kept]);
      } else {
        var data;
        ok, data := disk.ReadAt(c.offset, c.dataLen);
        mem := Patch(mem, c.data, data);
        e := e.(filled := data);
      }
      if !ok {
        r := c.(result := 1);
      }
      e := e.(ran := r);
    }

    /** Hands a run of finished requests back to the guest, in order. */
    method CompleteRequests(q: Queue, done: seq<Request>, through: bool, ghost base: nat, ghost batch: seq<Done>)
      requires Valid() && q.Valid() && forall k :: 0 <= k < |done| ==> done[k].Safe(|mem|, capacity)
      requires |batch| + |done| <= q.Size()
      requires usedIdx == Wrap(base + |batch|) && InRing(usedRing, base, q.Size(), batch)
      requires forall k :: 0 <= k < |done| && done[k].result == 0 && (done[k].flush || (done[k].write && through)) ==>
        disk.durable == disk.version
      modifies `mem, `usedIdx, `usedRing, `lastAvail, `log
      ensures Valid() && |mem| == |old(mem)|
      ensures log == old(log) + Entries(done, through, disk.version)
      ensures usedIdx == Wrap(base + |batch| + |done|)
      ensures InRing(usedRing, base, q.Size(), batch + Entries(done, through, disk.version))
      ensures lastAvail == Wrap(old(lastAvail) + |done|)
      ensures mem == Answered(old(mem), done)
    {
      hide Slot, InRing, Honest, RingSize, Entry, Wrap, Answered;
      AnsweredNone(mem, done);
      ghost var entries := Entries(done, through, disk.version);
      HonestMore(log, disk.durable, disk.version, done, through);
      assert batch + entries[..0] == batch;
      var i := 0;
      while i < |done|
        invariant 0 <= i <= |done| && |mem| == |old(mem)|
        invariant usedIdx == old(usedIdx) && lastAvail == old(lastAvail) && log == old(log)
        invariant InRing(usedRing, base, q.Size(), batch + entries[..i])
        invariant mem == Answered(old(mem), done[..i])
      {
        var c := done[i];
        InRingMore(usedRing, base, q.Size(), batch + entries[..i], entries[i]);
        assert batch + entries[..i] + [entries[i]] == batch + entries[..i + 1];
        SlotFrom(base, |batch|, i, q.Size());
        InRingSize(usedRing, base, q.Size(), batch + entries[..i]);
        EntryOf(c, through, disk.version);
        AnsweredOne(old(mem), done, i);
        mem := mem[c.status := c.result];
        usedRing := usedRing[Slot(usedIdx, i, q.Size()) := (c.id, c.length)];
        i := i + 1;
      }
      assert entries[..|done|] == entries && done[..|done|] == done;
      InRingSize(usedRing, base, q.Size(), batch + entries);
      WrapAdd(base + |batch|, |done|);
      usedIdx := Wrap(usedIdx + |done|);
      lastAvail := Wrap(lastAvail + |done|);
      log := log + entries;
    }

    /** Validates every request of the batch before any of them runs. */
    method SnapshotBatch(q: Queue, count: nat, writeback: bool) returns (ok: bool, pending: seq<Request>)
      requires q.Valid()
      ensures ok <==> forall k :: 0 <= k < count ==> Acceptable(q, mem, q.Head(lastAvail, k))
      ensures ok ==> |pending| == count
      ensures ok ==> forall k :: 0 <= k < count ==>
        && pending[k].Safe(|mem|, capacity)
        && Means(q, mem, capacity, q.Head(lastAvail, k), writeback, pending[k])
    {
      hide Means, Request.Safe, Queue.Head, Acceptable;
      ok, pending := true, [];
      var i := 0;
      while i < count
        invariant 0 <= i == |pending| <= count && ok
        invariant forall k :: 0 <= k < i ==> Acceptable(q, mem, q.Head(lastAvail, k))
        invariant forall k :: 0 <= k < i ==>
          && pending[k].Safe(|mem|, capacity)
          && Means(q, mem, capacity, q.Head(lastAvail, k), writeback, pending[k])
      {
        var c;
        ok, c := SnapshotRequest(q, mem, capacity, q.Head(lastAvail, i), writeback);
        if !ok {
          return;
        }
        pending := pending + [c];
        i := i + 1;
      }
    }

    /** Runs one request, on the memory `m` that the guest left, and completes it. */
    method RunOne(q: Queue, p: Request, ghost base: nat, ghost batch: seq<Done>)
      returns (c: Request, ghost e: Effect, ghost m: seq<byte>)
      requires Valid() && q.Valid() && p.Safe(|mem|, capacity) && |batch| < q.Size()
      requires usedIdx == Wrap(base + |batch|) && InRing(usedRing, base, q.Size(), batch)
      modifies `mem, `usedIdx, `usedRing, `lastAvail, `log, `dirty, disk
      ensures Valid() && |mem| == |old(mem)| == |m| && (waits ==> m == old(mem))
      ensures Ran(c, p, disk.reliable, readOnly) && e.ran == c && Proper(e, p, readOnly)
      ensures RanOn(e, old(disk.contents), m) && mem == Next(m, e, true)
      ensures disk.contents == Patch(old(disk.contents), e.ran.offset, e.written)
      ensures disk.version == old(disk.version) + (if Reaches(p, readOnly) then 1 else 0)
      ensures disk.durable >= old(disk.durable) && (c.flush && c.result == 0 ==> disk.durable == disk.version)
      ensures var done := Entries([c], false, disk.version);
        log == old(log) + done && InRing(usedRing, base, q.Size(), batch + done)
      ensures usedIdx == Wrap(base + |batch| + 1) && lastAvail == Wrap(old(lastAvail) + 1)
    {
      hide InRing, Honest, RingSize, Wrap, Answered, Proper, RanOn, Request.Safe, Patch, Entries;
      GuestRuns();
      m := mem;
      c, e := Execute(p);
      CompleteRequests(q, [c], false, base, batch);
    }

    /** With FLUSH negotiated each request is completed as soon as it is done. */
    method RunWriteback(q: Queue, pending: seq<Request>) returns (ghost batch: seq<Done>, ghost effects: seq<Effect>)
      requires Valid() && q.Valid() && |pending| <= q.Size()
      requires forall k :: 0 <= k < |pending| ==> pending[k].Safe(|mem|, capacity)
      modifies `mem, `usedIdx, `usedRing, `lastAvail, `log, `dirty, disk
      ensures Valid() && |mem| == |old(mem)| && log == old(log) + batch
      ensures Completes(batch, pending, disk.reliable, readOnly)
      ensures InRing(usedRing, old(usedIdx), q.Size(), batch) && usedIdx == Wrap(old(usedIdx) + |batch|)
      ensures lastAvail == Wrap(old(lastAvail) + |batch|)
      ensures Reports(batch, pending, effects, readOnly, true)
      ensures Carried(old(disk.contents), disk.contents, old(mem), mem, effects, true, waits)
      ensures Stamped(batch, pending, readOnly, true, old(disk.version), disk.durable)
      ensures disk.version == old(disk.version) + Reached(pending, readOnly) && disk.durable >= old(disk.durable)
    {
      hide InRing, Honest, RingSize, Completes, Entry, Wrap, Answered, Carried, Reports, Proper, RanOn,
           Request.Safe, Patch, Stamped, Reached, Ledger;
      WrapAdd(usedIdx, 0);
      WrapAdd(lastAvail, 0);
      batch, effects := [], [];
      CarriedNone(disk.contents, mem, true, waits);
      LedgerNone(pending, disk.reliable, readOnly, disk.version, disk.durable);
      EmptyRing(usedRing, usedIdx, q.Size());
      var i := 0;
      while i < |pending|
        invariant 0 <= i <= |pending| && Valid() && |mem| == |old(mem)|
        invariant log == old(log) + batch && |batch| == i
        invariant InRing(usedRing, old(usedIdx), q.Size(), batch) && usedIdx == Wrap(old(usedIdx) + i)
        invariant lastAvail == Wrap(old(lastAvail) + i)
        invariant Carried(old(disk.contents), disk.contents, old(mem), mem, effects, true, waits)
        invariant Ledger(batch, pending[..i], effects, disk.reliable, readOnly, old(disk.version), disk.version,
                         disk.durable)
        invariant disk.durable >= old(disk.durable)
      {
        ghost var d, was, version, durable := disk.contents, mem, disk.version, disk.durable;
        var c;
        ghost var e, m;
        c, e, m := RunOne(q, pending[i], old(usedIdx), batch);
        CarriedRest(old(disk.contents), d, old(mem), was, m, effects, true, waits);
        CarriedMore(old(disk.contents), d, old(mem), m, effects, true, waits, e);
        LedgerMore(batch, pending, effects, disk.reliable, readOnly, old(disk.version), version, durable, c, e,
                   disk.version, disk.durable);
        WrapAdd(old(lastAvail) + i, 1);
        batch, effects := batch + Entries([c], false, disk.version), effects + [e];
        i := i + 1;
      }
      assert pending[..|pending|] == pending;
      LedgerMeans(batch, pending, effects, disk.reliable, readOnly, old(disk.version), disk.version, disk.durable);
    }

    /** Without it the whole batch is completed at the end, its writes as successes only once they are durable. */
    method RunWritethrough(q: Queue, pending: seq<Request>) returns (ghost batch: seq<Done>, ghost effects: seq<Effect>)
      requires Valid() && q.Valid() && |pending| <= q.Size()
      requires forall k :: 0 <= k < |pending| ==> pending[k].Safe(|mem|, capacity) && !pending[k].flush
      modifies `mem, `usedIdx, `usedRing, `lastAvail, `log, `dirty, disk
      ensures Valid() && |mem| == |old(mem)| && log == old(log) + batch
      ensures Completes(batch, pending, disk.reliable, readOnly)
      ensures InRing(usedRing, old(usedIdx), q.Size(), batch) && usedIdx == Wrap(old(usedIdx) + |batch|)
      ensures lastAvail == Wrap(old(lastAvail) + |batch|)
      ensures Reports(batch, pending, effects, readOnly, false)
      ensures disk.contents == OnDisk(old(disk.contents), effects) && Served(old(disk.contents), effects)
      ensures waits ==> Payloads(old(mem), effects, false) && mem == AfterBatch(old(mem), effects, batch, false)
      ensures Stamped(batch, pending, readOnly, false, old(disk.version), disk.durable)
      ensures disk.version == old(disk.version) + Reached(pending, readOnly) && disk.durable >= old(disk.durable)
    {
      hide InRing, Honest, RingSize, Wrap, Request.Safe, Ran, Answered, OnDisk, InMemory, Served, Payloads, Reports,
           Carried, Answers, Completes, Entries, Stamped, Reached;
      WrapAdd(usedIdx, 0);
      EmptyRing(usedRing, usedIdx, q.Size());
      var done;
      done, effects := ExecuteAndSync(pending);
      CarriedMeans(old(disk.contents), disk.contents, old(mem), mem, effects, false, waits);
      batch := Entries(done, true, disk.version);
      ThroughCompletes(done, pending, disk.version, disk.reliable, readOnly);
      ThroughStamped(done, pending, readOnly, old(disk.version), disk.version, disk.durable);
      assert [] + batch == batch;
      CompleteRequests(q, done, true, usedIdx, []);
    }

    /** Runs a batch and syncs it; if the sync fails, so does every write. */
    method ExecuteAndSync(pending: seq<Request>) returns (done: seq<Request>, ghost effects: seq<Effect>)
      requires Valid()
      requires forall k :: 0 <= k < |pending| ==> pending[k].Safe(|mem|, capacity) && !pending[k].flush
      modifies `mem, `dirty, disk
      ensures Valid() && |mem| == |old(mem)| && |done| == |pending| == |effects|
      ensures forall k :: 0 <= k < |done| ==> Ran(done[k], pending[k], disk.reliable, readOnly)
      ensures forall k :: 0 <= k < |done| ==> done[k].Safe(|mem|, capacity)
      ensures forall k :: 0 <= k < |done| ==>
        !done[k].flush && (done[k].write && done[k].result == 0 ==> disk.durable == disk.version)
      ensures Reports(Entries(done, true, disk.version), pending, effects, readOnly, false)
      ensures Answers(effects, Entries(done, true, disk.version)) == done
      ensures Carried(old(disk.contents), disk.contents, old(mem), mem, effects, false, waits)
      ensures disk.version == old(disk.version) + Reached(pending, readOnly) && disk.durable >= old(disk.durable)
    {
      hide Honest, Request.Safe, Ran, Reports, Proper, Carried, Answers, Entries, Reached;
      var needsSync;
      done, needsSync, effects := ExecuteAll(pending);
      ghost var all := done;
      if needsSync {
        var ok := SyncImage();
        if !ok {
          done := FailWrites(done, |mem|, capacity);
          FailedRan(all, done, pending, readOnly, |mem|, capacity);
        }
      }
      ThroughReports(all, done, pending, effects, disk.version, readOnly);
    }

    /** Runs a batch, telling whether any of its writes may have reached the image. */
    method ExecuteAll(pending: seq<Request>) returns (done: seq<Request>, needsSync: bool, ghost effects: seq<Effect>)
      requires Valid()
      requires forall k :: 0 <= k < |pending| ==> pending[k].Safe(|mem|, capacity) && !pending[k].flush
      modifies `mem, `dirty, disk
      ensures Valid() && |mem| == |old(mem)| && |done| == |pending|
      ensures forall k :: 0 <= k < |done| ==> Ran(done[k], pending[k], disk.reliable, readOnly)
      ensures forall k :: 0 <= k < |done| ==> done[k].Safe(|mem|, capacity)
      ensures forall k :: 0 <= k < |done| ==> !done[k].flush && (done[k].write && done[k].result == 0 ==> needsSync)
      ensures needsSync <==> exists k :: 0 <= k < |pending| && Reaches(pending[k], readOnly)
      ensures |effects| == |pending|
      ensures forall k :: 0 <= k < |effects| ==> effects[k].ran == done[k] && Proper(effects[k], pending[k], readOnly)
      ensures Carried(old(disk.contents), disk.contents, old(mem), mem, effects, false, waits)
      ensures disk.version == old(disk.version) + Reached(pending, readOnly) && disk.durable == old(disk.durable)
    {
      hide Honest, Carried, Proper, RanOn, Executed, Request.Safe, Reached;
      ReachedNone(pending, readOnly);
      done, needsSync, effects := [], false, [];
      CarriedNone(disk.contents, mem, false, waits);
      ExecutedNone(pending, disk.reliable, readOnly, |mem|, capacity);
      while |done| < |pending|
        invariant |done| <= |pending| && Valid() && |mem| == |old(mem)|
        invariant Executed(done, effects, pending, disk.reliable, readOnly, |mem|, capacity)
        invariant needsSync <==> exists k :: 0 <= k < |done| && Reaches(pending[k], readOnly)
        invariant Carried(old(disk.contents), disk.contents, old(mem), mem, effects, false, waits)
        invariant disk.version == old(disk.version) + Reached(pending[..|done|], readOnly)
        invariant disk.durable == old(disk.durable)
      {
        ghost var d, m := disk.contents, mem;
        GuestRuns();
        CarriedRest(old(disk.contents), d, old(mem), m, mem, effects, false, waits);
        m := mem;
        var c := pending[|done|];
        needsSync := needsSync || Reaches(c, readOnly);
        ReachedMore(pending, |done|, readOnly);
        ghost var e;
        c, e := Execute(c);
        CarriedMore(old(disk.contents), d, old(mem), m, effects, false, waits, e);
        ExecutedMore(done, effects, pending, disk.reliable, readOnly, |mem|, capacity, c, e);
        done, effects := done + [c], effects + [e];
      }
      assert pending[..|pending|] == pending;
      ExecutedMeans(done, effects, pending, disk.reliable, readOnly, |mem|, capacity);
      RanReaches(done, pending, disk.reliable, readOnly);
    }

    /** One pass over the available ring. */
    method IO(q: Queue, writeback: bool)
      returns (r: IoResult, ghost batch: seq<Done>, ghost asked: seq<Request>, ghost effects: seq<Effect>)
      requires Valid() && q.Valid()
      modifies `mem, `usedIdx, `usedRing, `lastAvail, `log, `dirty, disk
      ensures Valid() && |mem| == |old(mem)|
      ensures r.Closed? <==> closed
      ensures r.NoRequests? <==> !closed && q.availIdx == old(lastAvail)
      ensures r.Completed? <==>
        && !closed && 0 < Wrap(q.availIdx - old(lastAvail)) <= q.Size()
        && forall k :: 0 <= k < Wrap(q.availIdx - old(lastAvail)) ==> Acceptable(q, old(mem), q.Head(old(lastAvail), k))
      ensures !r.Completed? ==>
        && disk.contents == old(disk.contents) && disk.version == old(disk.version) && dirty == old(dirty)
        && log == old(log) && usedRing == old(usedRing) && usedIdx == old(usedIdx) && lastAvail == old(lastAvail)
      ensures r.Completed? ==>
        && |batch| == Wrap(q.availIdx - old(lastAvail)) && 0 < |batch| <= q.Size()
        && log == old(log) + batch
        && InRing(usedRing, old(usedIdx), q.Size(), batch) && usedIdx == Wrap(old(usedIdx) + |batch|)
        && HandedBack(q, old(lastAvail), usedRing, old(usedIdx), batch) && lastAvail == q.availIdx
        && |asked| == |batch| && Completes(batch, asked, disk.reliable, readOnly)
        && (forall k :: 0 <= k < |batch| ==>
              Means(q, old(mem), capacity, q.Head(old(lastAvail), k), writeback, asked[k]))
      ensures r.Completed? ==>
        && Reports(batch, asked, effects, readOnly, writeback)
        && disk.contents == OnDisk(old(disk.contents), effects) && Served(old(disk.contents), effects)
      ensures r.Completed? && waits ==>
        Payloads(old(mem), effects, writeback) && mem == AfterBatch(old(mem), effects, batch, writeback)
      ensures r.Completed? ==>
        && Stamped(batch, asked, readOnly, writeback, old(disk.version), disk.durable)
        && disk.version == old(disk.version) + Reached(asked, readOnly) && disk.durable >= old(disk.durable)
    {
      hide InRing, HandedBack, Honest, Request.Safe, Queue.Head, Wrap, Acceptable, Completes, OnDisk, InMemory,
           Served, Payloads,
           Proper, Answered, Stamped, Reached;
      WrapDistance(lastAvail, q.availIdx);
      batch, asked, effects := [], [], [];
      if closed {
        return Closed, [], [], [];
      }
      var count := Wrap(q.availIdx - lastAvail);
      if count == 0 {
        return NoRequests, [], [], [];
      }
      if count > q.Size() {
        return BadChain, [], [], [];
      }
      var ok, pending := SnapshotBatch(q, count, writeback);
      if !ok {
        return BadChain, [], [], [];
      }
      asked := pending;
      if writeback {
        batch, effects := RunWriteback(q, pending);
      } else {
        batch, effects := RunWritethrough(q, pending);
      }
      CompletesSize(batch, pending, disk.reliable, readOnly);
      HandsBack(q, old(mem), capacity, writeback, pending, batch, old(lastAvail), usedRing, old(usedIdx), disk.reliable,
                readOnly);
      r := Completed;
    }

    /** Closing syncs what is unsynced; a clean close means everything is durable. */
    method Close() returns (ok: bool)
      requires Valid()
      modifies `closed, `dirty, disk
      ensures Valid() && closed && log == old(log)
      ensures disk.contents == old(disk.contents) && disk.version == old(disk.version)
      ensures ok ==> disk.durable == disk.version
      ensures disk.reliable ==> ok
    {
      closed := true;
      ok := true;
      if dirty {
        ok := SyncImage();
      }
    }
  }

  /** The request is a write that the image gets to see. */
  predicate Reaches(c: Request, readOnly: bool) { c.result == 0 && c.write && !readOnly }

  /** How many of the requests reach the image. */
  function Reached(cs: seq<Request>, readOnly: bool): nat {
    if cs == [] then 0
    else Reached(cs[..|cs| - 1], readOnly) + if Reaches(cs[|cs| - 1], readOnly) then 1 else 0
  }

  lemma ReachedNone(cs: seq<Request>, readOnly: bool)
    ensures Reached(cs[..0], readOnly) == 0
  {
  }

  lemma ReachedMore(cs: seq<Request>, k: nat, readOnly: bool)
    requires k < |cs|
    ensures Reached(cs[..k + 1], readOnly) == Reached(cs[..k], readOnly) + if Reaches(cs[k], readOnly) then 1 else 0
  {
    assert cs[..k + 1][..k] == cs[..k];
  }

  /**
   The durability a batch promises, for a disk that was at version `from` before it.  With FLUSH a request
   is completed at the version its own write and all before it made, and a FLUSH that succeeded has made
   that version durable.  Without, all are completed at the batch's last version, which is durable if any
   write is reported as done.
   */
  ghost predicate Stamped(batch: seq<Done>, asked: seq<Request>, readOnly: bool, back: bool, from: nat, durable: nat) {
    && |batch| == |asked|
    && forall k :: 0 <= k < |batch| ==>
         && batch[k].through == !back
         && batch[k].version == from + Reached(if back then asked[..k + 1] else asked, readOnly)
         && (batch[k].status == 0 && (if back then batch[k].flush else batch[k].write) ==> batch[k].version <= durable)
  }

  lemma StampedNone(pending: seq<Request>, readOnly: bool, from: nat, durable: nat)
    ensures Stamped([], pending[..0], readOnly, true, from, durable) && Reached(pending[..0], readOnly) == 0
  {
  }

  /** One more request was run, with outcome `c`, and completed at `version`. */
  lemma StampedMore(batch: seq<Done>, pending: seq<Request>, c: Request, readOnly: bool, from: nat, durable: nat,
                    version: nat, durable': nat)
    requires |batch| < |pending| && Stamped(batch, pending[..|batch|], readOnly, true, from, durable)
    requires version == from + Reached(pending[..|batch|], readOnly)
                        + if Reaches(pending[|batch|], readOnly) then 1 else 0
    requires durable <= durable' && (c.flush && c.result == 0 ==> version <= durable')
    ensures Stamped(batch + Entries([c], false, version), pending[..|batch| + 1], readOnly, true, from, durable')
    ensures version == from + Reached(pending[..|batch| + 1], readOnly)
  {
    hide Reached;
    ReachedMore(pending, |batch|, readOnly);
    var asked := pending[..|batch| + 1];
    assert asked[..|batch| + 1] == asked;
    var all := batch + Entries([c], false, version);
    assert forall k :: 0 <= k < |batch| ==> all[k] == batch[k] && asked[..k + 1] == pending[..|batch|][..k + 1];
  }

  /** All that is promised of the requests completed so far. */
  ghost predicate Ledger(batch: seq<Done>, asked: seq<Request>, effects: seq<Effect>, works: bool, readOnly: bool,
                         from: nat, version: nat, durable: nat)
  {
    && Completes(batch, asked, works, readOnly) && Reports(batch, asked, effects, readOnly, true)
    && Stamped(batch, asked, readOnly, true, from, durable) && version == from + Reached(asked, readOnly)
  }

  lemma LedgerNone(pending: seq<Request>, works: bool, readOnly: bool, from: nat, durable: nat)
    ensures Ledger([], pending[..0], [], works, readOnly, from, from, durable)
  {
    NoneCompleted(pending, works, readOnly);
    ReportsNone(pending, readOnly);
    StampedNone(pending, readOnly, from, durable);
  }

  lemma LedgerMore(batch: seq<Done>, pending: seq<Request>, effects: seq<Effect>, works: bool, readOnly: bool,
                   from: nat,
                   version: nat, durable: nat, c: Request, e: Effect, version': nat, durable': nat)
    requires |batch| < |pending|
    requires Ledger(batch, pending[..|batch|], effects, works, readOnly, from, version, durable)
    requires Ran(c, pending[|batch|], works, readOnly) && e.ran == c && Proper(e, pending[|batch|], readOnly)
    requires version' == version + if Reaches(pending[|batch|], readOnly) then 1 else 0
    requires durable <= durable' && (c.flush && c.result == 0 ==> version' <= durable')
    ensures Ledger(batch + Entries([c], false, version'), pending[..|batch| + 1], effects + [e], works, readOnly,
                   from, version', durable')
  {
    hide Completes, Reports, Stamped, Reached, Ran, Proper, Entries;
    CompletesMore(batch, pending, c, version', works, readOnly);
    ReportsMore(batch, pending, effects, c, e, version', readOnly);
    StampedMore(batch, pending, c, readOnly, from, durable, version', durable');
  }

  lemma LedgerMeans(batch: seq<Done>, asked: seq<Request>, effects: seq<Effect>, works: bool, readOnly: bool, from: nat,
                    version: nat, durable: nat)
    requires Ledger(batch, asked, effects, works, readOnly, from, version, durable)
    ensures Completes(batch, asked, works, readOnly) && Reports(batch, asked, effects, readOnly, true)
    ensures Stamped(batch, asked, readOnly, true, from, durable) && version == from + Reached(asked, readOnly)
  {
  }

  lemma ThroughStamped(done: seq<Request>, pending: seq<Request>, readOnly: bool, from: nat, version: nat, durable: nat)
    requires |done| == |pending| && version == from + Reached(pending, readOnly)
    requires forall k :: 0 <= k < |done| && done[k].write && done[k].result == 0 ==> durable == version
    ensures Stamped(Entries(done, true, version), pending, readOnly, false, from, durable)
  {
    hide Reached;
  }

  /** After a FLUSH that succeeded, every write completed before it, in this batch or an earlier one, is durable. */
  lemma FlushCovers(log: seq<Done>, batch: seq<Done>, durable: nat, k: nat, i: nat)
    requires Honest(log + batch, durable) && k < |batch| && batch[k].flush && batch[k].status == 0
    requires i < |log| + k && (log + batch)[i].write
    ensures (log + batch)[i].version <= durable
  {
    assert (log + batch)[|log| + k] == batch[k];
  }

  /** The guest may have run, which matters only if it does not wait. */
  lemma CarriedRest(contents: seq<byte>, d: seq<byte>, mem: seq<byte>, m: seq<byte>, m': seq<byte>,
                    effects: seq<Effect>,
                    back: bool, waits: bool)
    requires Carried(contents, d, mem, m, effects, back, waits) && (waits ==> m' == m)
    ensures Carried(contents, d, mem, m', effects, back, waits)
  {
  }

  lemma CarriedMeans(contents: seq<byte>, d: seq<byte>, mem: seq<byte>, m: seq<byte>, effects: seq<Effect>, back: bool,
                     waits: bool)
    requires Carried(contents, d, mem, m, effects, back, waits)
    ensures d == OnDisk(contents, effects) && Served(contents, effects)
    ensures waits ==> m == InMemory(mem, effects, back) && Payloads(mem, effects, back)
  {
  }

  lemma ReportsNone(pending: seq<Request>, readOnly: bool)
    ensures Reports([], pending[..0], [], readOnly, true)
  {
  }

  lemma ReportsMore(batch: seq<Done>, pending: seq<Request>, effects: seq<Effect>, c: Request, e: Effect, version: nat,
                    readOnly: bool)
    requires |batch| < |pending| && Reports(batch, pending[..|batch|], effects, readOnly, true)
    requires e.ran == c && Proper(e, pending[|batch|], readOnly)
    ensures Reports(batch + Entries([c], false, version), pending[..|batch| + 1], effects + [e], readOnly, true)
  {
    hide Proper;
  }

  lemma ThroughReports(all: seq<Request>, done: seq<Request>, pending: seq<Request>, effects: seq<Effect>, version: nat,
                       readOnly: bool)
    requires |all| == |done| == |pending| == |effects|
    requires forall k :: 0 <= k < |effects| ==> effects[k].ran == all[k] && Proper(effects[k], pending[k], readOnly)
    requires forall k :: 0 <= k < |done| ==> done[k] == all[k] || (all[k].write && done[k] == all[k].(result := 1))
    ensures Reports(Entries(done, true, version), pending, effects, readOnly, false)
    ensures Answers(effects, Entries(done, true, version)) == done
  {
    forall k | 0 <= k < |done|
      ensures pending[k].write == all[k].write && effects[k].ran.(result := done[k].result) == done[k]
    {
      assert Proper(effects[k], pending[k], readOnly);
    }
    hide Proper;
  }

  /** What became of one request: a refusal stands, and where nothing fails what may be done is done. */
  ghost predicate Finished(d: Done, c: Request, works: bool, readOnly: bool) {
    && d.id == c.id && d.length == c.length && d.write == c.write && d.flush == c.flush
    && (c.result != 0 ==> d.status == c.result)
    && (c.write && readOnly ==> d.status != 0)
    && (works && c.result == 0 && !(c.write && readOnly) ==> d.status == 0)
  }

  /** Each request of `pending` completed once, in order, as the command it was. */
  ghost predicate Completes(batch: seq<Done>, pending: seq<Request>, works: bool, readOnly: bool) {
    |batch| == |pending| && forall k :: 0 <= k < |batch| ==> Finished(batch[k], pending[k], works, readOnly)
  }

  lemma NoneCompleted(pending: seq<Request>, works: bool, readOnly: bool)
    ensures Completes([], pending[..0], works, readOnly)
  {
  }

  lemma CompletesSize(batch: seq<Done>, pending: seq<Request>, works: bool, readOnly: bool)
    requires Completes(batch, pending, works, readOnly)
    ensures |batch| == |pending|
  {
  }

  /** What running request `p` may leave behind as `c`. */
  ghost predicate Ran(c: Request, p: Request, works: bool, readOnly: bool) {
    && c == p.(result := c.result)
    && (p.result != 0 ==> c.result == p.result)
    && (p.write && readOnly ==> c.result != 0)
    && (works && p.result == 0 && !(p.write && readOnly) ==> c.result == 0)
  }

  /** The first requests of `pending` have run, with these outcomes and effects. */
  ghost predicate Executed(done: seq<Request>, effects: seq<Effect>, pending: seq<Request>, works: bool, readOnly: bool,
                           memLen: nat, capacity: nat)
  {
    && |effects| == |done| <= |pending|
    && forall k :: 0 <= k < |done| ==>
         && Ran(done[k], pending[k], works, readOnly) && done[k].Safe(memLen, capacity)
         && effects[k].ran == done[k] && Proper(effects[k], pending[k], readOnly)
  }

  lemma ExecutedNone(pending: seq<Request>, works: bool, readOnly: bool, memLen: nat, capacity: nat)
    ensures Executed([], [], pending, works, readOnly, memLen, capacity)
  {
  }

  lemma ExecutedMore(done: seq<Request>, effects: seq<Effect>, pending: seq<Request>, works: bool, readOnly: bool,
                     memLen: nat, capacity: nat, c: Request, e: Effect)
    requires Executed(done, effects, pending, works, readOnly, memLen, capacity) && |done| < |pending|
    requires Ran(c, pending[|done|], works, readOnly) && c.Safe(memLen, capacity)
    requires e.ran == c && Proper(e, pending[|done|], readOnly)
    ensures Executed(done + [c], effects + [e], pending, works, readOnly, memLen, capacity)
  {
    hide Ran, Request.Safe, Proper;
  }

  lemma ExecutedMeans(done: seq<Request>, effects: seq<Effect>, pending: seq<Request>, works: bool, readOnly: bool,
                      memLen: nat, capacity: nat)
    requires Executed(done, effects, pending, works, readOnly, memLen, capacity)
    ensures |effects| == |done|
    ensures forall k :: 0 <= k < |done| ==> Ran(done[k], pending[k], works, readOnly)
    ensures forall k :: 0 <= k < |done| ==> done[k].Safe(memLen, capacity)
    ensures forall k :: 0 <= k < |effects| ==> effects[k].ran == done[k] && Proper(effects[k], pending[k], readOnly)
  {
    hide Ran, Request.Safe, Proper;
  }

  /** A write that succeeded reached the image. */
  lemma RanReaches(done: seq<Request>, pending: seq<Request>, works: bool, readOnly: bool)
    requires |done| == |pending| && forall k :: 0 <= k < |done| ==> Ran(done[k], pending[k], works, readOnly)
    ensures forall k :: 0 <= k < |done| ==> done[k].flush == pending[k].flush
    ensures forall k :: 0 <= k < |done| && done[k].write && done[k].result == 0 ==> Reaches(pending[k], readOnly)
  {
  }

  lemma CompletesMore(batch: seq<Done>, pending: seq<Request>, c: Request, version: nat, works: bool, readOnly: bool)
    requires |batch| < |pending| && Completes(batch, pending[..|batch|], works, readOnly)
    requires Ran(c, pending[|batch|], works, readOnly)
    ensures Completes(batch + Entries([c], false, version), pending[..|batch| + 1], works, readOnly)
  {
  }

  lemma ThroughCompletes(done: seq<Request>, pending: seq<Request>, version: nat, works: bool, readOnly: bool)
    requires |done| == |pending| && forall k :: 0 <= k < |done| ==> Ran(done[k], pending[k], works, readOnly)
    ensures Completes(Entries(done, true, version), pending, works, readOnly)
  {
  }

  lemma EmptyRing(ring: seq<(nat, nat)>, base: nat, size: nat)
    requires |ring| == QUEUE_SIZE && 0 < size <= QUEUE_SIZE
    ensures InRing(ring, base, size, [])
  {
  }

  /** The sync that covers the batch failed: no write in it may be reported as done. */
  method FailWrites(done: seq<Request>, ghost memLen: nat, ghost capacity: nat) returns (r: seq<Request>)
    requires forall k :: 0 <= k < |done| ==> done[k].Safe(memLen, capacity)
    ensures |r| == |done|
    ensures forall k :: 0 <= k < |done| ==> r[k] == if done[k].write then done[k].(result := 1) else done[k]
    ensures forall k :: 0 <= k < |done| ==> r[k].Safe(memLen, capacity)
  {
    r := [];
    while |r| < |done|
      invariant |r| <= |done|
      invariant forall k :: 0 <= k < |r| ==> r[k] == if done[k].write then done[k].(result := 1) else done[k]
      invariant forall k :: 0 <= k < |r| ==> r[k].Safe(memLen, capacity)
    {
      var c := done[|r|];
      r := r + [if c.write then c.(result := 1) else c];
    }
  }

  lemma FailedRan(done: seq<Request>, r: seq<Request>, pending: seq<Request>, readOnly: bool, memLen: nat,
                  capacity: nat)
    requires |done| == |r| == |pending| && forall k :: 0 <= k < |done| ==> done[k].Safe(memLen, capacity)
    requires forall k :: 0 <= k < |done| ==> r[k] == if done[k].write then done[k].(result := 1) else done[k]
    requires forall k :: 0 <= k < |done| ==> Ran(done[k], pending[k], false, readOnly)
    ensures forall k :: 0 <= k < |r| ==> Ran(r[k], pending[k], false, readOnly)
    ensures forall k :: 0 <= k < |r| && r[k].write ==> r[k].result != 0
    ensures forall k :: 0 <= k < |r| ==> r[k].flush == done[k].flush
  {
  }

  lemma EntryOf(c: Request, through: bool, version: nat)
    ensures var e := Entry(c, through, version); e.id == c.id && e.length == c.length
  {
  }

  lemma InRingSize(ring: seq<(nat, nat)>, base: nat, size: nat, batch: seq<Done>)
    requires InRing(ring, base, size, batch)
    ensures |ring| == QUEUE_SIZE
  {
  }

  lemma SlotFrom(base: nat, n: nat, i: nat, size: nat)
    requires 0 < size
    ensures Slot(Wrap(base + n), i, size) == Slot(base, n + i, size)
  {
    WrapAdd(base + n, i);
  }
}
