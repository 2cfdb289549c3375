/**
 The host file under an image, and what can go wrong with it.  Every write may stop after any
 prefix of its bytes, every call may fail, and a failed truncation leaves the file as it was.
 */
module HostFile {
  import opened Bytes
  import opened Qcow2Meta

  const ENTRY: nat := 8 // bytes of a table entry

  /** The file as a host call left it; `split` marks the write of a table entry that did not go out whole. */
  datatype Moment = Moment(bytes: seq<byte>, split: bool)

  class File {
    var bytes: seq<byte>
    const reliable: bool // no call fails but for want of room
    ghost var failures: nat // writes and truncations that failed or fell short
    ghost var trace: seq<Moment> // the file after each write and truncation so far

    /** The file fits the offset field of a table entry: growth past that fails like a full disk. */
    ghost predicate Valid()
      reads this
    {
      |bytes| <= MAX_HOST
    }

    /** What the adversary lets through of a write of `n` bytes at `off`. */
    method Persist(off: nat, n: nat) returns (kept: nat)
      ensures kept <= n && (kept > 0 ==> off + kept <= MAX_HOST)
      ensures reliable && off + n <= MAX_HOST ==> kept == n
    {
      kept :| 0 <= kept <= n;
      if reliable {
        kept := n;
      }
      if off + kept > MAX_HOST {
        kept := if off < MAX_HOST then MAX_HOST - off else 0;
      }
    }

    /** A write through the metadata writer, which may also report success after too few bytes. */
    method WriteMetadataAt(data: seq<byte>, off: nat) returns (n: nat, err: bool, ghost kept: nat)
      requires Valid()
      modifies this
      ensures Valid()
      ensures kept <= |data| && bytes == Patch(old(bytes), off, data[..kept])
      ensures !err && n == |data| ==> kept == |data|
      ensures reliable && off + |data| <= MAX_HOST ==> !err && n == |data|
      ensures failures == old(failures) + if !err && n == |data| then 0 else 1
      ensures trace == old(trace) + [Moment(bytes, kept < |data| == ENTRY)]
    {
      var k := Persist(off, |data|);
      bytes := Patch(bytes, off, data[..k]);
      kept := k;
      n :| 0 <= n <= |data|;
      err := *;
      if reliable {
        n, err := k, false;
      }
      if !err && n == |data| && k != |data| {
        err := true;
      }
      failures := failures + if !err && n == |data| then 0 else 1;
      trace := trace + [Moment(bytes, k < |data| == ENTRY)];
    }

    /** A write to the file itself, which reports every short write as an error. */
    method WriteAt(data: seq<byte>, off: nat) returns (ok: bool, ghost kept: nat)
      requires Valid()
      modifies this
      ensures Valid()
      ensures kept <= |data| && bytes == Patch(old(bytes), off, data[..kept])
      ensures ok ==> kept == |data|
      ensures reliable && off + |data| <= MAX_HOST ==> ok
      ensures failures == old(failures) + (if ok then 0 else 1) && trace == old(trace) + [Moment(bytes, false)]
    {
      var k := Persist(off, |data|);
      bytes := Patch(bytes, off, data[..k]);
      kept := k;
      ok := *;
      ok := (ok || reliable) && k == |data|;
      failures := failures + if ok then 0 else 1;
      trace := trace + [Moment(bytes, false)];
    }

    method ReadAt(off: nat, n: nat) returns (ok: bool, data: seq<byte>)
      ensures ok ==> off + n <= |bytes| && data == bytes[off..off + n]
      ensures reliable && off + n <= |bytes| ==> ok
    {
      ok, data := *, [];
      ok := ok || reliable;
      if off + n > |bytes| {
        ok := false;
      } else if ok {
        data := bytes[off..off + n];
      }
    }

    method Stat() returns (ok: bool, size: nat)
      ensures ok ==> size == |bytes|
      ensures reliable ==> ok
    {
      ok, size := *, |bytes|;
      ok := ok || reliable;
    }

    method Truncate(size: nat) returns (ok: bool)
      requires Valid()
      modifies this
      ensures Valid()
      ensures bytes == if ok then Resize(old(bytes), size) else old(bytes)
      ensures reliable && size <= MAX_HOST ==> ok
      ensures failures == old(failures) + (if ok then 0 else 1) && trace == old(trace) + [Moment(bytes, false)]
    {
      ok := *;
      ok := ok || reliable;
      if size > MAX_HOST {
        ok := false;
      }
      if ok {
        bytes := Resize(bytes, size);
      }
      failures := failures + if ok then 0 else 1;
      trace := trace + [Moment(bytes, false)];
    }
  }
}
