/** The layers of an outgoing channel packet, and the batched writer that skips them. */
module Wire {
  import opened Arith
  import opened Bytes
  import opened Collections

  const MAX_USER_DATA: nat := 32767
  const CHUNK: nat := 1600
  const BATCH: nat := 16384

  /** The packed length prefix: one byte below 128, else two with the top bit set. */
  function PerLength(n: nat): (r: seq<byte>)
    requires n <= MAX_USER_DATA
  {
    if n < 128 then [n] else [n / 256 + 128, n % 256]
  }

  function LongLength(hi: int, lo: int): int { (hi - 128) * 256 + lo }

  function TakePer(p: seq<byte>): Option<seq<byte>> {
    if p == [] then None
    else if p[0] >= 128 then
      if |p| < 2 || LongLength(p[0], p[1]) != |p| - 2 then None else Some(p[2..])
    else if p[0] != |p| - 1 then None
    else Some(p[1..])
  }

  /** Reading back what was prefixed gives the payload. */
  lemma PerRoundTrip(d: seq<byte>)
    requires |d| <= MAX_USER_DATA
    ensures TakePer(PerLength(|d|) + d) == Some(d)
  {
    var p := PerLength(|d|) + d;
    if |d| < 128 {
      assert p[1..] == d;
    } else {
      assert p[2..] == d;
    }
  }

  function Tpkt(payload: seq<byte>): seq<byte>
    requires |payload| <= 65531
  {
    [3, 0] + ToBe(4 + |payload|, 2) + payload
  }

  function Mcs(data: seq<byte>): seq<byte>
    requires |data| <= 65528
  {
    Tpkt([2, 0xf0, 0x80] + data)
  }

  function Channel(channel: nat, data: seq<byte>): seq<byte>
    requires channel < 65536 && |data| <= MAX_USER_DATA
  {
    Mcs([0x68, 0, 1] + ToBe(channel, 2) + [0x70] + PerLength(|data|) + data)
  }

  function StaticHeader(n: nat): seq<byte> { ToLe(n, 4) + ToLe(3, 4) }

  /** The header in bytes: a length of 32 bits, low byte first, and the flags of a first and last chunk. */
  lemma StaticBytes(n: nat)
    requires n <= CHUNK
    ensures StaticHeader(n) == [n % 256, n / 256, 0, 0, 3, 0, 0, 0]
  {
    FourBytes(n);
    FourBytes(3);
  }

  lemma FourBytes(n: nat)
    requires n < 65536
    ensures ToLe(n, 4) == [n % 256, n / 256, 0, 0]
  {
    assert ToLe(0, 1) == [0] && ToLe(0, 2) == [0] + ToLe(0, 1);
    assert ToLe(n / 256, 3) == [n / 256] + ToLe(0, 2);
  }

  /** One static-channel chunk that is both the first and the last of its message. */
  function Static(channel: nat, data: seq<byte>): seq<byte>
    requires channel < 65536 && |data| <= CHUNK
  {
    Channel(channel, StaticHeader(|data|) + data)
  }

  /** The dynamic-channel fragments that follow the first. */
  function Later(id: byte, data: seq<byte>): (r: seq<seq<byte>>)
    ensures forall i :: 0 <= i < |r| ==> |r[i]| <= CHUNK
  {
    if data == [] then []
    else
      var size := Min(CHUNK - 2, |data|);
      [[0x30, id] + data[..size]] + Later(id, data[size..])
  }

  /** The fragments of one message: a long one starts with its total length, in 32 bits. */
  function Fragments(id: byte, data: seq<byte>): (r: seq<seq<byte>>)
    ensures forall i :: 0 <= i < |r| ==> |r[i]| <= CHUNK
  {
    if |data| <= CHUNK - 2 then Later(id, data)
    else [[0x28, id] + ToLe(|data|, 4) + data[..CHUNK - 6]] + Later(id, data[CHUNK - 6..])
  }

  /** Each fragment sent by itself through the static, MCS and TPKT layers. */
  function Sent(channel: nat, fragments: seq<seq<byte>>): seq<byte>
    requires channel < 65536 && forall i :: 0 <= i < |fragments| ==> |fragments[i]| <= CHUNK
  {
    if fragments == [] then [] else Static(channel, fragments[0]) + Sent(channel, fragments[1..])
  }

  function ChannelTpktSize(n: nat): nat { 4 + 3 + 6 + (if n >= 128 then 2 else 1) + n }

  /** The size computed beforehand is the size of the layered packet. */
  lemma ChannelSize(channel: nat, data: seq<byte>)
    requires channel < 65536 && |data| <= MAX_USER_DATA
    ensures |Channel(channel, data)| == ChannelTpktSize(|data|)
  {
  }

  /** The fixed part of a channel packet of `size` bytes. */
  function Head(size: nat, channel: nat): (r: seq<byte>)
    requires size < 65536 && channel < 65536
    ensures |r| == 13
  {
    [3, 0, size / 256, size % 256, 2, 0xf0, 0x80, 0x68, 0, 1, channel / 256, channel % 256, 0x70]
  }

  lemma TwoBytes(v: nat)
    requires v < 65536
    ensures ToBe(v, 2) == [v / 256, v % 256]
  {
    assert ToBe(v / 256, 1) == [v / 256];
  }

  /** All layers at once: the fixed part, the length and the data. */
  lemma ChannelShape(channel: nat, data: seq<byte>)
    requires channel < 65536 && |data| <= MAX_USER_DATA
    ensures Channel(channel, data) == Head(ChannelTpktSize(|data|), channel) + PerLength(|data|) + data
  {
    var size := ChannelTpktSize(|data|);
    TwoBytes(size);
    TwoBytes(channel);
    HeadParts(size, channel);
    Regroup([3, 0] + ToBe(size, 2), [2, 0xf0, 0x80], [0x68, 0, 1] + ToBe(channel, 2) + [0x70], PerLength(|data|), data);
    hide Head, ToBe, PerLength;
  }

  lemma HeadParts(size: nat, channel: nat)
    requires size < 65536 && channel < 65536
    ensures Head(size, channel)
         == ([3, 0] + ToBe(size, 2)) + [2, 0xf0, 0x80] + ([0x68, 0, 1] + ToBe(channel, 2) + [0x70])
  {
    TwoBytes(size);
    TwoBytes(channel);
    hide ToBe;
  }

  lemma Regroup<T>(a: seq<T>, b: seq<T>, c: seq<T>, d: seq<T>, e: seq<T>)
    ensures a + (b + (c + d + e)) == (a + b + c) + d + e
  {
  }

  method FillHead(packet: array<byte>, channel: nat)
    requires 13 <= packet.Length < 65536 && channel < 65536
    modifies packet
    ensures packet[..13] == Head(packet.Length, channel)
  {
    packet[0], packet[1] := 3, 0;
    packet[2], packet[3] := packet.Length / 256, packet.Length % 256;
    packet[4], packet[5], packet[6] := 2, 0xf0, 0x80;
    packet[7], packet[8], packet[9] := 0x68, 0, 1;
    packet[10], packet[11], packet[12] := channel / 256, channel % 256, 0x70;
  }

  method Copy(packet: array<byte>, offset: nat, src: seq<byte>) returns (next: nat)
    requires offset + |src| <= packet.Length
    modifies packet
    ensures next == offset + |src| && packet[..next] == old(packet[..offset]) + src
  {
    forall i | 0 <= i < |src| {
      packet[offset + i] := src[i];
    }
    next := offset + |src|;
  }

  /** Fills a fresh packet in place behind `dst`. */
  method AppendChannelTpkt(dst: seq<byte>, channel: nat, header: seq<byte>, payload: seq<byte>)
    returns (r: seq<byte>, ok: bool)
    requires channel < 65536
    ensures ok <==> |header| + |payload| <= MAX_USER_DATA
    ensures r == if |header| + |payload| <= MAX_USER_DATA then dst + Channel(channel, header + payload) else dst
  {
    hide Channel, Head, ToBe;
    var n := |header| + |payload|;
    if n > MAX_USER_DATA {
      return dst, false;
    }
    var packet := new byte[ChannelTpktSize(n)];
    FillHead(packet, channel);
    var offset := Copy(packet, 13, PerLength(n));
    offset := Copy(packet, offset, header);
    offset := Copy(packet, offset, payload);
    ChannelShape(channel, header + payload);
    assert packet[..] == packet[..offset];
    assert packet[..] == Head(ChannelTpktSize(n), channel) + PerLength(n) + (header + payload);
    return dst + packet[..], true;
  }

  // The writer.

  /** What is left to send, before or after the first fragment. */
  function Rest(id: byte, first: bool, data: seq<byte>): seq<seq<byte>> {
    if first then Fragments(id, data) else Later(id, data)
  }

  /** The header of the next fragment, static-channel part included. */
  function FragmentHeader(id: byte, long: bool, total: nat, size: nat): seq<byte> {
    if long then ToLe(6 + size, 4) + ToLe(3, 4) + [0x28, id] + ToLe(total, 4)
    else ToLe(2 + size, 4) + ToLe(3, 4) + [0x30, id]
  }

  /** Headers in bytes: 8 of the static channel, then data-first with a four-byte length, or data. */
  lemma FragmentBytes(id: byte, long: bool, total: nat, size: nat)
    requires size + (if long then 6 else 2) <= CHUNK
    ensures FragmentHeader(id, long, total, size)
            == if long then [(6 + size) % 256, (6 + size) / 256, 0, 0, 3, 0, 0, 0, 0x28, id] + ToLe(total, 4)
               else [(2 + size) % 256, (2 + size) / 256, 0, 0, 3, 0, 0, 0, 0x30, id]
  {
    FourBytes(3);
    FourBytes(size + if long then 6 else 2);
    hide ToLe;
  }

  /** One header and its data are one fragment through the static layer. */
  lemma RestStep(channel: nat, id: byte, first: bool, data: seq<byte>, total: nat)
    requires channel < 65536 && data != [] && (first ==> total == |data|)
    ensures var long := first && |data| > CHUNK - 2;
            var size := Min(CHUNK - (if long then 6 else 2), |data|);
            && |FragmentHeader(id, long, total, size)| + size <= MAX_USER_DATA
            && Sent(channel, Rest(id, first, data))
               == Channel(channel, FragmentHeader(id, long, total, size) + data[..size])
                  + Sent(channel, Rest(id, false, data[size..]))
  {
    hide Channel, ToLe;
    var long := first && |data| > CHUNK - 2;
    var size := Min(CHUNK - (if long then 6 else 2), |data|);
    var rest := Rest(id, first, data);
    assert rest[1..] == Later(id, data[size..]);
    if long {
      assert rest[0] == [0x28, id] + ToLe(|data|, 4) + data[..size];
    } else {
      assert rest[0] == [0x30, id] + data[..size];
    }
    assert StaticHeader(|rest[0]|) + rest[0] == FragmentHeader(id, long, total, size) + data[..size];
  }

  class Connection {
    var wire: seq<byte> // what the peer receives
    var room: nat // how much it takes before the transport fails

    /** The transport takes some of the bytes; it fails, or takes none, only when it can take no more. */
    method Write(data: seq<byte>) returns (n: nat, ok: bool)
      modifies this
      ensures n <= |data| && wire == old(wire) + data[..n] && room == old(room) - n
      ensures !ok ==> room == 0 && n < |data|
      ensures ok && n == 0 && data != [] ==> room == 0
    {
      var k: int, fails: bool := *, *;
      n := if 0 < k <= Min(|data|, room) then k else Min(|data|, room);
      ok := !(fails && n == room < |data|);
      wire := wire + data[..n];
      room := room - n;
    }

    /** Writes everything, however the transport cuts it, or fails after a part. */
    method WriteFull(data: seq<byte>) returns (ok: bool)
      modifies this
      ensures ok <==> |data| <= old(room)
      ensures wire == old(wire) + data[..Min(|data|, old(room))] && room == old(room) - Min(|data|, old(room))
    {
      ghost var done := 0;
      var rest := data;
      assert data[..0] == [] && data[0..] == data;
      while rest != []
        invariant done <= |data| && rest == data[done..]
        invariant done <= old(room) && room == old(room) - done && wire == old(wire) + data[..done]
        decreases |rest|
      {
        var n;
        n, ok := Write(rest);
        assert data[..done] + rest[..n] == data[..done + n];
        if !ok || n == 0 {
          return false;
        }
        done, rest := done + n, rest[n..];
      }
      assert data[..|data|] == data;
      return true;
    }

    /** Writes a batch of whole packets. */
    method WriteWire(data: seq<byte>) returns (ok: bool)
      modifies this
      ensures ok <==> |data| <= old(room)
      ensures wire == old(wire) + data[..Min(|data|, old(room))] && room == old(room) - Min(|data|, old(room))
    {
      ok := WriteFull(data);
    }

    /**
     Sends a message over a dynamic channel in batches of whole packets.  The peer receives exactly
     what sending each fragment by itself would have sent, or a prefix of it if the transport fails.
     */
    method WriteDynamic(channel: nat, id: byte, message: seq<byte>) returns (ok: bool)
      requires channel < 65536
      modifies this
      ensures var all := Sent(channel, Fragments(id, message));
              (ok <==> |all| <= old(room)) && wire == old(wire) + all[..Min(|all|, old(room))]
    {
      hide Channel, Sent, Fragments, Later, Parts, FragmentHeader;
      ghost var all := Sent(channel, Fragments(id, message));
      ghost var sent: seq<byte> := [];
      var data, first, batch := message, true, [];
      PartsStart(all);
      while data != []
        invariant first ==> data == message
        invariant Parts(all, sent, batch, Sent(channel, Rest(id, first, data)))
        invariant wire == old(wire) + sent && room == old(room) - |sent|
        decreases |data|
      {
        var long := first && |data| > CHUNK - 2;
        var size := Min(CHUNK - (if long then 6 else 2), |data|);
        RestStep(channel, id, first, data, |message|);
        var header := FragmentHeader(id, long, |message|, size);
        if batch != [] && |batch| + ChannelTpktSize(|header| + size) > BATCH {
          PartSent(old(wire), all, sent, batch, Sent(channel, Rest(id, first, data)), old(room));
          ok := WriteWire(batch);
          if !ok {
            return;
          }
          sent, batch := sent + batch, [];
        }
        ghost var packet := Channel(channel, header + data[..size]);
        PartsAppend(all, sent, batch, packet, Sent(channel, Rest(id, false, data[size..])));
        batch, ok := AppendChannelTpkt(batch, channel, header, data[..size]);
        data, first := data[size..], false;
      }
      NothingLeft(channel, id, first);
      PartSent(old(wire), all, sent, batch, [], old(room));
      if batch == [] {
        return true;
      }
      ok := WriteWire(batch);
    }
  }

  lemma NothingLeft(channel: nat, id: byte, first: bool)
    requires channel < 65536
    ensures Sent(channel, Rest(id, first, [])) == []
  {
  }

  /** What was written, what is in the batch and what is left make up the whole. */
  ghost predicate Parts(all: seq<byte>, sent: seq<byte>, batch: seq<byte>, rest: seq<byte>) {
    all == sent + batch + rest
  }

  lemma PartsStart(all: seq<byte>)
    ensures Parts(all, [], [], all)
  {
    assert all == [] + [] + all;
  }

  lemma PartsAppend(all: seq<byte>, sent: seq<byte>, batch: seq<byte>, p: seq<byte>, rest: seq<byte>)
    requires Parts(all, sent, batch, p + rest)
    ensures Parts(all, sent, batch + p, rest)
  {
    assert sent + batch + (p + rest) == sent + (batch + p) + rest;
  }

  /** What the peer has when the batch went out, and when only part of it did. */
  lemma PartSent(wire: seq<byte>, all: seq<byte>, sent: seq<byte>, batch: seq<byte>, rest: seq<byte>, room: nat)
    requires Parts(all, sent, batch, rest) && |sent| <= room
    ensures |batch| > room - |sent| ==> |all| > room && wire + sent + batch[..room - |sent|] == wire + all[..room]
    ensures |batch| <= room - |sent| ==>
      Parts(all, sent + batch, [], rest) && wire + sent + batch[..|batch|] == wire + (sent + batch)
    ensures rest == [] ==> all == sent + batch && all[..|all|] == all && |all| == |sent| + |batch|
    ensures batch == [] && rest == [] ==> all == sent
  {
    assert sent + batch + rest == (sent + batch) + [] + rest;
    if |batch| > room - |sent| {
      assert all[..room] == sent + batch[..room - |sent|];
    }
  }
}
