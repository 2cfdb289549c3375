/** Reassembling channel messages from fragments. */
module Reassembly {
  import opened Arith
  import opened Bytes
  import opened Collections
  import opened Wire

  const MAX_INCOMING: nat := 0x10_0000

  /** A message under construction; `total` is zero when there is none. */
  datatype Buffer = Buffer(total: nat, data: seq<byte>) {
    ghost predicate Valid() {
      total <= MAX_INCOMING && if total == 0 then data == [] else |data| < total
    }

    function First(size: nat, d: seq<byte>): (Buffer, Received) {
      if total != 0 || size == 0 || size > MAX_INCOMING || |d| > size then (this, Broken)
      else if |d| == size then (this, Message(d))
      else (Buffer(size, d), More)
    }

    function Next(d: seq<byte>): (Buffer, Received) {
      if total == 0 then
        if d == [] || |d| > MAX_INCOMING then (this, Broken) else (this, Message(d))
      else if d == [] || |data| + |d| > total then (this, Broken)
      else if |data| + |d| != total then (this.(data := data + d), More)
      else (EMPTY, Message(data + d))
    }

    /** A static-channel chunk: total length, flags (1 first, 2 last) and data. */
    function Static(p: seq<byte>): (Buffer, Received) {
      if |p| < 8 then (this, Broken)
      else
        var size, flags := FromLe(p[..4]), FromLe(p[4..8]);
        if flags / 0x1_0000 % 256 != 0 then (this, Broken)
        else if flags % 2 == 0 && (total == 0 || size != total) then (this, Broken)
        else
          var (b, r) := if flags % 2 != 0 then First(size, p[8..]) else Next(p[8..]);
          if !r.Broken? && r.Message? != (flags / 2 % 2 != 0) then (b, Broken) else (b, r)
    }

    /** A dynamic-channel data PDU for channel `id`. */
    function Dynamic(id: byte, m: seq<byte>): (Buffer, Received) {
      if m == [] then (this, Broken)
      else
        var command, code, length := m[0] / 16, m[0] % 4, m[0] / 4 % 4;
        match ReadInteger(m[1..], code)
        case None => (this, Broken)
        case Some((channel, payload)) =>
          if channel != id || (command != 2 && command != 3) then (this, Other)
          else if command == 3 then Next(payload)
          else
            match ReadInteger(payload, length)
            case None => (this, Broken)
            case Some((size, d)) => First(size, d)
    }
  }

  const EMPTY: Buffer := Buffer(0, [])

  datatype Received = Broken | More | Other | Message(bytes: seq<byte>)

  function ReadInteger(d: seq<byte>, code: nat): Option<(nat, seq<byte>)> {
    if code > 2 || |d| < (if code == 0 then 1 else if code == 1 then 2 else 4) then None
    else if code == 0 then Some((d[0], d[1..]))
    else if code == 1 then Some((FromLe(d[..2]), d[2..]))
    else Some((FromLe(d[..4]), d[4..]))
  }

  /** The reader's buffer, changed in place; its value is the buffer described above. */
  class FragmentBuffer {
    var total: nat
    var data: seq<byte>

    ghost function Value(): Buffer
      reads this
    {
      Buffer(total, data)
    }

    constructor ()
      ensures Value() == EMPTY
    {
      total, data := 0, [];
    }

    method First(size: nat, d: seq<byte>) returns (r: Received)
      modifies this
      ensures (Value(), r) == old(Value()).First(size, d)
    {
      if total != 0 || size == 0 || size > MAX_INCOMING || |d| > size {
        return Broken;
      }
      if |d| == size {
        return Message(d);
      }
      total, data := size, d;
      return More;
    }

    method Next(d: seq<byte>) returns (r: Received)
      modifies this
      ensures (Value(), r) == old(Value()).Next(d)
    {
      if total == 0 {
        if d == [] || |d| > MAX_INCOMING {
          return Broken;
        }
        return Message(d);
      }
      if d == [] || |data| + |d| > total {
        return Broken;
      }
      data := data + d;
      if |data| != total {
        return More;
      }
      r := Message(data);
      data, total := [], 0;
    }

    method Static(p: seq<byte>) returns (r: Received)
      modifies this
      ensures (Value(), r) == old(Value()).Static(p)
    {
      if |p| < 8 {
        return Broken;
      }
      var size, flags := FromLe(p[..4]), FromLe(p[4..8]);
      if flags / 0x1_0000 % 256 != 0 {
        return Broken;
      }
      if flags % 2 != 0 {
        r := First(size, p[8..]);
      } else {
        if total == 0 || size != total {
          return Broken;
        }
        r := Next(p[8..]);
      }
      if !r.Broken? && r.Message? != (flags / 2 % 2 != 0) {
        r := Broken;
      }
    }
  }

  /** The static channel's buffer and the dynamic channel's own. */
  datatype Reader = Reader(chunks: Buffer, channel: Buffer)

  const IDLE := Reader(EMPTY, EMPTY)

  /** One packet of the static channel that carries dynamic channel `id`. */
  function Read(r: Reader, id: byte, packet: seq<byte>): (Reader, Received) {
    var (b, m) := r.chunks.Static(packet);
    if !m.Message? then (r.(chunks := b), m)
    else
      var (c, n) := r.channel.Dynamic(id, m.bytes);
      (Reader(b, c), n)
  }

  /** The messages delivered while reading any packets; `false` after an error. */
  function ReadPackets(r: Reader, id: byte, packets: seq<seq<byte>>): (Reader, seq<seq<byte>>, bool)
    decreases |packets|
  {
    if packets == [] then (r, [], true)
    else
      var (r', got) := Read(r, id, packets[0]);
      if got.Broken? then (r', [], false)
      else
        var (end, messages, ok) := ReadPackets(r', id, packets[1..]);
        (end, (if got.Message? then [got.bytes] else []) + messages, ok)
  }

  /** Each fragment in a packet of its own. */
  function Packets(fragments: seq<seq<byte>>): (r: seq<seq<byte>>)
    ensures |r| == |fragments|
  {
    seq(|fragments|, k requires 0 <= k < |fragments| => StaticHeader(|fragments[k]|) + fragments[k])
  }

  function ReadAll(r: Reader, id: byte, fragments: seq<seq<byte>>): (Reader, seq<seq<byte>>, bool) {
    ReadPackets(r, id, Packets(fragments))
  }

  // Static chunks as a peer sends them.

  /** A chunk of a message of `size` bytes. */
  function Chunk(size: nat, flags: nat, d: seq<byte>): seq<byte> { ToLe(size, 4) + ToLe(flags, 4) + d }

  /** Which chunks are refused, whatever the buffer holds. */
  lemma ChunkRefused(b: Buffer, size: nat, flags: nat, d: seq<byte>)
    requires size < 0x1_0000_0000 && flags < 0x1_0000_0000
    ensures b.Static(Chunk(size, flags, d)).1.Broken? <==>
      || flags / 0x1_0000 % 256 != 0
      || if flags % 2 == 1
         then b.total != 0 || size == 0 || size > 0x10_0000 || |d| > size || (|d| == size) != (flags % 4 >= 2)
         else || b.total == 0 || size != b.total || d == [] || |b.data| + |d| > size
              || (|b.data| + |d| == size) != (flags % 4 >= 2)
  {
    ChunkFields(size, flags, d);
    hide FromLe, ToLe;
  }

  lemma ChunkFields(size: nat, flags: nat, d: seq<byte>)
    requires size < 0x1_0000_0000 && flags < 0x1_0000_0000
    ensures var p := Chunk(size, flags, d);
            |p| >= 8 && FromLe(p[..4]) == size && FromLe(p[4..8]) == flags && p[8..] == d
  {
    var p := Chunk(size, flags, d);
    Pow256Values();
    FromToLe(size, 4);
    FromToLe(flags, 4);
    hide FromLe, ToLe;
    assert p[..4] == ToLe(size, 4) && p[4..8] == ToLe(flags, 4) && p[8..] == d;
  }

  /** The buffer after a run of chunks, and what each of them gave. */
  function Feed(b: Buffer, chunks: seq<seq<byte>>): (r: (Buffer, seq<Received>))
    ensures |r.1| == |chunks|
  {
    if chunks == [] then (b, [])
    else
      var (mid, before) := Feed(b, chunks[..|chunks| - 1]);
      var (end, last) := mid.Static(chunks[|chunks| - 1]);
      (end, before + [last])
  }

  /** What the chunks before the last give. */
  function Waiting(n: nat): (r: seq<Received>)
    ensures |r| == n && forall k :: 0 <= k < n ==> r[k] == More
  {
    seq(n, _ => More)
  }

  function Concat(parts: seq<seq<byte>>): (r: seq<byte>)
    ensures (forall k :: 0 <= k < |parts| ==> parts[k] != []) && parts != [] ==> r != []
  {
    if parts == [] then [] else Concat(parts[..|parts| - 1]) + parts[|parts| - 1]
  }

  /** The first `n` chunks of a message of `size` bytes that is cut into `parts`: the first and the last are marked. */
  function Chunks(size: nat, parts: seq<seq<byte>>, n: nat): seq<seq<byte>>
    requires n <= |parts|
  {
    seq(n, k requires 0 <= k < n =>
      Chunk(size, (if k == 0 then 1 else 0) + (if k == |parts| - 1 then 2 else 0), parts[k]))
  }

  lemma {:induction false} ConcatPrefix(parts: seq<seq<byte>>, n: nat)
    requires n <= |parts|
    ensures Concat(parts[..n]) <= Concat(parts)
    decreases |parts|
  {
    if n < |parts| {
      var front := parts[..|parts| - 1];
      ConcatPrefix(front, n);
      assert front[..n] == parts[..n];
    } else {
      assert parts[..n] == parts;
    }
  }

  lemma FeedMore(b: Buffer, chunks: seq<seq<byte>>, c: seq<byte>)
    ensures var (mid, before) := Feed(b, chunks);
            var (end, last) := mid.Static(c);
            Feed(b, chunks + [c]) == (end, before + [last])
  {
    hide Buffer.Static;
    assert (chunks + [c])[..|chunks|] == chunks;
  }

  /** One chunk of a message, marked as it should be. */
  lemma ChunkTaken(size: nat, done: seq<byte>, d: seq<byte>, flags: nat)
    requires d != [] && |done| + |d| <= size <= MAX_INCOMING
    requires flags == (if done == [] then 1 else 0) + (if |done| + |d| == size then 2 else 0)
    ensures (if done == [] then EMPTY else Buffer(size, done)).Static(Chunk(size, flags, d))
            == if |done| + |d| == size then (EMPTY, Message(done + d)) else (Buffer(size, done + d), More)
  {
    ChunkFields(size, flags, d);
    hide FromLe, Chunk;
    assert done == [] ==> done + d == d;
  }

  /** The chunks up to the `n`-th leave their bytes in the buffer, and the last delivers them. */
  lemma {:induction false} ChunksCollect(message: seq<byte>, parts: seq<seq<byte>>, n: nat)
    requires |message| <= MAX_INCOMING && Concat(parts) == message && 0 < n <= |parts|
    requires forall k :: 0 <= k < |parts| ==> parts[k] != []
    ensures Feed(EMPTY, Chunks(|message|, parts, n)) ==
      if n < |parts| then (Buffer(|message|, Concat(parts[..n])), Waiting(n))
      else (EMPTY, Waiting(n - 1) + [Message(message)])
    decreases n
  {
    var cs, before := Chunks(|message|, parts, n), Chunks(|message|, parts, n - 1);
    assert cs == before + [cs[n - 1]];
    FeedMore(EMPTY, before, cs[n - 1]);
    PrefixStep(parts, n);
    if n > 1 {
      ChunksCollect(message, parts, n - 1);
    }
    var flags := (if n == 1 then 1 else 0) + (if n == |parts| then 2 else 0);
    assert cs[n - 1] == Chunk(|message|, flags, parts[n - 1]);
    var done := Concat(parts[..n - 1]);
    ChunkTaken(|message|, done, parts[n - 1], flags);
    assert Waiting(n - 1) + [More] == Waiting(n) && Waiting(0) == [];
    hide Buffer.Static, Chunk, Chunks, Concat, Waiting;
    assert Feed(EMPTY, before) == (if done == [] then EMPTY else Buffer(|message|, done), Waiting(n - 1));
    hide Feed;
  }

  lemma PrefixStep(parts: seq<seq<byte>>, n: nat)
    requires 0 < n <= |parts| && forall k :: 0 <= k < |parts| ==> parts[k] != []
    ensures Concat(parts[..n]) == Concat(parts[..n - 1]) + parts[n - 1] && (Concat(parts[..n - 1]) == [] <==> n == 1)
    ensures |Concat(parts[..n])| <= |Concat(parts)|
    ensures |Concat(parts[..n])| == |Concat(parts)| <==> n == |parts|
    ensures n == |parts| ==> Concat(parts[..n]) == Concat(parts)
  {
    assert parts[..n][..n - 1] == parts[..n - 1] && parts[..|parts|] == parts;
    ConcatPrefix(parts, n);
    if n < |parts| {
      ConcatPrefix(parts, n + 1);
      assert parts[..n + 1][..n] == parts[..n];
    }
  }

  /**
   A message that any peer cuts into nonempty chunks is delivered whole with the last of them, and
   leaves the buffer empty.
   */
  lemma ChunksRestore(message: seq<byte>, parts: seq<seq<byte>>)
    requires 1 <= |message| <= MAX_INCOMING && Concat(parts) == message
    requires forall k :: 0 <= k < |parts| ==> parts[k] != []
    ensures parts != []
    ensures Feed(EMPTY, Chunks(|message|, parts, |parts|)) == (EMPTY, Waiting(|parts| - 1) + [Message(message)])
  {
    ChunksCollect(message, parts, |parts|);
  }

  /** A chunk that is first and last goes straight through the static buffer. */
  lemma StaticOnce(f: seq<byte>)
    requires 1 <= |f| <= CHUNK
    ensures EMPTY.Static(StaticHeader(|f|) + f) == (EMPTY, Message(f))
  {
    var p := StaticHeader(|f|) + f;
    Pow256Values();
    FromToLe(|f|, 4);
    FromToLe(3, 4);
    assert p[..4] == ToLe(|f|, 4) && p[4..8] == ToLe(3, 4) && p[8..] == f;
    hide FromLe, ToLe;
  }

  /** Integers of one, two and four bytes are read back, and the other codes or short ones are refused. */
  lemma IntegerRead(n: nat, code: nat, rest: seq<byte>)
    ensures n < 0x100 ==> ReadInteger([n] + rest, 0) == Some((n, rest))
    ensures n < 0x1_0000 ==> ReadInteger(ToLe(n, 2) + rest, 1) == Some((n, rest))
    ensures n < 0x1_0000_0000 ==> ReadInteger(ToLe(n, 4) + rest, 2) == Some((n, rest))
    ensures ReadInteger(rest, code).None? <==>
      code > 2 || rest == [] || (code == 1 && |rest| < 2) || (code == 2 && |rest| < 4)
  {
    Pow256Values();
    if n < 0x1_0000 {
      FromToLe(n, 2);
    }
    if n < 0x1_0000_0000 {
      FromToLe(n, 4);
    }
    hide FromLe, ToLe;
    assert (ToLe(n, 2) + rest)[..2] == ToLe(n, 2) && (ToLe(n, 2) + rest)[2..] == rest;
    assert (ToLe(n, 4) + rest)[..4] == ToLe(n, 4) && (ToLe(n, 4) + rest)[4..] == rest;
    if n < 0x100 {
      assert ([n] + rest)[1..] == rest;
    }
  }

  /** The integer `n` as a peer may write it with the given code. */
  predicate Wrote(w: seq<byte>, n: nat, code: nat) {
    (n < 0x100 && code == 0 && w == [n])
    || (n < 0x1_0000 && code == 1 && w == ToLe(n, 2))
    || (n < 0x1_0000_0000 && code == 2 && w == ToLe(n, 4))
  }

  /**
   A peer's PDU with the channel in any of the three widths: data goes on with the message, data-first,
   with the length in any of the three widths, begins one, and neither data for another channel nor
   another command touches it.
   */
  lemma PeerPdu(b: Buffer, id: byte, command: nat, length: nat, code: nat, channel: nat, w: seq<byte>, size: nat,
                l: seq<byte>, d: seq<byte>)
    requires command < 16 && length < 4 && code < 4
    requires Wrote(w, channel, code) && Wrote(l, size, length)
    ensures channel != id || command !in {2, 3} ==>
      b.Dynamic(id, [16 * command + 4 * length + code] + w + d) == (b, Other)
    ensures channel == id && command == 3 ==> b.Dynamic(id, [16 * command + 4 * length + code] + w + d) == b.Next(d)
    ensures channel == id && command == 2 ==>
      b.Dynamic(id, [16 * command + 4 * length + code] + w + (l + d)) == b.First(size, d)
  {
    IntegerRead(channel, code, d);
    IntegerRead(channel, code, l + d);
    IntegerRead(size, length, d);
    hide ReadInteger, ToLe, FromLe, Buffer.First, Buffer.Next;
    var h: byte := 16 * command + 4 * length + code;
    assert h / 16 == command && h % 4 == code && h / 4 % 4 == length;
    assert ([h] + w + d)[1..] == w + d && ([h] + w + (l + d))[1..] == w + (l + d);
  }

  lemma DataPdu(b: Buffer, id: byte, d: seq<byte>)
    ensures b.Dynamic(id, [0x30, id] + d) == b.Next(d)
  {
    var m := [0x30, id] + d;
    assert m[1..] == [id] + d;
    assert ([id] + d)[1..] == d;
  }

  lemma DataFirstPdu(b: Buffer, id: byte, size: nat, d: seq<byte>)
    requires size < 0x1_0000_0000
    ensures b.Dynamic(id, [0x28, id] + ToLe(size, 4) + d) == b.First(size, d)
  {
    var m := [0x28, id] + ToLe(size, 4) + d;
    var payload := ToLe(size, 4) + d;
    assert m[1..] == [id] + payload;
    assert ([id] + payload)[1..] == payload;
    Pow256Values();
    FromToLe(size, 4);
    assert payload[..4] == ToLe(size, 4) && payload[4..] == d;
    hide FromLe, ToLe;
  }

  /** Reading one fragment from an idle static channel, then the rest. */
  lemma ReadOne(b: Buffer, id: byte, f: seq<byte>, rest: seq<seq<byte>>, c: Buffer, got: Received)
    requires 1 <= |f| <= CHUNK && b.Dynamic(id, f) == (c, got) && !got.Broken?
    ensures var (end, messages, ok) := ReadAll(Reader(EMPTY, c), id, rest);
            ReadAll(Reader(EMPTY, b), id, [f] + rest)
            == (end, (if got.Message? then [got.bytes] else []) + messages, ok)
  {
    StaticOnce(f);
    hide Buffer.Static, Buffer.Dynamic;
    var packets := Packets([f] + rest);
    assert packets[0] == StaticHeader(|f|) + f && packets[1..] == Packets(rest);
    assert Read(Reader(EMPTY, b), id, StaticHeader(|f|) + f) == (Reader(EMPTY, c), got);
  }

  /** The later fragments complete a message begun with `done` bytes. */
  lemma {:induction false} LaterRestores(id: byte, message: seq<byte>, done: nat)
    requires 0 < done < |message| <= MAX_INCOMING
    ensures ReadAll(Reader(EMPTY, Buffer(|message|, message[..done])), id, Later(id, message[done..]))
            == (IDLE, [message], true)
    decreases |message| - done
  {
    hide Buffer.Static, Buffer.Dynamic, ReadAll;
    var data := message[done..];
    var size := Min(CHUNK - 2, |data|);
    var b := Buffer(|message|, message[..done]);
    assert message[..done] + data[..size] == message[..done + size];
    assert data[size..] == message[done + size..];
    DataPdu(b, id, data[..size]);
    var (c, got) := b.Next(data[..size]);
    ReadOne(b, id, [0x30, id] + data[..size], Later(id, data[size..]), c, got);
    if done + size < |message| {
      LaterRestores(id, message, done + size);
      assert [] + [message] == [message];
    } else {
      ReadNone(IDLE, id);
      assert message[..done + size] == message && Later(id, data[size..]) == [];
      assert [message] + [] == [message];
    }
  }

  lemma ReadNone(r: Reader, id: byte)
    ensures ReadAll(r, id, []) == (r, [], true)
  {
  }

  /** Reading the fragments of a message delivers that message and leaves the buffers empty. */
  lemma FragmentsRestore(id: byte, message: seq<byte>)
    requires 1 <= |message| <= MAX_INCOMING
    ensures ReadAll(IDLE, id, Fragments(id, message)) == (IDLE, [message], true)
  {
    hide Buffer.Static, Buffer.Dynamic, ReadAll;
    ReadNone(IDLE, id);
    if |message| <= CHUNK - 2 {
      assert message[..|message|] == message && message[|message|..] == [];
      DataPdu(EMPTY, id, message);
      ReadOne(EMPTY, id, [0x30, id] + message, [], EMPTY, Message(message));
      assert Fragments(id, message) == [[0x30, id] + message] + Later(id, []);
      assert [message] + [] == [message];
    } else {
      var d := message[..CHUNK - 6];
      DataFirstPdu(EMPTY, id, |message|, d);
      var rest := Later(id, message[CHUNK - 6..]);
      ReadOne(EMPTY, id, [0x28, id] + ToLe(|message|, 4) + d, rest, Buffer(|message|, d), More);
      LaterRestores(id, message, CHUNK - 6);
      assert [] + [message] == [message];
    }
  }

  /** Whatever it is fed, a reader delivers no empty message and none over the limit, and its buffers stay bounded. */
  lemma {:induction false} DeliveredBounds(r: Reader, id: byte, packets: seq<seq<byte>>)
    requires r.chunks.Valid() && r.channel.Valid()
    ensures forall m :: m in ReadPackets(r, id, packets).1 ==> 1 <= |m| <= MAX_INCOMING
    ensures ReadPackets(r, id, packets).0.chunks.Valid() && ReadPackets(r, id, packets).0.channel.Valid()
    decreases |packets|
  {
    if packets != [] {
      StaticKeeps(r.chunks, packets[0]);
      var (b, m) := r.chunks.Static(packets[0]);
      if m.Message? {
        DynamicKeeps(r.channel, id, m.bytes);
      }
      hide Buffer.Static, Buffer.Dynamic;
      DeliveredBounds(Read(r, id, packets[0]).0, id, packets[1..]);
    }
  }

  lemma StepKeeps(b: Buffer, size: nat, d: seq<byte>)
    requires b.Valid()
    ensures b.First(size, d).0.Valid() && b.Next(d).0.Valid()
    ensures b.First(size, d).1.Message? ==> 1 <= |b.First(size, d).1.bytes| <= MAX_INCOMING
    ensures b.Next(d).1.Message? ==> 1 <= |b.Next(d).1.bytes| <= MAX_INCOMING
  {
  }

  lemma StaticKeeps(b: Buffer, p: seq<byte>)
    requires b.Valid()
    ensures b.Static(p).0.Valid()
  {
    if |p| >= 8 {
      StepKeeps(b, FromLe(p[..4]), p[8..]);
    }
    hide Buffer.First, Buffer.Next, Buffer.Valid, FromLe;
  }

  lemma DynamicKeeps(b: Buffer, id: byte, m: seq<byte>)
    requires b.Valid()
    ensures b.Dynamic(id, m).0.Valid()
    ensures b.Dynamic(id, m).1.Message? ==> 1 <= |b.Dynamic(id, m).1.bytes| <= MAX_INCOMING
  {
    forall size: nat, d
      ensures b.First(size, d).0.Valid() && b.Next(d).0.Valid()
      ensures b.First(size, d).1.Message? ==> 1 <= |b.First(size, d).1.bytes| <= MAX_INCOMING
      ensures b.Next(d).1.Message? ==> 1 <= |b.Next(d).1.bytes| <= MAX_INCOMING
    {
      StepKeeps(b, size, d);
    }
    hide Buffer.First, Buffer.Next, Buffer.Valid, ReadInteger;
  }

  /** A message survives the trip exactly when it is neither empty nor over the reader's limit. */
  lemma TripIff(id: byte, message: seq<byte>)
    ensures ReadAll(IDLE, id, Fragments(id, message)) == (IDLE, [message], true) <==> 1 <= |message| <= MAX_INCOMING
  {
    if 1 <= |message| <= MAX_INCOMING {
      FragmentsRestore(id, message);
    } else {
      hide ReadPackets, Fragments;
      DeliveredBounds(IDLE, id, Packets(Fragments(id, message)));
      assert message in [message];
    }
  }

  /** Reading goes on where it stopped. */
  lemma {:induction false} ReadConcat(r: Reader, id: byte, a: seq<seq<byte>>, b: seq<seq<byte>>)
    requires ReadPackets(r, id, a).2
    ensures var (mid, first, _) := ReadPackets(r, id, a);
            var (end, second, ok) := ReadPackets(mid, id, b);
            ReadPackets(r, id, a + b) == (end, first + second, ok)
    decreases |a|
  {
    hide Read;
    if a == [] {
      assert a + b == b;
      assert [] + ReadPackets(r, id, b).1 == ReadPackets(r, id, b).1;
    } else {
      assert (a + b)[0] == a[0] && (a + b)[1..] == a[1..] + b;
      var (r', got) := Read(r, id, a[0]);
      ReadConcat(r', id, a[1..], b);
      var here := if got.Message? then [got.bytes] else [];
      var (mid, first, _) := ReadPackets(r', id, a[1..]);
      assert here + (first + ReadPackets(mid, id, b).1) == (here + first) + ReadPackets(mid, id, b).1;
    }
  }

  lemma PacketsConcat(a: seq<seq<byte>>, b: seq<seq<byte>>)
    ensures Packets(a + b) == Packets(a) + Packets(b)
  {
  }

  function AllFragments(id: byte, messages: seq<seq<byte>>): seq<seq<byte>> {
    if messages == [] then [] else Fragments(id, messages[0]) + AllFragments(id, messages[1..])
  }

  /** Messages sent one after the other arrive one after the other. */
  lemma {:induction false} StreamRestored(id: byte, messages: seq<seq<byte>>)
    requires forall i :: 0 <= i < |messages| ==> 1 <= |messages[i]| <= MAX_INCOMING
    ensures ReadAll(IDLE, id, AllFragments(id, messages)) == (IDLE, messages, true)
    decreases |messages|
  {
    if messages != [] {
      FragmentsRestore(id, messages[0]);
      StreamRestored(id, messages[1..]);
      var a, b := Fragments(id, messages[0]), AllFragments(id, messages[1..]);
      assert AllFragments(id, messages) == a + b;
      hide ReadPackets, Fragments, AllFragments, Packets;
      PacketsConcat(a, b);
      ReadConcat(IDLE, id, Packets(a), Packets(b));
      assert [messages[0]] + messages[1..] == messages;
    }
  }
}
