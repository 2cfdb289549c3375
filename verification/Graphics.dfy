/** The acknowledgment window of the graphics channel: one writer, one reader, and transport in between. */
module Graphics {
  import opened Arith

  const MAX_FRAMES: nat := 2
  const MIN_INTERVAL: nat := 16_666_666 // nanoseconds
  const MAX_INTERVAL: nat := 250_000_000

  datatype Sent = Unsent | SentAt(time: int)

  datatype Pending = Pending(id: nat, sent: Sent)

  /** Division that truncates toward zero. */
  function Quo(a: int, b: int): int
    requires b > 0
  {
    if a >= 0 then a / b else -(-a / b)
  }

  ghost function Ids(s: seq<Pending>): set<nat> { set i | 0 <= i < |s| :: s[i].id }

  /** The frames in flight: at most two, in the order they were numbered. */
  ghost predicate InOrder(s: seq<Pending>, frameId: nat) {
    && |s| <= MAX_FRAMES
    && (forall i, j :: 0 <= i < j < |s| ==> s[i].id < s[j].id)
    && (forall i :: 0 <= i < |s| ==> 1 <= s[i].id <= frameId)
  }

  lemma IdsConcat(s: seq<Pending>, t: seq<Pending>)
    ensures Ids(s + t) == Ids(s) + Ids(t)
  {
    var u := s + t;
    forall id | id in Ids(s) + Ids(t)
      ensures id in Ids(u)
    {
      if id in Ids(s) {
        var i :| 0 <= i < |s| && s[i].id == id;
        assert u[i].id == id;
      } else {
        var i :| 0 <= i < |t| && t[i].id == id;
        assert u[|s| + i].id == id;
      }
    }
  }

  lemma IdsOne(p: Pending)
    ensures Ids([p]) == {p.id}
  {
    assert [p][0].id in Ids([p]);
  }

  lemma IdsAppend(s: seq<Pending>, p: Pending)
    ensures Ids(s + [p]) == Ids(s) + {p.id}
  {
    IdsConcat(s, [p]);
    IdsOne(p);
  }

  lemma DropKeeps(s: seq<Pending>, n: nat, frameId: nat)
    requires n < |s| && InOrder(s, frameId)
    ensures InOrder(s[n + 1..], frameId) && Ids(s[n + 1..]) <= Ids(s) && s[n].id in Ids(s)
    ensures s[n].id !in Ids(s[n + 1..])
    ensures forall p :: p in s ==> (p in s[n + 1..] <==> s[n].id < p.id)
  {
    var t := s[n + 1..];
    assert forall i :: 0 <= i < |t| ==> t[i] == s[n + 1 + i];
    forall id | id in Ids(t)
      ensures id in Ids(s)
    {
      var i :| 0 <= i < |t| && t[i].id == id;
      assert s[n + 1 + i].id == id;
    }
  }

  lemma RemoveKeeps(s: seq<Pending>, n: nat, frameId: nat)
    requires n < |s| && InOrder(s, frameId)
    ensures InOrder(s[..n] + s[n + 1..], frameId)
    ensures Ids(s[..n] + s[n + 1..]) == Ids(s) - {s[n].id} && s[n].id in Ids(s)
  {
    var a, b := s[..n], s[n + 1..];
    RemoveOrder(s, n, frameId);
    assert s == a + [s[n]] + b;
    assert forall i :: 0 <= i < |b| ==> b[i] == s[n + 1 + i];
    NotInFlight(a, s[n].id);
    NotInFlight(b, s[n].id);
    hide Ids, InOrder;
    IdsConcat(a, b);
    IdsConcat(a + [s[n]], b);
    IdsConcat(a, [s[n]]);
    IdsOne(s[n]);
  }

  lemma RemoveOrder(s: seq<Pending>, n: nat, frameId: nat)
    requires n < |s| && InOrder(s, frameId)
    ensures InOrder(s[..n] + s[n + 1..], frameId)
  {
    var t := s[..n] + s[n + 1..];
    assert forall i :: 0 <= i < |t| ==> t[i] == s[if i < n then i else i + 1];
  }

  /** Stamping a frame does not change which frames are in flight. */
  lemma StampKeeps(s: seq<Pending>, n: nat, at: int, frameId: nat)
    requires n < |s| && InOrder(s, frameId)
    ensures var t := s[n := s[n].(sent := SentAt(at))]; InOrder(t, frameId) && Ids(t) == Ids(s)
  {
    var t := s[n := s[n].(sent := SentAt(at))];
    assert forall i :: 0 <= i < |s| ==> t[i].id == s[i].id;
  }

  lemma EmptyWindow(s: seq<Pending>)
    ensures s == [] ==> Ids(s) == {}
  {
  }

  lemma NotInFlight(s: seq<Pending>, id: nat)
    requires forall i :: 0 <= i < |s| ==> s[i].id != id
    ensures id !in Ids(s)
  {
  }

  // Pacing.

  datatype Pace = Pace(averageBytes: nat, turnaround: nat, interval: nat)

  /** The running average of frame sizes stays between the old average and the new size. */
  function Observed(average: nat, size: nat): (r: nat)
    ensures average == 0 ==> r == size
    ensures average > 0 ==> Min(average, size) <= r <= Max(average, size)
  {
    if average == 0 then size else (7 * average + size) / 8
  }

  /** Smooths the turnaround by an eighth of the difference. */
  function Smoothed(turnaround: nat, frame: Pending, now: int): (r: nat)
    ensures turnaround > 0 ==> r > 0
  {
    if frame.sent.SentAt? && now > frame.sent.time then
      var elapsed := now - frame.sent.time;
      if turnaround == 0 then elapsed else turnaround + Quo(elapsed - turnaround, 8)
    else turnaround
  }

  /** The interval the client's backlog and turnaround call for. */
  function Target(base: nat, turnaround: nat, depth: nat, averageBytes: nat): (r: nat)
    requires base > 0
    ensures Min(base, MAX_INTERVAL) <= r <= MAX_INTERVAL
  {
    var t := Max(base, turnaround / MAX_FRAMES);
    var t' :=
      if depth != 0 && averageBytes != 0 then
        var most := if base < MAX_INTERVAL then MAX_INTERVAL / base - 1 else 0;
        var buffered := Min((depth + averageBytes - 1) / averageBytes, most);
        Max(t, Times(base, 1 + buffered))
      else t;
    Min(t', MAX_INTERVAL)
  }

  function Times(a: nat, b: int): int { a * b }

  /**
   A measured frame moves the turnaround an eighth of the way to its own, to the nanosecond, or sets it;
   one that is acknowledged before its write has ended measures nothing.
   */
  lemma SmoothedEighth(turnaround: nat, frame: Pending, now: int)
    ensures frame.sent.SentAt? && now > frame.sent.time ==>
      var moved, gap := Smoothed(turnaround, frame, now) - turnaround, now - frame.sent.time - turnaround;
      if turnaround == 0 then moved == gap
      else if gap >= 0 then 8 * moved <= gap < 8 * moved + 8 else 8 * moved - 8 < gap <= 8 * moved
    ensures frame.sent.Unsent? || now <= frame.sent.time ==> Smoothed(turnaround, frame, now) == turnaround
  {
  }

  /** So does a frame's size move the average, rounded down. */
  lemma ObservedEighth(average: nat, size: nat)
    requires average > 0
    ensures 0 <= (size - average) - 8 * (Observed(average, size) - average) < 8
  {
  }

  /**
   A backlog of up to `n` average frames asks for `n` intervals more than the shortest, as long as that is
   no more than the longest, and for the most of them that is no more than the longest otherwise.
   */
  lemma BacklogSlows(base: nat, turnaround: nat, depth: nat, average: nat, n: nat)
    requires base > 0 && n > 0 && average * (n - 1) < depth <= average * n
    ensures var t := Target(base, turnaround, depth, average);
      if base * (1 + n) <= 250_000_000 then t == Min(Max(turnaround / 2, base * (1 + n)), 250_000_000)
      else 250_000_000 - base < t <= 250_000_000
    ensures Target(base, turnaround, 0, average) == Min(Max(turnaround / 2, base), 250_000_000)
  {
    Quotient(depth + average - 1, average, n, depth - average * (n - 1) - 1);
    MostIntervals(base, n);
    assert Times(base, 1 + n) == base * (1 + n);
    hide Times;
  }

  /** How many intervals fit the longest. */
  lemma MostIntervals(base: nat, n: nat)
    requires base > 0 && n > 0
    ensures var q := MAX_INTERVAL / base;
      && (Times(base, 1 + n) <= MAX_INTERVAL <==> n < q)
      && (Times(base, 1 + n) <= MAX_INTERVAL ==> base < MAX_INTERVAL && base <= Times(base, 1 + n))
      && (base < MAX_INTERVAL ==> MAX_INTERVAL - base < Times(base, q) <= MAX_INTERVAL && base <= Times(base, q))
  {
    var q, r := MAX_INTERVAL / base, MAX_INTERVAL % base;
    var whole, part := base * q, base * n;
    assert MAX_INTERVAL == whole + r;
    assert base * (1 + n) == base + part;
    MulStep(base, n, 0);
    if n < q {
      MulStep(base, q, n);
    } else if q < n {
      MulStep(base, n, q);
    }
    if q > 0 {
      MulStep(base, q, 0);
    }
  }

  /** A slower target is taken at once, a faster one by steps. */
  function Adapted(base: nat, interval: nat, target: nat): (r: nat)
    requires base > 0
    ensures var current := Max(interval, base);
            && (target >= current ==> r == target)
            && (target < current ==> target <= r <= Max(target, current - base / 4))
            && (target < current && base >= 4 ==> r < current)
            && (target < current ==> 4 * (current - r) <= Max(base, current - target))
            && (target < current ==> r == target || 4 * (current - r + 1) > Max(base, current - target))
  {
    var current := Max(interval, base);
    if target >= current then target
    else Max(target, current - Max(base / 4, (current - target) / 4))
  }

  /** The pace after frame `frame` was acknowledged. */
  function Paced(pace: Pace, base: nat, depth: nat, frame: Pending, now: int): Pace {
    var b := if base == 0 then MIN_INTERVAL else base;
    var t := Smoothed(pace.turnaround, frame, now);
    Pace(pace.averageBytes, t, Adapted(b, pace.interval, Target(b, t, depth, pace.averageBytes)))
  }

  // Negotiation.

  /** What the client may send; `works` tells whether the reply could be written. */
  datatype Pdu =
    | Advertise(supported: bool, works: bool)
    | Suspension
    | Ack(id: nat, depth: nat)
    | CacheOffer(works: bool)
    | Quality
    | Bad // malformed or unknown

  datatype Negotiation = Negotiation(ready: bool, closed: bool, ok: bool)

  /** One message unit; an advertisement without a supported version closes the channel. */
  function Advanced(n: Negotiation, p: Pdu): Negotiation {
    match p
    case Advertise(supported, works) =>
      if n.ready then n.(ok := false)
      else if !supported then Negotiation(false, true, works)
      else Negotiation(works, n.closed, works)
    case Suspension => n.(ok := n.ready)
    case Ack(_, _) => n.(ok := n.ready)
    case CacheOffer(works) => n.(ok := works)
    case Quality => n
    case Bad => n.(ok := false)
  }

  /** A message is read unit by unit up to the first error; closing takes effect with the next message. */
  function Negotiated(n: Negotiation, pdus: seq<Pdu>): Negotiation
    decreases |pdus|
  {
    if pdus == [] || !n.ok then n else Negotiated(Advanced(n, pdus[0]), pdus[1..])
  }

  /** A unit that is answered and leaves a channel that is not ready as it is, or closed. */
  predicate Harmless(p: Pdu) { p == Advertise(false, true) || p == CacheOffer(true) || p.Quality? }

  /** Unit `j` makes the channel ready. */
  ghost predicate Opens(pdus: seq<Pdu>, j: int) {
    0 <= j < |pdus| && pdus[j] == Advertise(true, true) && forall k :: 0 <= k < j ==> Harmless(pdus[k])
  }

  /** An advertisement before unit `j` was turned down. */
  ghost predicate TurnedDown(pdus: seq<Pdu>, j: int) { exists i :: 0 <= i < j <= |pdus| && pdus[i].Advertise? }

  lemma {:induction false} ReadyStays(n: Negotiation, pdus: seq<Pdu>)
    requires n.ready
    ensures Negotiated(n, pdus).ready && Negotiated(n, pdus).closed == n.closed
    decreases |pdus|
  {
    if pdus != [] && n.ok {
      ReadyStays(Advanced(n, pdus[0]), pdus[1..]);
    }
  }

  /**
   A message makes the channel ready exactly if a supported, answered advertisement follows harmless
   units only; the channel is then closed as well exactly if it was turned down before.
   */
  lemma {:induction false} ReadyIff(closed: bool, pdus: seq<Pdu>)
    ensures var n := Negotiated(Negotiation(false, closed, true), pdus);
      && (n.ready <==> exists j :: Opens(pdus, j))
      && (n.ready && n.closed <==> exists j :: Opens(pdus, j) && (closed || TurnedDown(pdus, j)))
    decreases |pdus|
  {
    var n := Negotiation(false, closed, true);
    if pdus == [] {
    } else if pdus[0] == Advertise(true, true) {
      assert Opens(pdus, 0) && !TurnedDown(pdus, 0);
      assert forall j :: Opens(pdus, j) ==> j == 0;
      ReadyStays(Advanced(n, pdus[0]), pdus[1..]);
    } else if Harmless(pdus[0]) {
      var next := Advanced(n, pdus[0]);
      ReadyIff(next.closed, pdus[1..]);
      forall j
        ensures Opens(pdus, j) <==> Opens(pdus[1..], j - 1)
        ensures Opens(pdus, j) ==> (closed || TurnedDown(pdus, j) <==> next.closed || TurnedDown(pdus[1..], j - 1))
      {
        OpensLater(closed, pdus, j);
      }
      Shifted(pdus, next.closed, closed);
    } else {
      assert forall j :: !Opens(pdus, j);
    }
  }

  lemma OpensLater(closed: bool, pdus: seq<Pdu>, j: int)
    requires pdus != [] && Harmless(pdus[0])
    ensures Opens(pdus, j) <==> Opens(pdus[1..], j - 1)
    ensures Opens(pdus, j) ==>
      (closed || TurnedDown(pdus, j) <==> closed || pdus[0].Advertise? || TurnedDown(pdus[1..], j - 1))
  {
    var rest := pdus[1..];
    assert forall k :: 0 < k < |pdus| ==> rest[k - 1] == pdus[k];
    if Opens(rest, j - 1) {
      forall k | 0 <= k < j
        ensures Harmless(pdus[k])
      {
        assert k > 0 ==> Harmless(rest[k - 1]);
      }
    }
    if Opens(pdus, j) {
      assert forall k :: 0 <= k < j - 1 ==> Harmless(rest[k]) by {
        assert forall k :: 0 <= k < j - 1 ==> rest[k] == pdus[k + 1];
      }
      if TurnedDown(pdus, j) && !pdus[0].Advertise? {
        var i :| 0 <= i < j && pdus[i].Advertise?;
        assert rest[i - 1].Advertise?;
      }
      if TurnedDown(rest, j - 1) {
        var i :| 0 <= i < j - 1 && rest[i].Advertise?;
        assert pdus[i + 1].Advertise?;
      }
    }
  }

  lemma Shifted(pdus: seq<Pdu>, later: bool, closed: bool)
    requires pdus != []
    requires forall j :: Opens(pdus, j) <==> Opens(pdus[1..], j - 1)
    requires forall j :: Opens(pdus, j) ==> (closed || TurnedDown(pdus, j) <==> later || TurnedDown(pdus[1..], j - 1))
    ensures (exists j :: Opens(pdus, j)) <==> exists j :: Opens(pdus[1..], j)
    ensures (exists j :: Opens(pdus, j) && (closed || TurnedDown(pdus, j)))
            <==> exists j :: Opens(pdus[1..], j) && (later || TurnedDown(pdus[1..], j))
  {
    hide Opens, TurnedDown;
    forall j | Opens(pdus[1..], j)
      ensures Opens(pdus, j + 1)
    {
      assert Opens(pdus, j + 1) <==> Opens(pdus[1..], j + 1 - 1);
    }
    forall j | Opens(pdus[1..], j) && (later || TurnedDown(pdus[1..], j))
      ensures Opens(pdus, j + 1) && (closed || TurnedDown(pdus, j + 1))
    {
      assert Opens(pdus, j + 1) <==> Opens(pdus[1..], j + 1 - 1);
    }
  }

  /** One message can leave the channel closed and still ready to send. */
  lemma ReadyThoughClosed()
    ensures Negotiated(Negotiation(false, false, true), [Advertise(false, true), Advertise(true, true)])
            == Negotiation(true, true, true)
  {
    var pdus := [Advertise(false, true), Advertise(true, true)];
    assert pdus[1..] == [Advertise(true, true)];
    assert Negotiated(Negotiation(false, true, true), pdus[1..]) == Negotiated(Negotiation(true, true, true), []);
  }

  class Window {
    var generation: nat
    var ready: bool
    var closed: bool
    var ackOff: bool
    var frameId: nat
    var inFlight: seq<Pending>
    var pace: Pace
    var base: nat
    var subscribed: bool
    var changed: bool // the wake-up waiting in the channel
    ghost var tracked: set<nat> // every frame ever put in flight
    ghost var retired: set<nat> // those that left it
    ghost var waiting: bool // the writer saw that it cannot send and has not been woken since

    constructor ()
      ensures Valid() && !ready && inFlight == []
    {
      generation, ready, closed, ackOff, frameId, inFlight := 0, false, false, false, 0, [];
      pace, base, subscribed, changed := Pace(0, 0, 0), 0, false, false;
      tracked, retired, waiting := {}, {}, false;
    }

    predicate CanSend()
      reads this
    {
      ready && (ackOff || |inFlight| < MAX_FRAMES)
    }

    /**
     Frames in flight are numbered upwards and at most two, no frame is both in flight and retired,
     none is lost, and a waiting writer that could send has a wake-up coming.
     */
    ghost predicate Valid()
      reads this
    {
      && InOrder(inFlight, frameId)
      && tracked == Ids(inFlight) + retired && Ids(inFlight) !! retired
      && (forall id :: id in tracked ==> id <= frameId)
      && (waiting ==> subscribed && (CanSend() ==> changed))
    }

    method Notify()
      modifies `changed
      ensures changed == (old(changed) || subscribed)
    {
      if subscribed {
        changed := true;
      }
    }

    /** The writer asks for wake-ups. */
    method Subscribe()
      requires Valid()
      modifies `subscribed
      ensures Valid() && subscribed
    {
      subscribed := true;
    }

    /** The subscribed writer looks whether it may send, and waits if not. */
    method Check() returns (ok: bool)
      requires Valid() && subscribed
      modifies `waiting
      ensures Valid() && (ok <==> ready && (ackOff || |inFlight| < 2)) && waiting == !ok
    {
      ok := CanSend();
      waiting := !ok;
    }

    /** The waiting writer takes the wake-up. */
    method Wake()
      requires Valid() && changed
      modifies `changed, `waiting
      ensures Valid() && !changed && !waiting
    {
      changed, waiting := false, false;
    }

    /** The client advertised its capabilities; `works` tells whether the reply could be written. */
    method Negotiate(supported: bool, works: bool) returns (ok: bool)
      requires Valid()
      modifies `ready, `closed, `changed
      ensures Valid() && Negotiation(ready, closed, ok) == Advanced(old(Channel()), Advertise(supported, works))
      ensures Wakes(old(CanSend())) && (old(changed) ==> changed)
    {
      if ready {
        return false;
      }
      if !supported {
        closed := true;
        return works;
      }
      if !works {
        return false;
      }
      ready := true;
      Notify();
      return true;
    }

    ghost function Channel(): Negotiation
      reads this
    {
      Negotiation(ready, closed, true)
    }

    /** If the writer can send now and could not before, a wake-up is waiting for it. */
    ghost predicate Wakes(could: bool)
      reads this
    {
      subscribed && CanSend() && !could ==> changed
    }

    /** Numbers a new frame and puts it in flight before it is written. */
    method Reserve() returns (ok: bool, id: nat, gen: nat)
      requires Valid()
      modifies `frameId, `inFlight, `tracked
      ensures Valid() && (ok <==> ready && (ackOff || |old(inFlight)| < 2)) && gen == generation
      ensures ok ==> id == frameId == old(frameId) + 1 && id !in old(tracked)
      ensures ok ==> inFlight == if ackOff then old(inFlight) else old(inFlight) + [Pending(id, Unsent)]
      ensures !ok ==> frameId == old(frameId) && inFlight == old(inFlight)
      ensures retired == old(retired)
    {
      if !CanSend() {
        return false, 0, generation;
      }
      frameId := frameId + 1;
      if !ackOff {
        IdsAppend(inFlight, Pending(frameId, Unsent));
        inFlight := inFlight + [Pending(frameId, Unsent)];
        tracked := tracked + {frameId};
      }
      return true, frameId, generation;
    }

    /**
     The write of frame `id` ended.  A frame acknowledged meanwhile stays retired, and a frame of an
     earlier window changes nothing.
     */
    method Complete(id: nat, gen: nat, works: bool, now: int, size: nat)
      requires Valid()
      modifies `inFlight, `retired, `pace, `changed
      ensures Valid() && Ids(inFlight) <= old(Ids(inFlight))
      ensures retired == old(retired) + (old(Ids(inFlight)) - Ids(inFlight))
      ensures gen != generation ==> inFlight == old(inFlight) && pace == old(pace) && changed == old(changed)
      ensures gen == generation && works ==> Ids(inFlight) == old(Ids(inFlight)) && |inFlight| == |old(inFlight)|
      ensures gen == generation && works ==> forall i :: 0 <= i < |inFlight| ==>
        inFlight[i] == if old(inFlight)[i].id == id then Pending(id, SentAt(now)) else old(inFlight)[i]
      ensures gen == generation && works ==> pace == old(pace).(averageBytes := Observed(old(pace).averageBytes, size))
      ensures gen == generation && !works ==> Ids(inFlight) == old(Ids(inFlight)) - {id} && pace == old(pace)
      ensures Wakes(old(CanSend())) && (old(changed) ==> changed)
    {
      hide Ids, InOrder;
      if gen != generation {
        return;
      }
      var i := 0;
      while i < |inFlight| && inFlight[i].id != id
        invariant 0 <= i <= |inFlight|
        invariant forall k :: 0 <= k < i ==> inFlight[k].id != id
      {
        i := i + 1;
      }
      if i < |inFlight| {
        if !works {
          RemoveKeeps(inFlight, i, frameId);
          retired := retired + {id};
          inFlight := inFlight[..i] + inFlight[i + 1..];
          Notify();
        } else {
          StampKeeps(inFlight, i, now, frameId);
          inFlight := inFlight[i := inFlight[i].(sent := SentAt(now))];
        }
      } else {
        NotInFlight(inFlight, id);
      }
      if works {
        pace := pace.(averageBytes := Observed(pace.averageBytes, size));
      }
    }

    /** Starts a new window; no frame number is used again. */
    method Reset()
      requires InOrder(inFlight, frameId) && tracked == Ids(inFlight) + retired && Ids(inFlight) !! retired
      modifies `generation, `inFlight, `retired, `pace
      ensures inFlight == [] && retired == old(retired) + Ids(old(inFlight)) && tracked == Ids(inFlight) + retired
      ensures generation == old(generation) + 1 && pace == Pace(0, 0, 0)
    {
      generation := generation + 1;
      retired := retired + Ids(inFlight);
      inFlight := [];
      pace := Pace(0, 0, 0);
    }

    /** The client suspends acknowledgments: everything may be sent. */
    method Suspend() returns (ok: bool)
      requires Valid()
      modifies `generation, `inFlight, `retired, `pace, `ackOff, `changed
      ensures Valid() && ok == ready
      ensures ready ==>
        && ackOff && inFlight == [] && generation == old(generation) + 1 && CanSend()
        && pace == Pace(0, 0, 0) && retired == old(retired) + old(Ids(inFlight))
      ensures !ready ==>
        && inFlight == old(inFlight) && generation == old(generation) && ackOff == old(ackOff)
        && pace == old(pace) && retired == old(retired)
      ensures Wakes(old(CanSend())) && (old(changed) ==> changed)
    {
      if !ready {
        return false;
      }
      ackOff := true;
      Reset();
      Notify();
      return true;
    }

    /**
     The client acknowledges frame `id`: it and everything before it leaves the window.  An
     acknowledgment of any other frame, such as one of an earlier window, retires nothing.
     */
    method Acknowledge(id: nat, depth: nat, now: int) returns (ok: bool)
      requires Valid()
      modifies `inFlight, `retired, `pace, `ackOff, `changed
      ensures Valid() && ok == ready
      ensures Ids(inFlight) <= old(Ids(inFlight)) && retired == old(retired) + (old(Ids(inFlight)) - Ids(inFlight))
      ensures !ready ==> inFlight == old(inFlight) && ackOff == old(ackOff) && pace == old(pace)
      ensures ready ==> !ackOff && id !in Ids(inFlight)
      ensures ready && id in old(Ids(inFlight)) ==>
        && (forall p :: p in old(inFlight) ==> (p in inFlight <==> id < p.id))
        && exists n :: 0 <= n < |old(inFlight)| && old(inFlight)[n].id == id && inFlight == old(inFlight)[n + 1..]
                       && pace == Paced(old(pace), base, depth, old(inFlight)[n], now)
      ensures id !in old(Ids(inFlight)) ==> inFlight == old(inFlight) && pace == old(pace)
      ensures Wakes(old(CanSend())) && (old(changed) ==> changed)
    {
      hide Ids, InOrder;
      if !ready {
        return false;
      }
      var wasOff := ackOff;
      ackOff := false;
      var i := 0;
      while i < |inFlight|
        invariant 0 <= i <= |inFlight|
        invariant forall k :: 0 <= k < i ==> inFlight[k].id != id
        invariant inFlight == old(inFlight) && pace == old(pace) && retired == old(retired)
        invariant !ackOff && changed == old(changed)
      {
        if inFlight[i].id == id {
          DropKeeps(inFlight, i, frameId);
          var frame := inFlight[i];
          retired := retired + (Ids(inFlight) - Ids(inFlight[i + 1..]));
          inFlight := inFlight[i + 1..];
          pace := Paced(pace, base, depth, frame, now);
          Notify();
          return true;
        }
        i := i + 1;
      }
      NotInFlight(inFlight, id);
      if wasOff {
        Notify();
      }
      return true;
    }

    /** Handles one unit of a message. */
    method ReadPdu(p: Pdu, now: int) returns (ok: bool)
      requires Valid()
      modifies `generation, `inFlight, `retired, `pace, `ackOff, `ready, `closed, `changed
      ensures Valid() && Negotiation(ready, closed, ok) == Advanced(old(Channel()), p)
      ensures Ids(inFlight) <= old(Ids(inFlight)) && old(retired) <= retired
      ensures p.Ack? && ok ==> p.id !in Ids(inFlight)
      ensures Wakes(old(CanSend())) && (old(changed) ==> changed)
    {
      hide Ids, InOrder;
      match p
      case Advertise(supported, works) =>
        ok := Negotiate(supported, works);
      case Suspension =>
        ok := Suspend();
        EmptyWindow(inFlight);
      case Ack(id, depth) =>
        ok := Acknowledge(id, depth, now);
      case CacheOffer(works) =>
        ok := works;
      case Quality =>
        ok := true;
      case Bad =>
        ok := false;
    }

    /** Reads a message.  A closed channel ignores it; what closes the channel does not stop the message. */
    method ReadMessage(pdus: seq<Pdu>, now: int) returns (ok: bool)
      requires Valid()
      modifies `generation, `inFlight, `retired, `pace, `ackOff, `ready, `closed, `changed
      ensures Valid()
      ensures Negotiation(ready, closed, ok) == if old(closed) then old(Channel()) else Negotiated(old(Channel()), pdus)
      ensures Ids(inFlight) <= old(Ids(inFlight)) && old(retired) <= retired
      ensures ok && !old(closed) ==> forall i :: 0 <= i < |pdus| && pdus[i].Ack? ==> pdus[i].id !in Ids(inFlight)
      ensures old(closed) ==>
        inFlight == old(inFlight) && retired == old(retired) && pace == old(pace) && ackOff == old(ackOff)
      ensures Wakes(old(CanSend())) && (old(changed) ==> changed)
    {
      hide Ids, InOrder, Advanced;
      ok := true;
      if closed {
        return;
      }
      var rest := pdus;
      while rest != []
        invariant Valid() && ok && Negotiated(Channel(), rest) == Negotiated(old(Channel()), pdus)
        invariant Ids(inFlight) <= old(Ids(inFlight)) && old(retired) <= retired
        invariant |rest| <= |pdus| && rest == pdus[|pdus| - |rest|..]
        invariant forall i :: 0 <= i < |pdus| - |rest| && pdus[i].Ack? ==> pdus[i].id !in Ids(inFlight)
        invariant Wakes(old(CanSend())) && (old(changed) ==> changed)
        decreases |rest|
      {
        ok := ReadPdu(rest[0], now);
        if !ok {
          return;
        }
        rest := rest[1..];
      }
    }

    /** The pacing the writer should keep, given its own frame interval. */
    method FrameInterval(own: int) returns (r: nat)
      requires Valid()
      modifies `base, `pace
      ensures Valid()
      ensures own <= 0 ==> r == 0 && pace == old(pace) && base == old(base)
      ensures own > 0 ==> base == own && Min(own, MAX_INTERVAL) <= r <= MAX_INTERVAL
      ensures own > 0 ==>
        pace == old(pace).(interval := Max(own, old(pace).interval)) && r == Min(pace.interval, MAX_INTERVAL)
    {
      if own <= 0 {
        return 0;
      }
      base := own;
      if pace.interval < own {
        pace := pace.(interval := own);
      }
      return Min(pace.interval, MAX_INTERVAL);
    }

    /** The desktop was resized and the new surface announced: the old window is over. */
    method Resized()
      requires Valid()
      modifies `generation, `inFlight, `retired, `pace, `changed
      ensures Valid() && inFlight == [] && generation == old(generation) + 1
      ensures pace == Pace(0, 0, 0) && retired == old(retired) + old(Ids(inFlight))
      ensures Wakes(old(CanSend())) && (old(changed) ==> changed)
    {
      Reset();
      Notify();
    }

    /** The client closes the channel. */
    method Close()
      requires Valid()
      modifies `generation, `inFlight, `retired, `pace, `ready, `closed, `changed
      ensures Valid() && !ready && closed && !CanSend() && inFlight == [] && generation == old(generation) + 1
      ensures pace == Pace(0, 0, 0) && retired == old(retired) + old(Ids(inFlight))
    {
      ready, closed := false, true;
      Reset();
      Notify();
    }
  }
}
