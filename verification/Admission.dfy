/** Connection admission: counters, rate limits, and the races between promotion, expiry and closing. */
module Admission {
  import opened Collections
  import opened TokenBucket

  const MAX_PEERS: nat := 4096
  const PEER_TTL: real := 60.0

  /** The source of a connection; IPv6 sources are grouped by network before they get here. */
  type Ip = int

  datatype Config = Config(
    maxHandshakes: nat, maxConnections: nat, maxPerIp: nat, maxHandshakesPerIp: nat,
    rate: real, ratePerIp: real, handshakeTimeout: real)
  {
    predicate Valid() { rate >= 1.0 && ratePerIp >= 1.0 && handshakeTimeout > 0.0 }
  }

  datatype Peer = Peer(pending: int, total: int, lastSeen: real, bucket: Bucket)

  datatype Conn = Conn(ip: Ip, deadline: real, authenticated: bool, expired: bool)

  datatype Admitted = Admitted(at: real, ip: Ip)

  // Counting.

  ghost function PendingConns(conns: map<nat, Conn>, open: set<nat>): set<nat> {
    set c | c in open && c in conns && !conns[c].authenticated
  }

  ghost function AuthConns(conns: map<nat, Conn>, open: set<nat>): set<nat> {
    set c | c in open && c in conns && conns[c].authenticated
  }

  ghost function ConnsOf(conns: map<nat, Conn>, open: set<nat>, ip: Ip): set<nat> {
    set c | c in open && c in conns && conns[c].ip == ip
  }

  ghost function PendingOf(conns: map<nat, Conn>, open: set<nat>, ip: Ip): set<nat> {
    set c | c in open && c in conns && !conns[c].authenticated && conns[c].ip == ip
  }

  /** The counters of one source are right. */
  ghost predicate PeerCounts(p: Peer, conns: map<nat, Conn>, open: set<nat>, ip: Ip) {
    p.total == |ConnsOf(conns, open, ip)| && p.pending == |PendingOf(conns, open, ip)|
  }

  /** Every counter is the true number of the connections it stands for. */
  ghost predicate Counts(peers: map<Ip, Peer>, pending: int, authenticated: int, conns: map<nat, Conn>,
                         open: set<nat>)
  {
    && open <= conns.Keys
    && pending == |PendingConns(conns, open)|
    && authenticated == |AuthConns(conns, open)|
    && (forall c :: c in open ==> conns[c].ip in peers)
    && (forall ip :: ip in peers ==> PeerCounts(peers[ip], conns, open, ip))
  }

  /** Opening connection `id` adds it to the sets it belongs to. */
  lemma SetsAdmit(conns: map<nat, Conn>, open: set<nat>, id: nat, c: Conn)
    requires id !in conns && open <= conns.Keys && !c.authenticated
    ensures var conns', open' := conns[id := c], open + {id};
            && PendingConns(conns', open') == PendingConns(conns, open) + {id}
            && AuthConns(conns', open') == AuthConns(conns, open)
            && ConnsOf(conns', open', c.ip) == ConnsOf(conns, open, c.ip) + {id}
            && PendingOf(conns', open', c.ip) == PendingOf(conns, open, c.ip) + {id}
            && forall ip :: ip != c.ip ==>
                 && ConnsOf(conns', open', ip) == ConnsOf(conns, open, ip)
                 && PendingOf(conns', open', ip) == PendingOf(conns, open, ip)
  {
  }

  lemma CountsAdmit(peers: map<Ip, Peer>, pending: int, authenticated: int, conns: map<nat, Conn>, open: set<nat>,
                    id: nat, c: Conn, p: Peer)
    requires Counts(peers, pending, authenticated, conns, open) && id !in conns && !c.authenticated
    requires if c.ip in peers then p.total == peers[c.ip].total + 1 && p.pending == peers[c.ip].pending + 1
             else p.total == 1 && p.pending == 1
    ensures Counts(peers[c.ip := p], pending + 1, authenticated, conns[id := c], open + {id})
  {
    hide PeerCounts, ConnsOf, PendingOf, PendingConns, AuthConns;
    var peers' := peers[c.ip := p];
    forall ip | ip in peers'
      ensures PeerCounts(peers'[ip], conns[id := c], open + {id}, ip)
    {
      PeerCountsAdmit(peers, conns, open, id, c, p, ip);
    }
    TotalsAdmit(conns, open, id, c);
  }

  lemma TotalsAdmit(conns: map<nat, Conn>, open: set<nat>, id: nat, c: Conn)
    requires id !in conns && open <= conns.Keys && !c.authenticated
    ensures |PendingConns(conns[id := c], open + {id})| == |PendingConns(conns, open)| + 1
    ensures |AuthConns(conns[id := c], open + {id})| == |AuthConns(conns, open)|
  {
    SetsAdmit(conns, open, id, c);
    NotCounted(conns, open, id, c.ip);
  }

  lemma PeerCountsAdmit(peers: map<Ip, Peer>, conns: map<nat, Conn>, open: set<nat>, id: nat, c: Conn, p: Peer, ip: Ip)
    requires open <= conns.Keys && (forall c :: c in open ==> conns[c].ip in peers) && id !in conns && !c.authenticated
    requires ip in peers ==> PeerCounts(peers[ip], conns, open, ip)
    requires if c.ip in peers then p.total == peers[c.ip].total + 1 && p.pending == peers[c.ip].pending + 1
             else p.total == 1 && p.pending == 1
    requires ip in peers || ip == c.ip
    ensures PeerCounts(peers[c.ip := p][ip], conns[id := c], open + {id}, ip)
  {
    SetsAdmit(conns, open, id, c);
    NotCounted(conns, open, id, ip);
    if ip !in peers {
      NoConnsOf(conns, open, ip);
    }
    hide PendingConns, AuthConns, ConnsOf, PendingOf;
  }

  lemma NoConnsOf(conns: map<nat, Conn>, open: set<nat>, ip: Ip)
    requires open <= conns.Keys && forall c :: c in open ==> conns[c].ip != ip
    ensures ConnsOf(conns, open, ip) == {} && PendingOf(conns, open, ip) == {}
  {
  }

  lemma NotCounted(conns: map<nat, Conn>, open: set<nat>, id: nat, ip: Ip)
    requires id !in conns
    ensures id !in PendingConns(conns, open) && id !in ConnsOf(conns, open, ip) && id !in PendingOf(conns, open, ip)
  {
  }

  /** Promoting connection `id` moves it. */
  lemma SetsPromote(conns: map<nat, Conn>, open: set<nat>, id: nat)
    requires id in open && open <= conns.Keys && !conns[id].authenticated
    ensures var conns' := conns[id := conns[id].(authenticated := true)];
            && id in PendingConns(conns, open) && id !in AuthConns(conns, open)
            && id in PendingOf(conns, open, conns[id].ip)
            && PendingConns(conns', open) == PendingConns(conns, open) - {id}
            && AuthConns(conns', open) == AuthConns(conns, open) + {id}
            && PendingOf(conns', open, conns[id].ip) == PendingOf(conns, open, conns[id].ip) - {id}
            && (forall ip :: ConnsOf(conns', open, ip) == ConnsOf(conns, open, ip))
            && forall ip :: ip != conns[id].ip ==> PendingOf(conns', open, ip) == PendingOf(conns, open, ip)
  {
  }

  lemma CountsPromote(peers: map<Ip, Peer>, pending: int, authenticated: int, conns: map<nat, Conn>, open: set<nat>,
                      id: nat)
    requires Counts(peers, pending, authenticated, conns, open) && id in open && !conns[id].authenticated
    ensures var c := conns[id];
            Counts(peers[c.ip := peers[c.ip].(pending := peers[c.ip].pending - 1)], pending - 1, authenticated + 1,
                   conns[id := c.(authenticated := true)], open)
  {
    SetsPromote(conns, open, id);
    hide PendingConns, AuthConns, ConnsOf, PendingOf;
    var c := conns[id];
    var peers' := peers[c.ip := peers[c.ip].(pending := peers[c.ip].pending - 1)];
    forall ip | ip in peers'
      ensures PeerCounts(peers'[ip], conns[id := c.(authenticated := true)], open, ip)
    {
      assert PeerCounts(peers[ip], conns, open, ip);
    }
  }

  /** Closing connection `id` removes it. */
  lemma SetsClose(conns: map<nat, Conn>, open: set<nat>, id: nat)
    requires id in open && open <= conns.Keys
    ensures var c, open' := conns[id], open - {id};
            && (if c.authenticated then id in AuthConns(conns, open) && id !in PendingConns(conns, open)
                else id in PendingConns(conns, open) && id !in AuthConns(conns, open))
            && id in ConnsOf(conns, open, c.ip) && (id in PendingOf(conns, open, c.ip) <==> !c.authenticated)
            && PendingConns(conns, open') == PendingConns(conns, open) - {id}
            && AuthConns(conns, open') == AuthConns(conns, open) - {id}
            && ConnsOf(conns, open', c.ip) == ConnsOf(conns, open, c.ip) - {id}
            && PendingOf(conns, open', c.ip) == PendingOf(conns, open, c.ip) - {id}
            && forall ip :: ip != c.ip ==>
                 && ConnsOf(conns, open', ip) == ConnsOf(conns, open, ip)
                 && PendingOf(conns, open', ip) == PendingOf(conns, open, ip)
  {
  }

  lemma CountsClose(peers: map<Ip, Peer>, pending: int, authenticated: int, conns: map<nat, Conn>, open: set<nat>,
                    id: nat, p: Peer)
    requires Counts(peers, pending, authenticated, conns, open) && id in open
    requires var c, q := conns[id], peers[conns[id].ip];
             p.total == q.total - 1 && p.pending == if c.authenticated then q.pending else q.pending - 1
    ensures var c := conns[id];
            Counts(peers[c.ip := p], if c.authenticated then pending else pending - 1,
                   if c.authenticated then authenticated - 1 else authenticated, conns, open - {id})
  {
    hide PeerCounts, ConnsOf, PendingOf, PendingConns, AuthConns;
    var c := conns[id];
    var peers' := peers[c.ip := p];
    TotalsClose(conns, open, id);
    forall ip | ip in peers'
      ensures PeerCounts(peers'[ip], conns, open - {id}, ip)
    {
      PeerCountsClose(peers, conns, open, id, p, ip);
    }
  }

  lemma TotalsClose(conns: map<nat, Conn>, open: set<nat>, id: nat)
    requires id in open && open <= conns.Keys
    ensures |PendingConns(conns, open - {id})| == |PendingConns(conns, open)| - if conns[id].authenticated then 0 else 1
    ensures |AuthConns(conns, open - {id})| == |AuthConns(conns, open)| - if conns[id].authenticated then 1 else 0
  {
    SetsClose(conns, open, id);
  }

  lemma PeerCountsClose(peers: map<Ip, Peer>, conns: map<nat, Conn>, open: set<nat>, id: nat, p: Peer, ip: Ip)
    requires id in open && open <= conns.Keys && conns[id].ip in peers && ip in peers
    requires PeerCounts(peers[ip], conns, open, ip)
    requires var c, q := conns[id], peers[conns[id].ip];
             p.total == q.total - 1 && p.pending == if c.authenticated then q.pending else q.pending - 1
    ensures PeerCounts(peers[conns[id].ip := p][ip], conns, open - {id}, ip)
  {
    SetsClose(conns, open, id);
    hide ConnsOf, PendingOf, PendingConns, AuthConns;
  }

  /** A record without connections may go. */
  lemma CountsPrune(peers: map<Ip, Peer>, pending: int, authenticated: int, conns: map<nat, Conn>, open: set<nat>,
                    peers': map<Ip, Peer>)
    requires Counts(peers, pending, authenticated, conns, open)
    requires forall ip :: ip in peers' ==> ip in peers && peers'[ip] == peers[ip]
    requires forall ip :: ip in peers && ip !in peers' ==> peers[ip].total == 0
    ensures Counts(peers', pending, authenticated, conns, open)
  {
    forall c | c in open
      ensures conns[c].ip in peers'
    {
      var ip := conns[c].ip;
      assert c in ConnsOf(conns, open, ip) && PeerCounts(peers[ip], conns, open, ip);
    }
  }

  // Who was admitted when.

  ghost function Times(log: seq<Admitted>): (r: seq<real>)
    ensures |r| == |log|
    ensures forall i :: 0 <= i < |log| ==> r[i] == log[i].at
  {
    seq(|log|, i requires 0 <= i < |log| => log[i].at)
  }

  ghost function TimesOf(log: seq<Admitted>, ip: Ip): seq<real> {
    if log == [] then []
    else
      var n := |log| - 1;
      TimesOf(log[..n], ip) + (if log[n].ip == ip then [log[n].at] else [])
  }

  lemma TimesMore(log: seq<Admitted>, a: Admitted)
    ensures Times(log + [a]) == Times(log) + [a.at]
    ensures TimesOf(log + [a], a.ip) == TimesOf(log, a.ip) + [a.at]
    ensures forall ip :: ip != a.ip ==> TimesOf(log + [a], ip) == TimesOf(log, ip)
  {
    assert (log + [a])[..|log|] == log;
    assert forall ip: Ip :: ip != a.ip ==> TimesOf(log, ip) + [] == TimesOf(log, ip);
  }

  /** The state of one source's limiter, whether or not its record still exists. */
  ghost predicate PeerPaid(peers: map<Ip, Peer>, ip: Ip, rate: real, times: seq<real>, clock: real) {
    if ip in peers then
      var p := peers[ip];
      && Paid(p.bucket, rate, times) && Rested(p.bucket, rate, p.lastSeen)
      && p.bucket.last <= clock && p.lastSeen <= clock
    else Forgotten(times, rate, clock)
  }

  /** Looking at a source's limiter, and then perhaps spending from it. */
  lemma PeerPaidLook(peers: map<Ip, Peer>, ip: Ip, rate: real, times: seq<real>, clock: real, now: real)
    requires rate >= 1.0 && PeerPaid(peers, ip, rate, times, clock) && clock <= now
    ensures PeerPaid(peers, ip, rate, times, now)
    ensures ip in peers ==>
      PeerPaid(peers[ip := peers[ip].(bucket := Refreshed(peers[ip].bucket, rate, now))], ip, rate, times, now)
    ensures ip in peers ==> Paid(Refreshed(peers[ip].bucket, rate, now), rate, times)
    ensures ip !in peers ==> Paid(Refreshed(Unused, rate, now), rate, times)
  {
    if ip in peers {
      PaidRefresh(peers[ip].bucket, rate, times, now);
      RestedRefresh(peers[ip].bucket, rate, peers[ip].lastSeen, now);
    } else {
      ForgottenLater(times, rate, clock, now);
      NewIsPaid(times, rate, now);
    }
  }

  /** A source idle for a minute has a full limiter, so nothing is lost with its record. */
  lemma PeerPaidPrune(peers: map<Ip, Peer>, kept: map<Ip, Peer>, ip: Ip, rate: real, times: seq<real>, clock: real,
                      now: real)
    requires rate >= 1.0 && PeerPaid(peers, ip, rate, times, clock) && clock <= now
    requires ip in kept ==> ip in peers && kept[ip] == peers[ip]
    requires ip in peers && ip !in kept ==> now - peers[ip].lastSeen >= PEER_TTL
    ensures PeerPaid(kept, ip, rate, times, now)
    ensures ip in peers && ip !in kept ==> SameAnswers(peers[ip].bucket, Unused, rate, now)
  {
    PeerPaidLook(peers, ip, rate, times, clock, now);
    if ip in peers && ip !in kept {
      forall t | now <= t
        ensures Level(peers[ip].bucket, rate, t) == Level(Unused, rate, t)
      {
        RestedIsFull(peers[ip].bucket, rate, peers[ip].lastSeen, t);
      }
      ForgetFull(peers[ip].bucket, rate, times, now);
    }
  }

  /** The records that survive pruning. */
  function AfterPrune(peers: map<Ip, Peer>, now: real): map<Ip, Peer> {
    map ip | ip in peers && !(peers[ip].total == 0 && now - peers[ip].lastSeen >= PEER_TTL) :: peers[ip]
  }

  /** Whether the limits let a connection from `ip` in at `now`. */
  ghost predicate Welcome(config: Config, peers: map<Ip, Peer>, global: Bucket, ip: Ip, now: real) {
    && (if ip in peers
        then
          && peers[ip].total < config.maxPerIp && peers[ip].pending < config.maxHandshakesPerIp
          && Level(peers[ip].bucket, config.ratePerIp, now) >= 1.0
        else |peers| < 4096 && 0 < config.maxPerIp && 0 < config.maxHandshakesPerIp)
    && Level(global, config.rate, now) >= 1.0
  }

  /** The record of `ip` after one more connection from it was admitted: counted, and paid with one token. */
  function Joined(config: Config, peers: map<Ip, Peer>, ip: Ip, now: real): Peer {
    var p := if ip in peers then peers[ip] else Peer(0, 0, 0.0, Unused);
    Peer(p.pending + 1, p.total + 1, now, Spent(Refreshed(p.bucket, config.ratePerIp, now)))
  }

  /** All limiters have paid for what was admitted. */
  ghost predicate Limited(config: Config, peers: map<Ip, Peer>, global: Bucket, log: seq<Admitted>, clock: real) {
    && Paid(global, config.rate, Times(log)) && (global.Bucket? ==> global.last <= clock)
    && forall ip :: PeerPaid(peers, ip, config.ratePerIp, TimesOf(log, ip), clock)
  }

  /** From `a` to `a + t` there are at most `rate * (t + 1)` admissions. */
  ghost predicate AtMost(times: seq<real>, rate: real, a: real, t: real) {
    |Within(times, a, t, 0, |times|)| as real <= rate * (t + 1.0)
  }

  lemma RateWithin(times: seq<real>, rate: real, a: real, t: real)
    requires RateBound(times, rate) && rate >= 0.0 && t >= 0.0
    ensures AtMost(times, rate, a, t)
  {
    IntervalBound(times, rate, a, t, 0, |times|);
  }

  lemma LimitedRates(config: Config, peers: map<Ip, Peer>, global: Bucket, log: seq<Admitted>, clock: real, ip: Ip)
    requires Limited(config, peers, global, log, clock)
    ensures RateBound(Times(log), config.rate) && RateBound(TimesOf(log, ip), config.ratePerIp)
  {
    assert PeerPaid(peers, ip, config.ratePerIp, TimesOf(log, ip), clock);
  }

  /** Whatever is asked of the limiter from `now` on, `b'` answers as `b` would have. */
  ghost predicate SameAnswers(b: Bucket, b': Bucket, rate: real, now: real) {
    forall t :: now <= t ==> Level(b', rate, t) == Level(b, rate, t)
  }

  ghost predicate NothingSpent(config: Config, peers: map<Ip, Peer>, global: Bucket, peers': map<Ip, Peer>,
                               global': Bucket,
                               now: real)
  {
    && SameAnswers(global, global', config.rate, now) && peers'.Keys <= peers.Keys
    && forall p :: p in peers' ==> SameAnswers(peers[p].bucket, peers'[p].bucket, config.ratePerIp, now)
  }

  lemma NothingDone(config: Config, peers: map<Ip, Peer>, global: Bucket, now: real)
    ensures NothingSpent(config, peers, global, peers, global, now)
  {
  }

  lemma OnlyPruned(config: Config, peers: map<Ip, Peer>, global: Bucket, peers': map<Ip, Peer>, global': Bucket,
                   now: real)
    requires NothingSpent(config, AfterPrune(peers, now), global, peers', global', now)
    ensures NothingSpent(config, peers, global, peers', global', now)
  {
    hide SameAnswers;
  }

  /** The record of `ip`, if there is one, after its limiter was asked. */
  ghost function Looked(config: Config, peers: map<Ip, Peer>, ip: Ip, now: real): map<Ip, Peer> {
    if ip in peers then peers[ip := peers[ip].(bucket := Refreshed(peers[ip].bucket, config.ratePerIp, now))] else peers
  }

  /** The counters leave room, so that the limiters are asked. */
  ghost predicate Asked(config: Config, peers: map<Ip, Peer>, ip: Ip) {
    if ip in peers then peers[ip].total < config.maxPerIp && peers[ip].pending < config.maxHandshakesPerIp
    else |peers| < MAX_PEERS && 0 < config.maxPerIp && 0 < config.maxHandshakesPerIp
  }

  /** A refusal leaves every record as it was, but for the source's limiter if it was asked. */
  ghost function AfterRefusal(config: Config, peers: map<Ip, Peer>, ip: Ip, now: real): map<Ip, Peer> {
    if Asked(config, peers, ip) then Looked(config, peers, ip, now) else peers
  }

  /** The limiter of the whole is asked only if the source's own has a token. */
  ghost function GlobalAfterRefusal(config: Config, peers: map<Ip, Peer>, global: Bucket, ip: Ip, now: real): Bucket {
    if Asked(config, peers, ip) && (ip in peers ==> Level(peers[ip].bucket, config.ratePerIp, now) >= 1.0)
    then Refreshed(global, config.rate, now) else global
  }

  lemma LookKeeps(config: Config, peers: map<Ip, Peer>, global: Bucket, log: seq<Admitted>, clock: real, now: real,
                  ip: Ip)
    requires config.Valid() && Limited(config, peers, global, log, clock) && clock <= now
    ensures Limited(config, peers, global, log, now)
    ensures Limited(config, peers, Refreshed(global, config.rate, now), log, now)
    ensures Limited(config, Looked(config, peers, ip, now), global, log, now)
    ensures Limited(config, Looked(config, peers, ip, now), Refreshed(global, config.rate, now), log, now)
  {
    hide PeerPaid, Paid, Level;
    PaidRefresh(global, config.rate, Times(log), now);
    forall a
      ensures PeerPaid(peers, a, config.ratePerIp, TimesOf(log, a), now)
    {
      PeerPaidLook(peers, a, config.ratePerIp, TimesOf(log, a), clock, now);
    }
    if ip in peers {
      var looked := Looked(config, peers, ip, now);
      PeerPaidLook(peers, ip, config.ratePerIp, TimesOf(log, ip), clock, now);
      forall a
        ensures PeerPaid(looked, a, config.ratePerIp, TimesOf(log, a), now)
      {
        if a != ip {
          PeerPaidSame(peers, looked, a, config.ratePerIp, TimesOf(log, a), now);
        }
      }
    }
  }

  lemma LookSpendsNothing(config: Config, peers: map<Ip, Peer>, global: Bucket, log: seq<Admitted>, clock: real,
                          now: real,
                          ip: Ip)
    requires config.Valid() && Limited(config, peers, global, log, clock) && clock <= now
    ensures NothingSpent(config, peers, global, Looked(config, peers, ip, now), global, now)
    ensures
      NothingSpent(config, peers, global, Looked(config, peers, ip, now), Refreshed(global, config.rate, now), now)
  {
    hide Paid, Level, PeerPaid, SameAnswers;
    NothingDone(config, peers, global, now);
    LookedSame(global, config.rate, now);
    if ip in peers {
      PeerSeen(peers, ip, config.ratePerIp, TimesOf(log, ip), clock);
      LookedSame(peers[ip].bucket, config.ratePerIp, now);
    }
  }

  lemma LookedSame(b: Bucket, rate: real, now: real)
    requires rate >= 1.0 && (b.Bucket? ==> b.last <= now)
    ensures SameAnswers(b, Refreshed(b, rate, now), rate, now)
  {
    hide Level;
    forall t | now <= t
      ensures Level(Refreshed(b, rate, now), rate, t) == Level(b, rate, t)
    {
      LookingIsFree(b, rate, now, t);
    }
  }

  lemma PeerSeen(peers: map<Ip, Peer>, ip: Ip, rate: real, times: seq<real>, clock: real)
    requires ip in peers && PeerPaid(peers, ip, rate, times, clock)
    ensures peers[ip].bucket.Bucket? && peers[ip].bucket.last <= clock
  {
  }

  /** A source's limiter depends on its own record only. */
  lemma PeerPaidSame(peers: map<Ip, Peer>, peers': map<Ip, Peer>, a: Ip, rate: real, times: seq<real>, clock: real)
    requires a in peers <==> a in peers'
    requires a in peers ==> peers'[a].bucket == peers[a].bucket && peers'[a].lastSeen == peers[a].lastSeen
    requires PeerPaid(peers, a, rate, times, clock)
    ensures PeerPaid(peers', a, rate, times, clock)
  {
  }

  lemma NewIsFull(config: Config, now: real)
    requires config.Valid()
    ensures Refreshed(Unused, config.ratePerIp, now) == Bucket(config.ratePerIp, now)
    ensures forall b, rate :: Refreshed(b, rate, now).tokens == Level(b, rate, now)
  {
  }

  lemma AdmitKeeps(config: Config, peers: map<Ip, Peer>, global: Bucket, log: seq<Admitted>, clock: real, now: real,
                   ip: Ip, p: Peer)
    requires config.Valid() && Limited(config, peers, global, log, clock) && clock <= now
    requires Level(global, config.rate, now) >= 1.0
    requires var b := if ip in peers then peers[ip].bucket else Unused;
             Level(b, config.ratePerIp, now) >= 1.0 && p.bucket == Spent(Refreshed(b, config.ratePerIp, now))
    requires p.lastSeen == now
    ensures Limited(config, peers[ip := p], Spent(Refreshed(global, config.rate, now)), log + [Admitted(now, ip)], now)
  {
    hide PeerPaid, Paid, Level, TimesOf;
    var a := Admitted(now, ip);
    TimesMore(log, a);
    PaidRefresh(global, config.rate, Times(log), now);
    PaidSpend(Refreshed(global, config.rate, now), config.rate, Times(log));
    var peers', log' := peers[ip := p], log + [a];
    forall i
      ensures PeerPaid(peers', i, config.ratePerIp, TimesOf(log', i), now)
    {
      if i == ip {
        PeerPaidSpend(peers, ip, config.ratePerIp, TimesOf(log, ip), clock, now, p);
      } else {
        PeerPaidLook(peers, i, config.ratePerIp, TimesOf(log, i), clock, now);
        PeerPaidSame(peers, peers', i, config.ratePerIp, TimesOf(log, i), now);
      }
    }
  }

  lemma PeerPaidSpend(peers: map<Ip, Peer>, ip: Ip, rate: real, times: seq<real>, clock: real, now: real, p: Peer)
    requires rate >= 1.0 && PeerPaid(peers, ip, rate, times, clock) && clock <= now
    requires var b := if ip in peers then peers[ip].bucket else Unused;
             Level(b, rate, now) >= 1.0 && p.bucket == Spent(Refreshed(b, rate, now))
    requires p.lastSeen == now
    ensures PeerPaid(peers[ip := p], ip, rate, times + [now], now)
  {
    hide Paid;
    PeerPaidLook(peers, ip, rate, times, clock, now);
    var b := if ip in peers then peers[ip].bucket else Unused;
    PaidSpend(Refreshed(b, rate, now), rate, times);
    JustSpent(b, rate, now);
  }

  lemma CountsBucket(peers: map<Ip, Peer>, pending: int, authenticated: int, conns: map<nat, Conn>, open: set<nat>,
                     ip: Ip, p: Peer)
    requires Counts(peers, pending, authenticated, conns, open) && ip in peers
    requires p.total == peers[ip].total && p.pending == peers[ip].pending
    ensures Counts(peers[ip := p], pending, authenticated, conns, open)
  {
    hide PeerCounts;
    var peers' := peers[ip := p];
    forall a | a in peers'
      ensures PeerCounts(peers'[a], conns, open, a)
    {
      assert PeerCounts(peers[a], conns, open, a);
      SamePeerCounts(peers[a], peers'[a], conns, open, a);
    }
  }

  lemma SamePeerCounts(p: Peer, q: Peer, conns: map<nat, Conn>, open: set<nat>, ip: Ip)
    requires PeerCounts(p, conns, open, ip) && q.total == p.total && q.pending == p.pending
    ensures PeerCounts(q, conns, open, ip)
  {
  }

  lemma CountsOpen(peers: map<Ip, Peer>, pending: int, authenticated: int, conns: map<nat, Conn>, open: set<nat>)
    requires Counts(peers, pending, authenticated, conns, open)
    ensures open <= conns.Keys && forall c :: c in open ==> conns[c].ip in peers
  {
  }

  lemma CountsNone(peers: map<Ip, Peer>, pending: int, authenticated: int, conns: map<nat, Conn>, open: set<nat>)
    requires Counts(peers, pending, authenticated, conns, open) && open == {}
    ensures pending == 0 && authenticated == 0
    ensures forall ip :: ip in peers ==> peers[ip].total == 0 && peers[ip].pending == 0
  {
    assert PendingConns(conns, open) == {} && AuthConns(conns, open) == {};
    forall ip | ip in peers
      ensures peers[ip].total == 0 && peers[ip].pending == 0
    {
      assert PeerCounts(peers[ip], conns, open, ip);
      NoConnsOf(conns, open, ip);
    }
  }

  lemma CountsExpire(peers: map<Ip, Peer>, pending: int, authenticated: int, conns: map<nat, Conn>, open: set<nat>,
                     id: nat)
    requires Counts(peers, pending, authenticated, conns, open) && id in open
    ensures Counts(peers, pending, authenticated, conns[id := conns[id].(expired := true)], open)
  {
    var conns' := conns[id := conns[id].(expired := true)];
    assert PendingConns(conns', open) == PendingConns(conns, open);
    assert AuthConns(conns', open) == AuthConns(conns, open);
    forall ip | ip in peers
      ensures PeerCounts(peers[ip], conns', open, ip)
    {
      assert PeerCounts(peers[ip], conns, open, ip);
      assert ConnsOf(conns', open, ip) == ConnsOf(conns, open, ip);
      assert PendingOf(conns', open, ip) == PendingOf(conns, open, ip);
    }
  }

  lemma SameLimiter(config: Config, peers: map<Ip, Peer>, global: Bucket, log: seq<Admitted>, clock: real, ip: Ip,
                    p: Peer)
    requires Limited(config, peers, global, log, clock) && ip in peers
    requires p.bucket == peers[ip].bucket && p.lastSeen == peers[ip].lastSeen
    ensures Limited(config, peers[ip := p], global, log, clock)
  {
    hide PeerPaid, Paid;
    forall a
      ensures PeerPaid(peers[ip := p], a, config.ratePerIp, TimesOf(log, a), clock)
    {
      PeerPaidSame(peers, peers[ip := p], a, config.ratePerIp, TimesOf(log, a), clock);
    }
  }

  /** A later sighting only makes the source look busier. */
  lemma SeenLater(config: Config, peers: map<Ip, Peer>, global: Bucket, log: seq<Admitted>, clock: real, now: real,
                  ip: Ip, p: Peer)
    requires config.Valid() && Limited(config, peers, global, log, clock) && clock <= now && ip in peers
    requires p.bucket == peers[ip].bucket && p.lastSeen == now
    ensures Limited(config, peers[ip := p], global, log, now)
  {
    forall a
      ensures PeerPaid(peers[ip := p], a, config.ratePerIp, TimesOf(log, a), now)
    {
      PeerPaidLook(peers, a, config.ratePerIp, TimesOf(log, a), clock, now);
      if a == ip {
        RestedLater(peers[ip].bucket, config.ratePerIp, peers[ip].lastSeen, now);
      }
    }
  }

  ghost predicate PeersWithin(config: Config, peers: map<Ip, Peer>) {
    && |peers| <= MAX_PEERS
    && forall ip :: ip in peers ==> peers[ip].total <= config.maxPerIp && peers[ip].pending <= config.maxHandshakesPerIp
  }

  lemma PeerWithin(config: Config, peers: map<Ip, Peer>, ip: Ip)
    requires PeersWithin(config, peers) && ip in peers
    ensures peers[ip].total <= config.maxPerIp && peers[ip].pending <= config.maxHandshakesPerIp
  {
  }

  /** The records after a handshake from `ip` became a connection. */
  function Promoted(peers: map<Ip, Peer>, ip: Ip): map<Ip, Peer> {
    if ip in peers then peers[ip := peers[ip].(pending := peers[ip].pending - 1)] else peers
  }

  /** The records after connection `c` was closed: its source was seen, no limiter is touched. */
  function Closed(peers: map<Ip, Peer>, c: Conn, now: real): map<Ip, Peer> {
    if c.ip !in peers then peers
    else
      var p := peers[c.ip];
      var pending := if c.authenticated then p.pending else p.pending - 1;
      peers[c.ip := p.(total := p.total - 1, lastSeen := now, pending := pending)]
  }

  /** No connection is both expired and authenticated. */
  ghost predicate NeverBoth(conns: map<nat, Conn>) {
    forall c :: c in conns ==> !(conns[c].expired && conns[c].authenticated)
  }

  lemma PromotedNotExpired(conns: map<nat, Conn>, id: nat)
    requires NeverBoth(conns) && id in conns && !conns[id].expired
    ensures NeverBoth(conns[id := conns[id].(authenticated := true)])
    ensures conns[id].authenticated ==> conns[id := conns[id].(authenticated := true)] == conns
  {
  }

  lemma PeersWithinAdd(config: Config, peers: map<Ip, Peer>, ip: Ip, p: Peer)
    requires PeersWithin(config, peers) && (ip !in peers ==> |peers| < MAX_PEERS)
    requires p.total <= config.maxPerIp && p.pending <= config.maxHandshakesPerIp
    ensures PeersWithin(config, peers[ip := p])
  {
    assert peers[ip := p].Keys == peers.Keys + {ip};
    assert |peers[ip := p]| == |peers.Keys + {ip}|;
  }

  class Server {
    const config: Config
    var peers: map<Ip, Peer>
    var pending: int
    var authenticated: int
    var global: Bucket
    var nextPrune: real
    var conns: map<nat, Conn> // every connection ever admitted
    var open: set<nat> // those still tracked
    var draining: bool
    ghost var log: seq<Admitted>
    ghost var clock: real // the latest time seen; the host clock is monotone

    constructor (config: Config, start: real)
      requires config.Valid()
      ensures Valid() && log == [] && clock == start
    {
      this.config := config;
      peers, pending, authenticated, global, nextPrune := map[], 0, 0, Unused, start;
      conns, open, draining, log, clock := map[], {}, false, [], start;
    }

    /** Counters are true and within their limits, and every source and the whole stay within their rates. */
    ghost predicate Valid()
      reads this
    {
      && config.Valid()
      && Counts(peers, pending, authenticated, conns, open)
      && pending <= config.maxHandshakes && authenticated <= config.maxConnections
      && PeersWithin(config, peers) && NeverBoth(conns)
      && Limited(config, peers, global, log, clock)
    }

    /** Drops the records of sources that have been idle for a minute. */
    method Prune(now: real)
      requires Valid() && clock <= now
      modifies `peers, `nextPrune, `clock
      ensures Valid() && clock == now
      ensures peers == AfterPrune(old(peers), now) && nextPrune == now + 60.0
      ensures forall ip :: ip in peers <==>
        ip in old(peers) && (old(peers)[ip].total != 0 || now < old(peers)[ip].lastSeen + 60.0)
      ensures forall ip :: ip in old(peers) && ip !in peers ==>
        SameAnswers(old(peers)[ip].bucket, Unused, config.ratePerIp, now)
    {
      hide Counts, PeerPaid, Paid, Forgotten, Rested, SameAnswers;
      var kept := AfterPrune(peers, now);
      CountsPrune(peers, pending, authenticated, conns, open, kept);
      assert kept.Keys <= peers.Keys;
      SubsetSize(kept.Keys, peers.Keys);
      forall ip
        ensures PeerPaid(kept, ip, config.ratePerIp, TimesOf(log, ip), now)
        ensures ip in peers && ip !in kept ==> SameAnswers(peers[ip].bucket, Unused, config.ratePerIp, now)
      {
        PeerPaidPrune(peers, kept, ip, config.ratePerIp, TimesOf(log, ip), clock, now);
      }
      peers := kept;
      clock := now;
      nextPrune := now + PEER_TTL;
    }

    /**
     Admits or refuses a new connection.  It is admitted exactly when every limit leaves room and both
     limiters hold a token; a refusal spends nothing.
     */
    method Admit(ip: Ip, id: nat, cancelled: bool, now: real) returns (admitted: bool)
      requires Valid() && clock <= now && id !in conns
      modifies this
      ensures Valid() && clock <= now && draining == old(draining)
      ensures var known := if now >= old(nextPrune) then AfterPrune(old(peers), now) else old(peers);
              admitted <==> !draining && !cancelled && old(pending) < config.maxHandshakes
                            && Welcome(config, known, old(global), ip, now)
      ensures admitted ==>
        && conns == old(conns)[id := Conn(ip, now + config.handshakeTimeout, false, false)] && open == old(open) + {id}
        && log == old(log) + [Admitted(now, ip)] && pending == old(pending) + 1
        && var known := if now >= old(nextPrune) then AfterPrune(old(peers), now) else old(peers);
        && peers == known[ip := Joined(config, known, ip, now)]
        && global == Spent(Refreshed(old(global), config.rate, now))
      ensures !admitted ==> conns == old(conns) && open == old(open) && log == old(log) && pending == old(pending)
      ensures authenticated == old(authenticated)
      ensures !admitted ==> NothingSpent(config, old(peers), old(global), peers, global, now)
      ensures var known := if now >= old(nextPrune) then AfterPrune(old(peers), now) else old(peers);
              !admitted ==>
                if draining || cancelled || old(pending) >= config.maxHandshakes
                then peers == old(peers) && global == old(global)
                else peers == AfterRefusal(config, known, ip, now)
                     && global == GlobalAfterRefusal(config, known, old(global), ip, now)
      ensures nextPrune == if now >= old(nextPrune) && !draining && !cancelled && old(pending) < config.maxHandshakes
                           then now + PEER_TTL else old(nextPrune)
    {
      hide Counts, Limited, Level, NothingSpent, PeersWithin;
      admitted := false;
      NothingDone(config, peers, global, now);
      if draining || cancelled || pending >= config.maxHandshakes {
        return;
      }
      if now >= nextPrune {
        Prune(now);
      }
      admitted := AdmitPruned(ip, id, now);
      if !admitted && now >= old(nextPrune) {
        OnlyPruned(config, old(peers), old(global), peers, global, now);
      }
    }

    method AdmitPruned(ip: Ip, id: nat, now: real) returns (admitted: bool)
      requires Valid() && clock <= now && id !in conns && pending < config.maxHandshakes
      modifies `peers, `pending, `global, `conns, `open, `log, `clock
      ensures Valid() && clock <= now
      ensures admitted <==> Welcome(config, old(peers), old(global), ip, now)
      ensures admitted ==>
        && conns == old(conns)[id := Conn(ip, now + config.handshakeTimeout, false, false)] && open == old(open) + {id}
        && log == old(log) + [Admitted(now, ip)] && pending == old(pending) + 1
        && peers == old(peers)[ip := Joined(config, old(peers), ip, now)]
        && global == Spent(Refreshed(old(global), config.rate, now))
      ensures !admitted ==> conns == old(conns) && open == old(open) && log == old(log) && pending == old(pending)
      ensures !admitted ==> NothingSpent(config, old(peers), old(global), peers, global, now)
      ensures !admitted ==>
        && peers == AfterRefusal(config, old(peers), ip, now)
        && global == GlobalAfterRefusal(config, old(peers), old(global), ip, now)
    {
      hide Counts, Limited, Level, NothingSpent, PeersWithin;
      admitted := false;
      NothingDone(config, peers, global, now);
      var known := ip in peers;
      if !known && |peers| >= MAX_PEERS {
        return;
      }
      var peer := if known then peers[ip] else Peer(0, 0, 0.0, Unused);
      if peer.total >= config.maxPerIp || peer.pending >= config.maxHandshakesPerIp {
        return;
      }
      LookKeeps(config, peers, global, log, clock, now, ip);
      LookSpendsNothing(config, peers, global, log, clock, now, ip);
      peer := peer.(bucket := Refreshed(peer.bucket, config.ratePerIp, now));
      NewIsFull(config, now);
      if known {
        CountsBucket(peers, pending, authenticated, conns, open, ip, peer);
        PeersWithinAdd(config, peers, ip, peer);
        peers := peers[ip := peer];
      }
      clock := now;
      if peer.bucket.tokens < 1.0 {
        return;
      }
      global := Refreshed(global, config.rate, now);
      if global.tokens < 1.0 {
        return;
      }
      peer := Peer(peer.pending + 1, peer.total + 1, now, Spent(peer.bucket));
      var c := Conn(ip, now + config.handshakeTimeout, false, false);
      AdmitKeeps(config, old(peers), old(global), log, old(clock), now, ip, peer);
      CountsAdmit(peers, pending, authenticated, conns, open, id, c, peer);
      PeersWithinAdd(config, peers, ip, peer);
      assert peers[ip := peer] == old(peers)[ip := peer];
      global := Spent(global);
      peers := peers[ip := peer];
      pending := pending + 1;
      conns, open := conns[id := c], open + {id};
      log := log + [Admitted(now, ip)];
      admitted := true;
    }

    /** The handshake deadline passed: the connection will be closed and can no longer be promoted. */
    method Expire(id: nat) returns (expire: bool)
      requires Valid()
      modifies `conns
      ensures Valid()
      ensures expire <==> id in open && !old(conns)[id].authenticated
      ensures conns == if expire then old(conns)[id := old(conns)[id].(expired := true)] else old(conns)
    {
      hide Limited, PeersWithin;
      CountsOpen(peers, pending, authenticated, conns, open);
      hide Counts;
      expire := id in open && !conns[id].authenticated;
      if expire {
        CountsExpire(peers, pending, authenticated, conns, open, id);
        conns := conns[id := conns[id].(expired := true)];
      }
    }

    /** Authentication finished: the connection moves to the authenticated pool if it still may. */
    method Promote(id: nat, cancelled: bool, now: real) returns (ok: bool)
      requires Valid()
      modifies `conns, `peers, `pending, `authenticated
      ensures Valid()
      ensures ok <==> id in open && !old(conns)[id].expired && !draining && !cancelled
                      && (old(conns)[id].authenticated
                          || (now < old(conns)[id].deadline && old(authenticated) < config.maxConnections))
      ensures conns == if ok then old(conns)[id := old(conns)[id].(authenticated := true)] else old(conns)
      ensures peers == if ok && !old(conns)[id].authenticated then Promoted(old(peers), old(conns)[id].ip)
                       else old(peers)
    {
      hide Limited, NeverBoth, Counts, PeersWithin;
      CountsOpen(peers, pending, authenticated, conns, open);
      if id !in open || conns[id].expired || draining || cancelled {
        return false;
      }
      PromotedNotExpired(conns, id);
      if conns[id].authenticated {
        return true;
      }
      if now >= conns[id].deadline || authenticated >= config.maxConnections {
        return false;
      }
      var c := conns[id];
      var p := peers[c.ip].(pending := peers[c.ip].pending - 1);
      CountsPromote(peers, pending, authenticated, conns, open, id);
      PeerWithin(config, peers, c.ip);
      PeersWithinAdd(config, peers, c.ip, p);
      SameLimiter(config, peers, global, log, clock, c.ip, p);
      conns := conns[id := c.(authenticated := true)];
      pending, authenticated := pending - 1, authenticated + 1;
      peers := peers[c.ip := p];
      return true;
    }

    /** Closing takes effect once, however often it is called. */
    method Close(id: nat, now: real)
      requires Valid() && clock <= now
      modifies `peers, `pending, `authenticated, `open, `clock
      ensures Valid() && open == old(open) - {id} && clock <= now
      ensures id !in old(open) ==> peers == old(peers) && pending == old(pending) && authenticated == old(authenticated)
      ensures id in old(open) && id in conns ==> peers == Closed(old(peers), conns[id], now)
    {
      hide Limited, NeverBoth, Counts, PeersWithin;
      CountsOpen(peers, pending, authenticated, conns, open);
      if id !in open {
        return;
      }
      var c := conns[id];
      var p := peers[c.ip];
      p := p.(total := p.total - 1, lastSeen := now, pending := if c.authenticated then p.pending else p.pending - 1);
      CountsClose(peers, pending, authenticated, conns, open, id, p);
      PeerWithin(config, peers, c.ip);
      PeersWithinAdd(config, peers, c.ip, p);
      SeenLater(config, peers, global, log, clock, now, c.ip, p);
      open := open - {id};
      peers := peers[c.ip := p];
      if c.authenticated {
        authenticated := authenticated - 1;
      } else {
        pending := pending - 1;
      }
      clock := now;
    }

    /** Shutdown: nobody is admitted or promoted from here on, and every tracked connection is closed. */
    method Drain(now: real)
      requires Valid() && clock <= now
      modifies `draining, `peers, `pending, `authenticated, `open, `clock
      ensures Valid() && draining && open == {} && pending == 0 && authenticated == 0
      ensures forall ip :: ip in peers ==> peers[ip].total == 0 && peers[ip].pending == 0
    {
      hide Counts, Limited, PeersWithin, NeverBoth;
      draining := true;
      var all := open;
      while all != {}
        invariant Valid() && clock <= now && draining && open <= all
      {
        var id :| id in all;
        Close(id, now);
        all := all - {id};
      }
      CountsNone(peers, pending, authenticated, conns, open);
    }

    /** Over any interval of length `t`, at most rate * (t + 1) connections are admitted: in all, and per source. */
    lemma RatesHold(ip: Ip, a: real, t: real)
      requires Valid() && t >= 0.0
      ensures AtMost(Times(log), config.rate, a, t) && AtMost(TimesOf(log, ip), config.ratePerIp, a, t)
    {
      hide Counts, Limited, PeersWithin, NeverBoth;
      LimitedRates(config, peers, global, log, clock, ip);
      RateWithin(Times(log), config.rate, a, t);
      RateWithin(TimesOf(log, ip), config.ratePerIp, a, t);
    }
  }
}
