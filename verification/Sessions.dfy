/** Browser sessions, one-time connection grants, connection leases and login attempts. */
module Sessions {
  import opened Arith
  import opened Bytes
  import opened Collections

  const MAX_GRANTS: nat := 32
  const MAX_ATTEMPTS: nat := 4096
  const LOGINS: nat := 10
  const MINUTE: real := 60.0
  const CONNECT_WINDOW: real := 120.0

  /** The digest of a raw token. */
  type Token = nat
  type Lease = nat

  datatype Session = Session(owner: string, ip: string, expires: real, leases: set<Lease>)

  datatype Grant = Grant(session: Token, vm: string, expires: real)

  datatype Window = Window(start: real, count: nat)

  datatype GrantResult = Granted | ErrAuthentication | ErrConflict

  datatype Pending = NoGrant | Pending(owner: string, vm: string)

  predicate WellFormed(raw: string) {
    |raw| == 64 && forall c :: c in raw ==> '0' <= c <= '9' || 'a' <= c <= 'f'
  }

  predicate ValidLogin(login: string) {
    login != "" && |login| <= 128 && '\r' !in login && '\n' !in login && '\0' !in login
  }

  // Tokens and login names.

  function HexDigit(n: nat): char
    requires n < 16
  {
    if n < 10 then '0' + n as char else 'a' + (n - 10) as char
  }

  function Hex(b: seq<byte>): string {
    seq(2 * |b|, i requires 0 <= i < 2 * |b| => HexDigit(if i % 2 == 0 then b[i / 2] / 16 else b[i / 2] % 16))
  }

  function DigitOf(c: char): (n: nat)
    requires '0' <= c <= '9' || 'a' <= c <= 'f'
    ensures n < 16 && HexDigit(n) == c
  {
    if c <= '9' then c as int - '0' as int else c as int - 'a' as int + 10
  }

  function Unhex(raw: string): (b: seq<byte>)
    requires |raw| % 2 == 0
    requires forall i :: 0 <= i < |raw| ==> '0' <= raw[i] <= '9' || 'a' <= raw[i] <= 'f'
    ensures |b| == |raw| / 2
  {
    seq(|raw| / 2, i requires 0 <= i < |raw| / 2 => (16 * DigitOf(raw[2 * i]) + DigitOf(raw[2 * i + 1])) as byte)
  }

  /** A token is looked up exactly when it is one that could have been issued: 32 bytes in hexadecimal. */
  lemma TokenIff(raw: string)
    ensures WellFormed(raw) <==> exists b: seq<byte> :: |b| == 32 && raw == Hex(b)
  {
    forall b: seq<byte> | |b| == 32
      ensures WellFormed(Hex(b))
    {
      HexFormed(b);
    }
    if WellFormed(raw) {
      HexOf(raw);
    }
  }

  lemma HexFormed(b: seq<byte>)
    requires |b| == 32
    ensures WellFormed(Hex(b))
  {
  }

  lemma HexOf(raw: string)
    requires WellFormed(raw)
    ensures exists b: seq<byte> :: |b| == 32 && raw == Hex(b)
  {
    assert forall i :: 0 <= i < 64 ==> raw[i] in raw;
    var b := Unhex(raw);
    forall i | 0 <= i < 64
      ensures Hex(b)[i] == raw[i]
    {
      var k := i / 2;
      assert b[k] == 16 * DigitOf(raw[2 * k]) + DigitOf(raw[2 * k + 1]);
      assert b[k] / 16 == DigitOf(raw[2 * k]) && b[k] % 16 == DigitOf(raw[2 * k + 1]);
      assert i == 2 * k + i % 2;
    }
    assert raw == Hex(b);
  }

  /** Login names have 1 to 128 characters, none of them NUL, LF or CR. */
  lemma LoginIff(login: string)
    ensures ValidLogin(login) <==>
      1 <= |login| < 129 && forall i :: 0 <= i < |login| ==> login[i] as int !in {0, 10, 13}
  {
  }

  // What outlives `now`.

  function LiveSessions(sessions: map<Token, Session>, now: real): map<Token, Session> {
    map k | k in sessions && now < sessions[k].expires :: sessions[k]
  }

  function LiveGrants(grants: map<Token, Grant>, now: real): map<Token, Grant> {
    map t | t in grants && now < grants[t].expires :: grants[t]
  }

  function LiveAttempts(attempts: map<string, Window>, now: real): map<string, Window> {
    map ip | ip in attempts && now - attempts[ip].start < MINUTE :: attempts[ip]
  }

  /** A session or grant lasts up to its expiry, a login window for a minute; neither is alive at its end. */
  lemma LiveUntil(sessions: map<Token, Session>, grants: map<Token, Grant>, attempts: map<string, Window>, now: real)
    ensures forall k :: k in LiveSessions(sessions, now) <==> k in sessions && sessions[k].expires > now
    ensures forall t :: t in LiveGrants(grants, now) <==> t in grants && grants[t].expires > now
    ensures forall ip :: ip in LiveAttempts(attempts, now) <==> ip in attempts && attempts[ip].start + 60.0 > now
  {
  }

  function Ended(sessions: map<Token, Session>, key: Token): map<Token, Session> {
    map k | k in sessions && k != key :: sessions[k]
  }

  function WithoutSession(grants: map<Token, Grant>, key: Token): map<Token, Grant> {
    map t | t in grants && grants[t].session != key :: grants[t]
  }

  function WithoutVm(grants: map<Token, Grant>, key: Token, vm: string): map<Token, Grant> {
    map t | t in grants && !(grants[t].session == key && grants[t].vm == vm) :: grants[t]
  }

  ghost function GrantsOf(grants: map<Token, Grant>, key: Token): set<Token> {
    set t | t in grants && grants[t].session == key
  }

  ghost function OtherGrants(grants: map<Token, Grant>, key: Token, vm: string): set<Token> {
    set t | t in grants && grants[t].session == key && grants[t].vm != vm
  }

  /** Every grant names a live session and dies with it at the latest, one per machine, at most 32. */
  ghost predicate GrantsOk(sessions: map<Token, Session>, grants: map<Token, Grant>) {
    && (forall t :: t in grants ==>
          grants[t].session in sessions && grants[t].expires <= sessions[grants[t].session].expires)
    && (forall t, u | t in grants && u in grants ::
          grants[t].session == grants[u].session && grants[t].vm == grants[u].vm ==> t == u)
    && (forall k :: |GrantsOf(grants, k)| <= MAX_GRANTS)
  }

  /** Every lease ever registered is cancelled or held by the live session it was registered with. */
  ghost predicate LeasesOk(sessions: map<Token, Session>, holder: map<Lease, Token>, cancelled: set<Lease>) {
    && (forall l :: l in holder && l !in cancelled ==> holder[l] in sessions && l in sessions[holder[l]].leases)
    && (forall k, l :: k in sessions && l in sessions[k].leases ==> l in holder && holder[l] == k)
    && cancelled <= holder.Keys
  }

  datatype Claim = Claim(token: Token, ip: string)

  /** Each token is claimed at most once, and only from the address of the session it was issued to. */
  ghost predicate ClaimsOk(claims: seq<Claim>, issued: map<Token, Token>, homes: map<Token, string>) {
    && (forall i :: 0 <= i < |claims| ==>
          var t := claims[i].token; t in issued && issued[t] in homes && homes[issued[t]] == claims[i].ip)
    && (forall i, j :: 0 <= i < j < |claims| ==> claims[i].token != claims[j].token)
  }

  /** A token that still works was issued to the session it names and has not been claimed. */
  ghost predicate TokensOk(grants: map<Token, Grant>, claims: seq<Claim>, issued: map<Token, Token>) {
    && (forall t :: t in grants ==> t in issued && issued[t] == grants[t].session)
    && (forall i :: 0 <= i < |claims| ==> claims[i].token !in grants)
  }

  /** Sessions keep their address, and ended sessions stay ended. */
  ghost predicate HomesOk(sessions: map<Token, Session>, homes: map<Token, string>, ended: set<Token>) {
    && sessions.Keys !! ended && homes.Keys == sessions.Keys + ended
    && forall k :: k in sessions ==> homes[k] == sessions[k].ip
  }

  // Grants.

  /** Grants may go at any time, and a session may go when its grants are gone. */
  lemma FewerGrants(sessions: map<Token, Session>, grants: map<Token, Grant>, sessions': map<Token, Session>,
                    grants': map<Token, Grant>)
    requires GrantsOk(sessions, grants)
    requires forall t :: t in grants' ==> t in grants && grants'[t] == grants[t]
    requires forall t :: t in grants' ==>
      var k := grants[t].session; k in sessions' && sessions'[k].expires == sessions[k].expires
    ensures GrantsOk(sessions', grants')
  {
    forall k
      ensures |GrantsOf(grants', k)| <= MAX_GRANTS
    {
      SubsetSize(GrantsOf(grants', k), GrantsOf(grants, k));
    }
  }

  lemma FewerOfSame(sessions: map<Token, Session>, grants: map<Token, Grant>, grants': map<Token, Grant>)
    requires GrantsOk(sessions, grants)
    requires forall t :: t in grants' ==> t in grants && grants'[t] == grants[t]
    ensures GrantsOk(sessions, grants')
  {
    hide GrantsOf;
    FewerGrants(sessions, grants, sessions, grants');
  }

  /** A new grant for a machine that has none keeps the bounds, if fewer than 32 others exist. */
  lemma OneMoreGrant(sessions: map<Token, Session>, grants: map<Token, Grant>, t: Token, g: Grant)
    requires GrantsOk(sessions, grants) && t !in grants && g.session in sessions
    requires g.expires <= sessions[g.session].expires && |GrantsOf(grants, g.session)| < MAX_GRANTS
    requires forall u :: u in grants ==> grants[u].session != g.session || grants[u].vm != g.vm
    ensures GrantsOk(sessions, grants[t := g])
  {
    hide GrantsOf;
    var grants' := grants[t := g];
    forall k
      ensures |GrantsOf(grants', k)| <= MAX_GRANTS
    {
      GrantsOfMore(grants, t, g, k);
    }
  }

  lemma GrantsOfMore(grants: map<Token, Grant>, t: Token, g: Grant, k: Token)
    requires t !in grants
    ensures |GrantsOf(grants[t := g], k)| == |GrantsOf(grants, k)| + if k == g.session then 1 else 0
  {
    if k == g.session {
      assert GrantsOf(grants[t := g], k) == GrantsOf(grants, k) + {t};
    } else {
      assert GrantsOf(grants[t := g], k) == GrantsOf(grants, k);
    }
  }

  /** If 32 other machines hold grants, this one holds none: refusing it loses nothing. */
  lemma FullSession(sessions: map<Token, Session>, grants: map<Token, Grant>, key: Token, vm: string)
    requires GrantsOk(sessions, grants) && |OtherGrants(grants, key, vm)| >= MAX_GRANTS
    ensures WithoutVm(grants, key, vm) == grants
  {
    SubsetSize(OtherGrants(grants, key, vm), GrantsOf(grants, key));
    forall t | t in grants
      ensures t in WithoutVm(grants, key, vm)
    {
      if grants[t].session == key {
        assert t in GrantsOf(grants, key);
      }
    }
  }

  /** Removing the machine's own grant leaves the others. */
  lemma OthersRemain(grants: map<Token, Grant>, key: Token, vm: string)
    ensures GrantsOf(WithoutVm(grants, key, vm), key) == OtherGrants(grants, key, vm)
  {
  }

  // Logins.

  /**
   The allowed logins `times` of one address, the last window that was opened for it and the number
   `first` of logins allowed before that window.  A window opens a minute or more after the one
   before it, so whatever lies eleven logins back is older than the window before this one.
   */
  ghost predicate LoginsOk(times: seq<real>, w: Window, first: nat, clock: real) {
    && first <= |times| && |times| - first == (if w.count < LOGINS then w.count else LOGINS)
    && w.start <= clock
    && (forall i :: 0 <= i < |times| ==> times[i] <= clock)
    && (forall i :: 0 <= i < first ==> times[i] <= w.start)
    && (forall i :: first <= i < |times| ==> w.start <= times[i])
    && (forall i :: 0 <= i && i + LOGINS < first ==> times[i] + MINUTE <= w.start)
    && LoginBound(times)
  }

  /** Of any 21 consecutive allowed logins, the last comes a minute or more after the first. */
  ghost predicate LoginBound(times: seq<real>) {
    forall i :: 0 <= i && i + 2 * LOGINS < |times| ==> times[i] + MINUTE <= times[i + 2 * LOGINS]
  }

  /** One more attempt in the open window. */
  lemma SameWindow(times: seq<real>, w: Window, first: nat, clock: real, now: real)
    requires LoginsOk(times, w, first, clock) && clock <= now
    ensures LoginsOk(if w.count < LOGINS then times + [now] else times, w.(count := w.count + 1), first, now)
  {
  }

  lemma LoginsLater(times: seq<real>, w: Window, first: nat, clock: real, now: real)
    requires LoginsOk(times, w, first, clock) && clock <= now
    ensures LoginsOk(times, w, first, now)
  {
    hide LoginBound;
  }

  /** The first attempt of all. */
  lemma FirstWindow(now: real)
    ensures LoginsOk([] + [now], Window(now, 1), 0, now)
  {
  }

  /** The first attempt in a new window. */
  lemma NewWindow(times: seq<real>, w: Window, first: nat, clock: real, now: real)
    requires LoginsOk(times, w, first, clock) && clock <= now && w.start + MINUTE <= now
    ensures LoginsOk(times + [now], Window(now, 1), |times|, now)
  {
    SameWindow(times, Window(now, 0), |times|, now, now);
  }

  ghost predicate AttemptsOk(attempts: map<string, Window>, logins: map<string, seq<real>>,
                             windows: map<string, (Window, nat)>, clock: real)
  {
    && logins.Keys == windows.Keys && attempts.Keys <= windows.Keys && |attempts| <= MAX_ATTEMPTS
    && (forall ip :: ip in attempts ==> attempts[ip] == windows[ip].0)
    && (forall ip :: ip in windows ==> LoginsOk(logins[ip], windows[ip].0, windows[ip].1, clock))
    && (forall ip :: ip in windows && ip !in attempts ==> windows[ip].0.start + MINUTE <= clock)
  }

  datatype State = State(sessions: map<Token, Session>, grants: map<Token, Grant>, cancelled: set<Lease>)

  /**
   What happened so far: the session each lease was registered with and each grant token issued to,
   the address of every session there ever was, the sessions that ended and the tokens claimed.
   */
  datatype History = History(holder: map<Lease, Token>, issued: map<Token, Token>, homes: map<Token, string>,
                             ended: set<Token>, claims: seq<Claim>)

  ghost predicate StoreOk(maxSessions: nat, s: State, h: History) {
    && |s.sessions| <= maxSessions
    && GrantsOk(s.sessions, s.grants) && LeasesOk(s.sessions, h.holder, s.cancelled)
    && ClaimsOk(h.claims, h.issued, h.homes) && TokensOk(s.grants, h.claims, h.issued)
    && HomesOk(s.sessions, h.homes, h.ended)
  }

  lemma NothingYet(maxSessions: nat, start: real)
    ensures StoreOk(maxSessions, State(map[], map[], {}), History(map[], map[], map[], {}, []))
    ensures AttemptsOk(map[], map[], map[], start)
  {
    NoGrants(map[]);
    hide LoginsOk, GrantsOk;
  }

  lemma NoGrants(sessions: map<Token, Session>)
    ensures GrantsOk(sessions, map[])
  {
    forall k
      ensures |GrantsOf(map[], k)| <= MAX_GRANTS
    {
      assert GrantsOf(map[], k) == {};
    }
  }

  // Ending a session keeps what must hold of the others.

  function Revoked(s: State, key: Token): State {
    State(Ended(s.sessions, key), WithoutSession(s.grants, key),
          s.cancelled + if key in s.sessions then s.sessions[key].leases else {})
  }

  ghost function RevokedHistory(s: State, h: History, key: Token): History {
    if key in s.sessions then h.(ended := h.ended + {key}) else h
  }

  lemma RevokeKeeps(maxSessions: nat, s: State, h: History, key: Token)
    requires StoreOk(maxSessions, s, h)
    ensures StoreOk(maxSessions, Revoked(s, key), RevokedHistory(s, h, key))
  {
    hide GrantsOk, LeasesOk, HomesOk, ClaimsOk, TokensOk;
    RevokeGrants(s.sessions, s.grants, key);
    FewerTokens(s.grants, WithoutSession(s.grants, key), h.claims, h.issued);
    if key in s.sessions {
      RevokeLeases(s.sessions, h.holder, s.cancelled, key);
      RevokeHomes(s.sessions, h.homes, h.ended, key);
    } else {
      assert Ended(s.sessions, key) == s.sessions;
      assert s.cancelled + {} == s.cancelled;
    }
  }

  lemma RevokeGrants(sessions: map<Token, Session>, grants: map<Token, Grant>, key: Token)
    requires GrantsOk(sessions, grants)
    ensures GrantsOk(Ended(sessions, key), WithoutSession(grants, key))
    ensures key !in sessions ==> WithoutSession(grants, key) == grants
  {
    OthersStay(sessions, grants, key);
    hide GrantsOk, Ended, WithoutSession;
    FewerGrants(sessions, grants, Ended(sessions, key), WithoutSession(grants, key));
  }

  lemma OthersStay(sessions: map<Token, Session>, grants: map<Token, Grant>, key: Token)
    requires GrantsOk(sessions, grants)
    ensures var fewer := WithoutSession(grants, key);
      && (key !in sessions ==> fewer == grants)
      && (forall t :: t in fewer ==> t in grants && fewer[t] == grants[t])
      && forall t :: t in fewer ==>
           var k := grants[t].session;
           k in sessions && k in Ended(sessions, key) && Ended(sessions, key)[k] == sessions[k]
  {
    hide GrantsOf;
  }

  lemma RevokeLeases(sessions: map<Token, Session>, holder: map<Lease, Token>, cancelled: set<Lease>, key: Token)
    requires LeasesOk(sessions, holder, cancelled) && key in sessions
    ensures LeasesOk(Ended(sessions, key), holder, cancelled + sessions[key].leases)
  {
  }

  lemma RevokeHomes(sessions: map<Token, Session>, homes: map<Token, string>, ended: set<Token>, key: Token)
    requires HomesOk(sessions, homes, ended) && key in sessions
    ensures HomesOk(Ended(sessions, key), homes, ended + {key}) && |Ended(sessions, key)| <= |sessions|
  {
    assert Ended(sessions, key).Keys == sessions.Keys - {key};
    SubsetSize(Ended(sessions, key).Keys, sessions.Keys);
  }

  lemma FewerTokens(grants: map<Token, Grant>, grants': map<Token, Grant>, claims: seq<Claim>, issued: map<Token,
                    Token>)
    requires TokensOk(grants, claims, issued)
    requires forall t :: t in grants' ==> t in grants && grants'[t] == grants[t]
    ensures TokensOk(grants', claims, issued)
  {
  }

  // Pruning.

  /** The sessions left after the expired ones outside `todo` were ended. */
  ghost function Kept(sessions: map<Token, Session>, todo: set<Token>, now: real): map<Token, Session> {
    map k | k in sessions && (k in todo || now < sessions[k].expires) :: sessions[k]
  }

  ghost function KeptGrants(sessions: map<Token, Session>, grants: map<Token, Grant>, todo: set<Token>, now: real):
    map<Token, Grant>
  {
    map t | t in grants && grants[t].session in Kept(sessions, todo, now) :: grants[t]
  }

  lemma KeptStep(sessions: map<Token, Session>, grants: map<Token, Grant>, todo: set<Token>, k: Token, now: real)
    requires k in todo && k in sessions
    ensures if now < sessions[k].expires
            then Kept(sessions, todo - {k}, now) == Kept(sessions, todo, now)
                 && KeptGrants(sessions, grants, todo - {k}, now) == KeptGrants(sessions, grants, todo, now)
            else Kept(sessions, todo - {k}, now) == Ended(Kept(sessions, todo, now), k)
                 && KeptGrants(sessions, grants, todo - {k}, now)
                    == WithoutSession(KeptGrants(sessions, grants, todo, now), k)
  {
  }

  /** The expired sessions outside `todo`, and their leases. */
  ghost function Gone(sessions: map<Token, Session>, todo: set<Token>, now: real): set<Token> {
    set k | k in sessions && k !in todo && sessions[k].expires <= now
  }

  ghost function Lost(sessions: map<Token, Session>, todo: set<Token>, now: real): set<Lease> {
    set k, l | k in Gone(sessions, todo, now) && l in sessions[k].leases :: l
  }

  lemma LostStep(sessions: map<Token, Session>, todo: set<Token>, k: Token, now: real)
    requires k in todo && k in sessions
    ensures if now < sessions[k].expires
            then Gone(sessions, todo - {k}, now) == Gone(sessions, todo, now)
                 && Lost(sessions, todo - {k}, now) == Lost(sessions, todo, now)
            else Gone(sessions, todo - {k}, now) == Gone(sessions, todo, now) + {k}
                 && Lost(sessions, todo - {k}, now) == Lost(sessions, todo, now) + sessions[k].leases
  {
  }

  lemma NoneLost(sessions: map<Token, Session>, now: real)
    ensures Gone(sessions, sessions.Keys, now) == {} && Lost(sessions, sessions.Keys, now) == {}
  {
  }

  /** The store after everything that has expired was dropped; no lease of a live session is cancelled. */
  ghost function Pruned(s: State, now: real): State {
    State(LiveSessions(s.sessions, now), LiveGrants(s.grants, now), s.cancelled + Lost(s.sessions, {}, now))
  }

  lemma KeptHas(sessions: map<Token, Session>, todo: set<Token>, k: Token, now: real)
    requires k in todo && k in sessions
    ensures k in Kept(sessions, todo, now) && Kept(sessions, todo, now)[k] == sessions[k]
  {
  }

  /** Every grant ends no later than its session, so the expired sessions' grants are expired grants. */
  lemma KeptLive(sessions: map<Token, Session>, grants: map<Token, Grant>, now: real)
    requires GrantsOk(sessions, grants)
    ensures Kept(sessions, sessions.Keys, now) == sessions && KeptGrants(sessions, grants, sessions.Keys, now) == grants
    ensures Kept(sessions, {}, now) == LiveSessions(sessions, now)
    ensures LiveGrants(KeptGrants(sessions, grants, {}, now), now) == LiveGrants(grants, now)
  {
    hide GrantsOf;
  }

  lemma FewerGrantsOk(maxSessions: nat, s: State, h: History, grants: map<Token, Grant>)
    requires StoreOk(maxSessions, s, h)
    requires forall t :: t in grants ==> t in s.grants && grants[t] == s.grants[t]
    ensures StoreOk(maxSessions, s.(grants := grants), h)
  {
    hide GrantsOk, LeasesOk, HomesOk, ClaimsOk, TokensOk;
    FewerOfSame(s.sessions, s.grants, grants);
    FewerTokens(s.grants, grants, h.claims, h.issued);
  }

  lemma PruneAttempts(attempts: map<string, Window>, logins: map<string, seq<real>>, windows: map<string, (Window,
                      nat)>,
                      clock: real, now: real)
    requires AttemptsOk(attempts, logins, windows, clock) && clock <= now
    ensures AttemptsOk(LiveAttempts(attempts, now), logins, windows, now)
  {
    hide LoginsOk;
    assert LiveAttempts(attempts, now).Keys <= attempts.Keys;
    SubsetSize(LiveAttempts(attempts, now).Keys, attempts.Keys);
    forall ip | ip in windows
      ensures LoginsOk(logins[ip], windows[ip].0, windows[ip].1, now)
    {
      LoginsLater(logins[ip], windows[ip].0, windows[ip].1, clock, now);
    }
  }

  lemma StoreFacts(maxSessions: nat, s: State, h: History)
    requires StoreOk(maxSessions, s, h)
    ensures GrantsOk(s.sessions, s.grants)
    ensures forall k, l :: k in s.sessions && l in s.sessions[k].leases ==> l in h.holder && h.holder[l] == k
    ensures forall t :: t in s.grants ==> s.grants[t].session in s.sessions
    ensures s.cancelled <= h.holder.Keys
  {
  }

  /** The leases that pruning cancels belonged to sessions that it ended. */
  lemma LostEnded(maxSessions: nat, s: State, h: History, now: real)
    requires StoreOk(maxSessions, s, h)
    ensures forall l :: l in Lost(s.sessions, {}, now) ==>
      l in h.holder && h.holder[l] !in LiveSessions(s.sessions, now)
  {
    hide GrantsOk, ClaimsOk, TokensOk, HomesOk;
  }

  // The other steps.

  lemma HomesMore(sessions: map<Token, Session>, homes: map<Token, string>, ended: set<Token>, key: Token,
                  sess: Session)
    requires HomesOk(sessions, homes, ended) && key !in homes
    ensures key !in sessions && HomesOk(sessions[key := sess], homes[key := sess.ip], ended)
  {
    assert sessions[key := sess].Keys == sessions.Keys + {key};
    assert homes[key := sess.ip].Keys == homes.Keys + {key};
  }

  lemma LeasesMore(sessions: map<Token, Session>, holder: map<Lease, Token>, cancelled: set<Lease>, key: Token,
                   sess: Session)
    requires LeasesOk(sessions, holder, cancelled) && key !in sessions && sess.leases == {}
    ensures LeasesOk(sessions[key := sess], holder, cancelled)
  {
  }

  lemma ClaimsHomes(claims: seq<Claim>, issued: map<Token, Token>, homes: map<Token, string>, key: Token, ip: string)
    requires ClaimsOk(claims, issued, homes) && key !in homes
    ensures ClaimsOk(claims, issued, homes[key := ip])
  {
  }

  lemma TokensIssued(grants: map<Token, Grant>, claims: seq<Claim>, issued: map<Token, Token>, homes: map<Token,
                     string>,
                     t: Token, g: Grant)
    requires TokensOk(grants, claims, issued) && ClaimsOk(claims, issued, homes) && t !in issued
    ensures TokensOk(grants[t := g], claims, issued[t := g.session]) && ClaimsOk(claims, issued[t := g.session], homes)
    ensures t !in grants
  {
  }

  lemma LeasesRegistered(sessions: map<Token, Session>, holder: map<Lease, Token>, cancelled: set<Lease>, key: Token,
                         l: Lease)
    requires LeasesOk(sessions, holder, cancelled) && key in sessions && l !in holder
    ensures LeasesOk(sessions[key := sessions[key].(leases := sessions[key].leases + {l})], holder[l := key], cancelled)
  {
  }

  lemma LeasesReleased(sessions: map<Token, Session>, holder: map<Lease, Token>, cancelled: set<Lease>, key: Token,
                       l: Lease)
    requires LeasesOk(sessions, holder, cancelled) && l in holder && holder[l] == key
    ensures key in sessions ==>
      LeasesOk(sessions[key := sessions[key].(leases := sessions[key].leases - {l})], holder, cancelled + {l})
    ensures key !in sessions ==> LeasesOk(sessions, holder, cancelled + {l})
  {
  }

  lemma ClaimAdded(grants: map<Token, Grant>, claims: seq<Claim>, issued: map<Token, Token>, homes: map<Token, string>,
                   t: Token)
    requires TokensOk(grants, claims, issued) && ClaimsOk(claims, issued, homes)
    requires t in grants && grants[t].session in homes
    ensures var claims' := claims + [Claim(t, homes[grants[t].session])];
            TokensOk(Claimed(grants, t), claims', issued) && ClaimsOk(claims', issued, homes)
  {
  }

  lemma SessionAdded(maxSessions: nat, s: State, h: History, key: Token, sess: Session)
    requires StoreOk(maxSessions, s, h) && key !in h.homes && sess.leases == {} && |s.sessions| < maxSessions
    ensures StoreOk(maxSessions, s.(sessions := s.sessions[key := sess]), h.(homes := h.homes[key := sess.ip]))
  {
    var sessions' := s.sessions[key := sess];
    assert sessions'.Keys == s.sessions.Keys + {key};
    StoreFacts(maxSessions, s, h);
    HomesMore(s.sessions, h.homes, h.ended, key, sess);
    hide GrantsOk, LeasesOk, ClaimsOk, TokensOk, HomesOk;
    FewerGrants(s.sessions, s.grants, sessions', s.grants);
    LeasesMore(s.sessions, h.holder, s.cancelled, key, sess);
    ClaimsHomes(h.claims, h.issued, h.homes, key, sess.ip);
  }

  /** A grant replaces the machine's earlier one; with fewer than 32 others there is room. */
  lemma GrantAdded(maxSessions: nat, s: State, h: History, t: Token, g: Grant)
    requires StoreOk(maxSessions, s, h) && t !in h.issued && g.session in s.sessions
    requires g.expires <= s.sessions[g.session].expires && |OtherGrants(s.grants, g.session, g.vm)| < MAX_GRANTS
    ensures var grants' := WithoutVm(s.grants, g.session, g.vm)[t := g];
            StoreOk(maxSessions, s.(grants := grants'), h.(issued := h.issued[t := g.session]))
  {
    var fewer := WithoutVm(s.grants, g.session, g.vm);
    FewerGrantsOk(maxSessions, s, h, fewer);
    OthersRemain(s.grants, g.session, g.vm);
    hide GrantsOf, OtherGrants, GrantsOk, LeasesOk, HomesOk, TokensOk, ClaimsOk;
    TokensIssued(fewer, h.claims, h.issued, h.homes, t, g);
    OneMoreGrant(s.sessions, fewer, t, g);
  }

  lemma LeaseAdded(maxSessions: nat, s: State, h: History, key: Token, l: Lease)
    requires StoreOk(maxSessions, s, h) && key in s.sessions && l !in h.holder
    ensures var sessions' := s.sessions[key := s.sessions[key].(leases := s.sessions[key].leases + {l})];
            StoreOk(maxSessions, s.(sessions := sessions'), h.(holder := h.holder[l := key]))
  {
    var sessions' := s.sessions[key := s.sessions[key].(leases := s.sessions[key].leases + {l})];
    SameSessions(maxSessions, s, h, sessions');
    hide GrantsOk, ClaimsOk, TokensOk, HomesOk, LeasesOk;
    LeasesRegistered(s.sessions, h.holder, s.cancelled, key, l);
  }

  lemma LeaseReleased(maxSessions: nat, s: State, h: History, l: Lease)
    requires StoreOk(maxSessions, s, h) && l in h.holder
    ensures var k := h.holder[l];
            var sessions' := if k in s.sessions
                             then s.sessions[k := s.sessions[k].(leases := s.sessions[k].leases - {l})] else s.sessions;
            StoreOk(maxSessions, s.(sessions := sessions', cancelled := s.cancelled + {l}), h)
  {
    var k := h.holder[l];
    if k in s.sessions {
      SameSessions(maxSessions, s, h, s.sessions[k := s.sessions[k].(leases := s.sessions[k].leases - {l})]);
    }
    hide GrantsOk, ClaimsOk, TokensOk, HomesOk, LeasesOk;
    LeasesReleased(s.sessions, h.holder, s.cancelled, k, l);
  }

  /** Changing leases touches nothing but leases. */
  lemma SameSessions(maxSessions: nat, s: State, h: History, sessions': map<Token, Session>)
    requires StoreOk(maxSessions, s, h) && sessions'.Keys == s.sessions.Keys
    requires forall k :: k in s.sessions ==>
      sessions'[k].expires == s.sessions[k].expires && sessions'[k].ip == s.sessions[k].ip
    ensures GrantsOk(sessions', s.grants) && HomesOk(sessions', h.homes, h.ended) && |sessions'| <= maxSessions
  {
    StoreFacts(maxSessions, s, h);
    assert |sessions'.Keys| == |s.sessions.Keys|;
    hide GrantsOk, LeasesOk, ClaimsOk, TokensOk;
    FewerGrants(s.sessions, s.grants, sessions', s.grants);
  }

  lemma TokenClaimed(maxSessions: nat, s: State, h: History, t: Token)
    requires StoreOk(maxSessions, s, h) && t in s.grants
    ensures s.grants[t].session in s.sessions
    ensures var ip := s.sessions[s.grants[t].session].ip;
            StoreOk(maxSessions, s.(grants := Claimed(s.grants, t)), h.(claims := h.claims + [Claim(t, ip)]))
  {
    StoreFacts(maxSessions, s, h);
    FewerGrantsOk(maxSessions, s, h, Claimed(s.grants, t));
    var k := s.grants[t].session;
    assert k in h.homes && h.homes[k] == s.sessions[k].ip;
    hide GrantsOk, LeasesOk, HomesOk, TokensOk, ClaimsOk;
    ClaimAdded(s.grants, h.claims, h.issued, h.homes, t);
  }

  function Claimed(grants: map<Token, Grant>, t: Token): map<Token, Grant> {
    map u | u in grants && u != t :: grants[u]
  }

  lemma LoginOf(attempts: map<string, Window>, logins: map<string, seq<real>>, windows: map<string, (Window, nat)>,
                now: real, ip: string)
    requires AttemptsOk(attempts, logins, windows, now)
    ensures var w := if ip in attempts then attempts[ip] else Window(now, 0);
            var times := if ip in logins then logins[ip] else [];
            var first := if ip in attempts then windows[ip].1 else |times|;
            LoginsOk(if w.count < LOGINS then times + [now] else times, w.(count := w.count + 1), first, now)
  {
    hide LoginsOk;
    if ip in attempts {
      SameWindow(logins[ip], attempts[ip], windows[ip].1, now, now);
    } else if ip in windows {
      NewWindow(logins[ip], windows[ip].0, windows[ip].1, now, now);
    } else {
      FirstWindow(now);
    }
  }

  lemma AttemptPut(attempts: map<string, Window>, logins: map<string, seq<real>>, windows: map<string, (Window, nat)>,
                   now: real, ip: string, w: Window, first: nat, times: seq<real>)
    requires AttemptsOk(attempts, logins, windows, now) && (ip !in attempts ==> |attempts| < MAX_ATTEMPTS)
    requires LoginsOk(times, w, first, now)
    ensures AttemptsOk(attempts[ip := w], logins[ip := times], windows[ip := (w, first)], now)
  {
    hide LoginsOk;
    var attempts', logins', windows' := attempts[ip := w], logins[ip := times], windows[ip := (w, first)];
    assert attempts'.Keys == attempts.Keys + {ip} && logins'.Keys == logins.Keys + {ip};
    assert windows'.Keys == windows.Keys + {ip};
    assert |attempts'| == |attempts.Keys + {ip}|;
    forall a | a in windows'
      ensures LoginsOk(logins'[a], windows'[a].0, windows'[a].1, now)
    {
      assert a == ip || a in windows;
    }
  }

  lemma AttemptsFacts(attempts: map<string, Window>, logins: map<string, seq<real>>, windows: map<string, (Window,
                      nat)>,
                      clock: real)
    requires AttemptsOk(attempts, logins, windows, clock)
    ensures attempts.Keys <= windows.Keys == logins.Keys
    ensures forall ip :: ip in logins ==> LoginBound(logins[ip])
  {
  }

  /** A grant that has not expired belongs to a session that has not. */
  lemma WorksLive(sessions: map<Token, Session>, grants: map<Token, Grant>, t: Token, now: real)
    requires GrantsOk(sessions, grants)
    ensures t in grants && now < grants[t].expires ==>
      grants[t].session in sessions && now < sessions[grants[t].session].expires
  {
    hide GrantsOf;
  }

  /** The grants left when only those in `todo` have not been looked at. */
  ghost function PartWithoutVm(grants: map<Token, Grant>, key: Token, vm: string, todo: set<Token>): map<Token, Grant> {
    map t | t in grants && (t in todo || !(grants[t].session == key && grants[t].vm == vm)) :: grants[t]
  }

  lemma WithoutVmEnds(grants: map<Token, Grant>, key: Token, vm: string)
    ensures PartWithoutVm(grants, key, vm, grants.Keys) == grants
    ensures PartWithoutVm(grants, key, vm, {}) == WithoutVm(grants, key, vm)
    ensures OtherGrants(grants, key, vm) - grants.Keys == {}
    ensures OtherGrants(grants, key, vm) - {} == OtherGrants(grants, key, vm)
    ensures forall t :: t in WithoutVm(grants, key, vm) ==> t in grants && WithoutVm(grants, key, vm)[t] == grants[t]
  {
  }

  lemma WithoutVmStep(grants: map<Token, Grant>, key: Token, vm: string, todo: set<Token>, t: Token)
    requires t in todo && t in grants
    ensures var part, next := PartWithoutVm(grants, key, vm, todo), PartWithoutVm(grants, key, vm, todo - {t});
            var n, n' := |OtherGrants(grants, key, vm) - todo|, |OtherGrants(grants, key, vm) - (todo - {t})|;
            && t in part && part[t] == grants[t]
            && if grants[t].session != key then next == part && n' == n
               else if grants[t].vm == vm then next == Claimed(part, t) && n' == n
               else next == part && n' == n + 1
  {
    var others := OtherGrants(grants, key, vm);
    if t in others {
      assert others - (todo - {t}) == (others - todo) + {t};
    } else {
      assert others - (todo - {t}) == others - todo;
    }
  }

  class Store {
    const maxSessions: nat
    const sessionTtl: real
    const digest: string -> Token
    var sessions: map<Token, Session>
    var grants: map<Token, Grant>
    var attempts: map<string, Window>
    var cancelled: set<Lease>
    // What happened so far.
    ghost var holder: map<Lease, Token> // the session each lease was registered with
    ghost var issued: map<Token, Token> // the session each grant token was issued to
    ghost var homes: map<Token, string> // the address of every session there ever was
    ghost var ended: set<Token>
    ghost var claims: seq<Claim>
    ghost var logins: map<string, seq<real>>
    ghost var windows: map<string, (Window, nat)>
    ghost var clock: real

    constructor (maxSessions: nat, sessionTtl: real, digest: string -> Token, ghost start: real)
      requires sessionTtl > 0.0
      ensures Valid() && clock == start
      ensures this.maxSessions == maxSessions && this.sessionTtl == sessionTtl && this.digest == digest
    {
      this.maxSessions, this.sessionTtl, this.digest := maxSessions, sessionTtl, digest;
      sessions, grants, attempts, cancelled := map[], map[], map[], {};
      holder, issued, homes, ended, claims, logins, windows, clock := map[], map[], map[], {}, [], map[], map[], start;
      new;
      hide StoreOk, AttemptsOk;
      NothingYet(maxSessions, start);
    }

    ghost function Now(): State
      reads this
    {
      State(sessions, grants, cancelled)
    }

    ghost function Past(): History
      reads this
    {
      History(holder, issued, homes, ended, claims)
    }

    ghost predicate Valid()
      reads this
    {
      && sessionTtl > 0.0
      && StoreOk(maxSessions, Now(), Past())
      && AttemptsOk(attempts, logins, windows, clock)
    }

    /** Ends a session: its leases are cancelled and its grants are gone. */
    method Revoke(key: Token)
      requires Valid()
      modifies `sessions, `grants, `cancelled, `ended
      ensures Valid()
      ensures sessions == Ended(old(sessions), key) && grants == WithoutSession(old(grants), key)
      ensures cancelled == old(cancelled) + (if key in old(sessions) then old(sessions)[key].leases else {})
      ensures ended == if key in old(sessions) then old(ended) + {key} else old(ended)
    {
      hide StoreOk, AttemptsOk;
      RevokeKeeps(maxSessions, Now(), Past(), key);
      if key in sessions {
        cancelled := cancelled + sessions[key].leases;
        ended := ended + {key};
        sessions := Ended(sessions, key);
      } else {
        assert Ended(sessions, key) == sessions;
        assert cancelled + {} == cancelled;
      }
      grants := WithoutSession(grants, key);
    }

    /** Ends the expired sessions, cancelling no lease of a session that goes on. */
    method EndExpired(now: real)
      requires Valid()
      modifies `sessions, `grants, `cancelled, `ended
      ensures Valid()
      ensures sessions == Kept(old(sessions), {}, now) && grants == KeptGrants(old(sessions), old(grants), {}, now)
      ensures cancelled == old(cancelled) + Lost(old(sessions), {}, now)
      ensures ended == old(ended) + Gone(old(sessions), {}, now)
    {
      hide StoreOk, AttemptsOk, GrantsOk, Kept, KeptGrants, Gone, Lost;
      StoreFacts(maxSessions, Now(), Past());
      KeptLive(sessions, grants, now);
      NoneLost(sessions, now);
      var todo := sessions.Keys;
      while todo != {}
        invariant Valid() && todo <= old(sessions).Keys
        invariant sessions == Kept(old(sessions), todo, now)
        invariant grants == KeptGrants(old(sessions), old(grants), todo, now)
        invariant cancelled == old(cancelled) + Lost(old(sessions), todo, now)
        invariant ended == old(ended) + Gone(old(sessions), todo, now)
      {
        var k :| k in todo;
        KeptStep(old(sessions), old(grants), todo, k, now);
        LostStep(old(sessions), todo, k, now);
        KeptHas(old(sessions), todo, k, now);
        todo := todo - {k};
        if now >= sessions[k].expires {
          Revoke(k);
        }
      }
    }

    /** Drops what has expired: sessions with their leases and grants, grants, and login windows. */
    method Prune(now: real)
      requires Valid() && clock <= now
      modifies `sessions, `grants, `cancelled, `ended, `attempts, `clock
      ensures Valid() && clock == now
      ensures Now() == Pruned(old(Now()), now) && ended == old(ended) + Gone(old(sessions), {}, now)
      ensures attempts == LiveAttempts(old(attempts), now)
      ensures forall l :: l in cancelled && l !in old(cancelled) ==> l in holder && holder[l] !in sessions
    {
      hide StoreOk, AttemptsOk, GrantsOk, Kept, KeptGrants, LiveAttempts;
      LostEnded(maxSessions, Now(), Past(), now);
      StoreFacts(maxSessions, Now(), Past());
      KeptLive(sessions, grants, now);
      EndExpired(now);
      FewerGrantsOk(maxSessions, Now(), Past(),
                    LiveGrants(grants, now));
      PruneAttempts(attempts, logins, windows, clock, now);
      grants := LiveGrants(grants, now);
      attempts := LiveAttempts(attempts, now);
      clock := now;
    }

    /** The digest of a well-formed raw token. */
    function TokenKey(raw: string): (Token, bool) {
      if WellFormed(raw) then (digest(raw), true) else (0, false)
    }

    method NewSession(owner: string, login: string, ip: string, key: Token, now: real) returns (ok: bool)
      requires Valid() && clock <= now && key !in homes
      modifies `sessions, `grants, `cancelled, `ended, `attempts, `clock, `homes
      ensures Valid() && clock <= now
      ensures ok <==> ValidLogin(login) && |LiveSessions(old(sessions), now)| < maxSessions
      ensures ok ==>
        sessions == LiveSessions(old(sessions), now)[key := Session(owner, ip, now + sessionTtl, {})]
      ensures !ValidLogin(login) ==> Now() == old(Now()) && attempts == old(attempts) && ended == old(ended)
      ensures ValidLogin(login) ==>
        && Now() == Pruned(old(Now()), now).(sessions := sessions) && ended == old(ended) + Gone(old(sessions), {}, now)
        && (!ok ==> sessions == LiveSessions(old(sessions), now))
        && attempts == LiveAttempts(old(attempts), now)
      ensures homes == if ok then old(homes)[key := ip] else old(homes)
    {
      hide StoreOk, AttemptsOk, LiveAttempts, Lost, Gone;
      if !ValidLogin(login) {
        return false;
      }
      Prune(now);
      if |sessions| >= maxSessions {
        return false;
      }
      var sess := Session(owner, ip, now + sessionTtl, {});
      SessionAdded(maxSessions, Now(), Past(), key, sess);
      sessions := sessions[key := sess];
      homes := homes[key := ip];
      return true;
    }

    /** Finds the session of a cookie presented from `ip`; an expired one is ended on the spot. */
    method Lookup(raw: string, ip: string, now: real) returns (ok: bool, key: Token)
      requires Valid()
      modifies `sessions, `grants, `cancelled, `ended
      ensures Valid() && key == TokenKey(raw).0
      ensures ok <==> WellFormed(raw) && ip != "" && key in old(sessions) && old(sessions)[key].ip == ip
                      && now < old(sessions)[key].expires
      ensures Now() == if WellFormed(raw) && ip != "" && key in old(sessions) && old(sessions)[key].ip == ip
                          && old(sessions)[key].expires <= now
                       then Revoked(old(Now()), key) else old(Now())
      ensures ended == if Now() == old(Now()) then old(ended) else old(ended) + {key}
    {
      hide StoreOk, AttemptsOk;
      key := TokenKey(raw).0;
      if !TokenKey(raw).1 || ip == "" || key !in sessions || sessions[key].ip != ip {
        return false, key;
      }
      if now >= sessions[key].expires {
        Revoke(key);
        return false, key;
      }
      return true, key;
    }

    /** Counts a login attempt and tells whether it may go on. */
    method AllowLogin(ip: string, now: real) returns (ok: bool)
      requires Valid() && clock <= now
      modifies `sessions, `grants, `cancelled, `ended, `attempts, `clock, `logins, `windows
      ensures Valid() && clock == now
      ensures var live := LiveAttempts(old(attempts), now);
              ok <==> ip != "" && (if ip in live then live[ip].count < 10 else |live| < 4096)
      ensures var live := LiveAttempts(old(attempts), now);
              attempts == if ip == "" || (ip !in live && |live| >= 4096) then live
                          else live[ip := if ip in live then live[ip].(count := live[ip].count + 1) else Window(now, 1)]
      ensures var earlier := if ip in old(logins) then old(logins)[ip] else [];
              logins == if ok then old(logins)[ip := earlier + [now]] else old(logins)
      ensures Now() == Pruned(old(Now()), now) && ended == old(ended) + Gone(old(sessions), {}, now)
    {
      hide StoreOk, AttemptsOk, LiveAttempts, LoginsOk, Pruned, Gone;
      Prune(now);
      if ip == "" || (ip !in attempts && |attempts| >= MAX_ATTEMPTS) {
        return false;
      }
      var window := if ip in attempts then attempts[ip] else Window(now, 0);
      LoginOf(attempts, logins, windows, now, ip);
      AttemptsFacts(attempts, logins, windows, now);
      ghost var times := if ip in logins then logins[ip] else [];
      ghost var first := if ip in attempts then windows[ip].1 else |times|;
      window := window.(count := window.count + 1);
      ghost var times' := if window.count <= LOGINS then times + [now] else times;
      AttemptPut(attempts, logins, windows, now, ip, window, first, times');
      attempts := attempts[ip := window];
      ok := window.count <= LOGINS;
      windows := windows[ip := (window, first)];
      if ok {
        logins := logins[ip := times + [now]];
      } else {
        assert logins[ip := times] == logins;
      }
    }

    /** Removes the session's grant for `vm`, counting its grants for other machines. */
    method ReplaceGrant(key: Token, vm: string) returns (count: nat)
      requires Valid()
      modifies `grants
      ensures Valid() && grants == WithoutVm(old(grants), key, vm)
      ensures count == |OtherGrants(old(grants), key, vm)|
    {
      hide StoreOk, AttemptsOk, OtherGrants, PartWithoutVm, WithoutVm;
      count := 0;
      var todo := grants.Keys;
      WithoutVmEnds(grants, key, vm);
      FewerGrantsOk(maxSessions, Now(), Past(), WithoutVm(grants, key, vm));
      while todo != {}
        invariant todo <= old(grants).Keys && grants == PartWithoutVm(old(grants), key, vm, todo)
        invariant count == |OtherGrants(old(grants), key, vm) - todo|
      {
        var t :| t in todo;
        WithoutVmStep(old(grants), key, vm, todo, t);
        todo := todo - {t};
        if grants[t].session == key {
          if grants[t].vm == vm {
            grants := Claimed(grants, t);
          } else {
            count := count + 1;
          }
        }
      }
    }

    /** Issues token `t` for one machine; a refusal changes nothing that had not expired. */
    method IssueGrant(key: Token, vm: string, t: Token, now: real) returns (r: GrantResult)
      requires Valid() && clock <= now && t !in issued
      modifies `sessions, `grants, `cancelled, `ended, `attempts, `clock, `issued
      ensures Valid() && clock == now && sessions == LiveSessions(old(sessions), now)
      ensures r.ErrAuthentication? <==> key !in sessions
      ensures r.ErrConflict? <==> key in sessions && |OtherGrants(LiveGrants(old(grants), now), key, vm)| >= 32
      ensures !r.Granted? ==> grants == LiveGrants(old(grants), now)
      ensures r.Granted? ==>
        grants == WithoutVm(LiveGrants(old(grants), now), key, vm)
                    [t := Grant(key, vm, MinReal(now + 120.0, sessions[key].expires))]
      ensures issued == if r.Granted? then old(issued)[t := key] else old(issued)
      ensures Now() == Pruned(old(Now()), now).(grants := grants) && ended == old(ended) + Gone(old(sessions), {}, now)
      ensures attempts == LiveAttempts(old(attempts), now)
    {
      hide StoreOk, AttemptsOk, GrantsOk, OtherGrants, WithoutVm, LiveGrants, Lost, Gone, LiveAttempts;
      Prune(now);
      if key !in sessions {
        return ErrAuthentication;
      }
      StoreFacts(maxSessions, Now(), Past());
      ghost var was := grants;
      ghost var before := Now();
      var count := ReplaceGrant(key, vm);
      if count >= MAX_GRANTS {
        FullSession(sessions, was, key, vm);
        return ErrConflict;
      }
      var g := Grant(key, vm, MinReal(now + CONNECT_WINDOW, sessions[key].expires));
      GrantAdded(maxSessions, before, Past(), t, g);
      grants := grants[t := g];
      issued := issued[t := key];
      return Granted;
    }

    /** Registers a lease with the session of a working token, without spending the token. */
    method PendingGrant(raw: string, ip: string, l: Lease, now: real) returns (r: Pending)
      requires Valid() && clock <= now && l !in holder
      modifies `sessions, `grants, `cancelled, `ended, `attempts, `clock, `holder
      ensures Valid() && clock <= now
      ensures r.Pending? <==> Works(old(sessions), old(grants), raw, ip, now)
      ensures r.Pending? ==>
        var g := old(grants)[digest(raw)];
        && r == Pending(old(sessions)[g.session].owner, g.vm)
        && var live := LiveSessions(old(sessions), now);
        && g.session in live && digest(raw) in grants && l !in cancelled
        && Now() == Pruned(old(Now()), now).(
             sessions := live[g.session := live[g.session].(leases := live[g.session].leases + {l})])
        && holder == old(holder)[l := g.session]
      ensures r.NoGrant? ==>
        holder == old(holder) && Now() == if Presented(raw, ip) then Pruned(old(Now()), now) else old(Now())
      ensures attempts == if Presented(raw, ip) then LiveAttempts(old(attempts), now) else old(attempts)
      ensures ended == if Presented(raw, ip) then old(ended) + Gone(old(sessions), {}, now) else old(ended)
    {
      hide StoreOk, AttemptsOk, GrantsOk, Lost, Gone, LiveAttempts;
      if !TokenKey(raw).1 || ip == "" {
        return NoGrant;
      }
      StoreFacts(maxSessions, Now(), Past());
      WorksLive(sessions, grants, digest(raw), now);
      Prune(now);
      if digest(raw) !in grants {
        return NoGrant;
      }
      var g := grants[digest(raw)];
      if g.session !in sessions || sessions[g.session].ip != ip {
        return NoGrant;
      }
      LeaseAdded(maxSessions, Now(), Past(), g.session, l);
      StoreFacts(maxSessions, Now(), Past());
      sessions := sessions[g.session := sessions[g.session].(leases := sessions[g.session].leases + {l})];
      holder := holder[l := g.session];
      return Pending(sessions[g.session].owner, g.vm);
    }

    /** A token and an address that are worth looking up. */
    predicate Presented(raw: string, ip: string) { WellFormed(raw) && ip != "" }

    ghost predicate Works(sessions: map<Token, Session>, grants: map<Token, Grant>, raw: string, ip: string,
                          now: real)
    {
      && WellFormed(raw) && ip != "" && digest(raw) in grants && now < grants[digest(raw)].expires
      && grants[digest(raw)].session in sessions && sessions[grants[digest(raw)].session].ip == ip
    }

    /** Spends a working token. */
    method ClaimGrant(raw: string, ip: string, now: real) returns (ok: bool)
      requires Valid() && clock <= now
      modifies `sessions, `grants, `cancelled, `ended, `attempts, `clock, `claims
      ensures Valid() && clock <= now
      ensures ok <==> Works(old(sessions), old(grants), raw, ip, now)
      ensures ok ==> claims == old(claims) + [Claim(digest(raw), ip)]
                     && grants == Claimed(LiveGrants(old(grants), now), digest(raw))
      ensures !ok ==> claims == old(claims)
      ensures Now() ==
        var pruned := if Presented(raw, ip) then Pruned(old(Now()), now) else old(Now());
        if ok then pruned.(grants := Claimed(pruned.grants, digest(raw))) else pruned
      ensures attempts == if Presented(raw, ip) then LiveAttempts(old(attempts), now) else old(attempts)
      ensures ended == if Presented(raw, ip) then old(ended) + Gone(old(sessions), {}, now) else old(ended)
    {
      hide StoreOk, AttemptsOk, GrantsOk, Lost, Gone, LiveAttempts;
      if !TokenKey(raw).1 || ip == "" {
        return false;
      }
      StoreFacts(maxSessions, Now(), Past());
      WorksLive(sessions, grants, digest(raw), now);
      Prune(now);
      if digest(raw) !in grants {
        return false;
      }
      var g := grants[digest(raw)];
      if g.session !in sessions || sessions[g.session].ip != ip {
        return false;
      }
      TokenClaimed(maxSessions, Now(), Past(), digest(raw));
      grants := Claimed(grants, digest(raw));
      claims := claims + [Claim(digest(raw), ip)];
      return true;
    }

    /** The connection ended: its lease is cancelled and forgotten, whether or not the session still lives. */
    method Release(l: Lease, key: Token)
      requires Valid() && l in holder && holder[l] == key
      modifies `sessions, `cancelled
      ensures Valid() && cancelled == old(cancelled) + {l} && sessions.Keys == old(sessions).Keys
      ensures forall k :: k in sessions ==> sessions[k] == old(sessions)[k].(leases := old(sessions)[k].leases - {l})
    {
      hide StoreOk, AttemptsOk, GrantsOk;
      LeaseReleased(maxSessions, Now(), Past(), l);
      StoreFacts(maxSessions, Now(), Past());
      cancelled := cancelled + {l};
      if key in sessions {
        sessions := sessions[key := sessions[key].(leases := sessions[key].leases - {l})];
      }
      forall k | k in sessions
        ensures sessions[k] == old(sessions)[k].(leases := old(sessions)[k].leases - {l})
      {
        if k != key {
          assert old(sessions)[k].leases - {l} == old(sessions)[k].leases;
        }
      }
    }

    /** What the store promises after any run. */
    lemma Promises()
      requires Valid()
      ensures forall t :: t in grants ==>
        grants[t].session in sessions && grants[t].expires <= sessions[grants[t].session].expires
      ensures forall t, u | t in grants && u in grants ::
        grants[t].session == grants[u].session && grants[t].vm == grants[u].vm ==> t == u
      ensures forall k :: |GrantsOf(grants, k)| <= 32
      ensures forall l :: l in holder && holder[l] in ended ==> l in cancelled
      ensures forall i, j :: 0 <= i < j < |claims| ==> claims[i].token != claims[j].token
      ensures forall i :: 0 <= i < |claims| ==>
        claims[i].token in issued && issued[claims[i].token] in homes && homes[issued[claims[i].token]] == claims[i].ip
      ensures forall ip :: ip in logins ==> LoginBound(logins[ip])
    {
      AttemptsFacts(attempts, logins, windows, clock);
      hide GrantsOf, AttemptsOk, TokensOk;
    }
  }
}
