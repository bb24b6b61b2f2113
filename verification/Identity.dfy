/** The identity store: one-time login tokens, sessions that expire, the users
    behind them, a background sweep and restarts from a snapshot. Every method
    runs as one step here; IdentitySteps looks between the locks. */
module Identity {
  import opened Collections

  datatype User = User(id: string, email: string, createdAt: int)
  datatype Token = Token(token: string, email: string, expiresAt: int, redeemed: bool)
  datatype Session = Session(sessionToken: string, userId: string, createdAt: int, expiresAt: int)

  /** uid fingerprints an email, hash is the key form of a bearer. Nothing is
      assumed of either; in particular neither need be injective. */
  datatype Env = Env(uid: string -> string, hash: string -> string)

  datatype Store = Store(users: map<string, User>, tokens: map<string, Token>, sessions: map<string, Session>)

  datatype Snapshot = Snapshot(users: seq<User>, sessions: seq<(string, Session)>)

  /** Times are in milliseconds. */
  const TOKEN_TTL: int := 15 * 60 * 1000
  const SESSION_TTL: int := 30 * 24 * 60 * 60 * 1000
  const REAP_EVERY_ISSUES: nat := 16

  /** The issue counter has 64 bits and wraps. */
  const COUNTER_RANGE: nat := 0x1_0000_0000_0000_0000

  const EMPTY := Store(map[], map[], map[])

  // ---- the operations as functions of the store ----

  function Issue(env: Env, s: Store, email: string, token: string, now: int): Store {
    var id := env.uid(email);
    s.(users := if id in s.users then s.users else s.users[id := User(id, email, now)],
       tokens := s.tokens[token := Token(token, email, now + TOKEN_TTL, false)])
  }

  predicate Redeemable(s: Store, token: string, now: int) {
    token in s.tokens && !s.tokens[token].redeemed && now <= s.tokens[token].expiresAt
  }

  function Marked(s: Store, token: string): Store
    requires token in s.tokens
  {
    s.(tokens := s.tokens[token := s.tokens[token].(redeemed := true)])
  }

  function Minted(env: Env, email: string, bearer: string, now: int): Session {
    Session(bearer, env.uid(email), now, now + SESSION_TTL)
  }

  function Redeem(env: Env, s: Store, token: string, bearer: string, now: int): (Store, Option<Session>) {
    if Redeemable(s, token, now) then
      var session := Minted(env, s.tokens[token].email, bearer, now);
      var m := Marked(s, token);
      (m.(sessions := m.sessions[env.hash(bearer) := session]), Some(session))
    else
      (s, None)
  }

  function Lookup(env: Env, s: Store, bearer: string, now: int): Option<User> {
    var key := env.hash(bearer);
    if key !in s.sessions || now > s.sessions[key].expiresAt then None
    else if s.sessions[key].userId in s.users then Some(s.users[s.sessions[key].userId])
    else None
  }

  function LiveTokens(s: Store, now: int): map<string, Token> {
    map k | k in s.tokens && !s.tokens[k].redeemed && s.tokens[k].expiresAt > now :: s.tokens[k]
  }

  function LiveSessions(sessions: map<string, Session>, now: int): map<string, Session> {
    map k | k in sessions && sessions[k].expiresAt > now :: sessions[k]
  }

  function TokenUsers(env: Env, tokens: map<string, Token>): set<string> {
    set k | k in tokens :: env.uid(tokens[k].email)
  }

  function SessionUsers(sessions: map<string, Session>): set<string> {
    set k | k in sessions :: sessions[k].userId
  }

  function KeepUsers(users: map<string, User>, ids: set<string>): map<string, User> {
    map k | k in users && k in ids :: users[k]
  }

  function Reap(env: Env, s: Store, now: int): Store {
    var tokens := LiveTokens(s, now);
    var sessions := LiveSessions(s.sessions, now);
    Store(KeepUsers(s.users, TokenUsers(env, tokens) + SessionUsers(sessions)), tokens, sessions)
  }

  function Cleared(sessions: map<string, Session>): map<string, Session> {
    map k | k in sessions :: sessions[k].(sessionToken := "")
  }

  /** What a restart at time now leaves of s: no tokens, no bearer, no session
      past its time. */
  function Restart(s: Store, now: int): Store {
    Store(s.users, map[], LiveSessions(Cleared(s.sessions), now))
  }

  // ---- how often a sweep is asked for ----

  ghost predicate EverySixteenth(asks: seq<bool>) {
    forall i | 0 <= i < |asks| :: asks[i] <==> i % REAP_EVERY_ISSUES == 0
  }

  /** Of any sixteen consecutive issuances exactly one asks for a sweep. */
  lemma OneSweepInSixteen(asks: seq<bool>, from: nat) returns (k: nat)
    requires EverySixteenth(asks) && from + 16 <= |asks|
    ensures from <= k < from + 16
    ensures forall i | from <= i < from + 16 :: asks[i] <==> i == k
  {
    k := (from + 15) / 16 * 16;
  }

  lemma NextRemainder(n: nat, q: nat, r: nat)
    requires n == q * COUNTER_RANGE + r && r < COUNTER_RANGE
    ensures (n + 1) % COUNTER_RANGE == if r + 1 == COUNTER_RANGE then 0 else r + 1
  {
    if r + 1 == COUNTER_RANGE {
      assert n + 1 == (q + 1) * COUNTER_RANGE;
    } else {
      assert n + 1 == q * COUNTER_RANGE + (r + 1);
    }
  }

  lemma SixteenthOfRemainder(n: nat, q: nat, r: nat)
    requires n == q * COUNTER_RANGE + r
    ensures r % REAP_EVERY_ISSUES == n % REAP_EVERY_ISSUES
  {
    var s := q * 0x1000_0000_0000_0000;
    assert n == s * 16 + r;
  }

  /** Sixteen divides the counter's range, so wrapping does not disturb the rhythm. */
  lemma CounterWraps(n: nat)
    ensures (n % COUNTER_RANGE + 1) % COUNTER_RANGE == (n + 1) % COUNTER_RANGE
    ensures n % COUNTER_RANGE % REAP_EVERY_ISSUES == n % REAP_EVERY_ISSUES
  {
    var q, r := n / COUNTER_RANGE, n % COUNTER_RANGE;
    NextRemainder(n, q, r);
    NextRemainder(r, 0, r);
    SixteenthOfRemainder(n, q, r);
  }

  // ---- the store as the program keeps it ----

  class UserStore {
    var users: map<string, User>
    var tokens: map<string, Token>
    var sessions: map<string, Session>
    var issueCount: nat
    /** For each issuance so far, whether it asked for a sweep. */
    ghost var asks: seq<bool>

    constructor ()
      ensures Value() == EMPTY && Counted() && asks == []
    {
      users, tokens, sessions, issueCount, asks := map[], map[], map[], 0, [];
    }

    /** The counter, which wraps, and what it has led to over the store's life. */
    ghost predicate Counted()
      reads this
    {
      issueCount == |asks| % COUNTER_RANGE && EverySixteenth(asks)
    }

    function Value(): Store
      reads this
    {
      Store(users, tokens, sessions)
    }

    /** Every sixteenth issuance of the store's life, the first included, asks for
        a sweep, also across a wrap of the counter; the sweep itself is a task of
        its own (Sweep) that may run at any moment. */
    method MaybeReapExpired() returns (spawned: bool)
      requires Counted()
      modifies this`issueCount, this`asks
      ensures Counted() && asks == old(asks) + [spawned]
      ensures spawned <==> old(issueCount) % REAP_EVERY_ISSUES == 0
    {
      CounterWraps(|asks|);
      spawned := issueCount % REAP_EVERY_ISSUES == 0;
      issueCount := (issueCount + 1) % COUNTER_RANGE;
      asks := asks + [spawned];
    }

    method IssueToken(env: Env, email: string, token: string, now: int) returns (t: Token, sweep: bool)
      requires Counted()
      modifies this
      ensures Counted() && asks == old(asks) + [sweep]
      ensures Value() == Issue(env, old(Value()), email, token, now)
      ensures token in tokens && t == tokens[token] == Token(token, email, now + TOKEN_TTL, false)
      ensures sweep <==> old(issueCount) % REAP_EVERY_ISSUES == 0
    {
      sweep := MaybeReapExpired();
      var id := env.uid(email);
      if id !in users {
        users := users[id := User(id, email, now)];
      }
      t := Token(token, email, now + TOKEN_TTL, false);
      tokens := tokens[token := t];
    }

    method RedeemToken(env: Env, token: string, bearer: string, now: int) returns (r: Option<Session>)
      modifies this`tokens, this`sessions
      ensures (Value(), r) == Redeem(env, old(Value()), token, bearer, now)
    {
      if token !in tokens {
        return None;
      }
      var t := tokens[token];
      if t.redeemed {
        return None;
      }
      if now > t.expiresAt {
        return None;
      }
      tokens := tokens[token := t.(redeemed := true)];
      var session := Session(bearer, env.uid(t.email), now, now + SESSION_TTL);
      sessions := sessions[env.hash(bearer) := session];
      r := Some(session);
    }

    method LookupSession(env: Env, bearer: string, now: int) returns (r: Option<User>)
      ensures r == Lookup(env, Value(), bearer, now)
    {
      var key := env.hash(bearer);
      if key !in sessions {
        return None;
      }
      var s := sessions[key];
      if now > s.expiresAt {
        return None;
      }
      if s.userId !in users {
        return None;
      }
      r := Some(users[s.userId]);
    }

    method Sweep(env: Env, now: int)
      modifies this`users, this`tokens, this`sessions
      ensures Value() == Reap(env, old(Value()), now)
    {
      tokens := map k | k in tokens && !tokens[k].redeemed && tokens[k].expiresAt > now :: tokens[k];
      sessions := map k | k in sessions && sessions[k].expiresAt > now :: sessions[k];
      var liveTokenUsers := set k | k in tokens :: env.uid(tokens[k].email);
      var liveSessionUsers := set k | k in sessions :: sessions[k].userId;
      users := map k | k in users && (k in liveTokenUsers || k in liveSessionUsers) :: users[k];
    }

    /** The snapshot lists the users and, under their hashed keys, the sessions
        with the bearer wiped. */
    method TakeSnapshot() returns (snap: Snapshot)
      ensures ById(users) ==> Lists(Keyed(snap.users), users) && NoDuplicates(Keyed(snap.users))
      ensures Lists(snap.sessions, Cleared(sessions)) && NoDuplicates(snap.sessions)
      ensures forall i | 0 <= i < |snap.sessions| :: snap.sessions[i].1.sessionToken == ""
    {
      var us := ListMap(users);
      var ss := ListMap(Cleared(sessions));
      snap := Snapshot(seq(|us|, i requires 0 <= i < |us| => us[i].1), ss);
      assert ById(users) ==> Keyed(snap.users) == us;
    }

    method Restore(snap: Snapshot, now: int)
      modifies this`users, this`sessions
      ensures users == InsertAll(old(users), Keyed(snap.users))
      ensures sessions == InsertAll(old(sessions), Unexpired(snap.sessions, now))
    {
      for i := 0 to |snap.users|
        invariant users == InsertAll(old(users), Keyed(snap.users[..i])) && sessions == old(sessions)
      {
        var u := snap.users[i];
        InsertAllSnoc(old(users), Keyed(snap.users[..i]), (u.id, u));
        assert Keyed(snap.users[..i + 1]) == Keyed(snap.users[..i]) + [(u.id, u)];
        users := users[u.id := u];
      }
      assert snap.users[..|snap.users|] == snap.users;
      for i := 0 to |snap.sessions|
        invariant users == InsertAll(old(users), Keyed(snap.users))
        invariant sessions == InsertAll(old(sessions), Unexpired(snap.sessions[..i], now))
      {
        var entry := snap.sessions[i];
        assert snap.sessions[..i + 1] == snap.sessions[..i] + [entry];
        FilterSnoc(snap.sessions[..i], entry, NotExpired(now));
        if entry.1.expiresAt > now {
          InsertAllSnoc(old(sessions), Unexpired(snap.sessions[..i], now), entry);
          sessions := sessions[entry.0 := entry.1];
        } else {
          assert Unexpired(snap.sessions[..i + 1], now) == Unexpired(snap.sessions[..i], now);
        }
      }
      assert snap.sessions[..|snap.sessions|] == snap.sessions;
    }

    /** Shut down, boot a new process and load the snapshot at time now. */
    method Reboot(now: int) returns (next: UserStore)
      requires ById(users)
      ensures fresh(next)
      ensures next.Value() == Restart(Value(), now)
    {
      var snap := TakeSnapshot();
      next := new UserStore();
      next.Restore(snap, now);
      ListingRebuilds(Keyed(snap.users), users);
      UnexpiredLists(snap.sessions, Cleared(sessions), now);
      ListingRebuilds(Unexpired(snap.sessions, now), LiveSessions(Cleared(sessions), now));
    }
  }

  ghost predicate ById(users: map<string, User>) {
    forall k | k in users :: users[k].id == k
  }

  function Keyed(us: seq<User>): seq<(string, User)> {
    seq(|us|, i requires 0 <= i < |us| => (us[i].id, us[i]))
  }

  function NotExpired(now: int): ((string, Session)) -> bool {
    (e: (string, Session)) => e.1.expiresAt > now
  }

  function Unexpired(entries: seq<(string, Session)>, now: int): seq<(string, Session)> {
    Filter(entries, NotExpired(now))
  }

  lemma UnexpiredLists(entries: seq<(string, Session)>, m: map<string, Session>, now: int)
    requires Lists(entries, m)
    ensures Lists(Unexpired(entries, now), LiveSessions(m, now))
  {
    var kept := Unexpired(entries, now);
    forall i | 0 <= i < |kept|
      ensures kept[i].0 in LiveSessions(m, now) && m[kept[i].0] == kept[i].1
    {
      FilterMember(entries, NotExpired(now), kept[i]);
    }
    forall k | k in LiveSessions(m, now)
      ensures (k, m[k]) in kept
    {
      FilterMember(entries, NotExpired(now), (k, m[k]));
    }
  }

  // ---- what every store built by these operations satisfies ----

  /** Users sit under their ids, and whoever holds a usable token or a session
      has a user. */
  ghost predicate Inv(env: Env, s: Store) {
    && ById(s.users)
    && (forall k | k in s.tokens && !s.tokens[k].redeemed :: env.uid(s.tokens[k].email) in s.users)
    && (forall k | k in s.sessions :: s.sessions[k].userId in s.users)
  }

  lemma IssueKeepsInv(env: Env, s: Store, email: string, token: string, now: int)
    requires Inv(env, s)
    ensures Inv(env, Issue(env, s, email, token, now))
  {
  }

  lemma RedeemKeepsInv(env: Env, s: Store, token: string, bearer: string, now: int)
    requires Inv(env, s)
    ensures Inv(env, Redeem(env, s, token, bearer, now).0)
  {
  }

  lemma ReapKeepsInv(env: Env, s: Store, now: int)
    requires Inv(env, s)
    ensures Inv(env, Reap(env, s, now))
  {
    var s' := Reap(env, s, now);
    forall k | k in s'.tokens && !s'.tokens[k].redeemed
      ensures env.uid(s'.tokens[k].email) in s'.users
    {
      assert env.uid(s'.tokens[k].email) in TokenUsers(env, s'.tokens);
    }
    forall k | k in s'.sessions
      ensures s'.sessions[k].userId in s'.users
    {
      assert s'.sessions[k].userId in SessionUsers(s'.sessions);
    }
  }

  lemma RestartKeepsInv(env: Env, s: Store, now: int)
    requires Inv(env, s)
    ensures Inv(env, Restart(s, now))
  {
  }

  /** The whole login. The token works once and for fifteen minutes, the last instant
      included. The client is handed the bearer, and looking up what it was handed
      gives the user of that email, as first stored, for thirty days, the last instant
      included, and nothing afterwards. */
  lemma LoginFlow(
    env: Env, s: Store, email: string, token: string, bearer: string, issued: int, redeemed: int, seen: int)
    requires Inv(env, s)
    ensures var before := Issue(env, s, email, token, issued);
            var (after, r) := Redeem(env, before, token, bearer, redeemed);
            var id := env.uid(email);
            var user := if id in s.users then s.users[id] else User(id, email, issued);
            if redeemed > issued + 15 * 60 * 1000 then r == None && after == before
            else
              && r.Some? && r.value.sessionToken == bearer
              && r.value.userId == user.id == id && r.value.createdAt == redeemed
              && (forall b, t :: Redeem(env, after, token, b, t) == (after, None))
              && Lookup(env, after, r.value.sessionToken, seen)
                 == if seen <= redeemed + 30 * 24 * 60 * 60 * 1000 then Some(user) else None
  {
    IssueKeepsInv(env, s, email, token, issued);
    RedeemKeepsInv(env, Issue(env, s, email, token, issued), token, bearer, redeemed);
  }

  /** Issuing or redeeming one token changes no answer about another token, nor about
      a bearer that is kept under another key. */
  lemma OthersUnaffected(
    env: Env, s: Store, email: string, token: string, bearer: string, now: int,
    otherToken: string, otherBearer: string, minted: string, at: int)
    requires Inv(env, s)
    ensures var issued := Issue(env, s, email, token, now);
            && (otherToken != token ==>
                  Redeem(env, issued, otherToken, minted, at).1 == Redeem(env, s, otherToken, minted, at).1)
            && Lookup(env, issued, otherBearer, at) == Lookup(env, s, otherBearer, at)
    ensures var after := Redeem(env, s, token, bearer, now).0;
            && (otherToken != token ==>
                  Redeem(env, after, otherToken, minted, at).1 == Redeem(env, s, otherToken, minted, at).1)
            && (env.hash(otherBearer) != env.hash(bearer) ==>
                  Lookup(env, after, otherBearer, at) == Lookup(env, s, otherBearer, at))
  {
  }

  /** Sweeping keeps, unchanged, exactly the tokens that are neither redeemed nor
      expired, the sessions not expired, and the users that some such token's email or
      some such session names. */
  lemma SweepKeepsExactly(env: Env, s: Store, now: int, k: string)
    ensures var r := Reap(env, s, now);
            && (k in r.tokens <==> k in s.tokens && !s.tokens[k].redeemed && s.tokens[k].expiresAt > now)
            && (k in r.tokens ==> r.tokens[k] == s.tokens[k])
            && (k in r.sessions <==> k in s.sessions && s.sessions[k].expiresAt > now)
            && (k in r.sessions ==> r.sessions[k] == s.sessions[k])
            && (k in r.users <==>
                  && k in s.users
                  && (|| (exists t :: t in s.tokens && !s.tokens[t].redeemed && s.tokens[t].expiresAt > now
                                      && env.uid(s.tokens[t].email) == k)
                      || (exists h :: h in s.sessions && s.sessions[h].expiresAt > now && s.sessions[h].userId == k)))
            && (k in r.users ==> r.users[k] == s.users[k])
  {
    var r := Reap(env, s, now);
    if t :| t in s.tokens && !s.tokens[t].redeemed && s.tokens[t].expiresAt > now && env.uid(s.tokens[t].email) == k {
      assert t in r.tokens;
    }
    if h :| h in s.sessions && s.sessions[h].expiresAt > now && s.sessions[h].userId == k {
      assert h in r.sessions;
    }
  }

  /** A restart keeps every user, no token, and exactly the unexpired sessions, with
      the bearer wiped and all else as it was. */
  lemma RestartKeepsExactly(s: Store, now: int, k: string)
    ensures var r := Restart(s, now);
            && r.users == s.users && r.tokens == map[]
            && (k in r.sessions <==> k in s.sessions && s.sessions[k].expiresAt > now)
            && (k in r.sessions ==>
                  r.sessions[k] == Session("", s.sessions[k].userId, s.sessions[k].createdAt, s.sessions[k].expiresAt))
  {
  }

  // ---- sweeps and restarts are invisible ----

  /** One thing that happens to a store at a given time. The first three come
      from clients and are answered; the last two are maintenance. */
  datatype Event =
    | DoIssue(at: int, email: string, token: string)
    | DoRedeem(at: int, token: string, bearer: string)
    | DoLookup(at: int, bearer: string)
    | DoReap(at: int)
    | DoRestart(at: int)

  datatype Answer = Issued | Redeemed(session: Option<Session>) | LookedUp(id: Option<string>)

  predicate Maintenance(e: Event) {
    e.DoReap? || e.DoRestart?
  }

  function Act(env: Env, s: Store, e: Event): Store {
    match e
    case DoIssue(at, email, token) => Issue(env, s, email, token, at)
    case DoRedeem(at, token, bearer) => Redeem(env, s, token, bearer, at).0
    case DoLookup(_, _) => s
    case DoReap(at) => Reap(env, s, at)
    case DoRestart(at) => Restart(s, at)
  }

  function IdOf(u: Option<User>): Option<string> {
    if u.None? then None else Some(u.value.id)
  }

  function Reply(env: Env, s: Store, e: Event): Answer
    requires !Maintenance(e)
  {
    match e
    case DoIssue(_, _, _) => Issued
    case DoRedeem(at, token, bearer) => Redeemed(Redeem(env, s, token, bearer, at).1)
    case DoLookup(at, bearer) => LookedUp(IdOf(Lookup(env, s, bearer, at)))
  }

  /** The replies a run of events gives its clients. */
  function Replies(env: Env, s: Store, es: seq<Event>): seq<Answer>
    decreases |es|
  {
    if es == [] then []
    else (if Maintenance(es[0]) then [] else [Reply(env, s, es[0])]) + Replies(env, Act(env, s, es[0]), es[1..])
  }

  function ClientsOnly(es: seq<Event>): seq<Event> {
    if es == [] then [] else (if Maintenance(es[0]) then [] else [es[0]]) + ClientsOnly(es[1..])
  }

  /** What an observer knows of the run so far: the time of the latest
      maintenance, the tokens issued, and those a restart has since lost. */
  datatype Past = Past(swept: int, issued: set<string>, lost: set<string>)

  function After(p: Past, e: Event): Past {
    match e
    case DoIssue(_, _, token) => p.(issued := p.issued + {token}, lost := p.lost - {token})
    case DoReap(at) => p.(swept := Max(p.swept, at))
    case DoRestart(at) => p.(swept := Max(p.swept, at), lost := p.issued)
    case _ => p
  }

  /** Clients redeem and look up strictly later than any earlier maintenance, and
      nobody redeems a token from before the last restart (tokens are not persisted). */
  predicate WellTimed(p: Past, es: seq<Event>)
    decreases |es|
  {
    es == []
    || (&& (es[0].DoRedeem? || es[0].DoLookup? ==> es[0].at > p.swept)
        && (es[0].DoRedeem? ==> es[0].token !in p.lost)
        && WellTimed(After(p, es[0]), es[1..]))
  }

  /** r is i after maintenance up to time p.swept: it lacks only what is dead. */
  ghost predicate Behind(env: Env, r: Store, i: Store, p: Past) {
    && Inv(env, r) && Inv(env, i)
    && i.tokens.Keys <= p.issued
    && (forall k | k in r.tokens :: k in i.tokens && r.tokens[k] == i.tokens[k])
    && (forall k | k in i.tokens && k !in r.tokens ::
          k in p.lost || i.tokens[k].redeemed || i.tokens[k].expiresAt <= p.swept)
    && (forall k | k in r.sessions ::
          k in i.sessions && r.sessions[k].userId == i.sessions[k].userId
          && r.sessions[k].expiresAt == i.sessions[k].expiresAt)
    && (forall k | k in i.sessions && k !in r.sessions :: i.sessions[k].expiresAt <= p.swept)
  }

  lemma SameReply(env: Env, r: Store, i: Store, p: Past, e: Event)
    requires Behind(env, r, i, p) && !Maintenance(e) && WellTimed(p, [e])
    ensures Reply(env, r, e) == Reply(env, i, e)
  {
  }

  lemma ClientKeepsBehind(env: Env, r: Store, i: Store, p: Past, e: Event)
    requires Behind(env, r, i, p) && !Maintenance(e) && WellTimed(p, [e])
    ensures Behind(env, Act(env, r, e), Act(env, i, e), After(p, e))
  {
    match e {
      case DoIssue(at, email, token) =>
        IssueKeepsInv(env, r, email, token, at);
        IssueKeepsInv(env, i, email, token, at);
      case DoRedeem(at, token, bearer) =>
        RedeemKeepsInv(env, r, token, bearer, at);
        RedeemKeepsInv(env, i, token, bearer, at);
      case _ =>
    }
  }

  lemma MaintenanceKeepsBehind(env: Env, r: Store, i: Store, p: Past, e: Event)
    requires Behind(env, r, i, p) && Maintenance(e)
    ensures Behind(env, Act(env, r, e), i, After(p, e))
  {
    ReapKeepsInv(env, r, e.at);
    RestartKeepsInv(env, r, e.at);
  }

  lemma {:induction false} RepliesAgree(env: Env, r: Store, i: Store, p: Past, es: seq<Event>)
    requires Behind(env, r, i, p) && WellTimed(p, es)
    ensures Replies(env, r, es) == Replies(env, i, ClientsOnly(es))
    decreases |es|
  {
    if es != [] {
      var e := es[0];
      if Maintenance(e) {
        MaintenanceKeepsBehind(env, r, i, p, e);
        RepliesAgree(env, Act(env, r, e), i, After(p, e), es[1..]);
        assert ClientsOnly(es) == ClientsOnly(es[1..]);
      } else {
        assert WellTimed(After(p, e), [e][1..]);
        SameReply(env, r, i, p, e);
        ClientKeepsBehind(env, r, i, p, e);
        RepliesAgree(env, Act(env, r, e), Act(env, i, e), After(p, e), es[1..]);
        assert ClientsOnly(es)[1..] == ClientsOnly(es[1..]);
      }
    }
  }

  /** A store swept and restarted at arbitrary moments answers every client as
      one that never is: same sessions minted, same lookups resolved, to the
      same user ids. */
  lemma MaintenanceIsInvisible(env: Env, es: seq<Event>, start: int)
    requires WellTimed(Past(start, {}, {}), es)
    ensures Replies(env, EMPTY, es) == Replies(env, EMPTY, ClientsOnly(es))
  {
    RepliesAgree(env, EMPTY, EMPTY, Past(start, {}, {}), es);
  }

  /** The store a run of events leaves. */
  function Outcome(env: Env, s: Store, es: seq<Event>): Store
    decreases |es|
  {
    if es == [] then s else Outcome(env, Act(env, s, es[0]), es[1..])
  }

  /** With whole methods as steps, every run of clients, sweeps and restarts keeps
      users under their ids and a user for every usable token and every session. */
  lemma {:induction false} RunKeepsInv(env: Env, s: Store, es: seq<Event>)
    requires Inv(env, s)
    ensures Inv(env, Outcome(env, s, es))
    decreases |es|
  {
    if es != [] {
      ActKeepsInv(env, s, es[0]);
      hide Act, Inv;
      RunKeepsInv(env, Act(env, s, es[0]), es[1..]);
    }
  }

  lemma ActKeepsInv(env: Env, s: Store, e: Event)
    requires Inv(env, s)
    ensures Inv(env, Act(env, s, e))
  {
    hide Inv, Issue, Redeem, Reap, Restart;
    match e {
      case DoIssue(at, email, token) => IssueKeepsInv(env, s, email, token, at);
      case DoRedeem(at, token, bearer) => RedeemKeepsInv(env, s, token, bearer, at);
      case DoLookup(_, _) =>
      case DoReap(at) => ReapKeepsInv(env, s, at);
      case DoRestart(at) => RestartKeepsInv(env, s, at);
    }
  }

  /** Against a single sweep or restart, for any later or equal time, the answer
      to a lookup changes exactly when the two times are equal and the session
      expires at that instant: lookup still accepts it, maintenance dropped it. */
  lemma LookupChangesExactly(env: Env, s: Store, bearer: string, swept: int, t: int)
    requires Inv(env, s) && swept <= t
    ensures var atExpiry := env.hash(bearer) in s.sessions && s.sessions[env.hash(bearer)].expiresAt == t;
            && (Lookup(env, Reap(env, s, swept), bearer, t) == Lookup(env, s, bearer, t) <==> !(t == swept && atExpiry))
            && (Lookup(env, Restart(s, swept), bearer, t) == Lookup(env, s, bearer, t) <==> !(t == swept && atExpiry))
  {
    ReapKeepsInv(env, s, swept);
  }

  /** The same for redeeming after a sweep; a restart, which keeps no tokens,
      changes the answer for exactly the tokens that could be redeemed. */
  lemma RedeemChangesExactly(env: Env, s: Store, token: string, bearer: string, swept: int, t: int)
    requires Inv(env, s) && swept <= t
    ensures var atExpiry := token in s.tokens && !s.tokens[token].redeemed && s.tokens[token].expiresAt == t;
            Redeem(env, Reap(env, s, swept), token, bearer, t).1 == Redeem(env, s, token, bearer, t).1
            <==> !(t == swept && atExpiry)
    ensures Redeem(env, Restart(s, swept), token, bearer, t).1 == Redeem(env, s, token, bearer, t).1
            <==> !Redeemable(s, token, t)
  {
  }
}
