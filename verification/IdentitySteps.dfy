/** The identity store at lock granularity: each lock is taken and dropped in a
    step of its own, and any number of issuing, redeeming and sweeping tasks
    interleave. */
module IdentitySteps {
  import opened Collections
  import opened Identity

  /** Where a task stands between two locks. */
  datatype Task =
    | Provisioned(email: string, token: string)          // user stored, token not yet
    | Claimed(token: string, email: string)              // token marked, session not yet stored
    | SweptTokens                                        // sweep: tokens done
    | SweptSessions                                      // sweep: sessions done
    | SawTokenUsers(tokenUsers: set<string>)             // sweep: read the tokens again
    | SawAllUsers(ids: set<string>)                      // sweep: read the sessions again
    | Ended

  /** issued: tokens ever handed out; claimed: tokens ever marked; minted: the
      token behind each session stored, in order. */
  datatype State = State(
    store: Store, tasks: seq<Task>, issued: set<string>, claimed: set<string>, minted: seq<string>)

  datatype Step =
    | BeginIssue(email: string, token: string, now: int)
    | StoreToken(t: nat, now: int)
    | Claim(token: string, now: int)
    | StoreSession(t: nat, bearer: string, now: int)
    | BeginSweep(now: int)
    | SweepSessions(t: nat, now: int)
    | ReadTokenUsers(t: nat)
    | ReadSessionUsers(t: nat)
    | SweepUsers(t: nat)

  predicate Enabled(s: State, step: Step) {
    match step
    case BeginIssue(_, token, _) => token !in s.issued   // tokens are fresh
    case StoreToken(t, _) => t < |s.tasks| && s.tasks[t].Provisioned?
    case Claim(token, now) => Redeemable(s.store, token, now)
    case StoreSession(t, _, _) => t < |s.tasks| && s.tasks[t].Claimed?
    case BeginSweep(_) => true
    case SweepSessions(t, _) => t < |s.tasks| && s.tasks[t].SweptTokens?
    case ReadTokenUsers(t) => t < |s.tasks| && s.tasks[t].SweptSessions?
    case ReadSessionUsers(t) => t < |s.tasks| && s.tasks[t].SawTokenUsers?
    case SweepUsers(t) => t < |s.tasks| && s.tasks[t].SawAllUsers?
  }

  function Apply(env: Env, s: State, step: Step): State
    requires Enabled(s, step)
  {
    var st := s.store;
    match step
    case BeginIssue(email, token, now) =>
      var id := env.uid(email);
      s.(store := st.(users := if id in st.users then st.users else st.users[id := User(id, email, now)]),
         tasks := s.tasks + [Provisioned(email, token)], issued := s.issued + {token})
    case StoreToken(t, now) =>
      var task := s.tasks[t];
      s.(store := st.(tokens := st.tokens[task.token := Token(task.token, task.email, now + TOKEN_TTL, false)]),
         tasks := s.tasks[t := Ended])
    case Claim(token, now) =>
      s.(store := Marked(st, token), tasks := s.tasks + [Claimed(token, st.tokens[token].email)],
         claimed := s.claimed + {token})
    case StoreSession(t, bearer, now) =>
      var task := s.tasks[t];
      s.(store := st.(sessions := st.sessions[env.hash(bearer) := Minted(env, task.email, bearer, now)]),
         tasks := s.tasks[t := Ended], minted := s.minted + [task.token])
    case BeginSweep(now) => s.(store := st.(tokens := LiveTokens(st, now)), tasks := s.tasks + [SweptTokens])
    case SweepSessions(t, now) =>
      s.(store := st.(sessions := LiveSessions(st.sessions, now)), tasks := s.tasks[t := SweptSessions])
    case ReadTokenUsers(t) => s.(tasks := s.tasks[t := SawTokenUsers(TokenUsers(env, st.tokens))])
    case ReadSessionUsers(t) =>
      s.(tasks := s.tasks[t := SawAllUsers(s.tasks[t].tokenUsers + SessionUsers(st.sessions))])
    case SweepUsers(t) =>
      s.(store := st.(users := KeepUsers(st.users, s.tasks[t].ids)), tasks := s.tasks[t := Ended])
  }

  ghost predicate Legal(env: Env, s: State, steps: seq<Step>)
    decreases |steps|
  {
    steps == [] || (Enabled(s, steps[0]) && Legal(env, Apply(env, s, steps[0]), steps[1..]))
  }

  ghost function Exec(env: Env, s: State, steps: seq<Step>): State
    requires Legal(env, s, steps)
    decreases |steps|
  {
    if steps == [] then s else Exec(env, Apply(env, s, steps[0]), steps[1..])
  }

  const START := State(EMPTY, [], {}, {}, [])

  // ---- a token yields at most one session, whatever the interleaving ----

  /** A token about to be stored is known to nobody else. */
  ghost predicate ProvisionedDistinct(s: State) {
    && (forall t | 0 <= t < |s.tasks| && s.tasks[t].Provisioned? ::
          s.tasks[t].token in s.issued && s.tasks[t].token !in s.claimed && s.tasks[t].token !in s.store.tokens)
    && (forall t, u | 0 <= t < u < |s.tasks| && s.tasks[t].Provisioned? && s.tasks[u].Provisioned? ::
          s.tasks[t].token != s.tasks[u].token)
  }

  /** A marked token is waiting for its session in one task only. */
  ghost predicate ClaimedDistinct(s: State) {
    && (forall t | 0 <= t < |s.tasks| && s.tasks[t].Claimed? ::
          s.tasks[t].token in s.claimed && s.tasks[t].token !in s.minted)
    && (forall t, u | 0 <= t < u < |s.tasks| && s.tasks[t].Claimed? && s.tasks[u].Claimed? ::
          s.tasks[t].token != s.tasks[u].token)
  }

  ghost predicate PendingDistinct(s: State) {
    ProvisionedDistinct(s) && ClaimedDistinct(s)
  }

  ghost predicate ClaimsSpent(s: State) {
    && s.claimed <= s.issued
    && (forall k | k in s.store.tokens :: k in s.issued && (k in s.claimed ==> s.store.tokens[k].redeemed))
    && (forall m | m in s.minted :: m in s.claimed)
    && NoDuplicates(s.minted)
  }

  lemma StepKeepsProvisioned(env: Env, s: State, step: Step)
    requires ProvisionedDistinct(s) && ClaimsSpent(s) && Enabled(s, step)
    ensures ProvisionedDistinct(Apply(env, s, step))
  {
  }

  lemma StepKeepsClaimed(env: Env, s: State, step: Step)
    requires ClaimedDistinct(s) && ClaimsSpent(s) && Enabled(s, step)
    ensures ClaimedDistinct(Apply(env, s, step))
  {
  }

  lemma StepKeepsSpent(env: Env, s: State, step: Step)
    requires PendingDistinct(s) && ClaimsSpent(s) && Enabled(s, step)
    ensures ClaimsSpent(Apply(env, s, step))
  {
  }

  lemma {:induction false} RunKeepsSingleUse(env: Env, s: State, steps: seq<Step>)
    requires PendingDistinct(s) && ClaimsSpent(s) && Legal(env, s, steps)
    ensures PendingDistinct(Exec(env, s, steps)) && ClaimsSpent(Exec(env, s, steps))
    decreases |steps|
  {
    if steps != [] {
      StepKeepsProvisioned(env, s, steps[0]);
      StepKeepsClaimed(env, s, steps[0]);
      StepKeepsSpent(env, s, steps[0]);
      RunKeepsSingleUse(env, Apply(env, s, steps[0]), steps[1..]);
    }
  }

  function StoresSession(): Step -> bool {
    (step: Step) => step.StoreSession?
  }

  function Issues(): Step -> bool {
    (step: Step) => step.BeginIssue?
  }

  /** The log has one entry for every session a run stores, and one token is issued for
      every step that issues. */
  lemma {:induction false} LogsAreComplete(env: Env, s: State, steps: seq<Step>)
    requires Legal(env, s, steps)
    ensures |Exec(env, s, steps).minted| == |s.minted| + Count(steps, StoresSession())
    ensures |Exec(env, s, steps).issued| == |s.issued| + Count(steps, Issues())
    decreases |steps|
  {
    if steps != [] {
      LogsAreComplete(env, Apply(env, s, steps[0]), steps[1..]);
    }
  }

  /** No interleaving of issuers, redeemers and sweeps stores two sessions for
      one token, or one for a token that was never issued. */
  lemma TokenYieldsOneSession(env: Env, steps: seq<Step>)
    requires Legal(env, START, steps)
    ensures |Exec(env, START, steps).minted| == Count(steps, StoresSession())
    ensures NoDuplicates(Exec(env, START, steps).minted)
    ensures forall m | m in Exec(env, START, steps).minted :: m in Exec(env, START, steps).issued
  {
    RunKeepsSingleUse(env, START, steps);
    LogsAreComplete(env, START, steps);
  }

  // ---- when every session has its user, over every interleaving ----

  /** An issue or a redeem between its two locks. */
  predicate Open(task: Task) {
    task.Provisioned? || task.Claimed?
  }

  /** Some token, session or half-done task still wants this user: a token that
      can be redeemed, a session, an issue whose token is not stored yet or a
      redeem whose session is not stored yet. */
  ghost predicate Needs(env: Env, s: State, id: string) {
    || (exists k :: k in s.store.tokens && !s.store.tokens[k].redeemed && env.uid(s.store.tokens[k].email) == id)
    || (exists k :: k in s.store.sessions && s.store.sessions[k].userId == id)
    || (exists t :: 0 <= t < |s.tasks| && Open(s.tasks[t]) && env.uid(s.tasks[t].email) == id)
  }

  /** Everyone wanted is there, under their own id. */
  ghost predicate Backed(env: Env, s: State) {
    ById(s.store.users) && forall id | Needs(env, s, id) :: id in s.store.users
  }

  /** The ids this task has read include every user wanted now. */
  ghost predicate ReadAll(env: Env, s: State, t: nat)
    requires t < |s.tasks| && s.tasks[t].SawAllUsers?
  {
    forall id | Needs(env, s, id) :: id in s.tasks[t].ids
  }

  /** Only the last step of a sweep can drop a wanted user, and it does so exactly
      when somebody became wanted after the sweep had read the maps. */
  lemma StepKeepsBacked(env: Env, s: State, step: Step)
    requires Backed(env, s) && Enabled(s, step)
    ensures Backed(env, Apply(env, s, step)) <==> (step.SweepUsers? ==> ReadAll(env, s, step.t))
  {
    var s' := Apply(env, s, step);
    if step.SweepUsers? {
      forall id
        ensures Needs(env, s', id) <==> Needs(env, s, id)
      {
        SweepKeepsNeeds(env, s, step.t, id);
      }
    } else {
      forall id | Needs(env, s', id)
        ensures id in s'.store.users
      {
        NeedsAfter(env, s, step, id);
      }
    }
  }

  lemma SweepKeepsNeeds(env: Env, s: State, t: nat, id: string)
    requires Enabled(s, SweepUsers(t))
    ensures Needs(env, Apply(env, s, SweepUsers(t)), id) <==> Needs(env, s, id)
  {
    var s' := Apply(env, s, SweepUsers(t));
    assert s'.store.tokens == s.store.tokens && s'.store.sessions == s.store.sessions;
    forall u | 0 <= u < |s.tasks|
      ensures Open(s'.tasks[u]) == Open(s.tasks[u])
      ensures Open(s.tasks[u]) ==> s'.tasks[u] == s.tasks[u]
    {
    }
  }

  /** Nobody becomes wanted but by starting an issue, which provides the user. */
  lemma NeedsAfter(env: Env, s: State, step: Step, id: string)
    requires Enabled(s, step) && Needs(env, Apply(env, s, step), id)
    ensures Needs(env, s, id) || (step.BeginIssue? && env.uid(step.email) == id)
  {
  }

  /** Backed holds now and after every step of the run. */
  ghost predicate AlwaysBacked(env: Env, s: State, steps: seq<Step>)
    requires Legal(env, s, steps)
    decreases |steps|
  {
    Backed(env, s) && (steps != [] ==> AlwaysBacked(env, Apply(env, s, steps[0]), steps[1..]))
  }

  /** Every sweep of the run ends knowing everyone wanted at that moment. */
  ghost predicate SweepsReadAll(env: Env, s: State, steps: seq<Step>)
    requires Legal(env, s, steps)
    decreases |steps|
  {
    steps == []
    || (&& (steps[0].SweepUsers? ==> ReadAll(env, s, steps[0].t))
        && SweepsReadAll(env, Apply(env, s, steps[0]), steps[1..]))
  }

  lemma {:induction false} BackedFromHere(env: Env, s: State, steps: seq<Step>)
    requires Backed(env, s) && Legal(env, s, steps)
    ensures AlwaysBacked(env, s, steps) <==> SweepsReadAll(env, s, steps)
    ensures AlwaysBacked(env, s, steps) ==> Backed(env, Exec(env, s, steps))
    decreases |steps|
  {
    if steps != [] {
      StepKeepsBacked(env, s, steps[0]);
      if steps[0].SweepUsers? ==> ReadAll(env, s, steps[0].t) {
        BackedFromHere(env, Apply(env, s, steps[0]), steps[1..]);
      }
    }
  }

  /** Over every interleaving of issuers, redeemers and sweepers from the empty
      store: each usable token, each session and each half-done issue or redeem
      has its user throughout the run if and only if every sweep, when it drops
      users, has read everyone wanted at that moment. */
  lemma UsersKeptIffSweepsReadAll(env: Env, steps: seq<Step>)
    requires Legal(env, START, steps)
    ensures AlwaysBacked(env, START, steps) <==> SweepsReadAll(env, START, steps)
    ensures AlwaysBacked(env, START, steps) ==> Inv(env, Exec(env, START, steps).store)
  {
    BackedFromHere(env, START, steps);
    if AlwaysBacked(env, START, steps) {
      BackedMeansInv(env, Exec(env, START, steps));
    }
  }

  lemma BackedMeansInv(env: Env, s: State)
    requires Backed(env, s)
    ensures Inv(env, s.store)
  {
    var st := s.store;
    forall k | k in st.tokens && !st.tokens[k].redeemed
      ensures env.uid(st.tokens[k].email) in st.users
    {
      assert Needs(env, s, env.uid(st.tokens[k].email));
    }
    forall k | k in st.sessions
      ensures st.sessions[k].userId in st.users
    {
      assert Needs(env, s, st.sessions[k].userId);
    }
  }

  // ---- sweeps that no issue or redeem overlaps ----

  predicate Sweeping(task: Task) {
    task.SweptTokens? || task.SweptSessions? || task.SawTokenUsers? || task.SawAllUsers?
  }

  /** No issue or redeem is half done while a sweep is under way. */
  ghost predicate Apart(s: State) {
    forall t, u | 0 <= t < |s.tasks| && 0 <= u < |s.tasks| && Sweeping(s.tasks[t]) :: !Open(s.tasks[u])
  }

  ghost predicate AlwaysApart(env: Env, s: State, steps: seq<Step>)
    requires Legal(env, s, steps)
    decreases |steps|
  {
    Apart(s) && (steps != [] ==> AlwaysApart(env, Apply(env, s, steps[0]), steps[1..]))
  }

  /** What each sweep has read so far covers what it will be asked about. */
  ghost predicate Informed(env: Env, s: State) {
    KnowsTokens(env, s) && KnowsSessions(s)
  }

  ghost predicate KnowsTokens(env: Env, s: State) {
    forall t, k | 0 <= t < |s.tasks| && k in s.store.tokens && !s.store.tokens[k].redeemed ::
      && (s.tasks[t].SawTokenUsers? ==> env.uid(s.store.tokens[k].email) in s.tasks[t].tokenUsers)
      && (s.tasks[t].SawAllUsers? ==> env.uid(s.store.tokens[k].email) in s.tasks[t].ids)
  }

  ghost predicate KnowsSessions(s: State) {
    forall t, k | 0 <= t < |s.tasks| && s.tasks[t].SawAllUsers? && k in s.store.sessions ::
      s.store.sessions[k].userId in s.tasks[t].ids
  }

  /** While a sweep is under way nothing is added to either map. */
  lemma StepKeepsTokensKnown(env: Env, s: State, step: Step)
    requires KnowsTokens(env, s) && Apart(s) && Enabled(s, step) && Apart(Apply(env, s, step))
    ensures KnowsTokens(env, Apply(env, s, step))
  {
  }

  lemma StepKeepsSessionsKnown(env: Env, s: State, step: Step)
    requires KnowsSessions(s) && Apart(s) && Enabled(s, step)
    ensures KnowsSessions(Apply(env, s, step))
  {
  }

  lemma InformedReadsAll(env: Env, s: State, t: nat)
    requires Informed(env, s) && Apart(s) && Enabled(s, SweepUsers(t))
    ensures ReadAll(env, s, t)
  {
    assert Sweeping(s.tasks[t]);
  }

  lemma {:induction false} ApartReadsAll(env: Env, s: State, steps: seq<Step>)
    requires Informed(env, s) && Legal(env, s, steps) && AlwaysApart(env, s, steps)
    ensures SweepsReadAll(env, s, steps)
    decreases |steps|
  {
    if steps != [] {
      var step := steps[0];
      assert AlwaysApart(env, Apply(env, s, step), steps[1..]);
      if step.SweepUsers? {
        InformedReadsAll(env, s, step.t);
      }
      StepKeepsTokensKnown(env, s, step);
      StepKeepsSessionsKnown(env, s, step);
      ApartReadsAll(env, Apply(env, s, step), steps[1..]);
    }
  }

  /** So if no issue or redeem is half done while a sweep is under way, however
      many of each there are, every run ends in a consistent store. */
  lemma ApartKeepsUsers(env: Env, steps: seq<Step>)
    requires Legal(env, START, steps) && AlwaysApart(env, START, steps)
    ensures AlwaysBacked(env, START, steps)
    ensures Inv(env, Exec(env, START, steps).store)
  {
    ApartReadsAll(env, START, steps);
    UsersKeptIffSweepsReadAll(env, steps);
  }

  // ---- a stored session may lack its user ----

  /** Every session in the store has a user. With whole methods as steps this is
      part of Identity.Inv; between the locks it is not kept. */
  ghost predicate SessionsHaveUsers(s: Store) {
    forall k | k in s.sessions :: s.sessions[k].userId in s.users
  }

  /** Redeem marks the token, a sweep runs from start to end before the session
      is stored, then the session is stored. */
  function RedeemAroundSweep(env: Env, s: Store, token: string, bearer: string, now: int): Store
    requires Redeemable(s, token, now)
  {
    var swept := Reap(env, Marked(s, token), now);
    swept.(sessions := swept.sessions[env.hash(bearer) := Minted(env, s.tokens[token].email, bearer, now)])
  }

  /** Someone else keeps that user alive through the sweep: another usable token
      or an unexpired session. */
  ghost predicate KeptByAnother(env: Env, s: Store, id: string, token: string, now: int) {
    || (exists k :: k in s.tokens && k != token && !s.tokens[k].redeemed && s.tokens[k].expiresAt > now
                    && env.uid(s.tokens[k].email) == id)
    || (exists k :: k in s.sessions && s.sessions[k].expiresAt > now && s.sessions[k].userId == id)
  }

  /** From any consistent store, a redeem with a sweep in its gap ends with every
      session backed by a user exactly when another token or session of that
      user survives the sweep; otherwise the client holds a bearer that no
      lookup resolves. */
  lemma SweepInTheGap(env: Env, s: Store, token: string, bearer: string, now: int)
    requires Inv(env, s) && Redeemable(s, token, now)
    ensures var s' := RedeemAroundSweep(env, s, token, bearer, now);
            var id := env.uid(s.tokens[token].email);
            && (SessionsHaveUsers(s') <==> KeptByAnother(env, s, id, token, now))
            && (Lookup(env, s', bearer, now).Some? <==> KeptByAnother(env, s, id, token, now))
  {
    var m := Marked(s, token);
    var r := Reap(env, m, now);
    var s' := RedeemAroundSweep(env, s, token, bearer, now);
    var id := env.uid(s.tokens[token].email);
    ReapKeepsSessionUsers(env, m, now);
    if KeptByAnother(env, s, id, token, now) {
      if k :| k in s.tokens && k != token && !s.tokens[k].redeemed && s.tokens[k].expiresAt > now
              && env.uid(s.tokens[k].email) == id {
        assert k in r.tokens;
      } else {
        var k :| k in s.sessions && s.sessions[k].expiresAt > now && s.sessions[k].userId == id;
        assert k in r.sessions;
      }
      assert id in r.users;
    } else {
      assert id !in TokenUsers(env, r.tokens);
      assert id !in SessionUsers(r.sessions);
    }
    assert s'.sessions[env.hash(bearer)].userId == id;
  }

  lemma ReapKeepsSessionUsers(env: Env, s: Store, now: int)
    requires SessionsHaveUsers(s)
    ensures SessionsHaveUsers(Reap(env, s, now))
  {
    var r := Reap(env, s, now);
    forall k | k in r.sessions
      ensures r.sessions[k].userId in r.users
    {
      assert r.sessions[k].userId in SessionUsers(r.sessions);
    }
  }

  // ---- the gap as an interleaving ----

  lemma Prepend(env: Env, s: State, step: Step, s': State, rest: seq<Step>)
    requires Enabled(s, step) && Apply(env, s, step) == s' && Legal(env, s', rest)
    ensures Legal(env, s, [step] + rest)
    ensures Exec(env, s, [step] + rest) == Exec(env, s', rest)
  {
    assert ([step] + rest)[1..] == rest;
  }

  /** The steps of one whole sweep run by task number t. */
  function SweepSteps(t: nat, now: int, rest: seq<Step>): seq<Step> {
    [BeginSweep(now)] + ([SweepSessions(t, now)] + ([ReadTokenUsers(t)]
    + ([ReadSessionUsers(t)] + ([SweepUsers(t)] + rest))))
  }

  /** The state after a sweep that nothing interrupts. */
  function Swept(env: Env, s: State, now: int): State {
    s.(store := Reap(env, s.store, now), tasks := s.tasks + [Ended])
  }

  /** Undisturbed, the five steps of a sweep are the method Sweep. */
  lemma SweepUndisturbed(env: Env, s: State, now: int, rest: seq<Step>)
    requires Legal(env, Swept(env, s, now), rest)
    ensures Legal(env, s, SweepSteps(|s.tasks|, now, rest))
    ensures Exec(env, s, SweepSteps(|s.tasks|, now, rest)) == Exec(env, Swept(env, s, now), rest)
  {
    var t := |s.tasks|;
    var r := Reap(env, s.store, now);
    var ids := TokenUsers(env, r.tokens);
    var s1 := s.(store := s.store.(tokens := r.tokens), tasks := s.tasks + [SweptTokens]);
    var s2 := s1.(store := s1.store.(sessions := r.sessions), tasks := s.tasks + [SweptSessions]);
    var s3 := s2.(tasks := s.tasks + [SawTokenUsers(ids)]);
    var s4 := s2.(tasks := s.tasks + [SawAllUsers(ids + SessionUsers(r.sessions))]);
    Prepend(env, s4, SweepUsers(t), Swept(env, s, now), rest);
    Prepend(env, s3, ReadSessionUsers(t), s4, [SweepUsers(t)] + rest);
    Prepend(env, s2, ReadTokenUsers(t), s3, [ReadSessionUsers(t)] + ([SweepUsers(t)] + rest));
    Prepend(env, s1, SweepSessions(t, now), s2,
      [ReadTokenUsers(t)] + ([ReadSessionUsers(t)] + ([SweepUsers(t)] + rest)));
    Prepend(env, s, BeginSweep(now), s1,
      [SweepSessions(t, now)] + ([ReadTokenUsers(t)] + ([ReadSessionUsers(t)] + ([SweepUsers(t)] + rest))));
  }

  /** Undisturbed, the two steps of issuing are the method IssueToken. */
  lemma IssueUndisturbed(env: Env, s: State, email: string, token: string, now: int)
    requires token !in s.issued
    ensures var steps := [BeginIssue(email, token, now)] + ([StoreToken(|s.tasks|, now)] + []);
            && Legal(env, s, steps)
            && Exec(env, s, steps).store == Issue(env, s.store, email, token, now)
            && Exec(env, s, steps).issued == s.issued + {token}
  {
    var begun := Apply(env, s, BeginIssue(email, token, now));
    var store := StoreToken(|s.tasks|, now);
    Prepend(env, begun, store, Apply(env, begun, store), []);
    Prepend(env, s, BeginIssue(email, token, now), begun, [store] + []);
  }

  /** Undisturbed, the two steps of redeeming are the method RedeemToken. */
  lemma RedeemUndisturbed(env: Env, s: State, token: string, bearer: string, now: int)
    requires Redeemable(s.store, token, now)
    ensures var steps := [Claim(token, now)] + ([StoreSession(|s.tasks|, bearer, now)] + []);
            && Legal(env, s, steps)
            && Exec(env, s, steps).store == Redeem(env, s.store, token, bearer, now).0
            && Exec(env, s, steps).minted == s.minted + [token]
  {
    var claimed := Apply(env, s, Claim(token, now));
    var store := StoreSession(|s.tasks|, bearer, now);
    Prepend(env, claimed, store, Apply(env, claimed, store), []);
    Prepend(env, s, Claim(token, now), claimed, [store] + []);
  }

  /** Claim, sweep, store: a legal interleaving that ends in the store that
      SweepInTheGap speaks of. */
  lemma GapIsAnInterleaving(env: Env, s: State, token: string, bearer: string, now: int)
    requires Redeemable(s.store, token, now)
    ensures var n := |s.tasks|;
            var steps := [Claim(token, now)] + SweepSteps(n + 1, now, [StoreSession(n, bearer, now)] + []);
            && Legal(env, s, steps)
            && Exec(env, s, steps).store == RedeemAroundSweep(env, s.store, token, bearer, now)
  {
    var n := |s.tasks|;
    var claimed := Apply(env, s, Claim(token, now));
    var swept := Swept(env, claimed, now);
    var store := StoreSession(n, bearer, now);
    Prepend(env, swept, store, Apply(env, swept, store), []);
    SweepUndisturbed(env, claimed, now, [store] + []);
    Prepend(env, s, Claim(token, now), claimed, SweepSteps(n + 1, now, [store] + []));
  }

  /** Hence the invariant is not kept between the locks: one user logs in on an
      empty store, and the bearer the client receives resolves to nobody. */
  lemma OrphanedSession(env: Env, email: string, token: string, bearer: string) returns (steps: seq<Step>)
    ensures Legal(env, START, steps)
    ensures !SessionsHaveUsers(Exec(env, START, steps).store)
    ensures Lookup(env, Exec(env, START, steps).store, bearer, 0) == None
  {
    var store := Issue(env, EMPTY, email, token, 0);
    var s1 := State(store.(tokens := map[]), [Provisioned(email, token)], {token}, {}, []);
    var s2 := s1.(store := store, tasks := [Ended]);
    var rest := [Claim(token, 0)] + SweepSteps(2, 0, [StoreSession(1, bearer, 0)] + []);
    IssueKeepsInv(env, EMPTY, email, token, 0);
    GapIsAnInterleaving(env, s2, token, bearer, 0);
    NobodyElse(env, store, email, token);
    SweepInTheGap(env, store, token, bearer, 0);
    Prepend(env, s1, StoreToken(0, 0), s2, rest);
    Prepend(env, START, BeginIssue(email, token, 0), s1, [StoreToken(0, 0)] + rest);
    steps := [BeginIssue(email, token, 0)] + ([StoreToken(0, 0)] + rest);
  }

  /** A sweep of the empty store that has read both maps and not dropped yet. */
  const BEGUN := START.(tasks := [SawAllUsers({})])

  lemma SweepReadsNothing(env: Env, rest: seq<Step>)
    requires Legal(env, BEGUN, rest)
    ensures var steps := [BeginSweep(0)] + ([SweepSessions(0, 0)] + ([ReadTokenUsers(0)]
                         + ([ReadSessionUsers(0)] + rest)));
            Legal(env, START, steps) && Exec(env, START, steps) == Exec(env, BEGUN, rest)
  {
    hide Legal, Exec;
    assert TokenUsers(env, EMPTY.tokens) == {} && {} + SessionUsers(EMPTY.sessions) == {};
    var s1 := START.(tasks := [SweptTokens]);
    var s2 := START.(tasks := [SweptSessions]);
    var s3 := START.(tasks := [SawTokenUsers({})]);
    var r3 := [ReadSessionUsers(0)] + rest;
    var r2 := [ReadTokenUsers(0)] + r3;
    Prepend(env, s3, ReadSessionUsers(0), BEGUN, rest);
    Prepend(env, s2, ReadTokenUsers(0), s3, r3);
    Prepend(env, s1, SweepSessions(0, 0), s2, r2);
    Prepend(env, START, BeginSweep(0), s1, [SweepSessions(0, 0)] + r2);
  }

  /** The token is there, its user is gone. */
  function Stranded(env: Env, email: string, token: string): State {
    State(Issue(env, EMPTY, email, token, 0).(users := map[]), [Ended] + [Ended], {token}, {}, [])
  }

  lemma IssueThenDrop(env: Env, email: string, token: string, rest: seq<Step>)
    requires Legal(env, Stranded(env, email, token), rest)
    ensures var steps := [BeginIssue(email, token, 0)] + ([StoreToken(1, 0)] + ([SweepUsers(0)] + rest));
            Legal(env, BEGUN, steps) && Exec(env, BEGUN, steps) == Exec(env, Stranded(env, email, token), rest)
  {
    hide Legal, Exec;
    var issued := Issue(env, EMPTY, email, token, 0);
    var s1 := State(issued.(tokens := map[]), [SawAllUsers({})] + [Provisioned(email, token)], {token}, {}, []);
    var s2 := s1.(store := issued, tasks := [SawAllUsers({})] + [Ended]);
    Prepend(env, s2, SweepUsers(0), Stranded(env, email, token), rest);
    Prepend(env, s1, StoreToken(1, 0), s2, [SweepUsers(0)] + rest);
    Prepend(env, BEGUN, BeginIssue(email, token, 0), s1, [StoreToken(1, 0)] + ([SweepUsers(0)] + rest));
  }

  /** An issue inside a sweep, then an uninterrupted redeem. */
  function IssueInsideSweep(email: string, token: string, bearer: string): seq<Step> {
    [BeginSweep(0)] + ([SweepSessions(0, 0)] + ([ReadTokenUsers(0)] + ([ReadSessionUsers(0)]
    + ([BeginIssue(email, token, 0)] + ([StoreToken(1, 0)] + ([SweepUsers(0)]
    + ([Claim(token, 0)] + ([StoreSession(2, bearer, 0)] + []))))))))
  }

  /** Nor does it take a sweep between claim and store: on an empty store a login
      whose issue fell inside a sweep ends with a bearer that resolves to nobody,
      although the token was claimed and the session stored without interruption. */
  lemma OrphanedByIssueInsideSweep(env: Env, email: string, token: string, bearer: string)
    ensures var steps := IssueInsideSweep(email, token, bearer);
            && Legal(env, START, steps)
            && !SessionsHaveUsers(Exec(env, START, steps).store)
            && Lookup(env, Exec(env, START, steps).store, bearer, 0) == None
  {
    var login := [Claim(token, 0)] + ([StoreSession(2, bearer, 0)] + []);
    var s := Stranded(env, email, token);
    RedeemUndisturbed(env, s, token, bearer, 0);
    IssueThenDrop(env, email, token, login);
    SweepReadsNothing(env, [BeginIssue(email, token, 0)] + ([StoreToken(1, 0)] + ([SweepUsers(0)] + login)));
    var end := Redeem(env, s.store, token, bearer, 0).0;
    assert env.hash(bearer) in end.sessions && end.users == map[];
  }

  lemma NobodyElse(env: Env, s: Store, email: string, token: string)
    requires s == Issue(env, EMPTY, email, token, 0)
    ensures Redeemable(s, token, 0) && s.tokens[token].email == email
    ensures !KeptByAnother(env, s, env.uid(email), token, 0)
  {
  }
}
