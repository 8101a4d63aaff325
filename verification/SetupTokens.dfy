// One-time account setup tokens under row locks, and their garbage collector
// (app/services/account_setup_service.py, app/services/auth_artifact_cleanup_service.py).
//
// A completion locks the token row and checks it, then locks the user row and
// checks it, then commits; other transactions interleave between these steps.
// A step that would have to wait for a lock is simply not enabled. A creation
// consumes the older tokens and inserts the new one in two steps, so that two
// creations may each miss the other's token. Tokens are identified by their hash.
module SetupTokens {
  import opened Options

  type User = nat
  type TokenHash = nat
  type Txn = nat

  datatype Account = Account(active: bool, password: Option<string>)
  datatype Token = Token(user: User, expiresAt: int, consumedAt: Option<int>)

  // A completion in progress: it holds the lock of its token and, once the
  // user was checked, the lock of the user.
  datatype Completion = Completion(token: TokenHash, password: string, readAt: int, userLocked: bool)

  // A creation in progress: the user it checked, and since when that user's
  // older tokens are consumed.
  datatype Issue = Issue(user: User, superseded: Option<int>)

  datatype Answer = Accepted | Invalid

  // How a completion ended, and for an accepted one whose password it set to what.
  datatype Ended = Ended(txn: Txn, token: TokenHash, answer: Answer, user: User, password: string)

  // `issued` holds every token hash ever inserted: random tokens do not repeat.
  // `changed` holds the users who changed their own password since.
  // `outcomes` records every completion that ended.
  datatype System = System(
    users: map<User, Account>, tokens: map<TokenHash, Token>, running: map<Txn, Completion>, issuing: map<Txn, Issue>,
    clock: int, issued: set<TokenHash>, changed: set<User>, outcomes: seq<Ended>)

  datatype Step =
    | ReadUser(txn: Txn, user: User)                           // create: check the user, without a lock
    | Supersede(txn: Txn)                                      // create: consume the older tokens
    | InsertToken(txn: Txn, token: TokenHash, ttl: nat)        // create: insert the new one
    | LockToken(txn: Txn, token: TokenHash, password: string) // select the token for update, and check it
    | LockUser(txn: Txn)                                       // select the user for update, and check it
    | CommitCompletion(txn: Txn)                               // set the password, consume the token
    | AbortCompletion(txn: Txn)
    | Cleanup
    | Tick(seconds: nat)
    | Deactivate(user: User)
    | AddUser(user: User)
    | Reactivate(user: User)
    | ChangePassword(user: User, current: string, password: string) // by the signed-in user

  predicate TokenFree(s: System, t: TokenHash) { forall x :: x in s.running ==> s.running[x].token != t }

  predicate UserFree(s: System, u: User) {
    forall x :: x in s.running && s.running[x].userLocked && s.running[x].token in s.tokens
                ==> s.tokens[s.running[x].token].user != u
  }

  predicate Usable(t: Token, now: int) { t.consumedAt == None && now < t.expiresAt }

  predicate MayStillSet(users: map<User, Account>, u: User) { u in users && users[u].active && users[u].password == None }

  function End(s: System, e: Ended): System {
    s.(running := s.running - {e.txn}, outcomes := s.outcomes + [e])
  }

  // The user's unconsumed tokens, marked consumed.
  function Superseded(tokens: map<TokenHash, Token>, u: User, now: int): map<TokenHash, Token> {
    map h | h in tokens ::
      if tokens[h].user == u && tokens[h].consumedAt == None then tokens[h].(consumedAt := Some(now)) else tokens[h]
  }

  predicate Enabled(s: System, step: Step) {
    match step
    case ReadUser(txn, u) => txn !in s.issuing && MayStillSet(s.users, u)
    case Supersede(txn) =>
      && txn in s.issuing && s.issuing[txn].superseded == None
      && forall h :: h in s.tokens && s.tokens[h].user == s.issuing[txn].user && s.tokens[h].consumedAt == None ==> TokenFree(s, h)
    case InsertToken(txn, t, _) => txn in s.issuing && s.issuing[txn].superseded.Some? && t !in s.issued && t !in s.tokens
    case LockToken(txn, t, _) => txn !in s.running && TokenFree(s, t)
    case LockUser(txn) =>
      && txn in s.running && !s.running[txn].userLocked && s.running[txn].token in s.tokens
      && UserFree(s, s.tokens[s.running[txn].token].user)
    case CommitCompletion(txn) => txn in s.running && s.running[txn].userLocked && s.running[txn].token in s.tokens
    case AbortCompletion(txn) => txn in s.running
    case Cleanup => forall h :: h in s.tokens && s.tokens[h].expiresAt <= s.clock ==> TokenFree(s, h)
    case Tick(_) => true
    case Deactivate(u) => u in s.users && UserFree(s, u)
    case AddUser(u) => u !in s.users
    case Reactivate(u) => u in s.users && UserFree(s, u)
    case ChangePassword(u, current, _) => u in s.users && s.users[u].password == Some(current) && UserFree(s, u)
  }

  function Apply(s: System, step: Step): System
    requires Enabled(s, step)
  {
    match step
    case ReadUser(txn, u) => s.(issuing := s.issuing[txn := Issue(u, None)])
    case Supersede(txn) =>
      var u := s.issuing[txn].user;
      s.(tokens := Superseded(s.tokens, u, s.clock), issuing := s.issuing[txn := Issue(u, Some(s.clock))])
    case InsertToken(txn, t, ttl) =>
      var i := s.issuing[txn];
      s.(tokens := s.tokens[t := Token(i.user, i.superseded.value + ttl, None)], issuing := s.issuing - {txn}, issued := s.issued + {t})
    case LockToken(txn, t, password) =>
      if t !in s.tokens || !Usable(s.tokens[t], s.clock) then s.(outcomes := s.outcomes + [Ended(txn, t, Invalid, 0, "")])
      else s.(running := s.running[txn := Completion(t, password, s.clock, false)])
    case LockUser(txn) =>
      var c := s.running[txn];
      if !MayStillSet(s.users, s.tokens[c.token].user) then End(s, Ended(txn, c.token, Invalid, 0, ""))
      else s.(running := s.running[txn := c.(userLocked := true)])
    case CommitCompletion(txn) =>
      var c := s.running[txn];
      var u := s.tokens[c.token].user;
      End(s, Ended(txn, c.token, Accepted, u, c.password)).(
        users := if u in s.users then s.users[u := s.users[u].(password := Some(c.password))] else s.users,
        tokens := s.tokens[c.token := s.tokens[c.token].(consumedAt := Some(c.readAt))])
    case AbortCompletion(txn) => s.(running := s.running - {txn})
    case Cleanup => s.(tokens := map h | h in s.tokens && s.tokens[h].expiresAt > s.clock :: s.tokens[h])
    case Tick(n) => s.(clock := s.clock + n)
    case Deactivate(u) => s.(users := s.users[u := s.users[u].(active := false)])
    case AddUser(u) => s.(users := s.users[u := Account(true, None)])
    case Reactivate(u) => s.(users := s.users[u := s.users[u].(active := true)])
    case ChangePassword(u, _, password) =>
      s.(users := s.users[u := s.users[u].(password := Some(password))], changed := s.changed + {u})
  }

  // A schedule: the steps of all transactions in the order they take effect.
  ghost predicate CanRun(s: System, steps: seq<Step>)
    decreases |steps|
  {
    steps == [] || (Enabled(s, steps[0]) && CanRun(Apply(s, steps[0]), steps[1..]))
  }

  ghost function Run(s: System, steps: seq<Step>): System
    requires CanRun(s, steps)
    decreases |steps|
  {
    if steps == [] then s else Run(Apply(s, steps[0]), steps[1..])
  }

  // ---- Safety ----

  // A running completion: its token is locked, unconsumed and was valid when
  // it was read, and a locked user can still be given a password.
  predicate Holds(s: System, c: Completion) {
    && c.token in s.tokens && s.tokens[c.token].consumedAt == None
    && c.readAt <= s.clock && c.readAt < s.tokens[c.token].expiresAt
    && (c.userLocked ==> MayStillSet(s.users, s.tokens[c.token].user))
  }

  ghost predicate Locked(s: System) {
    && (forall x :: x in s.running ==> Holds(s, s.running[x]))
    && (forall x, y :: x in s.running && y in s.running && x != y ==>
          && s.running[x].token != s.running[y].token
          && (s.running[x].userLocked && s.running[y].userLocked
              ==> s.tokens[s.running[x].token].user != s.tokens[s.running[y].token].user))
  }

  // Passwords and consumption marks are never withdrawn, and no password is
  // overwritten but by its own user.
  ghost predicate Preserves(s: System, t: System) {
    && s.changed <= t.changed
    && (forall u :: u in s.users ==> u in t.users && (s.users[u].password.Some? ==> t.users[u].password.Some?))
    && (forall u :: u in s.users && s.users[u].password.Some? && u !in t.changed ==> t.users[u].password == s.users[u].password)
    && (forall h :: h in s.tokens && h in t.tokens ==>
          t.tokens[h].user == s.tokens[h].user && (s.tokens[h].consumedAt.Some? ==> t.tokens[h].consumedAt.Some?))
    && s.clock <= t.clock && s.outcomes <= t.outcomes
  }

  lemma SupersedeStep(s: System, txn: Txn)
    requires Locked(s) && Enabled(s, Supersede(txn))
    ensures Locked(Apply(s, Supersede(txn))) && Preserves(s, Apply(s, Supersede(txn)))
  {
    var after := Apply(s, Supersede(txn));
    forall x | x in s.running ensures after.tokens[s.running[x].token] == s.tokens[s.running[x].token] {
      assert Holds(s, s.running[x]);
      assert !TokenFree(s, s.running[x].token);
    }
  }

  lemma InsertStep(s: System, txn: Txn, t: TokenHash, ttl: nat)
    requires Locked(s) && Enabled(s, InsertToken(txn, t, ttl))
    ensures Locked(Apply(s, InsertToken(txn, t, ttl))) && Preserves(s, Apply(s, InsertToken(txn, t, ttl)))
  {
    var after := Apply(s, InsertToken(txn, t, ttl));
    forall x | x in s.running ensures Holds(after, s.running[x]) { assert Holds(s, s.running[x]); }
  }

  lemma LockTokenStep(s: System, txn: Txn, t: TokenHash, password: string)
    requires Locked(s) && Enabled(s, LockToken(txn, t, password))
    ensures Locked(Apply(s, LockToken(txn, t, password))) && Preserves(s, Apply(s, LockToken(txn, t, password)))
  {
    var after := Apply(s, LockToken(txn, t, password));
    forall x | x in after.running ensures Holds(after, after.running[x]) {
      if x in s.running && x != txn { assert Holds(s, s.running[x]); }
    }
  }

  lemma LockUserStep(s: System, txn: Txn)
    requires Locked(s) && Enabled(s, LockUser(txn))
    ensures Locked(Apply(s, LockUser(txn))) && Preserves(s, Apply(s, LockUser(txn)))
  {
    var after := Apply(s, LockUser(txn));
    forall x | x in after.running ensures Holds(after, after.running[x]) { assert Holds(s, s.running[x]); }
  }

  lemma CommitStep(s: System, txn: Txn)
    requires Locked(s) && Enabled(s, CommitCompletion(txn))
    ensures Locked(Apply(s, CommitCompletion(txn))) && Preserves(s, Apply(s, CommitCompletion(txn)))
  {
    var after := Apply(s, CommitCompletion(txn));
    var c := s.running[txn];
    assert Holds(s, c);
    forall x | x in after.running ensures Holds(after, after.running[x]) {
      assert Holds(s, s.running[x]);
      assert x in s.running && x != txn && s.running[x].token != c.token;
    }
  }

  lemma CleanupStep(s: System)
    requires Locked(s) && Enabled(s, Cleanup)
    ensures Locked(Apply(s, Cleanup)) && Preserves(s, Apply(s, Cleanup))
  {
    var after := Apply(s, Cleanup);
    forall x | x in after.running ensures Holds(after, after.running[x]) {
      assert Holds(s, s.running[x]);
      assert !TokenFree(s, s.running[x].token);
    }
  }

  // The steps that change one account under its lock.
  lemma AccountStep(s: System, step: Step)
    requires Locked(s) && Enabled(s, step)
    requires step.Deactivate? || step.AddUser? || step.Reactivate? || step.ChangePassword?
    ensures Locked(Apply(s, step)) && Preserves(s, Apply(s, step))
  {
    var after := Apply(s, step);
    forall x | x in after.running ensures Holds(after, after.running[x]) { assert Holds(s, s.running[x]); }
  }

  lemma OtherStep(s: System, step: Step)
    requires Locked(s) && Enabled(s, step)
    requires step.ReadUser? || step.AbortCompletion? || step.Tick?
    ensures Locked(Apply(s, step)) && Preserves(s, Apply(s, step))
  {
    var after := Apply(s, step);
    forall x | x in after.running ensures Holds(after, after.running[x]) { assert Holds(s, s.running[x]); }
  }

  lemma StepSafe(s: System, step: Step)
    requires Locked(s) && Enabled(s, step)
    ensures Locked(Apply(s, step)) && Preserves(s, Apply(s, step))
  {
    hide Locked, Apply, Preserves;
    match step
    case Supersede(txn) => SupersedeStep(s, txn);
    case InsertToken(txn, t, ttl) => InsertStep(s, txn, t, ttl);
    case LockToken(txn, t, password) => LockTokenStep(s, txn, t, password);
    case LockUser(txn) => LockUserStep(s, txn);
    case CommitCompletion(txn) => CommitStep(s, txn);
    case Cleanup => CleanupStep(s);
    case Deactivate(_) => AccountStep(s, step);
    case AddUser(_) => AccountStep(s, step);
    case Reactivate(_) => AccountStep(s, step);
    case ChangePassword(_, _, _) => AccountStep(s, step);
    case _ => OtherStep(s, step);
  }

  predicate IsAccepted(e: Ended) { e.answer == Accepted }

  // An accepted completion consumed its token, and its user has the password it
  // set or one that the user chose later.
  predicate Recorded(s: System, e: Ended) {
    && e.token in s.issued && (e.token in s.tokens ==> s.tokens[e.token].consumedAt.Some?)
    && e.user in s.users && s.users[e.user].password.Some?
    && (e.user !in s.changed ==> s.users[e.user].password == Some(e.password))
  }

  ghost predicate AcceptedOnce(outcomes: seq<Ended>) {
    forall i, j :: 0 <= i < j < |outcomes| && IsAccepted(outcomes[i]) && IsAccepted(outcomes[j]) ==>
      outcomes[i].token != outcomes[j].token && outcomes[i].user != outcomes[j].user
  }

  ghost predicate History(s: System) {
    && s.tokens.Keys <= s.issued
    && (forall e :: e in s.outcomes && IsAccepted(e) ==> Recorded(s, e))
    && AcceptedOnce(s.outcomes)
  }

  // When a completion sets a password the account is active and has none.
  lemma SetsFirstPassword(s: System, txn: Txn)
    requires Locked(s) && Enabled(s, CommitCompletion(txn))
    ensures var u := s.tokens[s.running[txn].token].user;
            && u in s.users && s.users[u].active && s.users[u].password == None
            && Apply(s, CommitCompletion(txn)).users[u].password == Some(s.running[txn].password)
  {
    assert Holds(s, s.running[txn]);
  }

  lemma CommitKeepsHistory(s: System, txn: Txn)
    requires Locked(s) && History(s) && Enabled(s, CommitCompletion(txn))
    ensures History(Apply(s, CommitCompletion(txn)))
  {
    var c := s.running[txn];
    var after := Apply(s, CommitCompletion(txn));
    assert Holds(s, c);
    forall e | e in s.outcomes && IsAccepted(e) ensures e.token != c.token && e.user != s.tokens[c.token].user {
      assert Recorded(s, e);
    }
    forall e | e in after.outcomes && IsAccepted(e) ensures Recorded(after, e) {
      if e in s.outcomes { assert Recorded(s, e); }
    }
  }

  // The other steps record no acceptance, and add no token that was issued before.
  lemma OtherFrame(s: System, step: Step)
    requires Enabled(s, step) && !step.CommitCompletion? && s.tokens.Keys <= s.issued
    ensures var t := Apply(s, step);
            && t.tokens.Keys <= t.issued && s.issued <= t.issued
            && (forall h :: h in t.tokens && h in s.issued ==> h in s.tokens)
            && (t.outcomes == s.outcomes
                || exists e :: t.outcomes == s.outcomes + [e] && !IsAccepted(e))
  {
    var t := Apply(s, step);
    if step.LockToken? && t.outcomes != s.outcomes {
      var e := Ended(step.txn, step.token, Invalid, 0, "");
      assert t.outcomes == s.outcomes + [e] && !IsAccepted(e);
    }
    if step.LockUser? && t.outcomes != s.outcomes {
      var e := Ended(step.txn, s.running[step.txn].token, Invalid, 0, "");
      assert t.outcomes == s.outcomes + [e] && !IsAccepted(e);
    }
  }

  lemma StepKeepsHistory(s: System, step: Step)
    requires Locked(s) && History(s) && Enabled(s, step)
    ensures History(Apply(s, step))
  {
    if step.CommitCompletion? {
      CommitKeepsHistory(s, step.txn);
    } else {
      hide Apply, Locked, Enabled;
      StepSafe(s, step);
      OtherFrame(s, step);
      var t := Apply(s, step);
      forall e | e in t.outcomes && IsAccepted(e) ensures Recorded(t, e) {
        assert e in s.outcomes && Recorded(s, e);
      }
    }
  }

  // ---- Over every schedule ----

  // The parts of Preserves that outlive the collection of a token.
  ghost predicate Keeps(s: System, t: System) {
    && s.changed <= t.changed
    && (forall u :: u in s.users && s.users[u].password.Some? ==> u in t.users && t.users[u].password.Some?)
    && (forall u :: u in s.users && s.users[u].password.Some? && u !in t.changed ==> t.users[u].password == s.users[u].password)
    && s.outcomes <= t.outcomes
  }

  // Each token is accepted at most once, each user's password is set by setup
  // at most once, and it stays the user's password until the user changes it.
  lemma {:induction false} SetupOnce(s: System, steps: seq<Step>)
    requires Locked(s) && History(s) && CanRun(s, steps)
    ensures var t := Run(s, steps); Locked(t) && History(t) && Keeps(s, t)
    decreases |steps|
  {
    if steps != [] {
      hide Apply, Enabled, Locked, History;
      StepSafe(s, steps[0]);
      StepKeepsHistory(s, steps[0]);
      SetupOnce(Apply(s, steps[0]), steps[1..]);
    }
  }

  function Overlapping(u: User, a: Txn, b: Txn, t: TokenHash, v: TokenHash, ttl: nat): seq<Step> {
    [ReadUser(a, u), ReadUser(b, u), Supersede(a), Supersede(b), InsertToken(a, t, ttl), InsertToken(b, v, ttl)]
  }

  lemma RunStep(s: System, step: Step, rest: seq<Step>)
    requires Enabled(s, step) && CanRun(Apply(s, step), rest)
    ensures CanRun(s, [step] + rest) && Run(s, [step] + rest) == Run(Apply(s, step), rest)
  {
    assert ([step] + rest)[1..] == rest;
  }

  // Two overlapping creations leave two live tokens of one user.
  lemma TwoLiveTokens(u: User, a: Txn, b: Txn, t: TokenHash, v: TokenHash, ttl: nat, now: int)
    requires a != b && t != v && ttl > 0
    ensures var s := System(map[u := Account(true, None)], map[], map[], map[], now, {}, {}, []);
            var steps := Overlapping(u, a, b, t, v, ttl);
            && CanRun(s, steps)
            && var end := Run(s, steps).tokens;
               t in end && v in end && end[t].user == end[v].user == u && Usable(end[t], now) && Usable(end[v], now)
  {
    hide CanRun, Run;
    var s0 := System(map[u := Account(true, None)], map[], map[], map[], now, {}, {}, []);
    var steps := Overlapping(u, a, b, t, v, ttl);
    var s4 := s0.(issuing := map[a := Issue(u, Some(now)), b := Issue(u, Some(now))]);
    var second := [steps[4]] + ([steps[5]] + []);
    BothInsert(s4, u, a, b, t, v, ttl);
    var s1 := Apply(s0, steps[0]);
    var s2 := Apply(s1, steps[1]);
    var s3 := Apply(s2, steps[2]);
    assert Apply(s3, steps[3]) == s4;
    RunStep(s3, steps[3], second);
    RunStep(s2, steps[2], [steps[3]] + second);
    RunStep(s1, steps[1], [steps[2]] + ([steps[3]] + second));
    RunStep(s0, steps[0], [steps[1]] + ([steps[2]] + ([steps[3]] + second)));
    assert steps == [steps[0]] + ([steps[1]] + ([steps[2]] + ([steps[3]] + second)));
  }

  lemma BothInsert(s: System, u: User, a: Txn, b: Txn, t: TokenHash, v: TokenHash, ttl: nat)
    requires a != b && t != v && s.tokens == map[] && s.issued == {}
    requires s.issuing == map[a := Issue(u, Some(s.clock)), b := Issue(u, Some(s.clock))]
    ensures var steps := [InsertToken(a, t, ttl)] + ([InsertToken(b, v, ttl)] + []);
            && CanRun(s, steps)
            && Run(s, steps).tokens == map[t := Token(u, s.clock + ttl, None), v := Token(u, s.clock + ttl, None)]
  {
    var s1 := Apply(s, InsertToken(a, t, ttl));
    var s2 := Apply(s1, InsertToken(b, v, ttl));
    assert CanRun(s2, []) && Run(s2, []) == s2;
    hide CanRun, Run;
    RunStep(s1, InsertToken(b, v, ttl), []);
    RunStep(s, InsertToken(a, t, ttl), [InsertToken(b, v, ttl)] + []);
  }

  // ---- Completions are atomic ----

  // What one completion does when nothing interleaves with it.
  function Complete(users: map<User, Account>, tokens: map<TokenHash, Token>, h: TokenHash, password: string, now: int)
    : (Answer, map<User, Account>, map<TokenHash, Token>)
  {
    if h !in tokens || !Usable(tokens[h], now) || !MayStillSet(users, tokens[h].user) then (Invalid, users, tokens)
    else (Accepted, users[tokens[h].user := users[tokens[h].user].(password := Some(password))],
          tokens[h := tokens[h].(consumedAt := Some(now))])
  }

  // The whole completion a step belongs to, done at that point with the time it read.
  function Whole(s: System, step: Step): (Answer, map<User, Account>, map<TokenHash, Token>)
    requires step.LockToken? || ((step.LockUser? || step.CommitCompletion?) && step.txn in s.running)
  {
    if step.LockToken? then Complete(s.users, s.tokens, step.token, step.password, s.clock)
    else
      var c := s.running[step.txn];
      Complete(s.users, s.tokens, c.token, c.password, c.readAt)
  }

  // A step that ends a completion has the answer and the effect of the whole
  // completion done at once.
  lemma EndsAtomically(s: System, step: Step)
    requires Locked(s) && Enabled(s, step) && (step.LockToken? || step.LockUser? || step.CommitCompletion?)
    requires Apply(s, step).outcomes != s.outcomes
    ensures var t := Apply(s, step);
            t.outcomes[|s.outcomes|..] != [] && Whole(s, step) == (t.outcomes[|s.outcomes|].answer, t.users, t.tokens)
  {
    if !step.LockToken? { assert Holds(s, s.running[step.txn]); }
  }

  // A completion is accepted exactly for an unconsumed, unexpired token of an
  // active user without a password. It then sets that password and consumes that
  // token and changes nothing else; a refused one changes nothing.
  lemma AcceptedExactly(users: map<User, Account>, tokens: map<TokenHash, Token>, h: TokenHash, password: string, now: int)
    ensures var (answer, accounts, rows) := Complete(users, tokens, h, password, now);
            && (answer == Accepted <==>
                  && h in tokens && tokens[h].consumedAt == None && now < tokens[h].expiresAt
                  && tokens[h].user in users && users[tokens[h].user] == Account(true, None))
            && (answer == Accepted ==>
                  && accounts == users[tokens[h].user := Account(true, Some(password))]
                  && rows == tokens[h := Token(tokens[h].user, tokens[h].expiresAt, Some(now))])
            && (answer != Accepted ==> accounts == users && rows == tokens)
  {
  }

  // In a schedule, too, nothing is accepted for an inactive account, and no
  // creation starts for one.
  lemma OnlyActive(s: System, step: Step)
    requires Locked(s) && Enabled(s, step)
    ensures step.ReadUser? ==> step.user in s.users && s.users[step.user] == Account(true, None)
    ensures var t := Apply(s, step);
            forall e :: e in t.outcomes && e !in s.outcomes && IsAccepted(e) ==>
              && e.user in s.users && s.users[e.user] == Account(true, None)
              && e.token in s.tokens && s.tokens[e.token].user == e.user && s.tokens[e.token].consumedAt == None
  {
    if step.CommitCompletion? { assert Holds(s, s.running[step.txn]); }
  }

  function Completing(txn: Txn, h: TokenHash, password: string): seq<Step> {
    [LockToken(txn, h, password)] + ([LockUser(txn)] + ([CommitCompletion(txn)] + []))
  }

  // Where nothing else holds its locks, a completion that is due can run, and
  // its three steps do what the whole of it does.
  lemma CompletionRuns(s: System, txn: Txn, h: TokenHash, password: string)
    requires s.running == map[] && Complete(s.users, s.tokens, h, password, s.clock).0 == Accepted
    ensures var steps := Completing(txn, h, password);
            && CanRun(s, steps)
            && var (_, accounts, rows) := Complete(s.users, s.tokens, h, password, s.clock);
               Run(s, steps) == s.(users := accounts, tokens := rows,
                                   outcomes := s.outcomes + [Ended(txn, h, Accepted, s.tokens[h].user, password)])
  {
    hide CanRun, Run;
    var s1 := Apply(s, LockToken(txn, h, password));
    var s2 := Apply(s1, LockUser(txn));
    var s3 := Apply(s2, CommitCompletion(txn));
    assert s3.running == map[];
    EmptyRun(s3);
    RunStep(s2, CommitCompletion(txn), []);
    RunStep(s1, LockUser(txn), [CommitCompletion(txn)] + []);
    RunStep(s, LockToken(txn, h, password), [LockUser(txn)] + ([CommitCompletion(txn)] + []));
  }

  lemma EmptyRun(s: System)
    ensures CanRun(s, []) && Run(s, []) == s
  {
  }

  // A completion that is not due ends at its first or second step with nothing changed.
  lemma RefusalRuns(s: System, txn: Txn, h: TokenHash, password: string)
    requires s.running == map[] && Complete(s.users, s.tokens, h, password, s.clock).0 == Invalid
    ensures var steps := if h in s.tokens && Usable(s.tokens[h], s.clock)
                         then [LockToken(txn, h, password)] + ([LockUser(txn)] + [])
                         else [LockToken(txn, h, password)] + [];
            CanRun(s, steps) && Run(s, steps) == s.(outcomes := s.outcomes + [Ended(txn, h, Invalid, 0, "")])
  {
    hide CanRun, Run;
    var s1 := Apply(s, LockToken(txn, h, password));
    if h in s.tokens && Usable(s.tokens[h], s.clock) {
      var s2 := Apply(s1, LockUser(txn));
      assert s2.running == map[];
      EmptyRun(s2);
      RunStep(s1, LockUser(txn), []);
      RunStep(s, LockToken(txn, h, password), [LockUser(txn)] + []);
    } else {
      EmptyRun(s1);
      RunStep(s, LockToken(txn, h, password), []);
    }
  }

  // Likewise a creation for an active user without a password.
  lemma CreationRuns(s: System, txn: Txn, u: User, h: TokenHash, ttl: nat)
    requires s.running == map[] && txn !in s.issuing && h !in s.issued && h !in s.tokens
    requires u in s.users && s.users[u] == Account(true, None)
    ensures var steps := [ReadUser(txn, u)] + ([Supersede(txn)] + ([InsertToken(txn, h, ttl)] + []));
            && CanRun(s, steps)
            && var t := Run(s, steps);
               && t == s.(tokens := t.tokens, issued := s.issued + {h}) && t.tokens.Keys == s.tokens.Keys + {h}
               && t.tokens[h] == Token(u, s.clock + ttl, None)
               && forall k :: k in s.tokens ==>
                    t.tokens[k] == if s.tokens[k].user == u && s.tokens[k].consumedAt == None
                                   then Token(u, s.tokens[k].expiresAt, Some(s.clock)) else s.tokens[k]
  {
    hide CanRun, Run;
    var s1 := Apply(s, ReadUser(txn, u));
    var s2 := Apply(s1, Supersede(txn));
    var s3 := Apply(s2, InsertToken(txn, h, ttl));
    assert s3.issuing == s.issuing;
    EmptyRun(s3);
    RunStep(s2, InsertToken(txn, h, ttl), []);
    RunStep(s1, Supersede(txn), [InsertToken(txn, h, ttl)] + []);
    RunStep(s, ReadUser(txn, u), [Supersede(txn)] + ([InsertToken(txn, h, ttl)] + []));
  }

  // A deactivation shuts out every completion and creation for the user, and a
  // reactivation lets in what is usable as before.
  lemma DeactivatedRefused(s: System, u: User, h: TokenHash, password: string, now: int)
    requires u in s.users && UserFree(s, u) && h in s.tokens && s.tokens[h].user == u
    ensures var t := Apply(s, Deactivate(u));
            Complete(t.users, t.tokens, h, password, now).0 == Invalid && forall txn :: !Enabled(t, ReadUser(txn, u))
    ensures var t := Apply(s, Reactivate(u));
            Complete(t.users, t.tokens, h, password, now).0 == Accepted <==> Usable(s.tokens[h], now) && s.users[u].password == None
  {
  }

  // The two tables as one service call sees them.
  class AuthTables {
    var users: map<User, Account>
    var tokens: map<TokenHash, Token>

    constructor (users: map<User, Account>, tokens: map<TokenHash, Token>)
      ensures this.users == users && this.tokens == tokens
    {
      this.users, this.tokens := users, tokens;
    }

    method CompleteAccountSetupToken(h: TokenHash, password: string, now: int) returns (a: Answer)
      modifies this
      ensures (a, users, tokens) == Complete(old(users), old(tokens), h, password, now)
      ensures a == Accepted ==> old(users)[old(tokens)[h].user] == Account(true, None)
    {
      if h !in tokens || tokens[h].consumedAt.Some? || tokens[h].expiresAt <= now {
        return Invalid;
      }
      var row := tokens[h];
      if row.user !in users || !users[row.user].active || users[row.user].password.Some? {
        return Invalid;
      }
      users := users[row.user := users[row.user].(password := Some(password))];
      tokens := tokens[h := row.(consumedAt := Some(now))];
      return Accepted;
    }

    method CreateAccountSetupToken(u: User, h: TokenHash, now: int, ttl: nat) returns (ok: bool)
      requires h !in tokens
      modifies this
      ensures users == old(users) && (ok <==> u in users && users[u] == Account(true, None))
      ensures tokens == if ok then Superseded(old(tokens), u, now)[h := Token(u, now + ttl, None)] else old(tokens)
      ensures ok ==> forall k :: k in tokens && tokens[k].user == u && tokens[k].consumedAt == None ==> k == h
      ensures ok ==> forall k :: k in old(tokens) ==>
                var row := old(tokens)[k];
                k in tokens && tokens[k] == if row.user == u && row.consumedAt == None then Token(u, row.expiresAt, Some(now)) else row
    {
      if u !in users || !users[u].active {
        return false;
      }
      if users[u].password.Some? {
        return false;
      }
      tokens := Superseded(tokens, u, now);
      tokens := tokens[h := Token(u, now + ttl, None)];
      return true;
    }

    method CleanupExpiredAuthArtifacts(now: int)
      modifies this
      ensures users == old(users)
      ensures forall h :: h in tokens <==> h in old(tokens) && now < old(tokens)[h].expiresAt
      ensures forall h :: h in tokens ==> tokens[h] == old(tokens)[h]
      ensures forall h, password, later: int :: later >= now ==>
                Complete(users, tokens, h, password, later).0 == Complete(old(users), old(tokens), h, password, later).0
                && Complete(users, tokens, h, password, later).1 == Complete(old(users), old(tokens), h, password, later).1
    {
      tokens := map h | h in tokens && tokens[h].expiresAt > now :: tokens[h];
    }
  }

  // ---- Collection is unobservable ----

  function WithoutCleanup(steps: seq<Step>): seq<Step> {
    if steps == [] then []
    else (if steps[0].Cleanup? then [] else [steps[0]]) + WithoutCleanup(steps[1..])
  }

  // t is s with some expired, unlocked tokens still in the table.
  ghost predicate Collected(s: System, t: System) {
    && t == s.(tokens := t.tokens)
    && (forall h :: h in s.tokens ==> h in t.tokens && t.tokens[h] == s.tokens[h])
    && t.tokens.Keys <= s.issued
    && (forall h :: h in t.tokens && h !in s.tokens ==> t.tokens[h].expiresAt <= s.clock && TokenFree(s, h))
  }

  lemma SameUserFree(s: System, t: System, u: User)
    requires Collected(s, t) && Locked(s)
    ensures UserFree(s, u) <==> UserFree(t, u)
  {
    forall x | x in s.running ensures s.running[x].token in s.tokens { assert Holds(s, s.running[x]); }
  }

  // Both systems allow the same steps, cleanup aside, and stay related.
  lemma CollectedInsert(s: System, t: System, txn: Txn, h: TokenHash, ttl: nat)
    requires Collected(s, t) && Locked(s)
    ensures var step := InsertToken(txn, h, ttl);
            && (Enabled(s, step) <==> Enabled(t, step)) && (Enabled(s, step) ==> Collected(Apply(s, step), Apply(t, step)))
  {
  }

  lemma CollectedSupersede(s: System, t: System, txn: Txn)
    requires Collected(s, t) && Locked(s)
    ensures var step := Supersede(txn);
            && (Enabled(s, step) <==> Enabled(t, step)) && (Enabled(s, step) ==> Collected(Apply(s, step), Apply(t, step)))
  {
  }

  lemma CollectedLockToken(s: System, t: System, txn: Txn, h: TokenHash, password: string)
    requires Collected(s, t) && Locked(s)
    ensures var step := LockToken(txn, h, password);
            && (Enabled(s, step) <==> Enabled(t, step)) && (Enabled(s, step) ==> Collected(Apply(s, step), Apply(t, step)))
  {
  }

  lemma CollectedCompletion(s: System, t: System, step: Step)
    requires Collected(s, t) && Locked(s) && (step.LockUser? || step.CommitCompletion?)
    ensures (Enabled(s, step) <==> Enabled(t, step)) && (Enabled(s, step) ==> Collected(Apply(s, step), Apply(t, step)))
  {
    if step.txn in s.running {
      assert Holds(s, s.running[step.txn]);
      SameUserFree(s, t, s.tokens[s.running[step.txn].token].user);
    }
  }

  lemma CollectedOther(s: System, t: System, step: Step)
    requires Collected(s, t) && Locked(s)
    requires !step.Supersede? && !step.InsertToken? && !step.LockToken? && !step.LockUser? && !step.CommitCompletion? && !step.Cleanup?
    ensures (Enabled(s, step) <==> Enabled(t, step)) && (Enabled(s, step) ==> Collected(Apply(s, step), Apply(t, step)))
  {
    if step.Deactivate? || step.Reactivate? || step.ChangePassword? { SameUserFree(s, t, step.user); }
  }

  lemma CollectedStep(s: System, t: System, step: Step)
    requires Collected(s, t) && Locked(s) && !step.Cleanup?
    ensures Enabled(s, step) <==> Enabled(t, step)
    ensures Enabled(s, step) ==> Collected(Apply(s, step), Apply(t, step))
  {
    hide Apply, Enabled, Locked, Collected;
    match step
    case Supersede(txn) => CollectedSupersede(s, t, txn);
    case InsertToken(txn, h, ttl) => CollectedInsert(s, t, txn, h, ttl);
    case LockToken(txn, h, password) => CollectedLockToken(s, t, txn, h, password);
    case LockUser(_) => CollectedCompletion(s, t, step);
    case CommitCompletion(_) => CollectedCompletion(s, t, step);
    case _ => CollectedOther(s, t, step);
  }

  lemma CollectedCleanup(s: System, t: System)
    requires Collected(s, t) && Enabled(s, Cleanup) && s.tokens.Keys <= s.issued
    ensures Collected(Apply(s, Cleanup), t)
  {
  }

  // Removing every collection from a schedule leaves an executable schedule
  // with the same answers and the same accounts.
  lemma {:induction false} CleanupUnobservable(s: System, t: System, steps: seq<Step>)
    requires Locked(s) && History(s) && Collected(s, t) && CanRun(s, steps)
    ensures CanRun(t, WithoutCleanup(steps))
    ensures Collected(Run(s, steps), Run(t, WithoutCleanup(steps)))
    decreases |steps|
  {
    if steps != [] {
      hide Apply, Enabled, Locked, Collected;
      var step := steps[0];
      StepSafe(s, step);
      StepKeepsHistory(s, step);
      if step.Cleanup? {
        CollectedCleanup(s, t);
        assert WithoutCleanup(steps) == WithoutCleanup(steps[1..]);
        CleanupUnobservable(Apply(s, step), t, steps[1..]);
      } else {
        CollectedStep(s, t, step);
        assert WithoutCleanup(steps)[1..] == WithoutCleanup(steps[1..]);
        CleanupUnobservable(Apply(s, step), Apply(t, step), steps[1..]);
      }
    }
  }

  lemma SameAnswers(s: System, steps: seq<Step>)
    requires Locked(s) && History(s) && CanRun(s, steps)
    ensures CanRun(s, WithoutCleanup(steps))
    ensures Run(s, WithoutCleanup(steps)).outcomes == Run(s, steps).outcomes
    ensures Run(s, WithoutCleanup(steps)).users == Run(s, steps).users
  {
    CleanupUnobservable(s, s, steps);
  }
}
