// What holds over whole runs of the decision protocol, under repetition of
// commands, and for the bulk endpoints (app/api/actions.py).
module DecisionRuns {
  import opened Options
  import opened Decisions
  import Ordering

  predicate IsDecision(e: Event) { !e.kind.ExecutionEvent? }

  // The number of decision events of a proposal.
  function DecisionCount(log: seq<Event>, id: Id): nat {
    if log == [] then 0
    else DecisionCount(log[..|log| - 1], id) + if IsDecision(log[|log| - 1]) && log[|log| - 1].proposal == id then 1 else 0
  }

  predicate ApprovedFamily(s: Status) { s == Approved || s == Executed || s == Failed }

  // A row's actor and time fields agree with its status.
  predicate Coherent(p: Proposal) {
    match p.status
    case Proposed => p.approvedBy == None && p.rejectedBy == None
    case Rejected => p.approvedBy == None && p.rejectedBy.Some? && p.rejectedAt.Some?
    case _ => p.approvedBy.Some? && p.approvedAt.Some? && p.rejectedBy == None
  }

  predicate EventMatches(p: Proposal, e: Event) {
    if e.kind == ProposalApproved then ApprovedFamily(p.status) && p.approvedBy == Some(e.actor)
    else p.status == Rejected && p.rejectedBy == Some(e.actor)
  }

  ghost predicate UniqueKeys(log: seq<Event>) { forall i, j :: 0 <= i < j < |log| ==> log[i].key != log[j].key }

  ghost predicate RowsCoherent(s: Store) {
    forall id :: id in s.proposals ==> s.proposals[id].id == id && Coherent(s.proposals[id])
  }

  // `exact` excludes decisions recorded without an event by the older functions.
  ghost predicate CountsMatch(s: Store, exact: bool) {
    forall id :: id in s.proposals ==>
      var n, open := DecisionCount(s.log, id), s.proposals[id].status == Proposed;
      if open then n == 0 else if exact then n == 1 else n <= 1
  }

  ghost predicate EventsMatch(s: Store) {
    forall e :: e in s.log ==> e.proposal in s.proposals && (IsDecision(e) ==> EventMatches(s.proposals[e.proposal], e))
  }

  ghost predicate ClaimsMatch(s: Store) {
    forall id :: id in s.claims ==> id in s.proposals && ApprovedFamily(s.proposals[id].status)
  }

  ghost predicate Inv(s: Store, exact: bool) {
    RowsCoherent(s) && CountsMatch(s, exact) && EventsMatch(s) && UniqueKeys(s.log) && ClaimsMatch(s)
  }

  // What later steps never undo.
  ghost predicate Extends(s: Store, t: Store) {
    && s.log <= t.log
    && forall id :: id in s.proposals ==>
         && id in t.proposals && t.proposals[id].workspace == s.proposals[id].workspace
         && (s.proposals[id].status != Proposed ==>
               && t.proposals[id].approvedBy == s.proposals[id].approvedBy
               && t.proposals[id].rejectedBy == s.proposals[id].rejectedBy
               && (ApprovedFamily(s.proposals[id].status) <==> ApprovedFamily(t.proposals[id].status))
               && (s.proposals[id].status == Rejected <==> t.proposals[id].status == Rejected))
  }

  datatype Step =
    | CreateStep(row: Proposal)
    | DecideStep(w: World, ws: Workspace, id: Id, actor: User, c: Command)
    | BulkStep(w: World, ws: Workspace, actor: User, items: seq<(Id, Command)>)
    | ClaimStep(id: Id)
    | OutcomeStep(id: Id, status: Status) // execution recorded: executed, failed, or back to approved
    | AuditStep(e: Event)
    | OlderStep(ws: Workspace, id: Id, actor: User, now: int, approve: bool, reason: Option<string>)

  // approve_action_proposal and reject_action_proposal: a status change without an audit event.
  function OlderDecision(s: Store, ws: Workspace, id: Id, actor: User, now: int, approve: bool, reason: Option<string>): Store {
    if s.Row(ws, id) == None || s.proposals[id].status != Proposed then s
    else s.(proposals := s.proposals[id :=
              if approve then s.proposals[id].(status := Approved, approvedBy := Some(actor), approvedAt := Some(now), updatedAt := now)
              else s.proposals[id].(status := Rejected, rejectedBy := Some(actor), rejectedAt := Some(now),
                                    rejectionReason := OptionalText(reason), updatedAt := now)])
  }

  function Fold(env: Env, w: World, s: Store, ws: Workspace, actor: User, items: seq<(Id, Command)>): (seq<Outcome>, Store)
    decreases |items|
  {
    if items == [] then ([], s)
    else
      var o := Decide(env, w, s, ws, items[0].0, actor, items[0].1);
      var (rest, after) := Fold(env, w, Commit(s, items[0].0, o), ws, actor, items[1..]);
      ([o] + rest, after)
  }

  // A bulk request commits what its items did, unless one of them crashed.
  function Bulk(env: Env, w: World, s: Store, ws: Workspace, actor: User, items: seq<(Id, Command)>): Store {
    var (outcomes, after) := Fold(env, w, s, ws, actor, items);
    if Crashed in outcomes then s else after
  }

  function Apply(env: Env, s: Store, step: Step): Store {
    match step
    case CreateStep(row) =>
      if row.id in s.proposals then s
      else s.(proposals := s.proposals[row.id := row.(status := Proposed, approvedBy := None, approvedAt := None,
                                                       rejectedBy := None, rejectedAt := None, rejectionReason := None)])
    case DecideStep(w, ws, id, actor, c) => Commit(s, id, Decide(env, w, s, ws, id, actor, c))
    case BulkStep(w, ws, actor, items) => Bulk(env, w, s, ws, actor, items)
    case ClaimStep(id) =>
      if id in s.proposals && s.proposals[id].status == Approved then s.(claims := s.claims + {id}) else s
    case OutcomeStep(id, status) =>
      if id in s.claims && id in s.proposals && ApprovedFamily(status)
      then s.(proposals := s.proposals[id := s.proposals[id].(status := status)]) else s
    case AuditStep(e) =>
      if e.proposal in s.proposals && !IsDecision(e) && StoredKey(e.key) == e.key then s.(log := Append(s.log, e).0) else s
    case OlderStep(ws, id, actor, now, approve, reason) => OlderDecision(s, ws, id, actor, now, approve, reason)
  }

  function Run(env: Env, s: Store, steps: seq<Step>): Store
    decreases |steps|
  {
    if steps == [] then s else Run(env, Apply(env, s, steps[0]), steps[1..])
  }

  lemma CountAppend(log: seq<Event>, e: Event, id: Id)
    ensures DecisionCount(log + [e], id) == DecisionCount(log, id) + if IsDecision(e) && e.proposal == id then 1 else 0
  {
    assert (log + [e])[..|log|] == log;
  }

  lemma {:induction false} CountAbsent(log: seq<Event>, id: Id)
    requires forall e :: e in log ==> e.proposal != id
    ensures DecisionCount(log, id) == 0
  {
    if log != [] { CountAbsent(log[..|log| - 1], id); }
  }

  lemma AppendKeepsUnique(log: seq<Event>, e: Event)
    requires UniqueKeys(log) && Find(log, e.key) == None
    ensures UniqueKeys(log + [e])
  {
    forall i | 0 <= i < |log| ensures log[i].key != e.key { assert log[i] in log; }
  }

  // What a recorded decision tells about the state it was taken in.
  lemma DecidedFacts(env: Env, s: Store, w: World, ws: Workspace, id: Id, actor: User, c: Command)
    requires Decide(env, w, s, ws, id, actor, c).Decided?
    ensures id in s.proposals && s.proposals[id].workspace == ws && s.proposals[id].status == Proposed
    ensures env.version(s.proposals[id]) == c.version
    ensures Find(s.log, env.DecisionKey(ws, id, c.clientKey)) == None
    ensures Decide(env, w, s, ws, id, actor, c)
            == Decided(DecidedRow(s.proposals[id], actor, c, w.now(s.proposals[id].id)), DecisionEvent(env, s.proposals[id], actor, c))
  {
  }

  lemma DecidedEvents(s: Store, id: Id, row: Proposal, e: Event)
    requires EventsMatch(s) && id in s.proposals && s.proposals[id].status == Proposed && e.proposal == id
    requires IsDecision(e) ==> EventMatches(row, e)
    ensures EventsMatch(s.(proposals := s.proposals[id := row], log := s.log + [e]))
  {
    forall x | x in s.log && IsDecision(x) ensures x.proposal != id {}
  }

  lemma DecidedCounts(s: Store, exact: bool, id: Id, row: Proposal, e: Event)
    requires CountsMatch(s, exact) && id in s.proposals && s.proposals[id].status == Proposed
    requires row.status != Proposed && IsDecision(e) && e.proposal == id
    ensures CountsMatch(s.(proposals := s.proposals[id := row], log := s.log + [e]), exact)
  {
    forall k | k in s.proposals
      ensures DecisionCount(s.log + [e], k) == DecisionCount(s.log, k) + if k == id then 1 else 0
    {
      CountAppend(s.log, e, k);
    }
  }

  lemma DecideKeepsInv(env: Env, s: Store, exact: bool, w: World, ws: Workspace, id: Id, actor: User, c: Command)
    requires env.Valid() && Inv(s, exact)
    ensures var t := Commit(s, id, Decide(env, w, s, ws, id, actor, c)); Inv(t, exact) && Extends(s, t)
  {
    hide CountsMatch, EventsMatch, UniqueKeys, Decide;
    var o := Decide(env, w, s, ws, id, actor, c);
    if o.Decided? {
      DecidedFacts(env, s, w, ws, id, actor, c);
      AppendKeepsUnique(s.log, o.event);
      DecidedEvents(s, id, o.row, o.event);
      DecidedCounts(s, exact, id, o.row, o.event);
    }
  }

  lemma {:induction false} FoldKeepsInv(env: Env, w: World, s: Store, ws: Workspace, actor: User, items: seq<(Id, Command)>, exact: bool)
    requires env.Valid() && Inv(s, exact)
    ensures var t := Fold(env, w, s, ws, actor, items).1; Inv(t, exact) && Extends(s, t)
    decreases |items|
  {
    hide Decide, Commit, Inv, Extends;
    if items == [] {
      ExtendsSelf(s);
    } else {
      DecideKeepsInv(env, s, exact, w, ws, items[0].0, actor, items[0].1);
      var next := Commit(s, items[0].0, Decide(env, w, s, ws, items[0].0, actor, items[0].1));
      FoldKeepsInv(env, w, next, ws, actor, items[1..], exact);
      ExtendsTransitive(s, next, Fold(env, w, next, ws, actor, items[1..]).1);
    }
  }

  lemma ExtendsSelf(s: Store)
    ensures Extends(s, s)
  {
  }

  lemma ExtendsTransitive(s: Store, t: Store, u: Store)
    requires Extends(s, t) && Extends(t, u)
    ensures Extends(s, u)
  {
  }

  lemma AuditKeepsInv(s: Store, exact: bool, e: Event)
    requires Inv(s, exact) && e.proposal in s.proposals && !IsDecision(e) && StoredKey(e.key) == e.key
    ensures var t := s.(log := Append(s.log, e).0); Inv(t, exact) && Extends(s, t)
  {
    if Find(s.log, e.key) == None {
      AppendKeepsUnique(s.log, e);
      forall k | k in s.proposals ensures DecisionCount(s.log + [e], k) == DecisionCount(s.log, k) { CountAppend(s.log, e, k); }
    }
  }

  // A change of one row that keeps its workspace and its decision.
  lemma RowChangeKeepsInv(s: Store, exact: bool, id: Id, row: Proposal)
    requires Inv(s, exact) && id in s.proposals && row.id == id && row.workspace == s.proposals[id].workspace
    requires Coherent(row) && row.status != Proposed
    requires if s.proposals[id].status == Proposed then !exact
             else row.approvedBy == s.proposals[id].approvedBy && row.rejectedBy == s.proposals[id].rejectedBy
                  && (ApprovedFamily(row.status) <==> ApprovedFamily(s.proposals[id].status))
    ensures var t := s.(proposals := s.proposals[id := row]); Inv(t, exact) && Extends(s, t)
  {
    var t := s.(proposals := s.proposals[id := row]);
    forall e | e in t.log && IsDecision(e) ensures EventMatches(t.proposals[e.proposal], e) {
      assert EventMatches(s.proposals[e.proposal], e);
    }
  }

  lemma CreateKeepsInv(s: Store, exact: bool, row: Proposal)
    requires Inv(s, exact) && row.id !in s.proposals && row.status == Proposed && Coherent(row)
    ensures var t := s.(proposals := s.proposals[row.id := row]); Inv(t, exact) && Extends(s, t)
  {
    CountAbsent(s.log, row.id);
    var t := s.(proposals := s.proposals[row.id := row]);
    forall e | e in t.log && IsDecision(e) ensures EventMatches(t.proposals[e.proposal], e) {
      assert EventMatches(s.proposals[e.proposal], e);
    }
  }

  lemma CreateStepKeeps(env: Env, s: Store, step: Step, exact: bool)
    requires Inv(s, exact) && step.CreateStep?
    ensures Inv(Apply(env, s, step), exact) && Extends(s, Apply(env, s, step))
  {
    hide Inv, Extends;
    if step.row.id in s.proposals {
      ExtendsSelf(s);
    } else {
      CreateKeepsInv(s, exact, step.row.(status := Proposed, approvedBy := None, approvedAt := None,
                                         rejectedBy := None, rejectedAt := None, rejectionReason := None));
    }
  }

  lemma ClaimStepKeeps(env: Env, s: Store, step: Step, exact: bool)
    requires Inv(s, exact) && step.ClaimStep?
    ensures Inv(Apply(env, s, step), exact) && Extends(s, Apply(env, s, step))
  {
    ExtendsSelf(s);
    hide UniqueKeys, Coherent, EventMatches;
  }

  lemma OutcomeStepKeeps(env: Env, s: Store, step: Step, exact: bool)
    requires Inv(s, exact) && step.OutcomeStep?
    ensures Inv(Apply(env, s, step), exact) && Extends(s, Apply(env, s, step))
  {
    var id := step.id;
    if id in s.claims && id in s.proposals && ApprovedFamily(step.status) {
      assert ApprovedFamily(s.proposals[id].status) && Coherent(s.proposals[id]) && s.proposals[id].id == id;
      hide Inv, Extends;
      RowChangeKeepsInv(s, exact, id, s.proposals[id].(status := step.status));
    } else {
      hide Inv, Extends;
      ExtendsSelf(s);
    }
  }

  lemma AuditStepKeeps(env: Env, s: Store, step: Step, exact: bool)
    requires Inv(s, exact) && step.AuditStep?
    ensures Inv(Apply(env, s, step), exact) && Extends(s, Apply(env, s, step))
  {
    hide Inv, Extends;
    if step.e.proposal in s.proposals && !IsDecision(step.e) && StoredKey(step.e.key) == step.e.key {
      AuditKeepsInv(s, exact, step.e);
    } else {
      ExtendsSelf(s);
    }
  }

  lemma OlderStepKeeps(env: Env, s: Store, step: Step)
    requires Inv(s, false) && step.OlderStep?
    ensures Inv(Apply(env, s, step), false) && Extends(s, Apply(env, s, step))
  {
    var id := step.id;
    if s.Row(step.ws, id).Some? && s.proposals[id].status == Proposed {
      assert Coherent(s.proposals[id]) && s.proposals[id].id == id;
      hide Inv, Extends;
      RowChangeKeepsInv(s, false, id, OlderDecision(s, step.ws, id, step.actor, step.now, step.approve, step.reason).proposals[id]);
    } else {
      hide Inv, Extends;
      ExtendsSelf(s);
    }
  }

  lemma StepKeepsInv(env: Env, s: Store, step: Step, exact: bool)
    requires env.Valid() && Inv(s, exact) && (exact ==> !step.OlderStep?)
    ensures Inv(Apply(env, s, step), exact) && Extends(s, Apply(env, s, step))
  {
    ExtendsSelf(s);
    hide Inv, Extends, Decide, Fold;
    match step
    case CreateStep(_) => CreateStepKeeps(env, s, step, exact);
    case DecideStep(w, ws, id, actor, c) => DecideKeepsInv(env, s, exact, w, ws, id, actor, c);
    case BulkStep(w, ws, actor, items) => FoldKeepsInv(env, w, s, ws, actor, items, exact);
    case ClaimStep(_) => ClaimStepKeeps(env, s, step, exact);
    case OutcomeStep(_, _) => OutcomeStepKeeps(env, s, step, exact);
    case AuditStep(_) => AuditStepKeeps(env, s, step, exact);
    case OlderStep(_, _, _, _, _, _) => OlderStepKeeps(env, s, step);
  }

  // Over every run: with the older functions at most one decision event per
  // proposal, without them exactly one per decided proposal; rows, events and
  // actors agree; and nothing recorded is undone.
  lemma {:induction false} RunKeepsInv(env: Env, s: Store, steps: seq<Step>, exact: bool)
    requires env.Valid() && Inv(s, exact) && (exact ==> forall step :: step in steps ==> !step.OlderStep?)
    ensures Inv(Run(env, s, steps), exact) && Extends(s, Run(env, s, steps))
    decreases |steps|
  {
    hide Apply, Inv, Extends;
    if steps == [] {
      ExtendsSelf(s);
    } else {
      var next := Apply(env, s, steps[0]);
      StepKeepsInv(env, s, steps[0], exact);
      RunKeepsInv(env, next, steps[1..], exact);
      ExtendsTransitive(s, next, Run(env, next, steps[1..]));
    }
  }

  const EMPTY := Store(map[], [], {})

  // From an empty database: a proposal has exactly one decision event if it is
  // no longer proposed and none while it is; both actors are never set.
  lemma OneDecisionPerProposal(env: Env, steps: seq<Step>, id: Id)
    requires env.Valid() && forall step :: step in steps ==> !step.OlderStep?
    requires id in Run(env, EMPTY, steps).proposals
    ensures var s := Run(env, EMPTY, steps); var p := s.proposals[id];
            && DecisionCount(s.log, id) == (if p.status == Proposed then 0 else 1)
            && !(p.approvedBy.Some? && p.rejectedBy.Some?)
            && (forall e :: e in s.log && IsDecision(e) && e.proposal == id ==> EventMatches(p, e))
  {
    RunKeepsInv(env, EMPTY, steps, true);
  }

  // ---- Repeating a command ----

  lemma {:induction false} FindUnique(log: seq<Event>, e: Event)
    requires UniqueKeys(log) && e in log
    ensures Find(log, e.key) == Some(e)
  {
    if log[0] != e {
      assert log[0].key != e.key by {
        var i :| 0 <= i < |log| && log[i] == e;
        assert i > 0;
      }
      FindUnique(log[1..], e);
    }
  }

  // What any run after a recorded decision still finds.
  lemma AfterDecision(env: Env, s: Store, w: World, ws: Workspace, id: Id, actor: User, c: Command, steps: seq<Step>)
    returns (row: Proposal, t: Store)
    requires env.Valid() && Inv(s, false) && Decide(env, w, s, ws, id, actor, c).Decided?
    ensures t == Run(env, Commit(s, id, Decide(env, w, s, ws, id, actor, c)), steps)
    ensures t.Row(ws, id) == Some(row) && row.id == id && row.workspace == ws && Coherent(row)
    ensures Find(t.log, env.DecisionKey(ws, id, c.clientKey)) == Some(Decide(env, w, s, ws, id, actor, c).event)
    ensures if c.decision == Approve then ApprovedFamily(row.status) else row.status == Rejected
  {
    hide Decide, Run, CountsMatch, EventsMatch, ClaimsMatch;
    var o := Decide(env, w, s, ws, id, actor, c);
    var s1 := Commit(s, id, o);
    DecidedFacts(env, s, w, ws, id, actor, c);
    DecideKeepsInv(env, s, false, w, ws, id, actor, c);
    RunKeepsInv(env, s1, steps, false);
    t := Run(env, s1, steps);
    row := t.proposals[id];
    assert s1.log[|s1.log| - 1] == o.event;
    assert o.event == t.log[|s1.log| - 1];
    FindUnique(t.log, o.event);
  }

  lemma RecordedMetadata(env: Env, s: Store, w: World, ws: Workspace, id: Id, actor: User, c: Command)
    requires env.Valid() && Decide(env, w, s, ws, id, actor, c).Decided? && RowsCoherent(s)
    ensures var e := Decide(env, w, s, ws, id, actor, c).event;
            && e.kind == (if c.decision == Approve then ProposalApproved else ProposalRejected)
            && e.workspace == ws && e.proposal == id && e.metadata.Some?
            && e.metadata.value.fingerprint == env.Fingerprint(c)
            && e.metadata.value.decision == c.decision && e.metadata.value.version == c.version
  {
    DecidedFacts(env, s, w, ws, id, actor, c);
    assert IsDigest(env.Fingerprint(c));
  }

  // What a client asks for: the batch flag and white space around the reason are not part of it.
  function Request(c: Command): (Decision, Option<string>, string, Option<string>) {
    (c.decision, c.snapshot, c.version, OptionalText(c.reason))
  }

  // After a decision was recorded and any steps happened since, every command
  // with the same key and request, single or bulk, replays the original event
  // and changes nothing, exactly if the row is still approved or rejected. Once
  // an approved proposal is executed or failed, the repetition crashes in the
  // memory ledger instead.
  lemma RepeatedCommand(env: Env, s: Store, w: World, ws: Workspace, id: Id, actor: User, c: Command,
                        steps: seq<Step>, later: World, other: User, d: Command)
    requires env.Valid() && Inv(s, false) && Decide(env, w, s, ws, id, actor, c).Decided? && later.access == Admin
    requires d.clientKey == c.clientKey && Request(d) == Request(c)
    ensures var o := Decide(env, w, s, ws, id, actor, c);
            var t := Run(env, Commit(s, id, o), steps);
            && id in t.proposals
            && Decide(env, later, t, ws, id, other, d)
               == (if t.proposals[id].status in {Approved, Rejected} then Replayed(t.proposals[id], o.event) else Crashed)
            && Commit(t, id, Decide(env, later, t, ws, id, other, d)) == t
            && (d.decision == Reject ==> t.proposals[id].status == Rejected)
  {
    assert env.Fingerprint(d) == env.Fingerprint(c);
    hide Run, Inv, RowsCoherent, Find, Env.Fingerprint, Env.DecisionKey;
    var o := Decide(env, w, s, ws, id, actor, c);
    assert RowsCoherent(s) by { InvRows(s, false); }
    RecordedMetadata(env, s, w, ws, id, actor, c);
    var row, t := AfterDecision(env, s, w, ws, id, actor, c, steps);
    assert DecideRow(env, later, Some(row), Some(o.event), other, d) == Replay(env, row, o.event, d);
    assert ReplayMatches(env, row, o.event, d);
  }

  // Such a crash is reachable: approve, claim, execute, and repeat the command.
  lemma RepeatAfterExecution(env: Env, s: Store, w: World, ws: Workspace, id: Id, actor: User, c: Command,
                             later: World, other: User)
    requires env.Valid() && Inv(s, false) && Decide(env, w, s, ws, id, actor, c).Decided? && c.decision == Approve
    requires later.access == Admin
    ensures var t := Run(env, Commit(s, id, Decide(env, w, s, ws, id, actor, c)), [ClaimStep(id), OutcomeStep(id, Executed)]);
            id in t.proposals && t.proposals[id].status == Executed && Decide(env, later, t, ws, id, other, c) == Crashed
  {
    hide Inv, Decide;
    var o := Decide(env, w, s, ws, id, actor, c);
    DecidedFacts(env, s, w, ws, id, actor, c);
    var steps := [ClaimStep(id), OutcomeStep(id, Executed)];
    var s1 := Commit(s, id, o);
    var s2 := Apply(env, s1, steps[0]);
    var s3 := Apply(env, s2, steps[1]);
    assert steps[1..] == [steps[1]] && steps[1..][1..] == [];
    assert Run(env, s1, steps) == Run(env, s2, [steps[1]]) == Run(env, s3, []);
    RepeatedCommand(env, s, w, ws, id, actor, c, steps, later, other, c);
  }

  lemma InvRows(s: Store, exact: bool)
    requires Inv(s, exact)
    ensures RowsCoherent(s)
  {
  }

  // The same key on the same proposal with any other decision, snapshot,
  // version or trimmed reason is refused and changes nothing, unless the two
  // request digests collide.
  lemma DifferentCommandRefused(env: Env, s: Store, w: World, ws: Workspace, id: Id, actor: User, c: Command,
                                steps: seq<Step>, later: World, other: User, d: Command)
    requires env.Valid() && Inv(s, false) && Decide(env, w, s, ws, id, actor, c).Decided? && later.access == Admin
    requires d.clientKey == c.clientKey
    requires Request(d) != Request(c)
    requires var x := RequestPayload(d.decision, d.snapshot, d.version, OptionalText(d.reason));
             var y := RequestPayload(c.decision, c.snapshot, c.version, OptionalText(c.reason));
             env.digest(x) == env.digest(y) ==> x == y
    ensures var t := Run(env, Commit(s, id, Decide(env, w, s, ws, id, actor, c)), steps);
            && Decide(env, later, t, ws, id, other, d) == Refused(Conflict)
            && Commit(t, id, Decide(env, later, t, ws, id, other, d)) == t
  {
    assert env.Fingerprint(d) != env.Fingerprint(c);
    hide Run, Inv, RowsCoherent, Find, Env.Fingerprint, Env.DecisionKey;
    var o := Decide(env, w, s, ws, id, actor, c);
    assert RowsCoherent(s) by { InvRows(s, false); }
    RecordedMetadata(env, s, w, ws, id, actor, c);
    var row, t := AfterDecision(env, s, w, ws, id, actor, c, steps);
    assert DecideRow(env, later, Some(row), Some(o.event), other, d) == Replay(env, row, o.event, d);
    assert !ReplayMatches(env, row, o.event, d);
  }

  // ---- Bulk endpoints ----

  ghost predicate DistinctItems(env: Env, ws: Workspace, items: seq<(Id, Command)>) {
    forall i, j :: 0 <= i < j < |items| ==>
      && items[i].0 != items[j].0
      && env.DecisionKey(ws, items[i].0, items[i].1.clientKey) != env.DecisionKey(ws, items[j].0, items[j].1.clientKey)
  }

  lemma {:induction false} FindAppend(log: seq<Event>, e: Event, key: string)
    requires e.key != key
    ensures Find(log + [e], key) == Find(log, key)
  {
    if log != [] {
      assert (log + [e])[1..] == log[1..] + [e];
      FindAppend(log[1..], e, key);
    }
  }

  // Deciding one proposal changes no other proposal's outcome.
  lemma OthersUnaffected(env: Env, w: World, s: Store, ws: Workspace, actor: User, id: Id, c: Command, id2: Id, c2: Command)
    requires id != id2 && env.DecisionKey(ws, id, c.clientKey) != env.DecisionKey(ws, id2, c2.clientKey)
    requires id in s.proposals ==> s.proposals[id].id == id
    ensures var t := Commit(s, id, Decide(env, w, s, ws, id, actor, c));
            Decide(env, w, t, ws, id2, actor, c2) == Decide(env, w, s, ws, id2, actor, c2)
  {
    var o := Decide(env, w, s, ws, id, actor, c);
    if o.Decided? { FindAppend(s.log, o.event, env.DecisionKey(ws, id2, c2.clientKey)); }
  }

  ghost predicate Identified(s: Store) { forall id :: id in s.proposals ==> s.proposals[id].id == id }

  // Every item of a batch gets the outcome a single decision would have had in
  // the starting state.
  lemma {:induction false} FoldIndependent(env: Env, w: World, s: Store, ws: Workspace, actor: User, items: seq<(Id, Command)>)
    requires DistinctItems(env, ws, items) && Identified(s)
    ensures var (outcomes, after) := Fold(env, w, s, ws, actor, items);
            && |outcomes| == |items|
            && forall i :: 0 <= i < |items| ==> outcomes[i] == Decide(env, w, s, ws, items[i].0, actor, items[i].1)
    decreases |items|
  {
    if items != [] {
      var o := Decide(env, w, s, ws, items[0].0, actor, items[0].1);
      var next := Commit(s, items[0].0, o);
      FoldIndependent(env, w, next, ws, actor, items[1..]);
      forall i | 1 <= i < |items|
        ensures Fold(env, w, s, ws, actor, items).0[i] == Decide(env, w, s, ws, items[i].0, actor, items[i].1)
      {
        OthersUnaffected(env, w, s, ws, actor, items[0].0, items[0].1, items[i].0, items[i].1);
        assert items[i] == items[1..][i - 1];
      }
    }
  }

  // The row a proposal ends up with after a batch, whatever the batch's order.
  function RowAfter(env: Env, w: World, s: Store, ws: Workspace, actor: User, id: Id, c: Command): Proposal
    requires id in s.proposals
  {
    var o := Decide(env, w, s, ws, id, actor, c);
    if o.Decided? then o.row else s.proposals[id]
  }

  lemma {:induction false} FoldRows(env: Env, w: World, s: Store, ws: Workspace, actor: User, items: seq<(Id, Command)>)
    requires DistinctItems(env, ws, items) && Identified(s)
    ensures var after := Fold(env, w, s, ws, actor, items).1;
            && after.proposals.Keys == s.proposals.Keys && after.claims == s.claims
            && (forall i :: 0 <= i < |items| && items[i].0 in s.proposals
                            ==> after.proposals[items[i].0] == RowAfter(env, w, s, ws, actor, items[i].0, items[i].1))
            && (forall id :: id in s.proposals && (forall i :: 0 <= i < |items| ==> items[i].0 != id)
                             ==> after.proposals[id] == s.proposals[id])
    decreases |items|
  {
    if items != [] {
      var o := Decide(env, w, s, ws, items[0].0, actor, items[0].1);
      var next := Commit(s, items[0].0, o);
      FoldRows(env, w, next, ws, actor, items[1..]);
      var after := Fold(env, w, s, ws, actor, items).1;
      forall i | 0 <= i < |items| && items[i].0 in s.proposals
        ensures after.proposals[items[i].0] == RowAfter(env, w, s, ws, actor, items[i].0, items[i].1)
      {
        if i > 0 {
          OthersUnaffected(env, w, s, ws, actor, items[0].0, items[0].1, items[i].0, items[i].1);
          assert items[i] == items[1..][i - 1];
        } else {
          forall j | 0 <= j < |items[1..]| ensures items[1..][j].0 != items[0].0 { assert items[1..][j] == items[j + 1]; }
        }
      }
      forall id | id in s.proposals && (forall i :: 0 <= i < |items| ==> items[i].0 != id)
        ensures after.proposals[id] == s.proposals[id]
      {
        assert items[0].0 != id;
        forall j | 0 <= j < |items[1..]| ensures items[1..][j].0 != id { assert items[1..][j] == items[j + 1]; }
      }
    }
  }

  // The same row up to the times a decision was taken at.
  predicate SameButTimes(p: Proposal, q: Proposal) {
    && p == q.(approvedAt := p.approvedAt, rejectedAt := p.rejectedAt, updatedAt := p.updatedAt)
    && p.approvedAt.Some? == q.approvedAt.Some? && p.rejectedAt.Some? == q.rejectedAt.Some?
  }

  // The clock decides nothing but those times.
  lemma ClockIrrelevant(env: Env, w: World, v: World, s: Store, ws: Workspace, actor: User, id: Id, c: Command)
    requires v == w.(now := v.now)
    ensures var o, q := Decide(env, w, s, ws, id, actor, c), Decide(env, v, s, ws, id, actor, c);
            && (o == Crashed <==> q == Crashed) && (o.Decided? <==> q.Decided?)
            && (id in s.proposals ==> SameButTimes(RowAfter(env, w, s, ws, actor, id, c), RowAfter(env, v, s, ws, actor, id, c)))
  {
  }

  // A batch has the same effect on every proposal, up to decision times, in any
  // order of its items and with any clock readings, and it is rolled back as a
  // whole in one order exactly if it is in the other.
  lemma BulkOrderIrrelevant(env: Env, w: World, v: World, s: Store, ws: Workspace, actor: User,
                            items: seq<(Id, Command)>, reordered: seq<(Id, Command)>)
    requires DistinctItems(env, ws, items) && DistinctItems(env, ws, reordered) && Identified(s)
    requires multiset(items) == multiset(reordered) && v == w.(now := v.now)
    ensures var a, b := Bulk(env, w, s, ws, actor, items).proposals, Bulk(env, v, s, ws, actor, reordered).proposals;
            && a.Keys == b.Keys && (forall id :: id in a ==> SameButTimes(a[id], b[id]))
            && (w == v ==> a == b)
    ensures Crashed in Fold(env, w, s, ws, actor, items).0 <==> Crashed in Fold(env, v, s, ws, actor, reordered).0
  {
    hide Fold, Decide, RowAfter, DistinctItems, SameButTimes;
    Ordering.SameMembers(items, reordered);
    CrashBySomeItem(env, w, s, ws, actor, items);
    CrashBySomeItem(env, v, s, ws, actor, reordered);
    forall item | item in items
      ensures Decide(env, w, s, ws, item.0, actor, item.1) == Crashed <==> Decide(env, v, s, ws, item.0, actor, item.1) == Crashed
    {
      ClockIrrelevant(env, w, v, s, ws, actor, item.0, item.1);
    }
    FoldRows(env, w, s, ws, actor, items);
    FoldRows(env, v, s, ws, actor, reordered);
    var a, b := Fold(env, w, s, ws, actor, items).1, Fold(env, v, s, ws, actor, reordered).1;
    forall id | id in s.proposals
      ensures SameButTimes(a.proposals[id], b.proposals[id]) && SameButTimes(s.proposals[id], s.proposals[id])
      ensures w == v ==> a.proposals[id] == b.proposals[id]
    {
      SameRow(s.proposals[id]);
      if item :| item in items && item.0 == id {
        assert item in reordered;
        var i :| 0 <= i < |items| && items[i] == item;
        var j :| 0 <= j < |reordered| && reordered[j] == item;
        ClockIrrelevant(env, w, v, s, ws, actor, id, item.1);
      } else {
        forall j | 0 <= j < |reordered| ensures reordered[j].0 != id { assert reordered[j] in items; }
        forall i | 0 <= i < |items| ensures items[i].0 != id { assert items[i] in items; }
      }
    }
  }

  lemma SameRow(p: Proposal)
    ensures SameButTimes(p, p)
  {
  }

  lemma CrashBySomeItem(env: Env, w: World, s: Store, ws: Workspace, actor: User, items: seq<(Id, Command)>)
    requires DistinctItems(env, ws, items) && Identified(s)
    ensures Crashed in Fold(env, w, s, ws, actor, items).0
            <==> exists item :: item in items && Decide(env, w, s, ws, item.0, actor, item.1) == Crashed
  {
    FoldIndependent(env, w, s, ws, actor, items);
    var outcomes := Fold(env, w, s, ws, actor, items).0;
    if Crashed in outcomes {
      var i :| 0 <= i < |outcomes| && outcomes[i] == Crashed;
      assert items[i] in items;
    }
    forall item | item in items && Decide(env, w, s, ws, item.0, actor, item.1) == Crashed ensures Crashed in outcomes {
      var i :| 0 <= i < |items| && items[i] == item;
      assert outcomes[i] == Crashed;
    }
  }

  datatype BulkResponse = Answered(successes: seq<Outcome>, failures: seq<(Id, Refusal)>) | RolledBack

  function Successes(outcomes: seq<Outcome>): seq<Outcome> {
    if outcomes == [] then []
    else Successes(outcomes[..|outcomes| - 1])
         + var o := outcomes[|outcomes| - 1]; if o.Decided? || o.Replayed? then [o] else []
  }

  function Failures(items: seq<(Id, Command)>, outcomes: seq<Outcome>): seq<(Id, Refusal)>
    requires |outcomes| <= |items|
  {
    if outcomes == [] then []
    else
      var n := |outcomes| - 1;
      Failures(items, outcomes[..n]) + if outcomes[n].Refused? then [(items[n].0, outcomes[n].why)] else []
  }

  // After i items with outcomes `done`, the session is where the fold is.
  ghost predicate FoldAt(env: Env, w: World, start: Store, ws: Workspace, actor: User, items: seq<(Id, Command)>,
                         i: nat, done: seq<Outcome>, now: Store)
    requires i <= |items|
  {
    var (all, after) := Fold(env, w, start, ws, actor, items);
    var (rest, last) := Fold(env, w, now, ws, actor, items[i..]);
    |done| == i && all == done + rest && after == last && Identified(now)
  }

  lemma FoldStep(env: Env, w: World, start: Store, ws: Workspace, actor: User, items: seq<(Id, Command)>,
                 i: nat, done: seq<Outcome>, now: Store)
    requires i < |items| && FoldAt(env, w, start, ws, actor, items, i, done, now)
    ensures var o := Decide(env, w, now, ws, items[i].0, actor, items[i].1);
            && FoldAt(env, w, start, ws, actor, items, i + 1, done + [o], Commit(now, items[i].0, o))
            && i < |Fold(env, w, start, ws, actor, items).0| && Fold(env, w, start, ws, actor, items).0[i] == o
  {
    hide Decide;
    var o := Decide(env, w, now, ws, items[i].0, actor, items[i].1);
    assert items[i..][0] == items[i] && items[i..][1..] == items[i + 1..];
    CommitIdentified(env, w, now, ws, actor, items[i].0, items[i].1);
    var rest := Fold(env, w, Commit(now, items[i].0, o), ws, actor, items[i + 1..]).0;
    assert done + ([o] + rest) == (done + [o]) + rest;
  }

  lemma CommitIdentified(env: Env, w: World, s: Store, ws: Workspace, actor: User, id: Id, c: Command)
    requires Identified(s)
    ensures Identified(Commit(s, id, Decide(env, w, s, ws, id, actor, c)))
  {
  }

  lemma FoldEnds(env: Env, w: World, start: Store, ws: Workspace, actor: User, items: seq<(Id, Command)>,
                 done: seq<Outcome>, now: Store)
    requires FoldAt(env, w, start, ws, actor, items, |items|, done, now)
    ensures Fold(env, w, start, ws, actor, items) == (done, now)
  {
    assert items[|items|..] == [];
    assert done + [] == done;
  }

  lemma TallyStep(items: seq<(Id, Command)>, done: seq<Outcome>, o: Outcome)
    requires |done| < |items|
    ensures Successes(done + [o]) == Successes(done) + if o.Decided? || o.Replayed? then [o] else []
    ensures Failures(items, done + [o]) == Failures(items, done) + if o.Refused? then [(items[|done|].0, o.why)] else []
  {
    assert (done + [o])[..|done|] == done;
  }

  // The loop of both bulk endpoints, without savepoints between items.
  method BulkDecide(session: Session, env: Env, w: World, ws: Workspace, actor: User, items: seq<(Id, Command)>)
    returns (r: BulkResponse)
    requires env.Valid() && Identified(session.Tables())
    modifies session
    ensures session.Tables() == Bulk(env, w, old(session.Tables()), ws, actor, items)
    ensures var outcomes := Fold(env, w, old(session.Tables()), ws, actor, items).0;
            && (r == RolledBack <==> Crashed in outcomes)
            && (r.Answered? ==> |outcomes| == |items| && r == Answered(Successes(outcomes), Failures(items, outcomes))
                                && |r.successes| + |r.failures| == |items|)
  {
    hide Decide, Commit, Fold, FoldAt, Successes, Failures;
    ghost var start := session.Tables();
    var savedProposals, savedLog := session.proposals, session.log;
    var successes: seq<Outcome>, failures: seq<(Id, Refusal)> := [], [];
    ghost var done: seq<Outcome> := [];
    FoldStarts(env, w, start, ws, actor, items);
    for i := 0 to |items|
      invariant FoldAt(env, w, start, ws, actor, items, i, done, session.Tables())
      invariant |done| == i && Identified(session.Tables())
      invariant Crashed !in done
      invariant successes == Successes(done) && failures == Failures(items, done)
      invariant |successes| + |failures| == i
    {
      var item := items[i];
      FoldStep(env, w, start, ws, actor, items, i, done, session.Tables());
      CommitIdentified(env, w, session.Tables(), ws, actor, item.0, item.1);
      var o := session.DecideActionProposal(env, w, ws, item.0, actor, item.1);
      if o == Crashed {
        session.proposals, session.log := savedProposals, savedLog;
        return RolledBack;
      }
      TallyStep(items, done, o);
      if o.Refused? {
        failures := failures + [(item.0, o.why)];
      } else {
        successes := successes + [o];
      }
      done := done + [o];
    }
    FoldEnds(env, w, start, ws, actor, items, done, session.Tables());
    return Answered(successes, failures);
  }

  lemma FoldStarts(env: Env, w: World, start: Store, ws: Workspace, actor: User, items: seq<(Id, Command)>)
    requires Identified(start)
    ensures FoldAt(env, w, start, ws, actor, items, 0, [], start)
    ensures Successes([]) == [] && Failures(items, []) == []
  {
    assert items[0..] == items;
    assert [] + Fold(env, w, start, ws, actor, items).0 == Fold(env, w, start, ws, actor, items).0;
  }
}
