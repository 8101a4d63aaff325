// The local decision protocol for action proposals
// (app/services/action_proposal_decision_service.py, with the event log of
// app/services/action_execution_audit_service.py).
module Decisions {
  import opened Options
  import opened Text

  type Id = nat
  type User = nat
  type Workspace = nat

  datatype Status = Proposed | Approved | Rejected | Executed | Failed
  datatype Author = ByUser | BySystem | ByAi

  // One row; `content` stands for the reviewed columns no decision changes.
  datatype Proposal = Proposal(
    id: Id, workspace: Workspace, author: Author, content: string, status: Status,
    approvedBy: Option<User>, approvedAt: Option<int>,
    rejectedBy: Option<User>, rejectedAt: Option<int>, rejectionReason: Option<string>, updatedAt: int)

  datatype Decision = Approve | Reject
  datatype Command = Command(
    decision: Decision, clientKey: string, version: string, snapshot: Option<string>, reason: Option<string>, bulk: bool)

  // The JSON objects the service digests.
  datatype Payload =
    | RequestPayload(decision: Decision, snapshot: Option<string>, version: string, reason: Option<string>)
    | DecisionKeyPayload(workspace: Workspace, proposal: Id, clientKey: string)
    | ExecutionKeyPayload(workspace: Workspace, proposal: Id, eventType: string, external: bool, confirmed: bool,
                          preview: Option<string>, reason: Option<string>)

  datatype EventType = ProposalApproved | ProposalRejected | ExecutionEvent(name: string)
  datatype Metadata = Metadata(decision: Decision, version: string, fingerprint: string, snapshot: Option<string>, bulk: bool)
  datatype Event = Event(
    workspace: Workspace, proposal: Id, kind: EventType, actor: User, key: string, metadata: Option<Metadata>)

  // `version` digests a whole row; `digest` is the 32-character stable digest.
  datatype Env = Env(version: Proposal -> string, digest: Payload -> string) {
    ghost predicate Valid() {
      && (forall p :: |version(p)| == 68)
      && (forall x :: IsDigest(digest(x)))
    }

    function DecisionKey(ws: Workspace, id: Id, clientKey: string): string {
      "action-local-decision:" + digest(DecisionKeyPayload(ws, id, clientKey))
    }

    function ExecutionKey(p: Payload): string
      requires p.ExecutionKeyPayload?
    {
      "action-execution-event:" + p.eventType + ":" + digest(p)
    }

    function Fingerprint(c: Command): string {
      digest(RequestPayload(c.decision, c.snapshot, c.version, OptionalText(c.reason)))
    }
  }

  predicate IsDigest(s: string) {
    |s| == 32 && forall i :: 0 <= i < |s| ==> '0' <= s[i] <= '9' || 'a' <= s[i] <= 'f'
  }

  function OptionalText(t: Option<string>): Option<string> {
    if t.Some? && Strip(t.value) != "" then Some(Strip(t.value)) else None
  }

  function Clip(s: string, limit: nat): string { if |s| <= limit then s else s[..limit] }

  // What the event table stores for a key: trimmed and cut to the column's length.
  function StoredKey(key: string): string { Clip(Strip(key), 500) }

  function Find(log: seq<Event>, key: string): (r: Option<Event>)
    ensures r.Some? ==> r.value in log && r.value.key == key
    ensures r.None? <==> forall e :: e in log ==> e.key != key
  {
    if log == [] then None else if log[0].key == key then Some(log[0]) else Find(log[1..], key)
  }

  // append_execution_event: an event with this key wins over the new one.
  function Append(log: seq<Event>, e: Event): (seq<Event>, Event) {
    var existing := Find(log, e.key);
    if existing.Some? then (log, existing.value)
    else
      var stored := e.(key := StoredKey(e.key));
      (log + [stored], stored)
  }

  lemma KeysSurviveStorage(env: Env, ws: Workspace, id: Id, clientKey: string)
    requires env.Valid()
    ensures StoredKey(env.DecisionKey(ws, id, clientKey)) == env.DecisionKey(ws, id, clientKey)
  {
    var d := env.digest(DecisionKeyPayload(ws, id, clientKey));
    var key := env.DecisionKey(ws, id, clientKey);
    assert IsDigest(d);
    assert key[0] == 'a' && key[|key| - 1] == d[31];
    StripTrimmed(key);
  }

  lemma ExecutionKeysSurviveStorage(env: Env, p: Payload)
    requires env.Valid() && p.ExecutionKeyPayload? && |p.eventType| <= 80
    ensures StoredKey(env.ExecutionKey(p)) == env.ExecutionKey(p)
  {
    var d, key := env.digest(p), env.ExecutionKey(p);
    assert IsDigest(d);
    assert key[0] == 'a' && key[|key| - 1] == d[31];
    StripTrimmed(key);
  }

  // The two builders never produce the same key.
  lemma KeyFamiliesDisjoint(env: Env, ws: Workspace, id: Id, clientKey: string, p: Payload)
    requires p.ExecutionKeyPayload?
    ensures env.DecisionKey(ws, id, clientKey) != env.ExecutionKey(p)
  {
    assert env.DecisionKey(ws, id, clientKey)[7] == 'l' && env.ExecutionKey(p)[7] == 'e';
  }

  // ---- One decision ----

  datatype Access = NoMembership | DisabledUser | NotAdmin | Admin
  datatype Headquarters = AccessChanged | Snapshot(id: string, missions: map<Id, string>)

  // What one transaction observes outside the two tables; `now` is the clock
  // when it decides a proposal.
  datatype World = World(access: Access, evidence: set<Id>, headquarters: Headquarters, now: Id -> int)

  datatype Refusal = NotFound | Forbidden | Conflict
  datatype Outcome =
    | Decided(row: Proposal, event: Event)
    | Replayed(row: Proposal, event: Event)
    | Refused(why: Refusal)
    | Crashed // an exception no endpoint catches: the transaction is rolled back

  predicate ReplayMatches(env: Env, row: Proposal, e: Event, c: Command) {
    && e.kind == (if c.decision == Approve then ProposalApproved else ProposalRejected)
    && e.workspace == row.workspace && e.proposal == row.id
    && e.metadata.Some?
    && e.metadata.value.fingerprint == env.Fingerprint(c)
    && e.metadata.value.decision == c.decision
    && row.status in (if c.decision == Approve then {Approved, Executed, Failed} else {Rejected})
    && e.metadata.value.version == c.version
  }

  // The memory ledger records only rows whose status is a review decision.
  predicate MemoryRecords(row: Proposal) {
    (row.status == Approved && row.approvedAt.Some?) || (row.status == Rejected && row.rejectedAt.Some?)
  }

  function Replay(env: Env, row: Proposal, e: Event, c: Command): Outcome {
    if !ReplayMatches(env, row, e, c) then Refused(Conflict)
    else if (if c.decision == Approve then row.approvedBy else row.rejectedBy) == None then Refused(Conflict)
    else if !MemoryRecords(row) then Crashed
    else Replayed(row, e)
  }

  function HeadquartersRefusal(env: Env, w: World, row: Proposal, c: Command): Option<Refusal> {
    if c.snapshot == None then None
    else match w.headquarters
      case AccessChanged => Some(NotFound)
      case Snapshot(id, missions) =>
        if id != c.snapshot.value then Some(Conflict)
        else if row.id !in missions then Some(Conflict)
        else if missions[row.id] != env.version(row) then Some(Conflict)
        else None
  }

  function DecidedRow(row: Proposal, actor: User, c: Command, now: int): Proposal {
    if c.decision == Approve then
      row.(status := Approved, approvedBy := Some(actor), approvedAt := Some(now), updatedAt := now)
    else
      row.(status := Rejected, rejectedBy := Some(actor), rejectedAt := Some(now),
           rejectionReason := OptionalText(c.reason), updatedAt := now)
  }

  function DecisionEvent(env: Env, row: Proposal, actor: User, c: Command): Event {
    Event(row.workspace, row.id, if c.decision == Approve then ProposalApproved else ProposalRejected, actor,
          env.DecisionKey(row.workspace, row.id, c.clientKey),
          Some(Metadata(c.decision, Clip(env.version(row), 500), Clip(env.Fingerprint(c), 500),
                        if c.snapshot.Some? then Some(Clip(c.snapshot.value, 500)) else None, c.bulk)))
  }

  // The outcome of a decision depends only on the row, on the event already
  // stored under its key, and on what the transaction observes outside.
  function DecideRow(env: Env, w: World, row: Option<Proposal>, existing: Option<Event>, actor: User, c: Command): Outcome {
    if w.access == NoMembership then Refused(NotFound)
    else if w.access == DisabledUser || w.access == NotAdmin then Refused(Forbidden)
    else if row == None then Refused(NotFound)
    else if existing.Some? then Replay(env, row.value, existing.value, c)
    else
      var p := row.value;
      if p.status != Proposed || env.version(p) != c.version then Refused(Conflict)
      else if c.decision == Approve && p.id !in w.evidence then Refused(Conflict)
      else if c.decision == Approve && p.author in {ByAi, BySystem} && c.snapshot == None then Refused(Conflict)
      else
        var refusal := HeadquartersRefusal(env, w, p, c);
        if refusal.Some? then Refused(refusal.value)
        else Decided(DecidedRow(p, actor, c, w.now(p.id)), DecisionEvent(env, p, actor, c))
  }

  // ---- Who may decide what ----

  // The command is about the proposal as it is now: at its version and, if it
  // names a snapshot, at the current one, which lists the proposal at that version.
  ghost predicate UpToDate(env: Env, w: World, row: Proposal, c: Command) {
    && c.version == env.version(row)
    && (c.snapshot.Some? ==>
          && w.headquarters.Snapshot? && w.headquarters.id == c.snapshot.value
          && row.id in w.headquarters.missions && w.headquarters.missions[row.id] == env.version(row))
  }

  // A decision is recorded if and only if an admin makes it, no event is stored
  // under its key, the proposal is still proposed and the command is about it as
  // it is now; an approval also needs valid evidence and, unless a user wrote
  // the proposal, a snapshot.
  lemma RecordedIff(env: Env, w: World, row: Option<Proposal>, existing: Option<Event>, actor: User, c: Command)
    ensures DecideRow(env, w, row, existing, actor, c).Decided?
            <==> && w.access == Admin && row.Some? && existing == None
                 && row.value.status == Proposed && UpToDate(env, w, row.value, c)
                 && (c.decision == Approve ==> row.value.id in w.evidence && (row.value.author == ByUser || c.snapshot.Some?))
  {
  }

  // Without the admin role there is only a refusal, which does not depend on the
  // proposal: "not found" for a stranger and "forbidden" for anyone else.
  lemma OnlyAdminsDecide(env: Env, w: World, row: Option<Proposal>, existing: Option<Event>, actor: User, c: Command)
    requires w.access != Admin
    ensures DecideRow(env, w, row, existing, actor, c) == Refused(if w.access == NoMembership then NotFound else Forbidden)
  {
  }

  // The event was written by this very request about this proposal.
  ghost predicate SameRequest(env: Env, row: Proposal, e: Event, c: Command) {
    && e.workspace == row.workspace && e.proposal == row.id
    && e.kind == (match c.decision case Approve => ProposalApproved case Reject => ProposalRejected)
    && e.metadata.Some? && e.metadata.value.decision == c.decision && e.metadata.value.version == c.version
    && e.metadata.value.fingerprint == env.digest(RequestPayload(c.decision, c.snapshot, c.version, OptionalText(c.reason)))
  }

  // With an event under its key an admin's command returns that event if it was
  // written by this request and the row still has the decided status, its actor
  // and its time; it raises if the row has the actor but moved on or lacks the
  // time; and it is a conflict otherwise.
  lemma ReplayIs(env: Env, w: World, row: Proposal, e: Event, actor: User, c: Command)
    requires w.access == Admin
    ensures var r := DecideRow(env, w, Some(row), Some(e), actor, c);
            var who := if c.decision == Approve then row.approvedBy else row.rejectedBy;
            var at := if c.decision == Approve then row.approvedAt else row.rejectedAt;
            var status := if c.decision == Approve then Approved else Rejected;
            && (r == Replayed(row, e) <==> SameRequest(env, row, e, c) && who.Some? && row.status == status && at.Some?)
            && (r == Crashed <==>
                  && SameRequest(env, row, e, c) && who.Some?
                  && ((c.decision == Approve && row.status in {Executed, Failed}) || (row.status == status && at == None)))
            && r in {Replayed(row, e), Crashed, Refused(Conflict)}
  {
    hide OptionalText;
  }

  // "Not found" is for a stranger, for a missing row, and for a command that
  // would be recorded if the access to its snapshot had not changed; "forbidden"
  // is for a member without the role; every other refusal is a conflict.
  lemma WhyRefused(env: Env, w: World, row: Option<Proposal>, existing: Option<Event>, actor: User, c: Command)
    ensures var r := DecideRow(env, w, row, existing, actor, c);
            && (r == Refused(Forbidden) <==> w.access in {DisabledUser, NotAdmin})
            && (r == Refused(NotFound) <==>
                  || w.access == NoMembership
                  || (w.access == Admin && row == None)
                  || (&& w.access == Admin && row.Some? && existing == None && c.snapshot.Some? && w.headquarters == AccessChanged
                      && RecordedWith(env, w, row.value, actor, c)))
  {
  }

  // Some view of the snapshots would let the command through.
  ghost predicate RecordedWith(env: Env, w: World, row: Proposal, actor: User, c: Command) {
    var current := Snapshot(if c.snapshot.Some? then c.snapshot.value else "", map[row.id := env.version(row)]);
    DecideRow(env, w.(headquarters := current), Some(row), None, actor, c).Decided?
  }

  // What a recorded decision leaves in the row: the reviewed columns as they
  // were, the status, the one actor, the time, and for a rejection the trimmed
  // reason; and what it leaves in the log.
  lemma RecordedAs(env: Env, w: World, row: Proposal, actor: User, c: Command)
    requires env.Valid() && DecideRow(env, w, Some(row), None, actor, c).Decided?
    ensures var p := DecideRow(env, w, Some(row), None, actor, c).row;
            && p.id == row.id && p.workspace == row.workspace && p.author == row.author && p.content == row.content
            && p.updatedAt == w.now(row.id)
            && (c.decision == Approve ==>
                  && p.status == Approved && p.approvedBy == Some(actor) && p.approvedAt == Some(w.now(row.id))
                  && p.rejectedBy == row.rejectedBy && p.rejectedAt == row.rejectedAt && p.rejectionReason == row.rejectionReason)
            && (c.decision == Reject ==>
                  && p.status == Rejected && p.rejectedBy == Some(actor) && p.rejectedAt == Some(w.now(row.id))
                  && p.approvedBy == row.approvedBy && p.approvedAt == row.approvedAt
                  && (p.rejectionReason.Some? <==> c.reason.Some? && !AllSpace(c.reason.value))
                  && (p.rejectionReason.Some? ==>
                        && Trimmed(p.rejectionReason.value)
                        && exists before, behind ::
                             c.reason.value == before + p.rejectionReason.value + behind && AllSpace(before) && AllSpace(behind)))
    ensures var e := DecideRow(env, w, Some(row), None, actor, c).event;
            && e.workspace == row.workspace && e.proposal == row.id && e.actor == actor
            && e.kind == (if c.decision == Approve then ProposalApproved else ProposalRejected)
            && e.metadata.Some? && e.metadata.value.decision == c.decision && e.metadata.value.version == c.version
            && e.metadata.value.bulk == c.bulk
            && (e.metadata.value.snapshot.Some? <==> c.snapshot.Some?)
            && (c.snapshot.Some? && |c.snapshot.value| <= 500 ==> e.metadata.value.snapshot == c.snapshot)
            && e.metadata.value.fingerprint == env.digest(RequestPayload(c.decision, c.snapshot, c.version, OptionalText(c.reason)))
            && e.key == "action-local-decision:" + env.digest(DecisionKeyPayload(row.workspace, row.id, c.clientKey))
  {
    assert IsDigest(env.Fingerprint(c));
    if c.reason.Some? {
      var text := c.reason.value;
      var before, behind := StripParts(text);
      StripTrims(text);
      if Strip(text) == "" {
        assert text == before + behind;
      } else {
        assert text[|before|] == Strip(text)[0];
      }
    }
  }

  // Of two commands, the keys agree exactly if workspace, proposal and client
  // key do, unless the digests collide.
  lemma KeysAgree(env: Env, ws: Workspace, id: Id, k: string, ws2: Workspace, id2: Id, k2: string)
    requires env.digest(DecisionKeyPayload(ws, id, k)) == env.digest(DecisionKeyPayload(ws2, id2, k2))
             ==> DecisionKeyPayload(ws, id, k) == DecisionKeyPayload(ws2, id2, k2)
    ensures env.DecisionKey(ws, id, k) == env.DecisionKey(ws2, id2, k2) <==> ws == ws2 && id == id2 && k == k2
  {
    var a, b := env.DecisionKey(ws, id, k), env.DecisionKey(ws2, id2, k2);
    var prefix := "action-local-decision:";
    if a == b {
      assert a[|prefix|..] == env.digest(DecisionKeyPayload(ws, id, k));
      assert b[|prefix|..] == env.digest(DecisionKeyPayload(ws2, id2, k2));
    }
  }

  // Likewise two execution keys agree exactly if all that they digest does.
  lemma ExecutionKeysAgree(env: Env, p: Payload, q: Payload)
    requires env.Valid() && p.ExecutionKeyPayload? && q.ExecutionKeyPayload? && (env.digest(p) == env.digest(q) ==> p == q)
    ensures env.ExecutionKey(p) == env.ExecutionKey(q) <==> p == q
  {
    var a, b := env.ExecutionKey(p), env.ExecutionKey(q);
    assert IsDigest(env.digest(p)) && IsDigest(env.digest(q));
    if a == b { assert env.digest(p) == a[|a| - 32..] == b[|b| - 32..] == env.digest(q); }
  }

  // Storing a key takes white space off its ends and everything after 500 characters.
  lemma StoredKeyIs(key: string) returns (before: string, behind: string, cut: string)
    ensures key == before + (StoredKey(key) + cut) + behind && AllSpace(before) && AllSpace(behind)
    ensures |StoredKey(key)| <= 500 && (cut != "" ==> |StoredKey(key)| == 500) && Trimmed(StoredKey(key) + cut)
  {
    before, behind := StripParts(key);
    StripTrims(key);
    cut := if |Strip(key)| <= 500 then "" else Strip(key)[500..];
    assert StoredKey(key) + cut == Strip(key);
  }

  // The two tables, and the proposals that have an execution claim.
  datatype Store = Store(proposals: map<Id, Proposal>, log: seq<Event>, claims: set<Id>) {
    function Row(ws: Workspace, id: Id): Option<Proposal> {
      if id in proposals && proposals[id].workspace == ws then Some(proposals[id]) else None
    }
  }

  function Decide(env: Env, w: World, s: Store, ws: Workspace, id: Id, actor: User, c: Command): Outcome {
    DecideRow(env, w, s.Row(ws, id), Find(s.log, env.DecisionKey(ws, id, c.clientKey)), actor, c)
  }

  function Commit(s: Store, id: Id, o: Outcome): Store {
    if o.Decided? then s.(proposals := s.proposals[id := o.row], log := s.log + [o.event]) else s
  }

  // A refusal, a replay and an uncaught error leave both tables as they were;
  // in particular every call without the admin role does.
  lemma OnlyDecisionsWrite(env: Env, w: World, s: Store, ws: Workspace, id: Id, actor: User, c: Command)
    ensures var o := Decide(env, w, s, ws, id, actor, c);
            && (Commit(s, id, o) != s ==> o.Decided?)
            && (w.access != Admin ==> o.Refused? && Commit(s, id, o) == s)
            && (o.Decided? ==>
                  && id in s.proposals && s.proposals[id].workspace == ws
                  && Commit(s, id, o) == Store(s.proposals[id := o.row], s.log + [o.event], s.claims))
  {
    hide Find, Replay;
  }

  // The session of one request: it reads and writes the two tables.
  class Session {
    var proposals: map<Id, Proposal>
    var log: seq<Event>
    const claims: set<Id>

    constructor (s: Store)
      ensures proposals == s.proposals && log == s.log && claims == s.claims
    {
      proposals, log, claims := s.proposals, s.log, s.claims;
    }

    ghost function Tables(): Store reads this { Store(proposals, log, claims) }

    method AppendExecutionEvent(e: Event) returns (stored: Event)
      modifies this`log
      ensures (log, stored) == Append(old(log), e)
    {
      var existing := Find(log, e.key);
      if existing.Some? {
        return existing.value;
      }
      stored := e.(key := StoredKey(e.key));
      log := log + [stored];
    }

    // Every refusal and every uncaught error is raised before the first write.
    method DecideActionProposal(env: Env, w: World, ws: Workspace, id: Id, actor: User, c: Command) returns (o: Outcome)
      requires env.Valid() && (id in proposals ==> proposals[id].id == id)
      modifies this
      ensures o == Decide(env, w, old(Tables()), ws, id, actor, c)
      ensures Tables() == Commit(old(Tables()), id, o)
    {
      if w.access == NoMembership {
        return Refused(NotFound);
      }
      if w.access != Admin {
        return Refused(Forbidden);
      }
      if id !in proposals || proposals[id].workspace != ws {
        return Refused(NotFound);
      }
      var proposal := proposals[id];
      var key := env.DecisionKey(ws, id, c.clientKey);
      var existing := Find(log, key);
      if existing.Some? {
        if !ReplayMatches(env, proposal, existing.value, c) {
          return Refused(Conflict);
        }
        var decisionActor := if c.decision == Approve then proposal.approvedBy else proposal.rejectedBy;
        if decisionActor == None {
          return Refused(Conflict);
        }
        if !MemoryRecords(proposal) {
          return Crashed;
        }
        return Replayed(proposal, existing.value);
      }
      if proposal.status != Proposed {
        return Refused(Conflict);
      }
      var currentVersion := env.version(proposal);
      if currentVersion != c.version {
        return Refused(Conflict);
      }
      if c.decision == Approve {
        if id !in w.evidence {
          return Refused(Conflict);
        }
        if proposal.author in {ByAi, BySystem} && c.snapshot == None {
          return Refused(Conflict);
        }
      }
      var refusal := HeadquartersRefusal(env, w, proposal, c);
      if refusal.Some? {
        return Refused(refusal.value);
      }
      var kind: EventType;
      if c.decision == Approve {
        proposal := proposal.(status := Approved, approvedBy := Some(actor), approvedAt := Some(w.now(id)));
        kind := ProposalApproved;
      } else {
        proposal := proposal.(status := Rejected, rejectedBy := Some(actor), rejectedAt := Some(w.now(id)),
                              rejectionReason := OptionalText(c.reason));
        kind := ProposalRejected;
      }
      proposal := proposal.(updatedAt := w.now(id));
      proposals := proposals[id := proposal];
      KeysSurviveStorage(env, ws, id, c.clientKey);
      var event := AppendExecutionEvent(
        Event(ws, id, kind, actor, key,
              Some(Metadata(c.decision, Clip(currentVersion, 500), Clip(env.Fingerprint(c), 500),
                            if c.snapshot.Some? then Some(Clip(c.snapshot.value, 500)) else None, c.bulk))));
      return Decided(proposal, event);
    }
  }
}
