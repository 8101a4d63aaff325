// Workspace AI settings: saves, removals and connection checks that may
// interleave (app/services/ai_settings_service.py).
module AiSettings {
  import opened Options
  import opened Text

  const SUPPORTED_MODELS := {"gpt-5.6", "gpt-5.6-sol", "gpt-5.6-terra", "gpt-5.6-luna"}
  const EFFORTS := {"low", "medium", "high"}

  // An encrypted credential: encrypting the same text twice gives different ciphertexts.
  datatype Secret = Sealed(plain: string, salt: nat)

  datatype Status = Passed | FailedCheck
  datatype Check = Check(at: int, status: Status, code: string, model: string)

  datatype Config = Config(
    enabled: bool, model: string, effort: string, budget: int, version: nat, key: Option<Secret>,
    policy: Option<string>, acknowledgedAt: Option<int>, acknowledgedBy: Option<nat>, lastCheck: Option<Check>)

  datatype Input = Input(enabled: bool, acknowledged: bool, model: string, effort: string, budget: int, apiKey: Option<string>)

  datatype SaveResult = Saved(config: Config) | SettingsError

  function LowerChar(c: char): char { if 'A' <= c <= 'Z' then (c as int + 32) as char else c }

  function Lower(s: string): string { seq(|s|, i requires 0 <= i < |s| => LowerChar(s[i])) }

  function Model(value: string): Option<string> {
    if Strip(value) in SUPPORTED_MODELS then Some(Strip(value)) else None
  }

  function Effort(value: string): Option<string> {
    if Lower(Strip(value)) in EFFORTS then Some(Lower(Strip(value))) else None
  }

  predicate BudgetOk(value: int) { 400 <= value <= 4000 }

  // The fields a check vouches for.
  function Fingerprint(c: Config): (Option<Secret>, string, string, int, Option<string>) {
    (c.key, c.model, c.effort, c.budget, c.policy)
  }

  function AfterSave(c: Option<Config>, i: Input, policy: string, now: int, user: nat, salt: nat): SaveResult {
    var model, effort := Model(i.model), Effort(i.effort);
    if model == None || effort == None || !BudgetOk(i.budget) then SettingsError
    else
      var apiKey := if i.apiKey.Some? then Strip(i.apiKey.value) else "";
      var key := if apiKey != "" then Some(Sealed(apiKey, salt)) else if c.Some? then c.value.key else None;
      if i.enabled && key == None then SettingsError
      else if i.enabled && !i.acknowledged then SettingsError
      else
        var prior := if c.Some? then Fingerprint(c.value) else (None, model.value, effort.value, i.budget, None);
        var policy' := if i.acknowledged then Some(policy) else None;
        var newly := c == None || c.value.policy != Some(policy) || c.value.acknowledgedAt == None;
        var next := Config(
          i.enabled, model.value, effort.value, i.budget, if c.Some? then c.value.version + 1 else 1, key, policy',
          if !i.acknowledged then None else if newly then Some(now) else c.value.acknowledgedAt,
          if !i.acknowledged then None else if newly then Some(user) else c.value.acknowledgedBy,
          if c.Some? then c.value.lastCheck else None);
        Saved(if prior != Fingerprint(next) then next.(lastCheck := None) else next)
  }

  function AfterRemove(c: Option<Config>): Option<Config> {
    if c == None then None
    else Some(c.value.(key := None, enabled := false, policy := None, acknowledgedAt := None, acknowledgedBy := None,
                       version := c.value.version + 1, lastCheck := None))
  }

  // What the provider is called with during a check: the output budget is
  // clamped for the probe.
  function ProbeTokens(budget: int): int {
    var capped := if budget < 600 then budget else 600;
    if capped < 400 then 400 else capped
  }

  datatype ProbeResult = Answered | ResponseRejected | Unavailable

  // A check between its read and its write: what it read, and what the provider said.
  datatype Flight = Flight(version: nat, key: string, model: string, effort: string, budget: int, policy: string,
                           result: Option<ProbeResult>)

  // The read transaction of a check.
  function BeginCheck(c: Option<Config>, policy: string, readable: bool): Option<Flight> {
    if c == None || c.value.key == None then None
    else if c.value.policy != Some(policy) || c.value.acknowledgedAt == None then None
    else if !readable then None
    else
      var model, effort := Model(c.value.model), Effort(c.value.effort);
      if model == None || effort == None || !BudgetOk(c.value.budget) then None
      else Some(Flight(c.value.version, c.value.key.value.plain, model.value, effort.value, c.value.budget, policy, None))
  }

  function Receipt(f: Flight, now: int): Check
    requires f.result.Some?
  {
    match f.result.value
    case Answered => Check(now, Passed, "connection_verified", f.model)
    case ResponseRejected => Check(now, FailedCheck, "response_rejected", f.model)
    case Unavailable => Check(now, FailedCheck, "provider_unavailable", f.model)
  }

  // The write transaction: nothing is written if the version has moved on.
  function FinishCheck(c: Option<Config>, f: Flight, now: int): Option<Config>
    requires f.result.Some?
  {
    if c == None || c.value.version != f.version then c
    else Some(c.value.(lastCheck := Some(Receipt(f, now))))
  }

  datatype Resolution = SwitchedOff | Runtime(key: string, model: string, effort: string, budget: int) | Warning(code: string) | Failure

  // `llm` is the server's own switch.
  function Resolve(c: Option<Config>, policy: string, llm: bool, readable: bool): Resolution {
    if !llm then SwitchedOff
    else if c == None then Warning("ai_not_configured")
    else if !c.value.enabled then Warning("ai_disabled_in_settings")
    else if c.value.policy != Some(policy) || c.value.acknowledgedAt == None then Warning("ai_data_policy_not_acknowledged")
    else if c.value.key == None then Warning("ai_not_configured")
    else if c.value.lastCheck == None || c.value.lastCheck.value.status != Passed then Warning("ai_not_verified")
    else if !readable then Warning("ai_credential_unavailable")
    else
      var model, effort := Model(c.value.model), Effort(c.value.effort);
      if model == None || effort == None || !BudgetOk(c.value.budget) then Failure
      else Runtime(c.value.key.value.plain, model.value, effort.value, c.value.budget)
  }

  // A runtime configuration is handed out if and only if the assistant is
  // switched on by the server and enabled in a row with the current policy
  // acknowledged, a readable key and a passed check.
  lemma RuntimeIff(c: Option<Config>, policy: string, llm: bool, readable: bool)
    ensures Resolve(c, policy, llm, readable).Runtime?
            <==> && llm && readable && c.Some? && c.value.enabled
                 && c.value.policy == Some(policy) && c.value.acknowledgedAt.Some? && c.value.key.Some?
                 && c.value.lastCheck.Some? && c.value.lastCheck.value.status == Passed
                 && Model(c.value.model).Some? && Effort(c.value.effort).Some? && 400 <= c.value.budget <= 4000
  {
    hide Model, Effort;
  }

  // The first of the conditions that is not met names the warning.
  lemma WarningIs(c: Option<Config>, policy: string, llm: bool, readable: bool)
    ensures var r := Resolve(c, policy, llm, readable);
            && (r == SwitchedOff <==> !llm)
            && (r == Warning("ai_not_configured") <==>
                  llm && (c == None || (c.value.enabled && Acknowledged(c.value, policy) && c.value.key == None)))
            && (r == Warning("ai_disabled_in_settings") <==> llm && c.Some? && !c.value.enabled)
            && (r == Warning("ai_data_policy_not_acknowledged") <==>
                  llm && c.Some? && c.value.enabled && !Acknowledged(c.value, policy))
            && (r == Warning("ai_not_verified") <==>
                  && llm && c.Some? && c.value.enabled && Acknowledged(c.value, policy) && c.value.key.Some?
                  && !(c.value.lastCheck.Some? && c.value.lastCheck.value.status == Passed))
            && (r == Warning("ai_credential_unavailable") <==>
                  && llm && c.Some? && c.value.enabled && Acknowledged(c.value, policy) && c.value.key.Some? && !readable
                  && c.value.lastCheck.Some? && c.value.lastCheck.value.status == Passed)
  {
    hide Model, Effort;
  }

  predicate Acknowledged(c: Config, policy: string) { c.policy == Some(policy) && c.acknowledgedAt.Some? }

  // What is stored for a model and an effort: one of the supported names, after
  // white space and, for an effort, capitals are taken away.
  lemma NamesAre(value: string, name: string)
    ensures Model(value) == Some(name) <==> Strip(value) == name && name in {"gpt-5.6", "gpt-5.6-sol", "gpt-5.6-terra", "gpt-5.6-luna"}
    ensures Effort(value) == Some(name) <==> Lower(Strip(value)) == name && name in {"low", "medium", "high"}
    ensures Lower("ABCDEFGHIJKLM") == "abcdefghijklm" && Lower("NOPQRSTUVWXYZ") == "nopqrstuvwxyz" && Lower("@[az") == "@[az"
  {
    hide Strip;
    assert Lower("@[az") == "@[az";
    assert Lower("ABCDEFGHIJKLM") == "abcdefghijklm";
    assert Lower("NOPQRSTUVWXYZ") == "nopqrstuvwxyz";
  }

  // A check starts exactly for a row with a readable key, the current policy
  // acknowledged and supported fields, and takes just these with it.
  lemma CheckBegins(c: Option<Config>, policy: string, readable: bool)
    ensures BeginCheck(c, policy, readable).Some?
            <==> && readable && c.Some? && c.value.key.Some? && c.value.policy == Some(policy) && c.value.acknowledgedAt.Some?
                 && Model(c.value.model).Some? && Effort(c.value.effort).Some? && 400 <= c.value.budget <= 4000
    ensures BeginCheck(c, policy, readable).Some? ==>
              var f := BeginCheck(c, policy, readable).value;
              && f.version == c.value.version && f.key == c.value.key.value.plain && f.policy == policy && f.result == None
              && Some(f.model) == Model(c.value.model) && Some(f.effort) == Effort(c.value.effort) && f.budget == c.value.budget
  {
    hide Model, Effort;
  }

  // It ends by writing its result, passed exactly if the provider answered, to
  // a row that is still at the version it read, and by writing nothing otherwise.
  lemma CheckEnds(c: Option<Config>, f: Flight, now: int)
    requires f.result.Some?
    ensures FinishCheck(c, f, now) != c ==> c.Some? && c.value.version == f.version
    ensures c.Some? && c.value.version == f.version ==>
              var status := if f.result.value == Answered then Passed else FailedCheck;
              var code := match f.result.value
                          case Answered => "connection_verified"
                          case ResponseRejected => "response_rejected"
                          case Unavailable => "provider_unavailable";
              FinishCheck(c, f, now) == Some(c.value.(lastCheck := Some(Check(now, status, code, f.model))))
  {
  }

  // The input comes with a key that is not blank.
  ghost predicate Gives(i: Input) { i.apiKey.Some? && !AllSpace(i.apiKey.value) }

  // The text is the key that was typed, without white space around it.
  ghost predicate Typed(i: Input, key: string) {
    && i.apiKey.Some? && key != "" && Trimmed(key)
    && exists before, behind :: i.apiKey.value == before + key + behind && AllSpace(before) && AllSpace(behind)
  }

  lemma GivenKey(i: Input)
    ensures Gives(i) <==> i.apiKey.Some? && Strip(i.apiKey.value) != ""
    ensures Gives(i) ==> Typed(i, Strip(i.apiKey.value))
  {
    if i.apiKey.Some? {
      var text := i.apiKey.value;
      var before, behind := StripParts(text);
      StripTrims(text);
      if Strip(text) == "" {
        assert text == before + behind;
      } else {
        assert text[|before|] == Strip(text)[0];
      }
    }
  }

  // A save is accepted if and only if model, effort and budget are supported
  // and, to enable the assistant, the policy is acknowledged and a key is given
  // or stored; then the row holds the input, the given key or else the stored one.
  lemma SaveIs(c: Option<Config>, i: Input, policy: string, now: int, user: nat, salt: nat)
    ensures var r := AfterSave(c, i, policy, now, user, salt);
            && (r.Saved? <==> && Model(i.model).Some? && Effort(i.effort).Some? && 400 <= i.budget <= 4000
                              && (i.enabled ==> i.acknowledged && (Gives(i) || (c.Some? && c.value.key.Some?))))
            && (r.Saved? ==>
                  && r.config.enabled == i.enabled && Some(r.config.model) == Model(i.model)
                  && Some(r.config.effort) == Effort(i.effort) && r.config.budget == i.budget
                  && r.config.policy == (if i.acknowledged then Some(policy) else None)
                  && (r.config.acknowledgedAt.Some? <==> i.acknowledged)
                  && (Gives(i) ==> r.config.key.Some? && Typed(i, r.config.key.value.plain))
                  && (!Gives(i) ==> r.config.key == if c.Some? then c.value.key else None))
  {
    GivenKey(i);
    hide Model, Effort, Strip, Gives, Typed;
  }

  // The stored row; each method is one transaction, rolled back on an error.
  class WorkspaceAi {
    var configuration: Option<Config>

    constructor ()
      ensures configuration == None
    {
      configuration := None;
    }

    method Save(i: Input, policy: string, now: int, user: nat, salt: nat) returns (ok: bool)
      modifies this
      ensures ok <==> AfterSave(old(configuration), i, policy, now, user, salt).Saved?
      ensures configuration == if ok then Some(AfterSave(old(configuration), i, policy, now, user, salt).config)
                               else old(configuration)
    {
      var model, effort := Model(i.model), Effort(i.effort);
      if model == None || effort == None || !BudgetOk(i.budget) {
        return false;
      }
      var apiKey := if i.apiKey.Some? then Strip(i.apiKey.value) else "";
      var isNew := configuration == None;
      var row := if isNew then Config(false, model.value, effort.value, i.budget, 0, None, None, None, None, None)
                 else configuration.value;
      var prior := Fingerprint(row);
      if apiKey != "" {
        row := row.(key := Some(Sealed(apiKey, salt)));
      }
      if i.enabled && row.key == None {
        return false;
      }
      if i.enabled && !i.acknowledged {
        return false;
      }
      row := row.(enabled := i.enabled, model := model.value, effort := effort.value, budget := i.budget);
      row := row.(version := if isNew then 1 else row.version + 1);
      if i.acknowledged {
        if row.policy != Some(policy) || row.acknowledgedAt == None {
          row := row.(acknowledgedAt := Some(now), acknowledgedBy := Some(user));
        }
        row := row.(policy := Some(policy));
      } else {
        row := row.(policy := None, acknowledgedAt := None, acknowledgedBy := None, enabled := false);
      }
      if prior != Fingerprint(row) {
        row := row.(lastCheck := None);
      }
      configuration := Some(row);
      return true;
    }

    method RemoveCredential()
      modifies this
      ensures configuration == AfterRemove(old(configuration))
    {
      if configuration.Some? {
        var row := configuration.value.(key := None, enabled := false);
        row := row.(policy := None, acknowledgedAt := None, acknowledgedBy := None);
        row := row.(version := row.version + 1);
        configuration := Some(row.(lastCheck := None));
      }
    }

    method WriteCheck(f: Flight, now: int) returns (written: bool)
      requires f.result.Some?
      modifies this
      ensures configuration == FinishCheck(old(configuration), f, now)
      ensures written <==> old(configuration).Some? && old(configuration).value.version == f.version
    {
      if configuration == None || configuration.value.version != f.version {
        return false;
      }
      configuration := Some(configuration.value.(lastCheck := Some(Receipt(f, now))));
      return true;
    }
  }

  // ---- Interleavings ----

  // A provider call that answered: the arguments, and the configuration it was made for.
  datatype Probe = Probe(key: string, model: string, effort: string, tokens: int, budget: int, policy: string)

  // The row, the checks in flight, every probe that succeeded so far, and the
  // data-policy version of the running server.
  datatype System = System(config: Option<Config>, flights: map<nat, Flight>, answered: set<Probe>, policy: string)

  datatype Step =
    | SaveStep(i: Input, now: int, user: nat, salt: nat)
    | RemoveStep
    | BeginStep(id: nat, readable: bool)
    | ProbeStep(id: nat, result: ProbeResult)
    | FinishStep(id: nat, now: int)
    | AbandonStep(id: nat)
    | DeployStep(policy: string)

  function ProbeOf(f: Flight): Probe { Probe(f.key, f.model, f.effort, ProbeTokens(f.budget), f.budget, f.policy) }

  function Apply(s: System, step: Step): System {
    match step
    case SaveStep(i, now, user, salt) =>
      var r := AfterSave(s.config, i, s.policy, now, user, salt);
      if r.Saved? then s.(config := Some(r.config)) else s
    case RemoveStep => s.(config := AfterRemove(s.config))
    case BeginStep(id, readable) =>
      var f := BeginCheck(s.config, s.policy, readable);
      if f.Some? && id !in s.flights then s.(flights := s.flights[id := f.value]) else s
    case ProbeStep(id, result) =>
      if id !in s.flights || s.flights[id].result.Some? then s
      else s.(flights := s.flights[id := s.flights[id].(result := Some(result))],
              answered := s.answered + if result == Answered then {ProbeOf(s.flights[id])} else {})
    case FinishStep(id, now) =>
      if id !in s.flights || s.flights[id].result == None then s
      else s.(config := FinishCheck(s.config, s.flights[id], now), flights := s.flights - {id})
    case AbandonStep(id) => s.(flights := s.flights - {id})
    case DeployStep(policy) => s.(policy := policy)
  }

  function Run(s: System, steps: seq<Step>): System
    decreases |steps|
  {
    if steps == [] then s else Run(Apply(s, steps[0]), steps[1..])
  }

  function Start(policy: string): System { System(None, map[], {}, policy) }

  predicate Normal(c: Config) { Model(c.model) == Some(c.model) && Effort(c.effort) == Some(c.effort) && BudgetOk(c.budget) }

  // f was read from c as it is now.
  predicate ReadFrom(f: Flight, c: Config) {
    c.key.Some? && f.key == c.key.value.plain && f.model == c.model && f.effort == c.effort && f.budget == c.budget
    && c.policy == Some(f.policy)
  }

  // A passed check is backed by a successful probe of exactly these fields.
  predicate Backed(s: System, c: Config) {
    c.lastCheck.Some? && c.lastCheck.value.status == Passed ==>
      && c.key.Some? && c.policy.Some?
      && Probe(c.key.value.plain, c.model, c.effort, ProbeTokens(c.budget), c.budget, c.policy.value) in s.answered
  }

  ghost predicate FlightsOk(s: System) {
    forall id :: id in s.flights ==>
      var f := s.flights[id];
      && s.config.Some? && f.version <= s.config.value.version
      && (f.version == s.config.value.version ==> ReadFrom(f, s.config.value))
      && (f.result == Some(Answered) ==> ProbeOf(f) in s.answered)
  }

  ghost predicate Inv(s: System) {
    && FlightsOk(s) && (s.config.Some? ==> Normal(s.config.value) && Backed(s, s.config.value))
    && forall p :: p in s.answered ==> p.tokens == ProbeTokens(p.budget)
  }

  lemma {:induction false} LowerTwice(s: string)
    ensures Lower(Lower(s)) == Lower(s)
  {
  }

  lemma NormalInputs(i: Input)
    ensures Model(i.model).Some? ==> Model(Model(i.model).value) == Model(i.model)
    ensures Effort(i.effort).Some? ==> Effort(Effort(i.effort).value) == Effort(i.effort)
  {
    StripTrims(i.model);
    StripTrimmed(Strip(i.model));
    var e := Lower(Strip(i.effort));
    if e in EFFORTS {
      StripTrimmed(e);
      LowerTwice(Strip(i.effort));
    }
  }

  // Every committed save is a new version, and one that changes a field a
  // check vouches for leaves no check behind.
  lemma SaveBumpsVersion(c: Option<Config>, i: Input, policy: string, now: int, user: nat, salt: nat)
    requires AfterSave(c, i, policy, now, user, salt).Saved?
    ensures var next := AfterSave(c, i, policy, now, user, salt).config;
            && Normal(next)
            && next.version == (if c.Some? then c.value.version + 1 else 1)
            && (next.lastCheck.Some? ==> c.Some? && Fingerprint(next) == Fingerprint(c.value) && next.lastCheck == c.value.lastCheck)
            && (next.enabled ==> next.key.Some? && next.policy == Some(policy) && next.acknowledgedAt.Some?)
  {
    NormalInputs(i);
  }

  lemma StepKeepsInv(s: System, step: Step)
    requires Inv(s)
    ensures Inv(Apply(s, step))
  {
    hide AfterSave, Model, Effort, Normal;
    match step
    case SaveStep(i, now, user, salt) =>
      if AfterSave(s.config, i, s.policy, now, user, salt).Saved? {
        SaveBumpsVersion(s.config, i, s.policy, now, user, salt);
      }
    case RemoveStep => NormalRemoved(s.config);
    case BeginStep(id, readable) => BeginReads(s, readable);
    case ProbeStep(id, result) =>
    case FinishStep(id, now) =>
      if id in s.flights && s.flights[id].result.Some? { FinishNormal(s, id, now); }
    case AbandonStep(id) =>
    case DeployStep(policy) =>
  }

  lemma NormalRemoved(c: Option<Config>)
    ensures c.Some? && Normal(c.value) ==> AfterRemove(c).Some? && Normal(AfterRemove(c).value)
  {
  }

  lemma BeginReads(s: System, readable: bool)
    requires s.config.Some? ==> Normal(s.config.value)
    ensures var f := BeginCheck(s.config, s.policy, readable);
            f.Some? ==> s.config.Some? && f.value.version == s.config.value.version && ReadFrom(f.value, s.config.value)
                        && f.value.result == None
  {
  }

  lemma FinishNormal(s: System, id: nat, now: int)
    requires id in s.flights && s.flights[id].result.Some? && s.config.Some? && Normal(s.config.value)
    ensures FinishCheck(s.config, s.flights[id], now).Some? && Normal(FinishCheck(s.config, s.flights[id], now).value)
  {
  }

  lemma {:induction false} RunKeepsInv(s: System, steps: seq<Step>)
    requires Inv(s)
    ensures Inv(Run(s, steps))
    decreases |steps|
  {
    if steps != [] {
      StepKeepsInv(s, steps[0]);
      RunKeepsInv(Apply(s, steps[0]), steps[1..]);
    }
  }

  // An answered probe for this key, model, effort and policy version that was
  // given this many output tokens.
  predicate Probed(answered: set<Probe>, r: Resolution, policy: string, tokens: int)
    requires r.Runtime?
  {
    exists p :: p in answered && p.key == r.key && p.model == r.model && p.effort == r.effort && p.policy == policy
                && p.tokens == tokens
  }

  // Over every interleaving of saves, removals, deployments and checks: a
  // runtime configuration handed out was probed successfully with its key,
  // model, effort, budget setting and the server's data-policy version. It was
  // probed with that many output tokens if and only if the budget is at most 600.
  lemma RuntimeWasProbed(policy: string, steps: seq<Step>, llm: bool, readable: bool)
    ensures var s := Run(Start(policy), steps);
            var r := Resolve(s.config, s.policy, llm, readable);
            r.Runtime? ==>
              && Probe(r.key, r.model, r.effort, ProbeTokens(r.budget), r.budget, s.policy) in s.answered
              && (Probed(s.answered, r, s.policy, r.budget) <==> r.budget <= 600)
  {
    assert Inv(Start(policy));
    RunKeepsInv(Start(policy), steps);
    hide Run, Inv, Resolve, Probed;
    ResolvedWasProbed(Run(Start(policy), steps), llm, readable);
  }

  lemma ResolvedWasProbed(s: System, llm: bool, readable: bool)
    requires Inv(s)
    ensures var r := Resolve(s.config, s.policy, llm, readable);
            r.Runtime? ==>
              && Probe(r.key, r.model, r.effort, ProbeTokens(r.budget), r.budget, s.policy) in s.answered
              && (Probed(s.answered, r, s.policy, r.budget) <==> r.budget <= 600)
  {
    hide Resolve, FlightsOk;
    RuntimeIs(s.config, s.policy, llm, readable);
    var r := Resolve(s.config, s.policy, llm, readable);
    if r.Runtime? {
      hide Model, Effort;
      var p := Probe(r.key, r.model, r.effort, ProbeTokens(r.budget), r.budget, s.policy);
      assert p in s.answered;
      assert r.budget <= 600 ==> p.tokens == r.budget;
    }
  }

  // What a runtime configuration says about the row it came from.
  lemma RuntimeIs(c: Option<Config>, policy: string, llm: bool, readable: bool)
    requires c.Some? ==> Normal(c.value)
    ensures var r := Resolve(c, policy, llm, readable);
            r.Runtime? ==>
              && c.Some? && c.value.key.Some? && r == Runtime(c.value.key.value.plain, c.value.model, c.value.effort, c.value.budget)
              && c.value.policy == Some(policy) && c.value.lastCheck.Some? && c.value.lastCheck.value.status == Passed
              && BudgetOk(r.budget)
  {
    hide Model, Effort;
  }

  const EXAMPLE := Input(true, true, "gpt-5.6", "low", 1200, Some("k"))

  function Verified(policy: string, check: Option<Check>): Config {
    Config(true, "gpt-5.6", "low", 1200, 1, Some(Sealed("k", 0)), Some(policy), Some(0), Some(0), check)
  }

  lemma ExampleNormal()
    ensures Model("gpt-5.6") == Some("gpt-5.6") && Effort("low") == Some("low") && Strip("k") == "k"
  {
    StripTrimmed("gpt-5.6");
    StripTrimmed("low");
    StripTrimmed("k");
    assert Lower("low") == "low";
  }

  lemma ExampleSaved(policy: string)
    ensures AfterSave(None, EXAMPLE, policy, 0, 0, 0) == Saved(Verified(policy, None))
    ensures BeginCheck(Some(Verified(policy, None)), policy, true) == Some(Flight(1, "k", "gpt-5.6", "low", 1200, policy, None))
    ensures Resolve(Some(Verified(policy, Some(Check(0, Passed, "connection_verified", "gpt-5.6")))), policy, true, true)
            == Runtime("k", "gpt-5.6", "low", 1200)
  {
    ExampleNormal();
    hide Model, Effort, Strip;
  }

  lemma RunFour(s: System, a: Step, b: Step, c: Step, d: Step)
    ensures Run(s, [a, b, c, d]) == Apply(Apply(Apply(Apply(s, a), b), c), d)
  {
    hide Apply;
    var s1 := Apply(s, a);
    var s2 := Apply(s1, b);
    var s3 := Apply(s2, c);
    var s4 := Apply(s3, d);
    assert [a, b, c, d][1..] == [b, c, d] && [b, c, d][1..] == [c, d] && [c, d][1..] == [d] && [d][1..] == [];
    assert Run(s4, []) == s4;
    assert Run(s3, [d]) == s4;
    assert Run(s2, [c, d]) == s4;
    assert Run(s1, [b, c, d]) == s4;
  }

  // An undisturbed check that the provider answers.
  lemma UndisturbedCheck(c: Config, policy: string, f: Flight)
    requires BeginCheck(Some(c), policy, true) == Some(f) && f.version == c.version && f.result == None
    ensures var s := Apply(Apply(Apply(System(Some(c), map[], {}, policy), BeginStep(0, true)), ProbeStep(0, Answered)), FinishStep(0, 0));
            && s.config == Some(c.(lastCheck := Some(Check(0, Passed, "connection_verified", f.model))))
            && s.answered == {ProbeOf(f)} && s.policy == policy
  {
    hide BeginCheck;
    var s1 := Apply(System(Some(c), map[], {}, policy), BeginStep(0, true));
    assert s1.flights == map[0 := f];
    var s2 := Apply(s1, ProbeStep(0, Answered));
    assert s2.flights == map[0 := f.(result := Some(Answered))] && s2.answered == {ProbeOf(f)};
  }

  // A run that hands out a budget of 1200 though no probe had more than 600.
  lemma BudgetNotProbed(policy: string)
    ensures var s := Run(Start(policy), [SaveStep(EXAMPLE, 0, 0, 0), BeginStep(0, true), ProbeStep(0, Answered), FinishStep(0, 0)]);
            && Resolve(s.config, s.policy, true, true) == Runtime("k", "gpt-5.6", "low", 1200)
            && s.answered == {Probe("k", "gpt-5.6", "low", 600, 1200, policy)}
  {
    ExampleSaved(policy);
    RunFour(Start(policy), SaveStep(EXAMPLE, 0, 0, 0), BeginStep(0, true), ProbeStep(0, Answered), FinishStep(0, 0));
    hide AfterSave, BeginCheck, Resolve, Run;
    assert Apply(Start(policy), SaveStep(EXAMPLE, 0, 0, 0)) == System(Some(Verified(policy, None)), map[], {}, policy);
    UndisturbedCheck(Verified(policy, None), policy, Flight(1, "k", "gpt-5.6", "low", 1200, policy, None));
  }

  // Only a probe that answered enters the history, so each entry is the call
  // of some check in flight.
  lemma {:induction false} ProbesComeFromChecks(s: System, steps: seq<Step>, p: Probe)
    requires p in Run(s, steps).answered && p !in s.answered
    ensures exists i :: 0 <= i < |steps| && steps[i].ProbeStep? && steps[i].result == Answered
                        && steps[i].id in Run(s, steps[..i]).flights && ProbeOf(Run(s, steps[..i]).flights[steps[i].id]) == p
    decreases |steps|
  {
    if steps != [] {
      var next := Apply(s, steps[0]);
      if p in next.answered {
        assert steps[..0] == [];
      } else {
        ProbesComeFromChecks(next, steps[1..], p);
        var i :| 0 <= i < |steps[1..]| && steps[1..][i].ProbeStep? && steps[1..][i].result == Answered
                 && steps[1..][i].id in Run(next, steps[1..][..i]).flights
                 && ProbeOf(Run(next, steps[1..][..i]).flights[steps[1..][i].id]) == p;
        assert steps[..i + 1][0] == steps[0] && steps[..i + 1][1..] == steps[1..][..i];
        assert steps[i + 1] == steps[1..][i];
      }
    }
  }
}
