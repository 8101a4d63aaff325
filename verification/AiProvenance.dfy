// Which save a runtime configuration comes from, over every interleaving
// (app/services/ai_settings_service.py, lines 81-167 and 268-320).
module AiProvenance {
  import opened Options
  import opened Text
  import opened AiSettings

  // The system before step n.
  function At(policy: string, steps: seq<Step>, n: nat): System
    requires n <= |steps|
  {
    Run(Start(policy), steps[..n])
  }

  lemma {:induction false} RunSnoc(s: System, steps: seq<Step>, step: Step)
    ensures Run(s, steps + [step]) == Apply(Run(s, steps), step)
    decreases |steps|
  {
    hide Apply;
    if steps == [] {
      assert steps + [step] == [step] && [step][1..] == [];
      assert Run(Apply(s, step), []) == Apply(s, step);
    } else {
      assert (steps + [step])[1..] == steps[1..] + [step];
      RunSnoc(Apply(s, steps[0]), steps[1..], step);
    }
  }

  lemma NextAt(policy: string, steps: seq<Step>, n: nat)
    requires n < |steps|
    ensures At(policy, steps, n + 1) == Apply(At(policy, steps, n), steps[n])
  {
    hide Run, Apply;
    assert steps[..n + 1] == steps[..n] + [steps[n]];
    RunSnoc(Start(policy), steps[..n], steps[n]);
  }

  // Step n is a save that is committed.
  predicate SavedAt(policy: string, steps: seq<Step>, n: nat)
    requires n < |steps|
  {
    var s, step := At(policy, steps, n), steps[n];
    step.SaveStep? && AfterSave(s.config, step.i, s.policy, step.now, step.user, step.salt).Saved?
  }

  // Of the first n steps, the k-th is the last committed save, and nothing was removed since.
  ghost predicate LastSave(policy: string, steps: seq<Step>, n: nat, k: int)
    requires n <= |steps|
  {
    0 <= k < n && SavedAt(policy, steps, k) && forall j :: k < j < n ==> !SavedAt(policy, steps, j) && !steps[j].RemoveStep?
  }

  // Of the first n steps, the k-th is the last committed save that gave a key,
  // and nothing was removed since.
  ghost predicate LastKey(policy: string, steps: seq<Step>, n: nat, k: int)
    requires n <= |steps|
  {
    && 0 <= k < n && SavedAt(policy, steps, k) && Gives(steps[k].i)
    && forall j :: k < j < n ==> !(SavedAt(policy, steps, j) && Gives(steps[j].i)) && !steps[j].RemoveStep?
  }

  lemma SaveIsNoRemoval(policy: string, steps: seq<Step>, n: nat)
    requires n < |steps|
    ensures SavedAt(policy, steps, n) ==> steps[n].SaveStep?
  {
  }

  // Which k is the last save one step later.
  ghost predicate LaterSave(policy: string, steps: seq<Step>, n: nat, k: int)
    requires n < |steps|
  {
    if SavedAt(policy, steps, n) then k == n else !steps[n].RemoveStep? && LastSave(policy, steps, n, k)
  }

  lemma LastSaveWas(policy: string, steps: seq<Step>, n: nat, m: nat, k: int)
    requires n < |steps| && m == n + 1 && LastSave(policy, steps, m, k)
    ensures LaterSave(policy, steps, n, k)
  {
    hide SavedAt;
    assert k < n ==> !SavedAt(policy, steps, n) && !steps[n].RemoveStep?;
  }

  lemma LastSaveStays(policy: string, steps: seq<Step>, n: nat, m: nat, k: int)
    requires n < |steps| && m == n + 1 && LaterSave(policy, steps, n, k)
    ensures LastSave(policy, steps, m, k)
  {
    hide SavedAt;
  }

  lemma LastSaveAt(policy: string, steps: seq<Step>, n: nat, m: nat, k: int)
    requires n < |steps| && m == n + 1
    ensures LastSave(policy, steps, m, k) <==> LaterSave(policy, steps, n, k)
  {
    hide LastSave, LaterSave;
    if LastSave(policy, steps, m, k) { LastSaveWas(policy, steps, n, m, k); }
    if LaterSave(policy, steps, n, k) { LastSaveStays(policy, steps, n, m, k); }
  }

  lemma LastSaveNext(policy: string, steps: seq<Step>, n: nat, m: nat)
    requires n < |steps| && m == n + 1
    ensures forall k :: LastSave(policy, steps, m, k) <==> LaterSave(policy, steps, n, k)
  {
    hide LastSave, LaterSave;
    forall k ensures LastSave(policy, steps, m, k) <==> LaterSave(policy, steps, n, k) {
      LastSaveAt(policy, steps, n, m, k);
    }
  }

  // Which k gave the last key one step later.
  ghost predicate LaterKey(policy: string, steps: seq<Step>, n: nat, k: int)
    requires n < |steps|
  {
    if SavedAt(policy, steps, n) && Gives(steps[n].i) then k == n else !steps[n].RemoveStep? && LastKey(policy, steps, n, k)
  }

  lemma LastKeyWas(policy: string, steps: seq<Step>, n: nat, m: nat, k: int)
    requires n < |steps| && m == n + 1 && LastKey(policy, steps, m, k)
    ensures LaterKey(policy, steps, n, k)
  {
    SaveIsNoRemoval(policy, steps, n);
    hide SavedAt, Gives;
    assert k < n ==> !(SavedAt(policy, steps, n) && Gives(steps[n].i)) && !steps[n].RemoveStep?;
  }

  lemma LastKeyStays(policy: string, steps: seq<Step>, n: nat, m: nat, k: int)
    requires n < |steps| && m == n + 1 && LaterKey(policy, steps, n, k)
    ensures LastKey(policy, steps, m, k)
  {
    SavesStep(policy, steps);
    hide SavedAt, Gives, At;
  }

  lemma SavesStep(policy: string, steps: seq<Step>)
    ensures forall n :: 0 <= n < |steps| && SavedAt(policy, steps, n) ==> steps[n].SaveStep?
  {
    hide At, AfterSave;
  }

  lemma LastKeyAt(policy: string, steps: seq<Step>, n: nat, m: nat, k: int)
    requires n < |steps| && m == n + 1
    ensures LastKey(policy, steps, m, k) <==> LaterKey(policy, steps, n, k)
  {
    hide LastKey, LaterKey;
    if LastKey(policy, steps, m, k) { LastKeyWas(policy, steps, n, m, k); }
    if LaterKey(policy, steps, n, k) { LastKeyStays(policy, steps, n, m, k); }
  }

  lemma LastKeyNext(policy: string, steps: seq<Step>, n: nat, m: nat)
    requires n < |steps| && m == n + 1
    ensures forall k :: LastKey(policy, steps, m, k) <==> LaterKey(policy, steps, n, k)
  {
    hide LastKey, LaterKey;
    forall k ensures LastKey(policy, steps, m, k) <==> LaterKey(policy, steps, n, k) {
      LastKeyAt(policy, steps, n, m, k);
    }
  }

  ghost predicate FromSave(c: Config, i: Input, policy: string) {
    && c.enabled == i.enabled && (i.enabled ==> i.acknowledged)
    && Some(c.model) == Model(i.model) && Some(c.effort) == Effort(i.effort) && c.budget == i.budget
    && c.policy == if i.acknowledged then Some(policy) else None
  }

  ghost predicate KeyTyped(steps: seq<Step>, k: int, key: string) {
    0 <= k < |steps| && steps[k].SaveStep? && Typed(steps[k].i, key)
  }

  // The row before step n holds what the last save gave, ...
  ghost predicate SettingsTraced(policy: string, steps: seq<Step>, n: nat)
    requires n <= |steps|
  {
    var config := At(policy, steps, n).config;
    config.Some? ==>
      && (forall k :: LastSave(policy, steps, n, k) ==> FromSave(config.value, steps[k].i, At(policy, steps, k).policy))
      && (config.value.enabled ==> exists k :: LastSave(policy, steps, n, k))
  }

  // ... and the key that was last given.
  ghost predicate KeyTraced(policy: string, steps: seq<Step>, n: nat)
    requires n <= |steps|
  {
    var config := At(policy, steps, n).config;
    config.Some? && config.value.key.Some? ==>
      exists k :: LastKey(policy, steps, n, k) && KeyTyped(steps, k, config.value.key.value.plain)
  }

  // The row that a committed save leaves.
  lemma SavedRow(policy: string, steps: seq<Step>, n: nat)
    requires n < |steps| && SavedAt(policy, steps, n)
    ensures var before, config, i := At(policy, steps, n).config, At(policy, steps, n + 1).config, steps[n].i;
            && config.Some? && FromSave(config.value, i, At(policy, steps, n).policy)
            && (Gives(i) ==> config.value.key.Some? && KeyTyped(steps, n, config.value.key.value.plain))
            && (!Gives(i) ==> config.value.key == if before.Some? then before.value.key else None)
  {
    NextAt(policy, steps, n);
    var s, step := At(policy, steps, n), steps[n];
    SaveIs(s.config, step.i, s.policy, step.now, step.user, step.salt);
    hide At, AfterSave, Model, Effort, Gives, Typed;
  }

  lemma SettingsAfterSave(policy: string, steps: seq<Step>, n: nat)
    requires n < |steps| && SavedAt(policy, steps, n)
    ensures SettingsTraced(policy, steps, n + 1)
  {
    hide At, SavedAt, FromSave, Gives, KeyTyped, LastSave;
    SavedRow(policy, steps, n);
    var m := n + 1;
    LastSaveNext(policy, steps, n, m);
    forall k ensures LastSave(policy, steps, m, k) <==> k == n {
      assert LastSave(policy, steps, m, k) <==> LaterSave(policy, steps, n, k);
    }
    assert LastSave(policy, steps, m, n);
  }

  lemma KeyAfterSave(policy: string, steps: seq<Step>, n: nat)
    requires n < |steps| && SavedAt(policy, steps, n) && KeyTraced(policy, steps, n)
    ensures KeyTraced(policy, steps, n + 1)
  {
    SaveIsNoRemoval(policy, steps, n);
    SavedRow(policy, steps, n);
    hide At, SavedAt, FromSave, Gives, KeyTyped, LastKey;
    LastKeyNext(policy, steps, n, n + 1);
    var config := At(policy, steps, n + 1).config;
    if config.value.key.Some? {
      var text := config.value.key.value.plain;
      if Gives(steps[n].i) {
        assert LaterKey(policy, steps, n, n) && KeyTyped(steps, n, text);
      } else {
        var k :| LastKey(policy, steps, n, k) && KeyTyped(steps, k, text);
        assert LaterKey(policy, steps, n, k);
      }
    }
  }

  // The steps that are no committed save and no removal leave all of it alone.
  lemma OtherLeaves(s: System, step: Step)
    requires !step.RemoveStep?
    requires step.SaveStep? ==> !AfterSave(s.config, step.i, s.policy, step.now, step.user, step.salt).Saved?
    ensures var t := Apply(s, step);
            && (t.config.Some? <==> s.config.Some?)
            && (s.config.Some? ==> s.config.value.(lastCheck := None) == t.config.value.(lastCheck := None))
  {
    hide AfterSave;
  }

  // The row before and after such a step.
  lemma LeftRow(policy: string, steps: seq<Step>, n: nat)
    requires n < |steps| && !SavedAt(policy, steps, n) && !steps[n].RemoveStep?
    ensures var before, config := At(policy, steps, n).config, At(policy, steps, n + 1).config;
            && (config.Some? <==> before.Some?)
            && (config.Some? ==>
                  && config.value.enabled == before.value.enabled && config.value.key == before.value.key
                  && forall i, p :: FromSave(before.value, i, p) <==> FromSave(config.value, i, p))
  {
    NextAt(policy, steps, n);
    OtherLeaves(At(policy, steps, n), steps[n]);
    hide At, Apply, AfterSave, FromSave;
    var before, config := At(policy, steps, n).config, At(policy, steps, n + 1).config;
    if config.Some? {
      assert before.value.(lastCheck := None).enabled == config.value.(lastCheck := None).enabled;
      assert before.value.(lastCheck := None).key == config.value.(lastCheck := None).key;
      SameFromSave(before.value, config.value);
    }
  }

  lemma SameFromSave(c: Config, d: Config)
    requires c.(lastCheck := None) == d.(lastCheck := None)
    ensures forall i, policy :: FromSave(c, i, policy) <==> FromSave(d, i, policy)
  {
    hide Model, Effort;
    var x, y := c.(lastCheck := None), d.(lastCheck := None);
    assert x.enabled == y.enabled && x.model == y.model && x.effort == y.effort && x.budget == y.budget && x.policy == y.policy;
  }

  lemma SettingsAfterOther(policy: string, steps: seq<Step>, n: nat)
    requires n < |steps| && SettingsTraced(policy, steps, n) && !SavedAt(policy, steps, n) && !steps[n].RemoveStep?
    ensures SettingsTraced(policy, steps, n + 1)
  {
    LeftRow(policy, steps, n);
    hide At, SavedAt, FromSave, LastSave;
    LastSaveNext(policy, steps, n, n + 1);
    var before, config := At(policy, steps, n).config, At(policy, steps, n + 1).config;
    if config.Some? && config.value.enabled {
      var k :| LastSave(policy, steps, n, k);
      assert LaterSave(policy, steps, n, k);
    }
  }

  lemma KeyAfterOther(policy: string, steps: seq<Step>, n: nat)
    requires n < |steps| && KeyTraced(policy, steps, n) && !SavedAt(policy, steps, n) && !steps[n].RemoveStep?
    ensures KeyTraced(policy, steps, n + 1)
  {
    LeftRow(policy, steps, n);
    hide At, SavedAt, FromSave, LastKey, KeyTyped, Gives;
    LastKeyNext(policy, steps, n, n + 1);
    var config := At(policy, steps, n + 1).config;
    if config.Some? && config.value.key.Some? {
      var k :| LastKey(policy, steps, n, k) && KeyTyped(steps, k, config.value.key.value.plain);
      assert LaterKey(policy, steps, n, k);
    }
  }

  lemma RemovedRow(policy: string, steps: seq<Step>, n: nat)
    requires n < |steps| && steps[n].RemoveStep?
    ensures var config := At(policy, steps, n + 1).config; config.Some? ==> !config.value.enabled && config.value.key == None
    ensures !SavedAt(policy, steps, n)
  {
    NextAt(policy, steps, n);
    hide At;
  }

  lemma TracedRemove(policy: string, steps: seq<Step>, n: nat)
    requires n < |steps| && steps[n].RemoveStep?
    ensures SettingsTraced(policy, steps, n + 1) && KeyTraced(policy, steps, n + 1)
  {
    hide At, SavedAt, LastSave, LastKey, FromSave, KeyTyped;
    RemovedRow(policy, steps, n);
    var m := n + 1;
    LastSaveNext(policy, steps, n, m);
    forall k ensures !LastSave(policy, steps, m, k) {
      assert LastSave(policy, steps, m, k) <==> LaterSave(policy, steps, n, k);
    }
  }

  lemma {:induction false} AllTraced(policy: string, steps: seq<Step>, n: nat)
    requires n <= |steps|
    ensures SettingsTraced(policy, steps, n) && KeyTraced(policy, steps, n)
  {
    if n == 0 {
      assert steps[..0] == [];
    } else {
      AllTraced(policy, steps, n - 1);
      hide SettingsTraced, KeyTraced, SavedAt;
      if steps[n - 1].RemoveStep? {
        TracedRemove(policy, steps, n - 1);
      } else if SavedAt(policy, steps, n - 1) {
        SettingsAfterSave(policy, steps, n - 1);
        KeyAfterSave(policy, steps, n - 1);
      } else {
        SettingsAfterOther(policy, steps, n - 1);
        KeyAfterOther(policy, steps, n - 1);
      }
    }
  }

  // When a runtime configuration is handed out, the server's switch is on, and
  // the last change of the settings is a save that enabled the assistant,
  // acknowledged the server's current policy and gave exactly this model,
  // effort and budget; the key is the one typed in the last save that gave one,
  // with no removal since.
  lemma RuntimeFromLastSave(policy: string, steps: seq<Step>, llm: bool, readable: bool)
    ensures var s := Run(Start(policy), steps);
            var r := Resolve(s.config, s.policy, llm, readable);
            r.Runtime? ==>
              && llm
              && (exists k :: LastSave(policy, steps, |steps|, k) && Enables(policy, steps, k, r, s.policy))
              && (exists k :: LastKey(policy, steps, |steps|, k) && KeyTyped(steps, k, r.key))
  {
    assert steps[..|steps|] == steps;
    assert At(policy, steps, |steps|) == Run(Start(policy), steps);
    AllTraced(policy, steps, |steps|);
    RowNormal(policy, steps);
    SavesAreSaves(policy, steps);
    hide At, Run, Apply, SavedAt, Gives, KeyTyped, LastSave, LastKey;
    var s := Run(Start(policy), steps);
    var r := Resolve(s.config, s.policy, llm, readable);
    RuntimeIs(s.config, s.policy, llm, readable);
    RuntimeIff(s.config, s.policy, llm, readable);
    hide Resolve;
    if r.Runtime? {
      var k :| LastSave(policy, steps, |steps|, k);
      FromSaveEnables(policy, steps, k, s.config.value, r, s.policy);
    }
  }

  // The k-th step is a save that enabled the assistant, acknowledged the policy
  // that is current and gave the runtime's model, effort and budget.
  ghost predicate Enables(policy: string, steps: seq<Step>, k: int, r: Resolution, current: string)
    requires r.Runtime?
  {
    && 0 <= k < |steps| && steps[k].SaveStep?
    && steps[k].i.enabled && steps[k].i.acknowledged && At(policy, steps, k).policy == current
    && Model(steps[k].i.model) == Some(r.model) && Effort(steps[k].i.effort) == Some(r.effort) && steps[k].i.budget == r.budget
  }

  lemma SavesAreSaves(policy: string, steps: seq<Step>)
    ensures forall k :: LastSave(policy, steps, |steps|, k) ==> 0 <= k < |steps| && steps[k].SaveStep?
  {
  }

  lemma FromSaveEnables(policy: string, steps: seq<Step>, k: int, c: Config, r: Resolution, current: string)
    requires 0 <= k < |steps| && steps[k].SaveStep? && r.Runtime? && c.enabled && c.policy == Some(current)
    requires FromSave(c, steps[k].i, At(policy, steps, k).policy)
    requires r.model == c.model && r.effort == c.effort && r.budget == c.budget
    ensures Enables(policy, steps, k, r, current)
  {
    hide At, Model, Effort;
  }

  lemma RowNormal(policy: string, steps: seq<Step>)
    ensures var s := Run(Start(policy), steps); s.config.Some? ==> Normal(s.config.value)
  {
    assert Inv(Start(policy));
    RunKeepsInv(Start(policy), steps);
  }

  // For instance, once an admin saves the same settings with the assistant
  // disabled nothing is handed out, though the passed check stays.
  lemma DisabledIsOff(policy: string, steps: seq<Step>, k: nat, llm: bool, readable: bool)
    requires k < |steps| && LastSave(policy, steps, |steps|, k) && !steps[k].i.enabled
    ensures var s := Run(Start(policy), steps); !Resolve(s.config, s.policy, llm, readable).Runtime?
  {
    RuntimeFromLastSave(policy, steps, llm, readable);
    OneLastSave(policy, steps, k);
    hide Run, Resolve, LastSave, LastKey, At;
  }

  lemma OneLastSave(policy: string, steps: seq<Step>, k: int)
    requires LastSave(policy, steps, |steps|, k)
    ensures forall j :: LastSave(policy, steps, |steps|, j) ==> j == k
  {
    hide SavedAt;
  }
}
