// Turning briefing items into proposals without duplicates
// (app/services/briefing_action_proposal_service.py, lines 66-165).
module Briefings {
  import opened Options
  import opened Text

  // `acceptable` is the verdict of the proposal validation on the item's proposal.
  datatype Item = Item(id: nat, key: string, evidence: nat, acceptable: bool)
  datatype Briefing = Briefing(id: string, items: seq<Item>)

  datatype Status = Proposed | Approved | Rejected | Executed | Failed

  // The payload texts are "" where the payload has no such text.
  datatype Proposal = Proposal(
    generated: bool, internalTodo: bool, status: Status, payloadBriefing: string, payloadKey: string, item: Option<nat>)

  datatype Reason = MissingEvidence | OpenActionExists
  datatype Skip = Skip(item: Item, reason: Reason)

  datatype Outcome = Invalid | Done(created: seq<Item>, skipped: seq<Skip>)

  predicate Actionable(key: string) {
    || key == "internal-document-context" || key == "jira-work-items"
    || key == "gmail-message-signals" || key == "drive-file-signals"
  }

  predicate IsOpen(p: Proposal) { p.internalTodo && p.status in {Approved, Executed, Proposed} }

  // ---- Which keys are taken ----

  datatype Slot = Slot(key: string, id: nat)

  // A dictionary entry: a repeated key keeps its place and takes the new id.
  function Put(slots: seq<Slot>, key: string, id: nat): seq<Slot> {
    if slots == [] then [Slot(key, id)]
    else if slots[0].key == key then [Slot(key, id)] + slots[1..]
    else [slots[0]] + Put(slots[1..], key, id)
  }

  function ItemIds(items: seq<Item>): seq<Slot> {
    if items == [] then [] else Put(ItemIds(items[..|items| - 1]), items[|items| - 1].key, items[|items| - 1].id)
  }

  function KeyOfItem(slots: seq<Slot>, item: Option<nat>): Option<string> {
    if slots == [] then None
    else if item == Some(slots[0].id) then Some(slots[0].key)
    else KeyOfItem(slots[1..], item)
  }

  // The item key a proposal takes in a briefing.
  function KeyTaken(b: Briefing, p: Proposal): Option<string> {
    if Strip(p.payloadBriefing) == b.id && Strip(p.payloadKey) != "" then Some(Strip(p.payloadKey))
    else KeyOfItem(ItemIds(b.items), p.item)
  }

  function OpenKeys(b: Briefing, proposals: seq<Proposal>): set<string> {
    set p | p in proposals && IsOpen(p) && KeyTaken(b, p).Some? :: KeyTaken(b, p).value
  }

  method ExistingOpenItemKeys(b: Briefing, proposals: seq<Proposal>) returns (open: set<string>)
    ensures open == OpenKeys(b, proposals)
  {
    hide Strip, ItemIds;
    var slots := ItemIds(b.items);
    open := {};
    for i := 0 to |proposals|
      invariant open == OpenKeys(b, proposals[..i])
    {
      var p := proposals[i];
      assert proposals[..i + 1] == proposals[..i] + [p];
      assert OpenKeys(b, proposals[..i + 1])
             == open + if IsOpen(p) && KeyTaken(b, p).Some? then {KeyTaken(b, p).value} else {};
      if !IsOpen(p) { continue; }
      if Strip(p.payloadBriefing) == b.id && Strip(p.payloadKey) != "" {
        open := open + {Strip(p.payloadKey)};
        continue;
      }
      for k := 0 to |slots|
        invariant KeyOfItem(slots, p.item) == KeyOfItem(slots[k..], p.item)
        invariant open == OpenKeys(b, proposals[..i])
      {
        assert slots[k..][1..] == slots[k + 1..];
        if p.item == Some(slots[k].id) {
          open := open + {slots[k].key};
          break;
        }
      }
      assert slots[|slots|..] == [];
    }
    assert proposals[..|proposals|] == proposals;
  }

  // ---- What the taken keys mean ----

  // The last item of its key.
  ghost predicate LastOfKey(items: seq<Item>, k: int) {
    0 <= k < |items| && forall j :: k < j < |items| ==> items[j].key != items[k].key
  }

  lemma {:induction false} PutHolds(slots: seq<Slot>, key: string, id: nat, slot: Slot)
    requires forall j, k :: 0 <= j < k < |slots| ==> slots[j].key != slots[k].key
    ensures var after := Put(slots, key, id);
            && (slot in after <==> slot == Slot(key, id) || (slot in slots && slot.key != key))
            && (forall j, k :: 0 <= j < k < |after| ==> after[j].key != after[k].key)
  {
    if slots != [] && slots[0].key != key {
      var rest := slots[1..];
      var tail := Put(rest, key, id);
      PutHolds(rest, key, id, slot);
      forall k | 0 <= k < |tail| ensures tail[k].key != slots[0].key {
        PutHolds(rest, key, id, tail[k]);
        assert tail[k] in tail;
      }
    }
  }

  // The dictionary holds the id of the last item of each key, and keeps the keys apart.
  lemma {:induction false} ItemIdsHold(items: seq<Item>, slot: Slot)
    ensures slot in ItemIds(items) <==> exists k :: LastOfKey(items, k) && slot == Slot(items[k].key, items[k].id)
    ensures forall j, k :: 0 <= j < k < |ItemIds(items)| ==> ItemIds(items)[j].key != ItemIds(items)[k].key
  {
    if items != [] {
      var n := |items| - 1;
      ItemIdsHold(items[..n], slot);
      PutHolds(ItemIds(items[..n]), items[n].key, items[n].id, slot);
      hide ItemIds, Put;
      forall k ensures LastOfKey(items, k) <==> k == n || (LastOfKey(items[..n], k) && items[k].key != items[n].key) {}
      if slot in ItemIds(items[..n]) && slot.key != items[n].key {
        var k :| LastOfKey(items[..n], k) && slot == Slot(items[..n][k].key, items[..n][k].id);
        assert LastOfKey(items, k);
      }
      assert LastOfKey(items, n);
    }
  }

  lemma {:induction false} KeyOfItemIs(slots: seq<Slot>, item: Option<nat>, key: string)
    requires forall s, t :: s in slots && t in slots && s.id == t.id ==> s == t
    ensures KeyOfItem(slots, item) == Some(key) <==> item.Some? && Slot(key, item.value) in slots
  {
    if slots != [] { KeyOfItemIs(slots[1..], item, key); }
  }

  // The proposal names the briefing and the key in its payload, or, if it does
  // not, is linked to the last item of the key.
  ghost predicate Takes(b: Briefing, p: Proposal, key: string) {
    if Strip(p.payloadBriefing) == b.id && Strip(p.payloadKey) != "" then key == Strip(p.payloadKey)
    else exists k :: LastOfKey(b.items, k) && b.items[k].key == key && p.item == Some(b.items[k].id)
  }

  ghost predicate DistinctIds(items: seq<Item>) { forall j, k :: 0 <= j < k < |items| ==> items[j].id != items[k].id }

  lemma KeyTakenIs(b: Briefing, p: Proposal, key: string)
    requires DistinctIds(b.items)
    ensures KeyTaken(b, p) == Some(key) <==> Takes(b, p, key)
  {
    hide Strip;
    var slots := ItemIds(b.items);
    forall s, t | s in slots && t in slots && s.id == t.id ensures s == t {
      ItemIdsHold(b.items, s);
      ItemIdsHold(b.items, t);
    }
    KeyOfItemIs(slots, p.item, key);
    if p.item.Some? { ItemIdsHold(b.items, Slot(key, p.item.value)); }
  }

  // A key is taken exactly by an internal to-do, neither rejected nor failed,
  // that names it in its payload or is linked to its last item.
  lemma OpenKeysAre(b: Briefing, proposals: seq<Proposal>, key: string)
    requires DistinctIds(b.items)
    ensures key in OpenKeys(b, proposals)
            <==> exists p :: p in proposals && p.internalTodo && p.status != Rejected && p.status != Failed && Takes(b, p, key)
  {
    hide KeyTaken, Takes;
    forall p ensures KeyTaken(b, p) == Some(key) <==> Takes(b, p, key) { KeyTakenIs(b, p, key); }
    if p :| p in proposals && p.internalTodo && p.status != Rejected && p.status != Failed && Takes(b, p, key) {
      assert IsOpen(p) && KeyTaken(b, p) == Some(key);
    }
  }

  // For instance, an open to-do without payload texts that is linked to an
  // item alone in its key takes that key, and no second one is created for it.
  lemma LinkTakesKey(b: Briefing, proposals: seq<Proposal>, p: Proposal, k: nat)
    requires DistinctIds(b.items) && k < |b.items| && p in proposals && IsOpen(p)
    requires p.payloadBriefing == "" && p.payloadKey == "" && p.item == Some(b.items[k].id)
    requires forall j :: 0 <= j < |b.items| && j != k ==> b.items[j].key != b.items[k].key
    ensures var key, open := b.items[k].key, OpenKeys(b, proposals);
            key in open && forall x :: Due(b.items, open, x) ==> x.key != key
  {
    assert Strip("") == "";
    assert LastOfKey(b.items, k);
    assert Takes(b, p, b.items[k].key);
    OpenKeysAre(b, proposals, b.items[k].key);
  }

  // ---- One generation ----

  function Generate(items: seq<Item>, open: set<string>): Outcome {
    if items == [] then Done([], [])
    else
      var i, rest := items[0], items[1..];
      if !Actionable(i.key) then Generate(rest, open)
      else if i.evidence == 0 then Skipping(Skip(i, MissingEvidence), Generate(rest, open))
      else if i.key in open then Skipping(Skip(i, OpenActionExists), Generate(rest, open))
      else if !i.acceptable then Invalid
      else
        match Generate(rest, open + {i.key})
        case Invalid => Invalid
        case Done(created, skipped) => Done([i] + created, skipped)
  }

  function Skipping(s: Skip, o: Outcome): Outcome {
    match o
    case Invalid => Invalid
    case Done(created, skipped) => Done(created, [s] + skipped)
  }

  function Drafted(b: Briefing, i: Item): Proposal { Proposal(true, true, Proposed, b.id, i.key, Some(i.id)) }

  function AllDrafted(b: Briefing, items: seq<Item>): seq<Proposal> {
    if items == [] then [] else [Drafted(b, items[0])] + AllDrafted(b, items[1..])
  }

  // The table after one generation, which rolls back when a proposal is invalid.
  function Generated(b: Briefing, proposals: seq<Proposal>): seq<Proposal> {
    match Generate(b.items, OpenKeys(b, proposals))
    case Invalid => proposals
    case Done(created, _) => proposals + AllDrafted(b, created)
  }

  // An outcome put behind what was created and skipped before.
  function Onto(created: seq<Item>, skipped: seq<Skip>, o: Outcome): Outcome {
    match o
    case Invalid => Invalid
    case Done(c, s) => Done(created + c, skipped + s)
  }

  lemma LoopStep(items: seq<Item>, open: set<string>, created: seq<Item>, skipped: seq<Skip>)
    requires items != []
    ensures var i, rest := items[0], items[1..];
            Onto(created, skipped, Generate(items, open))
            == if !Actionable(i.key) then Onto(created, skipped, Generate(rest, open))
               else if i.evidence == 0 then Onto(created, skipped + [Skip(i, MissingEvidence)], Generate(rest, open))
               else if i.key in open then Onto(created, skipped + [Skip(i, OpenActionExists)], Generate(rest, open))
               else if !i.acceptable then Invalid
               else Onto(created + [i], skipped, Generate(rest, open + {i.key}))
  {
    hide Actionable;
  }

  lemma LoopEnds(open: set<string>, created: seq<Item>, skipped: seq<Skip>)
    ensures Onto(created, skipped, Generate([], open)) == Done(created, skipped)
    ensures forall o :: Onto([], [], o) == o
  {
    forall o ensures Onto([], [], o) == o {
      if o.Done? { assert [] + o.created == o.created && [] + o.skipped == o.skipped; }
    }
  }

  // The workspace's proposal table.
  class Workspace {
    var proposals: seq<Proposal>

    constructor ()
      ensures proposals == []
    {
      proposals := [];
    }

    method GenerateActionProposals(b: Briefing) returns (r: Outcome)
      modifies this
      ensures r == Generate(b.items, OpenKeys(b, old(proposals)))
      ensures proposals == Generated(b, old(proposals))
    {
      assert AllDrafted(b, []) == [] && proposals + [] == proposals;
      LoopEnds({}, [], []);
      hide Actionable, OpenKeys, AllDrafted, Drafted, Generate, Onto;
      var open := ExistingOpenItemKeys(b, proposals);
      ghost var before := open;
      var created: seq<Item> := [];
      var skipped: seq<Skip> := [];
      var rows := proposals;
      for k := 0 to |b.items|
        invariant open == before + (set i | i in created :: i.key)
        invariant rows == proposals + AllDrafted(b, created) && proposals == old(proposals)
        invariant Generate(b.items, before) == Onto(created, skipped, Generate(b.items[k..], open))
      {
        var i := b.items[k];
        assert b.items[k..][1..] == b.items[k + 1..];
        LoopStep(b.items[k..], open, created, skipped);
        if !Actionable(i.key) { continue; }
        if i.evidence == 0 {
          skipped := skipped + [Skip(i, MissingEvidence)];
          continue;
        }
        if i.key in open {
          skipped := skipped + [Skip(i, OpenActionExists)];
          continue;
        }
        if !i.acceptable { return Invalid; }
        DraftedAppend(b, created, i);
        created := created + [i];
        rows := rows + [Drafted(b, i)];
        open := open + {i.key};
      }
      assert b.items[|b.items|..] == [];
      LoopEnds(open, created, skipped);
      proposals := rows;
      r := Done(created, skipped);
    }
  }

  lemma {:induction false} DraftedAppend(b: Briefing, items: seq<Item>, i: Item)
    ensures AllDrafted(b, items + [i]) == AllDrafted(b, items) + [Drafted(b, i)]
  {
    if items == [] {
      assert items + [i] == [i] && [i][1..] == [];
    } else {
      assert (items + [i])[1..] == items[1..] + [i];
      DraftedAppend(b, items[1..], i);
    }
  }

  // ---- What one generation does ----

  function Relevant(items: seq<Item>): nat {
    if items == [] then 0 else (if Actionable(items[0].key) then 1 else 0) + Relevant(items[1..])
  }

  // Every actionable item is created or skipped, and no other item is either.
  lemma {:induction false} CreatedPlusSkipped(items: seq<Item>, open: set<string>)
    requires Generate(items, open).Done?
    ensures |Generate(items, open).created| + |Generate(items, open).skipped| == Relevant(items)
  {
    if items != [] {
      hide Actionable;
      var i := items[0];
      var creates := Actionable(i.key) && i.evidence > 0 && i.key !in open;
      CreatedPlusSkipped(items[1..], if creates then open + {i.key} else open);
    }
  }

  predicate Backed(i: Item) { Actionable(i.key) && i.evidence > 0 }

  // The first evidence-backed actionable item of a key that is not taken.
  ghost predicate First(items: seq<Item>, open: set<string>, k: int) {
    && 0 <= k < |items| && Backed(items[k]) && items[k].key !in open
    && forall j :: 0 <= j < k && Backed(items[j]) ==> items[j].key != items[k].key
  }

  ghost predicate Due(items: seq<Item>, open: set<string>, x: Item) {
    exists k :: First(items, open, k) && items[k] == x
  }

  // A generation fails exactly when an item that is due is not acceptable,
  // and otherwise creates exactly the items that are due.
  lemma {:induction false} GeneratesDue(items: seq<Item>, open: set<string>)
    ensures Generate(items, open).Invalid? <==> exists x :: Due(items, open, x) && !x.acceptable
    ensures Generate(items, open).Done? ==> forall x :: x in Generate(items, open).created <==> Due(items, open, x)
  {
    if items != [] {
      hide Actionable, Due;
      var i, rest := items[0], items[1..];
      var next := if Backed(i) && i.key !in open then open + {i.key} else open;
      GeneratesDue(rest, next);
      forall x ensures Due(items, open, x) <==> (Backed(i) && i.key !in open && x == i) || Due(rest, next, x) {
        DueStep(items, open, x);
      }
      if Generate(items, open).Done? {
        var c := Generate(rest, next).created;
        assert Generate(items, open).created == if Backed(i) && i.key !in open then [i] + c else c;
      }
    } else {
      assert forall x :: !Due(items, open, x);
    }
  }

  lemma DueStep(items: seq<Item>, open: set<string>, x: Item)
    requires items != []
    ensures var i := items[0]; var fits := Backed(i) && i.key !in open;
            Due(items, open, x) <==> (fits && x == i) || Due(items[1..], if fits then open + {i.key} else open, x)
  {
    hide Backed;
    var i := items[0];
    var next := if Backed(i) && i.key !in open then open + {i.key} else open;
    FirstAt(items, open, 0);
    if Due(items, open, x) {
      var k :| First(items, open, k) && items[k] == x;
      FirstAt(items, open, k);
      if k > 0 { FirstShift(items, open, k - 1); }
    }
    if Due(items[1..], next, x) {
      var k :| First(items[1..], next, k) && items[1..][k] == x;
      FirstAt(items[1..], next, k);
      FirstShift(items, open, k);
    }
  }

  lemma FirstAt(items: seq<Item>, open: set<string>, k: int)
    ensures First(items, open, k) ==> 0 <= k < |items|
    ensures items != [] ==> (First(items, open, 0) <==> Backed(items[0]) && items[0].key !in open)
  {
  }

  lemma FirstShift(items: seq<Item>, open: set<string>, k: nat)
    requires k + 1 < |items|
    ensures var next := if Backed(items[0]) && items[0].key !in open then open + {items[0].key} else open;
            First(items, open, k + 1) <==> First(items[1..], next, k)
    ensures items[1..][k] == items[k + 1]
  {
    hide Actionable;
    var next := if Backed(items[0]) && items[0].key !in open then open + {items[0].key} else open;
    if First(items, open, k + 1) {
      forall j | 0 <= j < k && Backed(items[1..][j]) ensures items[1..][j].key != items[1..][k].key {
        assert items[1..][j] == items[j + 1];
      }
    }
    if First(items[1..], next, k) {
      forall j | 0 <= j < k + 1 && Backed(items[j]) ensures items[j].key != items[k + 1].key {
        if j > 0 { assert items[1..][j - 1] == items[j]; }
      }
    }
  }

  // Not the first evidence-backed actionable item of a key that is not taken.
  ghost predicate Passed(items: seq<Item>, open: set<string>, x: Item) {
    exists k :: 0 <= k < |items| && Backed(items[k]) && !First(items, open, k) && items[k] == x
  }

  lemma PassedStep(items: seq<Item>, open: set<string>, x: Item)
    requires items != []
    ensures var i := items[0]; var fits := Backed(i) && i.key !in open;
            Passed(items, open, x)
            <==> (Backed(i) && i.key in open && x == i) || Passed(items[1..], if fits then open + {i.key} else open, x)
  {
    hide Backed, First;
    var i, rest := items[0], items[1..];
    var next := if Backed(i) && i.key !in open then open + {i.key} else open;
    FirstAt(items, open, 0);
    if Passed(items, open, x) {
      var k :| 0 <= k < |items| && Backed(items[k]) && !First(items, open, k) && items[k] == x;
      if k > 0 {
        FirstShift(items, open, k - 1);
        assert rest[k - 1] == x;
      }
    }
    if Passed(rest, next, x) {
      var k :| 0 <= k < |rest| && Backed(rest[k]) && !First(rest, next, k) && rest[k] == x;
      FirstShift(items, open, k);
      assert items[k + 1] == x;
    }
  }

  // The actionable items that are not due are skipped: without evidence for
  // that reason, and with it because the key is taken.
  lemma {:induction false} SkipsAre(items: seq<Item>, open: set<string>, x: Item)
    requires Generate(items, open).Done?
    ensures Skip(x, MissingEvidence) in Generate(items, open).skipped <==> x in items && Actionable(x.key) && x.evidence == 0
    ensures Skip(x, OpenActionExists) in Generate(items, open).skipped <==> Passed(items, open, x)
  {
    if items != [] {
      hide Actionable, Passed;
      var i, rest := items[0], items[1..];
      var next := if Backed(i) && i.key !in open then open + {i.key} else open;
      SkipsAre(rest, next, x);
      PassedStep(items, open, x);
      var s := Generate(rest, next).skipped;
      assert items == [i] + rest;
      assert Generate(items, open).skipped
             == if !Actionable(i.key) then s
                else if i.evidence == 0 then [Skip(i, MissingEvidence)] + s
                else if i.key in open then [Skip(i, OpenActionExists)] + s
                else s;
    }
  }

  lemma ActionableKeys()
    ensures forall key :: Actionable(key) <==>
              key in {"internal-document-context", "jira-work-items", "gmail-message-signals", "drive-file-signals"}
  {
  }

  // The rows of a generation: those that were there, and for each created item
  // an open to-do of the briefing that carries its key and its id.
  lemma GeneratedRows(b: Briefing, proposals: seq<Proposal>)
    ensures Generate(b.items, OpenKeys(b, proposals)).Invalid? ==> Generated(b, proposals) == proposals
    ensures Generate(b.items, OpenKeys(b, proposals)).Done? ==>
              var created, after := Generate(b.items, OpenKeys(b, proposals)).created, Generated(b, proposals);
              && |after| == |proposals| + |created| && after[..|proposals|] == proposals
              && forall k :: 0 <= k < |created| ==>
                   var p := after[|proposals| + k];
                   && p.generated && p.internalTodo && p.status == Proposed
                   && p.payloadBriefing == b.id && p.payloadKey == created[k].key && p.item == Some(created[k].id)
  {
    hide Generate, OpenKeys;
    var r := Generate(b.items, OpenKeys(b, proposals));
    if r.Done? { DraftsAre(b, r.created); }
  }

  // ---- Generating twice ----

  ghost predicate PlainId(b: Briefing) { b.id != "" && Strip(b.id) == b.id }

  lemma ActionableTrimmed(key: string)
    requires Actionable(key)
    ensures Strip(key) == key && key != ""
  {
    StripTrimmed(key);
  }

  lemma {:induction false} DraftsAre(b: Briefing, items: seq<Item>)
    ensures |AllDrafted(b, items)| == |items|
    ensures forall k :: 0 <= k < |items| ==> AllDrafted(b, items)[k] == Drafted(b, items[k])
  {
    if items != [] { DraftsAre(b, items[1..]); }
  }

  // A drafted proposal takes its item's key.
  lemma DraftTakes(b: Briefing, i: Item)
    requires PlainId(b) && Actionable(i.key)
    ensures IsOpen(Drafted(b, i)) && KeyTaken(b, Drafted(b, i)) == Some(i.key)
  {
    ActionableTrimmed(i.key);
  }

  lemma {:induction false} AllTakenCreatesNothing(items: seq<Item>, open: set<string>)
    requires forall k :: 0 <= k < |items| && Backed(items[k]) ==> items[k].key in open
    ensures Generate(items, open).Done? && Generate(items, open).created == []
  {
    if items != [] {
      hide Actionable;
      assert Backed(items[0]) ==> items[0].key in open;
      AllTakenCreatesNothing(items[1..], open);
    }
  }

  // After a generation every evidence-backed actionable item's key is taken.
  lemma AllTakenAfter(b: Briefing, proposals: seq<Proposal>, k: nat)
    requires PlainId(b) && Generate(b.items, OpenKeys(b, proposals)).Done? && k < |b.items| && Backed(b.items[k])
    ensures b.items[k].key in OpenKeys(b, Generated(b, proposals))
    decreases k
  {
    hide Actionable, KeyTaken, Strip;
    var open := OpenKeys(b, proposals);
    var after := Generated(b, proposals);
    var created := Generate(b.items, open).created;
    var key := b.items[k].key;
    DraftsAre(b, created);
    if key in open {
      var p :| p in proposals && IsOpen(p) && KeyTaken(b, p) == Some(key);
      assert p in after;
    } else if j :| 0 <= j < k && Backed(b.items[j]) && b.items[j].key == key {
      AllTakenAfter(b, proposals, j);
    } else {
      assert First(b.items, open, k);
      GeneratesDue(b.items, open);
      assert Due(b.items, open, b.items[k]);
      assert b.items[k] in created;
      var c :| 0 <= c < |created| && created[c] == b.items[k];
      assert after[|proposals| + c] == Drafted(b, b.items[k]);
      DraftTakes(b, b.items[k]);
    }
  }

  // Generating again from the same briefing creates nothing.
  lemma SecondGenerationCreatesNothing(b: Briefing, proposals: seq<Proposal>)
    requires PlainId(b) && Generate(b.items, OpenKeys(b, proposals)).Done?
    ensures var after := Generated(b, proposals);
            && Generate(b.items, OpenKeys(b, after)).Done? && Generate(b.items, OpenKeys(b, after)).created == []
            && Generated(b, after) == after
  {
    var after := Generated(b, proposals);
    forall k | 0 <= k < |b.items| && Backed(b.items[k]) ensures b.items[k].key in OpenKeys(b, after) {
      AllTakenAfter(b, proposals, k);
    }
    hide Backed, OpenKeys;
    AllTakenCreatesNothing(b.items, OpenKeys(b, after));
    assert after + [] == after;
  }

  // ---- Over every run ----

  datatype Step =
    | GenerateFrom(briefing: Briefing)
    | SetStatus(index: nat, status: Status)   // approve, reject, execute, fail
    | CreateOther(proposal: Proposal)         // any proposal a user or another service adds

  // A closed proposal is never opened again.
  predicate Allowed(proposals: seq<Proposal>, step: Step) {
    match step
    case GenerateFrom(_) => true
    case SetStatus(k, status) =>
      k < |proposals| && (IsOpen(proposals[k].(status := status)) ==> IsOpen(proposals[k]))
    case CreateOther(p) => !p.generated
  }

  function Next(proposals: seq<Proposal>, step: Step): seq<Proposal>
    requires Allowed(proposals, step)
  {
    match step
    case GenerateFrom(b) => Generated(b, proposals)
    case SetStatus(k, status) => proposals[k := proposals[k].(status := status)]
    case CreateOther(p) => proposals + [p]
  }

  // Two generated proposals for the same item that are both open.
  predicate Duplicates(p: Proposal, q: Proposal) {
    && p.generated && q.generated && IsOpen(p) && IsOpen(q)
    && p.payloadBriefing == q.payloadBriefing && p.payloadKey == q.payloadKey
  }

  ghost predicate Unique(proposals: seq<Proposal>) {
    && (forall i, j :: 0 <= i < j < |proposals| ==> !Duplicates(proposals[i], proposals[j]))
    && (forall i :: 0 <= i < |proposals| && proposals[i].generated ==> Actionable(proposals[i].payloadKey))
  }

  lemma {:induction false} CreatedDistinct(items: seq<Item>, open: set<string>)
    requires Generate(items, open).Done?
    ensures var c := Generate(items, open).created;
            && (forall k :: 0 <= k < |c| ==> c[k].key !in open && Actionable(c[k].key))
            && (forall j, k :: 0 <= j < k < |c| ==> c[j].key != c[k].key)
  {
    if items != [] {
      hide Actionable;
      var i := items[0];
      var creates := Actionable(i.key) && i.evidence > 0 && i.key !in open;
      CreatedDistinct(items[1..], if creates then open + {i.key} else open);
    }
  }

  lemma UniqueAppend(a: seq<Proposal>, b: seq<Proposal>)
    requires Unique(a) && Unique(b)
    requires forall i, j :: 0 <= i < |a| && 0 <= j < |b| ==> !Duplicates(a[i], b[j])
    ensures Unique(a + b)
  {
    hide Duplicates, Actionable;
  }

  lemma DraftsUnique(b: Briefing, items: seq<Item>)
    requires forall k :: 0 <= k < |items| ==> Actionable(items[k].key)
    requires forall j, k :: 0 <= j < k < |items| ==> items[j].key != items[k].key
    ensures Unique(AllDrafted(b, items))
  {
    hide Actionable;
    DraftsAre(b, items);
  }

  lemma GenerateKeepsUnique(b: Briefing, proposals: seq<Proposal>)
    requires Unique(proposals) && PlainId(b)
    ensures Unique(Generated(b, proposals))
  {
    var open := OpenKeys(b, proposals);
    if Generate(b.items, open).Done? {
      var created := Generate(b.items, open).created;
      CreatedDistinct(b.items, open);
      DraftsUnique(b, created);
      DraftsAre(b, created);
      hide Unique, Actionable, OpenKeys, Generate, Duplicates, PlainId;
      var drafts := AllDrafted(b, created);
      forall i, j | 0 <= i < |proposals| && 0 <= j < |drafts| ensures !Duplicates(proposals[i], drafts[j]) {
        OldDiffers(b, proposals, i, created[j]);
      }
      UniqueAppend(proposals, drafts);
    }
  }

  lemma OldDiffers(b: Briefing, proposals: seq<Proposal>, i: nat, c: Item)
    requires Unique(proposals) && PlainId(b) && i < |proposals| && c.key !in OpenKeys(b, proposals)
    ensures !Duplicates(proposals[i], Drafted(b, c))
  {
    var p := proposals[i];
    if p.generated && IsOpen(p) && p.payloadBriefing == b.id {
      ActionableTrimmed(p.payloadKey);
      assert KeyTaken(b, p) == Some(p.payloadKey);
      assert p.payloadKey in OpenKeys(b, proposals);
    }
  }

  ghost predicate CanRun(proposals: seq<Proposal>, steps: seq<Step>)
    decreases |steps|
  {
    steps != [] ==>
      && Allowed(proposals, steps[0]) && (steps[0].GenerateFrom? ==> PlainId(steps[0].briefing))
      && CanRun(Next(proposals, steps[0]), steps[1..])
  }

  function Run(proposals: seq<Proposal>, steps: seq<Step>): seq<Proposal>
    requires CanRun(proposals, steps)
    decreases |steps|
  {
    if steps == [] then proposals else Run(Next(proposals, steps[0]), steps[1..])
  }

  lemma StepKeepsUnique(proposals: seq<Proposal>, step: Step)
    requires Unique(proposals) && Allowed(proposals, step) && (step.GenerateFrom? ==> PlainId(step.briefing))
    ensures Unique(Next(proposals, step))
  {
    match step
    case GenerateFrom(b) => GenerateKeepsUnique(b, proposals);
    case SetStatus(k, status) =>
      hide Actionable;
      var after := Next(proposals, step);
      forall i, j | 0 <= i < j < |after| ensures !Duplicates(after[i], after[j]) {
        assert !Duplicates(proposals[i], proposals[j]);
      }
    case CreateOther(p) => hide Actionable;
  }

  // At most one generated proposal of each briefing item is open, at any time.
  lemma {:induction false} OneOpenPerItem(proposals: seq<Proposal>, steps: seq<Step>)
    requires Unique(proposals) && CanRun(proposals, steps)
    ensures Unique(Run(proposals, steps))
    decreases |steps|
  {
    if steps != [] {
      StepKeepsUnique(proposals, steps[0]);
      hide Unique, Next, Allowed;
      OneOpenPerItem(Next(proposals, steps[0]), steps[1..]);
    }
  }

  // ---- Overlapping generations ----

  // The table when two generations both read it before either writes.
  function Overlapped(proposals: seq<Proposal>, a: Briefing, b: Briefing): seq<Proposal>
    requires Generate(a.items, OpenKeys(a, proposals)).Done? && Generate(b.items, OpenKeys(b, proposals)).Done?
  {
    proposals + AllDrafted(a, Generate(a.items, OpenKeys(a, proposals)).created)
    + AllDrafted(b, Generate(b.items, OpenKeys(b, proposals)).created)
  }

  // A key with an evidence-backed actionable item and no open proposal.
  ghost predicate Wanted(b: Briefing, proposals: seq<Proposal>, key: string) {
    key !in OpenKeys(b, proposals) && exists k :: 0 <= k < |b.items| && Backed(b.items[k]) && b.items[k].key == key
  }

  lemma {:induction false} FirstOfKey(items: seq<Item>, open: set<string>, k: nat) returns (m: nat)
    requires k < |items| && Backed(items[k]) && items[k].key !in open
    ensures First(items, open, m) && items[m].key == items[k].key
    decreases k
  {
    hide Actionable;
    if j :| 0 <= j < k && Backed(items[j]) && items[j].key == items[k].key {
      m := FirstOfKey(items, open, j);
    } else {
      m := k;
    }
  }

  // A generation creates a proposal for exactly the wanted keys.
  lemma WantedIsCreated(b: Briefing, proposals: seq<Proposal>, key: string)
    requires Generate(b.items, OpenKeys(b, proposals)).Done?
    ensures var c := Generate(b.items, OpenKeys(b, proposals)).created;
            Wanted(b, proposals, key) <==> exists i :: 0 <= i < |c| && c[i].key == key
  {
    hide Backed, OpenKeys, Generate;
    var open := OpenKeys(b, proposals);
    var c := Generate(b.items, open).created;
    GeneratesDue(b.items, open);
    if Wanted(b, proposals, key) {
      var k :| 0 <= k < |b.items| && Backed(b.items[k]) && b.items[k].key == key;
      var m := FirstOfKey(b.items, open, k);
      assert Due(b.items, open, b.items[m]);
      assert b.items[m] in c;
    }
    if i :| 0 <= i < |c| && c[i].key == key {
      assert c[i] in c;
      assert Due(b.items, open, c[i]);
      var k :| First(b.items, open, k) && b.items[k] == c[i];
    }
  }

  // They are safe if and only if they are of different briefings or no key is
  // wanted in both.
  lemma OverlapUnique(proposals: seq<Proposal>, a: Briefing, b: Briefing)
    requires Unique(proposals) && PlainId(a) && PlainId(b)
    requires Generate(a.items, OpenKeys(a, proposals)).Done? && Generate(b.items, OpenKeys(b, proposals)).Done?
    ensures Unique(Overlapped(proposals, a, b))
            <==> a.id != b.id || forall key :: !(Wanted(a, proposals, key) && Wanted(b, proposals, key))
  {
    hide Actionable, OpenKeys, Generate, Wanted;
    var x, y := Generate(a.items, OpenKeys(a, proposals)).created, Generate(b.items, OpenKeys(b, proposals)).created;
    if a.id != b.id || forall key :: !(Wanted(a, proposals, key) && Wanted(b, proposals, key)) {
      forall i, j | a.id == b.id && 0 <= i < |x| && 0 <= j < |y| ensures x[i].key != y[j].key {
        WantedIsCreated(a, proposals, x[i].key);
        WantedIsCreated(b, proposals, x[i].key);
      }
      OverlapSafe(proposals, a, b);
    } else {
      var key :| Wanted(a, proposals, key) && Wanted(b, proposals, key);
      WantedIsCreated(a, proposals, key);
      WantedIsCreated(b, proposals, key);
      var i :| 0 <= i < |x| && x[i].key == key;
      var j :| 0 <= j < |y| && y[j].key == key;
      OverlapUnsafe(proposals, a, b, i, j);
    }
  }

  lemma OverlapUnsafe(proposals: seq<Proposal>, a: Briefing, b: Briefing, i: nat, j: nat)
    requires Generate(a.items, OpenKeys(a, proposals)).Done? && Generate(b.items, OpenKeys(b, proposals)).Done?
    requires var x, y := Generate(a.items, OpenKeys(a, proposals)).created, Generate(b.items, OpenKeys(b, proposals)).created;
             a.id == b.id && i < |x| && j < |y| && x[i].key == y[j].key
    ensures !Unique(Overlapped(proposals, a, b))
  {
    hide Actionable, OpenKeys, Generate;
    var x, y := Generate(a.items, OpenKeys(a, proposals)).created, Generate(b.items, OpenKeys(b, proposals)).created;
    DraftsAre(a, x);
    DraftsAre(b, y);
    var rows, n := Overlapped(proposals, a, b), |proposals|;
    assert rows[n + i] == Drafted(a, x[i]) && rows[n + |x| + j] == Drafted(b, y[j]);
    assert Duplicates(rows[n + i], rows[n + |x| + j]);
  }

  lemma OverlapSafe(proposals: seq<Proposal>, a: Briefing, b: Briefing)
    requires Unique(proposals) && PlainId(a) && PlainId(b)
    requires Generate(a.items, OpenKeys(a, proposals)).Done? && Generate(b.items, OpenKeys(b, proposals)).Done?
    requires var x, y := Generate(a.items, OpenKeys(a, proposals)).created, Generate(b.items, OpenKeys(b, proposals)).created;
             forall i, j :: a.id == b.id && 0 <= i < |x| && 0 <= j < |y| ==> x[i].key != y[j].key
    ensures Unique(Overlapped(proposals, a, b))
  {
    var x, y := Generate(a.items, OpenKeys(a, proposals)).created, Generate(b.items, OpenKeys(b, proposals)).created;
    var first, rows := Generated(a, proposals), Overlapped(proposals, a, b);
    GenerateKeepsUnique(a, proposals);
    CreatedDistinct(b.items, OpenKeys(b, proposals));
    DraftsAre(a, x);
    DraftsAre(b, y);
    assert first == proposals + AllDrafted(a, x);
    hide Actionable, OpenKeys, Generate, Generated, PlainId;
    var second := AllDrafted(b, y);
    forall i, j | 0 <= i < |first| && 0 <= j < |second| ensures !Duplicates(first[i], second[j]) {
      if i >= |proposals| {
        assert first[i] == Drafted(a, x[i - |proposals|]);
      } else {
        OldDiffers(b, proposals, i, y[j]);
      }
    }
    UniqueAppend(first, second);
  }

  // Of one briefing, overlapping generations are safe exactly if the key of
  // every evidence-backed actionable item is taken already.
  lemma StaleReadsDuplicate(proposals: seq<Proposal>, b: Briefing)
    requires Unique(proposals) && PlainId(b) && Generate(b.items, OpenKeys(b, proposals)).Done?
    ensures Unique(Overlapped(proposals, b, b))
            <==> forall k :: 0 <= k < |b.items| && Backed(b.items[k]) ==> b.items[k].key in OpenKeys(b, proposals)
  {
    OverlapUnique(proposals, b, b);
    hide Unique, Overlapped, Generate, OpenKeys, Backed;
    if k :| 0 <= k < |b.items| && Backed(b.items[k]) && b.items[k].key !in OpenKeys(b, proposals) {
      assert Wanted(b, proposals, b.items[k].key);
    } else {
      forall key ensures !Wanted(b, proposals, key) {}
    }
  }

  // For instance from an empty table, for one Jira item with evidence.
  lemma TwoClicks(i: Item)
    requires i.key == "jira-work-items" && i.evidence > 0 && i.acceptable
    ensures var b := Briefing("b", [i]);
            Generate(b.items, OpenKeys(b, [])).Done? && !Unique(Overlapped([], b, b))
  {
    var b := Briefing("b", [i]);
    assert OpenKeys(b, []) == {} && [i][1..] == [];
    assert Generate([], {} + {i.key}) == Done([], []);
    assert Generate([i], {}) == Done([i] + [], []);
    assert Strip("b") == "b" by { StripTrimmed("b"); }
    assert Backed(b.items[0]) && b.items[0].key !in OpenKeys(b, []);
    hide Overlapped, Generate, Strip, OpenKeys, Backed;
    StaleReadsDuplicate([], b);
  }
}
