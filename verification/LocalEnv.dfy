// The settings the bootstrap keeps in .env.local, and bootstrapping twice
// (scripts/bootstrap_local_workspace.py, lines 76-153 and 327-370).
module LocalEnv {
  import opened Options
  import opened Text
  import opened Lines
  import opened ManagedBlock

  const LOCAL_DEV_KEY: string := "local-dev-key"
  const PREFIX: string := "FOUNDEROS_"
  const APP_ENV: string := "APP_ENV"
  const API_BASE_URL: string := PREFIX + "API_BASE_URL"
  const DEV_KEY: string := PREFIX + "DEV_API_KEY"
  const API_KEYS: string := PREFIX + "API_KEYS"
  const ENCRYPTION_KEY: string := PREFIX + "SECRET_ENCRYPTION_KEY"
  const BROWSER_DEV_CONFIG: string := PREFIX + "ENABLE_BROWSER_DEV_CONFIG"
  const WORKSPACE_PATH: string := PREFIX + "LOCAL_WORKSPACE_PATH"
  const RAW_STORAGE_DIR: string := "RAW_STORAGE_DIR"
  const OBSIDIAN_BRIDGE: string := PREFIX + "ENABLE_OBSIDIAN_BRIDGE"
  const VAULT_NAME: string := PREFIX + "OBSIDIAN_VAULT_" + "NAME"
  const VAULT_PATH: string := PREFIX + "OBSIDIAN_VAULT_" + "PATH"
  const SYNC_MODE: string := PREFIX + "OBSIDIAN_SYNC_MODE"
  const LEGACY_KEY: string := "API_AUTH_KEY"

  // ---- Comma-separated lists ----

  // The list so far, extended by the stripped, nonblank values it does not hold.
  function Collect(out: seq<string>, values: seq<string>): seq<string>
    decreases |values|
  {
    if values == [] then out
    else
      var item := Strip(values[0]);
      Collect(if item == "" || item in out then out else out + [item], values[1..])
  }

  method MergeCsv(existing: string, additions: seq<string>) returns (r: string)
    ensures r == Join(Collect([], Split(existing, ',') + additions), ",")
  {
    hide Strip, Split;
    var out: seq<string> := [];
    var seen: set<string> := {};
    var values := Split(existing, ',') + additions;
    for i := 0 to |values|
      invariant Collect([], values) == Collect(out, values[i..])
      invariant forall x :: x in seen <==> x in out
    {
      assert values[i..][1..] == values[i + 1..];
      var item := Strip(values[i]);
      if item == "" || item in seen {
        continue;
      }
      seen := seen + {item};
      out := out + [item];
    }
    assert values[|values|..] == [];
    r := Join(out, ",");
  }

  // Stripped, nonblank and without repetition.
  ghost predicate Clean(items: seq<string>) {
    && (forall i :: 0 <= i < |items| ==> items[i] != "" && Strip(items[i]) == items[i])
    && (forall i, j :: 0 <= i < j < |items| ==> items[i] != items[j])
  }

  ghost predicate Covers(out: seq<string>, values: seq<string>) {
    forall i :: 0 <= i < |values| ==> Strip(values[i]) == "" || Strip(values[i]) in out
  }

  lemma StripStrip(s: string)
    ensures Strip(Strip(s)) == Strip(s)
  {
    StripTrims(s);
    StripTrimmed(Strip(s));
  }

  // Collecting keeps the list and its order, adds each new value once, and
  // adds nothing exactly when every value is blank or already listed.
  lemma {:induction false} CollectClean(out: seq<string>, values: seq<string>)
    requires Clean(out)
    ensures var r := Collect(out, values); Clean(r) && out <= r && Covers(r, values)
    ensures Collect(out, values) == out <==> Covers(out, values)
    decreases |values|
  {
    if values != [] {
      hide Strip;
      var item := Strip(values[0]);
      var next := if item == "" || item in out then out else out + [item];
      StripStrip(values[0]);
      CollectClean(next, values[1..]);
      var r := Collect(out, values);
      assert r == Collect(next, values[1..]);
      assert forall x :: x in next ==> x in r;
      forall i | 0 <= i < |values| ensures Strip(values[i]) == "" || Strip(values[i]) in r {
        if i > 0 { assert values[i] == values[1..][i - 1]; }
      }
      if Covers(out, values) {
        assert Covers(next, values[1..]) by { assert next == out; }
      } else if next == out {
        assert !Covers(out, values[1..]) by {
          if Covers(out, values[1..]) {
            forall i | 0 <= i < |values| ensures Strip(values[i]) == "" || Strip(values[i]) in out {
              if i > 0 { assert values[i] == values[1..][i - 1]; }
            }
          }
        }
      }
    }
  }

  // What a merge holds: what was listed, and the stripped values that are not blank.
  lemma {:induction false} CollectMembers(out: seq<string>, values: seq<string>, x: string)
    ensures x in Collect(out, values)
            <==> x in out || (x != "" && exists i :: 0 <= i < |values| && Strip(values[i]) == x)
    decreases |values|
  {
    if values != [] {
      hide Strip;
      var item, rest := Strip(values[0]), values[1..];
      CollectMembers(if item == "" || item in out then out else out + [item], rest, x);
      if i :| 0 <= i < |values| && Strip(values[i]) == x {
        if i > 0 { assert rest[i - 1] == values[i]; }
      }
      if i :| 0 <= i < |rest| && Strip(rest[i]) == x { assert values[i + 1] == rest[i]; }
    }
  }

  lemma {:induction false} CollectAppend(out: seq<string>, a: seq<string>, b: seq<string>)
    ensures Collect(out, a + b) == Collect(Collect(out, a), b)
    decreases |a|
  {
    if a == [] {
      assert a + b == b;
    } else {
      hide Strip;
      assert (a + b)[1..] == a[1..] + b;
      var item := Strip(a[0]);
      CollectAppend(if item == "" || item in out then out else out + [item], a[1..], b);
    }
  }

  lemma {:induction false} CollectOwn(out: seq<string>, items: seq<string>)
    requires Clean(out + items)
    ensures Collect(out, items) == out + items
    decreases |items|
  {
    if items == [] {
      assert out + items == out;
    } else {
      hide Strip;
      assert items[0] == (out + items)[|out|];
      forall k | 0 <= k < |out| ensures out[k] != items[0] {
        assert (out + items)[k] != (out + items)[|out|];
      }
      assert out + items == (out + [items[0]]) + items[1..];
      CollectOwn(out + [items[0]], items[1..]);
    }
  }

  // Every collected item was listed or is a stripped value; without commas in
  // the values there are none in the items.
  lemma {:induction false} CollectLacks(out: seq<string>, values: seq<string>, c: char)
    requires AllLack(out, c) && AllLack(values, c)
    ensures AllLack(Collect(out, values), c)
    decreases |values|
  {
    if values != [] {
      hide Strip, Lacks;
      assert Lacks(values[0], c);
      StripLacks(values[0], c);
      var item := Strip(values[0]);
      CollectLacks(if item == "" || item in out then out else out + [item], values[1..], c);
    }
  }

  // ---- The settings ----

  datatype Ambient = Ambient(encryptionKey: string, apiAuthKey: string)  // "" when not exported

  datatype Tokens = Tokens(devKey: string, encryptionKey: string)        // freshly drawn

  datatype Paths = Paths(workspace: string, vault: string, vaultName: string, rawStorage: string)

  function Get(m: map<string, string>, key: string): string { if key in m then m[key] else "" }

  function DevKey(existing: map<string, string>, drawn: Tokens): string {
    var key := Get(existing, DEV_KEY);
    if key != "" && key != LOCAL_DEV_KEY then key else drawn.devKey
  }

  predicate KeepsKey(value: string) { Strip(value) != "" && Strip(value) != LOCAL_DEV_KEY }

  function Kept(values: seq<string>): seq<string> {
    if values == [] then []
    else (if KeepsKey(values[0]) then [values[0]] else []) + Kept(values[1..])
  }

  function ApiKeys(listed: string, devKey: string): string {
    Join(Collect([], Split(Join(Kept(Split(listed, ',')), ","), ',') + [devKey]), ",")
  }

  function EncryptionKey(existing: map<string, string>, ambient: Ambient, drawn: Tokens): Outcome<string> {
    var stored := Get(existing, ENCRYPTION_KEY);
    var shell := Strip(ambient.encryptionKey);
    if stored != "" && shell != "" && stored != shell then Refused(EncryptionKeyDiffers)
    else if stored != "" then Done(stored)
    else if shell != "" then Done(shell)
    else
      var legacy := Get(existing, LEGACY_KEY);
      var shellLegacy := Strip(ambient.apiAuthKey);
      if legacy != "" && shellLegacy != "" && legacy != shellLegacy then Refused(LegacyKeyDiffers)
      else Done(if shellLegacy != "" then shellLegacy else if legacy != "" then legacy else drawn.encryptionKey)
  }

  function RawStorage(existing: map<string, string>, paths: Paths): string {
    if Get(existing, RAW_STORAGE_DIR) != "" then Get(existing, RAW_STORAGE_DIR) else paths.rawStorage
  }

  function Settings(devKey: string, apiKeys: string, encryptionKey: string, rawStorage: string, paths: Paths): seq<Setting> {
    [Setting(APP_ENV, "local"),
     Setting(API_BASE_URL, "http://127.0.0.1:8765"),
     Setting(DEV_KEY, devKey),
     Setting(API_KEYS, apiKeys),
     Setting(ENCRYPTION_KEY, encryptionKey),
     Setting(BROWSER_DEV_CONFIG, "false"),
     Setting(WORKSPACE_PATH, paths.workspace),
     Setting(RAW_STORAGE_DIR, rawStorage),
     Setting(OBSIDIAN_BRIDGE, "true"),
     Setting(VAULT_NAME, paths.vaultName),
     Setting(VAULT_PATH, paths.vault),
     Setting(SYNC_MODE, "manual")]
  }

  function ManagedEnvValues(existing: map<string, string>, ambient: Ambient, paths: Paths, drawn: Tokens): Outcome<seq<Setting>> {
    var devKey := DevKey(existing, drawn);
    match EncryptionKey(existing, ambient, drawn)
    case Refused(why) => Refused(why)
    case Done(key) => Done(Settings(devKey, ApiKeys(Get(existing, API_KEYS), devKey), key, RawStorage(existing, paths), paths))
  }

  // The new text of .env.local, or why the bootstrap stops before any change.
  function Bootstrapped(text: string, ambient: Ambient, paths: Paths, drawn: Tokens, bind: Binder): Outcome<string> {
    if !WellMarked(text) then Refused(InvalidMarkers)
    else
      match ManagedEnvValues(Parse(Split(text, '\n'), bind), ambient, paths, drawn)
      case Refused(why) => Refused(why)
      case Done(values) => Updated(text, values, bind)
  }

  // ---- The API keys on a second run ----

  // The keys a list keeps, cleaned.
  function Listed(listed: string): seq<string> { Collect([], Kept(Split(listed, ','))) }

  // The condition on the development key d under which the list is stable.
  ghost predicate AddsNoKeys(d: string, listed: seq<string>) {
    Lacks(d, ',') || forall i :: 0 <= i < |Split(d, ',')| ==>
      !KeepsKey(Split(d, ',')[i]) || Strip(Split(d, ',')[i]) in listed
  }

  lemma {:induction false} KeptAppend(a: seq<string>, b: seq<string>)
    ensures Kept(a + b) == Kept(a) + Kept(b)
  {
    if a == [] {
      assert a + b == b;
    } else {
      hide KeepsKey;
      assert (a + b)[1..] == a[1..] + b;
      KeptAppend(a[1..], b);
    }
  }

  lemma {:induction false} KeptAll(a: seq<string>)
    requires forall i :: 0 <= i < |a| ==> KeepsKey(a[i])
    ensures Kept(a) == a
  {
    if a != [] { hide KeepsKey; KeptAll(a[1..]); }
  }

  lemma {:induction false} KeptIs(a: seq<string>)
    ensures forall x :: x in Kept(a) <==> x in a && KeepsKey(x)
  {
    if a != [] {
      hide KeepsKey;
      KeptIs(a[1..]);
      assert a == [a[0]] + a[1..];
    }
  }

  lemma KeptFacts(a: seq<string>, c: char)
    requires AllLack(a, c)
    ensures AllLack(Kept(a), c) && forall i :: 0 <= i < |Kept(a)| ==> KeepsKey(Kept(a)[i])
  {
    hide KeepsKey, Lacks;
    KeptIs(a);
    forall i | 0 <= i < |Kept(a)| ensures KeepsKey(Kept(a)[i]) && Lacks(Kept(a)[i], c) {
      assert Kept(a)[i] in a;
    }
  }

  lemma NotAmong(items: seq<string>, d: string, c: char)
    requires AllLack(items, c) && !Lacks(d, c)
    ensures d !in items
  {
  }

  // Splitting a joined list gives the list back, up to a blank for the empty one.
  lemma CollectJoined(items: seq<string>, more: seq<string>)
    requires AllLack(items, ',')
    ensures Collect([], Split(Join(items, ","), ',') + more) == Collect(Collect([], items), more)
  {
    hide Strip;
    CollectAppend([], Split(Join(items, ","), ','), more);
    if items == [] {
      assert Strip("") == "" by { StripTrimmed(""); }
      assert Split("", ',') == [""] && [""][1..] == [];
      assert Collect([], [""]) == Collect([], []);
    } else {
      SplitJoin(items, ',');
    }
  }

  // One merge: the kept keys, then the development key unless it is listed.
  lemma ApiKeysAre(listed: string, devKey: string)
    ensures var p := Listed(listed); var d := Strip(devKey);
            && Clean(p) && AllLack(p, ',') && (forall i :: 0 <= i < |p| ==> KeepsKey(p[i]))
            && ApiKeys(listed, devKey) == Join(if d == "" || d in p then p else p + [d], ",")
  {
    hide Strip, Split, Join, Kept, Lacks, KeepsKey;
    SplitParts(listed, ',');
    KeptFacts(Split(listed, ','), ',');
    var kept := Kept(Split(listed, ','));
    CollectJoined(kept, [devKey]);
    assert Clean([]);
    CollectClean([], kept);
    CollectLacks([], kept, ',');
    CollectKeeps([], kept);
    var p := Listed(listed);
    assert [devKey][1..] == [];
  }

  // The keys kept of a list: its stripped parts but for blanks and the default key.
  lemma ListedAre(listed: string, x: string)
    ensures x in Listed(listed)
            <==> x != "" && x != "local-dev-key" && exists part :: part in Split(listed, ',') && Strip(part) == x
  {
    hide Strip, Split, Kept;
    var parts := Split(listed, ',');
    var kept := Kept(parts);
    CollectMembers([], kept, x);
    KeptIs(parts);
    if x in Listed(listed) {
      var i :| 0 <= i < |kept| && Strip(kept[i]) == x;
      assert kept[i] in kept;
    }
    if part :| part in parts && Strip(part) == x && x != "" && x != LOCAL_DEV_KEY {
      assert part in kept;
      var i :| 0 <= i < |kept| && kept[i] == part;
    }
  }

  lemma {:induction false} CollectKeeps(out: seq<string>, values: seq<string>)
    requires forall i :: 0 <= i < |out| ==> KeepsKey(out[i])
    requires forall i :: 0 <= i < |values| ==> KeepsKey(values[i])
    ensures forall i :: 0 <= i < |Collect(out, values)| ==> KeepsKey(Collect(out, values)[i])
    decreases |values|
  {
    if values != [] {
      assert KeepsKey(values[0]);
      StripStrip(values[0]);
      hide Strip;
      var item := Strip(values[0]);
      CollectKeeps(if item == "" || item in out then out else out + [item], values[1..]);
    }
  }

  // The kept keys of a list that was just written.
  lemma ListedSame(p: seq<string>)
    requires Clean(p) && AllLack(p, ',') && forall i :: 0 <= i < |p| ==> KeepsKey(p[i])
    ensures Listed(Join(p, ",")) == p
  {
    hide Strip, Lacks, KeepsKey, Clean;
    assert [] + p == p;
    CollectOwn([], p);
    if p == [] {
      BlankDropped();
    } else {
      SplitJoin(p, ',');
      KeptAll(p);
    }
  }

  lemma ListedExtended(p: seq<string>, d: string)
    requires Clean(p) && AllLack(p, ',') && forall i :: 0 <= i < |p| ==> KeepsKey(p[i])
    ensures Listed(Join(p + [d], ",")) == Collect(p, Kept(Split(d, ',')))
  {
    hide Strip, Lacks, KeepsKey, Clean, Split, Join;
    if p == [] {
      assert p + [d] == [d] && Join([d], ",") == d by { JoinOne(d); }
    } else {
      assert [] + p == p;
      SplitJoined(p, d);
      KeptAppend(p, Split(d, ','));
      KeptAll(p);
      CollectAppend([], p, Kept(Split(d, ',')));
      CollectOwn([], p);
    }
  }

  lemma JoinOne(d: string)
    ensures Join([d], ",") == d
  {
  }

  lemma BlankDropped()
    ensures Kept(Split("", ',')) == []
  {
    StripTrimmed("");
    assert [""][1..] == [];
  }

  lemma {:induction false} SplitJoined(p: seq<string>, d: string)
    requires p != [] && AllLack(p, ',')
    ensures Split(Join(p + [d], ","), ',') == p + Split(d, ',')
  {
    hide Lacks, Split;
    assert Lacks(p[0], ',');
    SplitAt(p[0], ',', Join((p + [d])[1..], ","));
    if |p| == 1 {
      assert (p + [d])[1..] == [d];
    } else {
      assert (p + [d])[1..] == p[1..] + [d];
      SplitJoined(p[1..], d);
      assert p + Split(d, ',') == [p[0]] + (p[1..] + Split(d, ','));
    }
  }

  lemma JoinLonger(p: seq<string>, q: seq<string>, d: string)
    requires p <= q && p != q
    ensures |Join(q + [d], ",")| > |Join(p + [d], ",")|
  {
    JoinAppend(q, [d], ",");
    if p == [] {
      assert p + [d] == [d];
    } else {
      JoinAppend(p, [d], ",");
      JoinAppend(p, q[|p|..], ",");
      assert p + q[|p|..] == q;
    }
  }

  // Merging the written list again changes nothing exactly when the
  // development key does not break into keys that are not listed.
  lemma ApiKeysStable(listed: string, devKey: string)
    ensures ApiKeys(ApiKeys(listed, devKey), devKey) == ApiKeys(listed, devKey)
            <==> AddsNoKeys(Strip(devKey), Listed(listed))
  {
    hide Listed, Strip, Split, Join, Kept, KeepsKey;
    var p, d := Listed(listed), Strip(devKey);
    ApiKeysAre(listed, devKey);
    ListedSame(p);
    ListedExtended(p, d);
    StripStrip(devKey);
    if d == "" || d in p {
      assert Lacks(d, ',');
      ApiKeysAre(Join(p, ","), devKey);
    } else {
      var k := Join(p + [d], ",");
      ApiKeysAre(k, devKey);
      var q := Listed(k);
      SplitParts(d, ',');
      KeptFacts(Split(d, ','), ',');
      CollectClean(p, Kept(Split(d, ',')));
      KeptCovered(p, Split(d, ','));
      if Lacks(d, ',') {
        SplitWhole(d, ',');
        OneKept(p, d);
      } else {
        NotAmong(q, d, ',');
        if q != p { JoinLonger(p, q, d); }
      }
    }
  }

  lemma CommaKey()
    ensures Strip("a,b") == "a,b" && Split("a,b", ',') == ["a", "b"] && KeepsKey("a") && !Lacks("a,b", ',')
  {
    StripTrimmed("a,b");
    StripTrimmed("a");
    assert "a,b" == "a" + [','] + "b";
    SplitAt("a", ',', "b");
    SplitWhole("b", ',');
    assert "a,b"[1] == ',';
  }

  // A development key with a comma in it multiplies.
  lemma CommaKeyGrows()
    ensures ApiKeys(ApiKeys("", "a,b"), "a,b") != ApiKeys("", "a,b")
  {
    CommaKey();
    BlankDropped();
    assert Listed("") == [];
    hide ApiKeys, Listed, Split, Strip, KeepsKey, Lacks;
    ApiKeysStable("", "a,b");
    assert KeepsKey(Split("a,b", ',')[0]);
  }

  lemma OneKept(p: seq<string>, d: string)
    requires d != "" && Strip(d) == d && d !in p
    ensures Collect(p, Kept([d])) == if KeepsKey(d) then p + [d] else p
  {
    hide Strip;
    assert [d][1..] == [] && Kept([]) == [];
  }

  lemma KeptCovered(p: seq<string>, parts: seq<string>)
    requires AllLack(parts, ',')
    ensures Covers(p, Kept(parts)) <==> forall i :: 0 <= i < |parts| ==> !KeepsKey(parts[i]) || Strip(parts[i]) in p
  {
    KeptIs(parts);
    hide Strip, Kept, Lacks;
    if Covers(p, Kept(parts)) {
      forall i | 0 <= i < |parts| && KeepsKey(parts[i]) ensures Strip(parts[i]) in p {
        assert parts[i] in Kept(parts);
      }
    }
    if forall i :: 0 <= i < |parts| ==> !KeepsKey(parts[i]) || Strip(parts[i]) in p {
      forall k | 0 <= k < |Kept(parts)| ensures Strip(Kept(parts)[k]) in p {
        assert Kept(parts)[k] in parts;
        var i :| 0 <= i < |parts| && parts[i] == Kept(parts)[k];
      }
    }
  }

  // ---- What the written text parses to ----

  // Blank lines and comments bind nothing.
  ghost predicate Quiet(bind: Binder) { forall l: string :: (l == "" || l[0] == '#') ==> bind(l) == None }

  ghost predicate Named(values: seq<Setting>) {
    && (forall i :: 0 <= i < |values| ==> Lacks(values[i].key, '\n'))
    && (forall i, j :: 0 <= i < j < |values| ==> values[i].key != values[j].key)
  }

  lemma {:induction false} ParseAppend(a: seq<string>, b: seq<string>, bind: Binder)
    ensures Parse(a + b, bind) == Parse(a, bind) + Parse(b, bind)
    decreases |b|
  {
    if b == [] {
      assert a + b == a;
    } else {
      var n := |b| - 1;
      assert (a + b)[..|a + b| - 1] == a + b[..n] && (a + b)[|a + b| - 1] == b[n];
      ParseAppend(a, b[..n], bind);
      var m, rest := Parse(a, bind), Parse(b[..n], bind);
      if bind(b[n]).Some? {
        var last := bind(b[n]).value;
        assert m + rest[last.key := last.value] == (m + rest)[last.key := last.value];
      }
    }
  }

  // No control character, and beyond the printable ones only those of s.
  ghost predicate Escaped(e: string, s: string) {
    forall i :: 0 <= i < |e| ==> ' ' <= e[i] && (e[i] <= '~' || e[i] in s)
  }

  lemma EscapeCharPlain(c: char)
    ensures Escaped(EscapeChar(c), [c])
  {
  }

  lemma EscapedConcat(d: string, s: string, e: string, t: string)
    requires Escaped(d, s) && Escaped(e, t)
    ensures Escaped(d + e, s + t)
  {
  }

  lemma {:induction false} EscapePlain(s: string)
    ensures Escaped(Escape(s), s)
  {
    if s != [] {
      hide EscapeChar, Escaped;
      EscapeCharPlain(s[0]);
      EscapePlain(s[1..]);
      EscapedConcat(EscapeChar(s[0]), [s[0]], Escape(s[1..]), s[1..]);
      assert s == [s[0]] + s[1..];
    } else {
      assert Escape(s) == [];
    }
  }

  lemma EscapeLacks(s: string)
    ensures Lacks(Escape(s), '\n')
  {
    EscapePlain(s);
  }

  lemma LineIs(s: Setting)
    ensures Line(s) == s.key + ("=\"" + (Escape(s.value) + "\""))
  {
  }

  lemma LineLacks(s: Setting)
    requires Lacks(s.key, '\n')
    ensures Lacks(Line(s), '\n')
  {
    hide Line, Escape;
    LineIs(s);
    EscapeLacks(s.value);
    assert Lacks("=\"", '\n') && Lacks("\"", '\n');
    ConcatLacks(Escape(s.value), "\"", '\n');
    ConcatLacks("=\"", Escape(s.value) + "\"", '\n');
    ConcatLacks(s.key, "=\"" + (Escape(s.value) + "\""), '\n');
  }

  lemma ConcatLacks(a: string, b: string, c: char)
    requires Lacks(a, c) && Lacks(b, c)
    ensures Lacks(a + b, c)
  {
  }

  lemma {:induction false} LinesLack(values: seq<Setting>)
    requires Named(values)
    ensures AllLack(LinesOf(values), '\n') && |LinesOf(values)| == |values|
  {
    if values != [] {
      LineLacks(values[0]);
      hide Line, Lacks;
      assert Named(values[1..]);
      LinesLack(values[1..]);
    }
  }

  // A line that survives the round-trip check binds its setting.
  lemma StableBinds(s: Setting, bind: Binder)
    requires Quiet(bind) && Stable(s, bind) && Lacks(s.key, '\n')
    ensures bind(Line(s)) == Some(s)
  {
    hide Line, Split;
    LineLacks(s);
    assert Line(s) + "\n" == Line(s) + ['\n'] + "";
    SplitAt(Line(s), '\n', "");
    SplitWhole("", '\n');
    var two := [Line(s), ""];
    assert [Line(s)] + [""] == two;
    assert two[..1] == [Line(s)] && [Line(s)][..0] == [];
    assert Parse(two, bind) == Parse([Line(s)], bind);
  }

  // Every managed setting reads back, whatever order the lines are in.
  lemma {:induction false} ParseLines(values: seq<Setting>, bind: Binder)
    requires Quiet(bind) && AllStable(values, bind) && Named(values)
    ensures forall i :: 0 <= i < |values| ==> Get(Parse(LinesOf(values), bind), values[i].key) == values[i].value
    ensures forall i :: 0 <= i < |values| ==> values[i].key in Parse(LinesOf(values), bind)
  {
    if values != [] {
      hide Line, Stable, Quiet;
      var n := |values| - 1;
      var init, last := values[..n], values[n];
      assert init + [last] == values;
      LinesOfAppend(init, last);
      LinesLack(init);
      StableBinds(last, bind);
      ParseLines(init, bind);
      var lines := LinesOf(values);
      assert lines[..|lines| - 1] == LinesOf(init) && lines[|lines| - 1] == Line(last);
      var before, m := Parse(LinesOf(init), bind), Parse(lines, bind);
      assert m == before[last.key := last.value];
      hide Parse, LinesOf, AllStable;
      forall i | 0 <= i < |values| ensures values[i].key in m && Get(m, values[i].key) == values[i].value {
        if i < n { assert init[i] == values[i] && values[i].key != values[n].key; }
      }
    }
  }

  // The newline-separated parts of an updated text.
  lemma UpdatedParts(base: string, values: seq<Setting>)
    requires Named(values)
    ensures Split(Around(base, Block(values)), '\n')
            == Above(base) + ([MANAGED_START] + LinesOf(values) + [MANAGED_END]) + [""]
  {
    hide Split, Join, Lacks, MANAGED_START, MANAGED_END, LinesOf;
    var block := [MANAGED_START] + LinesOf(values) + [MANAGED_END];
    MarkerFacts();
    LinesLack(values);
    MarkersLack();
    JoinAppend(block, [""], "\n");
    JoinBlank();
    SplitParts(base, '\n');
    var above := Above(base);
    assert AllLack([""], '\n') by { assert Lacks("", '\n') by { BlankLacks(); } }
    var parts := above + block + [""];
    if base == "" {
      assert parts == block + [""];
    } else {
      AboveJoined(base);
      JoinAppend(above, block + [""], "\n");
      assert above + (block + [""]) == parts;
      hide Around;
      AroundIs(base, Block(values));
      assert base + "\n" + "\n" + (Block(values) + "\n") == (base + "\n") + ("\n" + (Block(values) + "\n"));
    }
    SplitJoin(parts, '\n');
  }

  lemma AboveJoined(base: string)
    requires base != ""
    ensures Join(Above(base), "\n") == base + "\n"
  {
    JoinSplit(base, '\n');
    JoinAppend(Split(base, '\n'), [""], "\n");
    assert base + "\n" + "" == base + "\n";
  }

  lemma JoinBlank()
    ensures Join([""], "\n") == "" && forall s: string :: s + "" == s
  {
  }

  lemma BlankLacks()
    ensures Lacks("", '\n')
  {
  }

  lemma MarkersLack()
    ensures Lacks(MANAGED_START, '\n') && Lacks(MANAGED_END, '\n')
  {
    MarkerFacts();
  }

  // The managed settings win over whatever else the text binds.
  lemma ManagedWin(text: string, values: seq<Setting>, bind: Binder)
    requires Quiet(bind) && Named(values) && Updated(text, values, bind).Done?
    ensures var m := Parse(Split(Updated(text, values, bind).value, '\n'), bind);
            forall i :: 0 <= i < |values| ==> Get(m, values[i].key) == values[i].value
  {
    hide WellMarked, Outside, RStrip, Join, Block, Around, Split, LinesOf, MANAGED_START, MANAGED_END, Above;
    var base := Stripped(text).value;
    var lines := LinesOf(values);
    var block := [MANAGED_START] + lines + [MANAGED_END];
    UpdatedParts(base, values);
    ParseAppend(Above(base) + block, [""], bind);
    ParseAppend(Above(base), block, bind);
    ParseAppend([MANAGED_START] + lines, [MANAGED_END], bind);
    ParseAppend([MANAGED_START], lines, bind);
    ParseLines(values, bind);
    MarkerFacts();
    QuietOne(MANAGED_END, bind);
    QuietOne("", bind);
  }

  lemma QuietOne(line: string, bind: Binder)
    requires Quiet(bind) && (line == "" || line[0] == '#')
    ensures Parse([line], bind) == map[]
  {
    assert [line][..0] == [];
  }

  // ---- Bootstrapping twice ----

  // Line breaks beyond the control characters, which JSON leaves as they are.
  ghost predicate OnlyControlBreaks(s: string) { forall i :: 0 <= i < |s| && IsBreak(s[i]) ==> s[i] < ' ' }

  ghost predicate PlainSetting(s: Setting) {
    s.key != "" && s.key[0] != '#' && Printable(s.key) && !IsSpace(s.key[0]) && OnlyControlBreaks(s.value)
  }

  lemma PlainLine(s: Setting)
    requires PlainSetting(s)
    ensures NoBreaks(Line(s)) && !IsMarker(Line(s))
  {
    PlainParts(s);
    hide Line, Escape, Printable, OnlyControlBreaks, IsMarker, IsSpace, IsBreak, Strip;
    LineIs(s);
    var line := Line(s);
    PlainEnds(line);
    assert line[0] == s.key[0] && line[|line| - 1] == '"';
  }

  lemma PlainParts(s: Setting)
    requires PlainSetting(s)
    ensures NoBreaks(s.key) && NoBreaks("=\"") && NoBreaks(Escape(s.value) + "\"")
  {
    hide Escape;
    EscapePlain(s.value);
  }

  lemma PlainEnds(line: string)
    requires line != [] ==> !IsSpace(line[0]) && line[0] != '#' && line[|line| - 1] == '"'
    ensures !IsMarker(line)
  {
    StripTrimmed(line);
    hide Strip, MANAGED_START, MANAGED_END;
    MarkerFacts();
  }

  // Values without line breaks other than control characters leave the block
  // well marked.
  lemma {:induction false} PlainInner(values: seq<Setting>)
    requires forall i :: 0 <= i < |values| ==> PlainSetting(values[i])
    ensures Inner(values) == LinesOf(values) && Unmarked(Inner(values))
  {
    if values != [] {
      PlainLine(values[0]);
      hide PlainSetting, Line, IsMarker, NoBreaks;
      PlainInner(values[1..]);
      var line := Line(values[0]);
      assert LinesOf(values) == [line] + LinesOf(values[1..]);
      TerminatedAppend([line], LinesOf(values[1..]));
      OneLine(line);
    }
  }

  lemma KeyLengths()
    ensures |APP_ENV| == 7 && |API_BASE_URL| == 22 && |DEV_KEY| == 21 && |API_KEYS| == 18
    ensures |ENCRYPTION_KEY| == 31 && |BROWSER_DEV_CONFIG| == 35 && |WORKSPACE_PATH| == 30 && |RAW_STORAGE_DIR| == 15
    ensures |OBSIDIAN_BRIDGE| == 32 && |VAULT_NAME| == |VAULT_PATH| == 29 && |SYNC_MODE| == 28
    ensures VAULT_NAME[25] != VAULT_PATH[25]
  {
  }

  lemma ShortKeysPrintable()
    ensures Printable(APP_ENV) && Printable(API_BASE_URL) && Printable(DEV_KEY) && Printable(API_KEYS)
    ensures Printable(RAW_STORAGE_DIR)
  {
  }

  lemma VaultKeysPrintable()
    ensures Printable(VAULT_NAME) && Printable(VAULT_PATH) && Printable(SYNC_MODE)
  {
  }

  lemma LongKeysPrintable()
    ensures Printable(ENCRYPTION_KEY) && Printable(BROWSER_DEV_CONFIG) && Printable(WORKSPACE_PATH)
    ensures Printable(OBSIDIAN_BRIDGE)
  {
  }

  lemma SettingsNamed(d: string, a: string, e: string, r: string, paths: Paths)
    ensures Named(Settings(d, a, e, r, paths))
  {
    hide APP_ENV, API_BASE_URL, DEV_KEY, API_KEYS, ENCRYPTION_KEY, BROWSER_DEV_CONFIG, WORKSPACE_PATH, RAW_STORAGE_DIR;
    hide OBSIDIAN_BRIDGE, VAULT_NAME, VAULT_PATH, SYNC_MODE;
    KeyLengths();
    ShortKeysPrintable();
    VaultKeysPrintable();
    LongKeysPrintable();
  }

  // ---- A value that breaks the markers ----

  const SEPARATOR: char := '\U{2028}'

  // A path with the end marker on a line of its own.
  const SEPARATED: string := "/" + [SEPARATOR] + MANAGED_END + [SEPARATOR]

  function OnlyBinds(s: Setting): Binder { line => if line == Line(s) then Some(s) else None }

  predicate Verbatim(c: char) { ' ' <= c && c != '"' && c != '\\' }

  lemma {:induction false} EscapeVerbatim(s: string)
    requires forall i :: 0 <= i < |s| ==> Verbatim(s[i])
    ensures Escape(s) == s
  {
    if s != [] {
      assert Verbatim(s[0]);
      EscapeVerbatim(s[1..]);
      assert [s[0]] + s[1..] == s;
    }
  }

  lemma MarkerVerbatim()
    ensures forall i :: 0 <= i < |OWNER| ==> Verbatim(OWNER[i])
    ensures forall i :: 0 <= i < |SEPARATED| ==> Verbatim(SEPARATED[i])
  {
    OwnerVerbatim();
    hide OWNER;
  }

  lemma OwnerVerbatim()
    ensures forall i :: 0 <= i < |OWNER| ==> Verbatim(OWNER[i])
  {
  }

  // A line that binds its setting survives the round-trip check.
  lemma BindsStable(s: Setting, bind: Binder)
    requires Quiet(bind) && bind(Line(s)) == Some(s) && Lacks(s.key, '\n')
    ensures Stable(s, bind)
  {
    hide Line, Split;
    LineLacks(s);
    assert Line(s) + "\n" == Line(s) + ['\n'] + "";
    SplitAt(Line(s), '\n', "");
    SplitWhole("", '\n');
    var two := [Line(s), ""];
    assert [Line(s)] + [""] == two;
    assert two[..1] == [Line(s)] && [Line(s)][..0] == [];
    assert Parse(two, bind) == Parse([Line(s)], bind);
  }

  lemma Reshape(k: string, m: string, c: char)
    ensures k + ("=\"" + (("/" + [c] + m + [c]) + "\"")) + "\n" + "" == (k + "=\"/") + [c] + m + [c] + "\"\n"
  {
    var v, z := "/" + [c] + m + [c], "\"\n";
    assert k + ("=\"" + (v + "\"")) + "\n" + "" == k + "=\"" + v + z;
    assert k + "=\"" + v == (k + "=\"/") + [c] + m + [c];
  }

  lemma SeparatedLine(key: string)
    ensures Terminated(LinesOf([Setting(key, SEPARATED)]))
            == (key + "=\"/") + [SEPARATOR] + MANAGED_END + [SEPARATOR] + "\"\n"
  {
    var s := Setting(key, SEPARATED);
    MarkerVerbatim();
    EscapeVerbatim(SEPARATED);
    LineIs(s);
    hide Escape, MANAGED_END, Line;
    assert LinesOf([s]) == [Line(s)] + LinesOf([s][1..]) && LinesOf([]) == [];
    Reshape(key, MANAGED_END, SEPARATOR);
  }

  lemma SeparatedInner(key: string)
    ensures MANAGED_END in Inner([Setting(key, SEPARATED)])
  {
    hide SEPARATED, MANAGED_END, MANAGED_START, SplitLines, LinesOf, Terminated;
    MarkerFacts();
    SeparatedLine(key);
    LineBetween(key + "=\"/", SEPARATOR, MANAGED_END, "\"\n");
  }

  // With this value as the storage directory the setting survives its round
  // trip, and yet the text it is written to has malformed markers.
  lemma SeparatorBreaksMarkers()
    ensures var s := Setting(RAW_STORAGE_DIR, SEPARATED);
            var u := Updated("", [s], OnlyBinds(s));
            Quiet(OnlyBinds(s)) && Stable(s, OnlyBinds(s)) && u.Done? && !WellMarked(u.value)
  {
    var s := Setting(RAW_STORAGE_DIR, SEPARATED);
    var bind := OnlyBinds(s);
    assert Line(s)[0] == 'R' by { assert RAW_STORAGE_DIR[0] == 'R'; }
    assert Quiet(bind);
    ShortKeysPrintable();
    assert Lacks(s.key, '\n');
    hide Line, SEPARATED, RAW_STORAGE_DIR, Quiet, Stable, WellMarked, Inner, IsMarker, MANAGED_START, MANAGED_END;
    BindsStable(s, bind);
    EmptyWellMarked();
    SeparatedInner(s.key);
    MarkerFacts();
    StripUpdated("", [s], bind);
    var k :| 0 <= k < |Inner([s])| && Inner([s])[k] == MANAGED_END;
    assert !Unmarked(Inner([s]));
  }

  lemma EmptyWellMarked()
    ensures WellMarked("")
  {
  }

  // The settings a run manages, when it gets that far.
  function Managed(text: string, ambient: Ambient, paths: Paths, drawn: Tokens, bind: Binder): Outcome<seq<Setting>> {
    ManagedEnvValues(Parse(Split(text, '\n'), bind), ambient, paths, drawn)
  }

  // A stored encryption key is kept or the run stops; it is never replaced.
  lemma StoredKeyKept(text: string, ambient: Ambient, paths: Paths, drawn: Tokens, bind: Binder)
    requires Quiet(bind)
    ensures var r := Bootstrapped(text, ambient, paths, drawn, bind);
            r.Done? && Get(Parse(Split(text, '\n'), bind), ENCRYPTION_KEY) != "" ==>
              Get(Parse(Split(r.value, '\n'), bind), ENCRYPTION_KEY) == Get(Parse(Split(text, '\n'), bind), ENCRYPTION_KEY)
  {
    hide Parse, Split, DEV_KEY, API_KEYS, ENCRYPTION_KEY, RAW_STORAGE_DIR, LEGACY_KEY, DevKey, ApiKeys, RawStorage, Settings;
    hide Quiet, Updated, WellMarked, Strip;
    if Bootstrapped(text, ambient, paths, drawn, bind).Refused? { return; }
    var existing := Parse(Split(text, '\n'), bind);
    var d, r := DevKey(existing, drawn), RawStorage(existing, paths);
    SettingsRead(text, d, ApiKeys(Get(existing, API_KEYS), d), EncryptionKey(existing, ambient, drawn).value, r, paths, bind);
  }

  // What each key of a written text reads back as.
  lemma SettingsRead(text: string, d: string, a: string, e: string, r: string, paths: Paths, bind: Binder)
    requires Quiet(bind)
    ensures Updated(text, Settings(d, a, e, r, paths), bind).Done? ==>
              var m := Parse(Split(Updated(text, Settings(d, a, e, r, paths), bind).value, '\n'), bind);
              && Get(m, DEV_KEY) == d && Get(m, API_KEYS) == a && Get(m, ENCRYPTION_KEY) == e && Get(m, RAW_STORAGE_DIR) == r
              && Get(m, WORKSPACE_PATH) == paths.workspace
              && Get(m, VAULT_NAME) == paths.vaultName && Get(m, VAULT_PATH) == paths.vault
              && Get(m, APP_ENV) == "local" && Get(m, API_BASE_URL) == "http://127.0.0.1:8765" && Get(m, SYNC_MODE) == "manual"
              && Get(m, BROWSER_DEV_CONFIG) == "false" && Get(m, OBSIDIAN_BRIDGE) == "true"
  {
    hide Updated, Parse, Split, DEV_KEY, API_KEYS, ENCRYPTION_KEY, RAW_STORAGE_DIR, Quiet, Named;
    hide APP_ENV, API_BASE_URL, BROWSER_DEV_CONFIG, WORKSPACE_PATH, OBSIDIAN_BRIDGE, VAULT_NAME, VAULT_PATH, SYNC_MODE;
    if Updated(text, Settings(d, a, e, r, paths), bind).Refused? { return; }
    var values := Settings(d, a, e, r, paths);
    SettingsNamed(d, a, e, r, paths);
    ManagedWin(text, values, bind);
    assert values[0].key == APP_ENV && values[1].key == API_BASE_URL;
    assert values[2] == Setting(DEV_KEY, d) && values[3] == Setting(API_KEYS, a);
    assert values[4] == Setting(ENCRYPTION_KEY, e) && values[7] == Setting(RAW_STORAGE_DIR, r);
    assert values[5].key == BROWSER_DEV_CONFIG && values[6] == Setting(WORKSPACE_PATH, paths.workspace);
    assert values[8].key == OBSIDIAN_BRIDGE && values[9] == Setting(VAULT_NAME, paths.vaultName);
    assert values[10] == Setting(VAULT_PATH, paths.vault) && values[11].key == SYNC_MODE;
  }

  // The first of the values that is there.
  function FirstOf(values: seq<string>): string {
    if values == [] then "" else if values[0] != "" then values[0] else FirstOf(values[1..])
  }

  lemma FirstOfStep(value: string, rest: seq<string>)
    ensures FirstOf([value] + rest) == if value != "" then value else FirstOf(rest)
    ensures rest == [] ==> FirstOf([value]) == value
  {
    assert ([value] + rest)[1..] == rest;
    if rest == [] { assert [value] + rest == [value]; }
  }

  // The encryption key is the stored one, else the exported one, else the
  // exported and then the stored predecessor, else the drawn one. A run stops
  // exactly when the one that counts is stored and exported with different values.
  lemma EncryptionKeyIs(existing: map<string, string>, ambient: Ambient, drawn: Tokens)
    ensures var stored, shell := Get(existing, ENCRYPTION_KEY), Strip(ambient.encryptionKey);
            var legacy, shellLegacy := Get(existing, LEGACY_KEY), Strip(ambient.apiAuthKey);
            var r := EncryptionKey(existing, ambient, drawn);
            && (r == Refused(EncryptionKeyDiffers) <==> "" !in {stored, shell} && stored != shell)
            && (r == Refused(LegacyKeyDiffers) <==>
                  stored == "" && shell == "" && "" !in {legacy, shellLegacy} && legacy != shellLegacy)
            && (r.Refused? ==> r.reason in {EncryptionKeyDiffers, LegacyKeyDiffers})
            && (r.Done? ==> r.value == FirstOf([stored, shell, shellLegacy, legacy, drawn.encryptionKey]))
  {
    hide Strip, ENCRYPTION_KEY, LEGACY_KEY, FirstOf;
    var stored, shell := Get(existing, ENCRYPTION_KEY), Strip(ambient.encryptionKey);
    var legacy, shellLegacy, last := Get(existing, LEGACY_KEY), Strip(ambient.apiAuthKey), drawn.encryptionKey;
    assert [stored, shell, shellLegacy, legacy, last] == [stored] + [shell, shellLegacy, legacy, last];
    assert [shell, shellLegacy, legacy, last] == [shell] + [shellLegacy, legacy, last];
    assert [shellLegacy, legacy, last] == [shellLegacy] + [legacy, last] && [legacy, last] == [legacy] + [last];
    FirstOfStep(stored, [shell, shellLegacy, legacy, last]);
    FirstOfStep(shell, [shellLegacy, legacy, last]);
    FirstOfStep(shellLegacy, [legacy, last]);
    FirstOfStep(legacy, [last]);
    FirstOfStep(last, []);
  }

  // The file a bootstrap writes, key by key.
  lemma BootstrapWrites(text: string, ambient: Ambient, paths: Paths, drawn: Tokens, bind: Binder)
    requires Quiet(bind)
    ensures var was, r := Parse(Split(text, '\n'), bind), Bootstrapped(text, ambient, paths, drawn, bind);
            r.Done? ==>
              var m := Parse(Split(r.value, '\n'), bind);
              && Get(m, APP_ENV) == "local" && Get(m, API_BASE_URL) == "http://127.0.0.1:8765" && Get(m, SYNC_MODE) == "manual"
              && Get(m, BROWSER_DEV_CONFIG) == "false" && Get(m, OBSIDIAN_BRIDGE) == "true"
              && Get(m, WORKSPACE_PATH) == paths.workspace
              && Get(m, VAULT_NAME) == paths.vaultName && Get(m, VAULT_PATH) == paths.vault
              && Get(m, RAW_STORAGE_DIR) == FirstOf([Get(was, RAW_STORAGE_DIR), paths.rawStorage])
              && Get(m, DEV_KEY) == (if Get(was, DEV_KEY) in {"", "local-dev-key"} then drawn.devKey else Get(was, DEV_KEY))
              && Get(m, ENCRYPTION_KEY) == FirstOf([Get(was, ENCRYPTION_KEY), Strip(ambient.encryptionKey), Strip(ambient.apiAuthKey),
                                                    Get(was, LEGACY_KEY), drawn.encryptionKey])
              && var p, d := Listed(Get(was, API_KEYS)), Strip(Get(m, DEV_KEY));
                 Get(m, API_KEYS) == Join(if d == "" || d in p then p else p + [d], ",")
  {
    hide Parse, Split, DEV_KEY, API_KEYS, ENCRYPTION_KEY, RAW_STORAGE_DIR, LEGACY_KEY, ApiKeys, Settings, FirstOf, Get;
    hide APP_ENV, API_BASE_URL, BROWSER_DEV_CONFIG, WORKSPACE_PATH, OBSIDIAN_BRIDGE, VAULT_NAME, VAULT_PATH, SYNC_MODE;
    hide Quiet, Updated, WellMarked, Strip, Join, Listed, EncryptionKey;
    if Bootstrapped(text, ambient, paths, drawn, bind).Refused? { return; }
    var was := Parse(Split(text, '\n'), bind);
    var d, r := DevKey(was, drawn), RawStorage(was, paths);
    RawStorageIs(was, paths);
    EncryptionKeyIs(was, ambient, drawn);
    ApiKeysAre(Get(was, API_KEYS), d);
    SettingsRead(text, d, ApiKeys(Get(was, API_KEYS), d), EncryptionKey(was, ambient, drawn).value, r, paths, bind);
  }

  lemma RawStorageIs(existing: map<string, string>, paths: Paths)
    ensures RawStorage(existing, paths) == FirstOf([Get(existing, RAW_STORAGE_DIR), paths.rawStorage])
  {
    hide FirstOf;
    assert [Get(existing, RAW_STORAGE_DIR), paths.rawStorage] == [Get(existing, RAW_STORAGE_DIR)] + [paths.rawStorage];
    FirstOfStep(Get(existing, RAW_STORAGE_DIR), [paths.rawStorage]);
    FirstOfStep(paths.rawStorage, []);
  }

  // Tokens as `secrets.token_urlsafe` draws them, and paths as `str(Path)` prints them.
  predicate Usable(drawn: Tokens, paths: Paths) {
    drawn.devKey != "" && drawn.devKey != LOCAL_DEV_KEY && drawn.encryptionKey != "" && paths.rawStorage != ""
  }

  // What the second run computes from the settings the first one wrote.
  lemma SecondValues(existing: map<string, string>, again: map<string, string>, ambient: Ambient,
                     paths: Paths, later: Paths, drawn: Tokens, redrawn: Tokens)
    requires ManagedEnvValues(existing, ambient, paths, drawn).Done? && Usable(drawn, paths)
    requires later == paths.(rawStorage := later.rawStorage)
    requires var d := DevKey(existing, drawn);
             && Get(again, DEV_KEY) == d && Get(again, API_KEYS) == ApiKeys(Get(existing, API_KEYS), d)
             && Get(again, ENCRYPTION_KEY) == EncryptionKey(existing, ambient, drawn).value
             && Get(again, RAW_STORAGE_DIR) == RawStorage(existing, paths)
    ensures var d := DevKey(existing, drawn); var k := ApiKeys(Get(existing, API_KEYS), d);
            ManagedEnvValues(again, ambient, later, redrawn)
            == Done(Settings(d, ApiKeys(k, d), EncryptionKey(existing, ambient, drawn).value, RawStorage(existing, paths), paths))
  {
    hide ApiKeys, Strip, DEV_KEY, API_KEYS, ENCRYPTION_KEY, RAW_STORAGE_DIR, LEGACY_KEY, LOCAL_DEV_KEY;
    assert DevKey(again, redrawn) == DevKey(existing, drawn);
    assert EncryptionKey(again, ambient, redrawn) == EncryptionKey(existing, ambient, drawn);
    assert RawStorage(again, later) == RawStorage(existing, paths);
  }

  // A second run, with the same exported variables but new tokens and perhaps
  // another default storage directory, leaves the text as it is exactly when
  // no line of a managed value is a marker and the development key does not
  // break into further API keys.
  lemma SecondBootstrap(text: string, ambient: Ambient, paths: Paths, later: Paths, drawn: Tokens, redrawn: Tokens, bind: Binder)
    requires Quiet(bind) && Usable(drawn, paths) && later == paths.(rawStorage := later.rawStorage)
    ensures var existing := Parse(Split(text, '\n'), bind);
            var first := Bootstrapped(text, ambient, paths, drawn, bind);
            first.Done? ==>
              (Bootstrapped(first.value, ambient, later, redrawn, bind) == first
               <==> && Unmarked(Inner(Managed(text, ambient, paths, drawn, bind).value))
                    && AddsNoKeys(Strip(DevKey(existing, drawn)), Listed(Get(existing, API_KEYS))))
  {
    hide Parse, Split, DEV_KEY, API_KEYS, ENCRYPTION_KEY, RAW_STORAGE_DIR, DevKey, ApiKeys, EncryptionKey, RawStorage, Settings;
    hide Quiet, Usable, Updated, WellMarked, Strip, AddsNoKeys, Inner, Unmarked, Listed;
    if Bootstrapped(text, ambient, paths, drawn, bind).Refused? { return; }
    var existing := Parse(Split(text, '\n'), bind);
    var d, r := DevKey(existing, drawn), RawStorage(existing, paths);
    var e := EncryptionKey(existing, ambient, drawn).value;
    var k := ApiKeys(Get(existing, API_KEYS), d);
    var values, next := Settings(d, k, e, r, paths), Settings(d, ApiKeys(k, d), e, r, paths);
    var u := Updated(text, values, bind).value;
    SettingsRead(text, d, k, e, r, paths, bind);
    SecondValues(existing, Parse(Split(u, '\n'), bind), ambient, paths, later, drawn, redrawn);
    assert Managed(u, ambient, later, redrawn, bind) == Done(next);
    ApiKeysStable(Get(existing, API_KEYS), d);
    StripUpdated(text, values, bind);
    if Unmarked(Inner(values)) {
      if ApiKeys(k, d) == k {
        UpdateTwice(text, values, bind);
      } else if Updated(u, next, bind).Done? {
        SettingsRead(u, d, ApiKeys(k, d), e, r, paths, bind);
      }
    }
  }

  lemma UpdateTwice(text: string, values: seq<Setting>, bind: Binder)
    requires Updated(text, values, bind).Done? && Unmarked(Inner(values))
    ensures Updated(Updated(text, values, bind).value, values, bind) == Updated(text, values, bind)
  {
    hide Stripped, WellMarked, Block, Around, Stable, Inner, Unmarked;
    StripUpdated(text, values, bind);
  }
}
