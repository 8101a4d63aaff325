// Copying an older vault into the local one without losing or overwriting
// anything (scripts/bootstrap_local_workspace.py, lines 255-320).
module VaultMigration {
  import opened Text
  import Q = Quota

  type Bytes = seq<bv8>

  datatype Path = Path(dir: string, name: string)
  datatype Source = Source(path: Path, content: Bytes)

  // The files of the local vault, by their path inside it.
  type Vault = map<Path, Bytes>

  datatype OldVault = NotConfigured | Missing | InsideWorkspace | Found(files: seq<Source>)

  datatype Conflict = Conflict(source: Path, target: Path)
  datatype Log = Log(copied: seq<Path>, skipped: seq<Path>, conflicts: seq<Conflict>, warnings: seq<string>)

  // ---- Conflict names ----

  // Where the last dot of a name is, or -1.
  function LastDot(name: string): (i: int)
    ensures -1 <= i < |name|
  {
    if name == [] then -1
    else if name[|name| - 1] == '.' then |name| - 1
    else LastDot(name[..|name| - 1])
  }

  // `Path.suffix`: a leading or a trailing dot starts none.
  function Suffix(name: string): (s: string)
    ensures |s| <= |name| && name == name[..|name| - |s|] + s
  {
    var i := LastDot(name);
    if 0 < i < |name| - 1 then name[i..] else ""
  }

  function Stem(name: string): string { name[..|name| - |Suffix(name)|] }

  // The first candidate has no counter, the second one has "-2".
  function Candidate(dest: Path, timestamp: string, n: nat): Path {
    dest.(name := Stem(dest.name) + ".conflict-" + timestamp + (if n <= 1 then "" else "-" + Decimal(n)) + Suffix(dest.name))
  }

  lemma {:induction false} LastDotIs(name: string)
    ensures var i := LastDot(name); (i >= 0 ==> name[i] == '.') && forall k :: i < k < |name| ==> name[k] != '.'
  {
    if name != [] && name[|name| - 1] != '.' {
      var most := name[..|name| - 1];
      LastDotIs(most);
      assert LastDot(name) == LastDot(most);
      hide LastDot;
      forall k | LastDot(most) < k < |name| ensures name[k] != '.' {
        if k < |most| { assert most[k] == name[k]; }
      }
    }
  }

  // The suffix is what follows the last dot, with the dot, if there is
  // something before it and something behind it ...
  lemma SuffixIs(a: string, b: string)
    requires a != "" && b != "" && Lacks(b, '.')
    ensures Suffix(a + "." + b) == "." + b && Stem(a + "." + b) == a
  {
    var name := a + "." + b;
    DotAt(a, b);
    hide LastDot;
    assert name[|a|..] == "." + b && name[..|a|] == a;
  }

  lemma {:induction false} DotAt(a: string, b: string)
    requires Lacks(b, '.')
    ensures LastDot(a + "." + b) == |a|
    decreases |b|
  {
    var name := a + "." + b;
    if b == "" {
      assert name[|name| - 1] == '.';
    } else {
      var n := |b| - 1;
      DotAt(a, b[..n]);
      assert name[|name| - 1] == b[n] && name[..|name| - 1] == a + "." + b[..n];
    }
  }

  // ... and there is none otherwise.
  lemma SuffixParts(name: string) returns (a: string, b: string)
    requires Suffix(name) != ""
    ensures a != "" && b != "" && Lacks(b, '.') && name == a + "." + b
  {
    LastDotIs(name);
    var i := LastDot(name);
    hide LastDot;
    a, b := name[..i], name[i + 1..];
    assert forall k :: 0 <= k < |b| ==> b[k] == name[i + 1 + k];
  }

  // For "note.md" the candidates are "note.conflict-T.md", "note.conflict-T-2.md"
  // and so on ...
  lemma CandidateIs(dir: string, a: string, b: string, timestamp: string, n: nat)
    requires a != "" && b != "" && Lacks(b, '.') && n >= 2
    ensures Candidate(Path(dir, a + "." + b), timestamp, 1) == Path(dir, a + ".conflict-" + timestamp + "." + b)
    ensures Candidate(Path(dir, a + "." + b), timestamp, n) == Path(dir, a + ".conflict-" + timestamp + "-" + Decimal(n) + "." + b)
  {
    SuffixIs(a, b);
    hide Suffix, Stem, Decimal;
    var stamped, counted := a + ".conflict-" + timestamp, "-" + Decimal(n);
    assert stamped + "" == stamped && stamped + counted == stamped + "-" + Decimal(n);
  }

  // ... and a name without a suffix gets none.
  lemma PlainCandidateIs(dir: string, a: string, timestamp: string, n: nat)
    requires Suffix(a) == "" && n >= 2
    ensures Candidate(Path(dir, a), timestamp, 1) == Path(dir, a + ".conflict-" + timestamp)
    ensures Candidate(Path(dir, a), timestamp, n) == Path(dir, a + ".conflict-" + timestamp + "-" + Decimal(n))
  {
    assert Stem(a) == a;
    hide Suffix, Stem, Decimal;
    var stamped, counted := a + ".conflict-" + timestamp, "-" + Decimal(n);
    assert stamped + "" + "" == stamped && stamped + counted + "" == stamped + "-" + Decimal(n);
  }

  lemma SameMiddle(a: string, m: string, n: string, z: string)
    requires a + m + z == a + n + z
    ensures m == n
  {
    assert |m| == |n|;
    assert (a + m + z)[|a|..|a| + |m|] == m;
    assert (a + n + z)[|a|..|a| + |n|] == n;
  }

  lemma CandidatesDiffer(dest: Path, timestamp: string, m: nat, n: nat)
    requires 1 <= m && 1 <= n && Candidate(dest, timestamp, m) == Candidate(dest, timestamp, n)
    ensures m == n
  {
    var counter := (k: nat) => if k <= 1 then "" else "-" + Decimal(k);
    SameMiddle(Stem(dest.name) + ".conflict-" + timestamp, counter(m), counter(n), Suffix(dest.name));
    if m > 1 && n > 1 {
      assert counter(m)[1..] == Decimal(m) && counter(n)[1..] == Decimal(n);
      DecimalInjective(m, n);
    }
  }

  // The first candidate that no file of the vault has.
  ghost predicate FirstFree(target: Path, dest: Path, timestamp: string, vault: Vault) {
    exists n: nat ::
      && n >= 1 && target == Candidate(dest, timestamp, n) && target !in vault
      && forall m: nat :: 1 <= m < n ==> Candidate(dest, timestamp, m) in vault
  }

  method ConflictPath(dest: Path, timestamp: string, vault: Vault) returns (candidate: Path)
    ensures FirstFree(candidate, dest, timestamp, vault)
  {
    hide Candidate;
    candidate := Candidate(dest, timestamp, 1);
    var counter := 2;
    ghost var taken: set<Path> := {};
    while candidate in vault
      invariant counter >= 2 && candidate == Candidate(dest, timestamp, counter - 1)
      invariant forall m: nat :: 1 <= m < counter - 1 ==> Candidate(dest, timestamp, m) in vault
      invariant taken <= vault.Keys && |taken| == counter - 2
      invariant forall p :: p in taken ==> exists m: nat :: 1 <= m < counter - 1 && p == Candidate(dest, timestamp, m)
      decreases |vault| - |taken|
    {
      assert candidate !in taken by {
        if candidate in taken {
          var m: nat :| 1 <= m < counter - 1 && candidate == Candidate(dest, timestamp, m);
          CandidatesDiffer(dest, timestamp, m, counter - 1);
        }
      }
      Q.SubsetCard(taken + {candidate}, vault.Keys);
      taken := taken + {candidate};
      candidate := Candidate(dest, timestamp, counter);
      counter := counter + 1;
    }
  }

  // ---- The plan ----

  // What is decided about one source file.
  datatype Entry = Copied | Skipped | Diverted(target: Path)

  ghost predicate Right(vault: Vault, s: Source, e: Entry, timestamp: string) {
    match e
    case Copied => s.path !in vault
    case Skipped => s.path in vault && vault[s.path] == s.content
    case Diverted(target) => s.path in vault && vault[s.path] != s.content && FirstFree(target, s.path, timestamp, vault)
  }

  function Place(s: Source, e: Entry): Path { if e.Diverted? then e.target else s.path }

  // The vault after the first k entries were carried out.
  function After(vault: Vault, sources: seq<Source>, entries: seq<Entry>, k: nat): Vault
    requires k <= |entries| <= |sources|
  {
    if k == 0 then vault
    else
      var before := After(vault, sources, entries, k - 1);
      if entries[k - 1].Skipped? then before
      else before[Place(sources[k - 1], entries[k - 1]) := sources[k - 1].content]
  }

  // Each entry is right for the vault at its turn, which a dry run leaves alone.
  ghost predicate Planned(vault: Vault, sources: seq<Source>, entries: seq<Entry>, timestamp: string, apply: bool) {
    |entries| <= |sources| && forall k :: 0 <= k < |entries| ==> RightAt(vault, sources, entries, timestamp, apply, k)
  }

  ghost predicate RightAt(vault: Vault, sources: seq<Source>, entries: seq<Entry>, timestamp: string, apply: bool, k: nat)
    requires k < |entries| <= |sources|
  {
    Right(if apply then After(vault, sources, entries, k) else vault, sources[k], entries[k], timestamp)
  }

  // The lists a log is made of.
  function LogOf(sources: seq<Source>, entries: seq<Entry>): Log
    requires |entries| <= |sources|
  {
    if entries == [] then Log([], [], [], [])
    else
      var n := |entries| - 1;
      var log := LogOf(sources, entries[..n]);
      match entries[n]
      case Copied => log.(copied := log.copied + [sources[n].path])
      case Skipped => log.(skipped := log.skipped + [sources[n].path])
      case Diverted(target) => log.(conflicts := log.conflicts + [Conflict(sources[n].path, target)])
  }

  lemma {:induction false} AfterPrefix(vault: Vault, sources: seq<Source>, entries: seq<Entry>, more: seq<Entry>, k: nat)
    requires k <= |entries| <= |entries + more| <= |sources|
    ensures After(vault, sources, entries + more, k) == After(vault, sources, entries, k)
  {
    if k > 0 { AfterPrefix(vault, sources, entries, more, k - 1); }
  }

  method PlanVaultMigration(configured: OldVault, vault: Vault, timestamp: string, apply: bool)
    returns (log: Log, v: Vault, ghost entries: seq<Entry>)
    ensures !configured.Found? || configured.files == [] ==> v == vault && |log.warnings| == 1 && log == Log([], [], [], log.warnings)
    ensures configured.Found? && configured.files != [] ==>
              && |entries| == |configured.files| && Planned(vault, configured.files, entries, timestamp, apply)
              && log == LogOf(configured.files, entries)
              && v == if apply then After(vault, configured.files, entries, |entries|) else vault
  {
    log, v, entries := Log([], [], [], []), vault, [];
    if configured.NotConfigured? {
      log := log.(warnings := ["no existing vault path configured"]);
      return;
    }
    if configured.Missing? {
      log := log.(warnings := ["configured old vault path does not exist"]);
      return;
    }
    if configured.InsideWorkspace? {
      log := log.(warnings := ["configured vault already lives inside .local"]);
      return;
    }
    if configured.files == [] {
      log := log.(warnings := ["configured old vault is empty"]);
      return;
    }
    hide Right, Place;
    for i := 0 to |configured.files|
      invariant |entries| == i && Planned(vault, configured.files, entries, timestamp, apply)
      invariant log == LogOf(configured.files, entries)
      invariant v == if apply then After(vault, configured.files, entries, i) else vault
    {
      var s := configured.files[i];
      ghost var e;
      ghost var before := v;
      if s.path in v {
        if s.content == v[s.path] {
          e := Skipped;
          log := log.(skipped := log.skipped + [s.path]);
        } else {
          var conflict := ConflictPath(s.path, timestamp, v);
          e := Diverted(conflict);
          log := log.(conflicts := log.conflicts + [Conflict(s.path, conflict)]);
          if apply { v := v[conflict := s.content]; }
        }
      } else {
        e := Copied;
        log := log.(copied := log.copied + [s.path]);
        if apply { v := v[s.path := s.content]; }
      }
      Extend(vault, configured.files, entries, e, timestamp, apply, before, v);
      entries := entries + [e];
    }
  }

  lemma Extend(vault: Vault, sources: seq<Source>, entries: seq<Entry>, e: Entry, timestamp: string, apply: bool, before: Vault, v: Vault)
    requires |entries| < |sources| && Planned(vault, sources, entries, timestamp, apply)
    requires before == if apply then After(vault, sources, entries, |entries|) else vault
    requires var s := sources[|entries|];
             && Right(before, s, e, timestamp)
             && v == if apply && !e.Skipped? then before[Place(s, e) := s.content] else before
    ensures var next := entries + [e]; var s := sources[|entries|]; var log := LogOf(sources, entries);
            && Planned(vault, sources, next, timestamp, apply)
            && v == (if apply then After(vault, sources, next, |next|) else vault)
            && LogOf(sources, next) == match e
                 case Copied => log.(copied := log.copied + [s.path])
                 case Skipped => log.(skipped := log.skipped + [s.path])
                 case Diverted(target) => log.(conflicts := log.conflicts + [Conflict(s.path, target)])
  {
    hide Right, Place;
    var next := entries + [e];
    assert next[..|entries|] == entries;
    forall k | 0 <= k <= |entries| ensures After(vault, sources, next, k) == After(vault, sources, entries, k) {
      AfterPrefix(vault, sources, entries, [e], k);
    }
    forall k | 0 <= k < |next| ensures RightAt(vault, sources, next, timestamp, apply, k) {
      if k < |entries| { assert RightAt(vault, sources, entries, timestamp, apply, k); }
    }
  }

  // ---- What a migration keeps ----

  ghost predicate Contains(v: Vault, small: Vault) { forall p :: p in small ==> p in v && v[p] == small[p] }

  // A file is only ever written to a name the vault does not have.
  lemma PlaceIsFree(vault: Vault, s: Source, e: Entry, timestamp: string)
    requires Right(vault, s, e, timestamp)
    ensures if e.Skipped? then s.path in vault && vault[s.path] == s.content else Place(s, e) !in vault
    ensures e.Diverted? ==> s.path in vault && vault[s.path] != s.content
    ensures e.Copied? ==> Place(s, e) == s.path
  {
  }

  lemma StepKeeps(vault: Vault, sources: seq<Source>, entries: seq<Entry>, timestamp: string, k: nat)
    requires Planned(vault, sources, entries, timestamp, true) && k < |entries|
    ensures Contains(After(vault, sources, entries, k + 1), After(vault, sources, entries, k))
  {
    hide Right, Place;
    assert RightAt(vault, sources, entries, timestamp, true, k);
    var before := After(vault, sources, entries, k);
    PlaceIsFree(before, sources[k], entries[k], timestamp);
    assert After(vault, sources, entries, k + 1)
           == if entries[k].Skipped? then before else before[Place(sources[k], entries[k]) := sources[k].content];
  }

  lemma ContainsAll(a: Vault, b: Vault, c: Vault)
    requires Contains(a, b) && Contains(b, c)
    ensures Contains(a, c)
  {
  }

  // Files already in the vault are never altered, at any point of the run.
  lemma {:induction false} NeverAlters(vault: Vault, sources: seq<Source>, entries: seq<Entry>, timestamp: string, i: nat, k: nat)
    requires Planned(vault, sources, entries, timestamp, true) && i <= k <= |entries|
    ensures Contains(After(vault, sources, entries, k), After(vault, sources, entries, i))
    decreases k
  {
    assert |entries| <= |sources|;
    hide Planned, Right, After;
    if i < k {
      NeverAlters(vault, sources, entries, timestamp, i, k - 1);
      StepKeeps(vault, sources, entries, timestamp, k - 1);
      ContainsAll(After(vault, sources, entries, k), After(vault, sources, entries, k - 1), After(vault, sources, entries, i));
    }
  }

  // Every source's content ends at its target or at its conflict name, also
  // when a conflict name is a later source's target.
  lemma EveryFileLands(vault: Vault, sources: seq<Source>, entries: seq<Entry>, timestamp: string, i: nat)
    requires Planned(vault, sources, entries, timestamp, true) && i < |entries|
    ensures var v := After(vault, sources, entries, |entries|); var p := Place(sources[i], entries[i]);
            && p in v && v[p] == sources[i].content
            && sources[i].path in v && (entries[i].Diverted? ==> v[sources[i].path] != sources[i].content && p !in vault)
  {
    hide Right, FirstFree;
    var before := After(vault, sources, entries, i);
    assert RightAt(vault, sources, entries, timestamp, true, i);
    PlaceIsFree(before, sources[i], entries[i], timestamp);
    NeverAlters(vault, sources, entries, timestamp, i, |entries|);
    NeverAlters(vault, sources, entries, timestamp, i + 1, |entries|);
    NeverAlters(vault, sources, entries, timestamp, 0, i);
    assert Place(sources[i], entries[i]) in After(vault, sources, entries, i + 1);
  }

  // Nothing appears in the vault but what the entries name.
  lemma {:induction false} NothingElseAppears(vault: Vault, sources: seq<Source>, entries: seq<Entry>, k: nat, p: Path)
    requires k <= |entries| <= |sources|
    ensures p in After(vault, sources, entries, k)
            <==> p in vault || exists i :: 0 <= i < k && !entries[i].Skipped? && p == Place(sources[i], entries[i])
  {
    if k > 0 {
      hide Place;
      NothingElseAppears(vault, sources, entries, k - 1, p);
      assert entries[k - 1].Skipped? || p == Place(sources[k - 1], entries[k - 1])
             || (p in After(vault, sources, entries, k) <==> p in After(vault, sources, entries, k - 1));
    }
  }

  // No two files are written to the same name.
  lemma PlacesDiffer(vault: Vault, sources: seq<Source>, entries: seq<Entry>, timestamp: string, i: nat, j: nat)
    requires Planned(vault, sources, entries, timestamp, true) && i < j < |entries|
    requires !entries[j].Skipped?
    ensures Place(sources[i], entries[i]) != Place(sources[j], entries[j])
  {
    hide After, Right, Place;
    assert RightAt(vault, sources, entries, timestamp, true, i) && RightAt(vault, sources, entries, timestamp, true, j);
    PlaceIsFree(After(vault, sources, entries, j), sources[j], entries[j], timestamp);
    PlaceIsThere(vault, sources, entries, timestamp, i);
    NeverAlters(vault, sources, entries, timestamp, i + 1, j);
  }

  lemma PlaceIsThere(vault: Vault, sources: seq<Source>, entries: seq<Entry>, timestamp: string, i: nat)
    requires i < |entries| <= |sources| && RightAt(vault, sources, entries, timestamp, true, i)
    ensures Place(sources[i], entries[i]) in After(vault, sources, entries, i + 1)
  {
    PlaceIsFree(After(vault, sources, entries, i), sources[i], entries[i], timestamp);
    hide Right, RightAt;
  }

  ghost predicate DistinctSources(sources: seq<Source>) {
    forall i, j :: 0 <= i < j < |sources| ==> sources[i].path != sources[j].path
  }

  predicate Diverts(log: Log, p: Path) { exists c :: c in log.conflicts && c.source == p }

  // Each source is in exactly one of the three lists, the one of its entry.
  lemma {:induction false} ExactlyOneList(sources: seq<Source>, entries: seq<Entry>, i: nat)
    requires DistinctSources(sources) && |entries| <= |sources| && i < |sources|
    ensures var log := LogOf(sources, entries); var p := sources[i].path;
            && (p in log.copied <==> i < |entries| && entries[i].Copied?)
            && (p in log.skipped <==> i < |entries| && entries[i].Skipped?)
            && (Diverts(log, p) <==> i < |entries| && entries[i].Diverted?)
            && |log.copied| + |log.skipped| + |log.conflicts| == |entries|
    decreases |entries|
  {
    if entries != [] {
      var n := |entries| - 1;
      ExactlyOneList(sources, entries[..n], i);
      var before, log, p := LogOf(sources, entries[..n]), LogOf(sources, entries), sources[i].path;
      if entries[n].Diverted? {
        var c := Conflict(sources[n].path, entries[n].target);
        assert log.conflicts == before.conflicts + [c];
        assert c in log.conflicts && forall d :: d in log.conflicts <==> d in before.conflicts || d == c;
      } else {
        assert log.conflicts == before.conflicts;
      }
    }
  }

  // A second migration of the same files copies nothing new to a target.
  lemma SecondRunCopiesNothing(vault: Vault, sources: seq<Source>, entries: seq<Entry>, timestamp: string,
                               again: seq<Entry>, later: string, apply: bool)
    requires Planned(vault, sources, entries, timestamp, true) && |entries| == |sources|
    requires Planned(After(vault, sources, entries, |entries|), sources, again, later, apply)
    ensures forall i :: 0 <= i < |again| ==> !again[i].Copied?
    ensures forall i :: 0 <= i < |again| ==> (again[i].Skipped? <==> !entries[i].Diverted?)
  {
    var v := After(vault, sources, entries, |entries|);
    forall i | 0 <= i < |again| ensures !again[i].Copied? && (again[i].Skipped? <==> !entries[i].Diverted?) {
      EveryFileLands(vault, sources, entries, timestamp, i);
      if apply { NeverAlters(v, sources, again, later, 0, i); }
      assert RightAt(v, sources, again, later, apply, i);
    }
  }
}
