// Grandfather-father-son retention of encrypted off-device backups
// (scripts/disaster_recovery.py).
//
// Instants are integer microseconds since 1970-01-01T00:00Z, the resolution of
// `datetime`. All artifacts live in one target directory, so a file name stands
// for the artifact's path.
module Retention {
  import opened Ordering
  import Q = Quota

  const DAY := 86_400_000_000

  datatype Backup = Backup(createdAt: int, name: string)
  datatype Policy = Policy(daily: int, weekly: int, monthly: int)
  datatype Result<T> = Ok(value: T) | NegativeCount
  datatype Tier = Daily | Weekly | Monthly

  ghost predicate Monotone(f: int -> int) { forall a, b :: a <= b ==> f(a) <= f(b) }

  // The index of the calendar month a day belongs to: any non-decreasing function of the day.
  type Calendar = f: int -> int | Monotone(f) witness (d: int) => d

  predicate NewestFirst(a: Backup, b: Backup) {
    a.createdAt > b.createdAt || (a.createdAt == b.createdAt && StringLeq(b.name, a.name))
  }

  lemma NewestFirstTotal(a: Backup, b: Backup)
    ensures NewestFirst(a, b) || NewestFirst(b, a)
  {
    StringTotal(a.name, b.name);
  }

  lemma NewestFirstTransitive(a: Backup, b: Backup, c: Backup)
    requires NewestFirst(a, b) && NewestFirst(b, c)
    ensures NewestFirst(a, c)
  {
    if a.createdAt == b.createdAt == c.createdAt { StringTransitive(c.name, b.name, a.name); }
  }

  lemma NewestFirstAntisymmetric(a: Backup, b: Backup)
    requires NewestFirst(a, b) && NewestFirst(b, a)
    ensures a == b
  {
    StringAntisymmetric(a.name, b.name);
  }

  lemma NewestFirstOrder()
    ensures TotalOrder(NewestFirst)
  {
    forall a, b ensures NewestFirst(a, b) || NewestFirst(b, a) { NewestFirstTotal(a, b); }
    forall a, b | NewestFirst(a, b) && NewestFirst(b, a) ensures a == b { NewestFirstAntisymmetric(a, b); }
    forall a, b, c | NewestFirst(a, b) && NewestFirst(b, c) ensures NewestFirst(a, c) { NewestFirstTransitive(a, b, c); }
  }

  function Max(a: int, b: int): int { if a < b then b else a }

  // One retention run: the backups on hand, the policy and the clock.
  datatype Run = Run(items: set<Backup>, policy: Policy, now: int, month: Calendar) {
    predicate Future(b: Backup) { now < b.createdAt }

    predicate InDailyWindow(b: Backup) {
      !Future(b) && now - b.createdAt <= Max(policy.daily, 1) * DAY
    }

    predicate InWeeklyWindow(b: Backup) {
      !Future(b) && now - b.createdAt <= Max(policy.daily + policy.weekly * 7, 1) * DAY
    }

    // 1970-01-01 is a Thursday and weeks start on Monday (ISO 8601:2004, section 4.1.4).
    function Bucket(t: Tier, b: Backup): int {
      var day := b.createdAt / DAY;
      match t
      case Daily => day
      case Weekly => (day + 3) / 7
      case Monthly => month(day)
    }

    function Count(t: Tier): int {
      match t case Daily => policy.daily case Weekly => policy.weekly case Monthly => policy.monthly
    }

    // The day tier holds on to a backup (kept or not) only while its day is one
    // of the newest `daily` days of the window; other backups fall through.
    predicate HeldDaily(b: Backup) {
      InDailyWindow(b) && Q.InQuota(DailyBuckets(), Bucket(Daily, b), policy.daily)
    }

    function DailyBuckets(): set<int> {
      set b | b in items && InDailyWindow(b) :: Bucket(Daily, b)
    }

    predicate Reaches(t: Tier, b: Backup) {
      match t
      case Daily => InDailyWindow(b)
      case Weekly => !HeldDaily(b) && InWeeklyWindow(b)
      case Monthly => !HeldDaily(b) && !InWeeklyWindow(b) && !Future(b)
    }

    function Buckets(t: Tier): set<int> { set b | b in items && Reaches(t, b) :: Bucket(t, b) }

    // b is the newest backup of one of the newest `Count(t)` buckets among those reaching t.
    ghost predicate TierKeeps(t: Tier, b: Backup) {
      && Reaches(t, b)
      && Q.InQuota(Buckets(t), Bucket(t, b), Count(t))
      && forall y :: y in items && Reaches(t, y) && Bucket(t, y) == Bucket(t, b) ==> NewestFirst(b, y)
    }

    ghost predicate KeptByRule(b: Backup) {
      Future(b) || TierKeeps(Daily, b) || TierKeeps(Weekly, b) || TierKeeps(Monthly, b)
    }

    ghost predicate Newest(b: Backup) { forall y :: y in items ==> NewestFirst(b, y) }

    ghost function Kept(): set<Backup> { set b | b in items && (Newest(b) || KeptByRule(b)) }

    ghost function KeptNames(): set<string> { set b | b in Kept() :: b.name }

    ghost function TierKept(t: Tier): set<Backup> { set b | b in items && TierKeeps(t, b) }

    // Later backups never fall in an older bucket.
    lemma BucketMonotone(t: Tier, a: Backup, b: Backup)
      requires a.createdAt <= b.createdAt
      ensures Bucket(t, a) <= Bucket(t, b)
    {
      var da, db := a.createdAt / DAY, b.createdAt / DAY;
      assert da <= db;
      assert Monotone(month);
    }
  }

  // What the loop of RetainedBackupPaths has stored in the set of tier t after i backups.
  ghost function Stored(run: Run, ordered: seq<Backup>, i: nat, t: Tier): set<int>
    requires i <= |ordered|
  {
    set b | b in ordered[..i] && run.Reaches(t, b)
            && Q.InQuota(run.Buckets(t), run.Bucket(t, b), run.Count(t)) :: run.Bucket(t, b)
  }

  ghost predicate Listing(run: Run, ordered: seq<Backup>) {
    Sorted(NewestFirst, ordered) && forall b :: b in ordered <==> b in run.items
  }

  // The buckets of tier t seen among the first i backups.
  ghost function Seen(run: Run, ordered: seq<Backup>, i: nat, t: Tier): set<int>
    requires i <= |ordered|
  {
    set b | b in ordered[..i] && run.Reaches(t, b) :: run.Bucket(t, b)
  }

  // Whether the loop body stores the bucket of backup i in tier t.
  ghost predicate Adds(run: Run, ordered: seq<Backup>, i: nat, t: Tier)
    requires i < |ordered|
  {
    && run.Reaches(t, ordered[i])
    && run.Bucket(t, ordered[i]) !in Stored(run, ordered, i, t)
    && |Stored(run, ordered, i, t)| < run.Count(t)
  }

  // At backup i, tier t has seen every newer bucket and no older one.
  lemma SeenIsUpperPart(run: Run, ordered: seq<Backup>, i: nat, t: Tier)
    requires i < |ordered| && Listing(run, ordered) && run.Reaches(t, ordered[i])
    ensures var P, k := Seen(run, ordered, i, t), run.Bucket(t, ordered[i]);
            && P <= run.Buckets(t) && k in run.Buckets(t)
            && (forall p :: p in P ==> p >= k)
            && (forall n :: n in run.Buckets(t) && n > k ==> n in P)
  {
    var x, k, P := ordered[i], run.Bucket(t, ordered[i]), Seen(run, ordered, i, t);
    forall p | p in P ensures p >= k && p in run.Buckets(t) {
      var b :| b in ordered[..i] && run.Reaches(t, b) && run.Bucket(t, b) == p;
      run.BucketMonotone(t, x, b);
    }
    forall n | n in run.Buckets(t) && n > k ensures n in P {
      var b :| b in run.items && run.Reaches(t, b) && run.Bucket(t, b) == n;
      var j :| 0 <= j < |ordered| && ordered[j] == b;
      if j >= i { run.BucketMonotone(t, b, x); }
      assert b == ordered[..i][j];
    }
  }

  // A backup is the newest of its bucket exactly if the bucket was not seen before it.
  lemma UnseenIsNewest(run: Run, ordered: seq<Backup>, i: nat, t: Tier, y: Backup)
    requires i < |ordered| && Listing(run, ordered) && run.Reaches(t, ordered[i])
    requires y in run.items && run.Reaches(t, y) && run.Bucket(t, y) == run.Bucket(t, ordered[i])
    ensures run.Bucket(t, ordered[i]) !in Seen(run, ordered, i, t) ==> NewestFirst(ordered[i], y)
  {
    NewestFirstTotal(y, y);
    var j :| 0 <= j < |ordered| && ordered[j] == y;
    if j < i { assert y in ordered[..i]; }
  }

  // The guard `key not in tier and len(tier) < count` fires exactly for the
  // backups of the rule, repetitions aside.
  lemma TierStep(run: Run, ordered: seq<Backup>, i: nat, t: Tier)
    requires i < |ordered| && Listing(run, ordered) && run.Count(t) >= 0
    requires run.Reaches(t, ordered[i])
    ensures var k, stored := run.Bucket(t, ordered[i]), Stored(run, ordered, i, t);
            (k in stored || |stored| < run.Count(t)) <==> Q.InQuota(run.Buckets(t), k, run.Count(t))
    ensures Adds(run, ordered, i, t) ==> run.TierKeeps(t, ordered[i])
    ensures run.TierKeeps(t, ordered[i]) ==> Adds(run, ordered, i, t) || ordered[i] in ordered[..i]
  {
    var x, k, N, P := ordered[i], run.Bucket(t, ordered[i]), run.Buckets(t), Seen(run, ordered, i, t);
    assert Stored(run, ordered, i, t) == set p | p in P && Q.InQuota(N, p, run.Count(t));
    SeenIsUpperPart(run, ordered, i, t);
    Q.GreedyStep(N, P, k, run.Count(t));
    if k !in P {
      forall y | y in run.items && run.Reaches(t, y) && run.Bucket(t, y) == k ensures NewestFirst(x, y) {
        UnseenIsNewest(run, ordered, i, t, y);
      }
    } else if run.TierKeeps(t, x) {
      var b :| b in ordered[..i] && run.Reaches(t, b) && run.Bucket(t, b) == k;
      assert NewestFirst(b, x) && NewestFirst(x, b);
      NewestFirstAntisymmetric(b, x);
    }
  }

  lemma StoredStep(run: Run, ordered: seq<Backup>, i: nat, t: Tier)
    requires i < |ordered|
    ensures Stored(run, ordered, i + 1, t)
            == Stored(run, ordered, i, t)
               + if run.Reaches(t, ordered[i])
                    && Q.InQuota(run.Buckets(t), run.Bucket(t, ordered[i]), run.Count(t))
                 then {run.Bucket(t, ordered[i])} else {}
  {
    assert ordered[..i + 1] == ordered[..i] + [ordered[i]];
  }

  lemma Advance(run: Run, ordered: seq<Backup>, i: nat, t: Tier)
    requires i < |ordered| && Listing(run, ordered) && run.Count(t) >= 0
    ensures Stored(run, ordered, i + 1, t)
            == Stored(run, ordered, i, t) + if Adds(run, ordered, i, t) then {run.Bucket(t, ordered[i])} else {}
    ensures Adds(run, ordered, i, t) ==> run.TierKeeps(t, ordered[i])
    ensures run.TierKeeps(t, ordered[i]) ==> Adds(run, ordered, i, t) || ordered[i] in ordered[..i]
  {
    StoredStep(run, ordered, i, t);
    if run.Reaches(t, ordered[i]) { TierStep(run, ordered, i, t); }
  }

  lemma HeldStep(run: Run, ordered: seq<Backup>, i: nat)
    requires i < |ordered| && Listing(run, ordered) && run.Count(Daily) >= 0
    ensures var x, stored := ordered[i], Stored(run, ordered, i, Daily);
            run.HeldDaily(x)
            <==> run.InDailyWindow(x) && (run.Bucket(Daily, x) in stored || |stored| < run.Count(Daily))
  {
    assert run.Buckets(Daily) == run.DailyBuckets();
    if run.Reaches(Daily, ordered[i]) { TierStep(run, ordered, i, Daily); }
  }

  ghost function KeptPrefix(run: Run, ordered: seq<Backup>, i: nat): set<string>
    requires i <= |ordered|
  {
    set b | b in ordered[..i] && run.KeptByRule(b) :: b.name
  }

  lemma KeptPrefixStep(run: Run, ordered: seq<Backup>, i: nat)
    requires i < |ordered|
    ensures KeptPrefix(run, ordered, i + 1)
            == KeptPrefix(run, ordered, i) + if run.KeptByRule(ordered[i]) then {ordered[i].name} else {}
    ensures ordered[i] in ordered[..i] && run.KeptByRule(ordered[i])
            ==> ordered[i].name in KeptPrefix(run, ordered, i)
  {
    hide Run.KeptByRule;
    assert ordered[..i + 1] == ordered[..i] + [ordered[i]];
  }

  ghost predicate KeepsNow(run: Run, ordered: seq<Backup>, i: nat)
    requires i < |ordered|
  {
    run.Future(ordered[i]) || Adds(run, ordered, i, Daily) || Adds(run, ordered, i, Weekly)
    || Adds(run, ordered, i, Monthly)
  }

  lemma KeptStep(run: Run, ordered: seq<Backup>, i: nat)
    requires i < |ordered| && Listing(run, ordered)
    requires run.Count(Daily) >= 0 && run.Count(Weekly) >= 0 && run.Count(Monthly) >= 0
    ensures KeptPrefix(run, ordered, i + 1)
            == KeptPrefix(run, ordered, i) + if KeepsNow(run, ordered, i) then {ordered[i].name} else {}
  {
    hide Stored, Adds, Run.TierKeeps, KeptPrefix, Listing;
    KeptPrefixStep(run, ordered, i);
    Advance(run, ordered, i, Daily);
    Advance(run, ordered, i, Weekly);
    Advance(run, ordered, i, Monthly);
  }

  ghost predicate Progress(run: Run, ordered: seq<Backup>, i: nat,
                           daily: set<int>, weekly: set<int>, monthly: set<int>, keep: set<string>)
    requires 0 < |ordered| && i <= |ordered|
  {
    && daily == Stored(run, ordered, i, Daily)
    && weekly == Stored(run, ordered, i, Weekly)
    && monthly == Stored(run, ordered, i, Monthly)
    && keep == {ordered[0].name} + KeptPrefix(run, ordered, i)
  }

  lemma SortGivesListing(run: Run, backups: seq<Backup>)
    requires run.items == set b | b in backups
    ensures Listing(run, Sort(NewestFirst, backups)) && |Sort(NewestFirst, backups)| == |backups|
  {
    NewestFirstOrder();
    SortCorrect(NewestFirst, backups);
  }

  lemma ProgressStart(run: Run, ordered: seq<Backup>)
    requires ordered != []
    ensures Progress(run, ordered, 0, {}, {}, {}, {ordered[0].name})
  {
  }

  lemma ProgressEnd(run: Run, ordered: seq<Backup>,
                    daily: set<int>, weekly: set<int>, monthly: set<int>, keep: set<string>)
    requires ordered != [] && Listing(run, ordered)
    requires Progress(run, ordered, |ordered|, daily, weekly, monthly, keep)
    ensures keep == run.KeptNames()
  {
    KeptNamesFromListing(run, ordered);
  }

  lemma WindowsArePast(run: Run, b: Backup)
    ensures run.Future(b) ==> !run.InDailyWindow(b) && !run.InWeeklyWindow(b)
  {
  }

  function Grown<T>(s: set<T>, grows: bool, x: T): set<T> { if grows then s + {x} else s }

  // What the loop body tests at backup i: `held` sends it past the later tiers,
  // and `a`, `b`, `c` say which of the three sets it grows.
  ghost predicate Guards(run: Run, x: Backup, daily: set<int>, weekly: set<int>, monthly: set<int>,
                         held: bool, a: bool, b: bool, c: bool)
  {
    var n := run.policy;
    && held == (run.InDailyWindow(x) && (run.Bucket(Daily, x) in daily || |daily| < n.daily))
    && a == (held && run.Bucket(Daily, x) !in daily && |daily| < n.daily)
    && b == (!held && run.InWeeklyWindow(x) && run.Bucket(Weekly, x) !in weekly && |weekly| < n.weekly)
    && c == (!held && !run.Future(x) && !run.InWeeklyWindow(x)
             && run.Bucket(Monthly, x) !in monthly && |monthly| < n.monthly)
  }

  // These tests are exactly what the rule says of the backup.
  lemma GuardsAre(run: Run, ordered: seq<Backup>, i: nat, held: bool, a: bool, b: bool, c: bool)
    requires i < |ordered| && Listing(run, ordered)
    requires run.Count(Daily) >= 0 && run.Count(Weekly) >= 0 && run.Count(Monthly) >= 0
    requires Guards(run, ordered[i], Stored(run, ordered, i, Daily), Stored(run, ordered, i, Weekly),
                    Stored(run, ordered, i, Monthly), held, a, b, c)
    ensures a == Adds(run, ordered, i, Daily) && b == Adds(run, ordered, i, Weekly) && c == Adds(run, ordered, i, Monthly)
  {
    hide Stored, Listing, Run.TierKeeps, Run.Bucket;
    HeldStep(run, ordered, i);
    hide Run.HeldDaily, Run.InDailyWindow, Run.InWeeklyWindow, Run.Future;
    ReachesIs(run, ordered[i]);
  }

  lemma ReachesIs(run: Run, b: Backup)
    ensures run.Reaches(Daily, b) <==> run.InDailyWindow(b)
    ensures run.Reaches(Weekly, b) <==> !run.HeldDaily(b) && run.InWeeklyWindow(b)
    ensures run.Reaches(Monthly, b) <==> !run.HeldDaily(b) && !run.InWeeklyWindow(b) && !run.Future(b)
  {
  }

  lemma CountsAre(run: Run)
    ensures run.Count(Daily) == run.policy.daily && run.Count(Weekly) == run.policy.weekly
    ensures run.Count(Monthly) == run.policy.monthly
  {
  }

  // One pass of the loop body.
  lemma ProgressStep(run: Run, ordered: seq<Backup>, i: nat,
                     daily: set<int>, weekly: set<int>, monthly: set<int>, keep: set<string>,
                     held: bool, a: bool, b: bool, c: bool)
    requires i < |ordered| && Listing(run, ordered)
    requires run.Count(Daily) >= 0 && run.Count(Weekly) >= 0 && run.Count(Monthly) >= 0
    requires Progress(run, ordered, i, daily, weekly, monthly, keep)
    requires Guards(run, ordered[i], daily, weekly, monthly, held, a, b, c)
    ensures var x := ordered[i];
            Progress(run, ordered, i + 1,
                     Grown(daily, a, run.Bucket(Daily, x)), Grown(weekly, b, run.Bucket(Weekly, x)),
                     Grown(monthly, c, run.Bucket(Monthly, x)), Grown(keep, run.Future(x) || a || b || c, x.name))
  {
    hide Guards, Adds, KeptPrefix, Listing, Stored, Run.TierKeeps, Run.Bucket, Run.Reaches, Run.Future, Run.HeldDaily;
    hide Run.InDailyWindow, Run.InWeeklyWindow, Run.Count;
    GuardsAre(run, ordered, i, held, a, b, c);
    Advance(run, ordered, i, Daily);
    Advance(run, ordered, i, Weekly);
    Advance(run, ordered, i, Monthly);
    KeptStep(run, ordered, i);
  }

  // The names to keep: the rule's set, whatever the order and repetitions of the input.
  method RetainedBackupPaths(backups: seq<Backup>, policy: Policy, now: int, month: Calendar)
    returns (r: Result<set<string>>)
    ensures backups == [] ==> r == Ok({})
    ensures backups != [] && (policy.daily < 0 || policy.weekly < 0 || policy.monthly < 0) ==> r == NegativeCount
    ensures backups != [] && policy.daily >= 0 && policy.weekly >= 0 && policy.monthly >= 0
            ==> r == Ok(Run((set b | b in backups), policy, now, month).KeptNames())
  {
    hide Progress, Run.KeptNames, Listing, Sort, Run.Future, Run.InDailyWindow, Run.InWeeklyWindow, Run.Bucket;
    var run := Run((set b | b in backups), policy, now, month);
    var ordered := Sort(NewestFirst, backups);
    SortGivesListing(run, backups);
    if ordered == [] {
      return Ok({});
    }
    if policy.daily < 0 || policy.weekly < 0 || policy.monthly < 0 {
      return NegativeCount;
    }
    var keep := {ordered[0].name};
    var daily: set<int>, weekly: set<int>, monthly: set<int> := {}, {}, {};
    ProgressStart(run, ordered);
    for i := 0 to |ordered|
      invariant Progress(run, ordered, i, daily, weekly, monthly, keep)
    {
      var item := ordered[i];
      var day, week, month := run.Bucket(Daily, item), run.Bucket(Weekly, item), run.Bucket(Monthly, item);
      ghost var held := run.InDailyWindow(item) && (day in daily || |daily| < policy.daily);
      ProgressStep(run, ordered, i, daily, weekly, monthly, keep, held,
                   held && day !in daily && |daily| < policy.daily,
                   !held && run.InWeeklyWindow(item) && week !in weekly && |weekly| < policy.weekly,
                   !held && !run.Future(item) && !run.InWeeklyWindow(item)
                   && month !in monthly && |monthly| < policy.monthly);
      WindowsArePast(run, item);
      if run.Future(item) {
        keep := keep + {item.name};
        continue;
      }
      if run.InDailyWindow(item) && (day in daily || |daily| < policy.daily) {
        if day !in daily && |daily| < policy.daily {
          daily := daily + {day};
          keep := keep + {item.name};
        }
        continue;
      }
      if run.InWeeklyWindow(item) {
        if week !in weekly && |weekly| < policy.weekly {
          weekly := weekly + {week};
          keep := keep + {item.name};
        }
        continue;
      }
      if month !in monthly && |monthly| < policy.monthly {
        monthly := monthly + {month};
        keep := keep + {item.name};
      }
    }
    ProgressEnd(run, ordered, daily, weekly, monthly, keep);
    return Ok(keep);
  }

  lemma KeptNamesFromListing(run: Run, ordered: seq<Backup>)
    requires ordered != [] && Listing(run, ordered)
    ensures run.KeptNames() == {ordered[0].name} + KeptPrefix(run, ordered, |ordered|)
  {
    NewestFirstTotal(ordered[0], ordered[0]);
    assert ordered[..|ordered|] == ordered;
    forall y | y in run.items ensures NewestFirst(ordered[0], y) {
      var j :| 0 <= j < |ordered| && ordered[j] == y;
    }
    assert ordered[0] in run.Kept();
    forall b | b in run.Kept() ensures b == ordered[0] || (b in ordered[..|ordered|] && run.KeptByRule(b)) {
      if run.Newest(b) { NewestFirstAntisymmetric(b, ordered[0]); }
    }
    forall b | b in ordered[..|ordered|] && run.KeptByRule(b) ensures b in run.Kept() {}
  }

  ghost predicate ValidPolicy(policy: Policy) {
    policy.daily >= 0 && policy.weekly >= 0 && policy.monthly >= 0
  }

  lemma {:induction false} NewestExists(A: set<Backup>) returns (b: Backup)
    requires |A| > 0
    ensures b in A && forall y :: y in A ==> NewestFirst(b, y)
    decreases |A|
  {
    hide NewestFirst;
    b := Q.Pick(A);
    NewestFirstTotal(b, b);
    if |A| == 1 {
      forall y | y in A ensures NewestFirst(b, y) { OnlyMember(A, b, y); }
    } else {
      assert A == {b} + (A - {b});
      var c := NewestExists(A - {b});
      NewestFirstTotal(b, c);
      if NewestFirst(c, b) {
        b := c;
      } else {
        forall y | y in A - {b} ensures NewestFirst(b, y) { NewestFirstTransitive(b, c, y); }
      }
    }
  }

  lemma OnlyMember<T>(A: set<T>, x: T, y: T)
    requires |A| == 1 && x in A && y in A
    ensures x == y
  {
    if x != y { Q.SubsetCard({x, y}, A); }
  }

  // Every in-quota bucket of a tier has a kept representative.
  lemma BucketRepresented(run: Run, t: Tier, n: int) returns (b: Backup)
    requires n in Q.Top(run.Buckets(t), run.Count(t))
    ensures b in run.TierKept(t) && b in run.Kept() && run.Bucket(t, b) == n
  {
    var A := set y | y in run.items && run.Reaches(t, y) && run.Bucket(t, y) == n;
    var y0 :| y0 in run.items && run.Reaches(t, y0) && run.Bucket(t, y0) == n;
    assert y0 in A;
    b := NewestExists(A);
    assert run.TierKeeps(t, b);
  }

  // A tier keeps one backup for each of its newest buckets: as many as the
  // policy allows, or as there are buckets.
  lemma TierKeepsExactly(run: Run, t: Tier)
    requires ValidPolicy(run.policy)
    ensures |run.TierKept(t)| == if |run.Buckets(t)| <= run.Count(t) then |run.Buckets(t)| else run.Count(t)
    ensures forall n :: n in Q.Top(run.Buckets(t), run.Count(t)) <==>
                        exists b :: b in run.TierKept(t) && run.Bucket(t, b) == n
  {
    var N, q := run.Buckets(t), run.Count(t);
    Q.TopCount(N, q);
    var f := (b: Backup) => run.Bucket(t, b);
    forall n ensures n in Q.Top(N, q) <==> exists b :: b in run.TierKept(t) && run.Bucket(t, b) == n {
      if n in Q.Top(N, q) {
        var b := BucketRepresented(run, t, n);
      }
    }
    forall a, b | a in run.TierKept(t) && b in run.TierKept(t) && f(a) == f(b) ensures a == b {
      assert NewestFirst(a, b) && NewestFirst(b, a);
      NewestFirstAntisymmetric(a, b);
    }
    forall n ensures n in Q.Top(N, q) <==> exists b :: b in run.TierKept(t) && f(b) == n {
      if n in Q.Top(N, q) {
        var b :| b in run.TierKept(t) && run.Bucket(t, b) == n;
        assert f(b) == n;
      }
    }
    Q.InjectiveCard(run.TierKept(t), Q.Top(N, q), f);
  }

  // The newest backup and every future-dated one survive.
  lemma AlwaysKept(run: Run) returns (newest: Backup)
    requires |run.items| > 0
    ensures newest in run.Kept() && run.Newest(newest)
    ensures forall b :: b in run.items && run.Newest(b) ==> b == newest
    ensures forall b :: b in run.items ==>
              b.createdAt < newest.createdAt || (b.createdAt == newest.createdAt && StringLeq(b.name, newest.name))
    ensures forall b :: b in run.items && run.Future(b) ==> b in run.Kept()
  {
    newest := NewestExists(run.items);
    forall b | b in run.items && run.Newest(b) ensures b == newest {
      assert NewestFirst(newest, b) && NewestFirst(b, newest);
      NewestFirstAntisymmetric(newest, b);
    }
  }

  lemma OneNewest(run: Run)
    ensures |set b | b in run.items && run.Newest(b)| <= 1
  {
    var newest := set b | b in run.items && run.Newest(b);
    if |newest| > 0 {
      var b := Q.Pick(newest);
      assert run.items == {b} + (run.items - {b});
      var c := AlwaysKept(run);
      assert newest == {c};
    }
  }

  lemma KeptParts(run: Run)
    ensures run.Kept() == (set b | b in run.items && run.Newest(b)) + (set b | b in run.items && run.Future(b))
                          + run.TierKept(Daily) + run.TierKept(Weekly) + run.TierKept(Monthly)
  {
    hide Run.TierKeeps, Run.Newest, Run.Future;
  }

  lemma UnionCard(A: set<Backup>, B: set<Backup>, C: set<Backup>, D: set<Backup>, E: set<Backup>)
    ensures |A + B + C + D + E| <= |A| + |B| + |C| + |D| + |E|
  {
  }

  // What is kept beyond them is bounded by the three counts together.
  lemma KeptTotal(run: Run)
    requires ValidPolicy(run.policy)
    ensures var future := set b | b in run.items && run.Future(b);
            |run.Kept()| <= 1 + |future| + run.policy.daily + run.policy.weekly + run.policy.monthly
  {
    hide Run.TierKept, Run.Kept, Run.Buckets;
    OneNewest(run);
    KeptParts(run);
    TierKeepsExactly(run, Daily);
    TierKeepsExactly(run, Weekly);
    TierKeepsExactly(run, Monthly);
    UnionCard((set b | b in run.items && run.Newest(b)), (set b | b in run.items && run.Future(b)),
              run.TierKept(Daily), run.TierKept(Weekly), run.TierKept(Monthly));
  }

  ghost predicate SameReach(run: Run, S: set<Backup>, t: Tier) {
    forall b :: b in run.items ==> (run.(items := S).Reaches(t, b) <==> run.Reaches(t, b))
  }

  // Removing unkept backups leaves each tier's verdict on the buckets.
  lemma QuotaKept(run: Run, S: set<Backup>, t: Tier)
    requires ValidPolicy(run.policy) && run.Kept() <= S <= run.items && SameReach(run, S, t)
    ensures forall b :: b in run.items && run.Reaches(t, b) ==>
              (Q.InQuota(run.(items := S).Buckets(t), run.Bucket(t, b), run.Count(t))
               <==> Q.InQuota(run.Buckets(t), run.Bucket(t, b), run.Count(t)))
  {
    hide Run.Kept, Run.TierKept, Run.Reaches, Run.Bucket, Run.Count, Q.InQuota, Q.Top;
    var next := run.(items := S);
    var N, M := run.Buckets(t), next.Buckets(t);
    SameFunctions(run, S, t);
    assert run.Count(t) >= 0 by { CountsAre(run); TierCases(run, t); }
    forall n | n in Q.Top(N, run.Count(t)) ensures n in M {
      var b := BucketRepresented(run, t, n);
      KeptIsOnHand(run, b);
      KeptKeeps(run, t, b);
      assert next.Reaches(t, b) && next.Bucket(t, b) == n;
    }
    forall n | n in M ensures n in N {
      var b :| b in S && next.Reaches(t, b) && next.Bucket(t, b) == n;
    }
    forall b | b in run.items && run.Reaches(t, b)
      ensures Q.InQuota(M, run.Bucket(t, b), run.Count(t)) <==> Q.InQuota(N, run.Bucket(t, b), run.Count(t))
    {
      Q.QuotaStable(N, M, run.Bucket(t, b), run.Count(t));
    }
  }

  lemma TierCases(run: Run, t: Tier)
    ensures run.Count(t) == run.policy.daily || run.Count(t) == run.policy.weekly || run.Count(t) == run.policy.monthly
  {
  }

  lemma KeptIsOnHand(run: Run, b: Backup)
    requires b in run.Kept()
    ensures b in run.items
  {
  }

  lemma SameFunctions(run: Run, S: set<Backup>, t: Tier)
    ensures forall b :: run.(items := S).Bucket(t, b) == run.Bucket(t, b)
    ensures run.(items := S).Count(t) == run.Count(t)
  {
  }

  lemma TierStable(run: Run, S: set<Backup>, t: Tier)
    requires ValidPolicy(run.policy) && run.Kept() <= S <= run.items && SameReach(run, S, t)
    ensures forall b :: b in run.items && run.Reaches(t, b) ==>
              (Q.InQuota(run.(items := S).Buckets(t), run.Bucket(t, b), run.Count(t))
               <==> Q.InQuota(run.Buckets(t), run.Bucket(t, b), run.Count(t)))
    ensures forall b :: b in S ==> (run.(items := S).TierKeeps(t, b) <==> run.TierKeeps(t, b))
  {
    var next := run.(items := S);
    QuotaKept(run, S, t);
    forall b | b in S ensures next.TierKeeps(t, b) <==> run.TierKeeps(t, b) {
      if next.TierKeeps(t, b) { StaysTheNewest(run, S, t, b); }
      if run.TierKeeps(t, b) { StaysKept(run, S, t, b); }
    }
  }

  // The newest survivor of an in-quota bucket was the newest of the bucket.
  lemma StaysTheNewest(run: Run, S: set<Backup>, t: Tier, b: Backup)
    requires ValidPolicy(run.policy) && run.Kept() <= S <= run.items && SameReach(run, S, t)
    requires b in S && run.(items := S).TierKeeps(t, b)
    ensures run.TierKeeps(t, b)
  {
    QuotaKept(run, S, t);
    hide Run.Kept, Run.Buckets, Run.Reaches, Run.Bucket, Q.InQuota;
    SameFunctions(run, S, t);
    var n := run.Bucket(t, b);
    InTop(run, t, b);
    var c := BucketRepresented(run, t, n);
    KeptKeeps(run, t, c);
    assert NewestFirst(b, c) && NewestFirst(c, b);
    NewestFirstAntisymmetric(b, c);
  }

  lemma StaysKept(run: Run, S: set<Backup>, t: Tier, b: Backup)
    requires ValidPolicy(run.policy) && run.Kept() <= S <= run.items && SameReach(run, S, t)
    requires b in S && run.TierKeeps(t, b)
    ensures run.(items := S).TierKeeps(t, b)
  {
    QuotaKept(run, S, t);
    hide Run.Kept, Run.Buckets, Run.Reaches, Run.Bucket, Q.InQuota;
    SameFunctions(run, S, t);
  }

  lemma InTop(run: Run, t: Tier, b: Backup)
    requires b in run.items && run.Reaches(t, b) && Q.InQuota(run.Buckets(t), run.Bucket(t, b), run.Count(t))
    ensures run.Bucket(t, b) in Q.Top(run.Buckets(t), run.Count(t))
  {
  }

  lemma KeptKeeps(run: Run, t: Tier, c: Backup)
    requires c in run.TierKept(t)
    ensures c in run.items && run.TierKeeps(t, c)
  {
  }

  // Removing any backups that were not kept changes no verdict at the same instant.
  lemma PruneStable(run: Run, S: set<Backup>)
    requires ValidPolicy(run.policy) && run.Kept() <= S <= run.items
    ensures run.(items := S).Kept() == run.Kept()
  {
    var next := run.(items := S);
    TierStable(run, S, Daily);
    assert run.Buckets(Daily) == run.DailyBuckets() && next.Buckets(Daily) == next.DailyBuckets();
    forall b | b in run.items ensures next.HeldDaily(b) <==> run.HeldDaily(b) {}
    TierStable(run, S, Weekly);
    TierStable(run, S, Monthly);
    forall b | b in S && next.Newest(b) ensures b in run.Kept() {
      var c := NewestExists(run.items);
      assert NewestFirst(b, c) && NewestFirst(c, b);
      NewestFirstAntisymmetric(b, c);
    }
  }

  // Raising only the monthly count never drops a backup.
  lemma MonthlyMonotone(run: Run, monthly: int)
    requires ValidPolicy(run.policy) && run.policy.monthly <= monthly
    ensures run.Kept() <= run.(policy := run.policy.(monthly := monthly)).Kept()
  {
    var more := run.(policy := run.policy.(monthly := monthly));
    assert more.DailyBuckets() == run.DailyBuckets();
    forall b ensures more.HeldDaily(b) == run.HeldDaily(b) {}
    forall t: Tier ensures more.Buckets(t) == run.Buckets(t) {
      forall b ensures more.Reaches(t, b) == run.Reaches(t, b) {}
    }
    forall b | b in run.Kept() ensures b in more.Kept() {
      forall t: Tier | run.TierKeeps(t, b) ensures more.TierKeeps(t, b) {}
    }
  }

  // The tiers' buckets below the month tier, when only the weekly count grows.
  lemma WeeklyRaised(run: Run, weekly: int)
    requires ValidPolicy(run.policy) && run.policy.weekly <= weekly
    ensures var more := run.(policy := run.policy.(weekly := weekly));
            && (forall b :: more.TierKeeps(Daily, b) <==> run.TierKeeps(Daily, b))
            && (forall b :: run.Reaches(Monthly, b) <==> more.Reaches(Monthly, b) || (run.Reaches(Monthly, b) && more.InWeeklyWindow(b)))
            && (forall b :: run.Reaches(Weekly, b) ==> more.Reaches(Weekly, b))
            && (forall b :: more.Reaches(Weekly, b) <==> run.Reaches(Weekly, b) || (run.Reaches(Monthly, b) && more.InWeeklyWindow(b)))
  {
    var more := run.(policy := run.policy.(weekly := weekly));
    assert more.DailyBuckets() == run.DailyBuckets();
    forall b ensures more.HeldDaily(b) == run.HeldDaily(b) {}
    assert more.Buckets(Daily) == run.Buckets(Daily);
  }

  // What the week tier kept it keeps: the backups the wider window adds are all older.
  lemma WeekTierGrows(run: Run, weekly: int, b: Backup)
    requires ValidPolicy(run.policy) && run.policy.weekly <= weekly && b in run.items && run.TierKeeps(Weekly, b)
    ensures run.(policy := run.policy.(weekly := weekly)).TierKeeps(Weekly, b)
  {
    var more := run.(policy := run.policy.(weekly := weekly));
    WeeklyRaised(run, weekly);
    var n := run.Bucket(Weekly, b);
    forall m | m in Q.Above(more.Buckets(Weekly), n) ensures m in Q.Above(run.Buckets(Weekly), n) {
      var y :| y in run.items && more.Reaches(Weekly, y) && more.Bucket(Weekly, y) == m;
      if !run.Reaches(Weekly, y) { run.BucketMonotone(Weekly, y, b); }
    }
    Q.SubsetCard(Q.Above(more.Buckets(Weekly), n), Q.Above(run.Buckets(Weekly), n));
    forall y | y in run.items && more.Reaches(Weekly, y) && more.Bucket(Weekly, y) == more.Bucket(Weekly, b) ensures NewestFirst(b, y) {}
  }

  // What the month tier kept and still reaches it, it keeps.
  lemma MonthTierStays(run: Run, weekly: int, b: Backup)
    requires ValidPolicy(run.policy) && run.policy.weekly <= weekly && b in run.items && run.TierKeeps(Monthly, b)
    requires !run.(policy := run.policy.(weekly := weekly)).InWeeklyWindow(b)
    ensures run.(policy := run.policy.(weekly := weekly)).TierKeeps(Monthly, b)
  {
    var more := run.(policy := run.policy.(weekly := weekly));
    WeeklyRaised(run, weekly);
    var n := run.Bucket(Monthly, b);
    Q.SubsetCard(Q.Above(more.Buckets(Monthly), n), Q.Above(run.Buckets(Monthly), n));
    assert more.Reaches(Monthly, b);
  }

  // Raising only the weekly count drops no backup if and only if every backup
  // the month tier kept and the wider window takes away from it is either the
  // newest of all or kept by the week tier instead.
  lemma WeeklyMonotoneIff(run: Run, weekly: int)
    requires ValidPolicy(run.policy) && run.policy.weekly <= weekly
    ensures var more := run.(policy := run.policy.(weekly := weekly));
            run.Kept() <= more.Kept()
            <==> forall b :: b in run.items && run.TierKeeps(Monthly, b) && !run.Newest(b) && more.InWeeklyWindow(b)
                             ==> more.TierKeeps(Weekly, b)
  {
    hide Run.TierKeeps, Run.HeldDaily;
    var more := run.(policy := run.policy.(weekly := weekly));
    WeeklyRaised(run, weekly);
    forall b | b in run.items && run.TierKeeps(Weekly, b) ensures more.TierKeeps(Weekly, b) { WeekTierGrows(run, weekly, b); }
    forall b | b in run.items && run.TierKeeps(Monthly, b) && !more.InWeeklyWindow(b) ensures more.TierKeeps(Monthly, b) {
      MonthTierStays(run, weekly, b);
    }
    forall b | b in run.items && run.TierKeeps(Monthly, b) && !run.Newest(b) && more.InWeeklyWindow(b) && b in more.Kept()
      ensures more.TierKeeps(Weekly, b)
    {
      OneTier(run, b);
      OneTier(more, b);
    }
  }

  // A backup a tier keeps reaches that tier.
  lemma OneTier(run: Run, b: Backup)
    ensures forall t: Tier :: run.TierKeeps(t, b) ==> run.Reaches(t, b)
    ensures run.Reaches(Monthly, b) ==> !run.Reaches(Daily, b) || !run.HeldDaily(b)
    ensures run.TierKeeps(Daily, b) ==> run.HeldDaily(b)
  {
    assert run.Buckets(Daily) == run.DailyBuckets();
  }

  // In particular nothing is lost if no backup that falls through to the month
  // tier is young enough for the wider window.
  lemma WeeklyMonotoneOutsideGap(run: Run, weekly: int)
    requires ValidPolicy(run.policy) && run.policy.weekly <= weekly
    requires forall b :: b in run.items && run.Reaches(Monthly, b)
                         ==> !run.(policy := run.policy.(weekly := weekly)).InWeeklyWindow(b)
    ensures run.Kept() <= run.(policy := run.policy.(weekly := weekly)).Kept()
  {
    WeeklyMonotoneIff(run, weekly);
  }

  // It does happen: of two backups of 31 January and 1 February 1970, one ISO
  // week, raising the weekly count from 0 to 1 drops the older, because the
  // wider window takes it away from the month tier.
  lemma WeeklyIsNotMonotone(month: Calendar)
    requires month(30) < month(31)
    ensures var newer, older := Backup(31 * DAY, "b"), Backup(30 * DAY, "a");
            var few := Run({newer, older}, Policy(0, 0, 2), 33 * DAY, month);
            older in few.Kept() && older !in few.(policy := Policy(0, 1, 2)).Kept()
  {
    var newer, older := Backup(31 * DAY, "b"), Backup(30 * DAY, "a");
    var few := Run({newer, older}, Policy(0, 0, 2), 33 * DAY, month);
    var more := few.(policy := Policy(0, 1, 2));
    assert few.Buckets(Monthly) == {month(30), month(31)} by {
      assert few.Reaches(Monthly, newer) && few.Reaches(Monthly, older);
      assert few.Bucket(Monthly, newer) == month(31) && few.Bucket(Monthly, older) == month(30);
    }
    assert Q.Above({month(30), month(31)}, month(30)) == {month(31)};
    assert few.TierKeeps(Monthly, older);
    assert more.Reaches(Weekly, newer) && more.Bucket(Weekly, newer) == more.Bucket(Weekly, older) == 4;
    assert newer in more.items && !NewestFirst(older, newer);
    assert !more.TierKeeps(Weekly, older) && !more.Reaches(Daily, older) && !more.Reaches(Monthly, older);
  }

  // ---- What the buckets and windows are ----

  // The instant lies in the k-th UTC day after 1970-01-01.
  predicate OnDay(k: int, t: int) { k * 86_400_000_000 <= t < (k + 1) * 86_400_000_000 }

  // The instant lies in the k-th week that starts on a Monday; the first one after
  // 1970-01-01 starts on 1970-01-05.
  predicate InWeek(k: int, t: int) { (4 + 7 * k) * 86_400_000_000 <= t < (4 + 7 * (k + 1)) * 86_400_000_000 }

  lemma DayOf(t: int) returns (k: int)
    ensures OnDay(k, t) && k == t / DAY && forall j :: OnDay(j, t) ==> j == k
  {
    k := t / DAY;
  }

  lemma WeekOf(t: int) returns (k: int)
    ensures InWeek(k, t) && k == (t / DAY + 3) / 7 - 1 && forall j :: InWeek(j, t) ==> j == k
  {
    var d := t / DAY;
    k := (d + 3) / 7 - 1;
    assert 4 + 7 * k <= d < 4 + 7 * (k + 1);
    forall j | InWeek(j, t) ensures j == k {
      assert 4 + 7 * j <= d < 4 + 7 * (j + 1);
    }
  }

  // Two backups share the daily key if and only if they are of one UTC day, the
  // weekly key if and only if they are of one week from Monday to Sunday, and
  // the monthly key if and only if the months of their days agree.
  lemma BucketsAre(run: Run, a: Backup, b: Backup)
    ensures run.Bucket(Daily, a) == run.Bucket(Daily, b) <==> exists k :: OnDay(k, a.createdAt) && OnDay(k, b.createdAt)
    ensures run.Bucket(Weekly, a) == run.Bucket(Weekly, b) <==> exists k :: InWeek(k, a.createdAt) && InWeek(k, b.createdAt)
    ensures run.Bucket(Monthly, a) == run.Bucket(Monthly, b)
            <==> exists j, k :: OnDay(j, a.createdAt) && OnDay(k, b.createdAt) && run.month(j) == run.month(k)
  {
    var da := DayOf(a.createdAt);
    var db := DayOf(b.createdAt);
    var wa := WeekOf(a.createdAt);
    var wb := WeekOf(b.createdAt);
    hide OnDay, InWeek;
  }

  // The windows in microseconds; what the counts of the policy are for.
  lemma WindowsAre(run: Run, b: Backup)
    ensures run.Future(b) <==> run.now - b.createdAt < 0
    ensures run.InDailyWindow(b)
            <==> 0 <= run.now - b.createdAt <= (if run.policy.daily > 1 then run.policy.daily else 1) * 86_400_000_000
    ensures run.InWeeklyWindow(b)
            <==> && 0 <= run.now - b.createdAt
                 && run.now - b.createdAt
                    <= (if run.policy.daily + run.policy.weekly * 7 > 1 then run.policy.daily + run.policy.weekly * 7 else 1) * 86_400_000_000
    ensures run.Count(Daily) == run.policy.daily && run.Count(Weekly) == run.policy.weekly
    ensures run.Count(Monthly) == run.policy.monthly
  {
  }

  // No older than the daily count in days (or one day), and not from the future.
  predicate Recent(run: Run, b: Backup) {
    0 <= run.now - b.createdAt <= (if run.policy.daily > 1 then run.policy.daily else 1) * 86_400_000_000
  }

  // The days after the k-th that hold a recent backup.
  function LaterDays(run: Run, k: int): set<int> {
    set b | b in run.items && Recent(run, b) && b.createdAt >= (k + 1) * 86_400_000_000 :: b.createdAt / 86_400_000_000
  }

  // The day tier keeps a backup if and only if it is recent, the newest of the
  // recent backups of its UTC day, and fewer than `daily` later days have any.
  lemma DayTierKeeps(run: Run, b: Backup, k: int)
    requires b in run.items && OnDay(k, b.createdAt)
    ensures run.TierKeeps(Daily, b)
            <==> && Recent(run, b) && |LaterDays(run, k)| < run.policy.daily
                 && forall y :: y in run.items && Recent(run, y) && OnDay(k, y.createdAt) ==>
                      y.createdAt < b.createdAt || (y.createdAt == b.createdAt && StringLeq(y.name, b.name))
  {
    var j := DayOf(b.createdAt);
    forall y: Backup ensures run.Reaches(Daily, y) <==> Recent(run, y) { WindowsAre(run, y); }
    forall y: Backup ensures OnDay(k, y.createdAt) <==> run.Bucket(Daily, y) == k { var d := DayOf(y.createdAt); }
    LaterDaysAre(run, k);
  }

  lemma LaterDaysAre(run: Run, k: int)
    ensures LaterDays(run, k) == Q.Above(run.Buckets(Daily), k)
  {
    forall n ensures n in LaterDays(run, k) <==> n in Q.Above(run.Buckets(Daily), k) {
      if n in LaterDays(run, k) {
        var b :| b in run.items && Recent(run, b) && b.createdAt >= (k + 1) * 86_400_000_000 && b.createdAt / 86_400_000_000 == n;
        assert run.Reaches(Daily, b) && run.Bucket(Daily, b) == n && n > k;
      }
      if n in Q.Above(run.Buckets(Daily), k) {
        var b :| b in run.items && run.Reaches(Daily, b) && run.Bucket(Daily, b) == n;
        assert Recent(run, b) && b.createdAt >= (k + 1) * 86_400_000_000;
      }
    }
  }

  // Over the whole day tier: one kept backup for each of the newest `daily` UTC
  // days with a recent backup, and for no other day.
  lemma OnePerDay(run: Run, k: int)
    requires ValidPolicy(run.policy)
    ensures (exists b :: b in run.items && Recent(run, b) && OnDay(k, b.createdAt)) && |LaterDays(run, k)| < run.policy.daily
            <==> exists b :: b in run.TierKept(Daily) && OnDay(k, b.createdAt)
    ensures forall a, b :: a in run.TierKept(Daily) && b in run.TierKept(Daily) && OnDay(k, a.createdAt) && OnDay(k, b.createdAt) ==> a == b
  {
    LaterDaysAre(run, k);
    forall y: Backup ensures run.Reaches(Daily, y) <==> Recent(run, y) { WindowsAre(run, y); }
    forall y: Backup ensures OnDay(k, y.createdAt) <==> run.Bucket(Daily, y) == k { var d := DayOf(y.createdAt); }
    TierKeepsExactly(run, Daily);
    hide Recent, OnDay, LaterDays, Run.Reaches, Run.Bucket;
    CountsAre(run);
    assert k in Q.Top(run.Buckets(Daily), run.policy.daily) <==> k in run.Buckets(Daily) && |LaterDays(run, k)| < run.policy.daily;
    assert k in run.Buckets(Daily) <==> exists b :: b in run.items && Recent(run, b) && OnDay(k, b.createdAt) by {
      if x :| x in run.items && Recent(run, x) && OnDay(k, x.createdAt) {
        assert run.Reaches(Daily, x) && run.Bucket(Daily, x) == k;
      }
      if k in run.Buckets(Daily) {
        var x :| x in run.items && run.Reaches(Daily, x) && run.Bucket(Daily, x) == k;
        assert Recent(run, x) && OnDay(k, x.createdAt);
      }
    }
    if b :| b in run.TierKept(Daily) && OnDay(k, b.createdAt) { assert run.Bucket(Daily, b) == k; }
    forall a, b | a in run.TierKept(Daily) && b in run.TierKept(Daily) && OnDay(k, a.createdAt) && OnDay(k, b.createdAt) ensures a == b {
      assert NewestFirst(a, b) && NewestFirst(b, a);
      NewestFirstAntisymmetric(a, b);
    }
  }

  function Survivors(stored: seq<Backup>, keep: set<string>): (r: seq<Backup>)
    ensures forall b :: b in r <==> b in stored && b.name in keep
  {
    if stored == [] then []
    else (if stored[0].name in keep then [stored[0]] else []) + Survivors(stored[1..], keep)
  }

  lemma {:induction false} SurvivorsStay(stored: seq<Backup>, keep: set<string>)
    requires forall b :: b in stored ==> b.name in keep
    ensures Survivors(stored, keep) == stored
  {
    if stored != [] { SurvivorsStay(stored[1..], keep); }
  }

  lemma SurvivorsNil(keep: set<string>)
    ensures Survivors([], keep) == []
  {
  }

  lemma SurvivorsCons(stored: seq<Backup>, keep: set<string>)
    requires stored != []
    ensures Survivors(stored, keep)
            == (if stored[0].name in keep then [stored[0]] else []) + Survivors(stored[1..], keep)
  {
  }

  // The backups left in a target after pruning it.
  ghost function PruneOnce(stored: seq<Backup>, policy: Policy, now: int, month: Calendar): seq<Backup> {
    Survivors(stored, Run((set b | b in stored), policy, now, month).KeptNames())
  }

  // Pruning the survivors again at the same instant removes nothing.
  lemma PruneFixpoint(stored: seq<Backup>, policy: Policy, now: int, month: Calendar)
    requires ValidPolicy(policy)
    ensures PruneOnce(PruneOnce(stored, policy, now, month), policy, now, month)
            == PruneOnce(stored, policy, now, month)
  {
    var run := Run((set b | b in stored), policy, now, month);
    var once := PruneOnce(stored, policy, now, month);
    var S := set b | b in once;
    PruneStable(run, S);
    assert run.(items := S) == Run(S, policy, now, month);
    SurvivorsStay(once, run.KeptNames());
  }

  // The prepared target directory: its artifacts with valid receipts.
  class OffsiteTarget {
    var stored: seq<Backup>

    constructor (found: seq<Backup>)
      ensures stored == found
    {
      stored := found;
    }

    method Prune(policy: Policy, now: int, month: Calendar, apply: bool) returns (r: Result<(nat, nat)>)
      modifies this
      ensures r.NegativeCount? ==> stored == old(stored)
      ensures r.NegativeCount? <==> old(stored) != [] && !ValidPolicy(policy)
      ensures r.Ok? ==>
        var keep := if old(stored) == [] then {} else Run((set b | b in old(stored)), policy, now, month).KeptNames();
        && r.value.0 == |keep|
        && r.value.1 == |old(stored)| - |Survivors(old(stored), keep)|
        && stored == if apply then PruneOnce(old(stored), policy, now, month) else old(stored)
    {
      hide Run.KeptNames, Survivors;
      var kept := RetainedBackupPaths(stored, policy, now, month);
      if kept.NegativeCount? {
        return NegativeCount;
      }
      var keep := kept.value;
      var survivors, removable: nat := [], 0;
      assert stored[..|stored|] == stored;
      for i := 0 to |stored|
        invariant stored == old(stored)
        invariant survivors + Survivors(stored[i..], keep) == Survivors(stored, keep)
        invariant removable == i - |survivors|
      {
        SurvivorsCons(stored[i..], keep);
        assert stored[i..][1..] == stored[i + 1..];
        if stored[i].name in keep {
          survivors := survivors + [stored[i]];
        } else {
          removable := removable + 1;
        }
      }
      SurvivorsNil(keep);
      SurvivorsNil(Run((set b | b in stored), policy, now, month).KeptNames());
      if apply {
        stored := survivors;
      }
      return Ok((|keep|, removable));
    }
  }
}
