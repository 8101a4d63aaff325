// How many distinct buckets a bounded tier has room for, and which ones those are.
module Quota {

  // The members of N strictly newer (larger) than n.
  function Above(N: set<int>, n: int): set<int> { set m | m in N && m > n }

  // n is among the `quota` newest members of N.
  predicate InQuota(N: set<int>, n: int, quota: int) { |Above(N, n)| < quota }

  function Top(N: set<int>, quota: int): set<int> { set n | n in N && InQuota(N, n, quota) }

  lemma Pick<T>(S: set<T>) returns (x: T)
    requires |S| > 0
    ensures x in S
  {
    x :| x in S;
  }

  lemma {:induction false} SmallestExists(N: set<int>) returns (low: int)
    requires |N| > 0
    ensures low in N && forall n :: n in N ==> low <= n
  {
    var x := Pick(N);
    assert N == {x} + (N - {x});
    if |N| == 1 {
      low := x;
    } else {
      low := SmallestExists(N - {x});
      if x < low { low := x; }
    }
  }

  lemma SubsetCard<T>(A: set<T>, B: set<T>)
    requires A <= B
    ensures |A| <= |B|
  {
    assert B == A + (B - A);
  }

  // Exactly `quota` buckets fit, or all of them when there are fewer.
  lemma {:induction false} TopCount(N: set<int>, quota: nat)
    ensures |Top(N, quota)| == if |N| <= quota then |N| else quota
    decreases |N|
  {
    if |N| > 0 {
      var low := SmallestExists(N);
      var M := N - {low};
      TopCount(M, quota);
      forall n | n in M ensures Above(M, n) == Above(N, n) {}
      assert Above(N, low) == M;
      assert Top(N, quota) == Top(M, quota) + if |M| < quota then {low} else {};
    }
  }

  // A greedy pass in newest-first order that has seen the buckets P and stored
  // those of them that are in quota decides the next bucket k as `Top` does.
  lemma GreedyStep(N: set<int>, P: set<int>, k: int, quota: nat)
    requires k in N && P <= N
    requires forall n :: n in N && n > k ==> n in P
    requires forall p :: p in P ==> p >= k
    ensures var stored := set p | p in P && InQuota(N, p, quota);
            && ((k in stored || |stored| < quota) <==> InQuota(N, k, quota))
            && ((k !in stored && |stored| < quota) <==> (k !in P && InQuota(N, k, quota)))
  {
    var stored := set p | p in P && InQuota(N, p, quota);
    if InQuota(N, k, quota) {
      if k !in stored {
        forall n | n in Above(N, k) ensures n in stored {
          SubsetCard(Above(N, n), Above(N, k));
        }
        assert stored == Above(N, k);
      }
    } else {
      TopCount(N, quota);
      SubsetCard(Above(N, k), N);
      forall t | t in Top(N, quota) ensures t in stored {
        if t <= k { SubsetCard(Above(N, k), Above(N, t)); }
      }
      SubsetCard(Top(N, quota), stored);
    }
  }

  // Dropping buckets outside the quota leaves every remaining verdict alone.
  lemma QuotaStable(N: set<int>, M: set<int>, n: int, quota: nat)
    requires M <= N && Top(N, quota) <= M && n in N
    ensures InQuota(M, n, quota) <==> InQuota(N, n, quota)
  {
    SubsetCard(Above(M, n), Above(N, n));
    if !InQuota(N, n, quota) {
      TopCount(N, quota);
      SubsetCard(Above(N, n), N);
      forall t | t in Top(N, quota) ensures t in Above(M, n) {
        if t <= n { SubsetCard(Above(N, n), Above(N, t)); }
      }
      SubsetCard(Top(N, quota), Above(M, n));
    }
  }

  // The image of a set under a function that separates its members is as large.
  lemma {:induction false} InjectiveCard<T>(A: set<T>, B: set<int>, f: T -> int)
    requires forall a, b :: a in A && b in A && f(a) == f(b) ==> a == b
    requires forall b :: b in B <==> exists a :: a in A && f(a) == b
    ensures |A| == |B|
    decreases |A|
  {
    if |A| == 0 {
      if |B| > 0 { var b := Pick(B); assert false; }
    } else {
      var a :| a in A;
      assert A == {a} + (A - {a});
      assert f(a) in B;
      forall b ensures b in B - {f(a)} <==> exists c :: c in A - {a} && f(c) == b {
        if b in B - {f(a)} {
          var c :| c in A && f(c) == b;
          assert c in A - {a};
        }
      }
      InjectiveCard(A - {a}, B - {f(a)}, f);
    }
  }
}
