/** Greedy least-loaded scheduling and Graham's bounds for it.

    A job list is a sequence of weights `v`, an assignment is a sequence `f` of machine
    numbers of the same length, and there are `m` machines.  The same `Load` function also
    serves for counting: give every job a 0/1 weight and `Load` counts jobs. */
module LoadBalance {

  function Sum(v: seq<nat>): nat {
    if |v| == 0 then 0 else Sum(v[..|v| - 1]) + v[|v| - 1]
  }

  /** The weight that assignment `f` puts on machine `k`. */
  function Load(v: seq<nat>, f: seq<nat>, k: nat): nat
    requires |f| == |v|
  {
    if |v| == 0 then 0
    else
      var n := |v| - 1;
      Load(v[..n], f[..n], k) + (if f[n] == k then v[n] else 0)
  }

  function TotalLoad(v: seq<nat>, f: seq<nat>, m: nat): nat
    requires |f| == |v|
  {
    if m == 0 then 0 else TotalLoad(v, f, m - 1) + Load(v, f, m - 1)
  }

  ghost predicate Assignment(f: seq<nat>, n: nat, m: nat) {
    |f| == n && forall i :: 0 <= i < n ==> f[i] < m
  }

  ghost predicate Descending(v: seq<nat>) {
    forall i, j :: 0 <= i < j < |v| ==> v[i] >= v[j]
  }

  /** Every machine carries at least `low`. */
  ghost predicate NoneBelow(v: seq<nat>, f: seq<nat>, m: nat, low: nat)
    requires |f| == |v|
  {
    forall k :: 0 <= k < m ==> low <= Load(v, f, k)
  }

  function MaxLoad(v: seq<nat>, f: seq<nat>, m: nat): (r: nat)
    requires |f| == |v| && m >= 1
    ensures forall k :: 0 <= k < m ==> Load(v, f, k) <= r
    ensures exists k :: 0 <= k < m && Load(v, f, k) == r
  {
    if m == 1 then Load(v, f, 0)
    else
      var r := MaxLoad(v, f, m - 1);
      if Load(v, f, m - 1) > r then Load(v, f, m - 1) else r
  }

  /** The first machine of least load. */
  function LeastLoaded(v: seq<nat>, f: seq<nat>, m: nat): (r: nat)
    requires |f| == |v| && m >= 1
    ensures r < m
    ensures forall k :: 0 <= k < m ==> Load(v, f, r) <= Load(v, f, k)
    ensures forall k :: 0 <= k < r ==> Load(v, f, r) < Load(v, f, k)
  {
    if m == 1 then 0
    else
      var r := LeastLoaded(v, f, m - 1);
      if Load(v, f, m - 1) < Load(v, f, r) then m - 1 else r
  }

  /** Jobs in list order, each to the first least-loaded machine. */
  function Greedy(v: seq<nat>, m: nat): (f: seq<nat>)
    requires m >= 1
    ensures Assignment(f, |v|, m)
  {
    if |v| == 0 then []
    else
      var g := Greedy(v[..|v| - 1], m);
      g + [LeastLoaded(v[..|v| - 1], g, m)]
  }

  // ---- Bookkeeping -------------------------------------------------------

  lemma {:induction false} TotalStep(v: seq<nat>, f: seq<nat>, m: nat)
    requires |f| == |v| > 0
    ensures TotalLoad(v, f, m)
         == TotalLoad(v[..|v| - 1], f[..|v| - 1], m) + (if f[|v| - 1] < m then v[|v| - 1] else 0)
  {
    if m > 0 {
      TotalStep(v, f, m - 1);
    }
  }

  /** No weight is lost or duplicated: the machine loads add up to the job list. */
  lemma {:induction false} LoadsAddUp(v: seq<nat>, f: seq<nat>, m: nat)
    requires Assignment(f, |v|, m)
    ensures TotalLoad(v, f, m) == Sum(v)
  {
    var n := |v|;
    if n == 0 {
      NoJobs(v, f, m);
    } else {
      TotalStep(v, f, m);
      LoadsAddUp(v[..n - 1], f[..n - 1], m);
    }
  }

  lemma {:induction false} NoJobs(v: seq<nat>, f: seq<nat>, m: nat)
    requires |v| == |f| == 0
    ensures TotalLoad(v, f, m) == 0
  {
    if m > 0 { NoJobs(v, f, m - 1); }
  }

  lemma {:induction false} TotalBelow(v: seq<nat>, f: seq<nat>, m: nat, c: nat)
    requires |f| == |v|
    requires forall k :: 0 <= k < m ==> Load(v, f, k) <= c
    ensures TotalLoad(v, f, m) <= m * c
  {
    if m > 0 { TotalBelow(v, f, m - 1, c); }
  }

  lemma {:induction false} TotalAbove(v: seq<nat>, f: seq<nat>, m: nat, c: nat)
    requires |f| == |v|
    requires forall k :: 0 <= k < m ==> c <= Load(v, f, k)
    ensures m * c <= TotalLoad(v, f, m)
  {
    if m > 0 { TotalAbove(v, f, m - 1, c); }
  }

  lemma AverageBelowMax(v: seq<nat>, f: seq<nat>, m: nat)
    requires Assignment(f, |v|, m) && m >= 1
    ensures Sum(v) <= m * MaxLoad(v, f, m)
  {
    LoadsAddUp(v, f, m);
    TotalBelow(v, f, m, MaxLoad(v, f, m));
  }

  /** Dropping the last job cannot raise the makespan of any assignment. */
  lemma MaxLoadOfPrefix(v: seq<nat>, f: seq<nat>, m: nat)
    requires Assignment(f, |v|, m) && m >= 1 && |v| > 0
    ensures Assignment(f[..|v| - 1], |v| - 1, m)
    ensures MaxLoad(v[..|v| - 1], f[..|v| - 1], m) <= MaxLoad(v, f, m)
  {
    var v', f' := v[..|v| - 1], f[..|v| - 1];
    var k :| 0 <= k < m && Load(v', f', k) == MaxLoad(v', f', m);
    assert Load(v', f', k) <= Load(v, f, k);
  }

  /** What the last greedy placement does to the makespan. */
  lemma GreedyLastStep(v: seq<nat>, m: nat) returns (low: nat)
    requires m >= 1 && |v| > 0
    ensures var v' := v[..|v| - 1];
      && m * low <= Sum(v')
      && NoneBelow(v', Greedy(v', m), m, low)
      && (MaxLoad(v, Greedy(v, m), m) == MaxLoad(v', Greedy(v', m), m)
          || MaxLoad(v, Greedy(v, m), m) == low + v[|v| - 1])
  {
    var v' := v[..|v| - 1];
    var g', g := Greedy(v', m), Greedy(v, m);
    assert g[..|v| - 1] == g';
    var b := LeastLoaded(v', g', m);
    low := Load(v', g', b);
    LoadsAddUp(v', g', m);
    TotalAbove(v', g', m, low);
    var k :| 0 <= k < m && Load(v, g, k) == MaxLoad(v, g, m);
    if k != b {
      MaxLoadOfPrefix(v, g, m);
      assert Load(v, g, k) == Load(v', g', k);
    }
  }

  // ---- Graham's list-scheduling bound ------------------------------------

  /** Greedy in any order: m * makespan <= total + (m - 1) * largest job. */
  lemma {:induction false} ListSchedulingBound(v: seq<nat>, m: nat, big: nat)
    requires m >= 1
    requires forall i :: 0 <= i < |v| ==> v[i] <= big
    ensures m * MaxLoad(v, Greedy(v, m), m) <= Sum(v) + (m - 1) * big
  {
    if |v| == 0 {
      assert Load(v, Greedy(v, m), 0) == 0;
    } else {
      var n := |v| - 1;
      ListSchedulingBound(v[..n], m, big);
      var low := GreedyLastStep(v, m);
      ListStep(m, MaxLoad(v, Greedy(v, m), m), MaxLoad(v[..n], Greedy(v[..n], m), m), low, v[n], Sum(v[..n]), big);
    }
  }

  lemma ListStep(m: nat, c: nat, c': nat, low: nat, p: nat, total': nat, big: nat)
    requires m >= 1 && p <= big && m * low <= total'
    requires m * c' <= total' + (m - 1) * big
    requires c == c' || c == low + p
    ensures m * c <= total' + p + (m - 1) * big
  {
    if c != c' {
      ScaleMono(m - 1, p, big);
      assert m * (low + p) == m * low + p + (m - 1) * p;
    }
  }

  lemma ScaleMono(a: nat, x: nat, y: nat)
    requires x <= y
    ensures a * x <= a * y
  {
  }

  // ---- Longest-processing-time-first -------------------------------------

  /** Weight 2 for a job that cannot share a machine within `cap` with any job of size at
      least `p`; weight 1 otherwise. */
  function PairWeights(v: seq<nat>, p: nat, cap: nat): (w: seq<nat>)
    ensures |w| == |v|
    ensures forall i :: 0 <= i < |v| ==> w[i] == (if v[i] + p > cap then 2 else 1)
  {
    seq(|v|, i requires 0 <= i < |v| => if v[i] + p > cap then 2 else 1)
  }

  function Ones(n: nat): (w: seq<nat>)
    ensures |w| == n && forall i :: 0 <= i < n ==> w[i] == 1
  {
    seq(n, i => 1)
  }

  lemma PairWeightsPrefix(v: seq<nat>, p: nat, cap: nat, n: nat)
    requires n <= |v|
    ensures PairWeights(v, p, cap)[..n] == PairWeights(v[..n], p, cap)
    ensures Ones(|v|)[..n] == Ones(n)
  {
  }

  /** On one machine of a schedule within `cap`, where every job has size at least `p` and
      three jobs of size `p` do not fit: the pair weights add up to at most 2.  With two
      jobs, each fits beside the other, so both have weight 1. */
  lemma {:induction false} FewWeights(v: seq<nat>, f: seq<nat>, k: nat, p: nat, cap: nat)
    requires |f| == |v|
    requires forall i :: 0 <= i < |v| ==> v[i] >= p
    requires Load(v, f, k) <= cap < 3 * p
    ensures Load(PairWeights(v, p, cap), f, k) <= 2
  {
    var c := Load(Ones(|v|), f, k);
    CountTimesLeast(v, f, k, p);
    if c >= 3 { ScaleMono(p, 3, c); assert false; }
    TwicePerJob(v, f, k, p, cap);
    if c == 2 { PairsAreLight(v, f, k, p, cap, Load(v, f, k)); }
  }

  lemma {:induction false} CountTimesLeast(v: seq<nat>, f: seq<nat>, k: nat, p: nat)
    requires |f| == |v|
    requires forall i :: 0 <= i < |v| ==> v[i] >= p
    ensures p * Load(Ones(|v|), f, k) <= Load(v, f, k)
  {
    var n := |v| - 1;
    if n >= 0 {
      PairWeightsPrefix(v, 0, 0, n);
      CountTimesLeast(v[..n], f[..n], k, p);
    }
  }

  lemma {:induction false} TwicePerJob(v: seq<nat>, f: seq<nat>, k: nat, p: nat, cap: nat)
    requires |f| == |v|
    ensures Load(Ones(|v|), f, k) <= Load(PairWeights(v, p, cap), f, k) <= 2 * Load(Ones(|v|), f, k)
  {
    var n := |v| - 1;
    if n >= 0 {
      PairWeightsPrefix(v, p, cap, n);
      TwicePerJob(v[..n], f[..n], k, p, cap);
    }
  }

  /** If the machine holds two jobs, every one of them leaves room for another of size p. */
  lemma {:induction false} PairsAreLight(v: seq<nat>, f: seq<nat>, k: nat, p: nat, cap: nat, total: nat)
    requires |f| == |v|
    requires forall i :: 0 <= i < |v| ==> v[i] >= p
    requires Load(Ones(|v|), f, k) <= 2
    requires total <= cap
    requires Load(v, f, k) + (2 - Load(Ones(|v|), f, k)) * p <= total
    ensures Load(PairWeights(v, p, cap), f, k) == Load(Ones(|v|), f, k)
  {
    var n := |v| - 1;
    if n >= 0 {
      PairWeightsPrefix(v, p, cap, n);
      CountTimesLeast(v[..n], f[..n], k, p);
      PairsAreLight(v[..n], f[..n], k, p, cap, total);
    }
  }

  /** On a machine that cannot take one more job of size p: the pair weights are at least 2. */
  lemma {:induction false} EnoughWeights(v: seq<nat>, f: seq<nat>, k: nat, p: nat, cap: nat)
    requires |f| == |v|
    requires p <= cap < Load(v, f, k) + p
    ensures Load(PairWeights(v, p, cap), f, k) >= 2
  {
    TwicePerJob(v, f, k, p, cap);
    if Load(Ones(|v|), f, k) <= 1 { LoneJob(v, f, k, p, cap); }
  }

  lemma {:induction false} LoneJob(v: seq<nat>, f: seq<nat>, k: nat, p: nat, cap: nat)
    requires |f| == |v|
    requires Load(Ones(|v|), f, k) <= 1
    requires p <= cap < Load(v, f, k) + p
    ensures Load(PairWeights(v, p, cap), f, k) >= 2
  {
    var n := |v| - 1;
    if n >= 0 {
      PairWeightsPrefix(v, p, cap, n);
      if f[n] == k {
        EmptyMachine(v[..n], f[..n], k);
      } else {
        LoneJob(v[..n], f[..n], k, p, cap);
      }
    }
  }

  lemma {:induction false} EmptyMachine(v: seq<nat>, f: seq<nat>, k: nat)
    requires |f| == |v| && Load(Ones(|v|), f, k) == 0
    ensures Load(v, f, k) == 0
  {
    var n := |v| - 1;
    if n >= 0 {
      PairWeightsPrefix(v, 0, 0, n);
      EmptyMachine(v[..n], f[..n], k);
    }
  }

  /** If the smallest job exceeds a third of the makespan of some schedule `f`, then the last
      greedy placement stays within that makespan.  Otherwise every machine would carry pair
      weight 2 before the last job, 2m + 1 in all, while `f` carries at most 2m. */
  lemma BigJobsFit(v: seq<nat>, m: nat, f: seq<nat>, g: seq<nat>, low: nat)
    requires m >= 1 && |v| > 0 && Descending(v)
    requires Assignment(f, |v|, m)
    requires MaxLoad(v, f, m) < 3 * v[|v| - 1]
    requires Assignment(g, |v| - 1, m)
    requires NoneBelow(v[..|v| - 1], g, m, low)
    ensures low + v[|v| - 1] <= MaxLoad(v, f, m)
  {
    var n := |v| - 1;
    var v', p, cap := v[..n], v[n], MaxLoad(v, f, m);
    var w := PairWeights(v, p, cap);
    assert p <= Load(v, f, f[n]) <= cap;
    if low + p > cap {
      forall k | 0 <= k < m ensures Load(w, f, k) <= 2 {
        FewWeights(v, f, k, p, cap);
      }
      TotalBelow(w, f, m, 2);
      LoadsAddUp(w, f, m);
      PairWeightsPrefix(v, p, cap, n);
      forall k | 0 <= k < m ensures 2 <= Load(w[..n], g, k) {
        EnoughWeights(v', g, k, p, cap);
      }
      TotalAbove(w[..n], g, m, 2);
      LoadsAddUp(w[..n], g, m);
      assert false;
    }
  }

  /** Graham's bound for longest-first greedy: makespan <= (4/3 - 1/(3m)) * optimum, stated
      against every assignment `f` and without division. */
  lemma {:induction false} LongestFirstBound(v: seq<nat>, m: nat, f: seq<nat>)
    requires m >= 1 && Descending(v) && Assignment(f, |v|, m)
    ensures 3 * m * MaxLoad(v, Greedy(v, m), m) <= (4 * m - 1) * MaxLoad(v, f, m)
  {
    var best := MaxLoad(v, f, m);
    if |v| == 0 {
      assert Load(v, Greedy(v, m), 0) == 0;
    } else {
      var n := |v| - 1;
      var c := MaxLoad(v, Greedy(v, m), m);
      var low := GreedyLastStep(v, m);
      if c == MaxLoad(v[..n], Greedy(v[..n], m), m) {
        MaxLoadOfPrefix(v, f, m);
        LongestFirstBound(v[..n], m, f[..n]);
        ChainBounds(m, c, MaxLoad(v[..n], f[..n], m), best);
      } else {
        LastJobBound(v, m, f, low, v[n], c, best);
      }
    }
  }

  /** The case in which the last job sets the makespan: it is small, or all jobs are big. */
  lemma LastJobBound(v: seq<nat>, m: nat, f: seq<nat>, low: nat, p: nat, c: nat, best: nat)
    requires |v| > 0 && m >= 1 && Descending(v) && Assignment(f, |v|, m)
    requires NoneBelow(v[..|v| - 1], Greedy(v[..|v| - 1], m), m, low) && m * low <= Sum(v[..|v| - 1])
    requires p == v[|v| - 1] && c == low + p && best == MaxLoad(v, f, m)
    ensures 3 * m * c <= (4 * m - 1) * best
  {
    if 3 * p <= best {
      SmallLast(v, m, f, low, p, c, best);
    } else {
      BigJobsFit(v, m, f, Greedy(v[..|v| - 1], m), low);
      WithinBest(m, c, best);
    }
  }

  lemma SmallLast(v: seq<nat>, m: nat, f: seq<nat>, low: nat, p: nat, c: nat, best: nat)
    requires |v| > 0 && m >= 1 && Assignment(f, |v|, m) && best == MaxLoad(v, f, m)
    requires m * low <= Sum(v[..|v| - 1]) && p == v[|v| - 1] && c == low + p && 3 * p <= best
    ensures 3 * m * c <= (4 * m - 1) * best
  {
    AverageBelowMax(v, f, m);
    assert Sum(v) == Sum(v[..|v| - 1]) + p;
    SmallLastJob(m, low, p, Sum(v), best);
  }

  lemma SmallLastJob(m: nat, low: nat, p: nat, total: nat, best: nat)
    requires m >= 1 && m * low + p <= total <= m * best && 3 * p <= best
    ensures 3 * m * (low + p) <= (4 * m - 1) * best
  {
    ScaleMono(m - 1, 3 * p, best);
    calc {
      3 * m * (low + p);
      3 * (m * low + p) + (m - 1) * (3 * p);
    <=
      3 * (m * best) + (m - 1) * best;
      (4 * m - 1) * best;
    }
  }

  lemma ChainBounds(m: nat, c: nat, prefixBest: nat, best: nat)
    requires m >= 1 && 3 * m * c <= (4 * m - 1) * prefixBest && prefixBest <= best
    ensures 3 * m * c <= (4 * m - 1) * best
  {
    ScaleMono(4 * m - 1, prefixBest, best);
  }

  lemma WithinBest(m: nat, c: nat, best: nat)
    requires m >= 1 && c <= best
    ensures 3 * m * c <= (4 * m - 1) * best
  {
    ScaleMono(3 * m, c, best);
    ScaleMono(best, 3 * m, 4 * m - 1);
    assert best * (3 * m) == 3 * m * best;
    assert best * (4 * m - 1) == (4 * m - 1) * best;
  }
}
