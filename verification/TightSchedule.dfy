/** Graham's factor for longest-first scheduling is reached on every number of machines, by two
    jobs each of the sizes 2m - 1 down to m + 1, and three jobs of size m. */
module TightSchedule {
  import opened LoadBalance

  function TightJobs(m: nat): (v: seq<nat>)
    requires m >= 1
    ensures |v| == 2 * m + 1 && v[2 * m] == m
    ensures forall j :: 0 <= j < 2 * m ==> v[j] == 2 * m - 1 - j / 2
  {
    seq(2 * m + 1, j requires 0 <= j < 2 * m + 1 => if j < 2 * m then 2 * m - 1 - j / 2 else m)
  }

  /** Pairs of size 3m on all machines but the first, which takes the three jobs of size m. */
  function BestAssignment(m: nat): (f: seq<nat>)
    requires m >= 1
    ensures Assignment(f, 2 * m + 1, m)
    ensures forall j :: 0 <= j < 2 * m + 1 ==>
      f[j] == if j >= 2 * m - 2 then 0 else if j < m - 1 then j + 1 else 2 * m - 2 - j
  {
    seq(2 * m + 1, j requires 0 <= j < 2 * m + 1 =>
      if j >= 2 * m - 2 then 0 else if j < m - 1 then j + 1 else 2 * m - 2 - j)
  }

  /** Without the last job: pairs of size 3m - 1 everywhere. */
  function PairAssignment(m: nat): (f: seq<nat>)
    requires m >= 1
    ensures Assignment(f, 2 * m, m)
    ensures forall j :: 0 <= j < 2 * m ==> f[j] == if j < m then j else 2 * m - 1 - j
  {
    seq(2 * m, j requires 0 <= j < 2 * m => if j < m then j else 2 * m - 1 - j)
  }

  // ---- Loads of machines with few jobs -----------------------------------

  lemma {:induction false} LoadOfNone(v: seq<nat>, f: seq<nat>, k: nat)
    requires |f| == |v| && forall i :: 0 <= i < |f| ==> f[i] != k
    ensures Load(v, f, k) == 0
  {
    if |v| > 0 { LoadOfNone(v[..|v| - 1], f[..|v| - 1], k); }
  }

  lemma {:induction false} LoadOfOne(v: seq<nat>, f: seq<nat>, k: nat, a: nat)
    requires |f| == |v| && a < |v| && forall i :: 0 <= i < |f| ==> (f[i] == k <==> i == a)
    ensures Load(v, f, k) == v[a]
  {
    var n := |v| - 1;
    if a == n { LoadOfNone(v[..n], f[..n], k); } else { LoadOfOne(v[..n], f[..n], k, a); }
  }

  lemma {:induction false} LoadOfTwo(v: seq<nat>, f: seq<nat>, k: nat, a: nat, b: nat)
    requires |f| == |v| && a < b < |v| && forall i :: 0 <= i < |f| ==> (f[i] == k <==> i == a || i == b)
    ensures Load(v, f, k) == v[a] + v[b]
  {
    var n := |v| - 1;
    if b == n { LoadOfOne(v[..n], f[..n], k, a); } else { LoadOfTwo(v[..n], f[..n], k, a, b); }
  }

  lemma {:induction false} AllFull(v: seq<nat>, f: seq<nat>, m: nat, c: nat)
    requires |f| == |v| && TotalLoad(v, f, m) == m * c
    requires forall k :: 0 <= k < m ==> Load(v, f, k) <= c
    ensures forall k :: 0 <= k < m ==> Load(v, f, k) == c
  {
    if m > 0 {
      TotalBelow(v, f, m - 1, c);
      assert m * c == (m - 1) * c + c;
      AllFull(v, f, m - 1, c);
    }
  }

  // ---- The best schedule -------------------------------------------------

  lemma PairLoads(m: nat, k: nat)
    requires k < m
    ensures Load(TightJobs(m)[..2 * m], PairAssignment(m), k) == 3 * m - 1
  {
    var u := TightJobs(m)[..2 * m];
    LoadOfTwo(u, PairAssignment(m), k, k, 2 * m - 1 - k);
    assert k / 2 + (2 * m - 1 - k) / 2 == m - 1;
  }

  lemma BestLoads(m: nat, k: nat)
    requires k < m
    ensures Load(TightJobs(m), BestAssignment(m), k) == 3 * m
  {
    var v, f := TightJobs(m), BestAssignment(m);
    var u, e := v[..2 * m], f[..2 * m];
    assert Load(v, f, k) == Load(u, e, k) + (if k == 0 then m else 0);
    if k == 0 {
      LoadOfTwo(u, e, 0, 2 * m - 2, 2 * m - 1);
    } else {
      LoadOfTwo(u, e, k, k - 1, 2 * m - 2 - k);
      assert (k - 1) / 2 + (2 * m - 2 - k) / 2 == m - 2;
    }
  }

  // ---- What greedy does --------------------------------------------------

  /** Longest-first stays within the makespan of any schedule all of whose jobs exceed a third
      of it. */
  lemma {:induction false} BigJobsStayWithin(u: seq<nat>, m: nat, f: seq<nat>, cap: nat)
    requires m >= 1 && Descending(u) && Assignment(f, |u|, m)
    requires forall k :: 0 <= k < m ==> Load(u, f, k) <= cap
    requires forall i :: 0 <= i < |u| ==> cap < 3 * u[i]
    ensures MaxLoad(u, Greedy(u, m), m) <= cap
  {
    if |u| > 0 {
      var n := |u| - 1;
      forall k | 0 <= k < m ensures Load(u[..n], f[..n], k) <= cap {
        assert Load(u[..n], f[..n], k) <= Load(u, f, k);
      }
      BigJobsStayWithin(u[..n], m, f[..n], cap);
      OneMoreFits(u, m, f, cap);
    } else {
      assert forall k :: 0 <= k < m ==> Load(u, Greedy(u, m), k) == 0;
    }
  }

  lemma OneMoreFits(w: seq<nat>, m: nat, f: seq<nat>, cap: nat)
    requires m >= 1 && |w| > 0 && Descending(w) && Assignment(f, |w|, m)
    requires (forall k :: 0 <= k < m ==> Load(w, f, k) <= cap) && cap < 3 * w[|w| - 1]
    requires MaxLoad(w[..|w| - 1], Greedy(w[..|w| - 1], m), m) <= cap
    ensures MaxLoad(w, Greedy(w, m), m) <= cap
  {
    var low := GreedyLastStep(w, m);
    BigJobsFit(w, m, f, Greedy(w[..|w| - 1], m), low);
  }

  /** So the machines are all full when the last job comes. */
  lemma BalancedBefore(m: nat, k: nat)
    requires k < m
    ensures var u := TightJobs(m)[..2 * m]; Load(u, Greedy(u, m), k) == 3 * m - 1
  {
    var u := TightJobs(m)[..2 * m];
    forall j | 0 <= j < m ensures Load(u, PairAssignment(m), j) == 3 * m - 1 { PairLoads(m, j); }
    BigJobsStayWithin(u, m, PairAssignment(m), 3 * m - 1);
    TotalBelow(u, PairAssignment(m), m, 3 * m - 1);
    TotalAbove(u, PairAssignment(m), m, 3 * m - 1);
    LoadsAddUp(u, PairAssignment(m), m);
    LoadsAddUp(u, Greedy(u, m), m);
    AllFull(u, Greedy(u, m), m, 3 * m - 1);
  }

  lemma GreedyMakespan(m: nat, v: seq<nat>)
    requires m >= 1 && v == TightJobs(m)
    ensures MaxLoad(v, Greedy(v, m), m) == 4 * m - 1
  {
    var u := v[..2 * m];
    var g, b := Greedy(u, m), LeastLoaded(u, Greedy(u, m), m);
    forall k | 0 <= k < m ensures Load(u, g, k) == 3 * m - 1 { BalancedBefore(m, k); }
    LastJobOnTop(v, u, g, m, b, 3 * m - 1);
  }

  lemma LastJobOnTop(v: seq<nat>, u: seq<nat>, g: seq<nat>, m: nat, b: nat, full: nat)
    requires m >= 1 && |v| > 0 && u == v[..|v| - 1] && g == Greedy(u, m) && b == LeastLoaded(u, g, m)
    requires forall k :: 0 <= k < m ==> Load(u, g, k) == full
    ensures MaxLoad(v, Greedy(v, m), m) == full + v[|v| - 1]
  {
    var f := g + [b];
    assert Greedy(v, m) == f;
    forall k | 0 <= k < m ensures Load(v, f, k) == full + (if k == b then v[|v| - 1] else 0) {
      LoadOfLast(v, u, g, b, k);
    }
    MaxIs(v, f, m, b, full + v[|v| - 1]);
  }

  lemma LoadOfLast(v: seq<nat>, u: seq<nat>, g: seq<nat>, b: nat, k: nat)
    requires |v| > 0 && u == v[..|v| - 1] && |g| == |u|
    ensures Load(v, g + [b], k) == Load(u, g, k) + (if b == k then v[|v| - 1] else 0)
  {
    assert (g + [b])[..|u|] == g;
  }

  lemma MaxIs(v: seq<nat>, f: seq<nat>, m: nat, b: nat, top: nat)
    requires |f| == |v| && b < m && Load(v, f, b) == top && forall k :: 0 <= k < m ==> Load(v, f, k) <= top
    ensures MaxLoad(v, f, m) == top
  {
    var r := MaxLoad(v, f, m);
    assert top <= r;
    var k :| 0 <= k < m && Load(v, f, k) == r;
  }

  /** The factor cannot be improved for any number of machines: these jobs meet it exactly. */
  lemma BoundIsTight(m: nat, v: seq<nat>, f: seq<nat>)
    requires m >= 1 && v == TightJobs(m) && f == BestAssignment(m)
    ensures Descending(v) && Assignment(f, |v|, m)
    ensures MaxLoad(v, Greedy(v, m), m) == 4 * m - 1 && MaxLoad(v, f, m) == 3 * m
    ensures 3 * m * MaxLoad(v, Greedy(v, m), m) == (4 * m - 1) * MaxLoad(v, f, m)
  {
    GreedyMakespan(m, v);
    forall k | 0 <= k < m ensures Load(v, f, k) == 3 * m { BestLoads(m, k); }
    assert 3 * m * (4 * m - 1) == (4 * m - 1) * (3 * m);
  }
}
