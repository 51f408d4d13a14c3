/** The balance of the shard solver, on the raw inputs: no division of the demanded work over as
    many runners is much better, by the recorded times. */
module ShardBalance {
  import Strings
  import opened LoadBalance
  import opened ShardTimings
  import opened ShardItems
  import opened ShardDemand
  import opened ShardWeights
  import opened ShardSolver

  // ---- The plan weighs what was recorded ---------------------------------

  lemma {:induction false} InsertedItems(s: seq<Item>, x: Item, it: Item)
    requires it in InsertDescending(s, x)
    ensures it == x || it in s
  {
    if |s| > 0 && s[|s| - 1].ms < x.ms && it != s[|s| - 1] { InsertedItems(s[..|s| - 1], x, it); }
  }

  lemma {:induction false} SortedItems(items: seq<Item>, it: Item)
    requires it in SortDescending(items)
    ensures it in items
  {
    if |items| > 0 {
      var n := |items| - 1;
      InsertedItems(SortDescending(items[..n]), items[n], it);
      if it != items[n] { SortedItems(items[..n], it); }
    }
  }

  /** Every item of the plan weighs what the previous run recorded for it: a package the sum of
      its pass events, or of its JUnit suites if there are no pass events, and 1 without either;
      a seen test its longest event, any other test 1000. */
  lemma PlanWeighed(inp: Input, it: Item)
    requires inp.total >= 1 && !NoSignal(inp) && it in Plan(inp).0
    ensures it.ms == match it
      case WholePkg(_, p) => if RecordedMs(inp, p) == 0 then 1 else RecordedMs(inp, p)
      case OneTest(_, p, t) =>
        if Seen(inp.events, TestKey(p, t)) then TestMax(inp.events, TestKey(p, t)) else 1000
  {
    NoSignalIff(inp);
    SortedItems(AllItems(inp), it);
    AllWeighed(inp);
    assert it.ms == Weight(inp, WorkOf(it));
  }

  // ---- The time of a runner ----------------------------------------------

  /** The recorded time of a list of works, each taken as often as `copies` says. */
  ghost function Time(inp: Input, copies: Work -> nat, works: seq<Work>): nat {
    if |works| == 0 then 0
    else
      var n := |works| - 1;
      Time(inp, copies, works[..n]) + copies(works[n]) * Weight(inp, works[n])
  }

  /** The recorded time of everything that runner `k` executes. */
  ghost function RunnerTime(inp: Input, k: nat, works: seq<Work>): nat
    requires Succeeds(inp) && k < inp.total
  {
    Time(inp, w => CopiesAt(inp, k, w), works)
  }

  /** A list of all demanded works, without repetitions. */
  ghost predicate Complete(inp: Input, works: seq<Work>) {
    && (forall i, j :: 0 <= i < j < |works| ==> works[i] != works[j])
    && forall w :: Demand(inp, w) > 0 ==> w in works
  }

  lemma {:induction false} SameTime(inp: Input, a: Work -> nat, b: Work -> nat, works: seq<Work>)
    requires forall w :: a(w) == b(w)
    ensures Time(inp, a, works) == Time(inp, b, works)
  {
    if |works| > 0 { SameTime(inp, a, b, works[..|works| - 1]); }
  }

  lemma {:induction false} NoTime(inp: Input, a: Work -> nat, works: seq<Work>)
    requires forall w :: a(w) == 0
    ensures Time(inp, a, works) == 0
  {
    if |works| > 0 { NoTime(inp, a, works[..|works| - 1]); }
  }

  /** One more copy of a listed work takes its weight longer. */
  lemma {:induction false} OneMore(inp: Input, a: Work -> nat, b: Work -> nat, works: seq<Work>, x: Work)
    requires forall i, j :: 0 <= i < j < |works| ==> works[i] != works[j]
    requires forall w :: b(w) == a(w) + if w == x then 1 else 0
    ensures Time(inp, b, works) == Time(inp, a, works) + if x in works then Weight(inp, x) else 0
  {
    if |works| > 0 {
      var n := |works| - 1;
      OneMore(inp, a, b, works[..n], x);
      assert works == works[..n] + [works[n]];
      OneMoreCopy(a(works[n]), b(works[n]), Weight(inp, works[n]));
    }
  }

  lemma OneMoreCopy(a: nat, b: nat, weight: nat)
    ensures b == a + 1 ==> b * weight == a * weight + weight
  {
  }

  /** Placing items by an assignment loads a machine with the recorded time of its works. */
  lemma {:induction false} TimeIsLoad(inp: Input, items: seq<Item>, f: seq<nat>, k: nat, works: seq<Work>)
    requires |f| == |items| && Weighed(inp, items)
    requires forall i, j :: 0 <= i < j < |works| ==> works[i] != works[j]
    requires forall it :: it in items ==> WorkOf(it) in works
    ensures Time(inp, w => Load(Marks(items, w), f, k), works) == Load(Durations(items), f, k)
  {
    var b := w => Load(Marks(items, w), f, k);
    if |items| == 0 {
      NoTime(inp, b, works);
    } else {
      var n := |items| - 1;
      var a := w => Load(Marks(items[..n], w), f[..n], k);
      TimeIsLoad(inp, items[..n], f[..n], k, works);
      assert Durations(items)[..n] == Durations(items[..n]);
      forall w ensures b(w) == a(w) + if f[n] == k && w == WorkOf(items[n]) then 1 else 0 {
        assert Marks(items, w)[..n] == Marks(items[..n], w);
      }
      if f[n] == k { OneMore(inp, a, b, works, WorkOf(items[n])); } else { SameTime(inp, a, b, works); }
    }
  }

  // ---- Other divisions of the work ---------------------------------------

  /** How often each of `m` runners executes a work. */
  type Division = (nat, Work) -> nat

  function Column(d: Division, m: nat, w: Work): (c: seq<nat>)
    ensures |c| == m && forall k :: 0 <= k < m ==> c[k] == d(k, w)
  {
    seq(m, k requires 0 <= k < m => d(k, w))
  }

  /** The runners together execute every work as often as it is demanded. */
  ghost predicate Divides(inp: Input, d: Division) {
    forall w :: Sum(Column(d, inp.total, w)) == Demand(inp, w)
  }

  ghost predicate Splits(items: seq<Item>, d: Division, m: nat) {
    forall w :: Sum(Column(d, m, w)) == Mult(items, w)
  }

  function Without(d: Division, j: nat, x: Work): Division
    requires d(j, x) > 0
  {
    (k: nat, w: Work) => if k == j && w == x && d(k, w) > 0 then d(k, w) - 1 else d(k, w)
  }

  lemma {:induction false} SumLess(c: seq<nat>, c': seq<nat>, j: nat)
    requires |c| == |c'| && j < |c| && c'[j] + 1 == c[j]
    requires forall k :: 0 <= k < |c| && k != j ==> c'[k] == c[k]
    ensures Sum(c) == Sum(c') + 1
  {
    var n := |c| - 1;
    if j < n {
      SumLess(c[..n], c'[..n], j);
    } else {
      assert c[..n] == c'[..n];
    }
  }

  lemma WithoutSplits(items: seq<Item>, d: Division, m: nat, j: nat)
    requires |items| > 0 && Splits(items, d, m) && j < m && d(j, WorkOf(items[|items| - 1])) > 0
    ensures Splits(items[..|items| - 1], Without(d, j, WorkOf(items[|items| - 1])), m)
  {
    var n := |items| - 1;
    var x := WorkOf(items[n]);
    var d' := Without(d, j, x);
    forall w ensures Sum(Column(d', m, w)) == Mult(items[..n], w) {
      assert Sum(Column(d, m, w)) == Mult(items, w);
      if w == x {
        SumLess(Column(d, m, w), Column(d', m, w), j);
      } else {
        assert Column(d, m, w) == Column(d', m, w);
      }
    }
  }

  /** The assignment places each work on machine `k` as often as the division says. */
  ghost predicate Realizes(items: seq<Item>, g: seq<nat>, d: Division, m: nat) {
    && Assignment(g, |items|, m)
    && forall k, w :: 0 <= k < m ==> Load(Marks(items, w), g, k) == d(k, w)
  }

  /** Every division of the items' work comes from an assignment of the items. */
  lemma {:induction false} Realized(items: seq<Item>, d: Division, m: nat) returns (g: seq<nat>)
    requires Splits(items, d, m)
    ensures Realizes(items, g, d, m)
    decreases |items|
  {
    if |items| == 0 {
      g := [];
      forall k, w | 0 <= k < m ensures Load(Marks(items, w), g, k) == d(k, w) {
        AllZero(Column(d, m, w));
        assert Sum(Column(d, m, w)) == Mult(items, w);
        assert Column(d, m, w)[k] == 0;
      }
    } else {
      var n := |items| - 1;
      var x := WorkOf(items[n]);
      AllZero(Column(d, m, x));
      assert Sum(Column(d, m, x)) == Mult(items, x);
      var j :| 0 <= j < m && Column(d, m, x)[j] > 0;
      WithoutSplits(items, d, m, j);
      var g' := Realized(items[..n], Without(d, j, x), m);
      g := g' + [j];
      PlacedLast(items, g', d, m, j);
    }
  }

  lemma PlacedLast(items: seq<Item>, g: seq<nat>, d: Division, m: nat, j: nat)
    requires |items| > 0 && j < m && d(j, WorkOf(items[|items| - 1])) > 0
    requires Realizes(items[..|items| - 1], g, Without(d, j, WorkOf(items[|items| - 1])), m)
    ensures Realizes(items, g + [j], d, m)
  {
    var n := |items| - 1;
    forall k, w | 0 <= k < m ensures Load(Marks(items, w), g + [j], k) == d(k, w) {
      assert Marks(items, w)[..n] == Marks(items[..n], w);
      assert (g + [j])[..n] == g;
      assert Load(Marks(items[..n], w), g, k) == Without(d, j, WorkOf(items[n]))(k, w);
    }
  }

  // ---- Balance -----------------------------------------------------------

  /** The balance theorem: unless there is no signal at all, the recorded time of every runner is
      within 4/3 - 1/(3m) of that of the slowest runner in any other division of the demanded
      work over m runners. */
  lemma Balance(inp: Input, m: nat, works: seq<Work>, d: Division, k: nat) returns (slowest: nat)
    requires Succeeds(inp) && !NoSignal(inp) && m == inp.total && k < m
    requires Complete(inp, works) && Divides(inp, d)
    ensures slowest < m
    ensures 3 * m * RunnerTime(inp, k, works) <= (4 * m - 1) * Time(inp, w => d(slowest, w), works)
  {
    var items, f := Plan(inp).0, Plan(inp).1;
    PlanKnown(inp, works, items);
    var g := Realized(items, d, m);
    slowest := Slowest(items, g, m);
    DividedTime(inp, items, g, d, m, slowest, works);
    RunnerIsLoad(inp, k, works, items, f);
    GreedyWithin(inp, m, items, f, g, k, slowest);
  }

  lemma Slowest(items: seq<Item>, g: seq<nat>, m: nat) returns (j: nat)
    requires m >= 1 && Assignment(g, |items|, m)
    ensures j < m && Load(Durations(items), g, j) == MaxLoad(Durations(items), g, m)
  {
    j :| 0 <= j < m && Load(Durations(items), g, j) == MaxLoad(Durations(items), g, m);
  }

  /** The plan holds the demanded works with their weights. */
  lemma PlanKnown(inp: Input, works: seq<Work>, items: seq<Item>)
    requires Succeeds(inp) && !NoSignal(inp) && Complete(inp, works) && items == Plan(inp).0
    ensures Weighed(inp, items) && forall it :: it in items ==> WorkOf(it) in works
    ensures forall d: Division :: Divides(inp, d) ==> Splits(items, d, inp.total)
  {
    forall it | it in items ensures it.ms == Weight(inp, WorkOf(it)) && WorkOf(it) in works {
      PlanWeighed(inp, it);
      MultPositive(items, WorkOf(it));
      PlanMeetsDemand(inp, WorkOf(it));
    }
    forall w ensures Mult(items, w) == Demand(inp, w) { PlanMeetsDemand(inp, w); }
  }

  lemma DividedTime(inp: Input, items: seq<Item>, g: seq<nat>, d: Division, m: nat, j: nat, works: seq<Work>)
    requires Realizes(items, g, d, m) && j < m && Weighed(inp, items) && Complete(inp, works)
    requires forall it :: it in items ==> WorkOf(it) in works
    ensures Time(inp, w => d(j, w), works) == Load(Durations(items), g, j)
  {
    TimeIsLoad(inp, items, g, j, works);
    SameTime(inp, w => d(j, w), w => Load(Marks(items, w), g, j), works);
  }

  lemma RunnerIsLoad(inp: Input, k: nat, works: seq<Work>, items: seq<Item>, f: seq<nat>)
    requires Succeeds(inp) && k < inp.total && (items, f) == Plan(inp)
    requires Weighed(inp, items) && Complete(inp, works) && forall it :: it in items ==> WorkOf(it) in works
    ensures RunnerTime(inp, k, works) == Load(Durations(items), f, k)
  {
    TimeIsLoad(inp, items, f, k, works);
    forall w ensures CopiesAt(inp, k, w) == Load(Marks(items, w), f, k) { ShardCopies(items, f, k, w); }
    SameTime(inp, w => CopiesAt(inp, k, w), w => Load(Marks(items, w), f, k), works);
  }

  lemma GreedyWithin(inp: Input, m: nat, items: seq<Item>, f: seq<nat>, g: seq<nat>, k: nat, j: nat)
    requires Succeeds(inp) && !NoSignal(inp) && m == inp.total && (items, f) == Plan(inp)
    requires Assignment(g, |items|, m) && k < m && j < m
    requires Load(Durations(items), g, j) == MaxLoad(Durations(items), g, m)
    ensures 3 * m * Load(Durations(items), f, k) <= (4 * m - 1) * Load(Durations(items), g, j)
  {
    NoSignalIff(inp);
    SortSorts(AllItems(inp));
    HeaviestShard(items, m, g, k);
    ShardLoad(items, f, k);
  }

  // ---- The works of an input ---------------------------------------------

  ghost function WorksOf(items: seq<Item>): seq<Work> {
    if |items| == 0 then []
    else
      var r, w := WorksOf(items[..|items| - 1]), WorkOf(items[|items| - 1]);
      if w in r then r else r + [w]
  }

  lemma {:induction false} WorksOfItems(items: seq<Item>)
    ensures forall i, j :: 0 <= i < j < |WorksOf(items)| ==> WorksOf(items)[i] != WorksOf(items)[j]
    ensures forall it :: it in items ==> WorkOf(it) in WorksOf(items)
  {
    if |items| > 0 {
      WorksOfItems(items[..|items| - 1]);
      assert items == items[..|items| - 1] + [items[|items| - 1]];
    }
  }

  /** Every input has a complete list of works. */
  lemma WorksExist(inp: Input) returns (works: seq<Work>)
    ensures Complete(inp, works)
  {
    var items := AllItems(inp);
    works := WorksOf(items);
    WorksOfItems(items);
    forall w | Demand(inp, w) > 0 ensures w in works {
      ItemsMeetDemand(inp, w);
      MultPositive(items, w);
    }
  }

  // ---- The editions ------------------------------------------------------

  lemma {:induction false} KeptEdition(s: seq<string>, enterprise: bool, p: string)
    requires p in Keep(s, enterprise)
    ensures Enterprise(p) == enterprise
  {
    if p !in Keep(s[..|s| - 1], enterprise) {
      assert p == s[|s| - 1];
    } else {
      KeptEdition(s[..|s| - 1], enterprise, p);
    }
  }

  /** On every runner the first list holds no package of the enterprise edition, and the second
      no other. */
  lemma EditionsApart(inp: Input, k: nat, p: string)
    requires Succeeds(inp) && k < inp.total
    ensures var out := RunnerOutcome(inp, k).output;
      && (p in out.te ==> !Strings.Contains(p, "/enterprise/"))
      && (p in out.ee ==> Strings.Contains(p, "/enterprise/"))
  {
    var whole := ShardAt(Plan(inp).0, Plan(inp).1, k).whole;
    if p in Keep(whole, false) { KeptEdition(whole, false, p); }
    if p in Keep(whole, true) { KeptEdition(whole, true, p); }
  }

  // ---- Outcomes ----------------------------------------------------------

  /** When a runner writes its files, has nothing to do, or fails. */
  lemma OutcomeIff(inp: Input, index: int)
    ensures Succeeds(inp) <==>
      && inp.total >= 1 && inp.allPkgs != []
      && (inp.ci ==> forall p :: IsHeavy(inp, p) ==> p in inp.listings)
    ensures RunnerOutcome(inp, index).Written? <==> Succeeds(inp) && 0 <= index < inp.total
    ensures RunnerOutcome(inp, index).NothingToDo? <==> inp.total >= 1 && inp.allPkgs == []
  {
    forall p ensures p in HeavyPkgs(inp) <==> IsHeavy(inp, p) { HeavyPkgsIff(inp, p); }
  }

  /** How often `p` is listed at a position whose turn it is to go to runner `k` of `m`. */
  function TurnsAt(pkgs: seq<string>, m: nat, k: nat, p: string): nat
    requires m >= 1
  {
    if |pkgs| == 0 then 0
    else
      var n := |pkgs| - 1;
      TurnsAt(pkgs[..n], m, k, p) + (if pkgs[n] == p && n % m == k then 1 else 0)
  }

  lemma {:induction false} TurnsAreLoad(pkgs: seq<string>, m: nat, k: nat, p: string)
    requires m >= 1
    ensures Load(Marks(Unweighted(pkgs), Pkg(p)), RoundRobin(|pkgs|, m), k) == TurnsAt(pkgs, m, k, p)
  {
    if |pkgs| > 0 {
      var n := |pkgs| - 1;
      TurnsAreLoad(pkgs[..n], m, k, p);
      assert Marks(Unweighted(pkgs), Pkg(p))[..n] == Marks(Unweighted(pkgs[..n]), Pkg(p));
      assert RoundRobin(|pkgs|, m)[..n] == RoundRobin(n, m);
    }
  }

  /** Without any signal the packages take turns over the runners. */
  lemma TakeTurns(inp: Input, k: nat, p: string)
    requires Succeeds(inp) && NoSignal(inp) && k < inp.total
    ensures CopiesAt(inp, k, Pkg(p)) == TurnsAt(inp.allPkgs, inp.total, k, p)
  {
    NoSignalIff(inp);
    ShardCopies(Plan(inp).0, Plan(inp).1, k, Pkg(p));
    TurnsAreLoad(inp.allPkgs, inp.total, k, p);
  }
}
