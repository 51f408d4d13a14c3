/** The shard solver as a whole: sort, assign, write one runner's output. */
module ShardSolver {
  import opened Strings
  import opened LoadBalance
  import opened ShardTimings
  import opened ShardItems
  import opened ShardDemand

  datatype Shard = Shard(load: nat, whole: seq<string>, heavy: map<string, seq<string>>)

  /** The three output files; a heavy run is a package with the names in its -run filter. */
  datatype Output = Output(te: seq<string>, ee: seq<string>, runs: map<string, seq<string>>)

  datatype Outcome = Written(output: Output) | NothingToDo | Failed

  // ---- Sorting -----------------------------------------------------------

  /** `items.sort((a, b) => b.ms - a.ms)`: a stable sort, longest first. */
  function SortDescending(items: seq<Item>): seq<Item> {
    if |items| == 0 then []
    else InsertDescending(SortDescending(items[..|items| - 1]), items[|items| - 1])
  }

  function InsertDescending(s: seq<Item>, x: Item): seq<Item> {
    if |s| == 0 || s[|s| - 1].ms >= x.ms then s + [x]
    else InsertDescending(s[..|s| - 1], x) + [s[|s| - 1]]
  }

  function Durations(items: seq<Item>): (v: seq<nat>)
    ensures |v| == |items| && forall i :: 0 <= i < |v| ==> v[i] == items[i].ms
  {
    seq(|items|, i requires 0 <= i < |items| => items[i].ms)
  }

  lemma {:induction false} InsertKeepsOrder(s: seq<Item>, x: Item, cap: nat)
    requires Descending(Durations(s)) && x.ms <= cap
    requires forall i :: 0 <= i < |s| ==> s[i].ms <= cap
    ensures Descending(Durations(InsertDescending(s, x)))
    ensures forall it :: it in InsertDescending(s, x) ==> it == x || it in s
  {
    if |s| > 0 && s[|s| - 1].ms < x.ms {
      var n := |s| - 1;
      InsertKeepsOrder(s[..n], x, cap);
      var r := InsertDescending(s[..n], x);
      forall i | 0 <= i < |r| ensures r[i].ms >= s[n].ms {
        if r[i] != x {
          assert r[i] in s[..n];
          var j :| 0 <= j < n && s[..n][j] == r[i];
          assert Durations(s)[j] >= Durations(s)[n];
        }
      }
    }
  }

  lemma {:induction false} SortSorts(items: seq<Item>)
    ensures Descending(Durations(SortDescending(items)))
  {
    if |items| > 0 {
      SortSorts(items[..|items| - 1]);
      var s := SortDescending(items[..|items| - 1]);
      InsertKeepsOrder(s, items[|items| - 1], Sum(Durations(s)) + items[|items| - 1].ms) by {
        forall i | 0 <= i < |s| ensures s[i].ms <= Sum(Durations(s)) { PartOfSum(Durations(s), i); }
      }
    }
  }

  lemma {:induction false} PartOfSum(v: seq<nat>, i: nat)
    requires i < |v|
    ensures v[i] <= Sum(v)
  {
    if i < |v| - 1 { PartOfSum(v[..|v| - 1], i); }
  }

  lemma {:induction false} InsertMult(s: seq<Item>, x: Item, w: Work)
    ensures Mult(InsertDescending(s, x), w) == Mult(s, w) + (if WorkOf(x) == w then 1 else 0)
  {
    if |s| == 0 || s[|s| - 1].ms >= x.ms {
      assert (s + [x])[..|s|] == s;
    } else {
      var n := |s| - 1;
      InsertMult(s[..n], x, w);
      var r := InsertDescending(s[..n], x);
      assert (r + [s[n]])[..|r|] == r;
    }
  }

  lemma {:induction false} SortMult(items: seq<Item>, w: Work)
    ensures Mult(SortDescending(items), w) == Mult(items, w)
  {
    if |items| > 0 {
      SortMult(items[..|items| - 1], w);
      InsertMult(SortDescending(items[..|items| - 1]), items[|items| - 1], w);
    }
  }

  // ---- Assignment --------------------------------------------------------

  function TestsOf(heavy: map<string, seq<string>>, p: string): seq<string> {
    if p in heavy then heavy[p] else []
  }

  function Place(s: Shard, it: Item): Shard {
    match it
    case WholePkg(ms, p) => Shard(s.load + ms, s.whole + [p], s.heavy)
    case OneTest(ms, p, t) => Shard(s.load + ms, s.whole, s.heavy[p := TestsOf(s.heavy, p) + [t]])
  }

  /** What shard `k` holds after the items were placed by assignment `f`. */
  function ShardAt(items: seq<Item>, f: seq<nat>, k: nat): Shard
    requires |f| == |items|
  {
    if |items| == 0 then Shard(0, [], map[])
    else
      var n := |items| - 1;
      var s := ShardAt(items[..n], f[..n], k);
      if f[n] == k then Place(s, items[n]) else s
  }

  lemma {:induction false} ShardLoad(items: seq<Item>, f: seq<nat>, k: nat)
    requires |f| == |items|
    ensures ShardAt(items, f, k).load == Load(Durations(items), f, k)
  {
    if |items| > 0 {
      var n := |items| - 1;
      ShardLoad(items[..n], f[..n], k);
      assert Durations(items)[..n] == Durations(items[..n]);
    }
  }

  /** The reduce over the shards: the first index of least load. */
  method FirstLeastLoaded(shards: array<Shard>) returns (min: nat)
    requires shards.Length >= 1
    ensures min < shards.Length
    ensures forall k :: 0 <= k < shards.Length ==> shards[min].load <= shards[k].load
    ensures forall k :: 0 <= k < min ==> shards[min].load < shards[k].load
  {
    min := 0;
    for i := 0 to shards.Length
      invariant min == 0 || min < i
      invariant forall k :: 0 <= k < i ==> shards[min].load <= shards[k].load
      invariant forall k :: 0 <= k < min ==> shards[min].load < shards[k].load
    {
      if shards[i].load < shards[min].load {
        min := i;
      }
    }
  }

  method AssignGreedy(items: seq<Item>, total: nat) returns (shards: array<Shard>)
    requires total >= 1
    ensures fresh(shards) && shards.Length == total
    ensures Holds(shards[..], items, Greedy(Durations(items), total))
  {
    shards := new Shard[total](i => Shard(0, [], map[]));
    ghost var f: seq<nat> := [];
    assert Durations(items[..0]) == [];
    for n := 0 to |items|
      invariant f == Greedy(Durations(items[..n]), total)
      invariant Holds(shards[..], items[..n], f)
    {
      var min := FirstLeastLoaded(shards);
      ghost var before := shards[..];
      LeastLoadedShard(items[..n], f, before, min);
      GreedyExtends(items, n, f, total);
      shards[min] := Place(shards[min], items[n]);
      PlaceOne(items, n, f, before, min);
      assert shards[..] == before[min := Place(before[min], items[n])];
      f := f + [min];
    }
    assert items[..|items|] == items;
  }

  /** The shard array is the result of placing `items` by `f`. */
  ghost predicate Holds(shards: seq<Shard>, items: seq<Item>, f: seq<nat>)
    requires |f| == |items|
  {
    forall k :: 0 <= k < |shards| ==> shards[k] == ShardAt(items, f, k)
  }

  lemma PlaceOne(items: seq<Item>, n: nat, f: seq<nat>, shards: seq<Shard>, k: nat)
    requires n < |items| && |f| == n && k < |shards|
    requires Holds(shards, items[..n], f)
    ensures Holds(shards[k := Place(shards[k], items[n])], items[..n + 1], f + [k])
  {
    assert items[..n + 1][..n] == items[..n] && (f + [k])[..n] == f;
  }

  lemma LeastLoadedShard(items: seq<Item>, f: seq<nat>, shards: seq<Shard>, min: nat)
    requires |f| == |items| && min < |shards|
    requires Holds(shards, items, f)
    requires forall k :: 0 <= k < |shards| ==> shards[min].load <= shards[k].load
    requires forall k :: 0 <= k < min ==> shards[min].load < shards[k].load
    ensures min == LeastLoaded(Durations(items), f, |shards|)
  {
    forall k | 0 <= k < |shards| ensures shards[k].load == Load(Durations(items), f, k) {
      ShardLoad(items, f, k);
    }
    FirstIsUnique(Durations(items), f, |shards|, min);
  }

  lemma FirstIsUnique(v: seq<nat>, f: seq<nat>, m: nat, k: nat)
    requires |f| == |v| && k < m
    requires forall j :: 0 <= j < m ==> Load(v, f, k) <= Load(v, f, j)
    requires forall j :: 0 <= j < k ==> Load(v, f, k) < Load(v, f, j)
    ensures k == LeastLoaded(v, f, m)
  {
  }

  lemma GreedyExtends(items: seq<Item>, n: nat, f: seq<nat>, m: nat)
    requires n < |items| && m >= 1 && f == Greedy(Durations(items[..n]), m)
    ensures Greedy(Durations(items[..n + 1]), m) == f + [LeastLoaded(Durations(items[..n]), f, m)]
  {
    assert Durations(items[..n + 1])[..n] == Durations(items[..n]);
  }

  /** The round-robin branch pushes packages without touching the loads. */
  function Unweighted(pkgs: seq<string>): (items: seq<Item>)
    ensures |items| == |pkgs|
    ensures forall i :: 0 <= i < |pkgs| ==> items[i] == WholePkg(0, pkgs[i])
  {
    seq(|pkgs|, i requires 0 <= i < |pkgs| => WholePkg(0, pkgs[i]))
  }

  function RoundRobin(n: nat, m: nat): (f: seq<nat>)
    requires m >= 1
    ensures Assignment(f, n, m)
    ensures forall i :: 0 <= i < n ==> f[i] == i % m
  {
    seq(n, i requires 0 <= i < n => i % m)
  }

  method AssignRoundRobin(pkgs: seq<string>, total: nat) returns (shards: array<Shard>)
    requires total >= 1
    ensures fresh(shards) && shards.Length == total
    ensures Holds(shards[..], Unweighted(pkgs), RoundRobin(|pkgs|, total))
  {
    shards := new Shard[total](i => Shard(0, [], map[]));
    for i := 0 to |pkgs|
      invariant Holds(shards[..], Unweighted(pkgs)[..i], RoundRobin(i, total))
    {
      var k := i % total;
      ghost var before := shards[..];
      PlaceOne(Unweighted(pkgs), i, RoundRobin(i, total), before, k);
      assert RoundRobin(i, total) + [k] == RoundRobin(i + 1, total);
      shards[k] := Shard(shards[k].load, shards[k].whole + [pkgs[i]], shards[k].heavy);
      assert shards[..] == before[k := Place(before[k], WholePkg(0, pkgs[i]))];
    }
    assert Unweighted(pkgs)[..|pkgs|] == Unweighted(pkgs);
  }

  // ---- One runner --------------------------------------------------------

  predicate Enterprise(p: string) {
    Contains(p, "/enterprise/")
  }

  function Keep(s: seq<string>, enterprise: bool): seq<string> {
    if |s| == 0 then []
    else
      Keep(s[..|s| - 1], enterprise)
      + (if Enterprise(s[|s| - 1]) == enterprise then [s[|s| - 1]] else [])
  }

  function OutputOf(s: Shard): Output {
    Output(Keep(s.whole, false), Keep(s.whole, true), s.heavy)
  }

  predicate UsesRoundRobin(inp: Input) {
    |PkgTimes(inp)| == 0 && |HeavyPkgs(inp)| == 0
  }

  /** The placed items and their assignment; every runner recomputes the same plan. */
  function Plan(inp: Input): (r: (seq<Item>, seq<nat>))
    requires inp.total >= 1
    ensures Assignment(r.1, |r.0|, inp.total)
  {
    if UsesRoundRobin(inp) then (Unweighted(inp.allPkgs), RoundRobin(|inp.allPkgs|, inp.total))
    else
      var items := SortDescending(AllItems(inp));
      (items, Greedy(Durations(items), inp.total))
  }

  /** What the runner with the given SHARD_INDEX writes. */
  function RunnerOutcome(inp: Input, index: int): Outcome {
    if inp.total < 1 then Failed
    else if |inp.allPkgs| == 0 then NothingToDo
    else if DiscoveryAborts(inp) then Failed
    else if 0 <= index < inp.total then Written(OutputOf(ShardAt(Plan(inp).0, Plan(inp).1, index)))
    else Failed
  }

  method RunSolver(inp: Input, index: int) returns (r: Outcome)
    ensures r == RunnerOutcome(inp, index)
  {
    if inp.total < 1 { return Failed; }
    if |inp.allPkgs| == 0 { return NothingToDo; }
    var t := ParseEvents(inp.events);
    var pkgTimes := t.pkgs;
    if |pkgTimes| == 0 {
      pkgTimes := AddSuites(pkgTimes, inp.junit);
    }
    var heavy := IdentifyHeavy(inp, pkgTimes, |t.tests| > 0);
    var ok, items := BuildItems(inp, pkgTimes, t.tests, heavy);
    if !ok { return Failed; }
    items := SortDescending(items);
    var shards;
    if |pkgTimes| == 0 && |heavy| == 0 {
      shards := AssignRoundRobin(inp.allPkgs, inp.total);
    } else {
      shards := AssignGreedy(items, inp.total);
    }
    if index < 0 || inp.total <= index { return Failed; }
    r := Written(OutputOf(shards[index]));
  }

  // ---- Coverage ----------------------------------------------------------

  /** 1 for every item that is the work `w`, 0 otherwise. */
  function Marks(items: seq<Item>, w: Work): (v: seq<nat>)
    ensures |v| == |items|
    ensures forall i :: 0 <= i < |v| ==> v[i] == if WorkOf(items[i]) == w then 1 else 0
  {
    seq(|items|, i requires 0 <= i < |items| => if WorkOf(items[i]) == w then 1 else 0)
  }

  lemma {:induction false} SumOfMarks(items: seq<Item>, w: Work)
    ensures Sum(Marks(items, w)) == Mult(items, w)
  {
    if |items| > 0 {
      SumOfMarks(items[..|items| - 1], w);
      assert Marks(items, w)[..|items| - 1] == Marks(items[..|items| - 1], w);
    }
  }

  /** How often a runner's output asks for the work `w`. */
  function Copies(out: Output, w: Work): nat {
    match w
    case Pkg(p) => Occ(out.te, p) + Occ(out.ee, p)
    case Test(p, t) => Occ(TestsOf(out.runs, p), t)
  }

  lemma OccSnoc(s: seq<string>, y: string, x: string)
    ensures Occ(s + [y], x) == Occ(s, x) + (if y == x then 1 else 0)
  {
    assert (s + [y])[..|s|] == s;
  }

  lemma {:induction false} KeepOcc(s: seq<string>, x: string)
    ensures Occ(Keep(s, false), x) + Occ(Keep(s, true), x) == Occ(s, x)
    ensures Occ(Keep(s, !Enterprise(x)), x) == 0
  {
    if |s| > 0 {
      var n := |s| - 1;
      KeepOcc(s[..n], x);
      OccSnoc(Keep(s[..n], Enterprise(s[n])), s[n], x);
      assert forall b :: Keep(s, b) == Keep(s[..n], b) + (if Enterprise(s[n]) == b then [s[n]] else []);
      assert Keep(s[..n], !Enterprise(s[n])) + [] == Keep(s[..n], !Enterprise(s[n]));
    }
  }

  lemma PlaceCopies(s: Shard, it: Item, w: Work)
    ensures Copies(OutputOf(Place(s, it)), w) == Copies(OutputOf(s), w) + (if WorkOf(it) == w then 1 else 0)
  {
    if w.Pkg? {
      KeepOcc(s.whole, w.pkg);
      KeepOcc(Place(s, it).whole, w.pkg);
      if it.WholePkg? { OccSnoc(s.whole, it.pkg, w.pkg); }
    } else if it.OneTest? {
      OccSnoc(TestsOf(s.heavy, it.pkg), it.test, w.test);
    }
  }

  lemma {:induction false} ShardCopies(items: seq<Item>, f: seq<nat>, k: nat, w: Work)
    requires |f| == |items|
    ensures Copies(OutputOf(ShardAt(items, f, k)), w) == Load(Marks(items, w), f, k)
  {
    if |items| > 0 {
      var n := |items| - 1;
      ShardCopies(items[..n], f[..n], k, w);
      PlaceCopies(ShardAt(items[..n], f[..n], k), items[n], w);
      assert Marks(items, w)[..n] == Marks(items[..n], w);
    } else {
      NothingCopied(w);
    }
  }

  lemma NothingCopied(w: Work)
    ensures Copies(OutputOf(Shard(0, [], map[])), w) == 0
  {
  }

  predicate Succeeds(inp: Input) {
    inp.total >= 1 && |inp.allPkgs| > 0 && !DiscoveryAborts(inp)
  }

  function CopiesAt(inp: Input, k: nat, w: Work): nat
    requires Succeeds(inp) && k < inp.total
  {
    Copies(RunnerOutcome(inp, k).output, w)
  }

  /** The copies of `w` at runners 0 .. m - 1. */
  function CopyCounts(inp: Input, w: Work): (c: seq<nat>)
    requires Succeeds(inp)
    ensures |c| == inp.total
    ensures forall k :: 0 <= k < inp.total ==> c[k] == CopiesAt(inp, k, w)
  {
    seq(inp.total, k requires 0 <= k < inp.total => CopiesAt(inp, k, w))
  }

  lemma {:induction false} SumOfLoads(c: seq<nat>, v: seq<nat>, f: seq<nat>)
    requires |f| == |v|
    requires forall k :: 0 <= k < |c| ==> c[k] == Load(v, f, k)
    ensures Sum(c) == TotalLoad(v, f, |c|)
  {
    if |c| > 0 { SumOfLoads(c[..|c| - 1], v, f); }
  }

  lemma {:induction false} UnweightedMult(pkgs: seq<string>, w: Work)
    ensures Mult(Unweighted(pkgs), w) == if w.Pkg? then Occ(pkgs, w.pkg) else 0
  {
    if |pkgs| > 0 {
      UnweightedMult(pkgs[..|pkgs| - 1], w);
      assert Unweighted(pkgs)[..|pkgs| - 1] == Unweighted(pkgs[..|pkgs| - 1]);
    }
  }

  lemma PlanMeetsDemand(inp: Input, w: Work)
    requires Succeeds(inp)
    ensures Mult(Plan(inp).0, w) == Demand(inp, w)
  {
    ItemsMeetDemand(inp, w);
    SortMult(AllItems(inp), w);
    if UsesRoundRobin(inp) {
      UnweightedMult(inp.allPkgs, w);
      HeavyPkgsIff(inp, w.pkg);
    }
  }

  /** Conservation over separately running machines: for every input on which the script
      succeeds, the runners 0 .. total - 1 together execute every package and every test
      exactly as often as `Demand` asks. */
  lemma Conservation(inp: Input, w: Work)
    requires Succeeds(inp)
    ensures Sum(CopyCounts(inp, w)) == Demand(inp, w)
  {
    var (items, f) := Plan(inp);
    var c, v := CopyCounts(inp, w), Marks(items, w);
    forall k | 0 <= k < |c| ensures c[k] == Load(v, f, k) {
      ShardCopies(items, f, k, w);
    }
    SumOfLoads(c, v, f);
    LoadsAddUp(v, f, inp.total);
    SumOfMarks(items, w);
    PlanMeetsDemand(inp, w);
  }

  /** Exactly one runner executes `w`, and it does so once. */
  ghost predicate RunByExactlyOne(inp: Input, w: Work)
    requires Succeeds(inp)
  {
    exists k :: 0 <= k < inp.total && CopiesAt(inp, k, w) == 1
      && forall j :: 0 <= j < inp.total && j != k ==> CopiesAt(inp, j, w) == 0
  }

  ghost predicate Lone(c: seq<nat>, k: nat) {
    k < |c| && c[k] == 1 && forall j :: 0 <= j < |c| && j != k ==> c[j] == 0
  }

  lemma {:induction false} AllZero(c: seq<nat>)
    ensures Sum(c) == 0 <==> forall j :: 0 <= j < |c| ==> c[j] == 0
  {
    if |c| > 0 {
      var n := |c| - 1;
      AllZero(c[..n]);
      assert forall j :: 0 <= j < n ==> c[..n][j] == c[j];
    }
  }

  lemma {:induction false} OneOwner(c: seq<nat>)
    ensures Sum(c) == 1 <==> exists k :: Lone(c, k)
  {
    if |c| > 0 {
      var n := |c| - 1;
      OneOwner(c[..n]);
      AllZero(c[..n]);
      if Sum(c) == 1 && c[n] == 0 {
        var k :| Lone(c[..n], k);
        assert Lone(c, k);
      } else if Sum(c) == 1 {
        assert forall j :: 0 <= j < n ==> c[j] == c[..n][j];
        assert Lone(c, n);
      }
      if k :| Lone(c, k) { LoneSum(c, k); }
    }
  }

  lemma {:induction false} LoneSum(c: seq<nat>, k: nat)
    requires Lone(c, k)
    ensures Sum(c) == 1
  {
    var n := |c| - 1;
    if k < n {
      LoneSum(c[..n], k);
    } else {
      AllZero(c[..n]);
    }
  }

  /** The partition theorem, exact for every input: a piece of work is run by exactly one
      runner if and only if the inputs ask for it once. */
  lemma PartitionIff(inp: Input, w: Work)
    requires Succeeds(inp)
    ensures RunByExactlyOne(inp, w) <==> Demand(inp, w) == 1
  {
    Conservation(inp, w);
    var c := CopyCounts(inp, w);
    OneOwner(c);
    if k :| Lone(c, k) { assert CopiesAt(inp, k, w) == 1; }
    if RunByExactlyOne(inp, w) {
      var k :| 0 <= k < inp.total && CopiesAt(inp, k, w) == 1
        && forall j :: 0 <= j < inp.total && j != k ==> CopiesAt(inp, j, w) == 0;
      assert Lone(c, k);
    }
  }

  /** The case the script is written for, distinct packages: every light package, and every
      heavy package without a known test, is run whole by exactly one runner; and a test of a
      heavy package is run by exactly one runner if and only if it is cached, or its name
      passes the filter and is printed once. */
  lemma Partition(inp: Input, p: string)
    requires Succeeds(inp) && Distinct(inp.allPkgs) && p in inp.allPkgs
    ensures RunByExactlyOne(inp, Pkg(p)) <==> !IsHeavy(inp, p) || NoTests(inp, p)
    ensures forall t :: RunByExactlyOne(inp, Test(p, t)) <==>
      IsHeavy(inp, p) && (Seen(inp.events, TestKey(p, t)) || TimesListed(inp, p, t) == 1)
  {
    OccDistinct(inp.allPkgs, p);
    PartitionIff(inp, Pkg(p));
    forall t ensures RunByExactlyOne(inp, Test(p, t)) <==> Demand(inp, Test(p, t)) == 1 {
      PartitionIff(inp, Test(p, t));
    }
  }

  /** No runner executes the test, neither by name nor with its whole package. */
  ghost predicate NeverRun(inp: Input, p: string, t: string)
    requires Succeeds(inp)
  {
    forall k :: 0 <= k < inp.total ==> CopiesAt(inp, k, Test(p, t)) == 0 && CopiesAt(inp, k, Pkg(p)) == 0
  }

  /** A test of a heavy package is silently skipped on every runner if and only if it is not
      cached and not taken up by discovery, while some other test of the package is known.
      So with a cold cache a test whose name goes on with anything but an upper-case letter is
      never run, however often it is printed. */
  lemma SkippedIff(inp: Input, p: string, t: string)
    requires Succeeds(inp) && IsHeavy(inp, p)
    ensures NeverRun(inp, p, t) <==>
      !Seen(inp.events, TestKey(p, t)) && TimesListed(inp, p, t) == 0 && !NoTests(inp, p)
  {
    Conservation(inp, Test(p, t));
    Conservation(inp, Pkg(p));
    AllZero(CopyCounts(inp, Test(p, t)));
    AllZero(CopyCounts(inp, Pkg(p)));
    OccPositive(inp.allPkgs, p);
    var c, d := CopyCounts(inp, Test(p, t)), CopyCounts(inp, Pkg(p));
    assert NeverRun(inp, p, t)
      <==> (forall k :: 0 <= k < |c| ==> c[k] == 0) && (forall k :: 0 <= k < |d| ==> d[k] == 0);
  }

  /** A cold cache, and the two names printed for one known heavy package. */
  function ColdStart(pkg: string, first: string, second: string, total: nat): Input {
    Input([pkg], [], [], map[pkg := Join([first, second], '\n')], true, total)
  }

  lemma ColdListing(pkg: string, first: string, second: string, total: nat, t: string)
    requires pkg in KNOWN_HEAVY_PKGS && '\n' !in first && '\n' !in second
    requires Trim(first) == first && Trim(second) == second
    ensures var inp := ColdStart(pkg, first, second, total);
      && IsHeavy(inp, pkg) && !DiscoveryAborts(inp)
      && !Seen(inp.events, TestKey(pkg, t))
      && (NoTests(inp, pkg) <==> !IsTestName(first) && !IsTestName(second))
      && TimesListed(inp, pkg, t)
         == if IsTestName(t) then (if first == t then 1 else 0) + (if second == t then 1 else 0) else 0
  {
    var inp, lines := ColdStart(pkg, first, second, total), [first, second];
    SplitOfJoin(lines, '\n');
    HeavyPkgsOfOne(inp, pkg);
    assert lines[..1] == [first] && lines[..1][..0] == [];
    assert TimesPrinted(lines[..1], t) == if first == t then 1 else 0;
  }

  lemma HeavyPkgsOfOne(inp: Input, pkg: string)
    requires inp.allPkgs == [pkg] && pkg in inp.listings
    ensures !DiscoveryAborts(inp)
  {
    forall p | p in HeavyPkgs(inp) ensures p in inp.listings { HeavyPkgsIff(inp, p); }
  }

  lemma UserTestPasses(t: string)
    requires t == "TestGetUser"
    ensures IsTestName(t) && Trim(t) == t && '\n' !in t
  {
  }

  lemma UnderscoreTestFails(t: string)
    requires t == "Test_getIPFilters"
    ensures !IsTestName(t) && Trim(t) == t && '\n' !in t
  {
  }

  /** `Test_getIPFilters` is a test of the api4 package, which is always split.  With a cold
      cache no runner ever executes it, although `go test -list` prints it. */
  lemma UnderscoreTestIsSkipped(pkg: string, first: string, t: string, total: nat)
    requires pkg in KNOWN_HEAVY_PKGS && first == "TestGetUser" && t == "Test_getIPFilters" && total >= 1
    ensures var inp := ColdStart(pkg, first, t, total);
      Succeeds(inp) && NeverRun(inp, pkg, t)
  {
    UserTestPasses(first);
    UnderscoreTestFails(t);
    ColdSkips(pkg, first, t, total);
  }

  lemma ColdSkips(pkg: string, first: string, t: string, total: nat)
    requires pkg in KNOWN_HEAVY_PKGS && total >= 1
    requires IsTestName(first) && Trim(first) == first && '\n' !in first
    requires !IsTestName(t) && Trim(t) == t && '\n' !in t
    ensures var inp := ColdStart(pkg, first, t, total);
      Succeeds(inp) && NeverRun(inp, pkg, t)
  {
    var inp := ColdStart(pkg, first, t, total);
    ColdListing(pkg, first, t, total, t);
    SkippedIff(inp, pkg, t);
  }

  /** A name printed twice, by a package and its external test package, is run twice. */
  lemma TwiceListedRunsTwice(pkg: string, t: string, total: nat)
    requires pkg in KNOWN_HEAVY_PKGS && total >= 1
    requires IsTestName(t) && Trim(t) == t && '\n' !in t
    ensures var inp := ColdStart(pkg, t, t, total);
      Succeeds(inp) && Sum(CopyCounts(inp, Test(pkg, t))) == 2 && !RunByExactlyOne(inp, Test(pkg, t))
  {
    var inp := ColdStart(pkg, t, t, total);
    ColdListing(pkg, t, t, total, t);
    Conservation(inp, Test(pkg, t));
    PartitionIff(inp, Test(pkg, t));
  }

  lemma HeaviestShard(items: seq<Item>, m: nat, f: seq<nat>, k: nat)
    requires m >= 1 && k < m && Descending(Durations(items)) && Assignment(f, |items|, m)
    ensures 3 * m * ShardAt(items, Greedy(Durations(items), m), k).load <= (4 * m - 1) * MaxLoad(Durations(items), f, m)
  {
    var v := Durations(items);
    var g := Greedy(v, m);
    LongestFirstBound(v, m, f);
    ShardLoad(items, g, k);
    ScaleMono(3 * m, Load(v, g, k), MaxLoad(v, g, m));
  }
}
