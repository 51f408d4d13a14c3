/** What the items of the shard solver weigh, on the raw inputs. */
module ShardWeights {
  import opened ShardTimings
  import opened ShardItems
  import opened ShardDemand
  import Strings

  // The reference: recorded times, with no mention of items or dictionaries.

  /** The times of all JUnit suites with the name `p`. */
  function SuiteTotal(suites: seq<Entry<string>>, p: string): nat {
    if |suites| == 0 then 0
    else
      var s := suites[|suites| - 1];
      SuiteTotal(suites[..|suites| - 1], p) + (if s.key == p then s.ms else 0)
  }

  /** The time of a package in the previous run; JUnit counts only if no pass event does. */
  function RecordedMs(inp: Input, p: string): nat {
    if HasPassEvents(inp.events) then PkgTotal(inp.events, p) else SuiteTotal(inp.junit, p)
  }

  /** The milliseconds that a piece of work counts for: its recorded time; 1 for a package
      without any, 1000 for a test that was not seen. */
  function Weight(inp: Input, w: Work): nat {
    match w
    case Pkg(p) => if RecordedMs(inp, p) == 0 then 1 else RecordedMs(inp, p)
    case Test(p, t) =>
      if Seen(inp.events, TestKey(p, t)) then TestMax(inp.events, TestKey(p, t)) else 1000
  }

  ghost predicate Weighed(inp: Input, items: seq<Item>) {
    forall it :: it in items ==> it.ms == Weight(inp, WorkOf(it))
  }

  // ---- The dictionary of package times -----------------------------------

  ghost predicate Sums(t: seq<Entry<string>>, p: string, total: nat) {
    DistinctKeys(t) && Lookup(t, p) == total
  }

  lemma SuiteAdded(r: seq<Entry<string>>, r': seq<Entry<string>>, s: Entry<string>, p: string, total: nat)
    requires Sums(r, p, total) && r' == Store(r, s.key, Lookup(r, s.key) + s.ms)
    ensures Sums(r', p, total + if s.key == p then s.ms else 0)
  {
    StoreKeepsKeys(r, s.key, Lookup(r, s.key) + s.ms);
    LookupStore(r, s.key, Lookup(r, s.key) + s.ms, p);
  }

  lemma {:induction false} SuitesAdded(suites: seq<Entry<string>>, p: string)
    ensures Sums(AddSuites([], suites), p, SuiteTotal(suites, p))
  {
    if |suites| > 0 {
      var n := |suites| - 1;
      SuitesAdded(suites[..n], p);
      SuiteAdded(AddSuites([], suites[..n]), AddSuites([], suites), suites[n], p, SuiteTotal(suites[..n], p));
    }
  }

  /** The time a package is looked up with is the recorded one. */
  lemma RecordedTime(inp: Input, p: string)
    ensures Lookup(PkgTimes(inp), p) == RecordedMs(inp, p)
  {
    ParsedNonEmpty(inp.events);
    ParsedKeys(inp.events);
    ParsedPkg(inp.events, p);
    if |Parsed(inp.events).pkgs| == 0 { SuitesAdded(inp.junit, p); }
  }

  lemma WholeWeight(inp: Input, p: string)
    ensures WholeMs(PkgTimes(inp), p) == Weight(inp, Pkg(p))
  {
    RecordedTime(inp, p);
  }

  // ---- The item sources --------------------------------------------------

  lemma WeighedAppend(inp: Input, a: seq<Item>, b: seq<Item>)
    requires Weighed(inp, a) && Weighed(inp, b)
    ensures Weighed(inp, a + b)
  {
  }

  lemma WeighedWhole(inp: Input, p: string)
    ensures Weighed(inp, [WholePkg(WholeMs(PkgTimes(inp), p), p)])
  {
    WholeWeight(inp, p);
  }

  lemma CachedTime(inp: Input, i: nat)
    requires i < |TestTimes(inp)|
    ensures TestTimes(inp)[i].ms == Weight(inp, Test(TestTimes(inp)[i].key.pkg, TestTimes(inp)[i].key.test))
  {
    var e := TestTimes(inp)[i];
    ParsedKeys(inp.events);
    ParsedTest(inp.events, e.key);
    LookupAt(TestTimes(inp), i);
  }

  lemma {:induction false} CachedWeighed(inp: Input, n: nat, p: string)
    requires n <= |TestTimes(inp)|
    ensures Weighed(inp, CachedItems(TestTimes(inp)[..n], p))
  {
    if n > 0 {
      var tests := TestTimes(inp)[..n];
      assert tests[..n - 1] == TestTimes(inp)[..n - 1];
      CachedWeighed(inp, n - 1, p);
      CachedTime(inp, n - 1);
    }
  }

  lemma {:induction false} BaseWeighed(inp: Input, heavy: seq<string>, pkgs: seq<string>)
    ensures Weighed(inp, BaseItems(inp, heavy, pkgs))
  {
    if |pkgs| > 0 {
      var n := |pkgs| - 1;
      BaseWeighed(inp, heavy, pkgs[..n]);
      var tests := TestTimes(inp);
      CachedWeighed(inp, |tests|, pkgs[n]);
      assert tests[..|tests|] == tests;
      WeighedWhole(inp, pkgs[n]);
    }
  }

  lemma {:induction false} NewWeighed(inp: Input, p: string, tests: seq<string>)
    ensures Weighed(inp, NewItems(inp, p, tests))
  {
    if |tests| > 0 {
      var n := |tests| - 1;
      NewWeighed(inp, p, tests[..n]);
      ParsedTest(inp.events, TestKey(p, tests[n]));
    }
  }

  lemma {:induction false} DiscoveredWeighed(inp: Input, heavy: seq<string>)
    ensures Weighed(inp, Discovered(inp, heavy))
  {
    if |heavy| > 0 {
      var n := |heavy| - 1;
      DiscoveredWeighed(inp, heavy[..n]);
      ListedWeighed(inp, heavy[n]);
      WeighedAppend(inp, Discovered(inp, heavy[..n]), ListedItems(inp, heavy[n]));
    }
  }

  lemma ListedWeighed(inp: Input, p: string)
    ensures Weighed(inp, ListedItems(inp, p))
  {
    if p in inp.listings { NewWeighed(inp, p, CurrentTests(Strings.Split(inp.listings[p], '\n'))); }
  }

  lemma {:induction false} FallbackWeighed(inp: Input, items: seq<Item>, heavy: seq<string>)
    requires Weighed(inp, items)
    ensures Weighed(inp, WithFallback(inp, items, heavy))
  {
    if |heavy| > 0 {
      var n := |heavy| - 1;
      FallbackWeighed(inp, items, heavy[..n]);
      WeighedWhole(inp, heavy[n]);
    }
  }

  /** Every item weighs what was recorded for it, whichever of the four sources it came from. */
  lemma AllWeighed(inp: Input)
    ensures Weighed(inp, AllItems(inp))
  {
    var heavy := HeavyPkgs(inp);
    BaseWeighed(inp, heavy, inp.allPkgs);
    DiscoveredWeighed(inp, heavy);
    WeighedAppend(inp, BaseItems(inp, heavy, inp.allPkgs), Discovered(inp, heavy));
    FallbackWeighed(inp, BaseItems(inp, heavy, inp.allPkgs) + Discovered(inp, heavy), heavy);
  }

  // ---- No signal ---------------------------------------------------------

  /** No timing of either kind, and no package that is always split. */
  predicate NoSignal(inp: Input) {
    && !HasPassEvents(inp.events) && inp.junit == []
    && forall p :: p in inp.allPkgs ==> p !in KNOWN_HEAVY_PKGS
  }

  lemma {:induction false} SuitesNonEmpty(t: seq<Entry<string>>, suites: seq<Entry<string>>)
    ensures |AddSuites(t, suites)| == 0 <==> |t| == 0 && |suites| == 0
  {
    if |suites| > 0 { SuitesNonEmpty(t, suites[..|suites| - 1]); }
  }

  lemma NoSignalIff(inp: Input)
    ensures NoSignal(inp) <==> |PkgTimes(inp)| == 0 && |HeavyPkgs(inp)| == 0
  {
    ParsedNonEmpty(inp.events);
    SuitesNonEmpty([], inp.junit);
    var heavy := HeavyPkgs(inp);
    if |heavy| > 0 { HeavyPkgsIff(inp, heavy[0]); }
    forall p | p in inp.allPkgs ensures p in heavy <==> IsHeavy(inp, p) { HeavyPkgsIff(inp, p); }
  }
}
