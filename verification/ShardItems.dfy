/** Work items of the shard solver: heavy packages, their tests, and the fallbacks. */
module ShardItems {
  import opened Strings
  import opened ShardTimings

  const HEAVY_MS: nat := 600000
  const DISCOVERED_MS: nat := 1000
  const KNOWN_HEAVY_PKGS: set<string> := {
    "github.com/mattermost/mattermost/server/v8/channels/api4",
    "github.com/mattermost/mattermost/server/v8/channels/app"
  }

  datatype Item =
    | WholePkg(ms: nat, pkg: string)
    | OneTest(ms: nat, pkg: string, test: string)

  /** What an item runs, without its duration. */
  datatype Work = Pkg(pkg: string) | Test(pkg: string, test: string)

  function WorkOf(it: Item): Work {
    match it
    case WholePkg(_, p) => Pkg(p)
    case OneTest(_, p, t) => Test(p, t)
  }

  /** How often `items` contains the work `w`. */
  function Mult(items: seq<Item>, w: Work): nat {
    if |items| == 0 then 0
    else Mult(items[..|items| - 1], w) + (if WorkOf(items[|items| - 1]) == w then 1 else 0)
  }

  function Occ(s: seq<string>, x: string): nat {
    if |s| == 0 then 0 else Occ(s[..|s| - 1], x) + (if s[|s| - 1] == x then 1 else 0)
  }

  ghost predicate Distinct(s: seq<string>) {
    forall i, j :: 0 <= i < j < |s| ==> s[i] != s[j]
  }

  /** The script's inputs: package list, previous run's pass events, previous JUnit suites
      (name and rounded time), what `go test -list` printed for the packages where it
      succeeded, whether CI is set, and SHARD_TOTAL. */
  datatype Input = Input(
    allPkgs: seq<string>,
    events: seq<PassEvent>,
    junit: seq<Entry<string>>,
    listings: map<string, string>,
    ci: bool,
    total: nat)

  // ---- Timings with the JUnit fallback -----------------------------------

  function AddSuites(t: seq<Entry<string>>, suites: seq<Entry<string>>): seq<Entry<string>> {
    if |suites| == 0 then t
    else
      var r := AddSuites(t, suites[..|suites| - 1]);
      var s := suites[|suites| - 1];
      Store(r, s.key, Lookup(r, s.key) + s.ms)
  }

  function PkgTimes(inp: Input): seq<Entry<string>> {
    var t := Parsed(inp.events).pkgs;
    if |t| == 0 then AddSuites(t, inp.junit) else t
  }

  function TestTimes(inp: Input): seq<Entry<TestKey>> {
    Parsed(inp.events).tests
  }

  // ---- Heavy packages ----------------------------------------------------

  /** Set.add on an insertion-ordered set. */
  function AddNew(s: seq<string>, x: string): seq<string> {
    if x in s then s else s + [x]
  }

  function TimedHeavy(times: seq<Entry<string>>, pkgs: seq<string>): seq<string> {
    if |times| == 0 then []
    else
      var r, e := TimedHeavy(times[..|times| - 1], pkgs), times[|times| - 1];
      if e.ms > HEAVY_MS && e.key in pkgs then AddNew(r, e.key) else r
  }

  function KnownHeavy(acc: seq<string>, pkgs: seq<string>): seq<string> {
    if |pkgs| == 0 then acc
    else
      var r, p := KnownHeavy(acc, pkgs[..|pkgs| - 1]), pkgs[|pkgs| - 1];
      if p in KNOWN_HEAVY_PKGS then AddNew(r, p) else r
  }

  function HeavyPkgs(inp: Input): seq<string> {
    KnownHeavy(if |TestTimes(inp)| > 0 then TimedHeavy(PkgTimes(inp), inp.allPkgs) else [], inp.allPkgs)
  }

  method IdentifyHeavy(inp: Input, pkgTimes: seq<Entry<string>>, hasTestTiming: bool) returns (heavy: seq<string>)
    requires pkgTimes == PkgTimes(inp) && hasTestTiming == (|TestTimes(inp)| > 0)
    ensures heavy == HeavyPkgs(inp)
  {
    heavy := [];
    if hasTestTiming {
      for i := 0 to |pkgTimes|
        invariant heavy == TimedHeavy(pkgTimes[..i], inp.allPkgs)
      {
        assert pkgTimes[..i + 1][..i] == pkgTimes[..i];
        if pkgTimes[i].ms > HEAVY_MS && pkgTimes[i].key in inp.allPkgs {
          heavy := AddNew(heavy, pkgTimes[i].key);
        }
      }
      assert pkgTimes[..|pkgTimes|] == pkgTimes;
    }
    ghost var timed := heavy;
    for i := 0 to |inp.allPkgs|
      invariant heavy == KnownHeavy(timed, inp.allPkgs[..i])
    {
      assert inp.allPkgs[..i + 1][..i] == inp.allPkgs[..i];
      if inp.allPkgs[i] in KNOWN_HEAVY_PKGS {
        heavy := AddNew(heavy, inp.allPkgs[i]);
      }
    }
    assert inp.allPkgs[..|inp.allPkgs|] == inp.allPkgs;
  }

  // ---- Items -------------------------------------------------------------

  /** `pkgTimes[pkg] || 1`. */
  function WholeMs(times: seq<Entry<string>>, p: string): nat {
    if Lookup(times, p) == 0 then 1 else Lookup(times, p)
  }

  function CachedItems(tests: seq<Entry<TestKey>>, p: string): seq<Item> {
    if |tests| == 0 then []
    else
      var e := tests[|tests| - 1];
      CachedItems(tests[..|tests| - 1], p) + (if e.key.pkg == p then [OneTest(e.ms, p, e.key.test)] else [])
  }

  function BaseItems(inp: Input, heavy: seq<string>, pkgs: seq<string>): seq<Item> {
    if |pkgs| == 0 then []
    else
      var p := pkgs[|pkgs| - 1];
      BaseItems(inp, heavy, pkgs[..|pkgs| - 1])
      + (if p in heavy then CachedItems(TestTimes(inp), p) else [WholePkg(WholeMs(PkgTimes(inp), p), p)])
  }

  /** The filter on the printed names: `Test` and an upper-case letter. */
  predicate IsTestName(t: string) {
    |t| >= 5 && t[..4] == "Test" && 'A' <= t[4] <= 'Z'
  }

  /** The trimmed lines that pass the filter. */
  function CurrentTests(lines: seq<string>): seq<string> {
    if |lines| == 0 then []
    else
      var t := Trim(lines[|lines| - 1]);
      CurrentTests(lines[..|lines| - 1]) + (if IsTestName(t) then [t] else [])
  }

  /** The current tests of `p` that the timing cache does not know. */
  function NewItems(inp: Input, p: string, tests: seq<string>): seq<Item> {
    if |tests| == 0 then []
    else
      var t := tests[|tests| - 1];
      NewItems(inp, p, tests[..|tests| - 1])
      + (if HasKey(TestTimes(inp), TestKey(p, t)) then [] else [OneTest(DISCOVERED_MS, p, t)])
  }

  /** Discovery over the heavy packages; a package whose listing failed adds nothing. */
  function Discovered(inp: Input, heavy: seq<string>): seq<Item> {
    if |heavy| == 0 then []
    else
      var p := heavy[|heavy| - 1];
      Discovered(inp, heavy[..|heavy| - 1])
      + (if p in inp.listings then NewItems(inp, p, CurrentTests(Split(inp.listings[p], '\n'))) else [])
  }

  predicate HasItems(items: seq<Item>, p: string) {
    exists it :: it in items && it.pkg == p
  }

  function WithFallback(inp: Input, items: seq<Item>, heavy: seq<string>): seq<Item> {
    if |heavy| == 0 then items
    else
      var r, p := WithFallback(inp, items, heavy[..|heavy| - 1]), heavy[|heavy| - 1];
      if HasItems(r, p) then r else r + [WholePkg(WholeMs(PkgTimes(inp), p), p)]
  }

  function AllItems(inp: Input): seq<Item> {
    var heavy := HeavyPkgs(inp);
    WithFallback(inp, BaseItems(inp, heavy, inp.allPkgs) + Discovered(inp, heavy), heavy)
  }

  /** Discovery aborts the script in CI as soon as one listing fails. */
  predicate DiscoveryAborts(inp: Input) {
    inp.ci && exists p :: p in HeavyPkgs(inp) && p !in inp.listings
  }

  method BuildItems(inp: Input, pkgTimes: seq<Entry<string>>, testTimes: seq<Entry<TestKey>>, heavy: seq<string>)
    returns (ok: bool, items: seq<Item>)
    requires pkgTimes == PkgTimes(inp) && testTimes == TestTimes(inp) && heavy == HeavyPkgs(inp)
    ensures ok <==> !DiscoveryAborts(inp)
    ensures ok ==> items == AllItems(inp)
  {
    items := [];
    for i := 0 to |inp.allPkgs|
      invariant items == BaseItems(inp, heavy, inp.allPkgs[..i])
    {
      var pkg := inp.allPkgs[i];
      assert inp.allPkgs[..i + 1][..i] == inp.allPkgs[..i];
      if pkg in heavy {
        items := items + CachedItems(testTimes, pkg);
      } else {
        items := items + [WholePkg(WholeMs(pkgTimes, pkg), pkg)];
      }
    }
    assert inp.allPkgs[..|inp.allPkgs|] == inp.allPkgs;
    ok, items := Discover(inp, testTimes, heavy, items);
    if ok {
      items := AddFallbacks(inp, pkgTimes, heavy, items);
    }
  }

  method Discover(inp: Input, testTimes: seq<Entry<TestKey>>, heavy: seq<string>, base: seq<Item>)
    returns (ok: bool, items: seq<Item>)
    requires testTimes == TestTimes(inp)
    ensures ok <==> (inp.ci ==> forall p :: p in heavy ==> p in inp.listings)
    ensures ok ==> items == base + Discovered(inp, heavy)
  {
    items := base;
    for i := 0 to |heavy|
      invariant items == base + Discovered(inp, heavy[..i])
      invariant inp.ci ==> forall p :: p in heavy[..i] ==> p in inp.listings
    {
      var pkg := heavy[i];
      assert heavy[..i + 1][..i] == heavy[..i];
      if pkg in inp.listings {
        var missing := MissingTests(inp, testTimes, pkg, inp.listings[pkg]);
        items := items + missing;
      } else if inp.ci {
        assert pkg in heavy;
        return false, [];
      }
    }
    assert heavy[..|heavy|] == heavy;
    ok := true;
  }

  /** One listing: split into lines, trimmed, filtered, and compared with the cache. */
  method MissingTests(inp: Input, testTimes: seq<Entry<TestKey>>, pkg: string, out: string)
    returns (items: seq<Item>)
    requires testTimes == TestTimes(inp)
    ensures items == NewItems(inp, pkg, CurrentTests(Split(out, '\n')))
  {
    var currentTests := Listed(out);
    items := [];
    for j := 0 to |currentTests|
      invariant items == NewItems(inp, pkg, currentTests[..j])
    {
      assert currentTests[..j + 1][..j] == currentTests[..j];
      if !HasKey(testTimes, TestKey(pkg, currentTests[j])) {
        items := items + [OneTest(DISCOVERED_MS, pkg, currentTests[j])];
      }
    }
    assert currentTests[..|currentTests|] == currentTests;
  }

  method Listed(out: string) returns (currentTests: seq<string>)
    ensures currentTests == CurrentTests(Split(out, '\n'))
  {
    var lines := Split(out, '\n');
    currentTests := [];
    for i := 0 to |lines|
      invariant currentTests == CurrentTests(lines[..i])
    {
      assert lines[..i + 1][..i] == lines[..i];
      var t := Trim(lines[i]);
      if IsTestName(t) {
        currentTests := currentTests + [t];
      }
    }
    assert lines[..|lines|] == lines;
  }

  method AddFallbacks(inp: Input, pkgTimes: seq<Entry<string>>, heavy: seq<string>, start: seq<Item>)
    returns (items: seq<Item>)
    requires pkgTimes == PkgTimes(inp)
    ensures items == WithFallback(inp, start, heavy)
  {
    items := start;
    for i := 0 to |heavy|
      invariant items == WithFallback(inp, start, heavy[..i])
    {
      assert heavy[..i + 1][..i] == heavy[..i];
      if !HasItems(items, heavy[i]) {
        items := items + [WholePkg(WholeMs(pkgTimes, heavy[i]), heavy[i])];
      }
    }
    assert heavy[..|heavy|] == heavy;
  }
}
