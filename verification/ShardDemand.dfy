/** How often the item list contains each piece of work, for every input. */
module ShardDemand {
  import opened Strings
  import opened ShardTimings
  import opened ShardItems

  // The reference: stated on the raw inputs, with no mention of the item list.

  predicate HasPassEvents(events: seq<PassEvent>) {
    exists e :: e in events && Counts(e)
  }

  /** A listed package that is known heavy, or whose passing events exceed the threshold. */
  predicate IsHeavy(inp: Input, p: string) {
    && p in inp.allPkgs
    && (p in KNOWN_HEAVY_PKGS || (HasPassEvents(inp.events) && PkgTotal(inp.events, p) > HEAVY_MS))
  }

  /** The cache knows no test of the package, and no line that `go test -list` printed for it
      passes the filter. */
  predicate NoTests(inp: Input, p: string) {
    && (forall e :: e in inp.events && Counts(e) ==> e.pkg != p)
    && (p in inp.listings ==> forall line :: line in Split(inp.listings[p], '\n') ==> !IsTestName(Trim(line)))
  }

  /** How many lines say `t`, up to white space around it. */
  function TimesPrinted(lines: seq<string>, t: string): nat {
    if |lines| == 0 then 0
    else TimesPrinted(lines[..|lines| - 1], t) + (if Trim(lines[|lines| - 1]) == t then 1 else 0)
  }

  /** How often discovery takes up the name `t`: names that do not pass the filter never. */
  function TimesListed(inp: Input, p: string, t: string): nat {
    if p in inp.listings && IsTestName(t) then TimesPrinted(Split(inp.listings[p], '\n'), t) else 0
  }

  function Demand(inp: Input, w: Work): nat {
    match w
    case Pkg(p) =>
      if !IsHeavy(inp, p) then Occ(inp.allPkgs, p) else if NoTests(inp, p) then 1 else 0
    case Test(p, t) =>
      if !IsHeavy(inp, p) then 0
      else if Seen(inp.events, TestKey(p, t)) then Occ(inp.allPkgs, p)
      else TimesListed(inp, p, t)
  }

  // ---- Multiplicities ----------------------------------------------------

  lemma {:induction false} MultAppend(a: seq<Item>, b: seq<Item>, w: Work)
    ensures Mult(a + b, w) == Mult(a, w) + Mult(b, w)
  {
    if |b| == 0 {
      assert a + b == a;
    } else {
      assert (a + b)[..|a + b| - 1] == a + b[..|b| - 1];
      MultAppend(a, b[..|b| - 1], w);
    }
  }

  lemma {:induction false} MultPositive(items: seq<Item>, w: Work)
    ensures Mult(items, w) > 0 <==> exists it :: it in items && WorkOf(it) == w
  {
    if |items| > 0 {
      MultPositive(items[..|items| - 1], w);
      assert items == items[..|items| - 1] + [items[|items| - 1]];
    }
  }

  lemma {:induction false} OccPositive(s: seq<string>, x: string)
    ensures Occ(s, x) > 0 <==> x in s
  {
    if |s| > 0 {
      OccPositive(s[..|s| - 1], x);
      assert s == s[..|s| - 1] + [s[|s| - 1]];
    }
  }

  lemma {:induction false} OccDistinct(s: seq<string>, x: string)
    requires Distinct(s)
    ensures Occ(s, x) == if x in s then 1 else 0
  {
    if |s| > 0 {
      OccDistinct(s[..|s| - 1], x);
      assert s == s[..|s| - 1] + [s[|s| - 1]];
    }
  }

  // ---- Heavy packages ----------------------------------------------------

  lemma {:induction false} TimedHeavyIff(times: seq<Entry<string>>, pkgs: seq<string>, p: string)
    ensures p in TimedHeavy(times, pkgs)
      <==> p in pkgs && exists i :: 0 <= i < |times| && times[i].key == p && times[i].ms > HEAVY_MS
    ensures Distinct(TimedHeavy(times, pkgs))
  {
    if |times| > 0 {
      var n := |times| - 1;
      TimedHeavyIff(times[..n], pkgs, p);
      assert forall i :: 0 <= i < n ==> times[..n][i] == times[i];
      assert (exists i :: 0 <= i < |times| && times[i].key == p && times[i].ms > HEAVY_MS)
        <==> (exists i :: 0 <= i < n && times[..n][i].key == p && times[..n][i].ms > HEAVY_MS)
             || (times[n].key == p && times[n].ms > HEAVY_MS);
    }
  }

  lemma {:induction false} KnownHeavyIff(acc: seq<string>, pkgs: seq<string>, p: string)
    requires Distinct(acc)
    ensures p in KnownHeavy(acc, pkgs) <==> p in acc || (p in pkgs && p in KNOWN_HEAVY_PKGS)
    ensures Distinct(KnownHeavy(acc, pkgs))
  {
    if |pkgs| > 0 {
      KnownHeavyIff(acc, pkgs[..|pkgs| - 1], p);
      assert pkgs == pkgs[..|pkgs| - 1] + [pkgs[|pkgs| - 1]];
    }
  }

  lemma {:induction false} ParsedNonEmpty(events: seq<PassEvent>)
    ensures |Parsed(events).tests| > 0 <==> HasPassEvents(events)
    ensures |Parsed(events).pkgs| > 0 <==> HasPassEvents(events)
  {
    if |events| > 0 {
      ParsedNonEmpty(events[..|events| - 1]);
      assert events == events[..|events| - 1] + [events[|events| - 1]];
      if Counts(events[|events| - 1]) { assert HasPassEvents(events); }
    }
  }

  /** The computed heavy list is the heavy set of the reference, without repetitions. */
  lemma HeavyPkgsIff(inp: Input, p: string)
    ensures p in HeavyPkgs(inp) <==> IsHeavy(inp, p)
    ensures Distinct(HeavyPkgs(inp))
  {
    ParsedNonEmpty(inp.events);
    var times := PkgTimes(inp);
    var timed := if |TestTimes(inp)| > 0 then TimedHeavy(times, inp.allPkgs) else [];
    TimedHeavyIff(times, inp.allPkgs, p);
    KnownHeavyIff(timed, inp.allPkgs, p);
    if |TestTimes(inp)| > 0 {
      ParsedKeys(inp.events);
      ParsedPkg(inp.events, p);
      if i :| 0 <= i < |times| && times[i].key == p {
        LookupAt(times, i);
      } else {
        LookupMissing(times, p);
      }
    }
  }

  // ---- The three item sources --------------------------------------------

  lemma {:induction false} CachedMult(tests: seq<Entry<TestKey>>, p: string, w: Work)
    requires DistinctKeys(tests)
    ensures Mult(CachedItems(tests, p), w)
      == if w.Test? && w.pkg == p && HasKey(tests, TestKey(p, w.test)) then 1 else 0
  {
    if |tests| > 0 {
      var n := |tests| - 1;
      CachedMult(tests[..n], p, w);
      var last := if tests[n].key.pkg == p then [OneTest(tests[n].ms, p, tests[n].key.test)] else [];
      MultAppend(CachedItems(tests[..n], p), last, w);
      if w.Test? { HasKeySnoc(tests, n, TestKey(p, w.test)); }
      CachedLast(tests[n], p, w);
    }
  }

  lemma CachedLast(e: Entry<TestKey>, p: string, w: Work)
    ensures Mult(if e.key.pkg == p then [OneTest(e.ms, p, e.key.test)] else [], w)
      == if w.Test? && w.pkg == p && e.key == TestKey(p, w.test) then 1 else 0
  {
  }

  lemma HasKeySnoc(tests: seq<Entry<TestKey>>, n: nat, k: TestKey)
    requires |tests| == n + 1
    ensures HasKey(tests, k) <==> HasKey(tests[..n], k) || tests[n].key == k
    ensures DistinctKeys(tests) && HasKey(tests[..n], k) ==> tests[n].key != k
  {
    if i :| 0 <= i < n && tests[..n][i].key == k { assert tests[i].key == k; }
    if i :| 0 <= i < n && tests[i].key == k { assert tests[..n][i].key == k; }
  }

  lemma {:induction false} BaseMult(inp: Input, heavy: seq<string>, pkgs: seq<string>, w: Work)
    ensures Mult(BaseItems(inp, heavy, pkgs), w)
      == match w
         case Pkg(p) => if p in heavy then 0 else Occ(pkgs, p)
         case Test(p, t) => if p in heavy && Seen(inp.events, TestKey(p, t)) then Occ(pkgs, p) else 0
  {
    if |pkgs| > 0 {
      var n := |pkgs| - 1;
      BaseMult(inp, heavy, pkgs[..n], w);
      ParsedKeys(inp.events);
      CachedMult(TestTimes(inp), pkgs[n], w);
      if w.Test? { ParsedTest(inp.events, TestKey(w.pkg, w.test)); }
      MultAppend(BaseItems(inp, heavy, pkgs[..n]),
        if pkgs[n] in heavy then CachedItems(TestTimes(inp), pkgs[n])
        else [WholePkg(WholeMs(PkgTimes(inp), pkgs[n]), pkgs[n])], w);
    }
  }

  lemma {:induction false} NewMult(inp: Input, p: string, tests: seq<string>, w: Work)
    ensures Mult(NewItems(inp, p, tests), w)
      == if w.Test? && w.pkg == p && !Seen(inp.events, TestKey(p, w.test)) then Occ(tests, w.test) else 0
  {
    if |tests| > 0 {
      var n := |tests| - 1;
      var last := NewItem(inp, p, tests[n]);
      NewMult(inp, p, tests[..n], w);
      NewItemMult(inp, p, tests[n], w);
      MultAppend(NewItems(inp, p, tests[..n]), last, w);
    }
  }

  /** Trimming and filtering keep a name exactly as often as it was printed, if it passes. */
  lemma {:induction false} CurrentTestsOcc(lines: seq<string>, t: string)
    ensures Occ(CurrentTests(lines), t) == if IsTestName(t) then TimesPrinted(lines, t) else 0
  {
    if |lines| > 0 {
      var n := |lines| - 1;
      var before := CurrentTests(lines[..n]);
      CurrentTestsOcc(lines[..n], t);
      assert (before + [Trim(lines[n])])[..|before|] == before;
      assert before + [] == before;
    }
  }

  lemma {:induction false} TimesPrintedPositive(lines: seq<string>, t: string)
    ensures TimesPrinted(lines, t) > 0 <==> exists line :: line in lines && Trim(line) == t
  {
    if |lines| > 0 {
      var n := |lines| - 1;
      TimesPrintedPositive(lines[..n], t);
      if Trim(lines[n]) == t { assert lines[n] in lines; }
      if line :| line in lines[..n] && Trim(line) == t { assert line in lines; }
      if line :| line in lines && Trim(line) == t {
        assert line in lines[..n] || line == lines[n];
      }
    }
  }

  function NewItem(inp: Input, p: string, t: string): seq<Item> {
    if HasKey(TestTimes(inp), TestKey(p, t)) then [] else [OneTest(DISCOVERED_MS, p, t)]
  }

  lemma NewItemMult(inp: Input, p: string, t: string, w: Work)
    ensures Mult(NewItem(inp, p, t), w)
      == if w.Test? && w.pkg == p && t == w.test && !Seen(inp.events, TestKey(p, t)) then 1 else 0
  {
    ParsedTest(inp.events, TestKey(p, t));
  }

  lemma {:induction false} DiscoveredMult(inp: Input, heavy: seq<string>, w: Work)
    requires Distinct(heavy)
    ensures Mult(Discovered(inp, heavy), w)
      == if w.Test? && w.pkg in heavy && !Seen(inp.events, TestKey(w.pkg, w.test))
         then TimesListed(inp, w.pkg, w.test) else 0
  {
    if |heavy| > 0 {
      var n := |heavy| - 1;
      DiscoveredMult(inp, heavy[..n], w);
      ListedMult(inp, heavy[n], w);
      MultAppend(Discovered(inp, heavy[..n]), ListedItems(inp, heavy[n]), w);
      assert heavy == heavy[..n] + [heavy[n]];
    }
  }

  function ListedItems(inp: Input, p: string): seq<Item> {
    if p in inp.listings then NewItems(inp, p, CurrentTests(Split(inp.listings[p], '\n'))) else []
  }

  lemma ListedMult(inp: Input, p: string, w: Work)
    ensures Mult(ListedItems(inp, p), w)
      == if w.Test? && w.pkg == p && !Seen(inp.events, TestKey(p, w.test)) then TimesListed(inp, p, w.test) else 0
  {
    if p in inp.listings {
      var lines := Split(inp.listings[p], '\n');
      NewMult(inp, p, CurrentTests(lines), w);
      if w.Test? { CurrentTestsOcc(lines, w.test); }
    }
  }

  lemma {:induction false} FallbackMult(inp: Input, items: seq<Item>, heavy: seq<string>, w: Work)
    requires Distinct(heavy)
    ensures Mult(WithFallback(inp, items, heavy), w)
      == Mult(items, w) + (if w.Pkg? && w.pkg in heavy && !HasItems(items, w.pkg) then 1 else 0)
  {
    if |heavy| > 0 {
      var n := |heavy| - 1;
      FallbackMult(inp, items, heavy[..n], w);
      FallbackItems(inp, items, heavy[..n], heavy[n]);
      assert heavy == heavy[..n] + [heavy[n]];
      var r := WithFallback(inp, items, heavy[..n]);
      var extra := WholePkg(WholeMs(PkgTimes(inp), heavy[n]), heavy[n]);
      assert (r + [extra])[..|r|] == r;
    }
  }

  lemma {:induction false} FallbackItems(inp: Input, items: seq<Item>, heavy: seq<string>, p: string)
    ensures HasItems(WithFallback(inp, items, heavy), p) <==> HasItems(items, p) || p in heavy
  {
    if |heavy| > 0 {
      var n := |heavy| - 1;
      FallbackItems(inp, items, heavy[..n], p);
      assert heavy == heavy[..n] + [heavy[n]];
      HasItemsSnoc(WithFallback(inp, items, heavy[..n]), WholePkg(WholeMs(PkgTimes(inp), heavy[n]), heavy[n]), p);
    }
  }

  lemma HasItemsSnoc(items: seq<Item>, it: Item, p: string)
    ensures HasItems(items + [it], p) <==> HasItems(items, p) || it.pkg == p
  {
    assert it in items + [it];
  }

  // ---- The whole list ----------------------------------------------------

  lemma ListedPositive(inp: Input, p: string, t: string)
    ensures TimesListed(inp, p, t) > 0 ==> !NoTests(inp, p)
  {
    if p in inp.listings { TimesPrintedPositive(Split(inp.listings[p], '\n'), t); }
  }

  /** A heavy package comes out of discovery with items unless no test of it is known. */
  lemma HeavyHasItems(inp: Input, p: string, items: seq<Item>)
    requires IsHeavy(inp, p)
    requires items == BaseItems(inp, HeavyPkgs(inp), inp.allPkgs) + Discovered(inp, HeavyPkgs(inp))
    ensures HasItems(items, p) <==> !NoTests(inp, p)
  {
    var heavy := HeavyPkgs(inp);
    HeavyPkgsIff(inp, p);
    OccPositive(inp.allPkgs, p);
    if HasItems(items, p) {
      var it :| it in items && it.pkg == p;
      var w := WorkOf(it);
      MultPositive(items, w);
      SourcesMult(inp, w);
      if w.Test? && !Seen(inp.events, TestKey(p, w.test)) { ListedPositive(inp, p, w.test); }
    }
    if !NoTests(inp, p) {
      var w;
      if e :| e in inp.events && Counts(e) && e.pkg == p {
        w := Test(p, TopLevel(e).test);
        assert Seen(inp.events, TestKey(p, w.test));
      } else {
        var line :| line in Split(inp.listings[p], '\n') && IsTestName(Trim(line));
        w := Test(p, Trim(line));
        TimesPrintedPositive(Split(inp.listings[p], '\n'), w.test);
      }
      SourcesMult(inp, w);
      MultPositive(items, w);
      var it :| it in items && WorkOf(it) == w;
      assert it.pkg == p;
    }
  }

  lemma SourcesMult(inp: Input, w: Work)
    ensures Mult(BaseItems(inp, HeavyPkgs(inp), inp.allPkgs) + Discovered(inp, HeavyPkgs(inp)), w)
      == match w
         case Pkg(p) => if IsHeavy(inp, p) then 0 else Occ(inp.allPkgs, p)
         case Test(p, t) =>
           if !IsHeavy(inp, p) then 0
           else if Seen(inp.events, TestKey(p, t)) then Occ(inp.allPkgs, p)
           else TimesListed(inp, p, t)
  {
    var heavy := HeavyPkgs(inp);
    HeavyPkgsIff(inp, w.pkg);
    BaseMult(inp, heavy, inp.allPkgs, w);
    DiscoveredMult(inp, heavy, w);
    MultAppend(BaseItems(inp, heavy, inp.allPkgs), Discovered(inp, heavy), w);
  }

  /** The item list holds every piece of work exactly as often as the reference asks for:
      light packages once per line of the package list, cached tests once, other tests once
      per printed line that passes the filter, and a heavy package whole only when no test of
      it is known. */
  lemma ItemsMeetDemand(inp: Input, w: Work)
    ensures Mult(AllItems(inp), w) == Demand(inp, w)
  {
    var heavy := HeavyPkgs(inp);
    var items := BaseItems(inp, heavy, inp.allPkgs) + Discovered(inp, heavy);
    HeavyPkgsIff(inp, w.pkg);
    SourcesMult(inp, w);
    FallbackMult(inp, items, heavy, w);
    if IsHeavy(inp, w.pkg) { HeavyHasItems(inp, w.pkg, items); }
  }
}
