/** Timing data of the shard solver: the objects `pkgTimes` and `testTimes`.

    A JavaScript object used as a dictionary is a list of entries with distinct keys in
    insertion order. */
module ShardTimings {
  import opened Strings

  datatype Entry<K> = Entry(key: K, ms: nat)
  datatype TestKey = TestKey(pkg: string, test: string)

  /** A "pass" event of the previous run; `ms` is the rounded elapsed time. */
  datatype PassEvent = PassEvent(pkg: string, test: string, ms: nat)

  ghost predicate DistinctKeys<K>(t: seq<Entry<K>>) {
    forall i, j :: 0 <= i < j < |t| ==> t[i].key != t[j].key
  }

  predicate HasKey<K(==)>(t: seq<Entry<K>>, k: K) {
    exists i :: 0 <= i < |t| && t[i].key == k
  }

  /** `t[k] || 0`. */
  function Lookup<K(==)>(t: seq<Entry<K>>, k: K): nat {
    if |t| == 0 then 0
    else if t[|t| - 1].key == k then t[|t| - 1].ms
    else Lookup(t[..|t| - 1], k)
  }

  /** `t[k] = ms`. */
  function Store<K(==)>(t: seq<Entry<K>>, k: K, ms: nat): seq<Entry<K>> {
    if HasKey(t, k) then seq(|t|, i requires 0 <= i < |t| => if t[i].key == k then Entry(k, ms) else t[i])
    else t + [Entry(k, ms)]
  }

  lemma {:induction false} LookupAt<K>(t: seq<Entry<K>>, i: nat)
    requires DistinctKeys(t) && i < |t|
    ensures Lookup(t, t[i].key) == t[i].ms
  {
    if i < |t| - 1 { LookupAt(t[..|t| - 1], i); }
  }

  lemma {:induction false} LookupMissing<K>(t: seq<Entry<K>>, k: K)
    requires !HasKey(t, k)
    ensures Lookup(t, k) == 0
  {
    if |t| > 0 {
      assert t[|t| - 1].key != k;
      assert !HasKey(t[..|t| - 1], k) by {
        assert forall i :: 0 <= i < |t| - 1 ==> t[..|t| - 1][i] == t[i];
      }
      LookupMissing(t[..|t| - 1], k);
    }
  }

  lemma StoreKeepsKeys<K>(t: seq<Entry<K>>, k: K, ms: nat)
    requires DistinctKeys(t)
    ensures DistinctKeys(Store(t, k, ms))
    ensures forall x :: HasKey(Store(t, k, ms), x) <==> x == k || HasKey(t, x)
  {
    var s := Store(t, k, ms);
    forall x ensures HasKey(s, x) <==> x == k || HasKey(t, x) {
      if HasKey(t, x) {
        var i :| 0 <= i < |t| && t[i].key == x;
        assert s[i].key == x;
      }
      if HasKey(s, x) {
        var i :| 0 <= i < |s| && s[i].key == x;
        if i < |t| { assert t[i].key == x; }
      }
      if x == k && !HasKey(t, k) { assert s[|t|].key == k; }
    }
  }

  lemma LookupStore<K>(t: seq<Entry<K>>, k: K, ms: nat, x: K)
    requires DistinctKeys(t)
    ensures Lookup(Store(t, k, ms), x) == if x == k then ms else Lookup(t, x)
  {
    StoreKeepsKeys(t, k, ms);
    var s := Store(t, k, ms);
    if HasKey(s, x) {
      var i :| 0 <= i < |s| && s[i].key == x;
      LookupAt(s, i);
      if x != k { LookupAt(t, i); }
    } else {
      LookupMissing(s, x);
      LookupMissing(t, x);
    }
  }

  // ---- Parsing the previous run ------------------------------------------

  datatype Timings = Timings(pkgs: seq<Entry<string>>, tests: seq<Entry<TestKey>>)

  /** Events without a package or a test name are skipped. */
  predicate Counts(e: PassEvent) {
    e.pkg != "" && e.test != ""
  }

  function TopLevel(e: PassEvent): TestKey {
    TestKey(e.pkg, Before(e.test, '/'))
  }

  /** An event belongs to the test of its name, up to the first slash. */
  lemma TopLevelIff(e: PassEvent, k: TestKey)
    ensures TopLevel(e) == k <==>
      e.pkg == k.pkg && '/' !in k.test && (e.test == k.test || k.test + "/" <= e.test)
  {
    var top := Before(e.test, '/');
    if e.test == k.test && '/' !in k.test { BeforeMissing(k.test, '/'); }
    if k.test + "/" <= e.test && '/' !in k.test {
      BeforeFound(k.test, e.test[|k.test| + 1..], '/');
      assert e.test == k.test + ['/'] + e.test[|k.test| + 1..];
    }
    if |top| < |e.test| { assert e.test[..|top| + 1] == top + "/"; }
  }

  function Max(a: nat, b: nat): nat { if a < b then b else a }

  function Record(t: Timings, e: PassEvent): Timings {
    if !Counts(e) then t
    else Timings(Store(t.pkgs, e.pkg, Lookup(t.pkgs, e.pkg) + e.ms),
                 Store(t.tests, TopLevel(e), Max(Lookup(t.tests, TopLevel(e)), e.ms)))
  }

  function Parsed(events: seq<PassEvent>): Timings {
    if |events| == 0 then Timings([], []) else Record(Parsed(events[..|events| - 1]), events[|events| - 1])
  }

  method ParseEvents(events: seq<PassEvent>) returns (t: Timings)
    ensures t == Parsed(events)
    ensures DistinctKeys(t.pkgs) && DistinctKeys(t.tests)
    ensures forall p :: Lookup(t.pkgs, p) == PkgTotal(events, p)
    ensures forall k :: Lookup(t.tests, k) == TestMax(events, k) && (HasKey(t.tests, k) <==> Seen(events, k))
  {
    var pkgTimes: seq<Entry<string>> := [];
    var testTimes: seq<Entry<TestKey>> := [];
    for i := 0 to |events|
      invariant Timings(pkgTimes, testTimes) == Parsed(events[..i])
    {
      var e := events[i];
      assert events[..i + 1][..i] == events[..i];
      if e.test == "" || e.pkg == "" {
        continue;
      }
      pkgTimes := Store(pkgTimes, e.pkg, Lookup(pkgTimes, e.pkg) + e.ms);
      var key := TestKey(e.pkg, Before(e.test, '/'));
      testTimes := Store(testTimes, key, Max(Lookup(testTimes, key), e.ms));
    }
    assert events[..|events|] == events;
    t := Timings(pkgTimes, testTimes);
    ParsedKeys(events);
    forall p ensures Lookup(t.pkgs, p) == PkgTotal(events, p) { ParsedPkg(events, p); }
    forall k ensures Lookup(t.tests, k) == TestMax(events, k) && (HasKey(t.tests, k) <==> Seen(events, k)) {
      ParsedTest(events, k);
    }
  }

  // What the two dictionaries mean, straight from the event list.

  function PkgTotal(events: seq<PassEvent>, p: string): nat {
    if |events| == 0 then 0
    else
      var e := events[|events| - 1];
      PkgTotal(events[..|events| - 1], p) + (if Counts(e) && e.pkg == p then e.ms else 0)
  }

  function TestMax(events: seq<PassEvent>, k: TestKey): nat {
    if |events| == 0 then 0
    else
      var e := events[|events| - 1];
      Max(TestMax(events[..|events| - 1], k), if Counts(e) && TopLevel(e) == k then e.ms else 0)
  }

  predicate Seen(events: seq<PassEvent>, k: TestKey) {
    exists e :: e in events && Counts(e) && TopLevel(e) == k
  }

  lemma {:induction false} ParsedKeys(events: seq<PassEvent>)
    ensures DistinctKeys(Parsed(events).pkgs) && DistinctKeys(Parsed(events).tests)
  {
    if |events| > 0 {
      var e, t := events[|events| - 1], Parsed(events[..|events| - 1]);
      ParsedKeys(events[..|events| - 1]);
      StoreKeepsKeys(t.pkgs, e.pkg, Lookup(t.pkgs, e.pkg) + e.ms);
      StoreKeepsKeys(t.tests, TopLevel(e), Max(Lookup(t.tests, TopLevel(e)), e.ms));
    }
  }

  /** A package's time is the sum of its passing test events, subtests included. */
  lemma {:induction false} ParsedPkg(events: seq<PassEvent>, p: string)
    ensures Lookup(Parsed(events).pkgs, p) == PkgTotal(events, p)
  {
    if |events| > 0 {
      var e, t := events[|events| - 1], Parsed(events[..|events| - 1]);
      ParsedPkg(events[..|events| - 1], p);
      ParsedKeys(events[..|events| - 1]);
      LookupStore(t.pkgs, e.pkg, Lookup(t.pkgs, e.pkg) + e.ms, p);
    }
  }

  /** A test's time is the longest event of the test or one of its subtests. */
  lemma {:induction false} ParsedTest(events: seq<PassEvent>, k: TestKey)
    ensures Lookup(Parsed(events).tests, k) == TestMax(events, k)
    ensures HasKey(Parsed(events).tests, k) <==> Seen(events, k)
  {
    if |events| > 0 {
      var before, e := events[..|events| - 1], events[|events| - 1];
      var t := Parsed(before);
      ParsedTest(before, k);
      ParsedKeys(before);
      LookupStore(t.tests, TopLevel(e), Max(Lookup(t.tests, TopLevel(e)), e.ms), k);
      StoreKeepsKeys(t.tests, TopLevel(e), Max(Lookup(t.tests, TopLevel(e)), e.ms));
      assert events == before + [e];
      assert Seen(events, k) <==> Seen(before, k) || (Counts(e) && TopLevel(e) == k);
    }
  }
}
