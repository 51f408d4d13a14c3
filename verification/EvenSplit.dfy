/** Splitting test files evenly over parallel runners, and the run loop of one part. */
module EvenSplit {

  function Min(a: nat, b: nat): nat { if a < b then a else b }

  // ---- Distribution ------------------------------------------------------

  /** What the generator yields: the first `total % divider` parts get one item more. */
  function Sizes(total: nat, divider: nat): (r: seq<nat>)
    ensures divider > 0 ==> |r| == divider
  {
    if divider == 0 then [0]
    else seq(divider, i => total / divider + (if i < total % divider then 1 else 0))
  }

  method DistributeItems(total: nat, divider: nat) returns (sizes: seq<nat>)
    ensures sizes == Sizes(total, divider)
    ensures divider == 0 ==> sizes == [0]
    ensures divider > 0 ==>
      && |sizes| == divider
      && forall k :: 0 <= k < divider ==> sizes[k] == Offset(total, divider, k + 1) - Offset(total, divider, k)
  {
    if divider == 0 { return [0]; }
    sizes := [];
    var rest: int := total % divider;
    var floor := total / divider;
    var ceil := if total % divider == 0 then floor else floor + 1;
    for i := 0 to divider
      invariant rest == total % divider - i
      invariant sizes == Sizes(total, divider)[..i]
    {
      if rest > 0 {
        sizes := sizes + [ceil];
      } else {
        sizes := sizes + [floor];
      }
      rest := rest - 1;
    }
    forall k | 0 <= k < divider
      ensures sizes[k] == Offset(total, divider, k + 1) - Offset(total, divider, k)
    {
      OffsetStep(total, divider, k);
    }
  }

  /** Where part `k` starts. */
  function Offset(total: nat, of: nat, k: nat): nat
    requires of >= 1
  {
    k * (total / of) + Min(k, total % of)
  }

  lemma OffsetStep(total: nat, of: nat, k: nat)
    requires of >= 1
    ensures Offset(total, of, k + 1) == Offset(total, of, k) + (total / of + (if k < total % of then 1 else 0))
  {
    assert (k + 1) * (total / of) == k * (total / of) + total / of;
  }

  /** The parts tile the files: they start at 0, end at the total, and the first file after
      one part is the first of the next. */
  lemma OffsetEnds(total: nat, of: nat)
    requires of >= 1
    ensures Offset(total, of, 0) == 0 && Offset(total, of, of) == total
  {
  }

  lemma {:induction false} OffsetMonotone(total: nat, of: nat, j: nat, k: nat)
    requires of >= 1 && j <= k
    ensures Offset(total, of, j) <= Offset(total, of, k)
    decreases k - j
  {
    if j < k {
      OffsetStep(total, of, j);
      OffsetMonotone(total, of, j + 1, k);
    }
  }

  /** Every file belongs to exactly one part. */
  lemma {:induction false} OwnerExists(total: nat, of: nat, x: nat, k: nat) returns (part: nat)
    requires of >= 1 && x < Offset(total, of, k)
    ensures part < k && Offset(total, of, part) <= x < Offset(total, of, part + 1)
  {
    OffsetEnds(total, of);
    if x < Offset(total, of, k - 1) {
      part := OwnerExists(total, of, x, k - 1);
    } else {
      part := k - 1;
    }
  }

  lemma OwnerUnique(total: nat, of: nat, x: nat, p: nat, q: nat)
    requires of >= 1
    requires Offset(total, of, p) <= x < Offset(total, of, p + 1)
    requires Offset(total, of, q) <= x < Offset(total, of, q + 1)
    ensures p == q
  {
    if p < q { OffsetMonotone(total, of, p + 1, q); }
    if q < p { OffsetMonotone(total, of, q + 1, p); }
  }

  /** Part sizes differ by at most one, larger parts first. */
  lemma Balanced(total: nat, of: nat, p: nat, q: nat)
    requires of >= 1 && p <= q
    ensures var a := Offset(total, of, p + 1) - Offset(total, of, p);
      var b := Offset(total, of, q + 1) - Offset(total, of, q);
      b <= a <= b + 1
  {
    OffsetStep(total, of, p);
    OffsetStep(total, of, q);
  }

  /** What `getTestFilesIdentifier` answers: a thrown error, an end that is not a number, or the
      slice of the part. */
  datatype Identifier = Thrown | NotANumber | Slice(start: nat, end: nat, count: nat)

  /** `parseInt(arg, 10) || 1`, where an argument that is missing or no number counts as 0. */
  function OrOne(arg: int): int {
    if arg == 0 then 1 else arg
  }

  /** `getTestFilesIdentifier` for all arguments.  A negative part looks outside the list of
      sizes. */
  method GetTestFilesIdentifier(total: nat, part: int, of: int) returns (r: Identifier)
    ensures r == Thrown <==> OrOne(part) > OrOne(of)
    ensures r == NotANumber <==> OrOne(part) <= OrOne(of) && OrOne(part) < 0
    ensures 1 <= OrOne(part) <= OrOne(of) ==>
      && r.Slice?
      && r.start == Offset(total, OrOne(of), OrOne(part) - 1) && r.end == Offset(total, OrOne(of), OrOne(part))
      && r.count == r.end - r.start
  {
    var PART, OF := OrOne(part), OrOne(of);
    if PART > OF { return Thrown; }
    if PART < 0 { return NotANumber; }
    var distributions := DistributeItems(total, OF);
    var indexedPart := PART - 1;
    var start := 0;
    OffsetEnds(total, OF);
    for i := 0 to indexedPart
      invariant start == Offset(total, OF, i)
    {
      OffsetStep(total, OF, i);
      start := start + distributions[i];
    }
    OffsetStep(total, OF, indexedPart);
    r := Slice(start, distributions[indexedPart] + start, distributions[indexedPart]);
  }

  // ---- Running one part --------------------------------------------------

  function Times(f: string, times: nat): seq<string> {
    seq(times, i => f)
  }

  /** Every file `times` times in a row. */
  function Repeated(files: seq<string>, times: nat): seq<string> {
    if |files| == 0 then []
    else Repeated(files[..|files| - 1], times) + Times(files[|files| - 1], times)
  }

  function Runs(s: seq<string>, f: string): nat {
    multiset(s)[f]
  }

  lemma {:induction false} Copies(f: string, times: nat, x: string)
    ensures Runs(Times(f, times), x) == if x == f then times else 0
  {
    if times > 0 {
      Copies(f, times - 1, x);
      assert Times(f, times) == Times(f, times - 1) + [f];
    }
  }

  lemma {:induction false} RepeatedRuns(files: seq<string>, times: nat, x: string)
    ensures Runs(Repeated(files, times), x) == times * Runs(files, x)
  {
    if |files| > 0 {
      var n := |files| - 1;
      RepeatedRuns(files[..n], times, x);
      OneMoreRepeated(files[..n], Repeated(files[..n], times), files[n], times, x);
      assert files == files[..n] + [files[n]];
    }
  }

  lemma OneMoreRepeated(files: seq<string>, repeated: seq<string>, f: string, times: nat, x: string)
    requires Runs(repeated, x) == times * Runs(files, x)
    ensures Runs(repeated + Times(f, times), x) == times * Runs(files + [f], x)
  {
    Copies(f, times, x);
    RunsAppend(files, [f], x);
    RunsAppend(repeated, Times(f, times), x);
    assert Runs([f], x) == if f == x then 1 else 0;
    OneMoreTime(times, Runs(files, x), f == x);
  }

  /** The copies of a file stand next to each other, in the order of the files. */
  lemma {:induction false} RepeatedAt(files: seq<string>, times: nat, k: nat, j: nat)
    requires k < |files| && j < times
    ensures |Repeated(files, times)| == |files| * times
    ensures k * times + j < |files| * times && Repeated(files, times)[k * times + j] == files[k]
  {
    var n := |files| - 1;
    RepeatedLength(files, times);
    RepeatedLength(files[..n], times);
    PlaceBelow(k, |files|, times, j);
    if k < n {
      RepeatedAt(files[..n], times, k, j);
      PlaceBelow(k, n, times, j);
    }
  }

  lemma {:induction false} RepeatedLength(files: seq<string>, times: nat)
    ensures |Repeated(files, times)| == |files| * times
  {
    if |files| > 0 { RepeatedLength(files[..|files| - 1], times); }
  }

  lemma PlaceBelow(k: nat, n: nat, times: nat, j: nat)
    requires k < n && j < times
    ensures k * times + j < n * times
  {
    assert (k + 1) * times <= n * times;
  }

  lemma RunsAppend(a: seq<string>, b: seq<string>, x: string)
    ensures Runs(a + b, x) == Runs(a, x) + Runs(b, x)
  {
  }

  lemma OneMoreTime(t: nat, a: nat, same: bool)
    ensures t * (a + if same then 1 else 0) == t * a + if same then t else 0
  {
  }

  /** The files one part runs. */
  function PartFiles(flat: seq<string>, of: nat, part: nat): seq<string>
    requires of >= 1 && part < of
  {
    OffsetEnds(|flat|, of);
    OffsetMonotone(|flat|, of, part, part + 1);
    OffsetMonotone(|flat|, of, part + 1, of);
    flat[Offset(|flat|, of, part)..Offset(|flat|, of, part + 1)]
  }

  /** One run: the file and the attempt number it is reported with. */
  datatype Report = Report(file: string, attempt: nat)

  /** The files that the given arguments select. */
  function Selected(flat: seq<string>, part: int, of: int): seq<string>
    requires OrOne(part) <= OrOne(of)
  {
    if OrOne(part) < 0 then [] else PartFiles(flat, OrOne(of), OrOne(part) - 1)
  }

  /** The loop of `runTests`: every selected file is run once, in order; the reported attempts of
      a file count 1, 2, ... and end in its entry of `attempts`.  Without files nothing is
      looked at; otherwise a part beyond the count is an error before anything runs. */
  method RunPart(files: seq<string>, stress: nat, part: int, of: int)
    returns (thrown: bool, reports: seq<Report>, attempts: map<string, nat>)
    ensures thrown <==> Repeated(files, stress) != [] && OrOne(part) > OrOne(of)
    ensures thrown ==> reports == [] && attempts == map[]
    ensures OrOne(part) <= OrOne(of) ==> Counted(Selected(Repeated(files, stress), part, of), reports, attempts)
  {
    var sortedFiles := Repeated(files, stress);
    if sortedFiles == [] {
      NothingCounted();
      if OrOne(part) <= OrOne(of) { NothingSelected(part, of); }
      return false, [], map[];
    }
    var identifier := GetTestFilesIdentifier(|sortedFiles|, part, of);
    match identifier
    case Thrown =>
      return true, [], map[];
    case NotANumber =>
      NothingCounted();
      return false, [], map[];
    case Slice(start, end, count) =>
      OffsetEnds(|sortedFiles|, OrOne(of));
      OffsetMonotone(|sortedFiles|, OrOne(of), OrOne(part), OrOne(of));
      thrown := false;
      reports, attempts := RunSlice(sortedFiles, start, end, count);
  }

  lemma NothingCounted()
    ensures Counted([], [], map[])
  {
  }

  lemma NothingSelected(part: int, of: int)
    requires OrOne(part) <= OrOne(of)
    ensures Selected([], part, of) == []
  {
    if OrOne(part) > 0 { OffsetMonotone(0, OrOne(of), OrOne(part), OrOne(of)); }
  }

  method RunSlice(sortedFiles: seq<string>, start: nat, end: nat, count: nat)
    returns (reports: seq<Report>, attempts: map<string, nat>)
    requires start + count == end <= |sortedFiles|
    ensures Counted(sortedFiles[start..end], reports, attempts)
  {
    ghost var ran := sortedFiles[start..end];
    reports, attempts := [], map[];
    var i, j := start, 0;
    while i < end && j < count
      invariant i == start + j && j <= count
      invariant Counted(ran[..j], reports, attempts)
      decreases count - j
    {
      var testFile := sortedFiles[i];
      assert ran[..j + 1] == ran[..j] + [testFile];
      CountOne(ran[..j], reports, attempts, testFile);
      var testFileAttempt := 1;
      if testFile !in attempts {
        attempts := attempts[testFile := 1];
      } else {
        attempts := attempts[testFile := attempts[testFile] + 1];
        testFileAttempt := attempts[testFile];
      }
      reports := reports + [Report(testFile, testFileAttempt)];
      i, j := i + 1, j + 1;
    }
    assert ran[..j] == ran;
  }

  /** The r-th run of a file is reported as its attempt r. */
  function ReportsOf(ran: seq<string>): seq<Report> {
    if |ran| == 0 then []
    else
      var f := ran[|ran| - 1];
      ReportsOf(ran[..|ran| - 1]) + [Report(f, Runs(ran, f))]
  }

  /** Report by report: the file that was run, and how often it was run by then. */
  lemma {:induction false} ReportsAt(ran: seq<string>, i: nat)
    requires i < |ran|
    ensures |ReportsOf(ran)| == |ran|
    ensures ReportsOf(ran)[i] == Report(ran[i], multiset(ran[..i + 1])[ran[i]])
  {
    var n := |ran| - 1;
    ReportsLength(ran);
    ReportsLength(ran[..n]);
    if i < n {
      ReportsAt(ran[..n], i);
      assert ran[..n][..i + 1] == ran[..i + 1];
    } else {
      assert ran[..i + 1] == ran;
    }
  }

  lemma {:induction false} ReportsLength(ran: seq<string>)
    ensures |ReportsOf(ran)| == |ran|
  {
    if |ran| > 0 { ReportsLength(ran[..|ran| - 1]); }
  }

  /** The reports and attempt counters after running `ran`. */
  ghost predicate Counted(ran: seq<string>, reports: seq<Report>, attempts: map<string, nat>) {
    && reports == ReportsOf(ran)
    && (forall f :: f in attempts <==> f in ran)
    && (forall f :: f in attempts ==> attempts[f] == Runs(ran, f))
  }

  lemma CountOne(ran: seq<string>, reports: seq<Report>, attempts: map<string, nat>, f: string)
    requires Counted(ran, reports, attempts)
    ensures var n := if f in attempts then attempts[f] + 1 else 1;
      Counted(ran + [f], reports + [Report(f, n)], attempts[f := n])
  {
    assert f !in attempts ==> f !in multiset(ran);
    assert (ran + [f])[..|ran|] == ran;
  }

  /** Runs of a file over the parts 0 .. k - 1. */
  function RunsBelow(flat: seq<string>, of: nat, k: nat, f: string): nat
    requires of >= 1 && k <= of
  {
    if k == 0 then 0 else RunsBelow(flat, of, k - 1, f) + Runs(PartFiles(flat, of, k - 1), f)
  }

  lemma {:induction false} RunsOfPrefix(flat: seq<string>, of: nat, k: nat, f: string)
    requires of >= 1 && k <= of
    ensures Offset(|flat|, of, k) <= |flat|
    ensures RunsBelow(flat, of, k, f) == Runs(flat[..Offset(|flat|, of, k)], f)
  {
    OffsetEnds(|flat|, of);
    OffsetMonotone(|flat|, of, k, of);
    if k > 0 {
      RunsOfPrefix(flat, of, k - 1, f);
      OffsetMonotone(|flat|, of, k - 1, k);
      assert flat[..Offset(|flat|, of, k)] == flat[..Offset(|flat|, of, k - 1)] + PartFiles(flat, of, k - 1);
    }
  }

  /** Over all parts every file is run exactly its stress count, once per listing. */
  lemma EveryFileRuns(files: seq<string>, stress: nat, of: nat, f: string)
    requires of >= 1
    ensures RunsBelow(Repeated(files, stress), of, of, f) == stress * Runs(files, f)
  {
    var flat := Repeated(files, stress);
    RunsOfPrefix(flat, of, of, f);
    OffsetEnds(|flat|, of);
    assert flat[..|flat|] == flat;
    RepeatedRuns(files, stress, f);
  }
}
