/** The string operations of the Go and JavaScript standard libraries that the model uses. */
module Strings {

  predicate HasPrefix(s: string, p: string) {
    p <= s
  }

  predicate HasSuffix(s: string, p: string) {
    |p| <= |s| && s[|s| - |p|..] == p
  }

  predicate Contains(s: string, p: string) {
    exists i :: 0 <= i <= |s| && p <= s[i..]
  }

  /** strings.TrimRight with a one-character cut set. */
  function TrimRight(s: string, c: char): (r: string)
    ensures r <= s
    ensures r == [] || r[|r| - 1] != c
    ensures forall i :: |r| <= i < |s| ==> s[i] == c
  {
    if s != [] && s[|s| - 1] == c then TrimRight(s[..|s| - 1], c) else s
  }

  /** The white space and line terminators of ECMAScript. */
  predicate IsSpace(c: char) {
    || c in {'\t', '\n', '\r', ' ', '\U{0B}', '\U{0C}', '\U{A0}', '\U{FEFF}', '\U{1680}'}
    || '\U{2000}' <= c <= '\U{200A}'
    || c in {'\U{2028}', '\U{2029}', '\U{202F}', '\U{205F}', '\U{3000}'}
  }

  /** String.prototype.trim. */
  function Trim(s: string): (r: string)
    ensures r != "" ==> !IsSpace(r[0]) && !IsSpace(r[|r| - 1])
  {
    if s == "" then ""
    else if IsSpace(s[0]) then Trim(s[1..])
    else if IsSpace(s[|s| - 1]) then Trim(s[..|s| - 1])
    else s
  }

  predicate AllSpace(s: string) {
    forall i :: 0 <= i < |s| ==> IsSpace(s[i])
  }

  /** Trimming takes white space off both ends and nothing else. */
  lemma {:induction false} TrimIff(s: string) returns (before: string, after: string)
    ensures s == before + Trim(s) + after && AllSpace(before) && AllSpace(after)
  {
    before, after := "", "";
    if s == "" {
    } else if IsSpace(s[0]) {
      before, after := TrimIff(s[1..]);
      SpaceBefore(s[0], before, Trim(s), after, s[1..]);
      before := [s[0]] + before;
    } else if IsSpace(s[|s| - 1]) {
      before, after := TrimIff(s[..|s| - 1]);
      SpaceAfter(s[|s| - 1], before, Trim(s), after, s[..|s| - 1]);
      after := after + [s[|s| - 1]];
    }
  }

  lemma SpaceBefore(c: char, before: string, middle: string, after: string, rest: string)
    requires IsSpace(c) && AllSpace(before) && rest == before + middle + after
    ensures [c] + rest == [c] + before + middle + after && AllSpace([c] + before)
  {
  }

  lemma SpaceAfter(c: char, before: string, middle: string, after: string, rest: string)
    requires IsSpace(c) && AllSpace(after) && rest == before + middle + after
    ensures rest + [c] == before + middle + (after + [c]) && AllSpace(after + [c])
  {
  }

  /** The part of `s` before the first `c`, or all of `s`. */
  function Before(s: string, c: char): (r: string)
    ensures r <= s && c !in r
    ensures |r| < |s| ==> s[|r|] == c
  {
    if s == [] || s[0] == c then [] else [s[0]] + Before(s[1..], c)
  }

  /** strings.Split / strings.SplitSeq with a one-character separator. */
  function Split(s: string, c: char): (parts: seq<string>)
    ensures |parts| >= 1
    ensures forall p :: p in parts ==> c !in p
    decreases |s|
  {
    var p := Before(s, c);
    if |p| == |s| then [p] else [p] + Split(s[|p| + 1..], c)
  }

  function Join(parts: seq<string>, c: char): string {
    if |parts| == 0 then ""
    else if |parts| == 1 then parts[0]
    else parts[0] + [c] + Join(parts[1..], c)
  }

  lemma BeforeFound(p: string, rest: string, c: char)
    requires c !in p
    ensures Before(p + [c] + rest, c) == p
  {
    var s := p + [c] + rest;
    var b := Before(s, c);
    assert s[|p|] == c && forall i :: 0 <= i < |p| ==> s[i] == p[i];
    assert |b| == |p|;
    assert b == s[..|p|] == p;
  }

  lemma BeforeMissing(p: string, c: char)
    requires c !in p
    ensures Before(p, c) == p
  {
    var b := Before(p, c);
    assert forall i :: 0 <= i < |p| ==> p[i] != c;
    assert |b| == |p|;
  }

  lemma SplitStep(p: string, rest: string, c: char)
    requires c !in p
    ensures Split(p + [c] + rest, c) == [p] + Split(rest, c)
  {
    BeforeFound(p, rest, c);
    assert (p + [c] + rest)[|p| + 1..] == rest;
  }

  /** Splitting undoes joining when no part contains the separator. */
  lemma {:induction false} SplitOfJoin(parts: seq<string>, c: char)
    requires |parts| >= 1
    requires forall p :: p in parts ==> c !in p
    ensures Split(Join(parts, c), c) == parts
  {
    if |parts| == 1 {
      BeforeMissing(parts[0], c);
    } else {
      SplitStep(parts[0], Join(parts[1..], c), c);
      SplitOfJoin(parts[1..], c);
    }
  }

  lemma JoinCons(x: string, rest: seq<string>, c: char)
    requires |rest| >= 1
    ensures Join([x] + rest, c) == x + [c] + Join(rest, c)
  {
    assert ([x] + rest)[1..] == rest;
  }

  lemma CutAt(s: string, i: nat)
    requires i < |s|
    ensures s == s[..i] + [s[i]] + s[i + 1..]
  {
  }

  /** Joining undoes splitting, for every string. */
  lemma {:induction false} JoinOfSplit(s: string, c: char)
    ensures Join(Split(s, c), c) == s
    decreases |s|
  {
    var p := Before(s, c);
    if |p| < |s| {
      var rest := s[|p| + 1..];
      JoinOfSplit(rest, c);
      JoinCons(p, Split(rest, c), c);
      CutAt(s, |p|);
      assert p == s[..|p|];
    }
  }

  lemma {:induction false} JoinConcat(a: seq<string>, b: seq<string>, c: char)
    requires |a| >= 1 && |b| >= 1
    ensures Join(a + b, c) == Join(a, c) + [c] + Join(b, c)
  {
    if |a| == 1 {
      assert a + b == [a[0]] + b;
      JoinCons(a[0], b, c);
    } else {
      assert a + b == [a[0]] + (a[1..] + b);
      JoinCons(a[0], a[1..] + b, c);
      JoinConcat(a[1..], b, c);
    }
  }
}
