/** Log path validation: the lenient symlink walk, the two containment tests, and the
    acceptance of a logging configuration. */
module LogPaths {
  import opened Options
  import opened Strings

  /** A clean absolute path as its components; the root is []. */
  type Comps = seq<string>

  predicate CleanName(s: string) {
    s != "" && s != "." && s != ".." && '/' !in s
  }

  predicate CleanPath(p: Comps) {
    forall s :: s in p ==> CleanName(s)
  }

  function Render(p: Comps): string {
    "/" + Join(p, '/')
  }

  // ---- The file system ---------------------------------------------------

  datatype Evaluated = Resolved(path: Comps) | NotExist | Failed

  /** filepath.EvalSymlinks, os.Lstat and filepath.Abs. */
  datatype FileSystem = FileSystem(eval: Comps -> Evaluated, lstat: Comps -> bool, abs: string -> Comps)

  ghost predicate Clean(fs: FileSystem) {
    && (forall p :: CleanPath(p) && fs.eval(p).Resolved? ==> CleanPath(fs.eval(p).path))
    && (forall s :: CleanPath(fs.abs(s)))
    && (forall p, l :: HasAncestors(fs, p, l))
  }

  /** Whatever resolves has only ancestors that resolve. */
  ghost predicate HasAncestors(fs: FileSystem, p: Comps, l: nat) {
    l <= |p| && CleanPath(p) && fs.eval(p).Resolved? ==> fs.eval(p[..l]).Resolved?
  }

  const MAX_LOG_PATH_DEPTH := 256

  /** The walk with `steps` iterations left. */
  function Walk(fs: FileSystem, path: Comps, missing: Comps, steps: nat): Option<Comps> {
    if steps == 0 then None
    else
      match fs.eval(path)
      case Resolved(r) => Some(r + missing)
      case Failed => None
      case NotExist =>
        if fs.lstat(path) || path == [] then None
        else Walk(fs, path[..|path| - 1], [path[|path| - 1]] + missing, steps - 1)
  }

  function Lenient(fs: FileSystem, path: Comps): Option<Comps> {
    Walk(fs, path, [], MAX_LOG_PATH_DEPTH)
  }

  method EvalSymlinksLenient(fs: FileSystem, start: Comps) returns (r: Option<Comps>)
    ensures r == Lenient(fs, start)
  {
    var path, missing := start, [];
    for i := 0 to MAX_LOG_PATH_DEPTH
      invariant Walk(fs, path, missing, MAX_LOG_PATH_DEPTH - i) == Lenient(fs, start)
    {
      var e := fs.eval(path);
      if e.Resolved? { return Some(e.path + missing); }
      if !e.NotExist? { return None; }
      if fs.lstat(path) { return None; }
      if path == [] { return None; }
      missing := [path[|path| - 1]] + missing;
      path := path[..|path| - 1];
    }
    r := None;
  }

  /** Nothing is there, not even a link. */
  predicate Absent(fs: FileSystem, path: Comps) {
    fs.eval(path).NotExist? && !fs.lstat(path)
  }

  /** The first `a` components are the deepest ancestor that exists, and nothing below it is
      there, not even a dangling link. */
  ghost predicate Deepest(fs: FileSystem, path: Comps, a: nat) {
    && a <= |path|
    && fs.eval(path[..a]).Resolved?
    && forall l :: a < l <= |path| ==> Absent(fs, path[..l])
  }

  /** The deepest ancestor in canonical form, and the missing components behind it. */
  ghost predicate Found(fs: FileSystem, path: Comps, missing: Comps, a: nat, r: Comps) {
    Deepest(fs, path, a) && r == fs.eval(path[..a]).path + path[a..] + missing
  }

  lemma FoundHere(fs: FileSystem, path: Comps, missing: Comps, a: nat, r: Comps)
    requires !Absent(fs, path)
    ensures Found(fs, path, missing, a, r) <==>
      a == |path| && fs.eval(path).Resolved? && r == fs.eval(path).path + missing
  {
    assert path[..|path|] == path;
    assert path[|path|..] == [];
  }

  lemma FoundUp(fs: FileSystem, path: Comps, missing: Comps, a: nat, r: Comps)
    requires Absent(fs, path) && path != []
    ensures Found(fs, path, missing, a, r)
      <==> a < |path| && Found(fs, path[..|path| - 1], [path[|path| - 1]] + missing, a, r)
  {
    var n := |path|;
    var up := path[..n - 1];
    assert path[..n] == path;
    if a < n {
      assert forall l :: 0 <= l < n ==> up[..l] == path[..l];
      assert path[a..] + missing == up[a..] + ([path[n - 1]] + missing);
      assert Deepest(fs, path, a) ==> Deepest(fs, up, a) by {
        forall l | a < l <= n - 1 ensures Deepest(fs, path, a) ==> Absent(fs, up[..l]) {
          assert up[..l] == path[..l];
        }
      }
      assert Deepest(fs, up, a) ==> Deepest(fs, path, a) by {
        forall l | a < l <= n ensures Deepest(fs, up, a) ==> Absent(fs, path[..l]) {
          if l < n { assert up[..l] == path[..l]; }
        }
      }
    }
  }

  /** Success of the walk: exactly the canonical form of the deepest existing ancestor, joined
      with the missing components in their order, if it is reached within the step limit. */
  lemma {:induction false} WalkIff(fs: FileSystem, path: Comps, missing: Comps, steps: nat, r: Comps)
    ensures Walk(fs, path, missing, steps) == Some(r)
      <==> exists a: nat :: |path| - a < steps && Found(fs, path, missing, a, r)
  {
    if steps == 0 {
      assert forall a: nat :: Found(fs, path, missing, a, r) ==> a <= |path|;
    } else if !Absent(fs, path) {
      forall a: nat ensures Found(fs, path, missing, a, r) <==>
        a == |path| && fs.eval(path).Resolved? && r == fs.eval(path).path + missing
      {
        FoundHere(fs, path, missing, a, r);
      }
      assert |path| - |path| < steps;
      FoundHere(fs, path, missing, |path|, r);
    } else if path == [] {
      assert path[..0] == path;
      assert forall a: nat :: !Found(fs, path, missing, a, r);
    } else {
      var up, m := path[..|path| - 1], [path[|path| - 1]] + missing;
      WalkIff(fs, up, m, steps - 1, r);
      if a: nat :| |path| - a < steps && Found(fs, path, missing, a, r) {
        FoundUp(fs, path, missing, a, r);
        assert |up| - a < steps - 1 && Found(fs, up, m, a, r);
      }
      if a: nat :| |up| - a < steps - 1 && Found(fs, up, m, a, r) {
        FoundUp(fs, path, missing, a, r);
        assert |path| - a < steps && Found(fs, path, missing, a, r);
      }
    }
  }

  /** The lenient resolution of a path, stated without the walk. */
  lemma LenientIff(fs: FileSystem, path: Comps, r: Comps)
    ensures Lenient(fs, path) == Some(r) <==>
      exists a: nat :: |path| - a < MAX_LOG_PATH_DEPTH && Deepest(fs, path, a)
        && r == fs.eval(path[..a]).path + path[a..]
  {
    WalkIff(fs, path, [], MAX_LOG_PATH_DEPTH, r);
    assert forall a: nat :: Deepest(fs, path, a) ==>
      fs.eval(path[..a]).path + path[a..] + [] == fs.eval(path[..a]).path + path[a..];
    assert forall a: nat :: Found(fs, path, [], a, r) <==>
      Deepest(fs, path, a) && r == fs.eval(path[..a]).path + path[a..];
  }

  /** A dangling link at any level of the path makes the walk fail. */
  lemma DanglingLinkFails(fs: FileSystem, path: Comps, l: nat)
    requires Clean(fs) && CleanPath(path)
    requires l <= |path| && fs.eval(path[..l]).NotExist? && fs.lstat(path[..l])
    ensures Lenient(fs, path) == None
  {
    forall a: nat ensures !Deepest(fs, path, a) {
      if l < a <= |path| { NothingBelow(fs, path, l, a); }
      assert !Absent(fs, path[..l]);
    }
    forall r ensures Lenient(fs, path) != Some(r) {
      LenientIff(fs, path, r);
    }
  }

  lemma NothingBelow(fs: FileSystem, path: Comps, l: nat, a: nat)
    requires Clean(fs) && CleanPath(path) && l < a <= |path| && !fs.eval(path[..l]).Resolved?
    ensures !fs.eval(path[..a]).Resolved?
  {
    assert HasAncestors(fs, path[..a], l);
    assert path[..a][..l] == path[..l];
  }

  // ---- The two containment tests -----------------------------------------

  /** `path` is `dir` or lies below it. */
  predicate Within(path: Comps, dir: Comps) {
    dir <= path
  }

  /** The test of `resolveLogFilePath`: equality or a string prefix ending in a separator. */
  predicate PrefixTest(path: string, root: string) {
    path == root || HasPrefix(path, if HasSuffix(root, "/") then root else root + "/")
  }

  /** filepath.Rel on clean absolute paths. */
  function CommonLength(a: Comps, b: Comps): (n: nat)
    ensures n <= |a| && n <= |b| && a[..n] == b[..n]
    ensures n < |a| && n < |b| ==> a[n] != b[n]
    ensures a != b ==> n < |a| || n < |b|
  {
    if a == [] || b == [] || a[0] != b[0] then 0
    else
      var n := 1 + CommonLength(a[1..], b[1..]);
      assert a[..n] == [a[0]] + a[1..][..n - 1] && b[..n] == [b[0]] + b[1..][..n - 1];
      n
  }

  function Ups(n: nat): (r: Comps)
    ensures |r| == n && forall i :: 0 <= i < n ==> r[i] == ".."
  {
    seq(n, i => "..")
  }

  function Rel(base: Comps, target: Comps): string {
    if base == target then "."
    else
      var c := CommonLength(base, target);
      Join(Ups(|base| - c) + target[c..], '/')
  }

  /** The test of `isWithinDir`. */
  predicate RelTest(path: Comps, dir: Comps) {
    var rel := Rel(dir, path);
    rel != ".." && !HasPrefix(rel, "../")
  }

  /** A joined list starts with `x` as its first part exactly if that is its first part. */
  lemma FirstPart(parts: Comps, x: string)
    requires |parts| > 0 && '/' !in x && forall p :: p in parts ==> '/' !in p
    ensures Join(parts, '/') == x || HasPrefix(Join(parts, '/'), x + "/") <==> parts[0] == x
  {
    var s := Join(parts, '/');
    SplitOfJoin(parts, '/');
    assert Split(s, '/')[0] == Before(s, '/');
    if s == x {
      BeforeMissing(x, '/');
    } else if HasPrefix(s, x + "/") {
      assert s == x + ['/'] + s[|x| + 1..];
      BeforeFound(x, s[|x| + 1..], '/');
    } else if parts[0] == x {
      JoinFirst(parts);
    }
  }

  lemma JoinFirst(parts: Comps)
    requires |parts| > 0
    ensures Join(parts, '/') == parts[0] || HasPrefix(Join(parts, '/'), parts[0] + "/")
  {
    if |parts| > 1 { assert Join(parts, '/') == parts[0] + "/" + Join(parts[1..], '/'); }
  }

  /** The Rel-based test is component-wise containment. */
  lemma RelTestIff(path: Comps, dir: Comps)
    requires CleanPath(path) && CleanPath(dir)
    ensures RelTest(path, dir) <==> Within(path, dir)
  {
    if path != dir {
      var c := CommonLength(dir, path);
      var parts := Ups(|dir| - c) + path[c..];
      forall p | p in parts ensures '/' !in p {
        if p !in Ups(|dir| - c) { assert p in path; }
      }
      FirstPart(parts, "..");
      if c == |dir| {
        assert dir == path[..c];
        assert parts[0] == path[c] && path[c] in path;
      } else {
        assert parts[0] == "..";
      }
    }
  }

  lemma PrefixJoins(p: Comps, r: Comps)
    requires |r| > 0 && r <= p
    ensures Join(p, '/') == Join(r, '/') || HasPrefix(Join(p, '/'), Join(r, '/') + "/")
  {
    if |p| > |r| {
      assert p == r + p[|r|..];
      JoinConcat(r, p[|r|..], '/');
    } else {
      assert p == r;
    }
  }

  lemma JoinedPrefix(p: Comps, r: Comps)
    requires CleanPath(p) && CleanPath(r) && |r| > 0 && |p| > 0
    requires Join(p, '/') == Join(r, '/') || HasPrefix(Join(p, '/'), Join(r, '/') + "/")
    ensures r <= p
  {
    var s, t := Join(p, '/'), Join(r, '/');
    SplitOfJoin(r, '/');
    SplitOfJoin(p, '/');
    if s != t {
      var rest := s[|t| + 1..];
      assert s == t + ['/'] + rest;
      SplitConcat(r, rest);
    }
  }

  /** Splitting a joined list followed by a separator and more text. */
  lemma SplitConcat(r: Comps, rest: string)
    requires CleanPath(r) && |r| > 0
    ensures Split(Join(r, '/') + ['/'] + rest, '/') == r + Split(rest, '/')
  {
    var q := Split(rest, '/');
    JoinOfSplit(rest, '/');
    JoinConcat(r, q, '/');
    SplitOfJoin(r + q, '/');
  }

  lemma RenderPrefix(p: Comps, r: Comps)
    requires CleanPath(p) && CleanPath(r) && |r| > 0
    ensures Join(p, '/') == Join(r, '/') || HasPrefix(Join(p, '/'), Join(r, '/') + "/") <==> r <= p
  {
    if r <= p {
      PrefixJoins(p, r);
    } else if |p| > 0 {
      if Join(p, '/') == Join(r, '/') || HasPrefix(Join(p, '/'), Join(r, '/') + "/") {
        JoinedPrefix(p, r);
      }
    } else {
      NoTrailingSlash(r);
    }
  }

  /** The string-prefix test is component-wise containment. */
  lemma PrefixTestIff(path: Comps, root: Comps)
    requires CleanPath(path) && CleanPath(root)
    ensures PrefixTest(Render(path), Render(root)) <==> Within(path, root)
  {
    var s, t := Render(path), Render(root);
    if root == [] {
      assert t == "/";
    } else {
      var a, b := Join(path, '/'), Join(root, '/');
      RenderPrefix(path, root);
      NoTrailingSlash(root);
      assert s == "/" + a && t == "/" + b;
      assert s[1..] == a && t[1..] == b;
      AfterSlash(a, b + "/");
      assert HasPrefix(s, t + "/") <==> HasPrefix(a, b + "/") by {
        assert t + "/" == "/" + (b + "/");
      }
    }
  }

  lemma AfterSlash(a: string, b: string)
    ensures HasPrefix("/" + a, "/" + b) <==> HasPrefix(a, b)
  {
    assert ("/" + a)[1..] == a && ("/" + b)[1..] == b;
    if HasPrefix("/" + a, "/" + b) {
      assert ("/" + a)[..1 + |b|] == "/" + b;
      assert ("/" + a)[1..1 + |b|] == b;
    }
  }

  lemma {:induction false} NoTrailingSlash(p: Comps)
    requires CleanPath(p) && |p| > 0
    ensures Join(p, '/') != "" && !HasSuffix(Join(p, '/'), "/") && !HasSuffix(Render(p), "/")
  {
    assert p[0] in p;
    if |p| == 1 {
      assert p[0][|p[0]| - 1] in p[0];
    } else {
      NoTrailingSlash(p[1..]);
      SuffixOfConcat(p[0] + "/", Join(p[1..], '/'));
    }
    SuffixOfConcat("/", Join(p, '/'));
  }

  lemma SuffixOfConcat(a: string, b: string)
    requires b != ""
    ensures HasSuffix(a + b, "/") <==> HasSuffix(b, "/")
  {
    var last := [b[|b| - 1]];
    assert (a + b)[|a + b| - 1..] == last;
    assert b[|b| - 1..] == last;
  }

  // ---- Validating a logging configuration --------------------------------

  /** A target of an advanced logging configuration; None if its options do not parse. */
  datatype Target = Target(name: string, isFile: bool, filename: Option<string>)

  /** The parts of a configuration that name log files.  Advanced targets are in name order
      and empty if the JSON is empty or does not parse; `managed` lists the candidate managed
      directories. */
  datatype LogConfig = LogConfig(
    fileEnabled: bool, logFile: string, logTargets: seq<Target>,
    auditEnabled: bool, auditFile: string, auditTargets: seq<Target>,
    managed: seq<string>)

  datatype Section = LogFile | LogTarget(name: string) | AuditFile | AuditTarget(name: string)

  datatype Verdict = Accepted | Rejected(section: Section)

  predicate Blank(s: string) {
    forall c :: c in s ==> c in " \t\r\n" || c in {'\U{0B}', '\U{0C}', '\U{85}', '\U{A0}'}
  }

  /** Resolving against the logging root and testing containment. */
  function ResolveLogFile(fs: FileSystem, file: string, root: string): Option<Comps> {
    match Lenient(fs, fs.abs(file))
    case None => None
    case Some(p) =>
      match Lenient(fs, fs.abs(root))
      case None => None
      case Some(r) => if PrefixTest(Render(p), Render(r)) then Some(p) else None
  }

  method ResolveLogFilePath(fs: FileSystem, file: string, root: string) returns (r: Option<Comps>)
    requires Clean(fs)
    ensures r == ResolveLogFile(fs, file, root)
    ensures var p, d := Lenient(fs, fs.abs(file)), Lenient(fs, fs.abs(root));
      r == if p.Some? && d.Some? && Within(p.value, d.value) then p else None
  {
    LenientClean(fs, fs.abs(file));
    LenientClean(fs, fs.abs(root));
    var absPath := EvalSymlinksLenient(fs, fs.abs(file));
    if absPath.None? { return None; }
    var absRoot := EvalSymlinksLenient(fs, fs.abs(root));
    if absRoot.None? { return None; }
    PrefixTestIff(absPath.value, absRoot.value);
    if !PrefixTest(Render(absPath.value), Render(absRoot.value)) { return None; }
    r := absPath;
  }

  /** The managed directories that targets must stay out of: those that resolve and do not
      contain the logging root. */
  method ResolvedManagedDirs(fs: FileSystem, managed: seq<string>, root: string) returns (dirs: seq<Comps>)
    requires Clean(fs)
    ensures Lenient(fs, fs.abs(root)).Some? ==>
      forall d :: d in dirs <==> Guarded(fs, managed, root, d)
  {
    var absRoot := EvalSymlinksLenient(fs, fs.abs(root));
    dirs := [];
    if absRoot.None? { return; }
    for i := 0 to |managed|
      invariant forall d :: d in dirs <==> Guarded(fs, managed[..i], root, d)
    {
      assert managed[..i + 1] == managed[..i] + [managed[i]];
      GuardedStep(fs, managed[..i], managed[i], root);
      if !Blank(managed[i]) {
        var resolved := EvalSymlinksLenient(fs, fs.abs(managed[i]));
        if resolved.Some? {
          LenientClean(fs, fs.abs(root));
          LenientClean(fs, fs.abs(managed[i]));
          RelTestIff(absRoot.value, resolved.value);
          if !RelTest(absRoot.value, resolved.value) && resolved.value !in dirs {
            dirs := dirs + [resolved.value];
          }
        }
      }
    }
    assert managed[..|managed|] == managed;
  }

  /** `d` is what some listed directory resolves to, and does not contain the logging root. */
  ghost predicate Guarded(fs: FileSystem, managed: seq<string>, root: string, d: Comps) {
    exists m :: m in managed && GuardedBy(fs, m, root, d)
  }

  predicate GuardedBy(fs: FileSystem, m: string, root: string, d: Comps) {
    && !Blank(m) && Lenient(fs, fs.abs(m)) == Some(d)
    && Lenient(fs, fs.abs(root)).Some? && !Within(Lenient(fs, fs.abs(root)).value, d)
  }

  lemma GuardedStep(fs: FileSystem, managed: seq<string>, m: string, root: string)
    ensures forall d :: Guarded(fs, managed + [m], root, d) <==>
      Guarded(fs, managed, root, d) || GuardedBy(fs, m, root, d)
  {
    forall d
      ensures Guarded(fs, managed + [m], root, d) <==> Guarded(fs, managed, root, d) || GuardedBy(fs, m, root, d)
    {
      if GuardedBy(fs, m, root, d) { assert m in managed + [m]; }
    }
  }

  lemma FoundClean(fs: FileSystem, path: Comps, a: nat)
    requires Clean(fs) && CleanPath(path) && Deepest(fs, path, a)
    ensures CleanPath(fs.eval(path[..a]).path + path[a..])
  {
    var p, q := path[..a], path[a..];
    assert CleanPath(p) && CleanPath(q);
    assert CleanPath(fs.eval(p).path);
  }

  lemma LenientClean(fs: FileSystem, path: Comps)
    requires Clean(fs) && CleanPath(path)
    ensures Lenient(fs, path).Some? ==> CleanPath(Lenient(fs, path).value)
  {
    if Lenient(fs, path).Some? {
      LenientIff(fs, path, Lenient(fs, path).value);
      var a: nat :| Deepest(fs, path, a) && Lenient(fs, path).value == fs.eval(path[..a]).path + path[a..];
      FoundClean(fs, path, a);
    }
  }

  /** A file is safe: it resolves inside the resolved logging root and outside every managed
      directory that does not itself contain the root. */
  ghost predicate Safe(fs: FileSystem, managed: seq<string>, root: string, file: string) {
    var p, r := Lenient(fs, fs.abs(file)), Lenient(fs, fs.abs(root));
    && p.Some? && r.Some? && Within(p.value, r.value)
    && forall d :: Guarded(fs, managed, root, d) ==> !Within(p.value, d)
  }

  method Check(fs: FileSystem, dirs: seq<Comps>, ghost managed: seq<string>, root: string, file: string)
      returns (ok: bool)
    requires Clean(fs)
    requires Lenient(fs, fs.abs(root)).Some? ==> forall d :: d in dirs <==> Guarded(fs, managed, root, d)
    ensures ok <==> Safe(fs, managed, root, file)
  {
    var resolved := ResolveLogFilePath(fs, file, root);
    LenientClean(fs, fs.abs(file));
    LenientClean(fs, fs.abs(root));
    var p, r := Lenient(fs, fs.abs(file)), Lenient(fs, fs.abs(root));
    if p.Some? && r.Some? { PrefixTestIff(p.value, r.value); }
    if resolved.None? { return false; }
    for i := 0 to |dirs|
      invariant forall j :: 0 <= j < i ==> !Within(resolved.value, dirs[j])
    {
      assert Guarded(fs, managed, root, dirs[i]);
      GuardedClean(fs, managed, root, dirs[i]);
      RelTestIff(resolved.value, dirs[i]);
      if RelTest(resolved.value, dirs[i]) { return false; }
    }
    ok := true;
  }

  lemma GuardedClean(fs: FileSystem, managed: seq<string>, root: string, d: Comps)
    requires Clean(fs) && Guarded(fs, managed, root, d)
    ensures CleanPath(d)
  {
    var m :| m in managed && GuardedBy(fs, m, root, d);
    LenientClean(fs, fs.abs(m));
  }

  function SectionOf(t: Target, audit: bool): Section {
    if audit then AuditTarget(t.name) else LogTarget(t.name)
  }

  function FileTargets(targets: seq<Target>, audit: bool): seq<(Section, string)> {
    if |targets| == 0 then []
    else
      var t := targets[0];
      (if t.isFile && t.filename.Some?
       then [(SectionOf(t, audit), t.filename.value)] else [])
      + FileTargets(targets[1..], audit)
  }

  /** All enabled file targets in the order they are checked. */
  function EnabledTargets(cfg: LogConfig): seq<(Section, string)> {
    (if cfg.fileEnabled then [(LogFile, cfg.logFile)] else [])
    + FileTargets(cfg.logTargets, false)
    + (if cfg.auditEnabled then [(AuditFile, cfg.auditFile)] else [])
    + FileTargets(cfg.auditTargets, true)
  }

  /** Which files are looked at, and in which sections. */
  lemma {:induction false} FileTargetsIff(targets: seq<Target>, audit: bool, section: Section, file: string)
    ensures (section, file) in FileTargets(targets, audit) <==>
      exists t :: t in targets && t.isFile && t.filename == Some(file)
        && section == if audit then AuditTarget(t.name) else LogTarget(t.name)
  {
    if |targets| > 0 {
      FileTargetsIff(targets[1..], audit, section, file);
      assert targets == [targets[0]] + targets[1..];
    }
  }

  lemma EnabledTargetsIff(cfg: LogConfig, section: Section, file: string)
    ensures (section, file) in EnabledTargets(cfg) <==>
      match section
      case LogFile => cfg.fileEnabled && file == cfg.logFile
      case AuditFile => cfg.auditEnabled && file == cfg.auditFile
      case LogTarget(name) =>
        exists t :: t in cfg.logTargets && t.isFile && t.filename == Some(file) && t.name == name
      case AuditTarget(name) =>
        exists t :: t in cfg.auditTargets && t.isFile && t.filename == Some(file) && t.name == name
  {
    FileTargetsIff(cfg.logTargets, false, section, file);
    FileTargetsIff(cfg.auditTargets, true, section, file);
  }

  /** The verdict on a list of targets: the first unsafe one is named. */
  ghost predicate Judged(fs: FileSystem, managed: seq<string>, root: string, ts: seq<(Section, string)>, v: Verdict) {
    match v
    case Accepted => forall t :: t in ts ==> Safe(fs, managed, root, t.1)
    case Rejected(section) =>
      exists i :: 0 <= i < |ts| && ts[i].0 == section && !Safe(fs, managed, root, ts[i].1)
        && forall j :: 0 <= j < i ==> Safe(fs, managed, root, ts[j].1)
  }

  lemma JudgedAppend(fs: FileSystem, managed: seq<string>, root: string,
                     a: seq<(Section, string)>, va: Verdict, b: seq<(Section, string)>, vb: Verdict)
    requires Judged(fs, managed, root, a, va)
    requires va.Accepted? ==> Judged(fs, managed, root, b, vb)
    ensures Judged(fs, managed, root, a + b, if va.Accepted? then vb else va)
  {
    if va.Rejected? {
      var i :| 0 <= i < |a| && a[i].0 == va.section && !Safe(fs, managed, root, a[i].1)
        && forall j :: 0 <= j < i ==> Safe(fs, managed, root, a[j].1);
      assert (a + b)[i] == a[i];
    } else if vb.Rejected? {
      var i :| 0 <= i < |b| && b[i].0 == vb.section && !Safe(fs, managed, root, b[i].1)
        && forall j :: 0 <= j < i ==> Safe(fs, managed, root, b[j].1);
      assert (a + b)[|a| + i] == b[i];
      forall j | 0 <= j < |a| + i ensures Safe(fs, managed, root, (a + b)[j].1) {
        if j < |a| { assert a[j] in a; }
      }
    }
  }

  lemma FirstUnsafe(fs: FileSystem, managed: seq<string>, root: string,
                    before: seq<(Section, string)>, t: (Section, string), rest: seq<(Section, string)>)
    requires forall b :: b in before ==> Safe(fs, managed, root, b.1)
    requires !Safe(fs, managed, root, t.1)
    ensures Judged(fs, managed, root, before + ([t] + rest), Rejected(t.0))
  {
    var ts := before + ([t] + rest);
    assert ts[|before|] == t;
    assert forall j :: 0 <= j < |before| ==> ts[j] == before[j];
  }

  lemma NextTarget(targets: seq<Target>, i: nat, audit: bool)
    requires i < |targets|
    ensures FileTargets(targets[i..], audit) ==
      if targets[i].isFile && targets[i].filename.Some?
      then [(SectionOf(targets[i], audit), targets[i].filename.value)] + FileTargets(targets[i + 1..], audit)
      else FileTargets(targets[i + 1..], audit)
  {
    assert targets[i..][1..] == targets[i + 1..];
    assert [] + FileTargets(targets[i + 1..], audit) == FileTargets(targets[i + 1..], audit);
  }

  method ValidateTargets(fs: FileSystem, dirs: seq<Comps>, ghost managed: seq<string>, root: string,
                         targets: seq<Target>, audit: bool) returns (v: Verdict)
    requires Clean(fs)
    requires Lenient(fs, fs.abs(root)).Some? ==> forall d :: d in dirs <==> Guarded(fs, managed, root, d)
    ensures Judged(fs, managed, root, FileTargets(targets, audit), v)
  {
    ghost var before: seq<(Section, string)> := [];
    for i := 0 to |targets|
      invariant FileTargets(targets, audit) == before + FileTargets(targets[i..], audit)
      invariant forall t :: t in before ==> Safe(fs, managed, root, t.1)
    {
      var t := targets[i];
      NextTarget(targets, i, audit);
      if t.isFile && t.filename.Some? {
        var ok := Check(fs, dirs, managed, root, t.filename.value);
        ghost var pair := (SectionOf(t, audit), t.filename.value);
        if !ok {
          FirstUnsafe(fs, managed, root, before, pair, FileTargets(targets[i + 1..], audit));
          return Rejected(SectionOf(t, audit));
        }
        assert before + ([pair] + FileTargets(targets[i + 1..], audit))
            == before + [pair] + FileTargets(targets[i + 1..], audit);
        before := before + [pair];
      }
    }
    v := Accepted;
  }

  /** `ValidateLogPaths`: the verdict on all enabled file targets of the configuration.
      Accepted exactly if every one of them is safe; otherwise the first unsafe one is named. */
  method ValidateLogPaths(fs: FileSystem, cfg: LogConfig, root: string) returns (v: Verdict)
    requires Clean(fs)
    ensures Judged(fs, cfg.managed, root, EnabledTargets(cfg), v)
  {
    var dirs := ResolvedManagedDirs(fs, cfg.managed, root);
    ghost var done: seq<(Section, string)> := [];
    v := Accepted;
    if cfg.fileEnabled {
      var ok := Check(fs, dirs, cfg.managed, root, cfg.logFile);
      if !ok { v := Rejected(LogFile); }
      done := [(LogFile, cfg.logFile)];
      assert !ok ==> done[0].0 == LogFile;
    }
    ghost var a := FileTargets(cfg.logTargets, false);
    ghost var b: seq<(Section, string)> := if cfg.auditEnabled then [(AuditFile, cfg.auditFile)] else [];
    ghost var c := FileTargets(cfg.auditTargets, true);
    assert EnabledTargets(cfg) == done + (a + (b + c));
    if v.Rejected? {
      JudgedAppend(fs, cfg.managed, root, done, v, a + (b + c), Accepted);
      return;
    }
    var v1 := ValidateTargets(fs, dirs, cfg.managed, root, cfg.logTargets, false);
    if v1.Rejected? {
      JudgedAppend(fs, cfg.managed, root, a, v1, b + c, Accepted);
      JudgedAppend(fs, cfg.managed, root, done, v, a + (b + c), v1);
      return v1;
    }
    var v2 := Accepted;
    if cfg.auditEnabled {
      var ok := Check(fs, dirs, cfg.managed, root, cfg.auditFile);
      if !ok { v2 := Rejected(AuditFile); }
      assert !ok ==> b[0].0 == AuditFile;
    }
    var v3 := Accepted;
    if v2.Accepted? {
      v3 := ValidateTargets(fs, dirs, cfg.managed, root, cfg.auditTargets, true);
    }
    ghost var v23 := if v2.Accepted? then v3 else v2;
    JudgedAppend(fs, cfg.managed, root, b, v2, c, v3);
    JudgedAppend(fs, cfg.managed, root, a, v1, b + c, v23);
    JudgedAppend(fs, cfg.managed, root, done, v, a + (b + c), v23);
    return if v2.Accepted? then v3 else v2;
  }
}
