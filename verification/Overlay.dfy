/** Laying the environment over a configuration, reporting the overridden leaves, and taking
    the overrides off again. */
module Overlay {
  import opened Options
  import opened Strings
  import opened ConfigModel
  import opened Environment

  // ---- Parsing values ----------------------------------------------------

  /** strconv.ParseBool. */
  function ParseBool(s: string): Option<bool> {
    if s in {"1", "t", "T", "TRUE", "true", "True"} then Some(true)
    else if s in {"0", "f", "F", "FALSE", "false", "False"} then Some(false)
    else None
  }

  function ParseDigits(s: string): Option<nat> {
    if s == "" then Some(0)
    else
      var c := s[|s| - 1];
      if '0' <= c <= '9' then
        match ParseDigits(s[..|s| - 1])
        case None => None
        case Some(n) => Some(10 * n + (c as int - '0' as int))
      else None
  }

  /** strconv.ParseInt in base 10 for a 64-bit int. */
  function ParseInt(s: string): Option<int> {
    var negative := HasPrefix(s, "-");
    var digits := if negative || HasPrefix(s, "+") then s[1..] else s;
    if digits == "" then None
    else
      match ParseDigits(digits)
      case None => None
      case Some(n) =>
        var v := if negative then 0 - (n as int) else n as int;
        if -0x8000_0000_0000_0000 <= v <= 0x7FFF_FFFF_FFFF_FFFF then Some(v) else None
  }

  /** The environment of the process, the type tree, and the JSON decoder for map fields. */
  datatype World = World(schema: Type, env: Env, json: string -> Option<Plugins>)

  function Parse(w: World, kind: Kind, value: string): Option<Value> {
    match kind
    case KString => Some(Str(value))
    case KBool => (match ParseBool(value) case None => None case Some(b) => Some(Flag(b)))
    case KInt => (match ParseInt(value) case None => None case Some(n) => Some(Num(n)))
    case KList => Some(List(Split(value, ' ')))
    case KTable => (match w.json(value) case None => None case Some(t) => Some(Table(t)))
  }

  /** The assignment one variable asks for, if its key names a leaf and its value parses. */
  function Assignment(w: World, key: string): Option<(Path, Value)>
    requires key in w.env
  {
    match Target(w.schema, key)
    case None => None
    case Some(t) =>
      match Parse(w, t.1, w.env[key])
      case None => None
      case Some(v) => Some((t.0, v))
  }

  // ---- Laying over -------------------------------------------------------

  /** All the values that some variable assigns to the leaf `p`. */
  function Writes(w: World, p: Path): set<Value> {
    set k | k in w.env && Assignment(w, k).Some? && Assignment(w, k).value.0 == p :: Assignment(w, k).value.1
  }

  /** `r` is `c` with the environment laid over it, in some order of the variables. */
  ghost predicate IsOverlay(w: World, c: Config, r: Config) {
    && r.Keys == c.Keys
    && forall p :: p in c ==> if Writes(w, p) == {} then r[p] == c[p] else r[p] in Writes(w, p)
  }

  function ApplyEnvKey(w: World, c: Config, key: string): Config
    requires key in w.env
  {
    match Assignment(w, key)
    case None => c
    case Some(a) => if a.0 in c then c[a.0 := a.1] else c
  }

  /** Map iteration order is random: the loop takes the variables in any order. */
  method ApplyEnvironmentMap(w: World, c: Config) returns (r: Config)
    ensures IsOverlay(w, c, r)
  {
    r := c;
    var keys := w.env.Keys;
    while keys != {}
      invariant keys <= w.env.Keys
      invariant r.Keys == c.Keys
      invariant forall p :: p in c ==>
        r[p] in Writes(w, p) || (r[p] == c[p] && forall k :: k in w.env.Keys - keys ==> !Hits(w, k, p))
    {
      var k :| k in keys;
      r := ApplyEnvKey(w, r, k);
      keys := keys - {k};
    }
    forall p | p in c && Writes(w, p) != {} ensures r[p] in Writes(w, p) {
      var v :| v in Writes(w, p);
      var k :| k in w.env && Hits(w, k, p);
    }
  }

  predicate Hits(w: World, k: string, p: Path)
    requires k in w.env
  {
    Assignment(w, k).Some? && Assignment(w, k).value.0 == p
  }

  /** No leaf is assigned two different values. */
  ghost predicate Unambiguous(w: World) {
    forall p, v, v' :: v in Writes(w, p) && v' in Writes(w, p) ==> v == v'
  }

  ghost function Override(w: World, p: Path): Value
    requires Writes(w, p) != {}
  {
    var v :| v in Writes(w, p);
    v
  }

  /** The result of `ApplyEnvironmentMap` when the environment is unambiguous. */
  ghost function Laid(w: World, c: Config): Config {
    map p | p in c :: LaidLeaf(w, p, c[p])
  }

  ghost function LaidLeaf(w: World, p: Path, v: Value): Value {
    if Writes(w, p) == {} then v else Override(w, p)
  }

  lemma LaidIsOverlay(w: World, c: Config)
    ensures IsOverlay(w, c, Laid(w, c))
  {
  }

  /** In an unambiguous environment the loop computes `Laid`. */
  lemma OverlayIsLaid(w: World, c: Config, r: Config)
    requires Unambiguous(w) && IsOverlay(w, c, r)
    ensures r == Laid(w, c)
  {
  }

  lemma OverlayWith(w: World, c: Config, r: Config, p: Path, v: Value)
    requires IsOverlay(w, c, r) && p in c && v in Writes(w, p)
    ensures IsOverlay(w, c, r[p := v])
  {
    assert r[p := v].Keys == r.Keys;
  }

  /** The iteration order does not matter for a configuration if and only if none of its
      leaves is assigned two different values. */
  lemma OrderIndependentIff(w: World, c: Config)
    ensures (forall r, r' :: IsOverlay(w, c, r) && IsOverlay(w, c, r') ==> r == r')
      <==> (forall p, v, v' :: p in c && v in Writes(w, p) && v' in Writes(w, p) ==> v == v')
  {
    if p, v, v' :| p in c && v in Writes(w, p) && v' in Writes(w, p) && v != v' {
      LaidIsOverlay(w, c);
      var r := Laid(w, c);
      OverlayWith(w, c, r, p, v);
      OverlayWith(w, c, r, p, v');
      var a, b := r[p := v], r[p := v'];
      assert a[p] != b[p];
    } else {
      forall r, r' | IsOverlay(w, c, r) && IsOverlay(w, c, r') ensures r == r' {
        SameOverlay(w, c, r, r');
      }
    }
  }

  lemma SameOverlay(w: World, c: Config, r: Config, r': Config)
    requires IsOverlay(w, c, r) && IsOverlay(w, c, r')
    requires forall p, v, v' :: p in c && v in Writes(w, p) && v' in Writes(w, p) ==> v == v'
    ensures r == r'
  {
  }

  // ---- Reporting ---------------------------------------------------------

  /** The nested map of overridden fields: `true` at the leaves. */
  datatype EnvTree = Mark | Group(children: seq<Child>)
  datatype Child = Child(name: string, tree: EnvTree)

  function GenerateFields(env: Env, fields: seq<Field>, base: string): seq<Child>
    decreases fields, 0
  {
    if |fields| == 0 then []
    else
      var f := fields[|fields| - 1];
      GenerateFields(env, fields[..|fields| - 1], base)
      + (if f.ty.Section? then
           match Generate(env, f.ty, base + "_" + f.name)
           case None => []
           case Some(t) => [Child(f.name, t)]
         else if Upper(base + "_" + f.name) in env then [Child(f.name, Mark)]
         else [])
  }

  /** A pointer to a struct is not descended into; an empty section is left out. */
  function Generate(env: Env, ty: Type, base: string): Option<EnvTree>
    decreases ty, 1
  {
    if !ty.Section? then None
    else
      var children := GenerateFields(env, ty.fields, base);
      if children == [] then None else Some(Group(children))
  }

  function PathsOfChildren(children: seq<Child>, cur: Path): seq<Path>
    decreases children, 0
  {
    if |children| == 0 then []
    else
      var c := children[|children| - 1];
      PathsOfChildren(children[..|children| - 1], cur) + PathsOf(c.tree, cur + [c.name])
  }

  function PathsOf(t: EnvTree, cur: Path): seq<Path>
    decreases t, 1
  {
    match t
    case Mark => [cur]
    case Group(children) => PathsOfChildren(children, cur)
  }

  function OverridePaths(w: World): seq<Path> {
    match Generate(w.env, w.schema, "MM")
    case None => []
    case Some(t) => PathsOf(t, [])
  }

  /** The reference: a field reached through value sections only, whose full key is set. */
  ghost predicate ReportedIn(env: Env, fields: seq<Field>, base: string, p: Path)
    decreases p, 1
  {
    |p| > 0 && exists f :: f in fields && FieldReported(env, f, base, p)
  }

  ghost predicate FieldReported(env: Env, f: Field, base: string, p: Path)
    requires |p| > 0
    decreases p, 0
  {
    && f.name == p[0]
    && if f.ty.Section? then ReportedIn(env, f.ty.fields, base + "_" + f.name, p[1..])
       else |p| == 1 && Upper(base + "_" + f.name) in env
  }

  /** The paths of a generated section are the reported ones. */
  ghost predicate PathsReported(env: Env, fields: seq<Field>, base: string, cur: Path, q: Path) {
    q in PathsOfChildren(GenerateFields(env, fields, base), cur)
    <==> cur <= q && ReportedIn(env, fields, base, q[|cur|..])
  }

  lemma {:induction false} GeneratedPaths(env: Env, fields: seq<Field>, base: string, cur: Path, q: Path)
    ensures PathsReported(env, fields, base, cur, q)
    decreases fields
  {
    if |fields| > 0 {
      var n := |fields| - 1;
      GeneratedPaths(env, fields[..n], base, cur, q);
      var f := fields[n];
      if f.ty.Section? { GeneratedPaths(env, f.ty.fields, base + "_" + f.name, cur + [f.name], q); }
      GeneratedOneMore(env, fields[..n], f, base, cur, q);
      assert fields == fields[..n] + [f];
    } else {
      assert GenerateFields(env, fields, base) == [];
    }
  }

  lemma GeneratedOneMore(env: Env, fields: seq<Field>, f: Field, base: string, cur: Path, q: Path)
    requires PathsReported(env, fields, base, cur, q)
    requires f.ty.Section? ==> PathsReported(env, f.ty.fields, base + "_" + f.name, cur + [f.name], q)
    ensures PathsReported(env, fields + [f], base, cur, q)
  {
    GeneratedField(env, f, base, cur, q);
    GenerateAppend(env, fields, f, base);
    PathsAppend(GenerateFields(env, fields, base), FieldTree(env, f, base), cur);
    if cur <= q { ReportedAppend(env, fields, f, base, q[|cur|..]); }
  }

  lemma GenerateAppend(env: Env, fields: seq<Field>, f: Field, base: string)
    ensures GenerateFields(env, fields + [f], base) == GenerateFields(env, fields, base) + FieldTree(env, f, base)
  {
    assert (fields + [f])[..|fields|] == fields;
  }

  function FieldTree(env: Env, f: Field, base: string): seq<Child> {
    if f.ty.Section? then
      match Generate(env, f.ty, base + "_" + f.name)
      case None => []
      case Some(t) => [Child(f.name, t)]
    else if Upper(base + "_" + f.name) in env then [Child(f.name, Mark)]
    else []
  }

  lemma ReportedAppend(env: Env, fields: seq<Field>, f: Field, base: string, p: Path)
    ensures ReportedIn(env, fields + [f], base, p)
      <==> ReportedIn(env, fields, base, p) || ReportedIn(env, [f], base, p)
  {
  }

  lemma {:induction false} PathsAppend(a: seq<Child>, b: seq<Child>, cur: Path)
    requires |b| <= 1
    ensures PathsOfChildren(a + b, cur) == PathsOfChildren(a, cur) + PathsOfChildren(b, cur)
  {
    if |b| == 0 {
      assert a + b == a;
    } else {
      assert (a + b)[..|a|] == a;
      assert b[..0] == [];
    }
  }

  lemma GeneratedField(env: Env, f: Field, base: string, cur: Path, q: Path)
    requires f.ty.Section? ==> PathsReported(env, f.ty.fields, base + "_" + f.name, cur + [f.name], q)
    ensures q in PathsOfChildren(FieldTree(env, f, base), cur)
      <==> cur <= q && ReportedIn(env, [f], base, q[|cur|..])
  {
    var tree := FieldTree(env, f, base);
    if tree != [] {
      assert tree[..0] == [];
      assert PathsOfChildren(tree, cur) == PathsOf(tree[0].tree, cur + [f.name]);
    }
    LastOfPath(cur, f.name, q);
    if f.ty.Section? {
      assert tree == [] ==> GenerateFields(env, f.ty.fields, base + "_" + f.name) == [];
      assert q in PathsOfChildren(tree, cur) <==>
        q in PathsOfChildren(GenerateFields(env, f.ty.fields, base + "_" + f.name), cur + [f.name]);
    }
    if cur <= q && |q| > |cur| {
      assert ReportedIn(env, [f], base, q[|cur|..]) <==> FieldReported(env, f, base, q[|cur|..]);
    }
  }

  lemma LastOfPath(cur: Path, name: string, q: Path)
    ensures cur + [name] <= q <==> cur <= q && |q| > |cur| && q[|cur|..][0] == name
    ensures q == cur + [name] <==> cur <= q && |q| == |cur| + 1 && q[|cur|..][0] == name
    ensures cur <= q && |q| > |cur| ==> q[|cur|..][1..] == q[|cur| + 1..]
  {
    if cur <= q && |q| > |cur| {
      assert q[|cur|..][0] == q[|cur|];
    }
  }

  /** `getPaths(generateEnvironmentMap(env))` lists exactly the fields of the reference. */
  lemma OverridePathsIff(w: World, p: Path)
    requires w.schema.Section?
    ensures p in OverridePaths(w) <==> ReportedIn(w.env, w.schema.fields, "MM", p)
  {
    GeneratedPaths(w.env, w.schema.fields, "MM", [], p);
    assert p[0..] == p;
  }

  /** The path leads through value sections to a field that is not one. */
  ghost predicate ValueField(fields: seq<Field>, p: Path)
    decreases p, 1
  {
    |p| > 0 && exists f :: f in fields && IsValueField(f, p)
  }

  ghost predicate IsValueField(f: Field, p: Path)
    requires |p| > 0
    decreases p, 0
  {
    f.name == p[0] && if f.ty.Section? then ValueField(f.ty.fields, p[1..]) else |p| == 1
  }

  /** A field is reported exactly if it is reached through value sections and its canonical
      key, with the prefix, is set. */
  lemma {:induction false} ReportedIffCanonical(env: Env, fields: seq<Field>, base: string, p: Path)
    ensures ReportedIn(env, fields, base, p)
      <==> ValueField(fields, p) && Upper(base) + "_" + CanonicalKey(p) in env
    decreases p
  {
    if |p| > 0 {
      forall f | f in fields && f.name == p[0]
        ensures FieldReported(env, f, base, p) <==>
          Upper(base) + "_" + CanonicalKey(p) in env
          && if f.ty.Section? then ValueField(f.ty.fields, p[1..]) else |p| == 1
      {
        if f.ty.Section? {
          ReportedIffCanonical(env, f.ty.fields, base + "_" + f.name, p[1..]);
          if |p| > 1 { KeyOfField(base, p); }
        } else if |p| == 1 {
          assert p == [f.name];
          UpperBase(base, f.name);
        }
      }
    }
  }

  lemma UpperBase(base: string, name: string)
    ensures Upper(base + "_" + name) == Upper(base) + "_" + Upper(name)
  {
    UpperConcat(base + "_", name);
    UpperConcat(base, "_");
    assert Upper("_") == "_";
  }

  lemma KeyOfField(base: string, p: Path)
    requires |p| > 1
    ensures Upper(base + "_" + p[0]) + "_" + CanonicalKey(p[1..]) == Upper(base) + "_" + CanonicalKey(p)
  {
    UpperBase(base, p[0]);
    assert p == [p[0]] + p[1..];
    CanonicalCons(p[0], p[1..]);
    var a, b, c := Upper(base) + "_", Upper(p[0]) + "_", CanonicalKey(p[1..]);
    assert a + b + c == a + (b + c);
  }

  /** Which overrides are taken off again: a variable that assigns a leaf reached through value
      sections is undone exactly if the leaf's canonical variable is set.  A variable with
      further segments behind the leaf, or without the name of an embedded struct, assigns it
      without being reported. */
  lemma AssignedIsReportedIff(w: World, key: string, p: Path, kind: Kind)
    requires Clean(w.schema) && w.schema.Section? && key in w.env
    requires Target(w.schema, key) == Some((p, kind)) && ValueField(w.schema.fields, p)
    ensures Names(w.schema, TrimPrefix(key, "MM_"), p)
    ensures NothingEmbedded(w.schema) ==> Spells(TrimPrefix(key, "MM_"), p)
    ensures p in OverridePaths(w) <==> "MM_" + CanonicalKey(p) in w.env
    ensures key == "MM_" + CanonicalKey(p) ==> p in OverridePaths(w)
  {
    ResolveIff(w.schema, TrimPrefix(key, "MM_"), p, kind);
    if NothingEmbedded(w.schema) { NamedIsSpelled(w.schema, TrimPrefix(key, "MM_"), p); }
    OverridePathsIff(w, p);
    ReportedIffCanonical(w.env, w.schema.fields, "MM", p);
    assert Upper("MM") == "MM";
    assert "MM" + "_" == "MM_";
  }

  /** A reported text setting is always assigned, since every text parses. */
  lemma ReportedTextIsWritten(w: World, p: Path)
    requires Clean(w.schema) && w.schema.Section? && LeafAt(w.schema, p) == Some(KString)
    requires p in OverridePaths(w)
    ensures Writes(w, p) != {}
  {
    OverridePathsIff(w, p);
    ReportedIffCanonical(w.env, w.schema.fields, "MM", p);
    assert Upper("MM") == "MM" && "MM" + "_" == "MM_";
    var key := "MM_" + CanonicalKey(p);
    assert TrimPrefix(key, "MM_") == CanonicalKey(p);
    SpelledIsNamed(w.schema, CanonicalKey(p), p, KString);
    ResolveIff(w.schema, CanonicalKey(p), p, KString);
    assert Assignment(w, key) == Some((p, Str(w.env[key])));
    assert Str(w.env[key]) in Writes(w, p);
  }

  // ---- Taking off --------------------------------------------------------

  method RemoveEnvOverrides(c: Config, base: Config, paths: seq<Path>) returns (r: Config)
    ensures r == Removed(c, base, paths)
  {
    r := c;
    for i := 0 to |paths|
      invariant r == Removed(c, base, paths[..i])
    {
      assert forall p :: p in paths[..i + 1] <==> p in paths[..i] || p == paths[i];
      if paths[i] in r && paths[i] in base {
        r := r[paths[i] := base[paths[i]]];
      }
    }
    assert paths[..|paths|] == paths;
  }

  function Removed(c: Config, base: Config, paths: seq<Path>): Config {
    map p | p in c :: if p in paths && p in base then base[p] else c[p]
  }

  /** Taking the overrides off restores the reported leaves from `base` and leaves every leaf
      alone that no variable assigns. */
  lemma RemovedFrame(w: World, c: Config, base: Config, r: Config)
    requires IsOverlay(w, c, r) && c.Keys <= base.Keys
    ensures forall p :: p in c ==>
      var q := Removed(r, base, OverridePaths(w));
      if p in OverridePaths(w) then q[p] == base[p]
      else if Writes(w, p) == {} then q[p] == c[p]
      else q[p] in Writes(w, p)
  {
  }

  /** The overlay is undone, whatever the iteration order was, if and only if every variable
      that assigns an unreported leaf assigns the value the leaf already has. */
  lemma UndoneIff(w: World, c: Config)
    ensures (forall r :: IsOverlay(w, c, r) ==> Removed(r, c, OverridePaths(w)) == c)
      <==> (forall p, v :: p in c && p !in OverridePaths(w) && v in Writes(w, p) ==> v == c[p])
  {
    var paths := OverridePaths(w);
    if p, v :| p in c && p !in paths && v in Writes(w, p) && v != c[p] {
      NotUndone(w, c, paths, p, v);
    } else {
      forall r | IsOverlay(w, c, r) ensures Removed(r, c, paths) == c { Undone(w, c, paths, r); }
    }
  }

  lemma Undone(w: World, c: Config, paths: seq<Path>, r: Config)
    requires forall p, v :: p in c && p !in paths && v in Writes(w, p) ==> v == c[p]
    requires IsOverlay(w, c, r)
    ensures Removed(r, c, paths) == c
  {
    forall p | p in c ensures p in Removed(r, c, paths) && Removed(r, c, paths)[p] == c[p] {
      if p !in paths && Writes(w, p) != {} { assert r[p] in Writes(w, p); }
    }
  }

  lemma NotUndone(w: World, c: Config, paths: seq<Path>, p: Path, v: Value)
    requires p in c && p !in paths && v in Writes(w, p) && v != c[p]
    ensures exists r :: IsOverlay(w, c, r) && Removed(r, c, paths) != c
  {
    LaidIsOverlay(w, c);
    OverlayWith(w, c, Laid(w, c), p, v);
    var r := Laid(w, c)[p := v];
    assert Removed(r, c, paths)[p] != c[p];
  }

  // ---- An environment of one variable ------------------------------------

  lemma FirstSegments(p: Path, q: Path)
    requires |p| > 0 && |q| > 0 && '_' !in Upper(p[0]) && '_' !in Upper(q[0])
    requires CanonicalKey(p) == CanonicalKey(q)
    ensures Upper(p[0]) == Upper(q[0])
    ensures |p| > 1 && |q| > 1 ==> CanonicalKey(p[1..]) == CanonicalKey(q[1..])
  {
    var a := FirstSegment(CanonicalKey(p), p);
    var b := FirstSegment(CanonicalKey(p), q);
    if |p| > 1 && |q| > 1 {
      assert p == [p[0]] + p[1..] && q == [q[0]] + q[1..];
      CanonicalCons(p[0], p[1..]);
      CanonicalCons(q[0], q[1..]);
      ExtendKey(a, CanonicalKey(q[1..]), CanonicalKey(p[1..]));
    }
  }

  /** In a clean schema the canonical key tells the reportable fields apart. */
  lemma {:induction false} ValueFieldUnique(ty: Type, p: Path, q: Path)
    requires ty.Section? && Clean(ty)
    requires ValueField(ty.fields, p) && ValueField(ty.fields, q) && CanonicalKey(p) == CanonicalKey(q)
    ensures p == q
    decreases |p|
  {
    var f :| f in ty.fields && IsValueField(f, p);
    var g :| g in ty.fields && IsValueField(g, q);
    FieldOfPath(f, p);
    FieldOfPath(g, q);
    FirstSegments(p, q);
    SameField(ty, f, g);
    if f.ty.Section? {
      ValueFieldUnique(f.ty, p[1..], q[1..]);
      assert p == [p[0]] + p[1..] && q == [q[0]] + q[1..];
    } else {
      assert p == [p[0]] && q == [q[0]];
    }
  }

  lemma FieldOfPath(f: Field, p: Path)
    requires |p| > 0 && IsValueField(f, p)
    ensures f.name == p[0]
    ensures if f.ty.Section? then |p| > 1 && ValueField(f.ty.fields, p[1..]) else |p| == 1
  {
  }

  lemma SameField(ty: Type, f: Field, g: Field)
    requires !ty.Leaf? && Clean(ty) && f in ty.fields && g in ty.fields && Upper(f.name) == Upper(g.name)
    ensures f == g
  {
    OnlyField(ty, f);
    OnlyField(ty, g);
  }

  /** The world in which only the canonical variable of `p` is set. */
  predicate OnlySet(w: World, p: Path, value: string) {
    w.env == map["MM_" + CanonicalKey(p) := value]
  }

  lemma OnlyReported(w: World, p: Path, value: string, q: Path)
    requires w.schema.Section? && Clean(w.schema) && OnlySet(w, p, value) && ValueField(w.schema.fields, p)
    ensures q in OverridePaths(w) <==> q == p
  {
    OverridePathsIff(w, q);
    ReportedIffCanonical(w.env, w.schema.fields, "MM", q);
    assert Upper("MM") == "MM" && "MM" + "_" == "MM_";
    if ValueField(w.schema.fields, q) && "MM_" + CanonicalKey(q) in w.env {
      SameRest("MM_", CanonicalKey(q), CanonicalKey(p));
      ValueFieldUnique(w.schema, q, p);
    }
  }

  lemma SameRest(head: string, a: string, b: string)
    requires head + a == head + b
    ensures a == b
  {
    assert (head + a)[|head|..] == a && (head + b)[|head|..] == b;
  }

  /** A world of one variable whose key names the leaf `p`, with or without further segments. */
  lemma OnlyWritten(w: World, key: string, p: Path, kind: Kind, q: Path)
    requires w.env.Keys == {key} && Target(w.schema, key) == Some((p, kind))
    ensures Writes(w, q) == if q != p then {} else match Parse(w, kind, w.env[key])
      case None => {}
      case Some(v) => {v}
  {
    match Parse(w, kind, w.env[key])
    case None =>
      assert Assignment(w, key) == None;
    case Some(v) =>
      assert Assignment(w, key) == Some((p, v));
      if q == p { assert v in Writes(w, q); }
  }

  lemma CanonicalTarget(schema: Type, p: Path, kind: Kind, rest: string)
    requires Clean(schema) && LeafAt(schema, p) == Some(kind)
    requires rest == "" || "_" <= rest
    ensures Target(schema, "MM_" + CanonicalKey(p) + rest) == Some((p, kind))
  {
    var key := CanonicalKey(p) + rest;
    WithPrefix(CanonicalKey(p), rest);
    SpelledExtended(p, key, rest);
    SpelledIsNamed(schema, key, p, kind);
    ResolveIff(schema, key, p, kind);
  }

  lemma WithPrefix(key: string, rest: string)
    ensures TrimPrefix("MM_" + key + rest, "MM_") == key + rest
  {
    var whole := "MM_" + key + rest;
    assert whole == "MM_" + (key + rest);
    assert whole[3..] == key + rest;
  }

  lemma SpelledExtended(p: Path, key: string, rest: string)
    requires key == CanonicalKey(p) + rest && (rest == "" || "_" <= rest)
    ensures Spells(key, p)
  {
    if rest == "" {
      assert key == CanonicalKey(p);
    } else {
      assert rest == "_" + rest[1..];
      assert key == CanonicalKey(p) + "_" + rest[1..];
    }
  }

  /** A variable other than the canonical one stays in: the leaf keeps the assigned value when
      the overrides are taken off again, in any order of the variables. */
  lemma UnreportedSurvives(w: World, key: string, p: Path, kind: Kind, v: Value, c: Config, r: Config)
    requires w.schema.Section? && w.env.Keys == {key} && key != "MM_" + CanonicalKey(p)
    requires Target(w.schema, key) == Some((p, kind)) && Parse(w, kind, w.env[key]) == Some(v)
    requires p in c && c[p] != v && IsOverlay(w, c, r)
    ensures var q := Removed(r, c, OverridePaths(w)); p in q && q[p] == v && q != c
  {
    OnlyWritten(w, key, p, kind, p);
    NotReported(w, key, p);
    assert v in Writes(w, p) && r[p] in Writes(w, p);
  }

  /** A variable with a segment behind a text leaf stays in. */
  lemma ExtraSegmentSurvives(w: World, p: Path, extra: string, value: string, c: Config, r: Config)
    requires w.schema.Section? && Clean(w.schema) && LeafAt(w.schema, p) == Some(KString)
    requires "_" <= extra && w.env == map["MM_" + CanonicalKey(p) + extra := value]
    requires p in c && c[p] != Str(value) && IsOverlay(w, c, r)
    ensures var q := Removed(r, c, OverridePaths(w)); p in q && q[p] == Str(value) && q != c
  {
    var key := "MM_" + CanonicalKey(p) + extra;
    CanonicalTarget(w.schema, p, KString, extra);
    assert |key| > |"MM_" + CanonicalKey(p)|;
    UnreportedSurvives(w, key, p, KString, Str(value), c, r);
  }

  /** A variable that leaves out the name of an embedded struct stays in: its field is assigned,
      but looked for under the longer name. */
  lemma PromotedSurvives(w: World, f: Field, q: Path, g: Field, text: string, v: Value, c: Config, r: Config)
    requires w.schema.Section? && Clean(w.schema) && f in w.schema.fields && !f.ty.Leaf?
    requires Selects(f.ty.fields, q, g) && |q| > 1 && g.ty.Leaf? && Parse(w, g.ty.kind, text) == Some(v)
    requires w.env == map["MM_" + (Upper(f.name) + "_" + Upper(g.name)) := text]
    requires [f.name] + q in c && c[[f.name] + q] != v && IsOverlay(w, c, r)
    ensures var p, left := [f.name] + q, Removed(r, c, OverridePaths(w)); p in left && left[p] == v && left != c
  {
    var key, p := Upper(f.name) + "_" + Upper(g.name), [f.name] + q;
    PromotedNamed(w.schema, f, q, g, key);
    ResolveIff(w.schema, key, p, g.ty.kind);
    SameRest("MM_", TrimPrefix("MM_" + key, "MM_"), key);
    CanonicalCons(f.name, q);
    LongerKey(f.ty.fields, q, g);
    assert |"MM_" + CanonicalKey(p)| > |"MM_" + key|;
    UnreportedSurvives(w, "MM_" + key, p, g.ty.kind, v, c, r);
  }

  /** The canonical key of a promoted field is longer than its name. */
  lemma {:induction false} LongerKey(fields: seq<Field>, q: Path, g: Field)
    requires Reaches(fields, q, g)
    ensures |CanonicalKey(q)| >= |Upper(g.name)| + |q| - 1
    decreases q
  {
    var a :| a in fields && ReachesBy(a, q, g);
    if |q| > 1 {
      LongerKey(a.ty.fields, q[1..], g);
      assert q == [q[0]] + q[1..];
      CanonicalCons(q[0], q[1..]);
    } else {
      assert CanonicalKey(q) == Upper(q[0]);
    }
  }

  lemma PromotedNamed(ty: Type, f: Field, q: Path, g: Field, key: string)
    requires ty.Section? && Clean(ty) && f in ty.fields && !f.ty.Leaf?
    requires Selects(f.ty.fields, q, g) && g.ty.Leaf? && key == Upper(f.name) + "_" + Upper(g.name)
    ensures LeafAt(ty, [f.name] + q) == Some(g.ty.kind) && Names(ty, key, [f.name] + q)
  {
    LeafAtReached(f.ty, q, g, []);
    NamedOf(f.ty, Upper(g.name), q, g, []);
    assert q + [] == q;
    LeafAtStep(ty, f, q);
    OwnFieldSelected(ty, f);
    SegmentOf(ty, f, q, key, Upper(g.name));
  }

  lemma SegmentOf(ty: Type, f: Field, q: Path, key: string, rest: string)
    requires !ty.Leaf? && !f.ty.Leaf? && Selects(ty.fields, [f.name], f)
    requires key == Upper(f.name) + "_" + rest && Names(f.ty, rest, q)
    ensures Names(ty, key, [f.name] + q)
  {
    assert key[|Upper(f.name)| + 1..] == rest && key[..|Upper(f.name)| + 1] == Upper(f.name) + "_";
    NamedOf(ty, key, [f.name], f, q);
  }

  /** The field of a struct that a section embeds, next to nothing else. */
  lemma PromotedSelected(ty: Type, e: Field, leaf: Field)
    requires ty == Section([e]) && e == Embedded(e.name, Section([leaf])) && leaf.ty.Leaf?
    requires Upper(e.name) != Upper(leaf.name)
    ensures Selects(ty.fields, [e.name, leaf.name], leaf)
  {
    var q := [e.name, leaf.name];
    assert q[1..] == [leaf.name];
    assert ReachesBy(leaf, [leaf.name], leaf) && ReachesBy(e, q, leaf);
    forall r, g | Reaches(ty.fields, r, g) && Upper(g.name) == Upper(leaf.name) && |r| <= 2 ensures r == q {
      assert ReachesBy(e, r, g);
      assert Reaches([leaf], r[1..], g) && ReachesBy(leaf, r[1..], g);
      assert r == [r[0], r[1]];
    }
  }

  lemma NotReported(w: World, key: string, p: Path)
    requires w.schema.Section? && w.env.Keys == {key} && key != "MM_" + CanonicalKey(p)
    ensures p !in OverridePaths(w)
  {
    OverridePathsIff(w, p);
    ReportedIffCanonical(w.env, w.schema.fields, "MM", p);
    assert Upper("MM") == "MM" && "MM" + "_" == "MM_";
  }
}
