/** Environment overrides: how a variable finds a leaf, which overrides are reported, how
    they are laid over a configuration and taken off again. */
module Environment {
  import opened Options
  import opened Strings
  import opened ConfigModel

  type Env = map<string, string>

  function UpperChar(c: char): char {
    if 'a' <= c <= 'z' then (c as int - 32) as char else c
  }

  function Upper(s: string): string {
    if s == [] then [] else [UpperChar(s[0])] + Upper(s[1..])
  }

  // ---- From a variable to a leaf -----------------------------------------

  /** A field and the path to it. */
  datatype Hit = Hit(path: Path, field: Field)

  /** The fields with the upper-case name `up` at nesting depth `d`: those of the section itself,
      or of structs that are embedded in it. */
  function HitsAt(fields: seq<Field>, up: string, d: nat): seq<Hit>
    decreases fields, 0
  {
    if |fields| == 0 then []
    else
      var n := |fields| - 1;
      HitsAt(fields[..n], up, d) + HitsIn(fields[n], up, d)
  }

  function HitsIn(f: Field, up: string, d: nat): seq<Hit>
    decreases f, 1
  {
    if d == 0 then (if Upper(f.name) == up then [Hit([f.name], f)] else [])
    else if f.Embedded? && !f.ty.Leaf? then Under(f.name, HitsAt(f.ty.fields, up, d - 1))
    else []
  }

  function Under(name: string, hits: seq<Hit>): seq<Hit> {
    seq(|hits|, i requires 0 <= i < |hits| => Hit([name] + hits[i].path, hits[i].field))
  }

  /** How deep the embedded structs of a section nest. */
  function Depth(fields: seq<Field>): nat
    decreases fields, 0
  {
    if |fields| == 0 then 0
    else
      var n := |fields| - 1;
      var a, b := Depth(fields[..n]), DepthOf(fields[n]);
      if a < b then b else a
  }

  function DepthOf(f: Field): nat
    decreases f, 1
  {
    if f.Embedded? && !f.ty.Leaf? then 1 + Depth(f.ty.fields) else 0
  }

  /** FieldByNameFunc: the shallowest depth with a matching field decides, and several matching
      fields at that depth cancel each other. */
  function FindField(fields: seq<Field>, up: string, d: nat): Option<Hit>
    decreases Depth(fields) + 1 - d
  {
    if d > Depth(fields) then None
    else
      var hits := HitsAt(fields, up, d);
      if hits == [] then FindField(fields, up, d + 1)
      else if |hits| == 1 then Some(hits[0])
      else None
  }

  /** The leaf that `applyEnvKey` assigns for a key.  Segments after a leaf are ignored. */
  function Resolve(ty: Type, key: string): Option<(Path, Kind)>
    decreases |key|, 1
  {
    if ty.Leaf? then None
    else
      match FindField(ty.fields, Before(key, '_'), 0)
      case None => None
      case Some(h) => ResolveIn(h, key)
  }

  function ResolveIn(h: Hit, key: string): Option<(Path, Kind)>
    decreases |key|, 0
  {
    var head := Before(key, '_');
    match h.field.ty
    case Leaf(kind) => Some((h.path, kind))
    case _ =>
      if |head| == |key| then None
      else
        match Resolve(h.field.ty, key[|head| + 1..])
        case None => None
        case Some(r) => Some((h.path + r.0, r.1))
  }

  function TrimPrefix(s: string, p: string): string {
    if p <= s then s[|p|..] else s
  }

  function Target(schema: Type, key: string): Option<(Path, Kind)> {
    Resolve(schema, TrimPrefix(key, "MM_"))
  }

  /** The kind of the leaf at a path, through value and pointer sections alike. */
  ghost function LeafAt(ty: Type, p: Path): Option<Kind>
    decreases p
  {
    if ty.Leaf? || |p| == 0 then None
    else if f :| f in ty.fields && f.name == p[0] then
      if f.ty.Leaf? then (if |p| == 1 then Some(f.ty.kind) else None)
      else LeafAt(f.ty, p[1..])
    else None
  }

  /** Field names of every section differ even in upper case and contain no underscore. */
  ghost predicate Clean(ty: Type)
    decreases ty
  {
    ty.Leaf? ||
    ((forall f :: f in ty.fields ==> '_' !in Upper(f.name) && Clean(f.ty))
     && forall i, j :: 0 <= i < j < |ty.fields| ==> Upper(ty.fields[i].name) != Upper(ty.fields[j].name))
  }

  // ---- The field a segment selects ---------------------------------------

  /** The path leads through embedded structs, if at all through others, to the field. */
  ghost predicate Reaches(fields: seq<Field>, q: Path, f: Field)
    decreases q, 1
  {
    |q| > 0 && exists g :: g in fields && ReachesBy(g, q, f)
  }

  ghost predicate ReachesBy(g: Field, q: Path, f: Field)
    requires |q| > 0
    decreases q, 0
  {
    g.name == q[0] && if |q| == 1 then g == f else g.Embedded? && !g.ty.Leaf? && Reaches(g.ty.fields, q[1..], f)
  }

  /** The field at `q` hides every other one of its upper-case name: none is as shallow. */
  ghost predicate Selects(fields: seq<Field>, q: Path, f: Field) {
    && Reaches(fields, q, f)
    && forall r, g :: Reaches(fields, r, g) && Upper(g.name) == Upper(f.name) && |r| <= |q| ==> r == q
  }

  lemma ReachesAppend(fields: seq<Field>, g: Field, q: Path, f: Field)
    ensures Reaches(fields + [g], q, f) <==> Reaches(fields, q, f) || (|q| > 0 && ReachesBy(g, q, f))
  {
  }

  lemma InUnder(name: string, hits: seq<Hit>, h: Hit)
    ensures h in Under(name, hits) <==> |h.path| > 0 && h.path[0] == name && Hit(h.path[1..], h.field) in hits
  {
    if |h.path| > 0 && h.path[0] == name && Hit(h.path[1..], h.field) in hits {
      var i :| 0 <= i < |hits| && hits[i] == Hit(h.path[1..], h.field);
      assert [name] + h.path[1..] == h.path;
      assert Under(name, hits)[i] == h;
    }
  }

  ghost predicate HitsWell(fields: seq<Field>, up: string, d: nat, h: Hit) {
    h in HitsAt(fields, up, d) <==> |h.path| == d + 1 && Reaches(fields, h.path, h.field) && Upper(h.field.name) == up
  }

  lemma {:induction false} HitsReach(fields: seq<Field>, up: string, d: nat, h: Hit)
    ensures HitsWell(fields, up, d, h)
    decreases fields
  {
    if |fields| > 0 {
      var n := |fields| - 1;
      var f := fields[n];
      HitsReach(fields[..n], up, d, h);
      if d > 0 && f.Embedded? && !f.ty.Leaf? && |h.path| > 0 {
        HitsReach(f.ty.fields, up, d - 1, Hit(h.path[1..], h.field));
      }
      HitInField(f, up, d, h);
      assert fields == fields[..n] + [f];
      ReachesAppend(fields[..n], f, h.path, h.field);
    }
  }

  lemma HitInField(f: Field, up: string, d: nat, h: Hit)
    requires d > 0 && f.Embedded? && !f.ty.Leaf? && |h.path| > 0 ==>
      HitsWell(f.ty.fields, up, d - 1, Hit(h.path[1..], h.field))
    ensures h in HitsIn(f, up, d) <==>
      |h.path| == d + 1 && ReachesBy(f, h.path, h.field) && Upper(h.field.name) == up
  {
    if d > 0 && f.Embedded? && !f.ty.Leaf? {
      InUnder(f.name, HitsAt(f.ty.fields, up, d - 1), h);
    } else if d == 0 && |h.path| == 1 {
      assert h.path == [h.path[0]];
    }
  }

  ghost predicate Distinct(hits: seq<Hit>) {
    forall i, j :: 0 <= i < j < |hits| ==> hits[i] != hits[j]
  }

  lemma {:induction false} HitsDistinct(fields: seq<Field>, up: string, d: nat)
    requires Clean(Section(fields))
    ensures Distinct(HitsAt(fields, up, d))
    decreases fields
  {
    if |fields| > 0 {
      var n := |fields| - 1;
      var f := fields[n];
      CleanPrefix(fields, n);
      HitsDistinct(fields[..n], up, d);
      if d > 0 && f.Embedded? && !f.ty.Leaf? {
        CleanFields(f.ty);
        HitsDistinct(f.ty.fields, up, d - 1);
        UnderDistinct(f.name, HitsAt(f.ty.fields, up, d - 1));
      }
      DistinctAppend(fields[..n], f, up, d);
    }
  }

  lemma CleanFields(ty: Type)
    requires Clean(ty) && !ty.Leaf?
    ensures Clean(Section(ty.fields))
  {
  }

  lemma CleanPrefix(fields: seq<Field>, n: nat)
    requires Clean(Section(fields)) && n < |fields|
    ensures Clean(Section(fields[..n])) && Clean(fields[n].ty)
    ensures forall f :: f in fields[..n] ==> f.name != fields[n].name
  {
    assert fields[n] in fields;
  }

  lemma UnderDistinct(name: string, hits: seq<Hit>)
    requires Distinct(hits)
    ensures Distinct(Under(name, hits))
  {
    var u := Under(name, hits);
    forall i, j | 0 <= i < j < |u| ensures u[i] != u[j] {
      assert ([name] + hits[i].path)[1..] == hits[i].path && ([name] + hits[j].path)[1..] == hits[j].path;
    }
  }

  lemma DistinctAppend(fields: seq<Field>, f: Field, up: string, d: nat)
    requires Distinct(HitsAt(fields, up, d)) && Distinct(HitsIn(f, up, d))
    requires forall g :: g in fields ==> g.name != f.name
    ensures Distinct(HitsAt(fields, up, d) + HitsIn(f, up, d))
  {
    var a, b := HitsAt(fields, up, d), HitsIn(f, up, d);
    forall i, j | 0 <= i < |a| && 0 <= j < |b| ensures a[i] != b[j] {
      HitsReach(fields, up, d, a[i]);
      var g :| g in fields && ReachesBy(g, a[i].path, a[i].field);
      FirstOfHit(f, up, d, b[j]);
    }
  }

  lemma FirstOfHit(f: Field, up: string, d: nat, h: Hit)
    requires h in HitsIn(f, up, d)
    ensures |h.path| > 0 && h.path[0] == f.name
  {
  }

  lemma {:induction false} ReachedInDepth(fields: seq<Field>, q: Path, f: Field)
    requires Reaches(fields, q, f)
    ensures |q| <= Depth(fields) + 1
    decreases fields
  {
    var n := |fields| - 1;
    assert fields == fields[..n] + [fields[n]];
    ReachesAppend(fields[..n], fields[n], q, f);
    if Reaches(fields[..n], q, f) {
      ReachedInDepth(fields[..n], q, f);
    } else if |q| > 1 {
      ReachedInDepth(fields[n].ty.fields, q[1..], f);
    }
  }

  /** The search finds the field that a segment selects, and only that. */
  lemma {:induction false} FindIff(fields: seq<Field>, up: string, d: nat, h: Hit)
    requires Clean(Section(fields))
    requires forall q, f :: Reaches(fields, q, f) && Upper(f.name) == up ==> |q| > d
    ensures FindField(fields, up, d) == Some(h) <==> Selects(fields, h.path, h.field) && Upper(h.field.name) == up
    decreases Depth(fields) + 1 - d
  {
    var hits := HitsAt(fields, up, d);
    if d > Depth(fields) {
      if Reaches(fields, h.path, h.field) { ReachedInDepth(fields, h.path, h.field); }
    } else if hits == [] {
      forall q, f | Reaches(fields, q, f) && Upper(f.name) == up ensures |q| > d + 1 {
        HitsReach(fields, up, d, Hit(q, f));
      }
      FindIff(fields, up, d + 1, h);
    } else {
      HitsDistinct(fields, up, d);
      FoundAt(fields, up, d, h, hits);
    }
  }

  lemma FoundAt(fields: seq<Field>, up: string, d: nat, h: Hit, hits: seq<Hit>)
    requires forall q, f :: Reaches(fields, q, f) && Upper(f.name) == up ==> |q| > d
    requires hits == HitsAt(fields, up, d) && |hits| > 0 && Distinct(hits)
    requires Clean(Section(fields))
    ensures |hits| == 1 && hits[0] == h <==> Selects(fields, h.path, h.field) && Upper(h.field.name) == up
  {
    HitsReach(fields, up, d, hits[0]);
    HitsReach(fields, up, d, h);
    if |hits| == 1 && hits[0] == h {
      forall r, g | Reaches(fields, r, g) && Upper(g.name) == up && |r| <= |h.path| ensures r == h.path {
        HitsReach(fields, up, d, Hit(r, g));
      }
    } else if Selects(fields, h.path, h.field) && Upper(h.field.name) == up {
      assert hits[0].path == h.path;
      SameEnd(fields, h.path, h.field, hits[0].field);
      HitsReach(fields, up, d, hits[1]);
      SameEnd(fields, h.path, h.field, hits[1].field);
      assert false;
    }
  }

  /** In a clean section a path ends at one field. */
  lemma {:induction false} SameEnd(fields: seq<Field>, q: Path, f: Field, g: Field)
    requires Clean(Section(fields)) && Reaches(fields, q, f) && Reaches(fields, q, g)
    ensures f == g
    decreases q
  {
    var a :| a in fields && ReachesBy(a, q, f);
    var b :| b in fields && ReachesBy(b, q, g);
    OnlyField(Section(fields), a);
    assert a == b;
    if |q| > 1 {
      CleanFields(a.ty);
      SameEnd(a.ty.fields, q[1..], f, g);
    }
  }

  lemma {:induction false} UpperConcat(a: string, b: string)
    ensures Upper(a + b) == Upper(a) + Upper(b)
  {
    if a == [] {
      assert a + b == b;
    } else {
      assert (a + b)[1..] == a[1..] + b;
      UpperConcat(a[1..], b);
    }
  }

  /** The key that names a leaf and nothing else. */
  function CanonicalKey(p: Path): string {
    Upper(Join(p, '_'))
  }

  lemma CanonicalCons(name: string, p: Path)
    requires |p| > 0
    ensures CanonicalKey([name] + p) == Upper(name) + "_" + CanonicalKey(p)
  {
    JoinCons(name, p, '_');
    UpperConcat(name + "_", Join(p, '_'));
    UpperConcat(name, "_");
    assert Upper("_") == "_";
  }

  /** Prepending a segment to a key and to a canonical key keeps them related. */
  lemma ExtendKey(up: string, c: string, rest: string)
    ensures up + "_" + rest == up + "_" + c <==> rest == c
    ensures up + "_" + c + "_" <= up + "_" + rest <==> c + "_" <= rest
  {
    var head := up + "_";
    assert (head + rest)[|head|..] == rest && (head + c)[|head|..] == c;
    if head + c + "_" <= head + rest {
      assert (head + rest)[|head|..|head| + |c| + 1] == c + "_";
    }
    if c + "_" <= rest {
      assert rest == c + "_" + rest[|c| + 1..];
      assert head + rest == (head + c + "_") + rest[|c| + 1..];
    }
  }

  lemma LeafAtStep(ty: Type, f: Field, p: Path)
    requires Clean(ty) && !ty.Leaf? && f in ty.fields
    ensures LeafAt(ty, [f.name] + p)
      == if f.ty.Leaf? then (if |p| == 0 then Some(f.ty.kind) else None) else LeafAt(f.ty, p)
  {
    OnlyField(ty, f);
    assert ([f.name] + p)[1..] == p;
  }

  /** `key` spells out the leaf `p`, possibly with further segments. */
  predicate Spells(key: string, p: Path) {
    key == CanonicalKey(p) || CanonicalKey(p) + "_" <= key
  }

  /** `key` names the leaf `p`: each segment selects a field, and the path of the selected field
      is the next part of `p`.  Further segments may follow. */
  ghost predicate Names(ty: Type, key: string, p: Path)
    decreases |p|, 0
  {
    !ty.Leaf? && exists n, f :: 0 < n <= |p| && NamesBy(ty.fields, key, p, n, f)
  }

  ghost predicate NamesBy(fields: seq<Field>, key: string, p: Path, n: nat, f: Field)
    requires 0 < n <= |p|
    decreases |p| - n, 2
  {
    Selects(fields, p[..n], f) && NamesRest(f, key, p[n..])
  }

  ghost predicate NamesRest(f: Field, key: string, rest: Path)
    decreases |rest|, 1
  {
    var up := Upper(f.name);
    if f.ty.Leaf? then rest == [] && (key == up || up + "_" <= key)
    else up + "_" <= key && Names(f.ty, key[|up| + 1..], rest)
  }

  /** The field that the first segment selects, and the parts of the path. */
  lemma NamedParts(ty: Type, key: string, p: Path) returns (q: Path, f: Field, rest: Path)
    requires Names(ty, key, p)
    ensures !ty.Leaf? && |q| > 0 && p == q + rest && Selects(ty.fields, q, f) && NamesRest(f, key, rest)
  {
    var n, g :| 0 < n <= |p| && NamesBy(ty.fields, key, p, n, g);
    q, f, rest := p[..n], g, p[n..];
  }

  lemma NamedOf(ty: Type, key: string, q: Path, f: Field, rest: Path)
    requires !ty.Leaf? && Selects(ty.fields, q, f) && NamesRest(f, key, rest)
    ensures Names(ty, key, q + rest)
  {
    var p := q + rest;
    assert p[..|q|] == q && p[|q|..] == rest;
    assert NamesBy(ty.fields, key, p, |q|, f);
  }

  lemma {:induction false} LeafAtReached(ty: Type, q: Path, f: Field, rest: Path)
    requires Clean(ty) && !ty.Leaf? && Reaches(ty.fields, q, f)
    ensures Clean(f.ty) && '_' !in Upper(f.name)
    ensures LeafAt(ty, q + rest)
      == if f.ty.Leaf? then (if |rest| == 0 then Some(f.ty.kind) else None) else LeafAt(f.ty, rest)
    decreases q
  {
    var g :| g in ty.fields && ReachesBy(g, q, f);
    assert q + rest == [g.name] + (q[1..] + rest);
    LeafAtStep(ty, g, q[1..] + rest);
    if |q| > 1 {
      LeafAtReached(g.ty, q[1..], f, rest);
    } else {
      assert q[1..] + rest == rest;
    }
  }

  lemma CutKey(key: string, head: string)
    requires head == Before(key, '_') && |head| < |key|
    ensures key == head + "_" + key[|head| + 1..]
  {
    CutAt(key, |head|);
    assert head == key[..|head|];
  }

  lemma SectionStep(f: Field, p: Path, rest: string)
    requires |p| > 0
    ensures Spells(Upper(f.name) + "_" + rest, [f.name] + p) <==> Spells(rest, p)
  {
    CanonicalCons(f.name, p);
    ExtendKey(Upper(f.name), CanonicalKey(p), rest);
  }

  /** In a clean section a field name belongs to one field. */
  lemma OnlyField(ty: Type, f: Field)
    requires Clean(ty) && !ty.Leaf? && f in ty.fields
    ensures forall g :: g in ty.fields && Upper(g.name) == Upper(f.name) ==> g == f
  {
    var i :| 0 <= i < |ty.fields| && ty.fields[i] == f;
    forall g | g in ty.fields && Upper(g.name) == Upper(f.name) ensures g == f {
      var j :| 0 <= j < |ty.fields| && ty.fields[j] == g;
      assert i == j;
    }
  }

  /** A field of the section itself hides every promoted one of its name. */
  lemma OwnFieldSelected(ty: Type, f: Field)
    requires Clean(ty) && !ty.Leaf? && f in ty.fields
    ensures Selects(ty.fields, [f.name], f)
  {
    assert ReachesBy(f, [f.name], f);
    OnlyField(ty, f);
    forall r, g | Reaches(ty.fields, r, g) && Upper(g.name) == Upper(f.name) && |r| <= 1 ensures r == [f.name] {
      var a :| a in ty.fields && ReachesBy(a, r, g);
      assert r == [r[0]] && a == g;
    }
  }

  /** The canonical key of a leaf names it, whatever the schema promotes. */
  lemma {:induction false} SpelledIsNamed(ty: Type, key: string, p: Path, kind: Kind)
    requires Clean(ty) && LeafAt(ty, p) == Some(kind) && Spells(key, p)
    ensures Names(ty, key, p)
    decreases |p|
  {
    var f := FieldAt(ty, p, kind);
    var head := FirstSegment(key, p);
    assert p == [f.name] + p[1..];
    OwnFieldSelected(ty, f);
    if f.ty.Leaf? {
      assert CanonicalKey(p) == Upper(f.name);
    } else {
      SpelledRest(f, key, head, p[1..]);
      SpelledIsNamed(f.ty, key[|head| + 1..], p[1..], kind);
    }
    NamedOf(ty, key, [f.name], f, p[1..]);
  }

  /** The field of the section itself that the path of a leaf leads through. */
  lemma FieldAt(ty: Type, p: Path, kind: Kind) returns (f: Field)
    requires Clean(ty) && LeafAt(ty, p) == Some(kind)
    ensures !ty.Leaf? && f in ty.fields && |p| > 0 && f.name == p[0] && Clean(f.ty) && '_' !in Upper(f.name)
    ensures if f.ty.Leaf? then p == [f.name] && f.ty.kind == kind else |p| > 1 && LeafAt(f.ty, p[1..]) == Some(kind)
  {
    f :| f in ty.fields && f.name == p[0];
    assert p == [f.name] + p[1..];
    LeafAtStep(ty, f, p[1..]);
  }

  /** No struct is embedded anywhere. */
  ghost predicate NothingEmbedded(ty: Type)
    decreases ty
  {
    ty.Leaf? || forall f :: f in ty.fields ==> !f.Embedded? && NothingEmbedded(f.ty)
  }

  /** Without embedded structs only the canonical key names a leaf. */
  lemma {:induction false} NamedIsSpelled(ty: Type, key: string, p: Path)
    requires NothingEmbedded(ty) && Names(ty, key, p)
    ensures Spells(key, p)
    decreases |p|
  {
    var q, f, tail := NamedParts(ty, key, p);
    OwnOnly(ty, q, f);
    if f.ty.Leaf? {
      assert p == [f.name] && CanonicalKey(p) == Upper(f.name);
    } else {
      var rest := key[|Upper(f.name)| + 1..];
      NamedIsSpelled(f.ty, rest, tail);
      assert key == Upper(f.name) + "_" + rest;
      assert |tail| > 0;
      SectionStep(f, tail, rest);
    }
  }

  lemma OwnOnly(ty: Type, q: Path, f: Field)
    requires NothingEmbedded(ty) && !ty.Leaf? && Reaches(ty.fields, q, f)
    ensures q == [f.name] && NothingEmbedded(f.ty)
  {
    var a :| a in ty.fields && ReachesBy(a, q, f);
    assert q == [q[0]];
  }

  lemma SpelledRest(f: Field, key: string, head: string, p: Path)
    requires |p| > 0 && Spells(key, [f.name] + p)
    requires head == Before(key, '_') == Upper(f.name) && |head| < |key|
    ensures Spells(key[|head| + 1..], p) && head + "_" <= key
  {
    CutKey(key, head);
    SectionStep(f, p, key[|head| + 1..]);
  }

  lemma FirstSegment(key: string, p: Path) returns (head: string)
    requires |p| > 0 && '_' !in Upper(p[0])
    requires Spells(key, p)
    ensures head == Before(key, '_') == Upper(p[0])
    ensures |p| > 1 ==> |head| < |key|
  {
    head := Upper(p[0]);
    if |p| == 1 {
      HeadOfKey(key, head);
    } else {
      var c := CanonicalKey(p[1..]);
      assert p == [p[0]] + p[1..];
      CanonicalCons(p[0], p[1..]);
      PrefixOfKey(key, head, c);
      HeadOfKey(key, head);
    }
  }

  lemma PrefixOfKey(key: string, head: string, c: string)
    requires key == head + "_" + c || head + "_" + c + "_" <= key
    ensures head + "_" <= key && |head| < |key|
  {
    assert (head + "_" + c)[..|head| + 1] == head + "_";
    assert (head + "_" + c + "_")[..|head| + 1] == head + "_";
  }

  lemma HeadOfKey(key: string, head: string)
    requires '_' !in head
    requires key == head || head + "_" <= key
    ensures Before(key, '_') == head
  {
    if key == head {
      BeforeMissing(head, '_');
    } else {
      assert key == head + ['_'] + key[|head| + 1..];
      BeforeFound(head, key[|head| + 1..], '_');
    }
  }

  lemma {:induction false} ResolvedIsNamed(ty: Type, key: string, p: Path, kind: Kind)
    requires Clean(ty) && Resolve(ty, key) == Some((p, kind))
    ensures LeafAt(ty, p) == Some(kind) && Names(ty, key, p)
    decreases |key|
  {
    var head := Before(key, '_');
    var h := FindField(ty.fields, head, 0).value;
    var q, f := h.path, h.field;
    CleanFields(ty);
    FindIff(ty.fields, head, 0, h);
    var rest := ResolvedRest(ty, key, h, p, kind);
    LeafAtReached(ty, q, f, rest);
    BeforeWhole(key, head);
    if !f.ty.Leaf? {
      CutKey(key, head);
      ResolvedIsNamed(f.ty, key[|head| + 1..], rest, kind);
    }
    NamedOf(ty, key, q, f, rest);
  }

  lemma ResolvedRest(ty: Type, key: string, h: Hit, p: Path, kind: Kind) returns (rest: Path)
    requires !ty.Leaf? && FindField(ty.fields, Before(key, '_'), 0) == Some(h) && Resolve(ty, key) == Some((p, kind))
    ensures p == h.path + rest
    ensures if h.field.ty.Leaf? then rest == [] && h.field.ty.kind == kind
            else |Before(key, '_')| < |key| && Resolve(h.field.ty, key[|Before(key, '_')| + 1..]) == Some((rest, kind))
  {
    assert ResolveIn(h, key) == Some((p, kind));
    if h.field.ty.Leaf? {
      rest := [];
    } else {
      rest := Resolve(h.field.ty, key[|Before(key, '_')| + 1..]).value.0;
    }
  }

  lemma BeforeWhole(key: string, head: string)
    requires head == Before(key, '_')
    ensures key == head || head + "_" <= key
  {
    if |head| < |key| { CutKey(key, head); }
  }

  lemma {:induction false} NamedResolves(ty: Type, key: string, p: Path, kind: Kind)
    requires Clean(ty) && LeafAt(ty, p) == Some(kind) && Names(ty, key, p)
    ensures Resolve(ty, key) == Some((p, kind))
    decreases |key|
  {
    var q, f, rest := NamedParts(ty, key, p);
    LeafAtReached(ty, q, f, rest);
    SegmentFinds(ty, key, q, f);
    if !f.ty.Leaf? {
      NamedResolves(f.ty, key[|Upper(f.name)| + 1..], rest, kind);
    }
    ResolvesBy(ty, key, Hit(q, f), rest, kind);
  }

  lemma SegmentFinds(ty: Type, key: string, q: Path, f: Field)
    requires Clean(ty) && !ty.Leaf? && Selects(ty.fields, q, f) && '_' !in Upper(f.name)
    requires key == Upper(f.name) || Upper(f.name) + "_" <= key
    ensures Before(key, '_') == Upper(f.name) && FindField(ty.fields, Upper(f.name), 0) == Some(Hit(q, f))
  {
    HeadOfKey(key, Upper(f.name));
    CleanFields(ty);
    FindIff(ty.fields, Upper(f.name), 0, Hit(q, f));
  }

  lemma ResolvesBy(ty: Type, key: string, h: Hit, rest: Path, kind: Kind)
    requires !ty.Leaf? && FindField(ty.fields, Before(key, '_'), 0) == Some(h)
    requires if h.field.ty.Leaf? then rest == [] && h.field.ty.kind == kind
             else |Before(key, '_')| < |key| && Resolve(h.field.ty, key[|Before(key, '_')| + 1..]) == Some((rest, kind))
    ensures Resolve(ty, key) == Some((h.path + rest, kind))
  {
    assert h.path + [] == h.path;
    assert Resolve(ty, key) == ResolveIn(h, key);
  }

  /** A variable reaches the leaf `p` exactly if its key names it: by the canonical key, or with
      the name of an embedded struct left out where nothing as shallow hides the field. */
  lemma ResolveIff(ty: Type, key: string, p: Path, kind: Kind)
    requires Clean(ty)
    ensures Resolve(ty, key) == Some((p, kind)) <==> LeafAt(ty, p) == Some(kind) && Names(ty, key, p)
  {
    if Resolve(ty, key) == Some((p, kind)) { ResolvedIsNamed(ty, key, p, kind); }
    if LeafAt(ty, p) == Some(kind) && Names(ty, key, p) { NamedResolves(ty, key, p, kind); }
  }

  // ---- Clean schemas -----------------------------------------------------

  lemma {:induction false} UpperChars(s: string)
    ensures |Upper(s)| == |s| && forall i :: 0 <= i < |s| ==> Upper(s)[i] == UpperChar(s[i])
  {
    if s != [] { UpperChars(s[1..]); }
  }

  lemma UpperIs(s: string, u: string)
    requires |s| == |u| && forall i :: 0 <= i < |s| ==> u[i] == UpperChar(s[i])
    ensures Upper(s) == u
  {
    UpperChars(s);
  }

  lemma KeyOfTwo(a: string, b: string)
    ensures CanonicalKey([a, b]) == Upper(a) + "_" + Upper(b)
  {
    assert [a] + [b] == [a, b];
    CanonicalCons(a, [b]);
  }

  /** Tells names apart by their lengths and third letters. */
  function NameMark(a: string): (nat, char) {
    (|a|, if |a| < 3 then '_' else UpperChar(a[2]))
  }

  lemma NamesDiffer(a: string, b: string)
    requires NameMark(a) != NameMark(b)
    ensures Upper(a) != Upper(b)
  {
    UpperChars(a);
    UpperChars(b);
    if |a| == |b| { assert Upper(a)[2] != Upper(b)[2]; }
  }

  lemma NoUnderscore(name: string)
    requires '_' !in name
    ensures '_' !in Upper(name)
  {
    UpperChars(name);
    forall i | 0 <= i < |name| ensures Upper(name)[i] != '_' { assert name[i] in name; }
  }

  lemma CleanSection(fields: seq<Field>, ty: Type)
    requires ty == Section(fields) || ty == SectionPtr(fields)
    requires forall f :: f in fields ==> '_' !in f.name && Clean(f.ty)
    requires forall i, j :: 0 <= i < j < |fields| ==> NameMark(fields[i].name) != NameMark(fields[j].name)
    ensures Clean(ty)
  {
    forall f | f in fields ensures '_' !in Upper(f.name) { NoUnderscore(f.name); }
    forall i, j | 0 <= i < j < |fields| ensures Upper(fields[i].name) != Upper(fields[j].name) {
      NamesDiffer(fields[i].name, fields[j].name);
    }
  }

  lemma LeafInSection(ty: Type, f: Field, g: Field)
    requires Clean(ty) && !ty.Leaf? && f in ty.fields && !f.ty.Leaf? && g in f.ty.fields && g.ty.Leaf?
    ensures LeafAt(ty, [f.name, g.name]) == Some(g.ty.kind)
  {
    assert [f.name] + [g.name] == [f.name, g.name] && [g.name] + [] == [g.name];
    LeafAtStep(ty, f, [g.name]);
    LeafAtStep(f.ty, g, []);
  }
}
