/** The structural diff of two configurations, and what it means to replay one. */
module ConfigDiff {
  import opened Options
  import opened Strings

  /** A Go value: a struct, a pointer, or anything compared as a whole (scalars, slices,
      maps).  `ty` names its type; the zero value of an atom is 0. */
  datatype Tree =
    | Record(ty: string, fields: seq<Member>)
    | Ref(ty: string, target: Option<Tree>)
    | Atom(ty: string, v: int)

  datatype Member = Member(name: string, value: Tree)

  datatype Entry = Entry(path: string, base: Tree, actual: Tree)

  /** reflect.Value.IsZero. */
  predicate IsZero(t: Tree) {
    match t
    case Record(_, fields) => forall m :: m in fields ==> IsZero(m.value)
    case Ref(_, target) => target.None?
    case Atom(_, v) => v == 0
  }

  function Indirect(t: Tree): Tree {
    if t.Ref? && t.target.Some? then t.target.value else t
  }

  function FieldLabel(prefix: string, name: string): string {
    if prefix != "" then prefix + "." + name else name
  }

  /** `diff`; None is its error result. */
  function Diff(base: Tree, actual: Tree, prefix: string): Option<seq<Entry>>
    decreases base, 1
  {
    if IsZero(base) && IsZero(actual) then Some([])
    else if IsZero(base) || IsZero(actual) then Some([Entry(prefix, base, actual)])
    else
      var b, a := if base.Ref? then Indirect(base) else base, if base.Ref? then Indirect(actual) else actual;
      if b.ty != a.ty || (b.Record? != a.Record?) then None
      else if b.Record? then
        if |b.fields| != |a.fields| then None else DiffFields(b.fields, a.fields, prefix)
      else Some(if b != a then [Entry(prefix, b, a)] else [])
  }

  /** The loop over the fields, up to and including the last of `bs`. */
  function DiffFields(bs: seq<Member>, fs: seq<Member>, prefix: string): Option<seq<Entry>>
    requires |bs| == |fs|
    decreases bs, 0
  {
    if |bs| == 0 then Some([])
    else
      var n := |bs| - 1;
      match DiffFields(bs[..n], fs[..n], prefix)
      case None => None
      case Some(before) =>
        match Diff(bs[n].value, fs[n].value, FieldLabel(prefix, bs[n].name))
        case None => None
        case Some(d) => Some(before + d)
  }

  // ---- Values of one type ------------------------------------------------

  /** Two values of one Go type. */
  predicate SameShape(a: Tree, b: Tree)
    decreases a
  {
    && a.ty == b.ty
    && match a
       case Record(_, fields) =>
         && b.Record? && |fields| == |b.fields|
         && forall i :: 0 <= i < |fields| ==>
              fields[i].name == b.fields[i].name && SameShape(fields[i].value, b.fields[i].value)
       case Ref(_, target) =>
         b.Ref? && (target.Some? && b.target.Some? ==> SameShape(target.value, b.target.value))
       case Atom(_, _) => b.Atom?
  }

  /** Field names are distinct identifiers, and no pointer points to a pointer. */
  ghost predicate Plain(t: Tree) {
    match t
    case Record(_, fields) =>
      && (forall m :: m in fields ==> m.name != "" && '.' !in m.name && Plain(m.value))
      && (forall i, j :: 0 <= i < j < |fields| ==> fields[i].name != fields[j].name)
    case Ref(_, target) => target.Some? ==> !target.value.Ref? && Plain(target.value)
    case Atom(_, _) => true
  }

  // ---- The reference: changes with relative paths ------------------------

  datatype Change = Change(path: seq<string>, base: Tree, actual: Tree)

  function Under(name: string, cs: seq<Change>): (r: seq<Change>)
    ensures |r| == |cs|
    ensures forall i :: 0 <= i < |r| ==> r[i] == Change([name] + cs[i].path, cs[i].base, cs[i].actual)
  {
    seq(|cs|, i requires 0 <= i < |cs| => Change([name] + cs[i].path, cs[i].base, cs[i].actual))
  }

  function Changes(base: Tree, actual: Tree): seq<Change>
    requires SameShape(base, actual)
    decreases base, 2
  {
    if IsZero(base) && IsZero(actual) then []
    else if IsZero(base) || IsZero(actual) then [Change([], base, actual)]
    else if base.Ref? then Inner(base.target.value, actual.target.value)
    else Inner(base, actual)
  }

  /** The changes of two values that are not both or singly zero, or were behind pointers. */
  function Inner(base: Tree, actual: Tree): seq<Change>
    requires SameShape(base, actual)
    decreases base, 1
  {
    if base.Record? then FieldChanges(base.fields, actual.fields)
    else if base != actual then [Change([], base, actual)] else []
  }

  predicate SameFields(bs: seq<Member>, fs: seq<Member>) {
    && |bs| == |fs|
    && forall i :: 0 <= i < |bs| ==> bs[i].name == fs[i].name && SameShape(bs[i].value, fs[i].value)
  }

  function FieldChanges(bs: seq<Member>, fs: seq<Member>): seq<Change>
    requires SameFields(bs, fs)
    decreases bs, 0
  {
    if |bs| == 0 then []
    else
      var n := |bs| - 1;
      FieldChanges(bs[..n], fs[..n]) + Under(bs[n].name, Changes(bs[n].value, fs[n].value))
  }

  // ---- The code computes the changes -------------------------------------

  function Label(prefix: string, path: seq<string>): string {
    if |path| == 0 then prefix
    else if prefix == "" then Join(path, '.')
    else prefix + "." + Join(path, '.')
  }

  function Labelled(prefix: string, cs: seq<Change>): (r: seq<Entry>)
    ensures |r| == |cs|
    ensures forall i :: 0 <= i < |r| ==> r[i] == Entry(Label(prefix, cs[i].path), cs[i].base, cs[i].actual)
  {
    seq(|cs|, i requires 0 <= i < |cs| => Entry(Label(prefix, cs[i].path), cs[i].base, cs[i].actual))
  }

  lemma LabelStep(prefix: string, name: string, path: seq<string>)
    requires name != ""
    ensures Label(FieldLabel(prefix, name), path) == Label(prefix, [name] + path)
  {
    if |path| > 0 { JoinCons(name, path, '.'); }
    else { assert [name] + path == [name]; }
    if prefix != "" && |path| > 0 {
      assert prefix + "." + name + "." + Join(path, '.') == prefix + "." + (name + "." + Join(path, '.'));
    }
  }

  lemma LabelledUnder(prefix: string, name: string, cs: seq<Change>)
    requires name != ""
    ensures Labelled(FieldLabel(prefix, name), cs) == Labelled(prefix, Under(name, cs))
  {
    forall i | 0 <= i < |cs|
      ensures Labelled(FieldLabel(prefix, name), cs)[i] == Labelled(prefix, Under(name, cs))[i]
    {
      LabelStep(prefix, name, cs[i].path);
    }
  }

  lemma LabelledAppend(prefix: string, a: seq<Change>, b: seq<Change>)
    ensures Labelled(prefix, a + b) == Labelled(prefix, a) + Labelled(prefix, b)
  {
  }

  /** On two values of one type `diff` succeeds and lists the labelled changes. */
  lemma {:induction false} DiffIsChanges(base: Tree, actual: Tree, prefix: string)
    requires SameShape(base, actual) && Plain(base)
    ensures Diff(base, actual, prefix) == Some(Labelled(prefix, Changes(base, actual)))
    decreases base, 1
  {
    assert Labelled(prefix, []) == [];
    if !IsZero(base) && !IsZero(actual) {
      var b, a := Indirect(base), Indirect(actual);
      assert Labelled(prefix, [Change([], b, a)]) == [Entry(prefix, b, a)];
      if b.Record? { DiffFieldsIsChanges(b.fields, a.fields, prefix); }
    } else {
      assert Labelled(prefix, [Change([], base, actual)]) == [Entry(prefix, base, actual)];
    }
  }

  lemma {:induction false} DiffFieldsIsChanges(bs: seq<Member>, fs: seq<Member>, prefix: string)
    requires SameFields(bs, fs)
    requires forall m :: m in bs ==> m.name != "" && Plain(m.value)
    ensures DiffFields(bs, fs, prefix) == Some(Labelled(prefix, FieldChanges(bs, fs)))
    decreases bs, 0
  {
    if |bs| > 0 {
      var n := |bs| - 1;
      DiffFieldsIsChanges(bs[..n], fs[..n], prefix);
      DiffIsChanges(bs[n].value, fs[n].value, FieldLabel(prefix, bs[n].name));
      var cs := Changes(bs[n].value, fs[n].value);
      LabelledUnder(prefix, bs[n].name, cs);
      LabelledAppend(prefix, FieldChanges(bs[..n], fs[..n]), Under(bs[n].name, cs));
    }
  }

  // ---- Empty exactly when equal ------------------------------------------

  lemma {:induction false} ZeroIsUnique(a: Tree, b: Tree)
    requires SameShape(a, b) && IsZero(a) && IsZero(b)
    ensures a == b
    decreases a
  {
    if a.Record? {
      forall i | 0 <= i < |a.fields| ensures a.fields[i] == b.fields[i] {
        ZeroIsUnique(a.fields[i].value, b.fields[i].value);
      }
    }
  }

  /** There are no changes exactly if the two values are deeply equal. */
  lemma {:induction false} NoChangesIffEqual(base: Tree, actual: Tree)
    requires SameShape(base, actual)
    ensures Changes(base, actual) == [] <==> base == actual
    decreases base, 1
  {
    if IsZero(base) && IsZero(actual) {
      ZeroIsUnique(base, actual);
    } else if !IsZero(base) && !IsZero(actual) {
      var b, a := Indirect(base), Indirect(actual);
      if b.Record? { NoFieldChanges(b.fields, a.fields); }
    }
  }

  lemma {:induction false} NoFieldChanges(bs: seq<Member>, fs: seq<Member>)
    requires SameFields(bs, fs)
    ensures FieldChanges(bs, fs) == [] <==> bs == fs
    decreases bs, 0
  {
    if |bs| > 0 {
      var n := |bs| - 1;
      NoFieldChanges(bs[..n], fs[..n]);
      NoChangesIffEqual(bs[n].value, fs[n].value);
      FieldChangesSnoc(bs, fs, n);
      assert bs[..n + 1] == bs && fs[..n + 1] == fs;
      SnocEqual(bs, fs, n);
    }
  }

  lemma SnocEqual(bs: seq<Member>, fs: seq<Member>, n: nat)
    requires SameFields(bs, fs) && |bs| == n + 1
    ensures bs == fs <==> bs[..n] == fs[..n] && bs[n].value == fs[n].value
  {
    assert bs == bs[..n] + [bs[n]] && fs == fs[..n] + [fs[n]];
  }

  // ---- Swapping ----------------------------------------------------------

  function Swapped(cs: seq<Change>): (r: seq<Change>)
    ensures |r| == |cs|
    ensures forall i :: 0 <= i < |r| ==> r[i] == Change(cs[i].path, cs[i].actual, cs[i].base)
  {
    seq(|cs|, i requires 0 <= i < |cs| => Change(cs[i].path, cs[i].actual, cs[i].base))
  }

  lemma {:induction false} ShapeSymmetric(a: Tree, b: Tree)
    requires SameShape(a, b)
    ensures SameShape(b, a)
    decreases a
  {
    match a
    case Record(_, fields) =>
      forall i | 0 <= i < |fields| ensures SameShape(b.fields[i].value, fields[i].value) {
        ShapeSymmetric(fields[i].value, b.fields[i].value);
      }
    case Ref(_, target) =>
      if target.Some? && b.target.Some? { ShapeSymmetric(target.value, b.target.value); }
    case Atom(_, _) =>
  }

  /** Exchanging the arguments exchanges the two values of every entry. */
  lemma {:induction false} SwapSwaps(base: Tree, actual: Tree)
    requires SameShape(base, actual)
    ensures SameShape(actual, base)
    ensures Changes(actual, base) == Swapped(Changes(base, actual))
    decreases base, 1
  {
    ShapeSymmetric(base, actual);
    if !IsZero(base) && !IsZero(actual) {
      var b, a := Indirect(base), Indirect(actual);
      if b.Record? { SwapFields(b.fields, a.fields); }
    }
  }

  lemma {:induction false} SwapFields(bs: seq<Member>, fs: seq<Member>)
    requires SameFields(bs, fs)
    ensures SameFields(fs, bs)
    ensures FieldChanges(fs, bs) == Swapped(FieldChanges(bs, fs))
    decreases bs, 0
  {
    if |bs| > 0 {
      var n := |bs| - 1;
      SwapFields(bs[..n], fs[..n]);
      SwapSwaps(bs[n].value, fs[n].value);
      var cs := Changes(bs[n].value, fs[n].value);
      assert Under(bs[n].name, Swapped(cs)) == Swapped(Under(bs[n].name, cs));
      assert Swapped(FieldChanges(bs[..n], fs[..n]) + Under(bs[n].name, cs))
          == Swapped(FieldChanges(bs[..n], fs[..n])) + Swapped(Under(bs[n].name, cs));
      assert forall i :: 0 <= i < n ==> SameShape(fs[i].value, bs[i].value) by {
        assert forall i :: 0 <= i < n ==> fs[..n][i] == fs[i] && bs[..n][i] == bs[i];
      }
    }
  }

  // ---- Paths -------------------------------------------------------------

  /** No path of `a` is a prefix of a path of `b` or the other way round. */
  ghost predicate Apart(a: seq<Change>, b: seq<Change>) {
    forall i, j :: 0 <= i < |a| && 0 <= j < |b| ==> !(a[i].path <= b[j].path) && !(b[j].path <= a[i].path)
  }

  /** The paths are pairwise distinct and none extends another. */
  ghost predicate Antichain(cs: seq<Change>) {
    forall i, j :: 0 <= i < j < |cs| ==> !(cs[i].path <= cs[j].path) && !(cs[j].path <= cs[i].path)
  }

  lemma AntichainAppend(a: seq<Change>, b: seq<Change>)
    requires Antichain(a) && Antichain(b) && Apart(a, b)
    ensures Antichain(a + b)
  {
  }

  lemma UnderAntichain(name: string, cs: seq<Change>)
    requires Antichain(cs)
    ensures Antichain(Under(name, cs))
  {
    var u := Under(name, cs);
    forall i, j | 0 <= i < j < |u| ensures !(u[i].path <= u[j].path) && !(u[j].path <= u[i].path) {
      PrefixCons(name, cs[i].path, cs[j].path);
      PrefixCons(name, cs[j].path, cs[i].path);
    }
  }

  lemma PrefixCons(name: string, p: seq<string>, q: seq<string>)
    ensures [name] + p <= [name] + q <==> p <= q
  {
    assert ([name] + p)[1..] == p && ([name] + q)[1..] == q;
    if [name] + p <= [name] + q {
      assert p == ([name] + q)[1..1 + |p|] == q[..|p|];
    }
  }

  /** Every path of a field list starts with one of its names. */
  lemma {:induction false} PathsStart(bs: seq<Member>, fs: seq<Member>)
    requires SameFields(bs, fs)
    ensures forall c :: c in FieldChanges(bs, fs) ==> |c.path| > 0 && exists m :: m in bs && m.name == c.path[0]
  {
    if |bs| > 0 {
      var n := |bs| - 1;
      PathsStart(bs[..n], fs[..n]);
      var u := Under(bs[n].name, Changes(bs[n].value, fs[n].value));
      forall c | c in FieldChanges(bs, fs) ensures |c.path| > 0 && exists m :: m in bs && m.name == c.path[0] {
        if c in u {
          assert c.path[0] == bs[n].name && bs[n] in bs;
        } else {
          var m :| m in bs[..n] && m.name == c.path[0];
          assert m in bs;
        }
      }
    }
  }

  /** The paths of a diff are pairwise distinct and none extends another. */
  lemma {:induction false} ChangesAntichain(base: Tree, actual: Tree)
    requires SameShape(base, actual) && Plain(base)
    ensures Antichain(Changes(base, actual))
    decreases base, 1
  {
    if !IsZero(base) && !IsZero(actual) {
      var b, a := Indirect(base), Indirect(actual);
      if b.Record? { FieldsAntichain(b.fields, a.fields); }
    }
  }

  lemma {:induction false} FieldsAntichain(bs: seq<Member>, fs: seq<Member>)
    requires SameFields(bs, fs)
    requires forall m :: m in bs ==> Plain(m.value)
    requires forall i, j :: 0 <= i < j < |bs| ==> bs[i].name != bs[j].name
    ensures Antichain(FieldChanges(bs, fs))
    decreases bs, 0
  {
    if |bs| > 0 {
      var n := |bs| - 1;
      var before, cs := FieldChanges(bs[..n], fs[..n]), Changes(bs[n].value, fs[n].value);
      FieldsAntichain(bs[..n], fs[..n]);
      ChangesAntichain(bs[n].value, fs[n].value);
      UnderAntichain(bs[n].name, cs);
      PathsStart(bs[..n], fs[..n]);
      forall i, j | 0 <= i < |before| && 0 <= j < |cs|
        ensures var u := Under(bs[n].name, cs)[j].path; !(before[i].path <= u) && !(u <= before[i].path)
      {
        assert before[i] in before;
        var m :| m in bs[..n] && m.name == before[i].path[0];
        assert m.name != bs[n].name;
      }
      AntichainAppend(before, Under(bs[n].name, cs));
    }
  }

  /** The segments of every path are identifiers. */
  ghost predicate Dotless(cs: seq<Change>) {
    forall c :: c in cs ==> forall s :: s in c.path ==> s != "" && '.' !in s
  }

  lemma {:induction false} ChangesDotless(base: Tree, actual: Tree)
    requires SameShape(base, actual) && Plain(base)
    ensures Dotless(Changes(base, actual))
    decreases base, 1
  {
    if !IsZero(base) && !IsZero(actual) {
      var b, a := Indirect(base), Indirect(actual);
      if b.Record? { FieldsDotless(b.fields, a.fields); }
    }
  }

  lemma {:induction false} FieldsDotless(bs: seq<Member>, fs: seq<Member>)
    requires SameFields(bs, fs)
    requires forall m :: m in bs ==> m.name != "" && '.' !in m.name && Plain(m.value)
    ensures Dotless(FieldChanges(bs, fs))
    decreases bs, 0
  {
    if |bs| > 0 {
      var n := |bs| - 1;
      FieldsDotless(bs[..n], fs[..n]);
      ChangesDotless(bs[n].value, fs[n].value);
      var cs := Changes(bs[n].value, fs[n].value);
      var u := Under(bs[n].name, cs);
      forall i | 0 <= i < |u| ensures forall s :: s in u[i].path ==> s != "" && '.' !in s {
        assert cs[i] in cs;
      }
    }
  }

  /** The path a reader gets back from a label. */
  function PathOf(text: string): seq<string> {
    if text == "" then [] else Split(text, '.')
  }

  /** Labels lose nothing: splitting a label gives the path. */
  lemma PathOfLabel(path: seq<string>)
    requires forall s :: s in path ==> s != "" && '.' !in s
    ensures PathOf(Label("", path)) == path
  {
    if |path| > 0 {
      SplitOfJoin(path, '.');
      assert path[0] != "";
    }
  }

  // ---- Replaying ---------------------------------------------------------

  /** A pointer field that gets a plain value keeps pointing; any other field is replaced. */
  function Assigned(t: Tree, v: Tree): Tree {
    if t.Ref? && !v.Ref? then Ref(t.ty, Some(v)) else v
  }

  function SetAt(t: Tree, path: seq<string>, v: Tree): Tree
    decreases t
  {
    if |path| == 0 then Assigned(t, v)
    else
      match t
      case Record(ty, fields) => Record(ty, SetField(fields, path, v))
      case Ref(ty, target) => if target.Some? then Ref(ty, Some(SetAt(target.value, path, v))) else t
      case Atom(_, _) => t
  }

  function SetField(fields: seq<Member>, path: seq<string>, v: Tree): seq<Member>
    requires |path| > 0
    decreases fields
  {
    if |fields| == 0 then []
    else
      var n := |fields| - 1;
      SetField(fields[..n], path, v)
      + [if fields[n].name == path[0] then Member(path[0], SetAt(fields[n].value, path[1..], v)) else fields[n]]
  }

  function Replay(t: Tree, cs: seq<Change>): Tree {
    if |cs| == 0 then t
    else
      var n := |cs| - 1;
      SetAt(Replay(t, cs[..n]), cs[n].path, cs[n].actual)
  }

  lemma {:induction false} ReplayAppend(t: Tree, a: seq<Change>, b: seq<Change>)
    ensures Replay(t, a + b) == Replay(Replay(t, a), b)
  {
    if |b| == 0 {
      assert a + b == a;
    } else {
      assert (a + b)[..|a + b| - 1] == a + b[..|b| - 1];
      ReplayAppend(t, a, b[..|b| - 1]);
    }
  }

  lemma {:induction false} SetFieldAt(fields: seq<Member>, k: nat, path: seq<string>, v: Tree)
    requires k < |fields| && |path| > 0 && fields[k].name == path[0]
    requires forall i, j :: 0 <= i < j < |fields| ==> fields[i].name != fields[j].name
    ensures SetField(fields, path, v) == fields[k := Member(path[0], SetAt(fields[k].value, path[1..], v))]
  {
    var n := |fields| - 1;
    if k < n {
      SetFieldAt(fields[..n], k, path, v);
      SetFieldBefore(fields, k, path, v);
    } else {
      SetFieldMissing(fields[..n], path, v);
      SetFieldLast(fields, path, v);
    }
  }

  lemma SetFieldBefore(fields: seq<Member>, k: nat, path: seq<string>, v: Tree)
    requires k < |fields| - 1 && |path| > 0 && fields[|fields| - 1].name != path[0]
    requires SetField(fields[..|fields| - 1], path, v)
      == fields[..|fields| - 1][k := Member(path[0], SetAt(fields[k].value, path[1..], v))]
    ensures SetField(fields, path, v) == fields[k := Member(path[0], SetAt(fields[k].value, path[1..], v))]
  {
    UpdateInit(fields, k, Member(path[0], SetAt(fields[k].value, path[1..], v)));
  }

  lemma SetFieldLast(fields: seq<Member>, path: seq<string>, v: Tree)
    requires |fields| > 0 && |path| > 0 && fields[|fields| - 1].name == path[0]
    requires SetField(fields[..|fields| - 1], path, v) == fields[..|fields| - 1]
    ensures SetField(fields, path, v)
      == fields[|fields| - 1 := Member(path[0], SetAt(fields[|fields| - 1].value, path[1..], v))]
  {
  }

  lemma UpdateInit(fields: seq<Member>, k: nat, m: Member)
    requires k < |fields| - 1
    ensures fields[k := m] == fields[..|fields| - 1][k := m] + [fields[|fields| - 1]]
  {
  }

  lemma {:induction false} SetFieldMissing(fields: seq<Member>, path: seq<string>, v: Tree)
    requires |path| > 0 && forall m :: m in fields ==> m.name != path[0]
    ensures SetField(fields, path, v) == fields
  {
    if |fields| > 0 {
      SetFieldMissing(fields[..|fields| - 1], path, v);
      assert fields == fields[..|fields| - 1] + [fields[|fields| - 1]];
    }
  }

  /** Replaying changes of one field happens inside that field. */
  lemma {:induction false} ReplayUnder(ty: string, fields: seq<Member>, k: nat, cs: seq<Change>)
    requires k < |fields|
    requires forall i, j :: 0 <= i < j < |fields| ==> fields[i].name != fields[j].name
    ensures Replay(Record(ty, fields), Under(fields[k].name, cs))
         == Record(ty, fields[k := Member(fields[k].name, Replay(fields[k].value, cs))])
  {
    var name := fields[k].name;
    if |cs| == 0 {
      assert fields[k := Member(name, fields[k].value)] == fields;
    } else {
      var n := |cs| - 1;
      ReplayUnder(ty, fields, k, cs[..n]);
      assert Under(name, cs)[..n] == Under(name, cs[..n]);
      var fields' := fields[k := Member(name, Replay(fields[k].value, cs[..n]))];
      SetFieldAt(fields', k, [name] + cs[n].path, cs[n].actual);
      assert ([name] + cs[n].path)[1..] == cs[n].path;
    }
  }

  lemma {:induction false} ReplayFields(ty: string, bs: seq<Member>, fs: seq<Member>, n: nat)
    requires SameFields(bs, fs) && n <= |bs|
    requires forall m :: m in bs ==> Plain(m.value)
    requires forall i, j :: 0 <= i < j < |bs| ==> bs[i].name != bs[j].name
    ensures Replay(Record(ty, bs), FieldChanges(bs[..n], fs[..n])) == Record(ty, fs[..n] + bs[n..])
    decreases bs, n
  {
    if n == 0 {
      assert fs[..0] + bs[0..] == bs;
    } else {
      var k := n - 1;
      ReplayFields(ty, bs, fs, k);
      assert bs[k] in bs;
      ReplayRebuilds(bs[k].value, fs[k].value);
      ReplayOneMore(ty, bs, fs, k);
    }
  }

  lemma ReplayOneMore(ty: string, bs: seq<Member>, fs: seq<Member>, k: nat)
    requires SameFields(bs, fs) && k < |bs|
    requires forall i, j :: 0 <= i < j < |bs| ==> bs[i].name != bs[j].name
    requires Replay(Record(ty, bs), FieldChanges(bs[..k], fs[..k])) == Record(ty, fs[..k] + bs[k..])
    requires Replay(bs[k].value, Changes(bs[k].value, fs[k].value)) == fs[k].value
    ensures Replay(Record(ty, bs), FieldChanges(bs[..k + 1], fs[..k + 1])) == Record(ty, fs[..k + 1] + bs[k + 1..])
  {
    FieldChangesSnoc(bs, fs, k);
    ReplayLast(ty, bs, fs, k, FieldChanges(bs[..k], fs[..k]), Changes(bs[k].value, fs[k].value));
  }

  lemma FieldChangesSnoc(bs: seq<Member>, fs: seq<Member>, k: nat)
    requires SameFields(bs, fs) && k < |bs|
    ensures FieldChanges(bs[..k + 1], fs[..k + 1])
         == FieldChanges(bs[..k], fs[..k]) + Under(bs[k].name, Changes(bs[k].value, fs[k].value))
  {
    assert bs[..k + 1][..k] == bs[..k] && fs[..k + 1][..k] == fs[..k];
  }

  lemma ReplayLast(ty: string, bs: seq<Member>, fs: seq<Member>, k: nat, before: seq<Change>, cs: seq<Change>)
    requires SameFields(bs, fs) && k < |bs|
    requires forall i, j :: 0 <= i < j < |bs| ==> bs[i].name != bs[j].name
    requires Replay(Record(ty, bs), before) == Record(ty, fs[..k] + bs[k..])
    requires Replay(bs[k].value, cs) == fs[k].value
    ensures Replay(Record(ty, bs), before + Under(bs[k].name, cs)) == Record(ty, fs[..k + 1] + bs[k + 1..])
  {
    var mid := fs[..k] + bs[k..];
    ReplayAppend(Record(ty, bs), before, Under(bs[k].name, cs));
    MixedNames(bs, fs, k);
    ReplayUnder(ty, mid, k, cs);
    assert Member(bs[k].name, fs[k].value) == fs[k];
    assert mid[k := fs[k]] == fs[..k + 1] + bs[k + 1..];
  }

  lemma MixedNames(bs: seq<Member>, fs: seq<Member>, k: nat)
    requires SameFields(bs, fs) && k < |bs|
    requires forall i, j :: 0 <= i < j < |bs| ==> bs[i].name != bs[j].name
    ensures var mid := fs[..k] + bs[k..];
      && |mid| == |bs| && mid[k] == bs[k]
      && forall i, j :: 0 <= i < j < |mid| ==> mid[i].name != mid[j].name
  {
    var mid := fs[..k] + bs[k..];
    assert forall i :: 0 <= i < |mid| ==> mid[i].name == bs[i].name;
  }

  lemma {:induction false} ReplayInside(ty: string, b: Tree, cs: seq<Change>)
    requires !b.Ref?
    requires forall c :: c in cs ==> !c.actual.Ref? || |c.path| > 0
    ensures Replay(Ref(ty, Some(b)), cs) == Ref(ty, Some(Replay(b, cs)))
    ensures !Replay(b, cs).Ref?
  {
    if |cs| > 0 {
      var n := |cs| - 1;
      assert cs[n] in cs;
      ReplayInside(ty, b, cs[..n]);
    }
  }

  /** Replay: setting every path of the diff to its new value turns `base` into `actual`. */
  lemma {:induction false} ReplayRebuilds(base: Tree, actual: Tree)
    requires SameShape(base, actual) && Plain(base)
    ensures Replay(base, Changes(base, actual)) == actual
    decreases base, |if base.Record? then base.fields else []| + 1
  {
    if IsZero(base) && IsZero(actual) {
      ZeroIsUnique(base, actual);
    } else if IsZero(base) || IsZero(actual) {
      var cs := [Change([], base, actual)];
      assert cs[..0] == [];
      assert Replay(base, cs) == Assigned(base, actual);
    } else if base.Ref? {
      var b, a := base.target.value, actual.target.value;
      ReplayInner(b, a);
      InnerValues(b, a);
      ReplayInside(base.ty, b, Inner(b, a));
    } else {
      ReplayInner(base, actual);
    }
  }

  lemma {:induction false} ReplayInner(b: Tree, a: Tree)
    requires SameShape(b, a) && Plain(b) && !b.Ref?
    ensures Replay(b, Inner(b, a)) == a
    decreases b, |if b.Record? then b.fields else []|, 1
  {
    if b.Record? {
      var n := |b.fields|;
      ReplayFields(b.ty, b.fields, a.fields, n);
      assert b.fields[..n] == b.fields && a.fields[..n] == a.fields;
      assert a.fields[..n] + b.fields[n..] == a.fields;
    } else if b != a {
      assert [Change([], b, a)][..0] == [];
    }
  }

  lemma InnerValues(b: Tree, a: Tree)
    requires SameShape(b, a) && !b.Ref?
    ensures forall c :: c in Inner(b, a) ==> !c.actual.Ref? || |c.path| > 0
  {
    if b.Record? { PathsStart(b.fields, a.fields); }
  }

  // ---- Where the changes are ---------------------------------------------

  /** Two values, neither of them zero, that are structs or point to structs. */
  predicate BothStructs(base: Tree, actual: Tree) {
    !IsZero(base) && !IsZero(actual) && Indirect(base).Record? && Indirect(actual).Record?
  }

  /** The path leads through structs that are there in both values to the parts `b` and `a`. */
  ghost predicate Located(base: Tree, actual: Tree, path: seq<string>, b: Tree, a: Tree)
    decreases |path|
  {
    if |path| == 0 then b == base && a == actual
    else
      && BothStructs(base, actual)
      && exists i :: LocatedIn(Indirect(base).fields, Indirect(actual).fields, i, path, b, a)
  }

  ghost predicate LocatedIn(bs: seq<Member>, fs: seq<Member>, i: int, path: seq<string>, b: Tree, a: Tree)
    requires |path| > 0
    decreases |path|, 0
  {
    && 0 <= i < |bs| && i < |fs| && bs[i].name == path[0]
    && Located(bs[i].value, fs[i].value, path[1..], b, a)
  }

  /** How two parts are reported: as they are if exactly one of them is zero; without their
      pointers if they are no structs and differ. */
  ghost predicate Reported(b: Tree, a: Tree, base: Tree, actual: Tree) {
    || (IsZero(b) != IsZero(a) && base == b && actual == a)
    || (!IsZero(b) && !IsZero(a) && !Indirect(b).Record? && Indirect(b) != Indirect(a)
        && base == Indirect(b) && actual == Indirect(a))
  }

  /** The parts at the path of the change are reported. */
  ghost predicate IsChange(base: Tree, actual: Tree, c: Change) {
    exists b, a :: Located(base, actual, c.path, b, a) && Reported(b, a, c.base, c.actual)
  }

  lemma IsChangeUnder(bs: seq<Member>, fs: seq<Member>, base: Tree, actual: Tree, c: Change)
    requires BothStructs(base, actual) && bs == Indirect(base).fields && fs == Indirect(actual).fields
    requires |bs| == |fs| && |c.path| > 0
    ensures IsChange(base, actual, c) <==> exists i :: 0 <= i < |bs| && FieldChange(bs[i], fs[i], c)
  {
    if IsChange(base, actual, c) {
      var b, a :| Located(base, actual, c.path, b, a) && Reported(b, a, c.base, c.actual);
      var i := LocatedField(base, actual, c.path, b, a);
      assert FieldChange(bs[i], fs[i], c);
    }
    if i :| 0 <= i < |bs| && FieldChange(bs[i], fs[i], c) {
      var b, a :| Located(bs[i].value, fs[i].value, c.path[1..], b, a) && Reported(b, a, c.base, c.actual);
      assert LocatedIn(bs, fs, i, c.path, b, a);
      assert Located(base, actual, c.path, b, a);
    }
  }

  lemma LocatedField(base: Tree, actual: Tree, path: seq<string>, b: Tree, a: Tree) returns (i: int)
    requires |path| > 0 && Located(base, actual, path, b, a)
    ensures BothStructs(base, actual) && LocatedIn(Indirect(base).fields, Indirect(actual).fields, i, path, b, a)
  {
    i :| LocatedIn(Indirect(base).fields, Indirect(actual).fields, i, path, b, a);
  }

  ghost predicate FieldChange(b: Member, f: Member, c: Change) {
    |c.path| > 0 && b.name == c.path[0] && IsChange(b.value, f.value, Change(c.path[1..], c.base, c.actual))
  }

  lemma InFields(bs: seq<Member>, fs: seq<Member>, c: Change)
    requires SameFields(bs, fs) && |bs| > 0
    ensures var n := |bs| - 1;
      c in FieldChanges(bs, fs) <==>
        c in FieldChanges(bs[..n], fs[..n]) || c in Under(bs[n].name, Changes(bs[n].value, fs[n].value))
  {
  }

  lemma InUnder(name: string, cs: seq<Change>, c: Change)
    ensures c in Under(name, cs) <==>
      |c.path| > 0 && c.path[0] == name && Change(c.path[1..], c.base, c.actual) in cs
  {
    var u := Under(name, cs);
    if i :| 0 <= i < |u| && u[i] == c { assert c.path[1..] == cs[i].path && cs[i] in cs; }
    if |c.path| > 0 && c.path[0] == name && Change(c.path[1..], c.base, c.actual) in cs {
      var i :| 0 <= i < |cs| && cs[i] == Change(c.path[1..], c.base, c.actual);
      assert [name] + c.path[1..] == c.path;
      assert u[i] == c;
    }
  }

  lemma {:induction false} FieldChangesIff(bs: seq<Member>, fs: seq<Member>, c: Change)
    requires SameFields(bs, fs) && forall m :: m in bs ==> Plain(m.value)
    ensures c in FieldChanges(bs, fs) <==> exists i :: 0 <= i < |bs| && FieldChange(bs[i], fs[i], c)
    decreases bs, 0
  {
    if |bs| > 0 {
      var n := |bs| - 1;
      FieldChangesIff(bs[..n], fs[..n], c);
      InFields(bs, fs, c);
      InUnder(bs[n].name, Changes(bs[n].value, fs[n].value), c);
      assert bs[n] in bs;
      if |c.path| > 0 { ChangesIff(bs[n].value, fs[n].value, Change(c.path[1..], c.base, c.actual)); }
      assert forall i :: 0 <= i < n ==> bs[..n][i] == bs[i] && fs[..n][i] == fs[i];
    }
  }

  /** Where the changes are, exactly: at the paths through structs that are there in both values,
      to parts of which one is zero and the other is not, or which are no structs and differ.  So
      a changed field is named by itself, and not by a struct around it. */
  lemma {:induction false} ChangesIff(base: Tree, actual: Tree, c: Change)
    requires SameShape(base, actual) && Plain(base)
    ensures c in Changes(base, actual) <==> IsChange(base, actual, c)
    decreases base, 1
  {
    if BothStructs(base, actual) {
      var b, a := Indirect(base), Indirect(actual);
      FieldChangesIff(b.fields, a.fields, c);
      if |c.path| > 0 {
        IsChangeUnder(b.fields, a.fields, base, actual, c);
      } else {
        assert !IsChange(base, actual, c);
      }
    } else {
      WholeChange(base, actual, c);
    }
  }

  lemma WholeChange(base: Tree, actual: Tree, c: Change)
    requires SameShape(base, actual) && Plain(base) && !BothStructs(base, actual)
    ensures c in Changes(base, actual) <==> IsChange(base, actual, c)
    ensures IsChange(base, actual, c) <==> c.path == [] && Reported(base, actual, c.base, c.actual)
  {
    if c.path == [] && Reported(base, actual, c.base, c.actual) { assert Located(base, actual, c.path, base, actual); }
    if IsZero(base) == IsZero(actual) == false {
      assert !Indirect(base).Record? && !Indirect(actual).Record?;
    }
  }

  // ---- The diff as a reader sees it --------------------------------------

  /** A list of entries replayed on a value through their labels. */
  function ReplayEntries(t: Tree, entries: seq<Entry>): Tree {
    if |entries| == 0 then t
    else
      var n := |entries| - 1;
      SetAt(ReplayEntries(t, entries[..n]), PathOf(entries[n].path), entries[n].actual)
  }

  lemma {:induction false} ReplayLabelled(t: Tree, cs: seq<Change>)
    requires Dotless(cs)
    ensures ReplayEntries(t, Labelled("", cs)) == Replay(t, cs)
  {
    if |cs| > 0 {
      var n := |cs| - 1;
      ReplayLabelled(t, cs[..n]);
      assert Labelled("", cs)[..n] == Labelled("", cs[..n]);
      assert cs[n] in cs;
      PathOfLabel(cs[n].path);
    }
  }

  /** The correctness of `Diff` on two configurations of one type: it succeeds; it is empty
      exactly for equal configurations; its labels are distinct and none extends another;
      replaying it on `base` rebuilds `actual`; it has one entry for each part that differs; and
      the diff the other way round has the same labels with the values exchanged. */
  lemma DiffCorrect(base: Tree, actual: Tree)
    requires SameShape(base, actual) && Plain(base) && Plain(actual)
    ensures Diff(base, actual, "").Some? && Diff(actual, base, "").Some?
    ensures var d := Diff(base, actual, "").value;
      && (d == [] <==> base == actual)
      && (forall i, j :: 0 <= i < |d| && 0 <= j < |d| && i != j ==> !(PathOf(d[i].path) <= PathOf(d[j].path)))
      && ReplayEntries(base, d) == actual
      && (forall entry :: entry in d <==>
            exists c :: IsChange(base, actual, c) && entry == Entry(Label("", c.path), c.base, c.actual))
    ensures var d, e := Diff(base, actual, "").value, Diff(actual, base, "").value;
      |d| == |e| && forall i :: 0 <= i < |d| ==> e[i] == Entry(d[i].path, d[i].actual, d[i].base)
  {
    var cs := Changes(base, actual);
    SwapSwaps(base, actual);
    DiffIsChanges(base, actual, "");
    DiffIsChanges(actual, base, "");
    NoChangesIffEqual(base, actual);
    ChangesAntichain(base, actual);
    ChangesDotless(base, actual);
    LabelAntichain(cs);
    ReplayRebuilds(base, actual);
    ReplayLabelled(base, cs);
    LabelledChanges(base, actual);
  }

  /** The labelled entries are those of the changes. */
  lemma LabelledChanges(base: Tree, actual: Tree)
    requires SameShape(base, actual) && Plain(base)
    ensures forall entry :: entry in Labelled("", Changes(base, actual)) <==>
      exists c :: IsChange(base, actual, c) && entry == Entry(Label("", c.path), c.base, c.actual)
  {
    var cs := Changes(base, actual);
    var d := Labelled("", cs);
    forall c ensures c in cs <==> IsChange(base, actual, c) { ChangesIff(base, actual, c); }
    forall entry | entry in d
      ensures exists c :: IsChange(base, actual, c) && entry == Entry(Label("", c.path), c.base, c.actual)
    {
      var i :| 0 <= i < |d| && d[i] == entry;
      assert cs[i] in cs;
    }
    forall c | IsChange(base, actual, c) ensures Entry(Label("", c.path), c.base, c.actual) in d {
      var i :| 0 <= i < |cs| && cs[i] == c;
      assert d[i] == Entry(Label("", c.path), c.base, c.actual);
    }
  }

  /** If no path extends another, no label does. */
  lemma LabelAntichain(cs: seq<Change>)
    requires Dotless(cs)
    requires forall i, j :: 0 <= i < |cs| && 0 <= j < |cs| && i != j ==> !(cs[i].path <= cs[j].path)
    ensures var d := Labelled("", cs);
      |d| == |cs| && forall i, j :: 0 <= i < |d| && 0 <= j < |d| && i != j ==> !(PathOf(d[i].path) <= PathOf(d[j].path))
  {
    var d := Labelled("", cs);
    forall i | 0 <= i < |cs| ensures PathOf(d[i].path) == cs[i].path {
      assert cs[i] in cs;
      PathOfLabel(cs[i].path);
    }
  }
}
