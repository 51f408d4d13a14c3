/** The Configurations table of the database store: persisting with checksum skip, loading
    the active row, and cleaning up old rows. */
module ConfigTable {
  import opened Options

  /** `active` is false for NULL; `sha` is blank for rows older than the checksum column. */
  datatype Row = Row(id: string, value: string, createAt: int, active: bool, sha: string)

  const KEPT := 5

  function Ids(rows: seq<Row>): set<string> {
    set r | r in rows :: r.id
  }

  /** `UPDATE Configurations SET Active = NULL WHERE Active`. */
  function Deactivated(rows: seq<Row>): (r: seq<Row>)
    ensures |r| == |rows|
    ensures forall i :: 0 <= i < |r| ==> r[i] == rows[i].(active := false)
  {
    seq(|rows|, i requires 0 <= i < |rows| => rows[i].(active := false))
  }

  function ActiveRow(rows: seq<Row>): (r: Option<Row>)
    ensures r.Some? ==> r.value in rows && r.value.active
    ensures r.None? ==> forall q :: q in rows ==> !q.active
  {
    if |rows| == 0 then None
    else if rows[0].active then Some(rows[0])
    else ActiveRow(rows[1..])
  }

  /** The active configuration already has this checksum. */
  predicate SameChecksum(hash: string -> string, rows: seq<Row>, value: string) {
    ActiveRow(rows).Some? && ActiveRow(rows).value.sha == hash(value)
  }

  function Inserted(hash: string -> string, rows: seq<Row>, id: string, value: string, now: int): seq<Row> {
    Deactivated(rows) + [Row(id, value, now, true, hash(value))]
  }

  /** Rows that survive: not old, or active, or among the newest. */
  predicate Survives(newest: set<string>, threshold: int, r: Row) {
    r.createAt >= threshold || r.active || r.id in newest
  }

  function Cleaned(rows: seq<Row>, newest: set<string>, threshold: int): seq<Row> {
    if |rows| == 0 then []
    else
      var n := |rows| - 1;
      Cleaned(rows[..n], newest, threshold) + (if Survives(newest, threshold, rows[n]) then [rows[n]] else [])
  }

  class DatabaseStore {
    const hash: string -> string
    const fallback: string
    var rows: seq<Row>

    constructor (hash: string -> string, fallback: string)
      ensures rows == [] && this.hash == hash && this.fallback == fallback
    {
      this.hash, this.fallback, rows := hash, fallback, [];
    }

    /** `persist`: skipped if the checksum is unchanged, rolled back if the commit fails. */
    method Set(id: string, value: string, now: int, commits: bool) returns (ok: bool)
      modifies this
      ensures (rows, ok) == SetStep(hash, old(rows), id, value, now, commits)
      ensures rows == old(rows) ||
        (|rows| == |old(rows)| + 1 && rows[|old(rows)|] == Row(id, value, now, true, hash(value))
        && forall i :: 0 <= i < |old(rows)| ==> rows[i] == old(rows)[i].(active := false))
    {
      var active := ActiveRow(rows);
      if active.Some? && active.value.sha == hash(value) {
        return true;
      }
      var tx := Deactivated(rows);
      tx := tx + [Row(id, value, now, true, hash(value))];
      if !commits {
        return false;
      }
      rows := tx;
      ok := true;
    }

    /** The active configuration, or the initial one if none is stored. */
    method Load() returns (value: string)
      ensures value == Loaded(fallback, rows)
      ensures (forall r :: r in rows ==> !r.active) ==> value == fallback
    {
      var active := ActiveRow(rows);
      value := if active.None? || active.value.value == "" then fallback else active.value.value;
    }

    /** `newest` is the answer of the subquery, ties broken by the database. */
    method CleanUp(threshold: int, newest: set<string>)
      requires IsNewest(rows, newest)
      modifies this
      ensures rows == Cleaned(old(rows), newest, threshold)
      ensures forall r :: r in rows <==>
        r in old(rows) && (r.createAt >= threshold || r.active || r.id in newest)
    {
      var kept: seq<Row> := [];
      for i := 0 to |rows|
        invariant rows == old(rows)
        invariant kept == Cleaned(rows[..i], newest, threshold)
      {
        assert rows[..i + 1][..i] == rows[..i];
        var r := rows[i];
        if !(r.createAt < threshold && !r.active && r.id !in newest) {
          kept := kept + [r];
        }
      }
      assert rows[..|rows|] == rows;
      CleanedRows(rows, newest, threshold);
      rows := kept;
    }
  }

  function SetStep(hash: string -> string, rows: seq<Row>, id: string, value: string, now: int, commits: bool)
    : (seq<Row>, bool)
  {
    if SameChecksum(hash, rows, value) then (rows, true)
    else if !commits then (rows, false)
    else (Inserted(hash, rows, id, value, now), true)
  }

  function Loaded(fallback: string, rows: seq<Row>): string {
    if ActiveRow(rows).None? || ActiveRow(rows).value.value == "" then fallback else ActiveRow(rows).value.value
  }

  // ---- Invariant ---------------------------------------------------------

  ghost predicate DistinctIds(rows: seq<Row>) {
    forall i, j :: 0 <= i < j < |rows| ==> rows[i].id != rows[j].id
  }

  ghost predicate OneActiveAtMost(rows: seq<Row>) {
    forall i, j :: 0 <= i < j < |rows| ==> !(rows[i].active && rows[j].active)
  }

  ghost predicate Inv(hash: string -> string, rows: seq<Row>) {
    && DistinctIds(rows) && OneActiveAtMost(rows)
    && forall r :: r in rows && r.active ==> r.sha == "" || r.sha == hash(r.value)
  }

  lemma {:induction false} TheActiveRow(rows: seq<Row>, r: Row)
    requires OneActiveAtMost(rows) && r in rows && r.active
    ensures ActiveRow(rows) == Some(r)
  {
    if !rows[0].active {
      assert r in rows[1..];
      TheActiveRow(rows[1..], r);
    } else {
      var i :| 0 <= i < |rows| && rows[i] == r;
      assert i == 0;
    }
  }

  lemma InsertedKeeps(hash: string -> string, rows: seq<Row>, id: string, value: string, now: int)
    requires Inv(hash, rows) && id !in Ids(rows)
    ensures var r := Inserted(hash, rows, id, value, now);
      Inv(hash, r) && ActiveRow(r) == Some(Row(id, value, now, true, hash(value)))
  {
    var r := Inserted(hash, rows, id, value, now);
    forall i | 0 <= i < |rows| ensures rows[i].id != id {
      assert rows[i] in rows;
    }
    var last := Row(id, value, now, true, hash(value));
    assert r[|rows|] == last;
    TheActiveRow(r, last);
  }

  // ---- Cleaning up -------------------------------------------------------

  /** An answer of the subquery: five rows, or all if there are fewer, none of them older
      than a row left out. */
  ghost predicate IsNewest(rows: seq<Row>, newest: set<string>) {
    && newest <= Ids(rows)
    && |newest| == (if |Ids(rows)| < KEPT then |Ids(rows)| else KEPT)
    && forall r, q :: r in rows && q in rows && r.id in newest && q.id !in newest ==> r.createAt >= q.createAt
  }

  lemma {:induction false} CleanedRows(rows: seq<Row>, newest: set<string>, threshold: int)
    ensures forall r :: r in Cleaned(rows, newest, threshold) <==> r in rows && Survives(newest, threshold, r)
  {
    if |rows| > 0 {
      var n := |rows| - 1;
      CleanedRows(rows[..n], newest, threshold);
      InSnoc(rows[..n], rows[n]);
      assert rows == rows[..n] + [rows[n]];
    }
  }

  lemma InSnoc(rows: seq<Row>, last: Row)
    ensures forall r :: r in rows + [last] <==> r in rows || r == last
  {
  }

  lemma {:induction false} CleanedKeeps(rows: seq<Row>, newest: set<string>, threshold: int)
    ensures DistinctIds(rows) ==> DistinctIds(Cleaned(rows, newest, threshold))
    ensures OneActiveAtMost(rows) ==> OneActiveAtMost(Cleaned(rows, newest, threshold))
  {
    if |rows| > 0 {
      var n := |rows| - 1;
      CleanedKeeps(rows[..n], newest, threshold);
      CleanedRows(rows[..n], newest, threshold);
      SnocKeeps(rows, n, Cleaned(rows[..n], newest, threshold));
    }
  }

  lemma SnocKeeps(rows: seq<Row>, n: nat, c: seq<Row>)
    requires |rows| == n + 1 && forall r :: r in c ==> r in rows[..n]
    ensures DistinctIds(rows) && DistinctIds(c) ==> DistinctIds(c + [rows[n]])
    ensures OneActiveAtMost(rows) && OneActiveAtMost(c) ==> OneActiveAtMost(c + [rows[n]])
  {
    forall i | 0 <= i < |c|
      ensures DistinctIds(rows) ==> c[i].id != rows[n].id
      ensures OneActiveAtMost(rows) ==> !(c[i].active && rows[n].active)
    {
      assert c[i] in c;
      var j :| 0 <= j < n && rows[..n][j] == c[i];
      assert rows[j] == c[i];
    }
  }

  /** What a cleanup may remove: only inactive rows older than the threshold, and only rows
      that five others are at least as new as.  At least five rows stay, if there were. */
  lemma CleanUpSafe(rows: seq<Row>, newest: set<string>, threshold: int)
    requires DistinctIds(rows) && IsNewest(rows, newest)
    ensures var c := Cleaned(rows, newest, threshold);
      && (forall r :: r in c <==> r in rows && (r.createAt >= threshold || r.active || r.id in newest))
      && newest <= Ids(c)
      && forall r :: r in rows && r !in c ==>
           !r.active && r.createAt < threshold && |newest| == KEPT
           && forall q :: q in rows && q.id in newest ==> q.id != r.id && q.createAt >= r.createAt
  {
    var c := Cleaned(rows, newest, threshold);
    CleanedRows(rows, newest, threshold);
    forall id | id in newest ensures id in Ids(c) {
      var r :| r in rows && r.id == id;
      assert r in c;
    }
    forall r | r in rows && r !in c ensures |newest| == KEPT {
      ProperSubset(newest, Ids(rows), r.id);
    }
  }

  lemma ProperSubset(a: set<string>, b: set<string>, x: string)
    requires a <= b && x in b && x !in a
    ensures |a| < |b|
  {
    SmallerSet(a, b - {x});
  }

  lemma {:induction false} SmallerSet(a: set<string>, b: set<string>)
    requires a <= b
    ensures |a| <= |b|
    decreases |b|
  {
    if x :| x in a { SmallerSet(a - {x}, b - {x}); }
  }

  // ---- Runs --------------------------------------------------------------

  datatype Op =
    | Set(id: string, value: string, now: int, commits: bool)
    | CleanUp(threshold: int, newest: set<string>)

  ghost function Run(hash: string -> string, rows: seq<Row>, ops: seq<Op>): seq<Row> {
    if |ops| == 0 then rows
    else
      var before := Run(hash, rows, ops[..|ops| - 1]);
      match ops[|ops| - 1]
      case Set(id, value, now, commits) => SetStep(hash, before, id, value, now, commits).0
      case CleanUp(threshold, newest) => Cleaned(before, newest, threshold)
  }

  /** New ids are unused and the database answers its subquery. */
  ghost predicate Possible(hash: string -> string, rows: seq<Row>, ops: seq<Op>) {
    |ops| == 0 ||
    (Possible(hash, rows, ops[..|ops| - 1])
     && var before := Run(hash, rows, ops[..|ops| - 1]);
        match ops[|ops| - 1]
        case Set(id, value, _, _) => id !in Ids(before) && value != ""
        case CleanUp(_, newest) => IsNewest(before, newest))
  }

  /** The value of the last successful `Set`. */
  ghost function LastSet(hash: string -> string, rows: seq<Row>, ops: seq<Op>): Option<string> {
    if |ops| == 0 then None
    else
      var op := ops[|ops| - 1];
      var before := Run(hash, rows, ops[..|ops| - 1]);
      if op.Set? && SetStep(hash, before, op.id, op.value, op.now, op.commits).1 then Some(op.value)
      else LastSet(hash, rows, ops[..|ops| - 1])
  }

  lemma {:induction false} RunKeepsInv(hash: string -> string, rows: seq<Row>, ops: seq<Op>)
    requires Inv(hash, rows) && Possible(hash, rows, ops)
    ensures Inv(hash, Run(hash, rows, ops))
  {
    if |ops| > 0 {
      var before := Run(hash, rows, ops[..|ops| - 1]);
      RunKeepsInv(hash, rows, ops[..|ops| - 1]);
      match ops[|ops| - 1]
      case Set(id, value, now, _) => InsertedKeeps(hash, before, id, value, now);
      case CleanUp(threshold, newest) => CleanedKeepsActive(hash, before, newest, threshold);
    }
  }

  /** The checksum that the next `Set` is compared with: that of the last successful `Set`, or
      the one found in the table at the start. */
  ghost function LastSha(hash: string -> string, rows: seq<Row>, ops: seq<Op>): Option<string> {
    if LastSet(hash, rows, ops).Some? then Some(hash(LastSet(hash, rows, ops).value))
    else if ActiveRow(rows).Some? then Some(ActiveRow(rows).value.sha)
    else None
  }

  ghost function LastValue(hash: string -> string, rows: seq<Row>, ops: seq<Op>): Option<string> {
    if LastSet(hash, rows, ops).Some? then LastSet(hash, rows, ops)
    else if ActiveRow(rows).Some? then Some(ActiveRow(rows).value.value)
    else None
  }

  lemma {:induction false} RunSha(hash: string -> string, rows: seq<Row>, ops: seq<Op>)
    requires Inv(hash, rows) && Possible(hash, rows, ops)
    ensures var now := Run(hash, rows, ops);
      if LastSet(hash, rows, ops).None? then ActiveRow(now) == ActiveRow(rows)
      else ActiveRow(now).Some? && Some(ActiveRow(now).value.sha) == LastSha(hash, rows, ops)
  {
    if |ops| > 0 {
      var before := Run(hash, rows, ops[..|ops| - 1]);
      RunSha(hash, rows, ops[..|ops| - 1]);
      RunKeepsInv(hash, rows, ops[..|ops| - 1]);
      match ops[|ops| - 1]
      case Set(id, value, now, _) => InsertedKeeps(hash, before, id, value, now);
      case CleanUp(threshold, newest) => CleanedKeepsActive(hash, before, newest, threshold);
    }
  }

  /** The active row holds what a caller expects: the last value that was set successfully, or
      what was there at the start. */
  ghost predicate Shows(hash: string -> string, rows: seq<Row>, ops: seq<Op>) {
    var now, expected := Run(hash, rows, ops), LastValue(hash, rows, ops);
    if expected.None? then ActiveRow(now) == None
    else ActiveRow(now).Some? && ActiveRow(now).value.value == expected.value
  }

  ghost predicate AlwaysShows(hash: string -> string, rows: seq<Row>, ops: seq<Op>) {
    Shows(hash, rows, ops) && (|ops| > 0 ==> AlwaysShows(hash, rows, ops[..|ops| - 1]))
  }

  /** The value has the checksum, but is not the value, of what was set last. */
  ghost predicate Clashes(hash: string -> string, rows: seq<Row>, before: seq<Op>, value: string) {
    LastSha(hash, rows, before) == Some(hash(value)) && LastValue(hash, rows, before) != Some(value)
  }

  /** No `Set` of the run has the checksum, but not the value, of what was set before it. */
  ghost predicate NoClash(hash: string -> string, rows: seq<Row>, ops: seq<Op>) {
    |ops| == 0 ||
    var before, op := ops[..|ops| - 1], ops[|ops| - 1];
    && NoClash(hash, rows, before)
    && (op.Set? ==> !Clashes(hash, rows, before, op.value))
  }

  /** Collisions, exactly: over any interleaving of complete sets and cleanups, successful or
      not, the active row always holds the last value that was set if and only if no `Set`
      collides with the value set before it.  At the first collision the new value is taken
      for the old one, reported as stored, and lost. */
  lemma {:induction false} LastValueIff(hash: string -> string, rows: seq<Row>, ops: seq<Op>)
    requires Inv(hash, rows) && Possible(hash, rows, ops)
    ensures AlwaysShows(hash, rows, ops) <==> NoClash(hash, rows, ops)
  {
    if |ops| > 0 {
      LastValueIff(hash, rows, ops[..|ops| - 1]);
      if AlwaysShows(hash, rows, ops[..|ops| - 1]) { StepShowsIff(hash, rows, ops); }
    }
  }

  lemma StepShowsIff(hash: string -> string, rows: seq<Row>, ops: seq<Op>)
    requires Inv(hash, rows) && Possible(hash, rows, ops) && |ops| > 0
    requires Shows(hash, rows, ops[..|ops| - 1])
    ensures var before, op := ops[..|ops| - 1], ops[|ops| - 1];
      Shows(hash, rows, ops) <==> (op.Set? ==> !Clashes(hash, rows, before, op.value))
  {
    var before, op := ops[..|ops| - 1], ops[|ops| - 1];
    var table := Run(hash, rows, before);
    RunSha(hash, rows, before);
    RunKeepsInv(hash, rows, before);
    match op
    case Set(id, value, now, commits) =>
      assert SameChecksum(hash, table, value) <==> LastSha(hash, rows, before) == Some(hash(value));
      InsertedKeeps(hash, table, id, value, now);
    case CleanUp(threshold, newest) =>
      CleanedKeepsActive(hash, table, newest, threshold);
  }

  /** Two texts with one checksum, set one after the other: the second is reported as stored,
      and the first is what is loaded. */
  lemma CollisionLosesValue(hash: string -> string, fallback: string, id: string, id': string, v: string, v': string)
    requires v != "" && v' != "" && v != v' && hash(v) == hash(v')
    ensures var first := SetStep(hash, [], id, v, 0, true); var second := SetStep(hash, first.0, id', v', 1, true);
      second.1 && Loaded(fallback, second.0) == v
  {
    InsertedKeeps(hash, [], id, v, 0);
  }

  /** The texts that occur in a run. */
  ghost function Values(rows: seq<Row>, ops: seq<Op>): set<string> {
    if |ops| == 0 then set r | r in rows :: r.value
    else Values(rows, ops[..|ops| - 1]) + (if ops[|ops| - 1].Set? then {ops[|ops| - 1].value} else {})
  }

  /** The checksum is never blank and tells the values apart. */
  ghost predicate CollisionFree(hash: string -> string, values: set<string>) {
    && (forall v :: v in values ==> hash(v) != "")
    && forall v, v' :: v in values && v' in values && hash(v) == hash(v') ==> v == v'
  }

  lemma {:induction false} LastValueOccurs(hash: string -> string, rows: seq<Row>, ops: seq<Op>)
    requires Inv(hash, rows)
    ensures LastValue(hash, rows, ops).Some? ==> LastValue(hash, rows, ops).value in Values(rows, ops)
    ensures LastSha(hash, rows, ops).Some? ==>
      && LastValue(hash, rows, ops).Some?
      && LastSha(hash, rows, ops).value in {"", hash(LastValue(hash, rows, ops).value)}
  {
    if |ops| > 0 {
      LastValueOccurs(hash, rows, ops[..|ops| - 1]);
    } else if ActiveRow(rows).Some? {
      assert ActiveRow(rows).value in rows;
    }
  }

  lemma {:induction false} NoCollisionNoClash(hash: string -> string, rows: seq<Row>, ops: seq<Op>, values: set<string>)
    requires Inv(hash, rows) && CollisionFree(hash, values) && Values(rows, ops) <= values
    ensures NoClash(hash, rows, ops)
  {
    if |ops| > 0 {
      NoCollisionNoClash(hash, rows, ops[..|ops| - 1], values);
      LastValueOccurs(hash, rows, ops[..|ops| - 1]);
    }
  }

  /** If the checksum tells the texts of the run apart: at most one row is active; and once a
      `Set` succeeded exactly one is, it holds the value of the last successful `Set`, and
      that is what `Load` returns. */
  lemma RunInvariant(hash: string -> string, fallback: string, rows: seq<Row>, ops: seq<Op>)
    requires Inv(hash, rows) && Possible(hash, rows, ops) && CollisionFree(hash, Values(rows, ops))
    ensures Inv(hash, Run(hash, rows, ops))
    ensures var now, last := Run(hash, rows, ops), LastSet(hash, rows, ops);
      if last.None? then ActiveRow(now) == ActiveRow(rows)
      else ActiveRow(now).Some? && ActiveRow(now).value.value == last.value && Loaded(fallback, now) == last.value
  {
    RunKeepsInv(hash, rows, ops);
    RunSha(hash, rows, ops);
    NoCollisionNoClash(hash, rows, ops, Values(rows, ops));
    LastValueIff(hash, rows, ops);
    LastSetNonEmpty(hash, rows, ops);
  }

  lemma {:induction false} LastSetNonEmpty(hash: string -> string, rows: seq<Row>, ops: seq<Op>)
    requires Possible(hash, rows, ops)
    ensures LastSet(hash, rows, ops).Some? ==> LastSet(hash, rows, ops).value != ""
  {
    if |ops| > 0 { LastSetNonEmpty(hash, rows, ops[..|ops| - 1]); }
  }

  lemma CleanedKeepsActive(hash: string -> string, rows: seq<Row>, newest: set<string>, threshold: int)
    requires Inv(hash, rows)
    ensures Inv(hash, Cleaned(rows, newest, threshold))
    ensures ActiveRow(Cleaned(rows, newest, threshold)) == ActiveRow(rows)
  {
    var c := Cleaned(rows, newest, threshold);
    CleanedRows(rows, newest, threshold);
    CleanedKeeps(rows, newest, threshold);
    if ActiveRow(rows).Some? {
      TheActiveRow(c, ActiveRow(rows).value);
    } else {
      assert forall r :: r in c ==> !r.active;
    }
  }
}
