/** Installations that meet the assumptions of the run theorems, and the failures that the exact
    conditions describe. */
module StoreWitness {
  import opened Options
  import opened ConfigModel
  import opened StoreModel
  import opened StoreRuns
  import opened Environment
  import Env = Overlay
  import Repair = ConfigRepair
  import Masking = Desanitize

  // ---- The installation --------------------------------------------------

  /** An installation without its environment.  While the switch at `metrics` is on, `SetDefaults`
      sees to a state of the metrics plugin at `states`. */
  datatype Blueprint = Blueprint(
    at: Repair.Layout, schema: Type, masks: Masking.Masks, defaults: Config, flags: set<Path>,
    metrics: Path, states: Path, plugin: string)

  function Present(b: Blueprint, c: Config, q: Path): Value {
    if q in c then c[q] else if q in b.defaults then b.defaults[q] else Flag(false)
  }

  function WithState(plugin: string, t: Plugins): Plugins {
    if plugin in t then t else t[plugin := map["Enable" := Some("true")]]
  }

  /** What `SetDefaults` makes of a setting: it fills in what is missing, adds the plugin state,
      and replaces an empty file directory. */
  function DefaultLeaf(b: Blueprint, c: Config, q: Path): Value {
    var v := Present(b, c, q);
    if q == b.states && v.Table? && Present(b, c, b.metrics) == Flag(true) then Table(WithState(b.plugin, v.plugins))
    else if q == b.at.directory && v == Str("") then Present(b, map[], q)
    else v
  }

  function Defaulted(b: Blueprint, c: Config): Config {
    map q | q in b.defaults :: DefaultLeaf(b, c, q)
  }

  /** One variable is set, the canonical one of `p`; everything is valid. */
  function Installation(b: Blueprint, p: Path, value: string): Setup {
    Setup(
      Env.World(b.schema, map["MM_" + CanonicalKey(p) := value], text => None),
      Repair.Rules(b.at, {"en"}, text => text, map[]),
      b.masks, b.defaults.Keys, b.flags, c => Defaulted(b, c), c => true, c => true)
  }

  /** What makes an installation lawful, apart from its one variable. */
  ghost predicate Suits(b: Blueprint) {
    && Repair.Separate(b.at) && Masking.Separate(b.masks)
    && b.schema.Section? && Clean(b.schema)
    && LeafAt(b.schema, b.at.directory) == Some(KString) && LeafAt(b.schema, b.at.available) == Some(KString)
    && b.flags <= b.defaults.Keys && b.at.siteURL in b.defaults && b.at.siteURL !in b.flags
    && (forall f :: f in b.flags ==> Repair.RoleOf(b.at, f) in {Repair.Retired, Repair.Other})
    && Metered(b)
  }

  /** The switch and the plugin states are settings of their own; the switch is off by default. */
  ghost predicate Metered(b: Blueprint) {
    && b.metrics in b.defaults && b.defaults[b.metrics] == Flag(false)
    && b.states in b.defaults && b.defaults[b.states].Table? && b.plugin !in b.defaults[b.states].plugins
    && b.metrics !in b.flags && b.states !in b.flags
    && b.at.siteURL !in {b.metrics, b.states} && b.states != b.masks.plugins && b.states != b.metrics
    && Repair.RoleOf(b.at, b.metrics) == Repair.Other
  }

  /** The setting `p` is a leaf that is reported when its variable is set. */
  ghost predicate Reportable(schema: Type, p: Path, kind: Kind) {
    schema.Section? && LeafAt(schema, p) == Some(kind) && Env.ValueField(schema.fields, p)
  }

  /** `p` is the only overridden setting. */
  ghost predicate OnlyOverride(s: Setup, p: Path) {
    forall q :: q in Env.OverridePaths(s.env) <==> q == p
  }

  lemma LawfulByParts(s: Setup, p: Path)
    requires LawfulRules(s) && LawfulFill(s) && Masking.Separate(s.masks)
    requires OnlyOverride(s, p) && p !in s.flags
    requires s.flags <= s.leaves && s.rules.at.siteURL in s.leaves && s.rules.at.siteURL !in s.flags
    requires forall q :: q != p ==> Env.Writes(s.env, q) == {}
    requires forall v, v' :: v in Env.Writes(s.env, p) && v' in Env.Writes(s.env, p) ==> v == v'
    ensures Lawful(s)
  {
    OneWriteEach(s, p);
    InstallationPaths(s, p);
  }

  lemma InstallationPaths(s: Setup, p: Path)
    requires OnlyOverride(s, p) && p !in s.flags
    requires s.flags <= s.leaves && s.rules.at.siteURL in s.leaves && s.rules.at.siteURL !in s.flags
    ensures LawfulPaths(s)
  {
  }

  lemma OneWriteEach(s: Setup, p: Path)
    requires forall q :: q != p ==> Env.Writes(s.env, q) == {}
    requires forall v, v' :: v in Env.Writes(s.env, p) && v' in Env.Writes(s.env, p) ==> v == v'
    ensures Env.Unambiguous(s.env)
  {
    forall q, v, v' | v in Env.Writes(s.env, q) && v' in Env.Writes(s.env, q) ensures v == v' {
      assert q == p;
    }
  }

  ghost predicate AlwaysValid(s: Setup) {
    forall c :: s.validBody(c) && s.validFlags(c)
  }

  ghost predicate Storable(s: Setup, saved: Option<Config>) {
    saved.Some? ==> Conforms(s, saved.value)
  }

  /** What the first load starts from. */
  function Fresh(s: Setup, saved: Option<Config>): Config {
    Read(s, Initial(None, false, saved))
  }

  /** The first load. */
  lemma FirstLoad(s: Setup, saved: Option<Config>) returns (st: State)
    requires Lawful(s) && AlwaysValid(s) && Storable(s, saved)
    ensures Inv(s, st) && Reachable(s, st) && !st.readOnly
    ensures st.noEnv == Fixed(s, s.fill(Fresh(s, saved)))
  {
    var start := Initial(None, false, saved);
    st := LoadStep(s, start, true, Persisted).0;
    NewStore(s, saved, start);
    LoadSucceeds(s, start);
    LoadEstablishes(s, start, true, Persisted);
    Loads(s, start, LoadedNoEnv(s, start), Loaded(s, start));
  }

  lemma Loads(s: Setup, start: State, n: Config, c: Config)
    requires Reachable(s, start) && start.config == map[] && n == LoadedNoEnv(s, start) && c == Loaded(s, start)
    requires LoadStep(s, start, true, Persisted).1 == Done
    ensures var st := LoadStep(s, start, true, Persisted).0;
      st.noEnv == n && st.readOnly == start.readOnly && Chained(s, st)
  {
    LoadDone(s, start, true, Persisted, n, c);
    LoadExtends(s, start, true, Persisted, c);
  }

  lemma NewStore(s: Setup, saved: Option<Config>, start: State)
    requires start == Initial(None, false, saved) && Storable(s, saved)
    ensures Reachable(s, start) && start.config == map[] && LoadedNoEnv(s, start) == Fixed(s, s.fill(Fresh(s, saved)))
  {
  }

  /** The repair of a switch that is not retired, of a table and of the driver is to leave it
      alone. */
  lemma Unrepaired(s: Setup, y: Config, p: Path)
    requires p in y
    requires y[p].Table? || (y[p].Flag? && Repair.RoleOf(s.rules.at, p) != Repair.Retired)
          || (y[p].Str? && Repair.RoleOf(s.rules.at, p) == Repair.Driver)
    ensures Repair.FixLeaf(s.rules, y, p) == y[p] && Fixed(s, y)[p] == y[p]
  {
  }

  /** The settings that the first load keeps at their defaults: switches that are not retired,
      tables, and the file driver. */
  predicate LeftAlone(b: Blueprint, q: Path) {
    && q in b.defaults && q != b.at.siteURL
    && if b.defaults[q].Flag? then Repair.RoleOf(b.at, q) != Repair.Retired
       else b.defaults[q].Table? || (b.defaults[q].Str? && Repair.RoleOf(b.at, q) == Repair.Driver)
  }

  ghost predicate Built(s: Setup, b: Blueprint, p: Path, value: string) {
    && s.env.schema == b.schema && s.env.env == map["MM_" + CanonicalKey(p) := value]
    && s.rules.at == b.at && s.masks == b.masks && s.leaves == b.defaults.Keys && s.flags == b.flags
    && Defaults(s, b)
  }

  ghost predicate Defaults(s: Setup, b: Blueprint) {
    forall c :: s.fill(c) == Defaulted(b, c)
  }

  /** An installation after its first load. */
  lemma Started(b: Blueprint, p: Path, kind: Kind, value: string) returns (s: Setup, st: State)
    requires Suits(b) && Reportable(b.schema, p, kind) && p !in b.flags
    ensures Built(s, b, p, value) && Lawful(s) && TextSettings(s) && AlwaysValid(s) && OnlyOverride(s, p)
    ensures forall q :: q != p ==> Env.Writes(s.env, q) == {}
    ensures Env.Writes(s.env, p) == match Env.Parse(s.env, kind, value)
      case None => {}
      case Some(v) => {v}
    ensures Inv(s, st) && Reachable(s, st) && !st.readOnly
    ensures forall q :: LeftAlone(b, q) ==> st.noEnv[q] == b.defaults[q]
  {
    s := Installed(b, p, kind, value);
    st := FirstLoad(s, None);
    var y := s.fill(Fresh(s, None));
    forall q | LeftAlone(b, q) ensures st.noEnv[q] == b.defaults[q] {
      DefaultKept(b, s, q);
      Unrepaired(s, y, q);
    }
  }

  lemma Installed(b: Blueprint, p: Path, kind: Kind, value: string) returns (s: Setup)
    requires Suits(b) && Reportable(b.schema, p, kind) && p !in b.flags
    ensures Built(s, b, p, value) && Lawful(s) && TextSettings(s) && AlwaysValid(s) && OnlyOverride(s, p)
    ensures forall q :: q != p ==> Env.Writes(s.env, q) == {}
    ensures Env.Writes(s.env, p) == match Env.Parse(s.env, kind, value)
      case None => {}
      case Some(v) => {v}
  {
    s := Assembled(b, p, value);
    OneVariable(s, b, p, kind, value);
    AtMostOne(Env.Writes(s.env, p), Env.Parse(s.env, kind, value));
    assert s.flags <= s.leaves && s.rules.at.siteURL in s.leaves && s.rules.at.siteURL !in s.flags;
    assert Masking.Separate(s.masks);
    LawfulByParts(s, p);
  }

  lemma AtMostOne(values: set<Value>, parsed: Option<Value>)
    requires values == match parsed
      case None => {}
      case Some(v) => {v}
    ensures forall v, v' :: v in values && v' in values ==> v == v'
  {
  }

  /** A fresh installation starts from the defaults. */
  lemma DefaultKept(b: Blueprint, s: Setup, q: Path)
    requires Metered(b) && Defaults(s, b) && s.rules.at == b.at && q in b.defaults && q != b.at.siteURL
    ensures q in s.fill(Fresh(s, None)) && s.fill(Fresh(s, None))[q] == b.defaults[q]
  {
    assert Fresh(s, None) == map[b.at.siteURL := Str("")];
  }

  /** A switch, a text or a table of a submission is kept by the defaults, unless it is an empty
      text or the table of plugin states. */
  lemma SubmissionKept(b: Blueprint, c: Config, q: Path)
    requires q in b.defaults && q in c && c[q] != Str("") && (q == b.states ==> !c[q].Table?)
    ensures Defaulted(b, c)[q] == c[q]
  {
  }

  lemma Assembled(b: Blueprint, p: Path, value: string) returns (s: Setup)
    requires Suits(b)
    ensures Built(s, b, p, value) && AlwaysValid(s)
    ensures LawfulRules(s) && LawfulFill(s) && TextSettings(s)
  {
    s := Installation(b, p, value);
    forall c | Conforms(s, c) ensures Filled(s, c) { DefaultsFill(b, s, c); }
  }

  lemma DefaultsFill(b: Blueprint, s: Setup, c: Config)
    requires Suits(b) && Defaults(s, b) && s.leaves == b.defaults.Keys && s.flags == b.flags
    ensures Filled(s, c)
  {
    assert s.fill(c).Keys == b.defaults.Keys;
    assert b.at.directory !in b.flags;
  }

  /** The environment assigns and reports the one setting whose variable is set. */
  lemma OneVariable(s: Setup, b: Blueprint, p: Path, kind: Kind, value: string)
    requires Suits(b) && Built(s, b, p, value) && Reportable(b.schema, p, kind)
    ensures OnlyOverride(s, p)
    ensures forall q :: q != p ==> Env.Writes(s.env, q) == {}
    ensures Env.Writes(s.env, p) == match Env.Parse(s.env, kind, value)
      case None => {}
      case Some(v) => {v}
  {
    var key := "MM_" + CanonicalKey(p);
    assert key + "" == key;
    Env.CanonicalTarget(b.schema, p, kind, "");
    forall q ensures q in Env.OverridePaths(s.env) <==> q == p { Env.OnlyReported(s.env, p, value, q); }
    forall q | q != p ensures Env.Writes(s.env, q) == {} { Env.OnlyWritten(s.env, key, p, kind, q); }
    Env.OnlyWritten(s.env, key, p, kind, p);
  }

  /** An installation whose file driver is overridden. */
  lemma OverriddenDriver(b: Blueprint, value: string) returns (s: Setup, st: State)
    requires Suits(b) && Reportable(b.schema, b.at.driver, KString) && b.at.driver !in b.flags
    ensures Built(s, b, b.at.driver, value) && Lawful(s) && TextSettings(s) && Inv(s, st) && Reachable(s, st)
    ensures AllParse(s) && b.at.driver in Env.OverridePaths(s.env) && Env.Writes(s.env, b.at.driver) == {Str(value)}
  {
    s, st := Started(b, b.at.driver, KString, value);
  }

  // ---- A Set that is not stored ------------------------------------------

  /** A submitted switch goes through defaults and unmasking unchanged. */
  lemma SwitchSubmitted(b: Blueprint, s: Setup, st: State, p: Path, on: bool)
    requires Defaults(s, b) && s.leaves == b.defaults.Keys && p in s.leaves && p !in s.flags
    ensures Conforms(s, map[p := Flag(on)])
    ensures p in Submitted(s, st, map[p := Flag(on)]) && Submitted(s, st, map[p := Flag(on)])[p] == Flag(on)
  {
    SubmissionKept(b, map[p := Flag(on)], p);
  }

  lemma NotKept(b: Blueprint, s: Setup, st: State, p: Path, on: bool)
    requires Defaults(s, b) && s.leaves == b.defaults.Keys && p in s.leaves && p !in s.flags
    requires p in st.noEnv && st.noEnv[p] == Flag(!on)
    requires p in Env.OverridePaths(s.env) && Env.Writes(s.env, p) == {}
    requires Repair.RoleOf(s.rules.at, p) != Repair.Retired
    ensures !UnparsedKept(s, st, map[p := Flag(on)])
  {
    SwitchSubmitted(b, s, st, p, on);
    Unrepaired(s, Submitted(s, st, map[p := Flag(on)]), p);
  }

  lemma SetSucceeds(s: Setup, st: State, newCfg: Config)
    requires AlwaysValid(s) && !st.readOnly
    ensures SetStep(s, st, newCfg, Persisted).1 == Done
  {
  }

  lemma LoadSucceeds(s: Setup, st: State)
    requires AlwaysValid(s)
    ensures LoadStep(s, st, true, Persisted).1 == Done
  {
  }

  /** The live view does not fit what was stored, and the next reload shows it. */
  ghost predicate Lost(s: Setup, st: State, newCfg: Config) {
    var (st', r) := SetStep(s, st, newCfg, Persisted);
    && r == Done && !Consistent(s, st')
    && LoadStep(s, st', true, Persisted).1 == Done && !Quiet(s, st', LoadStep(s, st', true, Persisted).0)
  }

  lemma LostIfNotKept(s: Setup, st: State, newCfg: Config)
    requires Lawful(s) && TextSettings(s) && AlwaysValid(s) && Sound(s, st) && !st.readOnly && Conforms(s, newCfg)
    requires !UnparsedKept(s, st, newCfg)
    ensures Lost(s, st, newCfg)
  {
    SetSucceeds(s, st, newCfg);
    var st' := SetStep(s, st, newCfg, Persisted).0;
    LoadSucceeds(s, st');
    SetConsistentIff(s, st, newCfg, Persisted);
    SetThenLoadIff(s, st, newCfg, st', Persisted);
  }

  /** Whichever switch is overridden by a value that does not parse: switching it takes effect,
      is not stored, and the next reload is loud. */
  lemma UnparsedOverrideIsLost(b: Blueprint, p: Path, value: string)
      returns (s: Setup, st: State)
    requires Suits(b) && Reportable(b.schema, p, KBool) && Env.ParseBool(value) == None
    requires LeftAlone(b, p) && p !in b.flags && b.defaults[p] == Flag(false)
    ensures Built(s, b, p, value)
    ensures Lawful(s) && Inv(s, st) && Reachable(s, st) && Conforms(s, map[p := Flag(true)])
    ensures Lost(s, st, map[p := Flag(true)])
  {
    s, st := Started(b, p, KBool, value);
    SwitchSubmitted(b, s, st, p, true);
    NotKept(b, s, st, p, true);
    LostIfNotKept(s, st, map[p := Flag(true)]);
  }

  // ---- A reload that is not quiet ----------------------------------------

  /** A submitted directory goes through defaults and unmasking unchanged. */
  lemma DirectorySubmitted(b: Blueprint, s: Setup, st: State, p: Path, dir: string)
    requires Defaults(s, b) && s.leaves == b.defaults.Keys && p in s.leaves && p !in s.flags
    requires dir != s.masks.fake && dir != ""
    ensures Conforms(s, map[p := Str(dir)])
    ensures p in Submitted(s, st, map[p := Str(dir)]) && Submitted(s, st, map[p := Str(dir)])[p] == Str(dir)
  {
    SubmissionKept(b, map[p := Str(dir)], p);
  }

  /** While the environment puts the files elsewhere, a local directory without a slash is
      accepted as it is. */
  lemma DirectoryAccepted(s: Setup, y: Config, value: string, dir: string)
    requires LawfulRules(s) && s.rules.at.driver in y && s.rules.at.directory in y
    requires y[s.rules.at.directory] == Str(dir) && value != Repair.DRIVER_LOCAL
    requires Env.Writes(s.env, s.rules.at.driver) == {Str(value)} && Env.Writes(s.env, s.rules.at.directory) == {}
    ensures s.rules.at.directory in Fixed(s, Laid(s, y)) && Fixed(s, Laid(s, y))[s.rules.at.directory] == Str(dir)
  {
    var at, x := s.rules.at, Laid(s, y);
    assert x[at.driver] == Str(value) by { assert Env.Override(s.env, at.driver) in {Str(value)}; }
    assert x[at.directory] == Str(dir);
    DirectoryRepair(s, x, dir);
  }

  lemma DirectoryRepair(s: Setup, x: Config, dir: string)
    requires LawfulRules(s) && s.rules.at.directory in x && x[s.rules.at.directory] == Str(dir)
    ensures Repair.FixLeaf(s.rules, x, s.rules.at.directory)
      == Str(Repair.FixDirectory(Repair.StrAt(x, s.rules.at.driver), dir))
    ensures Fixed(s, x)[s.rules.at.directory] == Repair.FixLeaf(s.rules, x, s.rules.at.directory)
  {
  }

  /** What is stored then breaks the coupling. */
  lemma CouplingBroken(s: Setup, n: Config, dir: string)
    requires LawfulRules(s) && s.rules.at.driver in n && s.rules.at.directory in n
    requires n[s.rules.at.driver] == Str(Repair.DRIVER_LOCAL) && n[s.rules.at.directory] == Str(dir)
    requires dir != "" && dir[|dir| - 1] != '/'
    ensures !CouplingsHold(s, n)
  {
    DirectoryRepair(s, n, dir);
    assert |Repair.FixDirectory(Repair.DRIVER_LOCAL, dir)| == |dir| + 1 by {
      assert dir[|dir| - 1..] == [dir[|dir| - 1]];
    }
  }

  ghost predicate Loud(s: Setup, st: State, newCfg: Config) {
    var (st', r) := SetStep(s, st, newCfg, Persisted);
    && r == Done && Inv(s, st')
    && LoadStep(s, st', true, Persisted).1 == Done && !Quiet(s, st', LoadStep(s, st', true, Persisted).0)
  }

  lemma LoudIf(s: Setup, st: State, newCfg: Config)
    requires Lawful(s) && TextSettings(s) && AlwaysValid(s) && AllParse(s) && Inv(s, st) && !st.readOnly
    requires Conforms(s, newCfg)
    requires !CouplingsHold(s, ToStore(s, st, newCfg)) || !DefaultsLeave(s, st, ToStore(s, st, newCfg))
    ensures Loud(s, st, newCfg)
  {
    var c, st' := Candidate(s, st, newCfg), SetStep(s, st, newCfg, Persisted).0;
    ParsedLeavesAlone(s, st, c);
    SetKeeps(s, st, newCfg, Persisted);
    SetSucceeds(s, st, newCfg);
    LoadSucceeds(s, st');
    SetThenLoadIff(s, st, newCfg, st', Persisted);
  }

  /** While the environment overrides the file driver, a directory that is set without a slash
      is stored as it is, although the stored driver asks for one: the next reload is loud,
      without any change of the stored configuration and with every override parsing. */
  lemma CoupledOverrideIsLoud(b: Blueprint, value: string, dir: string)
      returns (s: Setup, st: State)
    requires Suits(b) && Reportable(b.schema, b.at.driver, KString)
    requires LeftAlone(b, b.at.driver) && b.at.driver !in b.flags && b.defaults[b.at.driver] == Str(Repair.DRIVER_LOCAL)
    requires b.at.directory in b.defaults && b.at.directory !in b.flags && value != Repair.DRIVER_LOCAL
    requires dir != "" && dir[|dir| - 1] != '/' && dir != b.masks.fake
    ensures Built(s, b, b.at.driver, value)
    ensures Lawful(s) && AllParse(s) && Inv(s, st) && Reachable(s, st) && Conforms(s, map[b.at.directory := Str(dir)])
    ensures Loud(s, st, map[b.at.directory := Str(dir)])
  {
    s, st := Started(b, b.at.driver, KString, value);
    DirectoryStored(b, s, st, value, dir);
    LoudIf(s, st, map[b.at.directory := Str(dir)]);
  }

  lemma DirectoryStored(b: Blueprint, s: Setup, st: State, value: string, dir: string)
    requires Defaults(s, b) && s.leaves == b.defaults.Keys
    requires LawfulRules(s) && LawfulFill(s) && Sound(s, st) && OnlyOverride(s, s.rules.at.driver)
    requires s.rules.at.driver in s.leaves && s.rules.at.directory in s.leaves
    requires s.rules.at.driver !in s.flags && s.rules.at.directory !in s.flags
    requires Env.Writes(s.env, s.rules.at.driver) == {Str(value)} && value != Repair.DRIVER_LOCAL
    requires Env.Writes(s.env, s.rules.at.directory) == {}
    requires st.noEnv[s.rules.at.driver] == Str(Repair.DRIVER_LOCAL)
    requires dir != "" && dir[|dir| - 1] != '/' && dir != s.masks.fake
    ensures Conforms(s, map[s.rules.at.directory := Str(dir)])
    ensures !CouplingsHold(s, ToStore(s, st, map[s.rules.at.directory := Str(dir)]))
  {
    var at, newCfg := s.rules.at, map[s.rules.at.directory := Str(dir)];
    var c := Candidate(s, st, newCfg);
    DirectorySubmitted(b, s, st, at.directory, dir);
    SubmittedComplete(s, st, newCfg);
    DirectoryAccepted(s, Submitted(s, st, newCfg), value, dir);
    EnvBackLeaf(s, st, c, at.driver);
    EnvBackLeaf(s, st, c, at.directory);
    CouplingBroken(s, ToStore(s, st, newCfg), dir);
  }

  // ---- Defaults that couple settings -------------------------------------

  /** The defaults do not leave plugin states alone that lack the state they ask for. */
  lemma StateAdded(b: Blueprint, s: Setup, n: Config, c: Config, y: Config)
    requires Metered(b) && s.rules.at == b.at
    requires b.metrics in c && c[b.metrics] == Flag(true) && b.states in c && c[b.states] == b.defaults[b.states]
    requires b.states in n && n[b.states] == b.defaults[b.states]
    requires b.states in y && y[b.states] == Defaulted(b, c)[b.states]
    ensures !PutBack(s, n, y, b.states) && !LeavesLeaf(s, n, y, b.states)
  {
    assert b.plugin in y[b.states].plugins;
    Unrepaired(s, n[b.states := y[b.states]], b.states);
    Unrepaired(s, n, b.states);
  }

  /** Tables that are no plugin settings are not unmasked. */
  lemma TableSubmitted(s: Setup, st: State, newCfg: Config, p: Path)
    requires p in s.fill(newCfg) && s.fill(newCfg)[p].Table? && p != s.masks.plugins
    ensures p in Submitted(s, st, newCfg) && Submitted(s, st, newCfg)[p] == s.fill(newCfg)[p]
  {
  }

  /** The live plugin states of a fresh installation are the default ones, the live switch is
      the overridden one. */
  lemma FreshLive(b: Blueprint, s: Setup, st: State)
    requires Metered(b) && s.rules.at == b.at && Inv(s, st) && s.leaves == b.defaults.Keys
    requires st.noEnv[b.states] == b.defaults[b.states]
    requires Env.Writes(s.env, b.metrics) == {Flag(true)} && Env.Writes(s.env, b.states) == {}
    ensures st.config[b.metrics] == Flag(true) && st.config[b.states] == b.defaults[b.states]
  {
    var x := Laid(s, st.noEnv);
    assert x[b.metrics] == Flag(true) by { assert Env.Override(s.env, b.metrics) in {Flag(true)}; }
    Unrepaired(s, x, b.metrics);
    Unrepaired(s, x, b.states);
  }

  /** Setting what `Get` returned is announced as a change. */
  ghost predicate Announces(s: Setup, st: State) {
    var (st', r) := SetStep(s, st, st.config, Persisted);
    r == Done && NoFlags(s, st'.config) != NoFlags(s, st.config) && |st'.emitted| == |st.emitted| + 1
  }

  /** While the environment turns the switch on, the first load has no plugin state for it, and
      setting what `Get` returned adds one. */
  lemma CoupledDefaultIsAnnounced(b: Blueprint, value: string) returns (s: Setup, st: State)
    requires Suits(b) && Reportable(b.schema, b.metrics, KBool) && Env.ParseBool(value) == Some(true)
    ensures Built(s, b, b.metrics, value) && Lawful(s) && Inv(s, st) && Reachable(s, st)
    ensures Announces(s, st)
  {
    s := Switched(b, value, true);
    st := FirstLoad(s, None);
    SwitchAnnounces(b, s, st);
  }

  lemma SwitchAnnounces(b: Blueprint, s: Setup, st: State)
    requires IsSwitched(b, s, true) && Inv(s, st) && !st.readOnly && st.noEnv == Fixed(s, s.fill(Fresh(s, None)))
    ensures Announces(s, st)
  {
    DefaultKept(b, s, b.states);
    Unrepaired(s, s.fill(Fresh(s, None)), b.states);
    FreshLive(b, s, st);
    StateNotUndone(b, s, st);
    AnnouncesIf(s, st);
  }

  lemma StateNotUndone(b: Blueprint, s: Setup, st: State)
    requires Metered(b) && Defaults(s, b) && s.rules.at == b.at && s.masks == b.masks && s.flags == b.flags
    requires Sound(s, st) && s.leaves == b.defaults.Keys && Env.Writes(s.env, b.states) == {}
    requires st.config[b.metrics] == Flag(true) && st.config[b.states] == b.defaults[b.states]
    ensures !DefaultsUndone(s, st, st.config)
  {
    TableSubmitted(s, st, st.config, b.states);
    StateAdded(b, s, st.config, st.config, Submitted(s, st, st.config));
  }

  lemma AnnouncesIf(s: Setup, st: State)
    requires Lawful(s) && AlwaysValid(s) && Sound(s, st) && !st.readOnly && !DefaultsUndone(s, st, st.config)
    ensures Announces(s, st)
  {
    MaskedSetIff(s, st, st.config);
    SetSucceeds(s, st, st.config);
  }

  /** While the environment turns a stored switch off, setting a configuration without plugin
      states stores none for it, and the next load adds one: the reload is loud although every
      override parses and touches no coupled setting. */
  lemma CoupledDefaultIsLoud(b: Blueprint, value: string) returns (s: Setup, st: State)
    requires Suits(b) && Reportable(b.schema, b.metrics, KBool) && Env.ParseBool(value) == Some(false)
    ensures Built(s, b, b.metrics, value) && Lawful(s) && AllParse(s) && CouplingsNotOverridden(s)
    ensures Inv(s, st) && Reachable(s, st) && Conforms(s, map[])
    ensures Loud(s, st, map[])
  {
    s := Switched(b, value, false);
    OnlySwitch(b, s);
    st := FirstLoad(s, Some(map[b.metrics := Flag(true)]));
    SwitchIsLoud(b, s, st);
  }

  /** An installation whose one variable turns the switch. */
  ghost predicate IsSwitched(b: Blueprint, s: Setup, on: bool) {
    && Metered(b) && Defaults(s, b) && s.rules.at == b.at && s.masks == b.masks
    && s.flags == b.flags && s.leaves == b.defaults.Keys
    && Lawful(s) && TextSettings(s) && AlwaysValid(s) && OnlyOverride(s, b.metrics)
    && Env.Writes(s.env, b.metrics) == {Flag(on)} && Env.Writes(s.env, b.states) == {}
  }

  lemma Switched(b: Blueprint, value: string, on: bool) returns (s: Setup)
    requires Suits(b) && Reportable(b.schema, b.metrics, KBool) && Env.ParseBool(value) == Some(on)
    ensures Built(s, b, b.metrics, value) && IsSwitched(b, s, on)
  {
    s := Written(b, b.metrics, KBool, value, Flag(on));
  }

  lemma Written(b: Blueprint, p: Path, kind: Kind, value: string, v: Value) returns (s: Setup)
    requires Suits(b) && Reportable(b.schema, p, kind) && p !in b.flags
    requires forall w: Env.World :: Env.Parse(w, kind, value) == Some(v)
    ensures Built(s, b, p, value) && Lawful(s) && TextSettings(s) && AlwaysValid(s) && OnlyOverride(s, p)
    ensures Env.Writes(s.env, p) == {v} && forall q :: q != p ==> Env.Writes(s.env, q) == {}
  {
    s := Installed(b, p, kind, value);
  }

  lemma OnlySwitch(b: Blueprint, s: Setup)
    requires Metered(b) && s.rules.at == b.at && s.flags == b.flags && s.leaves == b.defaults.Keys
    requires OnlyOverride(s, b.metrics) && Env.Writes(s.env, b.metrics) != {}
    ensures AllParse(s) && CouplingsNotOverridden(s) && Storable(s, Some(map[b.metrics := Flag(true)]))
  {
  }

  lemma SwitchLoaded(b: Blueprint, s: Setup, st: State)
    requires Metered(b) && Defaults(s, b) && s.rules.at == b.at
    requires st.noEnv == Fixed(s, s.fill(Fresh(s, Some(map[b.metrics := Flag(true)]))))
    ensures b.metrics in st.noEnv && st.noEnv[b.metrics] == Flag(true)
  {
    var c := Fresh(s, Some(map[b.metrics := Flag(true)]));
    SubmissionKept(b, c, b.metrics);
    Unrepaired(s, s.fill(c), b.metrics);
  }

  lemma SwitchIsLoud(b: Blueprint, s: Setup, st: State)
    requires IsSwitched(b, s, false) && AllParse(s) && Inv(s, st) && !st.readOnly
    requires st.noEnv == Fixed(s, s.fill(Fresh(s, Some(map[b.metrics := Flag(true)]))))
    ensures Conforms(s, map[]) && Loud(s, st, map[])
  {
    SwitchLoaded(b, s, st);
    NothingSubmitted(b, s, st);
    LoudIf(s, st, map[]);
  }

  /** What an empty submission is about to store: the default plugin states, and the switch as
      it was stored. */
  lemma NothingSubmitted(b: Blueprint, s: Setup, st: State)
    requires Metered(b) && Defaults(s, b) && s.rules.at == b.at && s.masks == b.masks && s.flags == b.flags
    requires LawfulFill(s) && Sound(s, st) && s.leaves == b.defaults.Keys && st.noEnv[b.metrics] == Flag(true)
    requires OnlyOverride(s, b.metrics) && Env.Writes(s.env, b.states) == {}
    ensures Conforms(s, map[]) && !DefaultsLeave(s, st, ToStore(s, st, map[]))
  {
    var c, n := Candidate(s, st, map[]), ToStore(s, st, map[]);
    assert Conforms(s, map[]);
    SubmittedComplete(s, st, map[]);
    StatesSubmitted(b, s, st, c);
    EnvBackLeaf(s, st, c, b.states);
    EnvBackLeaf(s, st, c, b.metrics);
    StateAdded(b, s, n, Shown(s, st, n), Refilled(s, st, n));
  }

  lemma StatesSubmitted(b: Blueprint, s: Setup, st: State, c: Config)
    requires Metered(b) && Defaults(s, b) && s.rules.at == b.at && s.masks == b.masks
    requires c == Candidate(s, st, map[]) && Env.Writes(s.env, b.states) == {}
    ensures b.states in c && c[b.states] == b.defaults[b.states]
  {
    TableSubmitted(s, st, map[], b.states);
    Unrepaired(s, Laid(s, Submitted(s, st, map[])), b.states);
  }
}
