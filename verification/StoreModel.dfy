/** The configuration store as a state machine: one step per locked section. */
module StoreModel {
  import opened Options
  import opened ConfigModel
  import Env = Overlay
  import Repair = ConfigRepair
  import Masking = Desanitize

  /** What a store runs with.  `leaves` are all settings, `flags` those of the FeatureFlags
      section, which is a pointer and can be nil as a whole.  `fill` is SetDefaults; validity
      is judged on the flags and on everything else separately. */
  datatype Setup = Setup(
    env: Env.World, rules: Repair.Rules, masks: Masking.Masks,
    leaves: set<Path>, flags: set<Path>, fill: Config -> Config,
    validBody: Config -> bool, validFlags: Config -> bool)

  datatype Event = Event(before: Config, after: Config)

  datatype State = State(
    config: Config, noEnv: Config, custom: Option<Config>, readOnly: bool, readOnlyFF: bool,
    saved: Option<Config>, writes: nat, emitted: seq<Event>)

  datatype Result = Done | ReadOnlyStore | Invalid | Unreadable | NotPersisted

  /** How the backing store answers a write: done, refused because it is a read-only
      configuration, or failed. */
  datatype Fate = Persisted | Refused | Broken

  /** A type-correct configuration: known settings only, and the flags all there or nil. */
  ghost predicate Conforms(s: Setup, c: Config) {
    c.Keys <= s.leaves && (s.flags <= c.Keys || c.Keys !! s.flags)
  }

  ghost predicate Lawful(s: Setup) {
    && LawfulRules(s)
    && Masking.Separate(s.masks)
    && Env.Unambiguous(s.env)
    && LawfulPaths(s)
    && LawfulFill(s)
  }

  ghost predicate LawfulRules(s: Setup) {
    && Repair.Lawful(s.rules)
    && forall p :: p in s.flags ==> Repair.RoleOf(s.rules.at, p) in {Repair.Retired, Repair.Other}
  }

  /** Flags are never reported as overridden, because their section is a pointer. */
  ghost predicate LawfulPaths(s: Setup) {
    && s.flags <= s.leaves && s.rules.at.siteURL in s.leaves - s.flags
    && forall p :: p in Env.OverridePaths(s.env) ==> p !in s.flags
  }

  /** SetDefaults leaves no setting missing, and a FeatureFlags section that is there alone.  It
      may replace and couple any other settings. */
  ghost predicate LawfulFill(s: Setup) {
    forall c :: Conforms(s, c) ==> Filled(s, c)
  }

  ghost predicate Filled(s: Setup, c: Config) {
    && s.fill(c).Keys == s.leaves
    && forall p :: p in s.flags && p in c && p in s.leaves ==> s.fill(c)[p] == c[p]
  }

  function NoFlags(s: Setup, c: Config): Config {
    c - s.flags
  }

  function FlagsOf(s: Setup, c: Config): Config {
    map p | p in c && p in s.flags :: c[p]
  }

  /** `cfg.FeatureFlags = from.FeatureFlags`. */
  function WithFlags(s: Setup, c: Config, from: Config): Config {
    NoFlags(s, c) + FlagsOf(s, from)
  }

  predicate Valid(s: Setup, c: Config) {
    s.validBody(NoFlags(s, c)) && s.validFlags(FlagsOf(s, c))
  }

  ghost function Fixed(s: Setup, c: Config): Config {
    Repair.Fix(s.rules, c)
  }

  ghost function Laid(s: Setup, c: Config): Config {
    Env.Laid(s.env, c)
  }

  /** The part of a configuration that is compared and persisted. */
  function Shown(s: Setup, st: State, c: Config): Config {
    if st.readOnlyFF then NoFlags(s, c) else c
  }

  ghost function EnvBack(s: Setup, st: State, c: Config): Config {
    Env.Removed(c, st.noEnv, Env.OverridePaths(s.env))
  }

  function Notify(st: State, before: Config, after: Config, changed: bool): seq<Event> {
    if changed then st.emitted + [Event(before, after)] else st.emitted
  }

  /** The candidate configuration of a `Set`: defaults, desanitized, overlaid, repaired. */
  ghost function Candidate(s: Setup, st: State, newCfg: Config): Config {
    Fixed(s, Laid(s, Masking.Desanitized(s.masks, st.config, s.fill(newCfg))))
  }

  ghost function SetStep(s: Setup, st: State, newCfg: Config, fate: Fate): (State, Result) {
    if st.readOnly then (st, ReadOnlyStore) else Replace(s, st, Candidate(s, st, newCfg), fate)
  }

  /** Validating, persisting and adopting a candidate. */
  ghost function Replace(s: Setup, st: State, c: Config, fate: Fate): (State, Result) {
    if !Valid(s, c) then (st, Invalid)
    else if fate != Persisted then (st, NotPersisted)
    else
      var n := EnvBack(s, st, c);
      var c' := if st.readOnlyFF then WithFlags(s, c, st.config) else c;
      var n' := if st.readOnlyFF then WithFlags(s, n, st.noEnv) else n;
      var changed := Shown(s, st, st.config) != Shown(s, st, c);
      (st.(config := c', noEnv := n', saved := Some(Shown(s, st, n)), writes := st.writes + 1,
           emitted := Notify(st, st.config, c', changed)), Done)
  }

  /** What `Load` reads before defaults: the stored configuration on top of the custom
      defaults, with an empty site URL if there is none. */
  function Read(s: Setup, st: State): Config {
    var stored := if st.saved.Some? then st.saved.value else map[];
    var merged := if st.custom.Some? then st.custom.value + stored else stored;
    if s.rules.at.siteURL in merged then merged else merged[s.rules.at.siteURL := Str("")]
  }

  ghost function LoadedNoEnv(s: Setup, st: State): Config {
    Fixed(s, s.fill(Read(s, st)))
  }

  ghost function Loaded(s: Setup, st: State): Config {
    Fixed(s, Laid(s, LoadedNoEnv(s, st)))
  }

  predicate LoadChanges(s: Setup, st: State, c: Config) {
    Shown(s, st, st.config) != Shown(s, st, c)
  }

  /** A load writes back if the live configuration changed or nothing was stored. */
  predicate LoadWrites(s: Setup, st: State, c: Config) {
    !st.readOnly && (LoadChanges(s, st, c) || st.saved.None?)
  }

  /** Validating, persisting and adopting the two loaded views.  The custom defaults are used
      up even if this fails. */
  function Adopt(s: Setup, st: State, n: Config, c: Config, fate: Fate): (State, Result) {
    var st1 := st.(custom := None);
    if !Valid(s, c) then (st1, Invalid)
    else if LoadWrites(s, st, c) && fate == Broken then (st1, NotPersisted)
    else
      var st2 := if LoadWrites(s, st, c) && fate == Persisted
        then st1.(saved := Some(Shown(s, st, n)), writes := st.writes + 1) else st1;
      (st2.(config := c, noEnv := n, emitted := Notify(st, st.config, c, LoadChanges(s, st, c))), Done)
  }

  ghost function LoadStep(s: Setup, st: State, readable: bool, fate: Fate): (State, Result) {
    if !readable then (st, Unreadable) else Adopt(s, st, LoadedNoEnv(s, st), Loaded(s, st), fate)
  }

  /** Whether and what a replacement announces. */
  lemma ReplaceNotifies(s: Setup, st: State, c: Config, fate: Fate, changed: bool)
    requires changed <==> Replace(s, st, c, fate).1 == Done && Shown(s, st, st.config) != Shown(s, st, c)
    ensures var st' := Replace(s, st, c, fate).0; st'.emitted == Notify(st, st.config, st'.config, changed)
  {
  }

  lemma AdoptNotifies(s: Setup, st: State, n: Config, c: Config, fate: Fate, changed: bool)
    requires changed <==> Adopt(s, st, n, c, fate).1 == Done && LoadChanges(s, st, c)
    ensures var st' := Adopt(s, st, n, c, fate).0; st'.emitted == Notify(st, st.config, st'.config, changed)
  {
  }

  lemma AdoptIgnoresCustom(s: Setup, st: State, n: Config, c: Config, fate: Fate)
    ensures Adopt(s, st.(custom := None), n, c, fate) == Adopt(s, st, n, c, fate)
  {
  }

  datatype Op =
    | Set(newCfg: Config, fate: Fate)
    | Load(readable: bool, fate: Fate)
    | SetReadOnlyFF(readOnly: bool)

  ghost function Step(s: Setup, st: State, op: Op): (State, Result) {
    match op
    case Set(c, fate) => SetStep(s, st, c, fate)
    case Load(readable, fate) => LoadStep(s, st, readable, fate)
    case SetReadOnlyFF(b) => (st.(readOnlyFF := b), Done)
  }

  /** A store before its first load. */
  function Initial(custom: Option<Config>, readOnly: bool, saved: Option<Config>): State {
    State(map[], map[], custom, readOnly, true, saved, 0, [])
  }

  ghost function Run(s: Setup, st: State, ops: seq<Op>): State {
    if |ops| == 0 then st else Step(s, Run(s, st, ops[..|ops| - 1]), ops[|ops| - 1]).0
  }
}
