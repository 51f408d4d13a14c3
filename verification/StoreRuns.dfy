/** What every reachable state of the configuration store satisfies. */
module StoreRuns {
  import opened Options
  import opened ConfigModel
  import opened StoreModel
  import Env = Overlay
  import Repair = ConfigRepair
  import Masking = Desanitize
  import Environment

  // ---- Overlay and repair together ---------------------------------------

  /** Laying the environment over a configuration that was overlaid and repaired before, in
      any mixture with the unrepaired one, and repairing again changes nothing. */
  lemma RelaidFix(s: Setup, y: Config, m: Config)
    requires LawfulRules(s) && m.Keys == y.Keys
    requires forall p :: p in y && Env.Writes(s.env, p) == {} ==> m[p] == y[p] || m[p] == Fixed(s, Laid(s, y))[p]
    ensures Fixed(s, Laid(s, m)) == Fixed(s, Laid(s, y))
  {
    var x, z := Laid(s, y), Laid(s, m);
    forall p | p in x ensures z[p] == x[p] || z[p] == Repair.FixLeaf(s.rules, x, p) {
      RelaidLeaf(s, y, m, p);
    }
    Repair.FixOfMixture(s.rules, x, z);
  }

  lemma RelaidLeaf(s: Setup, y: Config, m: Config, p: Path)
    requires m.Keys == y.Keys && p in y
    requires Env.Writes(s.env, p) == {} ==> m[p] == y[p] || m[p] == Fixed(s, Laid(s, y))[p]
    ensures p in Laid(s, y) && p in Laid(s, m)
    ensures Laid(s, m)[p] == Laid(s, y)[p] || Laid(s, m)[p] == Repair.FixLeaf(s.rules, Laid(s, y), p)
  {
    FixedLeaf(s, Laid(s, y), p);
  }

  lemma FixedLeaf(s: Setup, c: Config, p: Path)
    requires p in c
    ensures Fixed(s, c)[p] == Repair.FixLeaf(s.rules, c, p)
  {
  }

  /** The repair of a flag looks at the flag alone, that of any other setting at no flag. */
  lemma FixIsLocal(s: Setup, a: Config, b: Config, p: Path)
    requires LawfulRules(s) && a.Keys == b.Keys && p in a && a[p] == b[p]
    requires p !in s.flags ==> forall q :: q in a && q !in s.flags ==> a[q] == b[q]
    ensures Repair.FixLeaf(s.rules, a, p) == Repair.FixLeaf(s.rules, b, p)
  {
    var at := s.rules.at;
    assert at.driver !in s.flags && at.clientLocale !in s.flags;
    if p !in s.flags {
      assert Repair.StrAt(a, at.driver) == Repair.StrAt(b, at.driver);
      assert Repair.StrAt(a, at.clientLocale) == Repair.StrAt(b, at.clientLocale);
    }
  }

  /** Overlaying and repairing treats the flags and the other settings separately. */
  lemma FixedLaidWithFlags(s: Setup, a: Config, b: Config)
    requires LawfulRules(s) && s.flags <= s.leaves && a.Keys == b.Keys == s.leaves
    ensures WithFlags(s, a, b).Keys == s.leaves
    ensures Fixed(s, Laid(s, WithFlags(s, a, b))) == WithFlags(s, Fixed(s, Laid(s, a)), Fixed(s, Laid(s, b)))
  {
    var m := WithFlags(s, a, b);
    WithFlagsLeaves(s, a, b);
    SidesKept(s, m, a, b);
    IsWithFlags(s, Fixed(s, Laid(s, m)), Fixed(s, Laid(s, a)), Fixed(s, Laid(s, b)));
  }

  lemma SidesKept(s: Setup, m: Config, a: Config, b: Config)
    requires LawfulRules(s) && m.Keys == a.Keys == b.Keys
    requires forall p :: p in m ==> m[p] == if p in s.flags then b[p] else a[p]
    ensures Fixed(s, Laid(s, m)).Keys == Fixed(s, Laid(s, a)).Keys == Fixed(s, Laid(s, b)).Keys == m.Keys
    ensures forall p :: p in m ==>
      Fixed(s, Laid(s, m))[p] == if p in s.flags then Fixed(s, Laid(s, b))[p] else Fixed(s, Laid(s, a))[p]
  {
    FlagSideKept(s, m, b);
    RestKept(s, m, a);
  }

  lemma FlagSideKept(s: Setup, m: Config, b: Config)
    requires LawfulRules(s) && m.Keys == b.Keys
    requires forall p :: p in m && p in s.flags ==> m[p] == b[p]
    ensures Fixed(s, Laid(s, m)).Keys == Fixed(s, Laid(s, b)).Keys == m.Keys
    ensures forall p :: p in m && p in s.flags ==> Fixed(s, Laid(s, m))[p] == Fixed(s, Laid(s, b))[p]
  {
    forall p | p in m && p in s.flags ensures Fixed(s, Laid(s, m))[p] == Fixed(s, Laid(s, b))[p] {
      FixedLaidLeaf(s, m, b, p);
    }
  }

  lemma RestKept(s: Setup, m: Config, a: Config)
    requires LawfulRules(s) && m.Keys == a.Keys
    requires forall p :: p in m && p !in s.flags ==> m[p] == a[p]
    ensures Fixed(s, Laid(s, m)).Keys == Fixed(s, Laid(s, a)).Keys == m.Keys
    ensures forall p :: p in m && p !in s.flags ==> Fixed(s, Laid(s, m))[p] == Fixed(s, Laid(s, a))[p]
  {
    forall p | p in m && p !in s.flags ensures Fixed(s, Laid(s, m))[p] == Fixed(s, Laid(s, a))[p] {
      FixedLaidLeaf(s, m, a, p);
    }
  }

  lemma IsWithFlags(s: Setup, m: Config, a: Config, b: Config)
    requires m.Keys == a.Keys == b.Keys
    requires forall p :: p in m ==> m[p] == if p in s.flags then b[p] else a[p]
    ensures m == WithFlags(s, a, b)
  {
    WithFlagsLeaves(s, a, b);
  }

  lemma WithFlagsLeaves(s: Setup, a: Config, b: Config)
    requires a.Keys == b.Keys
    ensures WithFlags(s, a, b).Keys == a.Keys
    ensures forall p :: p in a ==> WithFlags(s, a, b)[p] == if p in s.flags then b[p] else a[p]
  {
  }

  /** Overlaying and repairing a setting, between configurations that agree on its side. */
  lemma FixedLaidLeaf(s: Setup, m: Config, a: Config, p: Path)
    requires LawfulRules(s) && m.Keys == a.Keys && p in m && m[p] == a[p]
    requires p !in s.flags ==> forall q :: q in m && q !in s.flags ==> m[q] == a[q]
    ensures p in Fixed(s, Laid(s, m)) && p in Fixed(s, Laid(s, a))
    ensures Fixed(s, Laid(s, m))[p] == Fixed(s, Laid(s, a))[p]
  {
    FixIsLocal(s, Laid(s, m), Laid(s, a), p);
  }

  // ---- The invariant -----------------------------------------------------

  /** Every setting whose repair looks at nothing else is repaired. */
  ghost predicate Settled(s: Setup, c: Config) {
    forall p :: p in c && !Repair.Coupled(Repair.RoleOf(s.rules.at, p)) ==>
      Repair.FixLeaf(s.rules, c, p) == c[p]
  }

  ghost predicate Consistent(s: Setup, st: State) {
    st.config == Fixed(s, Laid(s, st.noEnv))
  }

  /** What holds in every loaded state, whatever the environment: both views are complete, the
      live one is valid and reproduces itself under overlay and repair, its flags come from the
      stored ones, and the stored one is repaired where nothing else is looked at. */
  ghost predicate Sound(s: Setup, st: State) {
    && st.noEnv.Keys == st.config.Keys == s.leaves
    && Fixed(s, Laid(s, st.config)) == st.config
    && FlagsAgree(s, st)
    && Settled(s, st.noEnv)
    && Valid(s, st.config)
    && st.custom == None
    && (st.saved.Some? ==> Conforms(s, st.saved.value))
  }

  ghost predicate FlagsAgree(s: Setup, st: State) {
    forall p :: p in s.flags && p in st.noEnv && p in st.config ==> FixedLaidAt(s, st.noEnv, p) == st.config[p]
  }

  ghost function FixedLaidAt(s: Setup, c: Config, p: Path): Value
    requires p in c
  {
    Fixed(s, Laid(s, c))[p]
  }

  /** What a store should satisfy: besides, the live configuration is the repaired overlay of
      the stored one. */
  ghost predicate Inv(s: Setup, st: State) {
    Sound(s, st) && Consistent(s, st)
  }

  /** A store before its first successful load. */
  ghost predicate Unloaded(s: Setup, st: State) {
    && st.config == map[]
    && (st.saved.Some? ==> Conforms(s, st.saved.value))
    && (st.custom.Some? ==> Conforms(s, st.custom.value))
  }

  lemma SettledAlone(s: Setup, c: Config, c': Config, p: Path)
    requires p in c && p in c' && c[p] == c'[p]
    requires !Repair.Coupled(Repair.RoleOf(s.rules.at, p))
    ensures Repair.FixLeaf(s.rules, c, p) == Repair.FixLeaf(s.rules, c', p)
  {
  }

  lemma FixedIsSettled(s: Setup, c: Config)
    requires LawfulRules(s)
    ensures Settled(s, Fixed(s, c))
  {
    Repair.FixIdempotent(s.rules, c);
    var f := Fixed(s, c);
    assert Fixed(s, f) == f;
    forall p | p in f ensures Repair.FixLeaf(s.rules, f, p) == f[p] {
      assert Fixed(s, f)[p] == f[p];
    }
  }

  lemma ReadConforms(s: Setup, st: State)
    requires Lawful(s)
    requires st.saved.Some? ==> Conforms(s, st.saved.value)
    requires st.custom.Some? ==> Conforms(s, st.custom.value)
    ensures Conforms(s, Read(s, st))
    ensures s.fill(Read(s, st)).Keys == s.leaves
  {
    assert Filled(s, Read(s, st));
  }

  /** A loaded pair of views satisfies the invariant. */
  lemma LoadedViews(s: Setup, y: Config, n: Config, c: Config)
    requires LawfulRules(s) && y.Keys == s.leaves
    requires n == Fixed(s, y) && c == Fixed(s, Laid(s, n))
    ensures n.Keys == c.Keys == s.leaves && Settled(s, n)
  {
    FixedIsSettled(s, y);
  }

  lemma ShownConforms(s: Setup, st: State, c: Config)
    requires c.Keys == s.leaves && s.flags <= s.leaves
    ensures Conforms(s, Shown(s, st, c))
  {
  }

  /** A successful load establishes the invariant from any state. */
  lemma LoadEstablishes(s: Setup, st: State, readable: bool, fate: Fate)
    requires Lawful(s)
    requires st.saved.Some? ==> Conforms(s, st.saved.value)
    requires st.custom.Some? ==> Conforms(s, st.custom.value)
    ensures var (st', r) := LoadStep(s, st, readable, fate); r == Done ==> Inv(s, st')
  {
    ReadConforms(s, st);
    var y, n, c := s.fill(Read(s, st)), LoadedNoEnv(s, st), Loaded(s, st);
    LoadedViews(s, y, n, c);
    ShownConforms(s, st, n);
    LoadDone(s, st, readable, fate, n, c);
    RelaidFix(s, n, c);
    if LoadStep(s, st, readable, fate).1 == Done { ConsistentFlagsAgree(s, LoadStep(s, st, readable, fate).0); }
  }

  lemma ConsistentFlagsAgree(s: Setup, st: State)
    requires Consistent(s, st)
    ensures FlagsAgree(s, st)
  {
  }

  /** The state after a load, field by field. */
  lemma LoadDone(s: Setup, st: State, readable: bool, fate: Fate, n: Config, c: Config)
    requires n == LoadedNoEnv(s, st) && c == Loaded(s, st)
    ensures var (st', r) := LoadStep(s, st, readable, fate);
      && (r != Done ==> st' == st.(custom := st'.custom) && (st'.custom == None || st'.custom == st.custom))
      && (r == Done ==>
            && Valid(s, c) && st'.config == c && st'.noEnv == n && st'.custom == None
            && (st'.saved == st.saved || st'.saved == Some(Shown(s, st, n)))
            && st'.emitted == Notify(st, st.config, c, LoadChanges(s, st, c))
            && (!LoadWrites(s, st, c) ==> st'.saved == st.saved && st'.writes == st.writes))
  {
  }

  /** The settings of a candidate after the overrides were taken off again. */
  lemma EnvBackLeaf(s: Setup, st: State, c: Config, p: Path)
    requires c.Keys == st.noEnv.Keys && p in c
    ensures EnvBack(s, st, c).Keys == c.Keys
    ensures EnvBack(s, st, c)[p] == if p in Env.OverridePaths(s.env) then st.noEnv[p] else c[p]
  {
  }

  /** Before the overlay, the submitted configuration is complete. */
  ghost function Submitted(s: Setup, st: State, newCfg: Config): Config {
    Masking.Desanitized(s.masks, st.config, s.fill(newCfg))
  }

  lemma SubmittedComplete(s: Setup, st: State, newCfg: Config)
    requires LawfulFill(s) && Conforms(s, newCfg) && st.config.Keys == s.leaves
    ensures Submitted(s, st, newCfg).Keys == s.leaves
    ensures Candidate(s, st, newCfg).Keys == s.leaves
  {
    assert Filled(s, newCfg);
  }

  /** Every reported override has a value that parses. */
  ghost predicate AllParse(s: Setup) {
    forall p :: p in Env.OverridePaths(s.env) ==> Env.Writes(s.env, p) != {}
  }

  /** For each reported override that does not parse, the candidate agrees with the stored
      configuration: the caller left the overridden setting alone. */
  ghost predicate LeavesUnparsedAlone(s: Setup, st: State, c: Config) {
    forall p :: p in Env.OverridePaths(s.env) && Env.Writes(s.env, p) == {} && p in c && p in st.noEnv ==>
      c[p] == st.noEnv[p]
  }

  /** The heart of `Set`: overlaying and repairing the configuration without overrides
      reproduces the candidate, if unparsable overrides were left alone. */
  lemma CandidateReproduced(s: Setup, st: State, y: Config, c: Config)
    requires LawfulRules(s) && y.Keys == c.Keys == st.noEnv.Keys
    requires c == Fixed(s, Laid(s, y))
    requires LeavesUnparsedAlone(s, st, c)
    ensures Fixed(s, Laid(s, EnvBack(s, st, c))) == c
  {
    var n := EnvBack(s, st, c);
    BackToCandidate(s, st, c, n);
    RelaidFix(s, y, n);
  }

  lemma BackToCandidate(s: Setup, st: State, c: Config, n: Config)
    requires c.Keys == st.noEnv.Keys && n == EnvBack(s, st, c) && LeavesUnparsedAlone(s, st, c)
    ensures n.Keys == c.Keys
    ensures forall p :: p in c && Env.Writes(s.env, p) == {} ==> n[p] == c[p]
  {
    forall p | p in c && Env.Writes(s.env, p) == {} ensures n[p] == c[p] {
      EnvBackLeaf(s, st, c, p);
    }
  }

  /** The state after a `Set` of the candidate `c`, field by field. */
  ghost predicate AfterSet(s: Setup, st: State, c: Config, st': State) {
    && st'.config == (if st.readOnlyFF then WithFlags(s, c, st.config) else c)
    && st'.noEnv == NoEnvAfter(s, st, c)
    && st'.saved == Some(Shown(s, st, EnvBack(s, st, c)))
    && st'.custom == st.custom && st'.readOnlyFF == st.readOnlyFF
    && st'.emitted == Notify(st, st.config, st'.config, Shown(s, st, st.config) != Shown(s, st, c))
  }

  ghost function NoEnvAfter(s: Setup, st: State, c: Config): Config {
    if st.readOnlyFF then WithFlags(s, EnvBack(s, st, c), st.noEnv) else EnvBack(s, st, c)
  }

  lemma SetDone(s: Setup, st: State, newCfg: Config, fate: Fate, c: Config)
    requires c == Candidate(s, st, newCfg)
    ensures var (st', r) := SetStep(s, st, newCfg, fate);
      if r == Done then Valid(s, c) && AfterSet(s, st, c, st') else st' == st
  {
  }

  lemma WithFlagsParts(s: Setup, a: Config, b: Config)
    requires a.Keys == b.Keys
    ensures WithFlags(s, a, b).Keys == a.Keys
    ensures NoFlags(s, WithFlags(s, a, b)) == NoFlags(s, a)
    ensures FlagsOf(s, WithFlags(s, a, b)) == FlagsOf(s, b)
  {
  }

  lemma NoEnvAfterSettled(s: Setup, st: State, c: Config)
    requires c.Keys == st.noEnv.Keys && Settled(s, st.noEnv) && Settled(s, c)
    ensures Settled(s, NoEnvAfter(s, st, c))
  {
    var n := NoEnvAfter(s, st, c);
    forall p | p in n && !Repair.Coupled(Repair.RoleOf(s.rules.at, p))
      ensures Repair.FixLeaf(s.rules, n, p) == n[p]
    {
      NoEnvAfterLeaf(s, st, c, p);
      SettledAlone(s, n, if n[p] == c[p] then c else st.noEnv, p);
    }
  }

  lemma NoEnvAfterLeaf(s: Setup, st: State, c: Config, p: Path)
    requires c.Keys == st.noEnv.Keys && p in c
    ensures p in NoEnvAfter(s, st, c)
    ensures NoEnvAfter(s, st, c)[p] ==
      if p in Env.OverridePaths(s.env) || (st.readOnlyFF && p in s.flags) then st.noEnv[p] else c[p]
  {
  }

  lemma NoEnvAfterComplete(s: Setup, st: State, c: Config)
    requires c.Keys == st.noEnv.Keys == s.leaves && s.flags <= s.leaves
    ensures EnvBack(s, st, c).Keys == NoEnvAfter(s, st, c).Keys == s.leaves
  {
  }

  /** The flags of both views go together through a `Set`: no override of a flag is taken off. */
  lemma AfterSetFlagsAgree(s: Setup, st: State, c: Config, st': State)
    requires LawfulRules(s) && LawfulPaths(s) && Sound(s, st) && AfterSet(s, st, c, st')
    requires c.Keys == s.leaves && Fixed(s, Laid(s, c)) == c
    ensures FlagsAgree(s, st')
  {
    NoEnvAfterComplete(s, st, c);
    WithFlagsLeaves(s, c, st.config);
    forall p | p in s.flags && p in st'.noEnv && p in st'.config
      ensures FixedLaidAt(s, st'.noEnv, p) == st'.config[p]
    {
      NoEnvAfterLeaf(s, st, c, p);
      FixedLaidLeaf(s, st'.noEnv, if st.readOnlyFF then st.noEnv else c, p);
      if st.readOnlyFF { assert FixedLaidAt(s, st.noEnv, p) == st.config[p]; }
    }
  }

  lemma AfterSetStable(s: Setup, st: State, c: Config, st': State)
    requires LawfulRules(s) && s.flags <= s.leaves && Sound(s, st) && AfterSet(s, st, c, st')
    requires c.Keys == s.leaves && Fixed(s, Laid(s, c)) == c
    ensures st'.config.Keys == s.leaves && Fixed(s, Laid(s, st'.config)) == st'.config
  {
    if st.readOnlyFF { FixedLaidWithFlags(s, c, st.config); }
  }

  lemma AfterSetSound(s: Setup, st: State, c: Config, st': State)
    requires LawfulRules(s) && LawfulPaths(s) && Sound(s, st) && AfterSet(s, st, c, st') && Valid(s, c)
    requires c.Keys == s.leaves && Fixed(s, Laid(s, c)) == c && Settled(s, c)
    ensures Sound(s, st')
  {
    NoEnvAfterComplete(s, st, c);
    AfterSetStable(s, st, c, st');
    AfterSetFlagsAgree(s, st, c, st');
    NoEnvAfterSettled(s, st, c);
    AfterSetValid(s, st, c, st');
    ShownConforms(s, st, EnvBack(s, st, c));
  }

  lemma AfterSetValid(s: Setup, st: State, c: Config, st': State)
    requires c.Keys == st.config.Keys && Valid(s, c) && Valid(s, st.config) && AfterSet(s, st, c, st')
    ensures Valid(s, st'.config)
  {
    WithFlagsParts(s, c, st.config);
  }

  /** A candidate is complete, settled, and its own repaired overlay. */
  lemma CandidateStable(s: Setup, st: State, newCfg: Config)
    requires LawfulRules(s) && LawfulFill(s) && st.config.Keys == s.leaves && Conforms(s, newCfg)
    ensures var c := Candidate(s, st, newCfg);
      c.Keys == s.leaves && Fixed(s, Laid(s, c)) == c && Settled(s, c)
  {
    SubmittedComplete(s, st, newCfg);
    RelaidFix(s, Submitted(s, st, newCfg), Candidate(s, st, newCfg));
    FixedIsSettled(s, Laid(s, Submitted(s, st, newCfg)));
  }

  /** In any environment a `Set` keeps what every loaded state satisfies. */
  lemma SetSound(s: Setup, st: State, newCfg: Config, fate: Fate)
    requires Lawful(s) && Sound(s, st) && Conforms(s, newCfg)
    ensures Sound(s, SetStep(s, st, newCfg, fate).0)
  {
    var c := Candidate(s, st, newCfg);
    CandidateStable(s, st, newCfg);
    SetDone(s, st, newCfg, fate, c);
    if SetStep(s, st, newCfg, fate).1 == Done { AfterSetSound(s, st, c, SetStep(s, st, newCfg, fate).0); }
  }

  /** In a loaded state unmasking never looks into a nil section, whatever is submitted. */
  lemma LoadedNeverPanics(s: Setup, st: State, target: Config)
    requires Sound(s, st) && forall p :: p in s.masks.unchecked ==> p in s.leaves && |p| > 0
    ensures Masking.SectionsThere(s.masks, st.config) && !Masking.Panics(s.masks, st.config, target)
  {
    forall p | p in s.masks.unchecked ensures Masking.SectionThere(st.config, p) {
      assert p in st.config;
    }
    Masking.NeverPanicsIff(s.masks, st.config);
  }

  // ---- When both views fit together --------------------------------------

  /** The caller leaves each setting alone whose override does not parse: what is submitted is
      repaired to what is stored. */
  ghost predicate UnparsedKept(s: Setup, st: State, newCfg: Config) {
    var y := Submitted(s, st, newCfg);
    forall p :: p in Env.OverridePaths(s.env) && Env.Writes(s.env, p) == {} && p in y && p in st.noEnv ==>
      Repair.FixLeaf(s.rules, y, p) == st.noEnv[p]
  }

  /** The directory and the locale list are text settings of a schema without name clashes. */
  ghost predicate TextSettings(s: Setup) {
    && s.env.schema.Section? && Environment.Clean(s.env.schema)
    && Environment.LeafAt(s.env.schema, s.rules.at.directory) == Some(KString)
    && Environment.LeafAt(s.env.schema, s.rules.at.available) == Some(KString)
  }

  /** Text overrides always parse, so a coupled setting is never among the unparsable ones. */
  lemma UnparsedIsUncoupled(s: Setup, p: Path)
    requires LawfulRules(s) && TextSettings(s) && p in Env.OverridePaths(s.env) && Env.Writes(s.env, p) == {}
    ensures !Repair.Coupled(Repair.RoleOf(s.rules.at, p))
  {
    assert Repair.SingleCharted(s.rules.at, p);
    if Repair.Coupled(Repair.RoleOf(s.rules.at, p)) {
      Env.ReportedTextIsWritten(s.env, p);
    }
  }

  /** An unparsed setting of the candidate is the repaired one of the submission. */
  lemma UnparsedCandidate(s: Setup, y: Config, p: Path)
    requires p in y && Env.Writes(s.env, p) == {}
    requires !Repair.Coupled(Repair.RoleOf(s.rules.at, p))
    ensures p in Fixed(s, Laid(s, y)) && FixedLaidAt(s, y, p) == Repair.FixLeaf(s.rules, y, p)
  {
    FixedLeaf(s, Laid(s, y), p);
    SettledAlone(s, Laid(s, y), y, p);
  }

  /** What the caller can check before the call is what the pipeline needs. */
  lemma UnparsedKeptIff(s: Setup, st: State, newCfg: Config)
    requires LawfulRules(s) && TextSettings(s)
    ensures UnparsedKept(s, st, newCfg) <==> LeavesUnparsedAlone(s, st, Candidate(s, st, newCfg))
  {
    UnparsedSubmission(s, Submitted(s, st, newCfg), Candidate(s, st, newCfg));
  }

  lemma UnparsedSubmission(s: Setup, y: Config, c: Config)
    requires LawfulRules(s) && TextSettings(s) && c == Fixed(s, Laid(s, y))
    ensures c.Keys == y.Keys
    ensures forall p :: p in Env.OverridePaths(s.env) && Env.Writes(s.env, p) == {} && p in y ==>
      c[p] == Repair.FixLeaf(s.rules, y, p)
  {
    forall p | p in Env.OverridePaths(s.env) && Env.Writes(s.env, p) == {} && p in y
      ensures c[p] == Repair.FixLeaf(s.rules, y, p)
    {
      UnparsedIsUncoupled(s, p);
      UnparsedCandidate(s, y, p);
    }
  }

  /** The part of a configuration that survives persisting. */
  ghost predicate SameShown(s: Setup, st: State, a: Config, b: Config) {
    && a.Keys == b.Keys
    && forall p :: p in a && (p !in s.flags || !st.readOnlyFF) ==> a[p] == b[p]
  }

  /** After a `Set` the live view fits the stored one exactly if unparsable overrides were left
      alone; the flags always fit. */
  lemma AfterSetFitsIff(s: Setup, st: State, y: Config, c: Config, st': State)
    requires LawfulRules(s) && LawfulPaths(s) && TextSettings(s) && Sound(s, st) && AfterSet(s, st, c, st')
    requires y.Keys == c.Keys == s.leaves && c == Fixed(s, Laid(s, y)) && Fixed(s, Laid(s, c)) == c
    ensures Consistent(s, st') <==> LeavesUnparsedAlone(s, st, c)
    ensures SameShown(s, st', Fixed(s, Laid(s, st'.noEnv)), st'.config) <==> LeavesUnparsedAlone(s, st, c)
  {
    NoEnvAfterComplete(s, st, c);
    AfterSetStable(s, st, c, st');
    if LeavesUnparsedAlone(s, st, c) {
      AfterSetFits(s, st, y, c, st');
    } else {
      AfterSetDiffers(s, st, c, st');
    }
  }

  lemma AfterSetFits(s: Setup, st: State, y: Config, c: Config, st': State)
    requires LawfulRules(s) && LawfulPaths(s) && Sound(s, st) && AfterSet(s, st, c, st')
    requires y.Keys == c.Keys == s.leaves && c == Fixed(s, Laid(s, y)) && Fixed(s, Laid(s, c)) == c
    requires LeavesUnparsedAlone(s, st, c)
    ensures Consistent(s, st')
  {
    CandidateReproduced(s, st, y, c);
    NoEnvAfterComplete(s, st, c);
    if st.readOnlyFF {
      FixedLaidWithFlags(s, EnvBack(s, st, c), st.noEnv);
      WithSameFlags(s, c, Fixed(s, Laid(s, st.noEnv)), st.config);
    }
  }

  lemma WithSameFlags(s: Setup, c: Config, a: Config, b: Config)
    requires c.Keys == a.Keys == b.Keys && forall p :: p in s.flags && p in a ==> a[p] == b[p]
    ensures WithFlags(s, c, a) == WithFlags(s, c, b)
  {
    WithFlagsLeaves(s, c, a);
    WithFlagsLeaves(s, c, b);
  }

  lemma AfterSetDiffers(s: Setup, st: State, c: Config, st': State)
    requires LawfulRules(s) && LawfulPaths(s) && TextSettings(s) && Sound(s, st) && AfterSet(s, st, c, st')
    requires c.Keys == s.leaves && !LeavesUnparsedAlone(s, st, c)
    ensures !Consistent(s, st') && !SameShown(s, st', Fixed(s, Laid(s, st'.noEnv)), st'.config)
  {
    var p :| p in Env.OverridePaths(s.env) && Env.Writes(s.env, p) == {}
      && p in c && p in st.noEnv && c[p] != st.noEnv[p];
    UnparsedIsUncoupled(s, p);
    NoEnvAfterLeaf(s, st, c, p);
    WithFlagsLeaves(s, c, st.config);
    assert st'.config[p] == c[p];
    UnparsedStays(s, st'.noEnv, st.noEnv, p);
  }

  lemma UnparsedStays(s: Setup, n: Config, base: Config, p: Path)
    requires p in n && p in base && n[p] == base[p] && Env.Writes(s.env, p) == {} && Settled(s, base)
    requires !Repair.Coupled(Repair.RoleOf(s.rules.at, p))
    ensures p in Fixed(s, Laid(s, n)) && Fixed(s, Laid(s, n))[p] == base[p]
  {
    SettledAlone(s, Laid(s, n), base, p);
  }

  /** The exact condition for one `Set`, from any reachable state: the live configuration is the
      repaired overlay of the stored one if and only if the caller left every unparsable
      override alone.  Otherwise the change takes effect but is not stored. */
  lemma SetConsistentIff(s: Setup, st: State, newCfg: Config, fate: Fate)
    requires Lawful(s) && TextSettings(s) && Sound(s, st) && Conforms(s, newCfg)
    requires SetStep(s, st, newCfg, fate).1 == Done
    ensures Consistent(s, SetStep(s, st, newCfg, fate).0) <==> UnparsedKept(s, st, newCfg)
  {
    var c := Candidate(s, st, newCfg);
    CandidateStable(s, st, newCfg);
    SubmittedComplete(s, st, newCfg);
    SetDone(s, st, newCfg, fate, c);
    UnparsedKeptIff(s, st, newCfg);
    AfterSetFitsIff(s, st, Submitted(s, st, newCfg), c, SetStep(s, st, newCfg, fate).0);
  }

  /** A `Set` that leaves unparsable overrides alone keeps the invariant. */
  lemma SetKeeps(s: Setup, st: State, newCfg: Config, fate: Fate)
    requires Lawful(s) && Inv(s, st) && Conforms(s, newCfg)
    requires LeavesUnparsedAlone(s, st, Candidate(s, st, newCfg))
    ensures Inv(s, SetStep(s, st, newCfg, fate).0)
  {
    var c := Candidate(s, st, newCfg);
    SetSound(s, st, newCfg, fate);
    CandidateStable(s, st, newCfg);
    SubmittedComplete(s, st, newCfg);
    SetDone(s, st, newCfg, fate, c);
    if SetStep(s, st, newCfg, fate).1 == Done {
      AfterSetFits(s, st, Submitted(s, st, newCfg), c, SetStep(s, st, newCfg, fate).0);
    }
  }

  // ---- Runs --------------------------------------------------------------

  ghost predicate OpConforms(s: Setup, op: Op) {
    op.Set? ==> Conforms(s, op.newCfg)
  }

  lemma StepSound(s: Setup, st: State, op: Op)
    requires Lawful(s) && Sound(s, st) && OpConforms(s, op)
    ensures Sound(s, Step(s, st, op).0)
  {
    var st' := Step(s, st, op).0;
    if op.Set? {
      SetSound(s, st, op.newCfg, op.fate);
    } else if op.Load? {
      LoadSound(s, st, op.readable, op.fate);
    } else {
      FlagSwitchKeeps(s, st, op.readOnly);
    }
    assert Sound(s, st');
  }

  lemma LoadSound(s: Setup, st: State, readable: bool, fate: Fate)
    requires Lawful(s) && Sound(s, st)
    ensures Sound(s, LoadStep(s, st, readable, fate).0)
    ensures Consistent(s, st) ==> Consistent(s, LoadStep(s, st, readable, fate).0)
  {
    LoadEstablishes(s, st, readable, fate);
    LoadDone(s, st, readable, fate, LoadedNoEnv(s, st), Loaded(s, st));
  }

  lemma FlagSwitchKeeps(s: Setup, st: State, b: bool)
    requires Sound(s, st)
    ensures Sound(s, st.(readOnlyFF := b))
    ensures Consistent(s, st) ==> Consistent(s, st.(readOnlyFF := b))
  {
  }

  /** Safety over all runs, in any environment. */
  lemma {:induction false} RunSound(s: Setup, st: State, ops: seq<Op>)
    requires Lawful(s) && Sound(s, st)
    requires forall op :: op in ops ==> OpConforms(s, op)
    ensures Sound(s, Run(s, st, ops))
  {
    if |ops| > 0 {
      RunSound(s, st, ops[..|ops| - 1]);
      StepSound(s, Run(s, st, ops[..|ops| - 1]), ops[|ops| - 1]);
    }
  }

  lemma ParsedLeavesAlone(s: Setup, st: State, c: Config)
    requires AllParse(s)
    ensures LeavesUnparsedAlone(s, st, c)
  {
  }

  lemma StepKeeps(s: Setup, st: State, op: Op)
    requires Lawful(s) && AllParse(s) && Inv(s, st) && OpConforms(s, op)
    ensures Inv(s, Step(s, st, op).0)
  {
    StepSound(s, st, op);
    var st' := Step(s, st, op).0;
    if op.Set? {
      ParsedLeavesAlone(s, st, Candidate(s, st, op.newCfg));
      SetKeeps(s, st, op.newCfg, op.fate);
    } else if op.Load? {
      LoadSound(s, st, op.readable, op.fate);
    } else {
      FlagSwitchKeeps(s, st, op.readOnly);
    }
    assert Consistent(s, st');
  }

  /** In an environment whose overrides all parse, the live configuration is the repaired overlay
      of the one without overrides after any sequence of sets, loads and flag switches,
      successful or not. */
  lemma {:induction false} RunInvariant(s: Setup, st: State, ops: seq<Op>)
    requires Lawful(s) && AllParse(s) && Inv(s, st)
    requires forall op :: op in ops ==> OpConforms(s, op)
    ensures Inv(s, Run(s, st, ops))
  {
    if |ops| > 0 {
      RunInvariant(s, st, ops[..|ops| - 1]);
      StepKeeps(s, Run(s, st, ops[..|ops| - 1]), ops[|ops| - 1]);
    }
  }

  /** Every successful `Set` of the run leaves the unparsable overrides of its state alone. */
  ghost predicate Careful(s: Setup, st: State, ops: seq<Op>) {
    |ops| == 0 ||
    var before, op := Run(s, st, ops[..|ops| - 1]), ops[|ops| - 1];
    && Careful(s, st, ops[..|ops| - 1])
    && (op.Set? && Step(s, before, op).1 == Done ==> UnparsedKept(s, before, op.newCfg))
  }

  ghost predicate AlwaysConsistent(s: Setup, st: State, ops: seq<Op>) {
    Consistent(s, Run(s, st, ops)) && (|ops| > 0 ==> AlwaysConsistent(s, st, ops[..|ops| - 1]))
  }

  /** Any environment, exactly: the live configuration is the repaired overlay of the stored one
      throughout a run if and only if each successful `Set` of the run left the settings alone
      whose overrides do not parse. */
  lemma {:induction false} RunConsistentIff(s: Setup, st: State, ops: seq<Op>)
    requires Lawful(s) && TextSettings(s) && Inv(s, st)
    requires forall op :: op in ops ==> OpConforms(s, op)
    ensures AlwaysConsistent(s, st, ops) <==> Careful(s, st, ops)
  {
    if |ops| > 0 {
      var ops', op := ops[..|ops| - 1], ops[|ops| - 1];
      RunConsistentIff(s, st, ops');
      RunSound(s, st, ops');
      if Consistent(s, Run(s, st, ops')) { StepConsistentIff(s, Run(s, st, ops'), op); }
      assert AlwaysConsistent(s, st, ops') ==> Consistent(s, Run(s, st, ops'));
    }
  }

  lemma StepConsistentIff(s: Setup, st: State, op: Op)
    requires Lawful(s) && TextSettings(s) && Inv(s, st) && OpConforms(s, op)
    ensures Consistent(s, Step(s, st, op).0)
      <==> (op.Set? && Step(s, st, op).1 == Done ==> UnparsedKept(s, st, op.newCfg))
  {
    if op.Set? {
      if Step(s, st, op).1 == Done {
        SetConsistentIff(s, st, op.newCfg, op.fate);
      } else {
        SetDone(s, st, op.newCfg, op.fate, Candidate(s, st, op.newCfg));
      }
    } else if op.Load? {
      LoadSound(s, st, op.readable, op.fate);
    } else {
      FlagSwitchKeeps(s, st, op.readOnly);
    }
  }

  // ---- Defaults and repair together --------------------------------------

  /** Replacing the setting at `p` by its value in `y` would be repaired back. */
  ghost predicate PutBack(s: Setup, c: Config, y: Config, p: Path)
    requires p in c && p in y
  {
    Repair.FixLeaf(s.rules, c[p := y[p]], p) == c[p]
  }

  ghost predicate AllPutBack(s: Setup, c: Config, y: Config)
    requires y.Keys == c.Keys
  {
    forall p :: p in c && p !in s.flags ==> PutBack(s, c, y, p)
  }

  /** The settings of `c` are the repaired ones of `y`, outside the flags. */
  ghost predicate RepairedFrom(s: Setup, y: Config, c: Config)
    requires y.Keys == c.Keys
  {
    forall p :: p in c && p !in s.flags ==> Repair.FixLeaf(s.rules, y, p) == c[p]
  }

  /** A whole repair can be judged setting by setting: the settings that the couplings look at
      are judged by themselves. */
  lemma RepairedFromIff(s: Setup, y: Config, c: Config)
    requires LawfulRules(s) && y.Keys == c.Keys
    ensures RepairedFrom(s, y, c) <==> AllPutBack(s, c, y)
  {
    if RepairedFrom(s, y, c) || AllPutBack(s, c, y) {
      ContextKept(s, y, c);
      forall p | p in c ensures PutBack(s, c, y, p) <==> Repair.FixLeaf(s.rules, y, p) == c[p] {
        Repair.ReplacedAlone(s.rules, y, c, p);
      }
    }
  }

  lemma ContextKept(s: Setup, y: Config, c: Config)
    requires LawfulRules(s) && y.Keys == c.Keys && (RepairedFrom(s, y, c) || AllPutBack(s, c, y))
    ensures Repair.SameContext(s.rules, y, c)
  {
    var at := s.rules.at;
    assert at.driver !in s.flags && at.clientLocale !in s.flags;
    if at.driver in c { Repair.ReplacedAlone(s.rules, y, c, at.driver); }
    if at.clientLocale in c { Repair.ReplacedAlone(s.rules, y, c, at.clientLocale); }
    assert at.driver in c ==> PutBack(s, c, y, at.driver);
    assert at.clientLocale in c ==> PutBack(s, c, y, at.clientLocale);
    Repair.RepairedContext(s.rules, y, c);
  }

  // ---- Masking -----------------------------------------------------------

  /** What the defaults make of a submission is repaired back to the live configuration, at every
      setting that no variable assigns. */
  ghost predicate DefaultsUndone(s: Setup, st: State, newCfg: Config) {
    UnassignedPutBack(s, st.config, Submitted(s, st, newCfg))
  }

  ghost predicate UnassignedPutBack(s: Setup, c: Config, y: Config) {
    forall p :: p in c && p in y && p !in s.flags && Env.Writes(s.env, p) == {} ==> PutBack(s, c, y, p)
  }

  /** Sending back what `Get` returned, with any of the secrets masked, changes nothing and
      notifies nobody, if and only if the repair undoes what the defaults make of it.  Otherwise
      it is refused, or the change is announced. */
  lemma MaskedSetIff(s: Setup, st: State, masked: Config)
    requires Lawful(s) && Sound(s, st) && !st.readOnly
    requires Masking.IsMaskOf(s.masks, masked, st.config)
    ensures var (st', r) := SetStep(s, st, masked, Persisted);
      && (r == Done && st'.config == st.config && st'.emitted == st.emitted <==> DefaultsUndone(s, st, masked))
      && (r == Done && !DefaultsUndone(s, st, masked) ==>
            NoFlags(s, st'.config) != NoFlags(s, st.config) && |st'.emitted| == |st.emitted| + 1)
  {
    var c := Candidate(s, st, masked);
    MaskedSubmission(s, st, masked);
    MaskedCandidateIff(s, st, Submitted(s, st, masked), c);
    if DefaultsUndone(s, st, masked) {
      FlagSideKept(s, Submitted(s, st, masked), st.config);
      SameWithFlags(s, c, st.config);
      ReplaceBySame(s, st);
    } else {
      ReplaceByOther(s, st, c);
    }
  }

  /** If the defaults leave alone every setting of it that no variable assigns, sending back what
      `Get` returned changes nothing and notifies nobody. */
  lemma MaskedSet(s: Setup, st: State, masked: Config)
    requires Lawful(s) && Sound(s, st) && !st.readOnly
    requires Masking.IsMaskOf(s.masks, masked, st.config)
    requires forall p :: p in masked && p in s.fill(masked) && p !in s.flags && Env.Writes(s.env, p) == {} ==>
      s.fill(masked)[p] == masked[p]
    ensures var (st', r) := SetStep(s, st, masked, Persisted);
      r == Done && st'.config == st.config && st'.emitted == st.emitted
  {
    MaskedSubmission(s, st, masked);
    Repair.FixIdempotent(s.rules, Laid(s, st.config));
    forall p | p in st.config && p !in s.flags && Env.Writes(s.env, p) == {}
      ensures PutBack(s, st.config, Submitted(s, st, masked), p)
    {
      UnmaskedLeaf(s, st, masked, p);
      SameIsPutBack(s, st.config, Submitted(s, st, masked), p);
    }
    MaskedSetIff(s, st, masked);
  }

  lemma SameIsPutBack(s: Setup, c: Config, y: Config, p: Path)
    requires p in c && p in y && c[p] == y[p] && Fixed(s, c) == c
    ensures PutBack(s, c, y, p)
  {
    assert c[p := y[p]] == c;
    FixedLeaf(s, c, p);
  }

  /** A masked setting that the defaults leave alone is submitted as it was. */
  lemma UnmaskedLeaf(s: Setup, st: State, masked: Config, p: Path)
    requires Masking.IsMaskOf(s.masks, masked, st.config) && p in st.config
    requires p in s.fill(masked) && s.fill(masked)[p] == masked[p]
    ensures p in Submitted(s, st, masked) && Submitted(s, st, masked)[p] == st.config[p]
  {
    Masking.RealOfMasked(s.masks, masked, st.config, p);
  }

  lemma MaskedSubmission(s: Setup, st: State, masked: Config)
    requires LawfulFill(s) && s.flags <= s.leaves && st.config.Keys == s.leaves
    requires Masking.IsMaskOf(s.masks, masked, st.config)
    ensures Submitted(s, st, masked).Keys == s.leaves && s.fill(masked).Keys == s.leaves
    ensures Candidate(s, st, masked).Keys == s.leaves
    ensures forall p :: p in s.flags ==> Submitted(s, st, masked)[p] == st.config[p]
  {
    assert Conforms(s, masked) && Filled(s, masked);
    SubmittedComplete(s, st, masked);
    forall p | p in s.flags ensures Submitted(s, st, masked)[p] == st.config[p] {
      UnmaskedLeaf(s, st, masked, p);
    }
  }

  /** A candidate is the live configuration, outside the flags, exactly if it is where no variable
      assigns: elsewhere both hold the repaired value of the variable. */
  lemma MaskedCandidateIff(s: Setup, st: State, y: Config, c: Config)
    requires LawfulRules(s) && Fixed(s, Laid(s, st.config)) == st.config && y.Keys == st.config.Keys
    requires c == Fixed(s, Laid(s, y))
    ensures NoFlags(s, c) == NoFlags(s, st.config) <==> UnassignedPutBack(s, st.config, y)
  {
    LiveIsRepaired(s, st.config, Laid(s, st.config));
    MixedPutBack(s, st.config, Laid(s, st.config), y, Laid(s, y));
    RepairedMeansSame(s, Laid(s, y), c, st.config);
  }

  lemma LiveIsRepaired(s: Setup, c: Config, x: Config)
    requires c == Fixed(s, x)
    ensures c.Keys == x.Keys && RepairedFrom(s, x, c)
  {
    forall p | p in x ensures Repair.FixLeaf(s.rules, x, p) == c[p] { FixedLeaf(s, x, p); }
  }

  lemma MixedPutBack(s: Setup, b: Config, x: Config, y: Config, z: Config)
    requires LawfulRules(s) && x.Keys == y.Keys == z.Keys == b.Keys && RepairedFrom(s, x, b)
    requires forall p :: p in b ==> z[p] == if Env.Writes(s.env, p) == {} then y[p] else x[p]
    ensures AllPutBack(s, b, z) <==> UnassignedPutBack(s, b, y)
  {
    RepairedFromIff(s, x, b);
    forall p | p in b && p !in s.flags
      ensures PutBack(s, b, z, p) <==> (Env.Writes(s.env, p) == {} ==> PutBack(s, b, y, p))
    {
      assert PutBack(s, b, x, p);
    }
  }

  lemma RepairedMeansSame(s: Setup, z: Config, c: Config, b: Config)
    requires LawfulRules(s) && c == Fixed(s, z) && b.Keys == z.Keys
    ensures NoFlags(s, c) == NoFlags(s, b) <==> AllPutBack(s, b, z)
  {
    RepairedFromIff(s, z, b);
    RestRepaired(s, z, c, b);
  }

  /** Outside the flags, repaired from the one means agreeing with the repair of it. */
  lemma RestRepaired(s: Setup, z: Config, c: Config, b: Config)
    requires c == Fixed(s, z) && b.Keys == z.Keys
    ensures NoFlags(s, c) == NoFlags(s, b) <==> RepairedFrom(s, z, b)
  {
    forall p | p in z ensures c[p] == Repair.FixLeaf(s.rules, z, p) { FixedLeaf(s, z, p); }
    if NoFlags(s, c) == NoFlags(s, b) {
      forall p | p in z && p !in s.flags ensures c[p] == b[p] {
        assert NoFlags(s, c)[p] == c[p] && NoFlags(s, b)[p] == b[p];
      }
    }
  }

  lemma SameWithFlags(s: Setup, c: Config, b: Config)
    requires c.Keys == b.Keys && NoFlags(s, c) == NoFlags(s, b) && forall p :: p in s.flags && p in c ==> c[p] == b[p]
    ensures c == b
  {
    forall p | p in c ensures c[p] == b[p] {
      assert p !in s.flags ==> NoFlags(s, c)[p] == c[p] && NoFlags(s, b)[p] == b[p];
    }
  }

  lemma ReplaceBySame(s: Setup, st: State)
    requires Valid(s, st.config)
    ensures var (st', r) := Replace(s, st, st.config, Persisted);
      r == Done && st'.config == st.config && st'.emitted == st.emitted
  {
    assert WithFlags(s, st.config, st.config) == st.config;
  }

  lemma ReplaceByOther(s: Setup, st: State, c: Config)
    requires c.Keys == st.config.Keys && NoFlags(s, c) != NoFlags(s, st.config)
    ensures var (st', r) := Replace(s, st, c, Persisted);
      r == Done ==> NoFlags(s, st'.config) != NoFlags(s, st.config) && |st'.emitted| == |st.emitted| + 1
  {
    WithFlagsParts(s, c, st.config);
    if Shown(s, st, st.config) == Shown(s, st, c) { ShownEqual(s, st, st.config, c); assert false; }
  }

  // ---- Quiet reload ------------------------------------------------------

  /** The backing store holds what the last `Set` wrote. */
  ghost predicate Stored(s: Setup, st: State) {
    st.saved == Some(Shown(s, st, st.noEnv))
  }

  /** Nothing visible happened. */
  ghost predicate Quiet(s: Setup, st: State, st': State) {
    && NoFlags(s, st'.config) == NoFlags(s, st.config)
    && NoFlags(s, st'.noEnv) == NoFlags(s, st.noEnv)
    && st'.saved == st.saved && st'.writes == st.writes && st'.emitted == st.emitted
  }

  /** The two coupled settings agree with the settings they depend on. */
  ghost predicate CouplingsHold(s: Setup, c: Config) {
    forall p :: p in c && Repair.Coupled(Repair.RoleOf(s.rules.at, p)) ==>
      Repair.FixLeaf(s.rules, c, p) == c[p]
  }

  lemma ReadBack(s: Setup, st: State)
    requires s.rules.at.siteURL in st.noEnv && s.rules.at.siteURL !in s.flags
    requires st.custom == None && Stored(s, st)
    ensures Read(s, st) == Shown(s, st, st.noEnv)
  {
  }

  /** What the next load starts from if `n` was stored: `n` without read-only flags, and what the
      defaults make of that. */
  ghost function Refilled(s: Setup, st: State, n: Config): Config {
    s.fill(Shown(s, st, n))
  }

  /** The defaults change nothing in it that the repair would not put right. */
  ghost predicate DefaultsLeave(s: Setup, st: State, n: Config) {
    var y := Refilled(s, st, n);
    forall p :: p in n && p in y && p !in s.flags ==> LeavesLeaf(s, n, y, p)
  }

  ghost predicate LeavesLeaf(s: Setup, n: Config, y: Config, p: Path)
    requires p in n && p in y
  {
    Repair.FixLeaf(s.rules, n[p := y[p]], p) == Repair.FixLeaf(s.rules, n, p)
  }

  lemma RefilledShape(s: Setup, st: State)
    requires LawfulPaths(s) && LawfulFill(s) && Stored(s, st)
    requires st.noEnv.Keys == s.leaves && st.custom == None
    ensures s.fill(Read(s, st)) == Refilled(s, st, st.noEnv) && Refilled(s, st, st.noEnv).Keys == s.leaves
    ensures !st.readOnlyFF ==> forall p :: p in s.flags ==> Refilled(s, st, st.noEnv)[p] == st.noEnv[p]
  {
    ReadBack(s, st);
    ShownConforms(s, st, st.noEnv);
    assert Filled(s, Shown(s, st, st.noEnv));
  }

  /** Putting the setting back takes two things: the defaults leave it, and it is repaired. */
  lemma PutBackParts(s: Setup, n: Config, y: Config, p: Path)
    requires LawfulRules(s) && p in n && p in y
    ensures PutBack(s, n, y, p) <==> LeavesLeaf(s, n, y, p) && Repair.FixLeaf(s.rules, n, p) == n[p]
  {
    var m := n[p := y[p]];
    if PutBack(s, n, y, p) {
      assert m.Keys == n.Keys;
      Repair.FixLeafOfMixture(s.rules, m, n, p);
    }
  }

  lemma AllPutBackParts(s: Setup, st: State, n: Config, y: Config)
    requires LawfulRules(s) && Settled(s, n) && y == Refilled(s, st, n) && y.Keys == n.Keys
    ensures AllPutBack(s, n, y) <==> DefaultsLeave(s, st, n) && CouplingsHold(s, n)
  {
    forall p | p in n && p !in s.flags
      ensures PutBack(s, n, y, p) <==> LeavesLeaf(s, n, y, p) && Repair.FixLeaf(s.rules, n, p) == n[p]
    {
      PutBackParts(s, n, y, p);
    }
    forall p | p in n && Repair.Coupled(Repair.RoleOf(s.rules.at, p)) ensures p !in s.flags { CoupledIsNoFlag(s, p); }
  }

  /** Reloaded settings that are repaired back are the old ones, as far as they are persisted. */
  lemma ReloadedSame(s: Setup, st: State, y: Config, n: Config)
    requires LawfulRules(s) && Settled(s, st.noEnv) && y.Keys == st.noEnv.Keys && n == Fixed(s, y)
    requires RepairedFrom(s, y, st.noEnv)
    requires !st.readOnlyFF ==> forall p :: p in s.flags && p in y ==> y[p] == st.noEnv[p]
    ensures SameShown(s, st, n, st.noEnv)
  {
    forall p | p in y && (p !in s.flags || !st.readOnlyFF) ensures n[p] == st.noEnv[p] {
      FixedLeaf(s, y, p);
      if p in s.flags {
        FixIsLocal(s, y, st.noEnv, p);
        FlagRepaired(s, st.noEnv, p);
      }
    }
  }

  lemma FlagRepaired(s: Setup, c: Config, p: Path)
    requires LawfulRules(s) && Settled(s, c) && p in c && p in s.flags
    ensures Repair.FixLeaf(s.rules, c, p) == c[p]
  {
    assert !Repair.Coupled(Repair.RoleOf(s.rules.at, p));
  }

  /** Views that agree where it is persisted agree there after overlay and repair, too. */
  lemma SameFixedLaid(s: Setup, st: State, a: Config, b: Config)
    requires LawfulRules(s) && a.Keys == s.leaves && SameShown(s, st, a, b)
    ensures SameShown(s, st, Fixed(s, Laid(s, a)), Fixed(s, Laid(s, b)))
  {
    forall p | p in s.leaves && (p !in s.flags || !st.readOnlyFF)
      ensures Fixed(s, Laid(s, a))[p] == Fixed(s, Laid(s, b))[p]
    {
      FixedLaidLeaf(s, a, b, p);
    }
  }

  lemma SameShownParts(s: Setup, st: State, a: Config, b: Config)
    requires SameShown(s, st, a, b)
    ensures Shown(s, st, a) == Shown(s, st, b) && NoFlags(s, a) == NoFlags(s, b)
  {
  }

  lemma ShownIsSame(s: Setup, st: State, a: Config, b: Config)
    requires a.Keys == b.Keys && Shown(s, st, a) == Shown(s, st, b)
    ensures SameShown(s, st, a, b)
  {
    forall p | p in a && (p !in s.flags || !st.readOnlyFF) ensures a[p] == b[p] {
      assert Shown(s, st, a)[p] == a[p] && Shown(s, st, b)[p] == b[p];
    }
  }

  /** The live view fits the stored one, as far as it is persisted. */
  ghost predicate Fits(s: Setup, st: State) {
    SameShown(s, st, Fixed(s, Laid(s, st.noEnv)), st.config)
  }

  /** A reload is quiet exactly if the reloaded views are the old ones where it counts. */
  lemma QuietMeansSame(s: Setup, st: State, fate: Fate, n: Config, c: Config)
    requires n == LoadedNoEnv(s, st) && c == Loaded(s, st) && Stored(s, st)
    requires LoadStep(s, st, true, fate).1 == Done
    ensures Quiet(s, st, LoadStep(s, st, true, fate).0)
      <==> NoFlags(s, n) == NoFlags(s, st.noEnv) && Shown(s, st, st.config) == Shown(s, st, c)
  {
    LoadDone(s, st, true, fate, n, c);
    if Shown(s, st, st.config) == Shown(s, st, c) { ShownEqual(s, st, st.config, c); }
  }

  /** Reloading what was stored last is quiet if and only if the defaults leave the stored
      configuration alone, it meets its own couplings, and the live one fits it.  Nothing is
      assumed about the overrides. */
  lemma QuietReloadIff(s: Setup, st: State, fate: Fate)
    requires Lawful(s) && st.noEnv.Keys == st.config.Keys == s.leaves
    requires Settled(s, st.noEnv) && st.custom == None && Stored(s, st)
    requires LoadStep(s, st, true, fate).1 == Done
    ensures Quiet(s, st, LoadStep(s, st, true, fate).0)
      <==> DefaultsLeave(s, st, st.noEnv) && CouplingsHold(s, st.noEnv) && Fits(s, st)
  {
    var y, n, c := Refilled(s, st, st.noEnv), LoadedNoEnv(s, st), Loaded(s, st);
    RefilledShape(s, st);
    QuietMeansSame(s, st, fate, n, c);
    AllPutBackParts(s, st, st.noEnv, y);
    RepairedFromIff(s, y, st.noEnv);
    RestRepaired(s, y, n, st.noEnv);
    if RepairedFrom(s, y, st.noEnv) {
      ReloadedSame(s, st, y, n);
      SameFixedLaid(s, st, n, st.noEnv);
      SameViewsFit(s, st, n, c, Fixed(s, Laid(s, st.noEnv)));
    }
  }

  lemma SameViewsFit(s: Setup, st: State, n: Config, c: Config, f: Config)
    requires SameShown(s, st, n, st.noEnv) && SameShown(s, st, c, f) && f.Keys == st.config.Keys
    ensures NoFlags(s, n) == NoFlags(s, st.noEnv)
    ensures Shown(s, st, st.config) == Shown(s, st, c) <==> SameShown(s, st, f, st.config)
  {
    SameShownParts(s, st, n, st.noEnv);
    FitsMeansSame(s, st, c, f);
  }

  lemma FitsMeansSame(s: Setup, st: State, c: Config, f: Config)
    requires SameShown(s, st, c, f) && f.Keys == st.config.Keys
    ensures Shown(s, st, st.config) == Shown(s, st, c) <==> SameShown(s, st, f, st.config)
  {
    if SameShown(s, st, f, st.config) {
      SameShownParts(s, st, c, st.config);
    } else if Shown(s, st, st.config) == Shown(s, st, c) {
      ShownIsSame(s, st, st.config, c);
      assert false;
    }
  }

  lemma CoupledIsNoFlag(s: Setup, p: Path)
    requires LawfulRules(s) && Repair.Coupled(Repair.RoleOf(s.rules.at, p))
    ensures p !in s.flags
  {
  }

  /** The environment overrides none of the settings that take part in a coupling. */
  ghost predicate CouplingsNotOverridden(s: Setup) {
    forall p :: p in Env.OverridePaths(s.env) ==>
      Repair.RoleOf(s.rules.at, p) !in {Repair.Driver, Repair.Directory, Repair.ClientLocale, Repair.Available}
  }

  lemma SetCouples(s: Setup, st: State, x: Config, c: Config)
    requires LawfulRules(s) && CouplingsNotOverridden(s)
    requires c.Keys == st.noEnv.Keys && c == Fixed(s, x)
    ensures CouplingsHold(s, EnvBack(s, st, c))
  {
    Repair.FixIdempotent(s.rules, x);
    var n := EnvBack(s, st, c);
    forall p | p in n && Repair.Coupled(Repair.RoleOf(s.rules.at, p)) ensures Repair.FixLeaf(s.rules, n, p) == n[p] {
      CoupledKept(s, st, c, p);
      assert Fixed(s, c)[p] == c[p];
    }
  }

  lemma CoupledKept(s: Setup, st: State, c: Config, p: Path)
    requires LawfulRules(s) && CouplingsNotOverridden(s) && c.Keys == st.noEnv.Keys && p in c
    requires Repair.Coupled(Repair.RoleOf(s.rules.at, p))
    ensures var n := EnvBack(s, st, c);
      p in n && n[p] == c[p] && Repair.FixLeaf(s.rules, n, p) == Repair.FixLeaf(s.rules, c, p)
  {
    var at, n := s.rules.at, EnvBack(s, st, c);
    EnvBackLeaf(s, st, c, p);
    if at.driver in c { EnvBackLeaf(s, st, c, at.driver); }
    if at.clientLocale in c { EnvBackLeaf(s, st, c, at.clientLocale); }
    assert Repair.SameContext(s.rules, n, c);
    Repair.UncoupledAlone(s.rules, n, c, p);
  }

  /** What a `Set` is about to store, flags included: the candidate without the overrides. */
  ghost function ToStore(s: Setup, st: State, newCfg: Config): Config {
    EnvBack(s, st, Candidate(s, st, newCfg))
  }

  /** What decides about the stored configuration does not look at the flags. */
  lemma FlagsDoNotMatter(s: Setup, st: State, a: Config, b: Config)
    requires LawfulRules(s) && a.Keys == b.Keys && NoFlags(s, a) == NoFlags(s, b)
    requires Shown(s, st, a) == Shown(s, st, b)
    ensures CouplingsHold(s, a) <==> CouplingsHold(s, b)
    ensures DefaultsLeave(s, st, a) <==> DefaultsLeave(s, st, b)
  {
    var y := Refilled(s, st, a);
    forall p | p in a && p !in s.flags ensures JudgedAlike(s, a, b, y, p) {
      RestAgrees(s, a, b);
      FlagsLeaveLeaf(s, a, b, y, p);
    }
    SameCouplings(s, a, b, y);
    assert Refilled(s, st, b) == y;
  }

  /** Both configurations judge the setting alike. */
  ghost predicate JudgedAlike(s: Setup, a: Config, b: Config, y: Config, p: Path)
    requires p in a && p in b
  {
    && a[p] == b[p] && Repair.FixLeaf(s.rules, a, p) == Repair.FixLeaf(s.rules, b, p)
    && (p in y ==> (LeavesLeaf(s, a, y, p) <==> LeavesLeaf(s, b, y, p)))
  }

  lemma FlagsLeaveLeaf(s: Setup, a: Config, b: Config, y: Config, p: Path)
    requires LawfulRules(s) && a.Keys == b.Keys && p in a && p !in s.flags
    requires forall q :: q in a && q !in s.flags ==> a[q] == b[q]
    ensures JudgedAlike(s, a, b, y, p)
  {
    FixIsLocal(s, a, b, p);
    if p in y { FixIsLocal(s, a[p := y[p]], b[p := y[p]], p); }
  }

  lemma SameCouplings(s: Setup, a: Config, b: Config, y: Config)
    requires LawfulRules(s) && a.Keys == b.Keys
    requires forall p :: p in a && p !in s.flags ==> JudgedAlike(s, a, b, y, p)
    ensures CouplingsHold(s, a) <==> CouplingsHold(s, b)
  {
    forall p | p in a && Repair.Coupled(Repair.RoleOf(s.rules.at, p)) ensures JudgedAlike(s, a, b, y, p) {
      CoupledIsNoFlag(s, p);
    }
  }

  lemma RestAgrees(s: Setup, a: Config, b: Config)
    requires a.Keys == b.Keys && NoFlags(s, a) == NoFlags(s, b)
    ensures forall p :: p in a && p !in s.flags ==> a[p] == b[p]
  {
    forall p | p in a && p !in s.flags ensures a[p] == b[p] {
      assert NoFlags(s, a)[p] == a[p] && NoFlags(s, b)[p] == b[p];
    }
  }

  /** Loading right after a successful `Set`, exactly: it changes neither view outside the flags,
      writes nothing back and notifies nobody, if and only if the caller left the unparsable
      overrides alone and what was to be stored meets its couplings and is left alone by the
      defaults. */
  lemma SetThenLoadIff(s: Setup, st: State, newCfg: Config, st': State, fate: Fate)
    requires Lawful(s) && TextSettings(s) && Sound(s, st) && Conforms(s, newCfg)
    requires SetStep(s, st, newCfg, Persisted) == (st', Done)
    requires LoadStep(s, st', true, fate).1 == Done
    ensures Quiet(s, st', LoadStep(s, st', true, fate).0) <==>
      && UnparsedKept(s, st, newCfg)
      && CouplingsHold(s, ToStore(s, st, newCfg)) && DefaultsLeave(s, st, ToStore(s, st, newCfg))
  {
    var c := Candidate(s, st, newCfg);
    SetSound(s, st, newCfg, Persisted);
    CandidateStable(s, st, newCfg);
    SubmittedComplete(s, st, newCfg);
    SetDone(s, st, newCfg, Persisted, c);
    UnparsedKeptIff(s, st, newCfg);
    AfterSetFitsIff(s, st, Submitted(s, st, newCfg), c, st');
    AfterSetStored(s, st, c, st');
    AfterSetShown(s, st, c, st');
    QuietReloadIff(s, st', fate);
  }

  /** What decides about the next reload can be seen on what is to be stored. */
  lemma AfterSetShown(s: Setup, st: State, c: Config, st': State)
    requires LawfulRules(s) && AfterSet(s, st, c, st') && c.Keys == st.noEnv.Keys
    ensures CouplingsHold(s, st'.noEnv) <==> CouplingsHold(s, EnvBack(s, st, c))
    ensures DefaultsLeave(s, st', st'.noEnv) <==> DefaultsLeave(s, st, EnvBack(s, st, c))
  {
    WithFlagsParts(s, EnvBack(s, st, c), st.noEnv);
    FlagsDoNotMatter(s, st, st'.noEnv, EnvBack(s, st, c));
    SameSwitch(s, st, st', st'.noEnv);
  }

  lemma SameSwitch(s: Setup, st: State, st': State, n: Config)
    requires st.readOnlyFF == st'.readOnlyFF
    ensures DefaultsLeave(s, st, n) <==> DefaultsLeave(s, st', n)
  {
    assert Shown(s, st, n) == Shown(s, st', n);
  }

  /** If the environment overrides none of the coupled settings, the reload after a `Set` is
      quiet exactly if the caller left the unparsable overrides alone and the defaults leave
      alone what was to be stored. */
  lemma QuietReload(s: Setup, st: State, newCfg: Config, st': State, fate: Fate)
    requires Lawful(s) && TextSettings(s) && Sound(s, st) && Conforms(s, newCfg) && CouplingsNotOverridden(s)
    requires SetStep(s, st, newCfg, Persisted) == (st', Done)
    requires LoadStep(s, st', true, fate).1 == Done
    ensures Quiet(s, st', LoadStep(s, st', true, fate).0)
      <==> UnparsedKept(s, st, newCfg) && DefaultsLeave(s, st, ToStore(s, st, newCfg))
  {
    SubmittedComplete(s, st, newCfg);
    SetCouples(s, st, Laid(s, Submitted(s, st, newCfg)), Candidate(s, st, newCfg));
    SetThenLoadIff(s, st, newCfg, st', fate);
  }

  lemma AfterSetStored(s: Setup, st: State, c: Config, st': State)
    requires AfterSet(s, st, c, st') && c.Keys == st.noEnv.Keys
    ensures Stored(s, st')
  {
    WithFlagsParts(s, EnvBack(s, st, c), st.noEnv);
  }

  // ---- The chain of notifications ----------------------------------------

  /** Each notification starts, up to feature flags, where the previous one ended. */
  ghost predicate Linked(s: Setup, events: seq<Event>) {
    forall i :: 0 < i < |events| ==> NoFlags(s, events[i].before) == NoFlags(s, events[i - 1].after)
  }

  /** The notifications lead from the empty configuration to the current one. */
  ghost predicate Chained(s: Setup, st: State) {
    && Linked(s, st.emitted)
    && (|st.emitted| == 0 ==> NoFlags(s, st.config) == map[])
    && (|st.emitted| > 0 ==>
          && st.emitted[0].before == map[]
          && NoFlags(s, st.emitted[|st.emitted| - 1].after) == NoFlags(s, st.config))
  }

  /** The link a successful step adds, if it adds one. */
  lemma Extended(s: Setup, st: State, st': State, c: Config)
    requires Chained(s, st) && (|st.emitted| == 0 ==> st.config == map[])
    requires NoFlags(s, st'.config) == NoFlags(s, c)
    requires st'.emitted == Notify(st, st.config, st'.config, Shown(s, st, st.config) != Shown(s, st, c))
    ensures Chained(s, st')
    ensures st.emitted <= st'.emitted && |st'.emitted| <= |st.emitted| + 1
  {
    if st'.emitted == st.emitted { ShownEqual(s, st, st.config, c); }
  }

  lemma ShownEqual(s: Setup, st: State, a: Config, b: Config)
    requires Shown(s, st, a) == Shown(s, st, b)
    ensures NoFlags(s, a) == NoFlags(s, b)
  {
  }

  /** Reachable states: nothing was announced before the first successful load, and what holds
      in every loaded state holds after it. */
  ghost predicate Reachable(s: Setup, st: State) {
    Chained(s, st) && (Sound(s, st) || (Unloaded(s, st) && st.emitted == [] && st.noEnv == map[]))
  }

  /** The operations a store can take: nothing is set before the first load succeeded. */
  ghost predicate Allowed(s: Setup, st: State, op: Op) {
    OpConforms(s, op) && (op.Set? ==> Sound(s, st))
  }

  /** One step adds at most one link, and only to the end; a failed step adds nothing and
      leaves both views alone. */
  lemma StepReaches(s: Setup, st: State, op: Op)
    requires Lawful(s) && Reachable(s, st) && Allowed(s, st, op)
    ensures var (st', r) := Step(s, st, op);
      && Reachable(s, st')
      && st.emitted <= st'.emitted && |st'.emitted| <= |st.emitted| + 1
      && (r != Done ==> st'.emitted == st.emitted && st'.config == st.config && st'.noEnv == st.noEnv)
  {
    NotStarted(s, st);
    match op
    case Set(newCfg, fate) =>
      SetSound(s, st, newCfg, fate);
      SubmittedComplete(s, st, newCfg);
      SetExtends(s, st, newCfg, fate, Candidate(s, st, newCfg));
    case Load(readable, fate) =>
      LoadExtends(s, st, readable, fate, Loaded(s, st));
      LoadReaches(s, st, readable, fate);
    case SetReadOnlyFF(b) =>
      StepKeepsFlagSwitch(s, st, b);
  }

  /** A store that has announced nothing has never loaded: any loaded configuration has a
      site URL. */
  lemma NotStarted(s: Setup, st: State)
    requires LawfulPaths(s) && Reachable(s, st)
    ensures st.emitted == [] ==> st.config == map[]
  {
    var url := s.rules.at.siteURL;
    assert url in st.config ==> url in NoFlags(s, st.config);
    assert Sound(s, st) ==> url in st.config;
  }

  lemma LoadReaches(s: Setup, st: State, readable: bool, fate: Fate)
    requires Lawful(s) && Reachable(s, st)
    ensures var (st', r) := LoadStep(s, st, readable, fate);
      Sound(s, st') || (Unloaded(s, st') && st'.emitted == [] && st'.noEnv == map[])
  {
    LoadEstablishes(s, st, readable, fate);
    LoadDone(s, st, readable, fate, LoadedNoEnv(s, st), Loaded(s, st));
  }

  lemma StepKeepsFlagSwitch(s: Setup, st: State, b: bool)
    requires Reachable(s, st)
    ensures Reachable(s, st.(readOnlyFF := b))
  {
  }

  lemma SetExtends(s: Setup, st: State, newCfg: Config, fate: Fate, c: Config)
    requires Chained(s, st) && (|st.emitted| == 0 ==> st.config == map[])
    requires c == Candidate(s, st, newCfg) && c.Keys == st.config.Keys
    ensures var (st', r) := SetStep(s, st, newCfg, fate);
      && Chained(s, st') && st.emitted <= st'.emitted && |st'.emitted| <= |st.emitted| + 1
      && (r != Done ==> st' == st)
  {
    SetDone(s, st, newCfg, fate, c);
    WithFlagsParts(s, c, st.config);
    var (st', r) := SetStep(s, st, newCfg, fate);
    if r == Done { Extended(s, st, st', c); }
  }

  lemma LoadExtends(s: Setup, st: State, readable: bool, fate: Fate, c: Config)
    requires Chained(s, st) && (|st.emitted| == 0 ==> st.config == map[])
    requires c == Loaded(s, st)
    ensures var (st', r) := LoadStep(s, st, readable, fate);
      && Chained(s, st') && st.emitted <= st'.emitted && |st'.emitted| <= |st.emitted| + 1
      && (r != Done ==> st'.emitted == st.emitted && st'.config == st.config && st'.noEnv == st.noEnv)
  {
    LoadDone(s, st, readable, fate, LoadedNoEnv(s, st), c);
    var (st', r) := LoadStep(s, st, readable, fate);
    if r == Done { Extended(s, st, st', c); }
  }

  ghost predicate AllowedRun(s: Setup, st: State, ops: seq<Op>) {
    |ops| == 0 || (AllowedRun(s, st, ops[..|ops| - 1])
                   && Allowed(s, Run(s, st, ops[..|ops| - 1]), ops[|ops| - 1]))
  }

  /** The notification chain of every run from a new store: the announced pairs link end to
      end, from the empty configuration to the current one, up to feature flags.  A step
      taken inside a listener is one more step of the run. */
  lemma {:induction false} RunChains(s: Setup, st: State, ops: seq<Op>)
    requires Lawful(s) && AllowedRun(s, st, ops)
    requires Unloaded(s, st) && st.emitted == [] && st.noEnv == map[]
    ensures Reachable(s, Run(s, st, ops))
  {
    if |ops| > 0 {
      RunChains(s, st, ops[..|ops| - 1]);
      StepReaches(s, Run(s, st, ops[..|ops| - 1]), ops[|ops| - 1]);
    }
  }
}
