/** The steps of the configuration store, setting by setting: what a load reads, what a set and a
    load make of the store, and what a read-only store keeps. */
module StoreSteps {
  import opened Options
  import opened ConfigModel
  import opened StoreModel
  import opened StoreRuns
  import Env = Overlay
  import Repair = ConfigRepair
  import Masking = Desanitize

  // ---- What is compared and what is stored -------------------------------

  /** The part of a configuration that counts: without the flags if they are read-only. */
  predicate Counting(s: Setup, st: State, p: Path) {
    p !in s.flags || !st.readOnlyFF
  }

  /** The two configurations agree where it counts. */
  ghost predicate Agree(s: Setup, st: State, a: Config, b: Config) {
    forall p :: Counting(s, st, p) ==> (p in a <==> p in b) && (p in a && p in b ==> a[p] == b[p])
  }

  /** `k` is the part of `c` that counts. */
  ghost predicate IsKept(s: Setup, st: State, c: Config, k: Config) {
    (forall p :: p in k <==> p in c && Counting(s, st, p)) && forall p :: p in k && p in c ==> k[p] == c[p]
  }

  lemma ShownIff(s: Setup, st: State, a: Config, b: Config)
    ensures Shown(s, st, a) == Shown(s, st, b) <==> Agree(s, st, a, b)
  {
    var x, y := Shown(s, st, a), Shown(s, st, b);
    forall p ensures p in x <==> p in a && Counting(s, st, p) { }
    forall p ensures p in y <==> p in b && Counting(s, st, p) { }
    if x == y {
      forall p | Counting(s, st, p) ensures (p in a <==> p in b) && (p in a && p in b ==> a[p] == b[p]) {
        assert p in a ==> p in x && x[p] == a[p];
        assert p in b ==> p in y && y[p] == b[p];
      }
    }
  }

  lemma KeptIff(s: Setup, st: State, c: Config, k: Config)
    ensures k == Shown(s, st, c) <==> IsKept(s, st, c, k)
  {
    var x := Shown(s, st, c);
    forall p ensures p in x <==> p in c && Counting(s, st, p) { }
  }

  /** Whether a configuration passes: its flags and everything else are judged separately. */
  predicate Passes(s: Setup, c: Config) {
    && s.validBody(map p | p in c && p !in s.flags :: c[p])
    && s.validFlags(map p | p in c && p in s.flags :: c[p])
  }

  lemma PassesIff(s: Setup, c: Config)
    ensures Passes(s, c) <==> Valid(s, c)
  {
    assert NoFlags(s, c) == map p | p in c && p !in s.flags :: c[p];
  }

  // ---- Load --------------------------------------------------------------

  /** What a load reads: the stored value of a setting, else its custom default, else nothing but
      an empty site URL. */
  ghost predicate IsRead(s: Setup, st: State, x: Config) {
    var saved: Config := if st.saved.Some? then st.saved.value else map[];
    var custom: Config := if st.custom.Some? then st.custom.value else map[];
    && (forall p :: p in x <==> p in saved || p in custom || p == s.rules.at.siteURL)
    && forall p :: p in x ==> x[p] == if p in saved then saved[p] else if p in custom then custom[p] else Str("")
  }

  lemma ReadIff(s: Setup, st: State, x: Config)
    ensures x == Read(s, st) <==> IsRead(s, st, x)
  {
  }

  /** A load, field by field and setting by setting.  It is announced exactly if the live view
      changed where it counts, and then, or if nothing was stored, it is written back, unless the
      store is read-only.  A failed one leaves everything alone but the custom defaults, which
      are used up once the backing store was read. */
  lemma LoadOutcome(s: Setup, st: State, readable: bool, fate: Fate, x: Config, n: Config, c: Config)
    requires IsRead(s, st, x) && n == Fixed(s, s.fill(x)) && c == Fixed(s, Laid(s, n))
    ensures var (st', r) := LoadStep(s, st, readable, fate);
      var writes := !st.readOnly && (!Agree(s, st, st.config, c) || st.saved.None?);
      && r == (if !readable then Unreadable else if !Passes(s, c) then Invalid
               else if writes && fate == Broken then NotPersisted else Done)
      && (r == Unreadable ==> st' == st)
      && (r in {Invalid, NotPersisted} ==> st' == st.(custom := None))
      && (r == Done ==>
            && st'.config == c && st'.noEnv == n && st'.custom == None
            && st'.readOnly == st.readOnly && st'.readOnlyFF == st.readOnlyFF
            && (if writes && fate == Persisted
                then st'.saved.Some? && IsKept(s, st, n, st'.saved.value) && st'.writes == st.writes + 1
                else st'.saved == st.saved && st'.writes == st.writes)
            && st'.emitted ==
                 if Agree(s, st, st.config, c) then st.emitted else st.emitted + [Event(st.config, c)])
  {
    ReadIff(s, st, x);
    PassesIff(s, c);
    ShownIff(s, st, st.config, c);
    KeptIff(s, st, n, Shown(s, st, n));
    AdoptOutcome(s, st, n, c, fate);
  }

  lemma AdoptOutcome(s: Setup, st: State, n: Config, c: Config, fate: Fate)
    ensures var (st', r) := Adopt(s, st, n, c, fate);
      var same := Shown(s, st, st.config) == Shown(s, st, c);
      var writes := !st.readOnly && (!same || st.saved.None?);
      && r == (if !Valid(s, c) then Invalid else if writes && fate == Broken then NotPersisted else Done)
      && (r != Done ==> st' == st.(custom := None))
      && (r == Done ==> st' == State(c, n, None, st.readOnly, st.readOnlyFF,
            if writes && fate == Persisted then Some(Shown(s, st, n)) else st.saved,
            if writes && fate == Persisted then st.writes + 1 else st.writes,
            if same then st.emitted else st.emitted + [Event(st.config, c)]))
  {
  }

  /** A stored setting that defaults and repair leave alone is loaded as it was stored, whatever
      the custom defaults say. */
  lemma StoredSettingLoads(s: Setup, st: State, fate: Fate, x: Config, p: Path)
    requires IsRead(s, st, x) && st.saved.Some? && p in st.saved.value && p in s.fill(x)
    requires s.fill(x)[p] == x[p] && Repair.FixLeaf(s.rules, s.fill(x), p) == x[p]
    requires LoadStep(s, st, true, fate).1 == Done
    ensures var n := LoadStep(s, st, true, fate).0.noEnv; p in n && n[p] == st.saved.value[p]
  {
    var n := Fixed(s, s.fill(x));
    LoadOutcome(s, st, true, fate, x, n, Fixed(s, Laid(s, n)));
    FixedLeaf(s, s.fill(x), p);
  }

  // ---- Set ---------------------------------------------------------------

  /** The stored view after a set of the candidate `c`: a reported override keeps what was stored,
      and so do read-only flags. */
  ghost predicate IsStoredView(s: Setup, st: State, c: Config, n: Config) {
    && n.Keys == c.Keys
    && forall p :: p in c && p in st.noEnv ==>
         n[p] == if p in Env.OverridePaths(s.env) || !Counting(s, st, p) then st.noEnv[p] else c[p]
  }

  /** A set, field by field and setting by setting, where `u` is the submission with its defaults,
      unmasked, and `c` its repaired overlay.  It is announced exactly if the live view changed
      where it counts; what is stored is the stored view where it counts; and a refused or failed
      one changes nothing. */
  lemma SetOutcome(s: Setup, st: State, newCfg: Config, fate: Fate, u: Config, c: Config)
    requires LawfulFill(s) && s.flags <= s.leaves && Conforms(s, newCfg)
    requires st.config.Keys == st.noEnv.Keys == s.leaves
    requires Masking.IsUnmasked(s.masks, st.config, s.fill(newCfg), u) && c == Fixed(s, Laid(s, u))
    ensures var (st', r) := SetStep(s, st, newCfg, fate);
      && r == (if st.readOnly then ReadOnlyStore else if !Passes(s, c) then Invalid
               else if fate != Persisted then NotPersisted else Done)
      && (r != Done ==> st' == st)
      && (r == Done ==>
            && st'.custom == st.custom && st'.readOnly == st.readOnly && st'.readOnlyFF == st.readOnlyFF
            && st'.config.Keys == s.leaves
            && (forall p :: p in s.leaves ==> st'.config[p] == if Counting(s, st, p) then c[p] else st.config[p])
            && IsStoredView(s, st, c, st'.noEnv)
            && st'.saved.Some? && IsKept(s, st, st'.noEnv, st'.saved.value) && st'.writes == st.writes + 1
            && st'.emitted ==
                 if Agree(s, st, st.config, c) then st.emitted else st.emitted + [Event(st.config, st'.config)])
  {
    Masking.UnmaskedIff(s.masks, st.config, s.fill(newCfg), u);
    SubmittedComplete(s, st, newCfg);
    PassesIff(s, c);
    ShownIff(s, st, st.config, c);
    ReplaceOutcome(s, st, c, fate);
    if SetStep(s, st, newCfg, fate).1 == Done {
      LiveView(s, st, c);
      StoredView(s, st, c);
    }
  }

  lemma ReplaceOutcome(s: Setup, st: State, c: Config, fate: Fate)
    ensures var (st', r) := Replace(s, st, c, fate);
      && r == (if !Valid(s, c) then Invalid else if fate != Persisted then NotPersisted else Done)
      && (r != Done ==> st' == st)
      && (r == Done ==>
            && AfterSet(s, st, c, st') && st'.writes == st.writes + 1 && st'.readOnly == st.readOnly)
  {
  }

  lemma LiveView(s: Setup, st: State, c: Config)
    requires c.Keys == st.config.Keys
    ensures var live := if st.readOnlyFF then WithFlags(s, c, st.config) else c;
      live.Keys == c.Keys && forall p :: p in c ==> live[p] == if Counting(s, st, p) then c[p] else st.config[p]
  {
    WithFlagsLeaves(s, c, st.config);
  }

  lemma StoredView(s: Setup, st: State, c: Config)
    requires c.Keys == st.noEnv.Keys == s.leaves && s.flags <= s.leaves
    ensures IsStoredView(s, st, c, NoEnvAfter(s, st, c))
    ensures IsKept(s, st, NoEnvAfter(s, st, c), Shown(s, st, EnvBack(s, st, c)))
  {
    var n := NoEnvAfter(s, st, c);
    NoEnvAfterComplete(s, st, c);
    forall p | p in c
      ensures n[p] == if p in Env.OverridePaths(s.env) || !Counting(s, st, p) then st.noEnv[p] else c[p]
    {
      NoEnvAfterLeaf(s, st, c, p);
    }
    WithFlagsParts(s, EnvBack(s, st, c), st.noEnv);
    KeptIff(s, st, n, Shown(s, st, EnvBack(s, st, c)));
  }

  // ---- A read-only store -------------------------------------------------

  /** A read-only store refuses every set and never writes, whatever is loaded. */
  lemma ReadOnlyStep(s: Setup, st: State, op: Op)
    requires st.readOnly
    ensures var (st', r) := Step(s, st, op);
      && st'.readOnly && st'.saved == st.saved && st'.writes == st.writes
      && (op.Set? ==> r == ReadOnlyStore && st' == st)
  {
    if op.Load? { LoadDone(s, st, op.readable, op.fate, LoadedNoEnv(s, st), Loaded(s, st)); }
  }

  /** Over every run a read-only store keeps what is stored. */
  lemma {:induction false} ReadOnlyRun(s: Setup, st: State, ops: seq<Op>)
    requires st.readOnly
    ensures var st' := Run(s, st, ops); st'.readOnly && st'.saved == st.saved && st'.writes == st.writes
  {
    if |ops| > 0 {
      ReadOnlyRun(s, st, ops[..|ops| - 1]);
      ReadOnlyStep(s, Run(s, st, ops[..|ops| - 1]), ops[|ops| - 1]);
    }
  }
}
