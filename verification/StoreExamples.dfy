/** The real names of a few settings, and concrete inputs for the failures that the exact
    conditions describe. */
module StoreExamples {
  import opened Options
  import opened ConfigModel
  import opened StoreModel
  import opened StoreRuns
  import opened StoreWitness
  import opened Environment
  import Env = Overlay
  import Repair = ConfigRepair
  import Masking = Desanitize

  // ---- A small schema ----------------------------------------------------

  const SITE_URL: Path := ["ServiceSettings", "SiteURL"]
  const DEVELOPER: Path := ["ServiceSettings", "EnableDeveloper"]
  const SPLIT_KEY: Path := ["ServiceSettings", "SplitKey"]
  const DRIVER: Path := ["FileSettings", "DriverName"]
  const DIRECTORY: Path := ["FileSettings", "Directory"]
  const LOCALES: Path := ["LocalizationSettings", "AvailableLocales"]
  const METRICS: Path := ["MetricsSettings", "Enable"]
  const STATES: Path := ["PluginSettings", "PluginStates"]
  const APPS: Path := ["FeatureFlags", "AppsEnabled"]

  const SERVICE_FIELDS := [
    Field("SiteURL", Leaf(KString)), Field("EnableDeveloper", Leaf(KBool)), Field("SplitKey", Leaf(KString))]
  const FILE_FIELDS := [Field("DriverName", Leaf(KString)), Field("Directory", Leaf(KString))]
  const LOCALE_FIELDS := [Field("AvailableLocales", Leaf(KString))]
  const METRICS_FIELDS := [Field("Enable", Leaf(KBool))]
  const PLUGIN_FIELDS := [Field("PluginStates", Leaf(KTable))]
  const FLAG_FIELDS := [Field("AppsEnabled", Leaf(KBool))]

  /** The fields of each section. */
  datatype Parts = Parts(
    service: seq<Field>, file: seq<Field>, locale: seq<Field>,
    metrics: seq<Field>, plugin: seq<Field>, flag: seq<Field>)

  const PARTS := Parts(SERVICE_FIELDS, FILE_FIELDS, LOCALE_FIELDS, METRICS_FIELDS, PLUGIN_FIELDS, FLAG_FIELDS)

  function SchemaOf(parts: Parts): Type {
    Section([
      Field("ServiceSettings", Section(parts.service)), Field("FileSettings", Section(parts.file)),
      Field("LocalizationSettings", Section(parts.locale)), Field("MetricsSettings", Section(parts.metrics)),
      Field("PluginSettings", Section(parts.plugin)), Field("FeatureFlags", SectionPtr(parts.flag))])
  }

  const SCHEMA := SchemaOf(PARTS)

  const DEFAULTS: Config := map[
    SITE_URL := Str(""), DEVELOPER := Flag(false), SPLIT_KEY := Str(""), DRIVER := Str("local"),
    DIRECTORY := Str("./data/"), LOCALES := Str(""), APPS := Flag(false), METRICS := Flag(false),
    STATES := Table(map[])]

  /** The real repaired and masked settings, on the small schema. */
  const REAL := Blueprint(
    Repair.MATTERMOST, SCHEMA, Masking.MATTERMOST_MASKS, DEFAULTS, {APPS},
    METRICS, STATES, "com.mattermost.mattermost-plugin-metrics")

  // ---- The schema is clean -----------------------------------------------

  ghost predicate LeafFields(fields: seq<Field>) {
    forall f :: f in fields ==> '_' !in f.name && f.ty.Leaf?
  }

  lemma CleanLeaves(fields: seq<Field>)
    requires LeafFields(fields)
    requires forall i, j :: 0 <= i < j < |fields| ==> NameMark(fields[i].name) != NameMark(fields[j].name)
    ensures Clean(Section(fields)) && Clean(SectionPtr(fields))
  {
    CleanSection(fields, Section(fields));
    CleanSection(fields, SectionPtr(fields));
  }

  lemma CleanService(fields: seq<Field>)
    requires fields == SERVICE_FIELDS
    ensures Clean(Section(fields)) && |fields| == 3 && LeafFields(fields)
  {
    assert |fields[0].name| == 7 && |fields[1].name| == 15 && |fields[2].name| == 8;
    assert LeafFields(fields);
    ThreeClean(fields);
  }

  lemma ThreeClean(fields: seq<Field>)
    requires |fields| == 3 && LeafFields(fields)
    requires |fields[0].name| == 7 && |fields[1].name| == 15 && |fields[2].name| == 8
    ensures Clean(Section(fields))
  {
    CleanLeaves(fields);
  }

  lemma CleanFile(fields: seq<Field>)
    requires fields == FILE_FIELDS
    ensures Clean(Section(fields)) && |fields| == 2 && LeafFields(fields)
  {
    assert |fields[0].name| == 10 && |fields[1].name| == 9;
    CleanLeaves(fields);
  }

  lemma CleanLocale(fields: seq<Field>)
    requires fields == LOCALE_FIELDS
    ensures Clean(Section(fields)) && |fields| == 1 && LeafFields(fields)
  {
    CleanLeaves(fields);
  }

  lemma CleanMetrics(fields: seq<Field>)
    requires fields == METRICS_FIELDS
    ensures Clean(Section(fields)) && |fields| == 1 && LeafFields(fields)
  {
    CleanLeaves(fields);
  }

  lemma CleanPlugin(fields: seq<Field>)
    requires fields == PLUGIN_FIELDS
    ensures Clean(Section(fields)) && |fields| == 1 && LeafFields(fields)
  {
    CleanLeaves(fields);
  }

  lemma CleanFlag(fields: seq<Field>)
    requires fields == FLAG_FIELDS
    ensures Clean(SectionPtr(fields)) && |fields| == 1 && LeafFields(fields)
  {
    CleanLeaves(fields);
  }

  ghost predicate CleanParts(parts: Parts) {
    && Clean(Section(parts.service)) && Clean(Section(parts.file)) && Clean(Section(parts.locale))
    && Clean(Section(parts.metrics)) && Clean(Section(parts.plugin)) && Clean(SectionPtr(parts.flag))
  }

  lemma FirstNames(ty: Type, parts: Parts)
    requires ty == SchemaOf(parts)
    ensures '_' !in ty.fields[0].name && '_' !in ty.fields[1].name
  {
  }

  lemma MiddleNames(ty: Type, parts: Parts)
    requires ty == SchemaOf(parts)
    ensures '_' !in ty.fields[2].name && '_' !in ty.fields[3].name
  {
  }

  lemma LastNames(ty: Type, parts: Parts)
    requires ty == SchemaOf(parts)
    ensures '_' !in ty.fields[4].name && '_' !in ty.fields[5].name
  {
  }

  lemma FirstMarks(ty: Type, parts: Parts)
    requires ty == SchemaOf(parts)
    ensures NameMark(ty.fields[0].name) == (15, 'R') && NameMark(ty.fields[1].name) == (12, 'L')
    ensures NameMark(ty.fields[2].name) == (20, 'C')
  {
  }

  lemma LastMarks(ty: Type, parts: Parts)
    requires ty == SchemaOf(parts)
    ensures NameMark(ty.fields[3].name) == (15, 'T') && NameMark(ty.fields[4].name) == (14, 'U')
    ensures NameMark(ty.fields[5].name) == (12, 'A')
  {
  }

  lemma SchemaParts(ty: Type, parts: Parts)
    requires ty == SchemaOf(parts)
    ensures |ty.fields| == 6
    ensures ty.fields[0].ty == Section(parts.service) && ty.fields[1].ty == Section(parts.file)
    ensures ty.fields[2].ty == Section(parts.locale) && ty.fields[3].ty == Section(parts.metrics)
    ensures ty.fields[4].ty == Section(parts.plugin) && ty.fields[5].ty == SectionPtr(parts.flag)
  {
  }

  /** What makes six fields clean. */
  ghost predicate SixNames(fields: seq<Field>) {
    && |fields| == 6
    && '_' !in fields[0].name && '_' !in fields[1].name && '_' !in fields[2].name
    && '_' !in fields[3].name && '_' !in fields[4].name && '_' !in fields[5].name
    && NameMark(fields[0].name) == (15, 'R') && NameMark(fields[1].name) == (12, 'L')
    && NameMark(fields[2].name) == (20, 'C') && NameMark(fields[3].name) == (15, 'T')
    && NameMark(fields[4].name) == (14, 'U') && NameMark(fields[5].name) == (12, 'A')
  }

  lemma SixApart(fields: seq<Field>)
    requires SixNames(fields)
    ensures forall i, j :: 0 <= i < j < |fields| ==> NameMark(fields[i].name) != NameMark(fields[j].name)
  {
  }

  lemma SixClean(fields: seq<Field>, parts: Parts)
    requires SixNames(fields) && CleanParts(parts)
    requires fields[0].ty == Section(parts.service) && fields[1].ty == Section(parts.file)
    requires fields[2].ty == Section(parts.locale) && fields[3].ty == Section(parts.metrics)
    requires fields[4].ty == Section(parts.plugin) && fields[5].ty == SectionPtr(parts.flag)
    ensures Clean(Section(fields))
  {
    SixApart(fields);
    assert forall i :: 0 <= i < 6 ==> Clean(fields[i].ty);
    CleanSection(fields, Section(fields));
  }

  lemma SchemaClean(ty: Type, parts: Parts)
    requires ty == SchemaOf(parts) && CleanParts(parts)
    ensures Clean(ty)
  {
    SchemaParts(ty, parts);
    FirstNames(ty, parts);
    MiddleNames(ty, parts);
    LastNames(ty, parts);
    FirstMarks(ty, parts);
    LastMarks(ty, parts);
    SixClean(ty.fields, parts);
  }

  lemma RealSchemaClean(ty: Type)
    requires ty == SCHEMA
    ensures Clean(ty)
  {
    CleanService(PARTS.service);
    CleanFile(PARTS.file);
    CleanLocale(PARTS.locale);
    CleanMetrics(PARTS.metrics);
    CleanPlugin(PARTS.plugin);
    CleanFlag(PARTS.flag);
    SchemaClean(ty, PARTS);
  }

  // ---- The real installation ---------------------------------------------

  /** A leaf of a value section of a clean schema is there, and reportable. */
  lemma InSchema(ty: Type, i: nat, name: string, fields: seq<Field>, j: nat, p: Path)
    requires ty.Section? && Clean(ty) && i < |ty.fields| && ty.fields[i] == Field(name, Section(fields))
    requires j < |fields| && fields[j].ty.Leaf? && p == [name, fields[j].name]
    ensures Reportable(ty, p, fields[j].ty.kind)
  {
    var f, g := ty.fields[i], fields[j];
    LeafInSection(ty, f, g);
    assert p[1..] == [g.name];
    assert Env.IsValueField(g, p[1..]);
    assert Env.IsValueField(f, p);
  }

  lemma SchemaFields(ty: Type, parts: Parts)
    requires ty == SchemaOf(parts)
    ensures |ty.fields| == 6
    ensures ty.fields[0] == Field("ServiceSettings", Section(parts.service))
    ensures ty.fields[1] == Field("FileSettings", Section(parts.file))
    ensures ty.fields[2] == Field("LocalizationSettings", Section(parts.locale))
    ensures ty.fields[3] == Field("MetricsSettings", Section(parts.metrics))
  {
  }

  lemma ServiceAt(ty: Type, p: Path)
    requires ty == SCHEMA && p == DEVELOPER
    ensures |ty.fields| == 6 && |p| == 2 && ty.fields[0] == Field(p[0], Section(SERVICE_FIELDS))
  {
    SchemaFields(ty, PARTS);
  }

  lemma DeveloperAt(fields: seq<Field>, p: Path)
    requires fields == SERVICE_FIELDS && p == DEVELOPER
    ensures |fields| == 3 && |p| == 2 && fields[1] == Field(p[1], Leaf(KBool))
  {
  }

  lemma DeveloperReportable(ty: Type, p: Path)
    requires ty == SCHEMA && Clean(ty) && p == DEVELOPER
    ensures Reportable(ty, p, KBool)
  {
    ServiceAt(ty, p);
    DeveloperAt(SERVICE_FIELDS, p);
    SwitchAt(ty, SERVICE_FIELDS, p);
  }

  lemma SwitchAt(ty: Type, fields: seq<Field>, p: Path)
    requires ty.Section? && Clean(ty) && |p| == 2 && |ty.fields| > 0 && ty.fields[0] == Field(p[0], Section(fields))
    requires |fields| > 1 && fields[1] == Field(p[1], Leaf(KBool))
    ensures Reportable(ty, p, KBool)
  {
    assert p == [p[0], p[1]];
    InSchema(ty, 0, p[0], fields, 1, p);
  }

  lemma MetricsReportable(ty: Type)
    requires ty == SCHEMA && Clean(ty)
    ensures Reportable(ty, METRICS, KBool)
  {
    SchemaFields(ty, PARTS);
    InSchema(ty, 3, "MetricsSettings", METRICS_FIELDS, 0, METRICS);
  }

  lemma FilesReportable(ty: Type)
    requires ty == SCHEMA && Clean(ty)
    ensures Reportable(ty, DRIVER, KString) && Reportable(ty, DIRECTORY, KString)
  {
    SchemaFields(ty, PARTS);
    InSchema(ty, 1, "FileSettings", FILE_FIELDS, 0, DRIVER);
    InSchema(ty, 1, "FileSettings", FILE_FIELDS, 1, DIRECTORY);
  }

  lemma LocalesReportable(ty: Type)
    requires ty == SCHEMA && Clean(ty)
    ensures Reportable(ty, LOCALES, KString)
  {
    SchemaFields(ty, PARTS);
    InSchema(ty, 2, "LocalizationSettings", LOCALE_FIELDS, 0, LOCALES);
  }

  lemma SiteReportable(ty: Type)
    requires ty == SCHEMA && Clean(ty)
    ensures Reportable(ty, SITE_URL, KString)
  {
    SchemaFields(ty, PARTS);
    InSchema(ty, 0, "ServiceSettings", SERVICE_FIELDS, 0, SITE_URL);
  }

  lemma RealPaths(at: Repair.Layout)
    requires at == Repair.MATTERMOST
    ensures at.siteURL == SITE_URL && at.driver == DRIVER && at.directory == DIRECTORY && at.available == LOCALES
    ensures APPS in at.retired && DEVELOPER !in at.retired
  {
    assert at.retired[0] == APPS;
    assert forall i :: 0 <= i < |at.retired| ==> |at.retired[i][0]| == 12;
    assert |DEVELOPER[0]| == 15;
  }

  lemma ServiceMarks()
    ensures Repair.Mark(SITE_URL) == 1507 && Repair.Mark(DEVELOPER) == 1515 && Repair.Mark(SPLIT_KEY) == 1508
    ensures Repair.Mark(METRICS) == 1506
  {
  }

  lemma OtherMarks()
    ensures Repair.Mark(DRIVER) == 1210 && Repair.Mark(DIRECTORY) == 1209 && Repair.Mark(APPS) == 1211
    ensures Repair.Mark(LOCALES) == 2016 && Repair.Mark(STATES) == 1412
  {
  }

  lemma RealDefaults(d: Config)
    requires d == DEFAULTS
    ensures {SITE_URL, DEVELOPER, SPLIT_KEY, DRIVER, DIRECTORY, APPS, METRICS, STATES} <= d.Keys
    ensures d[DEVELOPER] == Flag(false) && d[DRIVER] == Str("local")
    ensures d[METRICS] == Flag(false) && d[STATES] == Table(map[])
  {
    ServiceMarks();
    OtherMarks();
  }

  lemma RealApart()
    ensures APPS !in {SITE_URL, DEVELOPER, DRIVER, DIRECTORY, METRICS, STATES}
    ensures SITE_URL !in {DEVELOPER, DRIVER, METRICS, STATES} && STATES != METRICS
  {
    ServiceMarks();
    OtherMarks();
  }

  lemma RealStates(masks: Masking.Masks)
    requires masks == Masking.MATTERMOST_MASKS
    ensures masks.plugins != STATES
  {
    assert |masks.plugins[1]| == 7 && |STATES[1]| == 12;
  }

  /** What the installations below need to know of the real names. */
  ghost predicate Ready(b: Blueprint, p: Path) {
    && Suits(b) && Reportable(b.schema, p, KBool) && Reportable(b.schema, b.at.driver, KString)
    && Reportable(b.schema, b.metrics, KBool)
    && LeftAlone(b, p) && p !in b.flags && b.defaults[p] == Flag(false)
    && LeftAlone(b, b.at.driver) && b.at.driver !in b.flags && b.defaults[b.at.driver] == Str(Repair.DRIVER_LOCAL)
    && b.at.directory in b.defaults && b.at.directory !in b.flags
  }

  ghost predicate Leaves(b: Blueprint, p: Path) {
    && b.schema.Section? && Clean(b.schema)
    && Reportable(b.schema, p, KBool) && Reportable(b.schema, b.metrics, KBool)
    && Reportable(b.schema, b.at.driver, KString)
    && Reportable(b.schema, b.at.directory, KString) && Reportable(b.schema, b.at.available, KString)
  }

  ghost predicate Settings(b: Blueprint, p: Path, f: Path) {
    && b.flags == {f} && f in b.defaults && f in b.at.retired && p !in b.at.retired
    && {b.at.siteURL, p, b.at.driver, b.at.directory} <= b.defaults.Keys
    && f !in {b.at.siteURL, p, b.at.driver, b.at.directory} && b.at.siteURL !in {p, b.at.driver}
    && b.defaults[p] == Flag(false) && b.defaults[b.at.driver] == Str(Repair.DRIVER_LOCAL)
  }

  lemma ReadyByParts(b: Blueprint, p: Path, f: Path)
    requires Repair.Separate(b.at) && Masking.Separate(b.masks) && Metered(b) && Leaves(b, p) && Settings(b, p, f)
    ensures Ready(b, p)
  {
    SuitsByParts(b, p, f);
    LeftByParts(b, p, f);
  }

  lemma SuitsByParts(b: Blueprint, p: Path, f: Path)
    requires Repair.Separate(b.at) && Masking.Separate(b.masks) && Metered(b) && Leaves(b, p) && Settings(b, p, f)
    ensures Suits(b)
  {
    assert Repair.ListCharted(b.at, f);
  }

  lemma LeftByParts(b: Blueprint, p: Path, f: Path)
    requires Repair.Separate(b.at) && Settings(b, p, f)
    ensures LeftAlone(b, p) && LeftAlone(b, b.at.driver)
  {
    assert Repair.ListCharted(b.at, p);
  }

  lemma RealLeaves(b: Blueprint, p: Path)
    requires b == REAL && p == DEVELOPER
    ensures Leaves(b, p)
  {
    RealPaths(b.at);
    RealSchemaClean(b.schema);
    DeveloperReportable(b.schema, p);
    MetricsReportable(b.schema);
    FilesReportable(b.schema);
    LocalesReportable(b.schema);
  }

  lemma RealSettings(b: Blueprint, p: Path, f: Path)
    requires b == REAL && p == DEVELOPER && f == APPS
    ensures Settings(b, p, f)
  {
    RealPaths(b.at);
    RealDefaults(b.defaults);
    RealApart();
  }

  lemma RealMetered(b: Blueprint)
    requires b == REAL
    ensures Metered(b)
  {
    RealPaths(b.at);
    RealDefaults(b.defaults);
    RealApart();
    RealStates(b.masks);
    ServiceMarks();
    Repair.UnmarkedIsOther(METRICS);
  }

  lemma RealSeparate(b: Blueprint)
    requires b == REAL
    ensures Repair.Separate(b.at) && Masking.Separate(b.masks)
  {
    Repair.MattermostSeparate();
    Masking.MattermostMasksSeparate();
  }

  lemma RealReady(b: Blueprint, p: Path)
    requires b == REAL && p == DEVELOPER
    ensures Ready(b, p)
  {
    RealLeaves(b, p);
    RealSettings(b, p, APPS);
    RealMetered(b);
    RealSeparate(b);
    ReadyByParts(b, p, APPS);
  }

  // ---- The variables -----------------------------------------------------

  lemma KeyIs(p: Path, u: string, v: string)
    requires |p| == 2 && Upper(p[0]) == u && Upper(p[1]) == v
    ensures "MM_" + CanonicalKey(p) == "MM_" + (u + "_" + v)
  {
    assert p == [p[0], p[1]];
    KeyOfTwo(p[0], p[1]);
    assert u + "_" + v == u + ("_" + v);
  }

  lemma ServiceUpper(a: string)
    requires a == "ServiceSettings"
    ensures Upper(a) == "SERVICESETTINGS"
  {
    UpperIs(a, "SERVICESETTINGS");
  }

  lemma DeveloperUpper(a: string)
    requires a == "EnableDeveloper"
    ensures Upper(a) == "ENABLEDEVELOPER"
  {
    UpperIs(a, "ENABLEDEVELOPER");
  }

  lemma SiteUpper(a: string)
    requires a == "SiteURL"
    ensures Upper(a) == "SITEURL"
  {
    UpperIs(a, "SITEURL");
  }

  lemma FileUpper(a: string)
    requires a == "FileSettings"
    ensures Upper(a) == "FILESETTINGS"
  {
    UpperIs(a, "FILESETTINGS");
  }

  lemma DriverUpper(a: string)
    requires a == "DriverName"
    ensures Upper(a) == "DRIVERNAME"
  {
    UpperIs(a, "DRIVERNAME");
  }

  lemma MetricsUpper(a: string, b: string)
    requires a == "MetricsSettings" && b == "Enable"
    ensures Upper(a) == "METRICSSETTINGS" && Upper(b) == "ENABLE"
  {
    UpperIs(a, "METRICSSETTINGS");
    UpperIs(b, "ENABLE");
  }

  lemma DeveloperWhole(u: string, v: string)
    requires u == "SERVICESETTINGS" && v == "ENABLEDEVELOPER"
    ensures "MM_" + (u + "_" + v) == "MM_SERVICESETTINGS_ENABLEDEVELOPER"
  {
  }

  lemma DriverWhole(u: string, v: string)
    requires u == "FILESETTINGS" && v == "DRIVERNAME"
    ensures "MM_" + (u + "_" + v) == "MM_FILESETTINGS_DRIVERNAME"
  {
  }

  lemma MetricsWhole(u: string, v: string)
    requires u == "METRICSSETTINGS" && v == "ENABLE"
    ensures "MM_" + (u + "_" + v) == "MM_METRICSSETTINGS_ENABLE"
  {
  }

  lemma SiteWhole(u: string, v: string, extra: string)
    requires u == "SERVICESETTINGS" && v == "SITEURL" && extra == "_X"
    ensures "MM_" + (u + "_" + v) + extra == "MM_SERVICESETTINGS_SITEURL_X"
  {
  }

  lemma DeveloperKey(p: Path)
    requires p == DEVELOPER
    ensures "MM_" + CanonicalKey(p) == "MM_SERVICESETTINGS_ENABLEDEVELOPER"
  {
    var u, v := Upper(p[0]), Upper(p[1]);
    KeyIs(p, u, v);
    ServiceUpper(p[0]);
    DeveloperUpper(p[1]);
    DeveloperWhole(u, v);
  }

  lemma DriverKey(p: Path)
    requires p == DRIVER
    ensures "MM_" + CanonicalKey(p) == "MM_FILESETTINGS_DRIVERNAME"
  {
    var u, v := Upper(p[0]), Upper(p[1]);
    KeyIs(p, u, v);
    FileUpper(p[0]);
    DriverUpper(p[1]);
    DriverWhole(u, v);
  }

  lemma MetricsKey(p: Path)
    requires p == METRICS
    ensures "MM_" + CanonicalKey(p) == "MM_METRICSSETTINGS_ENABLE"
  {
    var u, v := Upper(p[0]), Upper(p[1]);
    KeyIs(p, u, v);
    MetricsUpper(p[0], p[1]);
    MetricsWhole(u, v);
  }

  lemma SiteKey(p: Path, extra: string)
    requires p == SITE_URL && extra == "_X"
    ensures "MM_" + CanonicalKey(p) + extra == "MM_SERVICESETTINGS_SITEURL_X"
  {
    var u, v := Upper(p[0]), Upper(p[1]);
    KeyIs(p, u, v);
    ServiceUpper(p[0]);
    SiteUpper(p[1]);
    SiteWhole(u, v, extra);
  }

  // ---- The examples ------------------------------------------------------

  /** The assumptions of the run theorems hold for an installation with the real repaired and
      masked settings, in which a setting is overridden, a flag exists, a secret can be masked
      and the defaults couple settings; and its first load reaches a state with the invariant. */
  lemma AssumptionsCanBeMet(b: Blueprint, value: string) returns (s: Setup, st: State)
    requires b == REAL && value == "amazons3"
    ensures Lawful(s) && TextSettings(s) && AllParse(s) && Inv(s, st) && Reachable(s, st)
    ensures s.rules.at == b.at && s.masks == b.masks && Defaults(s, b)
    ensures b.at.driver in Env.OverridePaths(s.env) && Env.Writes(s.env, b.at.driver) == {Str(value)}
    ensures s.flags == {APPS} && SPLIT_KEY in s.masks.guarded && SPLIT_KEY in st.config
  {
    RealReady(b, DEVELOPER);
    RealSecret(b, SPLIT_KEY);
    s, st := OverriddenDriver(b, value);
  }

  lemma RealSecret(b: Blueprint, p: Path)
    requires b == REAL && p == SPLIT_KEY
    ensures p in b.masks.guarded && p in b.defaults && b.flags == {APPS}
  {
    RealDefaults(b.defaults);
    assert b.masks.guarded[9] == p;
  }

  lemma BoolTexts(maybe: string, yes: string, no: string)
    requires maybe == "maybe" && yes == "true" && no == "false"
    ensures Env.ParseBool(maybe) == None && Env.ParseBool(yes) == Some(true) && Env.ParseBool(no) == Some(false)
  {
    assert |maybe| == 5 && maybe[0] == 'm' && |no| == 5 && no[0] == 'f';
  }

  /** With MM_SERVICESETTINGS_ENABLEDEVELOPER set to "maybe", switching the setting on takes
      effect but is not stored, and the next reload is loud. */
  lemma DeveloperSwitchIsLost(b: Blueprint, p: Path, value: string) returns (s: Setup, st: State)
    requires b == REAL && p == DEVELOPER && value == "maybe"
    ensures Lawful(s) && Inv(s, st) && Reachable(s, st) && Conforms(s, map[p := Flag(true)])
    ensures s.env.env == map["MM_SERVICESETTINGS_ENABLEDEVELOPER" := value]
    ensures Lost(s, st, map[p := Flag(true)])
  {
    RealReady(b, p);
    DeveloperKey(p);
    BoolTexts(value, "true", "false");
    s, st := UnparsedOverrideIsLost(b, p, value);
  }

  lemma FileTexts(value: string, dir: string, fake: string)
    requires value == "amazons3" && dir == "files" && fake == Masking.MATTERMOST_MASKS.fake
    ensures value != Repair.DRIVER_LOCAL && dir != "" && dir[|dir| - 1] != '/' && dir != fake
  {
    assert |value| == 8 && |Repair.DRIVER_LOCAL| == 5 && |dir| == 5 && |fake| == 32;
  }

  lemma RealFiles(b: Blueprint, dirPath: Path)
    requires b == REAL && dirPath == DIRECTORY
    ensures b.at.directory == dirPath && "MM_" + CanonicalKey(b.at.driver) == "MM_FILESETTINGS_DRIVERNAME"
    ensures b.masks.fake == Masking.MATTERMOST_MASKS.fake
  {
    RealPaths(b.at);
    DriverKey(b.at.driver);
  }

  /** With MM_FILESETTINGS_DRIVERNAME set to "amazons3", storing the directory "files" makes the
      next reload loud. */
  lemma FilesDirectoryIsLoud(b: Blueprint, dirPath: Path, value: string, dir: string) returns (s: Setup, st: State)
    requires b == REAL && dirPath == DIRECTORY && value == "amazons3" && dir == "files"
    ensures Lawful(s) && AllParse(s) && Inv(s, st) && Reachable(s, st) && Conforms(s, map[dirPath := Str(dir)])
    ensures s.env.env == map["MM_FILESETTINGS_DRIVERNAME" := value]
    ensures Loud(s, st, map[dirPath := Str(dir)])
  {
    RealReady(b, DEVELOPER);
    RealFiles(b, dirPath);
    FileTexts(value, dir, b.masks.fake);
    s, st := CoupledOverrideIsLoud(b, value, dir);
  }

  /** With MM_METRICSSETTINGS_ENABLE set to "true", a new installation has no state for the metrics
      plugin; setting what `Get` returned adds it and notifies the listeners. */
  lemma MetricsStateIsAnnounced(b: Blueprint, value: string) returns (s: Setup, st: State)
    requires b == REAL && value == "true"
    ensures Lawful(s) && Inv(s, st) && Reachable(s, st)
    ensures s.env.env == map["MM_METRICSSETTINGS_ENABLE" := value]
    ensures Announces(s, st)
  {
    RealReady(b, DEVELOPER);
    MetricsKey(b.metrics);
    BoolTexts("maybe", value, "false");
    s, st := CoupledDefaultIsAnnounced(b, value);
  }

  /** With the metrics switched on in the stored configuration and MM_METRICSSETTINGS_ENABLE set to
      "false", setting an empty configuration makes the next reload loud, although the override
      parses and touches no coupled setting. */
  lemma MetricsStateIsLoud(b: Blueprint, value: string) returns (s: Setup, st: State)
    requires b == REAL && value == "false"
    ensures Lawful(s) && AllParse(s) && CouplingsNotOverridden(s) && Inv(s, st) && Reachable(s, st)
    ensures s.env.env == map["MM_METRICSSETTINGS_ENABLE" := value]
    ensures Conforms(s, map[]) && Loud(s, st, map[])
  {
    RealReady(b, DEVELOPER);
    MetricsKey(b.metrics);
    BoolTexts("maybe", "true", value);
    s, st := CoupledDefaultIsLoud(b, value);
  }

  /** MM_SERVICESETTINGS_SITEURL_X: the extra segment lets the override into what is stored. */
  lemma SiteUrlKeepsOverride(w: Env.World, c: Config, r: Config)
    requires w.schema == SCHEMA && w.env == map["MM_SERVICESETTINGS_SITEURL_X" := "http://override"]
    requires SITE_URL in c && c[SITE_URL] != Str("http://override") && Env.IsOverlay(w, c, r)
    ensures var q := Env.Removed(r, c, Env.OverridePaths(w));
      SITE_URL in q && q[SITE_URL] == Str("http://override") && q != c
  {
    var schema := w.schema;
    RealSchemaClean(schema);
    SiteReportable(schema);
    SiteKey(SITE_URL, "_X");
    Env.ExtraSegmentSurvives(w, SITE_URL, "_X", "http://override", c, r);
  }

  // ---- An embedded struct ------------------------------------------------

  const FLAGGING: Path := ["ContentFlaggingSettings", "ContentFlaggingSettingsBase", "EnableContentFlagging"]

  /** The section that embeds its base settings. */
  function FlaggingSchema(p: Path): Type
    requires |p| == 3
  {
    Section([Field(p[0], Section([Embedded(p[1], Section([Field(p[2], Leaf(KBool))]))]))])
  }

  lemma FlaggingNames(p: Path)
    requires p == FLAGGING
    ensures |p| == 3 && '_' !in p[0] && '_' !in p[1] && '_' !in p[2]
    ensures |p[0]| == 23 && |p[1]| == 27 && |p[2]| == 21
  {
  }

  lemma FlaggingClean(ty: Type, p: Path)
    requires |p| == 3 && ty == FlaggingSchema(p)
    requires '_' !in p[0] && '_' !in p[1] && '_' !in p[2]
    ensures Clean(ty)
  {
    var f := ty.fields[0];
    var e := f.ty.fields[0];
    CleanSection(e.ty.fields, e.ty);
    CleanSection(f.ty.fields, f.ty);
    CleanSection(ty.fields, ty);
  }

  lemma FlaggingUpper(a: string)
    requires a == "ContentFlaggingSettings"
    ensures Upper(a) == "CONTENTFLAGGINGSETTINGS"
  {
    UpperIs(a, "CONTENTFLAGGINGSETTINGS");
  }

  lemma FlaggingSwitchUpper(a: string)
    requires a == "EnableContentFlagging"
    ensures Upper(a) == "ENABLECONTENTFLAGGING"
  {
    UpperIs(a, "ENABLECONTENTFLAGGING");
  }

  /** MM_CONTENTFLAGGINGSETTINGS_ENABLECONTENTFLAGGING: the switch is promoted from the embedded
      struct, and the override gets into what is stored. */
  lemma FlaggingKeepsOverride(w: Env.World, p: Path, u: string, v: string, text: string, c: Config, r: Config)
    requires p == FLAGGING && w.schema == FlaggingSchema(p)
    requires u == "CONTENTFLAGGINGSETTINGS" && v == "ENABLECONTENTFLAGGING" && text == "true"
    requires w.env == map["MM_" + (u + "_" + v) := text]
    requires p in c && c[p] != Flag(true) && Env.IsOverlay(w, c, r)
    ensures var q := Env.Removed(r, c, Env.OverridePaths(w)); p in q && q[p] == Flag(true) && q != c
  {
    FlaggingNames(p);
    FlaggingUpper(p[0]);
    FlaggingSwitchUpper(p[2]);
    BoolTexts("maybe", text, "false");
    FlaggingClean(w.schema, p);
    FlaggingPromoted(w, p, text, c, r);
  }

  lemma FlaggingPromoted(w: Env.World, p: Path, text: string, c: Config, r: Config)
    requires |p| == 3 && w.schema == FlaggingSchema(p) && Clean(w.schema)
    requires |p[1]| != |p[2]| && Env.ParseBool(text) == Some(true)
    requires w.env == map["MM_" + (Upper(p[0]) + "_" + Upper(p[2])) := text]
    requires p in c && c[p] != Flag(true) && Env.IsOverlay(w, c, r)
    ensures var q := Env.Removed(r, c, Env.OverridePaths(w)); p in q && q[p] == Flag(true) && q != c
  {
    var f := w.schema.fields[0];
    var e := f.ty.fields[0];
    var g := e.ty.fields[0];
    NamesDiffer(e.name, g.name);
    Env.PromotedSelected(f.ty, e, g);
    assert [f.name] + [e.name, g.name] == p;
    Env.PromotedSurvives(w, f, [e.name, g.name], g, text, Flag(true), c, r);
  }
}
