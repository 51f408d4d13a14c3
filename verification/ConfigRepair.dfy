/** `fixConfig`: patching invalid or missing data in a configuration. */
module ConfigRepair {
  import opened Strings
  import opened Locales
  import opened ConfigModel

  datatype Role =
    | SiteURL | TLSMinVer | WebserverMode | Driver | Directory | ServerLocale | ClientLocale
    | Available | ImageProxy | Email | Retired | Other

  /** Where the repaired settings are, and a chart of the role of each of them. */
  datatype Layout = Layout(
    siteURL: Path, tlsMinVer: Path, webserverMode: Path, driver: Path, directory: Path,
    serverLocale: Path, clientLocale: Path, available: Path, imageProxy: Path,
    emails: seq<Path>, retired: seq<Path>, roles: map<Path, Role>)

  const MATTERMOST := Charted(Layout(
    ["ServiceSettings", "SiteURL"], ["ServiceSettings", "TLSMinVer"], ["ServiceSettings", "WebserverMode"],
    ["FileSettings", "DriverName"], ["FileSettings", "Directory"],
    ["LocalizationSettings", "DefaultServerLocale"], ["LocalizationSettings", "DefaultClientLocale"],
    ["LocalizationSettings", "AvailableLocales"], ["ImageProxySettings", "ImageProxyType"],
    [["SupportSettings", "SupportEmail"], ["EmailSettings", "FeedbackEmail"], ["EmailSettings", "ReplyToAddress"]],
    [["FeatureFlags", "AppsEnabled"], ["FeatureFlags", "MoveThreadsEnabled"]],
    map[]))

  function Charted(l: Layout): Layout {
    l.(roles :=
      map p | p in {l.siteURL, l.tlsMinVer, l.webserverMode, l.driver, l.directory, l.serverLocale,
                    l.clientLocale, l.available, l.imageProxy} + (set e | e in l.emails) + (set f | f in l.retired)
        :: Played(l, p))
  }

  function Played(l: Layout, p: Path): Role {
    if p == l.siteURL then SiteURL
    else if p == l.tlsMinVer then TLSMinVer
    else if p == l.webserverMode then WebserverMode
    else if p == l.driver then Driver
    else if p == l.directory then Directory
    else if p == l.serverLocale then ServerLocale
    else if p == l.clientLocale then ClientLocale
    else if p == l.available then Available
    else if p == l.imageProxy then ImageProxy
    else if p in l.emails then Email
    else Retired
  }

  function RoleOf(l: Layout, p: Path): Role {
    if p in l.roles then l.roles[p] else Other
  }

  /** The roles that one path plays. */
  predicate Single(role: Role) {
    role !in {Email, Retired, Other}
  }

  function PathOf(l: Layout, role: Role): Path
    requires Single(role)
  {
    match role
    case SiteURL => l.siteURL
    case TLSMinVer => l.tlsMinVer
    case WebserverMode => l.webserverMode
    case Driver => l.driver
    case Directory => l.directory
    case ServerLocale => l.serverLocale
    case ClientLocale => l.clientLocale
    case Available => l.available
    case ImageProxy => l.imageProxy
  }

  ghost predicate SingleCharted(l: Layout, p: Path) {
    Single(RoleOf(l, p)) ==> p == PathOf(l, RoleOf(l, p))
  }

  ghost predicate SinglesCharted(l: Layout) {
    && RoleOf(l, l.siteURL) == SiteURL
    && RoleOf(l, l.tlsMinVer) == TLSMinVer && RoleOf(l, l.webserverMode) == WebserverMode
    && RoleOf(l, l.driver) == Driver && RoleOf(l, l.directory) == Directory
    && RoleOf(l, l.serverLocale) == ServerLocale && RoleOf(l, l.clientLocale) == ClientLocale
    && RoleOf(l, l.available) == Available && RoleOf(l, l.imageProxy) == ImageProxy
    && (forall p :: SingleCharted(l, p))
  }

  ghost predicate ListCharted(l: Layout, p: Path) {
    && (RoleOf(l, p) == Email <==> p in l.emails)
    && (RoleOf(l, p) == Retired <==> p in l.retired)
  }

  ghost predicate ListsCharted(l: Layout) {
    && (forall p :: ListCharted(l, p))
    && (forall i, j :: 0 <= i < j < |l.emails| ==> l.emails[i] != l.emails[j])
  }

  /** The chart gives every listed path its own role, and no path two. */
  ghost predicate Separate(l: Layout) {
    SinglesCharted(l) && ListsCharted(l)
  }

  const DRIVER_LOCAL := "local"
  const PROXY_LOCAL := "local"
  const PROXY_ATMOS := "atmos/camo"

  datatype Range = Range(minimum: int, default: int)

  /** The places, the loaded locales, the reduction of an e-mail setting to its first usable address (or
      ""), and the numeric settings with a minimum. */
  datatype Rules = Rules(at: Layout, locales: set<string>, address: string -> string, ranges: map<Path, Range>)

  ghost predicate Lawful(r: Rules) {
    && Separate(r.at) && NoCommas(r.locales) && DEFAULT_LOCALE in r.locales
    && (forall s :: r.address(r.address(s)) == r.address(s))
    && (forall p :: p in r.ranges ==> r.ranges[p].minimum <= r.ranges[p].default)
  }

  function StrAt(c: Config, p: Path): string {
    if p in c && c[p].Str? then c[p].s else ""
  }

  function PutStr(c: Config, p: Path, s: string): Config {
    if p in c && c[p].Str? then c[p := Str(s)] else c
  }

  function FixMode(s: string): string {
    if s in {"gzip", "uncompressed", "disabled"} then s else "uncompressed"
  }

  function FixTLS(s: string): string {
    if s in {"1.0", "1.1", "1.2", "1.3"} then s else "1.2"
  }

  function FixDirectory(driver: string, dir: string): string {
    if driver == DRIVER_LOCAL && dir != "" && !HasSuffix(dir, "/") then dir + "/" else dir
  }

  /** The repaired text of a setting with a given role. */
  function FixRole(r: Rules, c: Config, role: Role, s: string): string {
    match role
    case SiteURL => TrimRight(s, '/')
    case Directory => FixDirectory(StrAt(c, r.at.driver), s)
    case ServerLocale => FixLocale(r.locales, s)
    case ClientLocale => FixLocale(r.locales, s)
    case Available => FixAvailable(r.locales, s, FixLocale(r.locales, StrAt(c, r.at.clientLocale)))
    case ImageProxy => if s == PROXY_ATMOS then PROXY_LOCAL else s
    case TLSMinVer => FixTLS(s)
    case WebserverMode => FixMode(s)
    case Email => r.address(s)
    case _ => s
  }

  function FixText(r: Rules, c: Config, p: Path, s: string): string {
    FixRole(r, c, RoleOf(r.at, p), s)
  }

  function InRange(r: Rules, p: Path, v: Value): Value
    requires p in r.ranges
  {
    if v.Num? && v.n < r.ranges[p].minimum then Num(r.ranges[p].default) else v
  }

  /** The repaired value at `p`: a function of the value itself, except that the directory
      looks at the driver and the available locales look at the client locale. */
  function FixLeaf(r: Rules, c: Config, p: Path): Value
    requires p in c
  {
    match c[p]
    case Str(s) => Str(FixText(r, c, p, s))
    case Num(_) => if p in r.ranges then InRange(r, p, c[p]) else c[p]
    case Flag(b) => if RoleOf(r.at, p) == Retired then Flag(false) else c[p]
    case _ => c[p]
  }

  function Fix(r: Rules, c: Config): Config {
    map p | p in c :: FixLeaf(r, c, p)
  }

  // ---- The method --------------------------------------------------------

  /** The order in which `fixConfig` deals with the roles. */
  function TurnOf(role: Role): nat {
    match role
    case SiteURL => 0
    case Directory => 1
    case ServerLocale => 2
    case ClientLocale => 3
    case Available => 4
    case ImageProxy => 5
    case Retired => 6
    case TLSMinVer => 7
    case WebserverMode => 8
    case Email => 9
    case _ => 99
  }

  function Turn(l: Layout, p: Path, v: Value): nat {
    match v
    case Str(_) => TurnOf(RoleOf(l, p))
    case Flag(_) => 6
    case Num(_) => 10
    case _ => 99
  }

  function Turns(l: Layout, c: Config): map<Path, nat> {
    map p | p in c :: Turn(l, p, c[p])
  }

  /** `cfg` is `c` with the settings of the first `n` turns as in `d`. */
  ghost predicate Partly(t: map<Path, nat>, c: Config, d: Config, n: nat, cfg: Config) {
    && cfg.Keys == c.Keys == d.Keys == t.Keys
    && forall p :: p in c ==> cfg[p] == if t[p] < n then d[p] else c[p]
  }

  /** `cfg` is `c` with the settings of the first `n` turns repaired. */
  ghost predicate Stage(r: Rules, c: Config, n: nat, cfg: Config) {
    Partly(Turns(r.at, c), c, Fix(r, c), n, cfg)
  }

  lemma PutOne(t: map<Path, nat>, c: Config, d: Config, n: nat, cfg: Config, p: Path, s: string)
    requires Partly(t, c, d, n, cfg)
    requires p in c ==> (c[p].Str? <==> d[p].Str?)
    requires p in c && c[p].Str? ==> t[p] == n && d[p] == Str(s)
    requires forall q :: q in c && t[q] == n ==> q == p && c[q].Str?
    ensures Partly(t, c, d, n + 1, PutStr(cfg, p, s))
    ensures PutStr(cfg, p, StrAt(c, p)) == cfg && StrAt(cfg, p) == StrAt(c, p)
  {
    assert PutStr(cfg, p, s).Keys == cfg.Keys;
  }

  lemma SameTurn(a: Role, b: Role)
    requires TurnOf(a) == TurnOf(b) < 99
    ensures a == b
  {
  }

  lemma OnlyTurn(l: Layout, c: Config, p: Path, role: Role, q: Path)
    requires SinglesCharted(l) && RoleOf(l, p) == role && role !in {Email, Retired, Other, Driver}
    requires q in c && Turn(l, q, c[q]) == TurnOf(role)
    ensures q == p && c[q].Str?
  {
    assert SingleCharted(l, p) && SingleCharted(l, q);
    if c[q].Str? { SameTurn(RoleOf(l, q), role); }
  }

  lemma TextFixed(r: Rules, c: Config, p: Path, role: Role)
    requires RoleOf(r.at, p) == role
    ensures p in c && c[p].Str? ==> Fix(r, c)[p] == Str(FixRole(r, c, role, StrAt(c, p)))
    ensures p in c && !c[p].Str? ==> !Fix(r, c)[p].Str?
  {
  }

  /** Writing the repaired text of one more setting, the only one whose turn it is. */
  lemma PutText(r: Rules, c: Config, cfg: Config, p: Path, role: Role)
    requires SinglesCharted(r.at) && RoleOf(r.at, p) == role && role !in {Email, Retired, Other, Driver}
    requires Stage(r, c, TurnOf(role), cfg)
    ensures Stage(r, c, TurnOf(role) + 1, PutStr(cfg, p, FixRole(r, c, role, StrAt(c, p))))
    ensures PutStr(cfg, p, StrAt(c, p)) == cfg && StrAt(cfg, p) == StrAt(c, p)
  {
    var t := Turns(r.at, c);
    forall q | q in c && t[q] == TurnOf(role) ensures q == p && c[q].Str? { OnlyTurn(r.at, c, p, role, q); }
    TextFixed(r, c, p, role);
    PutOne(t, c, Fix(r, c), TurnOf(role), cfg, p, FixRole(r, c, role, StrAt(c, p)));
  }

  /** `fixConfig`, one setting after the other. */
  method FixConfig(r: Rules, c: Config) returns (cfg: Config)
    requires NoCommas(r.locales) && Separate(r.at)
    ensures cfg == Fix(r, c)
  {
    cfg := FixSiteURL(r, c, c);
    cfg := FixFileDirectory(r, c, cfg);
    cfg := FixInvalidLocales(r, c, cfg);
    cfg := FixTextSetting(r, c, r.at.imageProxy, ImageProxy, cfg);
    ghost var start := cfg;
    cfg := FixFlags(r.at.retired, cfg);
    FlagsDone(r, c, start, cfg);
    cfg := FixTextSetting(r, c, r.at.tlsMinVer, TLSMinVer, cfg);
    cfg := FixTextSetting(r, c, r.at.webserverMode, WebserverMode, cfg);
    start := cfg;
    cfg := FixEmails(r.address, r.at.emails, cfg);
    EmailsDone(r, c, start, cfg);
    start := cfg;
    cfg := FixRanges(r, cfg);
    NumbersDone(r, c, start, cfg);
    AllDone(r, c, cfg);
  }

  lemma Untouched(r: Rules, c: Config, p: Path)
    requires p in c && (Turn(r.at, p, c[p]) >= 11 || (c[p].Str? && RoleOf(r.at, p) == Retired))
    ensures Fix(r, c)[p] == c[p]
  {
  }

  lemma AllDone(r: Rules, c: Config, cfg: Config)
    requires Stage(r, c, 11, cfg)
    ensures cfg == Fix(r, c)
  {
    forall p | p in c ensures cfg[p] == Fix(r, c)[p] {
      if Turns(r.at, c)[p] >= 11 { Untouched(r, c, p); }
    }
  }

  method FixSiteURL(r: Rules, ghost c: Config, start: Config) returns (cfg: Config)
    requires SinglesCharted(r.at) && Stage(r, c, 0, start)
    ensures Stage(r, c, 1, cfg)
  {
    cfg := start;
    var url := StrAt(cfg, r.at.siteURL);
    PutText(r, c, start, r.at.siteURL, SiteURL);
    if HasSuffix(url, "/") {
      cfg := PutStr(cfg, r.at.siteURL, TrimRight(url, '/'));
    } else {
      NothingToTrim(url);
    }
  }

  lemma NothingToTrim(s: string)
    requires !HasSuffix(s, "/")
    ensures TrimRight(s, '/') == s
  {
    assert s != [] ==> s[|s| - 1..] == [s[|s| - 1]];
  }

  method FixFileDirectory(r: Rules, ghost c: Config, start: Config) returns (cfg: Config)
    requires SinglesCharted(r.at) && Stage(r, c, 1, start)
    ensures Stage(r, c, 2, cfg)
  {
    cfg := start;
    PutDirectory(r, c, start, StrAt(start, r.at.directory));
    if StrAt(cfg, r.at.driver) == DRIVER_LOCAL {
      var dir := StrAt(cfg, r.at.directory);
      if dir != "" && !HasSuffix(dir, "/") {
        cfg := PutStr(cfg, r.at.directory, dir + "/");
      }
    }
  }

  /** The directory is left alone, or gets a slash. */
  lemma PutDirectory(r: Rules, c: Config, start: Config, dir: string)
    requires SinglesCharted(r.at) && Stage(r, c, 1, start) && dir == StrAt(start, r.at.directory)
    ensures if StrAt(start, r.at.driver) == DRIVER_LOCAL && dir != "" && !HasSuffix(dir, "/")
            then Stage(r, c, 2, PutStr(start, r.at.directory, dir + "/")) else Stage(r, c, 2, start)
  {
    DriverKept(r, c, start);
    DirectoryPut(r, c, start, dir, FixDirectory(StrAt(c, r.at.driver), dir));
  }

  lemma DirectoryPut(r: Rules, c: Config, start: Config, dir: string, fixed: string)
    requires SinglesCharted(r.at) && Stage(r, c, 1, start) && dir == StrAt(start, r.at.directory)
    requires fixed == FixDirectory(StrAt(c, r.at.driver), dir)
    ensures Stage(r, c, 2, PutStr(start, r.at.directory, fixed)) && PutStr(start, r.at.directory, dir) == start
  {
    PutText(r, c, start, r.at.directory, Directory);
  }

  lemma DriverKept(r: Rules, c: Config, cfg: Config)
    requires SinglesCharted(r.at) && Stage(r, c, 1, cfg)
    ensures StrAt(cfg, r.at.driver) == StrAt(c, r.at.driver)
  {
    if r.at.driver in c { DriverLate(r.at, c[r.at.driver]); }
  }

  lemma DriverLate(l: Layout, v: Value)
    requires RoleOf(l, l.driver) == Driver
    ensures Turn(l, l.driver, v) >= 1
  {
  }

  method FixInvalidLocales(r: Rules, ghost c: Config, start: Config) returns (cfg: Config)
    requires NoCommas(r.locales) && SinglesCharted(r.at) && Stage(r, c, 2, start)
    ensures Stage(r, c, 5, cfg)
  {
    var client;
    cfg, client := FixDefaultLocales(r, c, start);
    cfg := FixAvailableSetting(r, c, client, cfg);
  }

  method FixDefaultLocales(r: Rules, ghost c: Config, start: Config) returns (cfg: Config, client: string)
    requires NoCommas(r.locales) && SinglesCharted(r.at) && Stage(r, c, 2, start)
    ensures Stage(r, c, 4, cfg)
    ensures client == FixLocale(r.locales, StrAt(c, r.at.clientLocale)) && ',' !in client
  {
    cfg := FixDefaultLocale(r, c, r.at.serverLocale, ServerLocale, start);
    client := ClientOf(r, c, cfg);
    cfg := FixDefaultLocale(r, c, r.at.clientLocale, ClientLocale, cfg);
  }

  method ClientOf(r: Rules, ghost c: Config, cfg: Config) returns (client: string)
    requires NoCommas(r.locales) && SinglesCharted(r.at) && Stage(r, c, 3, cfg)
    ensures client == FixLocale(r.locales, StrAt(c, r.at.clientLocale)) && ',' !in client
  {
    ClientKept(r, c, cfg);
    client := FixLocale(r.locales, StrAt(cfg, r.at.clientLocale));
    NoCommaLocale(r.locales, StrAt(cfg, r.at.clientLocale));
  }

  lemma ClientKept(r: Rules, c: Config, cfg: Config)
    requires SinglesCharted(r.at) && Stage(r, c, 3, cfg)
    ensures StrAt(cfg, r.at.clientLocale) == StrAt(c, r.at.clientLocale)
  {
    PutText(r, c, cfg, r.at.clientLocale, ClientLocale);
  }

  lemma NoCommaLocale(locales: set<string>, s: string)
    requires NoCommas(locales)
    ensures ',' !in FixLocale(locales, s)
  {
  }

  method FixAvailableSetting(r: Rules, ghost c: Config, client: string, start: Config) returns (cfg: Config)
    requires SinglesCharted(r.at) && Stage(r, c, 4, start)
    requires client == FixLocale(r.locales, StrAt(c, r.at.clientLocale)) && ',' !in client
    ensures Stage(r, c, 5, cfg)
  {
    PutAvailable(r, c, start, client, FixAvailable(r.locales, StrAt(start, r.at.available), client));
    var available := FixAvailableLocales(r.locales, StrAt(start, r.at.available), client);
    cfg := PutStr(start, r.at.available, available);
  }

  lemma PutAvailable(r: Rules, c: Config, start: Config, client: string, available: string)
    requires SinglesCharted(r.at) && Stage(r, c, 4, start)
    requires client == FixLocale(r.locales, StrAt(c, r.at.clientLocale))
    requires available == FixAvailable(r.locales, StrAt(start, r.at.available), client)
    ensures Stage(r, c, 5, PutStr(start, r.at.available, available))
  {
    AvailableKept(r, c, start);
    AvailableRole(r, c, StrAt(c, r.at.available), client, available);
    PutTextAs(r, c, start, r.at.available, Available, available);
  }

  lemma AvailableKept(r: Rules, c: Config, start: Config)
    requires SinglesCharted(r.at) && Stage(r, c, 4, start)
    ensures StrAt(start, r.at.available) == StrAt(c, r.at.available)
  {
    PutText(r, c, start, r.at.available, Available);
  }

  lemma PutTextAs(r: Rules, c: Config, cfg: Config, p: Path, role: Role, s: string)
    requires SinglesCharted(r.at) && RoleOf(r.at, p) == role && role !in {Email, Retired, Other, Driver}
    requires Stage(r, c, TurnOf(role), cfg) && s == FixRole(r, c, role, StrAt(c, p))
    ensures Stage(r, c, TurnOf(role) + 1, PutStr(cfg, p, s))
  {
    PutText(r, c, cfg, p, role);
  }

  lemma AvailableRole(r: Rules, c: Config, s: string, client: string, available: string)
    requires client == FixLocale(r.locales, StrAt(c, r.at.clientLocale))
    requires available == FixAvailable(r.locales, s, client)
    ensures FixRole(r, c, Available, s) == available
  {
  }

  method FixDefaultLocale(r: Rules, ghost c: Config, p: Path, ghost role: Role, start: Config) returns (cfg: Config)
    requires SinglesCharted(r.at) && RoleOf(r.at, p) == role && role in {ServerLocale, ClientLocale}
    requires Stage(r, c, TurnOf(role), start)
    ensures Stage(r, c, TurnOf(role) + 1, cfg)
  {
    PutText(r, c, start, p, role);
    cfg := start;
    if StrAt(cfg, p) !in r.locales {
      cfg := PutStr(cfg, p, DEFAULT_LOCALE);
    }
  }

  /** The settings whose repair looks at nothing but themselves: image proxy, TLS version and
      web server mode. */
  method FixTextSetting(r: Rules, ghost c: Config, p: Path, role: Role, start: Config) returns (cfg: Config)
    requires SinglesCharted(r.at) && RoleOf(r.at, p) == role && role in {ImageProxy, TLSMinVer, WebserverMode}
    requires Stage(r, c, TurnOf(role), start)
    ensures Stage(r, c, TurnOf(role) + 1, cfg)
  {
    PutText(r, c, start, p, role);
    cfg := start;
    var s := StrAt(cfg, p);
    match role
    case ImageProxy => if s == PROXY_ATMOS { cfg := PutStr(cfg, p, PROXY_LOCAL); }
    case TLSMinVer => if FixTLS(s) != s { cfg := PutStr(cfg, p, "1.2"); }
    case _ => if FixMode(s) != s { cfg := PutStr(cfg, p, "uncompressed"); }
  }

  method FixFlags(retired: seq<Path>, start: Config) returns (cfg: Config)
    ensures cfg.Keys == start.Keys
    ensures forall p :: p in start ==>
      cfg[p] == if start[p].Flag? && p in retired then Flag(false) else start[p]
  {
    cfg := start;
    for i := 0 to |retired|
      invariant cfg.Keys == start.Keys
      invariant forall p :: p in start ==>
        cfg[p] == if start[p].Flag? && p in retired[..i] then Flag(false) else start[p]
    {
      var p := retired[i];
      assert retired[..i + 1] == retired[..i] + [p];
      if p in cfg && cfg[p].Flag? && cfg[p].b {
        cfg := cfg[p := Flag(false)];
      }
    }
    assert retired[..|retired|] == retired;
  }

  lemma FlagsDone(r: Rules, c: Config, start: Config, cfg: Config)
    requires ListsCharted(r.at) && Stage(r, c, 6, start) && cfg.Keys == start.Keys
    requires forall p :: p in start ==>
      cfg[p] == if start[p].Flag? && p in r.at.retired then Flag(false) else start[p]
    ensures Stage(r, c, 7, cfg)
  {
    forall p | p in c ensures cfg[p] == if Turns(r.at, c)[p] < 7 then Fix(r, c)[p] else c[p] {
      FlagDone(r, c, p);
    }
  }

  lemma FlagDone(r: Rules, c: Config, p: Path)
    requires ListsCharted(r.at) && p in c
    ensures c[p].Flag? ==> Fix(r, c)[p] == if p in r.at.retired then Flag(false) else c[p]
    ensures !c[p].Flag? && Turn(r.at, p, c[p]) == 6 ==> Fix(r, c)[p] == c[p]
  {
    assert ListCharted(r.at, p);
    if c[p].Str? && RoleOf(r.at, p) == Retired { Untouched(r, c, p); }
  }

  method FixEmails(address: string -> string, emails: seq<Path>, start: Config) returns (cfg: Config)
    requires forall i, j :: 0 <= i < j < |emails| ==> emails[i] != emails[j]
    ensures cfg.Keys == start.Keys
    ensures forall p :: p in start ==>
      cfg[p] == if start[p].Str? && p in emails then Str(address(start[p].s)) else start[p]
  {
    cfg := start;
    for i := 0 to |emails|
      invariant cfg.Keys == start.Keys
      invariant forall p :: p in start ==>
        cfg[p] == if start[p].Str? && p in emails[..i] then Str(address(start[p].s)) else start[p]
    {
      var p := emails[i];
      assert emails[..i + 1] == emails[..i] + [p];
      assert p !in emails[..i];
      if p in cfg && cfg[p].Str? && address(cfg[p].s) != cfg[p].s {
        cfg := cfg[p := Str(address(cfg[p].s))];
      }
    }
    assert emails[..|emails|] == emails;
  }

  lemma EmailsDone(r: Rules, c: Config, start: Config, cfg: Config)
    requires ListsCharted(r.at) && Stage(r, c, 9, start) && cfg.Keys == start.Keys
    requires forall p :: p in start ==>
      cfg[p] == if start[p].Str? && p in r.at.emails then Str(r.address(start[p].s)) else start[p]
    ensures Stage(r, c, 10, cfg)
  {
    forall p | p in c ensures cfg[p] == if Turns(r.at, c)[p] < 10 then Fix(r, c)[p] else c[p] {
      EmailDone(r, c, p);
    }
  }

  lemma EmailDone(r: Rules, c: Config, p: Path)
    requires ListsCharted(r.at) && p in c
    ensures Turn(r.at, p, c[p]) == 9 <==> c[p].Str? && p in r.at.emails
    ensures Turn(r.at, p, c[p]) == 9 ==> Fix(r, c)[p] == Str(r.address(c[p].s))
    ensures c[p].Str? <==> Fix(r, c)[p].Str?
  {
    assert ListCharted(r.at, p);
    if RoleOf(r.at, p) == Email { TextFixed(r, c, p, Email); }
  }

  method FixRanges(r: Rules, start: Config) returns (cfg: Config)
    ensures cfg.Keys == start.Keys
    ensures forall p :: p in start ==>
      cfg[p] == if p in r.ranges then InRange(r, p, start[p]) else start[p]
  {
    cfg := start;
    var todo := r.ranges.Keys;
    while todo != {}
      invariant todo <= r.ranges.Keys
      invariant cfg.Keys == start.Keys
      invariant forall p :: p in start ==>
        cfg[p] == if p in r.ranges && p !in todo then InRange(r, p, start[p]) else start[p]
    {
      var p :| p in todo;
      if p in cfg && cfg[p].Num? && cfg[p].n < r.ranges[p].minimum {
        cfg := cfg[p := Num(r.ranges[p].default)];
      }
      todo := todo - {p};
    }
  }

  lemma NumbersDone(r: Rules, c: Config, start: Config, cfg: Config)
    requires Stage(r, c, 10, start) && cfg.Keys == start.Keys
    requires forall p :: p in start ==>
      cfg[p] == if p in r.ranges then InRange(r, p, start[p]) else start[p]
    ensures Stage(r, c, 11, cfg)
  {
    forall p | p in c ensures cfg[p] == if Turns(r.at, c)[p] < 11 then Fix(r, c)[p] else c[p] {
      NumberDone(r, c, p);
    }
  }

  lemma NumberDone(r: Rules, c: Config, p: Path)
    requires p in c
    ensures Turn(r.at, p, c[p]) == 10 <==> c[p].Num?
    ensures c[p].Num? <==> Fix(r, c)[p].Num?
    ensures c[p].Num? ==> Fix(r, c)[p] == if p in r.ranges then InRange(r, p, c[p]) else c[p]
  {
  }

  // ---- Repairing mixtures ------------------------------------------------

  /** Repairing is idempotent even in part: if any set of settings of a repaired
      configuration is put back to its unrepaired value, the next repair gives the same
      result.  This survives the two couplings because the value looked at is either
      unchanged by the repair (the driver) or repaired before it is looked at (the client
      locale). */
  lemma FixOfMixture(r: Rules, c: Config, m: Config)
    requires Lawful(r)
    requires m.Keys == c.Keys
    requires forall p :: p in c ==> m[p] == c[p] || m[p] == FixLeaf(r, c, p)
    ensures Fix(r, m) == Fix(r, c)
  {
    forall p | p in c ensures FixLeaf(r, m, p) == FixLeaf(r, c, p) {
      FixLeafOfMixture(r, c, m, p);
    }
  }

  lemma FixLeafOfMixture(r: Rules, c: Config, m: Config, p: Path)
    requires Lawful(r) && p in c
    requires m.Keys == c.Keys
    requires forall q :: q in c ==> m[q] == c[q] || m[q] == FixLeaf(r, c, q)
    ensures FixLeaf(r, m, p) == FixLeaf(r, c, p)
  {
    assert StrAt(m, r.at.driver) == StrAt(c, r.at.driver);
    assert FixLocale(r.locales, StrAt(m, r.at.clientLocale)) == FixLocale(r.locales, StrAt(c, r.at.clientLocale));
    if c[p].Str? {
      RoleTwice(r, c, m, RoleOf(r.at, p), c[p].s);
    }
  }

  lemma TrimTwice(s: string)
    ensures TrimRight(TrimRight(s, '/'), '/') == TrimRight(s, '/')
  {
  }

  lemma SlashTwice(driver: string, dir: string)
    ensures FixDirectory(driver, FixDirectory(driver, dir)) == FixDirectory(driver, dir)
    ensures driver == DRIVER_LOCAL && dir != "" ==> HasSuffix(FixDirectory(driver, dir), "/")
  {
    assert (dir + "/")[|dir + "/"| - 1..] == "/";
  }

  lemma RoleTwice(r: Rules, c: Config, m: Config, role: Role, s: string)
    requires Lawful(r)
    requires StrAt(m, r.at.driver) == StrAt(c, r.at.driver)
    requires FixLocale(r.locales, StrAt(m, r.at.clientLocale)) == FixLocale(r.locales, StrAt(c, r.at.clientLocale))
    ensures FixRole(r, m, role, s) == FixRole(r, c, role, s)
    ensures FixRole(r, m, role, FixRole(r, c, role, s)) == FixRole(r, c, role, s)
  {
    match role
    case Available =>
      FixAvailableIdempotent(r.locales, s, FixLocale(r.locales, StrAt(c, r.at.clientLocale)));
    case SiteURL => TrimTwice(s);
    case Directory => SlashTwice(StrAt(c, r.at.driver), s);
    case _ =>
  }

  lemma FixIdempotent(r: Rules, c: Config)
    requires Lawful(r)
    ensures Fix(r, Fix(r, c)) == Fix(r, c)
  {
    FixOfMixture(r, c, Fix(r, c));
  }

  // ---- One setting at a time ---------------------------------------------

  predicate Coupled(role: Role) {
    role in {Directory, Available}
  }

  /** The settings that the coupled repairs look at lead to the same repair. */
  ghost predicate SameContext(r: Rules, a: Config, b: Config) {
    && StrAt(a, r.at.driver) == StrAt(b, r.at.driver)
    && FixLocale(r.locales, StrAt(a, r.at.clientLocale)) == FixLocale(r.locales, StrAt(b, r.at.clientLocale))
  }

  lemma UncoupledAlone(r: Rules, a: Config, b: Config, p: Path)
    requires p in a && p in b && a[p] == b[p]
    requires SameContext(r, a, b) || !Coupled(RoleOf(r.at, p))
    ensures FixLeaf(r, a, p) == FixLeaf(r, b, p)
  {
  }

  /** Repairing does not change what the coupled repairs make of the settings they look at. */
  lemma RepairedContext(r: Rules, y: Config, c: Config)
    requires Lawful(r) && y.Keys == c.Keys
    requires r.at.driver in y ==> FixLeaf(r, y, r.at.driver) == c[r.at.driver]
    requires r.at.clientLocale in y ==> FixLeaf(r, y, r.at.clientLocale) == c[r.at.clientLocale]
    ensures SameContext(r, y, c)
  {
  }

  /** In the same context the repair of a single replaced setting is that of the whole. */
  lemma ReplacedAlone(r: Rules, y: Config, c: Config, p: Path)
    requires SinglesCharted(r.at) && p in y && p in c
    requires SameContext(r, y, c) || !Coupled(RoleOf(r.at, p))
    ensures FixLeaf(r, c[p := y[p]], p) == FixLeaf(r, y, p)
  {
    var m := c[p := y[p]];
    if Coupled(RoleOf(r.at, p)) {
      assert p != r.at.driver && p != r.at.clientLocale;
      assert SameContext(r, m, c);
    }
    UncoupledAlone(r, m, y, p);
  }

  lemma LocalesEstablished(r: Rules, c: Config)
    requires Lawful(r) && r.at.clientLocale in c && c[r.at.clientLocale].Str?
    ensures GoodList(r.locales, StrAt(Fix(r, c), r.at.available), StrAt(Fix(r, c), r.at.clientLocale))
  {
    var client := FixLocale(r.locales, StrAt(c, r.at.clientLocale));
    ClientFixed(r, c, client);
    AvailableFixed(r, c, client);
    if r.at.available in c && c[r.at.available].Str? {
      FixAvailableGood(r.locales, StrAt(c, r.at.available), client);
    } else {
      EmptyListGood(r.locales, client);
    }
  }

  lemma EmptyListGood(locales: set<string>, client: string)
    ensures GoodList(locales, "", client)
  {
  }

  lemma ClientFixed(r: Rules, c: Config, client: string)
    requires SinglesCharted(r.at) && r.at.clientLocale in c && c[r.at.clientLocale].Str?
    requires client == FixLocale(r.locales, StrAt(c, r.at.clientLocale))
    ensures StrAt(Fix(r, c), r.at.clientLocale) == client
  {
    TextFixed(r, c, r.at.clientLocale, ClientLocale);
  }

  lemma AvailableFixed(r: Rules, c: Config, client: string)
    requires SinglesCharted(r.at) && client == FixLocale(r.locales, StrAt(c, r.at.clientLocale))
    ensures StrAt(Fix(r, c), r.at.available)
      == if r.at.available in c && c[r.at.available].Str?
         then FixAvailable(r.locales, StrAt(c, r.at.available), client) else ""
  {
    TextFixed(r, c, r.at.available, Available);
  }

  /** The repaired text at `p`, or "" if there is no text. */
  function RepairedText(r: Rules, c: Config, p: Path, role: Role): string {
    if p in c && c[p].Str? then FixRole(r, c, role, StrAt(c, p)) else ""
  }

  lemma TextRepaired(r: Rules, c: Config, p: Path, role: Role)
    requires RoleOf(r.at, p) == role
    ensures StrAt(Fix(r, c), p) == RepairedText(r, c, p, role)
  {
    TextFixed(r, c, p, role);
  }

  lemma SiteEstablished(r: Rules, c: Config)
    requires SinglesCharted(r.at)
    ensures !HasSuffix(StrAt(Fix(r, c), r.at.siteURL), "/")
  {
    TextRepaired(r, c, r.at.siteURL, SiteURL);
    NothingLeft(StrAt(c, r.at.siteURL));
  }

  lemma DirectoryEstablished(r: Rules, c: Config)
    requires SinglesCharted(r.at)
    ensures StrAt(Fix(r, c), r.at.driver) == DRIVER_LOCAL && StrAt(Fix(r, c), r.at.directory) != "" ==>
            HasSuffix(StrAt(Fix(r, c), r.at.directory), "/")
  {
    TextRepaired(r, c, r.at.driver, Driver);
    TextRepaired(r, c, r.at.directory, Directory);
    assert StrAt(Fix(r, c), r.at.driver) == StrAt(c, r.at.driver);
    if StrAt(c, r.at.driver) == DRIVER_LOCAL && StrAt(c, r.at.directory) != "" {
      SlashTwice(StrAt(c, r.at.driver), StrAt(c, r.at.directory));
    } else if StrAt(c, r.at.driver) == DRIVER_LOCAL {
      assert FixDirectory(StrAt(c, r.at.driver), "") == "";
    }
  }

  lemma NothingLeft(s: string)
    ensures !HasSuffix(TrimRight(s, '/'), "/")
  {
    var t := TrimRight(s, '/');
    assert t != [] ==> t[|t| - 1..] == [t[|t| - 1]];
  }

  /** What a repaired configuration looks like. */
  lemma FixEstablishes(r: Rules, c: Config)
    requires Lawful(r)
    ensures var f := Fix(r, c);
      && (forall p :: p in c && c[p].Str? && RoleOf(r.at, p) in {ServerLocale, ClientLocale} ==>
            StrAt(f, p) in r.locales)
      && (r.at.clientLocale in c && c[r.at.clientLocale].Str? ==>
            GoodList(r.locales, StrAt(f, r.at.available), StrAt(f, r.at.clientLocale)))
      && !HasSuffix(StrAt(f, r.at.siteURL), "/")
      && (StrAt(f, r.at.driver) == DRIVER_LOCAL && StrAt(f, r.at.directory) != "" ==>
            HasSuffix(StrAt(f, r.at.directory), "/"))
      && (forall p :: p in r.ranges && p in c && c[p].Num? ==> f[p].Num? && f[p].n >= r.ranges[p].minimum)
      && (forall p :: p in r.at.retired && p in c && c[p].Flag? ==> f[p] == Flag(false))
  {
    if r.at.clientLocale in c && c[r.at.clientLocale].Str? { LocalesEstablished(r, c); }
    SiteEstablished(r, c);
    DirectoryEstablished(r, c);
    forall p | p in c && c[p].Str? && RoleOf(r.at, p) in {ServerLocale, ClientLocale}
      ensures StrAt(Fix(r, c), p) in r.locales
    {
      TextFixed(r, c, p, RoleOf(r.at, p));
    }
    forall p | p in r.ranges && p in c && c[p].Num?
      ensures Fix(r, c)[p].Num? && Fix(r, c)[p].n >= r.ranges[p].minimum
    {
      NumberDone(r, c, p);
    }
    forall p | p in r.at.retired && p in c && c[p].Flag? ensures Fix(r, c)[p] == Flag(false) {
      FlagDone(r, c, p);
    }
  }

  /** Tells the real paths apart by the lengths of their names, and the two locale settings
      of equal length by the eighth letter. */
  function Mark(p: Path): int {
    if |p| != 2 then 0
    else 100 * |p[0]| + |p[1]| + (if |p[1]| == 19 && p[1][7] == 'S' then 10000 else 0)
  }

  ghost predicate Marked(l: Layout) {
    && Mark(l.siteURL) == 1507 && Mark(l.tlsMinVer) == 1509 && Mark(l.webserverMode) == 1513
    && Mark(l.driver) == 1210 && Mark(l.directory) == 1209
    && Mark(l.serverLocale) == 12019 && Mark(l.clientLocale) == 2019 && Mark(l.available) == 2016
    && Mark(l.imageProxy) == 1814
    && |l.emails| == 3 && Mark(l.emails[0]) == 1512 && Mark(l.emails[1]) == 1313 && Mark(l.emails[2]) == 1314
    && |l.retired| == 2 && Mark(l.retired[0]) == 1211 && Mark(l.retired[1]) == 1218
  }

  lemma NamedRoles(l: Layout)
    requires Marked(l)
    ensures Played(l, l.tlsMinVer) == TLSMinVer && Played(l, l.webserverMode) == WebserverMode
    ensures Played(l, l.driver) == Driver && Played(l, l.directory) == Directory
  {
  }

  lemma NamedLocaleRoles(l: Layout)
    requires Marked(l)
    ensures Played(l, l.serverLocale) == ServerLocale && Played(l, l.clientLocale) == ClientLocale
    ensures Played(l, l.available) == Available && Played(l, l.imageProxy) == ImageProxy
  {
  }

  lemma ListedRoles(l: Layout, p: Path)
    requires Marked(l)
    ensures p in l.emails ==> Played(l, p) == Email
    ensures p in l.retired ==> Played(l, p) == Retired
  {
    if i :| 0 <= i < 3 && l.emails[i] == p {
      assert Mark(p) in {1512, 1313, 1314};
    }
    if p in l.retired {
      assert Mark(p) in {1211, 1218};
      assert forall i :: 0 <= i < 3 ==> Mark(l.emails[i]) in {1512, 1313, 1314};
    }
  }

  lemma NamedCharted(l: Layout)
    requires Marked(l)
    ensures var k := Charted(l);
      && RoleOf(k, l.siteURL) == SiteURL
      && RoleOf(k, l.tlsMinVer) == TLSMinVer && RoleOf(k, l.webserverMode) == WebserverMode
      && RoleOf(k, l.driver) == Driver && RoleOf(k, l.directory) == Directory
  {
    NamedRoles(l);
  }

  lemma NamedLocalesCharted(l: Layout)
    requires Marked(l)
    ensures var k := Charted(l);
      && RoleOf(k, l.serverLocale) == ServerLocale && RoleOf(k, l.clientLocale) == ClientLocale
      && RoleOf(k, l.available) == Available && RoleOf(k, l.imageProxy) == ImageProxy
  {
    NamedLocaleRoles(l);
  }

  lemma MarkedSingle(l: Layout, p: Path)
    ensures SingleCharted(Charted(l), p)
  {
  }

  lemma ChartedRole(l: Layout, p: Path)
    ensures RoleOf(Charted(l), p) == if p in Charted(l).roles then Played(l, p) else Other
    ensures p in l.emails || p in l.retired ==> p in Charted(l).roles
    ensures p in Charted(l).roles && Played(l, p) == Email ==> p in l.emails
    ensures p in Charted(l).roles && Played(l, p) == Retired ==> p in l.retired
  {
  }

  lemma MarkedListed(l: Layout, p: Path)
    requires Marked(l)
    ensures ListCharted(Charted(l), p)
  {
    ListedRoles(l, p);
    ChartedRole(l, p);
  }

  lemma MarkedSingles(l: Layout, k: Layout)
    requires Marked(l) && k == Charted(l)
    ensures SinglesCharted(k)
  {
    NamedCharted(l);
    NamedLocalesCharted(l);
    forall p ensures SingleCharted(k, p) { MarkedSingle(l, p); }
  }

  lemma MarkedLists(k: Layout)
    requires Marked(k)
    requires forall p :: ListCharted(k, p)
    ensures ListsCharted(k)
  {
  }

  lemma MarkedCharted(l: Layout, k: Layout)
    requires Marked(l) && k == Charted(l)
    ensures Separate(k)
  {
    MarkedSingles(l, k);
    forall p ensures ListCharted(k, p) { MarkedListed(l, p); }
    MarkedLists(k);
  }

  lemma MattermostMarkedServices(l: Layout)
    requires l == MATTERMOST.(roles := map[])
    ensures Mark(l.siteURL) == 1507 && Mark(l.tlsMinVer) == 1509 && Mark(l.webserverMode) == 1513
    ensures Mark(l.driver) == 1210 && Mark(l.directory) == 1209
  {
  }

  lemma MattermostMarkedServerLocale(l: Layout)
    requires l == MATTERMOST.(roles := map[])
    ensures Mark(l.serverLocale) == 12019
  {
    assert l.serverLocale[1][7] == 'S';
  }

  lemma MattermostMarkedClientLocale(l: Layout)
    requires l == MATTERMOST.(roles := map[])
    ensures Mark(l.clientLocale) == 2019
  {
    assert l.clientLocale[1][7] == 'C';
  }

  lemma MattermostMarkedOthers(l: Layout)
    requires l == MATTERMOST.(roles := map[])
    ensures Mark(l.available) == 2016 && Mark(l.imageProxy) == 1814
  {
  }

  lemma MattermostMarkedLists(l: Layout)
    requires l == MATTERMOST.(roles := map[])
    ensures |l.emails| == 3 && Mark(l.emails[0]) == 1512 && Mark(l.emails[1]) == 1313 && Mark(l.emails[2]) == 1314
    ensures |l.retired| == 2 && Mark(l.retired[0]) == 1211 && Mark(l.retired[1]) == 1218
  {
  }

  lemma MattermostMarked(l: Layout)
    requires l == MATTERMOST.(roles := map[])
    ensures Marked(l)
  {
    MattermostMarkedServices(l);
    MattermostMarkedServerLocale(l);
    MattermostMarkedLists(l);
    MattermostMarkedOthers(l);
    MattermostMarkedClientLocale(l);
  }

  /** The real paths play one role each. */
  lemma MattermostSeparate()
    ensures Separate(MATTERMOST)
  {
    var l := MATTERMOST.(roles := map[]);
    MattermostMarked(l);
    MarkedCharted(l, MATTERMOST);
  }

  /** A path with another mark than the real ones plays no role. */
  lemma UnmarkedIsOther(p: Path)
    requires Mark(p) == 1506
    ensures RoleOf(MATTERMOST, p) == Other
  {
    var l := MATTERMOST.(roles := map[]);
    MattermostMarked(l);
    Unlisted(l, p);
  }

  lemma Unlisted(l: Layout, p: Path)
    requires Marked(l) && Mark(p) == 1506
    ensures p !in Charted(l).roles
  {
    UnlistedTexts(l, p);
  }

  lemma UnlistedTexts(l: Layout, p: Path)
    requires Marked(l) && Mark(p) == 1506
    ensures p !in l.emails && p !in l.retired
  {
    assert forall i :: 0 <= i < |l.emails| ==> Mark(l.emails[i]) != 1506;
    assert forall i :: 0 <= i < |l.retired| ==> Mark(l.retired[i]) != 1506;
  }
}
