/** `Desanitize`: replacing masked settings by the real ones. */
module Desanitize {
  import opened Options
  import opened ConfigModel

  /** The maskable settings.  A missing actual value leaves a guarded setting alone and
      clears an unguarded one; lists are restored entry by entry.  The actual sections of the
      unchecked settings are looked into even if they are nil. */
  datatype Masks = Masks(
    fake: string, guarded: seq<Path>, unguarded: seq<Path>, lists: seq<Path>, plugins: Path, unchecked: seq<Path>)

  const MATTERMOST_MASKS := Masks(
    "********************************",
    [["LdapSettings", "BindPassword"], ["FileSettings", "PublicLinkSalt"],
     ["FileSettings", "AmazonS3SecretAccessKey"], ["FileSettings", "ExportAmazonS3SecretAccessKey"],
     ["FileSettings", "AzureAccessKey"], ["FileSettings", "ExportAzureAccessKey"],
     ["SqlSettings", "DataSource"], ["ElasticsearchSettings", "Password"],
     ["MessageExportSettings", "GlobalRelaySettings", "SMTPPassword"], ["ServiceSettings", "SplitKey"]],
    [["EmailSettings", "SMTPPassword"], ["GitLabSettings", "Secret"], ["GoogleSettings", "Secret"],
     ["Office365Settings", "Secret"], ["OpenIdSettings", "Secret"], ["ServiceSettings", "GoogleDeveloperKey"],
     ["ServiceSettings", "GiphySdkKey"], ["CacheSettings", "RedisPassword"],
     ["AutoTranslationSettings", "LibreTranslate", "APIKey"]],
    [["SqlSettings", "DataSourceReplicas"], ["SqlSettings", "DataSourceSearchReplicas"]],
    ["PluginSettings", "Plugins"],
    [["AutoTranslationSettings", "LibreTranslate", "APIKey"]])

  function RealEntries(fake: string, actual: seq<string>, target: seq<string>): (r: seq<string>)
    ensures |r| == |target|
  {
    if |actual| != |target| then target
    else seq(|target|, i requires 0 <= i < |target| => if target[i] == fake then actual[i] else target[i])
  }

  /** An entry that the actual settings do not have reads as null. */
  function ActualPlugin(actual: Plugins, id: string, k: string): Option<string> {
    if id in actual && k in actual[id] then actual[id][k] else None
  }

  function RealPlugins(fake: string, actual: Plugins, target: Plugins): Plugins {
    map id | id in target ::
      map k | k in target[id] :: if target[id][k] == Some(fake) then ActualPlugin(actual, id, k) else target[id][k]
  }

  function ListAt(c: Config, p: Path): seq<string> {
    if p in c && c[p].List? then c[p].items else []
  }

  function PluginsAt(c: Config, p: Path): Plugins {
    if p in c && c[p].Table? then c[p].plugins else map[]
  }

  predicate Masked(m: Masks, target: Config, p: Path) {
    p in target && target[p] == Str(m.fake)
  }

  /** The setting at `p` after desanitizing. */
  function RealLeaf(m: Masks, actual: Config, target: Config, p: Path): Value
    requires p in target
  {
    match target[p]
    case Str(s) => if s == m.fake && (p in m.guarded || p in m.unguarded) && p in actual then actual[p] else target[p]
    case List(items) => if p in m.lists then List(RealEntries(m.fake, ListAt(actual, p), items)) else target[p]
    case Table(t) => if p == m.plugins then Table(RealPlugins(m.fake, PluginsAt(actual, p), t)) else target[p]
    case _ => target[p]
  }

  /** An unguarded setting without an actual value is cleared. */
  predicate Cleared(m: Masks, actual: Config, target: Config, p: Path) {
    Masked(m, target, p) && p in m.unguarded && p !in m.guarded && p !in actual
  }

  /** The section of `p` is not nil: some setting of it is there. */
  ghost predicate SectionThere(c: Config, p: Path) {
    exists q :: q in c && |q| == |p| > 0 && q[..|p| - 1] == p[..|p| - 1]
  }

  /** The code panics: a masked unchecked setting has no actual section to be looked into. */
  ghost predicate Panics(m: Masks, actual: Config, target: Config) {
    exists p :: p in m.unchecked && Masked(m, target, p) && !SectionThere(actual, p)
  }

  ghost predicate SectionsThere(m: Masks, actual: Config) {
    forall p :: p in m.unchecked ==> SectionThere(actual, p)
  }

  /** An actual configuration is safe with every submission exactly if its unchecked sections are
      all there. */
  lemma NeverPanicsIff(m: Masks, actual: Config)
    ensures (forall target :: !Panics(m, actual, target)) <==> SectionsThere(m, actual)
  {
    if p :| p in m.unchecked && !SectionThere(actual, p) {
      var target: Config := map[p := Str(m.fake)];
      assert Masked(m, target, p);
      assert Panics(m, actual, target);
    }
  }

  function Desanitized(m: Masks, actual: Config, target: Config): Config {
    map p | p in target && !Cleared(m, actual, target, p) :: RealLeaf(m, actual, target, p)
  }

  ghost predicate Separate(m: Masks) {
    && (forall p :: p in m.guarded ==> p !in m.unguarded)
    && (forall i, j :: 0 <= i < j < |m.lists| ==> m.lists[i] != m.lists[j])
  }

  /** The maskable scalar settings hold text, as their Go types demand. */
  ghost predicate ScalarsAreText(m: Masks, c: Config) {
    forall p :: p in c && (p in m.guarded || p in m.unguarded) ==> c[p].Str?
  }

  method Desanitize(m: Masks, actual: Config, target: Config) returns (r: Config)
    requires Separate(m)
    requires ScalarsAreText(m, actual) && !Panics(m, actual, target)
    ensures r == Desanitized(m, actual, target)
  {
    r := DesanitizeGuarded(m, actual, target);
    r := DesanitizeUnguarded(m, actual, target, r);
    r := DesanitizeLists(m, actual, target, r);
    PluginsDone(m, actual, target, r);
    if m.plugins in r && r[m.plugins].Table? {
      var t := DesanitizePlugins(m.fake, PluginsAt(actual, m.plugins), r[m.plugins].plugins);
      r := r[m.plugins := Table(t)];
    }
  }

  /** With the plugin settings the last ones are dealt with. */
  lemma PluginsDone(m: Masks, actual: Config, target: Config, r: Config)
    requires ScalarsAreText(m, actual)
    requires Progress(m, actual, target, r, m.guarded, m.unguarded, m.lists)
    ensures if m.plugins in r && r[m.plugins].Table?
            then r[m.plugins := Table(RealPlugins(m.fake, PluginsAt(actual, m.plugins), r[m.plugins].plugins))]
              == Desanitized(m, actual, target)
            else r == Desanitized(m, actual, target)
  {
    forall p | p in r && !(p == m.plugins && r[p].Table?) ensures r[p] == RealLeaf(m, actual, target, p) {
      LeafDone(m, actual, target, r, p);
    }
  }

  lemma LeafDone(m: Masks, actual: Config, target: Config, r: Config, p: Path)
    requires Progress(m, actual, target, r, m.guarded, m.unguarded, m.lists)
    requires p in r && !(p == m.plugins && r[p].Table?)
    ensures r[p] == RealLeaf(m, actual, target, p)
  {
  }

  /** Which settings were dealt with, by kind of setting. */
  ghost predicate Progress(m: Masks, actual: Config, target: Config, r: Config,
                           guarded: seq<Path>, unguarded: seq<Path>, lists: seq<Path>)
  {
    && (forall p :: p in r <==> p in target && !(p in unguarded && Cleared(m, actual, target, p)))
    && forall p :: p in r ==>
      r[p] == match target[p]
        case Str(_) => if p in guarded || p in unguarded then RealLeaf(m, actual, target, p) else target[p]
        case List(_) => if p in lists then RealLeaf(m, actual, target, p) else target[p]
        case _ => target[p]
  }

  method DesanitizeGuarded(m: Masks, actual: Config, target: Config) returns (r: Config)
    requires Separate(m)
    ensures Progress(m, actual, target, r, m.guarded, [], [])
  {
    r := target;
    for i := 0 to |m.guarded|
      invariant Progress(m, actual, target, r, m.guarded[..i], [], [])
    {
      var p := m.guarded[i];
      assert m.guarded[..i + 1] == m.guarded[..i] + [p];
      if p in r && r[p] == Str(m.fake) && p in actual {
        r := r[p := actual[p]];
      }
    }
    assert m.guarded[..|m.guarded|] == m.guarded;
  }

  method DesanitizeUnguarded(m: Masks, actual: Config, ghost target: Config, start: Config) returns (r: Config)
    requires Separate(m)
    requires ScalarsAreText(m, actual)
    requires Progress(m, actual, target, start, m.guarded, [], [])
    ensures Progress(m, actual, target, r, m.guarded, m.unguarded, [])
  {
    r := start;
    for i := 0 to |m.unguarded|
      invariant Progress(m, actual, target, r, m.guarded, m.unguarded[..i], [])
    {
      var p := m.unguarded[i];
      assert m.unguarded[..i + 1] == m.unguarded[..i] + [p];
      if p in r && r[p] == Str(m.fake) {
        r := if p in actual then r[p := actual[p]] else r - {p};
      }
    }
    assert m.unguarded[..|m.unguarded|] == m.unguarded;
  }

  method DesanitizeLists(m: Masks, actual: Config, ghost target: Config, start: Config) returns (r: Config)
    requires Separate(m)
    requires Progress(m, actual, target, start, m.guarded, m.unguarded, [])
    ensures Progress(m, actual, target, r, m.guarded, m.unguarded, m.lists)
  {
    r := start;
    for i := 0 to |m.lists|
      invariant Progress(m, actual, target, r, m.guarded, m.unguarded, m.lists[..i])
    {
      var p := m.lists[i];
      assert m.lists[..i + 1] == m.lists[..i] + [p];
      ListDone(m, actual, target, r, m.lists[..i], p);
      if p in r && r[p].List? {
        var entries := DesanitizeEntries(m.fake, ListAt(actual, p), r[p].items);
        r := r[p := List(entries)];
      }
    }
    assert m.lists[..|m.lists|] == m.lists;
  }

  lemma ListDone(m: Masks, actual: Config, target: Config, r: Config, lists: seq<Path>, p: Path)
    requires p in m.lists && p !in lists && Progress(m, actual, target, r, m.guarded, m.unguarded, lists)
    ensures p in r && r[p].List? ==>
      var entries := RealEntries(m.fake, ListAt(actual, p), r[p].items);
      Progress(m, actual, target, r[p := List(entries)], m.guarded, m.unguarded, lists + [p])
    ensures !(p in r && r[p].List?) ==> Progress(m, actual, target, r, m.guarded, m.unguarded, lists + [p])
  {
  }

  method DesanitizeEntries(fake: string, actual: seq<string>, target: seq<string>) returns (r: seq<string>)
    ensures r == RealEntries(fake, actual, target)
  {
    r := target;
    if |actual| == |target| {
      for i := 0 to |target|
        invariant |r| == |target|
        invariant forall j :: 0 <= j < |r| ==>
          r[j] == if j < i && target[j] == fake then actual[j] else target[j]
      {
        if r[i] == fake {
          r := r[i := actual[i]];
        }
      }
    }
  }

  method DesanitizePlugins(fake: string, actual: Plugins, target: Plugins) returns (r: Plugins)
    ensures r == RealPlugins(fake, actual, target)
  {
    r := target;
    var ids := target.Keys;
    while ids != {}
      invariant ids <= target.Keys && r.Keys == target.Keys
      invariant forall id :: id in r ==>
        r[id] == if id in ids then target[id] else RealPlugins(fake, actual, target)[id]
    {
      var id :| id in ids;
      var settings := target[id];
      var keys := settings.Keys;
      while keys != {}
        invariant keys <= target[id].Keys && settings.Keys == target[id].Keys
        invariant forall k :: k in settings ==>
          settings[k] == if k !in keys && target[id][k] == Some(fake) then ActualPlugin(actual, id, k)
                         else target[id][k]
      {
        var k :| k in keys;
        if settings[k] == Some(fake) {
          settings := settings[k := ActualPlugin(actual, id, k)];
        }
        keys := keys - {k};
      }
      assert settings == RealPlugins(fake, actual, target)[id];
      r := r[id := settings];
      ids := ids - {id};
    }
  }

  // ---- What unmasking means ----------------------------------------------

  /** `u` is `target` with the masked settings unmasked: a masked text takes the actual value if
      there is one, and goes if there is none and it is not guarded; a masked entry of a replica
      list takes the entry at its place if the lists are of one length; a masked plugin setting
      takes the actual one, or null; and everything that is not masked stays. */
  ghost predicate IsUnmasked(m: Masks, actual: Config, target: Config, u: Config) {
    && (forall p :: p in u <==>
          p in target && !(target[p] == Str(m.fake) && p in m.unguarded && p !in m.guarded && p !in actual))
    && forall p :: p in u ==> UnmaskedLeaf(m, actual, target[p], u[p], p)
  }

  ghost predicate UnmaskedLeaf(m: Masks, actual: Config, before: Value, after: Value, p: Path) {
    match before
    case Str(s) =>
      after == if s == m.fake && (p in m.guarded || p in m.unguarded) && p in actual then actual[p] else before
    case List(items) =>
      if p !in m.lists || p !in actual || !actual[p].List? || |actual[p].items| != |items| then after == before
      else
        && after.List? && |after.items| == |items|
        && forall i :: 0 <= i < |items| ==>
             after.items[i] == if items[i] == m.fake then actual[p].items[i] else items[i]
    case Table(t) =>
      if p != m.plugins then after == before
      else
        var a := if p in actual && actual[p].Table? then actual[p].plugins else map[];
        && after.Table? && after.plugins.Keys == t.Keys
        && forall id :: id in t ==> UnmaskedPlugin(m, if id in a then a[id] else map[], t[id], after.plugins[id])
    case _ => after == before
  }

  ghost predicate UnmaskedPlugin(m: Masks, actual: map<string, Option<string>>,
                                 before: map<string, Option<string>>, after: map<string, Option<string>>)
  {
    && after.Keys == before.Keys
    && forall k :: k in before ==>
         after[k] == if before[k] != Some(m.fake) then before[k] else if k in actual then actual[k] else None
  }

  /** The unmasked configuration is the one that the code computes, and no other. */
  lemma UnmaskedIff(m: Masks, actual: Config, target: Config, u: Config)
    ensures u == Desanitized(m, actual, target) <==> IsUnmasked(m, actual, target, u)
  {
    var d := Desanitized(m, actual, target);
    forall p | p in d ensures UnmaskedLeaf(m, actual, target[p], d[p], p) {
      RealIsUnmasked(m, actual, target, p, d[p]);
    }
    if IsUnmasked(m, actual, target, u) {
      forall p | p in u ensures u[p] == d[p] { RealIsUnmasked(m, actual, target, p, u[p]); }
    }
  }

  lemma RealIsUnmasked(m: Masks, actual: Config, target: Config, p: Path, v: Value)
    requires p in target
    ensures v == RealLeaf(m, actual, target, p) <==> UnmaskedLeaf(m, actual, target[p], v, p)
  {
    match target[p]
    case List(items) =>
      var entries := RealEntries(m.fake, ListAt(actual, p), items);
      if UnmaskedLeaf(m, actual, target[p], v, p) && p in m.lists && |ListAt(actual, p)| == |items| {
        if p in actual && actual[p].List? { assert v.items == entries; } else { assert items == [] && entries == []; }
      }
    case Table(t) =>
      if p == m.plugins {
        var a := PluginsAt(actual, p);
        forall id | id in t
          ensures UnmaskedPlugin(m, if id in a then a[id] else map[], t[id], RealPlugins(m.fake, a, t)[id])
        {
        }
        if UnmaskedLeaf(m, actual, target[p], v, p) { TableIsReal(m, a, t, v.plugins); }
      }
    case _ =>
  }

  lemma TableIsReal(m: Masks, a: Plugins, t: Plugins, v: Plugins)
    requires v.Keys == t.Keys
    requires forall id :: id in t ==> UnmaskedPlugin(m, if id in a then a[id] else map[], t[id], v[id])
    ensures v == RealPlugins(m.fake, a, t)
  {
    forall id | id in t ensures v[id] == RealPlugins(m.fake, a, t)[id] {
      assert UnmaskedPlugin(m, if id in a then a[id] else map[], t[id], v[id]);
    }
  }

  // ---- Masking and unmasking ---------------------------------------------

  /** `masked` is `c` with any of the maskable settings replaced by the fake one. */
  ghost predicate IsMaskOf(m: Masks, masked: Config, c: Config) {
    && masked.Keys == c.Keys
    && forall p :: p in c ==> masked[p] == c[p] || MaskedLeaf(m, masked[p], c[p], p)
  }

  ghost predicate MaskedLeaf(m: Masks, v: Value, actual: Value, p: Path) {
    match actual
    case Str(_) => v == Str(m.fake) && (p in m.guarded || p in m.unguarded)
    case List(items) =>
      && v.List? && p in m.lists && |v.items| == |items|
      && forall i :: 0 <= i < |items| ==> v.items[i] == items[i] || v.items[i] == m.fake
    case Table(t) =>
      && v.Table? && p == m.plugins && v.plugins.Keys == t.Keys
      && forall id :: id in t ==> MaskedSettings(m, v.plugins[id], t[id])
    case _ => false
  }

  ghost predicate MaskedSettings(m: Masks, v: map<string, Option<string>>, actual: map<string, Option<string>>) {
    && v.Keys == actual.Keys
    && forall k :: k in actual ==> v[k] == actual[k] || v[k] == Some(m.fake)
  }

  /** Desanitizing undoes any masking. */
  lemma UnmaskingUndoesMasking(m: Masks, masked: Config, c: Config)
    requires IsMaskOf(m, masked, c)
    ensures Desanitized(m, c, masked) == c
  {
    forall p | p in c ensures RealLeaf(m, c, masked, p) == c[p] {
      RealOfMasked(m, masked, c, p);
    }
  }

  lemma RealOfMasked(m: Masks, masked: Config, c: Config, p: Path)
    requires IsMaskOf(m, masked, c) && p in c
    ensures RealLeaf(m, c, masked, p) == c[p]
  {
    match c[p]
    case Str(_) =>
    case List(items) =>
      assert RealEntries(m.fake, items, masked[p].items) == items;
    case Table(t) =>
      var v := masked[p].plugins;
      assert v.Keys == t.Keys;
      forall id | id in t ensures MaskedSettings(m, v[id], t[id]) && RealPlugins(m.fake, t, v)[id] == t[id] {
      }
      assert RealPlugins(m.fake, t, v) == t;
    case _ =>
  }

  // ---- The real settings -------------------------------------------------

  /** Tells guarded and unguarded settings apart by the lengths of their names. */
  function Mark(p: Path): int {
    if |p| < 2 then 0 else 100 * |p[0]| + |p[1]|
  }

  lemma GuardedMarks(p: Path)
    requires p in MATTERMOST_MASKS.guarded
    ensures Mark(p) in {1212, 1214, 1223, 1229, 1220, 1110, 2108, 2119, 1508}
  {
  }

  lemma UnguardedMarks(p: Path)
    requires p in MATTERMOST_MASKS.unguarded
    ensures Mark(p) in {1312, 1406, 1706, 1518, 1511, 1313, 2314}
  {
  }

  /** No real setting is listed both as guarded and as unguarded, and the two replica lists
      are different settings. */
  lemma MattermostMasksSeparate()
    ensures Separate(MATTERMOST_MASKS)
  {
    forall p | p in MATTERMOST_MASKS.guarded ensures p !in MATTERMOST_MASKS.unguarded {
      GuardedMarks(p);
      if p in MATTERMOST_MASKS.unguarded { UnguardedMarks(p); }
    }
    ListsDiffer(MATTERMOST_MASKS.lists);
  }

  lemma ListsDiffer(lists: seq<Path>)
    requires lists == MATTERMOST_MASKS.lists
    ensures forall i, j :: 0 <= i < j < |lists| ==> lists[i] != lists[j]
  {
    assert |lists| == 2 && |lists[0][1]| == 18 && |lists[1][1]| == 24;
  }
}
