/** What the repair makes of every setting: which values it leaves alone, and what it puts in
    place of the others. */
module RepairValues {
  import opened Strings
  import opened Locales
  import opened ConfigModel
  import opened ConfigRepair

  ghost predicate TextAt(c: Config, p: Path) {
    p in c && c[p].Str?
  }

  lemma RepairedTextAt(r: Rules, c: Config, p: Path, role: Role)
    requires RoleOf(r.at, p) == role && TextAt(c, p)
    ensures TextAt(Fix(r, c), p) && Fix(r, c)[p].s == FixRole(r, c, role, c[p].s)
  {
    TextFixed(r, c, p, role);
  }

  /** A supported default locale is kept, for the server and for the client; any other becomes
      "en". */
  lemma LocalesRepaired(r: Rules, c: Config, p: Path)
    requires SinglesCharted(r.at) && TextAt(c, p) && p in {r.at.serverLocale, r.at.clientLocale}
    ensures Fix(r, c)[p] == if c[p].s in r.locales then c[p] else Str("en")
  {
    RepairedTextAt(r, c, p, RoleOf(r.at, p));
  }

  /** The settings with a fixed choice: a listed value is kept, any other becomes the default; and
      the retired proxy type becomes the local one. */
  lemma ChoicesRepaired(r: Rules, c: Config, p: Path)
    requires SinglesCharted(r.at) && TextAt(c, p)
    ensures p == r.at.tlsMinVer ==>
      Fix(r, c)[p] == if c[p].s in {"1.0", "1.1", "1.2", "1.3"} then c[p] else Str("1.2")
    ensures p == r.at.webserverMode ==>
      Fix(r, c)[p] == if c[p].s in {"gzip", "uncompressed", "disabled"} then c[p] else Str("uncompressed")
    ensures p == r.at.imageProxy ==> Fix(r, c)[p] == if c[p].s == "atmos/camo" then Str("local") else c[p]
  {
    RepairedTextAt(r, c, p, RoleOf(r.at, p));
  }

  /** The site URL loses its trailing slashes, all of them and nothing else. */
  lemma SiteUrlRepaired(r: Rules, c: Config)
    requires SinglesCharted(r.at) && TextAt(c, r.at.siteURL)
    ensures TextAt(Fix(r, c), r.at.siteURL)
    ensures var before, after := c[r.at.siteURL].s, Fix(r, c)[r.at.siteURL].s;
      && after <= before && (forall i :: |after| <= i < |before| ==> before[i] == '/')
      && (after == "" || after[|after| - 1] != '/')
  {
    RepairedTextAt(r, c, r.at.siteURL, SiteURL);
  }

  /** The directory gets one slash exactly if the driver is the local one and the directory is
      neither empty nor ends in a slash. */
  lemma DirectoryRepaired(r: Rules, c: Config)
    requires SinglesCharted(r.at) && TextAt(c, r.at.directory) && TextAt(c, r.at.driver)
    ensures Fix(r, c)[r.at.driver] == c[r.at.driver]
    ensures var dir := c[r.at.directory].s;
      Fix(r, c)[r.at.directory] ==
        if c[r.at.driver].s == "local" && dir != "" && dir[|dir| - 1] != '/' then Str(dir + "/") else Str(dir)
  {
    RepairedTextAt(r, c, r.at.driver, Driver);
    RepairedTextAt(r, c, r.at.directory, Directory);
    var dir := c[r.at.directory].s;
    assert dir != "" ==> dir[|dir| - 1..] == [dir[|dir| - 1]];
  }

  /** E-mail settings are reduced by the address function; numbers, flags and lists change only as
      their rules say; and every setting that the repair does not list is kept. */
  lemma OthersRepaired(r: Rules, c: Config, p: Path)
    requires Separate(r.at) && p in c
    ensures Fix(r, c).Keys == c.Keys
    ensures c[p].Str? && p in r.at.emails ==> Fix(r, c)[p] == Str(r.address(c[p].s))
    ensures c[p].Num? ==>
      Fix(r, c)[p] == if p in r.ranges && c[p].n < r.ranges[p].minimum then Num(r.ranges[p].default) else c[p]
    ensures c[p].Flag? ==> Fix(r, c)[p] == if p in r.at.retired then Flag(false) else c[p]
    ensures c[p].List? || c[p].Table? ==> Fix(r, c)[p] == c[p]
    ensures p !in r.at.emails && p !in {r.at.siteURL, r.at.tlsMinVer, r.at.webserverMode, r.at.directory,
        r.at.serverLocale, r.at.clientLocale, r.at.available, r.at.imageProxy} && c[p].Str? ==>
      Fix(r, c)[p] == c[p]
  {
    assert ListCharted(r.at, p) && SingleCharted(r.at, p);
    if c[p].Str? { RepairedTextAt(r, c, p, RoleOf(r.at, p)); }
  }

  // ---- The locale list ---------------------------------------------------

  /** `r` has the words of `words`, each once, in the order of their first occurrences. */
  ghost predicate FirstOccurrences(words: seq<string>, r: seq<string>) {
    && (forall w :: w in r <==> w in words)
    && (forall i, j :: 0 <= i < j < |r| ==> r[i] != r[j])
    && forall i, j :: 0 <= i < j < |r| ==> Earlier(words, r[i], r[j])
  }

  /** Some occurrence of `v` comes before every occurrence of `w`. */
  ghost predicate Earlier(words: seq<string>, v: string, w: string) {
    exists n :: 0 <= n < |words| && words[n] == v && w !in words[..n]
  }

  lemma EarlierSnoc(words: seq<string>, last: string, v: string, w: string)
    requires Earlier(words, v, w)
    ensures Earlier(words + [last], v, w)
  {
    var n :| 0 <= n < |words| && words[n] == v && w !in words[..n];
    assert (words + [last])[..n] == words[..n];
  }

  lemma EarlierThanMissing(words: seq<string>, v: string, w: string)
    requires v in words && w !in words
    ensures Earlier(words, v, w)
  {
    var n :| 0 <= n < |words| && words[n] == v;
    assert w !in words[..n];
  }

  lemma {:induction false} DedupOrder(words: seq<string>)
    ensures FirstOccurrences(words, Dedup(words))
  {
    if |words| > 0 {
      var before, last := words[..|words| - 1], words[|words| - 1];
      DedupOrder(before);
      assert words == before + [last];
      var d, r := Dedup(before), Dedup(words);
      forall i, j | 0 <= i < j < |r| ensures Earlier(words, r[i], r[j]) {
        assert j < |d| ==> Earlier(before, d[i], d[j]);
        assert r[i] in before;
        if j == |d| { EarlierThanMissing(before, r[i], r[j]); }
        EarlierSnoc(before, last, r[i], r[j]);
      }
    }
  }

  /** The locale list, for the client locale `client` after its own repair: an empty list stays,
      one with an unsupported locale is emptied, and any other keeps the first occurrences of its
      locales in order, with the client locale behind them if it was missing. */
  lemma AvailableRepaired(r: Rules, c: Config, client: string)
    requires SinglesCharted(r.at) && NoCommas(r.locales) && TextAt(c, r.at.available) && TextAt(c, r.at.clientLocale)
    requires client == if c[r.at.clientLocale].s in r.locales then c[r.at.clientLocale].s else "en"
    ensures TextAt(Fix(r, c), r.at.available)
    ensures var before, after := c[r.at.available].s, Fix(r, c)[r.at.available].s;
      var words := Split(before, ',');
      if before == "" || exists w :: w in words && w !in r.locales then after == ""
      else FirstOccurrences(if client in words then words else words + [client], Split(after, ','))
  {
    RepairedTextAt(r, c, r.at.available, Available);
    var before := c[r.at.available].s;
    if before != "" && forall w :: w in Split(before, ',') ==> w in r.locales {
      ListJoined(r.locales, before, client);
    }
  }

  lemma ListJoined(locales: set<string>, before: string, client: string)
    requires NoCommas(locales) && ',' !in client && before != ""
    requires forall w :: w in Split(before, ',') ==> w in locales
    ensures var words := Split(before, ',');
      FirstOccurrences(if client in words then words else words + [client],
                       Split(FixAvailable(locales, before, client), ','))
  {
    var words := Split(before, ',');
    var all := if client in words then words else words + [client];
    DedupOrder(all);
    forall w | w in Dedup(all) ensures ',' !in w { assert w in words || w == client; }
    SplitOfJoin(Dedup(all), ',');
  }
}
