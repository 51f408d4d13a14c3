/** The locale repair: split, check, append, remove duplicates, join. */
module Locales {
  import opened Strings

  const DEFAULT_LOCALE := "en"

  /** A known locale is kept, any other becomes the default. */
  function FixLocale(locales: set<string>, s: string): string {
    if s in locales then s else DEFAULT_LOCALE
  }

  function Dedup(words: seq<string>): (r: seq<string>)
    ensures forall w :: w in r <==> w in words
    ensures forall i, j :: 0 <= i < j < |r| ==> r[i] != r[j]
    ensures |words| > 0 ==> |r| > 0
  {
    if |words| == 0 then []
    else
      var last := words[|words| - 1];
      var r := Dedup(words[..|words| - 1]);
      assert words == words[..|words| - 1] + [last];
      if last in r then r else r + [last]
  }

  method RemoveDuplicates(words: seq<string>) returns (r: seq<string>)
    ensures r == Dedup(words)
  {
    r := [];
    var seen: set<string> := {};
    for i := 0 to |words|
      invariant r == Dedup(words[..i])
      invariant seen == set w | w in words[..i]
    {
      assert words[..i + 1][..i] == words[..i];
      if words[i] !in seen {
        r := r + [words[i]];
        seen := seen + {words[i]};
      }
    }
    assert words[..|words|] == words;
  }

  /** The repaired AvailableLocales for an already repaired client locale. */
  function FixAvailable(locales: set<string>, available: string, client: string): string {
    var words := Split(available, ',');
    if available == "" then ""
    else if exists w :: w in words && w !in locales then ""
    else Join(Dedup(if client in words then words else words + [client]), ',')
  }

  /** The loop of `fixInvalidLocales`, with its early reset, and the join after it. */
  method FixAvailableLocales(locales: set<string>, available: string, client: string) returns (r: string)
    requires ',' !in client
    ensures r == FixAvailable(locales, available, client)
  {
    r := available;
    if available != "" {
      var words := Split(available, ',');
      var found := false;
      var i := 0;
      while i < |words|
        invariant 0 <= i <= |words|
        invariant r == available && forall w :: w in words[..i] ==> w in locales
        invariant found <==> client in words[..i]
        decreases |words| - i
      {
        assert words[i] in words;
        assert words[..i + 1] == words[..i] + [words[i]];
        if words[i] !in locales {
          r, found := "", true;
          break;
        }
        if words[i] == client { found := true; }
        i := i + 1;
      }
      if i == |words| { assert words[..i] == words; }
      if !found {
        r := r + "," + client;
      }
      var parts := RemoveDuplicates(Split(r, ','));
      if i < |words| {
        ResetList(locales, available, client, words[i]);
        EmptyList();
      } else {
        KeptList(locales, available, client, r);
      }
      r := Join(parts, ',');
    }
  }

  lemma EmptyList()
    ensures Join(Dedup(Split("", ',')), ',') == ""
  {
    SingleWord("");
    DedupDistinct([""]);
  }

  lemma ResetList(locales: set<string>, available: string, client: string, w: string)
    requires w in Split(available, ',') && w !in locales
    ensures FixAvailable(locales, available, client) == ""
  {
  }

  lemma KeptList(locales: set<string>, available: string, client: string, r: string)
    requires available != "" && ',' !in client
    requires forall w :: w in Split(available, ',') ==> w in locales
    requires r == if client in Split(available, ',') then available else available + "," + client
    ensures Join(Dedup(Split(r, ',')), ',') == FixAvailable(locales, available, client)
  {
    AppendWord(available, client);
  }

  lemma AppendWord(s: string, word: string)
    requires ',' !in word
    ensures Split(s + "," + word, ',') == Split(s, ',') + [word]
  {
    var words := Split(s, ',');
    JoinOfSplit(s, ',');
    JoinConcat(words, [word], ',');
    SplitOfJoin(words + [word], ',');
  }

  // ---- What the repair establishes ---------------------------------------

  ghost predicate NoCommas(locales: set<string>) {
    forall l :: l in locales ==> ',' !in l && l != ""
  }

  /** The list is empty, or it is the comma-join of distinct known locales with the client's
      among them. */
  ghost predicate GoodList(locales: set<string>, s: string, client: string) {
    s == "" || exists words: seq<string> ::
      s == Join(words, ',') && |words| > 0 && client in words
      && (forall w :: w in words ==> w in locales)
      && (forall i, j :: 0 <= i < j < |words| ==> words[i] != words[j])
  }

  lemma FixAvailableGood(locales: set<string>, available: string, client: string)
    requires client in locales
    ensures GoodList(locales, FixAvailable(locales, available, client), client)
  {
    var words := Split(available, ',');
    if available != "" && forall w :: w in words ==> w in locales {
      var r := Dedup(if client in words then words else words + [client]);
      assert client in r;
    }
  }

  lemma {:induction false} DedupDistinct(words: seq<string>)
    requires forall i, j :: 0 <= i < j < |words| ==> words[i] != words[j]
    ensures Dedup(words) == words
  {
    if |words| > 0 {
      var n := |words| - 1;
      DedupDistinct(words[..n]);
      assert words == words[..n] + [words[n]];
    }
  }

  /** A good list is left alone. */
  lemma GoodListFixed(locales: set<string>, s: string, client: string)
    requires NoCommas(locales) && GoodList(locales, s, client)
    ensures FixAvailable(locales, s, client) == s
  {
    if s != "" {
      var words: seq<string> :| s == Join(words, ',') && |words| > 0 && client in words
        && (forall w :: w in words ==> w in locales)
        && (forall i, j :: 0 <= i < j < |words| ==> words[i] != words[j]);
      SplitOfJoin(words, ',');
      DedupDistinct(words);
    }
  }

  /** Repairing twice is repairing once. */
  lemma FixAvailableIdempotent(locales: set<string>, available: string, client: string)
    requires NoCommas(locales) && client in locales
    ensures FixAvailable(locales, FixAvailable(locales, available, client), client)
         == FixAvailable(locales, available, client)
  {
    FixAvailableGood(locales, available, client);
    GoodListFixed(locales, FixAvailable(locales, available, client), client);
  }

  ghost predicate Idempotent(locales: set<string>) {
    forall s, c :: FixTwice(locales, s, c)
  }

  ghost predicate FixTwice(locales: set<string>, s: string, c: string) {
    var client := FixLocale(locales, c);
    FixAvailable(locales, FixAvailable(locales, s, client), client) == FixAvailable(locales, s, client)
  }

  /** The pair of locale repairs is idempotent on all inputs if and only if the default
      locale is itself supported, or no locale is loaded at all.  With other locales loaded
      but not the default one, the appended default is rejected by the next repair. */
  lemma IdempotentIff(locales: set<string>)
    requires NoCommas(locales)
    ensures Idempotent(locales) <==> DEFAULT_LOCALE in locales || locales == {}
  {
    if DEFAULT_LOCALE in locales {
      forall s, c ensures FixTwice(locales, s, c) {
        FixAvailableIdempotent(locales, s, FixLocale(locales, c));
      }
    } else if locales == {} {
      forall s, c ensures FixTwice(locales, s, c) {
        assert Split(s, ',')[0] in Split(s, ',');
      }
    } else {
      var l :| l in locales;
      SingleWord(l);
      AppendedDefault(locales, l);
      assert !FixTwice(locales, l, DEFAULT_LOCALE);
    }
  }

  lemma SingleWord(l: string)
    requires ',' !in l
    ensures Split(l, ',') == [l]
  {
    BeforeMissing(l, ',');
  }

  lemma AppendedDefault(locales: set<string>, l: string)
    requires NoCommas(locales) && l in locales && DEFAULT_LOCALE !in locales
    requires Split(l, ',') == [l]
    ensures FixAvailable(locales, l, DEFAULT_LOCALE) == l + "," + DEFAULT_LOCALE
    ensures FixAvailable(locales, l + "," + DEFAULT_LOCALE, DEFAULT_LOCALE) == ""
  {
    var both := [l] + [DEFAULT_LOCALE];
    assert forall w :: w in [l] ==> w in locales;
    DedupDistinct(both);
    JoinConcat([l], [DEFAULT_LOCALE], ',');
    AppendWord(l, DEFAULT_LOCALE);
    assert DEFAULT_LOCALE in both;
  }
}
