/** Streaming a keyset-paginated channel list as one JSON array. */
module ChannelStream {

  /** Ids matter only through their order; 0 stands for the empty id the first request uses. */
  datatype Channel = Channel(id: nat)

  datatype Token = Open | Comma | Item(channel: Channel) | Close

  datatype Outcome = Complete | NotFound | StoreError

  ghost predicate Ascending(all: seq<Channel>) {
    (forall i :: 0 <= i < |all| ==> all[i].id > 0)
    && forall i, j :: 0 <= i < j < |all| ==> all[i].id < all[j].id
  }

  /** The rows after an id, in id order. */
  function After(all: seq<Channel>, from: nat): seq<Channel> {
    if |all| == 0 then []
    else (if all[0].id > from then [all[0]] else []) + After(all[1..], from)
  }

  /** One page; empty pages are answered with a not-found error. */
  function Page(all: seq<Channel>, from: nat, size: nat): seq<Channel> {
    var rows := After(all, from);
    if |rows| <= size then rows else rows[..size]
  }

  lemma {:induction false} AfterNone(all: seq<Channel>, from: nat)
    requires forall i :: 0 <= i < |all| ==> all[i].id > from
    ensures After(all, from) == all
  {
    if |all| > 0 { AfterNone(all[1..], from); }
  }

  /** A request from the last id sent continues exactly behind it. */
  lemma {:induction false} AfterSent(all: seq<Channel>, k: nat)
    requires Ascending(all) && 0 < k <= |all|
    ensures After(all, all[k - 1].id) == all[k..]
  {
    var from := all[k - 1].id;
    if k == 1 {
      assert all[0].id <= from;
      AfterNone(all[1..], from);
    } else {
      assert all[0].id < from;
      assert all[1..][k - 2] == all[k - 1];
      AfterSent(all[1..], k - 1);
      assert all[1..][k - 1..] == all[k..];
    }
  }

  /** The channels with a comma between every two. */
  function Joined(cs: seq<Channel>): seq<Token> {
    if |cs| == 0 then []
    else if |cs| == 1 then [Item(cs[0])]
    else Joined(cs[..|cs| - 1]) + [Comma, Item(cs[|cs| - 1])]
  }

  lemma {:induction false} JoinedAppend(a: seq<Channel>, b: seq<Channel>)
    requires |a| > 0 && |b| > 0
    ensures Joined(a + b) == Joined(a) + [Comma] + Joined(b)
  {
    var n := |b| - 1;
    assert (a + b)[..|a + b| - 1] == a + b[..n];
    if n > 0 {
      JoinedAppend(a, b[..n]);
    } else {
      assert a + b[..0] == a;
    }
  }

  function Items(ts: seq<Token>): seq<Channel> {
    if |ts| == 0 then []
    else Items(ts[..|ts| - 1]) + (if ts[|ts| - 1].Item? then [ts[|ts| - 1].channel] else [])
  }

  lemma ItemsSnoc(ts: seq<Token>, c: Channel)
    ensures Items(ts + [Comma, Item(c)]) == Items(ts) + [c]
  {
    var t := ts + [Comma];
    assert ts + [Comma, Item(c)] == t + [Item(c)];
    assert (t + [Item(c)])[..|t|] == t && t[..|ts|] == ts;
    assert Items(t) == Items(ts) + [];
  }

  /** The channels of a list of tokens, and its commas. */
  ghost predicate Holds(ts: seq<Token>, cs: seq<Channel>, commas: nat) {
    Items(ts) == cs && multiset(ts)[Comma] == commas
  }

  /** A joined list has every channel once, in order, and one comma less than channels. */
  lemma {:induction false} JoinedShape(cs: seq<Channel>)
    ensures Holds(Joined(cs), cs, if |cs| == 0 then 0 else |cs| - 1)
  {
    if |cs| == 1 {
      HoldsOne(cs[0]);
      assert cs == [cs[0]];
    } else if |cs| > 1 {
      var n := |cs| - 1;
      JoinedShape(cs[..n]);
      HoldsSnoc(Joined(cs[..n]), cs[..n], n - 1, cs[n]);
      assert cs == cs[..n] + [cs[n]];
    }
  }

  lemma HoldsOne(c: Channel)
    ensures Holds([Item(c)], [c], 0)
  {
    assert [Item(c)][..0] == [];
  }

  /** Channels and commas take turns, beginning and ending with a channel. */
  lemma {:induction false} JoinedAt(cs: seq<Channel>, i: nat)
    requires i < |cs|
    ensures |Joined(cs)| == 2 * |cs| - 1 && Joined(cs)[2 * i] == Item(cs[i])
    ensures i > 0 ==> Joined(cs)[2 * i - 1] == Comma
  {
    var n := |cs| - 1;
    if n > 0 { JoinedAt(cs[..n], if i < n then i else n - 1); }
  }

  lemma HoldsSnoc(ts: seq<Token>, cs: seq<Channel>, commas: nat, c: Channel)
    requires Holds(ts, cs, commas)
    ensures Holds(ts + [Comma, Item(c)], cs + [c], commas + 1)
  {
    ItemsSnoc(ts, c);
  }

  /** One page: its channels with a comma after each but the last. */
  method EncodePage(channels: seq<Channel>) returns (page: seq<Token>)
    requires |channels| > 0
    ensures page == Joined(channels)
  {
    page := [];
    for i := 0 to |channels|
      invariant page == Joined(channels[..i]) + (if 0 < i < |channels| then [Comma] else [])
    {
      assert channels[..i + 1][..i] == channels[..i];
      page := page + [Item(channels[i])];
      if i < |channels| - 1 {
        page := page + [Comma];
      }
    }
    assert channels[..|channels|] == channels;
  }

  /** What has been written once the first `sent` channels are out. */
  function Written(all: seq<Channel>, sent: nat): seq<Token>
    requires sent <= |all|
  {
    [Open] + Joined(all[..sent])
  }

  lemma NextPage(all: seq<Channel>, sent: nat, n: nat)
    requires n > 0 && sent + n <= |all|
    ensures Written(all, sent + n)
      == Written(all, sent) + (if sent == 0 then [] else [Comma]) + Joined(all[sent..sent + n])
  {
    var page := all[sent..sent + n];
    assert all[..sent + n] == all[..sent] + page;
    if sent > 0 {
      JoinedAppend(all[..sent], page);
    } else {
      assert all[..0] + page == page;
    }
  }

  /** The id to continue from after `sent` channels. */
  function Cursor(all: seq<Channel>, sent: nat): nat
    requires sent <= |all|
  {
    if sent == 0 then 0 else all[sent - 1].id
  }

  lemma AfterCursor(all: seq<Channel>, sent: nat)
    requires Ascending(all) && sent <= |all|
    ensures After(all, Cursor(all, sent)) == all[sent..]
    ensures Cursor(all, sent) == 0 <==> sent == 0
  {
    if sent == 0 { AfterNone(all, 0); } else { AfterSent(all, sent); }
  }

  /** One request: the next channels, a full page of them if there are that many. */
  method Fetch(all: seq<Channel>, from: nat, size: nat, ghost sent: nat) returns (channels: seq<Channel>)
    requires Ascending(all) && sent <= |all| && from == Cursor(all, sent)
    ensures sent + |channels| <= |all| && channels == all[sent..sent + |channels|]
    ensures |channels| == size || (|channels| < size && sent + |channels| == |all|)
    ensures from == 0 <==> sent == 0
  {
    channels := Page(all, from, size);
    AfterCursor(all, sent);
    PageOfRest(all, sent, all[sent..], size, channels);
  }

  lemma PageOfRest(all: seq<Channel>, sent: nat, rest: seq<Channel>, size: nat, page: seq<Channel>)
    requires sent <= |all| && rest == all[sent..] && page == if |rest| <= size then rest else rest[..size]
    ensures sent + |page| <= |all| && page == all[sent..sent + |page|]
    ensures |page| == size || (|page| < size && sent + |page| == |all|)
  {
  }

  /** The streaming loop.  `broken(k)` says whether request number `k`, or filling in its
      channels, fails.  The output is one array of all channels; a failed request leaves the
      array open after the pages before it, and an empty first page is an error. */
  method GetChannelsForUser(all: seq<Channel>, size: nat, broken: nat -> bool)
    returns (output: seq<Token>, r: Outcome, ghost sent: nat)
    requires Ascending(all) && size >= 1
    ensures sent <= |all|
    ensures r == Complete ==> all != [] && output == [Open] + Joined(all) + [Close]
    ensures r == NotFound ==> all == [] && output == [Open]
    ensures r == StoreError ==> output == [Open] + Joined(all[..sent]) && exists k: nat :: broken(k) && sent == k * size
    ensures (forall k: nat :: !broken(k)) ==> r == if all == [] then NotFound else Complete
  {
    output, sent := [Open], 0;
    var from, k := 0, 0;
    while true
      invariant sent == k * size <= |all|
      invariant from == Cursor(all, sent)
      invariant output == Written(all, sent)
      decreases |all| - sent
    {
      if broken(k) {
        return output, StoreError, sent;
      }
      var channels := Fetch(all, from, size, sent);
      if |channels| == 0 {
        // after the first page this only says that the page size divides the total
        if from != 0 { break; }
        return output, NotFound, 0;
      }
      if from != 0 {
        output := output + [Comma];
      }
      var page := EncodePage(channels);
      output := output + page;
      NextPage(all, sent, |channels|);
      sent := sent + |channels|;
      if |channels| < size {
        break;
      }
      NextMultiple(k, size);
      k := k + 1;
      from := channels[|channels| - 1].id;
    }
    assert all[..|all|] == all;
    output := output + [Close];
    r := Complete;
  }

  lemma NextMultiple(k: nat, size: nat)
    ensures (k + 1) * size == k * size + size
  {
  }
}
