/** The decision of the brotli writer over whole runs: when it is taken, how it falls out, and
    what the response headers are. */
module BrotliHeaders {
  import opened Options
  import opened HttpResponse
  import opened Brotli
  import opened BrotliRuns

  // ---- The reference, on the handler's calls alone -----------------------

  /** The header map as the handler left it. */
  function HandlerHeader(h: Header, calls: seq<Call>): Header {
    if |calls| == 0 then h
    else
      var c := calls[|calls| - 1];
      if c.SetHeader? then c.h else HandlerHeader(h, calls[..|calls| - 1])
  }

  /** The decision falls with the first Write that reaches the threshold, or the first Flush of
      anything written before that. */
  predicate Decided(pol: Policy, calls: seq<Call>) {
    |calls| > 0 &&
    (|| Decided(pol, calls[..|calls| - 1])
     || (calls[|calls| - 1].Write? && |Written(calls)| >= pol.minSize)
     || (calls[|calls| - 1].Flush? && Written(calls) != []))
  }

  /** The informational codes set before the decision. */
  function Informational(pol: Policy, calls: seq<Call>): seq<int> {
    if |calls| == 0 then []
    else
      var before, c := calls[..|calls| - 1], calls[|calls| - 1];
      Informational(pol, before)
      + (if c.WriteHeader? && 100 <= c.code <= 199 && !Decided(pol, before) then [c.code] else [])
  }

  /** The bytes that the decision looks at. */
  function FirstBytes(pol: Policy, calls: seq<Call>): Bytes {
    if |Written(calls)| > pol.minSize then Written(calls)[..pol.minSize] else Written(calls)
  }

  predicate AllowsBody(status: int) {
    !(100 <= status <= 199) && status != 204 && status != 304
  }

  /** The content type that counts: the one of the handler, even if it is empty, or else what the
      bytes look like. */
  function ContentType(pol: Policy, g: Header, status: int, first: Bytes): string {
    if "Content-Type" in g then Get(g, "Content-Type")
    else if AllowsBody(status) && first != [] then pol.sniff(first)
    else ""
  }

  predicate ShouldCompress(pol: Policy, g: Header, status: int, first: Bytes) {
    && pol.canCompress && AllowsBody(status)
    && Get(g, "Content-Encoding") == "" && Get(g, "Content-Range") == ""
    && pol.typeAllowed(ContentType(pol, g, status, first))
  }

  ghost predicate SameAt(sent: Header, g: Header, k: string) {
    (k in sent <==> k in g) && (k in sent && k in g ==> sent[k] == g[k])
  }

  /** The headers that go out for the handler's header map `g`. */
  ghost predicate HeadersRight(pol: Policy, compressed: bool, sent: Header, g: Header, status: int, first: Bytes) {
    && "Vary" in sent && sent["Vary"] == (if "Vary" in g then g["Vary"] else []) + ["Accept-Encoding"]
    && (if "Content-Type" !in g && AllowsBody(status) && first != []
        then "Content-Type" in sent && sent["Content-Type"] == [pol.sniff(first)]
        else SameAt(sent, g, "Content-Type"))
    && (if compressed
        then
          && "Content-Length" !in sent && "Accept-Ranges" !in sent
          && "Content-Encoding" in sent && sent["Content-Encoding"] == ["br"]
        else SameAt(sent, g, "Content-Length") && SameAt(sent, g, "Accept-Ranges")
             && SameAt(sent, g, "Content-Encoding"))
    && forall k :: Untouched(k) ==> SameAt(sent, g, k)
  }

  /** A header the writer has nothing to do with. */
  predicate Untouched(k: string) {
    && k != "Vary" && k != "Content-Type" && k != "Content-Encoding"
    && k != "Content-Length" && k != "Accept-Ranges"
  }

  // ---- One decision ------------------------------------------------------

  lemma NamesApart(vary: string, ct: string, ce: string, cl: string, ar: string, cr: string)
    requires vary == "Vary" && ct == "Content-Type" && ce == "Content-Encoding"
    requires cl == "Content-Length" && ar == "Accept-Ranges" && cr == "Content-Range"
    ensures vary !in {ct, ce, cl, ar, cr} && ct !in {ce, cl, ar, cr} && ce !in {cl, ar, cr} && cl !in {ar, cr}
    ensures ar != cr
  {
    assert |vary| == 4 && |ct| == 12 && |ce| == 16 && |cl| == 14 && |ar| == 13 && |cr| == 13;
    assert ar[0] == 'A' && cr[0] == 'C';
  }

  /** What describing does, header by header. */
  lemma DescribedRight(pol: Policy, g: Header, status: int, first: Bytes)
    ensures HeadersRight(pol, false, Described(pol, g, status, first).0, g, status, first)
    ensures Described(pol, g, status, first).1 == ContentType(pol, g, status, first)
  {
    NamesApart("Vary", "Content-Type", "Content-Encoding", "Content-Length", "Accept-Ranges", "Content-Range");
  }

  lemma CompressedRight(pol: Policy, g: Header, d: Header, status: int, first: Bytes)
    requires HeadersRight(pol, false, d, g, status, first)
    ensures HeadersRight(pol, true, CompressedHeader(d), g, status, first)
  {
    NamesApart("Vary", "Content-Type", "Content-Encoding", "Content-Length", "Accept-Ranges", "Content-Range");
  }

  lemma CompressibleIff(pol: Policy, g: Header, status: int, first: Bytes)
    ensures Compressible(pol, g, status, first) <==> ShouldCompress(pol, g, status, first)
  {
    DescribedRight(pol, g, status, first);
  }

  lemma DecisionRight(pol: Policy, w: Writer, remain: Bytes, status: int)
    requires Lawful(pol.codec) && Undecided(w) && w.rw.status == 0 && w.rw.body == []
    requires status == StatusCode(w) && 200 <= status <= 999
    ensures var r := DoStartCompression(pol, w, remain).0;
      && !Undecided(r) && r.rw.informational == w.rw.informational
      && (r.bw.Some? <==> ShouldCompress(pol, w.rw.header, status, w.buf))
      && HeadersRight(pol, r.bw.Some?, r.rw.sent, w.rw.header, status, w.buf)
  {
    var g := w.rw.header;
    var d := Described(pol, g, status, w.buf).0;
    CompressibleIff(pol, g, status, w.buf);
    DescribedRight(pol, g, status, w.buf);
    if Compressible(pol, g, status, w.buf) {
      CompressedDecision(pol, w, remain, status);
      CompressedRight(pol, g, d, status, w.buf);
    } else {
      assert DoStartCompression(pol, w, remain) == DoStartPlain(w.(rw := w.rw.(header := d)), remain);
      PlainDecision(w.(rw := w.rw.(header := d)), remain, status);
    }
  }

  // ---- One call ----------------------------------------------------------

  /** After the decision neither the outlet nor the headers that went out change. */
  lemma DecidedStays(pol: Policy, w: Writer, c: Call, written: Bytes, pending: int)
    requires pol.minSize >= 1 && Lawful(pol.codec) && Plain(c)
    requires Inv(pol, w, written, pending) && !Undecided(w)
    ensures var r := Step(pol, w, c);
      && !Undecided(r) && (r.bw.Some? <==> w.bw.Some?)
      && r.rw.sent == w.rw.sent && r.rw.informational == w.rw.informational
  {
    if w.bw.Some? {
      if c.Write? { CompressKeeps(pol, w, Data(c.p)); }
      if c.Flush? { CompressKeeps(pol, w, Sync); }
    }
  }

  /** A Write below the threshold, a Flush of nothing, and any other call leave it undecided. */
  lemma UndecidedStays(pol: Policy, w: Writer, c: Call, written: Bytes, pending: int)
    requires pol.minSize >= 1 && Lawful(pol.codec) && Plain(c)
    requires Inv(pol, w, written, pending) && Undecided(w)
    requires c.Write? ==> |written + c.p| < pol.minSize
    requires c.Flush? ==> written == []
    ensures var r := Step(pol, w, c);
      && Undecided(r) && r.rw.header == (if c.SetHeader? then c.h else w.rw.header)
      && r.rw.informational ==
           w.rw.informational + (if c.WriteHeader? && 100 <= c.code <= 199 then [c.code] else [])
  {
    if c.Write? { WriteBuffers(pol, w, c.p); }
  }

  /** The call that decides. */
  lemma CallDecides(pol: Policy, w: Writer, c: Call, written: Bytes, pending: int, first: Bytes)
    requires pol.minSize >= 1 && Lawful(pol.codec)
    requires Inv(pol, w, written, pending) && Undecided(w)
    requires c.Write? || (c.Flush? && written != [])
    requires c.Write? ==> |written + c.p| >= pol.minSize && first == (written + c.p)[..pol.minSize]
    requires c.Flush? ==> first == written
    ensures var r, status := Step(pol, w, c), if pending == 0 then STATUS_OK else pending;
      && !Undecided(r) && r.rw.informational == w.rw.informational
      && (r.bw.Some? <==> ShouldCompress(pol, w.rw.header, status, first))
      && HeadersRight(pol, r.bw.Some?, r.rw.sent, w.rw.header, status, first)
  {
    var status := StatusCode(w);
    if c.Write? {
      var cut := pol.minSize - |w.buf|;
      assert w.buf + c.p[..cut] == first;
      WriteDecides(pol, w, c.p, cut);
      DecisionRight(pol, w.(code := status, buf := first), c.p[cut..], status);
    } else {
      DecisionRight(pol, w, [], status);
      FlushAfter(pol, w, written, pending);
    }
  }

  lemma FlushAfter(pol: Policy, w: Writer, written: Bytes, pending: int)
    requires pol.minSize >= 1 && Lawful(pol.codec)
    requires Inv(pol, w, written, pending) && Undecided(w) && written != []
    ensures var r, r1 := DoFlush(pol, w), DoStartCompression(pol, w, []).0;
      && !Undecided(r) && (r.bw.Some? <==> r1.bw.Some?)
      && r.rw.sent == r1.rw.sent && r.rw.informational == r1.rw.informational
  {
    var (r1, ok) := DoStartCompression(pol, w, []);
    assert w.buf + [] == written;
    DecisionKeeps(pol, w, [], written, pending);
    if ok && r1.bw.Some? { CompressKeeps(pol, r1, Sync); }
  }

  // ---- Whole runs --------------------------------------------------------

  /** The decision is taken exactly when the reference says; until then the live headers are the
      handler's, and the informational codes went out in their order. */
  lemma {:induction false} DecidedIff(pol: Policy, h: Header, calls: seq<Call>)
    requires pol.minSize >= 1 && Lawful(pol.codec) && AllPlain(calls)
    ensures var w := Run(pol, h, calls);
      && (Undecided(w) <==> !Decided(pol, calls))
      && (Undecided(w) ==> w.rw.header == HandlerHeader(h, calls))
      && w.rw.informational == Informational(pol, calls)
  {
    if |calls| > 0 {
      var before, c := calls[..|calls| - 1], calls[|calls| - 1];
      var w := Run(pol, h, before);
      DecidedIff(pol, h, before);
      RunInvariant(pol, h, before);
      StepDecides(pol, w, c, Written(before), Pending(before));
      assert !c.Write? ==> Written(before) + [] == Written(before);
    }
  }

  lemma StepDecides(pol: Policy, w: Writer, c: Call, written: Bytes, pending: int)
    requires pol.minSize >= 1 && Lawful(pol.codec) && Plain(c) && Inv(pol, w, written, pending)
    ensures var r := Step(pol, w, c);
      && (Undecided(r) <==>
            (Undecided(w) && !(c.Write? && |written + c.p| >= pol.minSize) && !(c.Flush? && written != [])))
      && (Undecided(r) ==> r.rw.header == if c.SetHeader? then c.h else w.rw.header)
      && r.rw.informational ==
           w.rw.informational + (if c.WriteHeader? && 100 <= c.code <= 199 && Undecided(w) then [c.code] else [])
  {
    if !Undecided(w) {
      DecidedStays(pol, w, c, written, pending);
    } else if c.Write? && |written + c.p| >= pol.minSize {
      CallDecides(pol, w, c, written, pending, (written + c.p)[..pol.minSize]);
    } else if c.Flush? && written != [] {
      CallDecides(pol, w, c, written, pending, written);
    } else {
      UndecidedStays(pol, w, c, written, pending);
    }
  }

  /** `n` is the position of the call that decides. */
  predicate DecidesAt(pol: Policy, calls: seq<Call>, n: nat) {
    n < |calls| && !Decided(pol, calls[..n]) && Decided(pol, calls[..n + 1])
  }

  /** What a client can see of a decision on the handler's header map `g`. */
  ghost predicate Seen(pol: Policy, w: Writer, g: Header, status: int, first: Bytes) {
    && (w.bw.Some? <==> ShouldCompress(pol, g, status, first))
    && HeadersRight(pol, w.bw.Some?, w.rw.sent, g, status, first)
  }

  /** What a client can see of the decision taken by call `n`. */
  ghost predicate DecisionSeen(pol: Policy, h: Header, calls: seq<Call>, n: nat, w: Writer)
    requires n < |calls|
  {
    Seen(pol, w, HandlerHeader(h, calls[..n]), FinalStatus(calls[..n + 1]), FirstBytes(pol, calls[..n + 1]))
  }

  lemma FirstSeen(pol: Policy, h: Header, before: seq<Call>, c: Call, calls: seq<Call>)
    requires pol.minSize >= 1 && Lawful(pol.codec) && AllPlain(calls) && calls == before + [c]
    requires !Decided(pol, before) && Decided(pol, calls)
    ensures var w := Run(pol, h, calls);
      !Undecided(w) && Seen(pol, w, HandlerHeader(h, before), FinalStatus(calls), FirstBytes(pol, calls))
  {
    var w, written, first := Run(pol, h, before), Written(before), FirstBytes(pol, calls);
    assert calls[..|calls| - 1] == before;
    DecidedIff(pol, h, before);
    RunInvariant(pol, h, before);
    assert !c.Write? ==> written + [] == written;
    FirstOfWrite(pol, before, c, written, calls);
    CallDecides(pol, w, c, written, Pending(before), first);
  }

  lemma LaterSeen(pol: Policy, h: Header, before: seq<Call>, c: Call, g: Header, status: int, first: Bytes)
    requires pol.minSize >= 1 && Lawful(pol.codec) && AllPlain(before) && Plain(c)
    requires var w := Run(pol, h, before); !Undecided(w) && Seen(pol, w, g, status, first)
    ensures var w := Run(pol, h, before + [c]); !Undecided(w) && Seen(pol, w, g, status, first)
  {
    assert (before + [c])[..|before|] == before;
    RunInvariant(pol, h, before);
    DecidedStays(pol, Run(pol, h, before), c, Written(before), Pending(before));
  }

  lemma {:induction false} RunSeen(pol: Policy, h: Header, calls: seq<Call>, n: nat, m: nat)
    requires pol.minSize >= 1 && Lawful(pol.codec) && AllPlain(calls)
    requires DecidesAt(pol, calls, n) && n < m <= |calls|
    ensures !Undecided(Run(pol, h, calls[..m])) && DecisionSeen(pol, h, calls, n, Run(pol, h, calls[..m]))
    decreases m
  {
    assert calls[..m] == calls[..m - 1] + [calls[m - 1]];
    if m == n + 1 {
      FirstSeen(pol, h, calls[..n], calls[n], calls[..m]);
    } else {
      RunSeen(pol, h, calls, n, m - 1);
      LaterSeen(pol, h, calls[..m - 1], calls[m - 1],
        HandlerHeader(h, calls[..n]), FinalStatus(calls[..n + 1]), FirstBytes(pol, calls[..n + 1]));
    }
  }

  lemma FirstOfWrite(pol: Policy, before: seq<Call>, c: Call, written: Bytes, calls: seq<Call>)
    requires calls == before + [c] && written == Written(before) && |written| < pol.minSize
    ensures c.Write? ==> Written(calls) == written + c.p
    ensures c.Write? && |written + c.p| >= pol.minSize ==> FirstBytes(pol, calls) == (written + c.p)[..pol.minSize]
    ensures c.Flush? ==> FirstBytes(pol, calls) == written && FinalStatus(calls) == FinalStatus(before)
    ensures c.Write? ==> FinalStatus(calls) == FinalStatus(before)
  {
    assert calls[..|calls| - 1] == before;
    assert written + [] == written;
  }

  /** The headers of every finished response, for any calls.  If some call decided: the response is
      compressed exactly if a compressor is there, the status allows a body, the handler set
      neither a content encoding nor a content range, and the content type is allowed; then it is
      labelled br, and carries neither the length of the plain body nor an offer of ranges.  In
      both cases Vary is extended, a missing content type is sniffed, and every other header is the
      handler's at the decision.  If no call decided, all headers are the handler's. */
  lemma SentHeaders(pol: Policy, h: Header, calls: seq<Call>)
    requires pol.minSize >= 1 && Lawful(pol.codec) && AllPlain(calls)
    ensures var w := Closed(pol, h, calls);
      && (forall n: nat :: DecidesAt(pol, calls, n) ==> DecisionSeen(pol, h, calls, n, w))
      && (!Decided(pol, calls) ==> w.bw.None? && w.rw.sent == HandlerHeader(h, calls))
      && w.rw.informational == Informational(pol, calls)
  {
    var w := Run(pol, h, calls);
    DecidedIff(pol, h, calls);
    RunInvariant(pol, h, calls);
    CloseKeepsSent(pol, w, Written(calls), Pending(calls));
    assert calls[..|calls|] == calls;
    forall n: nat | DecidesAt(pol, calls, n) ensures DecisionSeen(pol, h, calls, n, Closed(pol, h, calls)) {
      RunSeen(pol, h, calls, n, |calls|);
    }
  }

  lemma CloseKeepsSent(pol: Policy, w: Writer, written: Bytes, pending: int)
    requires pol.minSize >= 1 && Lawful(pol.codec) && Inv(pol, w, written, pending)
    ensures var r := DoClose(pol, w).0;
      && (r.bw.Some? <==> w.bw.Some?) && r.rw.informational == w.rw.informational
      && r.rw.sent == if Undecided(w) then w.rw.header else w.rw.sent
  {
    if Undecided(w) {
      PlainDecision(w, [], StatusCode(w));
    } else if w.bw.Some? {
      CompressKeeps(pol, w, End);
    }
  }

  /** A decided run has one deciding call. */
  lemma {:induction false} DecidingCall(pol: Policy, calls: seq<Call>) returns (n: nat)
    requires Decided(pol, calls)
    ensures DecidesAt(pol, calls, n)
  {
    var m := |calls| - 1;
    if Decided(pol, calls[..m]) {
      n := DecidingCall(pol, calls[..m]);
      assert calls[..m][..n] == calls[..n] && calls[..m][..n + 1] == calls[..n + 1];
    } else {
      n := m;
      assert calls[..m + 1] == calls;
    }
  }
}
