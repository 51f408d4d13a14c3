/** Whole responses through the brotli writer: every sequence of handler calls, then Close. */
module BrotliRuns {
  import opened Options
  import opened HttpResponse
  import opened Brotli

  /** What a handler may do; `SetHeader` replaces the live header map. */
  datatype Call = WriteHeader(code: int) | Write(p: Bytes) | Flush | SetHeader(h: Header)

  /** Codes net/http accepts; 101 hands the connection over and is not an HTTP response. */
  predicate Plain(c: Call) {
    c.WriteHeader? ==> 100 <= c.code <= 999 && c.code != STATUS_SWITCHING_PROTOCOLS
  }

  ghost predicate AllPlain(calls: seq<Call>) {
    forall c :: c in calls ==> Plain(c)
  }

  function Step(pol: Policy, w: Writer, c: Call): Writer {
    match c
    case WriteHeader(code) => DoWriteHeader(w, code)
    case Write(p) => if |w.buf| <= pol.minSize then DoWrite(pol, w, p).0 else w
    case Flush => DoFlush(pol, w)
    case SetHeader(h) => w.(rw := w.rw.(header := h))
  }

  function Run(pol: Policy, h: Header, calls: seq<Call>): Writer {
    if |calls| == 0 then NewWriter(h)
    else Step(pol, Run(pol, h, calls[..|calls| - 1]), calls[|calls| - 1])
  }

  function Closed(pol: Policy, h: Header, calls: seq<Call>): Writer {
    DoClose(pol, Run(pol, h, calls)).0
  }

  /** The codec laws can be met: sending the payload as it is satisfies them. */
  lemma LawsAreSatisfiable()
    ensures Lawful(Codec(ops => Payload(ops), b => Some(b), b => b))
  {
    var c := Codec(ops => Payload(ops), b => Some(b), b => b);
    forall ops: seq<Op>, op: Op
      ensures Extends(c, ops, op)
      ensures !op.Data? ==> Payload(ops + [op]) == Payload(ops)
    {
      PayloadSnoc(ops, op);
      assert Payload(ops) + [] == Payload(ops);
    }
  }

  // ---- The reference -----------------------------------------------------

  /** The concatenation of all Write arguments. */
  function Written(calls: seq<Call>): Bytes {
    if |calls| == 0 then []
    else
      Written(calls[..|calls| - 1]) + (if calls[|calls| - 1].Write? then calls[|calls| - 1].p else [])
  }

  /** The first non-1xx code set before the first Write; a Write without one sets 200;
      0 while neither happened. */
  function Pending(calls: seq<Call>): int {
    if |calls| == 0 then 0
    else
      var before, c := Pending(calls[..|calls| - 1]), calls[|calls| - 1];
      if before != 0 then before
      else if c.WriteHeader? && !(100 <= c.code <= 199) then c.code
      else if c.Write? then STATUS_OK
      else 0
  }

  function FinalStatus(calls: seq<Call>): int {
    if Pending(calls) == 0 then STATUS_OK else Pending(calls)
  }

  /** Statuses such as 204 refuse every body byte. */
  function Deliverable(status: int, body: Bytes): Bytes {
    if BodyAllowedForStatus(status) then body else []
  }

  // ---- Invariants over all runs ------------------------------------------

  predicate Undecided(w: Writer) {
    w.bw.None? && !w.ignore
  }

  ghost predicate Inv(pol: Policy, w: Writer, written: Bytes, pending: int) {
    && !w.hijacked
    && w.code == pending
    && (pending == 0 ==> written == [] && Undecided(w))
    && (pending == 0 || 200 <= pending <= 999)
    && if Undecided(w) then
         // nothing final is committed, and the buffer is everything written so far
         && w.rw.status == 0 && w.rw.body == []
         && w.buf == written && |w.buf| < pol.minSize
       else
         // committed once, with exactly one of the two outlets
         && w.rw.status == pending && pending != 0
         && |w.buf| <= pol.minSize
         && (w.bw.Some? <==> !w.ignore)
         && (w.bw.Some? ==>
               && BodyAllowedForStatus(w.rw.status)
               && w.buf == []
               && End !in w.bw.value && Payload(w.bw.value) == written
               && w.rw.body == pol.codec.encode(w.bw.value)
               && Get(w.rw.sent, "Content-Encoding") == "br")
         && (w.ignore ==> w.rw.body == Deliverable(w.rw.status, written))
  }

  lemma PayloadSnoc(ops: seq<Op>, op: Op)
    ensures Payload(ops + [op]) == Payload(ops) + (if op.Data? then op.p else [])
  {
    assert (ops + [op])[..|ops|] == ops;
  }

  lemma CompressKeeps(pol: Policy, w: Writer, op: Op)
    requires Lawful(pol.codec)
    requires w.bw.Some? && w.rw.status != 0 && BodyAllowedForStatus(w.rw.status)
    requires w.rw.body == pol.codec.encode(w.bw.value)
    ensures var (r, ok) := Compress(pol, w, op);
      ok && r == w.(bw := Some(w.bw.value + [op]), rw := w.rw.(body := pol.codec.encode(w.bw.value + [op])))
    ensures Payload(w.bw.value + [op]) == Payload(w.bw.value) + (if op.Data? then op.p else [])
  {
    assert Extends(pol.codec, w.bw.value, op);
    PayloadSnoc(w.bw.value, op);
  }

  /** Leaving the undecided state by the plain outlet. */
  lemma PlainDecision(w: Writer, remain: Bytes, status: int)
    requires Undecided(w) && w.rw.status == 0 && w.rw.body == [] && status == StatusCode(w)
    requires 200 <= status <= 999
    ensures var r := DoStartPlain(w, remain).0;
      && r == w.(ignore := true, buf := r.buf, rw := r.rw)
      && r.rw == w.rw.(status := status, sent := w.rw.header, body := Deliverable(status, w.buf + remain))
      && |r.buf| <= |w.buf|
  {
  }

  /** Leaving it by the compressor. */
  lemma CompressedDecision(pol: Policy, w: Writer, remain: Bytes, status: int)
    requires Lawful(pol.codec) && Undecided(w) && w.rw.status == 0 && w.rw.body == []
    requires status == StatusCode(w) && 200 <= status <= 999
    requires Compressible(pol, w.rw.header, status, w.buf)
    ensures var r := DoStartCompression(pol, w, remain).0;
      var h := CompressedHeader(Described(pol, w.rw.header, status, w.buf).0);
      && r.bw.Some? && End !in r.bw.value && Payload(r.bw.value) == w.buf + remain
      && r == w.(buf := [], bw := r.bw,
           rw := w.rw.(header := h, status := status, sent := h, body := pol.codec.encode(r.bw.value)))
  {
    var h := CompressedHeader(Described(pol, w.rw.header, status, w.buf).0);
    var w1 := w.(bw := Some([]), rw := SendHeader(w.rw.(header := h), status));
    if |w.buf| > 0 { CompressKeeps(pol, w1, Data(w.buf)); }
    var w2 := (if |w.buf| > 0 then Compress(pol, w1, Data(w.buf)).0 else w1).(buf := []);
    if |remain| > 0 { CompressKeeps(pol, w2, Data(remain)); }
  }

  /** The decision keeps the invariant, whichever outlet it takes. */
  lemma DecisionKeeps(pol: Policy, w: Writer, remain: Bytes, written: Bytes, pending: int)
    requires Lawful(pol.codec) && !w.hijacked && Undecided(w) && w.rw.status == 0 && w.rw.body == []
    requires w.code == pending && 200 <= pending <= 999 && |w.buf| <= pol.minSize
    requires w.buf + remain == written
    ensures Inv(pol, DoStartCompression(pol, w, remain).0, written, pending)
    ensures !Undecided(DoStartCompression(pol, w, remain).0)
  {
    if Compressible(pol, w.rw.header, pending, w.buf) {
      CompressedDecisionKeeps(pol, w, remain, pending);
    } else {
      PlainDecisionKeeps(pol, w, remain, pending);
    }
  }

  lemma CompressedDecisionKeeps(pol: Policy, w: Writer, remain: Bytes, pending: int)
    requires Lawful(pol.codec) && !w.hijacked && Undecided(w) && w.rw.status == 0 && w.rw.body == []
    requires w.code == pending && 200 <= pending <= 999
    requires Compressible(pol, w.rw.header, pending, w.buf)
    ensures Inv(pol, DoStartCompression(pol, w, remain).0, w.buf + remain, pending)
    ensures !Undecided(DoStartCompression(pol, w, remain).0)
  {
    CompressedDecision(pol, w, remain, pending);
    SaysBrotli(Described(pol, w.rw.header, pending, w.buf).0);
  }

  lemma SaysBrotli(h: Header)
    ensures Get(CompressedHeader(h), "Content-Encoding") == "br"
  {
    assert |"Content-Encoding"| == 16 && |"Content-Length"| == 14 && |"Accept-Ranges"| == 13;
  }

  lemma PlainDecisionKeeps(pol: Policy, w: Writer, remain: Bytes, pending: int)
    requires !w.hijacked && Undecided(w) && w.rw.status == 0 && w.rw.body == []
    requires w.code == pending && 200 <= pending <= 999 && |w.buf| <= pol.minSize
    requires !Compressible(pol, w.rw.header, pending, w.buf)
    ensures Inv(pol, DoStartCompression(pol, w, remain).0, w.buf + remain, pending)
    ensures !Undecided(DoStartCompression(pol, w, remain).0)
  {
    var h := Described(pol, w.rw.header, pending, w.buf).0;
    assert DoStartCompression(pol, w, remain) == DoStartPlain(w.(rw := w.rw.(header := h)), remain);
    PlainDecision(w.(rw := w.rw.(header := h)), remain, pending);
  }

  lemma StepKeeps(pol: Policy, w: Writer, c: Call, written: Bytes, pending: int)
    requires pol.minSize >= 1 && Lawful(pol.codec) && Plain(c)
    requires Inv(pol, w, written, pending)
    ensures var pending' :=
        if pending != 0 then pending
        else if c.WriteHeader? && !(100 <= c.code <= 199) then c.code
        else if c.Write? then STATUS_OK else 0;
      Inv(pol, Step(pol, w, c), written + (if c.Write? then c.p else []), pending')
  {
    match c
    case WriteHeader(code) =>
      assert written + [] == written;
    case SetHeader(h) =>
      assert written + [] == written;
    case Write(p) => WriteKeeps(pol, w, p, written, pending);
    case Flush =>
      assert written + [] == written;
      FlushKeeps(pol, w, written, pending);
  }

  lemma WriteKeeps(pol: Policy, w: Writer, p: Bytes, written: Bytes, pending: int)
    requires pol.minSize >= 1 && Lawful(pol.codec)
    requires Inv(pol, w, written, pending)
    ensures Inv(pol, DoWrite(pol, w, p).0, written + p, if pending == 0 then STATUS_OK else pending)
  {
    if w.bw.Some? {
      CompressedWrite(pol, w, p, written, pending);
    } else if w.ignore {
      PlainWrite(pol, w, p, written, pending);
    } else {
      BufferedWrite(pol, w, p, written, pending);
    }
  }

  lemma CompressedWrite(pol: Policy, w: Writer, p: Bytes, written: Bytes, pending: int)
    requires Lawful(pol.codec) && Inv(pol, w, written, pending) && w.bw.Some?
    ensures pending != 0 && Inv(pol, DoWrite(pol, w, p).0, written + p, pending)
  {
    CompressKeeps(pol, w, Data(p));
    NoEnd(w.bw.value, Data(p));
  }

  lemma NoEnd(ops: seq<Op>, op: Op)
    requires End !in ops && !op.End?
    ensures End !in ops + [op]
  {
  }

  lemma PlainWrite(pol: Policy, w: Writer, p: Bytes, written: Bytes, pending: int)
    requires Inv(pol, w, written, pending) && w.bw.None? && w.ignore
    ensures pending != 0 && Inv(pol, DoWrite(pol, w, p).0, written + p, pending)
  {
  }

  lemma BufferedWrite(pol: Policy, w: Writer, p: Bytes, written: Bytes, pending: int)
    requires pol.minSize >= 1 && Lawful(pol.codec)
    requires Inv(pol, w, written, pending) && Undecided(w)
    ensures Inv(pol, DoWrite(pol, w, p).0, written + p, if pending == 0 then STATUS_OK else pending)
  {
    if |w.buf| + |p| < pol.minSize {
      WriteBuffers(pol, w, p);
    } else {
      var cut := pol.minSize - |w.buf|;
      WriteDecides(pol, w, p, cut);
      Regrouped(w.buf, p, cut);
      DecisionKeeps(pol, w.(code := StatusCode(w), buf := w.buf + p[..cut]), p[cut..], written + p, StatusCode(w));
    }
  }

  lemma WriteBuffers(pol: Policy, w: Writer, p: Bytes)
    requires Undecided(w) && |w.buf| + |p| < pol.minSize
    ensures DoWrite(pol, w, p) == (w.(code := StatusCode(w), buf := w.buf + p), true)
  {
    assert p[..|p|] == p;
  }

  lemma WriteDecides(pol: Policy, w: Writer, p: Bytes, cut: nat)
    requires Undecided(w) && |w.buf| + cut == pol.minSize && cut <= |p|
    ensures DoWrite(pol, w, p)
      == DoStartCompression(pol, w.(code := StatusCode(w), buf := w.buf + p[..cut]), p[cut..])
  {
  }

  lemma Regrouped(buf: Bytes, p: Bytes, n: nat)
    requires n <= |p|
    ensures buf + p[..n] + p[n..] == buf + p
  {
    assert p == p[..n] + p[n..];
  }

  lemma FlushKeeps(pol: Policy, w: Writer, written: Bytes, pending: int)
    requires pol.minSize >= 1 && Lawful(pol.codec)
    requires Inv(pol, w, written, pending)
    ensures Inv(pol, DoFlush(pol, w), written, pending)
    ensures var r := DoFlush(pol, w);
      && (written != [] ==> !Undecided(r))
      && (written != [] && BodyAllowedForStatus(pending) ==>
            && (if r.bw.Some? then pol.codec.peek(r.rw.body) else r.rw.body) == written
            && r.rw.flushed == |r.rw.body|)
  {
    if !(Undecided(w) && |w.buf| == 0) {
      var (w1, ok) := if Undecided(w) then DoStartCompression(pol, w, []) else (w, true);
      if Undecided(w) {
        assert w.buf + [] == written;
        DecisionKeeps(pol, w, [], written, pending);
        DecisionSucceeds(pol, w, pending);
      }
      if w1.bw.Some? {
        CompressKeeps(pol, w1, Sync);
        assert written + [] == written;
      }
    }
  }

  /** Starting fails only for a status that refuses the buffered bytes. */
  lemma DecisionSucceeds(pol: Policy, w: Writer, pending: int)
    requires Lawful(pol.codec) && Undecided(w) && w.rw.status == 0 && w.rw.body == []
    requires w.code == pending && 200 <= pending <= 999 && |w.buf| > 0
    ensures DoStartCompression(pol, w, []).1 <==> BodyAllowedForStatus(pending)
  {
    if Compressible(pol, w.rw.header, pending, w.buf) {
      var h := CompressedHeader(Described(pol, w.rw.header, pending, w.buf).0);
      CompressKeeps(pol, w.(bw := Some([]), rw := SendHeader(w.rw.(header := h), pending)), Data(w.buf));
    }
  }

  /** Every reachable state: undecided with everything buffered below the threshold, or
      committed once, with the right status and exactly one outlet. */
  lemma {:induction false} RunInvariant(pol: Policy, h: Header, calls: seq<Call>)
    requires pol.minSize >= 1 && Lawful(pol.codec) && AllPlain(calls)
    ensures Inv(pol, Run(pol, h, calls), Written(calls), Pending(calls))
  {
    if |calls| > 0 {
      var n := |calls| - 1;
      RunInvariant(pol, h, calls[..n]);
      StepKeeps(pol, Run(pol, h, calls[..n]), calls[n], Written(calls[..n]), Pending(calls[..n]));
    }
  }

  // ---- Transparency ------------------------------------------------------

  /** What the client reads back: the decoded stream if this writer compressed, else the
      body as sent. */
  function ReadBack(pol: Policy, w: Writer): Option<Bytes> {
    if w.bw.Some? then pol.codec.decode(w.rw.body) else Some(w.rw.body)
  }

  lemma CloseDelivers(pol: Policy, w: Writer, written: Bytes, pending: int)
    requires pol.minSize >= 1 && Lawful(pol.codec)
    requires Inv(pol, w, written, pending)
    ensures var r, status := DoClose(pol, w).0, if pending == 0 then STATUS_OK else pending;
      && r.rw.status == status
      && ReadBack(pol, r) == Some(Deliverable(status, written))
      && (r.bw.Some? <==> !r.ignore)
      && (r.bw.Some? ==> Get(r.rw.sent, "Content-Encoding") == "br")
  {
    if Undecided(w) {
      PlainDecision(w, [], StatusCode(w));
      assert w.buf + [] == written;
    } else if w.bw.Some? {
      CompressKeeps(pol, w, End);
      assert written + [] == written;
    }
  }

  /** Transparency, exact: after any calls and Close the client sees the first final status
      set before the first Write (200 by default), the stream is labelled br whenever this
      writer compressed it, and the body read back is everything written if and only if the
      status allows a body or nothing was written. */
  lemma Transparency(pol: Policy, h: Header, calls: seq<Call>)
    requires pol.minSize >= 1 && Lawful(pol.codec) && AllPlain(calls)
    ensures var w := Closed(pol, h, calls);
      && w.rw.status == FinalStatus(calls)
      && (w.bw.Some? ==> Get(w.rw.sent, "Content-Encoding") == "br")
      && (ReadBack(pol, w) == Some(Written(calls))
          <==> BodyAllowedForStatus(FinalStatus(calls)) || Written(calls) == [])
  {
    RunInvariant(pol, h, calls);
    CloseDelivers(pol, Run(pol, h, calls), Written(calls), Pending(calls));
  }

  /** A handler that answers 204 and writes all the same: the client reads nothing. */
  lemma NoContentDropsTheBody(pol: Policy, h: Header, p: Bytes)
    requires pol.minSize >= 1 && Lawful(pol.codec) && p != []
    ensures ReadBack(pol, Closed(pol, h, [WriteHeader(204)] + [Write(p)])) == Some([])
  {
    var first, calls := [WriteHeader(204)], [WriteHeader(204)] + [Write(p)];
    assert first[..0] == [] && calls[..1] == first;
    assert Written(first) == [] && Pending(first) == 204;
    assert Written(calls) == p by { assert [] + p == p; }
    RunInvariant(pol, h, calls);
    CloseDelivers(pol, Run(pol, h, calls), p, 204);
  }

  /** A Flush with anything written pushes out bytes from which the client reads all of it. */
  lemma FlushDelivers(pol: Policy, h: Header, calls: seq<Call>)
    requires pol.minSize >= 1 && Lawful(pol.codec) && AllPlain(calls)
    requires Written(calls) != [] && BodyAllowedForStatus(Pending(calls))
    ensures var w := Run(pol, h, calls + [Flush]);
      && (if w.bw.Some? then pol.codec.peek(w.rw.body) else w.rw.body) == Written(calls)
      && w.rw.flushed == |w.rw.body|
  {
    assert (calls + [Flush])[..|calls|] == calls;
    RunInvariant(pol, h, calls);
    FlushKeeps(pol, Run(pol, h, calls), Written(calls), Pending(calls));
  }

  /** `Close` never reaches its own compression branch: an undecided writer is always below
      the threshold. */
  lemma CloseNeverCompresses(pol: Policy, h: Header, calls: seq<Call>)
    requires pol.minSize >= 1 && Lawful(pol.codec) && AllPlain(calls)
    ensures var w := Run(pol, h, calls);
      Undecided(w) ==> |w.buf| < pol.minSize && DoClose(pol, w) == DoStartPlain(w, [])
  {
    RunInvariant(pol, h, calls);
  }

  // ---- Chunking independence ---------------------------------------------

  /** The calls of a handler that neither flushes nor touches the headers midway. */
  predicate Unflushed(calls: seq<Call>) {
    forall c :: c in calls ==> c.WriteHeader? || c.Write?
  }

  /** The parts of a finished response that a client can tell apart. */
  datatype Delivery = Delivery(compressed: bool, status: int, sent: Header, body: Option<Bytes>)

  function DeliveryOf(pol: Policy, w: Writer): Delivery {
    Delivery(w.bw.Some?, w.rw.status, w.rw.sent, ReadBack(pol, w))
  }

  /** The response as a function of headers, body and status alone.  A body below the
      threshold goes out as it is; otherwise the decision looks at its first `minSize` bytes. */
  function Expected(pol: Policy, h: Header, body: Bytes, status: int): Delivery {
    if |body| < pol.minSize then Delivery(false, status, h, Some(Deliverable(status, body)))
    else
      var first := body[..pol.minSize];
      var described := Described(pol, h, status, first).0;
      if Compressible(pol, h, status, first)
      then Delivery(true, status, CompressedHeader(described), Some(body))
      else Delivery(false, status, described, Some(Deliverable(status, body)))
  }

  /** The state of an unflushed run, decided or not, in terms of what was written. */
  ghost predicate Foreseen(pol: Policy, w: Writer, h: Header, written: Bytes) {
    if Undecided(w) then |written| < pol.minSize && w.rw.header == h
    else
      && |written| >= pol.minSize && w.rw.status != 0
      && var e := Expected(pol, h, written, w.rw.status);
         w.bw.Some? == e.compressed && w.rw.sent == e.sent
  }

  lemma {:induction false} RunForeseen(pol: Policy, h: Header, calls: seq<Call>)
    requires pol.minSize >= 1 && Lawful(pol.codec) && AllPlain(calls) && Unflushed(calls)
    ensures Foreseen(pol, Run(pol, h, calls), h, Written(calls))
  {
    if |calls| > 0 {
      var n := |calls| - 1;
      var w, written := Run(pol, h, calls[..n]), Written(calls[..n]);
      RunForeseen(pol, h, calls[..n]);
      RunInvariant(pol, h, calls[..n]);
      assert calls[n] in calls;
      if calls[n].Write? {
        WriteForeseen(pol, w, h, calls[n].p, written, Pending(calls[..n]));
      } else {
        assert written + [] == written;
      }
    }
  }

  lemma WriteForeseen(pol: Policy, w: Writer, h: Header, p: Bytes, written: Bytes, pending: int)
    requires pol.minSize >= 1 && Lawful(pol.codec)
    requires Inv(pol, w, written, pending) && Foreseen(pol, w, h, written)
    ensures Foreseen(pol, DoWrite(pol, w, p).0, h, written + p)
  {
    if Undecided(w) {
      var w1 := if w.code == 0 then w.(code := STATUS_OK) else w;
      var toAdd := if |w.buf| + |p| > pol.minSize then pol.minSize - |w.buf| else |p|;
      var w2 := w1.(buf := w.buf + p[..toAdd]);
      if |w2.buf| == pol.minSize {
        assert (written + p)[..pol.minSize] == w2.buf;
        if Compressible(pol, h, w2.code, w2.buf) {
          CompressedDecision(pol, w2, p[toAdd..], w2.code);
        } else {
          PlainDecision(w2.(rw := w2.rw.(header := Described(pol, h, w2.code, w2.buf).0)), p[toAdd..], w2.code);
        }
      }
    } else {
      assert (written + p)[..pol.minSize] == written[..pol.minSize];
      if w.bw.Some? { CompressKeeps(pol, w, Data(p)); }
    }
  }

  /** Every unflushed response is the one its headers, body and status determine. */
  lemma UnflushedDelivery(pol: Policy, h: Header, calls: seq<Call>)
    requires pol.minSize >= 1 && Lawful(pol.codec) && AllPlain(calls) && Unflushed(calls)
    ensures DeliveryOf(pol, Closed(pol, h, calls)) == Expected(pol, h, Written(calls), FinalStatus(calls))
  {
    var w := Run(pol, h, calls);
    RunForeseen(pol, h, calls);
    RunInvariant(pol, h, calls);
    CloseDelivers(pol, w, Written(calls), Pending(calls));
    if Undecided(w) {
      PlainDecision(w, [], StatusCode(w));
    } else if w.bw.Some? {
      CompressKeeps(pol, w, End);
    }
  }

  /** Chunking independence: however the same bytes are split into writes, the decision, the
      headers, the status and the decoded body are the same. */
  lemma ChunkingIndependence(pol: Policy, h: Header, calls: seq<Call>, calls': seq<Call>)
    requires pol.minSize >= 1 && Lawful(pol.codec)
    requires AllPlain(calls) && Unflushed(calls) && AllPlain(calls') && Unflushed(calls')
    requires Written(calls) == Written(calls') && FinalStatus(calls) == FinalStatus(calls')
    ensures DeliveryOf(pol, Closed(pol, h, calls)) == DeliveryOf(pol, Closed(pol, h, calls'))
  {
    UnflushedDelivery(pol, h, calls);
    UnflushedDelivery(pol, h, calls');
  }
}
