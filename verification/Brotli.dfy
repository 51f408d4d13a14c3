/** The buffering brotli response writer: its state machine and the methods that run it. */
module Brotli {
  import opened Options
  import opened HttpResponse

  // ---- The compressor ----------------------------------------------------

  datatype Op = Data(p: Bytes) | Sync | End

  function Payload(ops: seq<Op>): Bytes {
    if |ops| == 0 then []
    else Payload(ops[..|ops| - 1]) + (if ops[|ops| - 1].Data? then ops[|ops| - 1].p else [])
  }

  /** A streaming compressor: the bytes emitted after a list of operations, the full decoder
      and the decoder of a stream that is still open. */
  datatype Codec = Codec(encode: seq<Op> -> Bytes, decode: Bytes -> Option<Bytes>, peek: Bytes -> Bytes)

  ghost predicate Lawful(c: Codec) {
    && c.encode([]) == []
    && (forall ops, op :: Extends(c, ops, op))
    && (forall ops :: End !in ops ==> c.decode(c.encode(ops + [End])) == Some(Payload(ops)))
    && (forall ops :: End !in ops ==> c.peek(c.encode(ops + [Sync])) == Payload(ops))
  }

  /** Output already emitted is never revised. */
  ghost predicate Extends(c: Codec, ops: seq<Op>, op: Op) {
    c.encode(ops) <= c.encode(ops + [op])
  }

  function Emitted(c: Codec, ops: seq<Op>, op: Op): Bytes {
    var before, after := c.encode(ops), c.encode(ops + [op]);
    if |before| <= |after| then after[|before|..] else []
  }

  class Compressor {
    const codec: Codec
    const dst: ResponseWriter
    var ops: seq<Op>

    constructor (dst: ResponseWriter, codec: Codec)
      ensures this.dst == dst && this.codec == codec && ops == []
    {
      this.dst, this.codec, ops := dst, codec, [];
    }

    method Apply(op: Op) returns (ok: bool)
      modifies this, dst
      ensures ops == old(ops) + [op]
      ensures (dst.View(), ok) == SendBody(old(dst.View()), Emitted(codec, old(ops), op))
    {
      ok := dst.Write(Emitted(codec, ops, op));
      ops := ops + [op];
    }
  }

  // ---- The writer's state machine ----------------------------------------

  /** What the writer is configured with: its size threshold, the compressor, content-type
      detection and filter, and whether a compressor can be created. */
  datatype Policy = Policy(
    minSize: nat, codec: Codec, sniff: Bytes -> string, typeAllowed: string -> bool, canCompress: bool)

  datatype Writer = Writer(
    rw: Response, bw: Option<seq<Op>>, code: int, buf: Bytes, ignore: bool, hijacked: bool)

  function NewWriter(h: Header): Writer {
    Writer(NewResponse(h), None, 0, [], false, false)
  }

  function StatusCode(w: Writer): int {
    if w.code == 0 then STATUS_OK else w.code
  }

  function DoWriteHeader(w: Writer, code: int): Writer {
    if 100 <= code <= 199 then w.(rw := SendHeader(w.rw, code))
    else if w.code == 0 then w.(code := code)
    else w
  }

  function Compress(pol: Policy, w: Writer, op: Op): (Writer, bool)
    requires w.bw.Some?
  {
    var (rw, ok) := SendBody(w.rw, Emitted(pol.codec, w.bw.value, op));
    (w.(rw := rw, bw := Some(w.bw.value + [op])), ok)
  }

  function DoStartPlain(w: Writer, remain: Bytes): (Writer, bool) {
    var w1 := w.(rw := SendHeader(w.rw, StatusCode(w)), ignore := true);
    var (rw2, ok2) := if |w1.buf| > 0 then SendBody(w1.rw, w1.buf) else (w1.rw, true);
    if !ok2 then (w1.(rw := rw2), false)
    else
      var w2 := w1.(rw := rw2, buf := []);
      var (rw3, ok3) := if |remain| > 0 then SendBody(w2.rw, remain) else (w2.rw, true);
      (w2.(rw := rw3), ok3)
  }

  /** The header map and the content type that the compression decision looks at. */
  function Described(pol: Policy, h: Header, code: int, buf: Bytes): (Header, string) {
    var h1 := Add(h, "Vary", "Accept-Encoding");
    if "Content-Type" !in h1 && BodyAllowedForStatus(code) && |buf| > 0 then
      (h1["Content-Type" := [pol.sniff(buf)]], pol.sniff(buf))
    else (h1, Get(h1, "Content-Type"))
  }

  predicate Compressible(pol: Policy, h: Header, code: int, buf: Bytes) {
    && Get(h, "Content-Encoding") == ""
    && Get(h, "Content-Range") == ""
    && BodyAllowedForStatus(code)
    && pol.typeAllowed(Described(pol, h, code, buf).1)
    && pol.canCompress
  }

  function CompressedHeader(h: Header): Header {
    h["Content-Encoding" := ["br"]] - {"Content-Length", "Accept-Ranges"}
  }

  /** The buffered bytes and then `remain`, through the compressor. */
  function DoDrain(pol: Policy, w: Writer, remain: Bytes): (Writer, bool)
    requires w.bw.Some?
  {
    var (w1, ok1) := if |w.buf| > 0 then Compress(pol, w, Data(w.buf)) else (w, true);
    if !ok1 then (w1, false)
    else
      var w2 := w1.(buf := []);
      if |remain| > 0 then Compress(pol, w2, Data(remain)) else (w2, true)
  }

  function DoStartCompression(pol: Policy, w: Writer, remain: Bytes): (Writer, bool) {
    var (h, _) := Described(pol, w.rw.header, StatusCode(w), w.buf);
    if !Compressible(pol, w.rw.header, StatusCode(w), w.buf) then
      DoStartPlain(w.(rw := w.rw.(header := h)), remain)
    else
      DoDrain(pol, w.(bw := Some([]), rw := SendHeader(w.rw.(header := CompressedHeader(h)), StatusCode(w))), remain)
  }

  function DoWrite(pol: Policy, w: Writer, p: Bytes): (Writer, bool)
    requires |w.buf| <= pol.minSize
  {
    if w.bw.Some? then Compress(pol, w, Data(p))
    else if w.ignore then
      var (rw, ok) := SendBody(w.rw, p);
      (w.(rw := rw), ok)
    else
      var w1 := if w.code == 0 then w.(code := STATUS_OK) else w;
      var toAdd := if |w.buf| + |p| > pol.minSize then pol.minSize - |w.buf| else |p|;
      var w2 := w1.(buf := w.buf + p[..toAdd]);
      if |w2.buf| < pol.minSize then (w2, true) else DoStartCompression(pol, w2, p[toAdd..])
  }

  function DoFlush(pol: Policy, w: Writer): Writer {
    if w.hijacked then w
    else if w.bw.None? && !w.ignore && |w.buf| == 0 then w
    else
      var (w1, ok) := if w.bw.None? && !w.ignore then DoStartCompression(pol, w, []) else (w, true);
      if !ok then w1
      else
        var w2 := if w1.bw.Some? then Compress(pol, w1, Sync).0 else w1;
        w2.(rw := SendFlush(w2.rw))
  }

  function DoClose(pol: Policy, w: Writer): (Writer, bool) {
    if w.hijacked || w.ignore then (w, true)
    else if w.bw.None? then
      if |w.buf| < pol.minSize then DoStartPlain(w, []) else DoStartCompression(pol, w, [])
    else Compress(pol, w, End)
  }

  // ---- The methods -------------------------------------------------------

  class BrotliResponseWriter {
    const policy: Policy
    const rw: ResponseWriter
    var bw: Compressor?
    var code: int
    var buf: Bytes
    var ignore: bool
    var hijacked: bool

    constructor (rw: ResponseWriter, policy: Policy)
      ensures this.rw == rw && this.policy == policy && bw == null && Valid()
      ensures View() == Writer(rw.View(), None, 0, [], false, false)
    {
      this.rw, this.policy := rw, policy;
      bw, code, buf, ignore, hijacked := null, 0, [], false, false;
    }

    ghost predicate Valid()
      reads this
    {
      && (bw != null ==> bw.dst == rw && bw.codec == policy.codec)
      && |buf| <= policy.minSize
    }

    ghost function Footprint(): set<object>
      reads this
    {
      {this, rw} + (if bw == null then {} else {bw})
    }

    ghost function View(): Writer
      reads this, rw, bw
    {
      Writer(rw.View(), if bw == null then None else Some(bw.ops), code, buf, ignore, hijacked)
    }

    method WriteHeader(c: int)
      requires Valid()
      modifies this`code, rw
      ensures Valid() && View() == DoWriteHeader(old(View()), c)
    {
      if c >= 100 && c <= 199 {
        rw.WriteHeader(c);
        return;
      }
      if code == 0 {
        code := c;
      }
    }

    method Write(p: Bytes) returns (ok: bool)
      requires Valid()
      modifies Footprint()
      ensures Valid() && fresh(Footprint() - old(Footprint()))
      ensures (View(), ok) == DoWrite(policy, old(View()), p)
    {
      if bw != null {
        ok := bw.Apply(Data(p));
        return;
      }
      if ignore {
        ok := rw.Write(p);
        return;
      }
      if code == 0 {
        code := STATUS_OK;
      }
      var toAdd := |p|;
      if |buf| + toAdd > policy.minSize {
        toAdd := policy.minSize - |buf|;
      }
      buf := buf + p[..toAdd];
      var remain := p[toAdd..];
      if |buf| < policy.minSize {
        return true;
      }
      ok := StartCompression(remain);
    }

    method StartCompression(remain: Bytes) returns (ok: bool)
      requires Valid() && bw == null
      modifies this, rw
      ensures Valid() && fresh(Footprint() - old(Footprint()))
      ensures (View(), ok) == DoStartCompression(policy, old(View()), remain)
    {
      var status := if code == 0 then STATUS_OK else code;
      var alreadyEncoded := Get(rw.header, "Content-Encoding") != "";
      var isRanged := Get(rw.header, "Content-Range") != "";
      var ct := Describe(status);
      if alreadyEncoded || isRanged || !BodyAllowedForStatus(status) || !policy.typeAllowed(ct) || !policy.canCompress {
        ok := StartPlain(remain);
        return;
      }
      bw := new Compressor(rw, policy.codec);
      rw.header := CompressedHeader(rw.header);
      rw.WriteHeader(status);
      ok := Drain(remain);
    }

    method Describe(status: int) returns (ct: string)
      modifies rw`header
      ensures (rw.header, ct) == Described(policy, old(rw.header), status, buf)
    {
      rw.header := Add(rw.header, "Vary", "Accept-Encoding");
      ct := Get(rw.header, "Content-Type");
      if "Content-Type" !in rw.header && BodyAllowedForStatus(status) && |buf| > 0 {
        ct := policy.sniff(buf);
        rw.header := rw.header["Content-Type" := [ct]];
      }
    }

    method Drain(remain: Bytes) returns (ok: bool)
      requires Valid() && bw != null
      modifies this`buf, rw, bw
      ensures Valid() && (View(), ok) == DoDrain(policy, old(View()), remain)
    {
      if |buf| > 0 {
        ok := bw.Apply(Data(buf));
        if !ok { return; }
        buf := [];
      }
      ok := true;
      if |remain| > 0 {
        ok := bw.Apply(Data(remain));
      }
    }

    method StartPlain(remain: Bytes) returns (ok: bool)
      requires Valid()
      modifies this`ignore, this`buf, rw
      ensures Valid() && (View(), ok) == DoStartPlain(old(View()), remain)
    {
      rw.WriteHeader(if code == 0 then STATUS_OK else code);
      ignore := true;
      if |buf| > 0 {
        ok := rw.Write(buf);
        if !ok { return; }
        buf := [];
      }
      ok := true;
      if |remain| > 0 {
        ok := rw.Write(remain);
      }
    }

    method Close() returns (ok: bool)
      requires Valid()
      modifies Footprint()
      ensures Valid() && fresh(Footprint() - old(Footprint()))
      ensures (View(), ok) == DoClose(policy, old(View()))
    {
      if hijacked || ignore {
        return true;
      }
      if bw == null {
        if |buf| < policy.minSize {
          ok := StartPlain([]);
          return;
        }
        ok := StartCompression([]);
        return;
      }
      ok := bw.Apply(End);
    }

    method Flush()
      requires Valid()
      modifies Footprint()
      ensures Valid() && fresh(Footprint() - old(Footprint()))
      ensures View() == DoFlush(policy, old(View()))
    {
      if hijacked { return; }
      if bw == null && !ignore {
        if |buf| == 0 { return; }
        var ok := StartCompression([]);
        if !ok { return; }
      }
      if bw != null {
        var _ := bw.Apply(Sync);
      }
      rw.Flush();
    }

    method Hijack(supported: bool) returns (ok: bool)
      requires Valid()
      modifies this`hijacked
      ensures Valid() && ok == supported
      ensures View() == old(View()).(hijacked := supported || old(hijacked))
    {
      if supported {
        hijacked := true;
        return true;
      }
      ok := false;
    }
  }
}
