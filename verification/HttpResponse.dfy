/** The server side of an HTTP response, as net/http's ResponseWriter behaves. */
module HttpResponse {

  type Bytes = seq<bv8>
  type Header = map<string, seq<string>>

  function Get(h: Header, k: string): string {
    if k in h && |h[k]| > 0 then h[k][0] else ""
  }

  function Add(h: Header, k: string, v: string): Header {
    h[k := (if k in h then h[k] else []) + [v]]
  }

  const STATUS_OK := 200
  const STATUS_SWITCHING_PROTOCOLS := 101
  const STATUS_NO_CONTENT := 204
  const STATUS_NOT_MODIFIED := 304

  function BodyAllowedForStatus(status: int): bool {
    if 100 <= status <= 199 then false
    else if status == STATUS_NO_CONTENT then false
    else if status == STATUS_NOT_MODIFIED then false
    else true
  }

  /** `header` is the live map that handlers mutate; `sent` is the copy taken when the status
      was committed; `status` 0 means nothing final was committed yet; `flushed` is how much of
      the body was pushed out to the client. */
  datatype Response = Response(
    header: Header, informational: seq<int>, status: int, sent: Header, body: Bytes, flushed: nat)

  function NewResponse(h: Header): Response {
    Response(h, [], 0, map[], [], 0)
  }

  /** 1xx codes other than 101 are sent at once; the first other code commits; later ones
      are ignored. */
  function SendHeader(r: Response, code: int): Response {
    if r.status != 0 then r
    else if 100 <= code <= 199 && code != STATUS_SWITCHING_PROTOCOLS then
      r.(informational := r.informational + [code])
    else r.(status := code, sent := r.header)
  }

  /** The first write commits 200; a body is refused for statuses that allow none. */
  function SendBody(r: Response, p: Bytes): (Response, bool) {
    var r' := if r.status == 0 then SendHeader(r, STATUS_OK) else r;
    if |p| == 0 then (r', true)
    else if !BodyAllowedForStatus(r'.status) then (r', false)
    else (r'.(body := r'.body + p), true)
  }

  function SendFlush(r: Response): Response {
    var r' := if r.status == 0 then SendHeader(r, STATUS_OK) else r;
    r'.(flushed := |r'.body|)
  }

  class ResponseWriter {
    var header: Header
    var informational: seq<int>
    var status: int
    var sent: Header
    var body: Bytes
    var flushed: nat

    constructor (h: Header)
      ensures View() == NewResponse(h)
    {
      header, informational, status, sent, body, flushed := h, [], 0, map[], [], 0;
    }

    function View(): Response
      reads this
    {
      Response(header, informational, status, sent, body, flushed)
    }

    method WriteHeader(code: int)
      modifies this
      ensures View() == SendHeader(old(View()), code)
    {
      if status != 0 { return; }
      if 100 <= code && code <= 199 && code != STATUS_SWITCHING_PROTOCOLS {
        informational := informational + [code];
        return;
      }
      status, sent := code, header;
    }

    method Write(p: Bytes) returns (ok: bool)
      modifies this
      ensures (View(), ok) == SendBody(old(View()), p)
    {
      if status == 0 { WriteHeader(STATUS_OK); }
      if |p| == 0 { return true; }
      if !BodyAllowedForStatus(status) { return false; }
      body := body + p;
      ok := true;
    }

    method Flush()
      modifies this
      ensures View() == SendFlush(old(View()))
    {
      if status == 0 { WriteHeader(STATUS_OK); }
      flushed := |body|;
    }
  }
}
