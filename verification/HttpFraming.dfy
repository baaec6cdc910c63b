/**
 Deciding from the bytes received so far whether an HTTP request or response is complete
 (RFC 9112, section 6.3), and what its body is.

 Reading the header text, undoing the content coding and cleaning a body for reporting are
 functions of the bytes they are given; they are parameters here (`Headers`).
 */
module HttpFraming {
  import opened Base
  import opened ByteSearch
  import opened Chunked

  type Text = seq<byte>

  const HEAD_END: seq<byte> := [CR, LF, CR, LF]
  const DONE_MARK: seq<byte> := Ascii("[DONE]")
  const RESPONSE_START: seq<byte> := Ascii("HTTP/")

  function Methods(): seq<seq<byte>> {
    [Ascii("GET "), Ascii("POST "), Ascii("PUT "), Ascii("DELETE "), Ascii("PATCH "), Ascii("HEAD "), Ascii("OPTIONS ")]
  }

  /** What a request head says; `lineOK` if its first line has at least two fields. */
  datatype ReqMeta = ReqMeta(
    lineOK: bool, verb: Text, path: Text, host: Text, ctype: Text, encoding: Text,
    chunked: bool, length: Option<nat>)

  datatype RespMeta = RespMeta(
    status: int, ctype: Text, encoding: Text, chunked: bool, length: Option<nat>, eventStream: bool)

  datatype Headers = Headers(
    req: seq<byte> -> ReqMeta,
    resp: seq<byte> -> RespMeta,
    decode: (seq<byte>, Text) -> seq<byte>,
    clean: seq<byte> -> Text)

  datatype ReqHead = ReqHead(verb: Text, path: Text, host: Text, ctype: Text, body: Text)
  datatype RespHead = RespHead(status: int, ctype: Text, body: Text)

  const NO_REQ := ReqHead([], [], [], [], [])
  const NO_RESP := RespHead(0, [], [])

  /** `Broken`: the chunk decoder ran a slice out of range. */
  datatype Parsed<H> = Parsed(head: H, ok: bool) | Broken

  predicate LooksLikeRequest(b: seq<byte>) {
    exists i :: 0 <= i < |Methods()| && Methods()[i] <= b
  }

  function ParseReq(hd: Headers, buf: seq<byte>): Parsed<ReqHead> {
    var i := Index(buf, HEAD_END);
    if !LooksLikeRequest(buf) || i < 0 then Parsed(NO_REQ, false) else
    var m, body := hd.req(buf[..i]), buf[i + 4..];
    if !m.lineOK then Parsed(NO_REQ, false) else
    var h := ReqHead(m.verb, m.path, m.host, m.ctype, []);
    if m.chunked then
      match Dechunked(body)
      case Crash => Broken
      case Decoded(out, done) =>
        Parsed(h.(body := hd.clean(if done then hd.decode(out, m.encoding) else out)), done)
    else if m.length.None? then Parsed(h.(body := hd.clean(body)), true)
    else if |body| < m.length.value then Parsed(NO_REQ, false)
    else Parsed(h.(body := hd.clean(hd.decode(body[..m.length.value], m.encoding))), true)
  }

  predicate Interim(status: int) {
    100 <= status < 200 && status != 101
  }

  predicate NoBody(status: int) {
    status == 101 || status == 204 || status == 304
  }

  function ParseResp(hd: Headers, buf: seq<byte>): Parsed<RespHead>
    decreases |buf|
  {
    var i := Index(buf, HEAD_END);
    if |buf| < 12 || !(RESPONSE_START <= buf) || i < 0 then Parsed(NO_RESP, false) else
    var m, body := hd.resp(buf[..i]), buf[i + 4..];
    if Interim(m.status) then
      if body == [] then Parsed(NO_RESP, false) else ParseResp(hd, body)
    else
      FinalResp(hd, m, body)
  }

  /** The part of the parse that follows the head of a final response. */
  function FinalResp(hd: Headers, m: RespMeta, body: seq<byte>): Parsed<RespHead> {
    var h := RespHead(m.status, m.ctype, []);
    if NoBody(m.status) then Parsed(h, true)
    else if m.chunked then
      match Dechunked(body)
      case Crash => Broken
      case Decoded(out, done) =>
        Parsed(h.(body := hd.clean(if done then hd.decode(out, m.encoding) else out)), done)
    else if m.length.Some? then
      if |body| < m.length.value then Parsed(NO_RESP, false)
      else Parsed(h.(body := hd.clean(hd.decode(body[..m.length.value], m.encoding))), true)
    else
      Parsed(h.(body := hd.clean(hd.decode(body, m.encoding))), m.eventStream && Index(body, DONE_MARK) >= 0)
  }

  // ----- the texts that messages begin with -----

  predicate Starts(b: seq<byte>, s: string) {
    |s| <= |b| && forall i :: 0 <= i < |s| ==> b[i] == s[i] as int
  }

  /** The methods, written out. */
  predicate StartsRequest(b: seq<byte>) {
    || Starts(b, "GET ") || Starts(b, "POST ") || Starts(b, "PUT ") || Starts(b, "DELETE ") || Starts(b, "PATCH ")
    || Starts(b, "HEAD ") || Starts(b, "OPTIONS ")
  }

  lemma {:induction false} AsciiPrefix(b: seq<byte>, s: string)
    requires forall i :: 0 <= i < |s| ==> s[i] as int < 0x80
    ensures Ascii(s) <= b <==> Starts(b, s)
  {
    var p := Ascii(s);
    assert forall i :: 0 <= i < |s| ==> p[i] == s[i] as int;
    if Starts(b, s) {
      assert b[..|p|] == p;
    }
  }

  /** The payloads that look like requests and like responses, by their text. */
  lemma {:induction false} PayloadExactly(b: seq<byte>)
    ensures LooksLikeRequest(b) <==> StartsRequest(b)
    ensures RESPONSE_START <= b <==> Starts(b, "HTTP/")
  {
    AsciiPrefix(b, "HTTP/");
    AsciiPrefix(b, "GET ");
    AsciiPrefix(b, "POST ");
    AsciiPrefix(b, "PUT ");
    AsciiPrefix(b, "DELETE ");
    AsciiPrefix(b, "PATCH ");
    AsciiPrefix(b, "HEAD ");
    AsciiPrefix(b, "OPTIONS ");
    hide Ascii, Starts;
    var m := Methods();
    assert m[0] == Ascii("GET ") && m[1] == Ascii("POST ") && m[2] == Ascii("PUT ") && m[3] == Ascii("DELETE ");
    assert m[4] == Ascii("PATCH ") && m[5] == Ascii("HEAD ") && m[6] == Ascii("OPTIONS ");
  }

  // ----- more bytes -----

  lemma {:induction false} HeadExtend(buf: seq<byte>, ext: seq<byte>)
    requires Index(buf, HEAD_END) >= 0
    ensures var i := Index(buf, HEAD_END);
      Index(buf + ext, HEAD_END) == i && (buf + ext)[..i] == buf[..i] && (buf + ext)[i + 4..] == buf[i + 4..] + ext
  {
    IndexExtend(buf, ext, HEAD_END);
  }

  lemma {:induction false} LooksLikeExtend(b: seq<byte>, ext: seq<byte>)
    requires LooksLikeRequest(b)
    ensures LooksLikeRequest(b + ext)
  {
    var i :| 0 <= i < |Methods()| && Methods()[i] <= b;
    assert Methods()[i] <= b + ext;
  }

  /** The request in `buf` has neither a length nor a chunked body: its body is all there is. */
  predicate OpenReq(hd: Headers, buf: seq<byte>) {
    var i := Index(buf, HEAD_END);
    i >= 0 && !hd.req(buf[..i]).chunked && hd.req(buf[..i]).length.None?
  }

  /**
   A complete request stays complete when more bytes arrive, and reports the same, except
   that a request with neither length nor chunked body takes the new bytes as body too.
   */
  lemma {:induction false} ReqStable(hd: Headers, buf: seq<byte>, ext: seq<byte>)
    requires ParseReq(hd, buf).Parsed? && ParseReq(hd, buf).ok
    ensures var i := Index(buf, HEAD_END);
      i >= 0 && ParseReq(hd, buf + ext) ==
        if OpenReq(hd, buf)
        then Parsed(ParseReq(hd, buf).head.(body := hd.clean(buf[i + 4..] + ext)), true)
        else ParseReq(hd, buf)
  {
    hide Index, Dechunked, LooksLikeRequest;
    HeadExtend(buf, ext);
    LooksLikeExtend(buf, ext);
    var i := Index(buf, HEAD_END);
    var m, body := hd.req(buf[..i]), buf[i + 4..];
    if m.chunked {
      DechunkedExtend(body, ext);
    } else if m.length.Some? {
      assert (body + ext)[..m.length.value] == body[..m.length.value];
    }
  }

  /** Where the final response starts: interim responses are skipped while something follows them. */
  function Skipped(hd: Headers, buf: seq<byte>): (r: seq<byte>)
    ensures |r| <= |buf|
    decreases |buf|
  {
    var i := Index(buf, HEAD_END);
    if |buf| < 12 || !(RESPONSE_START <= buf) || i < 0 then buf
    else if Interim(hd.resp(buf[..i]).status) && buf[i + 4..] != [] then Skipped(hd, buf[i + 4..])
    else buf
  }

  /** The final response in `buf` has no framing: its body is all there is. */
  predicate OpenResp(hd: Headers, buf: seq<byte>) {
    var i := Index(buf, HEAD_END);
    i >= 0 && var m := hd.resp(buf[..i]); !NoBody(m.status) && !m.chunked && m.length.None?
  }

  /** What skipping interim responses leaves decides the parse, and more bytes do not change the skipping. */
  lemma {:induction false} SkippedParse(hd: Headers, buf: seq<byte>, ext: seq<byte>)
    ensures ParseResp(hd, Skipped(hd, buf)) == ParseResp(hd, buf)
    ensures var f := Skipped(hd, buf); var i := Index(f, HEAD_END);
      12 <= |f| && RESPONSE_START <= f && i >= 0 && !Interim(hd.resp(f[..i]).status) ==>
      Skipped(hd, buf + ext) == f + ext
    decreases |buf|
  {
    hide Index, FinalResp;
    var i := Index(buf, HEAD_END);
    if 12 <= |buf| && RESPONSE_START <= buf && i >= 0 {
      HeadExtend(buf, ext);
      assert RESPONSE_START <= buf + ext;
      if Interim(hd.resp(buf[..i]).status) && buf[i + 4..] != [] {
        SkippedParse(hd, buf[i + 4..], ext);
      }
    }
  }

  lemma {:induction false} FinalStable(hd: Headers, m: RespMeta, body: seq<byte>, ext: seq<byte>)
    requires FinalResp(hd, m, body).Parsed? && FinalResp(hd, m, body).ok
    ensures FinalResp(hd, m, body + ext) ==
      if !NoBody(m.status) && !m.chunked && m.length.None?
      then Parsed(RespHead(m.status, m.ctype, hd.clean(hd.decode(body + ext, m.encoding))), true)
      else FinalResp(hd, m, body)
  {
    hide Index, Dechunked;
    if m.chunked {
      DechunkedExtend(body, ext);
    } else if m.length.Some? && !NoBody(m.status) {
      assert (body + ext)[..m.length.value] == body[..m.length.value];
    } else if Index(body, DONE_MARK) >= 0 {
      IndexExtend(body, ext, DONE_MARK);
    }
  }

  /**
   A complete response stays complete when more bytes arrive, past any number of interim
   responses, and reports the same, except that an event stream without framing takes the
   new bytes as body too.
   */
  lemma {:induction false} RespStable(hd: Headers, buf: seq<byte>, ext: seq<byte>)
    requires ParseResp(hd, buf).Parsed? && ParseResp(hd, buf).ok
    ensures var f := Skipped(hd, buf); var i := Index(f, HEAD_END);
      i >= 0 && ParseResp(hd, buf + ext) ==
        if OpenResp(hd, f)
        then Parsed(ParseResp(hd, buf).head.(
          body := hd.clean(hd.decode(f[i + 4..] + ext, hd.resp(f[..i]).encoding))), true)
        else ParseResp(hd, buf)
  {
    hide Index, Dechunked;
    var f := Skipped(hd, buf);
    SkippedEnds(hd, buf);
    SkippedParse(hd, buf, ext);
    SkippedParse(hd, buf + ext, []);
    HeadExtend(f, ext);
    var i := Index(f, HEAD_END);
    FinalStable(hd, hd.resp(f[..i]), f[i + 4..], ext);
    assert RESPONSE_START <= f + ext;
  }

  /** A complete parse has a final response head. */
  lemma {:induction false} SkippedEnds(hd: Headers, buf: seq<byte>)
    requires ParseResp(hd, buf).Parsed? && ParseResp(hd, buf).ok
    ensures var f := Skipped(hd, buf); var i := Index(f, HEAD_END);
      12 <= |f| && RESPONSE_START <= f && i >= 0 && !Interim(hd.resp(f[..i]).status)
    decreases |buf|
  {
    hide Index, FinalResp;
    var i := Index(buf, HEAD_END);
    if Interim(hd.resp(buf[..i]).status) {
      SkippedEnds(hd, buf[i + 4..]);
    }
  }

  // ----- complete exactly at the end -----

  /** Cutting a buffer before the end of its head leaves no head end to find. */
  lemma {:induction false} HeadOfPrefix(buf: seq<byte>, k: nat)
    requires Index(buf, HEAD_END) >= 0 && k <= |buf|
    ensures var i := Index(buf, HEAD_END);
      if k < i + 4 then Index(buf[..k], HEAD_END) == -1
      else Index(buf[..k], HEAD_END) == i && buf[..k][..i] == buf[..i] && buf[..k][i + 4..] == buf[i + 4..k]
  {
    var i, p := Index(buf, HEAD_END), buf[..k];
    assert buf == p + buf[k..];
    if j: nat :| j + 4 <= k && j <= i && At(p, HEAD_END, j) {
      AtExtend(p, buf[k..], HEAD_END, j);
      assert j == i;
      IndexExtend(p, buf[k..], HEAD_END);
    } else if i + 4 <= k {
      AtExtend(p, buf[k..], HEAD_END, i);
      assert false;
    } else if Index(p, HEAD_END) >= 0 {
      IndexExtend(p, buf[k..], HEAD_END);
      assert false;
    }
  }

  /**
   A request with a declared length is reported complete on exactly those parts of it that
   reach its last byte, and the body is then exactly the declared bytes.
   */
  lemma {:induction false} ReqCompleteExactly(hd: Headers, msg: seq<byte>, k: nat)
    requires StartsRequest(msg) && Index(msg, HEAD_END) >= 0 && k <= |msg|
    requires var m := hd.req(msg[..Index(msg, HEAD_END)]); m.lineOK && !m.chunked && m.length.Some?
    ensures var i := Index(msg, HEAD_END); var m := hd.req(msg[..i]); var p := ParseReq(hd, msg[..k]);
      && p.Parsed?
      && (p.ok <==> i + 4 + m.length.value <= k)
      && (p.ok ==> p.head == ReqHead(m.verb, m.path, m.host, m.ctype,
                                     hd.clean(hd.decode(msg[i + 4..i + 4 + m.length.value], m.encoding))))
      && (!p.ok ==> p.head == NO_REQ)
  {
    PayloadExactly(msg);
    hide Index, Dechunked, StartsRequest;
    HeadOfPrefix(msg, k);
    var i := Index(msg, HEAD_END);
    if i + 4 <= k {
      LooksLikePrefix(msg, k);
      var n := hd.req(msg[..i]).length.value;
      if n <= k - i - 4 {
        assert msg[i + 4..k][..n] == msg[i + 4..i + 4 + n];
      }
    }
  }

  /** The method name lies before the head end. */
  lemma {:induction false} LooksLikePrefix(msg: seq<byte>, k: nat)
    requires LooksLikeRequest(msg) && Index(msg, HEAD_END) >= 0
    requires Index(msg, HEAD_END) + 4 <= k <= |msg|
    ensures LooksLikeRequest(msg[..k])
  {
    hide Index;
    var i :| 0 <= i < |Methods()| && Methods()[i] <= msg;
    var m, e := Methods()[i], Index(msg, HEAD_END);
    NoControlBytes(i);
    hide Methods;
    assert msg[e..e + 4][0] == CR;
    assert m <= msg[..k];
  }

  lemma {:induction false} NoControlBytes(i: nat)
    requires i < |Methods()|
    ensures forall j :: 0 <= j < |Methods()[i]| ==> Methods()[i][j] >= 32
  {
    hide Ascii;
    Printable("GET ");
    Printable("POST ");
    Printable("PUT ");
    Printable("DELETE ");
    Printable("PATCH ");
    Printable("HEAD ");
    Printable("OPTIONS ");
  }

  lemma {:induction false} Printable(s: string)
    requires forall j :: 0 <= j < |s| ==> ' ' <= s[j] <= '~'
    ensures forall j :: 0 <= j < |Ascii(s)| ==> Ascii(s)[j] >= 32
  {
  }

  /** A final response with this status has a body (RFC 9112, section 6.3). */
  predicate HasBody(status: int) {
    !(100 <= status < 200) && status != 204 && status != 304
  }

  /** The same for a final response with a declared length. */
  lemma {:induction false} RespCompleteExactly(hd: Headers, msg: seq<byte>, k: nat)
    requires Starts(msg, "HTTP/") && Index(msg, HEAD_END) >= 8 && k <= |msg|
    requires var m := hd.resp(msg[..Index(msg, HEAD_END)]); HasBody(m.status) && !m.chunked && m.length.Some?
    ensures var i := Index(msg, HEAD_END); var m := hd.resp(msg[..i]); var p := ParseResp(hd, msg[..k]);
      && p.Parsed?
      && (p.ok <==> i + 4 + m.length.value <= k)
      && (p.ok ==> p.head == RespHead(m.status, m.ctype,
                                      hd.clean(hd.decode(msg[i + 4..i + 4 + m.length.value], m.encoding))))
      && (!p.ok ==> p.head == NO_RESP)
  {
    PayloadExactly(msg);
    hide Index, Dechunked, Starts;
    HeadOfPrefix(msg, k);
    var i := Index(msg, HEAD_END);
    if i + 4 <= k {
      var n := hd.resp(msg[..i]).length.value;
      assert RESPONSE_START <= msg[..k];
      if n <= k - i - 4 {
        assert msg[i + 4..k][..n] == msg[i + 4..i + 4 + n];
      }
    }
  }

  lemma {:induction false} BodyOfPrefix(head: seq<byte>, body: seq<byte>, rest: seq<byte>, k: nat)
    requires |head| + 4 <= k <= |head + HEAD_END + body + rest|
    ensures var msg := head + HEAD_END + body + rest;
      msg[..|head|] == head && msg[|head| + 4..k] == (body + rest)[..k - |head| - 4]
  {
    var msg := head + HEAD_END + body + rest;
    assert msg == head + HEAD_END + (body + rest);
    assert msg[|head| + 4..] == body + rest;
  }

  /**
   A chunked response is reported complete on exactly those parts of it that reach the line
   of the zero-size chunk; on the others its body so far is a prefix of the true body.
   */
  lemma {:induction false} ChunkedRespCompleteExactly(
    hd: Headers, head: seq<byte>, chunks: seq<Chunk>, last: Chunk, rest: seq<byte>, k: nat)
    requires 8 <= |head| && Starts(head, "HTTP/") && ValidMessage(chunks, last)
    requires var msg := head + HEAD_END + Coding(chunks, last) + rest; k <= |msg| && Index(msg, HEAD_END) == |head|
    requires var m := hd.resp(head); HasBody(m.status) && m.chunked
    ensures var msg := head + HEAD_END + Coding(chunks, last) + rest;
      var m := hd.resp(head); var p := ParseResp(hd, msg[..k]);
      && p.Parsed?
      && (p.ok <==> |head| + 4 + |Coding(chunks, last)| <= k)
      && (p.ok ==> p.head == RespHead(m.status, m.ctype, hd.clean(hd.decode(Body(chunks), m.encoding))))
      && (!p.ok && |head| + 4 <= k ==>
          exists part :: part <= Body(chunks) && p.head == RespHead(m.status, m.ctype, hd.clean(part)))
  {
    PayloadExactly(head);
    hide Index, Dechunked, Coding, Body, Starts, StartsRequest, LooksLikeRequest;
    var msg := head + HEAD_END + Coding(chunks, last) + rest;
    HeadOfPrefix(msg, k);
    var i := |head|;
    if i + 4 <= k {
      assert RESPONSE_START <= msg[..k];
      BodyOfPrefix(head, Coding(chunks, last), rest, k);
      DechunkedPrefix(chunks, last, rest, k - i - 4);
    }
  }

  /** The same for a chunked request. */
  lemma {:induction false} ChunkedReqCompleteExactly(
    hd: Headers, head: seq<byte>, chunks: seq<Chunk>, last: Chunk, rest: seq<byte>, k: nat)
    requires var msg := head + HEAD_END + Coding(chunks, last) + rest;
      k <= |msg| && Index(msg, HEAD_END) == |head| && StartsRequest(msg)
    requires ValidMessage(chunks, last) && hd.req(head).lineOK && hd.req(head).chunked
    ensures var msg := head + HEAD_END + Coding(chunks, last) + rest;
      var m := hd.req(head); var p := ParseReq(hd, msg[..k]);
      && p.Parsed?
      && (p.ok <==> |head| + 4 + |Coding(chunks, last)| <= k)
      && (p.ok ==> p.head == ReqHead(m.verb, m.path, m.host, m.ctype, hd.clean(hd.decode(Body(chunks), m.encoding))))
      && (!p.ok && |head| + 4 <= k ==>
            exists part :: part <= Body(chunks) && p.head == ReqHead(m.verb, m.path, m.host, m.ctype, hd.clean(part)))
  {
    var msg := head + HEAD_END + Coding(chunks, last) + rest;
    PayloadExactly(msg);
    hide ParseReq, Index, Dechunked, Coding, Body, Starts, StartsRequest, LooksLikeRequest, ValidMessage;
    HeadOfPrefix(msg, k);
    var i := |head|;
    if i + 4 <= k {
      LooksLikePrefix(msg, k);
      BodyOfPrefix(head, Coding(chunks, last), rest, k);
      DechunkedPrefix(chunks, last, rest, k - i - 4);
      ChunkedReqParse(hd, msg[..k], head, msg[i + 4..k]);
    } else {
      NoHead(hd, msg[..k]);
    }
  }

  lemma {:induction false} NoHead(hd: Headers, buf: seq<byte>)
    requires Index(buf, HEAD_END) == -1
    ensures ParseReq(hd, buf) == Parsed(NO_REQ, false)
  {
    hide Index, LooksLikeRequest;
  }

  lemma {:induction false} ChunkedReqParse(hd: Headers, buf: seq<byte>, head: seq<byte>, body: seq<byte>)
    requires LooksLikeRequest(buf) && Index(buf, HEAD_END) == |head| && hd.req(head).lineOK && hd.req(head).chunked
    requires buf[..|head|] == head && buf[|head| + 4..] == body && Dechunked(body).Decoded?
    ensures var m, d := hd.req(head), Dechunked(body);
      ParseReq(hd, buf) == Parsed(ReqHead(m.verb, m.path, m.host, m.ctype,
                                          hd.clean(if d.done then hd.decode(d.out, m.encoding) else d.out)), d.done)
  {
    hide Index, Dechunked, LooksLikeRequest;
  }

  // ----- messages without a length -----

  /** A request with neither a length nor a chunked body is complete with its head, and carries all there is. */
  lemma {:induction false} OpenReqExactly(hd: Headers, head: seq<byte>, body: seq<byte>)
    requires StartsRequest(head + HEAD_END + body) && Index(head + HEAD_END + body, HEAD_END) == |head|
    requires var m := hd.req(head); m.lineOK && !m.chunked && m.length.None?
    ensures var m := hd.req(head);
      ParseReq(hd, head + HEAD_END + body) == Parsed(ReqHead(m.verb, m.path, m.host, m.ctype, hd.clean(body)), true)
  {
    var msg := head + HEAD_END + body;
    PayloadExactly(msg);
    hide Index, StartsRequest, LooksLikeRequest;
    assert msg[..|head|] == head && msg[|head| + 4..] == body;
  }

  /** Nothing is made of bytes without a method, without the end of a head or without a proper first line. */
  lemma {:induction false} NoRequest(hd: Headers, buf: seq<byte>)
    requires var i := Index(buf, HEAD_END); !StartsRequest(buf) || i < 0 || !hd.req(buf[..i]).lineOK
    ensures ParseReq(hd, buf) == Parsed(NO_REQ, false)
  {
    PayloadExactly(buf);
    hide Index, StartsRequest, LooksLikeRequest;
  }

  lemma {:induction false} NoResponse(hd: Headers, buf: seq<byte>)
    requires |buf| < 12 || !Starts(buf, "HTTP/") || Index(buf, HEAD_END) < 0
    ensures ParseResp(hd, buf) == Parsed(NO_RESP, false)
  {
    PayloadExactly(buf);
    hide Index, Starts;
  }

  /** A response that has no body is complete on exactly those parts of it that reach the end of its head. */
  lemma {:induction false} BodilessCompleteExactly(hd: Headers, msg: seq<byte>, k: nat)
    requires Starts(msg, "HTTP/") && Index(msg, HEAD_END) >= 8 && k <= |msg|
    requires hd.resp(msg[..Index(msg, HEAD_END)]).status in {101, 204, 304}
    ensures var i := Index(msg, HEAD_END); var m := hd.resp(msg[..i]); var p := ParseResp(hd, msg[..k]);
      && p.Parsed? && (p.ok <==> i + 4 <= k)
      && p.head == if p.ok then RespHead(m.status, m.ctype, []) else NO_RESP
  {
    PayloadExactly(msg);
    hide Index, Starts;
    HeadOfPrefix(msg, k);
  }

  /** An interim response says nothing itself: what follows it is parsed as if it were not there. */
  lemma {:induction false} InterimSkipped(hd: Headers, head: seq<byte>, rest: seq<byte>)
    requires 8 <= |head| && Starts(head, "HTTP/") && Index(head + HEAD_END + rest, HEAD_END) == |head|
    requires var status := hd.resp(head).status; 100 <= status < 200 && status != 101
    ensures ParseResp(hd, head + HEAD_END + rest) == if rest == [] then Parsed(NO_RESP, false) else ParseResp(hd, rest)
  {
    PayloadExactly(head);
    hide Index, Starts, FinalResp;
    var msg := head + HEAD_END + rest;
    assert msg[..|head|] == head && msg[|head| + 4..] == rest && RESPONSE_START <= msg;
  }

  /**
   A response with neither a length nor a chunked body carries all there is, and is complete
   before the end of the connection only if it is an event stream that contains the text "[DONE]".
   */
  lemma {:induction false} OpenRespExactly(hd: Headers, head: seq<byte>, body: seq<byte>)
    requires 8 <= |head| && Starts(head, "HTTP/") && Index(head + HEAD_END + body, HEAD_END) == |head|
    requires var m := hd.resp(head); HasBody(m.status) && !m.chunked && m.length.None?
    ensures var m := hd.resp(head);
      ParseResp(hd, head + HEAD_END + body) ==
        Parsed(RespHead(m.status, m.ctype, hd.clean(hd.decode(body, m.encoding))),
               m.eventStream && exists i :: 0 <= i <= |body| && Starts(body[i..], "[DONE]"))
  {
    PayloadExactly(head);
    DoneExactly(body);
    hide Index, Starts;
    var msg := head + HEAD_END + body;
    assert msg[..|head|] == head && msg[|head| + 4..] == body && RESPONSE_START <= msg;
  }

  lemma {:induction false} DoneExactly(body: seq<byte>)
    ensures Index(body, DONE_MARK) >= 0 <==> exists i :: 0 <= i <= |body| && Starts(body[i..], "[DONE]")
  {
    forall i | 0 <= i <= |body|
      ensures At(body, DONE_MARK, i) <==> Starts(body[i..], "[DONE]")
    {
      AsciiPrefix(body[i..], "[DONE]");
      var n := |DONE_MARK|;
      if i + n <= |body| {
        assert body[i..i + n] == body[i..][..n];
      }
    }
    hide Starts, Ascii;
    if i :| 0 <= i <= |body| && Starts(body[i..], "[DONE]") {
      assert At(body, DONE_MARK, i);
    }
  }
}
