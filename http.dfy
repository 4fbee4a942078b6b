/**
 * The libevent request as the handler uses it: its raw URI, the output
 * headers it adds and the replies it sends.
 */
module Http {
  import opened Wrappers
  import opened CString
  import opened Numbers

  const HTTP_OK: int := 200
  const HTTP_BADREQUEST: int := 400
  const HTTP_NOTFOUND: int := 404
  const HTTP_INTERNAL: int := 500

  datatype Header = Header(name: string, value: string)

  /**
   * One reply sent on the request: its status, its reason (None for the
   * NULL that lets libevent pick the standard phrase) and, for
   * `evhttp_send_reply`, the body and the output headers it is written
   * with; `evhttp_send_error` sends libevent's own error page, whose body
   * and headers are not modelled.
   */
  datatype Response = Response(code: int, reason: Option<string>, body: Option<seq<bv8>>, headers: Option<seq<Header>>)

  class Request {
    /** `evhttp_request_get_uri`: the raw request target, a C string. */
    const uri: string
    var headers: seq<Header>
    var responses: seq<Response>

    ghost predicate Valid()
    {
      NUL !in uri
    }

    constructor (uri: string)
      requires NUL !in uri
      ensures Valid() && this.uri == uri && headers == [] && responses == []
    {
      this.uri := uri;
      headers, responses := [], [];
    }

    /** `evhttp_add_header` on the output headers. */
    method AddHeader(name: string, value: string)
      modifies this`headers
      ensures headers == old(headers) + [Header(name, value)]
    {
      headers := headers + [Header(name, value)];
    }

    /** `evhttp_send_reply` with the buffer's bytes as body, written with the output headers held now. */
    method SendReply(code: int, reason: string, body: seq<bv8>)
      modifies this`responses
      ensures responses == old(responses) + [Response(code, Some(reason), Some(body), Some(headers))]
    {
      responses := responses + [Response(code, Some(reason), Some(body), Some(headers))];
    }

    /** `evhttp_send_error`. */
    method SendError(code: int, reason: Option<string>)
      modifies this`responses
      ensures responses == old(responses) + [Response(code, reason, None, None)]
    {
      responses := responses + [Response(code, reason, None, None)];
    }
  }

  /** The two headers `s_set_headers` adds for a body of `dataLen` bytes. */
  function LengthHeaders(dataLen: nat): seq<Header>
  {
    [Header("Connection", "close"), Header("Content-Length", Decimal(dataLen))]
  }

  /** A client reading Content-Length with the same conversion gets the body length back. */
  lemma ContentLengthReadsBack(dataLen: nat)
    requires dataLen <= LONG_MAX
    ensures LengthHeaders(dataLen)[1].name == "Content-Length"
    ensures ToLong(Some(LengthHeaders(dataLen)[1].value), 0).value == dataLen
  {
    DecimalRoundTrip(dataLen);
  }

  /** `s_set_headers`: "Connection: close", then the exact Content-Length. */
  method SetHeaders(req: Request, dataLen: nat)
    modifies req`headers
    ensures req.headers == old(req.headers) + LengthHeaders(dataLen)
  {
    req.AddHeader("Connection", "close");
    req.AddHeader("Content-Length", Decimal(dataLen));
  }
}
