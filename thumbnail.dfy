/**
 * What `s_create_thumbnail_cb` does for one request, as values: the exit it
 * takes, the replies and headers it sends, the calls it makes on the
 * worker's MagickWand and the order in which it acquires and releases heap
 * buffers. The handler methods are proved to produce exactly these; the
 * lemmas here state what they mean. Library answers come from `Env`.
 */
module Thumbnail {
  import opened Wrappers
  import opened CString
  import opened Numbers
  import opened Routing
  import opened Params
  import opened Heap
  import opened Magick
  import opened Http

  const NOT_FOUND_MESSAGE: string := "Document was not found"
  const INTERNAL_MESSAGE: string := "Internal Server Error"

  /** What libevent, the C library and ImageMagick answer while one request is handled. */
  datatype Env = Env(
    uri: UriParse,                        // evhttp_uri_parse, evhttp_uri_get_path
    decode: string -> Option<seq<char>>,  // evhttp_uridecode
    strdupOk: bool,                       // strdup finds memory
    query: Option<map<string, string>>,   // evhttp_parse_query (None: it returned -1), read with evhttp_find_header
    errno: int,                           // errno when s_to_long is first entered (line 267)
    evbufferOk: bool,                     // evbuffer_new finds memory
    magick: Engine)

  /** The exits of the handler, in the order the code can reach them. */
  datatype Exit =
    | NotRouted      // route test fails: 404
    | NoFilename     // s_get_filename gives NULL: 400
    | QueryRejected  // evhttp_parse_query fails: falls through to 404
    | ReadFailed     // MagickReadImage fails: error_reply with 404
    | ResizeFailed   // s_resize_image fails: error_reply with 500
    | NoBlob         // MagickGetImageBlob gives NULL: error_reply with 500
    | NoBuffer       // evbuffer_new gives NULL: error_reply with 500
    | Served         // 200 sent (the handler as written then falls through to 404)

  /** The exits that get as far as MagickReadImage. */
  predicate ReachesImage(e: Exit)
  {
    e != NotRouted && e != NoFilename && e != QueryRejected
  }

  function FileOf(env: Env): Option<string>
  {
    FilenameOf(env.uri, env.decode, env.strdupOk)
  }

  /** The sizes the handler normalises out of the query (unused when the query does not parse). */
  function SizesOf(env: Env): Sizes
  {
    if env.query.None? then Sizes(0, 0) else ReadSizes(env.query.value, env.errno)
  }

  /** Which exit lines 273-305 take for an image of the given sizes. */
  function ImageExit(sizes: Sizes, env: Env): (e: Exit)
    ensures ReachesImage(e)
    ensures e == Served ==> env.magick.blob.Some?
  {
    if !env.magick.readOk then ReadFailed
    else if !ResizeSucceeds(sizes.width, sizes.height, env.magick) then ResizeFailed
    else if env.magick.blob.None? then NoBlob
    else if !env.evbufferOk then NoBuffer
    else Served
  }

  /** The exit taken once the file name is known: lines 262-307. */
  function JobExit(env: Env): (e: Exit)
    ensures e == QueryRejected || ReachesImage(e)
    ensures ReachesImage(e) <==> env.query.Some?
  {
    if env.query.None? then QueryRejected else ImageExit(SizesOf(env), env)
  }

  /** The exit taken by a request that passes the route test: lines 256-320. */
  function RoutedExit(env: Env): (e: Exit)
    ensures e != NotRouted
    ensures ReachesImage(e) ==> FileOf(env).Some? && env.query.Some?
  {
    if FileOf(env).None? then NoFilename else JobExit(env)
  }

  /** The exit the handler takes for a request. */
  function ExitOf(uri: string, env: Env): (e: Exit)
    ensures ReachesImage(e) ==> Routed(uri) && FileOf(env).Some? && env.query.Some?
  {
    if !Routed(uri) then NotRouted else RoutedExit(env)
  }

  const NotFound: Response := Response(HTTP_NOTFOUND, Some(NOT_FOUND_MESSAGE), None, None)

  /** The `code` and `message` the handler holds when it jumps to error_reply from exit `e`. */
  function ErrorStatus(e: Exit): (int, string)
  {
    if e == ReadFailed then (HTTP_NOTFOUND, NOT_FOUND_MESSAGE) else (HTTP_INTERNAL, INTERNAL_MESSAGE)
  }

  /** The 200 reply carrying the encoded image, written with the output headers `sent`. */
  function Ok(m: Engine, sent: seq<Header>): Response
  {
    Response(HTTP_OK, Some("OK"), m.blob, Some(sent))
  }

  /**
   * The one reply a request that leaves by `e` is meant to get, when the
   * request held the output headers `headers` before the handler ran.
   */
  function Reply(e: Exit, m: Engine, headers: seq<Header>): Response
  {
    match e
    case NotRouted => NotFound
    case NoFilename => Response(HTTP_BADREQUEST, None, None, None)
    case QueryRejected => NotFound
    case Served => Ok(m, HeaderLog(headers, Served, m))
    case _ => Response(ErrorStatus(e).0, Some(ErrorStatus(e).1), None, None)
  }

  /**
   * The replies sent so far once lines 273-305 are done: the 200 when the
   * image was served, nothing otherwise.
   */
  function OkLog(log: seq<Response>, e: Exit, m: Engine, headers: seq<Header>): seq<Response>
  {
    if e == Served then log + [Ok(m, HeaderLog(headers, Served, m))] else log
  }

  /** The replies after the handler as written: a served image is followed by the 404 of line 309. */
  function ReplyLog(log: seq<Response>, e: Exit, m: Engine, headers: seq<Header>): seq<Response>
  {
    if e == Served then log + [Ok(m, HeaderLog(headers, Served, m))] + [NotFound] else log + [Reply(e, m, headers)]
  }

  /** The output headers after lines 273-305: the Content-Type once the image was resized, and the lengths once served. */
  function HeaderLog(log: seq<Header>, e: Exit, m: Engine): seq<Header>
  {
    if e == NoBlob || e == NoBuffer then log + [Header("Content-Type", ContentType(m))]
    else if e == Served && m.blob.Some? then log + [Header("Content-Type", ContentType(m))] + LengthHeaders(|m.blob.value|)
    else log
  }

  /** The wand calls after lines 273-305 up to, not including, the clear: read, resize, format, blob. */
  function ImageCallLog(log: seq<WandCall>, e: Exit, filename: string, sizes: Sizes, m: Engine): seq<WandCall>
  {
    if !ReachesImage(e) then log
    else if e == ReadFailed then log + [MagickReadImage(filename)]
    else if e == ResizeFailed then log + [MagickReadImage(filename)] + ResizeCalls(sizes.width, sizes.height, m)
    else
      log + [MagickReadImage(filename)] + ResizeCalls(sizes.width, sizes.height, m) +
      [MagickGetImageFormat] + [MagickGetImageBlob]
  }

  /** The wand calls a request makes: none before the image is read, else read through clear. */
  function WandCalls(uri: string, env: Env): seq<WandCall>
  {
    var e := ExitOf(uri, env);
    if ReachesImage(e) then ImageCallLog([], e, FileOf(env).value, SizesOf(env), env.magick) + [ClearMagickWand]
    else []
  }

  lemma Assoc<T>(a: seq<T>, b: seq<T>, c: seq<T>)
    ensures a + b + c == a + (b + c)
  {
  }

  /** The calls of lines 273-305 extend whatever the wand held before. */
  lemma ImageCallLogFrom(log: seq<WandCall>, e: Exit, filename: string, sizes: Sizes, m: Engine)
    ensures ImageCallLog(log, e, filename, sizes, m) == log + ImageCallLog([], e, filename, sizes, m)
  {
    var read := [MagickReadImage(filename)];
    var rc := ResizeCalls(sizes.width, sizes.height, m);
    assert [] + read == read;
    if !ReachesImage(e) {
      assert log + [] == log;
    } else if e != ReadFailed {
      Assoc(log, read, rc);
      if e != ResizeFailed {
        Assoc(log, read + rc, [MagickGetImageFormat]);
        Assoc(log, read + rc + [MagickGetImageFormat], [MagickGetImageBlob]);
      }
    }
  }

  /** The calls a request appends to a wand that already holds `log`. */
  lemma WandCallsAppend(log: seq<WandCall>, uri: string, env: Env)
    ensures var e := ExitOf(uri, env);
      (if ReachesImage(e) then ImageCallLog(log, e, FileOf(env).value, SizesOf(env), env.magick) + [ClearMagickWand] else log)
        == log + WandCalls(uri, env)
  {
    var e := ExitOf(uri, env);
    if ReachesImage(e) {
      var calls := ImageCallLog([], e, FileOf(env).value, SizesOf(env), env.magick);
      ImageCallLogFrom(log, e, FileOf(env).value, SizesOf(env), env.magick);
      Assoc(log, calls, [ClearMagickWand]);
    } else {
      assert log + [] == log;
    }
  }

  /** Whether `evhttp_parse_query` allocates list entries: it does for every key it finds. */
  predicate HasQueryList(env: Env)
  {
    env.query.Some? && env.query.value != map[]
  }

  /** What the handler as written still holds when it returns: the parsed query list. */
  function Leaked(uri: string, env: Env): set<Res>
  {
    if ReachesImage(ExitOf(uri, env)) && HasQueryList(env) then {QueryList} else {}
  }

  /** The replies after the corrected handler: exactly the one meant for the exit. */
  function FixedReplyLog(log: seq<Response>, e: Exit, m: Engine, headers: seq<Header>): seq<Response>
  {
    log + [Reply(e, m, headers)]
  }
}
