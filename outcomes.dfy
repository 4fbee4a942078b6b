/**
 * What a request gets from `s_create_thumbnail_cb`, stated over the tables
 * of `Thumbnail` that the handler methods are proved to follow: the reply
 * each outcome selects, the discipline of the wand calls, the size handed to
 * the thumbnail, the headers of a served image, and the two places where the
 * handler as written departs from what it evidently means to do.
 */
module Outcomes {
  import opened Wrappers
  import opened CString
  import opened Numbers
  import opened Routing
  import opened Params
  import opened Heap
  import opened Magick
  import opened Http
  import opened Thumbnail

  const InternalError: Response := Response(HTTP_INTERNAL, Some(INTERNAL_MESSAGE), None, None)

  /** Lines 254 and 309: a URI that misses the route gets one 404 and touches nothing. */
  lemma NotRoutedIsNotFound(uri: string, env: Env)
    ensures ExitOf(uri, env) == NotRouted <==> !Routed(uri)
    ensures !Routed(uri) ==>
      ReplyLog([], ExitOf(uri, env), env.magick, []) == [NotFound] &&
      HeaderLog([], ExitOf(uri, env), env.magick) == [] &&
      WandCalls(uri, env) == [] && Leaked(uri, env) == {}
  {
  }

  /** Lines 256-260: a NULL file name gets 400 at once: no header is added and the wand is never touched. */
  lemma NoFilenameIsBadRequest(uri: string, env: Env)
    requires Routed(uri)
    ensures ExitOf(uri, env) == NoFilename <==> FileOf(env).None?
    ensures FileOf(env).None? ==>
      ReplyLog([], ExitOf(uri, env), env.magick, []) == [Response(HTTP_BADREQUEST, None, None, None)] &&
      HeaderLog([], ExitOf(uri, env), env.magick) == [] &&
      WandCalls(uri, env) == [] && Leaked(uri, env) == {}
  {
  }

  /**
   * Lines 250-251, 263, 273-295 and 312-320: once the file name is known, the
   * reply the handler means to send, in terms of what the libraries answer.
   * A failed read is 404, every later failure keeps the default 500, and a
   * query that does not parse falls through to 404.
   */
  lemma StatusSelection(uri: string, env: Env)
    requires Routed(uri) && FileOf(env).Some?
    ensures var r := Reply(ExitOf(uri, env), env.magick, []);
      var m := env.magick;
      var s := SizesOf(env);
      && (env.query.None? ==> r == NotFound)
      && (env.query.Some? && !m.readOk ==> r == Response(HTTP_NOTFOUND, Some(NOT_FOUND_MESSAGE), None, None))
      && (env.query.Some? && m.readOk && !ResizeSucceeds(s.width, s.height, m) ==> r == InternalError)
      && (env.query.Some? && m.readOk && ResizeSucceeds(s.width, s.height, m) && m.blob.None? ==> r == InternalError)
      && (env.query.Some? && m.readOk && ResizeSucceeds(s.width, s.height, m) && m.blob.Some? && !env.evbufferOk ==>
            r == InternalError)
      && (env.query.Some? && m.readOk && ResizeSucceeds(s.width, s.height, m) && m.blob.Some? && env.evbufferOk ==>
            r == Response(HTTP_OK, Some("OK"), m.blob, Some(HeaderLog([], Served, m))))
  {
    assert ExitOf(uri, env) == JobExit(env);
  }

  /**
   * The calls up to the clear for an exit that reaches the image: the read
   * of the file, the calls of `s_resize_image` unless the read failed, and
   * the format and blob queries once the resize succeeded.
   */
  lemma ImageCallsShape(e: Exit, filename: string, sizes: Sizes, m: Engine)
    requires ReachesImage(e)
    ensures var calls := ImageCallLog([], e, filename, sizes, m);
      var rc := ResizeCalls(sizes.width, sizes.height, m);
      && (e == ReadFailed ==> calls == [MagickReadImage(filename)])
      && (e == ResizeFailed ==> calls == [MagickReadImage(filename)] + rc)
      && (e != ReadFailed && e != ResizeFailed ==>
            calls == [MagickReadImage(filename)] + rc + [MagickGetImageFormat, MagickGetImageBlob])
  {
    assert [] + [MagickReadImage(filename)] == [MagickReadImage(filename)];
    assert [MagickReadImage(filename)] + ResizeCalls(sizes.width, sizes.height, m) + [MagickGetImageFormat] + [MagickGetImageBlob]
      == [MagickReadImage(filename)] + ResizeCalls(sizes.width, sizes.height, m) + [MagickGetImageFormat, MagickGetImageBlob];
  }

  /** No call before the clear clears the wand, and the first one reads the file. */
  lemma ImageCallsKeepImage(e: Exit, filename: string, sizes: Sizes, m: Engine)
    requires ReachesImage(e)
    ensures var calls := ImageCallLog([], e, filename, sizes, m);
      calls != [] && calls[0] == MagickReadImage(filename) && ClearMagickWand !in calls
  {
    ImageCallsShape(e, filename, sizes, m);
    assert ClearMagickWand !in ResizeCalls(sizes.width, sizes.height, m);
  }

  /**
   * Lines 273-305 and 312-318: a request that reaches MagickReadImage reads
   * its own file first and clears the wand exactly once, as its last call,
   * on success and on every error; a request that does not reach it makes
   * no call at all.
   */
  lemma WandReadThenClearedOnce(uri: string, env: Env)
    ensures var calls := WandCalls(uri, env);
      && (calls != [] <==> ReachesImage(ExitOf(uri, env)))
      && (calls != [] ==>
            calls[0] == MagickReadImage(FileOf(env).value) &&
            calls[|calls| - 1] == ClearMagickWand &&
            forall i :: 0 <= i < |calls| - 1 ==> calls[i] != ClearMagickWand)
  {
    var e := ExitOf(uri, env);
    if ReachesImage(e) {
      var log := ImageCallLog([], e, FileOf(env).value, SizesOf(env), env.magick);
      ImageCallsKeepImage(e, FileOf(env).value, SizesOf(env), env.magick);
      var calls := log + [ClearMagickWand];
      forall i | 0 <= i < |calls| - 1
        ensures calls[i] != ClearMagickWand
      {
        assert calls[i] == log[i];
      }
    }
  }

  /** No call in `calls` is MagickThumbnailImage: the image passes through as read. */
  predicate PassesThrough(calls: seq<WandCall>)
  {
    forall i :: 0 <= i < |calls| ==> !calls[i].MagickThumbnailImage?
  }

  /**
   * Exactly one call in `calls` is MagickThumbnailImage, and it passes each
   * of `width` and `height` that is non-zero unchanged.
   */
  predicate ThumbnailedOnce(calls: seq<WandCall>, width: int, height: int)
  {
    exists i :: 0 <= i < |calls| && calls[i].MagickThumbnailImage? &&
      (width != 0 ==> calls[i].columns == width) && (height != 0 ==> calls[i].rows == height) &&
      forall j :: 0 <= j < |calls| && j != i ==> !calls[j].MagickThumbnailImage?
  }

  /**
   * Once the read has succeeded: with both sizes 0 the image passes
   * through; otherwise it is thumbnailed exactly once, with the given sizes.
   */
  lemma ThumbnailCalls(e: Exit, filename: string, sizes: Sizes, m: Engine)
    requires ReachesImage(e) && e != ReadFailed
    ensures var calls := ImageCallLog([], e, filename, sizes, m) + [ClearMagickWand];
      && (sizes.width == 0 && sizes.height == 0 ==> PassesThrough(calls))
      && (sizes.width != 0 || sizes.height != 0 ==> ThumbnailedOnce(calls, sizes.width, sizes.height))
  {
    var read := MagickReadImage(filename);
    var rc := ResizeCalls(sizes.width, sizes.height, m);
    var tail := if e == ResizeFailed then [ClearMagickWand] else [MagickGetImageFormat, MagickGetImageBlob, ClearMagickWand];
    var calls := ImageCallLog([], e, filename, sizes, m) + [ClearMagickWand];
    ImageCallsShape(e, filename, sizes, m);
    assert calls == [read] + rc + tail;
    assert forall j :: 0 <= j < |tail| ==> !tail[j].MagickThumbnailImage?;
    ResizeCallsThumbnailOnce(sizes.width, sizes.height, m);
    if sizes.width == 0 && sizes.height == 0 {
      forall i | 0 <= i < |calls|
        ensures !calls[i].MagickThumbnailImage?
      {
        if i > 0 {
          assert calls[i] == tail[i - 1];
        }
      }
    } else {
      var k := |rc|;
      assert calls[k] == rc[k - 1];
      forall j | 0 <= j < |calls| && j != k
        ensures !calls[j].MagickThumbnailImage?
      {
        if 0 < j < k {
          assert calls[j] == rc[j - 1];
        } else if j > k {
          assert calls[j] == tail[j - k - 1];
        }
      }
    }
  }

  /**
   * Lines 267-271 and 184-205: once the read succeeds, a request whose
   * normalised sizes are both 0 passes through without MagickThumbnailImage;
   * any other is thumbnailed exactly once, with each non-zero requested size
   * passed unchanged.
   */
  lemma ThumbnailOfRequestedSize(uri: string, env: Env)
    requires Routed(uri) && FileOf(env).Some? && env.query.Some? && env.magick.readOk
    ensures var calls := WandCalls(uri, env);
      var w := RequestedSize(env.query.value, "w", MAX_THUMBNAIL_WIDTH);
      var h := RequestedSize(env.query.value, "h", MAX_THUMBNAIL_HEIGHT);
      && (w == 0 && h == 0 ==> PassesThrough(calls))
      && (w != 0 || h != 0 ==> ThumbnailedOnce(calls, w, h))
  {
    var e, s := ExitOf(uri, env), SizesOf(env);
    assert e == ImageExit(s, env) && e != ReadFailed;
    ReadSizesAreRequested(env.query.value, env.errno);
    ThumbnailCalls(e, FileOf(env).value, s, env.magick);
  }

  /**
   * Lines 208-237 and 285-301: the 200 of a served image is written with
   * exactly the output headers the handler added, in order: its
   * Content-Type (the detected MIME type, or application/octet-stream when
   * there is none), then "Connection: close", then a Content-Length that
   * reads back as the length of the blob it carries.
   */
  lemma SuccessHeaders(uri: string, env: Env)
    requires ExitOf(uri, env) == Served
    ensures var m := env.magick;
      var reply := ReplyLog([], ExitOf(uri, env), m, [])[0];
      && reply.code == HTTP_OK && reply.body == m.blob && m.blob.Some?
      && reply.headers == Some(HeaderLog([], ExitOf(uri, env), m))
      && var headers := reply.headers.value;
      && |headers| == 3
      && headers[0].name == "Content-Type"
      && (MimeOf(m).Some? ==> headers[0].value == MimeOf(m).value)
      && (MimeOf(m).None? ==> headers[0].value == DEFAULT_MIME)
      && headers[1] == Header("Connection", "close")
      && headers[2].name == "Content-Length"
      && (|m.blob.value| <= LONG_MAX ==> ToLong(Some(headers[2].value), 0).value == |m.blob.value|)
  {
    assert ExitOf(uri, env) == RoutedExit(env) == JobExit(env) == ImageExit(SizesOf(env), env);
    ServedReplyHeaders(env.magick);
  }

  /** SuccessHeaders for the engine's answers alone. */
  lemma ServedReplyHeaders(m: Engine)
    requires m.blob.Some?
    ensures var reply := ReplyLog([], Served, m, [])[0];
      && reply.code == HTTP_OK && reply.body == m.blob
      && reply.headers == Some(HeaderLog([], Served, m))
      && var headers := reply.headers.value;
      && |headers| == 3
      && headers[0].name == "Content-Type"
      && (MimeOf(m).Some? ==> headers[0].value == MimeOf(m).value)
      && (MimeOf(m).None? ==> headers[0].value == DEFAULT_MIME)
      && headers[1] == Header("Connection", "close")
      && headers[2].name == "Content-Length"
      && (|m.blob.value| <= LONG_MAX ==> ToLong(Some(headers[2].value), 0).value == |m.blob.value|)
  {
    var headers := HeaderLog([], Served, m);
    assert headers == [Header("Content-Type", ContentType(m))] + LengthHeaders(|m.blob.value|);
    if |m.blob.value| <= LONG_MAX {
      ContentLengthReadsBack(|m.blob.value|);
    }
  }

  /**
   * Line 309 as written: a request that is served gets its 200 and then
   * the 404; every other request gets the one reply meant for its exit.
   */
  lemma AsWrittenReplies(uri: string, env: Env)
    ensures var e := ExitOf(uri, env);
      ReplyLog([], e, env.magick, []) == [Reply(e, env.magick, [])] + (if e == Served then [NotFound] else [])
  {
  }

  /** The corrected handler's replies are those of the handler as written without the trailing 404 of a served request. */
  lemma FixDropsOnlyTrailingNotFound(log: seq<Response>, e: Exit, m: Engine, headers: seq<Header>)
    ensures ReplyLog(log, e, m, headers) == FixedReplyLog(log, e, m, headers) + (if e == Served then [NotFound] else [])
  {
  }

  /**
   * A request for an existing image, every library call succeeding: the
   * path decodes to itself, the MIME type is found and the blob is one byte.
   */
  function ServedEnv(query: map<string, string>): (env: Env)
    ensures env.query == Some(query) && env.magick.readOk && env.magick.blob.Some? && env.evbufferOk
  {
    Env(Parsed(Some("/thumb/cat.png")), p => Some(p), true, Some(query), 0, true,
        Engine(true, 640, 480, (a, b, c) => c, true, Some("PNG"), f => Some("image/png"), Some([0x89])))
  }

  /** The file name of `/thumb/cat.png` is `cat.png`. */
  lemma CatFilename(query: map<string, string>)
    ensures FileOf(ServedEnv(query)) == Some("cat.png")
  {
    var env := ServedEnv(query);
    assert DecodedPathOf(env.uri, env.decode) == Some("/thumb/cat.png");
    assert "/thumb" + "/" + "cat.png" == "/thumb/cat.png";
    LastSegmentOfJoin("/thumb", "cat.png");
  }

  /** Both example URIs pass the route test: one segment after HANDLER_PATH, no '/' in the query. */
  lemma CatRouted()
    ensures Routed("/thumb/cat.png") && Routed("/thumb/cat.png?w=100")
  {
    RoutedShape("/thumb/cat.png");
    assert "/thumb/cat.png"[|HANDLER_PATH|..] == "cat.png";
    RoutedShape("/thumb/cat.png?w=100");
    assert "/thumb/cat.png?w=100"[|HANDLER_PATH|..] == "cat.png?w=100";
  }

  /** With no query parameters and every library call succeeding, `/thumb/cat.png` is served unresized. */
  lemma CatServed()
    ensures SizesOf(ServedEnv(map[])) == Sizes(0, 0)
    ensures ExitOf("/thumb/cat.png", ServedEnv(map[])) == Served
  {
    var env := ServedEnv(map[]);
    CatRouted();
    CatFilename(map[]);
    assert ReadSizes(map[], 0) == Sizes(0, 0);
    assert ImageExit(Sizes(0, 0), env) == Served;
  }

  /** The output headers of the served `/thumb/cat.png`: its PNG type and its one-byte length. */
  const CatHeaders: seq<Header> :=
    [Header("Content-Type", "image/png"), Header("Connection", "close"), Header("Content-Length", "1")]

  lemma CatHeadersAdded()
    ensures HeaderLog([], Served, ServedEnv(map[]).magick) == CatHeaders
  {
    var m := ServedEnv(map[]).magick;
    assert MimeOf(m) == Some("image/png");
    assert Decimal(1) == "1";
  }

  /**
   * `GET /thumb/cat.png` to the handler as written: the image goes out with
   * 200 and its headers, and then a 404 "Document was not found" is sent on
   * the same request.
   */
  lemma ServedThenNotFound()
    ensures var env := ServedEnv(map[]);
      ReplyLog([], ExitOf("/thumb/cat.png", env), env.magick, []) ==
        [Response(HTTP_OK, Some("OK"), Some([0x89]), Some(CatHeaders)),
         Response(HTTP_NOTFOUND, Some(NOT_FOUND_MESSAGE), None, None)]
  {
    CatServed();
    CatHeadersAdded();
  }

  /** The same request to the corrected handler gets the 200 alone. */
  lemma FixedServedOnce()
    ensures var env := ServedEnv(map[]);
      FixedReplyLog([], ExitOf("/thumb/cat.png", env), env.magick, []) ==
        [Response(HTTP_OK, Some("OK"), Some([0x89]), Some(CatHeaders))]
  {
    CatServed();
    CatHeadersAdded();
  }

  /**
   * `GET /thumb/cat.png?w=100` to the handler as written: the entries
   * `evhttp_parse_query` allocated for the query are still held when the
   * handler returns, since nothing calls `evhttp_clear_headers`.
   */
  lemma QueryListLeaks()
    ensures Leaked("/thumb/cat.png?w=100", ServedEnv(map["w" := "100"])) == {QueryList}
  {
    CatRouted();
    CatFilename(map["w" := "100"]);
    assert "w" in map["w" := "100"];
  }
}
