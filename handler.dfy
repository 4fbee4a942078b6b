/**
 * `s_create_thumbnail_cb` and the helpers it calls, as methods on the
 * request, the worker's MagickWand and the buffers held for the request.
 * Each is proved to do what the tables of `Thumbnail` say; every release is
 * checked against the buffers held at that point.
 */
module Handler {
  import opened Wrappers
  import opened CString
  import opened Routing
  import opened Params
  import opened Heap
  import opened Magick
  import opened Http
  import opened Thumbnail

  /**
   * Lines 141-158 of `s_get_filename`: parse the URI, take its path and
   * decode it; the parsed URI is released on every path.
   */
  method DecodePath(mem: Memory, env: Env) returns (decoded: Option<seq<char>>)
    requires ParsedUri !in mem.live && DecodedPath !in mem.live
    modifies mem
    ensures decoded == DecodedPathOf(env.uri, env.decode)
    ensures mem.live == old(mem.live) + (if decoded.Some? then {DecodedPath} else {})
  {
    if env.uri.Unparsable? {
      return None;
    }
    mem.Alloc(ParsedUri);
    var path := env.uri.path;
    if path.None? {
      mem.Free(ParsedUri);
      return None;
    }
    decoded := env.decode(path.value);
    if decoded.None? {
      mem.Free(ParsedUri);
      return None;
    }
    mem.Alloc(DecodedPath);
    mem.Free(ParsedUri);
  }

  /** `s_get_filename`: the name after the last '/' of the decoded path, or None for NULL. */
  method GetFilename(mem: Memory, env: Env) returns (filename: Option<string>)
    requires ParsedUri !in mem.live && DecodedPath !in mem.live && Filename !in mem.live
    modifies mem
    ensures filename == FileOf(env)
    ensures mem.live == old(mem.live) + (if filename.Some? then {Filename} else {})
  {
    var decoded := DecodePath(mem, env);
    if decoded.None? {
      return None;
    }
    var s := CStr(decoded.value);
    var slash := LastIndexOf(s, '/');
    if slash.None? {
      filename := None;
    } else if !env.strdupOk {
      filename := None;
    } else {
      mem.Alloc(Filename);
      filename := Some(s[slash.value + 1..]);
    }
    mem.Free(DecodedPath);
  }

  /** `evhttp_parse_query` on the raw URI; on failure libevent releases its partial list itself. */
  method ParseQuery(mem: Memory, env: Env) returns (values: Option<map<string, string>>)
    requires QueryList !in mem.live
    modifies mem
    ensures values == env.query
    ensures mem.live == old(mem.live) + (if HasQueryList(env) then {QueryList} else {})
  {
    values := env.query;
    if values.Some? && values.value != map[] {
      mem.Alloc(QueryList);
    }
  }

  /** `s_get_mimetype`: the format name is released once MagickToMime has read it. */
  method GetMimetype(wand: Wand, mem: Memory, m: Engine) returns (mime: Option<string>)
    requires FormatName !in mem.live && MimeName !in mem.live
    modifies wand, mem
    ensures mime == MimeOf(m)
    ensures wand.calls == old(wand.calls) + [MagickGetImageFormat]
    ensures mem.live == old(mem.live) + (if mime.Some? then {MimeName} else {})
  {
    var format := wand.Format(mem, m);
    if format.None? {
      return None;
    }
    mime := m.toMime(format.value);
    if mime.Some? {
      mem.Alloc(MimeName);
    }
    mem.Free(FormatName);
  }

  /** `s_set_mimetype`: Content-Type is the detected type or the octet-stream default. */
  method SetMimetype(wand: Wand, req: Request, mem: Memory, m: Engine)
    requires FormatName !in mem.live && MimeName !in mem.live
    modifies wand, req`headers, mem
    ensures wand.calls == old(wand.calls) + [MagickGetImageFormat]
    ensures req.headers == old(req.headers) + [Header("Content-Type", ContentType(m))]
    ensures mem.live == old(mem.live)
  {
    var mime := GetMimetype(wand, mem, m);
    if mime.Some? {
      req.AddHeader("Content-Type", mime.value);
      mem.Free(MimeName);
    } else {
      req.AddHeader("Content-Type", DEFAULT_MIME);
    }
  }

  /**
   * Lines 273-305 of the handler: read, resize, set the MIME type, fetch the
   * blob, build the body and reply 200, releasing the blob and clearing the
   * wand. On a failure it stops where the source jumps to error_reply and
   * returns the `code`, `message` and `image_data` that error_reply sees.
   */
  method ProcessImage(wand: Wand, req: Request, mem: Memory, filename: string, sizes: Sizes, env: Env)
    returns (failed: bool, code: int, message: string, imageData: Option<seq<bv8>>)
    requires env.query.Some? && sizes == SizesOf(env)
    requires FormatName !in mem.live && MimeName !in mem.live && ImageBlob !in mem.live && EventBuffer !in mem.live
    modifies wand, req`headers, req`responses, mem
    ensures var e := JobExit(env);
      && failed == (e != Served)
      && (failed ==> (code, message) == ErrorStatus(e))
      && (failed ==> (imageData.Some? <==> e == NoBuffer))
      && wand.calls == (var log := ImageCallLog(old(wand.calls), e, filename, sizes, env.magick);
                        if failed then log else log + [ClearMagickWand])
      && req.headers == HeaderLog(old(req.headers), e, env.magick)
      && req.responses == OkLog(old(req.responses), e, env.magick, old(req.headers))
      && mem.live == old(mem.live) + (if e == NoBuffer then {ImageBlob} else {})
  {
    assert JobExit(env) == ImageExit(sizes, env);
    code, message, imageData := HTTP_INTERNAL, INTERNAL_MESSAGE, None;
    var m := env.magick;
    var ok := wand.Read(filename, m);
    if !ok {
      return true, HTTP_NOTFOUND, NOT_FOUND_MESSAGE, None;
    }
    ok := wand.ResizeImage(sizes.width, sizes.height, m);
    if !ok {
      return true, code, message, imageData;
    }
    failed, imageData := Respond(wand, req, mem, env);
  }

  /**
   * Lines 285-305: set the Content-Type, fetch the blob, and send it with
   * its length in a new event buffer, releasing both and clearing the wand.
   * A missing blob or buffer stops where the source jumps to error_reply,
   * with the blob, if any, still held.
   */
  method Respond(wand: Wand, req: Request, mem: Memory, env: Env) returns (failed: bool, imageData: Option<seq<bv8>>)
    requires FormatName !in mem.live && MimeName !in mem.live && ImageBlob !in mem.live && EventBuffer !in mem.live
    modifies wand, req`headers, req`responses, mem
    ensures var m := env.magick;
      && failed == !(m.blob.Some? && env.evbufferOk)
      && (failed ==> imageData == (if env.evbufferOk then None else m.blob))
      && wand.calls == (var log := old(wand.calls) + [MagickGetImageFormat] + [MagickGetImageBlob];
                        if failed then log else log + [ClearMagickWand])
      && req.headers == (var log := old(req.headers) + [Header("Content-Type", ContentType(m))];
                         if failed then log else log + LengthHeaders(|m.blob.value|))
      && req.responses == (if failed then old(req.responses)
                           else old(req.responses) + [Ok(m, old(req.headers) + [Header("Content-Type", ContentType(m))] +
                                                             LengthHeaders(|m.blob.value|))])
      && mem.live == old(mem.live) + (if failed && imageData.Some? then {ImageBlob} else {})
  {
    var m := env.magick;
    SetMimetype(wand, req, mem, m);
    imageData := wand.Blob(mem, m);
    if imageData.None? {
      return true, imageData;
    }
    if !env.evbufferOk {
      return true, imageData;
    }
    mem.Alloc(EventBuffer);
    SetHeaders(req, |imageData.value|);
    req.SendReply(HTTP_OK, "OK", imageData.value);
    mem.Free(EventBuffer);
    mem.Free(ImageBlob);
    wand.Clear();
    failed := false;
  }

  /** Lines 265-271: `w` then `h`, each set to 0 when negative, missing or over its limit. */
  method NormalizeSizes(values: map<string, string>, errno: int) returns (sizes: Sizes)
    ensures sizes == ReadSizes(values, errno)
  {
    var w := FindHeaderLong(values, "w", errno);
    var width := w.value;
    if width < 0 || width > MAX_THUMBNAIL_WIDTH {
      width := 0;
    }
    var h := FindHeaderLong(values, "h", w.errno);
    var height := h.value;
    if height < 0 || height > MAX_THUMBNAIL_HEIGHT {
      height := 0;
    }
    sizes := Sizes(width, height);
  }

  /** The route test: the HANDLER_PATH prefix, then `s_count_chr` only when it matches. */
  method IsThumbnailRequest(uri: string) returns (routed: bool)
    requires NUL !in uri
    ensures routed == Routed(uri)
  {
    routed := HANDLER_PATH <= uri;
    if routed {
      var slashes := CountChr(uri + [NUL], '/');
      CStrOfTerminated(uri);
      routed := slashes == 2;
    }
  }

  /**
   * Lines 262-307 of the handler, for a request whose file name was found:
   * parse the query, normalise the sizes, process the image, and free the
   * name unless the code jumped to error_reply, which the result reports
   * together with the `code`, `message` and `image_data` it sees.
   */
  method RunJob(wand: Wand, req: Request, mem: Memory, filename: string, env: Env)
    returns (errorReply: bool, code: int, message: string, imageData: Option<seq<bv8>>)
    requires mem.live == {Filename}
    modifies wand, req`headers, req`responses, mem
    ensures var e := JobExit(env);
      && errorReply == (ReachesImage(e) && e != Served)
      && (errorReply ==> (code, message) == ErrorStatus(e) && (imageData.Some? <==> e == NoBuffer))
      && wand.calls == (var log := ImageCallLog(old(wand.calls), e, filename, SizesOf(env), env.magick);
                        if e == Served then log + [ClearMagickWand] else log)
      && req.headers == HeaderLog(old(req.headers), e, env.magick)
      && req.responses == OkLog(old(req.responses), e, env.magick, old(req.headers))
      && mem.live == (if errorReply then {Filename} else {}) + (if HasQueryList(env) then {QueryList} else {}) +
           (if errorReply && imageData.Some? then {ImageBlob} else {})
  {
    var values := ParseQuery(mem, env);
    if values.None? {
      // evhttp_parse_query failed: straight to line 306
      mem.Free(Filename);
      return false, HTTP_INTERNAL, INTERNAL_MESSAGE, None;
    }
    var sizes := NormalizeSizes(values.value, env.errno);
    errorReply, code, message, imageData := ProcessImage(wand, req, mem, filename, sizes, env);
    if !errorReply {
      mem.Free(Filename);
    }
  }

  /**
   * The error_reply block, lines 312-320: free the name and, when there is
   * one, the blob; clear the wand; send the recorded status and message.
   */
  method ErrorReply(req: Request, wand: Wand, mem: Memory, code: int, message: string, imageData: Option<seq<bv8>>)
    requires Filename in mem.live && (imageData.Some? ==> ImageBlob in mem.live)
    modifies req`responses, wand, mem
    ensures mem.live == old(mem.live) - {Filename} - (if imageData.Some? then {ImageBlob} else {})
    ensures wand.calls == old(wand.calls) + [ClearMagickWand]
    ensures req.responses == old(req.responses) + [Response(code, Some(message), None, None)]
  {
    mem.Free(Filename);
    if imageData.Some? {
      mem.Free(ImageBlob);
    }
    wand.Clear();
    req.SendError(code, Some(message));
  }

  /** `s_create_thumbnail_cb` as written. */
  method CreateThumbnail(req: Request, wand: Wand, mem: Memory, env: Env)
    requires req.Valid() && mem.live == {}
    modifies req`headers, req`responses, wand, mem
    ensures var e := ExitOf(req.uri, env);
      && req.responses == ReplyLog(old(req.responses), e, env.magick, old(req.headers))
      && req.headers == HeaderLog(old(req.headers), e, env.magick)
      && wand.calls == old(wand.calls) + WandCalls(req.uri, env)
      && mem.live == Leaked(req.uri, env)
  {
    WandCallsAppend(wand.calls, req.uri, env);
    var routed := IsThumbnailRequest(req.uri);
    if !routed {
      // the thumbnail block is skipped: line 309
      req.SendError(HTTP_NOTFOUND, Some(NOT_FOUND_MESSAGE));
      return;
    }
    HandleRouted(req, wand, mem, env);
  }

  /** Lines 256-320 of `s_create_thumbnail_cb`, for a URI that passed the route test. */
  method HandleRouted(req: Request, wand: Wand, mem: Memory, env: Env)
    requires mem.live == {}
    modifies req`headers, req`responses, wand, mem
    ensures var e := RoutedExit(env);
      && req.responses == ReplyLog(old(req.responses), e, env.magick, old(req.headers))
      && req.headers == HeaderLog(old(req.headers), e, env.magick)
      && wand.calls == (if ReachesImage(e) then ImageCallLog(old(wand.calls), e, FileOf(env).value, SizesOf(env), env.magick) + [ClearMagickWand]
                        else old(wand.calls))
      && mem.live == (if ReachesImage(e) && HasQueryList(env) then {QueryList} else {})
  {
    var filename := GetFilename(mem, env);
    if filename.None? {
      req.SendError(HTTP_BADREQUEST, None);
      return;
    }
    assert RoutedExit(env) == JobExit(env);
    HandleNamed(req, wand, mem, filename.value, env);
  }

  /**
   * Lines 262-320 of `s_create_thumbnail_cb`, once the file name is known:
   * the job, then the 404 of line 309 or the error_reply block.
   */
  method HandleNamed(req: Request, wand: Wand, mem: Memory, filename: string, env: Env)
    requires mem.live == {Filename}
    modifies req`headers, req`responses, wand, mem
    ensures var e := JobExit(env);
      && req.responses == ReplyLog(old(req.responses), e, env.magick, old(req.headers))
      && req.headers == HeaderLog(old(req.headers), e, env.magick)
      && wand.calls == (if ReachesImage(e) then ImageCallLog(old(wand.calls), e, filename, SizesOf(env), env.magick) + [ClearMagickWand]
                        else old(wand.calls))
      && mem.live == (if ReachesImage(e) && HasQueryList(env) then {QueryList} else {})
  {
    var errorReply, code, message, imageData := RunJob(wand, req, mem, filename, env);
    if !errorReply {
      // past line 307: line 309
      req.SendError(HTTP_NOTFOUND, Some(NOT_FOUND_MESSAGE));
      return;
    }
    ErrorReply(req, wand, mem, code, message, imageData);
  }

  /** `evhttp_clear_headers` on the parsed query: every entry it allocated is released. */
  method ClearQuery(mem: Memory, env: Env)
    requires HasQueryList(env) ==> QueryList in mem.live
    modifies mem
    ensures mem.live == old(mem.live) - (if HasQueryList(env) then {QueryList} else {})
  {
    if env.query.Some? && env.query.value != map[] {
      mem.Free(QueryList);
    }
  }

  /**
   * Lines 262-307 with the query list cleared once the sizes are read, so
   * that no path leaves it held.
   */
  method RunJobFixed(wand: Wand, req: Request, mem: Memory, filename: string, env: Env)
    returns (errorReply: bool, served: bool, code: int, message: string, imageData: Option<seq<bv8>>)
    requires mem.live == {Filename}
    modifies wand, req`headers, req`responses, mem
    ensures var e := JobExit(env);
      && errorReply == (ReachesImage(e) && e != Served)
      && served == (e == Served)
      && (errorReply ==> (code, message) == ErrorStatus(e) && (imageData.Some? <==> e == NoBuffer))
      && wand.calls == (var log := ImageCallLog(old(wand.calls), e, filename, SizesOf(env), env.magick);
                        if e == Served then log + [ClearMagickWand] else log)
      && req.headers == HeaderLog(old(req.headers), e, env.magick)
      && req.responses == OkLog(old(req.responses), e, env.magick, old(req.headers))
      && mem.live == (if errorReply then {Filename} else {}) + (if errorReply && imageData.Some? then {ImageBlob} else {})
  {
    var values := ParseQuery(mem, env);
    if values.None? {
      mem.Free(Filename);
      return false, false, HTTP_INTERNAL, INTERNAL_MESSAGE, None;
    }
    var sizes := NormalizeSizes(values.value, env.errno);
    ClearQuery(mem, env);
    errorReply, code, message, imageData := ProcessImage(wand, req, mem, filename, sizes, env);
    served := !errorReply;
    if served {
      mem.Free(Filename);
    }
  }

  /**
   * `s_create_thumbnail_cb` corrected: it returns after the 200 instead of
   * falling through to the 404 of line 309, and releases the parsed query.
   */
  method CreateThumbnailFixed(req: Request, wand: Wand, mem: Memory, env: Env)
    requires req.Valid() && mem.live == {}
    modifies req`headers, req`responses, wand, mem
    ensures var e := ExitOf(req.uri, env);
      && req.responses == FixedReplyLog(old(req.responses), e, env.magick, old(req.headers))
      && req.headers == HeaderLog(old(req.headers), e, env.magick)
      && wand.calls == old(wand.calls) + WandCalls(req.uri, env)
      && mem.live == {}
  {
    WandCallsAppend(wand.calls, req.uri, env);
    var routed := IsThumbnailRequest(req.uri);
    if !routed {
      req.SendError(HTTP_NOTFOUND, Some(NOT_FOUND_MESSAGE));
      return;
    }
    HandleRoutedFixed(req, wand, mem, env);
  }

  /** Lines 256-320 of the corrected handler, for a URI that passed the route test. */
  method HandleRoutedFixed(req: Request, wand: Wand, mem: Memory, env: Env)
    requires mem.live == {}
    modifies req`headers, req`responses, wand, mem
    ensures var e := RoutedExit(env);
      && req.responses == FixedReplyLog(old(req.responses), e, env.magick, old(req.headers))
      && req.headers == HeaderLog(old(req.headers), e, env.magick)
      && wand.calls == (if ReachesImage(e) then ImageCallLog(old(wand.calls), e, FileOf(env).value, SizesOf(env), env.magick) + [ClearMagickWand]
                        else old(wand.calls))
      && mem.live == {}
  {
    var filename := GetFilename(mem, env);
    if filename.None? {
      req.SendError(HTTP_BADREQUEST, None);
      return;
    }
    assert RoutedExit(env) == JobExit(env);
    var errorReply, served, code, message, imageData := RunJobFixed(wand, req, mem, filename.value, env);
    if served {
      // the added return after the 200
      return;
    }
    if !errorReply {
      req.SendError(HTTP_NOTFOUND, Some(NOT_FOUND_MESSAGE));
      return;
    }
    ErrorReply(req, wand, mem, code, message, imageData);
  }
}
