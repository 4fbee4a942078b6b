# thumby request handler, modelled in Dafny

thumby is a small HTTP thumbnail server. A worker thread runs a libevent
loop that owns one ImageMagick `MagickWand`. For every request it calls
`s_create_thumbnail_cb` in `src/main.c`, which does the following:

- It accepts only URIs of the form `/thumb/<file>` with exactly two `/`.
- It takes the file name after the last `/` of the percent-decoded path.
- It reads the `w` and `h` query parameters with `strtol` and normalises
  them into 0..1920 and 0..1080, where 0 means "derive from the other
  size", and both 0 means "do not resize".
- It reads the file, thumbnails it, sets Content-Type, Connection and
  Content-Length, and replies 200 with the encoded image.
- On failure it jumps to `error_reply`. That frees the file name and the
  blob, clears the wand and sends the recorded status.

This project models that per-request path, with these modules:

- `CString` (cstring.dfy): C strings as character sequences read up to
  their NUL, `s_count_chr` as a loop, and `strrchr`.
- `Numbers` (numbers.dfy): `strtol` base 10, `s_to_long` with the value
  `errno` holds when it is first entered, and the `%ld` formatting of `snprintf`.
- `Routing` (routing.dfy): the route test and `s_get_filename`.
- `Params` (params.dfy): `s_find_header_long` and the clamping of `w`
  and `h`.
- `Magick` (magick.dfy): the MagickWand as a class that records every
  call made on it, the decision logic of `s_resize_image`, and the
  Content-Type choice of `s_set_mimetype`.
- `Http` (http.dfy): the libevent request as a class that records the
  output headers and the replies sent, plus `s_set_headers`.
- `Heap` (heap.dfy): the heap buffers a request holds, as a set that
  allocation grows and release shrinks. Releasing a buffer that is not
  held fails verification.
- `Thumbnail` (thumbnail.dfy): what a request does, as values. This
  covers the exit it takes, the replies, the headers, the wand calls, and
  the buffers still held when it returns.
- `Handler` (handler.dfy): `s_create_thumbnail_cb` and its helpers as
  methods on the request, the wand and the heap. Each is proved to do
  exactly what `Thumbnail` says.
- `Outcomes` (outcomes.dfy): what those values mean. This covers the
  status selection, the wand discipline, the pass-through case, the
  success headers, and the two defects listed under Findings.

ImageMagick, libevent and the C library are not modelled. Their answers
for one request are fields of `Thumbnail.Env` and `Magick.Engine`. These
fields record:

- whether the URI parses and what its path is;
- the percent-decoder, as a function;
- whether `strdup`, `evhttp_parse_query` and `evbuffer_new` succeed;
- the parsed query, as the map `evhttp_find_header` reads;
- `errno` when `s_to_long` is first entered, after the URI, decoding,
  `strdup` and query calls may have set it;
- whether the read and the thumbnail succeed;
- the source size;
- the aspect-ratio arithmetic, as a function;
- the format, its MIME type, and the blob.

The handler is proved for every combination of these answers.

Where the code and the intended design differ, the model follows the
code:

- A query string that `evhttp_parse_query` rejects does not fall back to
  "no size". The image block is skipped and the request gets the 404 of
  line 309.
- `/thumb/` yields an empty file name, not NULL. So it does not get the
  400: it goes on to `MagickReadImage("")`.
- When the blob or the event buffer fails, the Content-Type the handler
  added is still in the request's output headers when `evhttp_send_error`
  is called. What libevent's error page then sends is not modelled.

## Model

| member | source | states |
|---|---|---|
| CString.CountChr | src/main.c:97-106 | the count is the number of characters equal to `chr` before the NUL terminator; the loop stops at the NUL |
| CString.OccurrencesArePositions | src/main.c:97-106 | that count is exactly the number of positions of the string holding `chr` |
| CString.CStr | src/main.c:101 | a C string is the longest NUL-free prefix of its buffer, and the NUL follows it |
| CString.LastIndexOf | src/main.c:161 | `strrchr`: None exactly when the character is absent; otherwise the index holds it and no later position does |
| Numbers.Strtol | src/main.c:115 | `strtol` base 10: the value of the spaces-sign-digits prefix (0 without digits); out of `long` range it is clamped to LONG_MAX or LONG_MIN and reported as overflow |
| Numbers.ToLong | src/main.c:109-122 | `s_to_long`: -1 for NULL; otherwise -1 or a value in `long` range |
| Numbers.CleanToLong | src/main.c:109-122 | with a clean `errno`, ERANGE is set exactly on overflow; an overflow gives -1; without overflow the result is the prefix value (which may itself be -1) |
| Numbers.SkipSpace | src/main.c:115 | `strtol` skips exactly the leading white space: what it drops is all white space and what remains does not start with it |
| Numbers.NoDigitsIsZero | src/main.c:115-121 | text with no digit after its spaces and sign converts to 0 |
| Numbers.Decimal | src/main.c:232 | `%ld` of a non-negative value: a non-empty digit string without a leading zero |
| Numbers.DecimalValue | src/main.c:232 | the digits of `%ld` have the printed value |
| Numbers.DecimalRoundTrip | src/main.c:232 | reading the printed length back with `s_to_long` gives the length |
| Routing.RoutedShape | src/main.c:254 | a URI is routed exactly when it is `/thumb/` followed by text holding no `/`, query string included |
| Routing.NestedPathNotRouted | src/main.c:254 | `/thumb/a/b/c` is not routed |
| Routing.QuerySlashNotRouted | src/main.c:254 | a `/` in the query string makes the URI miss the route |
| Routing.EncodedSlashRouted | src/main.c:254 | an encoded `%2F` does not count as a `/` for the route test |
| Routing.LastSegment | src/main.c:161-166 | None exactly when the decoded path has no `/`; otherwise the suffix after its last `/`, which holds no `/` and may be empty |
| Routing.LastSegmentOfJoin | src/main.c:161-166 | for `dir + "/" + name` with no `/` in `name`, the file name is `name` |
| Routing.FilenameOf | src/main.c:139-170 | `s_get_filename` is NULL exactly when the URI does not parse, has no path, does not decode, has no `/`, or `strdup` fails; otherwise the last segment |
| Routing.EncodedSlashSelectsLastDecodedSegment | src/main.c:153-166 | decoding happens before the search, so `/thumb/a%2Fb.png` names `b.png` |
| Params.FindHeaderLong | src/main.c:173-181 | -1 with `errno` untouched for a missing key; otherwise the `s_to_long` result |
| Params.Normalize | src/main.c:267-271 | a negative or over-limit value becomes 0; a value in range is kept; the result is at most the limit |
| Params.ReadSizes | src/main.c:265-271 | the normalised width is at most 1920 and the height at most 1080 |
| Params.StaleErrnoHarmless | src/main.c:115-118 | whatever `errno` holds when `s_to_long` is entered, the normalised size equals the one a clean `errno` gives |
| Params.ReadSizesAreRequested | src/main.c:265-271 | each size is 0 when its parameter is missing, overflows, is negative or is over the limit; otherwise it is the parameter's value |
| Params.OverLimitWidthIsAbsent | src/main.c:267-268 | a width over 1920 is treated as a missing `w` |
| Params.WidthFiveThousandIsZero | src/main.c:267-268 | `w=5000` normalises to 0 |
| Magick.ResizeTarget | src/main.c:186-199 | no thumbnail when both sizes are 0; otherwise each given size is passed unchanged and a 0 one is derived from the other |
| Magick.ResizeCallsThumbnailOnce | src/main.c:184-205 | both sizes 0: no call and success; otherwise MagickThumbnailImage is called once, last, with the target, and its result is returned |
| Magick.Wand.ResizeImage | src/main.c:184-205 | `s_resize_image` makes exactly the calls of `ResizeCalls` on the wand and returns `ResizeSucceeds` |
| Magick.ContentType | src/main.c:208-222 | the Content-Type is the detected MIME type, or `application/octet-stream` when none is found |
| Http.SetHeaders | src/main.c:225-237 | adds `Connection: close` and then `Content-Length` with the length |
| Http.ContentLengthReadsBack | src/main.c:231-236 | the Content-Length value reads back as the body length |
| Thumbnail.ImageExit | src/main.c:273-295 | every outcome after the query parses reaches the read; a served image has a blob |
| Thumbnail.JobExit | src/main.c:263-307 | the image is read exactly when the query parses |
| Thumbnail.RoutedExit | src/main.c:256-307 | a routed request reads the image only with a file name and a parsed query |
| Thumbnail.ImageCallLogFrom | src/main.c:273-290 | the calls of lines 273-290 extend whatever the shared wand held before |
| Thumbnail.WandCallsAppend | src/main.c:273-318 | the calls a request makes on a wand holding earlier calls are those calls followed by `WandCalls` of the request |
| Thumbnail.ExitOf | src/main.c:254-307 | a request reads the image only when it is routed, has a file name and has a parsed query |
| Handler.DecodePath | src/main.c:141-158 | returns the decoded path or NULL as the libraries answer; the parsed URI is released on every path; only the decoded path is still held |
| Handler.GetFilename | src/main.c:139-170 | returns `FileOf(env)`; the decoded path is released; only the copied name is still held |
| Handler.ParseQuery | src/main.c:263 | returns the parsed query; its entries are held when there are any |
| Handler.GetMimetype | src/main.c:125-136 | returns the MIME type for the format, or NULL; the format name is released; one format query on the wand |
| Handler.SetMimetype | src/main.c:208-222 | adds one Content-Type header with `ContentType`; holds no new buffer |
| Handler.NormalizeSizes | src/main.c:265-271 | the sizes are `ReadSizes` of the query |
| Handler.IsThumbnailRequest | src/main.c:254 | the route test, with `s_count_chr` evaluated only after the prefix matches, equals `Routed` |
| Handler.Respond | src/main.c:285-305 | Content-Type; fails without a blob or a buffer, with the blob still held; otherwise adds the two length headers and sends a 200 with the blob written with exactly those three added headers, then releases the buffer and the blob and clears the wand |
| Handler.ProcessImage | src/main.c:273-305 | the outcome is `ImageExit`; on failure, the code, message and image data `error_reply` sees are `ErrorStatus` and the blob exactly for a failed buffer; the wand calls, headers, replies and held buffers follow the tables |
| Handler.RunJob | src/main.c:262-307 | the outcome is `JobExit`; jumps to `error_reply` exactly for a failure after the read; frees the name otherwise; the parsed query stays held on every path |
| Handler.ErrorReply | src/main.c:312-320 | releases the name and, when present, the blob; clears the wand once; sends the recorded code and message |
| Handler.CreateThumbnail | src/main.c:240-322 | replies `ReplyLog` (one reply per exit, and 200 then 404 when served); headers `HeaderLog`; the wand's calls are the earlier ones followed by `WandCalls` of this request; only the parsed query is still held |
| Handler.HandleRouted | src/main.c:256-320 | the same for a routed URI, in terms of `RoutedExit` |
| Handler.HandleNamed | src/main.c:262-320 | the same once the file name is known, in terms of `JobExit`: the job, then the 404 of line 309 or `error_reply` |
| Handler.ClearQuery | src/main.c:263-306 | `evhttp_clear_headers` releases the parsed query's entries |
| Handler.RunJobFixed | src/main.c:262-307 | as `RunJob`, and nothing but the name and the blob of a failure stays held; reports a served image |
| Handler.HandleRoutedFixed | src/main.c:256-320 | as `HandleRouted` with one reply per request and nothing held on return |
| Handler.CreateThumbnailFixed | src/main.c:240-322 | the corrected handler: exactly the one reply meant for its exit, the same headers, the earlier wand calls followed by `WandCalls`, and nothing held on return |
| Outcomes.NotRoutedIsNotFound | src/main.c:254-309 | a URI fails the route exactly when its exit is NotRouted; it then gets one 404, no header, no wand call and holds nothing |
| Outcomes.NoFilenameIsBadRequest | src/main.c:256-260 | a routed URI without a file name gets 400 and returns at once: no header, no wand call, nothing held |
| Outcomes.StatusSelection | src/main.c:250-320 | unparsable query: 404; failed read: 404 "Document was not found"; failed resize, missing blob or failed buffer: 500 "Internal Server Error"; otherwise 200 with the blob, written with the headers the handler added |
| Outcomes.ImageCallsShape | src/main.c:273-290 | the wand calls before the clear: the read, then the resize calls unless the read failed, then the format and blob queries once the resize succeeded |
| Outcomes.ImageCallsKeepImage | src/main.c:273-290 | the first of those calls reads the file and none clears the wand |
| Outcomes.WandReadThenClearedOnce | src/main.c:273-318 | a request makes wand calls exactly when it reaches the read; they then start with the read of its own file and clear the wand exactly once, last, on success and on every error |
| Outcomes.ThumbnailCalls | src/main.c:184-205 | after a successful read, sizes 0 and 0 pass through without MagickThumbnailImage; otherwise it is called exactly once, with each non-zero size unchanged |
| Outcomes.ThumbnailOfRequestedSize | src/main.c:265-281 | the same, in terms of the `w` and `h` the request asked for |
| Outcomes.SuccessHeaders | src/main.c:284-301 | the 200 of a served image carries the blob and is written with exactly the output headers the handler added: Content-Type (the MIME type or the default), `Connection: close`, and a Content-Length that reads back as the blob length |
| Outcomes.ServedReplyHeaders | src/main.c:284-301 | the same for the library answers alone |
| Outcomes.CatHeadersAdded | src/main.c:284-299 | the served `/thumb/cat.png` adds `Content-Type: image/png`, `Connection: close` and `Content-Length: 1` |
| Outcomes.AsWrittenReplies | src/main.c:297-309 | every exit gets the reply meant for it; a served request then also gets the 404 |
| Outcomes.FixDropsOnlyTrailingNotFound | src/main.c:297-309 | the corrected replies are the as-written ones without the trailing 404 of a served request |
| Outcomes.CatFilename | src/main.c:139-170 | the file name of `/thumb/cat.png` is `cat.png` |
| Outcomes.CatRouted | src/main.c:254 | `/thumb/cat.png` and `/thumb/cat.png?w=100` are routed |
| Outcomes.CatServed | src/main.c:254-303 | `/thumb/cat.png` with every library call succeeding is served unresized |
| Outcomes.ServedThenNotFound | src/main.c:297-309 | that request gets the 200 with its three headers and then a 404 from the handler as written |
| Outcomes.FixedServedOnce | src/main.c:297-309 | that request gets the 200 with its three headers alone from the corrected handler |
| Outcomes.QueryListLeaks | src/main.c:263-306 | `/thumb/cat.png?w=100` leaves the parsed query held when the handler as written returns |

## Left out

- Socket setup, `s_daemonize`, argument and port handling in `main`, the
  worker pool, `s_dispatch` and `s_time_to_go`: these are OS plumbing,
  threads and event dispatch, with no per-request logic.
- The aspect-ratio arithmetic of `s_resize_image` (lines 188-198) is a
  double division truncated to `long`. It is the `derive` function of
  `Magick.Engine`, and only the branch structure around it is modelled.
- ImageMagick and libevent are not modelled. Their answers are fields of
  `Env` and `Engine`; libevent's own error page (its body and the headers
  it is sent with) and the socket write are not modelled. A reply sent
  with `evhttp_send_reply` records the output headers held at the call.
- `evhttp_parse_query` is modelled as the map `evhttp_find_header` reads.
  - Duplicate keys collapse to the value found first.
  - The query holds entries exactly when that map is non-empty.
- `evbuffer_add`'s result is ignored by the source, and the model ignores
  it too. The reply body is the blob.
- Numbers.Strtol follows glibc in the C locale. Input with no digits gives
  0 and leaves `errno` alone, where BSD and macOS set EINVAL and
  `s_to_long` would then return -1; the normalised size is 0 either way.
  `long` is 64 bits wide and ERANGE is 34.
- `size_t` for the data length is an unbounded `nat`.
  `Outcomes.SuccessHeaders` states the read-back of Content-Length only
  for lengths up to LONG_MAX.
- The wand is shared by all requests of a worker. The model proves the
  calls of one request; the state between requests follows from the
  single clear at the end.

## Findings

| source | as written | input that shows it | evidently intended | confidence | as-written member | corrected member |
|---|---|---|---|---|---|---|
| src/main.c:297-309 | after the 200 reply, control falls out of the `if` and reaches `evhttp_send_error(req, HTTP_NOTFOUND, ...)`, so a second reply is sent on a request already answered | `GET /thumb/cat.png` with the file readable and every library call succeeding | return after the 200, so a served image gets exactly one reply | not executed; high | Outcomes.ServedThenNotFound | Outcomes.FixedServedOnce |
| src/main.c:263-306 | the list `evhttp_parse_query` fills is never released with `evhttp_clear_headers`, on success or on the `error_reply` path | `GET /thumb/cat.png?w=100` | clear the parsed query once the sizes are read | not executed; high | Outcomes.QueryListLeaks | Handler.CreateThumbnailFixed |
