/**
 * The heap buffers one request handling can hold. `Memory.live` is the set
 * of those currently held: a buffer is acquired only when not held and
 * released only when held, so every release the handler makes is checked
 * against the buffers it acquired before.
 */
module Heap {
  /** One kind per buffer the handler or its helpers obtain from a library. */
  datatype Res =
    | ParsedUri     // evhttp_uri_parse, released with evhttp_uri_free
    | DecodedPath   // evhttp_uridecode, released with free
    | Filename      // strdup in s_get_filename, released with free
    | QueryList     // entries evhttp_parse_query adds, released with evhttp_clear_headers
    | FormatName    // MagickGetImageFormat, released with MagickRelinquishMemory
    | MimeName      // MagickToMime, released with MagickRelinquishMemory
    | ImageBlob     // MagickGetImageBlob, released with MagickRelinquishMemory
    | EventBuffer   // evbuffer_new, released with evbuffer_free

  /** The buffers one request handling holds. */
  class Memory {
    var live: set<Res>

    constructor ()
      ensures live == {}
    {
      live := {};
    }

    method Alloc(r: Res)
      requires r !in live
      modifies this
      ensures live == old(live) + {r}
    {
      live := live + {r};
    }

    /** Releasing a buffer that is not held (twice, or never acquired) is refused. */
    method Free(r: Res)
      requires r in live
      modifies this
      ensures live == old(live) - {r}
    {
      live := live - {r};
    }
  }
}
