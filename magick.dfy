/**
 * The ImageMagick side of a request: what the library answers, the calls
 * the handler makes on its worker's MagickWand, and the decision logic of
 * `s_resize_image` and `s_set_mimetype`.
 */
module Magick {
  import opened Wrappers
  import opened Heap

  /**
   * What ImageMagick answers while one request is handled: whether the file
   * reads, the source size, the aspect-ratio arithmetic (a double division
   * truncated to `long`, taken as given: `derive(sourceOnMissingAxis,
   * sourceOnGivenAxis, given)`), whether the thumbnail succeeds, the image
   * format, its MIME type, and the encoded blob.
   */
  datatype Engine = Engine(
    readOk: bool,
    width: nat,
    height: nat,
    derive: (nat, nat, int) -> int,
    thumbnailOk: bool,
    format: Option<string>,
    toMime: string -> Option<string>,
    blob: Option<seq<bv8>>)

  /** The calls made on a MagickWand, in order. */
  datatype WandCall =
    | MagickReadImage(filename: string)
    | MagickGetImageWidth
    | MagickGetImageHeight
    | MagickThumbnailImage(columns: int, rows: int)
    | MagickGetImageFormat
    | MagickGetImageBlob
    | ClearMagickWand

  /**
   * The size `s_resize_image` hands to MagickThumbnailImage, or None when
   * both sizes are 0 and the image passes through unresized. A dimension
   * that is given is passed unchanged; a 0 one is derived from the other.
   */
  function ResizeTarget(width: int, height: int, m: Engine): (t: Option<(int, int)>)
    ensures t.None? <==> width == 0 && height == 0
    ensures t.Some? && width != 0 ==> t.value.0 == width
    ensures t.Some? && height != 0 ==> t.value.1 == height
    ensures width == 0 && height != 0 ==> t.value.0 == m.derive(m.width, m.height, height)
    ensures width != 0 && height == 0 ==> t.value.1 == m.derive(m.height, m.width, width)
  {
    if width == 0 && height == 0 then None
    else if width == 0 then Some((m.derive(m.width, m.height, height), height))
    else if height == 0 then Some((width, m.derive(m.height, m.width, width)))
    else Some((width, height))
  }

  /** The wand calls `s_resize_image` makes. */
  function ResizeCalls(width: int, height: int, m: Engine): seq<WandCall>
  {
    match ResizeTarget(width, height, m)
    case None => []
    case Some((w, h)) =>
      (if width == 0 || height == 0 then [MagickGetImageWidth, MagickGetImageHeight] else []) + [MagickThumbnailImage(w, h)]
  }

  /** Whether `s_resize_image` reports success. */
  predicate ResizeSucceeds(width: int, height: int, m: Engine)
  {
    ResizeTarget(width, height, m).None? || m.thumbnailOk
  }

  /**
   * With both sizes 0 nothing is called and the resize succeeds; otherwise
   * MagickThumbnailImage is called exactly once, last, with the target size,
   * and its answer is the result.
   */
  lemma ResizeCallsThumbnailOnce(width: int, height: int, m: Engine)
    ensures width == 0 && height == 0 ==> ResizeCalls(width, height, m) == [] && ResizeSucceeds(width, height, m)
    ensures (width != 0 || height != 0) ==>
      var calls := ResizeCalls(width, height, m);
      var t := ResizeTarget(width, height, m).value;
      calls != [] && calls[|calls| - 1] == MagickThumbnailImage(t.0, t.1) &&
      (forall i :: 0 <= i < |calls| - 1 ==> !calls[i].MagickThumbnailImage?) &&
      (ResizeSucceeds(width, height, m) <==> m.thumbnailOk)
  {
  }

  /** The MIME type `s_get_mimetype` finds: none without a format, else MagickToMime's answer. */
  function MimeOf(m: Engine): Option<string>
  {
    if m.format.None? then None else m.toMime(m.format.value)
  }

  const DEFAULT_MIME: string := "application/octet-stream"

  /** The Content-Type `s_set_mimetype` sends: the detected type, or the octet-stream default. */
  function ContentType(m: Engine): (t: string)
    ensures MimeOf(m).Some? ==> t == MimeOf(m).value
    ensures MimeOf(m).None? ==> t == DEFAULT_MIME
  {
    match MimeOf(m)
    case Some(mime) => mime
    case None => DEFAULT_MIME
  }

  /**
   * A worker's MagickWand, shared by every request the worker handles.
   * `calls` records every library call made on it, in order: a read attempt
   * (even a failed one) leaves image state in the wand until
   * ClearMagickWand.
   */
  class Wand {
    var calls: seq<WandCall>

    constructor ()
      ensures calls == []
    {
      calls := [];
    }

    method Read(filename: string, m: Engine) returns (ok: bool)
      modifies this
      ensures calls == old(calls) + [MagickReadImage(filename)]
      ensures ok == m.readOk
    {
      calls := calls + [MagickReadImage(filename)];
      ok := m.readOk;
    }

    method Width(m: Engine) returns (w: nat)
      modifies this
      ensures calls == old(calls) + [MagickGetImageWidth] && w == m.width
    {
      calls := calls + [MagickGetImageWidth];
      w := m.width;
    }

    method Height(m: Engine) returns (h: nat)
      modifies this
      ensures calls == old(calls) + [MagickGetImageHeight] && h == m.height
    {
      calls := calls + [MagickGetImageHeight];
      h := m.height;
    }

    method Thumbnail(columns: int, rows: int, m: Engine) returns (ok: bool)
      modifies this
      ensures calls == old(calls) + [MagickThumbnailImage(columns, rows)] && ok == m.thumbnailOk
    {
      calls := calls + [MagickThumbnailImage(columns, rows)];
      ok := m.thumbnailOk;
    }

    /** MagickGetImageFormat: the format name, a buffer the caller must release. */
    method Format(mem: Memory, m: Engine) returns (format: Option<string>)
      requires FormatName !in mem.live
      modifies this, mem
      ensures calls == old(calls) + [MagickGetImageFormat] && format == m.format
      ensures mem.live == old(mem.live) + (if format.Some? then {FormatName} else {})
    {
      calls := calls + [MagickGetImageFormat];
      format := m.format;
      if format.Some? {
        mem.Alloc(FormatName);
      }
    }

    /** MagickGetImageBlob: the encoded image, a buffer the caller must release. */
    method Blob(mem: Memory, m: Engine) returns (blob: Option<seq<bv8>>)
      requires ImageBlob !in mem.live
      modifies this, mem
      ensures calls == old(calls) + [MagickGetImageBlob] && blob == m.blob
      ensures mem.live == old(mem.live) + (if blob.Some? then {ImageBlob} else {})
    {
      calls := calls + [MagickGetImageBlob];
      blob := m.blob;
      if blob.Some? {
        mem.Alloc(ImageBlob);
      }
    }

    /** ClearMagickWand: drops all image state. */
    method Clear()
      modifies this
      ensures calls == old(calls) + [ClearMagickWand]
    {
      calls := calls + [ClearMagickWand];
    }

    /** `s_resize_image`. */
    method ResizeImage(width: int, height: int, m: Engine) returns (ok: bool)
      modifies this
      ensures calls == old(calls) + ResizeCalls(width, height, m)
      ensures ok == ResizeSucceeds(width, height, m)
    {
      var w, h := width, height;
      if w != 0 || h != 0 {
        if w == 0 || h == 0 {
          var imageWidth := Width(m);
          var imageHeight := Height(m);
          if w == 0 {
            w := m.derive(imageWidth, imageHeight, h);
          } else {
            h := m.derive(imageHeight, imageWidth, w);
          }
        }
        ok := Thumbnail(w, h, m);
        if !ok {
          return false;
        }
      }
      return true;
    }
  }
}
