/**
 * Which request URIs reach the thumbnail handler, and which file name
 * `s_get_filename` extracts from them.
 */
module Routing {
  import opened Wrappers
  import opened CString

  /** HANDLER_PATH: the prefix of every thumbnail request. */
  const HANDLER_PATH: string := "/thumb/"

  /**
   * The route test of `s_create_thumbnail_cb`: the raw URI begins with
   * HANDLER_PATH and holds exactly two '/' in all, query string included.
   */
  predicate Routed(uri: string)
  {
    HANDLER_PATH <= uri && Occurrences(uri, '/') == 2
  }

  /**
   * A URI is routed exactly when it is HANDLER_PATH followed by text without
   * any '/': one path segment, and no '/' in the query string either.
   */
  lemma RoutedShape(uri: string)
    ensures Routed(uri) <==> HANDLER_PATH <= uri && '/' !in uri[|HANDLER_PATH|..]
  {
    if HANDLER_PATH <= uri {
      var rest := uri[|HANDLER_PATH|..];
      assert uri == HANDLER_PATH + rest;
      OccurrencesAppend(HANDLER_PATH, rest, '/');
      assert Occurrences(HANDLER_PATH, '/') == 2 by {
        assert HANDLER_PATH[..|HANDLER_PATH| - 1] == "/thumb";
        assert "/thumb"[..|"/thumb"| - 1] == "/thum";
        assert "/thum"[..|"/thum"| - 1] == "/thu";
        assert "/thu"[..|"/thu"| - 1] == "/th";
        assert "/th"[..|"/th"| - 1] == "/t";
        assert "/t"[..|"/t"| - 1] == "/";
        assert "/"[..|"/"| - 1] == "";
      }
      OccurrencesZero(rest, '/');
    }
  }

  /**
   * What `evhttp_uri_parse` and `evhttp_uri_get_path` give for the raw URI:
   * a parse failure, or the path component (NULL when there is none).
   */
  datatype UriParse = Unparsable | Parsed(path: Option<string>)

  /**
   * The name after the last '/' of a decoded path, read as a C string (a
   * NUL decoded from "%00" ends it), or None when the path has no '/'.
   */
  function LastSegment(decoded: seq<char>): (r: Option<string>)
    ensures r.None? <==> '/' !in CStr(decoded)
    ensures r.Some? ==> '/' !in r.value && NUL !in r.value
    ensures r.Some? ==> var s := CStr(decoded);
      |r.value| < |s| && s[|s| - |r.value| - 1] == '/' && s[|s| - |r.value|..] == r.value
  {
    var s := CStr(decoded);
    match LastIndexOf(s, '/')
    case None => None
    case Some(i) => Some(s[i + 1..])
  }

  /**
   * The first half of `s_get_filename`: the path of the parsed URI,
   * percent-decoded by `decode` (`evhttp_uridecode`); None when the URI does
   * not parse, has no path, or the decoder fails.
   */
  function DecodedPathOf(uri: UriParse, decode: string -> Option<seq<char>>): Option<seq<char>>
  {
    match uri
    case Unparsable => None
    case Parsed(path) => if path.None? then None else decode(path.value)
  }

  /**
   * `s_get_filename`: what follows the last '/' of the decoded path, copied
   * by `strdup` (which fails when `dupOk` is false). None is NULL.
   */
  function FilenameOf(uri: UriParse, decode: string -> Option<seq<char>>, dupOk: bool): (r: Option<string>)
    ensures r.Some? <==> DecodedPathOf(uri, decode).Some? && LastSegment(DecodedPathOf(uri, decode).value).Some? && dupOk
    ensures r.Some? ==> r == LastSegment(DecodedPathOf(uri, decode).value)
  {
    match DecodedPathOf(uri, decode)
    case None => None
    case Some(decoded) => if !dupOk then None else LastSegment(decoded)
  }

  /** A further path segment makes the URI miss the route. */
  lemma NestedPathNotRouted()
    ensures !Routed("/thumb/a/b/c")
  {
    RoutedShape("/thumb/a/b/c");
    assert "/thumb/a/b/c"[|HANDLER_PATH|..][1] == '/';
  }

  /** A '/' in the query string makes the URI miss the route as well. */
  lemma QuerySlashNotRouted()
    ensures !Routed("/thumb/cat.png?x=/")
  {
    RoutedShape("/thumb/cat.png?x=/");
    assert "/thumb/cat.png?x=/"[|HANDLER_PATH|..][10] == '/';
  }

  /** The name after a '/' that is followed by no other '/' is the last segment. */
  lemma LastSegmentOfJoin(dir: string, name: string)
    requires NUL !in dir && NUL !in name && '/' !in name
    ensures LastSegment(dir + "/" + name) == Some(name)
  {
    var s := dir + "/" + name;
    CStrOfUnterminated(s);
    assert s[|dir|] == '/';
    assert s[|s| - |name|..] == name;
  }

  /** An encoded "%2F" is not a '/' for the route test. */
  lemma EncodedSlashRouted()
    ensures Routed("/thumb/a%2Fb.png")
  {
    RoutedShape("/thumb/a%2Fb.png");
    assert "/thumb/a%2Fb.png"[|HANDLER_PATH|..] == "a%2Fb.png";
  }

  /**
   * Decoding comes before the search for the last '/', so for the URI of
   * EncodedSlashRouted the file name is the part after the decoded '/'.
   */
  lemma EncodedSlashSelectsLastDecodedSegment(decode: string -> Option<seq<char>>)
    requires decode("/thumb/a%2Fb.png") == Some("/thumb/a/b.png")
    ensures FilenameOf(Parsed(Some("/thumb/a%2Fb.png")), decode, true) == Some("b.png")
  {
    var path, decoded := "/thumb/a%2Fb.png", "/thumb/a/b.png";
    var dir, name := "/thumb/a", "b.png";
    assert NUL !in dir && NUL !in name && '/' !in name;
    assert dir + "/" + name == decoded;
    LastSegmentOfJoin(dir, name);
    assert DecodedPathOf(Parsed(Some(path)), decode) == Some(decoded);
    assert FilenameOf(Parsed(Some(path)), decode, true) == LastSegment(decoded);
  }
}
