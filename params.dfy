/**
 * The `w` and `h` query parameters: looked up in the parsed query, read
 * with `s_to_long`, and normalised into the thumbnail limits.
 */
module Params {
  import opened Wrappers
  import opened Numbers

  const MAX_THUMBNAIL_WIDTH: nat := 1920
  const MAX_THUMBNAIL_HEIGHT: nat := 1080

  /**
   * `s_find_header_long`: -1 when the parsed query has no value for `key`,
   * otherwise `s_to_long` of that value. The map holds what
   * `evhttp_find_header` answers for each key.
   */
  function FindHeaderLong(values: map<string, string>, key: string, errno: int): (r: LongResult)
    ensures key !in values ==> r == LongResult(-1, errno)
    ensures key in values ==> r == ToLong(Some(values[key]), errno)
    ensures key in values ==> r.value == -1 || LONG_MIN <= r.value <= LONG_MAX
  {
    if key !in values then LongResult(-1, errno) else ToLong(Some(values[key]), errno)
  }

  /** The normalisation of a size: negative or over `max` becomes 0, the rest is kept. */
  function Normalize(v: int, max: nat): (r: nat)
    ensures r <= max
    ensures v <= max ==> r == if v < 0 then 0 else v
    ensures v > max ==> r == 0
  {
    if v < 0 || v > max then 0 else v
  }

  datatype Sizes = Sizes(width: nat, height: nat)

  /**
   * The sizes as the handler computes them: `w` first, then `h`, each
   * normalised; `errno` flows from the first lookup into the second.
   */
  function ReadSizes(values: map<string, string>, errno: int): (s: Sizes)
    ensures s.width <= MAX_THUMBNAIL_WIDTH && s.height <= MAX_THUMBNAIL_HEIGHT
  {
    var w := FindHeaderLong(values, "w", errno);
    var h := FindHeaderLong(values, "h", w.errno);
    Sizes(Normalize(w.value, MAX_THUMBNAIL_WIDTH), Normalize(h.value, MAX_THUMBNAIL_HEIGHT))
  }

  /**
   * The size a parameter asks for: 0 when it is absent, when it does not
   * convert to a `long`, or when its value is negative or over `max`;
   * otherwise the value of its leading sign and digits.
   */
  function RequestedSize(values: map<string, string>, key: string, max: nat): nat
  {
    if key !in values then 0
    else
      var c := Strtol(values[key]);
      if c.overflow || c.value < 0 || c.value > max then 0 else c.value
  }

  /**
   * Whatever `errno` holds when `s_to_long` is entered, the normalised
   * result is the one a clean `errno` gives: the stale-errno tests only fire
   * on 0, LONG_MAX and LONG_MIN, which normalise to 0 anyway.
   */
  lemma StaleErrnoHarmless(s: seq<char>, errno: int, max: nat)
    requires max < LONG_MAX
    ensures Normalize(ToLong(Some(s), errno).value, max) == Normalize(ToLong(Some(s), 0).value, max)
  {
  }

  /** The handler's sizes are the requested ones, whatever `errno` held on entry. */
  lemma ReadSizesAreRequested(values: map<string, string>, errno: int)
    ensures ReadSizes(values, errno) ==
      Sizes(RequestedSize(values, "w", MAX_THUMBNAIL_WIDTH), RequestedSize(values, "h", MAX_THUMBNAIL_HEIGHT))
  {
    var w := FindHeaderLong(values, "w", errno);
    if "w" in values {
      StaleErrnoHarmless(values["w"], errno, MAX_THUMBNAIL_WIDTH);
    }
    if "h" in values {
      StaleErrnoHarmless(values["h"], w.errno, MAX_THUMBNAIL_HEIGHT);
    }
  }

  /** A width over the limit is treated as if `w` were absent. */
  lemma OverLimitWidthIsAbsent(values: map<string, string>, errno: int)
    requires "w" in values
    requires !Strtol(values["w"]).overflow && Strtol(values["w"]).value > MAX_THUMBNAIL_WIDTH
    ensures ReadSizes(values, errno).width == ReadSizes(values - {"w"}, errno).width == 0
  {
    ReadSizesAreRequested(values, errno);
    ReadSizesAreRequested(values - {"w"}, errno);
  }

  /** `?w=5000`: over the 1920 limit, so the width is 0. */
  lemma WidthFiveThousandIsZero(errno: int)
    ensures ReadSizes(map["w" := "5000"], errno).width == 0
  {
    assert Decimal(5000) == "5000" by {
      assert Decimal(5) == "5";
      assert Decimal(50) == "50";
      assert Decimal(500) == "500";
    }
    DecimalRoundTrip(5000);
    ReadSizesAreRequested(map["w" := "5000"], errno);
  }
}
