/**
 * C strings as the service sees them: a buffer of characters read up to
 * its NUL terminator, the character count of `s_count_chr` and the
 * last-occurrence search of `strrchr`.
 */
module CString {
  import opened Wrappers

  const NUL: char := '\0'

  /** The characters a C string function sees in `buf`: everything before the first NUL. */
  function CStr(buf: seq<char>): (s: seq<char>)
    ensures s <= buf
    ensures NUL !in s
    ensures |s| < |buf| ==> buf[|s|] == NUL
  {
    if buf == [] || buf[0] == NUL then [] else [buf[0]] + CStr(buf[1..])
  }

  /** A buffer holding a NUL terminator stops a C string scan before its end. */
  lemma TerminatedIsShorter(buf: seq<char>)
    requires NUL in buf
    ensures |CStr(buf)| < |buf|
  {
    assert |CStr(buf)| == |buf| ==> CStr(buf) == buf;
  }

  /** A buffer without NUL reads back whole. */
  lemma CStrOfUnterminated(s: seq<char>)
    requires NUL !in s
    ensures CStr(s) == s
  {
  }

  /** A string without NUL, followed by its terminator, reads back as itself. */
  lemma {:induction false} CStrOfTerminated(s: seq<char>)
    requires NUL !in s
    ensures CStr(s + [NUL]) == s
  {
    if s != [] {
      assert (s + [NUL])[1..] == s[1..] + [NUL];
      CStrOfTerminated(s[1..]);
    }
  }

  /** Number of positions of `s` holding `c`, counted from the front. */
  function Occurrences(s: seq<char>, c: char): nat
  {
    if s == [] then 0
    else Occurrences(s[..|s| - 1], c) + (if s[|s| - 1] == c then 1 else 0)
  }

  /** The set of positions of `s` holding `c`. */
  function Positions(s: seq<char>, c: char): set<nat>
  {
    set i: nat | i < |s| && s[i] == c
  }

  /** `Occurrences` counts exactly the positions equal to `c`. */
  lemma {:induction false} OccurrencesArePositions(s: seq<char>, c: char)
    ensures Occurrences(s, c) == |Positions(s, c)|
  {
    if s != [] {
      var t := s[..|s| - 1];
      OccurrencesArePositions(t, c);
      if s[|s| - 1] == c {
        assert Positions(s, c) == Positions(t, c) + {|t|};
        assert |t| !in Positions(t, c);
      } else {
        assert Positions(s, c) == Positions(t, c);
      }
    }
  }

  lemma {:induction false} OccurrencesAppend(a: seq<char>, b: seq<char>, c: char)
    ensures Occurrences(a + b, c) == Occurrences(a, c) + Occurrences(b, c)
  {
    if b != [] {
      assert (a + b)[..|a + b| - 1] == a + b[..|b| - 1];
      OccurrencesAppend(a, b[..|b| - 1], c);
    } else {
      assert a + b == a;
    }
  }

  /** No occurrence at all exactly when the character is absent. */
  lemma {:induction false} OccurrencesZero(s: seq<char>, c: char)
    ensures Occurrences(s, c) == 0 <==> c !in s
  {
    if s != [] {
      var t := s[..|s| - 1];
      OccurrencesZero(t, c);
      assert s == t + [s[|s| - 1]];
    }
  }

  /**
   * `s_count_chr`: walks the buffer up to its NUL terminator and counts the
   * characters equal to `chr`.
   */
  method CountChr(str: seq<char>, chr: char) returns (count: nat)
    requires NUL in str
    ensures count == Occurrences(CStr(str), chr)
  {
    TerminatedIsShorter(str);
    ghost var s := CStr(str);
    count := 0;
    var p := 0;
    while str[p] != NUL
      invariant 0 <= p <= |s|
      invariant str[..p] == s[..p]
      invariant count == Occurrences(s[..p], chr)
      decreases |s| - p
    {
      assert s[..p + 1][..p] == s[..p];
      if str[p] == chr {
        count := count + 1;
      }
      p := p + 1;
    }
    assert s[..p] == s;
  }

  /** `strrchr`: the position of the last `c` in `s`, or None when `c` does not occur. */
  function LastIndexOf(s: seq<char>, c: char): (r: Option<nat>)
    ensures r.None? <==> c !in s
    ensures r.Some? ==> r.value < |s| && s[r.value] == c && c !in s[r.value + 1..]
  {
    if s == [] then None
    else if s[|s| - 1] == c then Some(|s| - 1)
    else
      var r := LastIndexOf(s[..|s| - 1], c);
      if r.Some? then
        assert s[r.value + 1..] == s[..|s| - 1][r.value + 1..] + [s[|s| - 1]];
        r
      else
        assert s == s[..|s| - 1] + [s[|s| - 1]];
        r
  }
}
