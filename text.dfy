/**
 * The string operations of the JavaScript runtime that the editor relies on:
 * `String.prototype.trim` and the white-space class it strips.
 */
module Text {

  /** The characters ECMAScript treats as WhiteSpace or LineTerminator. */
  predicate IsWhitespace(c: char)
  {
    || c == ' ' || c == '\t' || c == '\n' || c == '\r'
    || c == '\U{000B}' || c == '\U{000C}' || c == '\U{00A0}' || c == '\U{1680}'
    || ('\U{2000}' <= c <= '\U{200A}')
    || c == '\U{2028}' || c == '\U{2029}' || c == '\U{202F}' || c == '\U{205F}'
    || c == '\U{3000}' || c == '\U{FEFF}'
  }

  /** Every character of `s` is white space (vacuously true of ""). */
  predicate AllWhitespace(s: string)
  {
    forall i | 0 <= i < |s| :: IsWhitespace(s[i])
  }

  /** Drops the leading white space of `s`. */
  function TrimStart(s: string): (r: string)
    ensures |r| <= |s| && r == s[|s| - |r|..]
    ensures AllWhitespace(s[..|s| - |r|])
    ensures r != [] ==> !IsWhitespace(r[0])
    ensures r == [] <==> AllWhitespace(s)
    decreases |s|
  {
    if s != [] && IsWhitespace(s[0]) then
      var r := TrimStart(s[1..]);
      assert s[..|s| - |r|] == [s[0]] + s[1..][..|s| - 1 - |r|];
      r
    else
      s
  }

  /** Drops the trailing white space of `s`. */
  function TrimEnd(s: string): (r: string)
    ensures |r| <= |s| && r == s[..|r|]
    ensures AllWhitespace(s[|r|..])
    ensures r != [] ==> !IsWhitespace(r[|r| - 1])
    ensures r == [] <==> AllWhitespace(s)
    decreases |s|
  {
    if s != [] && IsWhitespace(s[|s| - 1]) then
      var r := TrimEnd(s[..|s| - 1]);
      assert s[|r|..] == s[..|s| - 1][|r|..] + [s[|s| - 1]];
      r
    else
      s
  }

  /**
   * `s.trim()`: removes white space at both ends. The result is empty exactly
   * when `s` is entirely white space, and otherwise starts and ends with a
   * character that is not white space.
   */
  function Trim(s: string): (r: string)
    ensures |r| <= |s|
    ensures r == [] <==> AllWhitespace(s)
    ensures r != [] ==> !IsWhitespace(r[0]) && !IsWhitespace(r[|r| - 1])
    decreases |s|
  {
    if s != [] && IsWhitespace(s[0]) then
      var r := Trim(s[1..]);
      assert AllWhitespace(s[1..]) ==> AllWhitespace(s) by {
        if AllWhitespace(s[1..]) {
          forall i | 0 < i < |s| ensures IsWhitespace(s[i]) { assert s[i] == s[1..][i - 1]; }
        }
      }
      r
    else if s != [] && IsWhitespace(s[|s| - 1]) then
      var r := Trim(s[..|s| - 1]);
      assert s[..|s| - 1][0] == s[0];
      r
    else
      s
  }

  /**
   * `trim` is `TrimStart` followed by `TrimEnd`: it drops exactly the white
   * space at the two ends and keeps what lies between.
   */
  lemma {:induction false} TrimEnds(s: string)
    ensures Trim(s) == TrimEnd(TrimStart(s))
    decreases |s|
  {
    if s != [] && IsWhitespace(s[0]) {
      assert Trim(s) == Trim(s[1..]);
      assert TrimStart(s) == TrimStart(s[1..]);
      TrimEnds(s[1..]);
    } else if s != [] && IsWhitespace(s[|s| - 1]) {
      var t := s[..|s| - 1];
      assert t[0] == s[0];
      assert Trim(s) == Trim(t);
      assert TrimStart(s) == s;
      assert TrimEnd(s) == TrimEnd(t);
      assert TrimStart(t) == t;
      TrimEnds(t);
    } else {
      assert Trim(s) == s;
      assert TrimStart(s) == s;
      assert TrimEnd(s) == s;
    }
  }

  /** Trimming twice is trimming once. */
  lemma {:induction false} TrimIdempotent(s: string)
    ensures Trim(Trim(s)) == Trim(s)
  {
    var t := Trim(s);
    if t != [] {
      assert !IsWhitespace(t[0]) && !IsWhitespace(t[|t| - 1]);
    }
  }
}
