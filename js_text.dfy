/** Small value types shared by the client and the server models. */
module Options {
  /** A JavaScript value that may be `null`/`undefined`. */
  datatype Option<T> = None | Some(value: T)
}

/**
 * `String.prototype.trim` as ECMAScript defines it: strip the white-space
 * and line-terminator code points from both ends of a string.
 */
module JsText {

  /**
   * ECMAScript's WhiteSpace (TAB, VT, FF, ZWNBSP and every code point of the
   * Unicode category Zs) and LineTerminator (LF, CR, LS, PS) code points.
   */
  predicate IsWhitespace(c: char) {
    c == '\t' || c == '\U{000B}' || c == '\U{000C}' || c == '\U{FEFF}'
    || c == '\n' || c == '\r' || c == '\U{2028}' || c == '\U{2029}'
    || c == ' ' || c == '\U{00A0}' || c == '\U{1680}'
    || ('\U{2000}' <= c <= '\U{200A}')
    || c == '\U{202F}' || c == '\U{205F}' || c == '\U{3000}'
  }

  predicate AllWhitespace(s: string) {
    forall i :: 0 <= i < |s| ==> IsWhitespace(s[i])
  }

  /** The string with its leading white space removed. */
  function TrimStart(s: string): (r: string)
    ensures |r| <= |s| && r == s[|s| - |r|..]
    ensures AllWhitespace(s[..|s| - |r|])
    ensures r == [] || !IsWhitespace(r[0])
  {
    if |s| > 0 && IsWhitespace(s[0]) then
      var r := TrimStart(s[1..]);
      TrimStartStep(s, r);
      r
    else
      s
  }

  /** The string with its trailing white space removed. */
  function TrimEnd(s: string): (r: string)
    ensures |r| <= |s| && r == s[..|r|]
    ensures AllWhitespace(s[|r|..])
    ensures r == [] || !IsWhitespace(r[|r| - 1])
  {
    if |s| > 0 && IsWhitespace(s[|s| - 1]) then
      var r := TrimEnd(s[..|s| - 1]);
      TrimEndStep(s, r);
      r
    else
      s
  }

  /** Putting one leading white-space character back in front of a trimmed tail. */
  lemma TrimStartStep(s: string, r: string)
    requires |s| > 0 && IsWhitespace(s[0])
    requires |r| <= |s| - 1 && r == s[1..][|s| - 1 - |r|..] && AllWhitespace(s[1..][..|s| - 1 - |r|])
    ensures r == s[|s| - |r|..] && AllWhitespace(s[..|s| - |r|])
  {
    var k := |s| - |r|;
    DropDrop(s, 1, k - 1);
    forall i | 0 <= i < k
      ensures IsWhitespace(s[i])
    {
      if i > 0 {
        assert s[i] == s[1..][..k - 1][i - 1];
      }
    }
    assert forall i :: 0 <= i < k ==> s[..k][i] == s[i];
  }

  /** Putting one trailing white-space character back after a trimmed head. */
  lemma TrimEndStep(s: string, r: string)
    requires |s| > 0 && IsWhitespace(s[|s| - 1])
    requires |r| <= |s| - 1 && r == s[..|s| - 1][..|r|] && AllWhitespace(s[..|s| - 1][|r|..])
    ensures r == s[..|r|] && AllWhitespace(s[|r|..])
  {
    var k := |r|;
    assert s[..|s| - 1][..k] == s[..k];
    forall i | k <= i < |s|
      ensures IsWhitespace(s[i])
    {
      if i < |s| - 1 {
        assert s[i] == s[..|s| - 1][k..][i - k];
      }
    }
    assert forall i :: 0 <= i < |s| - k ==> s[k..][i] == s[k + i];
  }

  /** True when `r` is `s` with the white space `lead` characters in front and whatever follows `r` removed. */
  ghost predicate IsTrimmedAt(s: string, r: string, lead: nat) {
    lead + |r| <= |s| && r == s[lead..lead + |r|]
    && AllWhitespace(s[..lead]) && AllWhitespace(s[lead + |r|..])
  }

  /**
   * `s.trim()`: a contiguous slice of `s` that neither starts nor ends with
   * white space, and everything cut off around it is white space.
   */
  function Trim(s: string): (r: string)
    ensures IsTrimmedAt(s, r, |s| - |TrimStart(s)|)
    ensures r == [] || (!IsWhitespace(r[0]) && !IsWhitespace(r[|r| - 1]))
  {
    var t := TrimStart(s);
    var r := TrimEnd(t);
    TrimParts(s, t, r);
    assert r != [] ==> r[0] == t[0];
    r
  }

  /** Cutting `t` off the end of `s` and then `r` off the front of `t` leaves `r` as a slice of `s`. */
  lemma TrimParts(s: string, t: string, r: string)
    requires |t| <= |s| && t == s[|s| - |t|..] && AllWhitespace(s[..|s| - |t|])
    requires |r| <= |t| && r == t[..|r|] && AllWhitespace(t[|r|..])
    ensures IsTrimmedAt(s, r, |s| - |t|)
  {
    var lead := |s| - |t|;
    DropDrop(s, lead, |r|);
    DropTake(s, lead, |r|);
  }

  lemma DropDrop<T>(s: seq<T>, a: nat, b: nat)
    requires a + b <= |s|
    ensures s[a..][b..] == s[a + b..]
  {
  }

  lemma DropTake<T>(s: seq<T>, a: nat, b: nat)
    requires a + b <= |s|
    ensures s[a..][..b] == s[a..a + b]
  {
  }

  /** Trimming yields the empty string exactly when the input is all white space. */
  lemma TrimEmptyIff(s: string)
    ensures Trim(s) == [] <==> AllWhitespace(s)
  {
    var lead := |s| - |TrimStart(s)|;
    if Trim(s) == [] {
      // TrimEnd of a non-empty TrimStart keeps its first character, so all of s was leading space.
      assert TrimStart(s) == [];
      assert s[..lead] == s;
    } else {
      assert Trim(s)[0] == s[lead];
    }
  }

  /** The string is empty or starts and ends with a character `trim` keeps. */
  predicate NoOuterWhitespace(s: string) {
    s == [] || (!IsWhitespace(s[0]) && !IsWhitespace(s[|s| - 1]))
  }

  /** A string without white space at either end is its own trim. */
  lemma TrimOfTrimmed(s: string)
    requires NoOuterWhitespace(s)
    ensures Trim(s) == s
  {
    assert TrimStart(s) == s;
    assert TrimEnd(s) == s;
  }

  /** Trimming twice is trimming once. */
  lemma TrimIdempotent(s: string)
    ensures Trim(Trim(s)) == Trim(s)
  {
    TrimOfTrimmed(Trim(s));
  }
}
