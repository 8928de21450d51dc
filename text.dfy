/**
 * ASCII models of the JavaScript string operations the validators use:
 * `String.prototype.trim`, `String.prototype.toLowerCase` and the character
 * classes of the handle patterns `[a-z0-9._]` and `[a-zA-Z0-9._]`.
 */
module Text {

  /** The ASCII characters that `trim` strips. */
  predicate IsSpace(c: char) {
    c == ' ' || c == '\t' || c == '\n' || c == '\r' || c == '\U{0B}' || c == '\U{0C}'
  }

  predicate AllSpace(s: string) {
    forall i :: 0 <= i < |s| ==> IsSpace(s[i])
  }

  function TrimStart(s: string): (r: string)
    ensures |r| <= |s|
    ensures r != [] ==> !IsSpace(r[0])
    ensures r == [] <==> AllSpace(s)
  {
    if s == [] then []
    else if IsSpace(s[0]) then TrimStart(s[1..])
    else s
  }

  /** `TrimStart` only drops a prefix, of white space alone. */
  lemma {:induction false} TrimStartIsSuffix(s: string)
    ensures TrimStart(s) == s[|s| - |TrimStart(s)|..]
    ensures AllSpace(s[..|s| - |TrimStart(s)|])
  {
    if s != [] && IsSpace(s[0]) {
      TrimStartIsSuffix(s[1..]);
      assert s[1..][|s[1..]| - |TrimStart(s[1..])|..] == s[|s| - |TrimStart(s)|..];
      assert forall i :: 1 <= i < |s| - |TrimStart(s)| ==> s[i] == s[1..][..|s[1..]| - |TrimStart(s[1..])|][i - 1];
    }
  }

  function TrimEnd(s: string): (r: string)
    ensures |r| <= |s| && r == s[..|r|]
    ensures r != [] ==> !IsSpace(r[|r| - 1])
    ensures r == [] <==> AllSpace(s)
  {
    if s == [] then []
    else if IsSpace(s[|s| - 1]) then TrimEnd(s[..|s| - 1])
    else s
  }

  /** `TrimEnd` only drops a suffix, of white space alone. */
  lemma {:induction false} TrimEndDropsSpaces(s: string)
    ensures AllSpace(s[|TrimEnd(s)|..])
  {
    if s != [] && IsSpace(s[|s| - 1]) {
      TrimEndDropsSpaces(s[..|s| - 1]);
      assert forall i :: |TrimEnd(s)| <= i < |s| - 1 ==> s[i] == s[..|s| - 1][i];
    }
  }

  /** `s.trim()`: the longest infix of `s` that neither starts nor ends with a space. */
  function Trim(s: string): (r: string)
  {
    TrimEnd(TrimStart(s))
  }

  /**
   * `Trim(s)` is the infix of `s` left after dropping white space from both
   * ends: it neither starts nor ends with a space, and only spaces were dropped.
   */
  lemma TrimShape(s: string)
    ensures |Trim(s)| <= |s|
    ensures Trim(s) != [] ==> !IsSpace(Trim(s)[0]) && !IsSpace(Trim(s)[|Trim(s)| - 1])
    ensures Trim(s) == [] <==> AllSpace(s)
    ensures exists k :: 0 <= k <= |s| - |Trim(s)| && Trim(s) == s[k..k + |Trim(s)|]
                        && AllSpace(s[..k]) && AllSpace(s[k + |Trim(s)|..])
  {
    var t := TrimStart(s);
    TrimStartIsSuffix(s);
    TrimEndDropsSpaces(t);
    var k := |s| - |t|;
    var r := TrimEnd(t);
    assert r == s[k..k + |r|];
    assert s[k + |r|..] == t[|r|..];
    if TrimEnd(t) != [] {
      assert TrimEnd(t)[0] == t[0];
    }
  }

  /** Trimming twice is trimming once. */
  lemma TrimIdempotent(s: string)
    ensures Trim(Trim(s)) == Trim(s)
  {
    TrimShape(s);
  }

  function LowerChar(c: char): (r: char)
  {
    if 'A' <= c <= 'Z' then (c as int + 32) as char else c
  }

  /** `s.toLowerCase()` on ASCII letters. */
  function Lower(s: string): (r: string)
    ensures |r| == |s|
    ensures forall i :: 0 <= i < |s| ==> r[i] == LowerChar(s[i])
  {
    seq(|s|, i requires 0 <= i < |s| => LowerChar(s[i]))
  }

  lemma LowerIdempotent(s: string)
    ensures Lower(Lower(s)) == Lower(s)
  {
  }

  /** Lower-casing leaves spaces alone, so it commutes with trimming. */
  lemma {:induction false} TrimStartLower(s: string)
    ensures TrimStart(Lower(s)) == Lower(TrimStart(s))
  {
    if s != [] {
      assert Lower(s)[1..] == Lower(s[1..]);
      TrimStartLower(s[1..]);
    }
  }

  lemma {:induction false} TrimEndLower(s: string)
    ensures TrimEnd(Lower(s)) == Lower(TrimEnd(s))
  {
    if s != [] {
      assert Lower(s)[..|s| - 1] == Lower(s[..|s| - 1]);
      TrimEndLower(s[..|s| - 1]);
    }
  }

  lemma TrimLower(s: string)
    ensures Trim(Lower(s)) == Lower(Trim(s))
  {
    TrimStartLower(s);
    TrimEndLower(TrimStart(s));
  }

  /** `text.trim().toLowerCase()`, the normal form of a handle in the web front end. */
  function Normalize(s: string): (r: string)
    ensures |r| <= |s|
    ensures r == [] <==> Trim(s) == []
  {
    Lower(Trim(s))
  }

  lemma NormalizeIdempotent(s: string)
    ensures Normalize(Normalize(s)) == Normalize(s)
  {
    TrimLower(Trim(s));
    TrimIdempotent(s);
    LowerIdempotent(Trim(s));
  }

  /** One character of the class `[a-z0-9._]`. */
  predicate IsLowerHandleChar(c: char) {
    ('a' <= c <= 'z') || ('0' <= c <= '9') || c == '.' || c == '_'
  }

  /** One character of the class `[a-zA-Z0-9._]`. */
  predicate IsHandleChar(c: char) {
    IsLowerHandleChar(c) || ('A' <= c <= 'Z')
  }

  /** `/^[a-z0-9._]+$/.test(s)` */
  predicate MatchesLowerHandle(s: string) {
    |s| > 0 && forall i :: 0 <= i < |s| ==> IsLowerHandleChar(s[i])
  }

  /** `/^[a-zA-Z0-9._]+$/.test(s)` */
  predicate MatchesHandle(s: string) {
    |s| > 0 && forall i :: 0 <= i < |s| ==> IsHandleChar(s[i])
  }

  /** Lower-casing maps `[a-zA-Z0-9._]` onto `[a-z0-9._]`: upper-case input passes the lower-case pattern. */
  lemma LowerOfHandle(s: string)
    ensures MatchesHandle(s) <==> MatchesLowerHandle(Lower(s))
  {
    if MatchesLowerHandle(Lower(s)) {
      forall i | 0 <= i < |s| ensures IsHandleChar(s[i]) {
        assert IsLowerHandleChar(Lower(s)[i]);
      }
    }
  }
}
