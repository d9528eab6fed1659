/** The JavaScript string operations the forms rely on: `trim()`, `.length`
    (counted in UTF-16 code units) and `includes()`. */
module Text {
  import opened Wrappers

  /** The code points `String.prototype.trim` removes: ECMAScript WhiteSpace
      (tab, vertical tab, form feed, space, no-break space, the byte order
      mark and the Unicode space separators) and LineTerminator. */
  predicate IsWhitespace(c: char) {
    var n := c as int;
    || n == 0x09 || n == 0x0A || n == 0x0B || n == 0x0C || n == 0x0D
    || n == 0x20 || n == 0xA0 || n == 0x1680 || (0x2000 <= n <= 0x200A)
    || n == 0x2028 || n == 0x2029 || n == 0x202F || n == 0x205F
    || n == 0x3000 || n == 0xFEFF
  }

  /** Every character is whitespace (the empty string included). */
  predicate IsBlank(s: string) {
    forall i :: 0 <= i < |s| ==> IsWhitespace(s[i])
  }

  /** Drops the leading whitespace of `s`. */
  function TrimStart(s: string): (r: string)
    ensures |r| <= |s| && r == s[|s| - |r|..]
    ensures IsBlank(s[..|s| - |r|])
    ensures r == [] || !IsWhitespace(r[0])
  {
    if |s| > 0 && IsWhitespace(s[0]) then
      var r := TrimStart(s[1..]);
      assert s[..|s| - |r|] == [s[0]] + s[1..][..|s| - 1 - |r|];
      r
    else s
  }

  /** Drops the trailing whitespace of `s`. */
  function TrimEnd(s: string): (r: string)
    ensures |r| <= |s| && r == s[..|r|]
    ensures IsBlank(s[|r|..])
    ensures r == [] || !IsWhitespace(r[|r| - 1])
  {
    if |s| > 0 && IsWhitespace(s[|s| - 1]) then
      var init := s[..|s| - 1];
      var r := TrimEnd(init);
      assert s[|r|..] == init[|r|..] + [s[|s| - 1]];
      r
    else s
  }

  /** `s` is a blank prefix, then `r` from position `i`, then a blank
      suffix. */
  predicate SplitsAround(s: string, r: string, i: int) {
    && 0 <= i <= |s| - |r|
    && s[i..i + |r|] == r
    && IsBlank(s[..i])
    && IsBlank(s[i + |r|..])
  }

  /** JavaScript's `s.trim()`: the text between the leading and the trailing
      whitespace. Only a blank prefix and a blank suffix are removed; the
      result is empty exactly when `s` is blank, and otherwise starts and
      ends with a non-whitespace character. */
  function Trim(s: string): (r: string)
    ensures |r| <= |s|
    ensures exists i :: SplitsAround(s, r, i)
    ensures r == [] <==> IsBlank(s)
    ensures r != [] ==> !IsWhitespace(r[0]) && !IsWhitespace(r[|r| - 1])
  {
    var t := TrimStart(s);
    var r := TrimEnd(t);
    PrefixOfBlankSuffix(s, t, r);
    r
  }

  /** A prefix `r` of a suffix `t` of `s`, where both cut-off parts are
      blank, splits `s` around `r`; when `r` neither starts nor ends with
      whitespace, it is empty exactly when `s` is blank. */
  lemma PrefixOfBlankSuffix(s: string, t: string, r: string)
    requires |t| <= |s| && t == s[|s| - |t|..] && IsBlank(s[..|s| - |t|])
    requires |r| <= |t| && r == t[..|r|] && IsBlank(t[|r|..])
    requires r == [] || !IsWhitespace(r[0])
    ensures SplitsAround(s, r, |s| - |t|)
    ensures r == [] <==> IsBlank(s)
  {
    var i := |s| - |t|;
    SliceOfSuffix(s, i, |r|);
    if r == [] {
      assert s == s[..i] + t[|r|..];
    } else {
      assert s[i] == r[0];
    }
  }

  /** Cutting a suffix of `a` at `n` cuts `a` itself at `i + n`. */
  lemma SliceOfSuffix<T>(a: seq<T>, i: nat, n: nat)
    requires i + n <= |a|
    ensures a[i..][..n] == a[i..i + n]
    ensures a[i..][n..] == a[i + n..]
  {
  }

  /** A string that neither starts nor ends with whitespace trims to
      itself. */
  lemma TrimOfTrimmed(s: string)
    requires s != [] ==> !IsWhitespace(s[0]) && !IsWhitespace(s[|s| - 1])
    ensures Trim(s) == s
  {
    assert TrimStart(s) == s;
  }

  /** Trimming is a slice of the input: it keeps a contiguous run of
      characters and only removes whitespace around it. */
  lemma TrimIsSlice(s: string)
    ensures OccursIn(Trim(s), s)
  {
    var t := TrimStart(s);
    var r := TrimEnd(t);
    var i := |s| - |t|;
    assert r == t[..|r|];
    assert t == s[i..];
    assert r == s[i..i + |r|];
    assert OccursAt(r, s, i);
  }

  /** A leading whitespace character makes no difference to the trimmed
      text. */
  lemma TrimSkipsLeadingSpace(c: char, s: string)
    requires IsWhitespace(c)
    ensures Trim([c] + s) == Trim(s)
  {
    assert ([c] + s)[1..] == s;
  }

  /** Trimming an already trimmed string changes nothing. */
  lemma TrimIdempotent(s: string)
    ensures Trim(Trim(s)) == Trim(s)
  {
    var r := Trim(s);
    if r != [] {
      assert TrimStart(r) == r;
      assert TrimEnd(r) == r;
    }
  }

  /** The number of UTF-16 code units JavaScript uses for `c`: code points
      above the Basic Multilingual Plane take a surrogate pair. */
  function Utf16Units(c: char): nat {
    if c as int > 0xFFFF then 2 else 1
  }

  /** JavaScript's `s.length`, which is what zod's `min` and `max` compare. */
  function JsLength(s: string): (n: nat)
    ensures |s| <= n <= 2 * |s|
    ensures n == 0 <==> s == []
  {
    if s == [] then 0 else Utf16Units(s[0]) + JsLength(s[1..])
  }

  /** A string of characters from the Basic Multilingual Plane has a
      JavaScript length equal to its number of characters. */
  lemma {:induction false} JsLengthOfBmp(s: string)
    requires forall i :: 0 <= i < |s| ==> s[i] as int <= 0xFFFF
    ensures JsLength(s) == |s|
  {
    if s != [] {
      JsLengthOfBmp(s[1..]);
    }
  }

  /** `sub` occurs in `s` starting at position `i`. */
  predicate OccursAt(sub: string, s: string, i: int) {
    0 <= i <= |s| - |sub| && s[i..i + |sub|] == sub
  }

  /** `sub` occurs in `s` at some position. */
  ghost predicate OccursIn(sub: string, s: string) {
    exists i :: OccursAt(sub, s, i)
  }

  /** JavaScript's `s.includes(sub)`, computed by scanning start positions. */
  function Includes(s: string, sub: string): (b: bool)
    ensures b <==> OccursIn(sub, s)
    decreases |s|
  {
    if |s| < |sub| then false
    else if s[..|sub|] == sub then
      assert OccursAt(sub, s, 0);
      true
    else
      var rest := Includes(s[1..], sub);
      assert rest ==> OccursIn(sub, s) by {
        if rest {
          var i :| OccursAt(sub, s[1..], i);
          assert s[i + 1..i + 1 + |sub|] == s[1..][i..i + |sub|];
          assert OccursAt(sub, s, i + 1);
        }
      }
      assert OccursIn(sub, s) ==> rest by {
        if OccursIn(sub, s) {
          var i :| OccursAt(sub, s, i);
          assert i != 0;
          assert s[1..][i - 1..i - 1 + |sub|] == s[i..i + |sub|];
          assert OccursAt(sub, s[1..], i - 1);
        }
      }
      rest
  }

  /** The bound a length breaks under zod's `.min(lo).max(hi)`. */
  datatype LengthError = TooShort | TooLong

  /** Checks a length against `lo..hi`, both ends included. */
  function CheckLength(n: nat, lo: nat, hi: nat): (r: Option<LengthError>)
    ensures r.None? <==> lo <= n <= hi
    ensures r == Some(TooShort) <==> n < lo
    ensures r == Some(TooLong) <==> lo <= n && hi < n
  {
    if n < lo then Some(TooShort) else if hi < n then Some(TooLong) else None
  }
}
