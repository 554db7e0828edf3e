/** Strings as the handlers see them: JavaScript's `trim()` and `length`.
    A Dafny `char` is a Unicode scalar value; JavaScript counts UTF-16 code units,
    so a character outside the Basic Multilingual Plane counts twice. */
module Text {

  /** The characters `String.prototype.trim` removes: ECMAScript WhiteSpace and LineTerminator. */
  predicate IsWhitespace(c: char) {
    || c == '\t' || c == '\n' || c == '\U{B}' || c == '\U{C}' || c == '\r' || c == ' '
    || c == '\U{A0}' || c == '\U{1680}' || ('\U{2000}' <= c <= '\U{200A}')
    || c == '\U{2028}' || c == '\U{2029}' || c == '\U{202F}' || c == '\U{205F}'
    || c == '\U{3000}' || c == '\U{FEFF}'
  }

  /** Every character is whitespace (the empty string included). */
  predicate IsBlank(s: string) {
    forall i :: 0 <= i < |s| ==> IsWhitespace(s[i])
  }

  /** Neither end is whitespace: what `trim()` returns. */
  predicate IsTrimmed(s: string) {
    s == [] || (!IsWhitespace(s[0]) && !IsWhitespace(s[|s| - 1]))
  }

  /** `r` is `s` with only whitespace cut from its two ends. */
  ghost predicate IsTrimOf(r: string, s: string) {
    exists i, j :: 0 <= i <= j <= |s| && r == s[i..j] && IsBlank(s[..i]) && IsBlank(s[j..])
  }

  /** UTF-16 code units of one character. */
  function CodeUnits(c: char): nat {
    if c as int >= 0x1_0000 then 2 else 1
  }

  /** JavaScript's `s.length`. */
  function JsLength(s: string): (n: nat)
    ensures |s| <= n <= 2 * |s|
    ensures n == 0 <==> s == []
  {
    if s == [] then 0 else JsLength(s[..|s| - 1]) + CodeUnits(s[|s| - 1])
  }

  /** The UTF-16 code units of one character: the character itself below
      U+10000, otherwise its surrogate pair. */
  function CharUnits(c: char): (r: seq<int>)
    ensures |r| == CodeUnits(c)
    ensures forall k :: 0 <= k < |r| ==> 0 <= r[k] < 0x1_0000
  {
    var v := c as int;
    if v < 0x1_0000 then [v]
    else [0xD800 + (v - 0x1_0000) / 0x400, 0xDC00 + (v - 0x1_0000) % 0x400]
  }

  /** The string as JavaScript stores it: its sequence of UTF-16 code units,
      of which `length` counts. */
  function Utf16(s: string): (r: seq<int>)
    ensures |r| == JsLength(s)
    ensures forall k :: 0 <= k < |r| ==> 0 <= r[k] < 0x1_0000
  {
    if s == [] then [] else Utf16(s[..|s| - 1]) + CharUnits(s[|s| - 1])
  }

  /** No character needs a surrogate pair. */
  predicate IsBmp(s: string) {
    forall i :: 0 <= i < |s| ==> s[i] as int < 0x1_0000
  }

  /** Each character as its code point. */
  function CodePoints(s: string): (r: seq<int>)
    ensures |r| == |s| && forall i :: 0 <= i < |s| ==> r[i] == s[i] as int
  {
    seq(|s|, i requires 0 <= i < |s| => s[i] as int)
  }

  /** Without surrogate pairs, the code units are the code points. */
  lemma {:induction false} Utf16Bmp(s: string)
    requires IsBmp(s)
    ensures Utf16(s) == CodePoints(s)
  {
    if s != [] {
      var init := s[..|s| - 1];
      assert IsBmp(init) by {
        forall i | 0 <= i < |init| ensures init[i] as int < 0x1_0000 {
          assert init[i] == s[i];
        }
      }
      Utf16Bmp(init);
      assert CodePoints(s) == CodePoints(init) + [s[|s| - 1] as int];
    }
  }

  lemma {:induction false} JsLengthConcat(a: string, b: string)
    ensures JsLength(a + b) == JsLength(a) + JsLength(b)
    decreases |b|
  {
    if b != [] {
      var b' := b[..|b| - 1];
      assert (a + b)[..|a + b| - 1] == a + b';
      assert (a + b)[|a + b| - 1] == b[|b| - 1];
      JsLengthConcat(a, b');
    } else {
      assert a + b == a;
    }
  }

  /** A slice is never longer, in code units, than the string it is cut from. */
  lemma JsLengthSlice(s: string, i: nat, j: nat)
    requires i <= j <= |s|
    ensures JsLength(s[i..j]) <= JsLength(s)
  {
    assert s[..j] == s[..i] + s[i..j];
    JsLengthConcat(s[..i], s[i..j]);
    assert s == s[..j] + s[j..];
    JsLengthConcat(s[..j], s[j..]);
  }

  function TrimStart(s: string): (r: string)
    ensures |r| <= |s| && r == s[|s| - |r|..]
    ensures IsBlank(s[..|s| - |r|])
    ensures r == [] || !IsWhitespace(r[0])
  {
    if s != [] && IsWhitespace(s[0]) then TrimStart(s[1..]) else s
  }

  function TrimEnd(s: string): (r: string)
    ensures |r| <= |s| && r == s[..|r|]
    ensures IsBlank(s[|r|..])
    ensures r == [] || !IsWhitespace(r[|r| - 1])
  {
    if s != [] && IsWhitespace(s[|s| - 1]) then TrimEnd(s[..|s| - 1]) else s
  }

  /** JavaScript's `s.trim()`. */
  function Trim(s: string): (r: string)
    ensures IsTrimmed(r) && IsTrimOf(r, s)
    ensures r == [] <==> IsBlank(s)
    ensures JsLength(r) <= JsLength(s)
  {
    var front := TrimStart(s);
    var r := TrimEnd(front);
    TrimCut(s, front, r);
    r
  }

  /** What `Trim` needs about its two halves, proved once. */
  lemma TrimCut(s: string, front: string, r: string)
    requires front == TrimStart(s) && r == TrimEnd(front)
    ensures IsTrimmed(r) && IsTrimOf(r, s)
    ensures r == [] <==> IsBlank(s)
    ensures JsLength(r) <= JsLength(s)
  {
    var i := |s| - |front|;
    var j := i + |r|;
    TrimEnds(front, r);
    TrimMargins(s, front, r, i, j);
    if r == [] {
      BlankJoin(s, i);
    } else {
      NotBlank(s, i, r[0]);
    }
    JsLengthSlice(s, i, j);
  }

  /** Both ends of `r` are the non-whitespace ends left by the two passes. */
  lemma TrimEnds(front: string, r: string)
    requires front == [] || !IsWhitespace(front[0])
    requires |r| <= |front| && r == front[..|r|] && (r == [] || !IsWhitespace(r[|r| - 1]))
    ensures IsTrimmed(r)
  {
    if r != [] {
      assert r[0] == front[0];
    }
  }

  /** `r` is the middle of `s` between two blank margins. */
  lemma TrimMargins(s: string, front: string, r: string, i: nat, j: nat)
    requires |front| <= |s| && front == s[|s| - |front|..] && IsBlank(s[..|s| - |front|])
    requires |r| <= |front| && r == front[..|r|] && IsBlank(front[|r|..])
    requires i == |s| - |front| && j == i + |r|
    ensures i <= j <= |s| && r == s[i..j] && IsBlank(s[..i]) && IsBlank(s[j..])
    ensures IsTrimOf(r, s)
  {
    assert r == s[i..j];
    BlankTail(s, front, r, i, j);
  }

  /** A string with a non-whitespace character is not blank. */
  lemma NotBlank(s: string, i: nat, c: char)
    requires i < |s| && s[i] == c && !IsWhitespace(c)
    ensures !IsBlank(s)
  {
  }

  lemma BlankTail(s: string, front: string, r: string, i: nat, j: nat)
    requires i <= |s| && front == s[i..] && |r| <= |front| && r == front[..|r|]
    requires IsBlank(front[|r|..]) && j == i + |r|
    ensures IsBlank(s[j..])
  {
    assert s[j..] == front[|r|..];
  }

  lemma BlankJoin(s: string, i: nat)
    requires i <= |s| && IsBlank(s[..i]) && IsBlank(s[i..])
    ensures IsBlank(s)
  {
    assert s == s[..i] + s[i..];
    forall k | 0 <= k < |s| ensures IsWhitespace(s[k]) {
      if k < i { assert s[k] == s[..i][k]; } else { assert s[k] == s[i..][k - i]; }
    }
  }

  /** Trimming what is already trimmed changes nothing; in particular `trim()` is idempotent. */
  lemma {:induction false} TrimOfTrimmed(s: string)
    requires IsTrimmed(s)
    ensures Trim(s) == s
  {
    if s != [] {
      assert TrimStart(s) == s;
      assert TrimEnd(s) == s;
    }
  }

  lemma TrimIdempotent(s: string)
    ensures Trim(Trim(s)) == Trim(s)
  {
    TrimOfTrimmed(Trim(s));
  }
}
