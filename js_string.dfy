/**
 * The JavaScript string built-ins the core calls: `toLowerCase` (and `toLocaleLowerCase("en-US")`),
 * `toLocaleUpperCase` on one character, `trim`, `split` on a one-character separator and `join`.
 * Case mapping is exact on ASCII letters and leaves every other character unchanged.
 */
module JsString {

  predicate IsAsciiUpper(c: char) { 'A' <= c <= 'Z' }

  predicate IsAsciiLower(c: char) { 'a' <= c <= 'z' }

  function LowerChar(c: char): (r: char)
    ensures !IsAsciiUpper(r)
    ensures IsAsciiUpper(c) ==> IsAsciiLower(r) && r as int == c as int + 32
    ensures !IsAsciiUpper(c) ==> r == c
  {
    if IsAsciiUpper(c) then (c as int + 32) as char else c
  }

  function UpperChar(c: char): (r: char)
    ensures !IsAsciiLower(r)
    ensures IsAsciiLower(c) ==> IsAsciiUpper(r) && r as int == c as int - 32
    ensures !IsAsciiLower(c) ==> r == c
  {
    if IsAsciiLower(c) then (c as int - 32) as char else c
  }

  /** `String.prototype.toLowerCase`, restricted to ASCII letters. */
  function ToLowerCase(s: string): (r: string)
    ensures |r| == |s|
    ensures forall k :: 0 <= k < |s| ==> r[k] == LowerChar(s[k])
  {
    if s == [] then [] else [LowerChar(s[0])] + ToLowerCase(s[1..])
  }

  /** A string is its own lower-case form exactly when it has no ASCII capital. */
  lemma LowerFixedIff(s: string)
    ensures ToLowerCase(s) == s <==> forall k :: 0 <= k < |s| ==> !IsAsciiUpper(s[k])
  {
    if forall k :: 0 <= k < |s| ==> !IsAsciiUpper(s[k]) {
      assert forall k :: 0 <= k < |s| ==> ToLowerCase(s)[k] == s[k];
    }
  }

  lemma LowerIdempotent(s: string)
    ensures ToLowerCase(ToLowerCase(s)) == ToLowerCase(s)
  {
    LowerFixedIff(ToLowerCase(s));
  }

  lemma LowerConcat(a: string, b: string)
    ensures ToLowerCase(a + b) == ToLowerCase(a) + ToLowerCase(b)
  {
    assert forall k :: 0 <= k < |a + b| ==> ToLowerCase(a + b)[k] == (ToLowerCase(a) + ToLowerCase(b))[k];
  }

  /** WhiteSpace and LineTerminator code points, the set `String.prototype.trim` removes. */
  predicate IsJsWhitespace(c: char) {
    var n := c as int;
    n == 0x09 || n == 0x0A || n == 0x0B || n == 0x0C || n == 0x0D || n == 0x20 || n == 0xA0
    || n == 0x1680 || (0x2000 <= n <= 0x200A) || n == 0x2028 || n == 0x2029 || n == 0x202F
    || n == 0x205F || n == 0x3000 || n == 0xFEFF
  }

  predicate AllWhitespace(s: string) {
    forall k :: 0 <= k < |s| ==> IsJsWhitespace(s[k])
  }

  /** Neither end of the string is white space. */
  predicate Trimmed(s: string) {
    s == [] || (!IsJsWhitespace(s[0]) && !IsJsWhitespace(s[|s| - 1]))
  }

  function TrimStart(s: string): (r: string)
    ensures |r| <= |s| && r == s[|s| - |r|..]
    ensures forall k :: 0 <= k < |s| - |r| ==> IsJsWhitespace(s[k])
    ensures r == [] || !IsJsWhitespace(r[0])
  {
    if s != [] && IsJsWhitespace(s[0]) then TrimStart(s[1..]) else s
  }

  function TrimEnd(s: string): (r: string)
    ensures |r| <= |s| && r == s[..|r|]
    ensures forall k :: |r| <= k < |s| ==> IsJsWhitespace(s[k])
    ensures r == [] || !IsJsWhitespace(r[|r| - 1])
  {
    if s != [] && IsJsWhitespace(s[|s| - 1]) then TrimEnd(s[..|s| - 1]) else s
  }

  /** `String.prototype.trim`: the middle of `s` between a whitespace prefix and a whitespace suffix. */
  function Trim(s: string): (r: string)
    ensures Trimmed(r)
    ensures |r| <= |s|
    ensures exists i, j :: 0 <= i <= j <= |s| && r == s[i..j] && AllWhitespace(s[..i]) && AllWhitespace(s[j..])
  {
    var t := TrimStart(s);
    var r := TrimEnd(t);
    var i := |s| - |t|;
    assert AllWhitespace(s[..i]);
    CutPieces(s, t, r);
    assert 0 <= i <= i + |r| <= |s| && r == s[i..i + |r|];
    r
  }

  /** Cutting a white-space prefix off `s` and then a white-space suffix off the rest leaves a middle slice of `s`. */
  lemma {:induction false} CutPieces(s: string, t: string, r: string)
    requires |t| <= |s| && t == s[|s| - |t|..] && AllWhitespace(s[..|s| - |t|])
    requires |r| <= |t| && r == t[..|r|]
    requires forall k :: |r| <= k < |t| ==> IsJsWhitespace(t[k])
    ensures r == s[|s| - |t|..|s| - |t| + |r|]
    ensures AllWhitespace(s[|s| - |t| + |r|..])
  {
    var i := |s| - |t|;
    assert s[i + |r|..] == t[|r|..];
  }

  lemma TrimOfTrimmed(s: string)
    requires Trimmed(s)
    ensures Trim(s) == s
  {
  }

  lemma {:induction false} TrimStartAllWhitespace(w: string)
    requires AllWhitespace(w)
    ensures TrimStart(w) == []
  {
  }

  lemma {:induction false} TrimStartPrefix(w: string, x: string)
    requires AllWhitespace(w)
    ensures TrimStart(w + x) == TrimStart(x)
  {
    if w != [] {
      assert (w + x)[1..] == w[1..] + x;
      TrimStartPrefix(w[1..], x);
    } else {
      assert w + x == x;
    }
  }

  lemma {:induction false} TrimStartSuffix(x: string, w: string)
    requires AllWhitespace(w)
    ensures TrimStart(x + w) == if TrimStart(x) == [] then [] else TrimStart(x) + w
  {
    if x == [] {
      assert x + w == w;
      TrimStartAllWhitespace(w);
    } else if IsJsWhitespace(x[0]) {
      assert (x + w)[1..] == x[1..] + w;
      TrimStartSuffix(x[1..], w);
    }
  }

  lemma {:induction false} TrimEndSuffix(x: string, w: string)
    requires AllWhitespace(w)
    ensures TrimEnd(x + w) == TrimEnd(x)
  {
    if w != [] {
      assert (x + w)[..|x + w| - 1] == x + w[..|w| - 1];
      TrimEndSuffix(x, w[..|w| - 1]);
    } else {
      assert x + w == x;
    }
  }

  /** `trim` discards any white space put around a string, whatever the string holds. */
  lemma TrimIgnoresPadding(w1: string, x: string, w2: string)
    requires AllWhitespace(w1) && AllWhitespace(w2)
    ensures Trim(w1 + x + w2) == Trim(x)
  {
    assert w1 + x + w2 == w1 + (x + w2);
    TrimStartPrefix(w1, x + w2);
    TrimStartSuffix(x, w2);
    if TrimStart(x) != [] {
      TrimEndSuffix(TrimStart(x), w2);
    }
  }

  function CountChar(s: string, c: char): (n: nat)
    ensures n <= |s|
  {
    if s == [] then 0 else (if s[0] == c then 1 else 0) + CountChar(s[1..], c)
  }

  /** A character is counted zero times exactly when it does not occur. */
  lemma {:induction false} CountCharZero(s: string, c: char)
    ensures CountChar(s, c) == 0 <==> c !in s
  {
    if s != [] {
      CountCharZero(s[1..], c);
      assert s == [s[0]] + s[1..];
    }
  }

  /** Every occurrence of `from` replaced by `to`; nothing else moves. */
  function ReplaceChar(s: string, from: char, to: char): (r: string)
    ensures |r| == |s|
    ensures forall k :: 0 <= k < |s| ==> r[k] == if s[k] == from then to else s[k]
  {
    if s == [] then [] else [if s[0] == from then to else s[0]] + ReplaceChar(s[1..], from, to)
  }

  /** `s.split(sep)` for a one-character separator: one more piece than separators, none holding one. */
  function Split(s: string, sep: char): (parts: seq<string>)
    ensures |parts| == CountChar(s, sep) + 1
    ensures forall k :: 0 <= k < |parts| ==> sep !in parts[k]
  {
    if s == [] then [[]]
    else
      var rest := Split(s[1..], sep);
      if s[0] == sep then [[]] + rest else [[s[0]] + rest[0]] + rest[1..]
  }

  /** `parts.join(sep)` for a one-character separator. */
  function Join(parts: seq<string>, sep: char): string {
    if parts == [] then []
    else if |parts| == 1 then parts[0]
    else parts[0] + [sep] + Join(parts[1..], sep)
  }

  /** Splitting on one character and joining with another replaces the first by the second. */
  lemma {:induction false} SplitJoinIsReplace(s: string, sep: char, glue: char)
    ensures Join(Split(s, sep), glue) == ReplaceChar(s, sep, glue)
  {
    if s != [] {
      var rest := Split(s[1..], sep);
      SplitJoinIsReplace(s[1..], sep, glue);
      if s[0] == sep {
        assert ([[]] + rest)[1..] == rest;
      } else if |rest| == 1 {
        assert Join(rest, glue) == rest[0];
      } else {
        var parts := [[s[0]] + rest[0]] + rest[1..];
        assert parts[1..] == rest[1..];
        assert Join(rest, glue) == rest[0] + [glue] + Join(rest[1..], glue);
      }
    }
  }

  /** After replacing `from` by `to`, the `to` characters are the old `to` characters plus one per `from`. */
  lemma {:induction false} CountAfterReplace(s: string, from: char, to: char)
    requires from != to
    ensures CountChar(ReplaceChar(s, from, to), to) == CountChar(s, from) + CountChar(s, to)
    ensures CountChar(ReplaceChar(s, from, to), from) == 0
  {
    if s != [] {
      CountAfterReplace(s[1..], from, to);
      assert ReplaceChar(s, from, to)[1..] == ReplaceChar(s[1..], from, to);
    }
  }

  /** A string without the separator splits into itself alone. */
  lemma {:induction false} SplitWithoutSeparator(s: string, sep: char)
    requires sep !in s
    ensures Split(s, sep) == [s]
  {
    if s != [] {
      SplitWithoutSeparator(s[1..], sep);
      assert [s[0]] + s[1..] == s;
    }
  }

  /** A separator after a separator-free prefix ends the first piece there. */
  lemma {:induction false} SplitAtFirst(a: string, sep: char, b: string)
    requires sep !in a
    ensures Split(a + [sep] + b, sep) == [a] + Split(b, sep)
  {
    if a == [] {
      assert a + [sep] + b == [sep] + b;
      assert ([sep] + b)[1..] == b;
    } else {
      assert (a + [sep] + b)[1..] == a[1..] + [sep] + b;
      SplitAtFirst(a[1..], sep, b);
      assert [a[0]] + a[1..] == a;
    }
  }
}
