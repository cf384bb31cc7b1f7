/**
 * `equalsTool(a, b)`: two place names are equal when their folded, lower-cased and trimmed forms are.
 * The routers inline the same comparison without the trim; `MatchKey` is that inline key.
 */
module EqualsTool {
  import opened JsString
  import opened TranslateEnglish

  /** `translateEnglish({ text: s }).text.toLowerCase()`, the key the router loops compare. */
  function MatchKey(s: string): string {
    ToLowerCase(Fold(s))
  }

  /** The key `equalsTool` compares: the inline key, trimmed. */
  function EqualsKey(s: string): string {
    Trim(MatchKey(s))
  }

  predicate EqualsTool(a: string, b: string) {
    EqualsKey(a) == EqualsKey(b)
  }

  /** How one character of a dot-free name contributes to its key. */
  function CharKey(c: char): (r: char)
    ensures !IsAsciiUpper(r) && !IsTurkishLetter(r)
  {
    LowerChar(FoldChar(c))
  }

  /** Without a combining dot the key is built character by character. */
  lemma MatchKeyWithoutDot(s: string)
    requires Dot !in s
    ensures |MatchKey(s)| == |s|
    ensures forall k :: 0 <= k < |s| ==> MatchKey(s)[k] == CharKey(s[k])
  {
    FoldWithoutDot(s);
  }

  /** Keys carry neither ASCII capitals nor Turkish letters. */
  lemma MatchKeyIsCanonical(s: string)
    ensures forall k :: 0 <= k < |MatchKey(s)| ==> !IsAsciiUpper(MatchKey(s)[k])
    ensures forall k :: 0 <= k < |MatchKey(s)| ==> !IsTurkishLetter(MatchKey(s)[k])
  {
    FoldRemovesTurkish(s);
  }

  /** `equalsTool` compares the images of one function, so it is an equivalence relation. */
  lemma EqualsToolIsEquivalence(a: string, b: string, c: string)
    ensures EqualsTool(a, a)
    ensures EqualsTool(a, b) ==> EqualsTool(b, a)
    ensures EqualsTool(a, b) && EqualsTool(b, c) ==> EqualsTool(a, c)
  {
  }

  /** Two dot-free names have the same inline key exactly when they match character by character. */
  lemma MatchKeyIff(a: string, b: string)
    requires Dot !in a && Dot !in b
    ensures MatchKey(a) == MatchKey(b)
            <==> |a| == |b| && forall k :: 0 <= k < |a| ==> CharKey(a[k]) == CharKey(b[k])
  {
    MatchKeyWithoutDot(a);
    MatchKeyWithoutDot(b);
    if |a| == |b| && forall k :: 0 <= k < |a| ==> CharKey(a[k]) == CharKey(b[k]) {
      assert forall k :: 0 <= k < |a| ==> MatchKey(a)[k] == MatchKey(b)[k];
    }
  }

  /** Spellings that differ only in ASCII case or Turkish letters are equal. */
  lemma VariantsAreEqual(a: string, b: string)
    requires Dot !in a && Dot !in b
    requires |a| == |b| && forall k :: 0 <= k < |a| ==> CharKey(a[k]) == CharKey(b[k])
    ensures EqualsTool(a, b)
  {
    MatchKeyIff(a, b);
  }

  /**
   * With a combining dot the ASCII case of an `i` does matter: the first dot removal drops the dot after
   * `i`, and no step drops the dot after `I`.
   */
  lemma DottedCaseMatters()
    ensures CharKey('i') == CharKey('I')
    ensures !EqualsTool(['i', Dot], ['I', Dot])
  {
    DottedCaseFolds();
    var b := ['I', Dot];
    assert MatchKey(b) == ['i', Dot];
    TrimOfTrimmed(MatchKey(b));
  }

  lemma IstanbulExample()
    ensures EqualsTool("İSTANBUL", "istanbul")
  {
    var a, b := "İSTANBUL", "istanbul";
    assert Dot !in a && Dot !in b;
    assert forall k :: 0 <= k < |a| ==> CharKey(a[k]) == CharKey(b[k]) by {
      assert |a| == 8;
    }
    VariantsAreEqual(a, b);
  }

  lemma CanakkaleExample()
    ensures EqualsTool("Çanakkale", "canakkale")
  {
    VariantsAreEqual("Çanakkale", "canakkale");
  }

  lemma WhitespaceCharKey(c: char)
    requires IsJsWhitespace(c)
    ensures c != Dot && CharKey(c) == c
  {
  }

  /** A key character is white space exactly when the original character is. */
  lemma CharKeyWhitespace(c: char)
    ensures IsJsWhitespace(CharKey(c)) <==> IsJsWhitespace(c)
  {
  }

  /** A white-space string is its own key. */
  lemma WhitespaceKey(w: string)
    requires AllWhitespace(w)
    ensures Dot !in w && MatchKey(w) == w
  {
    forall k | 0 <= k < |w|
      ensures w[k] != Dot && CharKey(w[k]) == w[k]
    {
      WhitespaceCharKey(w[k]);
    }
    MatchKeyWithoutDot(w);
  }

  /** Lower-casing leaves white space alone. */
  lemma WhitespaceLower(w: string)
    requires AllWhitespace(w)
    ensures ToLowerCase(w) == w
  {
    LowerFixedIff(w);
  }

  /** White space around any name never changes what it is equal to. */
  lemma PaddingIgnored(w1: string, x: string, w2: string)
    requires AllWhitespace(w1) && AllWhitespace(w2)
    ensures EqualsKey(w1 + x + w2) == EqualsKey(x)
  {
    FoldPadding(w1, x, w2);
    WhitespaceLower(w1);
    WhitespaceLower(w2);
    LowerConcat(w1 + Fold(x), w2);
    LowerConcat(w1, Fold(x));
    assert MatchKey(w1 + x + w2) == w1 + MatchKey(x) + w2;
    TrimIgnoresPadding(w1, MatchKey(x), w2);
  }

  /** White space inside a name is kept, so a name and its run-together form differ. */
  lemma InteriorWhitespaceMatters()
    ensures !EqualsTool("a b", "ab")
  {
    var spaced, joined := "a b", "ab";
    assert Dot !in spaced && Dot !in joined;
    assert Trimmed(spaced) && Trimmed(joined);
    EqualsKeyOfTrimmed(spaced);
    EqualsKeyOfTrimmed(joined);
    MatchKeyWithoutDot(spaced);
    MatchKeyWithoutDot(joined);
    assert |EqualsKey(spaced)| == 3 && |EqualsKey(joined)| == 2;
  }

  /** For a name with no white space at either end, trimming the key changes nothing. */
  lemma EqualsKeyOfTrimmed(s: string)
    requires Trimmed(s)
    ensures EqualsKey(s) == MatchKey(s)
  {
    FoldKeepsTrimmed(s);
    var f := Fold(s);
    var m := MatchKey(s);
    if f != [] {
      assert IsJsWhitespace(LowerChar(f[0])) <==> IsJsWhitespace(f[0]);
      assert IsJsWhitespace(LowerChar(f[|f| - 1])) <==> IsJsWhitespace(f[|f| - 1]);
      assert m[0] == LowerChar(f[0]) && m[|m| - 1] == LowerChar(f[|f| - 1]);
    }
    TrimOfTrimmed(m);
  }

  /** On names trimmed at both ends, `equalsTool` agrees with the routers' inline comparison. */
  lemma AgreesWithInlineMatch(a: string, b: string)
    requires Trimmed(a) && Trimmed(b)
    ensures EqualsTool(a, b) <==> MatchKey(a) == MatchKey(b)
  {
    EqualsKeyOfTrimmed(a);
    EqualsKeyOfTrimmed(b);
  }
}
