/**
 * `translateEnglish`: the Turkish-to-Latin folding applied to every field of a parameter object.
 *
 * Each field value goes through a chain of `String.prototype.replace` calls. A call with a `/x/g`
 * pattern replaces every occurrence of one character. The call with a plain string pattern
 * (`"i" + U+0307`) replaces only the first occurrence, and a later `/i̇/g` call replaces the rest.
 * The chain is modelled stage by stage in source order, and a per-character table is the
 * reference it is proved against.
 */
module TranslateEnglish {
  import opened JsString

  /** U+0307 COMBINING DOT ABOVE, the second code point of the two-character pattern. */
  const Dot: char := '\U{0307}'

  predicate IsTurkishUpper(c: char) {
    c == 'Ç' || c == 'Ğ' || c == 'İ' || c == 'Ö' || c == 'Ş' || c == 'Ü'
  }

  predicate IsTurkishLower(c: char) {
    c == 'ç' || c == 'ğ' || c == 'ı' || c == 'ö' || c == 'ş' || c == 'ü'
  }

  /** The twelve letters the chain rewrites. */
  predicate IsTurkishLetter(c: char) {
    IsTurkishUpper(c) || IsTurkishLower(c)
  }

  /**
   * The folding table: each Turkish letter to its Latin base letter, in the same case;
   * every other character to itself.
   */
  function FoldChar(c: char): (r: char)
    ensures !IsTurkishLetter(r)
    ensures r == Dot <==> c == Dot
    ensures !IsTurkishLetter(c) ==> r == c
    ensures IsTurkishUpper(c) ==> IsAsciiUpper(r)
    ensures IsTurkishLower(c) ==> IsAsciiLower(r)
  {
    match c
    case 'ç' => 'c'
    case 'Ç' => 'C'
    case 'ğ' => 'g'
    case 'Ğ' => 'G'
    case 'ı' => 'i'
    case 'İ' => 'I'
    case 'ö' => 'o'
    case 'Ö' => 'O'
    case 'ş' => 's'
    case 'Ş' => 'S'
    case 'ü' => 'u'
    case 'Ü' => 'U'
    case _ => c
  }

  /** The table applied to every character: the reference the chain is compared with. */
  function MapFold(s: string): (r: string)
    ensures |r| == |s|
    ensures forall k :: 0 <= k < |s| ==> r[k] == FoldChar(s[k])
  {
    if s == [] then [] else [FoldChar(s[0])] + MapFold(s[1..])
  }

  /** What one `.replace(/from/g, to)` call does to a single character. */
  function Rep(c: char, from: char, to: char): char {
    if c == from then to else c
  }

  /** The letters the first stage rewrites. */
  predicate InStageA(c: char) {
    c == 'ç' || c == 'Ç' || c == 'ğ' || c == 'Ğ' || c == 'ı'
  }

  /**
   * The ten one-character global replacements before the first two-character one, in source order,
   * seen from one character: they fold five letters and leave every other character alone.
   */
  function StageAChar(c: char): (r: char)
    ensures r == if InStageA(c) then FoldChar(c) else c
  {
    var c1 := Rep(Rep(c, 'c', 'c'), 'ç', 'c');
    var c2 := Rep(Rep(c1, 'C', 'C'), 'Ç', 'C');
    var c3 := Rep(Rep(c2, 'g', 'g'), 'ğ', 'g');
    var c4 := Rep(Rep(c3, 'G', 'G'), 'Ğ', 'G');
    Rep(Rep(c4, 'i', 'i'), 'ı', 'i')
  }

  /**
   * The fourteen one-character global replacements between the two two-character ones, in source
   * order, seen from one character: they fold the other seven letters.
   */
  function StageBChar(c: char): (r: char)
    ensures r == if InStageA(c) then c else FoldChar(c)
  {
    var c1 := Rep(Rep(c, 'I', 'I'), 'İ', 'I');
    var c2 := Rep(Rep(c1, 'o', 'o'), 'ö', 'o');
    var c3 := Rep(Rep(c2, 'Ö', 'O'), 'O', 'O');
    var c4 := Rep(Rep(c3, 's', 's'), 'ş', 's');
    var c5 := Rep(Rep(c4, 'S', 'S'), 'Ş', 'S');
    var c6 := Rep(Rep(c5, 'u', 'u'), 'ü', 'u');
    Rep(Rep(c6, 'U', 'U'), 'Ü', 'U')
  }

  /** A run of one-character global replacements acts on each character separately. */
  function StageA(s: string): (r: string)
    ensures |r| == |s|
    ensures forall k :: 0 <= k < |s| ==> r[k] == StageAChar(s[k])
  {
    if s == [] then [] else [StageAChar(s[0])] + StageA(s[1..])
  }

  function StageB(s: string): (r: string)
    ensures |r| == |s|
    ensures forall k :: 0 <= k < |s| ==> r[k] == StageBChar(s[k])
  {
    if s == [] then [] else [StageBChar(s[0])] + StageB(s[1..])
  }

  /** The per-character stage is the same as the chain of string-wide replacements in the source. */
  lemma StageAIsReplaceChain(s: string)
    ensures StageA(s)
            == ReplaceChar(ReplaceChar(ReplaceChar(ReplaceChar(ReplaceChar(ReplaceChar(ReplaceChar(
                 ReplaceChar(ReplaceChar(ReplaceChar(s, 'c', 'c'), 'ç', 'c'), 'C', 'C'), 'Ç', 'C'),
                 'g', 'g'), 'ğ', 'g'), 'G', 'G'), 'Ğ', 'G'), 'i', 'i'), 'ı', 'i')
  {
  }

  lemma StageBIsReplaceChain(s: string)
    ensures StageB(s)
            == ReplaceChar(ReplaceChar(ReplaceChar(ReplaceChar(ReplaceChar(ReplaceChar(ReplaceChar(
                 ReplaceChar(ReplaceChar(ReplaceChar(ReplaceChar(ReplaceChar(ReplaceChar(ReplaceChar(
                 s, 'I', 'I'), 'İ', 'I'), 'o', 'o'), 'ö', 'o'), 'Ö', 'O'), 'O', 'O'), 's', 's'),
                 'ş', 's'), 'S', 'S'), 'Ş', 'S'), 'u', 'u'), 'ü', 'u'), 'U', 'U'), 'Ü', 'U')
  {
  }

  /** An `i` followed by a combining dot starts at index `i`. */
  predicate IsDottedI(s: string, i: int) {
    0 <= i && i + 1 < |s| && s[i] == 'i' && s[i + 1] == Dot
  }

  /** `s.replace("i̇", "i")`: only the first pair loses its dot. */
  function ReplaceFirstDot(s: string): (r: string)
    ensures |s| - 1 <= |r| <= |s|
  {
    if |s| < 2 then s
    else if IsDottedI(s, 0) then ['i'] + s[2..]
    else
      [s[0]] + ReplaceFirstDot(s[1..])
  }

  /** The pair that loses its dot is the first one, and nothing after it changes. */
  lemma {:induction false} ReplaceFirstDotAt(s: string, i: nat)
    requires IsDottedI(s, i)
    requires forall j :: 0 <= j < i ==> !IsDottedI(s, j)
    ensures ReplaceFirstDot(s) == s[..i + 1] + s[i + 2..]
  {
    if i > 0 {
      var t := s[1..];
      forall j | 0 <= j < i - 1
        ensures !IsDottedI(t, j)
      {
        assert !IsDottedI(s, j + 1);
      }
      assert IsDottedI(t, i - 1);
      assert !IsDottedI(s, 0);
      ReplaceFirstDotAt(t, i - 1);
      assert ReplaceFirstDot(s) == [s[0]] + ReplaceFirstDot(t);
      assert s[..i + 1] == [s[0]] + t[..i];
      assert s[i + 2..] == t[i + 1..];
      assert [s[0]] + (t[..i] + t[i + 1..]) == ([s[0]] + t[..i]) + t[i + 1..];
    } else {
      assert s[..1] == ['i'];
    }
  }

  /** `s.replace(/i̇/g, "i")`: every pair found scanning left to right, without overlap, loses its dot. */
  function ReplaceAllDot(s: string): (r: string)
    ensures |r| <= |s|
  {
    if |s| < 2 then s
    else if IsDottedI(s, 0) then ['i'] + ReplaceAllDot(s[2..])
    else
      [s[0]] + ReplaceAllDot(s[1..])
  }

  /** Where no `i` is followed by a combining dot, neither removal changes anything. */
  lemma {:induction false} NoDottedIUnchanged(s: string)
    requires forall i :: !IsDottedI(s, i)
    ensures ReplaceFirstDot(s) == s && ReplaceAllDot(s) == s
  {
    if |s| >= 2 {
      assert !IsDottedI(s, 0);
      assert forall i :: IsDottedI(s[1..], i) ==> IsDottedI(s, i + 1);
      NoDottedIUnchanged(s[1..]);
    }
  }

  /** Each character the first-dot removal drops is a combining dot. */
  lemma {:induction false} FirstDotRemovalCount(s: string)
    ensures |s| - |ReplaceFirstDot(s)| == CountChar(s, Dot) - CountChar(ReplaceFirstDot(s), Dot)
  {
    if |s| >= 2 {
      var r := ReplaceFirstDot(s);
      assert s[1..][1..] == s[2..];
      if IsDottedI(s, 0) {
        assert r[1..] == s[2..];
      } else {
        assert r[1..] == ReplaceFirstDot(s[1..]);
        FirstDotRemovalCount(s[1..]);
      }
    }
  }

  /** Each character the all-dots removal drops is a combining dot. */
  lemma {:induction false} AllDotRemovalCount(s: string)
    ensures |s| - |ReplaceAllDot(s)| == CountChar(s, Dot) - CountChar(ReplaceAllDot(s), Dot)
  {
    if |s| >= 2 {
      var r := ReplaceAllDot(s);
      assert s[1..][1..] == s[2..];
      if IsDottedI(s, 0) {
        assert r[1..] == ReplaceAllDot(s[2..]);
        AllDotRemovalCount(s[2..]);
      } else {
        assert r[1..] == ReplaceAllDot(s[1..]);
        AllDotRemovalCount(s[1..]);
      }
    }
  }

  /** Both dot removals only drop characters, so a property of every character is kept. */
  lemma {:induction false} DotRemovalKeeps(s: string, p: char -> bool)
    requires forall k :: 0 <= k < |s| ==> p(s[k])
    ensures forall k :: 0 <= k < |ReplaceFirstDot(s)| ==> p(ReplaceFirstDot(s)[k])
    ensures forall k :: 0 <= k < |ReplaceAllDot(s)| ==> p(ReplaceAllDot(s)[k])
  {
    if |s| >= 2 {
      DotRemovalKeeps(s[1..], p);
      DotRemovalKeeps(s[2..], p);
    }
  }

  /** The value `translateEnglish` writes back for a field holding `s`. */
  function Fold(s: string): string {
    ReplaceAllDot(StageB(ReplaceFirstDot(StageA(s))))
  }

  lemma {:induction false} CountPointwise(a: string, b: string, c: char)
    requires |a| == |b|
    requires forall k :: 0 <= k < |a| ==> (a[k] == c <==> b[k] == c)
    ensures CountChar(a, c) == CountChar(b, c)
  {
    if a != [] {
      CountPointwise(a[1..], b[1..], c);
    }
  }

  /** Neither letter stage adds or removes a combining dot. */
  lemma StagesKeepDots(s: string)
    ensures CountChar(StageA(s), Dot) == CountChar(s, Dot)
    ensures CountChar(StageB(s), Dot) == CountChar(s, Dot)
  {
    CountPointwise(s, StageA(s), Dot);
    CountPointwise(s, StageB(s), Dot);
  }

  /** The only shortening is the loss of combining dots, so the output is never longer. */
  lemma FoldLength(s: string)
    ensures |Fold(s)| <= |s|
    ensures |s| - |Fold(s)| == CountChar(s, Dot) - CountChar(Fold(s), Dot)
  {
    var a := StageA(s);
    var f := ReplaceFirstDot(a);
    StagesKeepDots(s);
    StagesKeepDots(f);
    FirstDotRemovalCount(a);
    AllDotRemovalCount(StageB(f));
  }

  /** None of the twelve Turkish letters survives the chain. */
  lemma FoldRemovesTurkish(s: string)
    ensures forall k :: 0 <= k < |Fold(s)| ==> !IsTurkishLetter(Fold(s)[k])
  {
    var a := StageA(s);
    DotRemovalKeeps(a, c => !InStageA(c));
    var f := ReplaceFirstDot(a);
    var b := StageB(f);
    assert forall k :: 0 <= k < |b| ==> !IsTurkishLetter(b[k]);
    DotRemovalKeeps(b, c => !IsTurkishLetter(c));
  }

  /** A character that is not a capital is never folded into an ASCII capital. */
  predicate NotCapital(c: char) {
    !IsAsciiUpper(c) && !IsTurkishUpper(c)
  }

  /** The chain turns capitals into capitals only, so a string without capitals folds without ASCII capitals. */
  lemma FoldAddsNoCapital(s: string)
    requires forall k :: 0 <= k < |s| ==> NotCapital(s[k])
    ensures forall k :: 0 <= k < |Fold(s)| ==> !IsAsciiUpper(Fold(s)[k])
  {
    var a := StageA(s);
    assert forall k :: 0 <= k < |a| ==> NotCapital(a[k]);
    DotRemovalKeeps(a, NotCapital);
    var b := StageB(ReplaceFirstDot(a));
    assert forall k :: 0 <= k < |b| ==> NotCapital(b[k]);
    DotRemovalKeeps(b, NotCapital);
  }

  /** Without a combining dot the chain is the table applied character by character. */
  lemma FoldWithoutDot(s: string)
    requires Dot !in s
    ensures Fold(s) == MapFold(s)
  {
    var a := StageA(s);
    assert forall k :: 0 <= k < |a| ==> a[k] != Dot;
    NoDottedIUnchanged(a);
    var b := StageB(a);
    assert forall k :: 0 <= k < |b| ==> b[k] != Dot;
    NoDottedIUnchanged(b);
    assert forall k :: 0 <= k < |s| ==> b[k] == FoldChar(s[k]);
  }

  /** Without a combining dot, every character keeps its place. */
  lemma FoldLengthWithoutDot(s: string)
    requires Dot !in s
    ensures |Fold(s)| == |s|
  {
    FoldWithoutDot(s);
  }

  lemma MapFoldConcat(a: string, b: string)
    ensures MapFold(a + b) == MapFold(a) + MapFold(b)
  {
    assert forall k :: 0 <= k < |a + b| ==> MapFold(a + b)[k] == (MapFold(a) + MapFold(b))[k];
  }

  /** On dot-free strings the fold distributes over concatenation, and maps "" to "". */
  lemma FoldConcat(a: string, b: string)
    requires Dot !in a && Dot !in b
    ensures Fold([]) == []
    ensures Fold(a + b) == Fold(a) + Fold(b)
  {
    FoldWithoutDot([]);
    FoldWithoutDot(a);
    FoldWithoutDot(b);
    FoldWithoutDot(a + b);
    MapFoldConcat(a, b);
  }

  /** On dot-free strings a second pass changes nothing. */
  lemma FoldIdempotent(s: string)
    requires Dot !in s
    ensures Fold(Fold(s)) == Fold(s)
  {
    FoldWithoutDot(s);
    var f := Fold(s);
    assert Dot !in f;
    FoldWithoutDot(f);
    assert MapFold(f) == f;
  }

  /**
   * With three combining dots after an `i`, one pass leaves a dotted `i` behind and a second pass
   * removes it, so the fold is not idempotent in general.
   */
  lemma StackedDotsNotIdempotent()
    ensures Fold(['i', Dot, Dot, Dot]) == ['i', Dot]
    ensures Fold(Fold(['i', Dot, Dot, Dot])) == ['i']
  {
    var s := ['i', Dot, Dot, Dot];
    assert StageA(s) == s;
    assert ReplaceFirstDot(s) == ['i', Dot, Dot];
    assert StageB(['i', Dot, Dot]) == ['i', Dot, Dot];
    assert ReplaceAllDot([Dot]) == [Dot];
    assert ReplaceAllDot(['i', Dot, Dot]) == ['i', Dot];
    assert StageA(['i', Dot]) == ['i', Dot];
    assert ReplaceFirstDot(['i', Dot]) == ['i'];
    assert StageB(['i']) == ['i'];
  }

  /** The first dot removal drops the dot after a lower-case `i`, and nothing drops it after `I`. */
  lemma DottedCaseFolds()
    ensures Fold(['i', Dot]) == ['i']
    ensures Fold(['I', Dot]) == ['I', Dot]
  {
    assert StageA(['i', Dot]) == ['i', Dot];
    assert ReplaceFirstDot(['i', Dot]) == ['i'];
    assert StageB(['i']) == ['i'];
    var b := ['I', Dot];
    assert StageA(b) == b;
    assert !IsDottedI(b, 0) && b[1..] == [Dot];
    assert ReplaceFirstDot(b) == b;
    assert StageB(b) == b;
    assert ReplaceAllDot(b) == b;
  }

  /** The same with a letter after the dot. */
  lemma DottedCaseFoldsBeforeX()
    ensures Fold(['i', Dot, 'x']) == ['i', 'x']
    ensures Fold(['I', Dot, 'x']) == ['I', Dot, 'x']
  {
    var a := ['i', Dot, 'x'];
    assert StageA(a) == a;
    assert IsDottedI(a, 0) && a[2..] == ['x'];
    assert ReplaceFirstDot(a) == ['i', 'x'];
    assert StageB(['i', 'x']) == ['i', 'x'];
    NoDottedIUnchanged(['i', 'x']);
    var b := ['I', Dot, 'x'];
    assert StageA(b) == b;
    assert StageB(b) == b;
    assert forall i :: !IsDottedI(b, i);
    NoDottedIUnchanged(b);
  }

  /** Holds neither an `i` nor a combining dot, so no pair can start or end inside it. */
  predicate NoDotOrI(p: string) {
    forall k :: 0 <= k < |p| ==> p[k] != 'i' && p[k] != Dot
  }

  /** A string without a combining dot holds no pair. */
  lemma NoDotNoPair(q: string)
    requires Dot !in q
    ensures forall i :: !IsDottedI(q, i)
  {
  }

  /** Both removals pass over a first character that does not start a pair. */
  lemma PassOver(c: char, t: string)
    requires c != 'i' || t == [] || t[0] != Dot
    ensures ReplaceFirstDot([c] + t) == [c] + ReplaceFirstDot(t)
    ensures ReplaceAllDot([c] + t) == [c] + ReplaceAllDot(t)
  {
    if t == [] {
      assert [c] + t == [c];
    } else {
      assert !IsDottedI([c] + t, 0);
      assert ([c] + t)[1..] == t;
    }
  }

  /** A leading pair loses its dot. */
  lemma DottedStep(t: string)
    ensures ReplaceFirstDot(['i', Dot] + t) == ['i'] + t
    ensures ReplaceAllDot(['i', Dot] + t) == ['i'] + ReplaceAllDot(t)
  {
    assert IsDottedI(['i', Dot] + t, 0);
    assert (['i', Dot] + t)[2..] == t;
  }

  /** The first-dot removal passes over a prefix with no `i` and no dot. */
  lemma {:induction false} ReplaceFirstDotPrefix(p: string, s: string)
    requires NoDotOrI(p)
    ensures ReplaceFirstDot(p + s) == p + ReplaceFirstDot(s)
  {
    if p != [] {
      assert p + s == [p[0]] + (p[1..] + s);
      PassOver(p[0], p[1..] + s);
      ReplaceFirstDotPrefix(p[1..], s);
      assert [p[0]] + (p[1..] + ReplaceFirstDot(s)) == p + ReplaceFirstDot(s);
    } else {
      assert p + s == s && p + ReplaceFirstDot(s) == ReplaceFirstDot(s);
    }
  }

  /** The first-dot removal passes over a suffix with no dot. */
  lemma {:induction false} ReplaceFirstDotSuffix(s: string, q: string)
    requires Dot !in q
    ensures ReplaceFirstDot(s + q) == ReplaceFirstDot(s) + q
  {
    if q == [] {
      assert s + q == s && ReplaceFirstDot(s) + q == ReplaceFirstDot(s);
    } else if s == [] {
      SuffixAfterNothing(q);
    } else if |s| >= 2 && IsDottedI(s, 0) {
      SuffixAfterPair(s, q);
    } else {
      ReplaceFirstDotSuffix(s[1..], q);
      FirstSuffixAfterPlain(s, q);
    }
  }

  /** The suffix lemmas' case of an empty string. */
  lemma SuffixAfterNothing(q: string)
    requires Dot !in q
    ensures ReplaceFirstDot([] + q) == ReplaceFirstDot([]) + q
    ensures ReplaceAllDot([] + q) == ReplaceAllDot([]) + q
  {
    NoDotNoPair(q);
    NoDottedIUnchanged(q);
    assert [] + q == q;
  }

  /** The suffix lemmas' case of a string that starts with a pair. */
  lemma SuffixAfterPair(s: string, q: string)
    requires |s| >= 2 && IsDottedI(s, 0)
    ensures ReplaceFirstDot(s + q) == ReplaceFirstDot(s) + q
    ensures ReplaceAllDot(s[2..] + q) == ReplaceAllDot(s[2..]) + q ==>
              ReplaceAllDot(s + q) == ReplaceAllDot(s) + q
  {
    assert IsDottedI(s + q, 0);
    assert (s + q)[2..] == s[2..] + q;
    assert ['i'] + (s[2..] + q) == (['i'] + s[2..]) + q;
    assert ['i'] + (ReplaceAllDot(s[2..]) + q) == (['i'] + ReplaceAllDot(s[2..])) + q;
  }

  /** A first character that does not start a pair does not start one before a suffix with no dot. */
  lemma PlainHead(s: string, q: string)
    requires Dot !in q && q != [] && s != [] && !(|s| >= 2 && IsDottedI(s, 0))
    ensures |s + q| >= 2 && !IsDottedI(s + q, 0)
    ensures (s + q)[0] == s[0] && (s + q)[1..] == s[1..] + q
  {
    if |s| >= 2 {
      assert (s + q)[1] == s[1];
    } else {
      assert (s + q)[1] == q[0] && q[0] in q;
    }
  }

  /** The first-dot suffix lemma's case of a first character that does not start a pair. */
  lemma FirstSuffixAfterPlain(s: string, q: string)
    requires Dot !in q && q != [] && s != [] && !(|s| >= 2 && IsDottedI(s, 0))
    requires ReplaceFirstDot(s[1..] + q) == ReplaceFirstDot(s[1..]) + q
    ensures ReplaceFirstDot(s + q) == ReplaceFirstDot(s) + q
  {
    PlainHead(s, q);
    var t := s[1..];
    assert ReplaceFirstDot(s + q) == [s[0]] + (ReplaceFirstDot(t) + q);
    if |s| == 1 {
      assert ReplaceFirstDot(t) == [] && [s[0]] == s;
    }
    assert ReplaceFirstDot(s) == [s[0]] + ReplaceFirstDot(t);
  }

  /** One unfolding of the all-dots removal at a first character that does not start a pair. */
  lemma AllDotPlainStep(u: string)
    requires u != [] && !(|u| >= 2 && IsDottedI(u, 0))
    ensures ReplaceAllDot(u) == [u[0]] + ReplaceAllDot(u[1..])
  {
    if |u| == 1 {
      assert u[1..] == [] && [u[0]] == u;
    }
  }

  /** The all-dots suffix lemma's case of a first character that does not start a pair. */
  lemma AllSuffixAfterPlain(s: string, q: string)
    requires Dot !in q && q != [] && s != [] && !(|s| >= 2 && IsDottedI(s, 0))
    requires ReplaceAllDot(s[1..] + q) == ReplaceAllDot(s[1..]) + q
    ensures ReplaceAllDot(s + q) == ReplaceAllDot(s) + q
  {
    PlainHead(s, q);
    AllDotPlainStep(s + q);
    AllDotPlainStep(s);
    ConsAssoc(s[0], ReplaceAllDot(s[1..]), q);
  }

  /** Regrouping a character in front of a concatenation. */
  lemma ConsAssoc(c: char, r: string, q: string)
    ensures [c] + (r + q) == ([c] + r) + q
  {
  }

  /** The all-dots removal passes over a prefix with no `i` and no dot. */
  lemma {:induction false} ReplaceAllDotPrefix(p: string, s: string)
    requires NoDotOrI(p)
    ensures ReplaceAllDot(p + s) == p + ReplaceAllDot(s)
  {
    if p != [] {
      assert p + s == [p[0]] + (p[1..] + s);
      PassOver(p[0], p[1..] + s);
      ReplaceAllDotPrefix(p[1..], s);
      assert [p[0]] + (p[1..] + ReplaceAllDot(s)) == p + ReplaceAllDot(s);
    } else {
      assert p + s == s && p + ReplaceAllDot(s) == ReplaceAllDot(s);
    }
  }

  /** The all-dots removal passes over a suffix with no dot. */
  lemma {:induction false} ReplaceAllDotSuffix(s: string, q: string)
    requires Dot !in q
    ensures ReplaceAllDot(s + q) == ReplaceAllDot(s) + q
  {
    if q == [] {
      assert s + q == s && ReplaceAllDot(s) + q == ReplaceAllDot(s);
    } else if s == [] {
      SuffixAfterNothing(q);
    } else if |s| >= 2 && IsDottedI(s, 0) {
      ReplaceAllDotSuffix(s[2..], q);
      SuffixAfterPair(s, q);
    } else {
      ReplaceAllDotSuffix(s[1..], q);
      AllSuffixAfterPlain(s, q);
    }
  }

  /** White space is neither an `i` nor a dot, and neither letter stage rewrites it. */
  lemma WhitespaceFixed(w: string)
    requires AllWhitespace(w)
    ensures NoDotOrI(w) && Dot !in w
    ensures forall k :: 0 <= k < |w| ==> StageAChar(w[k]) == w[k] && StageBChar(w[k]) == w[k]
  {
  }

  /** Both letter stages act on each character, so they leave white space around a string in place. */
  lemma StagesPadding(w1: string, x: string, w2: string)
    requires AllWhitespace(w1) && AllWhitespace(w2)
    ensures StageA(w1 + x + w2) == w1 + StageA(x) + w2
    ensures StageB(w1 + x + w2) == w1 + StageB(x) + w2
  {
    WhitespaceFixed(w1);
    WhitespaceFixed(w2);
    var s := w1 + x + w2;
    assert forall k :: 0 <= k < |s| ==> StageA(s)[k] == (w1 + StageA(x) + w2)[k];
    assert forall k :: 0 <= k < |s| ==> StageB(s)[k] == (w1 + StageB(x) + w2)[k];
  }

  /** Both dot removals leave white space around a string in place. */
  lemma DotRemovalsPadding(w1: string, y: string, w2: string)
    requires AllWhitespace(w1) && AllWhitespace(w2)
    ensures ReplaceFirstDot(w1 + y + w2) == w1 + ReplaceFirstDot(y) + w2
    ensures ReplaceAllDot(w1 + y + w2) == w1 + ReplaceAllDot(y) + w2
  {
    WhitespaceFixed(w1);
    WhitespaceFixed(w2);
    assert w1 + y + w2 == w1 + (y + w2);
    ReplaceFirstDotPrefix(w1, y + w2);
    ReplaceFirstDotSuffix(y, w2);
    assert w1 + (ReplaceFirstDot(y) + w2) == w1 + ReplaceFirstDot(y) + w2;
    ReplaceAllDotPrefix(w1, y + w2);
    ReplaceAllDotSuffix(y, w2);
    assert w1 + (ReplaceAllDot(y) + w2) == w1 + ReplaceAllDot(y) + w2;
  }

  /** White space around a string, dots or not, passes through the fold unchanged. */
  lemma FoldPadding(w1: string, x: string, w2: string)
    requires AllWhitespace(w1) && AllWhitespace(w2)
    ensures Fold(w1 + x + w2) == w1 + Fold(x) + w2
  {
    var a := StageA(x);
    StagesPadding(w1, x, w2);
    DotRemovalsPadding(w1, a, w2);
    var f := ReplaceFirstDot(a);
    StagesPadding(w1, f, w2);
    DotRemovalsPadding(w1, StageB(f), w2);
  }

  /**
   * The first-dot removal keeps the first character, and the last one unless it drops a final dot,
   * leaving the `i` before it last.
   */
  lemma {:induction false} ReplaceFirstDotEnds(s: string)
    requires s != []
    ensures var r := ReplaceFirstDot(s);
            r != [] && r[0] == s[0] && (r[|r| - 1] == s[|s| - 1] || (s[|s| - 1] == Dot && r[|r| - 1] == 'i'))
  {
    if |s| >= 2 && !IsDottedI(s, 0) {
      ReplaceFirstDotEnds(s[1..]);
    }
  }

  lemma {:induction false} ReplaceAllDotEnds(s: string)
    requires s != []
    ensures var r := ReplaceAllDot(s);
            r != [] && r[0] == s[0] && (r[|r| - 1] == s[|s| - 1] || (s[|s| - 1] == Dot && r[|r| - 1] == 'i'))
  {
    if |s| >= 2 {
      if IsDottedI(s, 0) {
        if |s| > 2 {
          ReplaceAllDotEnds(s[2..]);
        }
      } else {
        ReplaceAllDotEnds(s[1..]);
      }
    }
  }

  /** A character folds to white space exactly when it is white space. */
  lemma StagesKeepWhitespace(c: char)
    ensures IsJsWhitespace(StageAChar(c)) <==> IsJsWhitespace(c)
    ensures IsJsWhitespace(StageBChar(c)) <==> IsJsWhitespace(c)
  {
  }

  /** Each stage of the fold keeps both ends of a trimmed name free of white space. */
  lemma StageATrimmed(s: string)
    requires Trimmed(s)
    ensures Trimmed(StageA(s))
  {
    if s != [] {
      StagesKeepWhitespace(s[0]);
      StagesKeepWhitespace(s[|s| - 1]);
    }
  }

  lemma StageBTrimmed(s: string)
    requires Trimmed(s)
    ensures Trimmed(StageB(s))
  {
    if s != [] {
      StagesKeepWhitespace(s[0]);
      StagesKeepWhitespace(s[|s| - 1]);
    }
  }

  lemma FirstDotTrimmed(s: string)
    requires Trimmed(s)
    ensures Trimmed(ReplaceFirstDot(s))
  {
    if s != [] {
      ReplaceFirstDotEnds(s);
    }
  }

  lemma AllDotTrimmed(s: string)
    requires Trimmed(s)
    ensures Trimmed(ReplaceAllDot(s))
  {
    if s != [] {
      ReplaceAllDotEnds(s);
    }
  }

  /** A name with no white space at either end folds to one with none, dots included. */
  lemma FoldKeepsTrimmed(s: string)
    requires Trimmed(s)
    ensures Trimmed(Fold(s))
  {
    StageATrimmed(s);
    FirstDotTrimmed(StageA(s));
    StageBTrimmed(ReplaceFirstDot(StageA(s)));
    AllDotTrimmed(StageB(ReplaceFirstDot(StageA(s))));
  }

  /** Every field of a parameter object folded, no key added or removed. */
  function FoldFields(m: map<string, string>): (r: map<string, string>)
    ensures r.Keys == m.Keys
    ensures forall k :: k in m ==> r[k] == Fold(m[k])
  {
    map k | k in m :: Fold(m[k])
  }

  /** A JavaScript object whose enumerable properties all hold strings (`req.params`, `{ text }`). */
  class Params {
    var fields: map<string, string>

    constructor (fields: map<string, string>)
      ensures this.fields == fields
    {
      this.fields := fields;
    }
  }

  /** The fields with those in `todo` still as they were and the others folded. */
  function PartlyFolded(m: map<string, string>, todo: set<string>): map<string, string> {
    map k | k in m :: if k in todo then m[k] else Fold(m[k])
  }

  lemma PartlyFoldedStart(m: map<string, string>)
    ensures PartlyFolded(m, m.Keys) == m
  {
  }

  lemma PartlyFoldedStep(m: map<string, string>, todo: set<string>, k: string)
    requires k in todo && k in m
    ensures PartlyFolded(m, todo)[k] == m[k]
    ensures PartlyFolded(m, todo - {k}) == PartlyFolded(m, todo)[k := Fold(m[k])]
  {
  }

  lemma PartlyFoldedEnd(m: map<string, string>)
    ensures PartlyFolded(m, {}) == FoldFields(m)
  {
  }

  /**
   * `translateEnglish(params)`: folds each enumerable property in place and returns the same object.
   * Each iteration reads and writes only its own key, so the enumeration order does not matter.
   */
  method TranslateEnglish(params: Params) returns (r: Params)
    modifies params
    ensures r == params
    ensures params.fields == FoldFields(old(params.fields))
  {
    var original := params.fields;
    var todo := params.fields.Keys;
    PartlyFoldedStart(original);
    while todo != {}
      invariant todo <= original.Keys
      invariant params.fields == PartlyFolded(original, todo)
      decreases |todo|
    {
      var param :| param in todo;
      PartlyFoldedStep(original, todo, param);
      params.fields := params.fields[param := Fold(params.fields[param])];
      todo := todo - {param};
    }
    PartlyFoldedEnd(original);
    r := params;
  }
}
