/** Tag keys (`src/brain/memory/tags.ts`): `normalizeBrainTagKey` as its chain of regular
    expression replacements. Trimming and lower-casing are the parameter `lower`. */
module TagKey {

  const TAG_KEY_MAX := 128

  predicate Alnum(c: char) {
    'a' <= c <= 'z' || '0' <= c <= '9'
  }

  predicate Foreign(c: char) {
    !Alnum(c) && c != '/'
  }

  predicate Separator(c: char) {
    c == '/' || c == '_'
  }

  function DropWhile(s: string, p: char -> bool): (r: string)
    ensures |r| <= |s| && (|r| > 0 ==> !p(r[0]))
    ensures |s| > 0 && p(s[0]) ==> |r| < |s|
  {
    if |s| > 0 && p(s[0]) then DropWhile(s[1..], p) else s
  }

  // ---------------------------------------------------------------------------
  // The replacements, each scanning left to right as its regular expression does.

  /** `[^a-z0-9/]+` becomes `_`. */
  function ReplaceForeign(s: string): string
    decreases |s|
  {
    if |s| == 0 then []
    else if Foreign(s[0]) then ['_'] + ReplaceForeign(DropWhile(s, Foreign))
    else [s[0]] + ReplaceForeign(s[1..])
  }

  /** What follows the `_*` that starts `s`. */
  function PastUnderscores(s: string): (r: string)
    ensures |r| <= |s|
  {
    DropWhile(s, c => c == '_')
  }

  /** `_*\/_*` becomes `/`. */
  function AbsorbUnderscores(s: string): string
    decreases |s|
  {
    if |s| == 0 then []
    else
      var t := PastUnderscores(s);
      if |t| > 0 && t[0] == '/' then ['/'] + AbsorbUnderscores(PastUnderscores(t[1..]))
      else [s[0]] + AbsorbUnderscores(s[1..])
  }

  /** `\/{2,}` becomes `/`; a single slash is left as it is. */
  function CollapseSlashes(s: string): string
    decreases |s|
  {
    if |s| == 0 then []
    else if s[0] == '/' then ['/'] + CollapseSlashes(DropWhile(s, c => c == '/'))
    else [s[0]] + CollapseSlashes(s[1..])
  }

  function StripRight(s: string): (r: string)
    ensures |r| <= |s|
  {
    if |s| > 0 && Separator(s[|s| - 1]) then StripRight(s[..|s| - 1]) else s
  }

  function Clean(s: string): string {
    StripRight(DropWhile(CollapseSlashes(AbsorbUnderscores(ReplaceForeign(s))), Separator))
  }

  function Cut(s: string): string {
    var cut := if |s| > TAG_KEY_MAX then s[..TAG_KEY_MAX] else s;
    if cut == "" then "other" else cut
  }

  function Normalize(lower: string -> string, key: string): string {
    Cut(Clean(lower(key)))
  }

  // ---------------------------------------------------------------------------
  // What the chain is for: words, joined by `/` where the gap between them held a slash
  // and by `_` otherwise, with nothing before the first or after the last.

  datatype Gap = Start | Adjacent | Soft | Hard

  function Widen(gap: Gap, c: char): Gap {
    if gap.Start? || gap.Hard? then gap else if c == '/' then Hard else Soft
  }

  function Joint(gap: Gap): string {
    match gap
    case Start => ""
    case Adjacent => ""
    case Soft => "_"
    case Hard => "/"
  }

  function Words(s: string, gap: Gap): string {
    if |s| == 0 then ""
    else if Alnum(s[0]) then Joint(gap) + [s[0]] + Words(s[1..], Adjacent)
    else Words(s[1..], Widen(gap, s[0]))
  }

  // ---------------------------------------------------------------------------
  // No replacement changes the words.

  lemma {:induction false} WordsOfRun(s: string, p: char -> bool, gap: Gap)
    requires forall c :: p(c) ==> !Alnum(c)
    requires forall c, g :: p(c) ==> Widen(Widen(g, c), c) == Widen(g, c)
    requires forall c :: p(c) ==> Widen(gap, c) == gap
    ensures Words(s, gap) == Words(DropWhile(s, p), gap)
  {
    if |s| > 0 && p(s[0]) {
      WordsOfRun(s[1..], p, gap);
    }
  }

  lemma {:induction false} ReplaceForeignKeepsWords(s: string, gap: Gap)
    ensures Words(ReplaceForeign(s), gap) == Words(s, gap)
    decreases |s|
  {
    if |s| == 0 {
    } else if Foreign(s[0]) {
      var next := Widen(gap, s[0]);
      var rest := DropWhile(s, Foreign);
      assert rest == DropWhile(s[1..], Foreign);
      WordsOfRun(s[1..], Foreign, next);
      ReplaceForeignKeepsWords(rest, next);
      assert (['_'] + ReplaceForeign(rest))[1..] == ReplaceForeign(rest);
    } else {
      var r := ReplaceForeign(s[1..]);
      assert ([s[0]] + r)[1..] == r;
      ReplaceForeignKeepsWords(s[1..], if Alnum(s[0]) then Adjacent else Widen(gap, s[0]));
    }
  }

  lemma {:induction false} WordsPastUnderscores(s: string, gap: Gap)
    ensures Words(PastUnderscores(s), Widen(gap, '/')) == Words(s, Widen(gap, '/'))
    ensures var t := PastUnderscores(s);
      |t| > 0 && t[0] == '/' ==> Words(s, gap) == Words(t[1..], Widen(gap, '/'))
  {
    if |s| > 0 && s[0] == '_' {
      assert PastUnderscores(s) == PastUnderscores(s[1..]);
      WordsPastUnderscores(s[1..], Widen(gap, '_'));
      WordsPastUnderscores(s[1..], gap);
    }
  }

  lemma {:induction false} AbsorbKeepsWords(s: string, gap: Gap)
    ensures Words(AbsorbUnderscores(s), gap) == Words(s, gap)
    decreases |s|
  {
    if |s| > 0 {
      var t := PastUnderscores(s);
      if |t| > 0 && t[0] == '/' {
        var rest := PastUnderscores(t[1..]);
        WordsPastUnderscores(s, gap);
        WordsPastUnderscores(t[1..], gap);
        AbsorbKeepsWords(rest, Widen(gap, '/'));
        assert (['/'] + AbsorbUnderscores(rest))[1..] == AbsorbUnderscores(rest);
      } else {
        var r := AbsorbUnderscores(s[1..]);
        assert ([s[0]] + r)[1..] == r;
        AbsorbKeepsWords(s[1..], if Alnum(s[0]) then Adjacent else Widen(gap, s[0]));
      }
    }
  }

  lemma {:induction false} CollapseKeepsWords(s: string, gap: Gap)
    ensures Words(CollapseSlashes(s), gap) == Words(s, gap)
    decreases |s|
  {
    if |s| == 0 {
    } else if s[0] == '/' {
      var next := Widen(gap, '/');
      var rest := DropWhile(s, c => c == '/');
      assert rest == DropWhile(s[1..], c => c == '/');
      WordsOfRun(s[1..], c => c == '/', next);
      CollapseKeepsWords(rest, next);
      assert (['/'] + CollapseSlashes(rest))[1..] == CollapseSlashes(rest);
    } else {
      var r := CollapseSlashes(s[1..]);
      assert ([s[0]] + r)[1..] == r;
      CollapseKeepsWords(s[1..], if Alnum(s[0]) then Adjacent else Widen(gap, s[0]));
    }
  }

  lemma {:induction false} WordsIgnoreTail(s: string, c: char, gap: Gap)
    requires !Alnum(c)
    ensures Words(s + [c], gap) == Words(s, gap)
  {
    if |s| == 0 {
      assert (s + [c])[1..] == "";
    } else {
      assert (s + [c])[1..] == s[1..] + [c];
      WordsIgnoreTail(s[1..], c, if Alnum(s[0]) then Adjacent else Widen(gap, s[0]));
    }
  }

  lemma {:induction false} StripRightKeepsWords(s: string, gap: Gap)
    ensures Words(StripRight(s), gap) == Words(s, gap)
  {
    if |s| > 0 && Separator(s[|s| - 1]) {
      var front := s[..|s| - 1];
      assert s == front + [s[|s| - 1]];
      WordsIgnoreTail(front, s[|s| - 1], gap);
      StripRightKeepsWords(front, gap);
    }
  }

  // ---------------------------------------------------------------------------
  // The shape each replacement establishes.

  /** Written with the key alphabet, and no two neighbours both in `p`. */
  ghost predicate Spaced(s: string, p: (char, char) -> bool) {
    && InKeyAlphabet(s)
    && (forall i :: 0 < i < |s| ==> !p(s[i - 1], s[i]))
  }

  predicate BothUnderscore(a: char, b: char) {
    a == '_' && b == '_'
  }

  predicate UnderscoreBeside(a: char, b: char) {
    Separator(a) && Separator(b) && !(a == '/' && b == '/')
  }

  predicate BothSeparators(a: char, b: char) {
    Separator(a) && Separator(b)
  }

  lemma SpacedCons(c: char, s: string, p: (char, char) -> bool)
    requires Spaced(s, p) && (Alnum(c) || Separator(c))
    requires |s| > 0 ==> !p(c, s[0])
    ensures Spaced([c] + s, p)
  {
  }

  lemma {:induction false} ReplaceForeignSpaces(s: string)
    ensures Spaced(ReplaceForeign(s), BothUnderscore)
    ensures |ReplaceForeign(s)| > 0 && ReplaceForeign(s)[0] == '_' ==> Foreign(s[0])
    decreases |s|
  {
    if |s| == 0 {
    } else if Foreign(s[0]) {
      var rest := DropWhile(s, Foreign);
      ReplaceForeignSpaces(rest);
      SpacedCons('_', ReplaceForeign(rest), BothUnderscore);
    } else {
      ReplaceForeignSpaces(s[1..]);
      SpacedCons(s[0], ReplaceForeign(s[1..]), BothUnderscore);
    }
  }

  lemma {:induction false} DropWhileIsSuffix(s: string, p: char -> bool) returns (k: nat)
    ensures k <= |s| && DropWhile(s, p) == s[k..] && forall i :: 0 <= i < k ==> p(s[i])
  {
    if |s| > 0 && p(s[0]) {
      var rest := DropWhileIsSuffix(s[1..], p);
      k := rest + 1;
    } else {
      k := 0;
    }
  }

  lemma SuffixSpaced(s: string, k: nat, p: (char, char) -> bool)
    requires Spaced(s, p) && k <= |s|
    ensures Spaced(s[k..], p)
  {
    forall i | 0 < i < |s[k..]| ensures !p(s[k..][i - 1], s[k..][i]) {
      assert s[k..][i - 1] == s[i + k - 1] && s[k..][i] == s[i + k];
    }
  }

  /** The first character of the result: a slash once `s` is `_*` and a slash, else that of `s`. */
  function LeadOf(s: string): char
    requires |s| > 0
  {
    var t := PastUnderscores(s);
    if |t| > 0 && t[0] == '/' then '/' else s[0]
  }

  lemma {:induction false} AbsorbSpaces(s: string)
    requires Spaced(s, BothUnderscore)
    ensures Spaced(AbsorbUnderscores(s), UnderscoreBeside)
    ensures |s| == 0 <==> AbsorbUnderscores(s) == ""
    ensures |s| > 0 ==> AbsorbUnderscores(s)[0] == LeadOf(s)
    decreases |s|
  {
    if |s| > 0 {
      var t := PastUnderscores(s);
      var k := DropWhileIsSuffix(s, c => c == '_');
      SuffixSpaced(s, k, BothUnderscore);
      if |t| > 0 && t[0] == '/' {
        var rest := PastUnderscores(t[1..]);
        var j := DropWhileIsSuffix(t[1..], c => c == '_');
        SuffixSpaced(t, 1, BothUnderscore);
        SuffixSpaced(t[1..], j, BothUnderscore);
        AbsorbSpaces(rest);
        SpacedCons('/', AbsorbUnderscores(rest), UnderscoreBeside);
      } else {
        SuffixSpaced(s, 1, BothUnderscore);
        AbsorbSpaces(s[1..]);
        if |s| > 1 && s[0] == '_' {
          assert s[1] != '_';
          assert PastUnderscores(s) == s[1..];
        }
        SpacedCons(s[0], AbsorbUnderscores(s[1..]), UnderscoreBeside);
      }
    }
  }

  lemma {:induction false} CollapseSpaces(s: string)
    requires Spaced(s, UnderscoreBeside)
    ensures Spaced(CollapseSlashes(s), BothSeparators)
    ensures |s| == 0 <==> CollapseSlashes(s) == ""
    ensures |s| > 0 ==> CollapseSlashes(s)[0] == s[0]
    decreases |s|
  {
    if |s| == 0 {
    } else if s[0] == '/' {
      var k := DropWhileIsSuffix(s, c => c == '/');
      SuffixSpaced(s, k, UnderscoreBeside);
      CollapseSpaces(s[k..]);
      assert k < |s| ==> s[k - 1] == '/' && s[k] != '_';
      SpacedCons('/', CollapseSlashes(s[k..]), BothSeparators);
    } else {
      SuffixSpaced(s, 1, UnderscoreBeside);
      CollapseSpaces(s[1..]);
      SpacedCons(s[0], CollapseSlashes(s[1..]), BothSeparators);
    }
  }

  /** A path of words: key alphabet, single separators, none at either end. */
  ghost predicate Canonical(k: string) {
    Spaced(k, BothSeparators) && (|k| > 0 ==> !Separator(k[0]) && !Separator(k[|k| - 1]))
  }

  lemma {:induction false} StripRightIsPrefix(s: string) returns (k: nat)
    ensures k <= |s| && StripRight(s) == s[..k] && (k > 0 ==> !Separator(s[k - 1]))
    ensures forall i :: k <= i < |s| ==> Separator(s[i])
  {
    if |s| > 0 && Separator(s[|s| - 1]) {
      k := StripRightIsPrefix(s[..|s| - 1]);
      assert s[..|s| - 1][..k] == s[..k];
    } else {
      k := |s|;
      assert s[..k] == s;
    }
  }

  lemma CleanIsCanonical(s: string)
    ensures Canonical(Clean(s))
  {
    ReplaceForeignSpaces(s);
    AbsorbSpaces(ReplaceForeign(s));
    var collapsed := CollapseSlashes(AbsorbUnderscores(ReplaceForeign(s)));
    CollapseSpaces(AbsorbUnderscores(ReplaceForeign(s)));
    var j := DropWhileIsSuffix(collapsed, Separator);
    SuffixSpaced(collapsed, j, BothSeparators);
    var k := StripRightIsPrefix(collapsed[j..]);
  }

  lemma {:induction false} WordsOfSpaced(k: string, gap: Gap)
    requires Spaced(k, BothSeparators) && (|k| > 0 ==> !Separator(k[|k| - 1]))
    requires gap.Adjacent? || (|k| > 0 && Alnum(k[0]))
    ensures Words(k, gap) == (if |k| > 0 then Joint(gap) else "") + k
    decreases |k|
  {
    if |k| > 0 {
      var rest := k[1..];
      SuffixSpaced(k, 1, BothSeparators);
      assert |rest| > 0 ==> rest[|rest| - 1] == k[|k| - 1];
      assert k == [k[0]] + rest;
      if Alnum(k[0]) {
        assert Words(k, gap) == Joint(gap) + [k[0]] + Words(rest, Adjacent);
        WordsOfSpaced(rest, Adjacent);
        assert Joint(gap) + [k[0]] + rest == Joint(gap) + k;
      } else {
        assert |k| > 1 && !Separator(k[1]) by {
          assert !BothSeparators(k[0], k[1]);
        }
        assert Words(k, gap) == Words(rest, Widen(gap, k[0]));
        WordsOfSpaced(rest, Widen(gap, k[0]));
        assert Joint(Widen(gap, k[0])) == [k[0]] && Joint(gap) == "";
        assert "" + k == k;
      }
    }
  }

  /** The four replacements together compute the words of the text and their joints. */
  lemma CleanIsWords(s: string)
    ensures Clean(s) == Words(s, Start)
  {
    var replaced := ReplaceForeign(s);
    var absorbed := AbsorbUnderscores(replaced);
    var collapsed := CollapseSlashes(absorbed);
    ReplaceForeignKeepsWords(s, Start);
    AbsorbKeepsWords(replaced, Start);
    CollapseKeepsWords(absorbed, Start);
    WordsOfRun(collapsed, Separator, Start);
    StripRightKeepsWords(DropWhile(collapsed, Separator), Start);
    CleanIsCanonical(s);
    if |Clean(s)| > 0 {
      WordsOfSpaced(Clean(s), Start);
    }
  }

  lemma CanonicalIsClean(k: string)
    requires Canonical(k)
    ensures Clean(k) == k
  {
    CleanIsWords(k);
    if |k| > 0 {
      WordsOfSpaced(k, Start);
    }
  }

  // ---------------------------------------------------------------------------
  // Normalising again.

  /** Lower-casing and trimming leave text in the key alphabet alone. */
  ghost predicate LeavesKeysAlone(lower: string -> string) {
    forall k :: InKeyAlphabet(k) ==> lower(k) == k
  }

  predicate InKeyAlphabet(s: string) {
    forall i :: 0 <= i < |s| ==> Alnum(s[i]) || Separator(s[i])
  }

  lemma NormalizeInAlphabet(lower: string -> string, s: string)
    requires LeavesKeysAlone(lower) && InKeyAlphabet(s)
    ensures Normalize(lower, s) == Cut(Clean(s))
  {
  }

  ghost predicate EndsInSeparator(k: string) {
    |k| > 0 && Separator(k[|k| - 1])
  }

  /** A key: alphabet, single separators, none in front, at most 128 characters, and never empty. */
  lemma NormalizeShape(lower: string -> string, key: string)
    ensures var k := Normalize(lower, key);
      && 0 < |k| <= TAG_KEY_MAX && Spaced(k, BothSeparators) && !Separator(k[0])
      && (EndsInSeparator(k) ==> |Clean(lower(key))| > TAG_KEY_MAX)
  {
    CleanIsCanonical(lower(key));
  }

  lemma CleanDropsEnd(front: string, c: char)
    requires Canonical(front) && Separator(c)
    ensures Clean(front + [c]) == front
  {
    CleanIsWords(front + [c]);
    WordsIgnoreTail(front, c, Start);
    CleanIsWords(front);
    CanonicalIsClean(front);
  }

  lemma FrontIsCanonical(k: string)
    requires |k| > 0 && Spaced(k, BothSeparators) && !Separator(k[0]) && EndsInSeparator(k)
    ensures Canonical(k[..|k| - 1]) && |k| > 1
  {
    var front := k[..|k| - 1];
    assert !BothSeparators(k[|k| - 2], k[|k| - 1]);
    assert front[|front| - 1] == k[|k| - 2];
  }

  /** Normalising again drops a separator that the cut left at the end, and nothing else. */
  lemma NormalizeAgain(lower: string -> string, k: string)
    requires LeavesKeysAlone(lower)
    requires 0 < |k| <= TAG_KEY_MAX && Spaced(k, BothSeparators) && !Separator(k[0])
    ensures Normalize(lower, k) == if EndsInSeparator(k) then k[..|k| - 1] else k
  {
    if EndsInSeparator(k) {
      var front := k[..|k| - 1];
      assert k == front + [k[|k| - 1]];
      FrontIsCanonical(k);
      CleanDropsEnd(front, k[|k| - 1]);
    } else {
      CanonicalIsClean(k);
    }
  }

  /** The cut falls right behind a separator of the cleaned text. */
  predicate CutsAtSeparator(cleaned: string) {
    |cleaned| > TAG_KEY_MAX && Separator(cleaned[TAG_KEY_MAX - 1])
  }

  lemma EndsIfCutAtSeparator(lower: string -> string, key: string)
    ensures EndsInSeparator(Normalize(lower, key)) <==> CutsAtSeparator(Clean(lower(key)))
  {
    CleanIsCanonical(lower(key));
  }

  /** The normaliser is idempotent on a text exactly when the cut does not fall right behind a
      separator of the cleaned text, and twice is always enough. */
  lemma IdempotentIff(lower: string -> string, key: string)
    requires LeavesKeysAlone(lower)
    ensures var once := Normalize(lower, key);
      var twice := Normalize(lower, once);
      && (twice == once <==> !CutsAtSeparator(Clean(lower(key))))
      && Normalize(lower, twice) == twice
  {
    NormalizeShape(lower, key);
    EndsIfCutAtSeparator(lower, key);
    var once := Normalize(lower, key);
    NormalizeAgain(lower, once);
    var twice := Normalize(lower, once);
    if EndsInSeparator(once) {
      FrontIsCanonical(once);
    }
    NormalizeAgain(lower, twice);
  }

  lemma TwiceIsCanonical(lower: string -> string, key: string)
    requires LeavesKeysAlone(lower)
    ensures var twice := Normalize(lower, Normalize(lower, key));
      Canonical(twice) && twice != ""
  {
    NormalizeShape(lower, key);
    var once := Normalize(lower, key);
    NormalizeAgain(lower, once);
    if EndsInSeparator(once) {
      FrontIsCanonical(once);
    }
  }

  function Repeat(c: char, n: nat): (s: string)
    ensures |s| == n && forall i :: 0 <= i < n ==> s[i] == c
  {
    seq(n, _ => c)
  }

  /** It is not idempotent in general: 127 letters, a slash and one more letter. */
  lemma NotIdempotent(lower: string -> string)
    requires LeavesKeysAlone(lower)
    ensures var key := Repeat('a', 127) + "/a";
      Normalize(lower, key) == Repeat('a', 127) + "/" && Normalize(lower, Normalize(lower, key)) == Repeat('a', 127)
  {
    var key := Repeat('a', 127) + "/a";
    assert Canonical(key);
    assert lower(key) == key;
    CanonicalIsClean(key);
    assert key[..128] == Repeat('a', 127) + "/";
    NormalizeAgain(lower, Repeat('a', 127) + "/");
    assert (Repeat('a', 127) + "/")[..127] == Repeat('a', 127);
  }
}
