/** Scalars of a SKILL.md frontmatter (`src/brain/skills/validation.ts`): stripping an inline
    comment, and decoding quoted values. `JSON.parse` is the parameter `json`. */
module QuotedScalar {
  import opened Prelude

  datatype ScalarError = NotAScalar | InvalidQuoted

  /** The characters of JavaScript's `\s`, which are also those that `trim` removes. */
  predicate Space(c: char) {
    c == ' ' || '\t' <= c <= '\r' || c == '\U{00A0}' || c == '\U{1680}' || '\U{2000}' <= c <= '\U{200A}'
    || c == '\U{2028}' || c == '\U{2029}' || c == '\U{202F}' || c == '\U{205F}' || c == '\U{3000}' || c == '\U{FEFF}'
  }

  predicate AllSpace(s: string) {
    forall i :: 0 <= i < |s| ==> Space(s[i])
  }

  function TrimEnd(s: string): (r: string)
    ensures |r| <= |s| && r == s[..|r|]
    ensures |r| > 0 ==> !Space(r[|r| - 1])
  {
    if |s| > 0 && Space(s[|s| - 1]) then TrimEnd(s[..|s| - 1]) else s
  }

  function TrimStart(s: string): string {
    if |s| > 0 && Space(s[0]) then TrimStart(s[1..]) else s
  }

  function Trim(s: string): string {
    TrimEnd(TrimStart(s))
  }

  // ---------------------------------------------------------------------------
  // Inline comments.

  datatype Quote = NoQuote | Single | Double

  function Toggle(quote: Quote, c: char): Quote {
    var own := if c == '\'' then Single else Double;
    if quote == own then NoQuote else if quote == NoQuote then own else quote
  }

  predicate StartsComment(value: string, i: nat)
    requires i < |value|
  {
    value[i] == '#' && (i == 0 || Space(value[i - 1]))
  }

  /** Where the comment starts, scanning from `i` inside `quote`; the length when there is none. */
  function CommentAt(value: string, i: nat, quote: Quote): (r: nat)
    ensures r <= |value|
    ensures r < |value| ==> i <= r && StartsComment(value, r)
    decreases |value| - i
  {
    if i >= |value| then |value|
    else if quote == Double && value[i] == '\\' then CommentAt(value, i + 2, quote)
    else if quote == Single && value[i] == '\'' && i + 1 < |value| && value[i + 1] == '\''
    then CommentAt(value, i + 2, quote)
    else if value[i] == '\'' || value[i] == '"' then CommentAt(value, i + 1, Toggle(quote, value[i]))
    else if quote == NoQuote && StartsComment(value, i) then i
    else CommentAt(value, i + 1, quote)
  }

  function Stripped(value: string): string {
    var at := CommentAt(value, 0, NoQuote);
    if at < |value| then TrimEnd(value[..at]) else value
  }

  method StripInlineComment(value: string) returns (r: string)
    ensures r == Stripped(value)
  {
    var quote := NoQuote;
    var index := 0;
    while index < |value|
      invariant 0 <= index <= |value| + 1
      invariant CommentAt(value, index, quote) == CommentAt(value, 0, NoQuote)
      decreases |value| + 1 - index
    {
      var character := value[index];
      if quote == Double && character == '\\' {
        index := index + 2;
      } else if quote == Single && character == '\'' && index + 1 < |value| && value[index + 1] == '\'' {
        index := index + 2;
      } else if character == '\'' || character == '"' {
        quote := Toggle(quote, character);
        index := index + 1;
      } else if character == '#' && quote == NoQuote && (index == 0 || Space(value[index - 1])) {
        return TrimEnd(value[..index]);
      } else {
        index := index + 1;
      }
    }
    r := value;
  }

  // ---------------------------------------------------------------------------
  // What lies outside quotes, said without a scanner.

  /** From `i` to `n`: no bare double quote, and no backslash without its character. */
  predicate Escaped(value: string, i: nat, n: nat)
    requires i <= n <= |value|
    decreases n - i
  {
    i == n
    || (if value[i] == '\\' then i + 2 <= n && Escaped(value, i + 2, n)
        else value[i] != '"' && Escaped(value, i + 1, n))
  }

  predicate PlainAt(value: string, m: nat, n: nat) {
    n == m + 1 <= |value| && value[m] != '\'' && value[m] != '"'
  }

  predicate SingleAt(value: string, m: nat, n: nat) {
    m + 2 <= n <= |value| && value[m] == value[n - 1] == '\'' && forall k :: m < k < n - 1 ==> value[k] != '\''
  }

  predicate DoubleAt(value: string, m: nat, n: nat) {
    m + 2 <= n <= |value| && value[m] == value[n - 1] == '"' && Escaped(value, m + 1, n - 1)
  }

  /** From `m` to `n` stands one character that is no quote, or one span between quotes. */
  predicate TokenAt(value: string, m: nat, n: nat) {
    PlainAt(value, m, n) || SingleAt(value, m, n) || DoubleAt(value, m, n)
  }

  /** The first `n` characters are a row of tokens, which leaves no quote open. */
  ghost predicate Outside(value: string, n: nat) {
    n == 0 || exists m: nat :: m < n && TokenAt(value, m, n) && Outside(value, m)
  }

  /** A closing quote leads outside, also where the scanner takes it for half of a pair. */
  lemma AfterSingle(value: string, i: nat)
    requires i < |value| && value[i] == '\''
    ensures CommentAt(value, i, Single) == CommentAt(value, i + 1, NoQuote)
  {
  }

  /** From inside quotes the scanner gets to the closing quote, or to the end. */
  lemma {:induction false} SingleSpan(value: string, i: nat) returns (end: nat)
    requires i <= |value|
    ensures end < |value| ==>
        && i <= end && value[end] == '\'' && (forall k :: i <= k < end ==> value[k] != '\'')
        && CommentAt(value, i, Single) == CommentAt(value, end + 1, NoQuote)
    ensures end >= |value| ==> CommentAt(value, i, Single) == |value|
    decreases |value| - i
  {
    end := i;
    if i < |value| {
      if value[i] == '\'' {
        AfterSingle(value, i);
      } else {
        end := SingleSpan(value, i + 1);
      }
    }
  }

  lemma {:induction false} DoubleSpan(value: string, i: nat) returns (end: nat)
    requires i <= |value|
    ensures end < |value| ==>
        && i <= end && value[end] == '"' && Escaped(value, i, end)
        && CommentAt(value, i, Double) == CommentAt(value, end + 1, NoQuote)
    ensures end >= |value| ==> CommentAt(value, i, Double) == |value|
    decreases |value| - i
  {
    end := i;
    if i < |value| && value[i] != '"' {
      var step := if value[i] == '\\' then 2 else 1;
      if i + step > |value| {
        end := |value|;
      } else {
        end := DoubleSpan(value, i + step);
      }
    }
  }

  /** From outside, the scanner gets past one token, unless it finds a comment or the end. */
  lemma PastToken(value: string, i: nat) returns (next: nat)
    requires i < CommentAt(value, i, NoQuote) < |value|
    ensures TokenAt(value, i, next) && CommentAt(value, i, NoQuote) == CommentAt(value, next, NoQuote)
  {
    next := i + 1;
    if value[i] == '\'' {
      var end := SingleSpan(value, i + 1);
      next := end + 1;
      assert SingleAt(value, i, next);
    } else if value[i] == '"' {
      var end := DoubleSpan(value, i + 1);
      next := end + 1;
      assert DoubleAt(value, i, next);
    } else {
      assert PlainAt(value, i, next);
    }
  }

  /** The comment that the scanner finds lies outside quotes. */
  lemma {:induction false} FoundOutside(value: string, i: nat)
    requires Outside(value, i) && i <= CommentAt(value, i, NoQuote) < |value|
    ensures Outside(value, CommentAt(value, i, NoQuote))
    decreases |value| - i
  {
    if i < CommentAt(value, i, NoQuote) {
      var next := PastToken(value, i);
      FoundOutside(value, next);
    }
  }

  lemma {:induction false} ThroughSingle(value: string, i: nat, end: nat)
    requires i <= end < |value| && value[end] == '\'' && forall k :: i <= k < end ==> value[k] != '\''
    ensures CommentAt(value, i, Single) == CommentAt(value, end + 1, NoQuote)
    decreases end - i
  {
    if i == end {
      AfterSingle(value, i);
    } else {
      ThroughSingle(value, i + 1, end);
    }
  }

  lemma {:induction false} ThroughDouble(value: string, i: nat, end: nat)
    requires i <= end < |value| && value[end] == '"' && Escaped(value, i, end)
    ensures CommentAt(value, i, Double) == CommentAt(value, end + 1, NoQuote)
    decreases end - i
  {
    if i < end {
      ThroughDouble(value, if value[i] == '\\' then i + 2 else i + 1, end);
    }
  }

  lemma ThroughToken(value: string, m: nat, n: nat)
    requires TokenAt(value, m, n)
    ensures CommentAt(value, m, NoQuote) == m || CommentAt(value, m, NoQuote) == CommentAt(value, n, NoQuote)
  {
    if SingleAt(value, m, n) {
      ThroughSingle(value, m + 1, n - 1);
    } else if DoubleAt(value, m, n) {
      ThroughDouble(value, m + 1, n - 1);
    }
  }

  /** Over tokens the scanner comes out unquoted, unless it has found a comment on the way. */
  lemma {:induction false} ThroughTokens(value: string, n: nat)
    requires Outside(value, n)
    ensures CommentAt(value, 0, NoQuote) < n || CommentAt(value, 0, NoQuote) == CommentAt(value, n, NoQuote)
  {
    if n > 0 {
      var m: nat :| m < n && TokenAt(value, m, n) && Outside(value, m);
      ThroughTokens(value, m);
      ThroughToken(value, m, n);
    }
  }

  /** The scanner finds the first hash that starts the text or follows white space and has no open
      quote before it. */
  lemma CommentIsFirstOutside(value: string)
    ensures var at := CommentAt(value, 0, NoQuote);
      && (at < |value| ==> StartsComment(value, at) && Outside(value, at))
      && forall k :: 0 <= k < |value| && StartsComment(value, k) && Outside(value, k) ==> at <= k
  {
    if CommentAt(value, 0, NoQuote) < |value| {
      FoundOutside(value, 0);
    }
    forall k | 0 <= k < |value| && StartsComment(value, k) && Outside(value, k)
      ensures CommentAt(value, 0, NoQuote) <= k
    {
      ThroughTokens(value, k);
    }
  }

  /** The single quotes among the first `n` characters. */
  function Quotes(value: string, n: nat): nat
    requires n <= |value|
  {
    if n == 0 then 0 else Quotes(value, n - 1) + if value[n - 1] == '\'' then 1 else 0
  }

  lemma {:induction false} NoQuotes(value: string, i: nat, n: nat)
    requires i <= n <= |value| && forall k :: i <= k < n ==> value[k] != '\''
    ensures Quotes(value, n) == Quotes(value, i)
  {
    if i < n {
      NoQuotes(value, i, n - 1);
    }
  }

  lemma TokenIsEven(value: string, m: nat, n: nat)
    requires TokenAt(value, m, n) && '"' !in value
    ensures Quotes(value, n) % 2 == Quotes(value, m) % 2
  {
    assert !DoubleAt(value, m, n);
    if SingleAt(value, m, n) {
      NoQuotes(value, m + 1, n - 1);
    }
  }

  lemma {:induction false} TokensAreEven(value: string, n: nat)
    requires n <= |value| && Outside(value, n) && '"' !in value
    ensures Quotes(value, n) % 2 == 0
  {
    if n > 0 {
      var m: nat :| m < n && TokenAt(value, m, n) && Outside(value, m);
      TokensAreEven(value, m);
      TokenIsEven(value, m, n);
    }
  }

  lemma {:induction false} PreviousQuote(value: string, n: nat) returns (j: nat)
    requires n <= |value| && Quotes(value, n) > 0
    ensures j < n && value[j] == '\'' && (forall k :: j < k < n ==> value[k] != '\'')
    ensures Quotes(value, j) == Quotes(value, n) - 1
  {
    if value[n - 1] == '\'' {
      j := n - 1;
    } else {
      j := PreviousQuote(value, n - 1);
    }
  }

  lemma {:induction false} EvenIsOutside(value: string, n: nat)
    requires '"' !in value && n <= |value| && Quotes(value, n) % 2 == 0
    ensures Outside(value, n)
  {
    if n > 0 {
      var m := n - 1;
      if value[n - 1] == '\'' {
        m := PreviousQuote(value, n - 1);
        assert SingleAt(value, m, n);
      } else {
        assert PlainAt(value, m, n);
      }
      EvenIsOutside(value, m);
      assert TokenAt(value, m, n);
    }
  }

  /** Without double quotes, no quote is open exactly after an even number of them. */
  lemma OutsideIffEven(value: string, n: nat)
    requires '"' !in value && n <= |value|
    ensures Outside(value, n) <==> Quotes(value, n) % 2 == 0
  {
    if Quotes(value, n) % 2 == 0 {
      EvenIsOutside(value, n);
    }
    if Outside(value, n) {
      TokensAreEven(value, n);
    }
  }

  // ---------------------------------------------------------------------------
  // Decoding.

  function Undoubled(s: string): string
    decreases |s|
  {
    if |s| == 0 then ""
    else if |s| > 1 && s[0] == '\'' && s[1] == '\'' then "'" + Undoubled(s[2..])
    else [s[0]] + Undoubled(s[1..])
  }

  function LowerAscii(s: string): string {
    if |s| == 0 then "" else [if 'A' <= s[0] <= 'Z' then s[0] - 'A' + 'a' else s[0]] + LowerAscii(s[1..])
  }

  predicate Digits(s: string) {
    forall i :: 0 <= i < |s| ==> '0' <= s[i] <= '9'
  }

  /** Digits with an optional point after at least one of them, or a point and digits. */
  predicate Unsigned(s: string) {
    || (s != "" && Digits(s))
    || (exists i :: 0 < i < |s| && s[i] == '.' && Digits(s[..i]) && Digits(s[i + 1..]))
    || (|s| > 1 && s[0] == '.' && Digits(s[1..]))
  }

  predicate Numeric(s: string) {
    Unsigned(s) || (|s| > 0 && (s[0] == '+' || s[0] == '-') && Unsigned(s[1..]))
  }

  function ParseScalar(json: string -> Option<string>, value: string): Result<string, ScalarError> {
    var trimmed := Trim(Stripped(value));
    if trimmed == "" then Err(NotAScalar)
    else if trimmed[0] == '"' then
      var decoded := json(trimmed);
      if decoded.None? then Err(InvalidQuoted) else Ok(Trim(decoded.value))
    else if trimmed[0] == '\'' then
      if trimmed[|trimmed| - 1] != '\'' || |trimmed| < 2 then Err(InvalidQuoted)
      else Ok(Trim(Undoubled(trimmed[1..|trimmed| - 1])))
    else if trimmed[0] == '[' || trimmed[0] == '{' || trimmed[0] == '&' || trimmed[0] == '*' then Err(NotAScalar)
    else if LowerAscii(trimmed) in {"null", "~", "true", "false"} || Numeric(trimmed) then Err(NotAScalar)
    else Ok(trimmed)
  }

  // ---------------------------------------------------------------------------
  // Writing a value in quotes.

  function Doubled(s: string): string {
    if |s| == 0 then "" else (if s[0] == '\'' then "''" else [s[0]]) + Doubled(s[1..])
  }

  function SingleQuoted(s: string): string {
    "'" + Doubled(s) + "'"
  }

  /** What YAML 1.2.2, section 6.6, lets follow a value on its line: white space, and a comment
      separated by white space. */
  predicate Trailing(after: string) {
    exists k :: 0 <= k <= |after| && AllSpace(after[..k]) && (k == |after| || (k > 0 && after[k] == '#'))
  }

  predicate Untrimmed(s: string) {
    |s| > 0 ==> !Space(s[0]) && !Space(s[|s| - 1])
  }

  lemma {:induction false} UndoubledDoubled(s: string)
    ensures Undoubled(Doubled(s)) == s
    ensures |s| > 0 && s[0] != '\'' ==> |Doubled(s)| > 0 && Doubled(s)[0] == s[0]
    decreases |s|
  {
    if |s| > 0 {
      var rest := Doubled(s[1..]);
      UndoubledDoubled(s[1..]);
      if s[0] == '\'' {
        assert ("''" + rest)[2..] == rest;
      } else {
        assert ([s[0]] + rest)[1..] == rest;
      }
    }
  }

  /** Inside single quotes nothing starts a comment, and the doubled text ends at its own quote. */
  lemma {:induction false} PastSingle(value: string, i: nat, s: string, rest: string)
    requires i <= |value| && value[i..] == Doubled(s) + "'" + rest
    requires |rest| > 0 ==> rest[0] != '\''
    ensures CommentAt(value, i, Single) == CommentAt(value, |value| - |rest|, NoQuote)
    decreases |s|
  {
    if |s| == 0 {
      assert value[i..] == "'" + rest;
      assert value[i] == value[i..][0] && (|rest| > 0 ==> value[i + 1] == value[i..][1]);
      assert i + 1 == |value| - |rest|;
    } else {
      var tail := Doubled(s[1..]) + "'" + rest;
      if s[0] == '\'' {
        assert value[i..] == "''" + tail;
        assert value[i] == value[i..][0] && value[i + 1] == value[i..][1];
        assert value[i + 2..] == value[i..][2..] == tail;
        PastSingle(value, i + 2, s[1..], rest);
      } else {
        assert value[i..] == [s[0]] + tail;
        assert value[i] == value[i..][0] == s[0];
        assert value[i + 1..] == value[i..][1..] == tail;
        PastSingle(value, i + 1, s[1..], rest);
      }
    }
  }

  lemma {:induction false} PastSpace(value: string, i: nat, k: nat)
    requires i <= k <= |value| && AllSpace(value[i..k])
    requires k < |value| ==> k > 0 && value[k] == '#' && Space(value[k - 1])
    ensures CommentAt(value, i, NoQuote) == k
    decreases k - i
  {
    if i < k {
      assert Space(value[i..k][0]) && value[i..k][0] == value[i];
      var rest := value[i + 1..k];
      forall j | 0 <= j < |rest| ensures Space(rest[j]) {
        assert rest[j] == value[i..k][j + 1];
      }
      PastSpace(value, i + 1, k);
    }
  }

  lemma {:induction false} TrimEndSpace(s: string, space: string)
    requires AllSpace(space) && (|s| > 0 ==> !Space(s[|s| - 1]))
    ensures TrimEnd(s + space) == s
    decreases |space|
  {
    if |space| == 0 {
      assert s + space == s;
    } else {
      assert (s + space)[..|s + space| - 1] == s + space[..|space| - 1];
      TrimEndSpace(s, space[..|space| - 1]);
    }
  }

  lemma TrimTight(s: string, space: string)
    requires Untrimmed(s) && AllSpace(space) && |s| > 0
    ensures Trim(s + space) == s
  {
    assert (s + space)[0] == s[0];
    TrimEndSpace(s, space);
  }

  /** What is left once the comment is gone: the value, perhaps with white space behind it. */
  lemma CutAtSpace(value: string, quoted: string, after: string) returns (space: string)
    requires value == quoted + after && |quoted| > 0 && !Space(quoted[|quoted| - 1]) && quoted[|quoted| - 1] != '#'
    requires Trailing(after) && CommentAt(value, 0, NoQuote) == CommentAt(value, |quoted|, NoQuote)
    ensures AllSpace(space) && Stripped(value) == quoted + space
  {
    var k :| 0 <= k <= |after| && AllSpace(after[..k]) && (k == |after| || (k > 0 && after[k] == '#'));
    var at := |quoted| + k;
    assert value[|quoted|..at] == after[..k];
    if k < |after| {
      assert value[at] == '#' && value[at - 1] == after[..k][k - 1];
    }
    PastSpace(value, |quoted|, at);
    if k < |after| {
      space := "";
      assert value[..at] == quoted + after[..k];
      TrimEndSpace(quoted, after[..k]);
      assert quoted + space == quoted;
    } else {
      space := after;
      assert after[..k] == after;
    }
  }

  lemma StripSingle(s: string, after: string) returns (space: string)
    requires Trailing(after)
    ensures AllSpace(space) && Stripped(SingleQuoted(s) + after) == SingleQuoted(s) + space
  {
    var quoted := SingleQuoted(s);
    var value := quoted + after;
    assert value[1..] == Doubled(s) + "'" + after;
    var k :| 0 <= k <= |after| && AllSpace(after[..k]) && (k == |after| || (k > 0 && after[k] == '#'));
    if |after| > 0 {
      assert Space(after[..k][0]) && after[..k][0] == after[0];
    }
    PastSingle(value, 1, s, after);
    space := CutAtSpace(value, quoted, after);
  }

  /** Sections 7.3.2 and 6.6 of YAML 1.2.2: a value in single quotes, each quote doubled, reads
      back as itself, whatever hashes and quotes it holds and whatever comment follows. */
  lemma SingleQuotedRoundTrip(json: string -> Option<string>, s: string, after: string)
    requires Untrimmed(s) && Trailing(after)
    ensures ParseScalar(json, SingleQuoted(s) + after) == Ok(s)
  {
    var space := StripSingle(s, after);
    var quoted := SingleQuoted(s);
    TrimTight(quoted, space);
    assert quoted[1..|quoted| - 1] == Doubled(s);
    UndoubledDoubled(s);
    TrimTightOrEmpty(s);
  }

  lemma TrimTightOrEmpty(s: string)
    requires Untrimmed(s)
    ensures Trim(s) == s
  {
    if |s| > 0 {
      TrimTight(s, "");
      assert s + "" == s;
    }
  }

  // ---------------------------------------------------------------------------
  // Double quotes: the body of a JSON string, where a backslash hides the next character.

  predicate JsonBody(s: string)
    decreases |s|
  {
    |s| == 0 ||
    (if s[0] == '\\' then |s| > 1 && JsonBody(s[2..]) else s[0] != '"' && JsonBody(s[1..]))
  }

  lemma {:induction false} PastDouble(value: string, i: nat, s: string, rest: string)
    requires i <= |value| && value[i..] == s + "\"" + rest && JsonBody(s)
    ensures CommentAt(value, i, Double) == CommentAt(value, |value| - |rest|, NoQuote)
    decreases |s|
  {
    assert value[i] == value[i..][0];
    if |s| == 0 {
      assert value[i..] == "\"" + rest;
    } else if s[0] == '\\' {
      assert value[i + 2..] == value[i..][2..] == s[2..] + "\"" + rest;
      PastDouble(value, i + 2, s[2..], rest);
    } else {
      assert value[i + 1..] == value[i..][1..] == s[1..] + "\"" + rest;
      PastDouble(value, i + 1, s[1..], rest);
    }
  }

  /** A JSON string literal reaches the decoder whole, whatever it holds and whatever follows. */
  lemma DoubleQuotedIsDecoded(json: string -> Option<string>, body: string, after: string, s: string)
    requires JsonBody(body) && Trailing(after)
    requires json("\"" + body + "\"") == Some(s) && Untrimmed(s)
    ensures ParseScalar(json, "\"" + body + "\"" + after) == Ok(s)
  {
    var quoted := "\"" + body + "\"";
    var value := quoted + after;
    assert value[1..] == body + "\"" + after;
    PastDouble(value, 1, body, after);
    var space := CutAtSpace(value, quoted, after);
    TrimTight(quoted, space);
    TrimTightOrEmpty(s);
  }

  // ---------------------------------------------------------------------------
  // How much laxer than section 7.3.2 the decoder is.

  /** Every run of quotes is even: the text between the quotes of a conforming scalar. */
  predicate Conforms(u: string)
    decreases |u|
  {
    |u| == 0
    || (if u[0] == '\'' then |u| > 1 && u[1] == '\'' && Conforms(u[2..]) else Conforms(u[1..]))
  }

  lemma {:induction false} ConformsIffDoubled(u: string)
    ensures Conforms(u) <==> u == Doubled(Undoubled(u))
    ensures Conforms(u) <==> exists s :: u == Doubled(s)
    decreases |u|
  {
    if |u| > 0 {
      if u[0] == '\'' {
        if |u| > 1 && u[1] == '\'' {
          ConformsIffDoubled(u[2..]);
          var rest := Undoubled(u[2..]);
          assert ("'" + rest)[0] == '\'' && ("'" + rest)[1..] == rest;
          assert u == "''" + u[2..];
        } else {
          LoneQuoteLeads(u);
        }
      } else {
        ConformsIffDoubled(u[1..]);
        var rest := Undoubled(u[1..]);
        assert ([u[0]] + rest)[1..] == rest;
        assert u == [u[0]] + u[1..];
      }
    }
    if s :| u == Doubled(s) {
      DoubledConforms(s);
    }
  }

  lemma LoneQuoteLeads(u: string)
    requires |u| > 0 && u[0] == '\'' && (|u| == 1 || u[1] != '\'')
    ensures forall s :: u != Doubled(s)
  {
    forall s ensures u != Doubled(s) {
      if |s| > 0 && s[0] == '\'' {
        assert Doubled(s)[..2] == "''";
      }
    }
  }

  lemma {:induction false} DoubledConforms(s: string)
    ensures Conforms(Doubled(s))
  {
    if |s| > 0 {
      var rest := Doubled(s[1..]);
      DoubledConforms(s[1..]);
      if s[0] == '\'' {
        assert ("''" + rest)[2..] == rest;
      } else {
        assert ([s[0]] + rest)[1..] == rest;
      }
    }
  }

  /** With quotes around the text, every hash behind white space has an open quote before it. */
  ghost predicate NoCommentIn(u: string) {
    NoCommentOutside("'" + u + "'")
  }

  ghost predicate NoCommentOutside(value: string) {
    forall k :: 0 <= k < |value| && StartsComment(value, k) ==> !Outside(value, k)
  }

  lemma StrippedIff(value: string)
    ensures Stripped(value) == value <==> NoCommentOutside(value)
  {
    CommentIsFirstOutside(value);
  }

  /** A text between single quotes is taken whole, and decoded by halving its pairs of quotes,
      exactly when no hash behind white space lies outside quotes. */
  lemma TakenWholeIff(json: string -> Option<string>, u: string)
    ensures Stripped("'" + u + "'") == "'" + u + "'" <==> NoCommentIn(u)
    ensures NoCommentIn(u) ==> ParseScalar(json, "'" + u + "'") == Ok(Trim(Undoubled(u)))
  {
    var value := "'" + u + "'";
    StrippedIff(value);
    TrimTightOrEmpty(value);
    assert value[1..|value| - 1] == u;
  }

  lemma {:induction false} QuotesShifted(u: string, k: nat)
    requires k <= |u|
    ensures Quotes("'" + u + "'", k + 1) == Quotes(u, k) + 1
  {
    var value := "'" + u + "'";
    if k > 0 {
      QuotesShifted(u, k - 1);
      assert value[k] == u[k - 1];
    } else {
      assert Quotes(value, 0) == 0 && value[0] == '\'';
    }
  }

  lemma QuotedCommentIff(u: string, k: nat)
    requires k < |u| + 2 && '"' !in u
    ensures var value := "'" + u + "'";
      StartsComment(value, k) && Outside(value, k) <==>
      2 <= k <= |u| && u[k - 1] == '#' && Space(u[k - 2]) && Quotes(u, k - 1) % 2 == 1
  {
    var value := "'" + u + "'";
    assert forall i :: 1 <= i <= |u| ==> value[i] == u[i - 1];
    if 1 <= k <= |u| {
      QuotesShifted(u, k - 1);
    }
    assert '"' !in value by {
      forall i | 0 <= i < |value| ensures value[i] != '"' { }
    }
    OutsideIffEven(value, k);
  }

  /** Each hash behind white space has an even number of quotes before it. */
  predicate EvenBeforeHashes(u: string) {
    forall k :: 0 < k < |u| && u[k] == '#' && Space(u[k - 1]) ==> Quotes(u, k) % 2 == 0
  }

  /** For a text without double quotes it is enough to count: it is taken whole exactly when the
      quotes before each hash behind white space come in pairs. */
  lemma TakenWholeIffEven(u: string)
    requires '"' !in u
    ensures Stripped("'" + u + "'") == "'" + u + "'" <==> EvenBeforeHashes(u)
  {
    var value := "'" + u + "'";
    StrippedIff(value);
    if k :| 0 <= k < |value| && StartsComment(value, k) && Outside(value, k) {
      QuotedCommentIff(u, k);
      assert !EvenBeforeHashes(u);
    } else if k :| 0 < k < |u| && u[k] == '#' && Space(u[k - 1]) && Quotes(u, k) % 2 != 0 {
      QuotedCommentIff(u, k + 1);
      assert false;
    }
  }

  lemma DoubledHasNoComment(s: string, u: string)
    requires u == Doubled(s)
    ensures NoCommentIn(u)
  {
    var value := "'" + u + "'";
    assert value[1..] == u + "'" + "";
    PastSingle(value, 1, s, "");
    CommentIsFirstOutside(value);
  }

  /** Every conforming text is taken whole and decodes to the value it quotes. */
  lemma ConformingIsTaken(json: string -> Option<string>, u: string)
    requires Conforms(u)
    ensures NoCommentIn(u) && u == Doubled(Undoubled(u))
    ensures ParseScalar(json, "'" + u + "'") == Ok(Trim(Undoubled(u)))
  {
    ConformsIffDoubled(u);
    DoubledHasNoComment(Undoubled(u), u);
    TakenWholeIff(json, u);
  }

  /** So is every text without a hash, conforming or not. */
  lemma HashlessIsTaken(json: string -> Option<string>, u: string)
    requires '#' !in u
    ensures ParseScalar(json, "'" + u + "'") == Ok(Trim(Undoubled(u)))
  {
    TakenWholeIff(json, u);
    var value := "'" + u + "'";
    assert forall i :: 0 < i < |value| - 1 ==> value[i] == u[i - 1];
  }

  // ---------------------------------------------------------------------------
  // Everything else a scalar may be.

  /** Unquoted text is taken as it stands, unless it is empty, opens a collection or a reference, or
      reads as a number, a truth value or null. A quote that is not closed is an error. */
  lemma UnquotedIs(json: string -> Option<string>, value: string)
    requires '#' !in value
    ensures var text := Trim(value);
      && (text == "" || text[0] in {'[', '{', '&', '*'} ==> ParseScalar(json, value) == Err(NotAScalar))
      && (text != "" && text[0] !in {'[', '{', '&', '*', '\'', '"'} ==>
            ParseScalar(json, value) ==
            if LowerAscii(text) in {"null", "~", "true", "false"} || Numeric(text) then Err(NotAScalar) else Ok(text))
      && (text != "" && text[0] == '\'' && (|text| == 1 || text[|text| - 1] != '\'') ==>
            ParseScalar(json, value) == Err(InvalidQuoted))
  {
    StrippedIff(value);
  }
}
