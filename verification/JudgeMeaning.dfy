/** What judging an answer amounts to: the choices, score or words that the typed text means
    (packages/shared-types/src/survey-logic.ts). */
module JudgeMeaning {
  import opened Prelude
  import opened Texts
  import opened Dialogue
  import opened SurveyAnswers
  import opened TypedAnswers

  // ---------------------------------------------------------------- the choices that tokens name

  ghost predicate NamedKey(lib: Lib, choices: seq<Choice>, token: string, key: Id)
  {
    exists i: nat :: Names(lib, choices, token, i) && choices[i].key == key
  }

  /** Token by token, the keys of the choices named. */
  ghost predicate KeysNamed(lib: Lib, choices: seq<Choice>, tokens: seq<string>, keys: seq<Id>)
  {
    |keys| == |tokens| && forall k :: 0 <= k < |keys| ==> NamedKey(lib, choices, tokens[k], keys[k])
  }

  lemma {:induction false} TokensNamed(lib: Lib, choices: seq<Choice>, tokens: seq<string>)
    ensures var r := ResolveTokens(lib, choices, tokens);
      && (r.Some? ==> KeysNamed(lib, choices, tokens, r.value))
      && (r.None? ==> exists i :: 0 <= i < |tokens| && NamesNothing(lib, choices, tokens[i]))
  {
    hide ResolveToken, Names, NamesNothing;
    if tokens != [] {
      TokenNamesNothing(lib, choices, tokens[0]);
      TokensNamed(lib, choices, tokens[1..]);
      var rest := ResolveTokens(lib, choices, tokens[1..]);
      if ResolveToken(lib, choices, tokens[0]).None? {
        assert NamesNothing(lib, choices, tokens[0]);
      } else {
        var i: nat :| Names(lib, choices, tokens[0], i);
        TokenNames(lib, choices, tokens[0], i);
        assert NamedKey(lib, choices, tokens[0], choices[i].key);
        if rest.None? {
          var j :| 0 <= j < |tokens[1..]| && NamesNothing(lib, choices, tokens[1..][j]);
          assert tokens[1..][j] == tokens[j + 1];
        }
      }
    }
  }

  /** The token loop of `matchMultiChoice`, which stops at the first token that names no choice. */
  method CollectKeys(lib: Lib, choices: seq<Choice>, tokens: seq<string>) returns (r: Option<seq<Id>>)
    ensures r == ResolveTokens(lib, choices, tokens)
    ensures r.Some? ==> KeysNamed(lib, choices, tokens, r.value)
    ensures r.None? ==> exists i :: 0 <= i < |tokens| && NamesNothing(lib, choices, tokens[i])
  {
    hide ResolveToken, Names, NamesNothing, KeysNamed;
    TokensNamed(lib, choices, tokens);
    var keys: seq<Id> := [];
    var i := 0;
    PrependNothing(ResolveTokens(lib, choices, tokens));
    assert tokens[0..] == tokens;
    while i < |tokens|
      invariant 0 <= i <= |tokens|
      invariant ResolveTokens(lib, choices, tokens) == Prepend(keys, ResolveTokens(lib, choices, tokens[i..]))
    {
      var key := ResolveToken(lib, choices, tokens[i]);
      assert tokens[i..][0] == tokens[i] && tokens[i..][1..] == tokens[i + 1..];
      if key.None? {
        return None;
      }
      PrependOne(keys, key.value, ResolveTokens(lib, choices, tokens[i + 1..]));
      keys := keys + [key.value];
      i := i + 1;
    }
    assert tokens[i..] == [] && keys + [] == keys;
    return Some(keys);
  }

  lemma PrependNothing(rest: Option<seq<Id>>)
    ensures Prepend([], rest) == rest
  {
    if rest.Some? {
      assert [] + rest.value == rest.value;
    }
  }

  lemma PrependOne(keys: seq<Id>, key: Id, rest: Option<seq<Id>>)
    ensures Prepend(keys, Prepend([key], rest)) == Prepend(keys + [key], rest)
  {
    if rest.Some? {
      assert keys + ([key] + rest.value) == (keys + [key]) + rest.value;
    }
  }

  ghost predicate NamedBySome(lib: Lib, choices: seq<Choice>, tokens: seq<string>, key: Id)
  {
    exists k :: 0 <= k < |tokens| && NamedKey(lib, choices, tokens[k], key)
  }

  /** Exactly the keys that the tokens name, once each, in the order of the choices. */
  ghost predicate ListsNamed(lib: Lib, choices: seq<Choice>, tokens: seq<string>, keys: seq<Id>)
  {
    && (forall key :: key in keys <==> NamedBySome(lib, choices, tokens, key))
    && forall i, j :: 0 <= i < j < |keys| ==> ComesBefore(choices, keys[i], keys[j])
  }

  /** The first choice with key `a` stands before every choice with key `b`. */
  ghost predicate ComesBefore(choices: seq<Choice>, a: Id, b: Id)
  {
    exists i :: 0 <= i < |choices| && choices[i].key == a && forall j :: 0 <= j <= i ==> choices[j].key != b
  }

  lemma NamedOnce(lib: Lib, choices: seq<Choice>, token: string, key: Id, other: Id)
    requires NamedKey(lib, choices, token, key) && NamedKey(lib, choices, token, other)
    ensures key == other
  {
    hide Names;
    var i: nat :| Names(lib, choices, token, i) && choices[i].key == key;
    var j: nat :| Names(lib, choices, token, j) && choices[j].key == other;
    NamesOne(lib, choices, token, i, j);
  }

  lemma UniqueNamed(lib: Lib, choices: seq<Choice>, tokens: seq<string>, keys: seq<Id>, unique: seq<Id>, key: Id)
    requires KeysNamed(lib, choices, tokens, keys) && forall k :: k in unique <==> k in keys
    ensures key in unique <==> NamedBySome(lib, choices, tokens, key)
  {
    hide NamedKey;
    if key in unique {
      var k :| 0 <= k < |keys| && keys[k] == key;
    }
    if NamedBySome(lib, choices, tokens, key) {
      var k :| 0 <= k < |tokens| && NamedKey(lib, choices, tokens[k], key);
      NamedOnce(lib, choices, tokens[k], key, keys[k]);
    }
  }

  lemma SameKeys(choices: seq<Choice>, keys: seq<Id>)
    requires forall i :: 0 <= i < |keys| ==> HasKey(choices, keys[i])
    ensures forall k :: k in UniqueByRank(choices, keys) <==> k in keys
  {
    hide UniqueByRank, Rank, HasKey;
    UniqueByRankIsSorted(choices, keys);
  }

  lemma UniqueListsNamed(lib: Lib, choices: seq<Choice>, tokens: seq<string>, keys: seq<Id>)
    requires KeysNamed(lib, choices, tokens, keys) && forall i :: 0 <= i < |keys| ==> HasKey(choices, keys[i])
    ensures ListsNamed(lib, choices, tokens, UniqueByRank(choices, keys))
  {
    hide KeysNamed, NamedBySome, UniqueByRank, Rank, HasKey, ComesBefore;
    var unique := UniqueByRank(choices, keys);
    SameKeys(choices, keys);
    forall key ensures key in unique <==> NamedBySome(lib, choices, tokens, key) {
      UniqueNamed(lib, choices, tokens, keys, unique, key);
    }
    forall i, j | 0 <= i < j < |unique| ensures ComesBefore(choices, unique[i], unique[j]) {
      UniqueByRankIsSorted(choices, keys);
      assert unique[i] in keys;
      RankedBefore(choices, unique[i], unique[j]);
    }
  }

  lemma RankedBefore(choices: seq<Choice>, a: Id, b: Id)
    requires HasKey(choices, a) && Rank(choices, a) < Rank(choices, b)
    ensures ComesBefore(choices, a, b)
  {
    var i := Rank(choices, a);
  }

  /** How a list of named choices is received. */
  ghost predicate Received(q: Question, keys: seq<Id>, j: Judgement)
    requires q.MultiChoice?
  {
    j == if |keys| < q.minSelect then Rejected(TooFew) else if |keys| > q.maxSelect then Rejected(TooMany)
         else Accepted(ChoiceAnswer(keys))
  }

  ghost predicate TokensReceived(lib: Lib, q: Question, tokens: seq<string>, j: Judgement)
    requires q.MultiChoice?
  {
    if tokens == [] || exists k :: 0 <= k < |tokens| && NamesNothing(lib, q.choices, tokens[k])
    then j == Rejected(NotAChoice)
    else exists keys :: ListsNamed(lib, q.choices, tokens, keys) && Received(q, keys, j)
  }

  lemma TokensJudged(lib: Lib, q: Question, tokens: seq<string>)
    requires q.MultiChoice?
    ensures TokensReceived(lib, q, tokens, JudgeTokens(lib, q.choices, q.minSelect, q.maxSelect, tokens))
  {
    hide NamesNothing, KeysNamed, ListsNamed, UniqueByRank, ResolveTokens;
    TokensNamed(lib, q.choices, tokens);
    var keys := ResolveTokens(lib, q.choices, tokens);
    if tokens != [] && keys.Some? {
      UniqueListsNamed(lib, q.choices, tokens, keys.value);
      AllNamed(lib, q.choices, tokens, keys.value);
      var unique := UniqueByRank(q.choices, keys.value);
      assert Received(q, unique, JudgeTokens(lib, q.choices, q.minSelect, q.maxSelect, tokens));
    }
  }

  lemma AllNamed(lib: Lib, choices: seq<Choice>, tokens: seq<string>, keys: seq<Id>)
    requires KeysNamed(lib, choices, tokens, keys)
    ensures forall k :: 0 <= k < |tokens| ==> !NamesNothing(lib, choices, tokens[k])
  {
    hide Names;
    forall k | 0 <= k < |tokens| ensures !NamesNothing(lib, choices, tokens[k]) {
      assert NamedKey(lib, choices, tokens[k], keys[k]);
    }
  }

  // ---------------------------------------------------------------- scores

  ghost predicate WritesScoreWith(t: string, n: nat, star: string, spaces: string, sign: string, digits: string, rest: string)
  {
    && t == star + spaces + sign + digits + rest && (star == "" || star == "★") && AllSpaces(spaces) && (sign == "" || sign == "-")
    && AllDigits(digits) && 1 <= |digits| <= 2 && (|digits| == 2 || rest == [] || !IsDigit(rest[0])) && n == NumberOf(digits)
  }

  function Signed(sign: string, n: nat): int { if sign == "-" then -(n as int) else n }

  /** A star or none, spaces, a minus sign or none, as many digits as there are but at most two, and anything after them. */
  ghost predicate WritesScore(t: string, v: int)
  {
    exists n: nat, star, spaces, sign, digits, rest :: WritesScoreWith(t, n, star, spaces, sign, digits, rest) && v == Signed(sign, n)
  }

  lemma ScoreIff(t: string, v: int)
    ensures ScoreNumber(t) == Some(v) <==> WritesScore(t, v)
  {
    if ScoreNumber(t) == Some(v) {
      ScoreIsWritten(t, v);
    }
    if n: nat, star, spaces, sign, digits, rest :| WritesScoreWith(t, n, star, spaces, sign, digits, rest) && v == Signed(sign, n) {
      WrittenIsScore(t, n, star, spaces, sign, digits, rest);
    }
  }

  lemma SignedIsWritten(body: string) returns (n: nat, sign: string, digits: string, rest: string)
    requires SignedNumber(body).Some?
    ensures body == sign + digits + rest && (sign == "" || sign == "-")
    ensures AllDigits(digits) && 1 <= |digits| <= 2 && (|digits| == 2 || rest == [] || !IsDigit(rest[0])) && n == NumberOf(digits)
    ensures SignedNumber(body) == Some(Signed(sign, n))
  {
    hide LeadingNumber, NumberOf, IsDigit;
    sign := if body != [] && body[0] == '-' then "-" else "";
    var number := body[|sign|..];
    LeadIs(number);
    n := LeadingNumber(number).value.0;
    rest := LeadingNumber(number).value.1;
    digits := number[..|number| - |rest|];
  }

  lemma JoinedBack(t: string, star: string, afterStar: string, spaces: string, body: string, sign: string, digits: string, rest: string)
    requires t == star + afterStar && afterStar == spaces + body && body == sign + digits + rest
    ensures t == star + spaces + sign + digits + rest
  {
  }

  lemma ScoreIsWritten(t: string, v: int)
    requires ScoreNumber(t) == Some(v)
    ensures WritesScore(t, v)
  {
    hide SignedNumber, DropSpaces, NumberOf, IsSpace, IsDigit, Signed;
    var star := if t != [] && t[0] == '★' then "★" else "";
    var afterStar := t[|star|..];
    var spaces := Spaces(afterStar);
    var n, sign, digits, rest := SignedIsWritten(DropSpaces(afterStar));
    assert t == star + afterStar;
    JoinedBack(t, star, afterStar, spaces, DropSpaces(afterStar), sign, digits, rest);
    assert WritesScoreWith(t, n, star, spaces, sign, digits, rest);
  }

  lemma WrittenIsSigned(n: nat, sign: string, digits: string, rest: string)
    requires AllDigits(digits) && 1 <= |digits| <= 2 && (|digits| == 2 || rest == [] || !IsDigit(rest[0])) && n == NumberOf(digits)
    requires sign == "" || sign == "-"
    ensures var body := sign + (digits + rest); SignedNumber(body) == Some(Signed(sign, n)) && !IsSpace(body[0]) && body[0] != '★'
  {
    hide LeadingNumber, NumberOf;
    var number := digits + rest;
    var body := sign + number;
    assert number[0] == digits[0] && IsDigit(digits[0]);
    assert body[0] == if sign == "-" then '-' else digits[0];
    assert sign == "-" ==> body[1..] == number;
    assert sign == "" ==> body == number;
    DigitsLead(digits, rest);
  }

  lemma WrittenIsScore(t: string, n: nat, star: string, spaces: string, sign: string, digits: string, rest: string)
    requires WritesScoreWith(t, n, star, spaces, sign, digits, rest)
    ensures ScoreNumber(t) == Some(Signed(sign, n))
  {
    hide SignedNumber, DropSpaces, NumberOf, Signed;
    var body := sign + (digits + rest);
    WrittenIsSigned(n, sign, digits, rest);
    var afterStar := spaces + body;
    assert t == star + afterStar;
    assert afterStar[0] == if spaces == [] then body[0] else spaces[0];
    assert star == "★" ==> t[1..] == afterStar;
    assert star == "" ==> t == afterStar;
    DropsSpaces(spaces, body);
  }

  // ---------------------------------------------------------------- words

  predicate NoControl(c: char) { !IsControl(c) }

  lemma {:induction false} StripFilters(s: string)
    ensures StripControl(s) == Filter(NoControl, s)
  {
    hide IsControl;
    if s != [] {
      StripFilters(s[1..]);
    }
  }

  ghost predicate TrimsTo(s: string, r: string, before: string, after: string)
  {
    s == before + r + after && AllSpaces(before) && AllSpaces(after) && Trimmed(r)
  }

  lemma {:induction false} TrimStartTrims(s: string) returns (before: string)
    ensures AllSpaces(before) && s == before + TrimStart(s)
  {
    hide IsSpace;
    if s == [] || !IsSpace(s[0]) {
      before := [];
    } else {
      var rest := TrimStartTrims(s[1..]);
      before := [s[0]] + rest;
      assert TrimStart(s) == TrimStart(s[1..]);
      hide TrimStart;
      assert s == [s[0]] + s[1..];
    }
  }

  lemma {:induction false} TrimEndTrims(s: string) returns (after: string)
    ensures AllSpaces(after) && s == TrimEnd(s) + after
  {
    hide IsSpace;
    if s == [] || !IsSpace(s[|s| - 1]) {
      after := [];
    } else {
      var rest := TrimEndTrims(s[..|s| - 1]);
      after := rest + [s[|s| - 1]];
      assert TrimEnd(s) == TrimEnd(s[..|s| - 1]);
      hide TrimEnd;
      assert s == s[..|s| - 1] + [s[|s| - 1]];
    }
  }

  /** Trimming takes the white space off both ends and nothing else. */
  lemma TrimTrims(s: string) returns (before: string, after: string)
    ensures TrimsTo(s, Trim(s), before, after)
  {
    hide TrimStart, TrimEnd;
    before := TrimStartTrims(s);
    after := TrimEndTrims(TrimStart(s));
  }

  /** `words` is `raw` without control characters and without the white space around what remains. */
  ghost predicate Words(raw: string, words: string)
  {
    exists before, after :: TrimsTo(Filter(NoControl, raw), words, before, after)
  }

  lemma CleanedAreWords(raw: string)
    ensures Words(raw, Trim(StripControl(raw)))
  {
    hide TrimsTo, Trim, StripControl, Filter;
    StripFilters(raw);
    var before, after := TrimTrims(StripControl(raw));
  }

  // ---------------------------------------------------------------- the meaning of an answer

  /** One to five stars, or a score from nought to ten. */
  ghost predicate ScoreReceived(scale: ScaleKind, v: int, j: Judgement)
  {
    j == if (if scale.STAR_5? then 1 <= v <= 5 else 0 <= v <= 10) then Accepted(ScaleAnswer(v)) else Rejected(OutOfRange)
  }

  ghost predicate WordsReceived(maxLength: nat, words: string, j: Judgement)
  {
    j == if words == [] then Rejected(Empty) else if |words| > maxLength then Rejected(TooLong) else Accepted(TextAnswer(words))
  }

  /** What `raw` means as an answer to `q`. */
  ghost predicate Means(lib: Lib, q: Question, raw: string, j: Judgement)
  {
    match q
    case SingleChoice(_, _, _, choices) =>
      if NamesNothing(lib, choices, raw) then j == Rejected(NotAChoice)
      else exists key :: NamedKey(lib, choices, raw, key) && j == Accepted(ChoiceAnswer([key]))
    case MultiChoice(_, _, _, choices, _, _) =>
      exists tokens :: Tokens(lib, choices, raw, tokens) && TokensReceived(lib, q, tokens, j)
    case Scale(_, _, _, scale, _, _) =>
      if exists v :: WritesScore(Trim(raw), v)
      then exists v :: WritesScore(Trim(raw), v) && ScoreReceived(scale, v, j)
      else j == Rejected(NotANumber)
    case FreeText(_, _, _, maxLength) =>
      exists words :: Words(raw, words) && WordsReceived(maxLength, words, j)
  }

  lemma SingleMeans(lib: Lib, q: Question, raw: string)
    requires q.SingleChoice?
    ensures Means(lib, q, raw, Judge(lib, q, raw))
  {
    hide Names, ResolveToken;
    TokenNamesNothing(lib, q.choices, raw);
    if ResolveToken(lib, q.choices, raw).Some? {
      var i: nat :| Names(lib, q.choices, raw, i);
      TokenNames(lib, q.choices, raw, i);
      assert NamedKey(lib, q.choices, raw, q.choices[i].key);
    }
  }

  lemma MultiMeans(lib: Lib, q: Question, raw: string)
    requires q.MultiChoice?
    ensures Means(lib, q, raw, Judge(lib, q, raw))
  {
    hide Tokens, TokensReceived, AnswerTokens, JudgeTokens;
    TokensAre(lib, q.choices, raw);
    TokensJudged(lib, q, AnswerTokens(lib, q.choices, raw));
  }

  lemma ScaleMeans(lib: Lib, q: Question, raw: string)
    requires q.Scale?
    ensures Means(lib, q, raw, Judge(lib, q, raw))
  {
    hide WritesScore, ScoreNumber, Trim;
    var t := Trim(raw);
    forall v ensures ScoreNumber(t) == Some(v) <==> WritesScore(t, v) {
      ScoreIff(t, v);
    }
    if ScoreNumber(t).Some? {
      assert WritesScore(t, ScoreNumber(t).value);
    }
  }

  /** Whatever is typed is judged as what it means. */
  lemma JudgeMeans(lib: Lib, q: Question, raw: string)
    ensures Means(lib, q, raw, Judge(lib, q, raw))
  {
    hide Means, Judge;
    match q {
      case SingleChoice(_, _, _, _) => SingleMeans(lib, q, raw);
      case MultiChoice(_, _, _, _, _, _) => MultiMeans(lib, q, raw);
      case Scale(_, _, _, _, _, _) => ScaleMeans(lib, q, raw);
      case FreeText(_, _, _, _) => TextMeans(lib, q, raw);
    }
  }

  lemma TextMeans(lib: Lib, q: Question, raw: string)
    requires q.FreeText?
    ensures Means(lib, q, raw, Judge(lib, q, raw))
  {
    hide Words, Trim, StripControl;
    CleanedAreWords(raw);
  }

  // ---------------------------------------------------------------- numbers typed for choices

  lemma DecimalIsBare(n: nat)
    requires n < 100
    ensures WritesNumber(Decimal(n), n) && Trim(Decimal(n)) == Decimal(n) && NoSeparator(Decimal(n))
  {
    var s := Decimal(n);
    DecimalWrites(n, "", "");
    assert s + "" + "" == s;
    forall k | 0 <= k < |s| ensures !IsSpace(s[k]) && !IsSeparator(s[k]) {
      DigitIsNoSpace(s[k]);
    }
    TrimStable(s);
  }

  lemma SuffixIsTrimmed(n: nat, unit: string, dot: string)
    requires n < 100 && (unit == "" || unit == "번") && (dot == "" || dot == ".")
    ensures Trim(Decimal(n) + unit + dot) == Decimal(n) + unit + dot
  {
    hide Trim, Decimal;
    var s := Decimal(n) + unit + dot;
    DigitIsNoSpace(Decimal(n)[0]);
    DigitIsNoSpace(Decimal(n)[|Decimal(n)| - 1]);
    assert s[0] == Decimal(n)[0];
    assert s[|s| - 1] == if dot == "." then '.' else if unit == "번" then '번' else Decimal(n)[|Decimal(n)| - 1];
    TrimStable(s);
  }

  /** The number of a choice, alone, with `번`, with a full stop or with both, is that choice and no other. */
  lemma TypedNumberJudged(lib: Lib, q: Question, n: nat, unit: string, dot: string)
    requires q.SingleChoice? && 1 <= n <= |q.choices| && n < 100
    requires (unit == "" || unit == "번") && (dot == "" || dot == ".")
    requires NoLabel(lib, q.choices, Decimal(n) + unit + dot)
    ensures Judge(lib, q, Decimal(n) + unit + dot) == Accepted(ChoiceAnswer([q.choices[n - 1].key]))
  {
    hide Trim, Decimal, WritesNumber, ResolveToken, NoLabel;
    var raw := Decimal(n) + unit + dot;
    DecimalWrites(n, unit, dot);
    SuffixIsTrimmed(n, unit, dot);
    assert Names(lib, q.choices, raw, n - 1);
    TokenNames(lib, q.choices, raw, n - 1);
  }

  /** A number that no choice has is refused. */
  lemma NumberOutOfRange(lib: Lib, q: Question, n: nat, unit: string, dot: string)
    requires q.SingleChoice? && (n == 0 || |q.choices| < n) && n < 100
    requires (unit == "" || unit == "번") && (dot == "" || dot == ".")
    requires NoLabel(lib, q.choices, Decimal(n) + unit + dot)
    ensures Judge(lib, q, Decimal(n) + unit + dot) == Rejected(NotAChoice)
  {
    hide Trim, Decimal, WritesNumber, OrdinalNumber, ByLabel;
    var raw := Decimal(n) + unit + dot;
    DecimalWrites(n, unit, dot);
    SuffixIsTrimmed(n, unit, dot);
    OrdinalIff(raw, n);
    LabelledIff(lib, q.choices, raw);
  }

  ghost predicate Numbers(choices: seq<Choice>, ns: seq<nat>) { forall k :: 0 <= k < |ns| ==> 1 <= ns[k] <= |choices| && ns[k] < 100 }

  function Written(ns: seq<nat>): (r: seq<string>)
    ensures |r| == |ns| && forall k :: 0 <= k < |r| ==> r[k] == Decimal(ns[k])
  {
    Map(Decimal, ns)
  }

  /** The keys of exactly the choices numbered `ns`, once each, in the order of the choices. */
  ghost predicate ListsChoices(choices: seq<Choice>, ns: seq<nat>, keys: seq<Id>)
    requires Numbers(choices, ns)
  {
    && (forall key :: key in keys <==> exists k :: 0 <= k < |ns| && choices[ns[k] - 1].key == key)
    && forall i, j :: 0 <= i < j < |keys| ==> ComesBefore(choices, keys[i], keys[j])
  }

  lemma NumberNames(lib: Lib, choices: seq<Choice>, n: nat, key: Id)
    requires 1 <= n <= |choices| && n < 100 && NoLabel(lib, choices, Decimal(n))
    ensures NamedKey(lib, choices, Decimal(n), key) <==> choices[n - 1].key == key
    ensures !NamesNothing(lib, choices, Decimal(n))
  {
    hide Trim, Decimal, WritesNumber, NoLabel;
    DecimalIsBare(n);
    assert Names(lib, choices, Decimal(n), n - 1);
    forall i: nat | Names(lib, choices, Decimal(n), i) ensures i == n - 1 {
      NamesOne(lib, choices, Decimal(n), i, n - 1);
    }
  }

  lemma WrittenListsChoices(lib: Lib, choices: seq<Choice>, ns: seq<nat>, keys: seq<Id>)
    requires Numbers(choices, ns) && forall k :: 0 <= k < |ns| ==> NoLabel(lib, choices, Decimal(ns[k]))
    requires ListsNamed(lib, choices, Written(ns), keys)
    ensures ListsChoices(choices, ns, keys)
  {
    hide NamedKey, NoLabel, ComesBefore, Decimal;
    var tokens := Written(ns);
    forall k, key | 0 <= k < |ns| ensures NamedKey(lib, choices, tokens[k], key) <==> choices[ns[k] - 1].key == key {
      NumberNames(lib, choices, ns[k], key);
    }
    forall key ensures key in keys <==> exists k :: 0 <= k < |ns| && choices[ns[k] - 1].key == key {
      assert key in keys <==> NamedBySome(lib, choices, tokens, key);
    }
  }

  lemma NumbersReceived(lib: Lib, q: Question, ns: seq<nat>)
    requires q.MultiChoice? && ns != [] && Numbers(q.choices, ns)
    requires forall k :: 0 <= k < |ns| ==> NoLabel(lib, q.choices, Decimal(ns[k]))
    ensures var j := JudgeTokens(lib, q.choices, q.minSelect, q.maxSelect, Written(ns));
      exists keys :: ListsChoices(q.choices, ns, keys) && Received(q, keys, j)
  {
    hide NoLabel, Decimal, ListsNamed, ListsChoices, Received, NamesNothing, JudgeTokens;
    var tokens := Written(ns);
    TokensJudged(lib, q, tokens);
    forall k | 0 <= k < |tokens| ensures !NamesNothing(lib, q.choices, tokens[k]) {
      NumberNames(lib, q.choices, ns[k], "");
    }
    var j := JudgeTokens(lib, q.choices, q.minSelect, q.maxSelect, tokens);
    var keys :| ListsNamed(lib, q.choices, tokens, keys) && Received(q, keys, j);
    WrittenListsChoices(lib, q.choices, ns, keys);
  }

  lemma {:induction false} WrittenAreTrimmed(ns: seq<nat>)
    requires forall k :: 0 <= k < |ns| ==> ns[k] < 100
    ensures TrimmedPieces(Written(ns)) == Written(ns)
    decreases |ns|
  {
    hide Trim, Decimal;
    if ns != [] {
      DecimalIsBare(ns[0]);
      assert Written(ns)[1..] == Written(ns[1..]);
      WrittenAreTrimmed(ns[1..]);
      assert Written(ns) == [Decimal(ns[0])] + Written(ns[1..]);
    }
  }

  lemma {:induction false} JoinedEnds(ns: seq<nat>, sep: char)
    requires ns != []
    ensures var t := Join(sep, Written(ns)); t != [] && IsDigit(t[0]) && IsDigit(t[|t| - 1])
    decreases |ns|
  {
    hide Decimal, IsDigit;
    var first := Decimal(ns[0]);
    if |ns| > 1 {
      JoinedEnds(ns[1..], sep);
      JoinedParts(ns, sep);
      var rest := Join(sep, Written(ns[1..]));
      hide Join, Written;
      assert (first + [sep] + rest)[0] == first[0];
    }
  }

  lemma JoinedParts(ns: seq<nat>, sep: char)
    requires |ns| > 1
    ensures Join(sep, Written(ns)) == Decimal(ns[0]) + [sep] + Join(sep, Written(ns[1..]))
    ensures Written(ns)[1..] == Written(ns[1..])
  {
    hide Decimal;
    assert Written(ns)[1..] == Written(ns[1..]);
  }

  lemma {:induction false} JoinedIsCut(ns: seq<nat>)
    requires ns != [] && forall k :: 0 <= k < |ns| ==> ns[k] < 100
    ensures CutInto(Join(',', Written(ns)), Written(ns))
    decreases |ns|
  {
    hide Trim, Decimal, IsDigit, NoSeparator, Join;
    var first := Decimal(ns[0]);
    DecimalIsBare(ns[0]);
    if |ns| > 1 {
      JoinedIsCut(ns[1..]);
      JoinedParts(ns, ',');
      var rest := Join(',', Written(ns[1..]));
      var t := Join(',', Written(ns));
      assert t[..|first|] == first && t[|first|] == ',' && t[|first| + 1..] == rest;
    } else {
      JoinedOne(Written(ns));
    }
  }

  lemma {:induction false} JoinedIsSpaced(ns: seq<nat>)
    requires ns != []
    ensures SpacedInto(Join(' ', Written(ns)), Written(ns))
    decreases |ns|
  {
    hide Decimal, IsDigit, Join;
    var first := Decimal(ns[0]);
    if |ns| > 1 {
      JoinedIsSpaced(ns[1..]);
      JoinedParts(ns, ' ');
      var rest := Join(' ', Written(ns[1..]));
      var t := Join(' ', Written(ns));
      assert t[..|first|] == first && t[|first| + 1..] == rest;
      assert t[|first|..|first| + 1] == " ";
      assert SpacedAfter(t, |first|, 1);
    } else {
      JoinedAlone(Written(ns));
    }
  }

  lemma JoinedAlone(words: seq<string>)
    requires |words| == 1
    ensures Join(' ', words) == words[0]
  {
  }

  /** Numbers with commas between them, or two or more with spaces, are judged as the choices they number. */
  lemma TypedListJudged(lib: Lib, q: Question, ns: seq<nat>, sep: char)
    requires q.MultiChoice? && ns != [] && Numbers(q.choices, ns) && (sep == ',' || (sep == ' ' && |ns| > 1))
    requires NoLabel(lib, q.choices, Join(sep, Written(ns)))
    requires forall k :: 0 <= k < |ns| ==> NoLabel(lib, q.choices, Decimal(ns[k]))
    ensures exists keys :: ListsChoices(q.choices, ns, keys) && Received(q, keys, Judge(lib, q, Join(sep, Written(ns))))
  {
    hide NoLabel, Decimal, ListsChoices, Received, JudgeTokens, Join, AnswerTokens;
    NumbersReceived(lib, q, ns);
    if sep == ',' {
      CommasAreTokens(lib, q.choices, ns);
    } else {
      SpacesAreTokens(lib, q.choices, ns);
    }
  }

  lemma DigitsAreTrimmed(t: string)
    requires t != [] && IsDigit(t[0]) && IsDigit(t[|t| - 1])
    ensures Trim(t) == t && Trimmed(t)
  {
    DigitIsNoSpace(t[0]);
    DigitIsNoSpace(t[|t| - 1]);
    TrimStable(t);
  }

  lemma CommasAreTokens(lib: Lib, choices: seq<Choice>, ns: seq<nat>)
    requires ns != [] && NoLabel(lib, choices, Join(',', Written(ns))) && forall k :: 0 <= k < |ns| ==> ns[k] < 100
    ensures AnswerTokens(lib, choices, Join(',', Written(ns))) == Written(ns)
  {
    hide NoLabel, Decimal, Join, CutInto, TrimmedPieces, SplitTokens, SplitAtSpaces, Trim, ByLabel, IsDigit, IsSpace;
    var t := Join(',', Written(ns));
    JoinedIsCut(ns);
    WrittenAreTrimmed(ns);
    PiecesAreCut(t, Written(ns));
    JoinedEnds(ns, ',');
    DigitsAreTrimmed(t);
    LabelledIff(lib, choices, t);
    if |ns| == 1 {
      assert t == Decimal(ns[0]) by { JoinedOne(Written(ns)); }
      OneWord(t);
    }
  }

  lemma JoinedOne(words: seq<string>)
    requires |words| == 1
    ensures Join(',', words) == words[0]
  {
  }

  lemma OneWord(t: string)
    requires t != [] && AllDigits(t)
    ensures SplitAtSpaces(t, []) == [t]
  {
    hide IsSpace, IsDigit;
    forall i | 0 <= i < |t| ensures !IsSpace(t[i]) {
      DigitIsNoSpace(t[i]);
    }
    WordRuns(t, [], |t|);
    LastWord(t);
  }

  lemma SpacesAreTokens(lib: Lib, choices: seq<Choice>, ns: seq<nat>)
    requires |ns| > 1 && NoLabel(lib, choices, Join(' ', Written(ns))) && forall k :: 0 <= k < |ns| ==> ns[k] < 100
    ensures AnswerTokens(lib, choices, Join(' ', Written(ns))) == Written(ns)
  {
    hide NoLabel, Decimal, Join, SpacedInto, SplitTokens, SplitAtSpaces, Trim, ByLabel, IsDigit, IsSpace, NoSeparator, Trimmed;
    var t := Join(' ', Written(ns));
    JoinedIsSpaced(ns);
    SpacedAreSplit(t, Written(ns));
    NumbersHaveNoSeparator(t, Written(ns));
    JoinedEnds(ns, ' ');
    DigitsAreTrimmed(t);
    OnePiece(t);
    LabelledIff(lib, choices, t);
  }

  /** Words without control characters and without white space around them are recorded as they stand. */
  lemma PlainWordsJudged(lib: Lib, q: Question, raw: string)
    requires q.FreeText? && raw != [] && Trimmed(raw) && forall k :: 0 <= k < |raw| ==> !IsControl(raw[k])
    ensures Judge(lib, q, raw) == if |raw| > q.maxLength then Rejected(TooLong) else Accepted(TextAnswer(raw))
  {
    hide IsControl, Trim, Trimmed;
    NothingStripped(raw);
    TrimStable(raw);
  }

  lemma {:induction false} NothingStripped(s: string)
    requires forall k :: 0 <= k < |s| ==> !IsControl(s[k])
    ensures StripControl(s) == s
  {
    if s != [] {
      NothingStripped(s[1..]);
    }
  }

  // ---------------------------------------------------------------- the number printed before a choice

  lemma {:induction false} CaptionNumbered(choices: seq<Choice>, from: nat, i: nat)
    requires from <= i < |choices|
    ensures ChoiceButtons(true, choices, from)[i - from].caption == Ellipsize(Decimal(i + 1) + ". " + choices[i].caption, 40)
    ensures ChoiceButtons(false, choices, from)[i - from].caption == Ellipsize(choices[i].caption, 40)
    decreases |choices| - from
  {
    hide Ellipsize, Decimal;
    if from < i {
      CaptionNumbered(choices, from + 1, i);
    }
  }

  /** Every choice of a multiple choice is printed after its own number, and that number, typed with its full stop, is judged
      as that choice. */
  lemma PrintedNumberIsChoice(lib: Lib, q: Question, i: nat)
    requires q.MultiChoice? && i < |q.choices| < 100 && NoLabel(lib, q.choices, Decimal(i + 1) + ".")
    ensures Decimal(i + 1) + ". " <= AnswerButtons(q)[i].caption
    ensures NamedKey(lib, q.choices, Decimal(i + 1) + ".", q.choices[i].key)
  {
    hide Decimal, NoLabel, WritesNumber, Trim;
    CaptionNumbered(q.choices, 0, i);
    DecimalWrites(i + 1, "", ".");
    SuffixIsTrimmed(i + 1, "", ".");
    assert Decimal(i + 1) + "" + "." == Decimal(i + 1) + ".";
    assert Names(lib, q.choices, Decimal(i + 1) + ".", i);
  }
}
