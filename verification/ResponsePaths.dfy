/** Paths into the JSON answer of an external call (packages/shared-types/src/api-mapping.ts). */
module ResponsePaths {
  import opened Prelude
  import opened Texts

  const PATH_MAX := 200
  const TOKENS_MAX := 10
  const KEY_MAX := 64
  const INDEX_MAX := 9999

  datatype Segment = Key(key: string) | Index(index: nat)

  predicate IsKeyChar(c: char) { c !in ".[]\"'`\\" && !IsSpace(c) }

  predicate Forbidden(key: string) { key == "__proto__" || key == "constructor" || key == "prototype" }

  predicate ValidKey(key: string)
  {
    1 <= |key| <= KEY_MAX && (forall i :: 0 <= i < |key| ==> IsKeyChar(key[i])) && !Forbidden(key)
  }

  predicate ValidSegment(s: Segment) { if s.Key? then ValidKey(s.key) else s.index <= INDEX_MAX }

  // ---------------------------------------------------------------- reading

  /** The number of digits at `s[i..]`, at most `max`. */
  function DigitCount(s: string, i: nat, max: nat): (n: nat)
    requires i <= |s|
    ensures n <= max && i + n <= |s| && forall k :: i <= k < i + n ==> IsDigit(s[k])
    ensures n < max && i + n < |s| ==> !IsDigit(s[i + n])
    decreases max
  {
    if max > 0 && i < |s| && IsDigit(s[i]) then 1 + DigitCount(s, i + 1, max - 1) else 0
  }

  function Number(s: string): nat
    requires AllDigits(s)
  {
    if s == [] then 0 else 10 * Number(s[..|s| - 1]) + DigitValue(s[|s| - 1])
  }

  /** `PATH_INDEX_RE`: the position after `[`, one to four digits and `]`. */
  function IndexEnd(s: string): (r: Option<nat>)
    ensures r.Some? ==> 3 <= r.value <= |s|
  {
    if s == [] || s[0] != '[' then None
    else
      var n := DigitCount(s, 1, 4);
      if n >= 1 && 1 + n < |s| && s[1 + n] == ']' then Some(n + 2) else None
  }

  function IndexValue(s: string): nat
    requires IndexEnd(s).Some?
  {
    Number(s[1..IndexEnd(s).value - 1])
  }

  /** The indices that make up the rest of a token. */
  function Indices(s: string): Option<seq<Segment>>
    decreases |s|
  {
    if s == [] then Some([])
    else if IndexEnd(s).None? || IndexValue(s) > INDEX_MAX then None
    else
      var rest := Indices(s[IndexEnd(s).value..]);
      if rest.None? then None else Some([Index(IndexValue(s))] + rest.value)
  }

  function Bracket(s: string): (i: nat)
    ensures i <= |s| && (i < |s| ==> s[i] == '[') && forall k :: 0 <= k < i ==> s[k] != '['
  {
    if s == [] || s[0] == '[' then 0 else 1 + Bracket(s[1..])
  }

  function ReadToken(token: string): Option<seq<Segment>>
  {
    var key, rest := token[..Bracket(token)], Indices(token[Bracket(token)..]);
    if token == [] || rest.None? then None
    else if key == [] then rest
    else if ValidKey(key) then Some([Key(key)] + rest.value)
    else None
  }

  function ReadTokens(tokens: seq<string>): Option<seq<Segment>>
  {
    if tokens == [] then Some([])
    else
      var first, rest := ReadToken(tokens[0]), ReadTokens(tokens[1..]);
      if first.None? || rest.None? then None else Some(first.value + rest.value)
  }

  function Parse(path: string): Option<seq<Segment>>
  {
    if path == [] || |path| > PATH_MAX || |Split('.', path)| > TOKENS_MAX then None else ReadTokens(Split('.', path))
  }

  // ---------------------------------------------------------------- the loops

  lemma IndexValueIsSmall(s: string)
    requires IndexEnd(s).Some?
    ensures IndexValue(s) <= INDEX_MAX
  {
    var digits := s[1..IndexEnd(s).value - 1];
    NumberBound(digits);
  }

  lemma {:induction false} NumberBound(s: string)
    requires AllDigits(s) && |s| <= 4
    ensures |s| == 0 ==> Number(s) == 0
    ensures |s| == 1 ==> Number(s) <= 9
    ensures |s| == 2 ==> Number(s) <= 99
    ensures |s| == 3 ==> Number(s) <= 999
    ensures |s| == 4 ==> Number(s) <= 9999
  {
    if s != [] {
      NumberBound(s[..|s| - 1]);
    }
  }

  lemma IndicesStep(s: string)
    requires s != []
    ensures IndexEnd(s).None? ==> Indices(s).None?
    ensures IndexEnd(s).Some? ==>
      var rest := Indices(s[IndexEnd(s).value..]);
      Indices(s) == if rest.None? then None else Some([Index(IndexValue(s))] + rest.value)
  {
    hide IndexEnd, IndexValue;
    if IndexEnd(s).Some? {
      IndexValueIsSmall(s);
    }
  }

  function Joined(segments: seq<Segment>, rest: Option<seq<Segment>>): Option<seq<Segment>>
  {
    if rest.None? then None else Some(segments + rest.value)
  }

  lemma JoinedTwice(a: seq<Segment>, b: seq<Segment>, rest: Option<seq<Segment>>)
    ensures Joined(a, Joined(b, rest)) == Joined(a + b, rest) && Joined([], rest) == rest
  {
    if rest.Some? {
      assert a + (b + rest.value) == a + b + rest.value;
      assert [] + rest.value == rest.value;
    }
  }

  /** The body of the token loop of `parseResponsePath`. */
  method ParseToken(token: string, before: seq<Segment>) returns (r: Option<seq<Segment>>)
    ensures r == Joined(before, ReadToken(token))
  {
    hide ValidKey, IndexEnd, IndexValue, Indices;
    if |token| == 0 {
      return None;
    }
    var bracket := Bracket(token);
    var keyPart, rest := token[..bracket], token[bracket..];
    var segments := before;
    ghost var read := if keyPart == [] then [] else [Key(keyPart)];
    if |keyPart| > 0 {
      if !ValidKey(keyPart) {
        return None;
      }
      segments := segments + [Key(keyPart)];
    }
    assert segments == before + read;
    JoinedTwice(before, read, Indices(rest));
    assert Joined(before, ReadToken(token)) == Joined(segments, Indices(rest));
    while |rest| > 0
      invariant Joined(segments, Indices(rest)) == Joined(before, ReadToken(token))
      decreases |rest|
    {
      IndicesStep(rest);
      if IndexEnd(rest).None? {
        return None;
      }
      var n := IndexValue(rest);
      JoinedTwice(segments, [Index(n)], Indices(rest[IndexEnd(rest).value..]));
      segments := segments + [Index(n)];
      rest := rest[IndexEnd(rest).value..];
    }
    NoIndices();
    assert segments + [] == segments;
    return Some(segments);
  }

  lemma NoIndices()
    ensures Indices([]) == Some([])
  {
  }

  /** `parseResponsePath`. */
  method ParseResponsePath(path: string) returns (r: Option<seq<Segment>>)
    ensures r == Parse(path)
  {
    hide ReadToken, Split;
    if |path| == 0 || |path| > PATH_MAX {
      return None;
    }
    var tokens := Split('.', path);
    if |tokens| > TOKENS_MAX {
      return None;
    }
    var segments: seq<Segment> := [];
    assert tokens[0..] == tokens;
    JoinedTwice([], [], ReadTokens(tokens));
    for i := 0 to |tokens|
      invariant Joined(segments, ReadTokens(tokens[i..])) == ReadTokens(tokens)
    {
      assert tokens[i..][0] == tokens[i] && tokens[i..][1..] == tokens[i + 1..];
      var more := ParseToken(tokens[i], segments);
      if more.None? {
        return None;
      }
      JoinedTwice(segments, ReadToken(tokens[i]).value, ReadTokens(tokens[i + 1..]));
      segments := more.value;
    }
    assert tokens[|tokens|..] == [];
    assert segments + [] == segments;
    return Some(segments);
  }

  // ---------------------------------------------------------------- printing and reading back

  function SegmentText(s: Segment): string { if s.Key? then s.key else "[" + Decimal(s.index) + "]" }

  /** The tokens of the shortest path with these segments: every key but a leading index starts one. */
  function Tokens(segments: seq<Segment>): (r: seq<string>)
    requires segments != []
    ensures r != []
  {
    if |segments| == 1 then [SegmentText(segments[0])]
    else
      var rest := Tokens(segments[1..]);
      if segments[1].Index? then [SegmentText(segments[0]) + rest[0]] + rest[1..] else [SegmentText(segments[0])] + rest
  }

  function Print(segments: seq<Segment>): string
    requires segments != []
  {
    Join('.', Tokens(segments))
  }

  lemma {:induction false} NumberOfDecimal(n: nat)
    ensures Number(Decimal(n)) == n
  {
    if n < 10 {
      assert [DigitChar(n)][..0] == [];
    } else {
      NumberOfDecimal(n / 10);
      assert Decimal(n)[..|Decimal(n)| - 1] == Decimal(n / 10);
    }
  }

  lemma {:induction false} DecimalIsShort(n: nat)
    requires n <= INDEX_MAX
    ensures n < 10 ==> |Decimal(n)| == 1
    ensures n < 100 ==> |Decimal(n)| <= 2
    ensures n < 1000 ==> |Decimal(n)| <= 3
    ensures |Decimal(n)| <= 4
  {
    if n >= 10 {
      DecimalIsShort(n / 10);
    }
  }

  lemma {:induction false} CountsDigits(s: string, i: nat, n: nat, max: nat)
    requires i + n < |s| && n <= max && (forall k :: i <= k < i + n ==> IsDigit(s[k])) && !IsDigit(s[i + n])
    ensures DigitCount(s, i, max) == n
    decreases n
  {
    if n > 0 {
      CountsDigits(s, i + 1, n - 1, max - 1);
    }
  }

  lemma PrintedIndexIsRead(n: nat, rest: string)
    requires n <= INDEX_MAX
    ensures var s := "[" + Decimal(n) + "]" + rest;
            && IndexEnd(s) == Some(|Decimal(n)| + 2) && IndexValue(s) == n && s[|Decimal(n)| + 2..] == rest
  {
    hide Decimal, IsDigit, Number;
    var d := Decimal(n);
    var s := "[" + d + "]" + rest;
    DecimalIsShort(n);
    NumberOfDecimal(n);
    assert s[1..|d| + 1] == d && s[|d| + 1] == ']';
    forall k | 1 <= k < 1 + |d| ensures IsDigit(s[k]) {
      assert s[k] == d[k - 1];
    }
    assert !IsDigit(']') by { BracketIsNoDigit(); }
    CountsDigits(s, 1, |d|, 4);
  }

  lemma BracketIsNoDigit()
    ensures !IsDigit(']')
  {
  }

  /** A token that goes on with indices reads as its first segment and then those. */
  lemma TokenIsRead(s: Segment, rest: string, more: seq<Segment>)
    requires ValidSegment(s) && (rest == [] || rest[0] == '[') && Indices(rest) == Some(more)
    ensures ReadToken(SegmentText(s) + rest) == Some([s] + more)
    ensures s.Index? ==> Indices(SegmentText(s) + rest) == Some([s] + more)
  {
    hide Indices, IndexEnd, IndexValue, Decimal, IsKeyChar, Forbidden;
    var token := SegmentText(s) + rest;
    if s.Index? {
      PrintedIndexIsRead(s.index, rest);
      IndicesStep(token);
      assert Bracket(token) == 0 && token[0..] == token;
    } else {
      KeyEnds(s.key, rest);
    }
  }

  lemma KeyEnds(key: string, rest: string)
    requires ValidKey(key) && (rest == [] || rest[0] == '[')
    ensures Bracket(key + rest) == |key| && (key + rest)[..|key|] == key && (key + rest)[|key|..] == rest
  {
    var t := key + rest;
    assert forall k :: 0 <= k < |key| ==> t[k] == key[k] && IsKeyChar(key[k]);
    assert Bracket(t) >= |key|;
    assert rest != [] ==> t[|key|] == '[';
  }

  ghost predicate AllValid(segments: seq<Segment>) { forall i :: 0 <= i < |segments| ==> ValidSegment(segments[i]) }

  lemma {:induction false} TokensAreRead(segments: seq<Segment>)
    requires segments != [] && AllValid(segments)
    ensures ReadTokens(Tokens(segments)) == Some(segments)
    ensures segments[0].Index? ==>
      && Tokens(segments)[0] != [] && Tokens(segments)[0][0] == '['
      && Indices(Tokens(segments)[0]).Some? && Indices(Tokens(segments)[0]) == ReadToken(Tokens(segments)[0])
  {
    hide ReadToken, Indices, SegmentText, ValidSegment;
    var s := segments[0];
    NoIndices();
    if |segments| == 1 {
      TokenIsRead(s, [], []);
      assert SegmentText(s) + [] == SegmentText(s) && [s] + [] == segments;
      OneToken(SegmentText(s));
    } else {
      var tail := segments[1..];
      TokensAreRead(tail);
      var rest := Tokens(tail);
      assert segments == [s] + tail;
      if segments[1].Index? {
        TokenIsRead(s, rest[0], Indices(rest[0]).value);
        MergedToken(SegmentText(s) + rest[0], rest[0], rest[1..], s);
        assert [rest[0]] + rest[1..] == rest;
      } else {
        TokenIsRead(s, [], []);
        assert SegmentText(s) + [] == SegmentText(s) && [s] + [] == [s];
        MoreTokens(SegmentText(s), rest);
      }
    }
    if s.Index? {
      BracketFirst(s, Tokens(segments)[0]);
    }
  }

  lemma OneToken(token: string)
    ensures ReadTokens([token]) == ReadToken(token)
  {
    hide ReadToken;
    assert [token][1..] == [];
    if ReadToken(token).Some? {
      assert ReadToken(token).value + [] == ReadToken(token).value;
    }
  }

  lemma MoreTokens(token: string, rest: seq<string>)
    requires ReadToken(token).Some? && ReadTokens(rest).Some?
    ensures ReadTokens([token] + rest) == Some(ReadToken(token).value + ReadTokens(rest).value)
  {
    hide ReadToken;
    assert ([token] + rest)[1..] == rest;
  }

  lemma MergedToken(merged: string, first: string, rest: seq<string>, s: Segment)
    requires ReadToken(first).Some? && ReadToken(merged) == Some([s] + ReadToken(first).value)
    requires ReadTokens([first] + rest).Some?
    ensures ReadTokens([merged] + rest) == Some([s] + ReadTokens([first] + rest).value)
  {
    hide ReadToken;
    assert ([merged] + rest)[1..] == rest && ([first] + rest)[1..] == rest;
    assert [s] + ReadToken(first).value + ReadTokens(rest).value == [s] + (ReadToken(first).value + ReadTokens(rest).value);
  }

  lemma BracketFirst(s: Segment, token: string)
    requires s.Index? && SegmentText(s) <= token
    ensures token != [] && token[0] == '['
  {
    assert SegmentText(s)[0] == '[';
  }

  lemma {:induction false} TokensHaveNoDots(segments: seq<Segment>)
    requires segments != [] && AllValid(segments)
    ensures forall i :: 0 <= i < |Tokens(segments)| ==> Free('.', Tokens(segments)[i])
  {
    hide ValidSegment, SegmentText;
    NoDots(segments[0]);
    if |segments| > 1 {
      TokensHaveNoDots(segments[1..]);
    }
  }

  lemma NoDots(s: Segment)
    requires ValidSegment(s)
    ensures Free('.', SegmentText(s))
  {
    hide Decimal, Forbidden;
    if s.Index? {
      assert Free('.', Decimal(s.index)) by {
        assert AllDigits(Decimal(s.index));
      }
    } else {
      assert forall i :: 0 <= i < |s.key| ==> IsKeyChar(s.key[i]);
    }
  }

  /** Reading the printed form of valid segments gives them back, within the limits of a path. */
  lemma PrintedPathIsRead(segments: seq<Segment>)
    requires segments != [] && AllValid(segments)
    requires |Print(segments)| <= PATH_MAX && |Tokens(segments)| <= TOKENS_MAX
    ensures Parse(Print(segments)) == Some(segments)
  {
    hide ReadTokens, Tokens, AllValid, Split, Join;
    TokensHaveNoDots(segments);
    SplitJoined('.', Tokens(segments));
    TokensAreRead(segments);
    ReadTokensPrintSomething(Tokens(segments));
  }

  lemma ReadTokensPrintSomething(tokens: seq<string>)
    requires tokens != [] && ReadTokens(tokens).Some?
    ensures Join('.', tokens) != []
  {
    assert ReadToken([]) == None;
  }

  // ---------------------------------------------------------------- what is accepted

  lemma {:induction false} IndicesAreValid(s: string)
    ensures Indices(s).Some? ==> AllValid(Indices(s).value)
    ensures Indices(s).Some? && s != [] ==> Indices(s).value != []
    decreases |s|
  {
    hide IndexValue;
    if s != [] && IndexEnd(s).Some? {
      IndicesAreValid(s[IndexEnd(s).value..]);
    }
  }

  lemma {:induction false} TokensAreValid(tokens: seq<string>)
    ensures ReadTokens(tokens).Some? ==> AllValid(ReadTokens(tokens).value)
    ensures ReadTokens(tokens).Some? && tokens != [] ==> ReadTokens(tokens).value != []
  {
    hide Indices, ValidKey;
    if tokens != [] {
      var token := tokens[0];
      IndicesAreValid(token[Bracket(token)..]);
      TokensAreValid(tokens[1..]);
    }
  }

  /** Whatever is accepted has at least one segment, small indices, and no forbidden key. */
  lemma ParsedIsValid(path: string)
    ensures Parse(path).Some? ==> Parse(path).value != [] && AllValid(Parse(path).value)
  {
    hide ReadTokens, Split, AllValid;
    TokensAreValid(Split('.', path));
  }

  // ---------------------------------------------------------------- the printed form is no longer

  function TextLength(segments: seq<Segment>): nat
  {
    if segments == [] then 0 else |SegmentText(segments[0])| + TextLength(segments[1..])
  }

  function Keys(segments: seq<Segment>): nat
  {
    if segments == [] then 0 else (if segments[0].Key? then 1 else 0) + Keys(segments[1..])
  }

  /** The tokens of the printed form: one for every key, and one for a leading index. */
  function Heads(segments: seq<Segment>): nat
  {
    Keys(segments) + if segments != [] && segments[0].Index? then 1 else 0
  }

  function Lengths(tokens: seq<string>): nat
  {
    if tokens == [] then 0 else |tokens[0]| + Lengths(tokens[1..])
  }

  lemma {:induction false} LengthsJoin(x: seq<Segment>, y: seq<Segment>)
    ensures TextLength(x + y) == TextLength(x) + TextLength(y) && Keys(x + y) == Keys(x) + Keys(y)
  {
    hide SegmentText;
    if x == [] {
      assert x + y == y;
    } else {
      assert (x + y)[1..] == x[1..] + y;
      LengthsJoin(x[1..], y);
    }
  }

  lemma {:induction false} JoinLength(tokens: seq<string>)
    requires tokens != []
    ensures |Join('.', tokens)| == Lengths(tokens) + |tokens| - 1
  {
    if |tokens| > 1 {
      JoinLength(tokens[1..]);
    } else {
      assert tokens[1..] == [];
    }
  }

  lemma {:induction false} PrintedTokens(segments: seq<Segment>)
    requires segments != []
    ensures |Tokens(segments)| == Heads(segments) && Lengths(Tokens(segments)) == TextLength(segments)
  {
    hide SegmentText;
    assert Lengths([]) == 0 && Keys([]) == 0 && TextLength([]) == 0;
    if |segments| == 1 {
      assert segments[1..] == [] && Tokens(segments)[1..] == [];
    } else {
      var rest := Tokens(segments[1..]);
      PrintedTokens(segments[1..]);
      assert Tokens(segments)[1..] == if segments[1].Index? then rest[1..] else rest;
    }
  }

  lemma {:induction false} DecimalOfNumber(s: string)
    requires AllDigits(s)
    ensures s != [] ==> |Decimal(Number(s))| <= |s|
    ensures s == [] ==> Number(s) == 0
  {
    if |s| > 1 {
      var front := s[..|s| - 1];
      DecimalOfNumber(front);
      assert Number(s) / 10 == Number(front);
    } else if |s| == 1 {
      assert s[..0] == [] && Number([]) == 0;
    }
  }

  lemma {:induction false} IndicesLength(s: string)
    ensures Indices(s).Some? ==> TextLength(Indices(s).value) <= |s| && Keys(Indices(s).value) == 0
    decreases |s|
  {
    hide Decimal, Number, IndexEnd;
    if s != [] && IndexEnd(s).Some? && IndexValue(s) <= INDEX_MAX {
      var j := IndexEnd(s).value;
      IndicesLength(s[j..]);
      FirstIndexLength(s);
      if Indices(s).Some? {
        assert Indices(s).value[1..] == Indices(s[j..]).value;
      }
    }
  }

  lemma FirstIndexLength(s: string)
    requires IndexEnd(s).Some?
    ensures |SegmentText(Index(IndexValue(s)))| <= IndexEnd(s).value
  {
    hide Decimal, Number;
    DecimalOfNumber(s[1..IndexEnd(s).value - 1]);
  }

  lemma TokenLength(token: string)
    ensures ReadToken(token).Some? ==>
      var xs := ReadToken(token).value;
      TextLength(xs) <= |token| && xs != [] && Keys(xs) == if xs[0].Key? then 1 else 0
  {
    hide Indices, ValidKey, Decimal;
    var rest := token[Bracket(token)..];
    IndicesLength(rest);
    IndicesAreValid(rest);
    if ReadToken(token).Some? && token[..Bracket(token)] != [] {
      assert ReadToken(token).value[1..] == Indices(rest).value;
    } else if ReadToken(token).Some? {
      OnlyIndices(Indices(rest).value);
    }
  }

  lemma OnlyIndices(xs: seq<Segment>)
    requires Keys(xs) == 0 && xs != []
    ensures xs[0].Index?
  {
  }

  lemma {:induction false} TokensLength(tokens: seq<string>)
    ensures ReadTokens(tokens).Some? ==>
      TextLength(ReadTokens(tokens).value) <= Lengths(tokens) && Heads(ReadTokens(tokens).value) <= |tokens|
  {
    hide ReadToken, SegmentText;
    if tokens != [] {
      TokenLength(tokens[0]);
      TokensLength(tokens[1..]);
      if ReadTokens(tokens).Some? {
        var first, rest := ReadToken(tokens[0]).value, ReadTokens(tokens[1..]).value;
        LengthsJoin(first, rest);
        assert (first + rest)[0] == first[0];
      }
    }
  }

  /** Whatever path is accepted, its printed form is accepted too and means the same. */
  lemma ReadingTwice(path: string)
    requires Parse(path).Some?
    ensures Parse(path).value != [] && Parse(Print(Parse(path).value)) == Parse(path)
  {
    hide ReadTokens, Tokens, AllValid, Split, Join, Lengths, TextLength, Heads;
    var tokens, segments := Split('.', path), Parse(path).value;
    ParsedIsValid(path);
    TokensLength(tokens);
    JoinSplit('.', path);
    JoinLength(tokens);
    PrintedTokens(segments);
    JoinLength(Tokens(segments));
    PrintedPathIsRead(segments);
  }
}
