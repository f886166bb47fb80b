/** Cutting a text into pieces a device voice can read (packages/shared-types/src/speech-voice.ts). */
module SpeechChunks {
  import opened Prelude

  const DEFAULT_LIMIT := 200

  predicate IsSentenceEnd(c: char) { c in ".?!。…" }

  predicate IsSoftBreak(c: char) { c in ",，、;: \t" }

  predicate IsLineEnd(c: char) { c == '\n' || c == '\r' }

  function Limit(maxChunk: int): nat { if maxChunk >= 1 then maxChunk else DEFAULT_LIMIT }

  // ---------------------------------------------------------------- sentences

  function Flush(current: string): seq<string> { if Trim(current) == [] then [] else [Trim(current)] }

  function Sentences(text: string, current: string): seq<string>
    decreases |text|
  {
    if text == [] then Flush(current)
    else if IsLineEnd(text[0]) then Flush(current) + Sentences(text[1..], "")
    else
      var grown := current + [text[0]];
      if IsSentenceEnd(text[0]) then Flush(grown) + Sentences(text[1..], "") else Sentences(text[1..], grown)
  }

  // ---------------------------------------------------------------- long sentences

  /** The last soft break at or before `i`, as the position after it; 0 when there is none. */
  function SoftCut(s: string, i: nat): (r: nat)
    requires i <= |s|
    ensures r <= i
  {
    if i == 0 then 0 else if IsSoftBreak(s[i - 1]) then i else SoftCut(s, i - 1)
  }

  function CutAt(s: string, max: nat): (r: nat)
    requires 1 <= max < |s|
    ensures 1 <= r <= max
  {
    var cut := SoftCut(s, max);
    if cut == 0 then max else cut
  }

  /** The piece may be cut after its first `k` characters: the last of them is a comma, a colon or white space. */
  ghost predicate BreaksAt(s: string, k: int) { 1 <= k <= |s| && s[k - 1] in ",，、;: \t" }

  lemma {:induction false} SoftCutIsLast(s: string, i: nat)
    requires i <= |s|
    ensures forall k :: SoftCut(s, i) < k <= i ==> !BreaksAt(s, k)
    ensures SoftCut(s, i) > 0 ==> BreaksAt(s, SoftCut(s, i))
  {
    if i > 0 && !IsSoftBreak(s[i - 1]) {
      SoftCutIsLast(s, i - 1);
    }
  }

  /** A long piece is cut after its last soft break within the limit, and at the limit only where there is none. */
  lemma CutIsAtBreak(s: string, max: nat)
    requires 1 <= max < |s|
    ensures var r := CutAt(s, max);
      if exists k :: 1 <= k <= max && BreaksAt(s, k) then BreaksAt(s, r) && forall k :: r < k <= max ==> !BreaksAt(s, k) else r == max
  {
    SoftCutIsLast(s, max);
  }

  function LongParts(piece: string, max: nat): seq<string>
    requires max >= 1
    decreases |piece|
  {
    if |piece| <= max then [Trim(piece)]
    else [Trim(piece[..CutAt(piece, max)])] + LongParts(piece[CutAt(piece, max)..], max)
  }

  function NonEmpty(parts: seq<string>): seq<string>
  {
    if parts == [] then [] else (if parts[0] == [] then [] else [parts[0]]) + NonEmpty(parts[1..])
  }

  function Chunks(sentences: seq<string>, limit: nat): seq<string>
    requires limit >= 1
  {
    if sentences == [] then []
    else (if |sentences[0]| <= limit then [sentences[0]] else NonEmpty(LongParts(sentences[0], limit))) + Chunks(sentences[1..], limit)
  }

  // ---------------------------------------------------------------- the loops

  /** `splitLong`. */
  method SplitLong(piece: string, maxChunk: nat) returns (out: seq<string>)
    requires maxChunk >= 1
    ensures out == LongParts(piece, maxChunk)
  {
    hide Trim, LongParts, IsSoftBreak;
    out := [];
    var rest := piece;
    while |rest| > maxChunk
      invariant out + LongParts(rest, maxChunk) == LongParts(piece, maxChunk)
      decreases |rest|
    {
      var cut := -1;
      var i: int := maxChunk;
      while i > 0
        invariant 0 <= i <= maxChunk && cut == -1 && SoftCut(rest, maxChunk) == SoftCut(rest, i)
        decreases i
      {
        if IsSoftBreak(rest[i - 1]) {
          cut := i;
          break;
        }
        i := i - 1;
      }
      if cut <= 0 {
        cut := maxChunk;
      }
      assert cut == CutAt(rest, maxChunk);
      LongStep(rest, maxChunk);
      out := out + [Trim(rest[..cut])];
      rest := rest[cut..];
    }
    LongEnd(rest, maxChunk);
    out := out + [Trim(rest)];
  }

  lemma LongStep(piece: string, max: nat)
    requires 1 <= max < |piece|
    ensures LongParts(piece, max) == [Trim(piece[..CutAt(piece, max)])] + LongParts(piece[CutAt(piece, max)..], max)
  {
  }

  lemma LongEnd(piece: string, max: nat)
    requires max >= 1 && |piece| <= max
    ensures LongParts(piece, max) == [Trim(piece)]
  {
  }

  method SplitSentences(text: string) returns (sentences: seq<string>)
    ensures sentences == Sentences(text, "")
  {
    hide Flush, IsLineEnd, IsSentenceEnd;
    sentences := [];
    var current := "";
    assert text[0..] == text;
    for i := 0 to |text|
      invariant sentences + Sentences(text[i..], current) == Sentences(text, "")
    {
      var ch := text[i];
      assert text[i..][0] == ch && text[i..][1..] == text[i + 1..];
      if IsLineEnd(ch) {
        sentences := sentences + Flush(current);
        current := "";
        continue;
      }
      current := current + [ch];
      if IsSentenceEnd(ch) {
        sentences := sentences + Flush(current);
        current := "";
      }
    }
    assert text[|text|..] == [];
    sentences := sentences + Flush(current);
  }

  /** The inner loop of `splitForSpeech`. */
  method AddParts(before: seq<string>, parts: seq<string>) returns (out: seq<string>)
    ensures out == before + NonEmpty(parts)
  {
    out := before;
    assert parts[0..] == parts;
    for j := 0 to |parts|
      invariant out + NonEmpty(parts[j..]) == before + NonEmpty(parts)
    {
      assert parts[j..][0] == parts[j] && parts[j..][1..] == parts[j + 1..];
      if |parts[j]| > 0 {
        out := out + [parts[j]];
      }
    }
    assert parts[|parts|..] == [];
  }

  /** `splitForSpeech`. */
  method SplitForSpeech(text: string, maxChunk: int) returns (out: seq<string>)
    ensures out == Chunks(Sentences(text, ""), Limit(maxChunk))
  {
    hide Sentences, LongParts, Trim, NonEmpty;
    var limit := Limit(maxChunk);
    var sentences := SplitSentences(text);
    out := [];
    assert sentences[0..] == sentences;
    for i := 0 to |sentences|
      invariant out + Chunks(sentences[i..], limit) == Chunks(sentences, limit)
    {
      var s := sentences[i];
      assert sentences[i..][0] == s && sentences[i..][1..] == sentences[i + 1..];
      if |s| <= limit {
        out := out + [s];
      } else {
        var parts := SplitLong(s, limit);
        out := AddParts(out, parts);
      }
    }
    assert sentences[|sentences|..] == [];
  }

  // ---------------------------------------------------------------- nothing is lost

  /** The characters that are heard: everything but white space. */
  function Heard(s: string): string
  {
    if s == [] then [] else (if IsSpace(s[0]) then [] else [s[0]]) + Heard(s[1..])
  }

  function AllHeard(chunks: seq<string>): string
  {
    if chunks == [] then [] else Heard(chunks[0]) + AllHeard(chunks[1..])
  }

  lemma {:induction false} HeardJoin(x: string, y: string)
    ensures Heard(x + y) == Heard(x) + Heard(y)
  {
    if x == [] {
      assert x + y == y;
    } else {
      assert (x + y)[1..] == x[1..] + y;
      HeardJoin(x[1..], y);
    }
  }

  lemma {:induction false} AllHeardJoin(x: seq<string>, y: seq<string>)
    ensures AllHeard(x + y) == AllHeard(x) + AllHeard(y)
  {
    hide Heard;
    if x == [] {
      assert x + y == y;
    } else {
      assert (x + y)[1..] == x[1..] + y;
      AllHeardJoin(x[1..], y);
    }
  }

  lemma {:induction false} StartTrimmed(s: string)
    ensures Heard(TrimStart(s)) == Heard(s)
  {
    if s != [] && IsSpace(s[0]) {
      StartTrimmed(s[1..]);
    }
  }

  lemma {:induction false} EndTrimmed(s: string)
    ensures Heard(TrimEnd(s)) == Heard(s)
  {
    if s != [] && IsSpace(s[|s| - 1]) {
      var front, last := s[..|s| - 1], [s[|s| - 1]];
      EndTrimmed(front);
      HeardJoin(front, last);
      assert s == front + last && last[1..] == [];
    }
  }

  lemma HeardTrimmed(s: string)
    ensures Heard(Trim(s)) == Heard(s)
  {
    hide Heard;
    StartTrimmed(s);
    EndTrimmed(TrimStart(s));
  }

  lemma HeardFlush(current: string)
    ensures AllHeard(Flush(current)) == Heard(current)
  {
    hide Trim, IsSpace;
    HeardTrimmed(current);
    HeardNothing();
    if Flush(current) != [] {
      assert Flush(current) == [Trim(current)] && Flush(current)[1..] == [];
      assert Heard(Trim(current)) + [] == Heard(Trim(current));
    }
  }

  lemma {:induction false} SentencesLoseNothing(text: string, current: string)
    ensures AllHeard(Sentences(text, current)) == Heard(current) + Heard(text)
    decreases |text|
  {
    hide Flush, Heard, AllHeard, IsSpace;
    HeardNothing();
    HeardFlush(current);
    if text == [] {
      assert Heard(current) + Heard([]) == Heard(current);
    } else {
      var grown := current + [text[0]];
      assert text == [text[0]] + text[1..];
      HeardJoin([text[0]], text[1..]);
      HeardJoin(current, [text[0]]);
      HeardFlush(grown);
      if IsLineEnd(text[0]) {
        LineEndIsSilent(text[0]);
        SentencesLoseNothing(text[1..], "");
        AllHeardJoin(Flush(current), Sentences(text[1..], ""));
      } else if IsSentenceEnd(text[0]) {
        SentencesLoseNothing(text[1..], "");
        AllHeardJoin(Flush(grown), Sentences(text[1..], ""));
      } else {
        SentencesLoseNothing(text[1..], grown);
      }
    }
  }

  lemma HeardNothing()
    ensures Heard([]) == [] && AllHeard([]) == []
  {
  }

  lemma LineEndIsSilent(c: char)
    requires IsLineEnd(c)
    ensures Heard([c]) == []
  {
    assert [c][1..] == [];
  }

  lemma {:induction false} PartsLoseNothing(piece: string, max: nat)
    requires max >= 1
    ensures AllHeard(NonEmpty(LongParts(piece, max))) == Heard(piece)
    decreases |piece|
  {
    hide Heard, AllHeard, CutAt, Trim;
    HeardNothing();
    if |piece| <= max {
      HeardTrimmed(piece);
      OnePart(Trim(piece), []);
    } else {
      var cut := CutAt(piece, max);
      PartsLoseNothing(piece[cut..], max);
      HeardTrimmed(piece[..cut]);
      HeardJoin(piece[..cut], piece[cut..]);
      assert piece == piece[..cut] + piece[cut..];
      OnePart(Trim(piece[..cut]), LongParts(piece[cut..], max));
    }
  }

  lemma OnePart(part: string, rest: seq<string>)
    ensures AllHeard(NonEmpty([part] + rest)) == Heard(part) + AllHeard(NonEmpty(rest))
  {
    assert ([part] + rest)[1..] == rest;
    assert [part][1..] == [];
    AllHeardJoin(if part == [] then [] else [part], NonEmpty(rest));
  }

  lemma {:induction false} ChunksLoseNothing(sentences: seq<string>, limit: nat)
    requires limit >= 1
    ensures AllHeard(Chunks(sentences, limit)) == AllHeard(sentences)
  {
    hide Heard, LongParts, NonEmpty;
    if sentences != [] {
      var first := if |sentences[0]| <= limit then [sentences[0]] else NonEmpty(LongParts(sentences[0], limit));
      PartsLoseNothing(sentences[0], limit);
      ChunksLoseNothing(sentences[1..], limit);
      AllHeardJoin(first, Chunks(sentences[1..], limit));
      assert [sentences[0]][1..] == [];
    }
  }

  /** White space aside, the chunks hold the text: every character, once, in order. */
  lemma NothingIsLost(text: string, maxChunk: int)
    ensures AllHeard(Chunks(Sentences(text, ""), Limit(maxChunk))) == Heard(text)
  {
    hide Heard, AllHeard, Sentences, Chunks;
    HeardNothing();
    ChunksLoseNothing(Sentences(text, ""), Limit(maxChunk));
    SentencesLoseNothing(text, "");
  }

  // ---------------------------------------------------------------- what a chunk looks like

  /** No line ends, and no sentence ends before the last character. */
  ghost predicate OneSentence(s: string)
  {
    && (forall k :: 0 <= k < |s| ==> !IsLineEnd(s[k]))
    && forall k :: 0 <= k < |s| - 1 ==> !IsSentenceEnd(s[k])
  }

  ghost predicate Readable(s: string, limit: nat) { 1 <= |s| <= limit && Trimmed(s) && OneSentence(s) }

  lemma OnePiece(s: string, i: nat, j: nat)
    requires OneSentence(s) && i <= j <= |s|
    ensures OneSentence(s[i..j])
  {
  }

  lemma TrimIsPiece(s: string) returns (i: nat, j: nat)
    ensures i <= j <= |s| && Trim(s) == s[i..j]
  {
    var t := TrimStart(s);
    i := |s| - |t|;
    j := i + |Trim(s)|;
    assert t == s[i..] && Trim(s) == t[..|Trim(s)|];
  }

  lemma {:induction false} SentencesAreSingle(text: string, current: string)
    requires forall k :: 0 <= k < |current| ==> !IsLineEnd(current[k]) && !IsSentenceEnd(current[k])
    ensures forall i :: 0 <= i < |Sentences(text, current)| ==>
              OneSentence(Sentences(text, current)[i]) && Sentences(text, current)[i] != [] && Trimmed(Sentences(text, current)[i])
    decreases |text|
  {
    hide IsLineEnd, IsSentenceEnd, Trim;
    FlushIsSingle(current);
    if text != [] {
      var grown := current + [text[0]];
      if IsLineEnd(text[0]) {
        SentencesAreSingle(text[1..], "");
      } else if IsSentenceEnd(text[0]) {
        FlushIsSingle(grown);
        SentencesAreSingle(text[1..], "");
      } else {
        SentencesAreSingle(text[1..], grown);
      }
    }
  }

  lemma FlushIsSingle(current: string)
    requires OneSentence(current)
    ensures OneSentence(Trim(current)) && Trimmed(Trim(current))
  {
    hide IsLineEnd, IsSentenceEnd;
    var i, j := TrimIsPiece(current);
    OnePiece(current, i, j);
  }

  lemma {:induction false} PartsAreReadable(piece: string, max: nat)
    requires max >= 1 && OneSentence(piece)
    ensures forall i :: 0 <= i < |NonEmpty(LongParts(piece, max))| ==> Readable(NonEmpty(LongParts(piece, max))[i], max)
    decreases |piece|
  {
    hide OneSentence, CutAt, Trim, Trimmed;
    if |piece| <= max {
      FlushIsSingle(piece);
    } else {
      var cut := CutAt(piece, max);
      OnePiece(piece, 0, cut);
      OnePiece(piece, cut, |piece|);
      assert piece[0..cut] == piece[..cut] && piece[cut..|piece|] == piece[cut..];
      FlushIsSingle(piece[..cut]);
      PartsAreReadable(piece[cut..], max);
    }
  }

  /** Every chunk is trimmed, within the limit, and part of one sentence. */
  lemma {:induction false} ChunksAreReadable(sentences: seq<string>, limit: nat)
    requires limit >= 1
    requires forall i :: 0 <= i < |sentences| ==> OneSentence(sentences[i]) && sentences[i] != [] && Trimmed(sentences[i])
    ensures forall i :: 0 <= i < |Chunks(sentences, limit)| ==> Readable(Chunks(sentences, limit)[i], limit)
  {
    hide OneSentence, LongParts, NonEmpty, Trimmed;
    if sentences != [] {
      PartsAreReadable(sentences[0], limit);
      ChunksAreReadable(sentences[1..], limit);
    }
  }

  lemma EveryChunkIsReadable(text: string, maxChunk: int)
    ensures var chunks := Chunks(Sentences(text, ""), Limit(maxChunk));
            forall i :: 0 <= i < |chunks| ==> Readable(chunks[i], Limit(maxChunk))
  {
    hide Sentences, Chunks, Readable, OneSentence;
    SentencesAreSingle(text, "");
    ChunksAreReadable(Sentences(text, ""), Limit(maxChunk));
  }
}
