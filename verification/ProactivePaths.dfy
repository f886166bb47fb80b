/** Path patterns of proactive rules (packages/shared-types/src/proactive-eval.ts). */
module ProactivePaths {
  import opened Prelude
  import opened Texts

  const MAX_PATH_LENGTH := 2048
  const MAX_PATH_SEGMENTS := 256
  const MAX_PATTERN_LENGTH := 200

  // ---------------------------------------------------------------- slashes and segments

  /** Drops every slash that follows a slash; `after` says whether one has just been passed. */
  function Collapse(s: string, after: bool): (r: string)
    ensures |r| <= |s|
    ensures s != [] && s[0] == '/' && !after ==> r != [] && r[0] == '/'
  {
    if s == [] then []
    else if s[0] == '/' && after then Collapse(s[1..], true)
    else [s[0]] + Collapse(s[1..], s[0] == '/')
  }

  /** `collapseSlashes`. */
  method CollapseSlashes(value: string) returns (result: string)
    ensures result == Collapse(value, false)
  {
    result := "";
    var lastWasSlash := false;
    for i := 0 to |value|
      invariant Collapse(value, false) == result + Collapse(value[i..], lastWasSlash)
    {
      var ch := value[i];
      assert value[i..][0] == ch && value[i..][1..] == value[i + 1..];
      if ch == '/' {
        if lastWasSlash {
          continue;
        }
        lastWasSlash := true;
      } else {
        lastWasSlash := false;
      }
      result := result + [ch];
    }
    assert value[|value|..] == [];
  }

  function Decode(decode: string -> string, segments: seq<string>): seq<string> { Map(decode, segments) }

  function Rooted(s: string): string { if s != [] && s[0] == '/' then s else "/" + s }

  function WithoutTrailing(s: string): string
  {
    if |s| > 1 && s[|s| - 1] == '/' then s[..|s| - 1] else s
  }

  function Segments(withoutTrailing: string): seq<string>
  {
    if withoutTrailing == "/" then []
    else Split('/', if withoutTrailing != [] && withoutTrailing[0] == '/' then withoutTrailing[1..] else withoutTrailing)
  }

  function Render(segments: seq<string>): string
  {
    if segments == [] then "/" else "/" + Join('/', segments)
  }

  function Truncated(pathname: string): string
  {
    if |pathname| > MAX_PATH_LENGTH then pathname[..MAX_PATH_LENGTH] else pathname
  }

  function Few(segments: seq<string>): seq<string>
  {
    if |segments| > MAX_PATH_SEGMENTS then segments[..MAX_PATH_SEGMENTS] else segments
  }

  /** The segments that normalisation ends up with; `decode` is `safeDecodeSegment`. */
  function Decoded(decode: string -> string, pathname: string): seq<string>
  {
    Few(Decode(decode, Segments(WithoutTrailing(Collapse(Rooted(Truncated(pathname)), false)))))
  }

  /** `normalizeProactivePath`. */
  function Normalize(decode: string -> string, pathname: string): string { Render(Decoded(decode, pathname)) }

  // ---------------------------------------------------------------- normalising twice

  /** Segments that print and split back: not empty, and without a slash that decoding may have brought in. */
  ghost predicate Clean(segments: seq<string>)
  {
    forall i :: 0 <= i < |segments| ==> segments[i] != [] && Free('/', segments[i])
  }

  ghost predicate AllFree(c: char, segments: seq<string>) { forall i :: 0 <= i < |segments| ==> Free(c, segments[i]) }

  /** No two slashes in a row, and none at the start unless `after` allows it. */
  ghost predicate Collapsed(s: string, after: bool)
  {
    && (after && s != [] ==> s[0] != '/')
    && forall i :: 0 <= i < |s| - 1 ==> !(s[i] == '/' && s[i + 1] == '/')
  }

  lemma CollapseCollapses(s: string, after: bool)
    ensures Collapsed(Collapse(s, after), after)
    ensures Free('%', s) ==> Free('%', Collapse(s, after))
    ensures Collapsed(s, after) ==> Collapse(s, after) == s
  {
    hide Collapse, Collapsed;
    CollapsedOnce(s, after);
    CollapseKeepsFree(s, after);
    if Collapsed(s, after) {
      CollapsedIsKept(s, after);
    }
  }

  lemma {:induction false} CollapsedOnce(s: string, after: bool)
    ensures Collapsed(Collapse(s, after), after)
  {
    if s != [] {
      CollapsedOnce(s[1..], s[0] == '/');
    }
  }

  lemma {:induction false} CollapseKeepsFree(s: string, after: bool)
    ensures Free('%', s) ==> Free('%', Collapse(s, after))
  {
    if s != [] {
      CollapseKeepsFree(s[1..], s[0] == '/');
      assert s[0] in s;
    }
  }

  lemma {:induction false} CollapsedIsKept(s: string, after: bool)
    requires Collapsed(s, after)
    ensures Collapse(s, after) == s
  {
    if s != [] {
      assert Collapsed(s[1..], s[0] == '/');
      CollapsedIsKept(s[1..], s[0] == '/');
      assert s == [s[0]] + s[1..];
    }
  }

  lemma {:induction false} SplitOfCollapsed(s: string)
    requires Collapsed(s, true) && s != [] && s[|s| - 1] != '/'
    ensures forall i :: 0 <= i < |Split('/', s)| ==> Split('/', s)[i] != []
  {
    if |s| > 1 {
      var tail := s[1..];
      if s[0] != '/' {
        if tail[0] == '/' {
          assert tail[1..] == s[2..] && Collapsed(tail[1..], true);
          SplitOfCollapsed(tail[1..]);
          assert Split('/', tail) == [""] + Split('/', tail[1..]);
        } else {
          assert Collapsed(tail, true);
          SplitOfCollapsed(tail);
        }
      }
    }
  }

  lemma {:induction false} JoinIsCollapsed(segments: seq<string>)
    requires segments != [] && Clean(segments)
    ensures Collapsed(Join('/', segments), true) && Join('/', segments) != [] && Join('/', segments)[|Join('/', segments)| - 1] != '/'
  {
    assert segments[0][0] in segments[0] && segments[0][|segments[0]| - 1] in segments[0];
    var s := Join('/', segments);
    if |segments| > 1 {
      JoinIsCollapsed(segments[1..]);
      var head, tail := segments[0], Join('/', segments[1..]);
      assert s == head + "/" + tail;
      forall i | 0 <= i < |s| - 1 ensures !(s[i] == '/' && s[i + 1] == '/') {
        if i < |head| {
          assert s[i] == head[i] && head[i] in head;
        } else if i > |head| {
          assert s[i] == tail[i - |head| - 1] && s[i + 1] == tail[i - |head|];
        }
      }
      assert s[|s| - 1] == tail[|tail| - 1];
    } else {
      forall i | 0 <= i < |s| ensures s[i] != '/' {
        assert s[i] in segments[0];
      }
      assert s[|s| - 1] in segments[0];
    }
  }

  lemma {:induction false} PrefixIsShorter(segments: seq<string>, n: nat)
    requires 0 < n <= |segments|
    ensures |Join('/', segments[..n])| <= |Join('/', segments)|
  {
    if n > 1 {
      PrefixIsShorter(segments[1..], n - 1);
      assert segments[..n][1..] == segments[1..][..n - 1];
    }
  }

  /** Rendering clean segments and taking the rendering apart again gives them back. */
  lemma RenderedSegments(segments: seq<string>)
    requires Clean(segments) && |Render(segments)| <= MAX_PATH_LENGTH
    ensures Segments(WithoutTrailing(Collapse(Rooted(Truncated(Render(segments))), false))) == segments
  {
    hide Join, Split, Clean, Collapse, Collapsed;
    var r := Render(segments);
    if segments == [] {
      OneSlash();
    } else {
      RenderedIsCollapsed(segments);
      CollapseCollapses(r, false);
      SplitJoined('/', segments);
    }
  }

  lemma OneSlash()
    ensures Collapse("/", false) == "/"
  {
    assert Collapse("/", false) == "/" + Collapse("/"[1..], true);
  }

  lemma RenderedIsCollapsed(segments: seq<string>)
    requires Clean(segments) && segments != []
    ensures var r := Render(segments);
            && Collapsed(r, false) && |r| > 1 && r[0] == '/' && r[|r| - 1] != '/' && r[1..] == Join('/', segments)
    ensures forall i :: 0 <= i < |segments| ==> Free('/', segments[i])
  {
    hide Join;
    JoinIsCollapsed(segments);
    var body := Join('/', segments);
    var r := Render(segments);
    assert r == "/" + body && r[1..] == body && r[|r| - 1] == body[|body| - 1];
    forall i | 0 <= i < |r| - 1 ensures !(r[i] == '/' && r[i + 1] == '/') {
      assert r[i + 1] == body[i] && (i > 0 ==> r[i] == body[i - 1]);
    }
  }

  /** A collapsed path splits into clean segments that render to it, without its trailing slash. */
  lemma SegmentsAreClean(c: string)
    requires c != [] && c[0] == '/' && Collapsed(c, false)
    ensures Clean(Segments(WithoutTrailing(c))) && Render(Segments(WithoutTrailing(c))) == WithoutTrailing(c)
    ensures Free('%', c) ==> AllFree('%', Segments(WithoutTrailing(c)))
  {
    var w := WithoutTrailing(c);
    assert w[0] == '/';
    if w != "/" {
      TrailingGone(c);
      var body := w[1..];
      BodyIsCollapsed(c, body);
      SplitOfCollapsed(body);
      JoinSplit('/', body);
      if Free('%', c) {
        assert forall ch :: ch in body ==> ch in c;
        SplitKeepsFree('/', body, '%');
      }
      assert w == "/" + body;
    }
  }

  lemma BodyIsCollapsed(c: string, body: string)
    requires Collapsed(c, false) && |c| > 1 && c[0] == '/' && body != [] && body <= c[1..]
    ensures Collapsed(body, true)
  {
    forall i | 0 <= i < |body| - 1 ensures !(body[i] == '/' && body[i + 1] == '/') {
      assert body[i] == c[i + 1] && body[i + 1] == c[i + 2];
    }
    assert body[0] == c[1];
  }

  lemma TrailingGone(c: string)
    requires Collapsed(c, false) && |c| > 1 && WithoutTrailing(c) != "/"
    requires c[0] == '/'
    ensures var w := WithoutTrailing(c); w[|w| - 1] != '/'
  {
  }

  lemma {:induction false} SameJoined(a: seq<string>, b: seq<string>)
    requires |a| == |b| && a != [] && AllFree('/', a) && AllFree('/', b)
    ensures Join('/', a) == Join('/', b) ==> a == b
  {
    hide Join, Split;
    SplitJoined('/', a);
    SplitJoined('/', b);
  }

  /** When the segments decode to texts without slashes and the result is short enough, the second pass only decodes. */
  lemma CleanTwiceIff(decode: string -> string, p: string)
    requires var d := Decoded(decode, p);
             Clean(d) && AllFree('/', Decode(decode, d)) && |Render(d)| <= MAX_PATH_LENGTH
    ensures Normalize(decode, Normalize(decode, p)) == Normalize(decode, p)
      <==> forall i :: 0 <= i < |Decoded(decode, p)| ==> decode(Decoded(decode, p)[i]) == Decoded(decode, p)[i]
  {
    hide Join, Clean, Collapse, WithoutTrailing, Segments, Truncated;
    var d := Decoded(decode, p);
    assert |d| <= MAX_PATH_SEGMENTS;
    RenderedSegments(d);
    var again := Decode(decode, d);
    assert Decoded(decode, Render(d)) == again;
    if d != [] {
      if again != d {
        AllSlashFree(d);
        SameJoined(again, d);
        assert Render(again)[1..] == Join('/', again) && Render(d)[1..] == Join('/', d);
      } else {
        assert forall i :: 0 <= i < |d| ==> decode(d[i]) == again[i];
      }
    }
  }

  lemma AllSlashFree(segments: seq<string>)
    requires Clean(segments)
    ensures AllFree('/', segments)
  {
  }

  /** On paths that start with a slash and hold no percent sign, normalising twice is normalising once. */
  lemma NormalizeTwice(decode: string -> string, p: string)
    requires p != [] && p[0] == '/' && Free('%', p) && forall s :: Free('%', s) ==> decode(s) == s
    ensures Normalize(decode, Normalize(decode, p)) == Normalize(decode, p)
  {
    hide Collapse, Collapsed, Segments, Join, Clean;
    var t := Truncated(p);
    var c := Collapse(t, false);
    CollapseCollapses(t, false);
    SegmentsAreClean(c);
    var all := Segments(WithoutTrailing(c));
    assert Decode(decode, all) == all;
    var d := Decoded(decode, p);
    assert d == Few(all);
    FewAreClean(all);
    if all != [] {
      PrefixIsShorter(all, |d|);
    }
    assert Decode(decode, d) == d;
    CleanTwiceIff(decode, p);
  }

  lemma FewAreClean(segments: seq<string>)
    requires Clean(segments)
    ensures Clean(Few(segments)) && AllFree('/', Few(segments)) && Few(segments) == segments[..|Few(segments)|]
    ensures AllFree('%', segments) ==> AllFree('%', Few(segments))
  {
  }

  /** Percent signs are decoded again on every pass: this path normalises to one thing, and then to another. */
  lemma EncodedPercentDecodesTwice(decode: string -> string)
    requires decode("%2525") == "%25" && decode("%25") == "%"
    ensures Normalize(decode, "/%2525") == "/%25" && Normalize(decode, "/%25") == "/%"
  {
    hide Normalize;
    assert Free('/', "%2525") && Free('/', "%25");
    OneSegment(decode, "%2525");
    OneSegment(decode, "%25");
    assert "/" + "%2525" == "/%2525" && "/" + "%25" == "/%25" && "/" + "%" == "/%";
  }

  lemma OneSegment(decode: string -> string, s: string)
    requires s != [] && Free('/', s) && |s| < MAX_PATH_LENGTH
    ensures Normalize(decode, "/" + s) == "/" + decode(s)
  {
    hide Collapse, Collapsed, WithoutTrailing, Segments, Truncated, Split;
    assert Join('/', [s]) == s && Render([s]) == "/" + s;
    RenderedSegments([s]);
    assert Decode(decode, [s]) == [decode(s)];
  }

  // ---------------------------------------------------------------- exactly when a second pass changes nothing

  /** What `decodeURIComponent` guarantees, with the text itself where it fails: a percent escape is longer than what it
      stands for and stands for something, and only escapes are replaced. */
  ghost predicate Decoder(decode: string -> string)
  {
    && (forall s :: |decode(s)| <= |s|)
    && (forall s :: s != [] ==> decode(s) != [])
    && forall s :: Free('%', s) ==> decode(s) == s
  }

  /** The segments of a path as they stand in it, before any decoding. */
  function RawSegments(pathname: string): seq<string>
  {
    Few(Segments(WithoutTrailing(Collapse(Rooted(Truncated(pathname)), false))))
  }

  /** The segments once decoded, cut again where decoding brought in a slash. */
  function Pieces(decode: string -> string, raw: seq<string>): seq<string>
  {
    if raw == [] then [] else Split('/', decode(raw[0])) + Pieces(decode, raw[1..])
  }

  /** The length of the path that the decoded segments make up. */
  function DecodedLength(decode: string -> string, raw: seq<string>): nat
  {
    if raw == [] then 0 else 1 + |decode(raw[0])| + DecodedLength(decode, raw[1..])
  }

  predicate Settled(decode: string -> string, pieces: seq<string>)
  {
    forall i :: 0 <= i < |pieces| ==> pieces[i] != [] && decode(pieces[i]) == pieces[i]
  }

  /** Read off the path before the first pass: once decoded, its segments fit the two limits, and their pieces are not
      empty and hold nothing more to decode. */
  predicate Lasting(decode: string -> string, pathname: string)
  {
    var raw := RawSegments(pathname);
    && DecodedLength(decode, raw) <= MAX_PATH_LENGTH
    && |Pieces(decode, raw)| <= MAX_PATH_SEGMENTS
    && Settled(decode, Pieces(decode, raw))
  }

  lemma SplitStep(s: string)
    requires s != []
    ensures s[0] == '/' ==> Split('/', s) == [""] + Split('/', s[1..])
    ensures s[0] != '/' ==> Split('/', s) == [[s[0]] + Split('/', s[1..])[0]] + Split('/', s[1..])[1..]
  {
  }

  lemma {:induction false} SplitAppend(x: string, y: string)
    ensures Split('/', x + "/" + y) == Split('/', x) + Split('/', y)
  {
    hide Split;
    var z := x + "/" + y;
    SplitStep(z);
    if x == [] {
      assert z == "/" + y && z[1..] == y;
      assert Split('/', "") == [""] by { NothingToSplit(); }
    } else {
      assert z[1..] == x[1..] + "/" + y && z[0] == x[0];
      SplitStep(x);
      SplitAppend(x[1..], y);
      var front, back := Split('/', x[1..]), Split('/', y);
      assert (front + back)[0] == front[0] && (front + back)[1..] == front[1..] + back;
    }
  }

  lemma NothingToSplit()
    ensures Split('/', "") == [""]
  {
  }

  lemma {:induction false} PiecesOfJoined(decode: string -> string, raw: seq<string>)
    requires raw != []
    ensures Pieces(decode, raw) == Split('/', Join('/', Decode(decode, raw)))
    ensures DecodedLength(decode, raw) == 1 + |Join('/', Decode(decode, raw))|
  {
    hide Split;
    var d := Decode(decode, raw);
    assert d[1..] == Decode(decode, raw[1..]);
    if |raw| == 1 {
      assert Pieces(decode, raw[1..]) == [] && DecodedLength(decode, raw[1..]) == 0;
      assert Split('/', d[0]) + [] == Split('/', d[0]);
    } else {
      PiecesOfJoined(decode, raw[1..]);
      SplitAppend(d[0], Join('/', d[1..]));
    }
  }

  lemma {:induction false} SameLengthCollapse(s: string, after: bool)
    requires |Collapse(s, after)| == |s|
    ensures Collapse(s, after) == s
  {
    if s != [] {
      if !(s[0] == '/' && after) {
        SameLengthCollapse(s[1..], s[0] == '/');
        assert s == [s[0]] + s[1..];
      }
    }
  }

  lemma {:induction false} ShorterParts(a: seq<string>, b: seq<string>)
    requires |a| == |b| && a != [] && forall i :: 0 <= i < |a| ==> |a[i]| <= |b[i]|
    ensures |Join('/', a)| <= |Join('/', b)|
    ensures Join('/', a) == Join('/', b) ==> a == b
  {
    if |a| > 1 {
      ShorterParts(a[1..], b[1..]);
      var x, y := Join('/', a[1..]), Join('/', b[1..]);
      assert a == [a[0]] + a[1..] && b == [b[0]] + b[1..];
      if a[0] + "/" + x == b[0] + "/" + y {
        assert |a[0] + "/" + x| == |a[0]| + 1 + |x| && |b[0] + "/" + y| == |b[0]| + 1 + |y|;
        assert a[0] == (a[0] + "/" + x)[..|a[0]|] && b[0] == (b[0] + "/" + y)[..|b[0]|];
        assert x == (a[0] + "/" + x)[|a[0]| + 1..] && y == (b[0] + "/" + y)[|b[0]| + 1..];
      }
    }
  }

  lemma {:induction false} PrefixIsStrictlyShorter(segments: seq<string>, n: nat)
    requires 0 < n < |segments|
    ensures |Join('/', segments[..n])| < |Join('/', segments)|
  {
    if n > 1 {
      PrefixIsStrictlyShorter(segments[1..], n - 1);
      assert segments[..n][1..] == segments[1..][..n - 1];
    }
  }

  /** One pass never lengthens a rooted path, and keeps its length only by keeping it. */
  lemma PassShrinks(decode: string -> string, segments: seq<string>)
    requires Decoder(decode) && segments != []
    ensures |Render(Few(Decode(decode, segments)))| <= |Render(segments)|
    ensures Render(Few(Decode(decode, segments))) == Render(segments) ==>
      |segments| <= MAX_PATH_SEGMENTS && Decode(decode, segments) == segments
  {
    hide Join;
    var d := Decode(decode, segments);
    ShorterParts(d, segments);
    if |d| > MAX_PATH_SEGMENTS {
      PrefixIsStrictlyShorter(d, MAX_PATH_SEGMENTS);
    } else if Render(d) == Render(segments) {
      assert Render(d)[1..] == Join('/', d) && Render(segments)[1..] == Join('/', segments);
    }
  }

  /** A rooted path is its own normal form exactly when it fits the limits and its segments are settled. */
  lemma FixedIff(decode: string -> string, r: string)
    requires Decoder(decode) && |r| > 1 && r[0] == '/'
    ensures Normalize(decode, r) == r <==>
      |r| <= MAX_PATH_LENGTH && |Split('/', r[1..])| <= MAX_PATH_SEGMENTS && Settled(decode, Split('/', r[1..]))
  {
    hide Decoder, Split, Join, Collapse;
    if Normalize(decode, r) == r {
      FixedIsSettled(decode, r);
    }
    if |r| <= MAX_PATH_LENGTH && |Split('/', r[1..])| <= MAX_PATH_SEGMENTS && Settled(decode, Split('/', r[1..])) {
      SettledIsFixed(decode, r);
    }
  }

  lemma SettledIsFixed(decode: string -> string, r: string)
    requires |r| > 1 && r[0] == '/' && |r| <= MAX_PATH_LENGTH
    requires |Split('/', r[1..])| <= MAX_PATH_SEGMENTS && Settled(decode, Split('/', r[1..]))
    ensures Normalize(decode, r) == r
  {
    hide Split, Join, Collapse, Segments, WithoutTrailing, Truncated;
    var ps := Split('/', r[1..]);
    JoinSplit('/', r[1..]);
    assert Render(ps) == r;
    RenderedSegments(ps);
    assert Decode(decode, ps) == ps;
  }

  lemma FixedIsSettled(decode: string -> string, r: string)
    requires Decoder(decode) && |r| > 1 && r[0] == '/' && Normalize(decode, r) == r
    ensures |r| <= MAX_PATH_LENGTH && |Split('/', r[1..])| <= MAX_PATH_SEGMENTS && Settled(decode, Split('/', r[1..]))
  {
    hide Decoder, Split, Join, Collapse, Collapsed, Decode;
    var t := Truncated(r);
    var c := Collapse(t, false);
    var w := WithoutTrailing(c);
    assert Rooted(t) == t;
    CollapseCollapses(t, false);
    SegmentsAreClean(c);
    var segments := Segments(w);
    NothingDecoded(decode);
    if segments != [] {
      PassShrinks(decode, segments);
      assert |r| <= |w| <= |c| <= |t| <= |r|;
      SameLengthCollapse(t, false);
      assert w == r && segments == Split('/', r[1..]);
      KeptSegments(decode, segments);
    }
  }

  lemma NothingDecoded(decode: string -> string)
    ensures Decode(decode, []) == []
  {
  }

  lemma KeptSegments(decode: string -> string, segments: seq<string>)
    requires Decode(decode, segments) == segments && Clean(segments)
    ensures Settled(decode, segments)
  {
    forall i | 0 <= i < |segments| ensures decode(segments[i]) == segments[i] {
      assert Decode(decode, segments)[i] == decode(segments[i]);
    }
  }

  lemma RawIsClean(pathname: string)
    ensures Clean(RawSegments(pathname)) && |RawSegments(pathname)| <= MAX_PATH_SEGMENTS
    ensures Free('%', pathname) ==> AllFree('%', RawSegments(pathname))
  {
    hide Collapse, Collapsed, Segments, WithoutTrailing, Clean, AllFree;
    var t := Rooted(Truncated(pathname));
    var c := Collapse(t, false);
    CollapseCollapses(t, false);
    SegmentsAreClean(c);
    FewAreClean(Segments(WithoutTrailing(c)));
    if Free('%', pathname) {
      assert Free('%', t);
    }
  }

  lemma DecodedAreRaw(decode: string -> string, pathname: string)
    ensures Decoded(decode, pathname) == Decode(decode, RawSegments(pathname))
  {
    hide Collapse, Segments, WithoutTrailing, Truncated;
    var all := Segments(WithoutTrailing(Collapse(Rooted(Truncated(pathname)), false)));
    assert Few(Decode(decode, all)) == Decode(decode, Few(all));
  }

  lemma NormalPath(decode: string -> string, pathname: string)
    requires Decoder(decode) && RawSegments(pathname) != []
    ensures var r, raw := Normalize(decode, pathname), RawSegments(pathname);
      |r| > 1 && r[0] == '/' && Split('/', r[1..]) == Pieces(decode, raw) && |r| == DecodedLength(decode, raw)
  {
    hide RawSegments, Decoded, Split, Pieces;
    var raw := RawSegments(pathname);
    DecodedAreRaw(decode, pathname);
    RawIsClean(pathname);
    PiecesOfJoined(decode, raw);
    var d := Decode(decode, raw);
    assert d[0] == decode(raw[0]) != [];
    JoinIsLonger(d);
    assert ("/" + Join('/', d))[1..] == Join('/', d);
  }

  lemma JoinIsLonger(parts: seq<string>)
    requires parts != []
    ensures |Join('/', parts)| >= |parts[0]|
  {
  }

  /** Normalising twice is normalising once exactly on lasting paths: for every path, with or without a leading slash,
      percent signs, encoded slashes or too many characters. */
  lemma NormalizeTwiceIff(decode: string -> string, p: string)
    requires Decoder(decode)
    ensures Normalize(decode, Normalize(decode, p)) == Normalize(decode, p) <==> Lasting(decode, p)
  {
    hide Normalize, RawSegments, Decoder, Split;
    if RawSegments(p) == [] {
      RootStaysRoot(decode, p);
    } else {
      NormalPath(decode, p);
      FixedIff(decode, Normalize(decode, p));
    }
  }

  lemma RootStaysRoot(decode: string -> string, p: string)
    requires RawSegments(p) == []
    ensures Normalize(decode, Normalize(decode, p)) == Normalize(decode, p) && Lasting(decode, p)
  {
    hide RawSegments, Collapse;
    DecodedAreRaw(decode, p);
    OneSlash();
    assert Normalize(decode, p) == "/";
    assert RawSegments("/") == [] by { RootHasNoSegments(); }
    DecodedAreRaw(decode, "/");
  }

  lemma RootHasNoSegments()
    ensures RawSegments("/") == []
  {
    OneSlash();
  }

  // ---------------------------------------------------------------- paths without percent signs

  /** A path without a leading slash that fills the limit, and that neither collapsing, nor cutting a trailing slash, nor
      the limit on segments shortens: with the slash put in front it no longer fits. */
  predicate Overlong(p: string)
  {
    && |p| >= MAX_PATH_LENGTH && p[0] != '/'
    && var t := p[..MAX_PATH_LENGTH];
       Collapse(t, false) == t && t[MAX_PATH_LENGTH - 1] != '/' && |Split('/', t)| <= MAX_PATH_SEGMENTS
  }

  lemma {:induction false} PlainPieces(decode: string -> string, raw: seq<string>)
    requires Decoder(decode) && Clean(raw) && AllFree('%', raw)
    ensures Pieces(decode, raw) == raw && Settled(decode, raw)
    ensures raw != [] ==> DecodedLength(decode, raw) == |Render(raw)|
  {
    hide Decoder, Split;
    if raw != [] {
      assert Free('%', raw[0]) && Free('/', raw[0]);
      PlainPieces(decode, raw[1..]);
      Undivided(raw[0]);
      assert decode(raw[0]) == raw[0] by { IdleOn(decode, raw[0]); }
      assert raw == [raw[0]] + raw[1..];
      assert Decode(decode, raw) == raw by { IdleOnAll(decode, raw); }
      PiecesOfJoined(decode, raw);
    }
  }

  lemma IdleOn(decode: string -> string, s: string)
    requires Decoder(decode) && Free('%', s)
    ensures decode(s) == s
  {
  }

  lemma IdleOnAll(decode: string -> string, raw: seq<string>)
    requires Decoder(decode) && AllFree('%', raw)
    ensures Decode(decode, raw) == raw
  {
  }

  lemma Undivided(s: string)
    requires Free('/', s)
    ensures Split('/', s) == [s]
  {
    assert Join('/', [s]) == s;
    SplitJoined('/', [s]);
  }

  lemma OverlongIff(p: string)
    ensures RawSegments(p) != [] && |Render(RawSegments(p))| > MAX_PATH_LENGTH <==> Overlong(p)
  {
    hide Collapse, Collapsed, Split, Join;
    var t := Truncated(p);
    var rooted := Rooted(t);
    var c := Collapse(rooted, false);
    var w := WithoutTrailing(c);
    CollapseCollapses(rooted, false);
    SegmentsAreClean(c);
    var all := Segments(w);
    assert Render(all) == w && |w| <= |c| <= |rooted| <= MAX_PATH_LENGTH + 1;
    if all != [] {
      PrefixIsShorter(all, |Few(all)|);
      if |all| > MAX_PATH_SEGMENTS {
        PrefixIsStrictlyShorter(all, MAX_PATH_SEGMENTS);
      }
    }
    if |p| >= MAX_PATH_LENGTH && p[0] != '/' {
      assert t == p[..MAX_PATH_LENGTH] && rooted == "/" + t;
      CollapseBehindSlash(t);
      if |c| == MAX_PATH_LENGTH + 1 {
        SameLengthCollapse(rooted, false);
        assert w == c ==> all == Split('/', t) by { assert ("/" + t)[1..] == t; }
      }
    }
  }

  lemma CollapseBehindSlash(t: string)
    requires t != [] && t[0] != '/'
    ensures Collapse("/" + t, false) == "/" + Collapse(t, false)
  {
    assert ("/" + t)[1..] == t;
  }

  /** On a path without percent signs normalising twice is normalising once unless the path is overlong. */
  lemma PlainTwiceIff(decode: string -> string, p: string)
    requires Decoder(decode) && Free('%', p)
    ensures Normalize(decode, Normalize(decode, p)) == Normalize(decode, p) <==> !Overlong(p)
  {
    hide Normalize, RawSegments, Decoder, Overlong, Render, Split;
    NormalizeTwiceIff(decode, p);
    RawIsClean(p);
    PlainPieces(decode, RawSegments(p));
    OverlongIff(p);
    if RawSegments(p) == [] {
      RootStaysRoot(decode, p);
    }
  }

  function LongPath(): string { seq(MAX_PATH_LENGTH, i => 'a') }

  /** 2048 letters without a leading slash: the first pass puts the slash in front, the second cuts the last letter. */
  lemma LongPathShrinks(decode: string -> string)
    requires Decoder(decode)
    ensures Overlong(LongPath())
    ensures Normalize(decode, LongPath()) == "/" + LongPath()
    ensures Normalize(decode, "/" + LongPath()) == "/" + LongPath()[..MAX_PATH_LENGTH - 1]
  {
    hide Normalize, Decoder, Overlong;
    var p := LongPath();
    assert Free('/', p) && Free('%', p);
    Unslashed(decode, p);
    Cut(decode, p);
    AllLettersAreOverlong(p);
  }

  lemma AllLettersAreOverlong(p: string)
    requires |p| == MAX_PATH_LENGTH && Free('/', p)
    ensures Overlong(p)
  {
    hide Collapse, Split;
    assert p[0] in p && p[MAX_PATH_LENGTH - 1] in p && p[..MAX_PATH_LENGTH] == p;
    Undivided(p);
    assert Collapsed(p, false) by { assert forall i :: 0 <= i < |p| ==> p[i] in p; }
    CollapseCollapses(p, false);
  }

  lemma Unslashed(decode: string -> string, p: string)
    requires Decoder(decode) && |p| == MAX_PATH_LENGTH && Free('/', p) && Free('%', p)
    ensures Normalize(decode, p) == "/" + p
  {
    hide Collapse, Split, Segments, WithoutTrailing, Decoder;
    assert p[0] in p;
    SlashInFront(p);
    assert RawSegments(p) == [p];
    DecodedAreRaw(decode, p);
    IdleOnAll(decode, [p]);
  }

  lemma SlashInFront(p: string)
    requires p != [] && Free('/', p)
    ensures Segments(WithoutTrailing(Collapse("/" + p, false))) == [p]
  {
    hide Collapse, Split;
    Undivided(p);
    assert p[0] in p && p[|p| - 1] in p;
    assert Collapsed("/" + p, false) by { assert forall i :: 0 <= i < |p| ==> ("/" + p)[i + 1] == p[i] && p[i] in p; }
    CollapseCollapses("/" + p, false);
    assert ("/" + p)[1..] == p;
  }

  lemma Cut(decode: string -> string, p: string)
    requires Decoder(decode) && |p| == MAX_PATH_LENGTH && Free('/', p) && Free('%', p)
    ensures Normalize(decode, "/" + p) == "/" + p[..MAX_PATH_LENGTH - 1]
  {
    hide Collapse, Split, Segments, WithoutTrailing, Decoder;
    var q := p[..MAX_PATH_LENGTH - 1];
    assert Free('/', q) && Free('%', q);
    assert Truncated("/" + p) == "/" + q;
    SlashInFront(q);
    assert RawSegments("/" + p) == [q];
    DecodedAreRaw(decode, "/" + p);
    IdleOnAll(decode, [q]);
  }

  /** Encoded slashes do it without any percent sign being left: `/a%2F%2Fb` becomes `/a//b`, which collapses next time. */
  lemma EncodedSlashesCollapse(decode: string -> string)
    requires Decoder(decode) && decode("a%2F%2Fb") == "a//b"
    ensures Normalize(decode, "/a%2F%2Fb") == "/a//b" && Normalize(decode, "/a//b") != "/a//b"
  {
    hide Normalize, Collapse, Split, Segments, WithoutTrailing, Decoder;
    var s := "a%2F%2Fb";
    assert Free('/', s) && "/" + s == "/a%2F%2Fb" && "/" + "a//b" == "/a//b";
    OneSegment(decode, s);
    SlashInFront(s);
    assert Truncated("/" + s) == "/" + s;
    assert RawSegments("/" + s) == [s];
    NormalizeTwiceIff(decode, "/" + s);
    assert Pieces(decode, [s]) == Split('/', "a//b") + [] == Split('/', "a//b") by { OnePiece(decode, s); }
    assert Split('/', "a//b")[1] == "" by { DoubleSlash(); }
  }

  lemma OnePiece(decode: string -> string, s: string)
    ensures Pieces(decode, [s]) == Split('/', decode(s))
  {
    assert [s][1..] == [] && Pieces(decode, []) == [];
  }

  lemma DoubleSlash()
    ensures Split('/', "a//b") == ["a", "", "b"]
  {
    hide Split;
    Undivided("a");
    Undivided("b");
    SplitAppend("", "b");
    SplitAppend("a", "/b");
    NothingToSplit();
    assert "" + "/" + "b" == "/b" && "a" + "/" + "/b" == "a//b";
  }

  // ---------------------------------------------------------------- matching

  /** What a pattern means: `**` stands for any number of segments, `*` for one, anything else for itself. */
  ghost predicate Matches(ps: seq<string>, ss: seq<string>)
    decreases |ps|
  {
    if ps == [] then ss == []
    else if ps[0] == "**" then exists k :: 0 <= k <= |ss| && Matches(ps[1..], ss[k..])
    else ss != [] && (ps[0] == "*" || ps[0] == ss[0]) && Matches(ps[1..], ss[1..])
  }

  ghost predicate Later(ps: seq<string>, ss: seq<string>, from: int)
  {
    exists k :: from < k <= |ss| && 0 <= k && Matches(ps, ss[k..])
  }

  /** A segment list matched by `**` and a rest is also matched when more segments come first. */
  lemma StarsAbsorb(ps: seq<string>, ss: seq<string>, i: nat, j: nat)
    requires ps != [] && ps[0] == "**" && i <= j <= |ss| && Matches(ps, ss[j..])
    ensures Matches(ps, ss[i..])
  {
    var k :| 0 <= k <= |ss[j..]| && Matches(ps[1..], ss[j..][k..]);
    assert ss[j..][k..] == ss[i..][j - i + k..];
  }

  /** Segments of a pattern without `**` take one path segment each. */
  lemma {:induction false} PlainTakesOneEach(ps: seq<string>, n: nat, ss: seq<string>)
    requires n <= |ps| && (forall i :: 0 <= i < n ==> ps[i] != "**") && Matches(ps, ss)
    ensures n <= |ss| && Matches(ps[n..], ss[n..])
  {
    if n == 0 {
      assert ps[0..] == ps && ss[0..] == ss;
    } else {
      PlainTakesOneEach(ps[1..], n - 1, ss[1..]);
      assert ps[1..][n - 1..] == ps[n..] && ss[1..][n - 1..] == ss[n..];
    }
  }

  /** A later start of the last `**` cannot do better than the position reached since. */
  lemma LaterIsSubsumed(ps: seq<string>, ss: seq<string>, starPi: nat, starSi: nat, pi: nat, si: nat)
    requires starPi < pi <= |ps| && si <= |ss| && si - starSi == pi - starPi - 1 && starSi <= si
    requires forall i :: starPi < i < pi ==> ps[i] != "**"
    requires Later(ps[starPi + 1..], ss, starSi)
    ensures exists k :: si < k <= |ss| && Matches(ps[pi..], ss[k..])
  {
    var k :| starSi < k <= |ss| && 0 <= k && Matches(ps[starPi + 1..], ss[k..]);
    var n := pi - starPi - 1;
    PlainTakesOneEach(ps[starPi + 1..], n, ss[k..]);
    assert ps[starPi + 1..][n..] == ps[pi..] && ss[k..][n..] == ss[k + n..];
  }

  lemma StarOpens(ps: seq<string>, ss: seq<string>, pi: nat, si: nat)
    requires pi < |ps| && ps[pi] == "**" && si <= |ss|
    ensures Matches(ps[pi..], ss[si..]) <==> Matches(ps[pi + 1..], ss[si..]) || Later(ps[pi + 1..], ss, si)
  {
    assert ps[pi..][1..] == ps[pi + 1..] && ps[pi..][0] == "**";
    if Matches(ps[pi..], ss[si..]) {
      var k :| 0 <= k <= |ss[si..]| && Matches(ps[pi + 1..], ss[si..][k..]);
      assert ss[si..][k..] == ss[si + k..];
      assert k > 0 ==> si < si + k <= |ss|;
      assert k == 0 ==> ss[si + k..] == ss[si..];
    }
    if Matches(ps[pi + 1..], ss[si..]) {
      assert ss[si..][0..] == ss[si..];
    }
    if Later(ps[pi + 1..], ss, si) {
      var k :| si < k <= |ss| && 0 <= k && Matches(ps[pi + 1..], ss[k..]);
      assert ss[si..][k - si..] == ss[k..];
    }
  }

  lemma LaterSteps(ps: seq<string>, ss: seq<string>, from: int)
    requires -1 <= from < |ss|
    ensures Later(ps, ss, from) <==> Matches(ps, ss[from + 1..]) || Later(ps, ss, from + 1)
  {
  }

  lemma {:induction false} OnlyStarsMatchNothing(ps: seq<string>)
    ensures Matches(ps, []) <==> forall i :: 0 <= i < |ps| ==> ps[i] == "**"
  {
    var none: seq<string> := [];
    if ps != [] {
      OnlyStarsMatchNothing(ps[1..]);
      assert none[0..] == none;
      if ps[0] == "**" {
        assert Matches(ps, none) <==> Matches(ps[1..], none);
      }
    }
  }

  lemma OneStep(ps: seq<string>, ss: seq<string>, pi: nat, si: nat)
    requires pi < |ps| && ps[pi] != "**" && si < |ss|
    ensures Matches(ps[pi..], ss[si..]) <==> (ps[pi] == "*" || ps[pi] == ss[si]) && Matches(ps[pi + 1..], ss[si + 1..])
  {
    assert ps[pi..][1..] == ps[pi + 1..] && ss[si..][1..] == ss[si + 1..];
  }

  /** How many rounds the loop may have made: `n` for every start of the last `**` given up, and the pattern read since. */
  ghost function Budget(n: nat, starSi: int, len: nat, pi: nat): int
  {
    n * (starSi + 1) + if starSi == len then 0 else pi
  }

  lemma Product(n: nat, b: nat, c: nat)
    requires b <= c
    ensures n * b <= n * c
  {
    assert n * c == n * b + n * (c - b);
  }

  lemma BudgetStart(n: nat, len: nat)
    ensures Budget(n, -1, len, 0) == 0
  {
  }

  lemma BudgetAhead(n: nat, starSi: int, len: nat, pi: nat, newStarSi: int)
    requires -1 <= starSi <= newStarSi < len && pi < n
    ensures Budget(n, starSi, len, pi) + 1 <= Budget(n, newStarSi, len, pi + 1)
  {
    Product(n, starSi + 1, newStarSi + 1);
  }

  lemma BudgetBack(n: nat, starSi: int, len: nat, pi: nat, newPi: nat)
    requires -1 <= starSi < len && pi < n
    ensures Budget(n, starSi, len, pi) + 1 <= Budget(n, starSi + 1, len, newPi)
  {
    assert n * (starSi + 2) == n * (starSi + 1) + n;
  }

  lemma BudgetSpent(n: nat, starSi: int, len: nat, pi: nat)
    requires -1 <= starSi <= len && pi < n
    ensures Budget(n, starSi, len, pi) <= n * (len + 1)
    ensures starSi < len ==> Budget(n, starSi, len, pi) + 1 <= n * (len + 1)
  {
    if starSi < len {
      assert n * (starSi + 2) == n * (starSi + 1) + n;
      Product(n, starSi + 2, len + 1);
    }
  }

  /** The loop of `matchProactivePathPattern`. It goes back to the last `**` only, yet it finds every match, and `steps`
      rounds are enough. */
  method MatchSegments(ps: seq<string>, ss: seq<string>) returns (matched: bool, ghost steps: nat)
    ensures matched <==> Matches(ps, ss)
    ensures steps <= (|ps| + 1) * (|ss| + 1)
  {
    hide Matches, Later, Budget;
    var pi, si := 0, 0;
    var starPi, starSi := -1, -1;
    steps := 0;
    assert Budget(|ps| + 1, -1, |ss|, 0) == 0 by { BudgetStart(|ps| + 1, |ss|); }
    assert ps[0..] == ps && ss[0..] == ss;
    while si < |ss|
      invariant 0 <= pi <= |ps| && 0 <= si <= |ss| && -1 <= starPi < pi + 1 && -1 <= starSi <= si
      invariant starPi == -1 <==> starSi == -1
      invariant starPi != -1 ==> starPi < pi && ps[starPi] == "**" && si - starSi == pi - starPi - 1
      invariant forall i :: starPi < i < pi ==> ps[i] != "**"
      invariant Matches(ps, ss) <==> Matches(ps[pi..], ss[si..]) || (starPi != -1 && Later(ps[starPi + 1..], ss, starSi))
      invariant steps <= Budget(|ps| + 1, starSi, |ss|, pi)
      decreases |ps| - starPi, |ss| - starSi, |ps| - pi
    {
      steps := steps + 1;
      if pi < |ps| && ps[pi] == "**" {
        if starPi != -1 && Later(ps[starPi + 1..], ss, starSi) {
          LaterIsSubsumed(ps, ss, starPi, starSi, pi, si);
          var k :| si < k <= |ss| && Matches(ps[pi..], ss[k..]);
          StarsAbsorb(ps[pi..], ss, si, k);
        }
        StarOpens(ps, ss, pi, si);
        BudgetAhead(|ps| + 1, starSi, |ss|, pi, si);
        starPi := pi;
        starSi := si;
        pi := pi + 1;
        continue;
      }
      if pi < |ps| {
        OneStep(ps, ss, pi, si);
        if ps[pi] == "*" || ps[pi] == ss[si] {
          BudgetAhead(|ps| + 1, starSi, |ss|, pi, starSi);
          pi := pi + 1;
          si := si + 1;
          continue;
        }
      } else {
        EmptyPattern(ss[si..]);
        assert ps[pi..] == [];
      }
      if starPi != -1 {
        LaterSteps(ps[starPi + 1..], ss, starSi);
        BudgetBack(|ps| + 1, starSi, |ss|, pi, starPi + 1);
        starSi := starSi + 1;
        si := starSi;
        pi := starPi + 1;
        continue;
      }
      BudgetSpent(|ps| + 1, starSi, |ss|, pi);
      return false, steps;
    }
    BudgetSpent(|ps| + 1, starSi, |ss|, pi);
    if starPi != -1 && Later(ps[starPi + 1..], ss, starSi) {
      LaterIsSubsumed(ps, ss, starPi, starSi, pi, si);
    }
    assert ss[si..] == [];
    OnlyStarsMatchNothing(ps[pi..]);
    ghost var tail := pi;
    while pi < |ps| && ps[pi] == "**"
      invariant tail <= pi <= |ps|
      invariant forall i :: tail <= i < pi ==> ps[i] == "**"
    {
      pi := pi + 1;
    }
    assert pi < |ps| ==> ps[tail..][pi - tail] == ps[pi];
    return pi == |ps|, steps;
  }

  lemma EmptyPattern(ss: seq<string>)
    ensures Matches([], ss) <==> ss == []
  {
  }

  function PatternSegments(pattern: string): seq<string>
  {
    if pattern == "/" || pattern == [] then [] else Split('/', if pattern[0] == '/' then pattern[1..] else pattern)
  }

  function PathSegments(normalized: string): seq<string>
    requires normalized != []
  {
    if normalized == "/" then [] else Split('/', normalized[1..])
  }

  ghost predicate PatternMatches(decode: string -> string, pattern: string, path: string)
  {
    |pattern| <= MAX_PATTERN_LENGTH && Matches(PatternSegments(pattern), PathSegments(Normalize(decode, path)))
  }

  /** `matchProactivePathPattern`. */
  method MatchPattern(decode: string -> string, pattern: string, path: string) returns (matched: bool)
    ensures matched <==> PatternMatches(decode, pattern, path)
  {
    if |pattern| > MAX_PATTERN_LENGTH {
      return false;
    }
    ghost var steps;
    matched, steps := MatchSegments(PatternSegments(pattern), PathSegments(Normalize(decode, path)));
  }

  /** `matchesPathCondition`: some inclusion matches and no exclusion does. */
  method MatchesPathCondition(decode: string -> string, included: seq<string>, excluded: seq<string>, path: string) returns (r: bool)
    ensures r <==> (exists i :: 0 <= i < |included| && PatternMatches(decode, included[i], path))
                   && forall i :: 0 <= i < |excluded| ==> !PatternMatches(decode, excluded[i], path)
  {
    hide PatternMatches;
    var found := false;
    for i := 0 to |included|
      invariant found <==> exists j :: 0 <= j < i && PatternMatches(decode, included[j], path)
    {
      var m := MatchPattern(decode, included[i], path);
      found := found || m;
    }
    if !found {
      return false;
    }
    for i := 0 to |excluded|
      invariant forall j :: 0 <= j < i ==> !PatternMatches(decode, excluded[j], path)
    {
      var m := MatchPattern(decode, excluded[i], path);
      if m {
        return false;
      }
    }
    return true;
  }
}
