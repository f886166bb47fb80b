/** What a normalised path consists of (packages/shared-types/src/proactive-eval.ts). */
module PathFacts {
  import opened Prelude
  import opened Texts
  import opened ProactivePaths

  predicate Visible(segment: string) { segment != "" }

  /** What stands between the slashes, where anything does. */
  function Shown(path: string): seq<string> { Filter(Visible, Split('/', path)) }

  lemma FilterFirst(first: string, rest: seq<string>)
    ensures Filter(Visible, [first] + rest) == (if first == "" then [] else [first]) + Filter(Visible, rest)
  {
    assert ([first] + rest)[1..] == rest;
  }

  lemma {:induction false} FilterBoth(a: seq<string>, b: seq<string>)
    ensures Filter(Visible, a + b) == Filter(Visible, a) + Filter(Visible, b)
  {
    hide Filter;
    if a == [] {
      NothingShown();
      assert a + b == b && [] + Filter(Visible, b) == Filter(Visible, b);
    } else {
      FilterBoth(a[1..], b);
      FilterFirst(a[0], a[1..]);
      FilterFirst(a[0], a[1..] + b);
      assert a == [a[0]] + a[1..] && a + b == [a[0]] + (a[1..] + b);
    }
  }

  lemma {:induction false} AllVisible(parts: seq<string>)
    requires forall i :: 0 <= i < |parts| ==> parts[i] != []
    ensures Filter(Visible, parts) == parts
  {
    if parts != [] {
      AllVisible(parts[1..]);
    }
  }

  /** Collapsing slashes changes nothing between them. */
  lemma {:induction false} CollapseKeepsShown(s: string, after: bool)
    ensures Shown(Collapse(s, after)) == Shown(s)
    ensures !after ==> var a, b := Split('/', Collapse(s, false)), Split('/', s);
      a[0] == b[0] && Filter(Visible, a[1..]) == Filter(Visible, b[1..])
  {
    if s != [] {
      var rest := s[1..];
      SplitStep(s);
      CollapseKeepsShown(rest, s[0] == '/');
      if s[0] == '/' && after {
        hide Filter, Split, Collapse;
        FilterFirst("", Split('/', rest));
        assert Shown(s) == [] + Shown(rest);
      } else {
        var kept := Collapse(rest, s[0] == '/');
        var whole := [s[0]] + kept;
        assert whole[1..] == kept && Collapse(s, after) == whole;
        SplitStep(whole);
        hide Filter, Split, Collapse;
        if s[0] == '/' {
          FilterFirst("", Split('/', rest));
          FilterFirst("", Split('/', kept));
        } else {
          var a, b := Split('/', kept), Split('/', rest);
          FilterFirst([s[0]] + a[0], a[1..]);
          FilterFirst([s[0]] + b[0], b[1..]);
        }
      }
    }
  }

  lemma RootedShown(s: string)
    ensures Shown(Rooted(s)) == Shown(s)
  {
    hide Filter, Split;
    if Rooted(s) != s {
      SplitStep("/" + s);
      assert ("/" + s)[1..] == s;
      FilterFirst("", Split('/', s));
      assert Shown("/" + s) == [] + Shown(s);
    }
  }

  lemma TrailingShown(s: string)
    ensures Shown(WithoutTrailing(s)) == Shown(s)
  {
    hide Filter, Split;
    if WithoutTrailing(s) != s {
      var x := s[..|s| - 1];
      assert s == x + "/" + "";
      SplitAppend(x, "");
      NothingToSplit();
      FilterBoth(Split('/', x), [""]);
      FilterFirst("", []);
      assert [""] == [""] + [] && Filter(Visible, []) == [] by { NothingShown(); }
      assert Shown(s) == Shown(x) + [];
    }
  }

  lemma NothingShown()
    ensures Filter(Visible, []) == []
  {
  }

  lemma SegmentsAreShown(c: string)
    requires c != [] && c[0] == '/' && Collapsed(c, false)
    ensures Segments(WithoutTrailing(c)) == Shown(c)
  {
    hide Filter, Split, Collapsed, Render;
    var w := WithoutTrailing(c);
    SegmentsAreClean(c);
    TrailingShown(c);
    AllVisible(Segments(w));
    assert w[0] == '/';
    if w == "/" {
      SplitStep("/");
      assert "/"[1..] == "";
      NothingToSplit();
      NothingShown();
      FilterFirst("", [""]);
      FilterFirst("", []);
      assert [""] == [""] + [];
    } else {
      SplitStep(w);
      FilterFirst("", Split('/', w[1..]));
      assert Shown(w) == [] + Filter(Visible, Split('/', w[1..]));
    }
  }

  /** `normal` is a slash and, with slashes between them, at most 256 of the texts that stand between the slashes of the first
      2048 characters, each decoded. */
  ghost predicate Normalises(decode: string -> string, path: string, normal: string)
  {
    var shown := Map(decode, Shown(if |path| > 2048 then path[..2048] else path));
    var few := if |shown| > 256 then shown[..256] else shown;
    normal == if few == [] then "/" else "/" + Join('/', few)
  }

  lemma NormalizeNormalises(decode: string -> string, path: string)
    ensures Normalises(decode, path, Normalize(decode, path))
  {
    hide Shown, Collapse, Collapsed, Segments, Join, Map;
    var t := Truncated(path);
    var c := Collapse(Rooted(t), false);
    CollapseCollapses(Rooted(t), false);
    SegmentsAreShown(c);
    CollapseKeepsShown(Rooted(t), false);
    RootedShown(t);
  }
}
