/** The article scraper of `api/scrape.js`: the request gates, the de-duplicating
    collection of paragraph texts, the fallback to the whole container text, the
    white-space cleanup and the word count.

    Fetching the page and querying its DOM are not modelled: the handler receives
    the texts the selectors produced (`Page`), in document order, and the outcome
    of the fetch. Parsing the URL is likewise an input: the host name, or `None`
    when `new URL(url)` throws. */
module Scrape {
  import opened Seqs
  import opened Text
  import opened Wrappers

  // ---------------------------------------------------------------------------
  // Title and subtitle: the first selector that yields text

  /** `.text().trim()` of each element, in order. */
  function Trims(texts: seq<string>): (r: seq<string>)
    ensures |r| == |texts|
    ensures forall k :: 0 <= k < |r| ==> Trimmed(r[k]) && (r[k] == [] <==> Blank(texts[k]))
  {
    seq(|texts|, k requires 0 <= k < |texts| => Trim(texts[k]))
  }

  /** `a || b || … || ''` over the trimmed texts of the candidate selectors. */
  function FirstFilled(xs: seq<string>): (r: string)
    ensures r == [] <==> forall k :: 0 <= k < |xs| ==> xs[k] == []
    decreases |xs|
  {
    if xs == [] then []
    else if xs[0] != [] then xs[0]
    else
      var r := FirstFilled(xs[1..]);
      assert forall k :: 1 <= k < |xs| ==> xs[k] == xs[1..][k - 1];
      r
  }

  /** The chosen text is the first non-empty candidate. */
  lemma {:induction false} FirstFilledIsFirst(xs: seq<string>)
    requires FirstFilled(xs) != []
    ensures exists k :: 0 <= k < |xs| && FirstFilled(xs) == xs[k] && forall j :: 0 <= j < k ==> xs[j] == []
    decreases |xs|
  {
    if xs[0] == [] {
      FirstFilledIsFirst(xs[1..]);
      var k :| 0 <= k < |xs[1..]| && FirstFilled(xs[1..]) == xs[1..][k] && forall j :: 0 <= j < k ==> xs[1..][j] == [];
      assert FirstFilled(xs) == xs[k + 1];
      forall j | 0 <= j < k + 1
        ensures xs[j] == []
      {
        if j > 0 {
          assert xs[j] == xs[1..][j - 1];
        }
      }
    } else {
      assert FirstFilled(xs) == xs[0];
    }
  }

  // ---------------------------------------------------------------------------
  // Collecting the paragraph texts, each distinct text once

  /** The state of the `.each` loop: `bodyText` and `processedTexts`. */
  datatype Gathered = Gathered(body: string, seen: set<string>)

  /** The loop after it has visited every element (given by its trimmed text, in
      document order): a text that is non-empty and not seen before is appended
      with a blank line after it. */
  function Gather(ts: seq<string>): Gathered
    decreases |ts|
  {
    if ts == [] then Gathered([], {})
    else
      var g := Gather(ts[..|ts| - 1]);
      var t := ts[|ts| - 1];
      if t != [] && t !in g.seen then Gathered(g.body + t + "\n\n", g.seen + {t}) else g
  }

  /** Element `i` is the first with its text, and that text is not empty. */
  predicate FirstOf(ts: seq<string>, i: int)
    requires 0 <= i < |ts|
  {
    ts[i] != [] && forall j :: 0 <= j < i ==> ts[j] != ts[i]
  }

  /** Reference definition: the texts of the elements that are first of their
      kind, in document order. */
  function Firsts(ts: seq<string>): seq<string>
    decreases |ts|
  {
    if ts == [] then []
    else
      var n := |ts| - 1;
      Firsts(ts[..n]) + (if FirstOf(ts, n) then [ts[n]] else [])
  }

  /** Each text followed by a blank line. */
  function Paragraphs(xs: seq<string>): string
    decreases |xs|
  {
    if xs == [] then [] else Paragraphs(xs[..|xs| - 1]) + xs[|xs| - 1] + "\n\n"
  }

  lemma {:induction false} InSnoc(ts: seq<string>, t: string)
    requires ts != []
    ensures t in ts <==> t in ts[..|ts| - 1] || ts[|ts| - 1] == t
  {
    assert ts == ts[..|ts| - 1] + [ts[|ts| - 1]];
  }

  /** `FirstOf` of the last element: its text is new. */
  lemma {:induction false} FirstOfLast(ts: seq<string>)
    requires ts != []
    ensures FirstOf(ts, |ts| - 1) <==> ts[|ts| - 1] != [] && ts[|ts| - 1] !in ts[..|ts| - 1]
  {
    var n := |ts| - 1;
    var p := ts[..n];
    if ts[n] in p {
      var j :| 0 <= j < |p| && p[j] == ts[n];
      assert ts[j] == p[j];
    } else {
      forall j | 0 <= j < n
        ensures ts[j] != ts[n]
      {
        assert ts[j] == p[j];
      }
    }
  }

  /** The loop computes the reference: its body is the first occurrences, each
      followed by a blank line, and its set is every non-empty text. */
  lemma {:induction false} GatherIsFirsts(ts: seq<string>)
    ensures Gather(ts).body == Paragraphs(Firsts(ts))
    ensures forall t :: t in Gather(ts).seen <==> t != [] && t in ts
    decreases |ts|
  {
    if ts != [] {
      var n := |ts| - 1;
      var p := ts[..n];
      GatherIsFirsts(p);
      var t := ts[n];
      forall u
        ensures u in ts <==> u in p || t == u
      {
        InSnoc(ts, u);
      }
      FirstOfLast(ts);
      var f := Firsts(p);
      if FirstOf(ts, n) {
        assert Firsts(ts) == f + [t];
        assert (f + [t])[..|f|] == f;
      } else {
        assert Firsts(ts) == f + [];
        assert f + [] == f;
      }
    }
  }

  /** The reference holds every non-empty text once, in the order of first
      occurrence. */
  lemma {:induction false} FirstsFacts(ts: seq<string>)
    ensures forall k :: 0 <= k < |Firsts(ts)| ==> Firsts(ts)[k] in ts
    ensures forall t :: t in Firsts(ts) <==> t != [] && t in ts
    ensures forall i, j :: 0 <= i < j < |Firsts(ts)| ==> Firsts(ts)[i] != Firsts(ts)[j]
    decreases |ts|
  {
    if ts != [] {
      var n := |ts| - 1;
      var p := ts[..n];
      FirstsFacts(p);
      var t := ts[n];
      forall u
        ensures u in ts <==> u in p || t == u
      {
        InSnoc(ts, u);
      }
      FirstOfLast(ts);
      var f := Firsts(p);
      if FirstOf(ts, n) {
        assert Firsts(ts) == f + [t];
      } else {
        assert Firsts(ts) == f + [];
      }
    }
  }

  lemma {:induction false} ParagraphsBlank(xs: seq<string>)
    requires forall k :: 0 <= k < |xs| ==> xs[k] != [] && Trimmed(xs[k])
    ensures Blank(Paragraphs(xs)) <==> xs == []
  {
    if xs != [] {
      var n := |xs| - 1;
      var a := Paragraphs(xs[..n]);
      assert Paragraphs(xs) == a + xs[n] + "\n\n";
      assert Paragraphs(xs)[|a|] == xs[n][0];
    }
  }

  /** The text between the paragraphs is white space only. */
  lemma {:induction false} InkParagraphs(xs: seq<string>)
    ensures Ink(Paragraphs(xs)) == Ink(Concat(xs))
    decreases |xs|
  {
    if xs != [] {
      var n := |xs| - 1;
      InkParagraphs(xs[..n]);
      assert xs == xs[..n] + [xs[n]];
      ConcatSnoc(xs[..n], xs[n]);
      InkAppend(Paragraphs(xs[..n]) + xs[n], "\n\n");
      InkAppend(Paragraphs(xs[..n]), xs[n]);
      InkAppend(Concat(xs[..n]), xs[n]);
      assert Ink("\n\n") == [];
    }
  }

  // ---------------------------------------------------------------------------
  // Cleanup: `.replace(/\n{3,}/g, '\n\n').replace(/[ \t]+/g, ' ').trim()`

  /** The global replacement of `/\n{3,}/`: the scan meets each maximal run of line
      feeds at its start, and the greedy match takes the whole run when it has
      three or more, leaving two. */
  function CollapseNewlines(s: string): (r: string)
    ensures s != [] && s[0] != '\n' ==> r != [] && r[0] == s[0]
    decreases |s|
  {
    if s == [] then []
    else if s[0] != '\n' then [s[0]] + CollapseNewlines(s[1..])
    else
      var k := NewlineRun(s);
      (if k >= 3 then "\n\n" else s[..k]) + CollapseNewlines(s[k..])
  }

  predicate IsBlankChar(c: char)
  {
    c == ' ' || c == '\t'
  }

  /** The length of the run of spaces and tabs `s` starts with. */
  function BlankRun(s: string): (k: nat)
    ensures k <= |s|
    ensures forall i :: 0 <= i < k ==> IsBlankChar(s[i])
    ensures k < |s| ==> !IsBlankChar(s[k])
    ensures s != [] && IsBlankChar(s[0]) ==> k >= 1
    decreases |s|
  {
    if s != [] && IsBlankChar(s[0]) then
      var k := BlankRun(s[1..]);
      assert forall i :: 1 <= i < 1 + k ==> s[i] == s[1..][i - 1];
      1 + k
    else 0
  }

  /** The global replacement of `/[ \t]+/` by one space: every maximal run of
      spaces and tabs becomes a single space. */
  function CollapseBlanks(s: string): (r: string)
    ensures s != [] ==> r != []
    ensures s != [] && IsBlankChar(s[0]) ==> r[0] == ' '
    ensures s != [] && !IsBlankChar(s[0]) ==> r[0] == s[0]
    decreases |s|
  {
    if s == [] then []
    else if !IsBlankChar(s[0]) then [s[0]] + CollapseBlanks(s[1..])
    else " " + CollapseBlanks(s[BlankRun(s)..])
  }

  /** The body as the handler returns it. */
  function Clean(s: string): string
  {
    Trim(CollapseBlanks(CollapseNewlines(s)))
  }

  /** No three line feeds in a row. */
  predicate NoTripleBreak(s: string)
  {
    forall i :: 0 <= i < |s| - 2 ==> !(s[i] == '\n' && s[i + 1] == '\n' && s[i + 2] == '\n')
  }

  /** No tab, and no two spaces in a row. */
  predicate SingleSpaced(s: string)
  {
    && (forall i :: 0 <= i < |s| ==> s[i] != '\t')
    && (forall i :: 0 <= i < |s| - 1 ==> !(s[i] == ' ' && s[i + 1] == ' '))
  }

  lemma {:induction false} NoTripleCons(c: char, b: string)
    ensures NoTripleBreak([c] + b) <==> NoTripleBreak(b) && !(c == '\n' && |b| >= 2 && b[0] == '\n' && b[1] == '\n')
  {
    var s := [c] + b;
    if NoTripleBreak(s) {
      forall i | 0 <= i < |b| - 2
        ensures !(b[i] == '\n' && b[i + 1] == '\n' && b[i + 2] == '\n')
      {
        assert s[i + 1] == b[i] && s[i + 2] == b[i + 1] && s[i + 3] == b[i + 2];
      }
      if |b| >= 2 {
        assert s[0] == c && s[1] == b[0] && s[2] == b[1];
      }
    }
    if NoTripleBreak(b) && !(c == '\n' && |b| >= 2 && b[0] == '\n' && b[1] == '\n') {
      forall i | 0 <= i < |s| - 2
        ensures !(s[i] == '\n' && s[i + 1] == '\n' && s[i + 2] == '\n')
      {
        if i == 0 {
          assert s[1] == b[0] && s[2] == b[1];
        } else {
          assert s[i] == b[i - 1] && s[i + 1] == b[i] && s[i + 2] == b[i + 1];
        }
      }
    }
  }

  lemma {:induction false} SingleSpacedCons(c: char, b: string)
    ensures SingleSpaced([c] + b) <==> SingleSpaced(b) && c != '\t' && !(c == ' ' && |b| >= 1 && b[0] == ' ')
  {
    var s := [c] + b;
    if SingleSpaced(s) {
      forall i | 0 <= i < |b|
        ensures b[i] != '\t'
      {
        assert s[i + 1] == b[i];
      }
      forall i | 0 <= i < |b| - 1
        ensures !(b[i] == ' ' && b[i + 1] == ' ')
      {
        assert s[i + 1] == b[i] && s[i + 2] == b[i + 1];
      }
      assert s[0] == c;
      if |b| >= 1 {
        assert s[1] == b[0];
      }
    }
    if SingleSpaced(b) && c != '\t' && !(c == ' ' && |b| >= 1 && b[0] == ' ') {
      forall i | 0 <= i < |s|
        ensures s[i] != '\t'
      {
        if i > 0 {
          assert s[i] == b[i - 1];
        }
      }
      forall i | 0 <= i < |s| - 1
        ensures !(s[i] == ' ' && s[i + 1] == ' ')
      {
        if i == 0 {
          assert s[1] == b[0];
        } else {
          assert s[i] == b[i - 1] && s[i + 1] == b[i];
        }
      }
    }
  }

  lemma {:induction false} NoTripleSlice(s: string, a: nat, b: nat)
    requires a <= b <= |s| && NoTripleBreak(s)
    ensures NoTripleBreak(s[a..b])
  {
    var t := s[a..b];
    forall i | 0 <= i < |t| - 2
      ensures !(t[i] == '\n' && t[i + 1] == '\n' && t[i + 2] == '\n')
    {
      assert t[i] == s[a + i] && t[i + 1] == s[a + i + 1] && t[i + 2] == s[a + i + 2];
    }
  }

  lemma {:induction false} SingleSpacedSlice(s: string, a: nat, b: nat)
    requires a <= b <= |s| && SingleSpaced(s)
    ensures SingleSpaced(s[a..b])
  {
    var t := s[a..b];
    forall i | 0 <= i < |t| - 1
      ensures !(t[i] == ' ' && t[i + 1] == ' ')
    {
      assert t[i] == s[a + i] && t[i + 1] == s[a + i + 1];
    }
  }

  /** A run of fewer than three line feeds, then text that does not start with one. */
  lemma {:induction false} NoTripleAfterShortRun(k: nat, b: string)
    requires 1 <= k <= 2 && NoTripleBreak(b) && (b == [] || b[0] != '\n')
    ensures NoTripleBreak(seq(k, _ => '\n') + b)
  {
    var run := seq(k, _ => '\n');
    NoTripleCons('\n', b);
    if k == 2 {
      assert run + b == ['\n'] + (['\n'] + b);
      NoTripleCons('\n', ['\n'] + b);
    } else {
      assert run + b == ['\n'] + b;
    }
  }

  /** After the first replacement no three line feeds are left in a row. */
  lemma {:induction false} CollapseNewlinesNoTriple(s: string)
    ensures NoTripleBreak(CollapseNewlines(s))
    decreases |s|
  {
    if s != [] {
      if s[0] != '\n' {
        CollapseNewlinesNoTriple(s[1..]);
        NoTripleCons(s[0], CollapseNewlines(s[1..]));
      } else {
        var k := NewlineRun(s);
        var rest := s[k..];
        CollapseNewlinesNoTriple(rest);
        var m := if k >= 3 then 2 else k;
        assert (if k >= 3 then "\n\n" else s[..k]) == seq(m, _ => '\n');
        NoTripleAfterShortRun(m, CollapseNewlines(rest));
      }
    }
  }

  /** The first replacement leaves a text without three line feeds in a row as it is. */
  lemma {:induction false} CollapseNewlinesFixed(s: string)
    requires NoTripleBreak(s)
    ensures CollapseNewlines(s) == s
    decreases |s|
  {
    if s != [] {
      if s[0] != '\n' {
        NoTripleSlice(s, 1, |s|);
        CollapseNewlinesFixed(s[1..]);
      } else {
        var k := NewlineRun(s);
        if |s| > 2 {
          assert !(s[0] == '\n' && s[1] == '\n' && s[2] == '\n');
        }
        assert k < 3;
        NoTripleSlice(s, k, |s|);
        CollapseNewlinesFixed(s[k..]);
        assert s[..k] + s[k..] == s;
      }
    }
  }

  /** The first replacement takes out line feeds and nothing else: with every
      line feed removed, the result and the text are the same string. */
  lemma {:induction false} InkCollapseNewlines(s: string)
    ensures Ink(CollapseNewlines(s)) == Ink(s)
    ensures Without(CollapseNewlines(s), {'\n'}) == Without(s, {'\n'})
  {
    InkKeptByCollapseNewlines(s);
    OnlyBreaksCollapsed(s);
  }

  lemma {:induction false} InkKeptByCollapseNewlines(s: string)
    ensures Ink(CollapseNewlines(s)) == Ink(s)
    decreases |s|
  {
    if s != [] {
      if s[0] != '\n' {
        InkKeptByCollapseNewlines(s[1..]);
        assert CollapseNewlines(s) == [s[0]] + CollapseNewlines(s[1..]);
        InkAppend([s[0]], CollapseNewlines(s[1..]));
        InkAppend([s[0]], s[1..]);
        assert [s[0]] + s[1..] == s;
      } else {
        var k := NewlineRun(s);
        var run := if k >= 3 then "\n\n" else s[..k];
        assert CollapseNewlines(s) == run + CollapseNewlines(s[k..]);
        InkKeptByCollapseNewlines(s[k..]);
        InkSkipsBreaks(run, CollapseNewlines(s[k..]));
        InkSkipsBreaks(s[..k], s[k..]);
        assert s[..k] + s[k..] == s;
      }
    }
  }

  /** A run of line feeds in front of a text adds no ink. */
  lemma {:induction false} InkSkipsBreaks(run: string, rest: string)
    requires forall i :: 0 <= i < |run| ==> run[i] == '\n'
    ensures Ink(run + rest) == Ink(rest)
  {
    InkAppend(run, rest);
    assert Blank(run);
    InkBlank(run);
  }

  lemma {:induction false} OnlyBreaksCollapsed(s: string)
    ensures Without(CollapseNewlines(s), {'\n'}) == Without(s, {'\n'})
    decreases |s|
  {
    if s != [] {
      if s[0] != '\n' {
        OnlyBreaksCollapsed(s[1..]);
        assert CollapseNewlines(s) == [s[0]] + CollapseNewlines(s[1..]);
        WithoutKeepsHead(s[0], CollapseNewlines(s[1..]), {'\n'});
        WithoutKeepsHead(s[0], s[1..], {'\n'});
        assert [s[0]] + s[1..] == s;
      } else {
        var k := NewlineRun(s);
        var run := if k >= 3 then "\n\n" else s[..k];
        assert CollapseNewlines(s) == run + CollapseNewlines(s[k..]);
        OnlyBreaksCollapsed(s[k..]);
        WithoutSkipsRun(run, CollapseNewlines(s[k..]), {'\n'});
        WithoutSkipsRun(s[..k], s[k..], {'\n'});
        assert s[..k] + s[k..] == s;
      }
    }
  }

  /** A kept character stays in front. */
  lemma {:induction false} WithoutKeepsHead(c: char, rest: string, drop: set<char>)
    requires c !in drop
    ensures Without([c] + rest, drop) == [c] + Without(rest, drop)
  {
    assert ([c] + rest)[0] == c && ([c] + rest)[1..] == rest;
  }

  /** A run of dropped characters in front of a text disappears. */
  lemma {:induction false} WithoutSkipsRun(run: string, rest: string, drop: set<char>)
    requires forall i :: 0 <= i < |run| ==> run[i] in drop
    ensures Without(run + rest, drop) == Without(rest, drop)
  {
    WithoutAppend(run, rest, drop);
    WithoutOnly(run, drop);
  }

  /** After the second replacement there is no tab and no double space. */
  lemma {:induction false} CollapseBlanksSingle(s: string)
    ensures SingleSpaced(CollapseBlanks(s))
    decreases |s|
  {
    if s != [] {
      if !IsBlankChar(s[0]) {
        CollapseBlanksSingle(s[1..]);
        SingleSpacedCons(s[0], CollapseBlanks(s[1..]));
      } else {
        var k := BlankRun(s);
        CollapseBlanksSingle(s[k..]);
        SingleSpacedCons(' ', CollapseBlanks(s[k..]));
      }
    }
  }

  /** The second replacement does not join line feeds into a triple. */
  lemma {:induction false} CollapseBlanksKeepsNoTriple(s: string)
    requires NoTripleBreak(s)
    ensures NoTripleBreak(CollapseBlanks(s))
    decreases |s|
  {
    if s != [] {
      if !IsBlankChar(s[0]) {
        var t := s[1..];
        NoTripleSlice(s, 1, |s|);
        CollapseBlanksKeepsNoTriple(t);
        NoTripleCons(s[0], CollapseBlanks(t));
        BlanksKeepPair(t);
        if |s| > 2 {
          assert !(s[0] == '\n' && s[1] == '\n' && s[2] == '\n');
          assert s[1] == t[0] && s[2] == t[1];
        }
      } else {
        var k := BlankRun(s);
        NoTripleSlice(s, k, |s|);
        CollapseBlanksKeepsNoTriple(s[k..]);
        NoTripleCons(' ', CollapseBlanks(s[k..]));
      }
    }
  }

  /** Two line feeds at the start of the result were two line feeds at the start. */
  lemma {:induction false} BlanksKeepPair(t: string)
    ensures |CollapseBlanks(t)| >= 2 && CollapseBlanks(t)[0] == '\n' && CollapseBlanks(t)[1] == '\n' ==>
              |t| >= 2 && t[0] == '\n' && t[1] == '\n'
  {
    if |CollapseBlanks(t)| >= 2 && CollapseBlanks(t)[0] == '\n' && CollapseBlanks(t)[1] == '\n' {
      assert t != [] && t[0] == '\n';
      assert CollapseBlanks(t) == [t[0]] + CollapseBlanks(t[1..]);
      assert CollapseBlanks(t[1..])[0] == '\n';
      assert t[1..] != [] && t[1..][0] == '\n';
    }
  }

  /** The second replacement leaves a singly spaced text as it is. */
  lemma {:induction false} CollapseBlanksFixed(s: string)
    requires SingleSpaced(s)
    ensures CollapseBlanks(s) == s
    decreases |s|
  {
    if s != [] {
      SingleSpacedSlice(s, 1, |s|);
      if !IsBlankChar(s[0]) {
        CollapseBlanksFixed(s[1..]);
      } else {
        assert s[0] == ' ';
        assert BlankRun(s) == 1 by {
          if |s| > 1 {
            assert !(s[0] == ' ' && s[1] == ' ') && s[1] != '\t';
          }
        }
        CollapseBlanksFixed(s[1..]);
        assert [s[0]] + s[1..] == s;
      }
    }
  }

  /** The second replacement changes spaces and tabs and nothing else: with
      every space and tab removed, the result and the text are the same string. */
  lemma {:induction false} InkCollapseBlanks(s: string)
    ensures Ink(CollapseBlanks(s)) == Ink(s)
    ensures Without(CollapseBlanks(s), {' ', '\t'}) == Without(s, {' ', '\t'})
  {
    InkKeptByCollapseBlanks(s);
    OnlyBlanksCollapsed(s);
  }

  lemma {:induction false} InkKeptByCollapseBlanks(s: string)
    ensures Ink(CollapseBlanks(s)) == Ink(s)
    decreases |s|
  {
    if s != [] {
      if !IsBlankChar(s[0]) {
        InkKeptByCollapseBlanks(s[1..]);
        InkAppend([s[0]], CollapseBlanks(s[1..]));
        InkAppend([s[0]], s[1..]);
        assert [s[0]] + s[1..] == s;
      } else {
        var k := BlankRun(s);
        InkKeptByCollapseBlanks(s[k..]);
        InkAppend(" ", CollapseBlanks(s[k..]));
        InkAppend(s[..k], s[k..]);
        assert s[..k] + s[k..] == s;
        InkBlank(" ");
        InkBlank(s[..k]);
      }
    }
  }

  lemma {:induction false} OnlyBlanksCollapsed(s: string)
    ensures Without(CollapseBlanks(s), {' ', '\t'}) == Without(s, {' ', '\t'})
    decreases |s|
  {
    if s != [] {
      if !IsBlankChar(s[0]) {
        OnlyBlanksCollapsed(s[1..]);
        assert CollapseBlanks(s) == [s[0]] + CollapseBlanks(s[1..]);
        WithoutKeepsHead(s[0], CollapseBlanks(s[1..]), {' ', '\t'});
        WithoutKeepsHead(s[0], s[1..], {' ', '\t'});
        assert [s[0]] + s[1..] == s;
      } else {
        var k := BlankRun(s);
        assert CollapseBlanks(s) == " " + CollapseBlanks(s[k..]);
        OnlyBlanksCollapsed(s[k..]);
        BlankRunDropped(s);
        WithoutSkipsRun(" ", CollapseBlanks(s[k..]), {' ', '\t'});
        WithoutSkipsRun(s[..k], s[k..], {' ', '\t'});
        assert s[..k] + s[k..] == s;
      }
    }
  }

  /** The run of spaces and tabs at the start is made of dropped characters. */
  lemma {:induction false} BlankRunDropped(s: string)
    ensures forall i :: 0 <= i < |s[..BlankRun(s)]| ==> s[..BlankRun(s)][i] in {' ', '\t'}
  {
    var k := BlankRun(s);
    forall i | 0 <= i < k
      ensures s[..k][i] in {' ', '\t'}
    {
      assert s[..k][i] == s[i] && IsBlankChar(s[i]);
    }
  }

  /** The cleaned body is trimmed, has at most one blank line between paragraphs,
      no tab and no double space, and holds the same non-white-space text, so it
      is empty exactly when the text was blank. */
  lemma {:induction false} CleanFacts(s: string)
    ensures Trimmed(Clean(s)) && NoTripleBreak(Clean(s)) && SingleSpaced(Clean(s))
    ensures Ink(Clean(s)) == Ink(s)
    ensures Clean(s) == [] <==> Blank(s)
  {
    CleanShape(s);
    CleanInk(s);
  }

  lemma {:induction false} CleanShape(s: string)
    ensures Trimmed(Clean(s)) && NoTripleBreak(Clean(s)) && SingleSpaced(Clean(s))
  {
    var a := CollapseNewlines(s);
    var b := CollapseBlanks(a);
    CollapseNewlinesNoTriple(s);
    CollapseBlanksKeepsNoTriple(a);
    CollapseBlanksSingle(a);
    TrimKeepsShape(b);
  }

  /** Trimming keeps a text free of triple line feeds, tabs and double spaces. */
  lemma {:induction false} TrimKeepsShape(b: string)
    requires NoTripleBreak(b) && SingleSpaced(b)
    ensures NoTripleBreak(Trim(b)) && SingleSpaced(Trim(b))
  {
    TrimKeepsNoTriple(b);
    TrimKeepsSingleSpaced(b);
  }

  lemma {:induction false} TrimKeepsNoTriple(b: string)
    requires NoTripleBreak(b)
    ensures NoTripleBreak(Trim(b))
  {
    var k := LeadingSpaces(b);
    var t := Trim(b);
    var m := k + |t|;
    TrimIsSlice(b);
    NoTripleSlice(b, k, m);
    assert t == b[k..m];
  }

  lemma {:induction false} TrimKeepsSingleSpaced(b: string)
    requires SingleSpaced(b)
    ensures SingleSpaced(Trim(b))
  {
    var k := LeadingSpaces(b);
    var t := Trim(b);
    var m := k + |t|;
    TrimIsSlice(b);
    SingleSpacedSlice(b, k, m);
    assert t == b[k..m];
  }

  lemma {:induction false} TrimIsSlice(b: string)
    ensures LeadingSpaces(b) + |Trim(b)| <= |b|
    ensures Trim(b) == b[LeadingSpaces(b)..LeadingSpaces(b) + |Trim(b)|]
  {
  }

  lemma {:induction false} CleanInk(s: string)
    ensures Ink(Clean(s)) == Ink(s)
    ensures Clean(s) == [] <==> Blank(s)
  {
    var a := CollapseNewlines(s);
    var b := CollapseBlanks(a);
    InkCollapseNewlines(s);
    InkCollapseBlanks(a);
    InkTrim(b);
    InkBlank(Clean(s));
    InkBlank(s);
  }

  /** Cleaning a cleaned body changes nothing. */
  lemma {:induction false} CleanIdempotent(s: string)
    ensures Clean(Clean(s)) == Clean(s)
  {
    var c := Clean(s);
    CleanFacts(s);
    CollapseNewlinesFixed(c);
    CollapseBlanksFixed(c);
  }

  // ---------------------------------------------------------------------------
  // Word count

  /** `bodyText.split(/\s+/).filter(Boolean).length`: the number of maximal runs
      of non-white-space characters. */
  function WordCount(s: string): (n: nat)
    ensures n == CountRuns(s)
  {
    WordsCountRuns(s);
    |Words(s)|
  }

  // ---------------------------------------------------------------------------
  // The handler

  /** What the selectors yield: the texts of the title and subtitle candidates in
      the order they are tried, the texts of the `p, h2, h3, h4, h5, h6,
      blockquote, li` elements of the cleaned container in document order, and the
      text of the whole container. */
  datatype Page = Page(titles: seq<string>, subtitles: seq<string>, elements: seq<string>, whole: string)

  /** The outcome of `fetch(url)`: it throws, it answers with a status that is not
      2xx, or it delivers a page. */
  datatype Fetched = Unreachable(message: string) | NotOk(status: nat) | Loaded(page: Page)

  datatype Outcome =
    | Failed(status: nat, error: string)
    | Scraped(title: string, subtitle: string, body: string, wordCount: nat, url: string)

  const ExtractError := "Could not extract article content. The page structure may have changed."

  /** The body before cleanup: the collected paragraphs, or the whole container
      text when they are blank. */
  function RawBody(p: Page): string
  {
    var body := Gather(Trims(p.elements)).body;
    if Trim(body) == [] then Trim(p.whole) else body
  }

  function BodyText(p: Page): string
  {
    Clean(RawBody(p))
  }

  /** The distinct paragraph texts are trimmed and not empty. */
  lemma {:induction false} FirstsOfTrims(texts: seq<string>)
    ensures forall k :: 0 <= k < |Firsts(Trims(texts))| ==>
              Firsts(Trims(texts))[k] != [] && Trimmed(Firsts(Trims(texts))[k])
  {
    var ts := Trims(texts);
    FirstsFacts(ts);
    forall k | 0 <= k < |Firsts(ts)|
      ensures Firsts(ts)[k] != [] && Trimmed(Firsts(ts)[k])
    {
      var j :| 0 <= j < |ts| && ts[j] == Firsts(ts)[k];
    }
  }

  /** No paragraph text exactly when every element is blank. */
  lemma {:induction false} NoFirstsWhenBlank(texts: seq<string>)
    ensures Firsts(Trims(texts)) == [] <==> forall k :: 0 <= k < |texts| ==> Blank(texts[k])
  {
    var ts := Trims(texts);
    FirstsFacts(ts);
    if Firsts(ts) == [] {
      forall k | 0 <= k < |texts|
        ensures Blank(texts[k])
      {
        assert ts[k] in ts;
        assert ts[k] !in Firsts(ts);
      }
    } else {
      assert Firsts(ts)[0] in Firsts(ts);
      var j :| 0 <= j < |ts| && ts[j] == Firsts(ts)[0];
    }
  }

  /** The blank test on the collected body holds exactly when nothing was
      collected. */
  lemma {:induction false} CollectedBlank(texts: seq<string>)
    ensures Trim(Gather(Trims(texts)).body) == [] <==> Firsts(Trims(texts)) == []
    ensures Gather(Trims(texts)).body == Paragraphs(Firsts(Trims(texts)))
  {
    var f := Firsts(Trims(texts));
    GatherIsFirsts(Trims(texts));
    FirstsOfTrims(texts);
    ParagraphsBlank(f);
  }

  /** The body holds the distinct paragraph texts in order, modulo white space, or
      the whole container text when no element has text. */
  lemma {:induction false} BodyTextSource(p: Page)
    ensures var f := Firsts(Trims(p.elements));
      Ink(BodyText(p)) == if f == [] then Ink(p.whole) else Ink(Concat(f))
  {
    var f := Firsts(Trims(p.elements));
    CollectedBlank(p.elements);
    InkParagraphs(f);
    CleanFacts(RawBody(p));
    InkTrim(p.whole);
  }

  /** The body is empty exactly when no element has text and the container is
      blank. */
  lemma {:induction false} BodyTextEmpty(p: Page)
    ensures BodyText(p) == [] <==> Firsts(Trims(p.elements)) == [] && Blank(p.whole)
  {
    var f := Firsts(Trims(p.elements));
    CollectedBlank(p.elements);
    CleanFacts(RawBody(p));
    if f == [] {
      assert RawBody(p) == Trim(p.whole);
      TrimBlankIff(p.whole);
    } else {
      FirstsOfTrims(p.elements);
      ParagraphsBlank(f);
      assert RawBody(p) == Paragraphs(f);
    }
  }

  /** A trimmed text is blank exactly when the text is. */
  lemma {:induction false} TrimBlankIff(s: string)
    ensures Blank(Trim(s)) <==> Blank(s)
  {
    InkTrim(s);
    InkBlank(s);
    InkBlank(Trim(s));
  }

  /** The handler: the gates in the order the source checks them, then the
      extraction. */
  function Handle(verb: string, url: Option<string>, host: Option<string>, fetched: Fetched): (r: Outcome)
    ensures verb != "POST" <==> r == Failed(405, "Method not allowed")
    ensures verb == "POST" && (url.None? || url.value == []) ==> r == Failed(400, "URL is required")
    ensures verb == "POST" && url.Some? && url.value != [] && host.Some? && !Contains(host.value, "substack.com") ==>
              r == Failed(400, "Only Substack URLs are supported")
    ensures r.Scraped? ==> && verb == "POST" && url == Some(r.url) && r.url != []
                           && host.Some? && Contains(host.value, "substack.com")
                           && fetched.Loaded?
    ensures r.Scraped? ==> && Trimmed(r.title) && Trimmed(r.body)
                           && NoTripleBreak(r.body) && SingleSpaced(r.body)
                           && (r.title != [] || r.body != [])
                           && r.wordCount == CountRuns(r.body)
  {
    if verb != "POST" then Failed(405, "Method not allowed")
    else if url.None? || url.value == [] then Failed(400, "URL is required")
    else if host.None? then Failed(500, "Invalid URL")
    else if !Contains(host.value, "substack.com") then Failed(400, "Only Substack URLs are supported")
    else match fetched
      case Unreachable(message) => Failed(500, if message == [] then "Failed to scrape article" else message)
      case NotOk(status) => Failed(status, "Failed to fetch article: " + Decimal(status))
      case Loaded(p) => Extract(p, url.value)
  }

  /** The handler once the page is loaded: title, subtitle, body and word count,
      or the refusal when there is neither a title nor a body. */
  function Extract(p: Page, url: string): (r: Outcome)
    ensures r.Failed? ==> r == Failed(400, ExtractError)
    ensures r.Scraped? ==> && r.url == url
                           && Trimmed(r.title) && Trimmed(r.body)
                           && NoTripleBreak(r.body) && SingleSpaced(r.body)
                           && (r.title != [] || r.body != [])
                           && r.wordCount == CountRuns(r.body)
  {
    var title := FirstFilled(Trims(p.titles));
    var subtitle := FirstFilled(Trims(p.subtitles));
    var body := BodyText(p);
    CleanFacts(RawBody(p));
    TitleTrimmed(p.titles);
    if title == [] && body == [] then Failed(400, ExtractError)
    else Scraped(title, subtitle, body, WordCount(body), url)
  }

  lemma {:induction false} TitleTrimmed(texts: seq<string>)
    ensures Trimmed(FirstFilled(Trims(texts)))
  {
    if FirstFilled(Trims(texts)) != [] {
      FirstFilledIsFirst(Trims(texts));
    }
  }

  /** Past the gates, a page is refused for lack of content exactly when every
      title candidate, every element and the container are blank. */
  lemma {:induction false} RefusedWhenEmpty(url: string, host: string, p: Page)
    requires url != [] && Contains(host, "substack.com")
    ensures Handle("POST", Some(url), Some(host), Loaded(p)).Failed? <==>
              && (forall k :: 0 <= k < |p.titles| ==> Blank(p.titles[k]))
              && (forall k :: 0 <= k < |p.elements| ==> Blank(p.elements[k]))
              && Blank(p.whole)
    ensures Handle("POST", Some(url), Some(host), Loaded(p)).Failed? ==>
              Handle("POST", Some(url), Some(host), Loaded(p)) == Failed(400, ExtractError)
  {
    assert Handle("POST", Some(url), Some(host), Loaded(p)) == Extract(p, url);
    ExtractRefuses(p, url);
  }

  lemma {:induction false} ExtractRefuses(p: Page, url: string)
    ensures Extract(p, url).Failed? <==>
              && (forall k :: 0 <= k < |p.titles| ==> Blank(p.titles[k]))
              && (forall k :: 0 <= k < |p.elements| ==> Blank(p.elements[k]))
              && Blank(p.whole)
  {
    ExtractFailedIff(p, url);
    BodyTextEmpty(p);
    NoFirstsWhenBlank(p.elements);
    NoTitleWhenBlank(p.titles);
  }

  lemma {:induction false} ExtractFailedIff(p: Page, url: string)
    ensures Extract(p, url).Failed? <==> FirstFilled(Trims(p.titles)) == [] && BodyText(p) == []
  {
  }

  /** No title is found exactly when every title candidate is blank. */
  lemma {:induction false} NoTitleWhenBlank(titles: seq<string>)
    ensures FirstFilled(Trims(titles)) == [] <==> forall k :: 0 <= k < |titles| ==> Blank(titles[k])
  {
    var ts := Trims(titles);
    assert forall k :: 0 <= k < |ts| ==> (ts[k] == [] <==> Blank(titles[k]));
  }

  /** The host gate tests for a substring, so a host that merely contains the name
      passes it. */
  lemma {:induction false} GateAcceptsLookalike()
    ensures Contains("substack.com.example.net", "substack.com")
    ensures Handle("POST", Some("https://substack.com.example.net/p/x"), Some("substack.com.example.net"),
                   Unreachable("offline")) == Failed(500, "offline")
  {
    assert "substack.com" <= "substack.com.example.net"[0..];
  }
}
