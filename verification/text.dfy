/** String primitives with JavaScript's semantics: the white-space class shared by
    `\s` and `String.prototype.trim`, trimming, `split(/\s+/)`, joining, and decimal
    digits. `Ink(s)` (the non-white-space characters of `s`, in order) is the measure
    of "the same text modulo white space" used throughout the model. */
module Text {
  import opened Seqs

  /** The WhiteSpace and LineTerminator code points of ECMA-262, which is the set
      both `\s` and `trim()` use. */
  predicate IsSpace(c: char)
  {
    || c == ' ' || c == '\t' || c == '\n' || c == '\r'
    || c == '\U{000B}' || c == '\U{000C}' || c == '\U{00A0}' || c == '\U{1680}'
    || ('\U{2000}' <= c && c <= '\U{200A}')
    || c == '\U{2028}' || c == '\U{2029}' || c == '\U{202F}' || c == '\U{205F}'
    || c == '\U{3000}' || c == '\U{FEFF}'
  }

  predicate Blank(s: string)
  {
    forall i :: 0 <= i < |s| ==> IsSpace(s[i])
  }

  predicate NoSpace(s: string)
  {
    forall i :: 0 <= i < |s| ==> !IsSpace(s[i])
  }

  /** Neither starts nor ends with white space. */
  predicate Trimmed(s: string)
  {
    s == [] || (!IsSpace(s[0]) && !IsSpace(s[|s| - 1]))
  }

  // ---------------------------------------------------------------------------
  // Length as JavaScript counts it

  /** `s.length`: the number of UTF-16 code units, where a character outside the
      Basic Multilingual Plane takes two (a surrogate pair). */
  function Utf16Length(s: string): (n: nat)
    ensures |s| <= n <= 2 * |s|
    ensures n == |s| <==> forall i :: 0 <= i < |s| ==> s[i] as int <= 0xFFFF
    decreases |s|
  {
    if s == [] then 0
    else
      var rest := Utf16Length(s[1..]);
      if s[0] as int > 0xFFFF then 2 + rest
      else
        assert (forall i :: 0 <= i < |s| ==> s[i] as int <= 0xFFFF)
          <==> (forall i :: 0 <= i < |s[1..]| ==> s[1..][i] as int <= 0xFFFF) by {
          assert forall i :: 1 <= i < |s| ==> s[i] == s[1..][i - 1];
        }
        1 + rest
  }

  lemma {:induction false} Utf16Append(a: string, b: string)
    ensures Utf16Length(a + b) == Utf16Length(a) + Utf16Length(b)
    decreases |a|
  {
    if a == [] {
      assert a + b == b;
    } else {
      assert (a + b)[0] == a[0] && (a + b)[1..] == a[1..] + b;
      Utf16Append(a[1..], b);
    }
  }

  /** A slice is no longer than the whole text. */
  lemma {:induction false} Utf16Slice(s: string, i: nat, j: nat)
    requires i <= j <= |s|
    ensures Utf16Length(s[i..j]) <= Utf16Length(s)
  {
    assert s == s[..i] + s[i..j] + s[j..];
    Utf16Append(s[..i] + s[i..j], s[j..]);
    Utf16Append(s[..i], s[i..j]);
  }

  /** Trimming does not make a text longer. */
  lemma {:induction false} Utf16Trim(s: string)
    ensures Utf16Length(Trim(s)) <= Utf16Length(s)
  {
    Utf16Within(s, Trim(s), LeadingSpaces(s));
  }

  lemma {:induction false} Utf16Within(s: string, r: string, k: nat)
    requires k + |r| <= |s| && r == s[k..k + |r|]
    ensures Utf16Length(r) <= Utf16Length(s)
  {
    Utf16Slice(s, k, k + |r|);
  }

  // ---------------------------------------------------------------------------
  // Ink: the text with every white-space character removed

  function Ink(s: string): (r: string)
    ensures |r| <= |s|
    decreases |s|
  {
    if s == [] then [] else (if IsSpace(s[0]) then [] else [s[0]]) + Ink(s[1..])
  }

  lemma {:induction false} InkAppend(a: string, b: string)
    ensures Ink(a + b) == Ink(a) + Ink(b)
    decreases |a|
  {
    if a != [] {
      assert (a + b)[0] == a[0];
      assert (a + b)[1..] == a[1..] + b;
      InkAppend(a[1..], b);
      var h := if IsSpace(a[0]) then [] else [a[0]];
      assert Ink(a + b) == h + (Ink(a[1..]) + Ink(b));
      assert h + (Ink(a[1..]) + Ink(b)) == (h + Ink(a[1..])) + Ink(b);
    } else {
      assert a + b == b;
    }
  }

  lemma {:induction false} InkBlank(s: string)
    ensures Ink(s) == [] <==> Blank(s)
    decreases |s|
  {
    if s != [] {
      InkBlank(s[1..]);
      if Blank(s) {
        assert Blank(s[1..]);
      }
      if Ink(s) == [] {
        assert IsSpace(s[0]);
        assert forall i :: 1 <= i < |s| ==> s[i] == s[1..][i - 1];
      }
    }
  }

  lemma {:induction false} InkNoSpace(s: string)
    requires NoSpace(s)
    ensures Ink(s) == s
    decreases |s|
  {
    if s != [] {
      assert NoSpace(s[1..]);
      InkNoSpace(s[1..]);
    }
  }

  lemma {:induction false} InkConcatNoSpace(xs: seq<string>)
    requires forall k :: 0 <= k < |xs| ==> NoSpace(xs[k])
    ensures Ink(Concat(xs)) == Concat(xs)
  {
    ConcatNoSpace(xs);
    InkNoSpace(Concat(xs));
  }

  lemma {:induction false} ConcatNoSpace(xs: seq<string>)
    requires forall k :: 0 <= k < |xs| ==> NoSpace(xs[k])
    ensures NoSpace(Concat(xs))
    decreases |xs|
  {
    if xs != [] {
      ConcatNoSpace(xs[1..]);
    }
  }

  // ---------------------------------------------------------------------------
  // Trimming

  function LeadingSpaces(s: string): (k: nat)
    ensures k <= |s|
    ensures Blank(s[..k])
    ensures k == |s| || !IsSpace(s[k])
    ensures s == [] || !IsSpace(s[0]) ==> k == 0
    decreases |s|
  {
    if s != [] && IsSpace(s[0]) then
      var k' := LeadingSpaces(s[1..]);
      assert forall i :: 1 <= i < 1 + k' ==> s[i] == s[1..][..k'][i - 1];
      1 + k'
    else 0
  }

  function TrailingSpaces(s: string): (k: nat)
    ensures k <= |s|
    ensures Blank(s[|s| - k..])
    ensures k == |s| || !IsSpace(s[|s| - k - 1])
    ensures s == [] || !IsSpace(s[|s| - 1]) ==> k == 0
    decreases |s|
  {
    if s != [] && IsSpace(s[|s| - 1]) then
      var t := s[..|s| - 1];
      var k' := TrailingSpaces(t);
      assert forall i :: |s| - 1 - k' <= i < |s| - 1 ==> s[i] == t[|t| - k'..][i - (|t| - k')];
      1 + k'
    else 0
  }

  /** `String.prototype.trim`: the text between the leading and the trailing
      white space, which is the whole text when it is already trimmed and empty
      exactly when the text is blank. */
  function Trim(s: string): (r: string)
    ensures Trimmed(r)
    ensures LeadingSpaces(s) + |r| <= |s|
    ensures r == s[LeadingSpaces(s)..LeadingSpaces(s) + |r|]
    ensures Blank(s[LeadingSpaces(s) + |r|..])
    ensures r == [] <==> Blank(s)
    ensures Trimmed(s) ==> r == s
  {
    var k := LeadingSpaces(s);
    var t := s[k..];
    var e := TrailingSpaces(t);
    TrimFacts(s, k, t, e);
    s[k..k + (|t| - e)]
  }

  lemma {:induction false} TrimFacts(s: string, k: nat, t: string, e: nat)
    requires k == LeadingSpaces(s) && t == s[k..] && e == TrailingSpaces(t)
    ensures k + (|t| - e) <= |s|
    ensures Trimmed(s[k..k + (|t| - e)])
    ensures Blank(s[k + (|t| - e)..])
    ensures s[k..k + (|t| - e)] == [] <==> Blank(s)
    ensures Trimmed(s) ==> s[k..k + (|t| - e)] == s
  {
    TrimSlices(s, k, t, e);
    TrimEnds(s, k, t, e);
    TrimBlank(s, k, t, e);
  }

  /** The trimmed text and the trailing white space are slices of the input. */
  lemma {:induction false} TrimSlices(s: string, k: nat, t: string, e: nat)
    requires k == LeadingSpaces(s) && t == s[k..] && e == TrailingSpaces(t)
    ensures t[..|t| - e] == s[k..k + (|t| - e)]
    ensures Blank(s[k + (|t| - e)..])
  {
    var n := |t| - e;
    DropTake(s, k, n);
    DropDrop(s, k, n);
  }

  lemma {:induction false} DropTake(s: string, k: nat, n: nat)
    requires k + n <= |s|
    ensures s[k..][..n] == s[k..k + n]
  {
  }

  lemma {:induction false} DropDrop(s: string, k: nat, n: nat)
    requires k + n <= |s|
    ensures s[k..][n..] == s[k + n..]
  {
  }

  /** Neither end of the trimmed text is white space. */
  lemma {:induction false} TrimEnds(s: string, k: nat, t: string, e: nat)
    requires k == LeadingSpaces(s) && t == s[k..] && e == TrailingSpaces(t)
    ensures Trimmed(t[..|t| - e])
    ensures Trimmed(s) ==> t[..|t| - e] == s
  {
    var r := t[..|t| - e];
    if r != [] {
      assert r[0] == s[k];
      assert r[|r| - 1] == t[|t| - e - 1];
    }
    if Trimmed(s) {
      assert k == 0 && t == s;
      assert e == 0;
      assert r == t;
    }
  }

  /** The trimmed text is empty exactly when the input is blank. */
  lemma {:induction false} TrimBlank(s: string, k: nat, t: string, e: nat)
    requires k == LeadingSpaces(s) && t == s[k..] && e == TrailingSpaces(t)
    ensures t[..|t| - e] == [] <==> Blank(s)
  {
    if t[..|t| - e] == [] {
      assert e == |t|;
      assert t[|t| - e..] == t;
      assert s == s[..k] + t;
      BlankAppend(s[..k], t);
    }
  }

  lemma {:induction false} BlankAppend(a: string, b: string)
    requires Blank(a) && Blank(b)
    ensures Blank(a + b)
  {
    forall i | 0 <= i < |a + b|
      ensures IsSpace((a + b)[i])
    {
      if i < |a| {
        assert (a + b)[i] == a[i];
      } else {
        assert (a + b)[i] == b[i - |a|];
      }
    }
  }

  lemma {:induction false} InkTrim(s: string)
    ensures Ink(Trim(s)) == Ink(s)
  {
    var k := LeadingSpaces(s);
    var t := s[k..];
    var e := TrailingSpaces(t);
    var m := k + (|t| - e);
    var r := s[k..m];
    TrimSlices(s, k, t, e);
    assert Trim(s) == r;
    Split3(s, k, m, r);
    InkMiddle(s[..k], r, s[m..]);
  }

  /** White space around a text adds no ink. */
  lemma {:induction false} InkMiddle(a: string, b: string, c: string)
    requires Blank(a) && Blank(c)
    ensures Ink(a + b + c) == Ink(b)
  {
    InkAppend3(a, b, c);
    InkBlank(a);
    InkBlank(c);
    assert [] + Ink(b) + [] == Ink(b);
  }

  lemma {:induction false} Split3(s: string, k: nat, m: nat, t: string)
    requires k <= m <= |s| && t == s[k..m]
    ensures s == s[..k] + t + s[m..]
  {
  }

  lemma {:induction false} InkAppend3(a: string, b: string, c: string)
    ensures Ink(a + b + c) == Ink(a) + Ink(b) + Ink(c)
  {
    InkAppend(a + b, c);
    InkAppend(a, b);
  }

  // ---------------------------------------------------------------------------
  // Without: the text with the characters of one class removed

  /** `s` with every character in `drop` removed. Where `Ink` forgets every kind
      of white space, `Without(s, {'\n'})` forgets only line feeds, so equality
      under it says that nothing but line feeds was added or removed. */
  function Without(s: string, drop: set<char>): (r: string)
    ensures |r| <= |s|
    ensures forall i :: 0 <= i < |r| ==> r[i] !in drop
    decreases |s|
  {
    if s == [] then []
    else (if s[0] in drop then [] else [s[0]]) + Without(s[1..], drop)
  }

  lemma {:induction false} WithoutAppend(a: string, b: string, drop: set<char>)
    ensures Without(a + b, drop) == Without(a, drop) + Without(b, drop)
    decreases |a|
  {
    if a != [] {
      assert (a + b)[0] == a[0];
      assert (a + b)[1..] == a[1..] + b;
      WithoutAppend(a[1..], b, drop);
      var h := if a[0] in drop then [] else [a[0]];
      assert Without(a + b, drop) == h + (Without(a[1..], drop) + Without(b, drop));
      assert h + (Without(a[1..], drop) + Without(b, drop)) == (h + Without(a[1..], drop)) + Without(b, drop);
    } else {
      assert a + b == b;
    }
  }

  /** A text made only of dropped characters disappears. */
  lemma {:induction false} WithoutOnly(s: string, drop: set<char>)
    requires forall i :: 0 <= i < |s| ==> s[i] in drop
    ensures Without(s, drop) == []
    decreases |s|
  {
    if s != [] {
      assert forall i :: 0 <= i < |s[1..]| ==> s[1..][i] == s[i + 1];
      WithoutOnly(s[1..], drop);
    }
  }

  // ---------------------------------------------------------------------------
  // Splitting on white space

  function FirstSpace(s: string): (i: nat)
    ensures i <= |s|
    ensures NoSpace(s[..i])
    ensures i < |s| ==> IsSpace(s[i])
    decreases |s|
  {
    if s == [] || IsSpace(s[0]) then 0
    else
      var i' := FirstSpace(s[1..]);
      assert forall p :: 1 <= p < 1 + i' ==> s[p] == s[1..][..i'][p - 1];
      1 + i'
  }

  /** `s.split(/\s+/)`: the pieces between maximal runs of white space. A leading
      (trailing) run yields an empty first (last) piece and no other piece is empty. */
  function SplitSpaces(s: string): (r: seq<string>)
    ensures |r| >= 1
    decreases |s|
  {
    var i := FirstSpace(s);
    if i == |s| then [s]
    else
      var j := i + LeadingSpaces(s[i..]);
      SpaceRunFacts(s, i, j);
      [s[..i]] + SplitSpaces(s[j..])
  }

  /** The pieces `r` of `s` hold no white space, none but the first and last is
      empty, and the first (last) is empty exactly when `s` starts (ends) with a
      white-space run. */
  ghost predicate Shaped(s: string, r: seq<string>)
  {
    && |r| >= 1
    && (forall k :: 0 <= k < |r| ==> NoSpace(r[k]))
    && (forall k :: 0 < k < |r| - 1 ==> r[k] != [])
    && (r[0] == [] <==> (s == [] || IsSpace(s[0])))
    && (r[|r| - 1] == [] <==> (s == [] || IsSpace(s[|s| - 1])))
  }

  /** A leading (trailing) run of white space yields an empty first (last) piece
      of `split(/\s+/)`; no piece holds white space and no other piece is empty. */
  lemma {:induction false} SplitSpacesShape(s: string)
    ensures Shaped(s, SplitSpaces(s))
    decreases |s|
  {
    var i := FirstSpace(s);
    if i == |s| {
      NoSpaceWhole(s);
      assert SplitSpaces(s) == [s];
    } else {
      var j := i + LeadingSpaces(s[i..]);
      SpaceRunFacts(s, i, j);
      var rest := SplitSpaces(s[j..]);
      SplitSpacesShape(s[j..]);
      SplitSpacesUnfold(s, i, j);
      if j == |s| {
        SplitSpacesEmpty(s[j..]);
      }
      SplitStep(s, i, j, rest);
    }
  }

  /** One step of `split(/\s+/)`: the first piece, then the split of what follows
      the first run of white space. */
  lemma {:induction false} SplitSpacesUnfold(s: string, i: nat, j: nat)
    requires i == FirstSpace(s) < |s|
    requires j == i + LeadingSpaces(s[i..])
    ensures j <= |s| && SplitSpaces(s) == [s[..i]] + SplitSpaces(s[j..])
  {
    SpaceRunFacts(s, i, j);
  }

  /** The empty text splits into one empty piece. */
  lemma SplitSpacesEmpty(s: string)
    requires s == []
    ensures SplitSpaces(s) == [[]]
  {
  }

  /** A text without white space neither starts nor ends with it. */
  lemma {:induction false} NoSpaceWhole(s: string)
    requires FirstSpace(s) == |s|
    ensures NoSpace(s) && (s == [] || (!IsSpace(s[0]) && !IsSpace(s[|s| - 1])))
  {
    assert s[..|s|] == s;
  }

  /** The pieces after the first run of white space, preceded by the first piece. */
  lemma {:induction false} SplitStep(s: string, i: nat, j: nat, rest: seq<string>)
    requires i == FirstSpace(s) < j <= |s| && (j < |s| ==> !IsSpace(s[j])) && (j == |s| ==> IsSpace(s[|s| - 1]))
    requires Shaped(s[j..], rest) && (j == |s| ==> |rest| == 1)
    ensures Shaped(s, [s[..i]] + rest)
  {
    var r := [s[..i]] + rest;
    assert r[1..] == rest;
    assert r[0] == s[..i];
    assert r[|r| - 1] == rest[|rest| - 1];
    if i > 0 {
      assert s[..i][0] == s[0];
    }
    forall k | 0 <= k < |r|
      ensures NoSpace(r[k])
    {
      if k > 0 {
        assert r[k] == rest[k - 1];
      }
    }
    forall k | 0 < k < |r| - 1
      ensures r[k] != []
    {
      assert r[k] == rest[k - 1];
      if k == 1 {
        assert s[j..][0] == s[j];
      }
    }
    if j < |s| {
      assert s[j..][0] == s[j];
      assert s[j..][|s[j..]| - 1] == s[|s| - 1];
    }
  }

  lemma {:induction false} SpaceRunFacts(s: string, i: nat, j: nat)
    requires i == FirstSpace(s) < |s|
    requires j == i + LeadingSpaces(s[i..])
    ensures i < j <= |s|
    ensures Blank(s[i..j])
    ensures j < |s| ==> !IsSpace(s[j])
    ensures j == |s| ==> IsSpace(s[|s| - 1])
  {
    assert s[i..][..j - i] == s[i..j];
    if j < |s| {
      assert s[i..][j - i] == s[j];
    } else {
      assert s[i..j][j - i - 1] == s[|s| - 1];
    }
  }

  /** Together the pieces of `split(/\s+/)` hold exactly the text's
      non-white-space characters, in order. */
  lemma {:induction false} SplitSpacesInk(s: string)
    ensures Concat(SplitSpaces(s)) == Ink(s)
    decreases |s|
  {
    var i := FirstSpace(s);
    if i == |s| {
      assert s[..i] == s;
      assert SplitSpaces(s) == [s];
      InkNoSpace(s);
      ConcatCons(s, []);
      assert [s] + [] == [s];
    } else {
      var j := i + LeadingSpaces(s[i..]);
      SpaceRunFacts(s, i, j);
      var rest := SplitSpaces(s[j..]);
      SplitSpacesUnfold(s, i, j);
      SplitSpacesInk(s[j..]);
      ConcatCons(s[..i], rest);
      InkSplitStep(s, i, j);
    }
  }

  lemma {:induction false} InkSplitStep(s: string, i: nat, j: nat)
    requires i <= j <= |s| && NoSpace(s[..i]) && Blank(s[i..j])
    ensures Ink(s) == s[..i] + Ink(s[j..])
  {
    assert s == s[..i] + s[i..j] + s[j..];
    InkAppend(s[..i] + s[i..j], s[j..]);
    InkAppend(s[..i], s[i..j]);
    InkNoSpace(s[..i]);
    InkBlank(s[i..j]);
  }

  /** The non-empty strings of `xs`, in order. */
  function NonEmpty(xs: seq<string>): (r: seq<string>)
    ensures forall k :: 0 <= k < |r| ==> r[k] != []
    ensures forall k :: 0 <= k < |r| ==> r[k] in xs
    ensures Concat(r) == Concat(xs)
    ensures |r| <= |xs|
    decreases |xs|
  {
    if xs == [] then []
    else
      var rest := NonEmpty(xs[1..]);
      assert forall k :: 0 <= k < |rest| ==> rest[k] in xs;
      if xs[0] == [] then rest
      else
        assert ([xs[0]] + rest)[1..] == rest;
        [xs[0]] + rest
  }

  /** `s.split(/\s+/).filter(Boolean)`: the words of `s`. */
  function Words(s: string): (r: seq<string>)
    ensures forall k :: 0 <= k < |r| ==> r[k] != [] && NoSpace(r[k])
    ensures Concat(r) == Ink(s)
  {
    SplitSpacesInk(s);
    SplitSpacesShape(s);
    var r := NonEmpty(SplitSpaces(s));
    assert forall k :: 0 <= k < |r| ==> NoSpace(r[k]) by {
      forall k | 0 <= k < |r|
        ensures NoSpace(r[k])
      {
        var x := r[k];
        var ps := SplitSpaces(s);
        assert x in ps;
        var m :| 0 <= m < |ps| && ps[m] == x;
      }
    }
    r
  }

  /** On a trimmed, non-empty text `split(/\s+/)` yields no empty piece. */
  lemma {:induction false} SplitSpacesOfTrimmed(s: string)
    requires Trimmed(s) && s != []
    ensures forall k :: 0 <= k < |SplitSpaces(s)| ==> SplitSpaces(s)[k] != []
    ensures Words(s) == SplitSpaces(s)
  {
    SplitSpacesShape(s);
    NonEmptyOfNonEmpty(SplitSpaces(s));
  }

  lemma {:induction false} NonEmptyOfNonEmpty(xs: seq<string>)
    requires forall k :: 0 <= k < |xs| ==> xs[k] != []
    ensures NonEmpty(xs) == xs
    decreases |xs|
  {
    if xs != [] {
      NonEmptyOfNonEmpty(xs[1..]);
    }
  }

  // ---------------------------------------------------------------------------
  // Counting maximal runs of non-white-space characters

  /** Position `i` is the first character of a maximal non-white-space run. */
  predicate StartsRun(s: string, i: int)
    requires 0 <= i < |s|
  {
    !IsSpace(s[i]) && (i == 0 || IsSpace(s[i - 1]))
  }

  function RunsFrom(s: string, i: nat): nat
    requires i <= |s|
    decreases |s| - i
  {
    if i == |s| then 0 else (if StartsRun(s, i) then 1 else 0) + RunsFrom(s, i + 1)
  }

  /** The number of maximal runs of non-white-space characters in `s`. */
  function CountRuns(s: string): nat
  {
    RunsFrom(s, 0)
  }

  lemma {:induction false} RunsFromSkip(s: string, a: nat, b: nat)
    requires a <= b <= |s|
    requires forall p :: a <= p < b ==> !StartsRun(s, p)
    ensures RunsFrom(s, a) == RunsFrom(s, b)
    decreases b - a
  {
    if a < b {
      RunsFromSkip(s, a + 1, b);
    }
  }

  lemma {:induction false} RunsFromSuffix(s: string, j: nat, m: nat)
    requires j + m <= |s|
    requires j == 0 || m > 0 || IsSpace(s[j - 1])
    ensures RunsFrom(s, j + m) == RunsFrom(s[j..], m)
    decreases |s| - j - m
  {
    if j + m < |s| {
      assert s[j..][m] == s[j + m];
      assert m > 0 ==> s[j..][m - 1] == s[j + m - 1];
      assert StartsRun(s, j + m) == StartsRun(s[j..], m);
      RunsFromSuffix(s, j, m + 1);
    }
  }

  /** `wordCount` counts exactly the maximal non-white-space runs of the text. */
  lemma {:induction false} WordsCountRuns(s: string)
    ensures |Words(s)| == CountRuns(s)
    decreases |s|
  {
    var i := FirstSpace(s);
    if i == |s| {
      assert SplitSpaces(s) == [s];
      if s != [] {
        assert NonEmpty([s]) == [s] + NonEmpty([]);
        NoSpaceRuns(s, i);
      } else {
        assert NonEmpty([s]) == NonEmpty([]);
      }
    } else {
      var j := i + LeadingSpaces(s[i..]);
      SpaceRunFacts(s, i, j);
      WordsCountRuns(s[j..]);
      WordsStep(s, i, j);
      RunsStep(s, i, j);
    }
  }

  lemma {:induction false} WordsStep(s: string, i: nat, j: nat)
    requires i == FirstSpace(s) < |s|
    requires j == i + LeadingSpaces(s[i..])
    ensures |Words(s)| == (if i > 0 then 1 else 0) + |Words(s[j..])|
  {
    var rest := SplitSpaces(s[j..]);
    SplitSpacesUnfold(s, i, j);
    assert ([s[..i]] + rest)[1..] == rest;
  }

  lemma {:induction false} RunsStep(s: string, i: nat, j: nat)
    requires i == FirstSpace(s) < |s|
    requires j == i + LeadingSpaces(s[i..])
    ensures CountRuns(s) == (if i > 0 then 1 else 0) + CountRuns(s[j..])
  {
    SpaceRunFacts(s, i, j);
    BlankRuns(s, i, j);
    assert s[i..j][j - 1 - i] == s[j - 1];
    RunsFromSuffix(s, j, 0);
    NoSpaceRuns(s, i);
  }

  /** A non-white-space prefix of length `i` contributes one run start when it is
      non-empty and none otherwise. */
  lemma {:induction false} NoSpaceRuns(s: string, i: nat)
    requires i <= |s| && NoSpace(s[..i])
    ensures RunsFrom(s, 0) == (if i > 0 then 1 else 0) + RunsFrom(s, i)
  {
    if i > 0 {
      forall p | 1 <= p < i
        ensures !StartsRun(s, p)
      {
        assert s[..i][p - 1] == s[p - 1];
      }
      assert s[..i][0] == s[0];
      RunsFromSkip(s, 1, i);
    }
  }

  lemma {:induction false} BlankRuns(s: string, i: nat, j: nat)
    requires i <= j <= |s| && Blank(s[i..j])
    ensures RunsFrom(s, i) == RunsFrom(s, j)
  {
    forall p | i <= p < j
      ensures !StartsRun(s, p)
    {
      assert s[i..j][p - i] == s[p];
    }
    RunsFromSkip(s, i, j);
  }

  // ---------------------------------------------------------------------------
  // Joining

  /** `xs.join(sep)`. */
  function Join(xs: seq<string>, sep: string): string
    decreases |xs|
  {
    if xs == [] then [] else if |xs| == 1 then xs[0] else xs[0] + sep + Join(xs[1..], sep)
  }

  lemma {:induction false} JoinAppend(xs: seq<string>, ys: seq<string>, sep: string)
    requires xs != [] && ys != []
    ensures Join(xs + ys, sep) == Join(xs, sep) + sep + Join(ys, sep)
    decreases |xs|
  {
    if |xs| == 1 {
      assert (xs + ys)[1..] == ys;
    } else {
      assert (xs + ys)[1..] == xs[1..] + ys;
      JoinAppend(xs[1..], ys, sep);
    }
  }

  lemma {:induction false} JoinSnoc(xs: seq<string>, x: string, sep: string)
    requires xs != []
    ensures Join(xs + [x], sep) == Join(xs, sep) + sep + x
  {
    JoinAppend(xs, [x], sep);
  }

  // ---------------------------------------------------------------------------
  // Substrings and decimal digits

  /** `s.includes(part)`. */
  predicate Contains(s: string, part: string)
  {
    exists i :: 0 <= i <= |s| - |part| && part <= s[i..]
  }

  predicate IsDigit(c: char)
  {
    '0' <= c <= '9'
  }

  predicate AllDigits(s: string)
  {
    forall i :: 0 <= i < |s| ==> IsDigit(s[i])
  }

  function DigitChar(d: nat): (c: char)
    requires d < 10
    ensures IsDigit(c)
  {
    ('0' as int + d) as char
  }

  /** `String(n)` for a natural number: its shortest decimal spelling. */
  function Decimal(n: nat): (r: string)
    ensures r != [] && AllDigits(r)
    ensures r[0] == '0' ==> n == 0 && |r| == 1
    decreases n
  {
    if n < 10 then [DigitChar(n)] else Decimal(n / 10) + [DigitChar(n % 10)]
  }

  /** The number a string of decimal digits spells. */
  function DecimalValue(s: string): nat
    requires AllDigits(s)
    decreases |s|
  {
    if s == [] then 0 else DecimalValue(s[..|s| - 1]) * 10 + (s[|s| - 1] as int - '0' as int)
  }

  lemma {:induction false} DecimalRoundTrip(n: nat)
    ensures DecimalValue(Decimal(n)) == n
    decreases n
  {
    if n >= 10 {
      var d := Decimal(n / 10) + [DigitChar(n % 10)];
      assert d[..|d| - 1] == Decimal(n / 10);
      DecimalRoundTrip(n / 10);
    }
  }

  /** The length of the run of line feeds `s` starts with. */
  function NewlineRun(s: string): (k: nat)
    ensures k <= |s|
    ensures forall i :: 0 <= i < k ==> s[i] == '\n'
    ensures k < |s| ==> s[k] != '\n'
    ensures s != [] && s[0] == '\n' ==> k >= 1
    ensures |s| >= 2 && s[0] == '\n' && s[1] == '\n' ==> k >= 2
    decreases |s|
  {
    if s != [] && s[0] == '\n' then
      var k := NewlineRun(s[1..]);
      assert forall i :: 1 <= i < 1 + k ==> s[i] == s[1..][i - 1];
      1 + k
    else 0
  }
}
