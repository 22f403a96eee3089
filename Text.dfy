/**
 * Python's text primitives as the dashboard uses them: the whitespace class of
 * str.isspace() (which str.strip(), str.split() and the regular expression \s
 * share), str.strip(), str.split() with no separator, str.join() and
 * re.sub(r"\s+", " ", s).
 */
module Text {

  /** The characters for which Python's str.isspace() holds. */
  predicate IsSpace(c: char) {
    || ('\t' <= c <= '\r')
    || ('\U{1C}' <= c <= '\U{1F}')
    || c == ' ' || c == '\U{85}' || c == '\U{A0}' || c == '\U{1680}'
    || ('\U{2000}' <= c <= '\U{200A}')
    || c == '\U{2028}' || c == '\U{2029}' || c == '\U{202F}' || c == '\U{205F}' || c == '\U{3000}'
  }

  ghost predicate NoSpace(w: string) {
    forall i :: 0 <= i < |w| ==> !IsSpace(w[i])
  }

  ghost predicate AllSpace(s: string) {
    forall i :: 0 <= i < |s| ==> IsSpace(s[i])
  }

  /** A word as str.split() yields it: non-empty, without whitespace. */
  ghost predicate IsWord(w: string) {
    |w| > 0 && NoSpace(w)
  }

  ghost predicate AllWords(ws: seq<string>) {
    forall i :: 0 <= i < |ws| ==> IsWord(ws[i])
  }

  /**
   * No whitespace at either end, and every whitespace character is a plain
   * space standing alone between two non-whitespace characters.
   */
  ghost predicate SingleSpaced(s: string) {
    forall i :: 0 <= i < |s| && IsSpace(s[i]) ==>
      s[i] == ' ' && 0 < i < |s| - 1 && !IsSpace(s[i - 1]) && !IsSpace(s[i + 1])
  }

  /** Removes leading whitespace (the left half of str.strip()). */
  function TrimStart(s: string): (r: string)
    ensures |r| <= |s| && r == s[|s| - |r|..]
    ensures r == [] || !IsSpace(r[0])
    ensures forall i :: 0 <= i < |s| - |r| ==> IsSpace(s[i])
    ensures s != [] && IsSpace(s[0]) ==> |r| < |s|
  {
    if s != [] && IsSpace(s[0]) then
      var r := TrimStart(s[1..]);
      assert s[1..][|s| - 1 - |r|..] == s[|s| - |r|..];
      assert forall i :: 1 <= i < |s| - |r| ==> s[i] == s[1..][i - 1];
      r
    else
      s
  }

  /** Removes trailing whitespace (the right half of str.strip()). */
  function TrimEnd(s: string): (r: string)
    ensures |r| <= |s| && r == s[..|r|]
    ensures r == [] || !IsSpace(r[|r| - 1])
    ensures forall i :: |r| <= i < |s| ==> IsSpace(s[i])
  {
    if s != [] && IsSpace(s[|s| - 1]) then
      var r := TrimEnd(s[..|s| - 1]);
      assert s[..|s| - 1][..|r|] == s[..|r|];
      assert forall i :: |r| <= i < |s| - 1 ==> s[i] == s[..|s| - 1][i];
      r
    else
      s
  }

  /** Python's str.strip() with no argument. */
  function Strip(s: string): string {
    TrimEnd(TrimStart(s))
  }

  /** Length of the run of non-whitespace that starts s. */
  function WordLen(s: string): (n: nat)
    ensures n <= |s|
    ensures NoSpace(s[..n])
    ensures n == |s| || IsSpace(s[n])
  {
    if s == [] || IsSpace(s[0]) then 0 else 1 + WordLen(s[1..])
  }

  /** Python's str.split() with no separator: the maximal runs of non-whitespace, in order. */
  function Split(s: string): (ws: seq<string>)
    decreases |s|
  {
    if s == [] then []
    else if IsSpace(s[0]) then Split(s[1..])
    else
      var n := WordLen(s);
      [s[..n]] + Split(s[n..])
  }

  /** Python's sep.join(ws). */
  function Join(ws: seq<string>, sep: string): string {
    if ws == [] then ""
    else if |ws| == 1 then ws[0]
    else ws[0] + sep + Join(ws[1..], sep)
  }

  /** re.sub(r"\s+", " ", s): every maximal run of whitespace becomes one space. */
  function ReplaceSpaceRuns(s: string): string
    decreases |s|
  {
    if s == [] then []
    else if IsSpace(s[0]) then " " + ReplaceSpaceRuns(TrimStart(s))
    else [s[0]] + ReplaceSpaceRuns(s[1..])
  }

  // ---------------------------------------------------------------------------
  // Lemmas about strip
  // ---------------------------------------------------------------------------

  /** A string that neither starts nor ends with whitespace is left alone by str.strip(). */
  lemma StripUntrimmed(s: string)
    requires s == [] || (!IsSpace(s[0]) && !IsSpace(s[|s| - 1]))
    ensures Strip(s) == s
  {
  }

  /** str.strip() gives "" exactly when the string is all whitespace. */
  lemma StripEmptyIff(s: string)
    ensures Strip(s) == "" <==> AllSpace(s)
  {
    var t := TrimStart(s);
    if AllSpace(s) {
    } else {
      var i :| 0 <= i < |s| && !IsSpace(s[i]);
      assert |t| > 0;
      var u := TrimEnd(t);
      assert !IsSpace(t[0]);
      assert |u| > 0;
    }
  }

  /** Removing trailing whitespace only looks at the part after the last non-space. */
  lemma {:induction false} TrimEndAppend(x: string, y: string)
    requires y != [] && !IsSpace(y[0])
    ensures TrimEnd(x + y) == x + TrimEnd(y)
    decreases |y|
  {
    var xy := x + y;
    if IsSpace(y[|y| - 1]) {
      assert |y| > 1;
      var y' := y[..|y| - 1];
      assert xy[..|xy| - 1] == x + y';
      TrimEndAppend(x, y');
    }
  }

  // ---------------------------------------------------------------------------
  // Lemmas about split and join
  // ---------------------------------------------------------------------------

  /** WordLen is determined by where the first whitespace is. */
  lemma {:induction false} WordLenAt(s: string, k: nat)
    requires k <= |s| && NoSpace(s[..k]) && (k == |s| || IsSpace(s[k]))
    ensures WordLen(s) == k
    decreases k
  {
    if k > 0 {
      assert s[0] == s[..k][0];
      assert s[1..][..k - 1] == s[1..k];
      WordLenAt(s[1..], k - 1);
    }
  }

  /** str.split() yields nothing exactly when the string is all whitespace. */
  lemma {:induction false} SplitEmptyIff(s: string)
    ensures Split(s) == [] <==> AllSpace(s)
    decreases |s|
  {
    if s != [] && IsSpace(s[0]) {
      SplitEmptyIff(s[1..]);
      if AllSpace(s[1..]) {
        forall i | 0 <= i < |s| ensures IsSpace(s[i]) {
          if i > 0 { assert s[i] == s[1..][i - 1]; }
        }
      }
    }
  }

  /** Leading whitespace does not change the words. */
  lemma {:induction false} SplitTrimStart(s: string)
    ensures Split(TrimStart(s)) == Split(s)
    decreases |s|
  {
    if s != [] && IsSpace(s[0]) {
      SplitTrimStart(s[1..]);
    }
  }

  /** A word splits to itself. */
  lemma SplitWord(w: string)
    requires IsWord(w)
    ensures Split(w) == [w]
  {
    WordLenAt(w, |w|);
    assert w[..|w|] == w;
    assert w[|w|..] == [];
  }

  /** Everything str.split() yields is a word. */
  lemma {:induction false} SplitWords(s: string)
    ensures AllWords(Split(s))
    decreases |s|
  {
    if s != [] {
      if IsSpace(s[0]) {
        SplitWords(s[1..]);
      } else {
        var n := WordLen(s);
        SplitWords(s[n..]);
        assert Split(s) == [s[..n]] + Split(s[n..]);
        assert IsWord(s[..n]) by {
          assert s[..n][0] == s[0];
        }
      }
    }
  }

  /** The first word of x + y is the first word of x when the seam is whitespace. */
  lemma WordLenAppend(x: string, y: string)
    requires x != [] && !IsSpace(x[0])
    requires y == [] || IsSpace(x[|x| - 1]) || IsSpace(y[0])
    ensures WordLen(x + y) == WordLen(x)
  {
    var n := WordLen(x);
    var xy := x + y;
    assert xy[..n] == x[..n];
    if n < |x| {
      assert xy[n] == x[n];
    } else if y != [] {
      assert xy[n] == y[0];
    } else {
      assert xy == x;
    }
    WordLenAt(xy, n);
  }

  /** Splitting distributes over a concatenation whose seam is whitespace. */
  lemma {:induction false} SplitAppend(x: string, y: string)
    requires x == [] || y == [] || IsSpace(x[|x| - 1]) || IsSpace(y[0])
    ensures Split(x + y) == Split(x) + Split(y)
    decreases |x|, 1
  {
    if x == [] {
      assert x + y == y;
    } else if y == [] {
      assert x + y == x;
    } else if IsSpace(x[0]) {
      SplitAppendSpace(x, y);
    } else {
      SplitAppendWord(x, y);
    }
  }

  lemma {:induction false} SplitAppendSpace(x: string, y: string)
    requires x != [] && IsSpace(x[0])
    requires y == [] || IsSpace(x[|x| - 1]) || IsSpace(y[0])
    ensures Split(x + y) == Split(x) + Split(y)
    decreases |x|, 0
  {
    var xy := x + y;
    assert xy[0] == x[0];
    assert xy[1..] == x[1..] + y;
    assert Split(xy) == Split(xy[1..]);
    SplitAppend(x[1..], y);
  }

  /** A text that starts with a word splits into that word and the words of the rest. */
  lemma SplitFirstWord(s: string)
    requires s != [] && !IsSpace(s[0])
    ensures Split(s) == [s[..WordLen(s)]] + Split(s[WordLen(s)..])
  {
  }

  /** When the seam is whitespace, x + y starts with the first word of x. */
  lemma SplitAppendFirstWord(x: string, y: string)
    requires x != [] && !IsSpace(x[0])
    requires y == [] || IsSpace(x[|x| - 1]) || IsSpace(y[0])
    ensures Split(x + y) == [x[..WordLen(x)]] + Split(x[WordLen(x)..] + y)
  {
    var n := WordLen(x);
    WordLenAppend(x, y);
    assert (x + y)[0] == x[0];
    SplitFirstWord(x + y);
    SliceAppend(x, y, n);
  }

  /** Cutting x + y inside x cuts x. */
  lemma SliceAppend<T>(x: seq<T>, y: seq<T>, n: nat)
    requires n <= |x|
    ensures (x + y)[..n] == x[..n]
    ensures (x + y)[n..] == x[n..] + y
  {
  }

  /** Concatenation of sequences is associative. */
  lemma ConsAppend<T>(w: T, b: seq<T>, c: seq<T>)
    ensures [w] + (b + c) == ([w] + b) + c
  {
  }

  lemma {:induction false} SplitAppendWord(x: string, y: string)
    requires x != [] && !IsSpace(x[0])
    requires y == [] || IsSpace(x[|x| - 1]) || IsSpace(y[0])
    ensures Split(x + y) == Split(x) + Split(y)
    decreases |x|, 0
  {
    var n := WordLen(x);
    var rest := x[n..];
    SplitAppendFirstWord(x, y);
    SplitFirstWord(x);
    assert rest != [] ==> rest[|rest| - 1] == x[|x| - 1];
    SplitAppend(rest, y);
    ConsAppend(x[..n], Split(rest), Split(y));
  }

  /** Joining words with single spaces and splitting again gives the words back. */
  lemma {:induction false} SplitJoin(ws: seq<string>)
    requires AllWords(ws)
    ensures Split(Join(ws, " ")) == ws
  {
    if |ws| == 1 {
      SplitWord(ws[0]);
    } else if |ws| > 1 {
      var rest := Join(ws[1..], " ");
      assert Join(ws, " ") == ws[0] + (" " + rest);
      SplitAppend(ws[0], " " + rest);
      SplitWord(ws[0]);
      assert (" " + rest)[1..] == rest;
      SplitJoin(ws[1..]);
    }
  }

  /** A joined list of words starts with the first word. */
  lemma JoinPrefix(ws: seq<string>)
    requires ws != []
    ensures |Join(ws, " ")| >= |ws[0]| && Join(ws, " ")[..|ws[0]|] == ws[0]
  {
  }

  /** Joining words with one space between them gives a single-spaced string. */
  lemma {:induction false} JoinSingleSpaced(ws: seq<string>)
    requires AllWords(ws)
    ensures SingleSpaced(Join(ws, " "))
  {
    if |ws| == 1 {
      assert NoSpace(ws[0]);
    } else if |ws| > 1 {
      var w := ws[0];
      var rest := Join(ws[1..], " ");
      var s := Join(ws, " ");
      assert s == w + " " + rest;
      JoinSingleSpaced(ws[1..]);
      JoinPrefix(ws[1..]);
      assert IsWord(ws[1]);
      assert rest[0] == ws[1][0];
      forall i | 0 <= i < |s| && IsSpace(s[i])
        ensures s[i] == ' ' && 0 < i < |s| - 1 && !IsSpace(s[i - 1]) && !IsSpace(s[i + 1])
      {
        if i < |w| {
          assert false;
        } else if i == |w| {
          assert s[i - 1] == w[|w| - 1];
          assert s[i + 1] == rest[0];
        } else {
          var k := i - |w| - 1;
          assert s[i] == rest[k];
          assert 0 < k < |rest| - 1;
          assert s[i - 1] == rest[k - 1];
          assert s[i + 1] == rest[k + 1];
        }
      }
    }
  }

  /** What follows the first space of a single-spaced string is single-spaced. */
  lemma SingleSpacedAfter(s: string, n: nat)
    requires SingleSpaced(s) && n < |s| && IsSpace(s[n])
    ensures n + 1 < |s| && !IsSpace(s[n + 1]) && s[n] == ' '
    ensures SingleSpaced(s[n + 1..])
  {
    var t := s[n + 1..];
    forall i | 0 <= i < |t| && IsSpace(t[i])
      ensures t[i] == ' ' && 0 < i < |t| - 1 && !IsSpace(t[i - 1]) && !IsSpace(t[i + 1])
    {
      assert t[i] == s[n + 1 + i];
      assert t[i - 1] == s[n + i];
      assert t[i + 1] == s[n + 2 + i];
    }
  }

  /** A single-spaced string is the single-space join of its own words. */
  lemma {:induction false} JoinSplit(s: string)
    requires SingleSpaced(s)
    ensures Join(Split(s), " ") == s
    decreases |s|
  {
    if s != [] {
      assert !IsSpace(s[0]);
      var n := WordLen(s);
      if n == |s| {
        assert s[..n] == s;
        assert s[n..] == [];
      } else {
        SingleSpacedAfter(s, n);
        var t := s[n + 1..];
        JoinSplit(t);
        assert s[n..][0] == ' ' && s[n..][1..] == t;
        assert Split(s[n..]) == Split(t);
        assert Split(s) == [s[..n]] + Split(t);
        assert Split(t) != [] by {
          assert t[0] == s[n + 1];
        }
        assert s == s[..n] + " " + t;
      }
    }
  }

  // ---------------------------------------------------------------------------
  // re.sub(r"\s+", " ", s) followed by str.strip()
  // ---------------------------------------------------------------------------

  lemma {:induction false} ReplaceAfterWord(w: string, t: string)
    requires NoSpace(w)
    ensures ReplaceSpaceRuns(w + t) == w + ReplaceSpaceRuns(t)
    decreases |w|
  {
    if w == [] {
      assert w + t == t;
    } else {
      assert (w + t)[0] == w[0];
      assert (w + t)[1..] == w[1..] + t;
      assert NoSpace(w[1..]) by {
        forall i | 0 <= i < |w[1..]| ensures !IsSpace(w[1..][i]) { assert w[1..][i] == w[i + 1]; }
      }
      ReplaceAfterWord(w[1..], t);
    }
  }

  lemma ReplaceAllSpace(s: string)
    requires AllSpace(s)
    ensures ReplaceSpaceRuns(s) == if s == [] then "" else " "
  {
  }

  /** A leading space does not survive str.strip(). */
  lemma StripLeadingSpace(x: string)
    ensures Strip(" " + x) == Strip(x)
  {
    assert (" " + x)[1..] == x;
  }

  /** The last word of the text, followed by nothing but whitespace. */
  lemma CollapseLastWord(w: string, rest: string)
    requires IsWord(w) && AllSpace(rest)
    ensures Strip(ReplaceSpaceRuns(w + rest)) == w
  {
    ReplaceAfterWord(w, rest);
    ReplaceAllSpace(rest);
    if rest == [] {
      assert w + ReplaceSpaceRuns(rest) == w;
      StripUntrimmed(w);
    } else {
      StripWordSpace(w);
    }
  }

  lemma StripWordSpace(w: string)
    requires IsWord(w)
    ensures Strip(w + " ") == w
  {
    var ws := w + " ";
    assert !IsSpace(ws[0]);
    assert ws[..|ws| - 1] == w;
    StripUntrimmed(w);
  }

  /** Text that starts with whitespace but is not all whitespace collapses to " " and a non-space. */
  lemma ReplaceLeadingRun(rest: string)
    requires rest != [] && IsSpace(rest[0]) && !AllSpace(rest)
    ensures ReplaceSpaceRuns(rest) == " " + ReplaceSpaceRuns(TrimStart(rest))
    ensures ReplaceSpaceRuns(TrimStart(rest)) != []
    ensures !IsSpace(ReplaceSpaceRuns(TrimStart(rest))[0])
  {
    var t := TrimStart(rest);
    var i :| 0 <= i < |rest| && !IsSpace(rest[i]);
    assert t != [];
    assert !IsSpace(t[0]);
  }

  /** Stripping a word, a space and text that starts with a non-space. */
  lemma StripWordThen(w: string, rt: string)
    requires w != [] && !IsSpace(w[0]) && rt != [] && !IsSpace(rt[0])
    ensures Strip(w + (" " + rt)) == w + " " + Strip(" " + rt)
  {
    var ws := w + " ";
    var x := ws + rt;
    assert w + (" " + rt) == x;
    assert x[0] == w[0];
    assert TrimStart(x) == x;
    TrimEndAppend(ws, rt);
    assert TrimStart(rt) == rt;
    StripLeadingSpace(rt);
  }

  /** A word followed by more text that starts with whitespace and still holds a word. */
  lemma CollapseWordThenMore(w: string, rest: string)
    requires IsWord(w) && rest != [] && IsSpace(rest[0]) && !AllSpace(rest)
    ensures Strip(ReplaceSpaceRuns(w + rest)) == w + " " + Strip(ReplaceSpaceRuns(rest))
  {
    ReplaceAfterWord(w, rest);
    ReplaceLeadingRun(rest);
    StripWordThen(w, ReplaceSpaceRuns(TrimStart(rest)));
  }

  /**
   * Collapsing whitespace runs and stripping gives the same string as
   * " ".join(s.split()): the words of s, each separated by one space.
   */
  lemma {:induction false} CollapseIsJoinSplit(s: string)
    ensures Strip(ReplaceSpaceRuns(s)) == Join(Split(s), " ")
    decreases |s|
  {
    if s == [] {
    } else if IsSpace(s[0]) {
      var t := TrimStart(s);
      SplitTrimStart(s);
      CollapseIsJoinSplit(t);
      StripLeadingSpace(ReplaceSpaceRuns(t));
    } else {
      var n := WordLen(s);
      var w, rest := s[..n], s[n..];
      assert s == w + rest;
      assert w[0] == s[0];
      assert Split(s) == [w] + Split(rest);
      SplitEmptyIff(rest);
      if Split(rest) == [] {
        CollapseLastWord(w, rest);
      } else {
        CollapseIsJoinSplit(rest);
        CollapseWordThenMore(w, rest);
      }
    }
  }

  /** Trailing whitespace does not change the words. */
  lemma SplitTrimEnd(s: string)
    ensures Split(TrimEnd(s)) == Split(s)
  {
    var r := TrimEnd(s);
    var rest := s[|r|..];
    assert s == r + rest;
    assert AllSpace(rest) by {
      forall i | 0 <= i < |rest| ensures IsSpace(rest[i]) { assert rest[i] == s[|r| + i]; }
    }
    SplitEmptyIff(rest);
    SplitAppend(r, rest);
  }

  /** str.strip() does not change the words. */
  lemma SplitStrip(s: string)
    ensures Split(Strip(s)) == Split(s)
  {
    SplitTrimStart(s);
    SplitTrimEnd(TrimStart(s));
  }

  /** Collapsing whitespace runs does not change the words. */
  lemma SplitCollapse(s: string)
    ensures Split(ReplaceSpaceRuns(s)) == Split(s)
  {
    CollapseIsJoinSplit(s);
    SplitStrip(ReplaceSpaceRuns(s));
    SplitWords(s);
    SplitJoin(Split(s));
  }
}
