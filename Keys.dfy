/**
 * Header-key normalisation (norm_key in app.py): strip, lower-case, replace
 * a fixed table of accented Latin letters and the degree sign by ASCII, and
 * collapse whitespace runs to single spaces.
 */
module Keys {
  import opened Wrappers
  import opened Text

  /** str.lower() on one character, for ASCII and the Latin-1 capitals. */
  function LowerChar(c: char): char {
    if 'A' <= c <= 'Z' || ('\U{C0}' <= c <= '\U{DE}' && c != '\U{D7}') then
      (c as int + 32) as char
    else
      c
  }

  /** The keys of the translation table: á à â ã é ê í ó ô õ ú ç and the degree sign. */
  const Accented: set<char> :=
    {'\U{E1}', '\U{E0}', '\U{E2}', '\U{E3}', '\U{E9}', '\U{EA}', '\U{ED}',
     '\U{F3}', '\U{F4}', '\U{F5}', '\U{FA}', '\U{E7}', '\U{B0}'}

  /** The str.maketrans table applied to one character. */
  function FoldChar(c: char): char {
    match c
    case '\U{E1}' => 'a'
    case '\U{E0}' => 'a'
    case '\U{E2}' => 'a'
    case '\U{E3}' => 'a'
    case '\U{E9}' => 'e'
    case '\U{EA}' => 'e'
    case '\U{ED}' => 'i'
    case '\U{F3}' => 'o'
    case '\U{F4}' => 'o'
    case '\U{F5}' => 'o'
    case '\U{FA}' => 'u'
    case '\U{E7}' => 'c'
    case '\U{B0}' => 'o'
    case _ => c
  }

  /** A character that lower-casing and the table leave as it is. */
  predicate Folded(c: char) {
    LowerChar(c) == c && c !in Accented
  }

  ghost predicate AllFolded(s: string) {
    forall i :: 0 <= i < |s| ==> Folded(s[i])
  }

  /** str.lower(). */
  function Lower(s: string): string {
    seq(|s|, i requires 0 <= i < |s| => LowerChar(s[i]))
  }

  /** str.translate(repl) with the table above. */
  function Translate(s: string): string {
    seq(|s|, i requires 0 <= i < |s| => FoldChar(s[i]))
  }

  /**
   * norm_key: "" for a missing name; otherwise the name stripped, lower-cased,
   * translated, then its words joined by single spaces. The result is
   * single-spaced and holds no capital and no character of the table.
   */
  function NormKey(s: Option<string>): (r: string)
    ensures SingleSpaced(r)
    ensures AllFolded(r)
  {
    match s
    case None => ""
    case Some(x) =>
      var t := Translate(Lower(Strip(x)));
      FoldedAfterTranslate(Strip(x));
      var words := Split(t);
      SplitWords(t);
      JoinSingleSpaced(words);
      SplitKeepsFolded(t);
      JoinKeepsFolded(words);
      Join(words, " ")
  }

  /** The key of a column, candidate or sheet name (always a string in the model). */
  function Key(name: string): string {
    NormKey(Some(name))
  }

  // ---------------------------------------------------------------------------
  // Character facts
  // ---------------------------------------------------------------------------

  lemma FoldedChar(c: char)
    ensures Folded(FoldChar(LowerChar(c)))
  {
  }

  lemma FoldedFixed(c: char)
    requires Folded(c)
    ensures LowerChar(c) == c && FoldChar(c) == c
  {
  }

  lemma FoldedAfterTranslate(s: string)
    ensures AllFolded(Translate(Lower(s)))
  {
    forall i | 0 <= i < |s| ensures Folded(Translate(Lower(s))[i]) {
      FoldedChar(s[i]);
    }
  }

  /** Every word str.split() yields consists of characters of its argument. */
  lemma {:induction false} SplitKeepsFolded(s: string)
    requires AllFolded(s)
    ensures forall k :: 0 <= k < |Split(s)| ==> AllFolded(Split(s)[k])
    decreases |s|
  {
    if s != [] {
      if IsSpace(s[0]) {
        assert AllFolded(s[1..]) by {
          forall i | 0 <= i < |s[1..]| ensures Folded(s[1..][i]) { assert s[1..][i] == s[i + 1]; }
        }
        SplitKeepsFolded(s[1..]);
      } else {
        var n := WordLen(s);
        assert AllFolded(s[n..]) by {
          forall i | 0 <= i < |s[n..]| ensures Folded(s[n..][i]) { assert s[n..][i] == s[n + i]; }
        }
        assert AllFolded(s[..n]) by {
          forall i | 0 <= i < n ensures Folded(s[..n][i]) { assert s[..n][i] == s[i]; }
        }
        SplitKeepsFolded(s[n..]);
        assert Split(s) == [s[..n]] + Split(s[n..]);
      }
    }
  }

  /** Joining folded words with spaces keeps every character folded. */
  lemma {:induction false} JoinKeepsFolded(ws: seq<string>)
    requires forall k :: 0 <= k < |ws| ==> AllFolded(ws[k])
    ensures AllFolded(Join(ws, " "))
  {
    if |ws| > 1 {
      JoinKeepsFolded(ws[1..]);
      var w, rest := ws[0], Join(ws[1..], " ");
      var s := w + " " + rest;
      forall i | 0 <= i < |s| ensures Folded(s[i]) {
        if i < |w| {
          assert s[i] == w[i];
        } else if i == |w| {
          assert s[i] == ' ';
        } else {
          assert s[i] == rest[i - |w| - 1];
        }
      }
    }
  }

  // ---------------------------------------------------------------------------
  // Properties of norm_key
  // ---------------------------------------------------------------------------

  /** A missing header normalises to the empty key. */
  lemma NormKeyOfNone()
    ensures NormKey(None) == ""
  {
  }

  /**
   * The keys are exactly the normal strings: norm_key leaves a string alone
   * if and only if it is single-spaced and fully folded.
   */
  lemma NormKeyFixpoint(x: string)
    ensures NormKey(Some(x)) == x <==> (SingleSpaced(x) && AllFolded(x))
  {
    if SingleSpaced(x) && AllFolded(x) {
      if x != [] {
        assert !IsSpace(x[0]) && !IsSpace(x[|x| - 1]);
      }
      StripUntrimmed(x);
      forall i | 0 <= i < |x| ensures Lower(x)[i] == x[i] && Translate(x)[i] == x[i] {
        FoldedFixed(x[i]);
      }
      assert Lower(x) == x;
      assert Translate(x) == x;
      JoinSplit(x);
    }
  }

  /** Normalising a key again changes nothing. */
  lemma NormKeyIdempotent(s: Option<string>)
    ensures NormKey(Some(NormKey(s))) == NormKey(s)
  {
    NormKeyFixpoint(NormKey(s));
  }

  /** Lower-casing and the table never create or remove whitespace. */
  lemma SpaceUntouched(c: char)
    ensures IsSpace(FoldChar(LowerChar(c))) <==> IsSpace(c)
    ensures IsSpace(c) ==> FoldChar(LowerChar(c)) == c
  {
  }

  /**
   * For a name that is already single-spaced, norm_key amounts to lower-casing
   * and translating it character by character.
   */
  lemma KeyOfSingleSpaced(x: string)
    requires SingleSpaced(x)
    ensures Key(x) == Translate(Lower(x))
  {
    if x != [] {
      assert !IsSpace(x[0]) && !IsSpace(x[|x| - 1]);
    }
    StripUntrimmed(x);
    var t := Translate(Lower(x));
    forall i | 0 <= i < |t| && IsSpace(t[i])
      ensures t[i] == ' ' && 0 < i < |t| - 1 && !IsSpace(t[i - 1]) && !IsSpace(t[i + 1])
    {
      SpaceUntouched(x[i]);
      SpaceUntouched(x[i - 1]);
      SpaceUntouched(x[i + 1]);
    }
    JoinSplit(t);
  }

  /** A name made of lower-case ASCII letters only is its own key. */
  lemma LowerWordKey(x: string)
    requires forall i :: 0 <= i < |x| ==> 'a' <= x[i] <= 'z'
    ensures Key(x) == x
  {
    forall i | 0 <= i < |x| ensures Folded(x[i]) && !IsSpace(x[i]) {
      LowerLetterFolded(x[i]);
    }
    NormKeyFixpoint(x);
  }

  lemma LowerLetterFolded(c: char)
    requires 'a' <= c <= 'z'
    ensures Folded(c) && !IsSpace(c)
  {
  }

  // ---------------------------------------------------------------------------
  // Spellings that resolve alike
  // ---------------------------------------------------------------------------

  /** Each word lower-cased and translated. */
  function FoldWords(ws: seq<string>): (r: seq<string>)
    ensures |r| == |ws|
  {
    seq(|ws|, k requires 0 <= k < |ws| => Translate(Lower(ws[k])))
  }

  /** Lower-casing and translating a text folds each of its words and keeps the word boundaries. */
  /** Folding a name commutes with cutting it. */
  lemma FoldSlice(y: string, n: nat)
    requires n <= |y|
    ensures Translate(Lower(y))[..n] == Translate(Lower(y[..n]))
    ensures Translate(Lower(y))[n..] == Translate(Lower(y[n..]))
  {
  }

  /** Folding the words of a list that starts with w folds w first. */
  lemma FoldWordsCons(w: string, ws: seq<string>)
    ensures FoldWords([w] + ws) == [Translate(Lower(w))] + FoldWords(ws)
  {
  }

  /** A word of y folds into a word of its folding, of the same length. */
  lemma FoldFirstWord(y: string)
    requires y != [] && !IsSpace(y[0])
    ensures var t := Translate(Lower(y));
      Split(t) == [Translate(Lower(y[..WordLen(y)]))] + Split(Translate(Lower(y[WordLen(y)..])))
  {
    var t := Translate(Lower(y));
    var n := WordLen(y);
    forall i | 0 <= i <= n && i < |y| ensures IsSpace(t[i]) <==> IsSpace(y[i]) {
      SpaceUntouched(y[i]);
    }
    assert NoSpace(t[..n]) by {
      forall i | 0 <= i < n ensures !IsSpace(t[..n][i]) { assert y[..n][i] == y[i]; }
    }
    WordLenAt(t, n);
    SplitFirstWord(t);
    FoldSlice(y, n);
  }

  lemma {:induction false} SplitFold(y: string)
    ensures Split(Translate(Lower(y))) == FoldWords(Split(y))
    decreases |y|
  {
    var t := Translate(Lower(y));
    if y == [] {
    } else if IsSpace(y[0]) {
      SpaceUntouched(y[0]);
      assert t[1..] == Translate(Lower(y[1..]));
      SplitFold(y[1..]);
    } else {
      var n := WordLen(y);
      FoldFirstWord(y);
      SplitFirstWord(y);
      SplitFold(y[n..]);
      FoldWordsCons(y[..n], Split(y[n..]));
    }
  }

  /**
   * norm_key as a reference definition: the key of a name is its words, each
   * lower-cased and translated, joined by single spaces.
   */
  lemma KeyWords(x: string)
    ensures Key(x) == Join(FoldWords(Split(x)), " ")
  {
    SplitFold(Strip(x));
    SplitStrip(x);
  }

  /** Names whose words agree once lower-cased and translated have the same key. */
  lemma SameWordsSameKey(x: string, y: string)
    requires FoldWords(Split(x)) == FoldWords(Split(y))
    ensures Key(x) == Key(y)
  {
    KeyWords(x);
    KeyWords(y);
  }

  /** Lower-casing or translating a character first changes nothing once both are applied. */
  lemma FoldAbsorbs(c: char)
    ensures FoldChar(LowerChar(LowerChar(c))) == FoldChar(LowerChar(c))
    ensures FoldChar(LowerChar(FoldChar(c))) == FoldChar(LowerChar(c))
  {
  }

  /** Lower-casing or translating a name first changes nothing once both are applied. */
  lemma FoldAbsorbsText(x: string)
    ensures Translate(Lower(Lower(x))) == Translate(Lower(x))
    ensures Translate(Lower(Translate(x))) == Translate(Lower(x))
  {
    forall i | 0 <= i < |x|
      ensures Translate(Lower(Lower(x)))[i] == Translate(Lower(x))[i]
      ensures Translate(Lower(Translate(x)))[i] == Translate(Lower(x))[i]
    {
      FoldAbsorbs(x[i]);
    }
  }

  /** Names that agree once lower-cased and translated have the same key. */
  lemma SameFoldSameKey(x: string, y: string)
    requires Translate(Lower(x)) == Translate(Lower(y))
    ensures Key(x) == Key(y)
  {
    SplitFold(x);
    SplitFold(y);
    SameWordsSameKey(x, y);
  }

  /**
   * Spellings that differ only in letter case, in the accents of the table,
   * or in the whitespace around and between words resolve to the same key.
   */
  lemma KeyIgnoresSpelling(x: string)
    ensures Key(Lower(x)) == Key(x)
    ensures Key(Translate(x)) == Key(x)
    ensures Key(ReplaceSpaceRuns(x)) == Key(x)
    ensures Key(Strip(x)) == Key(x)
  {
    FoldAbsorbsText(x);
    SameFoldSameKey(Lower(x), x);
    SameFoldSameKey(Translate(x), x);
    SplitCollapse(x);
    SameWordsSameKey(ReplaceSpaceRuns(x), x);
    SplitStrip(x);
    SameWordsSameKey(Strip(x), x);
  }
}
