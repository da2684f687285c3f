/**
 Text normalisation of a resume (`clean_resume`): lower-case the text, turn every
 character that is neither a word character nor whitespace into a space, collapse
 whitespace runs to one space, split into tokens, drop tokens of length at most two
 and stop-words, and join what is left with single spaces.

 The character classes of Python's `re` module (`\w`, `\s`) and `str.lower` are not
 fixed here: they are the fields of a `CharClasses` value, and the laws the lemmas
 rely on are collected in `Valid`. The stop-word list is a set parameter. The
 tokenizer is a split on whitespace.
 */
module Text {
  import Seqs

  /** The character classes the cleaning step depends on. */
  datatype CharClasses = CharClasses(
    isWord: char -> bool,   // `\w`
    isSpace: char -> bool,  // `\s`, also what `str.strip` removes
    lower: char -> char     // `str.lower`, one character at a time
  )

  /** Laws the Unicode classes obey: the blank is whitespace, no character is
      both a word character and whitespace, lower-casing twice changes nothing
      more, and lower-casing leaves whitespace alone. */
  ghost predicate Valid(cc: CharClasses)
  {
    && cc.isSpace(' ')
    && (forall c :: !(cc.isWord(c) && cc.isSpace(c)))
    && (forall c :: cc.lower(cc.lower(c)) == cc.lower(c))
    && (forall c :: cc.isSpace(c) ==> cc.lower(c) == c)
  }

  /** A character that can survive cleaning: a lower-cased word character. */
  ghost predicate IsCleanChar(cc: CharClasses, c: char)
  {
    cc.isWord(c) && cc.lower(c) == c
  }

  /** A token made only of lower-cased word characters. */
  ghost predicate IsWordToken(cc: CharClasses, t: string)
  {
    |t| > 0 && forall j :: 0 <= j < |t| ==> IsCleanChar(cc, t[j])
  }

  /** Text made of lower-cased word characters separated by single blanks,
      with no blank at either end. */
  ghost predicate IsCleanText(cc: CharClasses, s: string)
  {
    forall i {:trigger s[i]} :: 0 <= i < |s| ==>
      || IsCleanChar(cc, s[i])
      || (s[i] == ' ' && 0 < i < |s| - 1 && IsCleanChar(cc, s[i - 1]) && IsCleanChar(cc, s[i + 1]))
  }

  /** Every character is a lower-cased word character or whitespace. */
  ghost predicate WordsAndSpaces(cc: CharClasses, s: string)
  {
    forall i :: 0 <= i < |s| ==> IsCleanChar(cc, s[i]) || cc.isSpace(s[i])
  }

  // ---------------------------------------------------------------------------
  // The steps of the cleaning pipeline
  // ---------------------------------------------------------------------------

  /** Applies `f` to every character. */
  function MapChars(f: char -> char, s: string): (r: string)
    ensures |r| == |s|
    ensures forall i :: 0 <= i < |s| ==> r[i] == f(s[i])
  {
    seq(|s|, i requires 0 <= i < |s| => f(s[i]))
  }

  /** `text.lower()` */
  function Lower(cc: CharClasses, s: string): string
  {
    MapChars(cc.lower, s)
  }

  /** What `re.sub(r'[^\w\s]', ' ', ...)` does to one character. */
  function PunctuationToSpace(cc: CharClasses, c: char): char
  {
    if cc.isWord(c) || cc.isSpace(c) then c else ' '
  }

  /** `re.sub(r'[^\w\s]', ' ', s)` */
  function StripPunctuation(cc: CharClasses, s: string): string
  {
    MapChars(c => PunctuationToSpace(cc, c), s)
  }

  /** `re.sub(r'\s+', ' ', s)`: every maximal run of whitespace becomes one blank. */
  function CollapseWhitespace(cc: CharClasses, s: string): (r: string)
    ensures forall i :: 0 <= i < |r| ==> r[i] == ' ' || (r[i] in s && !cc.isSpace(r[i]))
    ensures forall i :: 0 <= i < |r| - 1 ==> !(cc.isSpace(r[i]) && cc.isSpace(r[i + 1]))
    ensures |s| > 0 && !cc.isSpace(s[0]) ==> |r| > 0 && r[0] == s[0]
    decreases |s|
  {
    if |s| == 0 then []
    else if cc.isSpace(s[0]) && |s| > 1 && cc.isSpace(s[1]) then CollapseWhitespace(cc, s[1..])
    else if cc.isSpace(s[0]) then [' '] + CollapseWhitespace(cc, s[1..])
    else [s[0]] + CollapseWhitespace(cc, s[1..])
  }

  /** The token under construction, if it is not empty. */
  function Emit(cur: string): seq<string>
  {
    if cur == [] then [] else [cur]
  }

  /** Splits `s` on whitespace, `cur` being the characters of the token already
      read; empty tokens are never produced. */
  function SplitFrom(cc: CharClasses, s: string, cur: string): (ts: seq<string>)
    ensures forall k :: 0 <= k < |ts| ==> |ts[k]| > 0
    decreases |s|
  {
    if |s| == 0 then Emit(cur)
    else if cc.isSpace(s[0]) then Emit(cur) + SplitFrom(cc, s[1..], [])
    else SplitFrom(cc, s[1..], cur + [s[0]])
  }

  /** `word_tokenize`, approximated by a split on whitespace. */
  function Tokenize(cc: CharClasses, s: string): seq<string>
  {
    SplitFrom(cc, s, [])
  }

  /** The filter of the list comprehension: longer than two characters and not a stop-word. */
  predicate Kept(stopWords: set<string>, t: string)
  {
    |t| > 2 && t !in stopWords
  }

  /** `Kept` as a function value, so that every use names the same filter. */
  function KeepRule(stopWords: set<string>): string -> bool
  {
    t => Kept(stopWords, t)
  }

  /** `[t for t in tokens if len(t) > 2 and t not in stop_words]` */
  function KeepTokens(stopWords: set<string>, tokens: seq<string>): seq<string>
  {
    Seqs.Filter(KeepRule(stopWords), tokens)
  }

  /** `' '.join(tokens)` */
  function Join(tokens: seq<string>): string
  {
    if |tokens| == 0 then []
    else if |tokens| == 1 then tokens[0]
    else tokens[0] + " " + Join(tokens[1..])
  }

  /** The text after the two regular-expression substitutions. */
  function Normalize(cc: CharClasses, text: string): string
  {
    CollapseWhitespace(cc, StripPunctuation(cc, Lower(cc, text)))
  }

  /** The tokens `clean_resume` keeps. */
  function CleanTokens(cc: CharClasses, stopWords: set<string>, text: string): seq<string>
  {
    KeepTokens(stopWords, Tokenize(cc, Normalize(cc, text)))
  }

  /** `clean_resume(text)` */
  function CleanResume(cc: CharClasses, stopWords: set<string>, text: string): string
  {
    Join(CleanTokens(cc, stopWords, text))
  }

  // ---------------------------------------------------------------------------
  // Splitting and joining
  // ---------------------------------------------------------------------------

  /** Reading a run of non-whitespace only extends the current token. */
  lemma {:induction false} SplitAfterWord(cc: CharClasses, t: string, rest: string, cur: string)
    requires forall j :: 0 <= j < |t| ==> !cc.isSpace(t[j])
    ensures SplitFrom(cc, t + rest, cur) == SplitFrom(cc, rest, cur + t)
    decreases |t|
  {
    if |t| == 0 {
      assert t + rest == rest;
      assert cur + t == cur;
    } else {
      assert (t + rest)[0] == t[0];
      assert (t + rest)[1..] == t[1..] + rest;
      SplitAfterWord(cc, t[1..], rest, cur + [t[0]]);
      assert cur + [t[0]] + t[1..] == cur + t;
    }
  }

  /** Splitting undoes joining: tokens of word characters joined with blanks
      split back into the same tokens. */
  lemma {:induction false} TokenizeJoin(cc: CharClasses, ts: seq<string>)
    requires Valid(cc)
    requires forall k :: 0 <= k < |ts| ==> IsWordToken(cc, ts[k])
    ensures Tokenize(cc, Join(ts)) == ts
  {
    if |ts| == 1 {
      SplitAfterWord(cc, ts[0], [], []);
      assert ts[0] + [] == ts[0];
      assert [] + ts[0] == ts[0];
    } else if |ts| > 1 {
      var rest := " " + Join(ts[1..]);
      assert Join(ts) == ts[0] + rest;
      SplitAfterWord(cc, ts[0], rest, []);
      assert [] + ts[0] == ts[0];
      assert rest[0] == ' ' && rest[1..] == Join(ts[1..]);
      TokenizeJoin(cc, ts[1..]);
      assert ts == [ts[0]] + ts[1..];
    }
  }

  /** Collapsing whitespace runs does not change how the text splits. */
  lemma {:induction false} SplitIgnoresCollapse(cc: CharClasses, s: string, cur: string)
    requires cc.isSpace(' ')
    ensures SplitFrom(cc, CollapseWhitespace(cc, s), cur) == SplitFrom(cc, s, cur)
    decreases |s|
  {
    if |s| > 0 {
      if cc.isSpace(s[0]) && |s| > 1 && cc.isSpace(s[1]) {
        SplitIgnoresCollapse(cc, s[1..], cur);
        assert s[1..][1..] == s[2..];
      } else if cc.isSpace(s[0]) {
        var c := CollapseWhitespace(cc, s[1..]);
        assert ([' '] + c)[1..] == c;
        SplitIgnoresCollapse(cc, s[1..], []);
      } else {
        var c := CollapseWhitespace(cc, s[1..]);
        assert ([s[0]] + c)[1..] == c;
        SplitIgnoresCollapse(cc, s[1..], cur + [s[0]]);
      }
    }
  }

  /** Text made only of whitespace has no tokens. */
  lemma {:induction false} BlankHasNoTokens(cc: CharClasses, s: string)
    requires forall i :: 0 <= i < |s| ==> cc.isSpace(s[i])
    ensures SplitFrom(cc, s, []) == []
    decreases |s|
  {
    if |s| > 0 {
      BlankHasNoTokens(cc, s[1..]);
    }
  }

  /** Tokens of text made of clean characters and whitespace are word tokens. */
  lemma {:induction false} TokensAreWords(cc: CharClasses, s: string, cur: string)
    requires WordsAndSpaces(cc, s)
    requires forall j :: 0 <= j < |cur| ==> IsCleanChar(cc, cur[j])
    ensures forall k :: 0 <= k < |SplitFrom(cc, s, cur)| ==> IsWordToken(cc, SplitFrom(cc, s, cur)[k])
    decreases |s|
  {
    if |s| > 0 {
      if cc.isSpace(s[0]) {
        TokensAreWords(cc, s[1..], []);
      } else {
        var cur' := cur + [s[0]];
        assert forall j :: 0 <= j < |cur'| ==> IsCleanChar(cc, cur'[j]) by {
          assert forall j :: 0 <= j < |cur| ==> cur'[j] == cur[j];
        }
        TokensAreWords(cc, s[1..], cur');
      }
    }
  }

  /** Joining word tokens yields clean text. */
  lemma {:induction false} JoinIsCleanText(cc: CharClasses, ts: seq<string>)
    requires forall k :: 0 <= k < |ts| ==> IsWordToken(cc, ts[k])
    ensures IsCleanText(cc, Join(ts))
    ensures |ts| > 0 ==> |Join(ts)| > 0
  {
    if |ts| > 1 {
      var t := ts[0];
      var j := Join(ts[1..]);
      JoinIsCleanText(cc, ts[1..]);
      var s := t + " " + j;
      assert Join(ts) == s;
      assert IsWordToken(cc, t);
      assert IsCleanChar(cc, j[0]);
      forall i | 0 <= i < |s|
        ensures IsCleanChar(cc, s[i])
             || (s[i] == ' ' && 0 < i < |s| - 1 && IsCleanChar(cc, s[i - 1]) && IsCleanChar(cc, s[i + 1]))
      {
        if i < |t| {
          assert s[i] == t[i];
        } else if i == |t| {
          assert s[i - 1] == t[|t| - 1];
          assert s[i + 1] == j[0];
        } else {
          var i' := i - |t| - 1;
          assert s[i] == j[i'];
          if !IsCleanChar(cc, j[i']) {
            assert s[i - 1] == j[i' - 1];
            assert s[i + 1] == j[i' + 1];
          }
        }
      }
    }
  }

  // ---------------------------------------------------------------------------
  // Character facts along the pipeline
  // ---------------------------------------------------------------------------

  /** After lower-casing and replacing punctuation, only clean characters and whitespace remain. */
  lemma StrippedIsWordsAndSpaces(cc: CharClasses, text: string)
    requires Valid(cc)
    ensures WordsAndSpaces(cc, StripPunctuation(cc, Lower(cc, text)))
  {
    var l := Lower(cc, text);
    var s := StripPunctuation(cc, l);
    forall i | 0 <= i < |s|
      ensures IsCleanChar(cc, s[i]) || cc.isSpace(s[i])
    {
      assert cc.lower(l[i]) == l[i];
    }
  }

  /** Collapsing whitespace keeps text made of clean characters and whitespace so. */
  lemma CollapseKeepsWordsAndSpaces(cc: CharClasses, s: string)
    requires cc.isSpace(' ')
    requires WordsAndSpaces(cc, s)
    ensures WordsAndSpaces(cc, CollapseWhitespace(cc, s))
  {
    var r := CollapseWhitespace(cc, s);
    forall i | 0 <= i < |r|
      ensures IsCleanChar(cc, r[i]) || cc.isSpace(r[i])
    {
      if r[i] != ' ' {
        var j :| 0 <= j < |s| && s[j] == r[i];
      }
    }
  }

  /** After the two substitutions of lines 14-15 the text holds only lower-cased
      word characters and single blanks, which is why a whitespace split
      stands in for the tokenizer. */
  lemma NormalizedShape(cc: CharClasses, text: string)
    requires Valid(cc)
    ensures var n := Normalize(cc, text);
      && (forall i :: 0 <= i < |n| ==> IsCleanChar(cc, n[i]) || n[i] == ' ')
      && (forall i :: 0 <= i < |n| - 1 ==> !(n[i] == ' ' && n[i + 1] == ' '))
  {
    var s := StripPunctuation(cc, Lower(cc, text));
    StrippedIsWordsAndSpaces(cc, text);
    var n := CollapseWhitespace(cc, s);
    forall i | 0 <= i < |n|
      ensures IsCleanChar(cc, n[i]) || n[i] == ' '
    {
      if n[i] != ' ' {
        var j :| 0 <= j < |s| && s[j] == n[i];
      }
    }
  }

  /** The tokens kept by `clean_resume` are word tokens that pass the filter. */
  lemma CleanTokensAreKeptWords(cc: CharClasses, stopWords: set<string>, text: string)
    requires Valid(cc)
    ensures forall k :: 0 <= k < |CleanTokens(cc, stopWords, text)| ==>
      IsWordToken(cc, CleanTokens(cc, stopWords, text)[k]) && Kept(stopWords, CleanTokens(cc, stopWords, text)[k])
  {
    var s := StripPunctuation(cc, Lower(cc, text));
    StrippedIsWordsAndSpaces(cc, text);
    CollapseKeepsWordsAndSpaces(cc, s);
    var ts := Tokenize(cc, Normalize(cc, text));
    TokensAreWords(cc, Normalize(cc, text), []);
    var ks := CleanTokens(cc, stopWords, text);
    forall k | 0 <= k < |ks|
      ensures IsWordToken(cc, ks[k]) && Kept(stopWords, ks[k])
    {
      assert KeepRule(stopWords)(ks[k]);
      var j :| 0 <= j < |ts| && ts[j] == ks[k];
    }
  }

  // ---------------------------------------------------------------------------
  // Properties of clean_resume
  // ---------------------------------------------------------------------------

  /** The output holds only lower-cased word characters and single separating
      blanks, with no blank at either end. */
  lemma CleanResumeShape(cc: CharClasses, stopWords: set<string>, text: string)
    requires Valid(cc)
    ensures IsCleanText(cc, CleanResume(cc, stopWords, text))
  {
    CleanTokensAreKeptWords(cc, stopWords, text);
    JoinIsCleanText(cc, CleanTokens(cc, stopWords, text));
  }

  /** Splitting the output on blanks gives back exactly the kept tokens: every
      token is longer than two characters and is not a stop-word. */
  lemma CleanResumeTokens(cc: CharClasses, stopWords: set<string>, text: string)
    requires Valid(cc)
    ensures Tokenize(cc, CleanResume(cc, stopWords, text)) == CleanTokens(cc, stopWords, text)
    ensures forall k :: 0 <= k < |Tokenize(cc, CleanResume(cc, stopWords, text))| ==>
      var t := Tokenize(cc, CleanResume(cc, stopWords, text))[k];
      |t| > 2 && t !in stopWords
  {
    CleanTokensAreKeptWords(cc, stopWords, text);
    TokenizeJoin(cc, CleanTokens(cc, stopWords, text));
  }

  /** The kept tokens are the tokens of the lower-cased, punctuation-split input
      that pass the filter, in their original order: exactly those positions are
      selected, in increasing order. */
  lemma CleanTokensSubsequence(cc: CharClasses, stopWords: set<string>, text: string)
    requires cc.isSpace(' ')
    ensures var ts := Tokenize(cc, StripPunctuation(cc, Lower(cc, text)));
      var pos := Seqs.Positions(KeepRule(stopWords), ts);
      && Seqs.SelectedBy(CleanTokens(cc, stopWords, text), ts, pos)
      && (forall j :: 0 <= j < |ts| ==> (Kept(stopWords, ts[j]) <==> j in pos))
  {
    var s := StripPunctuation(cc, Lower(cc, text));
    SplitIgnoresCollapse(cc, s, []);
    var ts := Tokenize(cc, s);
    Seqs.FilterSelectsExactly(KeepRule(stopWords), ts);
  }

  /** Text with no character that lower-cases to a word character cleans to "". */
  lemma CleanWithoutWordChars(cc: CharClasses, stopWords: set<string>, text: string)
    requires cc.isSpace(' ')
    requires forall i :: 0 <= i < |text| ==> !cc.isWord(cc.lower(text[i]))
    ensures CleanResume(cc, stopWords, text) == ""
  {
    var s := StripPunctuation(cc, Lower(cc, text));
    assert forall i :: 0 <= i < |s| ==> cc.isSpace(s[i]);
    SplitIgnoresCollapse(cc, s, []);
    BlankHasNoTokens(cc, s);
  }

  /** Empty or whitespace-only input cleans to "". */
  lemma CleanBlank(cc: CharClasses, stopWords: set<string>, text: string)
    requires Valid(cc)
    requires forall i :: 0 <= i < |text| ==> cc.isSpace(text[i])
    ensures CleanResume(cc, stopWords, text) == ""
  {
    forall i | 0 <= i < |text|
      ensures !cc.isWord(cc.lower(text[i]))
    {
      assert cc.lower(text[i]) == text[i];
    }
    CleanWithoutWordChars(cc, stopWords, text);
  }

  /** Cleaning is idempotent. */
  lemma CleanIdempotent(cc: CharClasses, stopWords: set<string>, text: string)
    requires Valid(cc)
    ensures CleanResume(cc, stopWords, CleanResume(cc, stopWords, text)) == CleanResume(cc, stopWords, text)
  {
    var ks := CleanTokens(cc, stopWords, text);
    var y := Join(ks);
    CleanTokensAreKeptWords(cc, stopWords, text);
    JoinIsCleanText(cc, ks);
    assert IsCleanText(cc, y);
    forall i | 0 <= i < |y|
      ensures cc.lower(y[i]) == y[i] && PunctuationToSpace(cc, y[i]) == y[i]
    {
      assert IsCleanChar(cc, y[i]) || y[i] == ' ';
    }
    assert Lower(cc, y) == y;
    assert StripPunctuation(cc, y) == y;
    SplitIgnoresCollapse(cc, y, []);
    TokenizeJoin(cc, ks);
    assert forall k :: 0 <= k < |ks| ==> KeepRule(stopWords)(ks[k]);
  }
}
