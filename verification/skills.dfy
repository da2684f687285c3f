/**
 Keyword skill extraction (`extract_skills`): for each of four fixed categories,
 count how many of its keywords occur as substrings of the cleaned resume text, and
 record the category only when that count is positive.
 */
module Skills {
  import Text

  /** A skill category and its lower-case trigger keywords. */
  datatype Category = Category(name: string, keywords: seq<string>)

  /** The fixed keyword table, in the order the extractor visits it. */
  const SkillTable: seq<Category> := [
    Category("python", ["python", "pandas", "numpy", "sklearn", "tensorflow"]),
    Category("leadership", ["managed", "team", "supervised", "led", "coordinated"]),
    Category("web", ["html", "css", "javascript", "react", "angular", "node"]),
    Category("data", ["sql", "excel", "tableau", "powerbi", "analytics"])
  ]

  /** The category names of the fixed table. */
  const CategoryNames: set<string> := {"python", "leadership", "web", "data"}

  /** Names of the categories of a table. */
  function Names(table: seq<Category>): set<string>
  {
    set c | c in table :: c.name
  }

  /** No two categories of the table share a name. */
  ghost predicate DistinctNames(table: seq<Category>)
  {
    forall i, j :: 0 <= i < j < |table| ==> table[i].name != table[j].name
  }

  // ---------------------------------------------------------------------------
  // Substring containment
  // ---------------------------------------------------------------------------

  /** `kw` occurs in `text` starting at position `i`. */
  ghost predicate OccursAt(kw: string, text: string, i: int)
  {
    0 <= i && i + |kw| <= |text| && text[i..i + |kw|] == kw
  }

  /** Python's `kw in text` on strings, searching from the left. */
  function Contains(text: string, kw: string): bool
    decreases |text|
  {
    if |kw| > |text| then false
    else if text[..|kw|] == kw then true
    else Contains(text[1..], kw)
  }

  /** The search finds the keyword exactly when it occurs somewhere in the text. */
  lemma {:induction false} ContainsIffOccurs(text: string, kw: string)
    ensures Contains(text, kw) <==> exists i :: OccursAt(kw, text, i)
    decreases |text|
  {
    if |kw| > |text| {
      assert forall i :: !OccursAt(kw, text, i);
    } else if text[..|kw|] == kw {
      assert OccursAt(kw, text, 0);
    } else {
      var tail := text[1..];
      ContainsIffOccurs(tail, kw);
      if Contains(tail, kw) {
        var i :| OccursAt(kw, tail, i);
        SliceOfTail(text, i + 1, |kw|);
        assert OccursAt(kw, text, i + 1);
      } else {
        forall i ensures !OccursAt(kw, text, i)
        {
          if 1 <= i && i + |kw| <= |text| {
            SliceOfTail(text, i, |kw|);
            assert !OccursAt(kw, tail, i - 1);
          }
        }
      }
    }
  }

  /** A slice of the text without its first character, read one position earlier. */
  lemma SliceOfTail(text: string, i: int, n: nat)
    requires 1 <= i && i + n <= |text|
    ensures text[1..][i - 1..i - 1 + n] == text[i..i + n]
  {
  }

  // ---------------------------------------------------------------------------
  // Counting keywords
  // ---------------------------------------------------------------------------

  /** `sum(1 for kw in keywords if kw in cleaned)` */
  function CountMatches(keywords: seq<string>, cleaned: string): (n: nat)
    ensures n <= |keywords|
    ensures n == 0 <==> forall k :: 0 <= k < |keywords| ==> !Contains(cleaned, keywords[k])
  {
    if |keywords| == 0 then 0
    else (if Contains(cleaned, keywords[0]) then 1 else 0) + CountMatches(keywords[1..], cleaned)
  }

  /** Counting a concatenation adds the counts of its parts. */
  lemma {:induction false} CountMatchesAppend(a: seq<string>, b: seq<string>, cleaned: string)
    ensures CountMatches(a + b, cleaned) == CountMatches(a, cleaned) + CountMatches(b, cleaned)
  {
    if |a| > 0 {
      assert (a + b)[0] == a[0];
      assert (a + b)[1..] == a[1..] + b;
      CountMatchesAppend(a[1..], b, cleaned);
    } else {
      assert a + b == b;
    }
  }

  /** The count does not depend on the order of the keyword list. */
  lemma {:induction false} CountMatchesOrderFree(a: seq<string>, b: seq<string>, cleaned: string)
    requires multiset(a) == multiset(b)
    ensures CountMatches(a, cleaned) == CountMatches(b, cleaned)
    decreases |a|
  {
    if |a| > 0 {
      var x := a[0];
      assert x in multiset(b);
      var i :| 0 <= i < |b| && b[i] == x;
      var b' := b[..i] + b[i + 1..];
      assert b == b[..i] + [x] + b[i + 1..];
      RemoveOne(a, b, i);
      CountMatchesOrderFree(a[1..], b', cleaned);
      CountMatchesAppend(b[..i] + [x], b[i + 1..], cleaned);
      CountMatchesAppend(b[..i], [x], cleaned);
      CountMatchesAppend(b[..i], b[i + 1..], cleaned);
    } else {
      assert b == [];
    }
  }

  /** Removing the first element of `a` and a matching element of `b` keeps
      the two lists permutations of each other. */
  lemma RemoveOne(a: seq<string>, b: seq<string>, i: int)
    requires multiset(a) == multiset(b) && |a| > 0 && 0 <= i < |b| && b[i] == a[0]
    ensures multiset(a[1..]) == multiset(b[..i] + b[i + 1..])
  {
    assert a == [a[0]] + a[1..];
    assert b == b[..i] + [b[i]] + b[i + 1..];
    calc {
      multiset(a[1..]);
      multiset(a) - multiset{a[0]};
      multiset(b) - multiset{a[0]};
      { assert multiset(b) == multiset(b[..i]) + multiset{b[i]} + multiset(b[i + 1..]); }
      multiset(b[..i]) + multiset(b[i + 1..]);
      multiset(b[..i] + b[i + 1..]);
    }
  }

  // ---------------------------------------------------------------------------
  // Building the skills map
  // ---------------------------------------------------------------------------

  /** The loop of `extract_skills` over a keyword table: a category is stored
      with its count when the count is positive. */
  function BuildSkills(table: seq<Category>, cleaned: string): (skills: map<string, nat>)
    ensures skills.Keys <= Names(table)
    ensures forall name :: name in skills ==> skills[name] >= 1
  {
    if |table| == 0 then map[]
    else
      var before := BuildSkills(table[..|table| - 1], cleaned);
      var c := table[|table| - 1];
      assert Names(table) == Names(table[..|table| - 1]) + {c.name};
      var n := CountMatches(c.keywords, cleaned);
      if n > 0 then before[c.name := n] else before
  }

  /** With distinct category names, a category is in the map exactly when some
      of its keywords occur, and then it maps to its keyword count. */
  lemma {:induction false} BuildSkillsExact(table: seq<Category>, cleaned: string)
    requires DistinctNames(table)
    ensures forall k :: 0 <= k < |table| ==>
      var n := CountMatches(table[k].keywords, cleaned);
      && (table[k].name in BuildSkills(table, cleaned) <==> n > 0)
      && (n > 0 ==> BuildSkills(table, cleaned)[table[k].name] == n)
  {
    if |table| > 0 {
      var init := table[..|table| - 1];
      BuildSkillsExact(init, cleaned);
      var c := table[|table| - 1];
      forall k | 0 <= k < |init|
        ensures table[k] == init[k] && init[k].name != c.name
      {
      }
      assert c.name !in BuildSkills(init, cleaned) by {
        assert c.name !in Names(init);
      }
    }
  }

  /** Permuting the keywords within each category does not change the map. */
  lemma {:induction false} BuildSkillsKeywordOrderFree(t1: seq<Category>, t2: seq<Category>, cleaned: string)
    requires |t1| == |t2|
    requires forall k :: 0 <= k < |t1| ==>
      t1[k].name == t2[k].name && multiset(t1[k].keywords) == multiset(t2[k].keywords)
    ensures BuildSkills(t1, cleaned) == BuildSkills(t2, cleaned)
  {
    if |t1| > 0 {
      var n := |t1| - 1;
      BuildSkillsKeywordOrderFree(t1[..n], t2[..n], cleaned);
      CountMatchesOrderFree(t1[n].keywords, t2[n].keywords, cleaned);
    }
  }

  /** No keyword of the table is the empty string. */
  ghost predicate NonEmptyKeywords(table: seq<Category>)
  {
    forall k, j :: 0 <= k < |table| && 0 <= j < |table[k].keywords| ==> |table[k].keywords[j]| > 0
  }

  /** Nothing is found in empty text. */
  lemma {:induction false} BuildSkillsOfEmpty(table: seq<Category>)
    requires NonEmptyKeywords(table)
    ensures BuildSkills(table, "") == map[]
  {
    if |table| > 0 {
      var n := |table| - 1;
      BuildSkillsOfEmpty(table[..n]);
      assert table[n] == table[|table| - 1];
      var kws := table[n].keywords;
      assert forall j :: 0 <= j < |kws| ==> !Contains("", kws[j]);
    }
  }

  /** The fixed table has four distinctly named categories of 5, 5, 6 and 5
      non-empty keywords. */
  lemma SkillTableShape()
    ensures DistinctNames(SkillTable) && NonEmptyKeywords(SkillTable)
    ensures Names(SkillTable) == CategoryNames
    ensures |SkillTable| == 4
    ensures SkillTable[0].name == "python" && |SkillTable[0].keywords| == 5
    ensures SkillTable[1].name == "leadership" && |SkillTable[1].keywords| == 5
    ensures SkillTable[2].name == "web" && |SkillTable[2].keywords| == 6
    ensures SkillTable[3].name == "data" && |SkillTable[3].keywords| == 5
  {
    SkillTableDistinct();
    SkillTableNonEmpty();
    SkillTableNames();
  }

  lemma SkillTableDistinct()
    ensures DistinctNames(SkillTable)
  {
    assert SkillTable[0].name != SkillTable[1].name;
  }

  lemma SkillTableNonEmpty()
    ensures NonEmptyKeywords(SkillTable)
  {
  }

  lemma SkillTableNames()
    ensures Names(SkillTable) == CategoryNames
  {
    assert SkillTable[0].name in Names(SkillTable);
    assert SkillTable[1].name in Names(SkillTable);
    assert SkillTable[2].name in Names(SkillTable);
    assert SkillTable[3].name in Names(SkillTable);
  }

  // ---------------------------------------------------------------------------
  // extract_skills
  // ---------------------------------------------------------------------------

  /** `extract_skills(resume_text)`: the skill counts of the cleaned text. Only the
      four categories can appear, each with a count between one and the length
      of its keyword list. */
  function ExtractSkills(cc: Text.CharClasses, stopWords: set<string>, text: string): (skills: map<string, nat>)
    ensures skills.Keys <= CategoryNames
    ensures forall name :: name in skills ==> skills[name] >= 1
    ensures "python" in skills ==> skills["python"] <= 5
    ensures "leadership" in skills ==> skills["leadership"] <= 5
    ensures "web" in skills ==> skills["web"] <= 6
    ensures "data" in skills ==> skills["data"] <= 5
  {
    var cleaned := Text.CleanResume(cc, stopWords, text);
    SkillTableShape();
    BuildSkillsExact(SkillTable, cleaned);
    BuildSkills(SkillTable, cleaned)
  }

  /** A count is positive exactly when one of the keywords occurs in the text. */
  lemma {:induction false} CountPositiveIffOccurs(keywords: seq<string>, cleaned: string)
    ensures CountMatches(keywords, cleaned) > 0 <==>
      exists j, i :: 0 <= j < |keywords| && OccursAt(keywords[j], cleaned, i)
  {
    forall j | 0 <= j < |keywords|
      ensures Contains(cleaned, keywords[j]) <==> exists i :: OccursAt(keywords[j], cleaned, i)
    {
      ContainsIffOccurs(cleaned, keywords[j]);
    }
  }

  /** Every category of the fixed table is reported exactly when one of its
      keywords is a substring of the cleaned text, with the number of its
      keywords that are. */
  lemma ExtractSkillsExact(cc: Text.CharClasses, stopWords: set<string>, text: string)
    ensures forall k :: 0 <= k < |SkillTable| ==>
      var n := CountMatches(SkillTable[k].keywords, Text.CleanResume(cc, stopWords, text));
      && (SkillTable[k].name in ExtractSkills(cc, stopWords, text) <==> n > 0)
      && (n > 0 ==> ExtractSkills(cc, stopWords, text)[SkillTable[k].name] == n)
  {
    SkillTableShape();
    BuildSkillsExact(SkillTable, Text.CleanResume(cc, stopWords, text));
  }

  /** Permuting the keywords within each category of the table does not change
      what is extracted. */
  lemma ExtractSkillsKeywordOrderFree(cc: Text.CharClasses, stopWords: set<string>, text: string, table: seq<Category>)
    requires |table| == |SkillTable|
    requires forall k :: 0 <= k < |table| ==>
      table[k].name == SkillTable[k].name && multiset(table[k].keywords) == multiset(SkillTable[k].keywords)
    ensures BuildSkills(table, Text.CleanResume(cc, stopWords, text)) == ExtractSkills(cc, stopWords, text)
  {
    BuildSkillsKeywordOrderFree(table, SkillTable, Text.CleanResume(cc, stopWords, text));
  }

  /** `extract_skills("")` is the empty map, and so is the result for any text
      without a character that lower-cases to a word character. */
  lemma ExtractSkillsWithoutWords(cc: Text.CharClasses, stopWords: set<string>, text: string)
    requires cc.isSpace(' ')
    requires forall i :: 0 <= i < |text| ==> !cc.isWord(cc.lower(text[i]))
    ensures ExtractSkills(cc, stopWords, text) == map[]
  {
    Text.CleanWithoutWordChars(cc, stopWords, text);
    SkillTableShape();
    BuildSkillsOfEmpty(SkillTable);
  }

  /** A keyword with a character the text lacks is not found in it. */
  lemma MissingCharNotContained(text: string, kw: string, j: nat)
    requires j < |kw| && kw[j] !in text
    ensures !Contains(text, kw)
  {
    forall i
      ensures !OccursAt(kw, text, i)
    {
      if 0 <= i && i + |kw| <= |text| {
        assert text[i..i + |kw|][j] == text[i + j];
      }
    }
    ContainsIffOccurs(text, kw);
  }

  /** Matching is by substring, so `led` counts inside `skilled`. */
  lemma LedMatchesInsideSkilled()
    ensures Contains("skilled", "led")
    ensures CountMatches(SkillTable[1].keywords, "skilled") == 1
  {
    var s := "skilled";
    assert s[4..][..3] == "led";
    assert Contains(s[4..], "led");
    assert Contains(s[3..], "led");
    assert Contains(s[2..], "led");
    assert Contains(s[1..], "led");
    MissingCharNotContained(s, "managed", 0);
    MissingCharNotContained(s, "team", 0);
    MissingCharNotContained(s, "coordinated", 0);
    assert SkillTable[1].keywords == ["managed", "team", "supervised", "led", "coordinated"];
  }
}
