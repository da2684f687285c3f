/**
 The decision logic of the screening app around the pipeline: the job weights the
 four sidebar sliders produce, the skip of uploads that carry no text, the analysis
 table with its skill tags, and the batch run over a column of resume texts with
 its Hire/Review/Reject recommendation.

 Widgets, file decoding, PDF extraction and CSV reading are not modelled: an upload
 arrives as a file name and its decoded text, and a batch as the sequence of the
 `resume_text` cells in row order.
 */
module Screening {
  import Seqs
  import Text
  import Skills
  import Scoring

  // ---------------------------------------------------------------------------
  // Job weights from the sliders
  // ---------------------------------------------------------------------------

  /** A slider position: an integer from 0 to 5. */
  type Slider = x: int | 0 <= x <= 5

  /** The job weights of the sidebar: each slider position divided by 10. */
  function SliderWeights(python: Slider, leadership: Slider, web: Slider, data: Slider): (ws: Scoring.Weights)
    ensures |ws| == 4
    ensures ws[0].0 == "python" && ws[1].0 == "leadership" && ws[2].0 == "web" && ws[3].0 == "data"
    ensures forall k :: 0 <= k < |ws| ==> ws[k].1 in {0.0, 0.1, 0.2, 0.3, 0.4, 0.5}
    ensures ws[0].1 * 10.0 == python as real && ws[1].1 * 10.0 == leadership as real
         && ws[2].1 * 10.0 == web as real && ws[3].1 * 10.0 == data as real
  {
    [("python", Tenth(python)), ("leadership", Tenth(leadership)), ("web", Tenth(web)), ("data", Tenth(data))]
  }

  /** A slider position divided by 10. */
  function Tenth(x: Slider): (w: real)
    ensures w in {0.0, 0.1, 0.2, 0.3, 0.4, 0.5}
    ensures w * 10.0 == x as real
  {
    x as real / 10.0
  }

  /** The total slider weight is a tenth of the sum of the positions. */
  lemma SliderTotal(python: Slider, leadership: Slider, web: Slider, data: Slider)
    ensures Scoring.TotalWeight(SliderWeights(python, leadership, web, data)) * 10.0
         == (python + leadership + web + data) as real
  {
    var ws := SliderWeights(python, leadership, web, data);
    assert ws[1..][1..][1..][1..] == [];
  }

  /** The total weight is zero exactly when every slider is at 0. */
  lemma SliderTotalZeroIff(python: Slider, leadership: Slider, web: Slider, data: Slider)
    ensures Scoring.TotalWeight(SliderWeights(python, leadership, web, data)) == 0.0
        <==> python == 0 && leadership == 0 && web == 0 && data == 0
  {
    SliderTotal(python, leadership, web, data);
  }

  /** With every slider at 0, every score computation of the app fails. */
  lemma AllSlidersZeroFails(skills: map<string, nat>, jobSkills: map<string, nat>)
    ensures Scoring.ScoreCandidate(skills, jobSkills, Scoring.Some(SliderWeights(0, 0, 0, 0)))
         == Scoring.Err(Scoring.ZeroTotalWeight)
  {
    SliderTotalZeroIff(0, 0, 0, 0);
  }

  /** With some slider above 0, every score is computed and lies between 0 and
      ten times the largest count of the four categories. */
  lemma SomeSliderScores(python: Slider, leadership: Slider, web: Slider, data: Slider,
                         skills: map<string, nat>, jobSkills: map<string, nat>)
    requires python != 0 || leadership != 0 || web != 0 || data != 0
    ensures var ws := SliderWeights(python, leadership, web, data);
      var r := Scoring.ScoreCandidate(skills, jobSkills, Scoring.Some(ws));
      && r.Ok?
      && 0.0 <= r.value <= 10.0 * Scoring.MaxCount(skills, ws) as real
  {
    var ws := SliderWeights(python, leadership, web, data);
    SliderTotal(python, leadership, web, data);
    Scoring.ScoreBounds(skills, jobSkills, ws);
  }

  // ---------------------------------------------------------------------------
  // Uploads
  // ---------------------------------------------------------------------------

  /** An uploaded file: its name and its decoded text. */
  datatype Upload = Upload(name: string, content: string)

  /** A processed resume, as the upload tab stores it. */
  datatype Resume = Resume(filename: string, content: string, cleaned: string, skills: map<string, nat>)

  /** `not content.strip()`: the text has nothing but whitespace. */
  predicate IsBlank(cc: Text.CharClasses, s: string)
  {
    forall i :: 0 <= i < |s| ==> cc.isSpace(s[i])
  }

  /** The uploads that are kept. */
  function HasText(cc: Text.CharClasses): Upload -> bool
  {
    (u: Upload) => !IsBlank(cc, u.content)
  }

  /** The record stored for an upload. */
  function Analyze(cc: Text.CharClasses, stopWords: set<string>, u: Upload): Resume
  {
    Resume(u.name, u.content, Text.CleanResume(cc, stopWords, u.content), Skills.ExtractSkills(cc, stopWords, u.content))
  }

  /** The upload loop: blank uploads are skipped, the others analysed in order. */
  function IngestUploads(cc: Text.CharClasses, stopWords: set<string>, uploads: seq<Upload>): (resumes: seq<Resume>)
    ensures |resumes| <= |uploads|
    ensures forall k :: 0 <= k < |resumes| ==> !IsBlank(cc, resumes[k].content)
  {
    var kept := Seqs.Filter(HasText(cc), uploads);
    seq(|kept|, k requires 0 <= k < |kept| => Analyze(cc, stopWords, kept[k]))
  }

  /** The stored resumes are the analyses of exactly the non-blank uploads, in
      upload order: an upload is kept if and only if its text is not blank. */
  lemma IngestExactly(cc: Text.CharClasses, stopWords: set<string>, uploads: seq<Upload>)
    ensures var idx := Seqs.Positions(HasText(cc), uploads);
      var resumes := IngestUploads(cc, stopWords, uploads);
      && |resumes| == |idx|
      && (forall i :: 0 <= i < |idx| ==> idx[i] < |uploads| && resumes[i] == Analyze(cc, stopWords, uploads[idx[i]]))
      && (forall i, j :: 0 <= i < j < |idx| ==> idx[i] < idx[j])
      && (forall j :: 0 <= j < |uploads| ==> (j in idx <==> !IsBlank(cc, uploads[j].content)))
  {
    Seqs.FilterSelectsExactly(HasText(cc), uploads);
  }

  /** Nothing is stored exactly when every upload is blank. */
  lemma IngestNothingIffAllBlank(cc: Text.CharClasses, stopWords: set<string>, uploads: seq<Upload>)
    ensures IngestUploads(cc, stopWords, uploads) == [] <==> forall j :: 0 <= j < |uploads| ==> IsBlank(cc, uploads[j].content)
  {
    IngestExactly(cc, stopWords, uploads);
    var idx := Seqs.Positions(HasText(cc), uploads);
    if idx != [] {
      assert !IsBlank(cc, uploads[idx[0]].content);
    }
    if !(forall j :: 0 <= j < |uploads| ==> IsBlank(cc, uploads[j].content)) {
      var j :| 0 <= j < |uploads| && !IsBlank(cc, uploads[j].content);
      assert j in idx;
    }
  }

  /** The skipped uploads would have cleaned to the empty text anyway. */
  lemma BlankCleansToEmpty(cc: Text.CharClasses, stopWords: set<string>, u: Upload)
    requires Text.Valid(cc)
    requires IsBlank(cc, u.content)
    ensures Text.CleanResume(cc, stopWords, u.content) == ""
  {
    Text.CleanBlank(cc, stopWords, u.content);
  }

  // ---------------------------------------------------------------------------
  // The analysis table
  // ---------------------------------------------------------------------------

  /** One row of the analysis table. */
  datatype TableRow = TableRow(resume: string, score: real, python: nat, leadership: nat, web: nat, data: nat)

  /** The row of one resume with its score; absent categories read as 0. */
  function Row(r: Resume, score: real): TableRow
  {
    TableRow(r.filename, score,
             Scoring.CountOf(r.skills, "python"), Scoring.CountOf(r.skills, "leadership"),
             Scoring.CountOf(r.skills, "web"), Scoring.CountOf(r.skills, "data"))
  }

  /** The scores and rows of the analysis tab. The scoring call raises on the
      first resume when the weights total zero. */
  function AnalysisTable(resumes: seq<Resume>, weights: Scoring.Weights): (r: Scoring.Result<seq<TableRow>>)
    ensures r.Err? <==> |resumes| > 0 && Scoring.TotalWeight(weights) == 0.0
    ensures r.Ok? ==> |r.value| == |resumes|
    ensures r.Ok? ==> forall k :: 0 <= k < |resumes| ==>
      Scoring.ScoreCandidate(resumes[k].skills, map[], Scoring.Some(weights)) == Scoring.Ok(r.value[k].score)
      && r.value[k] == Row(resumes[k], r.value[k].score)
  {
    if |resumes| == 0 then Scoring.Ok([])
    else
      match Scoring.ScoreCandidate(resumes[0].skills, map[], Scoring.Some(weights))
      case Err(e) => Scoring.Err(e)
      case Ok(s) =>
        match AnalysisTable(resumes[1..], weights)
        case Err(e) => Scoring.Err(e)
        case Ok(rows) => Scoring.Ok([Row(resumes[0], s)] + rows)
  }

  /** For an extracted skills map, a category's column is 0 exactly when the
      category was not found, and otherwise shows its count. */
  lemma ColumnsDefaultToZero(cc: Text.CharClasses, stopWords: set<string>, u: Upload, score: real)
    ensures var r := Analyze(cc, stopWords, u);
      var row := Row(r, score);
      && (row.python == 0 <==> "python" !in r.skills)
      && (row.leadership == 0 <==> "leadership" !in r.skills)
      && (row.web == 0 <==> "web" !in r.skills)
      && (row.data == 0 <==> "data" !in r.skills)
      && ("python" in r.skills ==> row.python == r.skills["python"])
      && ("leadership" in r.skills ==> row.leadership == r.skills["leadership"])
      && ("web" in r.skills ==> row.web == r.skills["web"])
      && ("data" in r.skills ==> row.data == r.skills["data"])
      && (forall c :: c in r.skills ==> Scoring.CountOf(r.skills, c) == r.skills[c])
  {
  }

  // ---------------------------------------------------------------------------
  // Skill tags
  // ---------------------------------------------------------------------------

  /** The decimal digit of `d`. */
  function DigitChar(d: nat): (c: char)
    requires d < 10
    ensures '0' <= c <= '9'
    ensures (c as int) - ('0' as int) == d
  {
    (d + '0' as int) as char
  }

  /** `str(n)`: the decimal numeral of `n`, without leading zeros. */
  function NatToString(n: nat): (s: string)
    ensures |s| >= 1
    ensures forall i :: 0 <= i < |s| ==> '0' <= s[i] <= '9'
    ensures |s| > 1 ==> s[0] != '0'
    decreases n
  {
    if n < 10 then [DigitChar(n)] else NatToString(n / 10) + [DigitChar(n % 10)]
  }

  /** The value of a decimal numeral. */
  function ParseNat(s: string): nat
    requires forall i :: 0 <= i < |s| ==> '0' <= s[i] <= '9'
  {
    if |s| == 0 then 0
    else ParseNat(s[..|s| - 1]) * 10 + ((s[|s| - 1] as int) - ('0' as int))
  }

  /** Reading a numeral back gives the number it was written from. */
  lemma {:induction false} ParseNatToString(n: nat)
    ensures ParseNat(NatToString(n)) == n
    decreases n
  {
    var s := NatToString(n);
    if n >= 10 {
      ParseNatToString(n / 10);
      assert s[..|s| - 1] == NatToString(n / 10);
    }
  }

  /** The tag `f"{category}: {count}"`. */
  function Tag(category: string, count: nat): string
  {
    category + ": " + NatToString(count)
  }

  /** Two tags of one category are equal only for equal counts. */
  lemma TagCountInjective(category: string, n1: nat, n2: nat)
    ensures Tag(category, n1) == Tag(category, n2) <==> n1 == n2
  {
    if Tag(category, n1) == Tag(category, n2) {
      var k := |category| + 2;
      assert Tag(category, n1)[k..] == NatToString(n1);
      assert Tag(category, n2)[k..] == NatToString(n2);
      ParseNatToString(n1);
      ParseNatToString(n2);
    }
  }

  /** Tags of the four categories name their category and count: distinct
      pairs give distinct tags. */
  lemma TagInjective(c1: string, n1: nat, c2: string, n2: nat)
    requires c1 in Skills.CategoryNames && c2 in Skills.CategoryNames
    ensures Tag(c1, n1) == Tag(c2, n2) <==> c1 == c2 && n1 == n2
  {
    if Tag(c1, n1) == Tag(c2, n2) {
      assert Tag(c1, n1)[0] == c1[0] && Tag(c2, n2)[0] == c2[0];
      assert c1 == c2;
      TagCountInjective(c1, n1, n2);
    }
  }

  /** The tags of one resume. */
  function TagsOf(skills: map<string, nat>): set<string>
  {
    set c | c in skills :: Tag(c, skills[c])
  }

  /** `set(skill_phrases)`: every tag of every resume. */
  function TagSet(resumes: seq<Resume>): set<string>
  {
    if |resumes| == 0 then {} else TagsOf(resumes[0].skills) + TagSet(resumes[1..])
  }

  /** `len(skill_phrases)`: one phrase per (resume, category) entry. */
  function PhraseCount(resumes: seq<Resume>): nat
  {
    if |resumes| == 0 then 0 else |resumes[0].skills| + PhraseCount(resumes[1..])
  }

  /** The "Unique Skill Tags" metric. */
  function UniqueSkillTags(resumes: seq<Resume>): nat
  {
    |TagSet(resumes)|
  }

  /** A tag is counted exactly when some resume has that category with that count. */
  lemma {:induction false} TagSetMembers(resumes: seq<Resume>, t: string)
    ensures t in TagSet(resumes) <==>
      exists k, c :: 0 <= k < |resumes| && c in resumes[k].skills && t == Tag(c, resumes[k].skills[c])
  {
    if |resumes| > 0 {
      TagSetMembers(resumes[1..], t);
      if t in TagSet(resumes[1..]) {
        var k, c :| 0 <= k < |resumes[1..]| && c in resumes[1..][k].skills && t == Tag(c, resumes[1..][k].skills[c]);
        assert resumes[k + 1] == resumes[1..][k];
      }
      if exists k, c :: 0 <= k < |resumes| && c in resumes[k].skills && t == Tag(c, resumes[k].skills[c]) {
        var k, c :| 0 <= k < |resumes| && c in resumes[k].skills && t == Tag(c, resumes[k].skills[c]);
        if k > 0 {
          assert resumes[1..][k - 1] == resumes[k];
        }
      }
    }
  }

  /** A resume has no more tags than skill entries. */
  lemma TagsOfNoLarger(skills: map<string, nat>)
    ensures |TagsOf(skills)| <= |skills|
  {
    var f := (c: string) => Tag(c, if c in skills then skills[c] else 0);
    forall t | t in TagsOf(skills)
      ensures exists c :: c in skills.Keys && f(c) == t
    {
      var c :| c in skills && t == Tag(c, skills[c]);
      assert f(c) == t;
    }
    Seqs.ImageNoLarger(skills.Keys, f, TagsOf(skills));
    assert |skills.Keys| == |skills|;
  }

  /** The number of distinct tags is at most the number of phrases. */
  lemma {:induction false} UniqueTagsAtMostPhrases(resumes: seq<Resume>)
    ensures UniqueSkillTags(resumes) <= PhraseCount(resumes)
  {
    if |resumes| > 0 {
      UniqueTagsAtMostPhrases(resumes[1..]);
      TagsOfNoLarger(resumes[0].skills);
      Seqs.UnionNoLarger(TagsOf(resumes[0].skills), TagSet(resumes[1..]));
    }
  }

  // ---------------------------------------------------------------------------
  // Recommendation and the batch run
  // ---------------------------------------------------------------------------

  /** The batch verdict. */
  datatype Recommendation = Hire | Review | Reject

  /** `"Hire" if score >= 7 else "Review" if score >= 5 else "Reject"` */
  function Recommend(score: real): (r: Recommendation)
    ensures r == Hire <==> score >= 7.0
    ensures r == Review <==> 5.0 <= score < 7.0
    ensures r == Reject <==> score < 5.0
  {
    if score >= 7.0 then Hire else if score >= 5.0 then Review else Reject
  }

  /** How good a verdict is. */
  function Rank(r: Recommendation): nat
  {
    match r
    case Reject => 0
    case Review => 1
    case Hire => 2
  }

  /** A higher score never gets a worse verdict. */
  lemma RecommendMonotone(a: real, b: real)
    requires a <= b
    ensures Rank(Recommend(a)) <= Rank(Recommend(b))
  {
  }

  /** Thresholds on the unrounded score: rounding to hundredths moves 6.995 up
      to 7.00 and 4.995 up to 5.00 (an odd count of hundredths rounds up). */
  lemma RoundedThresholds(x: real)
    ensures Recommend(Scoring.Round2(x)) == Hire <==> x >= 6.995
    ensures Recommend(Scoring.Round2(x)) == Reject <==> x < 4.995
  {
    RoundedAtLeast(x, 700);
    RoundedAtLeast(x, 500);
  }

  /** `Round2(x)` reaches `m` hundredths, for odd `m - 1`, exactly when `x` is
      at least `m - 0.5` hundredths. */
  lemma RoundedAtLeast(x: real, m: int)
    requires (m - 1) % 2 == 1
    ensures Scoring.Round2(x) * 100.0 >= m as real <==> x * 100.0 >= m as real - 0.5
  {
    var r := Scoring.Round2(x);
    HalfStep(r * 100.0, x * 100.0, (r * 100.0).Floor, m);
  }

  /** The threshold step of `RoundedAtLeast` on plain numbers: `a` is the whole
      number `n` within half of `b`, and an exact half goes to an even `n`. */
  lemma HalfStep(a: real, b: real, n: int, m: int)
    requires a == n as real
    requires -0.5 <= a - b <= 0.5
    requires a - b == 0.5 || b - a == 0.5 ==> n % 2 == 0
    requires (m - 1) % 2 == 1
    ensures a >= m as real <==> b >= m as real - 0.5
  {
    if n == m - 1 {
      assert n % 2 == 1;
      assert a - b != 0.5 && b - a != 0.5;
    }
  }

  /** One result row of the batch run. */
  datatype BatchRow = BatchRow(candidateId: nat, score: real, skills: map<string, nat>, recommendation: Recommendation)

  /** `row` is the batch result for the cell `text` at position `id`: the
      skills extracted from the text, their rounded score and its verdict. */
  predicate IsBatchRow(cc: Text.CharClasses, stopWords: set<string>, weights: Scoring.Weights,
                       id: nat, text: string, row: BatchRow)
  {
    && row.candidateId == id
    && row.skills == Skills.ExtractSkills(cc, stopWords, text)
    && Scoring.ScoreCandidate(row.skills, map[], Scoring.Some(weights)) == Scoring.Ok(row.score)
    && row.recommendation == Recommend(row.score)
  }

  /** The batch loop over the `resume_text` cells: one row per cell, numbered by
      position, or the error of the first scoring call when the weights total zero. */
  method BatchProcess(cc: Text.CharClasses, stopWords: set<string>, texts: seq<string>, weights: Scoring.Weights)
    returns (r: Scoring.Result<seq<BatchRow>>)
    ensures r.Err? <==> |texts| > 0 && Scoring.TotalWeight(weights) == 0.0
    ensures r.Ok? ==> |r.value| == |texts|
    ensures r.Ok? ==> forall i :: 0 <= i < |texts| ==> IsBatchRow(cc, stopWords, weights, i, texts[i], r.value[i])
  {
    var rows: seq<BatchRow> := [];
    var i := 0;
    while i < |texts|
      invariant 0 <= i <= |texts|
      invariant |rows| == i
      invariant i > 0 ==> Scoring.TotalWeight(weights) != 0.0
      invariant forall j :: 0 <= j < i ==> IsBatchRow(cc, stopWords, weights, j, texts[j], rows[j])
    {
      var skills := Skills.ExtractSkills(cc, stopWords, texts[i]);
      var score := Scoring.ScoreCandidate(skills, map[], Scoring.Some(weights));
      if score.Err? {
        return Scoring.Err(score.error);
      }
      var row := BatchRow(i, score.value, skills, Recommend(score.value));
      assert IsBatchRow(cc, stopWords, weights, i, texts[i], row);
      rows := rows + [row];
      i := i + 1;
    }
    return Scoring.Ok(rows);
  }
}
