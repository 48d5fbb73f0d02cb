/**
 * The learning-gap detector. For one student's attempts it finds
 *   - concept gaps: topics with at least three attempts and accuracy below 0.6,
 *     each with a breakdown of its mistakes by time band and a gap type;
 *   - a confidence gap: slow attempts (above 1.5 times the mean time) that are
 *     mostly wrong;
 *   - a speed gap: more than two fast attempts (below half the mean time) of
 *     which more than 40% are wrong;
 * merges them into one ordered map and scores the student between 0 and 1.
 */
module GapDetector {
  import opened Wrappers
  import opened Text
  import opened OrderedDict
  import opened Attempts

  /** The only attempt threshold the detector uses. */
  const MinAttempts: nat := 3

  /** The band a mistake falls in, by its time against the topic's mean and standard deviation. */
  datatype DifficultyLabel = Easy | Moderate | Hard | NoMistakes | UnknownLabel

  /** `difficulty_mistakes`: the wrong answers counted per band. `totalMistakes`
      is absent in the two early returns of the source. */
  datatype Breakdown = Breakdown(
    easy: nat,
    moderate: nat,
    hard: nat,
    totalMistakes: Option<nat>,
    mostFrequent: DifficultyLabel)

  datatype GapType = Conceptual | Theoretical | UnknownType

  /** What distinguishes the three kinds of finding. The descriptions of the
      source are formatted from `topic`/`accuracy` and from `rate`/`slowFrom`. */
  datatype Details =
    | ConceptDetails(topic: string, accuracy: real, breakdown: Breakdown, gapType: GapType)
    | ConfidenceDetails(slowFrom: real)
    | SpeedDetails

  /** One entry of the gap map. `score` is `confidence` for concept and speed
      gaps and `hesitation_severity` for the confidence gap. The detector never
      sets `trend` or `expected_impact`; other producers of gap maps may. */
  datatype Finding = Finding(
    severity: string,
    score: real,
    affected: nat,
    details: Details,
    trend: Option<string>,
    expectedImpact: Option<real>)

  /** The result of `analyze_student`. */
  datatype Analysis = Analysis(
    totalAttempts: nat,
    correctAnswers: nat,
    accuracy: real,
    avgTime: real,
    gaps: Dict<Finding>,
    overallScore: real,
    studentId: string)

  // ---------------------------------------------------------------- severity

  /** Severity from an accuracy: below 0.4 high, below 0.7 medium, else low. */
  function SeverityFromAccuracy(accuracy: real): (s: string)
    ensures s == "high" <==> accuracy < 0.4
    ensures s == "medium" <==> 0.4 <= accuracy < 0.7
    ensures s == "low" <==> accuracy >= 0.7
  {
    if accuracy < 0.4 then "high"
    else if accuracy < 0.7 then "medium"
    else "low"
  }

  // ---------------------------------------------------------------- mistake breakdown

  /** The tests that put a mistake in a band, against the times of its topic. */
  function FastTest(ts: seq<real>): Test { FastAgainst(ts, false) }
  function SlowTest(ts: seq<real>): Test { SlowAgainst(ts, false) }
  function MiddleTest(ts: seq<real>): Test { And(Not(FastTest(ts)), Not(SlowTest(ts))) }

  /** `max(counts, key=counts.get)` over the keys easy, moderate, hard: the
      first band holding the largest count. */
  function MostFrequent(easy: nat, moderate: nat, hard: nat): (l: DifficultyLabel)
    ensures l == Easy <==> easy >= moderate && easy >= hard
    ensures l == Moderate <==> moderate > easy && moderate >= hard
    ensures l == Hard <==> hard > easy && hard > moderate
  {
    if easy >= moderate && easy >= hard then Easy
    else if moderate >= hard then Moderate
    else Hard
  }

  /** `_analyze_mistake_difficulty` on a topic's rows. */
  function MistakeBreakdown(cols: set<Column>, rows: seq<Attempt>): Breakdown {
    if TimeTakenCol !in cols then Breakdown(0, 0, 0, None, UnknownLabel)
    else
      var ts := Times(rows);
      var wrong := Select(rows, IsWrong);
      if |wrong| == 0 then Breakdown(0, 0, 0, None, NoMistakes)
      else
        var e := Count(wrong, FastTest(ts));
        var m := Count(wrong, MiddleTest(ts));
        var h := Count(wrong, SlowTest(ts));
        Breakdown(e, m, h, Some(|wrong|), MostFrequent(e, m, h))
  }

  /** A time is never both below mean - std and above mean + std. */
  lemma FastNotSlow(a: Attempt, ts: seq<real>)
    ensures !(Holds(a, FastTest(ts)) && Holds(a, SlowTest(ts)))
  {
  }

  /** The band tests in the terms of the source's comparisons. */
  lemma BandTests(a: Attempt, ts: seq<real>)
    ensures Holds(a, FastTest(ts)) == StdLess(ts, Mean(ts) - a.time)
    ensures Holds(a, SlowTest(ts)) == StdLess(ts, a.time - Mean(ts))
    ensures Holds(a, MiddleTest(ts)) == (!Holds(a, FastTest(ts)) && !Holds(a, SlowTest(ts)))
  {
  }

  /** Every row is in exactly one band. */
  lemma {:induction false} BandsPartition(rows: seq<Attempt>, ts: seq<real>)
    ensures Count(rows, FastTest(ts)) + Count(rows, MiddleTest(ts)) + Count(rows, SlowTest(ts)) == |rows|
  {
    if rows != [] {
      BandsPartition(rows[..|rows| - 1], ts);
      CountLast(rows, FastTest(ts));
      CountLast(rows, MiddleTest(ts));
      CountLast(rows, SlowTest(ts));
      FastNotSlow(rows[|rows| - 1], ts);
    }
  }

  /** The bands add up to the mistakes, and `total_mistakes` is the number of
      wrong attempts, whenever the breakdown is computed. */
  lemma BreakdownTotals(cols: set<Column>, rows: seq<Attempt>)
    ensures var b := MistakeBreakdown(cols, rows);
            b.totalMistakes.Some? ==>
              b.easy + b.moderate + b.hard == b.totalMistakes.value == Count(rows, IsWrong)
    ensures var b := MistakeBreakdown(cols, rows);
            b.totalMistakes.None? ==> b.easy == b.moderate == b.hard == 0
    ensures TimeTakenCol in cols && Count(rows, IsWrong) > 0 <==> MistakeBreakdown(cols, rows).totalMistakes.Some?
  {
    if TimeTakenCol in cols {
      BandsPartition(Select(rows, IsWrong), Times(rows));
    }
  }

  /** The counting loop of `_analyze_mistake_difficulty`. */
  method AnalyzeMistakeDifficulty(cols: set<Column>, rows: seq<Attempt>) returns (b: Breakdown)
    ensures b == MistakeBreakdown(cols, rows)
  {
    if TimeTakenCol !in cols {
      return Breakdown(0, 0, 0, None, UnknownLabel);
    }
    var ts := Times(rows);
    var wrong := Select(rows, IsWrong);
    if |wrong| == 0 {
      return Breakdown(0, 0, 0, None, NoMistakes);
    }
    var easy, moderate, hard := 0, 0, 0;
    var i := 0;
    while i < |wrong|
      invariant 0 <= i <= |wrong|
      invariant easy == Count(wrong[..i], FastTest(ts))
      invariant moderate == Count(wrong[..i], MiddleTest(ts))
      invariant hard == Count(wrong[..i], SlowTest(ts))
    {
      var a := wrong[i];
      assert wrong[..i + 1] == wrong[..i] + [a];
      CountAppendOne(wrong[..i], a, FastTest(ts));
      CountAppendOne(wrong[..i], a, MiddleTest(ts));
      CountAppendOne(wrong[..i], a, SlowTest(ts));
      FastNotSlow(a, ts);
      BandTests(a, ts);
      var m := Mean(ts);
      if StdLess(ts, m - a.time) {
        easy := easy + 1;
      } else if StdLess(ts, a.time - m) {
        hard := hard + 1;
      } else {
        moderate := moderate + 1;
      }
      i := i + 1;
    }
    assert wrong[..|wrong|] == wrong;
    b := Breakdown(easy, moderate, hard, Some(|wrong|), MostFrequent(easy, moderate, hard));
  }

  // ---------------------------------------------------------------- gap type

  function AbsReal(x: real): (r: real)
    ensures r >= 0.0 && (r == x || r == -x)
  {
    if x < 0.0 then -x else x
  }

  /** `_classify_gap_type`: an ordered decision list; the first guard that
      holds decides. The standard deviation is replaced by 1 when it is 0.
      The easy, hard and overall accuracies are means of the stored Correct
      values, while mistakes are the rows whose value is 0. */
  function ClassifyGapType(cols: set<Column>, rows: seq<Attempt>): GapType {
    if |rows| < 3 then UnknownType
    else
      var wrong := Select(rows, IsWrong);
      if |wrong| < 1 then Theoretical
      else if TimeTakenCol !in cols then UnknownType
      else
        var ts := Times(rows);
        var easyAll := Select(rows, FastAgainst(ts, true));
        var hardAll := Select(rows, SlowAgainst(ts, true));
        var easyAcc := MeanCorrect(easyAll);
        var hardAcc := MeanCorrect(hardAll);
        var progression := easyAcc - hardAcc;
        if |easyAll| > 1 && |hardAll| > 1 && easyAcc > 0.5 && hardAcc < 0.5 && progression > 0.2 then Theoretical
        else if |easyAll| > 1 && |hardAll| > 1 && AbsReal(easyAcc - hardAcc) < 0.2 then Conceptual
        else
          var highRatio := Ratio(Count(wrong, SlowAgainst(ts, true)), |wrong|);
          var lowRatio := Ratio(Count(wrong, FastAgainst(ts, true)), |wrong|);
          if highRatio > 0.5 && lowRatio < 0.2 then Conceptual
          else if lowRatio > 0.4 && highRatio < 0.3 then Theoretical
          else if MeanCorrect(rows) < 0.35 then Conceptual
          else Theoretical
  }

  /** The gap type is Unknown exactly when there are fewer than three attempts,
      or when there are mistakes but no Time_Taken column; a topic without
      mistakes is Theoretical. */
  lemma ClassifyUnknown(cols: set<Column>, rows: seq<Attempt>)
    ensures ClassifyGapType(cols, rows) == UnknownType
        <==> |rows| < 3 || (Count(rows, IsWrong) > 0 && TimeTakenCol !in cols)
    ensures |rows| >= 3 && Count(rows, IsWrong) == 0 ==> ClassifyGapType(cols, rows) == Theoretical
  {
    assert Count(rows, IsWrong) == |Select(rows, IsWrong)|;
  }

  /** A topic where every attempt is wrong and whose slow and fast groups both
      hold more than one attempt is Conceptual: both groups have accuracy 0. */
  lemma AllWrongIsConceptual(cols: set<Column>, rows: seq<Attempt>)
    requires |rows| >= 3 && TimeTakenCol in cols
    requires Count(rows, IsWrong) == |rows|
    requires Count(rows, FastAgainst(Times(rows), true)) > 1 && Count(rows, SlowAgainst(Times(rows), true)) > 1
    ensures ClassifyGapType(cols, rows) == Conceptual
  {
    var ts := Times(rows);
    NoneCorrectWhenAllWrong(rows, FastAgainst(ts, true));
    NoneCorrectWhenAllWrong(rows, SlowAgainst(ts, true));
  }

  /** Three rows of one topic, timed alike, storing 2, 0 and 0 as Correct. */
  const SummedRows := [Attempt("s", "q", "t", 2, 10.0, 0), Attempt("s", "q", "t", 0, 10.0, 0),
                       Attempt("s", "q", "t", 0, 10.0, 0)]

  /** Their sum is 2, yet none of them counts as correct. */
  lemma SummedRowsCounts()
    ensures CorrectSum(SummedRows) == 2 && Count(SummedRows, IsCorrect) == 0 && Count(SummedRows, IsWrong) == 2
  {
    var rows := SummedRows;
    assert rows[..2][..1] == rows[..1] && rows[..1][..0] == [];
    assert CorrectSum(rows[..1]) == 2 && CorrectSum(rows[..2]) == 2;
    SelectNone(rows, IsCorrect);
    assert Select(rows[..1], IsWrong) == [];
  }

  /** The accuracies add up the stored values: in three equally timed rows
      storing 2, 0 and 0 no row counts as correct, yet the overall mean is
      2/3 and the topic is Theoretical. */
  lemma SummedCorrectExample()
    ensures Count(SummedRows, IsCorrect) == 0 && ClassifyGapType({TimeTakenCol}, SummedRows) == Theoretical
  {
    SummedRowsCounts();
    EqualTimesNoSpread(SummedRows);
    NoSpreadDecidedByMean({TimeTakenCol}, SummedRows);
    assert MeanCorrect(SummedRows) * 3.0 == 2.0;
  }

  /** With mistakes but no attempt faster or slower than one standard deviation
      from the mean (equal times, say), only the mean of the stored Correct
      values decides: Conceptual below 0.35, Theoretical otherwise. */
  lemma NoSpreadDecidedByMean(cols: set<Column>, rows: seq<Attempt>)
    requires |rows| >= 3 && TimeTakenCol in cols && Count(rows, IsWrong) > 0
    requires Count(rows, FastAgainst(Times(rows), true)) == 0 && Count(rows, SlowAgainst(Times(rows), true)) == 0
    ensures ClassifyGapType(cols, rows) == if MeanCorrect(rows) < 0.35 then Conceptual else Theoretical
  {
    var ts := Times(rows);
    SelectNarrowEmpty(rows, IsWrong, FastAgainst(ts, true));
    SelectNarrowEmpty(rows, IsWrong, SlowAgainst(ts, true));
  }

  /** When every row is wrong, every selection sums to 0. */
  lemma {:induction false} NoneCorrectWhenAllWrong(rows: seq<Attempt>, t: Test)
    requires Count(rows, IsWrong) == |rows|
    ensures CorrectSum(Select(rows, t)) == 0
  {
    if rows != [] {
      var prefix := rows[..|rows| - 1];
      var x := rows[|rows| - 1];
      CountLast(rows, IsWrong);
      NoneCorrectWhenAllWrong(prefix, t);
      if Holds(x, t) {
        var s := Select(prefix, t);
        assert Select(rows, t) == s + [x];
        assert (s + [x])[..|s|] == s;
      } else {
        assert Select(rows, t) == Select(prefix, t);
      }
    }
  }

  // ---------------------------------------------------------------- concept gaps

  /** The key of a topic's concept gap: `concept_gap_` and the topic in lower
      case with spaces replaced by underscores. */
  function GapKey(topic: string): (k: string)
    ensures StartsWith(k, "concept_gap_")
    ensures |k| == 12 + |topic|
  {
    "concept_gap_" + ReplaceChar(Lower(topic), ' ', '_')
  }

  function TopicAccuracy(rows: seq<Attempt>, topic: string): (acc: real)
    ensures 0.0 <= acc <= 1.0
  {
    var g := Group(rows, TopicField, topic);
    Ratio(Count(g, IsCorrect), |g|)
  }

  /** A topic is a concept gap when it has at least three attempts and an accuracy below 0.6. */
  predicate Qualifies(rows: seq<Attempt>, topic: string) {
    |Group(rows, TopicField, topic)| >= MinAttempts && TopicAccuracy(rows, topic) < 0.6
  }

  /** The concept-gap entry of a topic. */
  function ConceptFinding(cols: set<Column>, rows: seq<Attempt>, topic: string): Finding {
    var g := Group(rows, TopicField, topic);
    var acc := TopicAccuracy(rows, topic);
    Finding(SeverityFromAccuracy(acc), 1.0 - acc, |g|,
            ConceptDetails(topic, acc, MistakeBreakdown(cols, g), ClassifyGapType(cols, g)),
            None, None)
  }

  /** The gap map after the loop has visited `topics`. */
  function ConceptGapsOver(cols: set<Column>, rows: seq<Attempt>, topics: seq<string>): Dict<Finding>
    decreases |topics|
  {
    if topics == [] then []
    else
      var d := ConceptGapsOver(cols, rows, topics[..|topics| - 1]);
      var t := topics[|topics| - 1];
      if Qualifies(rows, t) then Put(d, GapKey(t), ConceptFinding(cols, rows, t)) else d
  }

  /** `_detect_concept_gaps`: nothing without a Topic column. */
  function ConceptGaps(f: Frame): Dict<Finding> {
    if TopicCol !in f.columns then [] else ConceptGapsOver(f.columns, f.rows, Groups(f.rows, TopicField))
  }

  /** The loop over the distinct topics. */
  method DetectConceptGaps(f: Frame) returns (gaps: Dict<Finding>)
    ensures gaps == ConceptGaps(f)
  {
    gaps := [];
    if TopicCol !in f.columns {
      return;
    }
    var topics := Groups(f.rows, TopicField);
    var i := 0;
    while i < |topics|
      invariant 0 <= i <= |topics|
      invariant gaps == ConceptGapsOver(f.columns, f.rows, topics[..i])
    {
      var topic := topics[i];
      assert topics[..i + 1][..i] == topics[..i];
      var topicData := Group(f.rows, TopicField, topic);
      if |topicData| >= MinAttempts {
        var topicAccuracy := Ratio(Count(topicData, IsCorrect), |topicData|);
        if topicAccuracy < 0.6 {
          var difficulty := AnalyzeMistakeDifficulty(f.columns, topicData);
          var gapType := ClassifyGapType(f.columns, topicData);
          var finding := Finding(SeverityFromAccuracy(topicAccuracy), 1.0 - topicAccuracy,
                                 |topicData|, ConceptDetails(topic, topicAccuracy, difficulty, gapType), None, None);
          assert Qualifies(f.rows, topic) && finding == ConceptFinding(f.columns, f.rows, topic);
          gaps := Put(gaps, GapKey(topic), finding);
        } else {
          assert !Qualifies(f.rows, topic);
        }
      } else {
        assert !Qualifies(f.rows, topic);
      }
      i := i + 1;
    }
    assert topics[..|topics|] == topics;
  }

  /** A key is in the concept-gap map exactly when some visited topic qualifies
      and has that key; every entry is the finding of such a topic; no key
      occurs twice. */
  lemma {:induction false} ConceptGapsOverShape(cols: set<Column>, rows: seq<Attempt>, topics: seq<string>)
    ensures GapsShape(cols, rows, topics, ConceptGapsOver(cols, rows, topics))
    decreases |topics|
  {
    if topics != [] {
      ConceptGapsOverShape(cols, rows, topics[..|topics| - 1]);
      GapsShapeStep(cols, rows, topics);
    }
  }

  /** The gap map after visiting `topics`: distinct keys, a key exactly for each
      qualifying topic, and each entry the finding of a qualifying topic. */
  ghost predicate GapsShape(cols: set<Column>, rows: seq<Attempt>, topics: seq<string>, d: Dict<Finding>) {
    DistinctKeys(d) && KeysShape(rows, topics, d) && EntriesShape(cols, rows, topics, d)
  }

  ghost predicate KeysShape(rows: seq<Attempt>, topics: seq<string>, d: Dict<Finding>) {
    forall k :: k in Keys(d) <==> exists t :: t in topics && Qualifies(rows, t) && GapKey(t) == k
  }

  ghost predicate EntriesShape(cols: set<Column>, rows: seq<Attempt>, topics: seq<string>, d: Dict<Finding>) {
    forall e :: e in d ==> exists t :: t in topics && Qualifies(rows, t) && e == (GapKey(t), ConceptFinding(cols, rows, t))
  }

  lemma GapsShapeStep(cols: set<Column>, rows: seq<Attempt>, topics: seq<string>)
    requires topics != []
    requires GapsShape(cols, rows, topics[..|topics| - 1], ConceptGapsOver(cols, rows, topics[..|topics| - 1]))
    ensures GapsShape(cols, rows, topics, ConceptGapsOver(cols, rows, topics))
  {
    var ts := topics[..|topics| - 1];
    var t := topics[|topics| - 1];
    var d := ConceptGapsOver(cols, rows, ts);
    var r := ConceptGapsOver(cols, rows, topics);
    if Qualifies(rows, t) {
      var v := ConceptFinding(cols, rows, t);
      assert r == Put(d, GapKey(t), v);
      KeysStep(rows, topics, d, r, v);
      EntriesStep(cols, rows, topics, d, r);
    } else {
      assert r == d;
      KeysSkip(rows, topics, d);
      EntriesSkip(cols, rows, topics, d);
    }
  }

  lemma KeysStep(rows: seq<Attempt>, topics: seq<string>, d: Dict<Finding>, r: Dict<Finding>, v: Finding)
    requires topics != [] && KeysShape(rows, topics[..|topics| - 1], d)
    requires Qualifies(rows, topics[|topics| - 1]) && r == Put(d, GapKey(topics[|topics| - 1]), v)
    ensures KeysShape(rows, topics, r)
  {
    var t := topics[|topics| - 1];
    assert Keys(r) == Keys(d) || Keys(r) == Keys(d) + [GapKey(t)];
    forall k | k in Keys(r)
      ensures exists u :: u in topics && Qualifies(rows, u) && GapKey(u) == k
    {
      if k != GapKey(t) {
        var u :| u in topics[..|topics| - 1] && Qualifies(rows, u) && GapKey(u) == k;
        assert u in topics;
      }
    }
    forall k | exists u :: u in topics && Qualifies(rows, u) && GapKey(u) == k
      ensures k in Keys(r)
    {
      var u :| u in topics && Qualifies(rows, u) && GapKey(u) == k;
      if u != t {
        assert u in topics[..|topics| - 1];
      }
    }
  }

  lemma KeysSkip(rows: seq<Attempt>, topics: seq<string>, d: Dict<Finding>)
    requires topics != [] && KeysShape(rows, topics[..|topics| - 1], d)
    requires !Qualifies(rows, topics[|topics| - 1])
    ensures KeysShape(rows, topics, d)
  {
    var t := topics[|topics| - 1];
    forall k | k in Keys(d)
      ensures exists u :: u in topics && Qualifies(rows, u) && GapKey(u) == k
    {
      var u :| u in topics[..|topics| - 1] && Qualifies(rows, u) && GapKey(u) == k;
      assert u in topics;
    }
    forall k | exists u :: u in topics && Qualifies(rows, u) && GapKey(u) == k
      ensures k in Keys(d)
    {
      var u :| u in topics && Qualifies(rows, u) && GapKey(u) == k;
      assert u != t;
      assert u in topics[..|topics| - 1];
    }
  }

  lemma EntriesStep(cols: set<Column>, rows: seq<Attempt>, topics: seq<string>, d: Dict<Finding>, r: Dict<Finding>)
    requires topics != [] && EntriesShape(cols, rows, topics[..|topics| - 1], d)
    requires var t := topics[|topics| - 1];
             Qualifies(rows, t) && r == Put(d, GapKey(t), ConceptFinding(cols, rows, t))
    ensures EntriesShape(cols, rows, topics, r)
  {
    var t := topics[|topics| - 1];
    forall e | e in r
      ensures exists u :: u in topics && Qualifies(rows, u) && e == (GapKey(u), ConceptFinding(cols, rows, u))
    {
      if e != (GapKey(t), ConceptFinding(cols, rows, t)) {
        var u :| u in topics[..|topics| - 1] && Qualifies(rows, u) && e == (GapKey(u), ConceptFinding(cols, rows, u));
        assert u in topics;
      }
    }
  }

  lemma EntriesSkip(cols: set<Column>, rows: seq<Attempt>, topics: seq<string>, d: Dict<Finding>)
    requires topics != [] && EntriesShape(cols, rows, topics[..|topics| - 1], d)
    ensures EntriesShape(cols, rows, topics, d)
  {
    forall e | e in d
      ensures exists u :: u in topics && Qualifies(rows, u) && e == (GapKey(u), ConceptFinding(cols, rows, u))
    {
      var u :| u in topics[..|topics| - 1] && Qualifies(rows, u) && e == (GapKey(u), ConceptFinding(cols, rows, u));
      assert u in topics;
    }
  }

  /** Every concept gap comes from a topic of the frame with at least three
      attempts and accuracy below 0.6, and every such topic gives its key. */
  lemma ConceptGapsShape(f: Frame)
    ensures var d := ConceptGaps(f);
            DistinctKeys(d)
            && (forall k :: k in Keys(d) <==> TopicCol in f.columns && exists t :: t in Groups(f.rows, TopicField) && Qualifies(f.rows, t) && GapKey(t) == k)
            && (forall e :: e in d ==> exists t :: t in Groups(f.rows, TopicField) && Qualifies(f.rows, t) && e == (GapKey(t), ConceptFinding(f.columns, f.rows, t)))
  {
    if TopicCol in f.columns {
      ConceptGapsOverShape(f.columns, f.rows, Groups(f.rows, TopicField));
    }
  }

  /** A concept finding: severity high exactly below 0.4 accuracy and medium
      otherwise (low is out of reach below 0.6), confidence 1 - accuracy, the
      topic's attempt count as affected questions, and, when Time_Taken is
      present, a computed breakdown whose bands add up to the mistakes and a
      gap type that is not Unknown. */
  lemma ConceptFindingShape(cols: set<Column>, rows: seq<Attempt>, topic: string)
    requires Qualifies(rows, topic)
    ensures var r := ConceptFinding(cols, rows, topic);
            var acc := TopicAccuracy(rows, topic);
            && (r.severity == "high" <==> acc < 0.4)
            && (r.severity == "medium" <==> acc >= 0.4)
            && r.score == 1.0 - acc && 0.4 < r.score <= 1.0
            && r.affected == |Group(rows, TopicField, topic)| >= 3
            && r.details.ConceptDetails?
            && (TimeTakenCol in cols ==> r.details.gapType != UnknownType)
            && (TimeTakenCol in cols && Count(Group(rows, TopicField, topic), IsWrong) > 0 ==>
                  r.details.breakdown.easy + r.details.breakdown.moderate + r.details.breakdown.hard
                  == Count(Group(rows, TopicField, topic), IsWrong))
  {
    var g := Group(rows, TopicField, topic);
    ClassifyUnknown(cols, g);
    BreakdownTotals(cols, g);
  }

  /** The topic rows of a normalized frame: a topic with at least three
      attempts and accuracy below 0.6 has a mistake. */
  lemma QualifyingTopicHasMistakes(rows: seq<Attempt>, topic: string)
    requires Normalized(rows)
    requires Qualifies(rows, topic)
    ensures Count(Group(rows, TopicField, topic), IsWrong) > 0
  {
    var g := Group(rows, TopicField, topic);
    NormalizedSelect(rows, KeyIs(TopicField, topic));
    CorrectPlusWrong(g);
    RatioBelowOne(Count(g, IsCorrect), |g|);
  }

  /** Selecting rows keeps them normalized. */
  lemma {:induction false} NormalizedSelect(rows: seq<Attempt>, t: Test)
    requires Normalized(rows)
    ensures Normalized(Select(rows, t))
  {
    if rows != [] {
      var prefix := rows[..|rows| - 1];
      assert forall i :: 0 <= i < |prefix| ==> prefix[i] == rows[i];
      NormalizedSelect(prefix, t);
    }
  }

  /** A topic whose attempts are all correct yields no concept gap. */
  lemma AllCorrectTopicNoGap(rows: seq<Attempt>, topic: string)
    requires Count(Group(rows, TopicField, topic), IsCorrect) == |Group(rows, TopicField, topic)|
    ensures !Qualifies(rows, topic)
  {
    var g := Group(rows, TopicField, topic);
    if |g| > 0 {
      RatioWhole(|g|);
    }
  }

  // ---------------------------------------------------------------- confidence and speed gaps

  /** `_detect_confidence_gaps`: the attempts slower than 1.5 times the mean,
      when any exist and more than half of them are wrong. */
  function ConfidenceGaps(rows: seq<Attempt>): (r: Dict<Finding>)
    ensures |r| <= 1
    ensures forall e :: e in r ==> e.0 == "confidence_gap"
  {
    var avg := Mean(Times(rows));
    var slow := Select(rows, TimeAbove(avg * 1.5));
    if |slow| > 0 then
      var rate := Ratio(Count(slow, IsWrong), |slow|);
      if rate > 0.5 then
        [("confidence_gap", Finding(if rate < 0.7 then "medium" else "high", rate, |slow|,
                                    ConfidenceDetails(avg * 1.5), None, None))]
      else []
    else []
  }

  /** `_detect_speed_gaps`: more than two attempts faster than half the mean,
      more than 40% of them wrong. */
  function SpeedGaps(rows: seq<Attempt>): (r: Dict<Finding>)
    ensures |r| <= 1
    ensures forall e :: e in r ==> e.0 == "speed_gap"
  {
    var avg := Mean(Times(rows));
    var fast := Select(rows, TimeBelow(avg * 0.5));
    if |fast| > 2 then
      var ratio := Ratio(Count(fast, IsWrong), |fast|);
      if ratio > 0.4 then [("speed_gap", Finding("medium", ratio, |fast|, SpeedDetails, None, None))]
      else []
    else []
  }

  /** The confidence gap is present exactly when some attempt is slower than
      1.5 times the mean and more than half of those are wrong; its severity
      is high exactly when that rate is at least 0.7, and its score is the rate. */
  lemma ConfidenceGapShape(rows: seq<Attempt>)
    ensures var avg := Mean(Times(rows));
            var slow := Select(rows, TimeAbove(avg * 1.5));
            var rate := Ratio(Count(slow, IsWrong), |slow|);
            (ConfidenceGaps(rows) != [] <==> |slow| > 0 && rate > 0.5)
            && (ConfidenceGaps(rows) != [] ==>
                  var g := ConfidenceGaps(rows)[0].1;
                  (g.severity == "high" <==> rate >= 0.7) && (g.severity == "medium" <==> rate < 0.7)
                  && g.score == rate && 0.5 < g.score <= 1.0 && g.affected == |slow| > 0)
  {
  }

  /** The speed gap is present exactly when more than two attempts are faster
      than half the mean and more than 40% of those are wrong; it is always medium. */
  lemma SpeedGapShape(rows: seq<Attempt>)
    ensures var avg := Mean(Times(rows));
            var fast := Select(rows, TimeBelow(avg * 0.5));
            var ratio := Ratio(Count(fast, IsWrong), |fast|);
            (SpeedGaps(rows) != [] <==> |fast| > 2 && ratio > 0.4)
            && (SpeedGaps(rows) != [] ==>
                  var g := SpeedGaps(rows)[0].1;
                  g.severity == "medium" && g.score == ratio && 0.4 < g.score <= 1.0 && g.affected == |fast| > 2)
  {
  }

  /** When every attempt takes the same time, no attempt is slow or fast
      against the mean, so neither timing gap is reported. */
  lemma UniformTimeNoTimingGaps(rows: seq<Attempt>, c: real)
    requires |rows| > 0 && c > 0.0
    requires forall i :: 0 <= i < |rows| ==> rows[i].time == c
    ensures ConfidenceGaps(rows) == [] && SpeedGaps(rows) == []
  {
    MeanConstant(Times(rows), c);
    NoneSelected(rows, TimeAbove(c * 1.5));
    NoneSelected(rows, TimeBelow(c * 0.5));
    NoSlowNoConfidenceGap(rows);
    NoFastNoSpeedGap(rows);
  }

  lemma NoSlowNoConfidenceGap(rows: seq<Attempt>)
    requires Select(rows, TimeAbove(Mean(Times(rows)) * 1.5)) == []
    ensures ConfidenceGaps(rows) == []
  {
  }

  lemma NoFastNoSpeedGap(rows: seq<Attempt>)
    requires Select(rows, TimeBelow(Mean(Times(rows)) * 0.5)) == []
    ensures SpeedGaps(rows) == []
  {
  }

  lemma {:induction false} NoneSelected(rows: seq<Attempt>, t: Test)
    requires forall i :: 0 <= i < |rows| ==> !Holds(rows[i], t)
    ensures Select(rows, t) == []
  {
    if rows != [] {
      NoneSelected(rows[..|rows| - 1], t);
    }
  }

  // ---------------------------------------------------------------- score and analysis

  function Clamp01(x: real): (r: real)
    ensures 0.0 <= r <= 1.0
    ensures 0.0 <= x <= 1.0 ==> r == x
    ensures x < 0.0 ==> r == 0.0
    ensures x > 1.0 ==> r == 1.0
  {
    if x < 0.0 then 0.0 else if x > 1.0 then 1.0 else x
  }

  /** The consistency bonus: 0.05 when the standard deviation of the times is
      below half their mean (never for a single attempt, whose deviation is NaN). */
  function ConsistencyBonus(cols: set<Column>, ts: seq<real>): (b: real)
    ensures b == 0.0 || b == 0.05
    ensures b == 0.05 <==> TimeTakenCol in cols && StdLess(ts, Mean(ts) * 0.5)
    ensures |ts| < 2 ==> b == 0.0
  {
    if TimeTakenCol in cols && StdLess(ts, Mean(ts) * 0.5) then 0.05 else 0.0
  }

  /** `_calculate_overall_score` */
  function OverallScore(accuracy: real, numGaps: nat, cols: set<Column>, ts: seq<real>): (s: real)
    ensures 0.0 <= s <= 1.0
  {
    Clamp01(accuracy - 0.1 * numGaps as real + ConsistencyBonus(cols, ts))
  }

  /** The score is accuracy minus 0.1 per gap plus the bonus whenever that lies
      in [0, 1], and each further gap can only lower it. */
  lemma OverallScoreShape(accuracy: real, numGaps: nat, cols: set<Column>, ts: seq<real>)
    ensures var raw := accuracy - 0.1 * numGaps as real + ConsistencyBonus(cols, ts);
            0.0 <= raw <= 1.0 ==> OverallScore(accuracy, numGaps, cols, ts) == raw
    ensures OverallScore(accuracy, numGaps + 1, cols, ts) <= OverallScore(accuracy, numGaps, cols, ts)
    ensures accuracy <= 0.1 * numGaps as real ==> OverallScore(accuracy, numGaps, cols, ts) <= 0.05
  {
  }

  /** `_empty_analysis` */
  const EmptyAnalysis := Analysis(0, 0, 0.0, 0.0, [], 0.0, "Unknown")

  /** The three gap maps merged in the order concept, confidence, speed. */
  function AllGaps(f: Frame): Dict<Finding> {
    Update(Update(ConceptGaps(f), ConfidenceGaps(f.rows)), SpeedGaps(f.rows))
  }

  /** Every concept-gap key starts with `concept_gap_`. */
  lemma ConceptKeysPrefixed(f: Frame)
    ensures forall k :: k in Keys(ConceptGaps(f)) ==> StartsWith(k, "concept_gap_")
    ensures DistinctKeys(ConceptGaps(f))
  {
    ConceptGapsShape(f);
  }

  /** A map of at most one entry, under a key `d` lacks, merges into `d` by concatenation. */
  lemma MergeSingle(d: Dict<Finding>, e: Dict<Finding>, key: string)
    requires DistinctKeys(d) && key !in Keys(d)
    requires |e| <= 1 && forall x :: x in e ==> x.0 == key
    ensures Update(d, e) == d + e
    ensures DistinctKeys(d + e)
    ensures forall k :: k in Keys(d + e) ==> k in Keys(d) || k == key
  {
    if e != [] {
      assert e[0] in e;
      assert Keys(e) == [key];
    }
    UpdateDisjoint(d, e);
    KeysConcat(d, e);
  }

  /** Maps keyed as the three detectors key them merge by concatenation. */
  lemma MergeDetectors(c: Dict<Finding>, cf: Dict<Finding>, s: Dict<Finding>)
    requires DistinctKeys(c) && forall k :: k in Keys(c) ==> StartsWith(k, "concept_gap_")
    requires |cf| <= 1 && forall e :: e in cf ==> e.0 == "confidence_gap"
    requires |s| <= 1 && forall e :: e in s ==> e.0 == "speed_gap"
    ensures Update(Update(c, cf), s) == c + cf + s
    ensures DistinctKeys(c + cf + s)
  {
    assert "confidence_gap" !in Keys(c) by {
      assert "confidence_gap"[3] != "concept_gap_"[3];
    }
    MergeSingle(c, cf, "confidence_gap");
    var ccf := c + cf;
    assert "speed_gap" !in Keys(ccf) by {
      assert "speed_gap"[0] != "concept_gap_"[0];
      assert "speed_gap" != "confidence_gap";
    }
    MergeSingle(ccf, s, "speed_gap");
  }

  /** The keys of the three detectors never collide, so the merge is a plain
      concatenation: concept gaps first, then the confidence gap, then the speed gap. */
  lemma AllGapsConcat(f: Frame)
    ensures AllGaps(f) == ConceptGaps(f) + ConfidenceGaps(f.rows) + SpeedGaps(f.rows)
    ensures DistinctKeys(AllGaps(f))
  {
    ConceptKeysPrefixed(f);
    MergeDetectors(ConceptGaps(f), ConfidenceGaps(f.rows), SpeedGaps(f.rows));
  }

  /** `analyze_student` on one student's frame. The source reads the Correct
      and Time_Taken columns of a non-empty frame unconditionally. */
  function AnalysisOf(f: Frame): (r: Analysis)
    requires f.rows != [] ==> CorrectCol in f.columns && TimeTakenCol in f.columns
  {
    if f.rows == [] then EmptyAnalysis
    else
      var total := |f.rows|;
      var correct := Count(f.rows, IsCorrect);
      var accuracy := Ratio(correct, total);
      var gaps := AllGaps(f);
      Analysis(total, correct, accuracy, Mean(Times(f.rows)), gaps,
               OverallScore(accuracy, |gaps|, f.columns, Times(f.rows)),
               if StudentIdCol in f.columns then f.rows[0].studentId else "Unknown")
  }

  /** `analyze_student` as the detector runs it, calling the concept-gap loop. */
  method AnalyzeStudent(f: Frame) returns (r: Analysis)
    requires f.rows != [] ==> CorrectCol in f.columns && TimeTakenCol in f.columns
    ensures r == AnalysisOf(f)
  {
    if |f.rows| == 0 {
      return EmptyAnalysis;
    }
    var total := |f.rows|;
    var correct := Count(f.rows, IsCorrect);
    var accuracy := Ratio(correct, total);
    var avgTime := Mean(Times(f.rows));
    var conceptGaps := DetectConceptGaps(f);
    var allGaps := Update(Update(conceptGaps, ConfidenceGaps(f.rows)), SpeedGaps(f.rows));
    var score := OverallScore(accuracy, |allGaps|, f.columns, Times(f.rows));
    var studentId := if StudentIdCol in f.columns then f.rows[0].studentId else "Unknown";
    r := Analysis(total, correct, accuracy, avgTime, allGaps, score, studentId);
  }

  /** An empty frame gives the empty analysis: zero metrics, no gaps, score 0
      and student Unknown. */
  lemma EmptyFrameAnalysis(cols: set<Column>)
    ensures var r := AnalysisOf(Frame(cols, []));
            r.totalAttempts == 0 && r.correctAnswers == 0 && r.accuracy == 0.0 && r.avgTime == 0.0
            && r.gaps == [] && r.overallScore == 0.0 && r.studentId == "Unknown"
  {
  }

  /** The metrics of a non-empty frame: the attempts are the rows, the correct
      answers at most the attempts, the accuracy their ratio in [0, 1], the
      score in [0, 1], and as many gaps as the three detectors report. */
  lemma AnalysisMetrics(f: Frame)
    requires f.rows != [] && CorrectCol in f.columns && TimeTakenCol in f.columns
    ensures var r := AnalysisOf(f);
            r.totalAttempts == |f.rows| && r.correctAnswers <= r.totalAttempts
            && 0.0 <= r.accuracy <= 1.0
            && 0.0 <= r.overallScore <= 1.0
            && |r.gaps| == |ConceptGaps(f)| + |ConfidenceGaps(f.rows)| + |SpeedGaps(f.rows)|
            && DistinctKeys(r.gaps)
  {
    var r := AnalysisOf(f);
    assert r.gaps == AllGaps(f);
    assert r.correctAnswers == Count(f.rows, IsCorrect);
    assert r.accuracy == Ratio(r.correctAnswers, |f.rows|);
    AllGapsConcat(f);
  }

  /** The mean time of a normalized frame is at least 10 seconds. */
  lemma NormalizedMean(rows: seq<Attempt>)
    requires rows != [] && Normalized(rows)
    ensures Mean(Times(rows)) >= 10.0
  {
    MeanAtLeast(Times(rows), 10.0);
  }

  /** A student who answers everything correctly in the same time has no gaps
      and the full score of 1. */
  lemma PerfectStudent(f: Frame, c: real)
    requires f.rows != [] && CorrectCol in f.columns && TimeTakenCol in f.columns
    requires c > 0.0
    requires forall i :: 0 <= i < |f.rows| ==> f.rows[i].correct == 1 && f.rows[i].time == c
    ensures AnalysisOf(f).gaps == [] && AnalysisOf(f).overallScore == 1.0
  {
    PerfectStudentNoGaps(f, c);
    AllCorrectCounts(f.rows);
    RatioWhole(|f.rows|);
    var r := AnalysisOf(f);
    assert r.gaps == AllGaps(f);
    assert r.accuracy == 1.0;
    assert r.overallScore == OverallScore(1.0, 0, f.columns, Times(f.rows));
  }

  /** Correct answers in a uniform time give no gap of any kind. */
  lemma PerfectStudentNoGaps(f: Frame, c: real)
    requires f.rows != [] && c > 0.0
    requires forall i :: 0 <= i < |f.rows| ==> f.rows[i].correct == 1 && f.rows[i].time == c
    ensures AllGaps(f) == []
  {
    UniformTimeNoTimingGaps(f.rows, c);
    NoConceptGapsWhenAllCorrect(f);
    AllGapsConcat(f);
  }

  /** A frame of correct answers has no concept gap. */
  lemma NoConceptGapsWhenAllCorrect(f: Frame)
    requires forall i :: 0 <= i < |f.rows| ==> f.rows[i].correct == 1
    ensures ConceptGaps(f) == []
  {
    NoTopicQualifies(f.rows);
    ConceptGapsOverNone(f.columns, f.rows, Groups(f.rows, TopicField));
  }

  /** Topics none of which qualifies give an empty map. */
  lemma {:induction false} ConceptGapsOverNone(cols: set<Column>, rows: seq<Attempt>, topics: seq<string>)
    requires forall i :: 0 <= i < |topics| ==> !Qualifies(rows, topics[i])
    ensures ConceptGapsOver(cols, rows, topics) == []
    decreases |topics|
  {
    if topics != [] {
      ConceptGapsOverNone(cols, rows, topics[..|topics| - 1]);
    }
  }

  /** In a frame of correct answers, every row passes IsCorrect. */
  lemma {:induction false} AllCorrectCounts(rows: seq<Attempt>)
    requires forall i :: 0 <= i < |rows| ==> rows[i].correct == 1
    ensures Count(rows, IsCorrect) == |rows|
  {
    if rows != [] {
      var prefix := rows[..|rows| - 1];
      assert forall i :: 0 <= i < |prefix| ==> prefix[i] == rows[i];
      AllCorrectCounts(prefix);
      CountLast(rows, IsCorrect);
    }
  }

  /** In a frame of correct answers, no topic qualifies. */
  lemma NoTopicQualifies(rows: seq<Attempt>)
    requires forall i :: 0 <= i < |rows| ==> rows[i].correct == 1
    ensures forall t :: !Qualifies(rows, t)
  {
    forall t
      ensures !Qualifies(rows, t)
    {
      var g := Group(rows, TopicField, t);
      SelectedCorrect(rows, KeyIs(TopicField, t));
      AllCorrectCounts(g);
      AllCorrectTopicNoGap(rows, t);
    }
  }

  lemma {:induction false} SelectedCorrect(rows: seq<Attempt>, t: Test)
    requires forall i :: 0 <= i < |rows| ==> rows[i].correct == 1
    ensures forall i :: 0 <= i < |Select(rows, t)| ==> Select(rows, t)[i].correct == 1
  {
    if rows != [] {
      var prefix := rows[..|rows| - 1];
      assert forall i :: 0 <= i < |prefix| ==> prefix[i] == rows[i];
      SelectedCorrect(prefix, t);
    }
  }
}
