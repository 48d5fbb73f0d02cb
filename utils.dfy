/**
 * Per-student metrics: the progress trend between the two halves of the
 * attempts in time order, per-topic statistics and weak topics, and the
 * consistency score of the answer times.
 */
module AnalysisUtils {
  import opened Wrappers
  import opened OrderedDict
  import opened Attempts

  // ---------------------------------------------------------------- progress trend

  /** `get_student_progress_trend`. `halves` holds the first- and second-half
      accuracies, absent for insufficient data. */
  datatype Progress = Progress(trend: string, improvement: real, halves: Option<(real, real)>)

  /** The trend of an accuracy change: more than +0.1 improving, less than
      -0.1 declining, stable in between. */
  function TrendOf(improvement: real): (t: string)
    ensures t == "improving" <==> improvement > 0.1
    ensures t == "declining" <==> improvement < -0.1
    ensures t == "stable" <==> -0.1 <= improvement <= 0.1
  {
    if improvement > 0.1 then "improving"
    else if improvement < -0.1 then "declining"
    else "stable"
  }

  /** `(half['Correct'] == 1).sum() / len(half) if len(half) > 0 else 0` */
  function HalfAccuracy(half: seq<Attempt>): (acc: real)
    ensures 0.0 <= acc <= 1.0
  {
    Ratio(Count(half, IsCorrect), |half|)
  }

  /** The source sorts by the Timestamp column and reads Correct. */
  function ProgressTrend(f: Frame): (p: Progress)
    requires |f.rows| >= 2 ==> TimestampCol in f.columns && CorrectCol in f.columns
  {
    if |f.rows| < 2 then Progress("insufficient_data", 0.0, None)
    else
      var sorted := SortByTimestamp(f.rows);
      var mid := |sorted| / 2;
      var firstAcc := HalfAccuracy(sorted[..mid]);
      var secondAcc := HalfAccuracy(sorted[mid..]);
      var improvement := secondAcc - firstAcc;
      Progress(TrendOf(improvement), improvement, Some((firstAcc, secondAcc)))
  }

  /** Fewer than two attempts: insufficient data and no improvement. */
  lemma ProgressInsufficient(f: Frame)
    requires |f.rows| < 2
    ensures ProgressTrend(f) == Progress("insufficient_data", 0.0, None)
  {
  }

  /** The improvement is the second half's accuracy minus the first's, in
      [-1, 1], and the trend follows its thresholds. */
  lemma ProgressHalves(f: Frame)
    requires |f.rows| >= 2 && TimestampCol in f.columns && CorrectCol in f.columns
    ensures var sorted := SortByTimestamp(f.rows);
            var mid := |f.rows| / 2;
            var a := HalfAccuracy(sorted[..mid]);
            var b := HalfAccuracy(sorted[mid..]);
            var p := ProgressTrend(f);
            && p.halves == Some((a, b))
            && p.improvement == b - a
            && -1.0 <= p.improvement <= 1.0
            && p.trend == TrendOf(p.improvement)
  {
  }

  /** Cutting a sorted sequence: the pieces rejoin, the first piece is not
      later than the second, and the correct answers add up. */
  lemma SplitSorted(sorted: seq<Attempt>, mid: nat)
    requires SortedByTimestamp(sorted) && mid <= |sorted|
    ensures sorted[..mid] + sorted[mid..] == sorted
    ensures forall i, j :: 0 <= i < |sorted[..mid]| && 0 <= j < |sorted[mid..]| ==> sorted[..mid][i].timestamp <= sorted[mid..][j].timestamp
    ensures Count(sorted[..mid], IsCorrect) + Count(sorted[mid..], IsCorrect) == Count(sorted, IsCorrect)
  {
    assert sorted[..mid] + sorted[mid..] == sorted;
    forall i, j | 0 <= i < mid && 0 <= j < |sorted| - mid
      ensures sorted[..mid][i].timestamp <= sorted[mid..][j].timestamp
    {
      assert sorted[..mid][i] == sorted[i] && sorted[mid..][j] == sorted[mid + j];
    }
    SelectAppend(sorted[..mid], sorted[mid..], IsCorrect);
  }

  /** A student who gets everything right is stable, with no improvement. */
  lemma ProgressAllCorrect(f: Frame)
    requires |f.rows| >= 2 && TimestampCol in f.columns && CorrectCol in f.columns
    requires forall i :: 0 <= i < |f.rows| ==> f.rows[i].correct == 1
    ensures ProgressTrend(f).trend == "stable" && ProgressTrend(f).improvement == 0.0
  {
    var sorted := SortByTimestamp(f.rows);
    var mid := |f.rows| / 2;
    CorrectAfterSort(f.rows);
    AllCorrectCount(sorted[..mid]);
    AllCorrectCount(sorted[mid..]);
    RatioWhole(mid);
    RatioWhole(|sorted| - mid);
  }

  /** Sorting keeps every row's value of Correct. */
  lemma CorrectAfterSort(rows: seq<Attempt>)
    requires forall i :: 0 <= i < |rows| ==> rows[i].correct == 1
    ensures forall i :: 0 <= i < |SortByTimestamp(rows)| ==> SortByTimestamp(rows)[i].correct == 1
  {
    var s := SortByTimestamp(rows);
    forall i | 0 <= i < |s|
      ensures s[i].correct == 1
    {
      assert s[i] in multiset(s);
      assert s[i] in multiset(rows);
    }
  }

  lemma {:induction false} AllCorrectCount(rows: seq<Attempt>)
    requires forall i :: 0 <= i < |rows| ==> rows[i].correct == 1
    ensures Count(rows, IsCorrect) == |rows|
  {
    if rows != [] {
      var prefix := rows[..|rows| - 1];
      assert forall i :: 0 <= i < |prefix| ==> prefix[i] == rows[i];
      AllCorrectCount(prefix);
      CountLast(rows, IsCorrect);
    }
  }

  // ---------------------------------------------------------------- topic statistics

  /** One entry of `get_topic_wise_performance`. */
  datatype TopicStats = TopicStats(attempts: nat, correct: nat, accuracy: real, avgTime: real)

  /** The statistics of one topic's rows. */
  function StatsOf(rows: seq<Attempt>, topic: string): TopicStats {
    var g := Group(rows, TopicField, topic);
    var correct := Count(g, IsCorrect);
    TopicStats(|g|, correct, Ratio(correct, |g|), if |g| > 0 then Mean(Times(g)) else 0.0)
  }

  /** The map after the loop has visited `topics`. */
  function TopicStatsOver(rows: seq<Attempt>, topics: seq<string>): Dict<TopicStats>
    decreases |topics|
  {
    if topics == [] then []
    else
      var t := topics[|topics| - 1];
      Put(TopicStatsOver(rows, topics[..|topics| - 1]), t, StatsOf(rows, t))
  }

  /** `get_topic_wise_performance`: {} without a Topic column. */
  function TopicWise(f: Frame): Dict<TopicStats> {
    if TopicCol !in f.columns then [] else TopicStatsOver(f.rows, Groups(f.rows, TopicField))
  }

  /** The loop over the distinct topics. The source reads Correct and
      Time_Taken for every topic. */
  method TopicWisePerformance(f: Frame) returns (topicStats: Dict<TopicStats>)
    requires TopicCol in f.columns && f.rows != [] ==> CorrectCol in f.columns && TimeTakenCol in f.columns
    ensures topicStats == TopicWise(f)
  {
    topicStats := [];
    if TopicCol !in f.columns {
      return;
    }
    var topics := Groups(f.rows, TopicField);
    var i := 0;
    while i < |topics|
      invariant 0 <= i <= |topics|
      invariant topicStats == TopicStatsOver(f.rows, topics[..i])
    {
      var topic := topics[i];
      assert topics[..i + 1][..i] == topics[..i];
      var stats := TopicEntry(f.rows, topic);
      topicStats := Put(topicStats, topic, stats);
      i := i + 1;
    }
    assert topics[..|topics|] == topics;
  }

  /** The loop body: the rows of one topic and their statistics. */
  method TopicEntry(rows: seq<Attempt>, topic: string) returns (stats: TopicStats)
    ensures stats == StatsOf(rows, topic)
  {
    var topicData := Group(rows, TopicField, topic);
    var attempts := |topicData|;
    var correct := Count(topicData, IsCorrect);
    var accuracy := Ratio(correct, attempts);
    var avgTime := if attempts > 0 then Mean(Times(topicData)) else 0.0;
    stats := TopicStats(attempts, correct, accuracy, avgTime);
  }

  /** One entry per topic, in the order given. */
  function Tabulate(rows: seq<Attempt>, topics: seq<string>): (d: Dict<TopicStats>)
    ensures |d| == |topics| && Keys(d) == topics
    ensures forall i :: 0 <= i < |d| ==> d[i] == (topics[i], StatsOf(rows, topics[i]))
  {
    var d := seq(|topics|, i requires 0 <= i < |topics| => (topics[i], StatsOf(rows, topics[i])));
    assert Keys(d) == topics;
    d
  }

  lemma {:induction false} TopicStatsOverTable(rows: seq<Attempt>, topics: seq<string>)
    requires NoDuplicates(topics)
    ensures TopicStatsOver(rows, topics) == Tabulate(rows, topics)
    decreases |topics|
  {
    if topics != [] {
      var ts := topics[..|topics| - 1];
      var t := topics[|topics| - 1];
      assert NoDuplicates(ts);
      TopicStatsOverTable(rows, ts);
      var d := Tabulate(rows, ts);
      assert t !in ts by {
        assert forall i :: 0 <= i < |ts| ==> ts[i] == topics[i];
      }
      PutNew(d, t, StatsOf(rows, t));
      TabulateSnoc(rows, topics);
    }
  }

  /** The table of all topics is the table of all but the last, then the last. */
  lemma TabulateSnoc(rows: seq<Attempt>, topics: seq<string>)
    requires topics != []
    ensures var t := topics[|topics| - 1];
            Tabulate(rows, topics) == Tabulate(rows, topics[..|topics| - 1]) + [(t, StatsOf(rows, t))]
  {
    var ts := topics[..|topics| - 1];
    var a := Tabulate(rows, topics);
    var b := Tabulate(rows, ts) + [(topics[|topics| - 1], StatsOf(rows, topics[|topics| - 1]))];
    assert |a| == |b|;
    forall i | 0 <= i < |a|
      ensures a[i] == b[i]
    {
      if i < |ts| {
        assert ts[i] == topics[i];
        assert b[i] == Tabulate(rows, ts)[i];
      }
    }
  }

  lemma PutNew<V>(d: Dict<V>, k: string, v: V)
    requires k !in Keys(d)
    ensures Put(d, k, v) == d + [(k, v)]
  {
  }

  /** Every topic of the frame has at least one attempt, no more correct
      answers than attempts, and an accuracy in [0, 1]; the map holds exactly
      the topics of the frame, in order of first appearance. */
  lemma TopicWiseShape(f: Frame)
    ensures var d := TopicWise(f);
            && (TopicCol !in f.columns ==> d == [])
            && (TopicCol in f.columns ==> Keys(d) == Groups(f.rows, TopicField))
            && (forall i :: 0 <= i < |d| ==>
                  d[i].1 == StatsOf(f.rows, d[i].0)
                  && 1 <= d[i].1.attempts && d[i].1.correct <= d[i].1.attempts
                  && 0.0 <= d[i].1.accuracy <= 1.0)
  {
    if TopicCol in f.columns {
      var topics := Groups(f.rows, TopicField);
      TopicStatsOverTable(f.rows, topics);
      var d := TopicWise(f);
      forall i | 0 <= i < |d|
        ensures 1 <= d[i].1.attempts
      {
        assert topics[i] in topics;
        var j :| 0 <= j < |f.rows| && KeyOf(f.rows[j], TopicField) == topics[i];
        GroupNonEmpty(f.rows, TopicField, topics[i], j);
      }
    }
  }

  /** The attempts summed over a statistics map. */
  function TotalAttempts(d: Dict<TopicStats>): nat {
    if d == [] then 0 else TotalAttempts(d[..|d| - 1]) + d[|d| - 1].1.attempts
  }

  lemma {:induction false} TotalAttemptsOver(rows: seq<Attempt>, topics: seq<string>)
    requires NoDuplicates(topics)
    ensures TotalAttempts(TopicStatsOver(rows, topics)) == GroupSum(rows, topics, TopicField, Any)
    decreases |topics|
  {
    if topics != [] {
      var ts := topics[..|topics| - 1];
      var t := topics[|topics| - 1];
      assert NoDuplicates(ts);
      TotalAttemptsOver(rows, ts);
      TopicStatsOverTable(rows, topics);
      TopicStatsOverTable(rows, ts);
      var d := TopicStatsOver(rows, topics);
      assert d[..|d| - 1] == TopicStatsOver(rows, ts);
      SelectAll(Group(rows, TopicField, t));
    }
  }

  /** The attempts over all topics add up to the number of rows. */
  lemma TopicAttemptsSum(f: Frame)
    requires TopicCol in f.columns
    ensures TotalAttempts(TopicWise(f)) == |f.rows|
  {
    TotalAttemptsOver(f.rows, Groups(f.rows, TopicField));
    GroupsPartition(f.rows, TopicField, Any);
    SelectAll(f.rows);
  }

  // ---------------------------------------------------------------- weak topics

  /** The default accuracy threshold of `identify_weak_topics`. */
  const WeakThreshold: real := 0.65

  /** The topics of a statistics map below the threshold with at least three attempts, in map order. */
  function WeakTopicsIn(d: Dict<TopicStats>, threshold: real): (r: seq<string>)
    ensures forall t :: t in r <==> exists i :: 0 <= i < |d| && d[i].0 == t && d[i].1.accuracy < threshold && d[i].1.attempts >= 3
  {
    if d == [] then []
    else
      var r := WeakTopicsIn(d[..|d| - 1], threshold);
      var e := d[|d| - 1];
      assert forall i :: 0 <= i < |d| - 1 ==> d[..|d| - 1][i] == d[i];
      if e.1.accuracy < threshold && e.1.attempts >= 3 then r + [e.0] else r
  }

  /** `identify_weak_topics` */
  function WeakTopics(f: Frame, threshold: real): seq<string> {
    WeakTopicsIn(TopicWise(f), threshold)
  }

  /** A topic is weak exactly when the frame has a Topic column, the topic
      occurs, its accuracy is below the threshold and it has at least three attempts. */
  lemma WeakTopicsExactly(f: Frame, threshold: real, t: string)
    ensures t in WeakTopics(f, threshold)
        <==> TopicCol in f.columns && t in Groups(f.rows, TopicField)
             && StatsOf(f.rows, t).accuracy < threshold && StatsOf(f.rows, t).attempts >= 3
  {
    TopicWiseShape(f);
    var d := TopicWise(f);
    if TopicCol in f.columns && t in Groups(f.rows, TopicField) {
      var i :| 0 <= i < |Keys(d)| && Keys(d)[i] == t;
      assert d[i].0 == t;
    }
    if t in WeakTopics(f, threshold) {
      var i :| 0 <= i < |d| && d[i].0 == t && d[i].1.accuracy < threshold && d[i].1.attempts >= 3;
      assert Keys(d)[i] == t;
    }
  }

  // ---------------------------------------------------------------- consistency

  /** `calculate_consistency_score`, given the standard deviation `sd` of the
      times (the non-negative root of their sample variance). With a
      non-positive mean the coefficient of variation is infinite and the score 0. */
  function ConsistencyScore(f: Frame, sd: real): (s: real)
    requires TimeTakenCol in f.columns && |f.rows| >= 2 ==> sd >= 0.0 && sd * sd == SampleVariance(Times(f.rows))
    ensures 0.0 <= s <= 1.0
    ensures TimeTakenCol !in f.columns || |f.rows| < 2 ==> s == 0.5
  {
    if TimeTakenCol !in f.columns || |f.rows| < 2 then 0.5
    else
      var m := Mean(Times(f.rows));
      if m > 0.0 then
        var cv := sd / m;
        assert cv >= 0.0;
        1.0 - (if cv / 2.0 < 1.0 then cv / 2.0 else 1.0)
      else 0.0
  }

  /** With a positive mean time, the score is 1 exactly for a zero deviation,
      0 exactly when the deviation is at least twice the mean, and 1 - sd / (2 m) in between. */
  lemma ConsistencyShape(f: Frame, sd: real)
    requires TimeTakenCol in f.columns && |f.rows| >= 2
    requires sd >= 0.0 && sd * sd == SampleVariance(Times(f.rows))
    requires Mean(Times(f.rows)) > 0.0
    ensures var m := Mean(Times(f.rows));
            && (ConsistencyScore(f, sd) == 1.0 <==> sd == 0.0)
            && (ConsistencyScore(f, sd) == 0.0 <==> sd >= 2.0 * m)
            && (sd < 2.0 * m ==> ConsistencyScore(f, sd) == 1.0 - sd / (2.0 * m))
  {
    var m := Mean(Times(f.rows));
    DivCompare(sd, m, 2.0);
    assert sd / m / 2.0 == sd / (2.0 * m);
  }

  /** `a / b < k` exactly when `a < k * b`, for a positive `b`. */
  lemma DivCompare(a: real, b: real, k: real)
    requires b > 0.0
    ensures a / b < k <==> a < k * b
    ensures a / b == 0.0 <==> a == 0.0
  {
  }

  /** Equal times are perfectly consistent: their deviation 0 gives score 1. */
  lemma ConsistencyOfConstant(f: Frame, c: real)
    requires TimeTakenCol in f.columns && |f.rows| >= 2 && c > 0.0
    requires forall i :: 0 <= i < |f.rows| ==> f.rows[i].time == c
    ensures SampleVariance(Times(f.rows)) == 0.0
    ensures ConsistencyScore(f, 0.0) == 1.0
  {
    StdOfConstant(Times(f.rows), c);
    MeanConstant(Times(f.rows), c);
  }
}

/** `DataValidator.validate_student_data`: the structural checks of an uploaded frame. */
module DataValidator {
  import opened Attempts

  /** The errors the validator reports, in the order it checks them. */
  datatype ValidationError =
    | MissingColumns(missing: seq<Column>)
    | CorrectNotBinary
    | TimeNotNumeric
    | TimeNegative
    | EmptyFrame

  /** The required columns, in the order the message lists them. */
  const Required: seq<Column> := [StudentIdCol, QuestionIdCol, TopicCol, CorrectCol, TimeTakenCol]

  /** The required columns a frame lacks, in the order of `Required`. */
  function MissingFrom(required: seq<Column>, cols: set<Column>): (r: seq<Column>)
    ensures forall c :: c in r <==> c in required && c !in cols
    ensures |r| <= |required|
  {
    if required == [] then []
    else
      var rest := MissingFrom(required[1..], cols);
      if required[0] in cols then rest else [required[0]] + rest
  }

  predicate AllBinary(rows: seq<Attempt>) {
    forall i :: 0 <= i < |rows| ==> rows[i].correct == 0 || rows[i].correct == 1
  }

  predicate AnyNegativeTime(rows: seq<Attempt>) {
    exists i :: 0 <= i < |rows| && rows[i].time < 0.0
  }

  /** One check's contribution: its error when the check fails. */
  function ErrorIf(failed: bool, e: ValidationError): (r: seq<ValidationError>)
    ensures forall x :: x in r <==> failed && x == e
    ensures |r| <= 1
  {
    if failed then [e] else []
  }

  /** The error list, check by check. */
  function Errors(f: Frame): seq<ValidationError> {
    var missing := MissingFrom(Required, f.columns);
    ErrorIf(missing != [], MissingColumns(missing))
    + ErrorIf(CorrectCol in f.columns && !AllBinary(f.rows), CorrectNotBinary)
    + ErrorIf(TimeTakenCol in f.columns && AnyNegativeTime(f.rows), TimeNegative)
    + ErrorIf(f.rows == [], EmptyFrame)
  }

  /** The checks in order, each appending its error. */
  method ValidateStudentData(f: Frame) returns (valid: bool, errors: seq<ValidationError>)
    ensures errors == Errors(f)
    ensures valid <==> errors == []
  {
    errors := [];
    var missing := MissingFrom(Required, f.columns);
    if missing != [] {
      errors := errors + [MissingColumns(missing)];
    }
    if CorrectCol in f.columns {
      if !AllBinary(f.rows) {
        errors := errors + [CorrectNotBinary];
      }
    }
    if TimeTakenCol in f.columns {
      if AnyNegativeTime(f.rows) {
        errors := errors + [TimeNegative];
      }
    }
    if |f.rows| == 0 {
      errors := errors + [EmptyFrame];
    }
    valid := |errors| == 0;
  }

  /** The position of an error kind in the checking order. */
  function Rank(e: ValidationError): nat {
    match e
    case MissingColumns(_) => 0
    case CorrectNotBinary => 1
    case TimeNotNumeric => 2
    case TimeNegative => 3
    case EmptyFrame => 4
  }

  /** Each error is reported exactly when its condition holds. */
  lemma ErrorsExactly(f: Frame)
    ensures var es := Errors(f);
            && (forall ms :: MissingColumns(ms) in es <==> ms == MissingFrom(Required, f.columns) && ms != [])
            && (CorrectNotBinary in es <==> CorrectCol in f.columns && exists i :: 0 <= i < |f.rows| && f.rows[i].correct != 0 && f.rows[i].correct != 1)
            && (TimeNegative in es <==> TimeTakenCol in f.columns && exists i :: 0 <= i < |f.rows| && f.rows[i].time < 0.0)
            && (EmptyFrame in es <==> f.rows == [])
            && TimeNotNumeric !in es
  {
    forall x
      ensures x in Errors(f) <==> ErrorCondition(f, x)
    {
      ErrorReported(f, x);
    }
  }

  /** When the validator reports the error `e`. */
  predicate ErrorCondition(f: Frame, e: ValidationError) {
    match e
    case MissingColumns(ms) => ms == MissingFrom(Required, f.columns) && ms != []
    case CorrectNotBinary => CorrectCol in f.columns && !AllBinary(f.rows)
    case TimeNotNumeric => false
    case TimeNegative => TimeTakenCol in f.columns && AnyNegativeTime(f.rows)
    case EmptyFrame => f.rows == []
  }

  lemma ErrorReported(f: Frame, e: ValidationError)
    ensures e in Errors(f) <==> ErrorCondition(f, e)
  {
    var missing := MissingFrom(Required, f.columns);
    var a := ErrorIf(missing != [], MissingColumns(missing));
    var b := ErrorIf(CorrectCol in f.columns && !AllBinary(f.rows), CorrectNotBinary);
    var c := ErrorIf(TimeTakenCol in f.columns && AnyNegativeTime(f.rows), TimeNegative);
    var d := ErrorIf(f.rows == [], EmptyFrame);
    assert e in Errors(f) <==> e in a || e in b || e in c || e in d;
  }

  /** Ranks that strictly increase along a list of errors. */
  predicate InCheckingOrder(es: seq<ValidationError>) {
    forall i, j :: 0 <= i < j < |es| ==> Rank(es[i]) < Rank(es[j])
  }

  /** The errors come in checking order, so none is reported twice. */
  lemma ErrorsOrdered(f: Frame)
    ensures InCheckingOrder(Errors(f))
  {
    var missing := MissingFrom(Required, f.columns);
    var a := ErrorIf(missing != [], MissingColumns(missing));
    var b := ErrorIf(CorrectCol in f.columns && !AllBinary(f.rows), CorrectNotBinary);
    var c := ErrorIf(TimeTakenCol in f.columns && AnyNegativeTime(f.rows), TimeNegative);
    var d := ErrorIf(f.rows == [], EmptyFrame);
    OrderedConcat(a, b);
    OrderedConcat(a + b, c);
    OrderedConcat(a + b + c, d);
  }

  /** Joining two ordered lists whose ranks do not overlap keeps the order. */
  lemma OrderedConcat(x: seq<ValidationError>, y: seq<ValidationError>)
    requires InCheckingOrder(x) && InCheckingOrder(y)
    requires forall u, v :: u in x && v in y ==> Rank(u) < Rank(v)
    ensures InCheckingOrder(x + y)
  {
    var z := x + y;
    forall i, j | 0 <= i < j < |z|
      ensures Rank(z[i]) < Rank(z[j])
    {
      if j < |x| {
        assert z[i] == x[i] && z[j] == x[j];
      } else if i >= |x| {
        assert z[i] == y[i - |x|] && z[j] == y[j - |x|];
      } else {
        assert z[i] == x[i] && z[j] == y[j - |x|];
      }
    }
  }

  /** A frame is valid exactly when it has every required column, only 0/1
      in Correct, no negative time and at least one row. */
  lemma ValidExactly(f: Frame)
    ensures Errors(f) == []
        <==> (forall c :: c in Required ==> c in f.columns) && AllBinary(f.rows)
             && !AnyNegativeTime(f.rows) && f.rows != []
  {
    var missing := MissingFrom(Required, f.columns);
    if missing != [] {
      assert missing[0] in missing;
    }
  }
}

/** `PerformanceMetrics`: learning velocity over rolling windows and the engagement tier. */
module PerformanceMetrics {
  import opened Attempts

  // ---------------------------------------------------------------- learning velocity

  /** `max(3, n // 3)` */
  function WindowSize(n: nat): (w: nat)
    ensures w >= 3 && w >= n / 3 && (w == 3 || w == n / 3)
  {
    if n / 3 > 3 then n / 3 else 3
  }

  /** The share of correct answers among the `w` attempts from position `i`. */
  function WindowAccuracy(rows: seq<Attempt>, i: nat, w: nat): (acc: real)
    requires w > 0 && i + w <= |rows|
    ensures 0.0 <= acc <= 1.0
  {
    Ratio(Count(rows[i..i + w], IsCorrect), w)
  }

  /** The accuracy of every full window, from the first position on. */
  function RollingAccuracy(rows: seq<Attempt>, w: nat): (r: seq<real>)
    requires w > 0
    ensures |r| == if |rows| >= w then |rows| - w + 1 else 0
    ensures forall i :: 0 <= i < |r| ==> 0.0 <= r[i] <= 1.0
  {
    var k := if |rows| >= w then |rows| - w + 1 else 0;
    seq(k, i requires 0 <= i < k => WindowAccuracy(rows, i, w))
  }

  /** `calculate_learning_velocity`: the change from the first to the last
      window's accuracy, per window step. */
  function LearningVelocity(f: Frame): real
    requires |f.rows| >= 3 ==> TimestampCol in f.columns && CorrectCol in f.columns
  {
    if |f.rows| < 3 then 0.0
    else
      var sorted := SortByTimestamp(f.rows);
      var rolling := RollingAccuracy(sorted, WindowSize(|sorted|));
      if |rolling| < 2 then 0.0
      else (rolling[|rolling| - 1] - rolling[0]) / (|rolling| - 1) as real
  }

  /** The loop that appends the window accuracies. */
  method CalculateLearningVelocity(f: Frame) returns (velocity: real)
    requires |f.rows| >= 3 ==> TimestampCol in f.columns && CorrectCol in f.columns
    ensures velocity == LearningVelocity(f)
  {
    if |f.rows| < 3 {
      return 0.0;
    }
    var sorted := SortByTimestamp(f.rows);
    var windowSize := WindowSize(|sorted|);
    var rolling := RollingWindows(sorted, windowSize);
    if |rolling| < 2 {
      return 0.0;
    }
    velocity := (rolling[|rolling| - 1] - rolling[0]) / (|rolling| - 1) as real;
  }

  /** The loop that appends the accuracy of each full window. */
  method RollingWindows(sorted: seq<Attempt>, windowSize: nat) returns (rolling: seq<real>)
    requires 0 < windowSize <= |sorted|
    ensures rolling == RollingAccuracy(sorted, windowSize)
  {
    ghost var all := RollingAccuracy(sorted, windowSize);
    rolling := [];
    var i := 0;
    while i < |sorted| - windowSize + 1
      invariant 0 <= i <= |sorted| - windowSize + 1 == |all|
      invariant rolling == all[..i]
    {
      assert all[..i + 1] == all[..i] + [all[i]];
      rolling := rolling + [WindowAccuracy(sorted, i, windowSize)];
      i := i + 1;
    }
  }

  /** From three attempts on there are n - max(3, n // 3) + 1 windows, at
      least two exactly from four attempts on. */
  lemma WindowCount(n: nat)
    requires n >= 3
    ensures WindowSize(n) <= n
    ensures n - WindowSize(n) + 1 >= 2 <==> n >= 4
  {
  }

  /** The velocity is 0 for at most three attempts, and always between -1 and 1. */
  lemma VelocityBounds(f: Frame)
    requires |f.rows| >= 3 ==> TimestampCol in f.columns && CorrectCol in f.columns
    ensures |f.rows| <= 3 ==> LearningVelocity(f) == 0.0
    ensures -1.0 <= LearningVelocity(f) <= 1.0
  {
    if |f.rows| >= 3 {
      var sorted := SortByTimestamp(f.rows);
      var rolling := RollingAccuracy(sorted, WindowSize(|sorted|));
      if |rolling| >= 2 {
        var d := rolling[|rolling| - 1] - rolling[0];
        DivideBounded(d, (|rolling| - 1) as real);
      }
    }
  }

  lemma DivideBounded(d: real, k: real)
    requires -1.0 <= d <= 1.0 && k >= 1.0
    ensures -1.0 <= d / k <= 1.0
  {
  }

  // ---------------------------------------------------------------- engagement

  const SecondsPerDay: nat := 86400

  function MaxTimestamp(rows: seq<Attempt>): (m: int)
    requires rows != []
    ensures forall i :: 0 <= i < |rows| ==> rows[i].timestamp <= m
    ensures exists i :: 0 <= i < |rows| && rows[i].timestamp == m
  {
    if |rows| == 1 then rows[0].timestamp
    else
      var m := MaxTimestamp(rows[..|rows| - 1]);
      assert forall i :: 0 <= i < |rows| - 1 ==> rows[..|rows| - 1][i] == rows[i];
      if rows[|rows| - 1].timestamp > m then rows[|rows| - 1].timestamp else m
  }

  function MinTimestamp(rows: seq<Attempt>): (m: int)
    requires rows != []
    ensures forall i :: 0 <= i < |rows| ==> m <= rows[i].timestamp
    ensures exists i :: 0 <= i < |rows| && rows[i].timestamp == m
  {
    if |rows| == 1 then rows[0].timestamp
    else
      var m := MinTimestamp(rows[..|rows| - 1]);
      assert forall i :: 0 <= i < |rows| - 1 ==> rows[..|rows| - 1][i] == rows[i];
      if rows[|rows| - 1].timestamp < m then rows[|rows| - 1].timestamp else m
  }

  /** `(max - min).days`: whole days between the first and last attempt. */
  function SpanDays(rows: seq<Attempt>): (d: nat)
    requires rows != []
    ensures d * SecondsPerDay <= MaxTimestamp(rows) - MinTimestamp(rows) < (d + 1) * SecondsPerDay
  {
    (MaxTimestamp(rows) - MinTimestamp(rows)) / SecondsPerDay
  }

  /** `get_engagement_level`: attempts per day of span (the attempts
      themselves for a span under a day) at least 1 high, at least 0.5
      medium, otherwise low; low without attempts or a Timestamp column. */
  function EngagementLevel(f: Frame): string {
    if |f.rows| < 1 then "low"
    else if TimestampCol in f.columns then
      var span := SpanDays(f.rows);
      var attempts := |f.rows|;
      var perDay: real := if span > 0 then attempts as real / span as real else attempts as real;
      if perDay >= 1.0 then "high"
      else if perDay >= 0.5 then "medium"
      else "low"
    else "low"
  }

  /** The tiers in whole numbers: high when the attempts are at least the days
      spanned (always, within a day), medium when twice the attempts reach the
      days, low otherwise and without timestamps or attempts. */
  lemma EngagementExactly(f: Frame)
    ensures f.rows == [] || TimestampCol !in f.columns ==> EngagementLevel(f) == "low"
    ensures f.rows != [] && TimestampCol in f.columns ==>
              var n := |f.rows|;
              var span := SpanDays(f.rows);
              && (EngagementLevel(f) == "high" <==> n >= span)
              && (EngagementLevel(f) == "medium" <==> n < span <= 2 * n)
              && (EngagementLevel(f) == "low" <==> 2 * n < span)
  {
    if f.rows != [] && TimestampCol in f.columns {
      var n := |f.rows|;
      var span := SpanDays(f.rows);
      if span > 0 {
        DivAtLeast(n, span, 1.0);
        DivAtLeast(n, span, 0.5);
      }
    }
  }

  lemma DivAtLeast(n: nat, d: nat, k: real)
    requires d > 0 && k >= 0.0
    ensures n as real / d as real >= k <==> n as real >= k * d as real
  {
  }
}
