/**
 * The dashboard's overview of all students (`_perform_overall_analysis`):
 * every distinct student is analysed on their own rows, the gaps, the
 * attempts and the correct answers are summed, and each student is placed
 * in one of three risk bands by their overall score.
 */
module Fleet {
  import opened Attempts
  import opened GapDetector

  /** The seven figures of the overview. */
  datatype Overview = Overview(
    totalGaps: nat,
    totalAttempts: nat,
    totalCorrect: nat,
    overallAccuracy: real,
    highRisk: nat,
    mediumRisk: nat,
    onTrack: nat)

  /** What an empty dataset reports. */
  const NoData := Overview(0, 0, 0, 0.0, 0, 0, 0)

  /** A score below 0.5 is high risk, one from 0.5 up to 0.75 medium risk,
      anything else on track. */
  datatype RiskBand = HighRisk | MediumRisk | OnTrack

  function Band(score: real): (b: RiskBand)
    ensures b == HighRisk <==> score < 0.5
    ensures b == MediumRisk <==> 0.5 <= score < 0.75
    ensures b == OnTrack <==> 0.75 <= score
  {
    if score < 0.5 then HighRisk
    else if 0.5 <= score < 0.75 then MediumRisk
    else OnTrack
  }

  /** The accumulators of the loop over the students. */
  datatype Totals = Totals(gaps: nat, correct: nat, attempts: nat, high: nat, medium: nat, onTrack: nat)

  /** One student's analysis added to the accumulators. */
  function Tally(t: Totals, a: Analysis): Totals {
    var b := Band(a.overallScore);
    Totals(t.gaps + |a.gaps|, t.correct + a.correctAnswers, t.attempts + a.totalAttempts,
           t.high + (if b == HighRisk then 1 else 0),
           t.medium + (if b == MediumRisk then 1 else 0),
           t.onTrack + (if b == OnTrack then 1 else 0))
  }

  /** The frame of one student: `student_data[student_data['Student_ID'] == id]`. */
  function StudentFrame(f: Frame, id: string): (g: Frame)
    ensures g.columns == f.columns && |g.rows| <= |f.rows|
  {
    Frame(f.columns, Group(f.rows, StudentField, id))
  }

  /** The columns the detector reads are there whenever there are rows. */
  predicate Readable(f: Frame) {
    f.rows != [] ==> StudentIdCol in f.columns && CorrectCol in f.columns && TimeTakenCol in f.columns
  }

  /** The accumulators after the students `ids`, in order. */
  function TotalsOver(f: Frame, ids: seq<string>): Totals
    requires Readable(f)
    decreases |ids|
  {
    if ids == [] then Totals(0, 0, 0, 0, 0, 0)
    else Tally(TotalsOver(f, ids[..|ids| - 1]), AnalysisOf(StudentFrame(f, ids[|ids| - 1])))
  }

  /** `_perform_overall_analysis` */
  function OverallAnalysis(f: Frame): Overview
    requires Readable(f)
  {
    if f.rows == [] then NoData
    else
      var t := TotalsOver(f, Groups(f.rows, StudentField));
      Overview(t.gaps, t.attempts, t.correct, Ratio(t.correct, t.attempts), t.high, t.medium, t.onTrack)
  }

  /** The loop over the distinct students, updating the six accumulators. */
  method PerformOverallAnalysis(f: Frame) returns (o: Overview)
    requires Readable(f)
    ensures o == OverallAnalysis(f)
  {
    if |f.rows| == 0 {
      return NoData;
    }
    var ids := Groups(f.rows, StudentField);
    var totalGaps: nat, correct: nat, attempts: nat := 0, 0, 0;
    var high: nat, medium: nat, onTrack: nat := 0, 0, 0;
    for i := 0 to |ids|
      invariant Totals(totalGaps, correct, attempts, high, medium, onTrack) == TotalsOver(f, ids[..i])
    {
      var analysis := AnalyzeStudent(StudentFrame(f, ids[i]));
      totalGaps, correct, attempts, high, medium, onTrack :=
        AddStudent(totalGaps, correct, attempts, high, medium, onTrack, analysis);
      TotalsStep(f, ids, i);
    }
    assert ids[..|ids|] == ids;
    o := Overview(totalGaps, attempts, correct, Ratio(correct, attempts), high, medium, onTrack);
  }

  /** The body of the loop: one student's analysis added to the accumulators. */
  method AddStudent(totalGaps: nat, correct: nat, attempts: nat, high: nat, medium: nat, onTrack: nat, analysis: Analysis)
    returns (totalGaps': nat, correct': nat, attempts': nat, high': nat, medium': nat, onTrack': nat)
    ensures Totals(totalGaps', correct', attempts', high', medium', onTrack')
            == Tally(Totals(totalGaps, correct, attempts, high, medium, onTrack), analysis)
  {
    totalGaps' := totalGaps + |analysis.gaps|;
    correct' := correct + analysis.correctAnswers;
    attempts' := attempts + analysis.totalAttempts;
    high', medium', onTrack' := high, medium, onTrack;
    if analysis.overallScore < 0.5 {
      high' := high + 1;
    } else if 0.5 <= analysis.overallScore < 0.75 {
      medium' := medium + 1;
    } else {
      onTrack' := onTrack + 1;
    }
  }

  lemma TotalsStep(f: Frame, ids: seq<string>, i: nat)
    requires Readable(f) && i < |ids|
    ensures TotalsOver(f, ids[..i + 1]) == Tally(TotalsOver(f, ids[..i]), AnalysisOf(StudentFrame(f, ids[i])))
  {
    var s := ids[..i + 1];
    assert s[..|s| - 1] == ids[..i];
    assert s[|s| - 1] == ids[i];
  }

  /** Every student falls in exactly one band. */
  lemma {:induction false} BandsCoverStudents(f: Frame, ids: seq<string>)
    requires Readable(f)
    ensures var t := TotalsOver(f, ids);
            t.high + t.medium + t.onTrack == |ids|
    decreases |ids|
  {
    if ids != [] {
      BandsCoverStudents(f, ids[..|ids| - 1]);
    }
  }

  /** A student's analysis counts all of their rows as attempts and the
      correct ones as correct answers. */
  lemma AnalysisCounts(g: Frame)
    requires g.rows != [] ==> CorrectCol in g.columns && TimeTakenCol in g.columns
    ensures AnalysisOf(g).totalAttempts == Count(g.rows, Any)
    ensures AnalysisOf(g).correctAnswers == Count(g.rows, IsCorrect)
  {
    SelectAll(g.rows);
  }

  /** The summed attempts and correct answers are the group sums over the students. */
  lemma {:induction false} TotalsAreGroupSums(f: Frame, ids: seq<string>)
    requires Readable(f)
    ensures var t := TotalsOver(f, ids);
            t.attempts == GroupSum(f.rows, ids, StudentField, Any)
            && t.correct == GroupSum(f.rows, ids, StudentField, IsCorrect)
    decreases |ids|
  {
    if ids != [] {
      TotalsAreGroupSums(f, ids[..|ids| - 1]);
      AnalysisCounts(StudentFrame(f, ids[|ids| - 1]));
    }
  }

  /** The overview of a dataset: all zeros when it is empty; otherwise one
      band per distinct student, every row counted once as an attempt, the
      correct rows as correct answers, and their ratio as the accuracy. */
  lemma OverallAnalysisShape(f: Frame)
    requires Readable(f)
    ensures var o := OverallAnalysis(f);
            && (f.rows == [] ==> o == NoData)
            && o.highRisk + o.mediumRisk + o.onTrack == |Groups(f.rows, StudentField)|
            && o.totalAttempts == |f.rows|
            && o.totalCorrect == Count(f.rows, IsCorrect)
            && o.totalCorrect <= o.totalAttempts
            && o.overallAccuracy == Ratio(Count(f.rows, IsCorrect), |f.rows|)
            && 0.0 <= o.overallAccuracy <= 1.0
  {
    if f.rows != [] {
      var ids := Groups(f.rows, StudentField);
      BandsCoverStudents(f, ids);
      TotalsAreGroupSums(f, ids);
      GroupsPartition(f.rows, StudentField, Any);
      GroupsPartition(f.rows, StudentField, IsCorrect);
      SelectAll(f.rows);
    }
  }
}
