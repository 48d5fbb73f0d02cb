/**
 * The recommendation engine. The gaps of an analysis are ordered by severity
 * rank (high 3, medium 2, low 1, anything else 0) with ties kept in map order;
 * each gap is dispatched on the text before the first '_' of its name to the
 * concept-review, confidence-building or deliberate-practice template; a
 * maintenance item stands in when nothing was produced, and at most five
 * recommendations are returned. The intervention library and the lookup of
 * a topic's websites and videos are parameters.
 */
module RecommendationEngine {
  import opened Wrappers
  import opened Text
  import opened OrderedDict
  import opened Attempts
  import opened GapDetector
  import opened Resources

  // ---------------------------------------------------------------- severity order

  /** `{'high': 3, 'medium': 2, 'low': 1}.get(severity, 0)` */
  function Rank(severity: string): (r: nat)
    ensures r <= 3
  {
    if severity == "high" then 3
    else if severity == "medium" then 2
    else if severity == "low" then 1
    else 0
  }

  function RankOf(g: (string, Finding)): nat {
    Rank(g.1.severity)
  }

  /** The gaps of rank `r`, in map order. */
  function OfRank(gaps: Dict<Finding>, r: nat): (s: Dict<Finding>)
    ensures forall e :: e in s ==> e in gaps && RankOf(e) == r
    decreases |gaps|
  {
    if gaps == [] then []
    else
      var prefix := gaps[..|gaps| - 1];
      var last := gaps[|gaps| - 1];
      assert forall e :: e in prefix ==> e in gaps;
      if RankOf(last) == r then OfRank(prefix, r) + [last] else OfRank(prefix, r)
  }

  /** `sorted(gaps.items(), key=rank, reverse=True)`: a stable sort, so the
      gaps of each rank in turn, from 3 down to 0. */
  function SortedGaps(gaps: Dict<Finding>): Dict<Finding> {
    OfRank(gaps, 3) + OfRank(gaps, 2) + OfRank(gaps, 1) + OfRank(gaps, 0)
  }

  predicate NonIncreasing(s: Dict<Finding>) {
    forall i, j :: 0 <= i < j < |s| ==> RankOf(s[i]) >= RankOf(s[j])
  }

  /** The sorted gaps come in non-increasing rank. */
  lemma SortedGapsRanked(gaps: Dict<Finding>)
    ensures NonIncreasing(SortedGaps(gaps))
  {
    var a, b, c, d := OfRank(gaps, 3), OfRank(gaps, 2), OfRank(gaps, 1), OfRank(gaps, 0);
    OfRankUniform(gaps, 3);
    OfRankUniform(gaps, 2);
    OfRankUniform(gaps, 1);
    OfRankUniform(gaps, 0);
    JoinNonIncreasing(a, b);
    JoinNonIncreasing(a + b, c);
    JoinNonIncreasing(a + b + c, d);
  }

  lemma OfRankUniform(gaps: Dict<Finding>, r: nat)
    ensures NonIncreasing(OfRank(gaps, r))
  {
    var s := OfRank(gaps, r);
    forall i, j | 0 <= i < j < |s|
      ensures RankOf(s[i]) >= RankOf(s[j])
    {
      assert s[i] in s && s[j] in s;
    }
  }

  lemma JoinNonIncreasing(x: Dict<Finding>, y: Dict<Finding>)
    requires NonIncreasing(x) && NonIncreasing(y)
    requires forall u, v :: u in x && v in y ==> RankOf(u) >= RankOf(v)
    ensures NonIncreasing(x + y)
  {
    var z := x + y;
    forall i, j | 0 <= i < j < |z|
      ensures RankOf(z[i]) >= RankOf(z[j])
    {
      if j < |x| {
        assert z[i] == x[i] && z[j] == x[j];
      } else if i >= |x| {
        assert z[i] == y[i - |x|] && z[j] == y[j - |x|];
      } else {
        assert z[i] == x[i] && z[j] == y[j - |x|];
      }
    }
  }

  /** One gap of rank `r`, or nothing. */
  function IfRank(g: (string, Finding), r: nat): Dict<Finding> {
    if RankOf(g) == r then [g] else []
  }

  /** Sorting neither drops nor adds a gap. */
  lemma {:induction false} SortedGapsPermutation(gaps: Dict<Finding>)
    ensures multiset(SortedGaps(gaps)) == multiset(gaps)
    decreases |gaps|
  {
    if gaps != [] {
      var prefix := gaps[..|gaps| - 1];
      var x := gaps[|gaps| - 1];
      SortedGapsPermutation(prefix);
      assert gaps == prefix + [x];
      assert OfRank(gaps, 3) == OfRank(prefix, 3) + IfRank(x, 3);
      assert OfRank(gaps, 2) == OfRank(prefix, 2) + IfRank(x, 2);
      assert OfRank(gaps, 1) == OfRank(prefix, 1) + IfRank(x, 1);
      assert OfRank(gaps, 0) == OfRank(prefix, 0) + IfRank(x, 0);
      assert multiset(IfRank(x, 3)) + multiset(IfRank(x, 2)) + multiset(IfRank(x, 1)) + multiset(IfRank(x, 0))
             == multiset{x};
    }
  }

  /** Sorting keeps the map order among gaps of equal rank. */
  lemma SortedGapsStable(gaps: Dict<Finding>, r: nat)
    ensures OfRank(SortedGaps(gaps), r) == OfRank(gaps, r)
  {
    var a, b, c, d := OfRank(gaps, 3), OfRank(gaps, 2), OfRank(gaps, 1), OfRank(gaps, 0);
    OfRankConcat(a + b + c, d, r);
    OfRankConcat(a + b, c, r);
    OfRankConcat(a, b, r);
    OfRankOfRank(gaps, 3, r);
    OfRankOfRank(gaps, 2, r);
    OfRankOfRank(gaps, 1, r);
    OfRankOfRank(gaps, 0, r);
    var s := OfRank(gaps, r);
    assert OfRank(SortedGaps(gaps), r) == OfRank(a, r) + OfRank(b, r) + OfRank(c, r) + OfRank(d, r);
    if r == 3 {
      assert s + [] + [] + [] == s;
    } else if r == 2 {
      assert [] + s + [] + [] == s;
    } else if r == 1 {
      assert [] + [] + s + [] == s;
    } else if r == 0 {
      assert [] + [] + [] + s == s;
    } else {
      OfRankAbove(gaps, r);
    }
  }

  /** No gap has a rank above 3. */
  lemma {:induction false} OfRankAbove(gaps: Dict<Finding>, r: nat)
    requires r > 3
    ensures OfRank(gaps, r) == []
    decreases |gaps|
  {
    if gaps != [] {
      OfRankAbove(gaps[..|gaps| - 1], r);
    }
  }

  lemma {:induction false} OfRankConcat(x: Dict<Finding>, y: Dict<Finding>, r: nat)
    ensures OfRank(x + y, r) == OfRank(x, r) + OfRank(y, r)
    decreases |y|
  {
    if y != [] {
      var prefix := y[..|y| - 1];
      OfRankConcat(x, prefix, r);
      var last := y[|y| - 1];
      assert (x + y)[..|x + y| - 1] == x + prefix;
      assert (x + y)[|x + y| - 1] == last;
      assert OfRank(x + y, r) == OfRank(x + prefix, r) + IfRank(last, r);
      assert OfRank(y, r) == OfRank(prefix, r) + IfRank(last, r);
    } else {
      assert x + y == x;
    }
  }

  lemma {:induction false} OfRankOfRank(gaps: Dict<Finding>, r': nat, r: nat)
    ensures OfRank(OfRank(gaps, r'), r) == if r == r' then OfRank(gaps, r) else []
    decreases |gaps|
  {
    if gaps != [] {
      var prefix := gaps[..|gaps| - 1];
      OfRankOfRank(prefix, r', r);
      var last := gaps[|gaps| - 1];
      if RankOf(last) == r' {
        assert OfRank(gaps, r') == OfRank(prefix, r') + [last];
        assert (OfRank(prefix, r') + [last])[..|OfRank(prefix, r')|] == OfRank(prefix, r');
      }
    }
  }

  // ---------------------------------------------------------------- dispatch

  datatype GapKind = ConceptKind | ConfidenceKind | SpeedKind

  /** `gap_name.split('_')[0]` decides the template; any other prefix has none. */
  function KindOf(name: string): Option<GapKind> {
    var head := Before(name, '_');
    if head == "concept" then Some(ConceptKind)
    else if head == "confidence" then Some(ConfidenceKind)
    else if head == "speed" then Some(SpeedKind)
    else None
  }

  /** Only the text before the first '_' decides the template. */
  lemma KindOfPrefix(head: string, rest: string)
    requires '_' !in head
    ensures KindOf(head + "_" + rest) == KindOf(head)
  {
    BeforeSeparator(head, rest, '_');
  }

  lemma BeforeSeparator(head: string, rest: string, c: char)
    requires c !in head
    ensures Before(head + [c] + rest, c) == head
  {
    var s := head + [c] + rest;
    forall i | 0 <= i < |head|
      ensures s[i] != c
    {
      assert s[i] == head[i];
    }
    BeforeAt(s, c, |head|);
    assert s[..|head|] == head;
  }

  /** The gap names the detector produces all have a template: concept gaps
      the concept review, `confidence_gap` confidence building and
      `speed_gap` deliberate practice. */
  lemma DetectorGapsDispatch(f: Frame)
    ensures forall e :: e in AllGaps(f) ==> KindOf(e.0).Some?
  {
    AllGapsConcat(f);
    ConceptGapsShape(f);
    ConfidenceKeyKind();
    SpeedKeyKind();
    var c, cf, s := ConceptGaps(f), ConfidenceGaps(f.rows), SpeedGaps(f.rows);
    forall e: (string, Finding) | e in c + cf + s
      ensures KindOf(e.0).Some?
    {
      if e in c {
        var t :| t in Groups(f.rows, TopicField) && Qualifies(f.rows, t) && e == (GapKey(t), ConceptFinding(f.columns, f.rows, t));
        ConceptKeyKind(t);
      }
    }
  }

  /** A concept-gap key dispatches to the concept review. */
  lemma ConceptKeyKind(topic: string)
    ensures KindOf(GapKey(topic)) == Some(ConceptKind)
  {
    var rest := "gap_" + ReplaceChar(Lower(topic), ' ', '_');
    assert GapKey(topic) == "concept" + "_" + rest;
    KindOfPrefix("concept", rest);
  }

  /** The confidence key dispatches to confidence building. */
  lemma ConfidenceKeyKind()
    ensures KindOf("confidence_gap") == Some(ConfidenceKind)
  {
    BeforeAt("confidence_gap", '_', 10);
  }

  /** The speed key dispatches to deliberate practice. */
  lemma SpeedKeyKind()
    ensures KindOf("speed_gap") == Some(SpeedKind)
  {
    BeforeAt("speed_gap", '_', 5);
  }

  /** The text before the first `c` ends where `c` first occurs. */
  lemma BeforeAt(s: string, c: char, n: nat)
    requires n < |s| && s[n] == c && forall i :: 0 <= i < n ==> s[i] != c
    ensures Before(s, c) == s[..n]
  {
    IndexOfAt(s, c, n);
  }

  lemma {:induction false} IndexOfAt(s: string, c: char, n: nat)
    requires n < |s| && s[n] == c && forall i :: 0 <= i < n ==> s[i] != c
    ensures c in s && IndexOf(s, c) == n
  {
    if n > 0 {
      assert s[0] != c;
      IndexOfAt(s[1..], c, n - 1);
    }
  }

  /** The detector never sets a trend or an expected impact. */
  lemma DetectorFindingsPlain(f: Frame)
    ensures forall e :: e in AllGaps(f) ==> e.1.trend.None? && e.1.expectedImpact.None?
  {
    AllGapsConcat(f);
    ConceptGapsShape(f);
  }

  // ---------------------------------------------------------------- recommendations

  /** The description of a recommendation. The source formats the concept
      text with the confidence as a percentage and takes the description of
      a confidence or speed gap from the gap itself. */
  datatype Description =
    | Plain(text: string)
    | ConceptText(prefix: string, topic: string, confidence: real, suffix: string)
    | OfFinding(finding: Finding)

  /** A resource value: one link, or a list of links. */
  datatype ResourceEntry = Link(url: string) | Links(urls: seq<string>)

  /** The five keys a resources map can hold. */
  datatype ResourceKey = PracticeQuestions | ConceptGuide | InteractiveGuide | WebsiteResources | YouTubeVideos

  /** The text of each key. */
  function KeyName(k: ResourceKey): string {
    match k
    case PracticeQuestions => "Practice Questions"
    case ConceptGuide => "Concept Guide"
    case InteractiveGuide => "Interactive/Visual Guide"
    case WebsiteResources => "\U{1F4F1} Website Resources"
    case YouTubeVideos => "\U{1F4F9} YouTube Videos"
  }

  /** Different keys have different texts. */
  lemma KeyNamesDistinct(k: ResourceKey, k': ResourceKey)
    requires k != k'
    ensures KeyName(k) != KeyName(k')
  {
    assert KeyName(k)[0] != KeyName(k')[0] || |KeyName(k)| != |KeyName(k')|;
  }

  /** A resources map, its keys in insertion order. */
  type ResourceMap = seq<(ResourceKey, ResourceEntry)>

  predicate DistinctResourceKeys(d: ResourceMap) {
    forall i, j :: 0 <= i < j < |d| ==> d[i].0 != d[j].0
  }

  function ResourceKeys(d: ResourceMap): (ks: seq<ResourceKey>)
    ensures |ks| == |d| && forall i :: 0 <= i < |d| ==> ks[i] == d[i].0
  {
    seq(|d|, i requires 0 <= i < |d| => d[i].0)
  }

  /** A recommendation. Only the concept review carries a resources map. */
  datatype Recommendation = Recommendation(
    title: string,
    description: Description,
    priority: string,
    practiceType: string,
    targetTopics: seq<string>,
    duration: string,
    expectedImpact: real,
    steps: seq<string>,
    resources: Option<ResourceMap>)

  // The fixed texts of the templates.
  const MaintenanceTitle: string := "Continued Practice & Advancement"
  const MaintenanceText: string := "Student is performing well; continue with current pace"
  const MaintenanceType: string := "Regular Practice + Challenge"
  const MaintenanceSteps: seq<string> :=
    ["1. Continue regular daily practice",
     "2. Try progressively harder problems",
     "3. Explore different problem types",
     "4. Help other students"]
  const ConfidenceTitle: string := "Confidence & Clarity Building"
  const ConfidenceType: string := "Guided Problem-Solving"
  const ConfidenceDuration: string := "1-2 weeks, 20 min daily"
  const ConfidenceSteps: seq<string> :=
    ["1. Start with easier problems to build momentum",
     "2. Work through step-by-step solutions",
     "3. Write down reasoning before answering",
     "4. Review mistakes carefully",
     "5. Gradually increase difficulty"]
  const DeliberateTitle: string := "Deliberate, Focused Practice"
  const DeliberateType: string := "Slow & Thoughtful Practice"
  const DeliberateDuration: string := "1 week, 25 min daily"
  const DeliberateSteps: seq<string> :=
    ["1. Set a timer for 3-5 minutes per problem",
     "2. Read the question carefully twice",
     "3. Plan your approach before answering",
     "4. Work through each step deliberately",
     "5. Double-check your answer"]

  /** `_get_maintenance_recommendation` */
  function Maintenance(): (r: Recommendation)
    ensures r.priority == "LOW" && r.expectedImpact == 0.10 && |r.steps| == 4
    ensures r.resources.None?
  {
    Recommendation(
      MaintenanceTitle, Plain(MaintenanceText), "LOW", MaintenanceType, ["All topics"], "Ongoing", 0.10,
      MaintenanceSteps, None)
  }

  /** `_recommend_confidence_building`: the gap's own description, its severity as the priority. */
  function ConfidenceBuilding(gap: Finding): (r: Recommendation)
    ensures r.priority == Upper(gap.severity) && r.expectedImpact == 0.20
    ensures r.description == OfFinding(gap) && |r.steps| == 5 && r.resources.None?
  {
    Recommendation(
      ConfidenceTitle, OfFinding(gap), Upper(gap.severity),
      ConfidenceType, ["All covered topics"], ConfidenceDuration, 0.20,
      ConfidenceSteps, None)
  }

  /** `_recommend_deliberate_practice`: always of medium priority, whatever the gap's severity. */
  function DeliberatePractice(gap: Finding): (r: Recommendation)
    ensures r.priority == "MEDIUM" && r.expectedImpact == 0.15
    ensures r.description == OfFinding(gap) && |r.steps| == 5 && r.resources.None?
  {
    Recommendation(
      DeliberateTitle, OfFinding(gap), "MEDIUM",
      DeliberateType, ["Problem-solving strategy"], DeliberateDuration, 0.15,
      DeliberateSteps, None)
  }

  // ---------------------------------------------------------------- the intervention library

  /** One entry of the intervention library. */
  datatype LibraryEntry = LibraryEntry(
    practiceProblems: nat,
    estimatedTime: string,
    keyConcepts: seq<string>,
    practiceLink: string,
    conceptLink: string,
    interactiveLink: string)

  const LibraryTopics: seq<string> :=
    ["arithmetic", "fractions", "algebra", "geometry", "data analysis", "physics", "chemistry"]

  /** `_build_intervention_library`: the strategies of seven topics. */
  const InterventionLibrary: Dict<LibraryEntry> := [
    ("arithmetic", LibraryEntry(20, "30 minutes", ["Addition", "Subtraction", "Multiplication", "Division"],
        "https://www.khanacademy.org/math/arithmetic",
        "https://www.mathplanet.com/education/pre-algebra/discover-basic-math/arithmetic-properties",
        "https://www.mathsisfun.com/numbers/index.html")),
    ("fractions", LibraryEntry(15, "45 minutes", ["Numerator", "Denominator", "Simplification", "Comparison", "Operations"],
        "https://www.khanacademy.org/math/arithmetic/fractions",
        "https://www.mathplanet.com/education/pre-algebra/fractions/what-is-a-fraction",
        "https://www.mathsisfun.com/fractions-menu.html")),
    ("algebra", LibraryEntry(12, "60 minutes", ["Variables", "Equations", "Solving", "Substitution", "Expressions"],
        "https://www.khanacademy.org/math/algebra",
        "https://www.mathplanet.com/education/algebra",
        "https://www.desmos.com/calculator")),
    ("geometry", LibraryEntry(10, "50 minutes", ["Shapes", "Area", "Perimeter", "Angles", "Theorems"],
        "https://www.khanacademy.org/math/geometry",
        "https://www.mathplanet.com/education/geometry",
        "https://www.geogebra.org/geometry")),
    ("data analysis", LibraryEntry(8, "55 minutes", ["Mean", "Median", "Mode", "Graphs", "Probability"],
        "https://www.khanacademy.org/math/statistics-probability/displaying-describing-data",
        "https://www.khanacademy.org/math/statistics-probability",
        "https://phet.colorado.edu/en/simulations/filter?subjects=math&type=html&sort=date&view=grid")),
    ("physics", LibraryEntry(10, "60 minutes", ["Kinematics", "Forces", "Energy", "Momentum"],
        "https://www.khanacademy.org/science/physics",
        "https://www.physicsclassroom.com/class",
        "https://phet.colorado.edu/en/simulations/filter?subjects=physics&type=html&sort=date&view=grid")),
    ("chemistry", LibraryEntry(10, "60 minutes", ["Atoms", "Molecules", "Stoichiometry", "Reactions"],
        "https://www.khanacademy.org/science/chemistry",
        "https://www.acs.org/education/resources/highschool.html",
        "https://phet.colorado.edu/en/simulations/filter?subjects=chemistry&type=html&sort=date&view=grid"))
  ]

  /** The library holds its seven topics once each, with between 8 and 20 problems. */
  lemma LibraryShape()
    ensures Keys(InterventionLibrary) == LibraryTopics && DistinctKeys(InterventionLibrary)
    ensures forall i :: 0 <= i < |InterventionLibrary| ==> 8 <= InterventionLibrary[i].1.practiceProblems <= 20
  {
  }

  /** `gap_name.replace('concept_gap_', '').lower()` */
  function TopicRaw(name: string): string {
    Lower(ReplaceAll(name, "concept_gap_", ""))
  }

  /** The topic of a gap key the detector built has no space, so the library's
      "data analysis" entry is never selected for a detected gap. */
  lemma GapTopicHasNoSpace(topic: string)
    ensures ' ' !in TopicRaw(GapKey(topic))
    ensures TopicRaw(GapKey(topic)) != "data analysis"
  {
    var key := GapKey(topic);
    assert forall i :: 0 <= i < |key| ==> key[i] != ' ' by {
      var tail := ReplaceChar(Lower(topic), ' ', '_');
      assert key == "concept_gap_" + tail;
      forall i | 0 <= i < |key|
        ensures key[i] != ' '
      {
        if i >= 12 {
          assert key[i] == tail[i - 12];
        }
      }
    }
    ReplaceAllChars(key, "concept_gap_", "");
    var r := ReplaceAll(key, "concept_gap_", "");
    var raw := TopicRaw(key);
    forall i | 0 <= i < |raw|
      ensures raw[i] != ' '
    {
      assert r[i] in r;
    }
    assert "data analysis"[4] == ' ';
  }

  /** Replacing moves no character in except those of the replacement. */
  lemma {:induction false} ReplaceAllChars(s: string, pat: string, rep: string)
    requires |pat| > 0
    ensures forall c :: c in ReplaceAll(s, pat, rep) ==> c in s || c in rep
    decreases |s|
  {
    if |s| >= |pat| {
      if s[..|pat|] == pat {
        ReplaceAllChars(s[|pat|..], pat, rep);
        assert forall c :: c in s[|pat|..] ==> c in s;
      } else {
        ReplaceAllChars(s[1..], pat, rep);
        assert forall c :: c in s[1..] ==> c in s;
      }
    }
  }

  // ---------------------------------------------------------------- the concept review

  /** The practice plan of a concept review. */
  datatype Plan = Plan(practiceType: string, duration: string, problems: nat)

  const FoundationalReview: string := "Foundational Review + Intensive Practice"
  const FoundationalDuration: string := "1-2 weeks, 45-60 min daily"
  const TargetedReview: string := "Targeted Review + Extra Practice"
  const TargetedDuration: string := "1 week, 30-45 min daily"
  const ChallengeProblems: string := "Reinforcement + Challenge Problems"
  const ChallengeDuration: string := "3-5 days, 20-30 min daily"
  const StructuredReview: string := "Structured Review + Practice"
  const StructuredDuration: string := "2-3 days, 30-45 min daily"

  /** The severity and trend table, as written: its third branch compares the
      severity with "improving". */
  function PracticePlan(severity: string, trend: string, problems: nat): Plan {
    if severity == "high" && trend == "declining" then
      Plan(FoundationalReview, FoundationalDuration, if problems > 20 then problems else 20)
    else if severity == "medium" && trend == "declining" then
      Plan(TargetedReview, TargetedDuration, if problems > 15 then problems else 15)
    else if severity == "improving" && severity != "low" then
      Plan(ChallengeProblems, ChallengeDuration, if problems < 10 then problems else 10)
    else
      Plan(StructuredReview, StructuredDuration, problems)
  }

  /** A high severity with a declining trend asks for at least 20 problems,
      a medium one for at least 15, never fewer than the library's; every
      other severity or trend, an "improving" trend included, gets the
      structured review with the library's count. */
  lemma PracticeTable(severity: string, trend: string, problems: nat)
    ensures var p := PracticePlan(severity, trend, problems);
            && (severity == "high" && trend == "declining" ==>
                  p.practiceType == FoundationalReview && p.problems >= 20 && p.problems >= problems)
            && (severity == "medium" && trend == "declining" ==>
                  p.practiceType == TargetedReview && p.problems >= 15 && p.problems >= problems)
            && (!(trend == "declining" && (severity == "high" || severity == "medium")) && severity != "improving" ==>
                  p == Plan(StructuredReview, StructuredDuration, problems))
  {
  }

  /** The challenge-problems branch is taken only for the severity
      "improving", which the detector never produces. */
  lemma ChallengeBranchDead(f: Frame, severity: string, trend: string, problems: nat)
    requires exists e :: e in AllGaps(f) && e.1.severity == severity
    ensures PracticePlan(severity, trend, problems).practiceType != ChallengeProblems
  {
    var e :| e in AllGaps(f) && e.1.severity == severity;
    DetectorSeverities(f);
    assert severity != "improving";
    PlanWithoutChallenge(severity, trend, problems);
  }

  /** Any severity other than "improving" gets one of the other three plans. */
  lemma PlanWithoutChallenge(severity: string, trend: string, problems: nat)
    requires severity != "improving"
    ensures PracticePlan(severity, trend, problems).practiceType != ChallengeProblems
  {
    assert ChallengeProblems[0] == 'R';
    assert FoundationalReview[0] == 'F' && TargetedReview[0] == 'T' && StructuredReview[0] == 'S';
  }

  /** The detector's severities are high, medium and low. */
  lemma DetectorSeverities(f: Frame)
    ensures forall e :: e in AllGaps(f) ==> e.1.severity in ["high", "medium", "low"]
  {
    AllGapsConcat(f);
    ConceptGapsShape(f);
    forall e | e in ConceptGaps(f)
      ensures e.1.severity in ["high", "medium", "low"]
    {
      var t :| t in Groups(f.rows, TopicField) && Qualifies(f.rows, t) && e == (GapKey(t), ConceptFinding(f.columns, f.rows, t));
      ConceptFindingShape(f.columns, f.rows, t);
    }
  }

  /** The opening and closing sentences of the description by trend. */
  function TrendWords(trend: string): (string, string) {
    if trend == "declining" then (DecliningOpening, DecliningAction)
    else if trend == "improving" then (ImprovingOpening, ImprovingAction)
    else (StableOpening, StableAction)
  }

  const DecliningOpening: string := "Urgent: Student's understanding is deteriorating. "
  const DecliningAction: string := "Focus on foundational concepts."
  const ImprovingOpening: string := "Student is showing progress, but still has a gap. "
  const ImprovingAction: string := "Reinforce learning with varied problems."
  const StableOpening: string := "Consistent difficulty. "
  const StableAction: string := "Address specific misconceptions."

  /** An entry when its value is present. */
  function EntryIf(present: bool, k: ResourceKey, v: ResourceEntry): ResourceMap {
    if present then [(k, v)] else []
  }

  /** The library's links of a concept review, each when non-empty. */
  function LibraryResources(lib: Option<LibraryEntry>): ResourceMap {
    if lib.Some? then
      EntryIf(lib.value.practiceLink != [], PracticeQuestions, Link(lib.value.practiceLink))
      + EntryIf(lib.value.conceptLink != [], ConceptGuide, Link(lib.value.conceptLink))
      + EntryIf(lib.value.interactiveLink != [], InteractiveGuide, Link(lib.value.interactiveLink))
    else []
  }

  /** The website and video lists of the topic, each when non-empty. */
  function TopicResourceEntries(found: TopicResources): ResourceMap {
    EntryIf(found.websites != [], WebsiteResources, Links(found.websites))
    + EntryIf(found.videos != [], YouTubeVideos, Links(found.videos))
  }

  /** The resources of a concept review: the library's links, then the topic's lists. */
  function ConceptResources(lib: Option<LibraryEntry>, found: TopicResources): ResourceMap {
    LibraryResources(lib) + TopicResourceEntries(found)
  }

  /** The resources map filled key by key. Every key stored is new, so each
      store appends. */
  method BuildConceptResources(lib: Option<LibraryEntry>, found: TopicResources) returns (resources: ResourceMap)
    ensures resources == ConceptResources(lib, found)
  {
    resources := [];
    if lib.Some? {
      var entry := lib.value;
      if entry.practiceLink != [] {
        resources := [(PracticeQuestions, Link(entry.practiceLink))];
      }
      assert resources == EntryIf(entry.practiceLink != [], PracticeQuestions, Link(entry.practiceLink));
      if entry.conceptLink != [] {
        resources := resources + [(ConceptGuide, Link(entry.conceptLink))];
      }
      if entry.interactiveLink != [] {
        resources := resources + [(InteractiveGuide, Link(entry.interactiveLink))];
      }
    }
    ghost var fromLibrary := resources;
    assert fromLibrary == LibraryResources(lib);
    if found.websites != [] {
      resources := resources + [(WebsiteResources, Links(found.websites))];
    }
    if found.videos != [] {
      resources := resources + [(YouTubeVideos, Links(found.videos))];
    }
    assert resources == fromLibrary + TopicResourceEntries(found);
  }

  /** The position of a key in the order the resources are stored. */
  function Slot(k: ResourceKey): nat {
    match k
    case PracticeQuestions => 0
    case ConceptGuide => 1
    case InteractiveGuide => 2
    case WebsiteResources => 3
    case YouTubeVideos => 4
  }
  predicate InSlotOrder(d: ResourceMap) {
    forall i, j :: 0 <= i < j < |d| ==> Slot(d[i].0) < Slot(d[j].0)
  }
  /** All keys of `a` come in slots below `s`, all of `b` from `s` on. */
  predicate Below(d: ResourceMap, s: nat) {
    forall i :: 0 <= i < |d| ==> Slot(d[i].0) < s
  }
  predicate From(d: ResourceMap, s: nat) {
    forall i :: 0 <= i < |d| ==> Slot(d[i].0) >= s
  }
  lemma JoinInSlotOrder(a: ResourceMap, b: ResourceMap, s: nat)
    requires InSlotOrder(a) && InSlotOrder(b) && Below(a, s) && From(b, s)
    ensures InSlotOrder(a + b)
  {
    var d := a + b;
    forall i, j | 0 <= i < j < |d|
      ensures Slot(d[i].0) < Slot(d[j].0)
    {
      if j < |a| {
        assert d[i] == a[i] && d[j] == a[j];
      } else if i >= |a| {
        assert d[i] == b[i - |a|] && d[j] == b[j - |a|];
      } else {
        assert d[i] == a[i] && d[j] == b[j - |a|];
      }
    }
  }
  predicate Slotted(d: ResourceMap, lo: nat, hi: nat) {
    InSlotOrder(d) && From(d, lo) && Below(d, hi)
  }
  lemma EntryIfSlotted(present: bool, k: ResourceKey, v: ResourceEntry)
    ensures Slotted(EntryIf(present, k, v), Slot(k), Slot(k) + 1)
  {
  }
  lemma JoinSlotted(a: ResourceMap, b: ResourceMap, lo: nat, mid: nat, hi: nat)
    requires lo <= mid <= hi && Slotted(a, lo, mid) && Slotted(b, mid, hi)
    ensures Slotted(a + b, lo, hi)
  {
    JoinInSlotOrder(a, b, mid);
    var d := a + b;
    forall i | 0 <= i < |d|
      ensures lo <= Slot(d[i].0) < hi
    {
      if i < |a| {
        assert d[i] == a[i];
      } else {
        assert d[i] == b[i - |a|];
      }
    }
  }
  lemma LibraryResourcesSlotted(lib: Option<LibraryEntry>)
    ensures Slotted(LibraryResources(lib), 0, 3)
  {
    if lib.Some? {
      var e := lib.value;
      var p := EntryIf(e.practiceLink != [], PracticeQuestions, Link(e.practiceLink));
      var c := EntryIf(e.conceptLink != [], ConceptGuide, Link(e.conceptLink));
      var i := EntryIf(e.interactiveLink != [], InteractiveGuide, Link(e.interactiveLink));
      EntryIfSlotted(e.practiceLink != [], PracticeQuestions, Link(e.practiceLink));
      EntryIfSlotted(e.conceptLink != [], ConceptGuide, Link(e.conceptLink));
      EntryIfSlotted(e.interactiveLink != [], InteractiveGuide, Link(e.interactiveLink));
      JoinSlotted(p, c, 0, 1, 2);
      JoinSlotted(p + c, i, 0, 2, 3);
    }
  }
  lemma TopicResourceEntriesSlotted(found: TopicResources)
    ensures Slotted(TopicResourceEntries(found), 3, 5)
  {
    EntryIfSlotted(found.websites != [], WebsiteResources, Links(found.websites));
    EntryIfSlotted(found.videos != [], YouTubeVideos, Links(found.videos));
    JoinSlotted(EntryIf(found.websites != [], WebsiteResources, Links(found.websites)),
                EntryIf(found.videos != [], YouTubeVideos, Links(found.videos)), 3, 4, 5);
  }
  lemma ConceptResourcesDistinct(lib: Option<LibraryEntry>, found: TopicResources)
    ensures DistinctResourceKeys(ConceptResources(lib, found))
  {
    LibraryResourcesSlotted(lib);
    TopicResourceEntriesSlotted(found);
    JoinSlotted(LibraryResources(lib), TopicResourceEntries(found), 0, 3, 5);
    var d := ConceptResources(lib, found);
    forall i, j | 0 <= i < j < |d|
      ensures d[i].0 != d[j].0
    {
      assert Slot(d[i].0) < Slot(d[j].0);
    }
  }
  lemma ResourceKeysConcat(a: ResourceMap, b: ResourceMap)
    ensures ResourceKeys(a + b) == ResourceKeys(a) + ResourceKeys(b)
  {
  }
  lemma EntryIfKeys(present: bool, k: ResourceKey, v: ResourceEntry)
    ensures ResourceKeys(EntryIf(present, k, v)) == if present then [k] else []
  {
  }
  predicate LibraryProvides(lib: Option<LibraryEntry>, k: ResourceKey) {
    match k
    case PracticeQuestions => lib.Some? && lib.value.practiceLink != []
    case ConceptGuide => lib.Some? && lib.value.conceptLink != []
    case InteractiveGuide => lib.Some? && lib.value.interactiveLink != []
    case _ => false
  }
  predicate TopicProvides(found: TopicResources, k: ResourceKey) {
    match k
    case WebsiteResources => found.websites != []
    case YouTubeVideos => found.videos != []
    case _ => false
  }
  lemma LibraryResourcesKeys(lib: Option<LibraryEntry>)
    ensures forall k :: k in ResourceKeys(LibraryResources(lib)) <==> LibraryProvides(lib, k)
  {
    if lib.Some? {
      var e := lib.value;
      var p := EntryIf(e.practiceLink != [], PracticeQuestions, Link(e.practiceLink));
      var c := EntryIf(e.conceptLink != [], ConceptGuide, Link(e.conceptLink));
      var i := EntryIf(e.interactiveLink != [], InteractiveGuide, Link(e.interactiveLink));
      EntryIfKeys(e.practiceLink != [], PracticeQuestions, Link(e.practiceLink));
      EntryIfKeys(e.conceptLink != [], ConceptGuide, Link(e.conceptLink));
      EntryIfKeys(e.interactiveLink != [], InteractiveGuide, Link(e.interactiveLink));
      ResourceKeysConcat(p, c);
      ResourceKeysConcat(p + c, i);
    }
  }
  lemma TopicResourceEntriesKeys(found: TopicResources)
    ensures forall k :: k in ResourceKeys(TopicResourceEntries(found)) <==> TopicProvides(found, k)
  {
    var w := EntryIf(found.websites != [], WebsiteResources, Links(found.websites));
    var v := EntryIf(found.videos != [], YouTubeVideos, Links(found.videos));
    EntryIfKeys(found.websites != [], WebsiteResources, Links(found.websites));
    EntryIfKeys(found.videos != [], YouTubeVideos, Links(found.videos));
    ResourceKeysConcat(w, v);
  }
  /** Each library link, the websites and the videos are present exactly when non-empty. */
  lemma ConceptResourcesKeys(lib: Option<LibraryEntry>, found: TopicResources)
    ensures forall k :: k in ResourceKeys(ConceptResources(lib, found)) <==> LibraryProvides(lib, k) || TopicProvides(found, k)
  {
    LibraryResourcesKeys(lib);
    TopicResourceEntriesKeys(found);
    ResourceKeysConcat(LibraryResources(lib), TopicResourceEntries(found));
  }

  /** The six steps of a concept review. */
  function ConceptSteps(keyConcepts: string, problems: nat, topic: string): (steps: seq<string>)
    ensures |steps| == 6
  {
    ["1. Revisit key concepts: " + keyConcepts,
     "2. Work through " + NatToString(problems / 2) + "- " + NatToString(problems / 2 + 5) + " guided example problems",
     "3. Practice " + NatToString(problems) + " varied problems on " + topic,
     ResourcesStep, FollowUpStep, SupportStep]
  }

  const ResourcesStep: string := "4. Utilize the \"Learning Resources\" below for deeper understanding and additional practice."
  const FollowUpStep: string := "5. Take a follow-up assessment to check understanding"
  const SupportStep: string := "6. Seek teacher support for persistent difficulties."

  /** `_recommend_concept_review`. */
  function ConceptReview(library: Dict<LibraryEntry>, name: string, gap: Finding, lookup: string -> TopicResources): Recommendation {
    var topicRaw := TopicRaw(name);
    var topic := Title(ReplaceChar(topicRaw, '_', ' '));
    var lib := Get(library, topicRaw);
    var problems := if lib.Some? then lib.value.practiceProblems else 10;
    var keyConcepts := Join(if lib.Some? then lib.value.keyConcepts else ["core concepts"], ", ");
    var trend := gap.trend.GetOr("stable");
    var words := TrendWords(trend);
    var plan := PracticePlan(gap.severity, trend, problems);
    var found := lookup(topic);
    Recommendation(
      "Personalized " + topic + " Intervention (" + Capitalize(trend) + ")",
      ConceptText(words.0, topic, gap.score, words.1),
      Upper(gap.severity), plan.practiceType, [topic], plan.duration,
      gap.expectedImpact.GetOr(0.25),
      ConceptSteps(keyConcepts, plan.problems, topic),
      Some(ConceptResources(lib, found)))
  }

  /** A concept review has the severity upper-cased as its priority, its
      topic as the single target and six steps; without an expected impact it
      expects 0.25. */
  lemma ConceptReviewShape(library: Dict<LibraryEntry>, name: string, gap: Finding, lookup: string -> TopicResources)
    ensures var r := ConceptReview(library, name, gap, lookup);
            && r.priority == Upper(gap.severity)
            && r.targetTopics == [Title(ReplaceChar(TopicRaw(name), '_', ' '))]
            && |r.steps| == 6
            && (gap.expectedImpact.None? ==> r.expectedImpact == 0.25)
            && (gap.expectedImpact.Some? ==> r.expectedImpact == gap.expectedImpact.value)
  {
  }

  /** Its resources are the library's links of the topic and the topic's
      lists, no key twice and each present exactly when non-empty. */
  lemma ConceptReviewResources(library: Dict<LibraryEntry>, name: string, gap: Finding, lookup: string -> TopicResources)
    ensures var r := ConceptReview(library, name, gap, lookup);
            var lib := Get(library, TopicRaw(name));
            var found := lookup(Title(ReplaceChar(TopicRaw(name), '_', ' ')));
            && r.resources == Some(ConceptResources(lib, found))
            && DistinctResourceKeys(r.resources.value)
            && (forall k :: k in ResourceKeys(r.resources.value) <==> LibraryProvides(lib, k) || TopicProvides(found, k))
  {
    var lib := Get(library, TopicRaw(name));
    var found := lookup(Title(ReplaceChar(TopicRaw(name), '_', ' ')));
    ConceptResourcesDistinct(lib, found);
    ConceptResourcesKeys(lib, found);
  }

  /** Without a trend the review is a stable, structured one with the
      library's number of problems, 10 for a topic the library lacks. */
  lemma ConceptReviewStable(library: Dict<LibraryEntry>, name: string, gap: Finding, lookup: string -> TopicResources)
    requires gap.trend.None? && gap.severity != "improving"
    ensures var r := ConceptReview(library, name, gap, lookup);
            var topic := Title(ReplaceChar(TopicRaw(name), '_', ' '));
            var lib := Get(library, TopicRaw(name));
            var problems := if lib.Some? then lib.value.practiceProblems else 10;
            && r.title == "Personalized " + topic + " Intervention (Stable)"
            && r.practiceType == StructuredReview
            && r.duration == StructuredDuration
            && r.steps[2] == "3. Practice " + NatToString(problems) + " varied problems on " + topic
  {
    var lib := Get(library, TopicRaw(name));
    var problems := if lib.Some? then lib.value.practiceProblems else 10;
    PracticeTable(gap.severity, "stable", problems);
    StableLabel();
  }

  /** `'stable'.capitalize()` */
  lemma StableLabel()
    ensures Capitalize("stable") == "Stable"
  {
    var t := "table";
    assert Lower(t)[0] == t[0] && Lower(t)[1] == t[1] && Lower(t)[2] == t[2] && Lower(t)[3] == t[3] && Lower(t)[4] == t[4];
    assert Lower(t) == t;
    assert "stable"[1..] == t;
  }

  /** `_create_recommendation`: nothing for a gap name without a template. */
  function CreateRecommendation(library: Dict<LibraryEntry>, name: string, gap: Finding, lookup: string -> TopicResources): (r: Option<Recommendation>)
    ensures r.Some? <==> KindOf(name).Some?
  {
    match KindOf(name)
    case Some(ConceptKind) => Some(ConceptReview(library, name, gap, lookup))
    case Some(ConfidenceKind) => Some(ConfidenceBuilding(gap))
    case Some(SpeedKind) => Some(DeliberatePractice(gap))
    case None => None
  }

  /** The recommendations of the gaps in order, skipping those without a template. */
  function Produced(library: Dict<LibraryEntry>, gaps: Dict<Finding>, lookup: string -> TopicResources): (r: seq<Recommendation>)
    decreases |gaps|
  {
    if gaps == [] then []
    else
      var last := gaps[|gaps| - 1];
      var rest := Produced(library, gaps[..|gaps| - 1], lookup);
      match CreateRecommendation(library, last.0, last.1, lookup)
      case Some(rec) => rest + [rec]
      case None => rest
  }

  /** How many gaps have a template. */
  function Dispatching(gaps: Dict<Finding>): nat
    decreases |gaps|
  {
    if gaps == [] then 0
    else Dispatching(gaps[..|gaps| - 1]) + (if KindOf(gaps[|gaps| - 1].0).Some? then 1 else 0)
  }

  /** One recommendation per gap with a template. */
  lemma {:induction false} ProducedCount(library: Dict<LibraryEntry>, gaps: Dict<Finding>, lookup: string -> TopicResources)
    ensures |Produced(library, gaps, lookup)| == Dispatching(gaps)
    decreases |gaps|
  {
    if gaps != [] {
      ProducedCount(library, gaps[..|gaps| - 1], lookup);
    }
  }

  /** When every gap has a template, every gap counts. */
  lemma {:induction false} AllDispatching(gaps: Dict<Finding>)
    requires forall e :: e in gaps ==> KindOf(e.0).Some?
    ensures Dispatching(gaps) == |gaps|
    decreases |gaps|
  {
    if gaps != [] {
      var prefix := gaps[..|gaps| - 1];
      assert forall e :: e in prefix ==> e in gaps;
      AllDispatching(prefix);
      assert gaps[|gaps| - 1] in gaps;
    }
  }

  /** No gap with a template: nothing is produced. */
  lemma {:induction false} NoneDispatching(library: Dict<LibraryEntry>, gaps: Dict<Finding>, lookup: string -> TopicResources)
    requires forall e :: e in gaps ==> KindOf(e.0).None?
    ensures Produced(library, gaps, lookup) == []
    decreases |gaps|
  {
    if gaps != [] {
      var prefix := gaps[..|gaps| - 1];
      assert forall e :: e in prefix ==> e in gaps;
      NoneDispatching(library, prefix, lookup);
      assert gaps[|gaps| - 1] in gaps;
    }
  }

  /** `generate_recommendations`, on the gaps of an analysis. */
  function Recommendations(library: Dict<LibraryEntry>, gaps: Dict<Finding>, lookup: string -> TopicResources): seq<Recommendation> {
    var produced := Produced(library, SortedGaps(gaps), lookup);
    var recs := if produced == [] then [Maintenance()] else produced;
    if |recs| <= 5 then recs else recs[..5]
  }

  /** The loop over the sorted gaps, the fallback and the cap. The overall
      accuracy the source passes along is not used by any template. */
  method GenerateRecommendations(library: Dict<LibraryEntry>, analysis: Analysis, lookup: string -> TopicResources) returns (recs: seq<Recommendation>)
    ensures recs == Recommendations(library, analysis.gaps, lookup)
  {
    var sortedGaps := SortedGaps(analysis.gaps);
    var recommendations := ProduceInOrder(library, sortedGaps, lookup);
    if recommendations == [] {
      recommendations := [Maintenance()];
    }
    if |recommendations| > 5 {
      recommendations := recommendations[..5];
    }
    recs := recommendations;
  }

  /** The loop over the sorted gaps, appending each recommendation made. */
  method ProduceInOrder(library: Dict<LibraryEntry>, sortedGaps: Dict<Finding>, lookup: string -> TopicResources)
    returns (recommendations: seq<Recommendation>)
    ensures recommendations == Produced(library, sortedGaps, lookup)
  {
    recommendations := [];
    for i := 0 to |sortedGaps|
      invariant recommendations == Produced(library, sortedGaps[..i], lookup)
    {
      assert sortedGaps[..i + 1][..i] == sortedGaps[..i];
      var rec := CreateRecommendation(library, sortedGaps[i].0, sortedGaps[i].1, lookup);
      if rec.Some? {
        recommendations := recommendations + [rec.value];
      }
    }
    assert sortedGaps[..|sortedGaps|] == sortedGaps;
  }

  /** Between one and five recommendations; the produced ones, in sorted gap
      order, when there are any; the single maintenance item otherwise. */
  lemma RecommendationsShape(library: Dict<LibraryEntry>, gaps: Dict<Finding>, lookup: string -> TopicResources)
    ensures var r := Recommendations(library, gaps, lookup);
            var produced := Produced(library, SortedGaps(gaps), lookup);
            && 1 <= |r| <= 5
            && (produced != [] ==> r == produced[..|r|] && |r| == if |produced| <= 5 then |produced| else 5)
            && (produced == [] ==> r == [Maintenance()] && r[0].priority == "LOW" && r[0].expectedImpact == 0.10)
  {
  }

  /** When no gap has a template there is exactly the maintenance item. */
  lemma NoTemplateGivesMaintenance(library: Dict<LibraryEntry>, gaps: Dict<Finding>, lookup: string -> TopicResources)
    requires forall e :: e in gaps ==> KindOf(e.0).None?
    ensures Recommendations(library, gaps, lookup) == [Maintenance()]
  {
    SortedGapsPermutation(gaps);
    assert forall e :: e in SortedGaps(gaps) ==> e in multiset(gaps);
    NoneDispatching(library, SortedGaps(gaps), lookup);
  }

  /** For a detector's analysis every gap yields a recommendation: there are
      as many as gaps, at least one and at most five. */
  lemma DetectorRecommendationCount(library: Dict<LibraryEntry>, f: Frame, lookup: string -> TopicResources)
    requires f.rows != [] ==> CorrectCol in f.columns && TimeTakenCol in f.columns
    ensures var n := |AnalysisOf(f).gaps|;
            |Recommendations(library, AnalysisOf(f).gaps, lookup)| == if n == 0 then 1 else if n <= 5 then n else 5
  {
    var gaps := AnalysisOf(f).gaps;
    if f.rows != [] {
      assert gaps == AllGaps(f);
      DetectorGapsDispatch(f);
    }
    DispatchingCount(library, gaps, lookup);
  }

  /** When every gap has a template there are as many recommendations as
      gaps, at least one and at most five. */
  lemma DispatchingCount(library: Dict<LibraryEntry>, gaps: Dict<Finding>, lookup: string -> TopicResources)
    requires forall e :: e in gaps ==> KindOf(e.0).Some?
    ensures var n := |gaps|;
            |Recommendations(library, gaps, lookup)| == if n == 0 then 1 else if n <= 5 then n else 5
  {
    SortedGapsPermutation(gaps);
    var sorted := SortedGaps(gaps);
    assert |sorted| == |multiset(sorted)| == |gaps|;
    assert forall e :: e in sorted ==> e in multiset(gaps);
    AllDispatching(sorted);
    ProducedCount(library, sorted, lookup);
  }

  // ---------------------------------------------------------------- improvement time

  /** `estimate_improvement_time` */
  function EstimateImprovementTime(severity: string): string {
    if severity == "high" then "2-3 weeks"
    else if severity == "medium" then "1-2 weeks"
    else if severity == "low" then "3-5 days"
    else "1 week"
  }

  /** Each estimate belongs to one severity; anything unknown takes a week. */
  lemma ImprovementTimes(severity: string)
    ensures EstimateImprovementTime(severity) == "2-3 weeks" <==> severity == "high"
    ensures EstimateImprovementTime(severity) == "1-2 weeks" <==> severity == "medium"
    ensures EstimateImprovementTime(severity) == "3-5 days" <==> severity == "low"
    ensures EstimateImprovementTime(severity) == "1 week" <==> severity !in ["high", "medium", "low"]
  {
  }
}
