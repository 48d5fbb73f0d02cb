/**
 * The attempt log every analysis reads: one row per answered question, held in
 * a frame that records which of the columns are present. Row selection,
 * counting, grouping by a key column, the time statistics and the sort by
 * timestamp live here.
 */
module Attempts {

  import opened OrderedDict

  /** The columns a frame may carry. */
  datatype Column = StudentIdCol | QuestionIdCol | TopicCol | CorrectCol | TimeTakenCol | TimestampCol

  /** One answered question. `correct` is the stored value of the Correct
      column (0 or 1 after ingestion), `time` is Time_Taken in seconds and
      `timestamp` is the attempt time in whole seconds. */
  datatype Attempt = Attempt(
    studentId: string,
    questionId: string,
    topic: string,
    correct: int,
    time: real,
    timestamp: int)

  /** A data frame: the present columns and the rows. The fields of a row
      whose column is absent carry no meaning. */
  datatype Frame = Frame(columns: set<Column>, rows: seq<Attempt>)

  /** What ingestion guarantees of every row: Correct is 0 or 1 and
      Time_Taken is at least 10 seconds. */
  predicate Normalized(rows: seq<Attempt>) {
    forall i :: 0 <= i < |rows| ==> (rows[i].correct == 0 || rows[i].correct == 1) && rows[i].time >= 10.0
  }

  /** The key columns rows are grouped by. */
  datatype Field = TopicField | StudentField

  function KeyOf(a: Attempt, fld: Field): string {
    match fld
    case TopicField => a.topic
    case StudentField => a.studentId
  }

  /** Row tests used to select rows (the boolean masks of the source). With
      `zeroAsOne` a standard deviation of zero is replaced by one before the
      comparison, as the gap-type classifier does. */
  datatype Test =
    | Any
    | IsCorrect                 // Correct == 1
    | IsWrong                   // Correct == 0
    | TimeAbove(bound: real)    // Time_Taken > bound
    | TimeBelow(bound: real)    // Time_Taken < bound
    | FastAgainst(ref: seq<real>, zeroAsOne: bool)  // Time_Taken < mean(ref) - std(ref)
    | SlowAgainst(ref: seq<real>, zeroAsOne: bool)  // Time_Taken > mean(ref) + std(ref)
    | KeyIs(fld: Field, key: string)
    | Not(t: Test)
    | And(l: Test, r: Test)

  predicate Holds(a: Attempt, t: Test) {
    match t
    case Any => true
    case IsCorrect => a.correct == 1
    case IsWrong => a.correct == 0
    case TimeAbove(b) => a.time > b
    case TimeBelow(b) => a.time < b
    case FastAgainst(ref, one) =>
      if one && StdIsZero(ref) then a.time < Mean(ref) - 1.0 else StdLess(ref, Mean(ref) - a.time)
    case SlowAgainst(ref, one) =>
      if one && StdIsZero(ref) then a.time > Mean(ref) + 1.0 else StdLess(ref, a.time - Mean(ref))
    case KeyIs(fld, k) => KeyOf(a, fld) == k
    case Not(u) => !Holds(a, u)
    case And(l, r) => Holds(a, l) && Holds(a, r)
  }

  /** `df[mask]`: the rows passing `t`, in their original order. */
  function Select(rows: seq<Attempt>, t: Test): (r: seq<Attempt>)
    ensures |r| <= |rows|
    ensures forall i :: 0 <= i < |r| ==> Holds(r[i], t)
  {
    if rows == [] then []
    else Select(rows[..|rows| - 1], t) + (if Holds(rows[|rows| - 1], t) then [rows[|rows| - 1]] else [])
  }

  /** No row passes `t`: the selection is empty. */
  lemma {:induction false} SelectNone(rows: seq<Attempt>, t: Test)
    requires forall i :: 0 <= i < |rows| ==> !Holds(rows[i], t)
    ensures Select(rows, t) == []
  {
    if rows != [] {
      SelectNone(rows[..|rows| - 1], t);
    }
  }

  /** When no row passes `u`, no row of a narrower selection does. */
  lemma SelectNarrowEmpty(rows: seq<Attempt>, t: Test, u: Test)
    requires Select(rows, u) == []
    ensures Select(Select(rows, t), u) == []
  {
    SelectTwice(rows, t, u);
    SelectBothEmpty(rows, t, u);
  }

  lemma {:induction false} SelectBothEmpty(rows: seq<Attempt>, t: Test, u: Test)
    requires Select(rows, u) == []
    ensures Select(rows, And(t, u)) == []
  {
    if rows != [] {
      SelectBothEmpty(rows[..|rows| - 1], t, u);
    }
  }

  /** `mask.sum()`: how many rows pass `t`. */
  function Count(rows: seq<Attempt>, t: Test): (n: nat)
    ensures n <= |rows|
  {
    |Select(rows, t)|
  }

  /** The count of a non-empty frame: that of all rows but the last, plus the last. */
  lemma CountLast(rows: seq<Attempt>, t: Test)
    requires rows != []
    ensures Count(rows, t) == Count(rows[..|rows| - 1], t) + (if Holds(rows[|rows| - 1], t) then 1 else 0)
  {
  }

  lemma {:induction false} SelectAppend(a: seq<Attempt>, b: seq<Attempt>, t: Test)
    ensures Select(a + b, t) == Select(a, t) + Select(b, t)
    decreases |b|
  {
    if b == [] {
      assert a + b == a;
    } else {
      var b' := b[..|b| - 1];
      var x := b[|b| - 1];
      var last := if Holds(x, t) then [x] else [];
      assert (a + b)[..|a + b| - 1] == a + b';
      assert (a + b)[|a + b| - 1] == x;
      SelectAppend(a, b', t);
      assert Select(a + b, t) == Select(a + b', t) + last;
      assert Select(b, t) == Select(b', t) + last;
    }
  }

  lemma {:induction false} SelectAll(rows: seq<Attempt>)
    ensures Select(rows, Any) == rows
  {
    if rows != [] {
      SelectAll(rows[..|rows| - 1]);
    }
  }

  /** Every row either passes `u` or does not: the two splits of a
      selection add up to it. */
  lemma {:induction false} CountSplit(rows: seq<Attempt>, t: Test, u: Test)
    ensures Count(rows, And(t, u)) + Count(rows, And(t, Not(u))) == Count(rows, t)
  {
    if rows != [] {
      CountSplit(rows[..|rows| - 1], t, u);
      CountLast(rows, And(t, u));
      CountLast(rows, And(t, Not(u)));
      CountLast(rows, t);
    }
  }

  /** Tests that agree on every row select the same number of rows. */
  lemma {:induction false} CountSame(rows: seq<Attempt>, t: Test, u: Test)
    requires forall a :: Holds(a, t) <==> Holds(a, u)
    ensures Count(rows, t) == Count(rows, u)
  {
    if rows != [] {
      CountSame(rows[..|rows| - 1], t, u);
      CountLast(rows, t);
      CountLast(rows, u);
    }
  }

  /** Rows that pass `t` and fail `u` are the rows that pass `t` when no row passes both. */
  lemma {:induction false} CountExclusive(rows: seq<Attempt>, t: Test, u: Test)
    requires forall a :: Holds(a, t) ==> !Holds(a, u)
    ensures Count(rows, And(Not(u), t)) == Count(rows, t)
  {
    if rows != [] {
      CountExclusive(rows[..|rows| - 1], t, u);
      CountLast(rows, And(Not(u), t));
      CountLast(rows, t);
    }
  }

  /** Selecting within a selection is selecting by both tests. */
  lemma {:induction false} SelectTwice(rows: seq<Attempt>, t: Test, u: Test)
    ensures Select(Select(rows, t), u) == Select(rows, And(t, u))
  {
    if rows != [] {
      var prefix := rows[..|rows| - 1];
      var last := rows[|rows| - 1];
      SelectTwice(prefix, t, u);
      var s := Select(prefix, t);
      if Holds(last, t) {
        assert Select(rows, t) == s + [last];
        assert (s + [last])[..|s + [last]| - 1] == s;
      } else {
        assert Select(rows, t) == s;
      }
    }
  }

  /** With 0/1 values, every row is correct or wrong. */
  lemma {:induction false} CorrectPlusWrong(rows: seq<Attempt>)
    requires Normalized(rows)
    ensures Count(rows, IsCorrect) + Count(rows, IsWrong) == |rows|
  {
    if rows != [] {
      var prefix := rows[..|rows| - 1];
      assert Normalized(prefix) by {
        assert forall i :: 0 <= i < |prefix| ==> prefix[i] == rows[i];
      }
      CorrectPlusWrong(prefix);
    }
  }

  /** `a / n`, or 0 when `n` is 0 (the source's `x / len(df) if len(df) > 0 else 0`). */
  function Ratio(a: nat, n: nat): (r: real)
    ensures 0.0 <= r
    ensures a <= n ==> r <= 1.0
    ensures n > 0 ==> r * (n as real) == a as real
    ensures n == 0 ==> r == 0.0
  {
    if n == 0 then 0.0 else a as real / n as real
  }

  lemma RatioWhole(n: nat)
    requires n > 0
    ensures Ratio(n, n) == 1.0
  {
  }

  /** A ratio below one has its numerator below its denominator. */
  lemma RatioBelowOne(a: nat, n: nat)
    requires n > 0 && Ratio(a, n) < 1.0
    ensures a < n
  {
    var r, m := Ratio(a, n), n as real;
    MulLt(r, 1.0, m);
    assert r * m == a as real && 1.0 * m == m;
    assert (a as real) < m;
  }

  /** Appending one row adds one to the count when the row passes. */
  lemma CountAppendOne(s: seq<Attempt>, a: Attempt, t: Test)
    ensures Count(s + [a], t) == Count(s, t) + (if Holds(a, t) then 1 else 0)
  {
    assert (s + [a])[..|s|] == s;
  }

  // ---------------------------------------------------------------- time statistics

  /** `df['Correct'].sum()`: the stored values added up, whatever they are. */
  function CorrectSum(rows: seq<Attempt>): int {
    if rows == [] then 0 else CorrectSum(rows[..|rows| - 1]) + rows[|rows| - 1].correct
  }

  /** `df['Correct'].sum() / len(df) if len(df) > 0 else 0`: the mean of the
      stored values. */
  function MeanCorrect(rows: seq<Attempt>): (r: real)
    ensures |rows| == 0 ==> r == 0.0
    ensures |rows| > 0 ==> r * (|rows| as real) == CorrectSum(rows) as real
  {
    if |rows| == 0 then 0.0 else CorrectSum(rows) as real / |rows| as real
  }

  /** On 0/1 values the sum is the number of correct rows, so the mean is the
      accuracy. */
  lemma {:induction false} CorrectSumCounts(rows: seq<Attempt>)
    requires forall i :: 0 <= i < |rows| ==> rows[i].correct == 0 || rows[i].correct == 1
    ensures CorrectSum(rows) == Count(rows, IsCorrect)
    ensures MeanCorrect(rows) == Ratio(Count(rows, IsCorrect), |rows|)
  {
    if rows != [] {
      var prefix := rows[..|rows| - 1];
      assert forall i :: 0 <= i < |prefix| ==> prefix[i] == rows[i];
      CorrectSumCounts(prefix);
      CountLast(rows, IsCorrect);
    }
  }

  function Times(rows: seq<Attempt>): (ts: seq<real>)
    ensures |ts| == |rows| && forall i :: 0 <= i < |rows| ==> ts[i] == rows[i].time
  {
    seq(|rows|, i requires 0 <= i < |rows| => rows[i].time)
  }

  function Sum(xs: seq<real>): real {
    if xs == [] then 0.0 else Sum(xs[..|xs| - 1]) + xs[|xs| - 1]
  }

  /** `series.mean()`, taken as 0 for an empty series (never used on one). */
  function Mean(xs: seq<real>): real {
    if xs == [] then 0.0 else Sum(xs) / |xs| as real
  }

  lemma {:induction false} SumAtLeast(xs: seq<real>, lo: real)
    requires forall i :: 0 <= i < |xs| ==> xs[i] >= lo
    ensures Sum(xs) >= lo * |xs| as real
  {
    if xs != [] {
      SumAtLeast(xs[..|xs| - 1], lo);
    }
  }

  /** A mean of values at least `lo` is at least `lo`. */
  lemma MeanAtLeast(xs: seq<real>, lo: real)
    requires |xs| > 0
    requires forall i :: 0 <= i < |xs| ==> xs[i] >= lo
    ensures Mean(xs) >= lo
  {
    SumAtLeast(xs, lo);
  }

  lemma {:induction false} SumConstant(xs: seq<real>, c: real)
    requires forall i :: 0 <= i < |xs| ==> xs[i] == c
    ensures Sum(xs) == c * |xs| as real
  {
    if xs != [] {
      SumConstant(xs[..|xs| - 1], c);
    }
  }

  /** The mean of a series whose values are all `c` is `c`. */
  lemma MeanConstant(xs: seq<real>, c: real)
    requires |xs| > 0
    requires forall i :: 0 <= i < |xs| ==> xs[i] == c
    ensures Mean(xs) == c
  {
    SumConstant(xs, c);
  }

  /** Sum of squared deviations from `m`. */
  function SquaredDeviation(xs: seq<real>, m: real): (r: real)
    ensures r >= 0.0
  {
    if xs == [] then 0.0
    else
      var d := xs[|xs| - 1] - m;
      assert d * d >= 0.0 by {
        if d < 0.0 { assert d * d == (-d) * (-d); }
      }
      SquaredDeviation(xs[..|xs| - 1], m) + d * d
  }

  /** The sample variance (pandas `std()` uses one degree of freedom). */
  function SampleVariance(xs: seq<real>): (v: real)
    requires |xs| >= 2
    ensures v >= 0.0
  {
    SquaredDeviation(xs, Mean(xs)) / (|xs| - 1) as real
  }

  lemma {:induction false} SquaredDeviationAtMean(xs: seq<real>, m: real)
    requires forall i :: 0 <= i < |xs| ==> xs[i] == m
    ensures SquaredDeviation(xs, m) == 0.0
  {
    if xs != [] {
      SquaredDeviationAtMean(xs[..|xs| - 1], m);
    }
  }

  /** A series of at least two equal values has standard deviation 0. */
  lemma StdOfConstant(xs: seq<real>, c: real)
    requires |xs| >= 2
    requires forall i :: 0 <= i < |xs| ==> xs[i] == c
    ensures StdIsZero(xs)
  {
    MeanConstant(xs, c);
    SquaredDeviationAtMean(xs, c);
  }

  /** `std(xs) < k`. The sample standard deviation of fewer than two values is
      NaN, and every comparison with NaN is false. Otherwise, as the standard
      deviation is the non-negative square root of the variance, `std < k`
      holds exactly when `k` is positive and the variance is below `k * k`. */
  predicate StdLess(xs: seq<real>, k: real) {
    |xs| >= 2 && k > 0.0 && SampleVariance(xs) < k * k
  }

  /** `std(xs) == 0` */
  predicate StdIsZero(xs: seq<real>) {
    |xs| >= 2 && SampleVariance(xs) == 0.0
  }

  /** When all times are equal, the deviation is zero and replaced by one, so
      no row is fast or slow. */
  lemma EqualTimesNoSpread(rows: seq<Attempt>)
    requires |rows| >= 2 && forall i :: 0 <= i < |rows| ==> rows[i].time == rows[0].time
    ensures Count(rows, FastAgainst(Times(rows), true)) == 0 && Count(rows, SlowAgainst(Times(rows), true)) == 0
  {
    var ts, c := Times(rows), rows[0].time;
    MeanConstant(ts, c);
    SquaredDeviationAtMean(ts, c);
    assert StdIsZero(ts);
    SelectNone(rows, FastAgainst(ts, true));
    SelectNone(rows, SlowAgainst(ts, true));
  }

  lemma MulLe(x: real, y: real, z: real)
    requires x <= y && z >= 0.0
    ensures x * z <= y * z
  {
  }

  lemma MulLt(x: real, y: real, z: real)
    requires x < y && z > 0.0
    ensures x * z < y * z
  {
  }

  // The two steps of `a * a < b * b` are kept in separate lemmas over named
  // products: given together, the solver does not combine them reliably.
  lemma SquareLowerStep(a: real, b: real, x: real, y: real)
    requires 0.0 <= a && a <= b && x == a * a && y == a * b
    ensures x <= y
  {
    MulLe(a, b, a);
  }

  lemma SquareUpperStep(a: real, b: real, y: real, z: real)
    requires 0.0 <= a && a < b && y == a * b && z == b * b
    ensures y < z
  {
    MulLt(a, b, b);
  }

  lemma SquareSteps(a: real, b: real, x: real, y: real, z: real)
    requires 0.0 <= a && a < b && x == a * a && y == a * b && z == b * b
    ensures x < z
  {
    SquareLowerStep(a, b, x, y);
    SquareUpperStep(a, b, y, z);
  }

  /** Squaring is strictly increasing on the non-negative reals. */
  lemma SquareBelow(a: real, b: real)
    requires 0.0 <= a && a < b
    ensures a * a < b * b
  {
    SquareSteps(a, b, a * a, a * b, b * b);
  }

  lemma StdBelowCase(k: real, sd: real, v: real, kk: real)
    requires 0.0 <= sd && sd < k && v == sd * sd && kk == k * k
    ensures v < kk
  {
    SquareBelow(sd, k);
  }

  lemma StdAtLeastCase(k: real, sd: real, v: real, kk: real)
    requires 0.0 < k && k <= sd && v == sd * sd && kk == k * k
    ensures kk <= v
  {
    if k < sd {
      SquareBelow(k, sd);
    }
  }

  /** StdLess is the comparison `sd < k` for the standard deviation `sd`, the
      non-negative number whose square is the sample variance. */
  lemma StdLessMeansBelow(xs: seq<real>, k: real, sd: real)
    requires |xs| >= 2 && sd >= 0.0 && sd * sd == SampleVariance(xs)
    ensures StdLess(xs, k) <==> sd < k
  {
    if k > 0.0 {
      if sd < k {
        StdBelowCase(k, sd, SampleVariance(xs), k * k);
      } else {
        StdAtLeastCase(k, sd, SampleVariance(xs), k * k);
      }
    }
  }

  // ---------------------------------------------------------------- grouping

  function KeysOf(rows: seq<Attempt>, fld: Field): (ks: seq<string>)
    ensures |ks| == |rows| && forall i :: 0 <= i < |rows| ==> ks[i] == KeyOf(rows[i], fld)
  {
    seq(|rows|, i requires 0 <= i < |rows| => KeyOf(rows[i], fld))
  }

  predicate NoDuplicates(xs: seq<string>) {
    forall i, j :: 0 <= i < j < |xs| ==> xs[i] != xs[j]
  }

  /** `series.unique()`: each value once, in order of first appearance. */
  function Distinct(xs: seq<string>): (r: seq<string>)
    ensures NoDuplicates(r)
    ensures forall x :: x in r <==> x in xs
  {
    if xs == [] then []
    else
      var d := Distinct(xs[..|xs| - 1]);
      assert xs == xs[..|xs| - 1] + [xs[|xs| - 1]];
      if xs[|xs| - 1] in d then d else d + [xs[|xs| - 1]]
  }

  /** The distinct values come in the order of their first positions. */
  lemma {:induction false} DistinctInOrder(xs: seq<string>)
    ensures forall i, j :: 0 <= i < j < |Distinct(xs)| ==>
              FirstIndex(xs, Distinct(xs)[i]) < FirstIndex(xs, Distinct(xs)[j])
  {
    if xs != [] {
      var p := xs[..|xs| - 1];
      DistinctInOrder(p);
      assert xs == p + [xs[|xs| - 1]];
      FirstIndexExtend(p, xs[|xs| - 1]);
    }
  }

  /** A position holding `y` with no earlier `y` is its first position. */
  lemma FirstIndexUnique(xs: seq<string>, y: string, k: nat)
    requires k < |xs| && xs[k] == y && y !in xs[..k]
    ensures FirstIndex(xs, y) == k
  {
  }

  /** Appending a value moves no first position, and a value new to `p`
      is first found at the end. */
  lemma FirstIndexExtend(p: seq<string>, x: string)
    ensures forall y :: y in p ==> FirstIndex(p + [x], y) == FirstIndex(p, y)
    ensures x !in p ==> FirstIndex(p + [x], x) == |p|
  {
    var xs := p + [x];
    forall y | y in p
      ensures FirstIndex(xs, y) == FirstIndex(p, y)
    {
      var k := FirstIndex(p, y);
      assert xs[..k] == p[..k];
      FirstIndexUnique(xs, y, k);
    }
    if x !in p {
      assert xs[..|p|] == p;
      FirstIndexUnique(xs, x, |p|);
    }
  }

  /** The distinct values of a key column, in order of first appearance. */
  function Groups(rows: seq<Attempt>, fld: Field): (ks: seq<string>)
    ensures NoDuplicates(ks)
    ensures forall k :: k in ks <==> exists i :: 0 <= i < |rows| && KeyOf(rows[i], fld) == k
  {
    var keys := KeysOf(rows, fld);
    var r := Distinct(keys);
    assert forall k :: k in keys <==> exists i :: 0 <= i < |rows| && KeyOf(rows[i], fld) == k;
    r
  }

  /** The groups come in the order in which their keys first occur in the
      column. */
  lemma GroupsInOrder(rows: seq<Attempt>, fld: Field)
    ensures forall k :: k in Groups(rows, fld) ==> k in KeysOf(rows, fld)
    ensures forall i, j :: 0 <= i < j < |Groups(rows, fld)| ==>
              FirstIndex(KeysOf(rows, fld), Groups(rows, fld)[i]) < FirstIndex(KeysOf(rows, fld), Groups(rows, fld)[j])
  {
    assert Groups(rows, fld) == Distinct(KeysOf(rows, fld));
    DistinctInOrder(KeysOf(rows, fld));
  }

  /** `df[df[fld] == k]` */
  function Group(rows: seq<Attempt>, fld: Field, k: string): seq<Attempt> {
    Select(rows, KeyIs(fld, k))
  }

  /** The sum, over the keys `ks`, of how many rows of each key's group pass `t`. */
  function GroupSum(rows: seq<Attempt>, ks: seq<string>, fld: Field, t: Test): nat {
    if ks == [] then 0
    else GroupSum(rows, ks[..|ks| - 1], fld, t) + Count(Group(rows, fld, ks[|ks| - 1]), t)
  }

  lemma {:induction false} GroupSumAppendKey(rows: seq<Attempt>, ks: seq<string>, k: string, fld: Field, t: Test)
    ensures GroupSum(rows, ks + [k], fld, t) == GroupSum(rows, ks, fld, t) + Count(Group(rows, fld, k), t)
  {
    assert (ks + [k])[..|ks|] == ks;
  }

  /** Adding one row to the frame adds it to the group of its own key only. */
  lemma GroupAppendRow(rows: seq<Attempt>, x: Attempt, fld: Field, k: string, t: Test)
    ensures Count(Group(rows + [x], fld, k), t)
         == Count(Group(rows, fld, k), t) + (if KeyOf(x, fld) == k && Holds(x, t) then 1 else 0)
  {
    SelectAppend(rows, [x], KeyIs(fld, k));
    assert Select([x], KeyIs(fld, k)) == if KeyOf(x, fld) == k then [x] else [];
    if KeyOf(x, fld) == k {
      SelectAppend(Group(rows, fld, k), [x], t);
      assert Select([x], t) == if Holds(x, t) then [x] else [];
    } else {
      assert Group(rows + [x], fld, k) == Group(rows, fld, k);
    }
  }

  /** Adding one row to the frame adds one to the sum exactly when the row's
      key is among `ks` (once, as `ks` has no duplicates) and the row passes `t`. */
  lemma {:induction false} GroupSumAppendRow(rows: seq<Attempt>, x: Attempt, ks: seq<string>, fld: Field, t: Test)
    requires NoDuplicates(ks)
    ensures GroupSum(rows + [x], ks, fld, t)
         == GroupSum(rows, ks, fld, t) + (if KeyOf(x, fld) in ks && Holds(x, t) then 1 else 0)
  {
    if ks != [] {
      var ks' := ks[..|ks| - 1];
      var k := ks[|ks| - 1];
      var key := KeyOf(x, fld);
      assert ks == ks' + [k];
      assert NoDuplicates(ks');
      GroupSumAppendRow(rows, x, ks', fld, t);
      GroupAppendRow(rows, x, fld, k, t);
      assert (key in ks) == (key in ks' || key == k);
      assert key == k ==> k !in ks';
      assert GroupSum(rows + [x], ks, fld, t) == GroupSum(rows + [x], ks', fld, t) + Count(Group(rows + [x], fld, k), t);
      assert GroupSum(rows, ks, fld, t) == GroupSum(rows, ks', fld, t) + Count(Group(rows, fld, k), t);
    }
  }

  /** Keys that no row carries contribute nothing. */
  lemma {:induction false} GroupOfAbsentKey(rows: seq<Attempt>, fld: Field, k: string)
    requires forall i :: 0 <= i < |rows| ==> KeyOf(rows[i], fld) != k
    ensures Group(rows, fld, k) == []
  {
    if rows != [] {
      GroupOfAbsentKey(rows[..|rows| - 1], fld, k);
    }
  }

  /** A key some row carries has a non-empty group. */
  lemma {:induction false} GroupNonEmpty(rows: seq<Attempt>, fld: Field, k: string, j: nat)
    requires j < |rows| && KeyOf(rows[j], fld) == k
    ensures |Group(rows, fld, k)| > 0
  {
    if j < |rows| - 1 {
      GroupNonEmpty(rows[..|rows| - 1], fld, k, j);
    }
  }

  /** The groups of a frame with one more row: one more group when its key is new. */
  lemma GroupsLast(rows: seq<Attempt>, fld: Field)
    requires rows != []
    ensures var gs := Groups(rows[..|rows| - 1], fld);
            var k := KeyOf(rows[|rows| - 1], fld);
            Groups(rows, fld) == if k in gs then gs else gs + [k]
  {
    assert KeysOf(rows, fld)[..|rows| - 1] == KeysOf(rows[..|rows| - 1], fld);
  }

  /** The group of a key first seen in the last row is that row alone. */
  lemma GroupOfNewKey(rows: seq<Attempt>, x: Attempt, fld: Field, t: Test)
    requires forall i :: 0 <= i < |rows| ==> KeyOf(rows[i], fld) != KeyOf(x, fld)
    ensures Count(Group(rows + [x], fld, KeyOf(x, fld)), t) == if Holds(x, t) then 1 else 0
  {
    var k := KeyOf(x, fld);
    GroupOfAbsentKey(rows, fld, k);
    GroupAppendRow(rows, x, fld, k, t);
  }

  /** Grouping partitions the rows: summed over all groups, the rows passing
      `t` are exactly the rows of the frame passing `t`. */
  lemma {:induction false} GroupsPartition(rows: seq<Attempt>, fld: Field, t: Test)
    ensures GroupSum(rows, Groups(rows, fld), fld, t) == Count(rows, t)
  {
    if rows != [] {
      var prefix := rows[..|rows| - 1];
      var x := rows[|rows| - 1];
      assert rows == prefix + [x];
      var gs := Groups(prefix, fld);
      var k := KeyOf(x, fld);
      GroupsPartition(prefix, fld, t);
      GroupSumAppendRow(prefix, x, gs, fld, t);
      GroupsLast(rows, fld);
      CountLast(rows, t);
      if k !in gs {
        GroupSumAppendKey(rows, gs, k, fld, t);
        GroupOfNewKey(prefix, x, fld, t);
      }
    }
  }

  // ---------------------------------------------------------------- ordering by time

  predicate SortedByTimestamp(rows: seq<Attempt>) {
    forall i, j :: 0 <= i < j < |rows| ==> rows[i].timestamp <= rows[j].timestamp
  }

  /** Inserts `x` after every row of `s` that is not later than it. */
  function Insert(x: Attempt, s: seq<Attempt>): (r: seq<Attempt>)
    requires SortedByTimestamp(s)
    ensures SortedByTimestamp(r)
    ensures multiset(r) == multiset(s) + multiset{x}
    ensures |r| == |s| + 1
    ensures forall i :: 0 <= i < |r| ==> r[i] == x || r[i] in s
  {
    if s == [] || s[|s| - 1].timestamp <= x.timestamp then s + [x]
    else
      var last := s[|s| - 1];
      var s' := s[..|s| - 1];
      assert s == s' + [last];
      var r' := Insert(x, s');
      assert forall i :: 0 <= i < |r'| ==> r'[i].timestamp <= last.timestamp;
      r' + [last]
  }

  /** `df.sort_values('Timestamp')`: ordered by timestamp, ties in their
      original order. */
  function SortByTimestamp(rows: seq<Attempt>): (r: seq<Attempt>)
    ensures SortedByTimestamp(r)
    ensures multiset(r) == multiset(rows)
    ensures |r| == |rows|
  {
    if rows == [] then []
    else
      assert rows == rows[..|rows| - 1] + [rows[|rows| - 1]];
      Insert(rows[|rows| - 1], SortByTimestamp(rows[..|rows| - 1]))
  }

  /** Inserting a row adds it to the count of every test it passes. */
  lemma {:induction false} CountInsert(x: Attempt, s: seq<Attempt>, t: Test)
    requires SortedByTimestamp(s)
    ensures Count(Insert(x, s), t) == Count(s, t) + (if Holds(x, t) then 1 else 0)
    decreases |s|
  {
    if s == [] || s[|s| - 1].timestamp <= x.timestamp {
      CountAppendOne(s, x, t);
    } else {
      var last := s[|s| - 1];
      var s' := s[..|s| - 1];
      assert s == s' + [last];
      CountInsert(x, s', t);
      CountAppendOne(Insert(x, s'), last, t);
      CountAppendOne(s', last, t);
    }
  }

  /** Sorting changes no count. */
  lemma {:induction false} CountSorted(rows: seq<Attempt>, t: Test)
    ensures Count(SortByTimestamp(rows), t) == Count(rows, t)
  {
    if rows != [] {
      var prefix := rows[..|rows| - 1];
      CountSorted(prefix, t);
      CountInsert(rows[|rows| - 1], SortByTimestamp(prefix), t);
      CountLast(rows, t);
    }
  }
}
