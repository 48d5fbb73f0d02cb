/**
 * Pulling a class (grade) number out of a student ID
 * (`extract_class_from_student_id`). The ID is lower-cased and four
 * regular expressions are tried in turn; the first that finds a match
 * decides. Each expression is modelled as the leftmost-match scan that
 * `re.search` performs, with Python's meaning of `\s`, `\d` and `$`
 * (which also matches just before a final newline).
 */
module ClassExtractor {
  import opened Wrappers
  import opened Text

  /** `[_-]` */
  predicate IsSeparator(c: char) { c == '_' || c == '-' }

  const ClassWord := "class"
  const CWord := "c"
  const GrWord := "gr"
  const GradeWord := "grade"

  /** `w` occurs in `s` at position `p`. */
  predicate WordAt(s: string, p: nat, w: string) {
    p + |w| <= |s| && s[p..p + |w|] == w
  }

  /** The end of the run of whitespace (`\s*`, greedy) starting at `i`. */
  function SkipSpaces(s: string, i: nat): (j: nat)
    requires i <= |s|
    ensures i <= j <= |s|
    ensures forall k :: i <= k < j ==> IsSpace(s[k])
    ensures j == |s| || !IsSpace(s[j])
    decreases |s| - i
  {
    if i == |s| || !IsSpace(s[i]) then i else SkipSpaces(s, i + 1)
  }

  /** The end of the run of digits (`\d+`, greedy) starting at `i`. */
  function DigitRun(s: string, i: nat): (j: nat)
    requires i <= |s|
    ensures i <= j <= |s|
    ensures forall k :: i <= k < j ==> IsDigit(s[k])
    ensures j == |s| || !IsDigit(s[j])
    decreases |s| - i
  {
    if i == |s| || !IsDigit(s[i]) then i else DigitRun(s, i + 1)
  }

  /**
   * `\s*[_-]?\s*(\d+)` matched from position `i`: the value of the captured
   * digits, or None when the expression does not match there. Greedy
   * matching loses nothing to backtracking here, since giving back a space
   * or the separator only puts a non-digit in front of `\d+`.
   */
  function NumberAfter(s: string, i: nat): (r: Option<nat>)
    requires i <= |s|
    ensures r.Some? <==>
      var j := SkipSpaces(s, i);
      var j' := SkipSpaces(s, if j < |s| && IsSeparator(s[j]) then j + 1 else j);
      j' < |s| && IsDigit(s[j'])
  {
    var j := SkipSpaces(s, i);
    var j' := SkipSpaces(s, if j < |s| && IsSeparator(s[j]) then j + 1 else j);
    var k := DigitRun(s, j');
    if j' < k then Some(DigitsValue(s[j'..k])) else None
  }

  /** `w\s*[_-]?\s*(\d+)` matched at position `p`, for a literal word `w`. */
  function WordNumberAt(s: string, p: nat, w: string): Option<nat> {
    if WordAt(s, p, w) then NumberAfter(s, p + |w|) else None
  }

  /** `class\s*[_-]?\s*(\d+)` matched at position `p`. */
  function ClassAt(s: string, p: nat): Option<nat> {
    WordNumberAt(s, p, ClassWord)
  }

  /** `(?:c|gr|grade)\s*[_-]?\s*(\d+)` matched at position `p`: the
      alternatives are tried in the order written. */
  function GradeAt(s: string, p: nat): Option<nat> {
    if WordNumberAt(s, p, CWord).Some? then WordNumberAt(s, p, CWord)
    else if WordNumberAt(s, p, GrWord).Some? then WordNumberAt(s, p, GrWord)
    else WordNumberAt(s, p, GradeWord)
  }

  /** Python's `$` without MULTILINE: the end of the string, or just before
      a newline that ends it. */
  predicate AtEnd(s: string, k: nat) {
    k == |s| || (k + 1 == |s| && s[k] == '\n')
  }

  function DigitOf(c: char): nat
    requires IsDigit(c)
  {
    c as int - '0' as int
  }

  /** `[_-](\d)$` matched at position `p`. */
  function TrailingDigitAt(s: string, p: nat): Option<nat> {
    if p + 2 <= |s| && IsSeparator(s[p]) && IsDigit(s[p + 1]) && AtEnd(s, p + 2)
    then Some(DigitOf(s[p + 1]))
    else None
  }

  /** `[_-](\d{2})$` matched at position `p`. */
  function TrailingPairAt(s: string, p: nat): Option<nat> {
    if p + 3 <= |s| && IsSeparator(s[p]) && IsDigit(s[p + 1]) && IsDigit(s[p + 2]) && AtEnd(s, p + 3)
    then Some(10 * DigitOf(s[p + 1]) + DigitOf(s[p + 2]))
    else None
  }

  /** `re.search`: the match of `at` at the leftmost position from `p` on. */
  function Search(s: string, at: (string, nat) -> Option<nat>, p: nat): (r: Option<nat>)
    requires p <= |s|
    decreases |s| - p
  {
    if at(s, p).Some? then at(s, p)
    else if p == |s| then None
    else Search(s, at, p + 1)
  }

  /** `extract_class_from_student_id` */
  function ExtractClass(studentId: string): (r: Option<nat>)
    ensures studentId == [] ==> r == None
  {
    if studentId == [] then None
    else
      var s := Lower(studentId);
      var byClass := Search(s, ClassAt, 0);
      var byGrade := Search(s, GradeAt, 0);
      var byDigit := Search(s, TrailingDigitAt, 0);
      var byPair := Search(s, TrailingPairAt, 0);
      if byClass.Some? then byClass
      else if byGrade.Some? then byGrade
      else if byDigit.Some? && 1 <= byDigit.value <= 12 then byDigit
      else if byPair.Some? && 1 <= byPair.value <= 12 then byPair
      else None
  }

  // ---------------------------------------------------------------------
  // The scan finds the leftmost match

  /** `Search` returns a match exactly when there is one at or after `p`,
      and then it is the match at the leftmost such position. */
  lemma {:induction false} SearchLeftmost(s: string, at: (string, nat) -> Option<nat>, p: nat)
    requires p <= |s|
    ensures Search(s, at, p).None? <==> forall q :: p <= q <= |s| ==> at(s, q).None?
    ensures Search(s, at, p).Some? ==>
      exists q :: p <= q <= |s| && at(s, q) == Search(s, at, p)
        && forall q' :: p <= q' < q ==> at(s, q').None?
    decreases |s| - p
  {
    if at(s, p).None? && p < |s| {
      SearchLeftmost(s, at, p + 1);
      if Search(s, at, p).Some? {
        var q :| p + 1 <= q <= |s| && at(s, q) == Search(s, at, p + 1)
          && forall q' :: p + 1 <= q' < q ==> at(s, q').None?;
        assert forall q' :: p <= q' < q ==> at(s, q').None?;
      }
    }
  }

  /** A match found at `q` with none before it is what `Search` returns. */
  lemma {:induction false} SearchFinds(s: string, at: (string, nat) -> Option<nat>, p: nat, q: nat)
    requires p <= q <= |s|
    requires at(s, q).Some?
    requires forall q' :: p <= q' < q ==> at(s, q').None?
    ensures Search(s, at, p) == at(s, q)
    decreases q - p
  {
    if p < q {
      SearchFinds(s, at, p + 1, q);
    }
  }

  /** A scan over a string none of whose positions match finds nothing. */
  lemma {:induction false} SearchNone(s: string, at: (string, nat) -> Option<nat>, p: nat)
    requires p <= |s|
    requires forall q :: p <= q <= |s| ==> at(s, q).None?
    ensures Search(s, at, p) == None
    decreases |s| - p
  {
    if p < |s| {
      SearchNone(s, at, p + 1);
    }
  }

  // ---------------------------------------------------------------------
  // Properties of the extraction

  /** Matching ignores case: two IDs that agree up to case get the same class. */
  lemma CaseInsensitive(a: string, b: string)
    requires |a| == |b|
    requires forall i :: 0 <= i < |a| ==> LowerChar(a[i]) == LowerChar(b[i])
    ensures ExtractClass(a) == ExtractClass(b)
  {
    assert Lower(a) == Lower(b);
  }

  /** The upper-cased ID gets the same class as the ID itself. */
  lemma UpperCaseSameClass(id: string)
    ensures ExtractClass(Upper(id)) == ExtractClass(id)
  {
    forall i | 0 <= i < |id|
      ensures LowerChar(Upper(id)[i]) == LowerChar(id[i])
    {
    }
    CaseInsensitive(Upper(id), id);
  }

  /** `$` leaves only two candidate positions for a trailing single digit:
      the separator and digit end the string, or they stand just before a
      final newline. */
  lemma TrailingDigitAtEnd(s: string, d: nat)
    ensures Search(s, TrailingDigitAt, 0) == Some(d) <==>
      (|s| >= 2 && TrailingDigitAt(s, |s| - 2) == Some(d))
      || (|s| >= 3 && s[|s| - 1] == '\n' && TrailingDigitAt(s, |s| - 3) == Some(d))
  {
    SearchLeftmost(s, TrailingDigitAt, 0);
    if |s| >= 2 && TrailingDigitAt(s, |s| - 2) == Some(d) {
      assert forall q' :: 0 <= q' < |s| - 2 ==> TrailingDigitAt(s, q').None?;
      SearchFinds(s, TrailingDigitAt, 0, |s| - 2);
    } else if |s| >= 3 && s[|s| - 1] == '\n' && TrailingDigitAt(s, |s| - 3) == Some(d) {
      assert forall q' :: 0 <= q' < |s| - 3 ==> TrailingDigitAt(s, q').None?;
      SearchFinds(s, TrailingDigitAt, 0, |s| - 3);
    }
  }

  /** Every match of the 'class' pattern starts with a 'c', and every match
      of the c/gr/grade pattern with a 'c' or a 'g'. */
  lemma WordPatternsStart(s: string, p: nat)
    ensures ClassAt(s, p).Some? ==> p < |s| && s[p] == 'c'
    ensures GradeAt(s, p).Some? ==> p < |s| && (s[p] == 'c' || s[p] == 'g')
  {
    if WordAt(s, p, ClassWord) {
      assert s[p..p + |ClassWord|][0] == ClassWord[0];
    }
    if WordAt(s, p, CWord) {
      assert s[p..p + |CWord|][0] == CWord[0];
    }
    if WordAt(s, p, GrWord) {
      assert s[p..p + |GrWord|][0] == GrWord[0];
    }
    if WordAt(s, p, GradeWord) {
      assert s[p..p + |GradeWord|][0] == GradeWord[0];
    }
  }

  /** An ID with no 'c' and no 'g' in either case matches neither word pattern. */
  lemma NoWordMatch(id: string)
    requires forall i :: 0 <= i < |id| ==> LowerChar(id[i]) != 'c' && LowerChar(id[i]) != 'g'
    ensures Search(Lower(id), ClassAt, 0) == None
    ensures Search(Lower(id), GradeAt, 0) == None
  {
    var s := Lower(id);
    forall q | 0 <= q <= |s|
      ensures ClassAt(s, q).None? && GradeAt(s, q).None?
    {
      WordPatternsStart(s, q);
    }
    SearchNone(s, ClassAt, 0);
    SearchNone(s, GradeAt, 0);
  }

  /** Without a 'class', 'c', 'gr' or 'grade' match, only the trailing
      patterns can answer, and they only answer with a class from 1 to 12; a
      single trailing digit answers only from 1 to 9. */
  lemma TrailingRange(id: string)
    requires Search(Lower(id), ClassAt, 0) == None
    requires Search(Lower(id), GradeAt, 0) == None
    ensures ExtractClass(id).Some? ==> 1 <= ExtractClass(id).value <= 12
    ensures var d := Search(Lower(id), TrailingDigitAt, 0);
            d.Some? ==> d.value <= 9
  {
    var s := Lower(id);
    SearchLeftmost(s, TrailingDigitAt, 0);
  }

  /** A string ending in a separator and one digit: the trailing-digit
      scan finds that digit and the trailing-pair scan finds nothing. */
  lemma DigitEnding(s: string, sep: char, d: char)
    requires |s| >= 2 && s[|s| - 2] == sep && s[|s| - 1] == d
    requires IsSeparator(sep) && IsDigit(d)
    ensures Search(s, TrailingDigitAt, 0) == Some(DigitOf(d))
    ensures Search(s, TrailingPairAt, 0) == None
  {
    TrailingDigitAtEnd(s, DigitOf(d));
    forall q | 0 <= q <= |s| ensures TrailingPairAt(s, q).None? {
      if q + 3 == |s| {
        assert s[q + 1] == sep;
      } else if q + 4 == |s| {
        assert s[q + 3] == d;
      }
    }
    SearchNone(s, TrailingPairAt, 0);
  }

  /** A string ending in a separator and two digits: the trailing-digit
      scan finds nothing and the trailing-pair scan finds their value. */
  lemma PairEnding(s: string, sep: char, d1: char, d2: char)
    requires |s| >= 3 && s[|s| - 3] == sep && s[|s| - 2] == d1 && s[|s| - 1] == d2
    requires IsSeparator(sep) && IsDigit(d1) && IsDigit(d2)
    ensures Search(s, TrailingDigitAt, 0) == None
    ensures Search(s, TrailingPairAt, 0) == Some(10 * DigitOf(d1) + DigitOf(d2))
  {
    forall q | 0 <= q <= |s| ensures TrailingDigitAt(s, q).None? {
      if q + 2 == |s| {
        assert s[q] == d1;
      } else if q + 3 == |s| {
        assert s[q + 2] == d2;
      }
    }
    SearchNone(s, TrailingDigitAt, 0);
    forall q | 0 <= q < |s| - 3 ensures TrailingPairAt(s, q).None? {
    }
    SearchFinds(s, TrailingPairAt, 0, |s| - 3);
  }

  /** `STU_1001_6`: an ID without 'c' or 'g' ending in a separator and a
      digit from 1 to 9 gets that digit as its class; ending in `_0` it gets
      none. */
  lemma SingleDigitSuffix(prefix: string, sep: char, d: char)
    requires IsSeparator(sep) && IsDigit(d)
    requires forall i :: 0 <= i < |prefix| ==> LowerChar(prefix[i]) != 'c' && LowerChar(prefix[i]) != 'g'
    ensures d != '0' ==> ExtractClass(prefix + [sep, d]) == Some(DigitOf(d))
    ensures d == '0' ==> ExtractClass(prefix + [sep, d]) == None
  {
    var id := prefix + [sep, d];
    NoWordMatch(id);
    DigitEnding(Lower(id), sep, d);
  }

  /** `STU_1001_12`: an ID without 'c' or 'g' ending in a separator and two
      digits gets their value as its class when it is from 1 to 12, and none
      otherwise. */
  lemma TwoDigitSuffix(prefix: string, sep: char, d1: char, d2: char)
    requires IsSeparator(sep) && IsDigit(d1) && IsDigit(d2)
    requires forall i :: 0 <= i < |prefix| ==> LowerChar(prefix[i]) != 'c' && LowerChar(prefix[i]) != 'g'
    ensures var v := 10 * DigitOf(d1) + DigitOf(d2);
            ExtractClass(prefix + [sep, d1, d2]) == if 1 <= v <= 12 then Some(v) else None
  {
    var id := prefix + [sep, d1, d2];
    NoWordMatch(id);
    PairEnding(Lower(id), sep, d1, d2);
  }

  /** The extraction answers with the 'class' scan whenever it finds a match. */
  lemma ExtractByClass(id: string)
    requires id != [] && Search(Lower(id), ClassAt, 0).Some?
    ensures ExtractClass(id) == Search(Lower(id), ClassAt, 0)
  {
  }

  /** Failing that, it answers with the c/gr/grade scan whenever that finds a match. */
  lemma ExtractByGrade(id: string)
    requires id != [] && Search(Lower(id), ClassAt, 0).None? && Search(Lower(id), GradeAt, 0).Some?
    ensures ExtractClass(id) == Search(Lower(id), GradeAt, 0)
  {
  }

  /** Lower-casing leaves digits where they are. */
  lemma LowerKeepsDigits(id: string, i: nat)
    requires i <= |id| && forall k :: i <= k < |id| ==> IsDigit(id[k])
    ensures Lower(id)[i..] == id[i..]
  {
  }

  /** A word that lower-cases to `w` at `p` becomes `w` in the lower-cased ID. */
  lemma LowerWordAt(id: string, p: nat, w: string)
    requires p + |w| <= |id| && Lower(id[p..p + |w|]) == w
    ensures WordAt(Lower(id), p, w)
  {
    forall k | 0 <= k < |w| ensures Lower(id)[p + k] == w[k] {
      assert Lower(id[p..p + |w|])[k] == LowerChar(id[p + k]);
    }
  }

  /** No match of either word pattern starts before the first 'c' or 'g'. */
  lemma NothingBefore(s: string, p: nat)
    requires p <= |s| && forall k :: 0 <= k < p ==> s[k] != 'c' && s[k] != 'g'
    ensures forall q :: 0 <= q < p ==> ClassAt(s, q).None? && GradeAt(s, q).None?
  {
    forall q | 0 <= q < p ensures ClassAt(s, q).None? && GradeAt(s, q).None? {
      WordPatternsStart(s, q);
    }
  }

  /** A string in which 'class' never starts a match has no match of the
      'class' pattern: in particular a string with no 'c'. */
  lemma NoClassMatch(s: string)
    requires forall q :: 0 <= q < |s| ==> s[q] != 'c' || !WordAt(s, q, ClassWord)
    ensures Search(s, ClassAt, 0) == None
  {
    forall q | 0 <= q <= |s| ensures ClassAt(s, q).None? {
      WordPatternsStart(s, q);
    }
    SearchNone(s, ClassAt, 0);
  }

  /** `STU_1001_Class6`: an ID with no 'c' or 'g' before a 'class' at `p`
      that is followed by digits up to the end gets the value of all those
      digits, with no check that it is a class from 1 to 12. */
  lemma ClassWordSuffix(id: string, p: nat)
    requires p + |ClassWord| < |id| && Lower(id[p..p + |ClassWord|]) == ClassWord
    requires forall k :: 0 <= k < p ==> LowerChar(id[k]) != 'c' && LowerChar(id[k]) != 'g'
    requires forall k :: p + |ClassWord| <= k < |id| ==> IsDigit(id[k])
    ensures ExtractClass(id) == Some(DigitsValue(id[p + |ClassWord|..]))
  {
    var s := Lower(id);
    var i := p + |ClassWord|;
    LowerWordAt(id, p, ClassWord);
    LowerKeepsDigits(id, i);
    NumberOfDigits(s, i);
    assert ClassAt(s, p) == Some(DigitsValue(id[i..]));
    NothingBefore(s, p);
    SearchFinds(s, ClassAt, 0, p);
    ExtractByClass(id);
  }

  /** 'grade' and digits at `p`: the c/gr/grade pattern matches there with
      their value, 'gr' failing on the 'a'. */
  lemma GradeWordMatch(s: string, p: nat)
    requires WordAt(s, p, GradeWord) && NumberAfter(s, p + |GradeWord|).Some?
    ensures GradeAt(s, p) == NumberAfter(s, p + |GradeWord|)
  {
    assert s[p..p + |GradeWord|][0] == 'g' && s[p..p + |GradeWord|][2] == 'a';
    assert s[p] == 'g' && s[p + 2] == 'a';
    assert !WordAt(s, p, CWord);
    assert SkipSpaces(s, p + |GrWord|) == p + |GrWord|;
    assert NumberAfter(s, p + |GrWord|) == None;
  }

  /** `STU_Grade15`: an ID with no 'c' or 'g' before a 'grade' at `p` that
      is followed by digits up to the end gets their value, again unchecked
      against the range of classes. */
  lemma GradeWordSuffix(id: string, p: nat)
    requires p + |GradeWord| < |id| && Lower(id[p..p + |GradeWord|]) == GradeWord
    requires forall k :: 0 <= k < p ==> LowerChar(id[k]) != 'c' && LowerChar(id[k]) != 'g'
    requires forall k :: p + |GradeWord| <= k < |id| ==> IsDigit(id[k])
    ensures ExtractClass(id) == Some(DigitsValue(id[p + |GradeWord|..]))
  {
    var s := Lower(id);
    var i := p + |GradeWord|;
    LowerWordAt(id, p, GradeWord);
    LowerKeepsDigits(id, i);
    forall q | 0 <= q < |s| ensures s[q] != 'c' {
      if p <= q < i {
        assert s[q] == s[p..i][q - p] == GradeWord[q - p];
      } else if i <= q {
        assert IsDigit(id[q]);
      }
    }
    NoClassMatch(s);
    NumberOfDigits(s, i);
    GradeWordMatch(s, p);
    NothingBefore(s, p);
    SearchFinds(s, GradeAt, 0, p);
    ExtractByGrade(id);
  }

  /** `STU1001C6`: an ID with no 'c' or 'g' before a 'c' at `p` that is
      followed by digits up to the end gets their value. */
  lemma LetterCSuffix(id: string, p: nat)
    requires p + 1 < |id| && LowerChar(id[p]) == 'c'
    requires forall k :: 0 <= k < p ==> LowerChar(id[k]) != 'c' && LowerChar(id[k]) != 'g'
    requires forall k :: p + 1 <= k < |id| ==> IsDigit(id[k])
    ensures ExtractClass(id) == Some(DigitsValue(id[p + 1..]))
  {
    var s := Lower(id);
    LowerKeepsDigits(id, p + 1);
    NoClassAfterC(s, p);
    NumberOfDigits(s, p + 1);
    CNumberMatch(s, p);
    NothingBefore(s, p);
    SearchFinds(s, GradeAt, 0, p);
    ExtractByGrade(id);
  }

  /** A 'c' with only digits after it, and no 'c' before it, starts no
      match of the 'class' pattern anywhere. */
  lemma NoClassAfterC(s: string, p: nat)
    requires p + 1 < |s|
    requires forall k :: 0 <= k < p ==> s[k] != 'c'
    requires forall k :: p + 1 <= k < |s| ==> IsDigit(s[k])
    ensures Search(s, ClassAt, 0) == None
  {
    forall q | 0 <= q < |s| ensures s[q] != 'c' || !WordAt(s, q, ClassWord) {
      if q == p {
        CNotClass(s, p);
      } else if p < q {
        assert IsDigit(s[q]);
      }
    }
    NoClassMatch(s);
  }

  /** A 'c' followed by a number is matched by the first alternative. */
  lemma CNumberMatch(s: string, p: nat)
    requires p < |s| && s[p] == 'c' && NumberAfter(s, p + 1).Some?
    ensures GradeAt(s, p) == NumberAfter(s, p + 1)
  {
    assert s[p..p + 1] == CWord;
  }

  /** A 'c' followed by a digit does not start 'class'. */
  lemma CNotClass(s: string, p: nat)
    requires p + 1 < |s| && IsDigit(s[p + 1])
    ensures !WordAt(s, p, ClassWord)
  {
    assert p + |ClassWord| <= |s| ==> s[p..p + |ClassWord|][1] == s[p + 1];
  }

  /** The examples of the module's documentation. */
  const ClassExampleId := "STU_1001_Class6"
  const DigitExampleId := "STU_1001_6"
  const LetterExampleId := "STU1001C6"
  const GradeExampleId := "STU_Grade15"

  /** `STU_1001_Class6` */
  lemma ClassExample()
    ensures ExtractClass(ClassExampleId) == Some(6)
  {
    assert Lower(ClassExampleId[9..14]) == ClassWord;
    assert DigitsValue(ClassExampleId[14..]) == 6;
    ClassWordSuffix(ClassExampleId, 9);
  }

  /** `STU_1001_6` */
  lemma DigitExample()
    ensures ExtractClass(DigitExampleId) == Some(6)
  {
    SingleDigitSuffix(DigitExampleId[..8], '_', '6');
    assert DigitExampleId[..8] + ['_', '6'] == DigitExampleId;
  }

  /** `STU1001C6` */
  lemma LetterExample()
    ensures ExtractClass(LetterExampleId) == Some(6)
  {
    assert DigitsValue(LetterExampleId[8..]) == 6;
    LetterCSuffix(LetterExampleId, 7);
  }

  /** `STU_Grade15`: a grade outside 1 to 12 is returned as it is. */
  lemma GradeExample()
    ensures ExtractClass(GradeExampleId) == Some(15)
  {
    var digits := GradeExampleId[9..];
    assert Lower(GradeExampleId[4..9]) == GradeWord;
    assert digits[..1] == "1" && DigitsValue(digits[..1]) == 1;
    assert DigitsValue(digits) == 15;
    GradeWordSuffix(GradeExampleId, 4);
  }

  /** Digits running from `i` to the end of the string are read whole. */
  lemma NumberOfDigits(s: string, i: nat)
    requires i < |s|
    requires forall k :: i <= k < |s| ==> IsDigit(s[k])
    ensures NumberAfter(s, i) == Some(DigitsValue(s[i..]))
  {
    assert SkipSpaces(s, i) == i;
    assert !IsSeparator(s[i]);
    DigitsToEnd(s, i);
    assert s[i..DigitRun(s, i)] == s[i..];
  }

  /** A run of digits up to the end of the string is taken whole. */
  lemma {:induction false} DigitsToEnd(s: string, i: nat)
    requires i <= |s|
    requires forall k :: i <= k < |s| ==> IsDigit(s[k])
    ensures DigitRun(s, i) == |s|
    decreases |s| - i
  {
    if i < |s| {
      DigitsToEnd(s, i + 1);
    }
  }
}
