/** The deterministic part of the result card: the letter grade of a
    percentage, each subject's row (average and grade), the overall average
    and grade, and the word shown for a grade. */
module ResultCard {
  import opened JsBuiltins
  import opened StudentForm

  // ---------------------------------------------------------------------
  // Letter grades

  /** The four grade labels, ordered NI < S < B < A by `Rank`. */
  datatype Grade = A | B | S | NI {

    /** The label as the card prints it. */
    function Text(): string
    {
      match this
      case A => "A"
      case B => "B"
      case S => "S"
      case NI => "NI"
    }

    /** Position in the order NI < S < B < A. */
    function Rank(): nat
    {
      match this
      case NI => 0
      case S => 1
      case B => 2
      case A => 3
    }
  }

  /** `calculateGrade`: A from 85 up, B from 70, S from 50, NI below 50. */
  function CalculateGrade(percentage: int): (g: Grade)
    ensures g == A <==> percentage >= 85
    ensures g == B <==> 70 <= percentage < 85
    ensures g == S <==> 50 <= percentage < 70
    ensures g == NI <==> percentage < 50
  {
    if percentage >= 85 then A
    else if percentage >= 70 then B
    else if percentage >= 50 then S
    else NI
  }

  /** `calculateGrade` applied to a number that may be NaN: every comparison
      with NaN is false, so the chain falls through to "NI". */
  function GradeOfNum(percentage: Num): (g: Grade)
    ensures percentage.NaN? ==> g == NI
    ensures percentage.Finite? ==> g == CalculateGrade(percentage.value)
  {
    match percentage
    case Finite(p) => CalculateGrade(p)
    case NaN => NI
  }

  /** A higher percentage never earns a lower grade. */
  lemma CalculateGradeMonotone(p: int, q: int)
    requires p <= q
    ensures CalculateGrade(p).Rank() <= CalculateGrade(q).Rank()
  {
  }

  /** The labels the card prints are exactly the ones the form offers for
      general progress, in the same order. */
  lemma GradeLabelsAreOptions()
    ensures GradeOptions == [A.Text(), B.Text(), S.Text(), NI.Text()]
  {
  }

  // ---------------------------------------------------------------------
  // Subject rows

  /** One row of the academic-performance table. */
  datatype SubjectResult = SubjectResult(
    subject: string, termPercentage: int, examPercentage: int,
    average: int, grade: string)

  /** `Math.round((term + exam) / 2)`: the mean of the two marks with a half
      rounded up. It is never below the smaller mark nor above the larger. */
  function SubjectAverage(m: Marks): (avg: int)
    ensures avg == (m.termMarks + m.examMarks + 1) / 2
    ensures 2 * avg - 1 <= m.termMarks + m.examMarks <= 2 * avg
    ensures m.termMarks <= m.examMarks ==> m.termMarks <= avg <= m.examMarks
    ensures m.examMarks <= m.termMarks ==> m.examMarks <= avg <= m.termMarks
  {
    var sum := m.termMarks + m.examMarks;
    RoundOfRatio(sum, 2);
    assert (2 * sum + 2) / 4 == (sum + 1) / 2;
    MathRound(sum as real / 2.0)
  }

  /** The row for one subject entry. */
  function ResultOf(e: SubjectEntry): (r: SubjectResult)
    ensures r.subject == e.subject
    ensures r.termPercentage == e.marks.termMarks && r.examPercentage == e.marks.examMarks
    ensures r.average == SubjectAverage(e.marks)
    ensures r.grade == CalculateGrade(r.average).Text()
  {
    var average := SubjectAverage(e.marks);
    SubjectResult(e.subject, e.marks.termMarks, e.marks.examMarks, average, CalculateGrade(average).Text())
  }

  /** `subjectResults`: one row per entry, in entry order. */
  function SubjectResults(entries: seq<SubjectEntry>): (rows: seq<SubjectResult>)
    ensures |rows| == |entries|
    ensures forall i :: 0 <= i < |entries| ==>
              && rows[i].subject == entries[i].subject
              && rows[i].termPercentage == entries[i].marks.termMarks
              && rows[i].examPercentage == entries[i].marks.examMarks
              && rows[i].average == SubjectAverage(entries[i].marks)
              && rows[i].grade == CalculateGrade(rows[i].average).Text()
  {
    if entries == [] then [] else [ResultOf(entries[0])] + SubjectResults(entries[1..])
  }

  // ---------------------------------------------------------------------
  // Overall average and grade

  /** `rows.reduce((sum, r) => sum + r.average, 0)`. */
  function SumAverages(rows: seq<SubjectResult>): (sum: int)
    ensures (forall i :: 0 <= i < |rows| ==> rows[i].average >= 0) ==> sum >= 0
  {
    if rows == [] then 0 else SumAverages(rows[..|rows| - 1]) + rows[|rows| - 1].average
  }

  /** The smallest subject average. */
  function MinAverage(rows: seq<SubjectResult>): int
    requires rows != []
  {
    if |rows| == 1 then rows[0].average
    else
      var m := MinAverage(rows[..|rows| - 1]);
      if rows[|rows| - 1].average < m then rows[|rows| - 1].average else m
  }

  /** The largest subject average. */
  function MaxAverage(rows: seq<SubjectResult>): int
    requires rows != []
  {
    if |rows| == 1 then rows[0].average
    else
      var m := MaxAverage(rows[..|rows| - 1]);
      if rows[|rows| - 1].average > m then rows[|rows| - 1].average else m
  }

  /** `MinAverage` and `MaxAverage` are attained and bound every row. */
  lemma {:induction false} MinMaxBound(rows: seq<SubjectResult>)
    requires rows != []
    ensures forall i :: 0 <= i < |rows| ==> MinAverage(rows) <= rows[i].average <= MaxAverage(rows)
    ensures exists i :: 0 <= i < |rows| && rows[i].average == MinAverage(rows)
    ensures exists i :: 0 <= i < |rows| && rows[i].average == MaxAverage(rows)
  {
    if |rows| > 1 {
      var init := rows[..|rows| - 1];
      MinMaxBound(init);
      var lo :| 0 <= lo < |init| && init[lo].average == MinAverage(init);
      var hi :| 0 <= hi < |init| && init[hi].average == MaxAverage(init);
      assert forall i :: 0 <= i < |init| ==> rows[i] == init[i];
      var last := |rows| - 1;
      var lo' := if rows[last].average < MinAverage(init) then last else lo;
      var hi' := if rows[last].average > MaxAverage(init) then last else hi;
      assert MinAverage(rows) == if rows[last].average < MinAverage(init) then rows[last].average else MinAverage(init);
      assert MaxAverage(rows) == if rows[last].average > MaxAverage(init) then rows[last].average else MaxAverage(init);
      assert rows[lo'].average == MinAverage(rows);
      assert rows[hi'].average == MaxAverage(rows);
    } else {
      assert rows[0].average == MinAverage(rows) == MaxAverage(rows);
    }
  }

  /** The sum of `n` averages is at least `n` times the smallest. */
  lemma {:induction false} SumAtLeast(rows: seq<SubjectResult>)
    requires rows != []
    ensures |rows| * MinAverage(rows) <= SumAverages(rows)
  {
    if |rows| > 1 {
      var init := rows[..|rows| - 1];
      SumAtLeast(init);
      var n, lo := |init|, MinAverage(rows);
      assert lo <= MinAverage(init) && lo <= rows[|rows| - 1].average;
      MulMonotone(n, lo, MinAverage(init));
      assert |rows| * lo == n * lo + lo;
    }
  }

  /** The sum of `n` averages is at most `n` times the largest. */
  lemma {:induction false} SumAtMost(rows: seq<SubjectResult>)
    requires rows != []
    ensures SumAverages(rows) <= |rows| * MaxAverage(rows)
  {
    if |rows| > 1 {
      var init := rows[..|rows| - 1];
      SumAtMost(init);
      var n, hi := |init|, MaxAverage(rows);
      assert hi >= MaxAverage(init) && hi >= rows[|rows| - 1].average;
      MulMonotone(n, MaxAverage(init), hi);
      assert |rows| * hi == n * hi + hi;
    }
  }

  /** Multiplying by a natural number keeps order. */
  lemma MulMonotone(n: nat, x: int, y: int)
    requires x <= y
    ensures n * x <= n * y
  {
  }

  /** A rounded mean `(2s + n) div 2n` of `n` values lies between any lower
      and upper bound of those values. */
  lemma RoundedMeanBetween(s: int, n: int, lo: int, hi: int)
    requires n > 0 && n * lo <= s <= n * hi
    ensures lo <= (2 * s + n) / (2 * n) <= hi
  {
    var d := 2 * n;
    var q := (2 * s + n) / d;
    assert d * q <= 2 * s + n < d * q + d;
    assert d * (q + 1) == d * q + d;
    assert d * lo == 2 * (n * lo);
    assert d * (hi + 1) == 2 * (n * hi) + d;
    MulCancel(d, lo, q + 1);
    MulCancel(d, q, hi + 1);
  }

  /** A positive factor can be cancelled from a strict inequality. */
  lemma MulCancel(d: int, x: int, y: int)
    requires d > 0 && d * x < d * y
    ensures x < y
  {
    if x >= y {
      MulMonotone(d, y, x);
    }
  }

  /** `overallAverage`: `Math.round(sum / rows.length)`. With no rows this is
      `Math.round(0 / 0)`, NaN. Otherwise it is the mean of the subject
      averages with a half rounded up, and it lies between the smallest and
      the largest subject average. */
  function OverallAverage(rows: seq<SubjectResult>): (avg: Num)
    ensures avg.NaN? <==> rows == []
    ensures rows != [] ==> avg.value == (2 * SumAverages(rows) + |rows|) / (2 * |rows|)
    ensures rows != [] ==> MinAverage(rows) <= avg.value <= MaxAverage(rows)
  {
    if rows == [] then NaN
    else
      RoundOfRatio(SumAverages(rows), |rows|);
      SumAtLeast(rows);
      SumAtMost(rows);
      RoundedMeanBetween(SumAverages(rows), |rows|, MinAverage(rows), MaxAverage(rows));
      Finite(MathRound(SumAverages(rows) as real / |rows| as real))
  }

  /** `overallGrade`: the grade of the overall average ("NI" when it is NaN). */
  function OverallGrade(rows: seq<SubjectResult>): (g: Grade)
    ensures rows == [] ==> g == NI
    ensures rows != [] ==> g == CalculateGrade(OverallAverage(rows).value)
  {
    GradeOfNum(OverallAverage(rows))
  }

  // ---------------------------------------------------------------------
  // The card as a whole

  /** The values the card derives from a record (the random class
      statistics excluded). */
  datatype CardValues = CardValues(rows: seq<SubjectResult>, overallAverage: Num, overallGrade: Grade)

  /** Every derived value the card shows for `d`. This is a definition:
      its clauses name the three computations, whose properties are the
      contracts of `SubjectResults`, `OverallAverage` and `GradeOfNum` and
      the lemmas `CardInRange` and `DocxMatchesCard`. */
  function Card(d: StudentData): (c: CardValues)
    ensures c.rows == SubjectResults(d.subjects)
    ensures c.overallAverage == OverallAverage(c.rows)
    ensures c.overallGrade == GradeOfNum(c.overallAverage)
  {
    var rows := SubjectResults(d.subjects);
    CardValues(rows, OverallAverage(rows), OverallGrade(rows))
  }

  /** Every mark lies in 0..100, as the inputs' min and max ask. */
  predicate MarksInRange(entries: seq<SubjectEntry>)
  {
    forall i :: 0 <= i < |entries| ==>
      0 <= entries[i].marks.termMarks <= 100 && 0 <= entries[i].marks.examMarks <= 100
  }

  /** Marks in 0..100 give every subject average and the overall average in
      0..100. */
  lemma CardInRange(d: StudentData)
    requires MarksInRange(d.subjects) && d.subjects != []
    ensures forall i :: 0 <= i < |Card(d).rows| ==> 0 <= Card(d).rows[i].average <= 100
    ensures 0 <= Card(d).overallAverage.value <= 100
  {
    var rows := SubjectResults(d.subjects);
    MinMaxBound(rows);
    var lo :| 0 <= lo < |rows| && rows[lo].average == MinAverage(rows);
    var hi :| 0 <= hi < |rows| && rows[hi].average == MaxAverage(rows);
  }

  /** When every subject has the same marks, the overall average is that
      subject average. */
  lemma {:induction false} UniformMarksOverall(entries: seq<SubjectEntry>, m: Marks)
    requires entries != []
    requires forall i :: 0 <= i < |entries| ==> entries[i].marks == m
    ensures OverallAverage(SubjectResults(entries)).value == SubjectAverage(m)
  {
    var rows := SubjectResults(entries);
    MinMaxBound(rows);
    var lo :| 0 <= lo < |rows| && rows[lo].average == MinAverage(rows);
    var hi :| 0 <= hi < |rows| && rows[hi].average == MaxAverage(rows);
  }

  /** The rounding rule pinned down on the boundary cases: 69 and 70 average
      to 70 (a B), 80 and 90 to 85 (an A), 40 and 40 to 40 (an NI). */
  lemma SubjectAverageExamples()
    ensures SubjectAverage(Marks(69, 70)) == 70 && CalculateGrade(70) == B
    ensures SubjectAverage(Marks(80, 90)) == 85 && CalculateGrade(85) == A
    ensures SubjectAverage(Marks(40, 40)) == 40 && CalculateGrade(40) == NI
    ensures CalculateGrade(84) == B && CalculateGrade(69) == S && CalculateGrade(49) == NI
    ensures CalculateGrade(50) == S
  {
  }

  /** The full form with every subject at term 80 and exam 90: every row is
      85 and "A", the overall average is 85 and the overall grade A. */
  lemma AllEightyNinety(d: StudentData)
    requires Names(d.subjects) == SubjectNames
    requires forall i :: 0 <= i < |d.subjects| ==> d.subjects[i].marks == Marks(80, 90)
    ensures forall i :: 0 <= i < |Card(d).rows| ==> Card(d).rows[i].average == 85 && Card(d).rows[i].grade == "A"
    ensures Card(d).overallAverage == Finite(85) && Card(d).overallGrade == A
  {
    assert |d.subjects| == |Names(d.subjects)| == 8;
    UniformMarksOverall(d.subjects, Marks(80, 90));
  }

  /** An overall average that lands exactly on 50 is an S, not an NI: one
      subject averaging 49 and one averaging 51. */
  lemma OverallBoundaryFifty()
    ensures var rows := SubjectResults([SubjectEntry("English", Marks(49, 49)), SubjectEntry("Urdu", Marks(51, 51))]);
            OverallAverage(rows) == Finite(50) && OverallGrade(rows) == S
  {
    var rows := SubjectResults([SubjectEntry("English", Marks(49, 49)), SubjectEntry("Urdu", Marks(51, 51))]);
    assert rows[0].average == 49 && rows[1].average == 51;
    assert rows[..1][..0] == [];
    assert SumAverages(rows) == 100;
  }

  // ---------------------------------------------------------------------
  // Progress labels

  /** `getProgressLabel`: the word for a grade label, "" for anything else. */
  function ProgressLabel(grade: string): (word: string)
    ensures grade == "A" ==> word == "Excellent"
    ensures grade == "B" ==> word == "Good"
    ensures grade == "S" ==> word == "Satisfactory"
    ensures grade == "NI" ==> word == "Needs Improvement"
    ensures grade !in GradeOptions ==> word == ""
  {
    if grade == "A" then "Excellent"
    else if grade == "B" then "Good"
    else if grade == "S" then "Satisfactory"
    else if grade == "NI" then "Needs Improvement"
    else ""
  }

  /** Every grade the card computes has a word, and distinct grades have
      distinct words. */
  lemma ProgressLabelsDistinct(g: Grade, h: Grade)
    ensures ProgressLabel(g.Text()) != ""
    ensures g != h ==> ProgressLabel(g.Text()) != ProgressLabel(h.Text())
  {
  }
}
