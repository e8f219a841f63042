/**
 * The study log ("Controle da Semana") and the four headline figures the
 * dashboard shows above everything else (app.py:60-63).
 */
module StudyLog {

  /**
   * One study-log row after loading: the date as a day number, the subject
   * ("Matéria"), the hours ("Tempo (h)"), the questions done ("Questões
   * Feitas") and the correct answers ("Acertos"). A blank numeric cell is
   * read as 0, which is what pandas' skip-NaN sums make of it.
   */
  datatype StudyRow = StudyRow(date: int, subject: string, hours: real, questions: int, correct: int)

  /** The headline figures: total hours, questions, correct answers and "Aproveitamento". */
  datatype Kpis = Kpis(hours: real, questions: int, correct: int, accuracy: real)

  /** controle["Tempo (h)"].sum() */
  function TotalHours(rows: seq<StudyRow>): real {
    if rows == [] then 0.0 else rows[0].hours + TotalHours(rows[1..])
  }

  /** controle["Questões Feitas"].sum() */
  function TotalQuestions(rows: seq<StudyRow>): int {
    if rows == [] then 0 else rows[0].questions + TotalQuestions(rows[1..])
  }

  /** controle["Acertos"].sum() */
  function TotalCorrect(rows: seq<StudyRow>): int {
    if rows == [] then 0 else rows[0].correct + TotalCorrect(rows[1..])
  }

  /** The ratio of app.py:63, guarded: 0 unless more than zero questions were done. */
  function Accuracy(correct: int, questions: int): real {
    if questions > 0 then (correct as real / questions as real) * 100.0 else 0.0
  }

  /** app.py:60-63 */
  function ComputeKpis(rows: seq<StudyRow>): Kpis {
    var q := TotalQuestions(rows);
    var c := TotalCorrect(rows);
    Kpis(TotalHours(rows), q, c, Accuracy(c, q))
  }

  /** A row whose correct answers do not exceed its questions, neither being negative. */
  predicate ValidCounts(r: StudyRow) {
    0 <= r.correct <= r.questions
  }

  /** Sums split over concatenation: a log read in two parts has the sum of their totals. */
  lemma {:induction false} TotalsAppend(a: seq<StudyRow>, b: seq<StudyRow>)
    ensures TotalHours(a + b) == TotalHours(a) + TotalHours(b)
    ensures TotalQuestions(a + b) == TotalQuestions(a) + TotalQuestions(b)
    ensures TotalCorrect(a + b) == TotalCorrect(a) + TotalCorrect(b)
  {
    if a != [] {
      assert (a + b)[1..] == a[1..] + b;
      TotalsAppend(a[1..], b);
    } else {
      assert a + b == b;
    }
  }

  /** With valid rows, the correct total lies between 0 and the question total. */
  lemma {:induction false} CorrectWithinQuestions(rows: seq<StudyRow>)
    requires forall r :: r in rows ==> ValidCounts(r)
    ensures 0 <= TotalCorrect(rows) <= TotalQuestions(rows)
  {
    if rows != [] {
      assert rows[0] in rows;
      assert forall r :: r in rows[1..] ==> r in rows;
      CorrectWithinQuestions(rows[1..]);
    }
  }

  /**
   * The zero guard of app.py:63: the accuracy is 0 when no question was done
   * (or the total is not positive), and otherwise it is the exact percentage,
   * stated by cross-multiplication.
   */
  lemma AccuracyGuard(rows: seq<StudyRow>)
    ensures var k := ComputeKpis(rows);
            k.questions <= 0 ==> k.accuracy == 0.0
    ensures var k := ComputeKpis(rows);
            k.questions > 0 ==> k.accuracy * (k.questions as real) == 100.0 * (k.correct as real)
  {
  }

  /** With valid rows, the accuracy is a percentage between 0 and 100. */
  lemma AccuracyInRange(rows: seq<StudyRow>)
    requires forall r :: r in rows ==> ValidCounts(r)
    ensures 0.0 <= ComputeKpis(rows).accuracy <= 100.0
  {
    CorrectWithinQuestions(rows);
    var q := TotalQuestions(rows);
    var c := TotalCorrect(rows);
    if q > 0 {
      assert c as real / q as real <= 1.0 by {
        assert (c as real) <= (q as real);
      }
    }
  }

  /** Each row has all its questions right exactly when its two counts agree. */
  predicate AllCorrect(r: StudyRow) {
    r.correct == r.questions
  }

  /** With valid rows the two totals agree exactly when every row is all correct. */
  lemma {:induction false} TotalsAgreeIffAllCorrect(rows: seq<StudyRow>)
    requires forall r :: r in rows ==> ValidCounts(r)
    ensures TotalCorrect(rows) == TotalQuestions(rows) <==> forall r :: r in rows ==> AllCorrect(r)
  {
    if rows != [] {
      assert forall r :: r in rows[1..] ==> r in rows;
      assert forall r :: r in rows <==> r == rows[0] || r in rows[1..];
      assert rows[0] in rows && ValidCounts(rows[0]);
      TotalsAgreeIffAllCorrect(rows[1..]);
      CorrectWithinQuestions(rows[1..]);
    }
  }

  /**
   * With valid rows, the dashboard shows 100% exactly when some question was
   * done and every row has all its questions right.
   */
  lemma FullAccuracyIffAllCorrect(rows: seq<StudyRow>)
    requires forall r :: r in rows ==> ValidCounts(r)
    ensures ComputeKpis(rows).accuracy == 100.0
            <==> TotalQuestions(rows) > 0 && forall r :: r in rows ==> AllCorrect(r)
  {
    TotalsAgreeIffAllCorrect(rows);
    var q := TotalQuestions(rows);
    var c := TotalCorrect(rows);
    if q > 0 && (c as real / q as real) * 100.0 == 100.0 {
      assert c as real == q as real;
    }
  }

  /** Hours that are never negative add up to a total that is not negative. */
  lemma {:induction false} HoursNonNegative(rows: seq<StudyRow>)
    requires forall r :: r in rows ==> r.hours >= 0.0
    ensures TotalHours(rows) >= 0.0
  {
    if rows != [] {
      assert rows[0] in rows;
      assert forall r :: r in rows[1..] ==> r in rows;
      HoursNonNegative(rows[1..]);
    }
  }

  /** An empty log, or one with no questions, shows 0% and no error. */
  lemma NoQuestionsShowsZero()
    ensures ComputeKpis([]).accuracy == 0.0
    ensures ComputeKpis([StudyRow(0, "Biologia", 2.0, 0, 0), StudyRow(1, "Qu\U{ED}mica", 1.5, 0, 0)]).accuracy == 0.0
  {
  }
}
