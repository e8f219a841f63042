/**
 * Performance by subject (app.py:76-85): the study log grouped by "Matéria"
 * with questions and correct answers summed per subject, the "Taxa (%)" column
 * added to that table, and the colour band cor_taxa gives each rate.
 */
module Performance {
  import opened Options
  import opened StudyLog

  // ---------------------------------------------------------------------
  // Order of the group keys
  // ---------------------------------------------------------------------

  /** Python's `<` on str: lexicographic by code point, a proper prefix first. */
  predicate Less(a: string, b: string) {
    if a == [] then b != []
    else if b == [] then false
    else if a[0] != b[0] then a[0] < b[0]
    else Less(a[1..], b[1..])
  }

  lemma {:induction false} LessIrreflexive(a: string)
    ensures !Less(a, a)
  {
    if a != [] { LessIrreflexive(a[1..]); }
  }

  lemma {:induction false} LessTransitive(a: string, b: string, c: string)
    requires Less(a, b) && Less(b, c)
    ensures Less(a, c)
  {
    if a != [] && b != [] && c != [] && a[0] == b[0] && b[0] == c[0] {
      LessTransitive(a[1..], b[1..], c[1..]);
    }
  }

  lemma {:induction false} LessTotal(a: string, b: string)
    requires a != b
    ensures Less(a, b) || Less(b, a)
  {
    if a != [] && b != [] && a[0] == b[0] {
      assert a == [a[0]] + a[1..] && b == [b[0]] + b[1..];
      LessTotal(a[1..], b[1..]);
    }
  }

  // ---------------------------------------------------------------------
  // groupby("Matéria")[["Questões Feitas", "Acertos"]].sum()
  // ---------------------------------------------------------------------

  /** One row of the grouped table, before the rate column is added. */
  datatype SubjectTotals = SubjectTotals(subject: string, questions: int, correct: int)

  /** Keys strictly ascending: each subject once, in pandas' sorted group order. */
  predicate SortedBySubject(g: seq<SubjectTotals>) {
    forall i, j :: 0 <= i < j < |g| ==> Less(g[i].subject, g[j].subject)
  }

  function Keys(g: seq<SubjectTotals>): set<string> {
    set e | e in g :: e.subject
  }

  /** The distinct subjects of the study log. */
  function Subjects(rows: seq<StudyRow>): set<string> {
    set r | r in rows :: r.subject
  }

  /** The rows of one subject, in log order. */
  function RowsOf(rows: seq<StudyRow>, s: string): seq<StudyRow> {
    if rows == [] then []
    else (if rows[0].subject == s then [rows[0]] else []) + RowsOf(rows[1..], s)
  }

  /** The entry for subject s, if the table has one. */
  function Find(g: seq<SubjectTotals>, s: string): Option<SubjectTotals> {
    if g == [] then None
    else if g[0].subject == s then Some(g[0])
    else Find(g[1..], s)
  }

  function GroupQuestions(g: seq<SubjectTotals>): int {
    if g == [] then 0 else g[0].questions + GroupQuestions(g[1..])
  }

  function GroupCorrect(g: seq<SubjectTotals>): int {
    if g == [] then 0 else g[0].correct + GroupCorrect(g[1..])
  }

  /** The totals a sorted table carries for s after adding row r of subject s. */
  function Added(e: Option<SubjectTotals>, r: StudyRow): SubjectTotals {
    match e
    case None => SubjectTotals(r.subject, r.questions, r.correct)
    case Some(t) => SubjectTotals(r.subject, t.questions + r.questions, t.correct + r.correct)
  }

  /** Putting an entry whose key precedes all others in front of a sorted table. */
  lemma ConsSorted(e: SubjectTotals, rest: seq<SubjectTotals>)
    requires SortedBySubject(rest)
    requires forall x :: x in rest ==> Less(e.subject, x.subject)
    ensures SortedBySubject([e] + rest)
    ensures Keys([e] + rest) == {e.subject} + Keys(rest)
    ensures GroupQuestions([e] + rest) == e.questions + GroupQuestions(rest)
    ensures GroupCorrect([e] + rest) == e.correct + GroupCorrect(rest)
  {
    var r := [e] + rest;
    assert r[1..] == rest;
    assert forall x :: x in r <==> x == e || x in rest;
    forall i, j | 0 <= i < j < |r| ensures Less(r[i].subject, r[j].subject) {
      assert r[j] == rest[j - 1] && r[j] in rest;
      if i > 0 { assert r[i] == rest[i - 1]; }
    }
  }

  /** Taking a sorted table apart at its first entry. */
  lemma UnconsSorted(g: seq<SubjectTotals>)
    requires SortedBySubject(g) && g != []
    ensures SortedBySubject(g[1..])
    ensures forall x :: x in g[1..] ==> Less(g[0].subject, x.subject)
  {
    forall x | x in g[1..] ensures Less(g[0].subject, x.subject) {
      var j :| 0 <= j < |g[1..]| && g[1..][j] == x;
      assert g[j + 1] == x;
    }
  }

  /** A key before the first of a sorted table is before all of it. */
  lemma KeyBelowAll(k: string, g: seq<SubjectTotals>)
    requires SortedBySubject(g) && g != [] && Less(k, g[0].subject)
    ensures forall x :: x in g ==> Less(k, x.subject)
  {
    UnconsSorted(g);
    forall x | x in g[1..] ensures Less(k, x.subject) {
      LessTransitive(k, g[0].subject, x.subject);
    }
  }

  /** A key before every key of a table and before k is before every key of a table keyed like it plus k. */
  lemma KeysBelow(b: string, rest: seq<SubjectTotals>, tail: seq<SubjectTotals>, k: string)
    requires forall x :: x in rest ==> Less(b, x.subject)
    requires Less(b, k) && Keys(tail) == Keys(rest) + {k}
    ensures forall x :: x in tail ==> Less(b, x.subject)
  {
    forall x | x in tail ensures Less(b, x.subject) {
      assert x.subject in Keys(tail);
      if x.subject != k {
        var y :| y in rest && y.subject == x.subject;
      }
    }
  }

  /** g' is g with row r added: still sorted, r's subject among the keys, r's counts in the sums. */
  predicate Inserted(g: seq<SubjectTotals>, r: StudyRow, g': seq<SubjectTotals>) {
    && SortedBySubject(g')
    && Keys(g') == Keys(g) + {r.subject}
    && GroupQuestions(g') == GroupQuestions(g) + r.questions
    && GroupCorrect(g') == GroupCorrect(g) + r.correct
  }

  /** Adding a row whose subject heads the table merges it into the first entry. */
  lemma InsertMerge(g: seq<SubjectTotals>, r: StudyRow)
    requires SortedBySubject(g) && g != [] && g[0].subject == r.subject
    ensures Inserted(g, r, [SubjectTotals(r.subject, g[0].questions + r.questions, g[0].correct + r.correct)] + g[1..])
  {
    UnconsSorted(g);
    ConsSorted(g[0], g[1..]);
    assert [g[0]] + g[1..] == g;
    ConsSorted(SubjectTotals(r.subject, g[0].questions + r.questions, g[0].correct + r.correct), g[1..]);
  }

  /** Adding a row whose subject precedes the whole table creates a first entry. */
  lemma InsertFront(g: seq<SubjectTotals>, r: StudyRow)
    requires SortedBySubject(g) && g != [] && Less(r.subject, g[0].subject)
    ensures Inserted(g, r, [SubjectTotals(r.subject, r.questions, r.correct)] + g)
  {
    KeyBelowAll(r.subject, g);
    ConsSorted(SubjectTotals(r.subject, r.questions, r.correct), g);
  }

  /** Adding a row whose subject follows the first entry leaves that entry in front. */
  lemma InsertAfter(g: seq<SubjectTotals>, r: StudyRow, tail: seq<SubjectTotals>)
    requires SortedBySubject(g) && g != [] && g[0].subject != r.subject && !Less(r.subject, g[0].subject)
    requires SortedBySubject(g[1..]) && Inserted(g[1..], r, tail)
    ensures Inserted(g, r, [g[0]] + tail)
  {
    UnconsSorted(g);
    ConsSorted(g[0], g[1..]);
    assert [g[0]] + g[1..] == g;
    LessTotal(g[0].subject, r.subject);
    KeysBelow(g[0].subject, g[1..], tail, r.subject);
    ConsSorted(g[0], tail);
  }

  /**
   * One step of the group-by: row r's counts go to its subject's entry,
   * which is created at its sorted place when the subject is new.
   */
  function Insert(g: seq<SubjectTotals>, r: StudyRow): (g': seq<SubjectTotals>)
    requires SortedBySubject(g)
    ensures SortedBySubject(g')
    ensures Keys(g') == Keys(g) + {r.subject}
    ensures GroupQuestions(g') == GroupQuestions(g) + r.questions
    ensures GroupCorrect(g') == GroupCorrect(g) + r.correct
  {
    if g == [] then
      var entry := SubjectTotals(r.subject, r.questions, r.correct);
      ConsSorted(entry, []);
      [entry]
    else if g[0].subject == r.subject then
      InsertMerge(g, r);
      [SubjectTotals(r.subject, g[0].questions + r.questions, g[0].correct + r.correct)] + g[1..]
    else if Less(r.subject, g[0].subject) then
      InsertFront(g, r);
      [SubjectTotals(r.subject, r.questions, r.correct)] + g
    else
      UnconsSorted(g);
      var tail := Insert(g[1..], r);
      InsertAfter(g, r, tail);
      [g[0]] + tail
  }

  /** A key absent from the table has no entry; a found entry has the key asked for. */
  lemma {:induction false} FindSound(g: seq<SubjectTotals>, s: string)
    ensures s !in Keys(g) ==> Find(g, s) == None
    ensures Find(g, s).Some? ==> Find(g, s).value in g && Find(g, s).value.subject == s
  {
    if g != [] {
      assert Keys(g) == {g[0].subject} + Keys(g[1..]) by {
        assert forall e :: e in g <==> e == g[0] || e in g[1..];
      }
      FindSound(g[1..], s);
    }
  }

  /** In a sorted table, looking up an entry's own key finds that entry. */
  lemma {:induction false} FindInSorted(g: seq<SubjectTotals>, i: int)
    requires SortedBySubject(g) && 0 <= i < |g|
    ensures Find(g, g[i].subject) == Some(g[i])
  {
    if i > 0 {
      assert Less(g[0].subject, g[i].subject);
      LessIrreflexive(g[i].subject);
      assert g[1..][i - 1] == g[i];
      FindInSorted(g[1..], i - 1);
    }
  }

  /** Insert changes the entry of the row's subject, and only that one. */
  lemma {:induction false} InsertFind(g: seq<SubjectTotals>, r: StudyRow, s: string)
    requires SortedBySubject(g)
    ensures Find(Insert(g, r), s) == if s == r.subject then Some(Added(Find(g, s), r)) else Find(g, s)
  {
    if g == [] {
    } else if g[0].subject == r.subject {
    } else if Less(r.subject, g[0].subject) {
      if s == r.subject {
        assert r.subject !in Keys(g) by {
          forall e | e in g ensures e.subject != r.subject {
            var j :| 0 <= j < |g| && g[j] == e;
            if j > 0 { LessTransitive(r.subject, g[0].subject, g[j].subject); }
            LessIrreflexive(r.subject);
          }
        }
        FindSound(g, s);
      }
    } else {
      InsertFind(g[1..], r, s);
    }
  }

  /** A subject that does not occur has no rows. */
  lemma {:induction false} RowsOfAbsent(rows: seq<StudyRow>, s: string)
    requires s !in Subjects(rows)
    ensures RowsOf(rows, s) == []
  {
    if rows != [] {
      assert rows[0] in rows;
      assert Subjects(rows[1..]) <= Subjects(rows) by {
        assert forall r :: r in rows[1..] ==> r in rows;
      }
      RowsOfAbsent(rows[1..], s);
    }
  }

  /**
   * The group-by of app.py:76: a table sorted by subject, each subject of
   * the log once, whose question and correct totals add up to those of the
   * whole log (app.py:61-62).
   */
  function GroupBySubject(rows: seq<StudyRow>): (g: seq<SubjectTotals>)
    ensures SortedBySubject(g)
    ensures Keys(g) == Subjects(rows)
    ensures GroupQuestions(g) == TotalQuestions(rows)
    ensures GroupCorrect(g) == TotalCorrect(rows)
  {
    if rows == [] then []
    else
      assert Subjects(rows) == {rows[0].subject} + Subjects(rows[1..]) by {
        assert forall r :: r in rows <==> r == rows[0] || r in rows[1..];
      }
      Insert(GroupBySubject(rows[1..]), rows[0])
  }

  /** The entry a subject should have in the group-by of rows. */
  function Expected(rows: seq<StudyRow>, s: string): Option<SubjectTotals> {
    if s in Subjects(rows)
    then Some(SubjectTotals(s, TotalQuestions(RowsOf(rows, s)), TotalCorrect(RowsOf(rows, s))))
    else None
  }

  /** Adding a row in front of a log changes the expected entry of its own subject only. */
  lemma ExpectedCons(rows: seq<StudyRow>, s: string)
    requires rows != []
    ensures Expected(rows, s)
            == if s == rows[0].subject then Some(Added(Expected(rows[1..], s), rows[0]))
               else Expected(rows[1..], s)
  {
    var r, tail := rows[0], rows[1..];
    assert Subjects(rows) == {r.subject} + Subjects(tail) by {
      assert forall x :: x in rows <==> x == r || x in tail;
    }
    if s == r.subject {
      var mine := RowsOf(tail, s);
      assert RowsOf(rows, s) == [r] + mine;
      assert ([r] + mine)[1..] == mine;
      assert TotalQuestions([r] + mine) == r.questions + TotalQuestions(mine);
      assert TotalCorrect([r] + mine) == r.correct + TotalCorrect(mine);
      if s !in Subjects(tail) {
        RowsOfAbsent(tail, s);
        assert TotalQuestions(mine) == 0 && TotalCorrect(mine) == 0;
      }
    } else {
      assert RowsOf(rows, s) == RowsOf(tail, s);
    }
  }

  /**
   * What each entry of the group-by holds: the subject's entry exists
   * exactly when the subject occurs, and carries the sums over that
   * subject's rows.
   */
  lemma {:induction false} GroupFind(rows: seq<StudyRow>, s: string)
    ensures Find(GroupBySubject(rows), s) == Expected(rows, s)
  {
    if rows != [] {
      var gt := GroupBySubject(rows[1..]);
      assert GroupBySubject(rows) == Insert(gt, rows[0]);
      GroupFind(rows[1..], s);
      InsertFind(gt, rows[0], s);
      ExpectedCons(rows, s);
    }
  }

  /** Every entry of the grouped table carries the sums over its subject's rows. */
  lemma GroupEntries(rows: seq<StudyRow>, i: int)
    requires 0 <= i < |GroupBySubject(rows)|
    ensures var e := GroupBySubject(rows)[i];
            e.subject in Subjects(rows)
            && e.questions == TotalQuestions(RowsOf(rows, e.subject))
            && e.correct == TotalCorrect(RowsOf(rows, e.subject))
  {
    var g := GroupBySubject(rows);
    FindInSorted(g, i);
    GroupFind(rows, g[i].subject);
  }

  /** A sorted table holds as many entries as it has distinct keys. */
  lemma {:induction false} SortedKeysCount(g: seq<SubjectTotals>)
    requires SortedBySubject(g)
    ensures |Keys(g)| == |g|
  {
    if g != [] {
      assert Keys(g) == {g[0].subject} + Keys(g[1..]) by {
        assert forall e :: e in g <==> e == g[0] || e in g[1..];
      }
      assert g[0].subject !in Keys(g[1..]) by {
        forall e | e in g[1..] ensures e.subject != g[0].subject {
          var j :| 0 <= j < |g[1..]| && g[1..][j] == e;
          assert Less(g[0].subject, g[j + 1].subject);
          LessIrreflexive(g[0].subject);
        }
      }
      SortedKeysCount(g[1..]);
    }
  }

  /** The group-by has exactly one entry per distinct subject of the log. */
  lemma GroupCount(rows: seq<StudyRow>)
    ensures |GroupBySubject(rows)| == |Subjects(rows)|
  {
    SortedKeysCount(GroupBySubject(rows));
  }

  // ---------------------------------------------------------------------
  // desempenho["Taxa (%)"] and cor_taxa
  // ---------------------------------------------------------------------

  /**
   * A float64 result of the per-subject division. app.py:77 has no zero
   * guard, so a subject with 0 questions gets NaN (0/0) or an infinity.
   */
  datatype Ratio = Finite(value: real) | PosInf | NegInf | NaN

  /** (Acertos / Questões Feitas) * 100 per subject, with IEEE division by zero. */
  function Rate(correct: int, questions: int): (r: Ratio)
    ensures questions > 0 ==> r == Finite(Accuracy(correct, questions))
    ensures r.Finite? <==> questions != 0
    ensures questions != 0 ==> r.Finite? && r.value * (questions as real) == 100.0 * (correct as real)
    ensures questions == 0 ==> (r == NaN <==> correct == 0) && (r == PosInf <==> correct > 0)
  {
    if questions != 0 then Finite((correct as real / questions as real) * 100.0)
    else if correct > 0 then PosInf
    else if correct < 0 then NegInf
    else NaN
  }

  /** The three cell colours of cor_taxa. */
  datatype Band = Green | Yellow | Red

  /**
   * cor_taxa's choice (app.py:79-85): at least 70 is green, at least 50 is
   * yellow, anything else red. NaN fails both comparisons and so is red.
   */
  function RateBand(v: Ratio): (b: Band)
    ensures v.Finite? ==> (b == Green <==> v.value >= 70.0)
                          && (b == Yellow <==> 50.0 <= v.value < 70.0)
                          && (b == Red <==> v.value < 50.0)
    ensures v == NaN || v == NegInf ==> b == Red
    ensures v == PosInf ==> b == Green
  {
    match v
    case Finite(x) => if x >= 70.0 then Green else if x >= 50.0 then Yellow else Red
    case PosInf => Green
    case NegInf => Red
    case NaN => Red
  }

  /** The CSS string cor_taxa returns for each band. */
  function Style(b: Band): string {
    match b
    case Green => "background-color: #c6f6d5"
    case Yellow => "background-color: #fefcbf"
    case Red => "background-color: #fed7d7"
  }

  /**
   * cor_taxa itself: the green style from 70 up, the yellow one from 50 up,
   * the red one below 50 and for NaN and -inf, the green one for +inf.
   */
  function CorTaxa(v: Ratio): (css: string)
    ensures v.Finite? ==> (css == Style(Green) <==> v.value >= 70.0)
                          && (css == Style(Yellow) <==> 50.0 <= v.value < 70.0)
                          && (css == Style(Red) <==> v.value < 50.0)
    ensures v == NaN || v == NegInf ==> css == Style(Red)
    ensures v == PosInf ==> css == Style(Green)
  {
    Style(RateBand(v))
  }

  /** The three styles differ, so a cell's style tells its band. */
  lemma StyleInjective(a: Band, b: Band)
    requires Style(a) == Style(b)
    ensures a == b
  {
  }

  function Rank(b: Band): nat {
    match b
    case Red => 0
    case Yellow => 1
    case Green => 2
  }

  /** The order of float64 values other than NaN: -inf, the reals, +inf. */
  predicate AtMost(v: Ratio, w: Ratio) {
    match (v, w)
    case (NegInf, _) => w != NaN
    case (_, PosInf) => v != NaN
    case (Finite(x), Finite(y)) => x <= y
    case _ => false
  }

  /** A higher rate never gets a worse band. */
  lemma RateBandMonotone(v: Ratio, w: Ratio)
    requires AtMost(v, w)
    ensures Rank(RateBand(v)) <= Rank(RateBand(w))
  {
  }

  /** One row of the displayed table: the grouped sums plus "Taxa (%)". */
  datatype SubjectPerformance = SubjectPerformance(subject: string, questions: int, correct: int, rate: Ratio)

  /** A grouped row with its rate column filled in. */
  function WithRate(e: SubjectTotals): SubjectPerformance {
    SubjectPerformance(e.subject, e.questions, e.correct, Rate(e.correct, e.questions))
  }

  /** t is the grouped table g with the rate column added, row for row. */
  predicate RatedFrom(t: seq<SubjectPerformance>, g: seq<SubjectTotals>) {
    |t| == |g| && forall k :: 0 <= k < |g| ==> t[k] == WithRate(g[k])
  }

  /** The rated group-by has one row per subject of the log, in ascending order. */
  lemma RatedOrder(rows: seq<StudyRow>, t: seq<SubjectPerformance>)
    requires RatedFrom(t, GroupBySubject(rows))
    ensures |t| == |Subjects(rows)|
    ensures forall i, j :: 0 <= i < j < |t| ==> Less(t[i].subject, t[j].subject)
  {
    GroupCount(rows);
  }

  /** The rated group-by names exactly the subjects of the log. */
  lemma RatedCover(rows: seq<StudyRow>, t: seq<SubjectPerformance>)
    requires RatedFrom(t, GroupBySubject(rows))
    ensures forall s :: s in Subjects(rows) <==> exists i :: 0 <= i < |t| && t[i].subject == s
  {
    var g := GroupBySubject(rows);
    forall s | s in Subjects(rows)
      ensures exists i :: 0 <= i < |t| && t[i].subject == s
    {
      assert s in Keys(g);
      var e :| e in g && e.subject == s;
      var k :| 0 <= k < |g| && g[k] == e;
      assert t[k].subject == s;
    }
    forall s | exists i :: 0 <= i < |t| && t[i].subject == s
      ensures s in Subjects(rows)
    {
      var k :| 0 <= k < |t| && t[k].subject == s;
      assert g[k] in g;
    }
  }

  /** Each row of the rated group-by carries its subject's sums and the rate of those. */
  lemma RatedEntries(rows: seq<StudyRow>, t: seq<SubjectPerformance>)
    requires RatedFrom(t, GroupBySubject(rows))
    ensures forall i :: 0 <= i < |t| ==>
              && t[i].questions == TotalQuestions(RowsOf(rows, t[i].subject))
              && t[i].correct == TotalCorrect(RowsOf(rows, t[i].subject))
              && t[i].rate == Rate(t[i].correct, t[i].questions)
  {
    forall i | 0 <= i < |t|
      ensures t[i].questions == TotalQuestions(RowsOf(rows, t[i].subject))
      ensures t[i].correct == TotalCorrect(RowsOf(rows, t[i].subject))
    {
      GroupEntries(rows, i);
    }
  }

  /** app.py:77: the grouped table with "Taxa (%)" computed row by row. */
  method AddRateColumn(g: seq<SubjectTotals>) returns (t: seq<SubjectPerformance>)
    ensures |t| == |g|
    ensures forall k :: 0 <= k < |g| ==> t[k] == WithRate(g[k])
  {
    t := [];
    var i := 0;
    while i < |g|
      invariant 0 <= i <= |g|
      invariant |t| == i && forall k :: 0 <= k < i ==> t[k] == WithRate(g[k])
    {
      t := t + [WithRate(g[i])];
      i := i + 1;
    }
  }

  /**
   * The desempenho table of app.py:76-77: the group-by, then the rate column
   * added to it row by row. One row per subject, ascending by subject name,
   * each with the sums over that subject's rows and the rate computed from them.
   */
  method PerformanceTable(rows: seq<StudyRow>) returns (t: seq<SubjectPerformance>)
    ensures |t| == |Subjects(rows)|
    ensures forall i, j :: 0 <= i < j < |t| ==> Less(t[i].subject, t[j].subject)
    ensures forall s :: s in Subjects(rows) <==> exists i :: 0 <= i < |t| && t[i].subject == s
    ensures forall i :: 0 <= i < |t| ==>
              && t[i].questions == TotalQuestions(RowsOf(rows, t[i].subject))
              && t[i].correct == TotalCorrect(RowsOf(rows, t[i].subject))
              && t[i].rate == Rate(t[i].correct, t[i].questions)
  {
    t := AddRateColumn(GroupBySubject(rows));
    RatedOrder(rows, t);
    RatedCover(rows, t);
    RatedEntries(rows, t);
  }

  /**
   * Two Biology rows of 10 questions with 7 and 3
   * right give one Biology entry of 20 questions, 10 right, a rate of 50 and
   * the yellow band.
   */
  lemma TwoBiologyRows()
    ensures var rows := [StudyRow(0, "Biologia", 1.0, 10, 7), StudyRow(1, "Biologia", 1.0, 10, 3)];
            GroupBySubject(rows) == [SubjectTotals("Biologia", 20, 10)]
            && Rate(10, 20) == Finite(50.0)
            && RateBand(Rate(10, 20)) == Yellow
  {
    var rows := [StudyRow(0, "Biologia", 1.0, 10, 7), StudyRow(1, "Biologia", 1.0, 10, 3)];
    assert rows[1..] == [rows[1]];
    assert GroupBySubject(rows[1..]) == [SubjectTotals("Biologia", 10, 3)];
  }
}
