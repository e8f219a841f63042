/**
 * Review alerts (app.py:98-131): each of the three spaced-repetition
 * checkpoints of a topic is labelled against today's date, the rows with any
 * overdue checkpoint are collected, and one of two banners is chosen.
 * Dates are day numbers; a missing date (NaT) is None.
 */
module Reviews {
  import opened Options

  /** One row of the "Revisões" sheet: subject, topic and the 24h, 7-day and 30-day due dates. */
  datatype ReviewRow = ReviewRow(subject: string, topic: string,
                                 due24h: Option<int>, due7d: Option<int>, due30d: Option<int>)

  datatype Status = Overdue | DueToday | OnTrack

  /**
   * status_revisao's comparison: before today is overdue, today is due
   * today, later is on track. NaT compares false both times and so is on track.
   */
  function Classify(due: Option<int>, today: int): (s: Status)
    ensures due.Some? ==> (s == Overdue <==> due.value < today)
                          && (s == DueToday <==> due.value == today)
                          && (s == OnTrack <==> due.value > today)
    ensures due.None? ==> s == OnTrack
  {
    match due
    case None => OnTrack
    case Some(d) => if d < today then Overdue else if d == today then DueToday else OnTrack
  }

  const OverdueLabel: string := "\U{1F534} Atrasada"
  const TodayLabel: string := "\U{1F7E1} Hoje"
  const OnTrackLabel: string := "\U{1F7E2} Em dia"

  /** The text status_revisao puts in the cell. */
  function Label(s: Status): string {
    match s
    case Overdue => OverdueLabel
    case DueToday => TodayLabel
    case OnTrack => OnTrackLabel
  }

  /** Different statuses have different labels, so comparing labels compares statuses. */
  lemma LabelInjective(a: Status, b: Status)
    ensures Label(a) == Label(b) <==> a == b
  {
    if a != b {
      assert Label(a)[0] != Label(b)[0];
    }
  }

  /**
   * status_revisao (app.py:98-104): the overdue label iff the date is before
   * today, the today label iff it is today, the on-track label iff it is later
   * or missing.
   */
  function StatusRevisao(due: Option<int>, today: int): (cell: string)
    ensures due.Some? ==> (cell == OverdueLabel <==> due.value < today)
                          && (cell == TodayLabel <==> due.value == today)
                          && (cell == OnTrackLabel <==> due.value > today)
    ensures due.None? ==> cell == OnTrackLabel
  {
    Label(Classify(due, today))
  }

  /** A review row with the "24h", "7d" and "30d" label columns added. */
  datatype ReviewView = ReviewView(row: ReviewRow, col24h: string, col7d: string, col30d: string)

  /** v is rows with each checkpoint's label added against today (app.py:106-108). */
  predicate StatusColumns(v: seq<ReviewView>, rows: seq<ReviewRow>, today: int) {
    |v| == |rows|
    && forall i :: 0 <= i < |v| ==>
         && v[i].row == rows[i]
         && v[i].col24h == StatusRevisao(rows[i].due24h, today)
         && v[i].col7d == StatusRevisao(rows[i].due7d, today)
         && v[i].col30d == StatusRevisao(rows[i].due30d, today)
  }

  /** app.py:106-108: status_revisao applied down each of the three date columns. */
  method AddStatusColumns(rows: seq<ReviewRow>, today: int) returns (v: seq<ReviewView>)
    ensures StatusColumns(v, rows, today)
  {
    v := [];
    var i := 0;
    while i < |rows|
      invariant 0 <= i <= |rows|
      invariant StatusColumns(v, rows[..i], today)
    {
      var r := rows[i];
      v := v + [ReviewView(r, StatusRevisao(r.due24h, today), StatusRevisao(r.due7d, today),
                           StatusRevisao(r.due30d, today))];
      i := i + 1;
    }
    assert rows[..i] == rows;
  }

  /** The row filter of app.py:122-126: some label column reads "Atrasada". */
  predicate IsLate(x: ReviewView) {
    x.col24h == OverdueLabel || x.col7d == OverdueLabel || x.col30d == OverdueLabel
  }

  /**
   * atrasadas: the late rows of the table, in table order, each once however
   * many of its checkpoints are late.
   */
  function Atrasadas(v: seq<ReviewView>): (late: seq<ReviewView>)
    ensures |late| <= |v|
    ensures forall x :: x in late ==> x in v && IsLate(x)
    ensures forall i :: 0 <= i < |v| && IsLate(v[i]) ==> v[i] in late
  {
    if v == [] then []
    else
      var init := v[..|v| - 1];
      assert forall i :: 0 <= i < |v| - 1 ==> v[i] == init[i];
      var rest := Atrasadas(init);
      if IsLate(v[|v| - 1]) then rest + [v[|v| - 1]] else rest
  }

  /** The positions of the late rows. */
  function LateIndices(v: seq<ReviewView>): set<int> {
    set i | 0 <= i < |v| && IsLate(v[i])
  }

  /** The late count is the number of rows with at least one late checkpoint. */
  lemma {:induction false} AtrasadasCount(v: seq<ReviewView>)
    ensures |Atrasadas(v)| == |LateIndices(v)|
  {
    if v != [] {
      var n := |v| - 1;
      var init := v[..n];
      AtrasadasCount(init);
      var all, before := LateIndices(v), LateIndices(init);
      assert forall i :: i in all <==> i in before || (i == n && IsLate(v[n])) by {
        forall i ensures i in all <==> i in before || (i == n && IsLate(v[n])) {
          if 0 <= i < n { assert v[i] == init[i]; }
        }
      }
      assert n !in before;
      if IsLate(v[n]) {
        assert all == before + {n};
      } else {
        assert all == before;
      }
    }
  }

  /** A checkpoint whose date has passed. */
  predicate Past(due: Option<int>, today: int) {
    due.Some? && due.value < today
  }

  /** A review row with at least one passed checkpoint. */
  predicate RowPast(r: ReviewRow, today: int) {
    Past(r.due24h, today) || Past(r.due7d, today) || Past(r.due30d, today)
  }

  /** In the labelled table, a row is late exactly when one of its dates has passed. */
  lemma LateIffPast(v: seq<ReviewView>, rows: seq<ReviewRow>, today: int, i: int)
    requires StatusColumns(v, rows, today) && 0 <= i < |v|
    ensures IsLate(v[i]) <==> RowPast(rows[i], today)
  {
    var r := rows[i];
    LabelInjective(Classify(r.due24h, today), Overdue);
    LabelInjective(Classify(r.due7d, today), Overdue);
    LabelInjective(Classify(r.due30d, today), Overdue);
  }

  /** Positions of the review log with at least one passed checkpoint. */
  function PastRows(rows: seq<ReviewRow>, today: int): set<int> {
    set i | 0 <= i < |rows| && RowPast(rows[i], today)
  }

  /**
   * The overdue count of app.py:129, read off the dates: the number of
   * review rows with at least one passed checkpoint, never more than the
   * number of rows.
   */
  lemma OverdueCount(v: seq<ReviewView>, rows: seq<ReviewRow>, today: int)
    requires StatusColumns(v, rows, today)
    ensures |Atrasadas(v)| == |PastRows(rows, today)|
    ensures |Atrasadas(v)| <= |rows|
  {
    AtrasadasCount(v);
    forall i | 0 <= i < |v| ensures IsLate(v[i]) <==> RowPast(rows[i], today) {
      LateIffPast(v, rows, today, i);
    }
    assert LateIndices(v) == PastRows(rows, today);
  }

  /** The two banners of app.py:128-131; the error one carries the late count. */
  datatype Banner = ErrorBanner(count: nat) | SuccessBanner

  /**
   * The error banner with the count when some row is late; the success
   * banner exactly when none is.
   */
  function Alert(v: seq<ReviewView>): (b: Banner)
    ensures b.ErrorBanner? <==> exists i :: 0 <= i < |v| && IsLate(v[i])
    ensures b.ErrorBanner? ==> b.count == |Atrasadas(v)| && b.count > 0
  {
    var late := Atrasadas(v);
    if late != [] then
      assert late[0] in late;
      ErrorBanner(|late|)
    else
      SuccessBanner
  }

  /**
   * One row with its three checkpoints: with today = day 10 and due dates 9, 10 and 15,
   * the checkpoints read overdue, today and on track, and the row is counted
   * once in the error banner.
   */
  lemma OneRowThreeCheckpoints()
    ensures var r := ReviewRow("Biologia", "Citologia", Some(9), Some(10), Some(15));
            && StatusRevisao(r.due24h, 10) == OverdueLabel
            && StatusRevisao(r.due7d, 10) == TodayLabel
            && StatusRevisao(r.due30d, 10) == OnTrackLabel
            && Alert([ReviewView(r, OverdueLabel, TodayLabel, OnTrackLabel)]) == ErrorBanner(1)
  {
    var r := ReviewRow("Biologia", "Citologia", Some(9), Some(10), Some(15));
    var x := ReviewView(r, OverdueLabel, TodayLabel, OnTrackLabel);
    assert [x][..0] == [];
  }
}
