/**
 * The error notebook ("Caderno de Erros") and its two bar charts
 * (app.py:142, 146): value_counts over the error-type column and over the
 * topic ("Assunto") column. value_counts drops missing cells.
 */
module ErrorLog {
  import opened Options

  /** One notebook row: its "Tipo de Erro (Conteúdo/Leitura/Distração)" and "Assunto" cells. */
  datatype ErrorRow = ErrorRow(errorType: Option<string>, topic: Option<string>)

  /** One bar of a chart: a value and how many rows hold it. */
  datatype Tally = Tally(key: string, count: nat)

  function TallyKeys(t: seq<Tally>): set<string> {
    set e | e in t :: e.key
  }

  /** Each value at most once, each with a positive count. */
  predicate WellFormed(t: seq<Tally>) {
    (forall i, j :: 0 <= i < j < |t| ==> t[i].key != t[j].key)
    && forall i :: 0 <= i < |t| ==> t[i].count > 0
  }

  /** The count shown for k: 0 when k has no bar. */
  function CountOf(t: seq<Tally>, k: string): nat {
    if t == [] then 0 else if t[0].key == k then t[0].count else CountOf(t[1..], k)
  }

  /** The sum of all bars. */
  function Total(t: seq<Tally>): nat {
    if t == [] then 0 else t[0].count + Total(t[1..])
  }

  /** Putting a bar with a fresh key in front of a well-formed chart. */
  lemma Cons(e: Tally, rest: seq<Tally>)
    requires WellFormed(rest) && e.count > 0 && e.key !in TallyKeys(rest)
    ensures WellFormed([e] + rest)
    ensures TallyKeys([e] + rest) == {e.key} + TallyKeys(rest)
    ensures Total([e] + rest) == e.count + Total(rest)
  {
    var r := [e] + rest;
    assert r[1..] == rest;
    assert forall x :: x in r <==> x == e || x in rest;
    forall i, j | 0 <= i < j < |r| ensures r[i].key != r[j].key {
      assert r[j] == rest[j - 1] && r[j] in rest;
      if i > 0 { assert r[i] == rest[i - 1]; }
    }
  }

  /** Taking a well-formed chart apart at its first bar. */
  lemma Uncons(t: seq<Tally>)
    requires WellFormed(t) && t != []
    ensures WellFormed(t[1..]) && t[0].key !in TallyKeys(t[1..])
    ensures t == [t[0]] + t[1..]
  {
    forall e | e in t[1..] ensures e.key != t[0].key {
      var j :| 0 <= j < |t[1..]| && t[1..][j] == e;
      assert t[j + 1] == e;
    }
  }

  /** One more occurrence of k: its bar grows by one, or a new bar of 1 is added. */
  function Bump(t: seq<Tally>, k: string): (t': seq<Tally>)
    requires WellFormed(t)
    ensures WellFormed(t')
    ensures TallyKeys(t') == TallyKeys(t) + {k}
    ensures Total(t') == Total(t) + 1
  {
    if t == [] then
      Cons(Tally(k, 1), []);
      [Tally(k, 1)]
    else
      Uncons(t);
      Cons(t[0], t[1..]);
      if t[0].key == k then
        Cons(Tally(k, t[0].count + 1), t[1..]);
        [Tally(k, t[0].count + 1)] + t[1..]
      else
        var rest := Bump(t[1..], k);
        Cons(t[0], rest);
        [t[0]] + rest
  }

  /** Bump adds one to k's count and leaves every other count alone. */
  lemma {:induction false} BumpCount(t: seq<Tally>, k: string, j: string)
    requires WellFormed(t)
    ensures CountOf(Bump(t, k), j) == CountOf(t, j) + (if j == k then 1 else 0)
  {
    if t != [] && t[0].key != k {
      BumpCount(t[1..], k, j);
    }
  }

  /** The values present in a column. */
  function Present(col: seq<Option<string>>): set<string> {
    set x | x in col && x.Some? :: x.value
  }

  /**
   * Series.value_counts(): one bar per value present in the column, with a
   * positive count, and the bars add up to the number of non-missing cells.
   */
  function ValueCounts(col: seq<Option<string>>): (t: seq<Tally>)
    ensures WellFormed(t)
    ensures TallyKeys(t) == Present(col)
    ensures Total(t) == |col| - multiset(col)[None]
  {
    if col == [] then []
    else
      var init := col[..|col| - 1];
      var last := col[|col| - 1];
      assert col == init + [last];
      assert Present(col) == Present(init) + (if last.Some? then {last.value} else {}) by {
        assert forall x :: x in col <==> x in init || x == last;
      }
      var t := ValueCounts(init);
      if last.Some? then Bump(t, last.value) else t
  }

  /** Each value's bar counts exactly the cells that hold it. */
  lemma {:induction false} ValueCountsCount(col: seq<Option<string>>, k: string)
    ensures CountOf(ValueCounts(col), k) == multiset(col)[Some(k)]
  {
    if col != [] {
      var init := col[..|col| - 1];
      assert col == init + [col[|col| - 1]];
      ValueCountsCount(init, k);
      if col[|col| - 1].Some? {
        BumpCount(ValueCounts(init), col[|col| - 1].value, k);
      }
    }
  }

  /** The error-type column. */
  function ErrorTypes(rows: seq<ErrorRow>): (col: seq<Option<string>>)
    ensures |col| == |rows| && forall i :: 0 <= i < |rows| ==> col[i] == rows[i].errorType
  {
    if rows == [] then [] else [rows[0].errorType] + ErrorTypes(rows[1..])
  }

  /** The topic column. */
  function Topics(rows: seq<ErrorRow>): (col: seq<Option<string>>)
    ensures |col| == |rows| && forall i :: 0 <= i < |rows| ==> col[i] == rows[i].topic
  {
    if rows == [] then [] else [rows[0].topic] + Topics(rows[1..])
  }

  /**
   * The "Tipos de erro" chart (app.py:142): one bar per error type that
   * occurs, whose height is the number of rows with that type.
   */
  function ErrorTypeChart(rows: seq<ErrorRow>): (bars: seq<Tally>)
    ensures WellFormed(bars)
    ensures forall k :: k in TallyKeys(bars) <==> exists i :: 0 <= i < |rows| && rows[i].errorType == Some(k)
    ensures forall k :: CountOf(bars, k) == multiset(ErrorTypes(rows))[Some(k)]
  {
    var col := ErrorTypes(rows);
    assert forall k :: CountOf(ValueCounts(col), k) == multiset(col)[Some(k)] by {
      forall k ensures CountOf(ValueCounts(col), k) == multiset(col)[Some(k)] {
        ValueCountsCount(col, k);
      }
    }
    assert forall k :: Some(k) in col <==> exists i :: 0 <= i < |rows| && rows[i].errorType == Some(k);
    ValueCounts(col)
  }

  /**
   * The "Assuntos que mais erram" chart (app.py:146): one bar per topic that
   * occurs, whose height is the number of rows with that topic.
   */
  function TopicChart(rows: seq<ErrorRow>): (bars: seq<Tally>)
    ensures WellFormed(bars)
    ensures forall k :: k in TallyKeys(bars) <==> exists i :: 0 <= i < |rows| && rows[i].topic == Some(k)
    ensures forall k :: CountOf(bars, k) == multiset(Topics(rows))[Some(k)]
  {
    var col := Topics(rows);
    assert forall k :: CountOf(ValueCounts(col), k) == multiset(col)[Some(k)] by {
      forall k ensures CountOf(ValueCounts(col), k) == multiset(col)[Some(k)] {
        ValueCountsCount(col, k);
      }
    }
    assert forall k :: Some(k) in col <==> exists i :: 0 <= i < |rows| && rows[i].topic == Some(k);
    ValueCounts(col)
  }

  /** A column of five "Conteúdo" cells and three "Distração" cells. */
  predicate ContentDistractionColumn(col: seq<Option<string>>) {
    col == [Some("Conte\U{FA}do"), Some("Conte\U{FA}do"), Some("Distra\U{E7}\U{E3}o"),
            Some("Conte\U{FA}do"), Some("Distra\U{E7}\U{E3}o"), Some("Conte\U{FA}do"),
            Some("Distra\U{E7}\U{E3}o"), Some("Conte\U{FA}do")]
  }

  /** On that column the chart has the bars Conteúdo 5 and Distração 3. */
  lemma ContentDistractionCounts(col: seq<Option<string>>)
    requires ContentDistractionColumn(col)
    ensures CountOf(ValueCounts(col), "Conte\U{FA}do") == 5
    ensures CountOf(ValueCounts(col), "Distra\U{E7}\U{E3}o") == 3
  {
    var c, d := Some("Conte\U{FA}do"), Some("Distra\U{E7}\U{E3}o");
    assert c != d;
    var front, back := [c, c, d, c], [d, c, d, c];
    assert col == front + back;
    assert multiset(front)[c] == 3 && multiset(front)[d] == 1;
    assert multiset(back)[c] == 2 && multiset(back)[d] == 2;
    assert multiset(col) == multiset(front) + multiset(back);
    ValueCountsCount(col, c.value);
    ValueCountsCount(col, d.value);
  }

  /** On that column the chart has no other bar. */
  lemma ContentDistractionKeys(col: seq<Option<string>>)
    requires ContentDistractionColumn(col)
    ensures TallyKeys(ValueCounts(col)) == {"Conte\U{FA}do", "Distra\U{E7}\U{E3}o"}
  {
    var c, d := Some("Conte\U{FA}do"), Some("Distra\U{E7}\U{E3}o");
    assert forall x :: x in col <==> x == c || x == d;
    assert Present(col) == {c.value, d.value};
  }
}
