/**
 * The script body of app.py (lines 49-146) as one pass over the three loaded
 * tables: the headline figures, the coloured per-subject table, the labelled
 * review table with its banner, and the two error charts. Loading, today's
 * date and the rendering widgets are outside; today comes in as a day number.
 */
module Dashboard {
  import opened StudyLog
  import opened Performance
  import opened Reviews
  import opened ErrorLog

  /** Everything the page shows, as data. */
  datatype View = View(kpis: Kpis,
                       performance: seq<SubjectPerformance>,
                       rateStyles: seq<string>,
                       reviews: seq<ReviewView>,
                       banner: Banner,
                       errorTypes: seq<Tally>,
                       topics: seq<Tally>)

  /** cor_taxa applied down the rate column (app.py:90). */
  method RateStyles(t: seq<SubjectPerformance>) returns (styles: seq<string>)
    ensures |styles| == |t|
    ensures forall i :: 0 <= i < |t| ==> styles[i] == CorTaxa(t[i].rate)
  {
    styles := [];
    var i := 0;
    while i < |t|
      invariant 0 <= i <= |t|
      invariant |styles| == i
      invariant forall k :: 0 <= k < i ==> styles[k] == CorTaxa(t[k].rate)
    {
      styles := styles + [CorTaxa(t[i].rate)];
      i := i + 1;
    }
  }

  /**
   * One render of the page. The banner is the error one exactly when some
   * review row has a passed date, and then it carries the number of such
   * rows; every other part is the one its own module describes.
   */
  method Render(controle: seq<StudyRow>, erros: seq<ErrorRow>, revisoes: seq<ReviewRow>, today: int)
    returns (v: View)
    ensures v.kpis == ComputeKpis(controle)
    ensures |v.performance| == |Subjects(controle)| == |v.rateStyles|
    ensures forall i, j :: 0 <= i < j < |v.performance| ==>
              Less(v.performance[i].subject, v.performance[j].subject)
    ensures forall i :: 0 <= i < |v.performance| ==>
              && v.performance[i].subject in Subjects(controle)
              && v.performance[i].questions == TotalQuestions(RowsOf(controle, v.performance[i].subject))
              && v.performance[i].correct == TotalCorrect(RowsOf(controle, v.performance[i].subject))
              && v.performance[i].rate == Rate(v.performance[i].correct, v.performance[i].questions)
              && v.rateStyles[i] == Style(RateBand(v.performance[i].rate))
    ensures StatusColumns(v.reviews, revisoes, today)
    ensures v.banner.ErrorBanner? <==> PastRows(revisoes, today) != {}
    ensures v.banner.ErrorBanner? ==> v.banner.count == |PastRows(revisoes, today)|
    ensures v.errorTypes == ValueCounts(ErrorTypes(erros))
    ensures v.topics == ValueCounts(Topics(erros))
  {
    var kpis := ComputeKpis(controle);
    var performance := PerformanceTable(controle);
    forall i | 0 <= i < |performance| ensures performance[i].subject in Subjects(controle) {
      assert exists k :: 0 <= k < |performance| && performance[k].subject == performance[i].subject;
    }
    var styles := RateStyles(performance);
    var reviews := AddStatusColumns(revisoes, today);
    var banner := Alert(reviews);
    OverdueCount(reviews, revisoes, today);
    assert PastRows(revisoes, today) != {} <==> exists i :: 0 <= i < |reviews| && IsLate(reviews[i]) by {
      forall i | 0 <= i < |reviews| ensures IsLate(reviews[i]) <==> RowPast(revisoes[i], today) {
        LateIffPast(reviews, revisoes, today, i);
      }
      if PastRows(revisoes, today) != {} {
        var i :| i in PastRows(revisoes, today);
        assert IsLate(reviews[i]);
      }
    }
    v := View(kpis, performance, styles, reviews, banner, ErrorTypeChart(erros), TopicChart(erros));
  }
}
