# Study dashboard engine (dashboard-enem), modelled in Dafny

The dashboard is one Streamlit script, `app.py`. It reads three sheets of a
workbook: the weekly study log ("Controle da Semana"), the error notebook
("Caderno de Erros") and the review log ("Revisões"). It then shows:

- four headline figures: hours, questions, correct answers and "Aproveitamento";
- a per-subject table ("Desempenho por Matéria") whose rate cell is coloured green, yellow or red;
- the review table, where each checkpoint (24 h, 7 days, 30 days) is labelled "Atrasada", "Hoje" or "Em dia";
- a banner that says whether any review is overdue;
- two bar charts counting error types and error topics.

This project models the computation behind those views. It leaves out the widgets.

Modules, one per part of the script:

- `Options` (`options.dfy`): a possibly missing cell, standing for pandas' NaN/NaT.
- `Headers` (`headers.dfy`): column names of the study log are stripped with Python's
  `str.strip` whitespace set. Then "Matéria Foco" is renamed "Matéria" (app.py:26-27).
  The column array is rewritten in place, in two passes, as the script does.
- `StudyLog` (`studylog.dfy`): study rows; the four headline figures; the zero guard of
  the accuracy (app.py:60-63).
- `Performance` (`performance.dfy`): the group-by on "Matéria". Pandas sorts group keys;
  the model uses Python's code-point order on strings for this. The "Taxa (%)" column
  is added to the grouped table. `cor_taxa` assigns a band and a CSS style (app.py:76-85).
- `Reviews` (`reviews.dfy`): `status_revisao` and its three label columns; the
  `atrasadas` filter; the choice between the error and the success banner (app.py:98-131).
- `ErrorLog` (`errorlog.dfy`): `value_counts` on the error-type and topic columns
  (app.py:142, 146).
- `Dashboard` (`dashboard.dfy`): one render pass that ties the parts together.

Representation choices:

- Dates are integer day numbers.
- Today (`hoje`, app.py:50) is a parameter.
- Ratios are exact `real`s.
- The per-subject division keeps float64's behaviour on a zero denominator:
  - 0/0 is NaN;
  - a positive count over 0 is +inf;
  - a negative count over 0 is -inf.
- A blank numeric cell in the study log counts as 0. pandas' `sum` skips NaN, which
  gives the same totals.

Behaviour the model keeps as the script has it:

- The per-subject rate (app.py:77) has no zero guard, unlike the overall rate
  (app.py:63). A subject with no questions gets NaN, and `cor_taxa` then colours it red.
- `value_counts` skips missing cells (its default `dropna=True`), so a blank cell adds to no bar.
- The second chart counts the topic column "Assunto".
- A missing due date (NaT) compares false to today in both tests of `status_revisao`,
  so it is labelled "Em dia".

## Model

| member | source | states |
|---|---|---|
| Headers.IsSpace | app.py:26 | the whitespace set of Python's `str.isspace`, which `str.strip()` cuts; its use is stated by TrimStart, TrimEnd and StripIsSlice |
| Headers.TrimStart | app.py:26 | the result is a suffix of the header; every character cut off is whitespace; the result does not start with whitespace |
| Headers.TrimEnd | app.py:26 | the result is a prefix of the header; every character cut off is whitespace; the result does not end with whitespace |
| Headers.Strip | app.py:26 | a stripped header neither starts nor ends with whitespace |
| Headers.StripIsSlice | app.py:26 | a stripped header is a slice of the raw one, and only whitespace was cut at both ends |
| Headers.Rename | app.py:27 | the result is "Matéria" iff the name is "Matéria" or "Matéria Foco"; any name other than "Matéria Foco" is left as it is |
| Headers.NormalizeHeader | app.py:26-27 | a normalised header has no surrounding whitespace |
| Headers.NormalizeHeaderCases | app.py:26-27 | a header becomes "Matéria" exactly when its stripped form is "Matéria" or "Matéria Foco"; any other header is only stripped |
| Headers.NormalizeHeaderIdempotent | app.py:26-27 | normalising a normalised header changes nothing |
| Headers.StripBeforeRename | app.py:26-27 | " Matéria Foco " is renamed to "Matéria" because stripping comes first; renaming the raw header first would leave it unrenamed |
| Headers.StripColumns | app.py:26 | after the first pass, every column name in the array is the stripped old name |
| Headers.RenameColumns | app.py:27 | after the second pass, every "Matéria Foco" column is "Matéria" and no other column changes |
| Headers.NormalizeColumns | app.py:26-27 | after both passes, every column name is the normalised old name |
| StudyLog.TotalHours | app.py:60 | the "Tempo (h)" sum; TotalsAppend and HoursNonNegative state its properties |
| StudyLog.TotalQuestions | app.py:61 | the "Questões Feitas" sum; TotalsAppend and CorrectWithinQuestions state its properties |
| StudyLog.TotalCorrect | app.py:62 | the "Acertos" sum; TotalsAppend and CorrectWithinQuestions state its properties |
| StudyLog.Accuracy | app.py:63 | the guarded "Aproveitamento"; AccuracyGuard states its value in both cases of the guard |
| StudyLog.ComputeKpis | app.py:60-63 | the four headline figures; AccuracyInRange, FullAccuracyIffAllCorrect and NoQuestionsShowsZero state their properties |
| StudyLog.TotalsAppend | app.py:60-62 | the hour, question and correct sums split over concatenated logs |
| StudyLog.CorrectWithinQuestions | app.py:61-62 | when 0 ≤ Acertos ≤ Questões Feitas holds on every row, 0 ≤ total correct ≤ total questions |
| StudyLog.AccuracyGuard | app.py:63 | accuracy is 0 when the question total is not positive; otherwise accuracy × questions = 100 × correct |
| StudyLog.AccuracyInRange | app.py:60-63 | on valid rows the accuracy lies in [0, 100] |
| StudyLog.TotalsAgreeIffAllCorrect | app.py:61-62 | on valid rows the two totals are equal exactly when every row has all its questions right |
| StudyLog.FullAccuracyIffAllCorrect | app.py:60-63 | on valid rows the accuracy is exactly 100 iff some question was done and every row is all correct |
| StudyLog.HoursNonNegative | app.py:60 | non-negative hours sum to a non-negative total |
| StudyLog.NoQuestionsShowsZero | app.py:63 | an empty log, or a log with no questions, shows 0% |
| Performance.Less | app.py:76 | Python's `<` on str, the order pandas sorts the group keys by; LessIrreflexive, LessTransitive and LessTotal state that it is a strict total order |
| Performance.LessTotal | app.py:76 | two different subject names are always ordered one way or the other, so group keys have a definite order |
| Performance.LessTransitive | app.py:76 | the key order is transitive |
| Performance.Insert | app.py:76 | adding a row keeps the grouped table sorted with distinct keys; it adds the row's subject to the key set; it adds the row's counts to the totals |
| Performance.InsertFind | app.py:76 | adding a row changes only its own subject's entry: the row's counts are added to that entry, or a new entry is created |
| Performance.GroupBySubject | app.py:76 | the group-by is strictly sorted by subject; its keys are exactly the log's subjects; its question and correct columns sum to the whole log's totals |
| Performance.GroupFind | app.py:76 | a subject has an entry exactly when it occurs in the log, and the entry holds the sums over that subject's rows |
| Performance.GroupEntries | app.py:76 | every grouped entry belongs to an occurring subject and carries that subject's sums |
| Performance.SortedKeysCount | app.py:76 | a strictly sorted table has as many entries as distinct keys |
| Performance.GroupCount | app.py:76 | the group-by has exactly one entry per distinct subject |
| Performance.Rate | app.py:77 | with any non-zero question count, positive or negative, the rate is finite and rate × questions = 100 × correct; with questions > 0 it equals the overall accuracy formula; with 0 questions it is not finite (NaN iff no correct answers, +inf iff some) |
| Performance.RateBand | app.py:79-85 | green iff v ≥ 70, yellow iff 50 ≤ v < 70, red iff v < 50; NaN and -inf are red and +inf is green |
| Performance.Style | app.py:81-85 | the CSS string of each band; StyleInjective states that they differ |
| Performance.CorTaxa | app.py:79-85 | the green style iff the rate is at least 70, the yellow one iff it is in [50, 70), the red one iff it is below 50; NaN and -inf get the red style and +inf the green one |
| Performance.StyleInjective | app.py:79-85 | the three CSS styles are pairwise different |
| Performance.RateBandMonotone | app.py:79-85 | a higher rate never gets a worse band |
| Performance.WithRate | app.py:77 | a grouped row with its "Taxa (%)" cell, Rate of its own sums; RatedEntries states it for the whole table |
| Performance.RatedOrder | app.py:76-77 | the rated table has one row per subject, in ascending subject order |
| Performance.RatedCover | app.py:76-77 | the rated table names exactly the subjects of the log |
| Performance.RatedEntries | app.py:76-77 | each rated row carries its subject's sums and the rate of those sums |
| Performance.AddRateColumn | app.py:77 | the result is the grouped table with the rate column added, row for row, in the same order |
| Performance.PerformanceTable | app.py:76-77 | the desempenho table: one row per subject in ascending order, exactly the log's subjects, each with its sums and its rate |
| Performance.TwoBiologyRows | app.py:76-85 | Biologia 10/7 plus 10/3 gives one entry 20/10, a rate of 50 and the yellow band |
| Reviews.Classify | app.py:98-104 | a due date before today is Atrasada, equal to today is Hoje, after today is Em dia, in both directions; a missing date is Em dia |
| Reviews.Label | app.py:100-104 | the cell text of each status; LabelInjective states that the three differ |
| Reviews.StatusRevisao | app.py:98-104 | the "Atrasada" label iff the date is before today, "Hoje" iff it is today, "Em dia" iff it is later; a missing date is "Em dia" |
| Reviews.LabelInjective | app.py:98-126 | two statuses have the same label iff they are the same status |
| Reviews.AddStatusColumns | app.py:106-108 | the result is the review table with the three label columns computed against today, row for row |
| Reviews.Atrasadas | app.py:122-126 | the filter keeps only rows of the table that have an "Atrasada" label; it keeps every such row; it never has more rows than the table |
| Reviews.AtrasadasCount | app.py:122-129 | the filtered count equals the number of positions with at least one overdue label, so a row with several counts once |
| Reviews.LateIffPast | app.py:98-126 | in the labelled table, a row is filtered in iff one of its three due dates is before today |
| Reviews.OverdueCount | app.py:122-129 | the count in the banner equals the number of review rows with a passed checkpoint, and is at most the number of rows |
| Reviews.Alert | app.py:128-131 | the error banner appears iff some row is late, and then carries the positive late count; otherwise the success banner appears |
| Reviews.OneRowThreeCheckpoints | app.py:98-131 | with today day 10 and due dates 9, 10, 15, the labels are Atrasada, Hoje and Em dia, and the banner counts the row once |
| ErrorLog.Bump | app.py:142-146 | counting one more occurrence keeps keys distinct and counts positive; it adds the value to the keys; it adds one to the total |
| ErrorLog.BumpCount | app.py:142-146 | counting one more occurrence of k adds one to k's count and changes no other count |
| ErrorLog.ValueCounts | app.py:142-146 | keys are distinct and counts positive; the keys are exactly the values present; the counts sum to the number of non-missing cells |
| ErrorLog.ValueCountsCount | app.py:142-146 | each value's count is the number of cells that hold it |
| ErrorLog.ErrorTypes | app.py:142 | the chart's input column is the error-type cell of each row, in order |
| ErrorLog.Topics | app.py:146 | the chart's input column is the "Assunto" cell of each row, in order |
| ErrorLog.ErrorTypeChart | app.py:142 | keys distinct with positive counts; a bar for exactly the error types that occur; each bar's height is the number of cells holding that type |
| ErrorLog.TopicChart | app.py:146 | keys distinct with positive counts; a bar for exactly the topics that occur; each bar's height is the number of cells holding that topic |
| ErrorLog.ContentDistractionCounts | app.py:142 | five "Conteúdo" and three "Distração" cells give counts 5 and 3 |
| ErrorLog.ContentDistractionKeys | app.py:142 | that column gives no other bar |
| Dashboard.RateStyles | app.py:90 | each rate cell gets the cor_taxa style of its own rate |
| Dashboard.Render | app.py:49-146 | one render gives: the headline figures; one coloured row per subject, in ascending subject order, with its sums and rate; the labelled review table; the error banner iff some review date has passed, carrying the number of such rows; the two value counts |

## Left out

- Streamlit rendering is not modelled: page setup, columns, metric widgets, dataframe styling, charts, captions and the refresh button (app.py:8-12, 40-44, 65-69, 87-91, 110-117, 138-148). The banner's text is also out; the model keeps only the banner kind and its count.
- The `@st.cache_data` memoisation, `st.cache_data.clear()` and `st.experimental_rerun()` are framework caching and control flow, so they are not modelled.
- Reading the workbook with `pd.read_excel` (app.py:19-23) is file I/O through a library, so it is not modelled. The model starts from the three loaded tables.
- Day-first date parsing with `pd.to_datetime` (app.py:30-33) is not modelled. Neither is the wall clock of `datetime.today()` (app.py:50). Dates and today are day numbers given as inputs, so a due date's time of day is not modelled.
- Float formatting (`:.1f`, `{:.1f}%`) and float rounding are not modelled, because ratios are exact reals.
- A study row with a missing "Matéria" is not modelled: every study row has a subject. pandas would drop such a row from the group-by, but not from the headline totals.
- Non-string header labels and non-string cells in the charted columns are not modelled.
- The order of the bars is not modelled. `value_counts` sorts by descending count, but ties have no defined order. The model lists bars in order of first appearance and states their counts.
- A missing column is not modelled. pandas raises KeyError, and the page stops, when a
  column the script reads is absent: "Matéria" (after header normalisation), "Questões
  Feitas", "Acertos" or "Tempo (h)" of the study log (app.py:60-62, 76), the three "Revisão"
  date columns (app.py:106-108), or the two charted columns (app.py:142, 146). Every row
  datatype here has all its columns.
- Integer overflow in the sums is not modelled. pandas sums the count columns as int64,
  which wraps on overflow; the model's `int` is unbounded.
- If both "Matéria" and "Matéria Foco" are present, the result has duplicate column names. Later column lookups through such names are not modelled.
