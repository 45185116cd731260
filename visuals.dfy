/** The analytics page: the fixed subject-score table, the study-hours trend
    with its subject filter, and the focus/understanding view with its
    study-hours range filter, each with its fallback when data.csv gives no rows.
    A filtered table keeps the index labels of the rows it keeps, and the charts,
    given no x column, draw against those labels; so a filter is modelled by the
    ascending list of row labels it keeps. */
module Visuals {
  import opened StudyData
  import opened StringOrder
  import Survey

  // ---------------------------------------------------------------- loading

  /** `load_csv_data`: the rows of data.csv, or an empty table when reading
      fails for any reason. */
  function LoadCsvData(present: bool, lines: seq<Line>): (data: seq<Session>)
    ensures ReadCsv(present, lines).Err? ==> data == []
    ensures ReadCsv(present, lines).Ok? ==> data == ReadCsv(present, lines).value
  {
    match ReadCsv(present, lines)
    case Ok(rows) => rows
    case Err(_) => []
  }

  /** What the survey page wrote is what this page loads: every submitted
      session, unchanged and in submission order; no file gives no rows. */
  lemma LoadSeesLog(file: Survey.DataFile)
    requires file.Valid()
    ensures LoadCsvData(file.present, file.lines) == file.log
  {
    if file.present {
      ReadCsvOfLog(file.log);
    }
  }

  // ------------------------------------------------------ subject score table

  /** The hard-coded scores, in the order the dictionary literal lists them. */
  const ChartData: seq<(string, int)> :=
    [("Computer Science", 88), ("Mathematics", 85), ("Physics", 78),
     ("English", 92), ("Chemistry", 82)]

  datatype ScoreTable = ScoreTable(subjects: seq<string>, scores: seq<int>)

  /** The two columns built from `chart_data.keys()` and `chart_data.values()`. */
  function SubjectScores(): (t: ScoreTable)
    ensures |t.subjects| == |t.scores| == |ChartData|
  {
    ScoreTable(seq(|ChartData|, i requires 0 <= i < |ChartData| => ChartData[i].0),
               seq(|ChartData|, i requires 0 <= i < |ChartData| => ChartData[i].1))
  }

  /** Five subjects and five scores, paired position by position as the literal
      pairs them, with no subject named twice (so indexing by subject is
      unambiguous). */
  lemma SubjectScoresAsGiven()
    ensures SubjectScores().subjects
            == ["Computer Science", "Mathematics", "Physics", "English", "Chemistry"]
    ensures SubjectScores().scores == [88, 85, 78, 92, 82]
    ensures |SubjectScores().subjects| == |SubjectScores().scores| == 5
    ensures forall i :: 0 <= i < 5 ==>
              (SubjectScores().subjects[i], SubjectScores().scores[i]) == ChartData[i]
    ensures forall i, j :: 0 <= i < j < 5 ==>
              SubjectScores().subjects[i] != SubjectScores().subjects[j]
  {
  }

  // ------------------------------------------------------------------ filters

  predicate Ascending(idx: seq<nat>) {
    forall j, k :: 0 <= j < k < |idx| ==> idx[j] < idx[k]
  }

  predicate Within(idx: seq<nat>, n: nat) {
    forall j :: 0 <= j < |idx| ==> idx[j] < n
  }

  /** `frame[mask]`: the labels of the rows whose mask entry is true, in row
      order. */
  function Where(mask: seq<bool>): (idx: seq<nat>)
    ensures |idx| <= |mask|
  {
    if mask == [] then []
    else
      var n := |mask| - 1;
      Where(mask[..n]) + (if mask[n] then [n] else [])
  }

  /** Every kept label names a row, and a row whose mask entry is true. */
  lemma {:induction false} WhereSound(mask: seq<bool>)
    ensures Within(Where(mask), |mask|)
    ensures forall j :: 0 <= j < |Where(mask)| ==> mask[Where(mask)[j]]
  {
    if mask != [] {
      var n := |mask| - 1;
      var front := mask[..n];
      WhereSound(front);
      var kept := Where(front);
      var idx := kept + (if mask[n] then [n] else []);
      assert Where(mask) == idx;
      forall j | 0 <= j < |idx| ensures idx[j] < |mask| && mask[idx[j]] {
        if j < |kept| {
          assert idx[j] == kept[j] && front[kept[j]] == mask[kept[j]];
        }
      }
    }
  }

  /** The kept labels are in row order, so the kept rows are an
      order-preserving subsequence. */
  lemma {:induction false} WhereAscending(mask: seq<bool>)
    ensures Ascending(Where(mask))
  {
    if mask != [] {
      var n := |mask| - 1;
      var front := mask[..n];
      WhereSound(front);
      WhereAscending(front);
      var kept := Where(front);
      var idx := kept + (if mask[n] then [n] else []);
      assert Where(mask) == idx;
      forall j, k | 0 <= j < k < |idx| ensures idx[j] < idx[k] {
        assert idx[j] == kept[j] && kept[j] < n;
        if k < |kept| {
          assert idx[k] == kept[k];
        }
      }
    }
  }

  /** Every row whose mask entry is true is kept. */
  lemma {:induction false} WhereComplete(mask: seq<bool>)
    ensures forall i :: 0 <= i < |mask| && mask[i] ==> i in Where(mask)
  {
    if mask != [] {
      var n := |mask| - 1;
      WhereComplete(mask[..n]);
      assert forall i :: 0 <= i < n ==> mask[..n][i] == mask[i];
    }
  }

  /** The whole contract of `frame[mask]`: exactly the true entries, in order. */
  lemma WhereExact(mask: seq<bool>)
    ensures Ascending(Where(mask)) && Within(Where(mask), |mask|)
    ensures forall i :: 0 <= i < |mask| ==> (i in Where(mask) <==> mask[i])
    ensures Where(mask) == [] <==> forall i :: 0 <= i < |mask| ==> !mask[i]
  {
    WhereSound(mask);
    WhereAscending(mask);
    WhereComplete(mask);
    var idx := Where(mask);
    if idx != [] {
      assert mask[idx[0]];
    }
  }

  /** The labels of an unfiltered table of `n` rows. */
  function AllRows(n: nat): (idx: seq<nat>) {
    seq(n, i => i)
  }

  /** The rows a list of labels selects. */
  function RowsAt(data: seq<Session>, idx: seq<nat>): seq<Session>
    requires Within(idx, |data|)
  {
    seq(|idx|, j requires 0 <= j < |idx| => data[idx[j]])
  }

  /** The sentinel of the subject select box that stands for every subject. */
  const AllSubjects := "All"

  /** The rows the subject select box keeps: every row for `'All'`, otherwise
      the rows of exactly that subject (case-sensitive). */
  function SubjectFilter(data: seq<Session>, selected: string): (idx: seq<nat>)
    ensures Ascending(idx) && Within(idx, |data|)
    ensures forall i :: 0 <= i < |data| ==>
              (i in idx <==> selected == AllSubjects || data[i].subject == selected)
  {
    if selected == AllSubjects then
      var all := AllRows(|data|);
      assert forall i :: 0 <= i < |data| ==> i in all by {
        forall i | 0 <= i < |data| ensures i in all {
          assert all[i] == i;
        }
      }
      all
    else
      var mask := seq(|data|, i requires 0 <= i < |data| => data[i].subject == selected);
      WhereExact(mask);
      Where(mask)
  }

  /** Choosing `'All'` shows the loaded table unchanged. */
  lemma AllKeepsEveryRow(data: seq<Session>)
    ensures RowsAt(data, SubjectFilter(data, AllSubjects)) == data
  {
  }

  /** Choosing a subject shows exactly its rows, in their original order. */
  lemma {:induction false} SubjectKeepsItsRows(data: seq<Session>, selected: string)
    requires selected != AllSubjects
    ensures forall s :: s in RowsAt(data, SubjectFilter(data, selected)) <==>
                          s in data && s.subject == selected
  {
    var idx := SubjectFilter(data, selected);
    var rows := RowsAt(data, idx);
    forall s ensures s in rows <==> s in data && s.subject == selected {
      if s in rows {
        var j :| 0 <= j < |rows| && rows[j] == s;
        assert idx[j] in idx;
      }
      if s in data && s.subject == selected {
        var i :| 0 <= i < |data| && data[i] == s;
        assert i in idx;
        var j :| 0 <= j < |idx| && idx[j] == i;
        assert rows[j] == s;
      }
    }
  }

  /** A session's study time in hundredths of an hour, the unit of the range
      slider (a float slider with the default step of 0.01). */
  function Hundredths(s: Session): int {
    50 * s.halfHours
  }

  /** `(study_hours >= lo) & (study_hours <= hi)`, with the bounds in hundredths. */
  function HourMask(data: seq<Session>, lo: int, hi: int): seq<bool> {
    var atLeast := seq(|data|, i requires 0 <= i < |data| => Hundredths(data[i]) >= lo);
    var atMost := seq(|data|, i requires 0 <= i < |data| => Hundredths(data[i]) <= hi);
    seq(|data|, i requires 0 <= i < |data| => atLeast[i] && atMost[i])
  }

  /** The rows whose study time lies in the closed range from `lo` to `hi`. */
  function HourFilter(data: seq<Session>, lo: int, hi: int): (idx: seq<nat>)
    ensures Ascending(idx) && Within(idx, |data|)
    ensures forall i :: 0 <= i < |data| ==>
              (i in idx <==> lo <= Hundredths(data[i]) <= hi)
    ensures idx == [] <==> forall i :: 0 <= i < |data| ==> !(lo <= Hundredths(data[i]) <= hi)
  {
    WhereExact(HourMask(data, lo, hi));
    Where(HourMask(data, lo, hi))
  }

  /** Both ends of the range are kept. */
  lemma HourBoundsInclusive(data: seq<Session>, lo: int, hi: int, i: nat)
    requires lo <= hi && i < |data|
    requires Hundredths(data[i]) == lo || Hundredths(data[i]) == hi
    ensures i in HourFilter(data, lo, hi)
  {
  }

  /** A range whose lower end exceeds its upper end keeps nothing. */
  lemma HourRangeInverted(data: seq<Session>, lo: int, hi: int)
    requires lo > hi
    ensures HourFilter(data, lo, hi) == []
  {
  }

  // ------------------------------------------------------------------- views

  /** The placeholder series drawn when there are no rows. */
  const ExampleDates: seq<string> := ["2024-10-01", "2024-10-02", "2024-10-03"]
  const ExampleHalfHours: seq<int> := [7, 4, 8]
  const ExampleFocus: seq<int> := [7, 8, 5, 9, 6]
  const ExampleUnderstanding: seq<int> := [8, 7, 6, 9, 7]

  /** The select box's options: `'All'`, then the data's subjects sorted. */
  function SubjectOptions(data: seq<Session>): (options: seq<string>)
    ensures |options| >= 1 && options[0] == AllSubjects
    ensures StrictlyAscending(options[1..])
  {
    [AllSubjects] + SortedUnique(seq(|data|, i requires 0 <= i < |data| => data[i].subject))
  }

  /** The options start with `'All'`; the rest name every subject of the data
      and nothing else, each once, in ascending order. */
  lemma SubjectOptionsShape(data: seq<Session>)
    ensures |SubjectOptions(data)| >= 1 && SubjectOptions(data)[0] == AllSubjects
    ensures StrictlyAscending(SubjectOptions(data)[1..])
    ensures forall x :: x in SubjectOptions(data)[1..] <==>
                          exists i :: 0 <= i < |data| && data[i].subject == x
  {
    var subjects := seq(|data|, i requires 0 <= i < |data| => data[i].subject);
    assert SubjectOptions(data)[1..] == SortedUnique(subjects);
    forall x ensures x in subjects <==> exists i :: 0 <= i < |data| && data[i].subject == x {
      if x in subjects {
        var i :| 0 <= i < |subjects| && subjects[i] == x;
        assert data[i].subject == x;
      }
      if exists i :: 0 <= i < |data| && data[i].subject == x {
        var i :| 0 <= i < |data| && data[i].subject == x;
        assert subjects[i] == x;
      }
    }
  }

  /** The study-hours line chart: the example series when there are no rows,
      otherwise the options offered and one (row label, half hours) point per
      row the chosen subject keeps. */
  datatype TrendChart =
    | ExampleTrend(dates: seq<string>, halfHours: seq<int>)
    | HoursByRow(options: seq<string>, points: seq<(nat, int)>)

  /** `create_study_trends_chart`, given the subject chosen in the select box. */
  function TrendView(data: seq<Session>, selected: string): (chart: TrendChart)
    ensures chart.ExampleTrend? <==> data == []
    ensures chart.HoursByRow? ==> |chart.points| <= |data|
  {
    if data == [] then ExampleTrend(ExampleDates, ExampleHalfHours)
    else
      var idx := SubjectFilter(data, selected);
      HoursByRow(SubjectOptions(data),
                 seq(|idx|, j requires 0 <= j < |idx| => (idx[j], data[idx[j]].halfHours)))
  }

  /** No rows gives the fixed example of three dates with 3.5, 2.0 and 4.0 hours;
      rows never give it. */
  lemma TrendFallback(data: seq<Session>, selected: string)
    ensures TrendView(data, selected).ExampleTrend? <==> data == []
    ensures data == [] ==> TrendView(data, selected)
                           == ExampleTrend(["2024-10-01", "2024-10-02", "2024-10-03"], [7, 4, 8])
  {
  }

  /** With rows, the chart plots the chosen subject's rows (every row for
      `'All'`) against their labels, in row order, each at its own hours. */
  lemma {:induction false} TrendPlotsSelectedRows(data: seq<Session>, selected: string)
    requires data != []
    ensures TrendView(data, selected).HoursByRow?
    ensures TrendView(data, selected).options == SubjectOptions(data)
    ensures forall j, k :: 0 <= j < k < |TrendView(data, selected).points| ==>
              TrendView(data, selected).points[j].0 < TrendView(data, selected).points[k].0
    ensures forall p :: p in TrendView(data, selected).points ==>
              p.0 < |data| && p.1 == data[p.0].halfHours
              && (selected == AllSubjects || data[p.0].subject == selected)
    ensures forall i :: 0 <= i < |data| && (selected == AllSubjects || data[i].subject == selected)
              ==> (i, data[i].halfHours) in TrendView(data, selected).points
  {
    var idx := SubjectFilter(data, selected);
    var points := TrendView(data, selected).points;
    assert |points| == |idx|;
    forall i | 0 <= i < |data| && (selected == AllSubjects || data[i].subject == selected)
      ensures (i, data[i].halfHours) in points
    {
      assert i in idx;
      var j :| 0 <= j < |idx| && idx[j] == i;
      assert points[j] == (i, data[i].halfHours);
    }
  }

  /** The focus/understanding chart: the example values when there are no rows,
      the message "No data in selected range." when the range keeps no row, and
      otherwise one (row label, focus, understanding) point per kept row. */
  datatype ScatterChart =
    | ExampleScatter(focus: seq<int>, understanding: seq<int>)
    | NoDataInRange
    | LevelsByRow(points: seq<(nat, int, int)>)

  /** The range slider's default, (1.0, 4.0) hours. */
  const DefaultRange: (int, int) := (100, 400)

  /** `create_focus_understanding_chart`, given the range chosen on the slider
      in hundredths of an hour. */
  function ScatterView(data: seq<Session>, lo: int, hi: int): (chart: ScatterChart)
    ensures chart.ExampleScatter? <==> data == []
    ensures chart.LevelsByRow? ==> 0 < |chart.points| <= |data|
  {
    if data == [] then ExampleScatter(ExampleFocus, ExampleUnderstanding)
    else
      var idx := HourFilter(data, lo, hi);
      if idx == [] then NoDataInRange
      else LevelsByRow(seq(|idx|, j requires 0 <= j < |idx| =>
                             (idx[j], data[idx[j]].focus, data[idx[j]].understanding)))
  }

  /** No rows gives the fixed five-point example; rows never give it. */
  lemma ScatterFallback(data: seq<Session>, lo: int, hi: int)
    ensures ScatterView(data, lo, hi).ExampleScatter? <==> data == []
    ensures data == [] ==> ScatterView(data, lo, hi)
                           == ExampleScatter([7, 8, 5, 9, 6], [8, 7, 6, 9, 7])
  {
  }

  /** With rows, the message appears exactly when no row's hours lie in the
      range, and a chart of zero points is never drawn. */
  lemma {:induction false} ScatterEmptyRange(data: seq<Session>, lo: int, hi: int)
    requires data != []
    ensures ScatterView(data, lo, hi).NoDataInRange? <==>
              forall i :: 0 <= i < |data| ==> !(lo <= Hundredths(data[i]) <= hi)
    ensures ScatterView(data, lo, hi).LevelsByRow? ==> ScatterView(data, lo, hi).points != []
  {
    var idx := HourFilter(data, lo, hi);
    if idx != [] {
      assert idx[0] in idx;
    } else {
      forall i | 0 <= i < |data| ensures !(lo <= Hundredths(data[i]) <= hi) {
        assert i !in idx;
      }
    }
  }

  /** With rows, the points are exactly the rows in the range, in row order,
      each with its own focus and understanding. */
  lemma {:induction false} ScatterPlotsRowsInRange(data: seq<Session>, lo: int, hi: int)
    requires data != []
    ensures ScatterView(data, lo, hi).LevelsByRow? ==>
              var points := ScatterView(data, lo, hi).points;
              (forall j, k :: 0 <= j < k < |points| ==> points[j].0 < points[k].0)
              && (forall p :: p in points ==>
                    p.0 < |data| && lo <= Hundredths(data[p.0]) <= hi
                    && p.1 == data[p.0].focus && p.2 == data[p.0].understanding)
              && (forall i :: 0 <= i < |data| && lo <= Hundredths(data[i]) <= hi ==>
                    (i, data[i].focus, data[i].understanding) in points)
  {
    var idx := HourFilter(data, lo, hi);
    if idx != [] {
      var points := ScatterView(data, lo, hi).points;
      forall i | 0 <= i < |data| && lo <= Hundredths(data[i]) <= hi
        ensures (i, data[i].focus, data[i].understanding) in points
      {
        assert i in idx;
        var j :| 0 <= j < |idx| && idx[j] == i;
        assert points[j] == (i, data[i].focus, data[i].understanding);
      }
    }
  }

  /** On the slider's initial range, the chart shows the rows of 1.0 to 4.0
      hours, both included, and the message only when there is none. */
  lemma DefaultRangeShows(data: seq<Session>)
    requires data != []
    ensures ScatterView(data, DefaultRange.0, DefaultRange.1).NoDataInRange? <==>
              forall i :: 0 <= i < |data| ==> !(2 <= data[i].halfHours <= 8)
    ensures forall i :: 0 <= i < |data| ==>
              (i in HourFilter(data, DefaultRange.0, DefaultRange.1) <==> 2 <= data[i].halfHours <= 8)
  {
    ScatterEmptyRange(data, DefaultRange.0, DefaultRange.1);
  }

  /** A worked case: rows of 1.0, 3.0 and 5.0 hours filtered to the range 2.0
      to 5.0 keep the last two (5.0 on the bound), which total 8.0 hours. */
  lemma {:induction false} RangeExample(data: seq<Session>)
    requires |data| == 3
    requires data[0].halfHours == 2 && data[1].halfHours == 6 && data[2].halfHours == 10
    ensures HourFilter(data, 200, 500) == [1, 2]
    ensures Survey.TotalHalfHours(RowsAt(data, [1, 2])) == 16
  {
    var mask := HourMask(data, 200, 500);
    assert mask == [false, true, true];
    assert mask[..2] == [false, true] && mask[..2][..1] == [false] && mask[..2][..1][..0] == [];
    assert Where(mask[..2][..1]) == [];
    assert Where(mask[..2]) == [1];
    assert Within([1, 2], |data|);
    var rows := RowsAt(data, [1, 2]);
    assert |rows| == 2 && rows[0] == data[1] && rows[1] == data[2];
    assert rows == [data[1], data[2]];
    PairTotal(data[1], data[2]);
  }

  lemma PairTotal(a: Session, b: Session)
    ensures Survey.TotalHalfHours([a, b]) == a.halfHours + b.halfHours
  {
    assert [a, b][1..] == [b] && [b][1..] == [];
    assert Survey.TotalHalfHours([b]) == b.halfHours;
  }
}
