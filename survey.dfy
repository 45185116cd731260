/** The survey page: a form whose submission is validated, turned into one
    session row and written to data.csv, and the summary metrics shown under
    the form. */
module Survey {
  import opened StudyData

  /** The labels offered by the subject select box. */
  const SubjectChoices: seq<string> :=
    ["Computer Science", "Mathematics", "English", "Physics", "Chemistry", "Biology", "Other"]

  /** The slider bounds, with study hours counted in half hours (0.5 to 8.0 hours). */
  const MinHalfHours := 1
  const MaxHalfHours := 16
  const MinLevel := 1
  const MaxLevel := 10

  /** What the form's widgets hand over when "Submit Study Data" is pressed. */
  datatype Form = Form(
    subject: string,
    halfHours: int,
    focus: int,
    understanding: int,
    topics: string)
  {
    /** The values the select box and the three sliders can produce. The page
        never checks these itself: the widgets cannot return anything else. */
    predicate InWidgetRange() {
      subject in SubjectChoices
      && MinHalfHours <= halfHours <= MaxHalfHours
      && MinLevel <= focus <= MaxLevel
      && MinLevel <= understanding <= MaxLevel
    }
  }

  /** The invariant of every session this page writes. */
  predicate Accepted(s: Session) {
    s.subject in SubjectChoices
    && MinHalfHours <= s.halfHours <= MaxHalfHours
    && MinLevel <= s.focus <= MaxLevel
    && MinLevel <= s.understanding <= MaxLevel
    && s.topics != []
  }

  /** The form as filled in, recovered from a stored session. */
  function FormOf(s: Session): Form {
    Form(s.subject, s.halfHours, s.focus, s.understanding, s.topics)
  }

  datatype SubmitError = TopicsMissing

  /** The submission check and the row it builds: an empty topics text is
      refused; otherwise the session is the form's values, unchanged, stamped
      with the submission time. */
  function Validate(timestamp: string, form: Form): (r: Result<Session, SubmitError>)
    ensures r.Err? <==> form.topics == []
    ensures r.Err? ==> r.error == TopicsMissing
    ensures r.Ok? ==> r.value.timestamp == timestamp && FormOf(r.value) == form
  {
    if form.topics == [] then Err(TopicsMissing)
    else Ok(Session(timestamp, form.subject, form.halfHours, form.focus,
                    form.understanding, form.topics))
  }

  /** Every session the page accepts lies within the widgets' bounds and has topics. */
  lemma ValidatedIsAccepted(timestamp: string, form: Form)
    requires form.InWidgetRange()
    ensures Validate(timestamp, form).Ok? ==> Accepted(Validate(timestamp, form).value)
  {
  }

  /** Total study time of a log, in half hours (`df['study_hours'].sum()`). */
  function TotalHalfHours(log: seq<Session>): (total: int)
    ensures (forall i :: 0 <= i < |log| ==> log[i].halfHours >= MinHalfHours) ==>
              total >= MinHalfHours * |log|
  {
    if log == [] then 0 else log[0].halfHours + TotalHalfHours(log[1..])
  }

  /** Sum of the focus levels of a log; "Average Focus" is this over the row count. */
  function TotalFocus(log: seq<Session>): (total: int)
    ensures (forall i :: 0 <= i < |log| ==> log[i].focus >= MinLevel) ==>
              total >= MinLevel * |log|
  {
    if log == [] then 0 else log[0].focus + TotalFocus(log[1..])
  }

  /** Appending a session adds exactly its hours and its focus to the totals. */
  lemma {:induction false} TotalsAppend(log: seq<Session>, s: Session)
    ensures TotalHalfHours(log + [s]) == TotalHalfHours(log) + s.halfHours
    ensures TotalFocus(log + [s]) == TotalFocus(log) + s.focus
  {
    if log != [] {
      assert (log + [s])[1..] == log[1..] + [s];
      TotalsAppend(log[1..], s);
    } else {
      assert [s][1..] == [];
    }
  }

  /** Over accepted sessions, total hours lie between 0.5 and 8.0 hours per
      session, and the focus total between 1 and 10 per session, so the average
      focus shown is within the slider's 1 to 10. */
  lemma {:induction false} TotalsBounds(log: seq<Session>)
    requires forall i :: 0 <= i < |log| ==> Accepted(log[i])
    ensures MinHalfHours * |log| <= TotalHalfHours(log) <= MaxHalfHours * |log|
    ensures MinLevel * |log| <= TotalFocus(log) <= MaxLevel * |log|
  {
    if log != [] {
      assert Accepted(log[0]);
      TotalsBounds(log[1..]);
    }
  }

  /** The lines a data.csv holding `log` consists of: nothing while it does not
      exist, otherwise the header followed by one row per session. */
  function FileLines(present: bool, log: seq<Session>): seq<Line> {
    if present then [HeaderLine(Columns)] + Encode(log) else []
  }

  /** What the "Current Study Data" section shows. */
  datatype SummaryView =
    | NoDataWarning
    | Metrics(totalSessions: nat, totalHalfHours: int, focusTotal: int)

  /** data.csv in the working directory, as this page writes it. */
  class DataFile {
    /** Whether the file exists (`os.path.exists('data.csv')`). */
    var present: bool
    /** The file's lines, header first. */
    var lines: seq<Line>
    /** The sessions recorded in the file, oldest first. */
    ghost var log: seq<Session>

    /** The file exists exactly when a session has been written; it then holds
        the header once, followed by one row per accepted session. */
    ghost predicate Valid()
      reads this
    {
      lines == FileLines(present, log)
      && (present <==> log != [])
      && forall i :: 0 <= i < |log| ==> Accepted(log[i])
    }

    /** The working directory before the first submission: no data.csv. */
    constructor ()
      ensures Valid() && !present && lines == [] && log == []
    {
      present := false;
      lines := [];
      log := [];
    }

    /** Writes one session: appended without a header when the file exists,
        otherwise the file is created holding the header and this row. */
    method Append(s: Session)
      requires Valid() && Accepted(s)
      modifies this
      ensures Valid() && present
      ensures log == old(log) + [s]
      ensures old(present) ==> lines == old(lines) + [DataLine(Cells(s))]
      ensures !old(present) ==> lines == [HeaderLine(Columns), DataLine(Cells(s))]
    {
      EncodeAppend(log, s);
      if present {
        lines := lines + [DataLine(Cells(s))];
      } else {
        present := true;
        lines := [HeaderLine(Columns), DataLine(Cells(s))];
      }
      log := log + [s];
    }

    /** A press of the submit button. Without topics the file is left alone and
        the error is reported; otherwise exactly one row, the form's values
        stamped with `timestamp`, is written, and the totals grow by its hours. */
    method Submit(timestamp: string, form: Form) returns (r: Result<Session, SubmitError>)
      requires Valid() && form.InWidgetRange()
      modifies this
      ensures Valid()
      ensures r.Err? <==> form.topics == []
      ensures r.Err? ==> r.error == TopicsMissing && present == old(present)
                         && lines == old(lines) && log == old(log)
      ensures r.Ok? ==> r.value.timestamp == timestamp && FormOf(r.value) == form
      ensures r.Ok? ==> present && log == old(log) + [r.value]
      ensures r.Ok? && old(present) ==> lines == old(lines) + [DataLine(Cells(r.value))]
      ensures r.Ok? && !old(present) ==> lines == [HeaderLine(Columns), DataLine(Cells(r.value))]
      ensures r.Ok? ==> |log| == |old(log)| + 1
                        && TotalHalfHours(log) == TotalHalfHours(old(log)) + r.value.halfHours
    {
      r := Validate(timestamp, form);
      if r.Ok? {
        ValidatedIsAccepted(timestamp, form);
        TotalsAppend(log, r.value);
        Append(r.value);
      }
    }

    /** The metrics section: shown only when the file exists and is not empty,
        then "Total Sessions" is the number of rows and "Total Study Hours" their
        summed hours; otherwise the "no data" warning. */
    function Summary(): (v: SummaryView)
      reads this
      requires Valid()
      ensures v.NoDataWarning? <==> log == []
      ensures v.Metrics? ==> v.totalSessions == |log| && v.totalHalfHours == TotalHalfHours(log)
                             && v.focusTotal == TotalFocus(log)
      ensures v.Metrics? ==> 0 < v.totalSessions
                             && MinHalfHours * v.totalSessions <= v.totalHalfHours
                             && v.totalHalfHours <= MaxHalfHours * v.totalSessions
                             && MinLevel * v.totalSessions <= v.focusTotal
                             && v.focusTotal <= MaxLevel * v.totalSessions
    {
      if present && |lines| > 0 then
        ReadCsvOfLog(log);
        TotalsBounds(log);
        var rows := ReadCsv(present, lines).value;
        Metrics(|rows|, TotalHalfHours(rows), TotalFocus(rows))
      else
        NoDataWarning
    }
  }
}
