/** The reminder calendar (`reporte_programacion.py`): for each exam of the JSON roster,
    the dates on which a reminder would fall, that is the exam date minus each offset,
    keeping those not before today, in offset order. */
module Report {
  import opened Outcomes
  import opened Text
  import opened Dates

  /** The offsets assumed when an exam has no "avisos" entry. */
  const ReportOffsets: seq<int> := [3, 2, 1]
  /** What the report prints when no reminder date is left. */
  const NoneText: string := "Ninguno"

  /** An exam as the JSON roster holds it; the offsets entry may be absent. */
  datatype JsonExam = JsonExam(course: string, date: string, avisos: Option<seq<int>>)

  /** Where the report stops with an exception: an unreadable exam date, or an offset that
      takes the date outside the representable range. */
  datatype ReportError = BadDate(date: string) | DateOverflow

  /** For each offset in order, the exam date minus that many days, kept when it is not
      before today; `None` where one of the subtractions overflows. */
  function ReminderDates(exam: Date, offs: seq<int>, hoy: Date): (r: Option<seq<Date>>)
    requires Valid(exam) && Valid(hoy)
    ensures r.Some? ==> |r.value| <= |offs|
  {
    if |offs| == 0 then Some([])
    else Prepend(SubtractDays(exam, offs[0]), hoy, ReminderDates(exam, offs[1..], hoy))
  }

  /** One offset's date in front of the dates of the later offsets: kept when not before
      today, and a failure on either side fails the whole. */
  function Prepend(first: Option<Date>, hoy: Date, rest: Option<seq<Date>>): (r: Option<seq<Date>>)
    ensures r.Some? <==> first.Some? && rest.Some?
    ensures r.Some? ==> |r.value| == |rest.value| + (if Before(first.value, hoy) then 0 else 1)
  {
    if first.Some? && rest.Some? then
      Some((if Before(first.value, hoy) then [] else [first.value]) + rest.value)
    else None
  }

  /** Every listed date is a real date no earlier than today. */
  lemma {:induction false} ReminderDatesInRange(exam: Date, offs: seq<int>, hoy: Date)
    requires Valid(exam) && Valid(hoy) && ReminderDates(exam, offs, hoy).Some?
    ensures var ds := ReminderDates(exam, offs, hoy).value;
      forall j :: 0 <= j < |ds| ==> Valid(ds[j]) && !Before(ds[j], hoy)
  {
    if |offs| > 0 {
      ReminderDatesInRange(exam, offs[1..], hoy);
    }
  }

  /** The calendar fails exactly when some offset leaves the representable dates. */
  lemma {:induction false} ReminderDatesFails(exam: Date, offs: seq<int>, hoy: Date)
    requires Valid(exam) && Valid(hoy)
    ensures ReminderDates(exam, offs, hoy).None? <==>
      exists k :: 0 <= k < |offs| && SubtractDays(exam, offs[k]).None?
  {
    if |offs| > 0 {
      ReminderDatesFails(exam, offs[1..], hoy);
      assert forall k :: 1 <= k < |offs| ==> offs[k] == offs[1..][k - 1];
      if SubtractDays(exam, offs[0]).Some? && ReminderDates(exam, offs[1..], hoy).None? {
        var k :| 0 <= k < |offs| - 1 && SubtractDays(exam, offs[1..][k]).None?;
        assert SubtractDays(exam, offs[k + 1]).None?;
      }
    }
  }

  /** Every listed date is the exam date minus one of the offsets. */
  lemma {:induction false} ReminderDatesOrigin(exam: Date, offs: seq<int>, hoy: Date, j: nat)
    requires Valid(exam) && Valid(hoy)
    requires ReminderDates(exam, offs, hoy).Some? && j < |ReminderDates(exam, offs, hoy).value|
    ensures exists k :: 0 <= k < |offs| && SubtractDays(exam, offs[k]) == Some(ReminderDates(exam, offs, hoy).value[j])
  {
    var out := ReminderDates(exam, offs, hoy).value;
    var first := SubtractDays(exam, offs[0]).value;
    var rest := ReminderDates(exam, offs[1..], hoy).value;
    assert out == (if Before(first, hoy) then [] else [first]) + rest;
    if j < |out| - |rest| {
      assert SubtractDays(exam, offs[0]) == Some(out[j]);
    } else {
      var m := j - (|out| - |rest|);
      assert out[j] == rest[m];
      ReminderDatesOrigin(exam, offs[1..], hoy, m);
      var k :| 0 <= k < |offs| - 1 && SubtractDays(exam, offs[1..][k]) == Some(rest[m]);
      assert SubtractDays(exam, offs[k + 1]) == Some(out[j]);
    }
  }

  /** Both lists of dates, one after the other, when neither computation fails. */
  function Concat(a: Option<seq<Date>>, b: Option<seq<Date>>): Option<seq<Date>> {
    if a.Some? && b.Some? then Some(a.value + b.value) else None
  }

  /** The calendar of a concatenation of offset lists is the concatenation of their
      calendars: dates follow offset order and repeated offsets give repeated dates. */
  lemma {:induction false} ReminderDatesAppend(exam: Date, a: seq<int>, b: seq<int>, hoy: Date)
    requires Valid(exam) && Valid(hoy)
    ensures ReminderDates(exam, a + b, hoy) == Concat(ReminderDates(exam, a, hoy), ReminderDates(exam, b, hoy))
    decreases |a|
  {
    if |a| == 0 {
      assert a + b == b;
      var rb := ReminderDates(exam, b, hoy);
      assert rb.Some? ==> [] + rb.value == rb.value;
    } else {
      ReminderDatesAppend(exam, a[1..], b, hoy);
      AppendStep(exam, a, b, hoy);
    }
  }

  /** One step of the induction above: the first offset of `a` contributes its date (or
      its failure) in front of both sides alike. */
  lemma AppendStep(exam: Date, a: seq<int>, b: seq<int>, hoy: Date)
    requires Valid(exam) && Valid(hoy) && |a| > 0
    requires ReminderDates(exam, a[1..] + b, hoy) == Concat(ReminderDates(exam, a[1..], hoy), ReminderDates(exam, b, hoy))
    ensures ReminderDates(exam, a + b, hoy) == Concat(ReminderDates(exam, a, hoy), ReminderDates(exam, b, hoy))
  {
    SplitFront(a, b);
    PrependConcat(SubtractDays(exam, a[0]), hoy, ReminderDates(exam, a[1..], hoy), ReminderDates(exam, b, hoy));
  }

  /** Putting a date in front commutes with appending later dates. */
  lemma PrependConcat(first: Option<Date>, hoy: Date, x: Option<seq<Date>>, y: Option<seq<Date>>)
    ensures Prepend(first, hoy, Concat(x, y)) == Concat(Prepend(first, hoy, x), y)
  {
    if first.Some? && x.Some? && y.Some? {
      Regroup(if Before(first.value, hoy) then [] else [first.value], x.value, y.value);
    }
  }

  lemma SplitFront<T>(a: seq<T>, b: seq<T>)
    requires |a| > 0
    ensures (a + b)[0] == a[0] && (a + b)[1..] == a[1..] + b
  {
  }

  lemma Regroup<T>(x: seq<T>, y: seq<T>, z: seq<T>)
    ensures x + (y + z) == (x + y) + z
  {
  }

  /** A single offset `d` yields its date exactly when `d` is at most the number of days
      left until the exam. */
  lemma ReminderListedIff(exam: Date, d: int, hoy: Date)
    requires Valid(exam) && Valid(hoy)
    requires SubtractDays(exam, d).Some?
    ensures ReminderDates(exam, [d], hoy) == Some([SubtractDays(exam, d).value]) <==> d <= DaysBetween(hoy, exam)
    ensures ReminderDates(exam, [d], hoy) == Some([]) <==> d > DaysBetween(hoy, exam)
  {
    var x := SubtractDays(exam, d).value;
    OrdinalOrder(x, hoy);
    assert [d][1..] == [];
    assert ReminderDates(exam, [], hoy) == Some([]);
    assert [d][0] == d;
    var single: seq<Date> := if Before(x, hoy) then [] else [x];
    assert single + [] == single;
    assert ReminderDates(exam, [d], hoy) == Some(if Before(x, hoy) then [] else [x]);
  }

  /** The printed list: "Ninguno" when empty, else the ISO dates joined with ", ". */
  function RenderDates(ds: seq<Date>): (text: string)
    requires forall j :: 0 <= j < |ds| ==> Valid(ds[j])
    ensures text == NoneText <==> |ds| == 0
    ensures |ds| > 0 ==> StartsWith(text, FormatIso(ds[0]))
  {
    if |ds| == 0 then NoneText
    else
      var isos := seq(|ds|, j requires 0 <= j < |ds| => FormatIso(ds[j]));
      var text := Join(isos, ", ");
      JoinStartsWith(isos, ", ");
      assert Valid(ds[0]);
      assert IsDigit(isos[0][0]) by { assert isos[0][..4] == PadDigits(ds[0].year, 4); }
      assert text[0] == isos[0][0];
      assert NoneText[0] == 'N';
      text
  }

  /** One exam's reminder list as printed, or where the script would stop. */
  function ReportLine(ex: JsonExam, hoy: Date): (r: Result<string, ReportError>)
    requires Valid(hoy)
    ensures r == Err(BadDate(ex.date)) <==> ParseIso(ex.date).None?
    ensures r.Ok? ==>
      var offs := if ex.avisos.Some? then ex.avisos.value else ReportOffsets;
      (r.value == NoneText <==> ReminderDates(ParseIso(ex.date).value, offs, hoy) == Some([]))
    ensures ParseIso(ex.date).Some? ==>
      var offs := if ex.avisos.Some? then ex.avisos.value else ReportOffsets;
      var dates := ReminderDates(ParseIso(ex.date).value, offs, hoy);
      && (r == Err(DateOverflow) <==> dates.None?)
      && (dates.Some? ==> r.Ok? && (ReminderDatesInRange(ParseIso(ex.date).value, offs, hoy);
                                    r.value == RenderDates(dates.value)))
  {
    match ParseIso(ex.date)
    case None => Err(BadDate(ex.date))
    case Some(fecha) =>
      var offs := if ex.avisos.Some? then ex.avisos.value else ReportOffsets;
      match ReminderDates(fecha, offs, hoy)
      case None => Err(DateOverflow)
      case Some(ds) =>
        ReminderDatesInRange(fecha, offs, hoy);
        Ok(RenderDates(ds))
  }

  /** An exam without an offsets entry is reported as if it listed 3, 2 and 1 days. */
  lemma MissingOffsetsDefault(ex: JsonExam, hoy: Date)
    requires Valid(hoy) && ex.avisos.None?
    ensures ReportLine(ex, hoy) == ReportLine(ex.(avisos := Some(ReportOffsets)), hoy)
  {
  }
}
