/** The command-line editor of the student roster (`gestor_avisos`, over `data.json`).
    Every command either fails, leaving the roster as it was (nothing is saved), or returns
    the new roster. Offsets are stored as integer lists here, not as text. */
module Gestor {
  import opened Outcomes
  import opened Text
  import opened Dates
  import opened Offsets

  /** This tool's own default list, shorter than the chat bot's. */
  const GestorDefault: seq<int> := [30, 10, 5]

  /** An exam entry; an entry without an "avisos" key is read as `[]`. */
  datatype RosterExam = RosterExam(course: string, date: string, avisos: seq<int>)

  /** A student entry; a missing "usar_globales" key is read as `false`. */
  datatype RosterStudent = RosterStudent(
    name: string, phone: string, globals: seq<int>, useGlobals: bool, exams: seq<RosterExam>)

  datatype CliError =
    | StudentNotFound(name: string)
    | CourseNotFound(course: string)
    | BadDate(date: string)
    | CourseExists(course: string)
    | NonIntegerOffset

  predicate UniqueCourses(exams: seq<RosterExam>) {
    forall i, j :: 0 <= i < j < |exams| ==> exams[i].course != exams[j].course
  }

  /** Every student's exam list has distinct course names. */
  predicate RosterUnique(data: seq<RosterStudent>) {
    forall i :: 0 <= i < |data| ==> UniqueCourses(data[i].exams)
  }

  // ---------------------------------------------------------------------------
  // Helpers of the tool
  // ---------------------------------------------------------------------------

  lemma GestorDefaultWellFormed()
    ensures WellFormed(GestorDefault)
  {
  }

  /** The strict `normalizar_avisos` over integers: `None` gives this tool's default, and so
      does a list with no in-range value; otherwise the canonical form. */
  function NormalizeValues(xs: Option<seq<int>>): (r: seq<int>)
    ensures WellFormed(r)
    ensures xs.None? ==> r == GestorDefault
    ensures xs.Some? && Filtered(xs.value) == [] ==> r == GestorDefault
    ensures xs.Some? && Filtered(xs.value) != [] ==> r == Canonical(xs.value, GestorDefault)
  {
    GestorDefaultWellFormed();
    match xs
    case None => GestorDefault
    case Some(v) => Canonical(v, GestorDefault)
  }

  /** The strict `normalizar_avisos` over command-line words: one word that is not an
      integer fails the whole command. */
  function NormalizeStrict(tokens: Option<seq<string>>): (r: Result<seq<int>, CliError>)
    ensures r.Err? <==> tokens.Some? && ParseAll(tokens.value).None?
    ensures r.Err? ==> r.error == NonIntegerOffset
    ensures r.Ok? ==> WellFormed(r.value)
    ensures tokens.None? ==> r == Ok(GestorDefault)
  {
    match tokens
    case None => Ok(NormalizeValues(None))
    case Some(ts) =>
      match ParseAll(ts)
      case None => Err(NonIntegerOffset)
      case Some(xs) => Ok(NormalizeValues(Some(xs)))
  }

  /** The strict normaliser succeeds exactly when every word is an integer. */
  lemma StrictOkIff(tokens: seq<string>)
    ensures NormalizeStrict(Some(tokens)).Ok? <==> ParseAll(tokens).Some?
  {
  }

  /** The strict and the lenient normaliser agree whenever some word is an in-range integer
      and none fails to parse. */
  lemma StrictMatchesLenient(tokens: seq<string>)
    requires ParseAll(tokens).Some? && Filtered(ParseAll(tokens).value) != []
    ensures NormalizeStrict(Some(tokens)) == Ok(NormalizeLenient(tokens))
  {
    var xs := ParseAll(tokens).value;
    var f := Filtered(xs);
    assert f[0] in f;
    assert |tokens| == |xs| > 0;
    assert NormalizeLenient(tokens) == Canonical(xs, DefaultOffsets);
    assert NormalizeStrict(Some(tokens)) == Ok(NormalizeValues(Some(xs)));
  }

  /** They differ in what they fall back to when no word is in range ... */
  lemma StrictFallsBackElsewhere(tokens: seq<string>)
    requires ParseAll(tokens).Some? && Filtered(ParseAll(tokens).value) == []
    ensures NormalizeStrict(Some(tokens)) == Ok(GestorDefault)
    ensures NormalizeLenient(tokens) == DefaultOffsets
  {
  }

  /** ... and the strict one fails where the lenient one falls back. */
  lemma StrictFailsWhereLenientFallsBack(tokens: seq<string>)
    requires ParseAll(tokens).None?
    ensures NormalizeStrict(Some(tokens)).Err?
    ensures NormalizeLenient(tokens) == DefaultOffsets
  {
  }

  /** `find_student`: the first student with the name. */
  function FindStudent(data: seq<RosterStudent>, name: string): (r: Option<nat>)
    ensures r.Some? ==> r.value < |data| && data[r.value].name == name
    ensures r.Some? ==> forall j :: 0 <= j < r.value ==> data[j].name != name
    ensures r.None? <==> forall j :: 0 <= j < |data| ==> data[j].name != name
  {
    if |data| == 0 then None
    else if data[0].name == name then Some(0)
    else match FindStudent(data[1..], name)
      case None => None
      case Some(i) => Some(i + 1)
  }

  /** `find_course`: the first exam with the course name. */
  function FindCourse(exams: seq<RosterExam>, course: string): (r: Option<nat>)
    ensures r.Some? ==> r.value < |exams| && exams[r.value].course == course
    ensures r.Some? ==> forall j :: 0 <= j < r.value ==> exams[j].course != course
    ensures r.None? <==> forall j :: 0 <= j < |exams| ==> exams[j].course != course
  {
    if |exams| == 0 then None
    else if exams[0].course == course then Some(0)
    else match FindCourse(exams[1..], course)
      case None => None
      case Some(i) => Some(i + 1)
  }

  /** `validar_fecha`: the text reads as a calendar date in the form YYYY-MM-DD. */
  predicate ValidDate(s: string)
    ensures ValidDate(s) ==> |s| == 10 && s[4] == '-' && s[7] == '-'
  {
    ParseIso(s).Some?
  }

  /** A text passes `validar_fecha` exactly when it is how some real date is written. */
  lemma ValidDateIffWritten(s: string)
    ensures ValidDate(s) <==> exists d :: Valid(d) && FormatIso(d) == s
  {
    if exists d :: Valid(d) && FormatIso(d) == s {
      var d :| Valid(d) && FormatIso(d) == s;
      ParseFormatIso(d);
    }
  }

  /** Only student `i` may differ. */
  predicate OthersKept(data: seq<RosterStudent>, data': seq<RosterStudent>, i: nat) {
    |data'| == |data| && forall j :: 0 <= j < |data| && j != i ==> data'[j] == data[j]
  }

  /** Only exam `k` may differ. */
  predicate OtherExamsKept(exams: seq<RosterExam>, exams': seq<RosterExam>, k: nat) {
    |exams'| == |exams| && forall j :: 0 <= j < |exams| && j != k ==> exams'[j] == exams[j]
  }

  // ---------------------------------------------------------------------------
  // Commands
  // ---------------------------------------------------------------------------

  /** Writes a command's result for student `i` back into the roster, or passes its error on. */
  function PutStudent(data: seq<RosterStudent>, i: nat, res: Result<RosterStudent, CliError>)
    : (r: Result<seq<RosterStudent>, CliError>)
    requires i < |data|
    ensures res.Err? ==> r == Err(res.error)
    ensures res.Ok? ==> r.Ok? && OthersKept(data, r.value, i) && r.value[i] == res.value
  {
    match res
    case Err(e) => Err(e)
    case Ok(st) => Ok(data[i := st])
  }

  /** `set-globales`: always replaces the default list; the flag follows `--usar-globales`
      or `--no-usar-globales` only when exactly one of them is given. */
  function SetGlobals(data: seq<RosterStudent>, name: string, tokens: seq<string>, useFlag: bool, noUseFlag: bool)
    : (r: Result<seq<RosterStudent>, CliError>)
    ensures FindStudent(data, name).None? ==> r == Err(StudentNotFound(name))
    ensures FindStudent(data, name).Some? && ParseAll(tokens).None? ==> r == Err(NonIntegerOffset)
    ensures r.Ok? ==> FindStudent(data, name).Some? && |r.value| == |data|
    ensures r.Ok? ==>
      var i := FindStudent(data, name).value;
      && OthersKept(data, r.value, i)
      && GlobalsSet(data[i], r.value[i], tokens, useFlag, noUseFlag)
  {
    match FindStudent(data, name)
    case None => Err(StudentNotFound(name))
    case Some(i) =>
      PutStudent(data, i, SetGlobalsOf(data[i], tokens, useFlag, noUseFlag))
  }

  /** What `set-globales` does to a student: the default list becomes the normalised words,
      the exams are untouched, and the flag moves only when exactly one option asks. */
  predicate GlobalsSet(st: RosterStudent, st': RosterStudent, tokens: seq<string>, useFlag: bool, noUseFlag: bool) {
    && st'.name == st.name && st'.phone == st.phone && st'.exams == st.exams
    && WellFormed(st'.globals)
    && Ok(st'.globals) == NormalizeStrict(Some(tokens))
    && (st'.useGlobals != st.useGlobals ==> useFlag != noUseFlag)
    && (useFlag && !noUseFlag ==> st'.useGlobals)
    && (noUseFlag && !useFlag ==> !st'.useGlobals)
  }

  /** `set-globales` on the student found. */
  function SetGlobalsOf(st: RosterStudent, tokens: seq<string>, useFlag: bool, noUseFlag: bool)
    : (r: Result<RosterStudent, CliError>)
    ensures ParseAll(tokens).None? ==> r == Err(NonIntegerOffset)
    ensures r.Ok? ==> GlobalsSet(st, r.value, tokens, useFlag, noUseFlag)
  {
    match NormalizeStrict(Some(tokens))
    case Err(e) => Err(e)
    case Ok(avisos) =>
      var flag := if useFlag && noUseFlag then st.useGlobals
                  else if useFlag then true
                  else if noUseFlag then false
                  else st.useGlobals;
      Ok(st.(globals := avisos, useGlobals := flag))
  }

  /** `set-curso`: replaces one exam's list with the normalised words. */
  function SetCourse(data: seq<RosterStudent>, name: string, course: string, tokens: seq<string>)
    : (r: Result<seq<RosterStudent>, CliError>)
    ensures FindStudent(data, name).None? ==> r == Err(StudentNotFound(name))
    ensures FindStudent(data, name).Some? && FindCourse(data[FindStudent(data, name).value].exams, course).None? ==>
      r == Err(CourseNotFound(course))
    ensures r.Ok? ==> FindStudent(data, name).Some? && |r.value| == |data|
    ensures r.Ok? ==>
      var i := FindStudent(data, name).value;
      && FindCourse(data[i].exams, course).Some?
      && OthersKept(data, r.value, i)
      && CourseOffsetsSet(data[i], r.value[i], FindCourse(data[i].exams, course).value, tokens)
  {
    match FindStudent(data, name)
    case None => Err(StudentNotFound(name))
    case Some(i) =>
      PutStudent(data, i, SetCourseOf(data[i], course, tokens))
  }

  /** What `set-curso` does to a student: exam `k` gets the normalised words as its list and
      nothing else changes. */
  predicate CourseOffsetsSet(st: RosterStudent, st': RosterStudent, k: nat, tokens: seq<string>) {
    && k < |st.exams|
    && st' == st.(exams := st'.exams)
    && OtherExamsKept(st.exams, st'.exams, k)
    && st'.exams[k] == st.exams[k].(avisos := st'.exams[k].avisos)
    && Ok(st'.exams[k].avisos) == NormalizeStrict(Some(tokens))
  }

  /** `set-curso` on the student found. */
  function SetCourseOf(st: RosterStudent, course: string, tokens: seq<string>)
    : (r: Result<RosterStudent, CliError>)
    ensures FindCourse(st.exams, course).None? ==> r == Err(CourseNotFound(course))
    ensures r.Ok? ==> FindCourse(st.exams, course).Some?
    ensures r.Ok? ==> CourseOffsetsSet(st, r.value, FindCourse(st.exams, course).value, tokens)
  {
    match FindCourse(st.exams, course)
    case None => Err(CourseNotFound(course))
    case Some(k) =>
      match NormalizeStrict(Some(tokens))
      case Err(e) => Err(e)
      case Ok(avisos) => Ok(st.(exams := st.exams[k := st.exams[k].(avisos := avisos)]))
  }

  /** Every exam with the given offsets. */
  function WithAvisos(exams: seq<RosterExam>, avisos: seq<int>): (r: seq<RosterExam>)
    ensures |r| == |exams|
    ensures forall j :: 0 <= j < |exams| ==> r[j] == exams[j].(avisos := avisos)
  {
    seq(|exams|, j requires 0 <= j < |exams| => exams[j].(avisos := avisos))
  }

  /** `copiar-a-todos`: every exam of the student gets the source exam's normalised list,
      and the student's flag is turned off. */
  function CopyToAll(data: seq<RosterStudent>, name: string, course: string)
    : (r: Result<seq<RosterStudent>, CliError>)
    ensures FindStudent(data, name).None? ==> r == Err(StudentNotFound(name))
    ensures FindStudent(data, name).Some? && FindCourse(data[FindStudent(data, name).value].exams, course).None? ==>
      r == Err(CourseNotFound(course))
    ensures FindStudent(data, name).Some? && FindCourse(data[FindStudent(data, name).value].exams, course).Some? ==>
      r.Ok?
    ensures r.Ok? ==> FindStudent(data, name).Some? && |r.value| == |data|
    ensures r.Ok? ==>
      var i := FindStudent(data, name).value;
      var k := FindCourse(data[i].exams, course).value;
      var st, st' := data[i], r.value[i];
      && OthersKept(data, r.value, i)
      && st'.name == st.name && st'.phone == st.phone && st'.globals == st.globals
      && !st'.useGlobals
      && |st'.exams| == |st.exams|
      && forall j :: 0 <= j < |st.exams| ==>
           st'.exams[j] == st.exams[j].(avisos := NormalizeValues(Some(st.exams[k].avisos)))
  {
    match FindStudent(data, name)
    case None => Err(StudentNotFound(name))
    case Some(i) =>
      var st := data[i];
      match FindCourse(st.exams, course)
      case None => Err(CourseNotFound(course))
      case Some(k) =>
        var exams := WithAvisos(st.exams, NormalizeValues(Some(st.exams[k].avisos)));
        Ok(data[i := st.(exams := exams, useGlobals := false)])
  }

  /** `add-examen`: appends one exam at the end, after checking the student, the date and
      that the course is new. Offsets are `[]` when none are given. */
  function AddExam(data: seq<RosterStudent>, name: string, course: string, date: string, tokens: Option<seq<string>>)
    : (r: Result<seq<RosterStudent>, CliError>)
    ensures FindStudent(data, name).None? ==> r == Err(StudentNotFound(name))
    ensures FindStudent(data, name).Some? && !ValidDate(date) ==> r == Err(BadDate(date))
    ensures (FindStudent(data, name).Some? && ValidDate(date)
             && FindCourse(data[FindStudent(data, name).value].exams, course).Some?) ==> r == Err(CourseExists(course))
    ensures r.Ok? ==> FindStudent(data, name).Some? && |r.value| == |data|
    ensures r.Ok? ==>
      var i := FindStudent(data, name).value;
      && OthersKept(data, r.value, i)
      && ExamAppended(data[i], r.value[i], course, date, tokens)
  {
    match FindStudent(data, name)
    case None => Err(StudentNotFound(name))
    case Some(i) =>
      PutStudent(data, i, AddExamTo(data[i], course, date, tokens))
  }

  /** What `add-examen` does to a student: one exam with the course, the checked date and the
      normalised words (or `[]`) is appended, and nothing else changes. */
  predicate ExamAppended(st: RosterStudent, st': RosterStudent, course: string, date: string, tokens: Option<seq<string>>) {
    && st' == st.(exams := st'.exams)
    && |st'.exams| == |st.exams| + 1
    && st'.exams[..|st.exams|] == st.exams
    && st'.exams[|st.exams|].course == course && st'.exams[|st.exams|].date == date
    && ValidDate(date)
    && (tokens.None? || tokens == Some([]) ==> st'.exams[|st.exams|].avisos == [])
    && (tokens.Some? && tokens.value != [] ==> Ok(st'.exams[|st.exams|].avisos) == NormalizeStrict(tokens))
  }

  /** `add-examen` on the student found: the date check, the new-course check, then the
      offsets. */
  function AddExamTo(st: RosterStudent, course: string, date: string, tokens: Option<seq<string>>)
    : (r: Result<RosterStudent, CliError>)
    ensures !ValidDate(date) ==> r == Err(BadDate(date))
    ensures ValidDate(date) && FindCourse(st.exams, course).Some? ==> r == Err(CourseExists(course))
    ensures r.Ok? ==> ExamAppended(st, r.value, course, date, tokens)
  {
    if !ValidDate(date) then Err(BadDate(date))
    else if FindCourse(st.exams, course).Some? then Err(CourseExists(course))
    else
      var given := if tokens.Some? && tokens.value != [] then NormalizeStrict(tokens) else Ok([]);
      match given
      case Err(e) => Err(e)
      case Ok(avisos) =>
        var exams := st.exams + [RosterExam(course, date, avisos)];
        assert exams[..|st.exams|] == st.exams;
        Ok(st.(exams := exams))
  }

  /** `update-fecha`: changes one exam's date after checking the student, the new date and
      the course, in that order. */
  function UpdateDate(data: seq<RosterStudent>, name: string, course: string, date: string)
    : (r: Result<seq<RosterStudent>, CliError>)
    ensures FindStudent(data, name).None? ==> r == Err(StudentNotFound(name))
    ensures FindStudent(data, name).Some? && !ValidDate(date) ==> r == Err(BadDate(date))
    ensures (FindStudent(data, name).Some? && ValidDate(date)
             && FindCourse(data[FindStudent(data, name).value].exams, course).None?) ==> r == Err(CourseNotFound(course))
    ensures r.Ok? ==> FindStudent(data, name).Some? && |r.value| == |data|
    ensures r.Ok? ==>
      var i := FindStudent(data, name).value;
      var k := FindCourse(data[i].exams, course).value;
      var st, st' := data[i], r.value[i];
      && OthersKept(data, r.value, i)
      && st' == st.(exams := st'.exams)
      && OtherExamsKept(st.exams, st'.exams, k)
      && st'.exams[k] == st.exams[k].(date := date)
      && ValidDate(date)
  {
    match FindStudent(data, name)
    case None => Err(StudentNotFound(name))
    case Some(i) =>
      if !ValidDate(date) then Err(BadDate(date))
      else
        var st := data[i];
        match FindCourse(st.exams, course)
        case None => Err(CourseNotFound(course))
        case Some(k) => Ok(data[i := st.(exams := st.exams[k := st.exams[k].(date := date)])])
  }

  /** `rename-examen`: renames one exam, refusing any new name already in use, the exam's own
      current name included. */
  function RenameExam(data: seq<RosterStudent>, name: string, course: string, newCourse: string)
    : (r: Result<seq<RosterStudent>, CliError>)
    ensures FindStudent(data, name).None? ==> r == Err(StudentNotFound(name))
    ensures FindStudent(data, name).Some? && FindCourse(data[FindStudent(data, name).value].exams, course).None? ==>
      r == Err(CourseNotFound(course))
    ensures (FindStudent(data, name).Some? && FindCourse(data[FindStudent(data, name).value].exams, course).Some?
             && FindCourse(data[FindStudent(data, name).value].exams, newCourse).Some?) ==> r == Err(CourseExists(newCourse))
    ensures r.Ok? ==> FindStudent(data, name).Some? && |r.value| == |data|
    ensures r.Ok? ==>
      var i := FindStudent(data, name).value;
      var k := FindCourse(data[i].exams, course).value;
      var st, st' := data[i], r.value[i];
      && OthersKept(data, r.value, i)
      && st' == st.(exams := st'.exams)
      && OtherExamsKept(st.exams, st'.exams, k)
      && st'.exams[k] == st.exams[k].(course := newCourse)
      && forall j :: 0 <= j < |st.exams| ==> st.exams[j].course != newCourse
  {
    match FindStudent(data, name)
    case None => Err(StudentNotFound(name))
    case Some(i) =>
      var st := data[i];
      match FindCourse(st.exams, course)
      case None => Err(CourseNotFound(course))
      case Some(k) =>
        if FindCourse(st.exams, newCourse).Some? then Err(CourseExists(newCourse))
        else Ok(data[i := st.(exams := st.exams[k := st.exams[k].(course := newCourse)])])
  }

  /** `delete-examen`: removes the first exam with the course name. */
  function DeleteExam(data: seq<RosterStudent>, name: string, course: string)
    : (r: Result<seq<RosterStudent>, CliError>)
    ensures FindStudent(data, name).None? ==> r == Err(StudentNotFound(name))
    ensures FindStudent(data, name).Some? && FindCourse(data[FindStudent(data, name).value].exams, course).None? ==>
      r == Err(CourseNotFound(course))
    ensures r.Ok? ==> FindStudent(data, name).Some? && |r.value| == |data|
    ensures r.Ok? ==>
      var i := FindStudent(data, name).value;
      && FindCourse(data[i].exams, course).Some?
      && OthersKept(data, r.value, i)
      && ExamRemoved(data[i], r.value[i], FindCourse(data[i].exams, course).value)
  {
    match FindStudent(data, name)
    case None => Err(StudentNotFound(name))
    case Some(i) => PutStudent(data, i, DeleteExamOf(data[i], course))
  }

  /** What `delete-examen` does to a student: exam `k` is gone, the others keep their order,
      and nothing else changes. */
  predicate ExamRemoved(st: RosterStudent, st': RosterStudent, k: nat) {
    && k < |st.exams|
    && st' == st.(exams := st'.exams)
    && |st'.exams| == |st.exams| - 1
    && (forall j :: 0 <= j < k ==> st'.exams[j] == st.exams[j])
    && (forall j :: k <= j < |st'.exams| ==> st'.exams[j] == st.exams[j + 1])
  }

  /** `delete-examen` on the student found. */
  function DeleteExamOf(st: RosterStudent, course: string): (r: Result<RosterStudent, CliError>)
    ensures FindCourse(st.exams, course).None? ==> r == Err(CourseNotFound(course))
    ensures r.Ok? ==> FindCourse(st.exams, course).Some?
    ensures r.Ok? ==> ExamRemoved(st, r.value, FindCourse(st.exams, course).value)
  {
    match FindCourse(st.exams, course)
    case None => Err(CourseNotFound(course))
    case Some(k) => Ok(st.(exams := st.exams[..k] + st.exams[k + 1..]))
  }

  // ---------------------------------------------------------------------------
  // Every command succeeds once its checks pass
  // ---------------------------------------------------------------------------

  /** With the student present, `set-globales` fails exactly on a word that is not an
      integer, and otherwise always overwrites the defaults. */
  lemma SetGlobalsSucceeds(data: seq<RosterStudent>, name: string, tokens: seq<string>, useFlag: bool, noUseFlag: bool)
    requires FindStudent(data, name).Some?
    ensures SetGlobals(data, name, tokens, useFlag, noUseFlag).Ok? <==> ParseAll(tokens).Some?
  {
    StrictOkIff(tokens);
  }

  /** With the student and the course present, `set-curso` fails exactly on a word that is
      not an integer. */
  lemma SetCourseSucceeds(data: seq<RosterStudent>, name: string, course: string, tokens: seq<string>)
    requires FindStudent(data, name).Some?
    requires FindCourse(data[FindStudent(data, name).value].exams, course).Some?
    ensures SetCourse(data, name, course, tokens).Ok? <==> ParseAll(tokens).Some?
    ensures SetCourse(data, name, course, tokens).Err? ==> SetCourse(data, name, course, tokens).error == NonIntegerOffset
  {
    StrictOkIff(tokens);
  }

  /** With the student present, a valid date and a new course, `add-examen` appends unless a
      given word is not an integer. */
  lemma AddExamSucceeds(data: seq<RosterStudent>, name: string, course: string, date: string, tokens: Option<seq<string>>)
    requires FindStudent(data, name).Some? && ValidDate(date)
    requires FindCourse(data[FindStudent(data, name).value].exams, course).None?
    ensures AddExam(data, name, course, date, tokens).Ok? <==>
      tokens.None? || tokens == Some([]) || ParseAll(tokens.value).Some?
    ensures AddExam(data, name, course, date, tokens).Err? ==>
      AddExam(data, name, course, date, tokens).error == NonIntegerOffset
  {
    if tokens.Some? {
      StrictOkIff(tokens.value);
    }
  }

  /** With the student present, a valid date and the course present, `update-fecha` succeeds. */
  lemma UpdateDateSucceeds(data: seq<RosterStudent>, name: string, course: string, date: string)
    requires FindStudent(data, name).Some? && ValidDate(date)
    requires FindCourse(data[FindStudent(data, name).value].exams, course).Some?
    ensures UpdateDate(data, name, course, date).Ok?
  {
  }

  /** With the student and the course present and the new name unused, `rename-examen`
      succeeds. */
  lemma RenameSucceeds(data: seq<RosterStudent>, name: string, course: string, newCourse: string)
    requires FindStudent(data, name).Some?
    requires FindCourse(data[FindStudent(data, name).value].exams, course).Some?
    requires FindCourse(data[FindStudent(data, name).value].exams, newCourse).None?
    ensures RenameExam(data, name, course, newCourse).Ok?
  {
  }

  /** With the student and the course present, `delete-examen` succeeds. */
  lemma DeleteSucceeds(data: seq<RosterStudent>, name: string, course: string)
    requires FindStudent(data, name).Some?
    requires FindCourse(data[FindStudent(data, name).value].exams, course).Some?
    ensures DeleteExam(data, name, course).Ok?
  {
  }

  // ---------------------------------------------------------------------------
  // Course names stay unique
  // ---------------------------------------------------------------------------

  /** Replacing student `i` by one with unique course names keeps the roster unique. */
  lemma ReplaceKeepsUnique(data: seq<RosterStudent>, data': seq<RosterStudent>, i: nat)
    requires RosterUnique(data) && i < |data| && OthersKept(data, data', i)
    requires UniqueCourses(data'[i].exams)
    ensures RosterUnique(data')
  {
    forall j | 0 <= j < |data'| ensures UniqueCourses(data'[j].exams) {
      if j != i {
        assert data'[j] == data[j];
      }
    }
  }

  /** Changing anything but course names keeps them unique. */
  lemma SameCoursesKeepUnique(exams: seq<RosterExam>, exams': seq<RosterExam>)
    requires UniqueCourses(exams) && |exams'| == |exams|
    requires forall j :: 0 <= j < |exams| ==> exams'[j].course == exams[j].course
    ensures UniqueCourses(exams')
  {
  }

  /** Replacing student `i`'s exams by ones with the same course names, position by position,
      keeps the roster unique. */
  lemma SameCoursesKeepRosterUnique(data: seq<RosterStudent>, data': seq<RosterStudent>, i: nat)
    requires RosterUnique(data) && i < |data| && OthersKept(data, data', i)
    requires |data'[i].exams| == |data[i].exams|
    requires forall j :: 0 <= j < |data[i].exams| ==> data'[i].exams[j].course == data[i].exams[j].course
    ensures RosterUnique(data')
  {
    assert UniqueCourses(data[i].exams);
    SameCoursesKeepUnique(data[i].exams, data'[i].exams);
    ReplaceKeepsUnique(data, data', i);
  }

  lemma SetGlobalsKeepsUnique(data: seq<RosterStudent>, name: string, tokens: seq<string>, f1: bool, f2: bool)
    requires RosterUnique(data)
    ensures SetGlobals(data, name, tokens, f1, f2).Ok? ==> RosterUnique(SetGlobals(data, name, tokens, f1, f2).value)
  {
    var r := SetGlobals(data, name, tokens, f1, f2);
    if r.Ok? {
      SameCoursesKeepRosterUnique(data, r.value, FindStudent(data, name).value);
    }
  }

  lemma SetCourseKeepsUnique(data: seq<RosterStudent>, name: string, course: string, tokens: seq<string>)
    requires RosterUnique(data)
    ensures SetCourse(data, name, course, tokens).Ok? ==> RosterUnique(SetCourse(data, name, course, tokens).value)
  {
    var r := SetCourse(data, name, course, tokens);
    if r.Ok? {
      SameCoursesKeepRosterUnique(data, r.value, FindStudent(data, name).value);
    }
  }

  lemma CopyToAllKeepsUnique(data: seq<RosterStudent>, name: string, course: string)
    requires RosterUnique(data)
    ensures CopyToAll(data, name, course).Ok? ==> RosterUnique(CopyToAll(data, name, course).value)
  {
    var r := CopyToAll(data, name, course);
    if r.Ok? {
      SameCoursesKeepRosterUnique(data, r.value, FindStudent(data, name).value);
    }
  }

  lemma UpdateDateKeepsUnique(data: seq<RosterStudent>, name: string, course: string, date: string)
    requires RosterUnique(data)
    ensures UpdateDate(data, name, course, date).Ok? ==> RosterUnique(UpdateDate(data, name, course, date).value)
  {
    var r := UpdateDate(data, name, course, date);
    if r.Ok? {
      SameCoursesKeepRosterUnique(data, r.value, FindStudent(data, name).value);
    }
  }

  /** Adding an exam keeps course names unique: the new name was checked to be unused. */
  lemma AddExamKeepsUnique(data: seq<RosterStudent>, name: string, course: string, date: string, opt: Option<seq<string>>)
    requires RosterUnique(data)
    ensures AddExam(data, name, course, date, opt).Ok? ==> RosterUnique(AddExam(data, name, course, date, opt).value)
  {
    var r := AddExam(data, name, course, date, opt);
    if r.Ok? {
      var i := FindStudent(data, name).value;
      AppendKeepsUnique(data[i].exams, r.value[i].exams, course);
      ReplaceKeepsUnique(data, r.value, i);
    }
  }

  /** Renaming keeps course names unique, because a name already in use is refused. */
  lemma RenameKeepsUnique(data: seq<RosterStudent>, name: string, course: string, newCourse: string)
    requires RosterUnique(data)
    ensures RenameExam(data, name, course, newCourse).Ok? ==> RosterUnique(RenameExam(data, name, course, newCourse).value)
  {
    var r := RenameExam(data, name, course, newCourse);
    if r.Ok? {
      var i := FindStudent(data, name).value;
      var k := FindCourse(data[i].exams, course).value;
      var e, e' := data[i].exams, r.value[i].exams;
      assert UniqueCourses(data[i].exams);
      forall a, b | 0 <= a < b < |e'| ensures e'[a].course != e'[b].course {
        if a != k && b != k {
          assert e'[a] == e[a] && e'[b] == e[b];
        }
      }
      ReplaceKeepsUnique(data, r.value, i);
    }
  }

  /** Deleting an exam keeps course names unique. */
  lemma DeleteKeepsUnique(data: seq<RosterStudent>, name: string, course: string)
    requires RosterUnique(data)
    ensures DeleteExam(data, name, course).Ok? ==> RosterUnique(DeleteExam(data, name, course).value)
  {
    var r := DeleteExam(data, name, course);
    if r.Ok? {
      var i := FindStudent(data, name).value;
      var k := FindCourse(data[i].exams, course).value;
      var e, e' := data[i].exams, r.value[i].exams;
      assert UniqueCourses(data[i].exams);
      forall a, b | 0 <= a < b < |e'| ensures e'[a].course != e'[b].course {
        var a0 := if a < k then a else a + 1;
        var b0 := if b < k then b else b + 1;
        assert e'[a] == e[a0] && e'[b] == e[b0] && a0 < b0;
      }
      ReplaceKeepsUnique(data, r.value, i);
    }
  }

  lemma AppendKeepsUnique(exams: seq<RosterExam>, exams': seq<RosterExam>, course: string)
    requires UniqueCourses(exams) && FindCourse(exams, course).None?
    requires |exams'| == |exams| + 1 && exams'[..|exams|] == exams && exams'[|exams|].course == course
    ensures UniqueCourses(exams')
  {
    assert forall j :: 0 <= j < |exams| ==> exams'[j] == exams[j];
  }
}
