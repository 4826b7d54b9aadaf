/** The WhatsApp chat interpreter (`whatsapp_webhook`): one inbound text from one number
    becomes one reply and at most one change to that number's user record.
    Interpretation is split into a lexical stage (`Classify`, producing a tagged `Intent`)
    and an effect stage (`Apply`), joined by `Handle` over the user table. */
module Webhook {
  import opened Outcomes
  import opened Text
  import opened Offsets
  import opened Models

  const MenuWords: set<string> := {"MENU", "AYUDA", "HELP"}
  const KwListExams := "MIS EXAMENES"
  const KwSetGlobals := "SET GLOBALES"
  const KwUseGlobals := "USAR GLOBALES"
  const KwSetCourse := "SET CURSO"
  const KwAddExam := "AGREGAR EXAMEN"
  const KwChangeDate := "CAMBIAR FECHA"
  const KwDeleteExam := "ELIMINAR EXAMEN"
  /** Words accepted as "yes" and "no" by USAR GLOBALES (after upper-casing). */
  const YesWords: set<string> := {"SI", "S\U{CD}", "YES"}
  const NoWords: set<string> := {"NO", "N"}

  /** The outcome of reading one command, before anything is changed. */
  datatype Intent =
    | Blank
    | Menu
    | ListExams
    | SetGlobals(offsets: seq<int>)
    | UseGlobals(choice: Option<bool>)
    | SetCourse(course: string, offsets: seq<int>)
    | AddExamUsage
    | AddExamNoDate
    | AddExam(course: string, date: string, offsets: seq<int>)
    | ChangeDateUsage
    | ChangeDate(course: string, date: string)
    | DeleteExam(course: string)
    | Unrecognized

  /** The reply sent back, one case per message the webhook can produce. */
  datatype Reply =
    | Greeting
    | MenuPrompt
    | Help
    | Listing(text: string)
    | GlobalsSaved(offsets: seq<int>)
    | GlobalsOn
    | GlobalsOff
    | UseGlobalsUsage
    | CourseUpdated(course: string, offsets: seq<int>)
    | CourseNotFound(course: string)
    | AddUsage
    | MissingDate
    | DuplicateCourse(course: string)
    | ExamAdded(course: string, date: string, offsets: seq<int>)
    | ChangeUsage
    | DateChanged(course: string, date: string)
    | ExamDeleted(course: string)
    | NotUnderstood

  /** Replies that report a rejected command. */
  predicate IsFailure(reply: Reply) {
    reply.UseGlobalsUsage? || reply.CourseNotFound? || reply.AddUsage? || reply.MissingDate?
    || reply.DuplicateCourse? || reply.ChangeUsage?
  }

  /** The new user state together with the reply. */
  datatype Step = Step(user: User, reply: Reply)

  // ---------------------------------------------------------------------------
  // Lexical stage
  // ---------------------------------------------------------------------------

  /** AGREGAR EXAMEN's test for the date token: ten characters, exactly two of them '-'. */
  predicate DateShaped(t: string) {
    |t| == 10 && multiset(t)['-'] == 2
  }

  /** The first date-shaped token. */
  function DateIndex(tokens: seq<string>): (r: Option<nat>)
    ensures r.Some? ==> r.value < |tokens| && DateShaped(tokens[r.value])
    ensures r.Some? ==> forall j :: 0 <= j < r.value ==> !DateShaped(tokens[j])
    ensures r.None? <==> forall j :: 0 <= j < |tokens| ==> !DateShaped(tokens[j])
  {
    if |tokens| == 0 then None
    else if DateShaped(tokens[0]) then Some(0)
    else match DateIndex(tokens[1..])
      case None => None
      case Some(i) => Some(i + 1)
  }

  /** The tokens made only of digits, in order (SET CURSO's offset candidates). */
  function DigitTokens(tokens: seq<string>): (r: seq<string>)
    ensures forall w :: w in r <==> w in tokens && IsDigits(w)
  {
    if |tokens| == 0 then []
    else (if IsDigits(tokens[0]) then [tokens[0]] else []) + DigitTokens(tokens[1..])
  }

  /** The remaining tokens, in order (SET CURSO's course-name words). */
  function NameTokens(tokens: seq<string>): (r: seq<string>)
  {
    if |tokens| == 0 then []
    else (if IsDigits(tokens[0]) then [] else [tokens[0]]) + NameTokens(tokens[1..])
  }

  /** The name tokens are exactly the input tokens not made of digits. */
  lemma {:induction false} NameTokensMembers(tokens: seq<string>)
    ensures forall w :: w in NameTokens(tokens) <==> w in tokens && !IsDigits(w)
    decreases |tokens|
  {
    if |tokens| > 0 {
      NameTokensMembers(tokens[1..]);
      assert tokens == [tokens[0]] + tokens[1..];
    }
  }

  /** Every token is either a day or part of the name: the two lists together are as long
      as the input. */
  lemma {:induction false} TokensPartition(tokens: seq<string>)
    ensures |NameTokens(tokens)| + |DigitTokens(tokens)| == |tokens|
    decreases |tokens|
  {
    if |tokens| > 0 {
      TokensPartition(tokens[1..]);
    }
  }

  /** SET CURSO (tokens after the keyword): digit-only tokens are offsets, the others,
      joined by spaces, name the course. The ensures only unfold the body, as an aid for
      the `Messages.Classify*` lemmas; `Messages.ParseSetCourseOf` is the specification. */
  function ParseSetCourse(tokens: seq<string>): (r: Intent)
    ensures r.SetCourse?
    ensures r.course == Strip(Join(NameTokens(tokens), " "))
    ensures r.offsets == NormalizeLenient(DigitTokens(tokens))
  {
    SetCourse(Strip(Join(NameTokens(tokens), " ")), NormalizeLenient(DigitTokens(tokens)))
  }

  /** AGREGAR EXAMEN (tokens after the keyword): at least two tokens; the first date-shaped
      one separates the course name from the offsets. */
  function ParseAddExam(tokens: seq<string>): (r: Intent)
    ensures r.AddExamUsage? <==> |tokens| < 2
    ensures r.AddExamNoDate? <==> |tokens| >= 2 && DateIndex(tokens).None?
    ensures r.AddExamUsage? || r.AddExamNoDate? || r.AddExam?
    ensures r.AddExam? ==>
      var k := DateIndex(tokens).value;
      && r.date == tokens[k]
      && r.course == Join(tokens[..k], " ")
      && (k + 1 == |tokens| ==> r.offsets == [])
      && (k + 1 < |tokens| ==> r.offsets == NormalizeLenient(tokens[k + 1..]))
  {
    if |tokens| < 2 then AddExamUsage
    else match DateIndex(tokens)
      case None => AddExamNoDate
      case Some(k) =>
        var days := tokens[k + 1..];
        AddExam(Join(tokens[..k], " "), tokens[k], if |days| > 0 then NormalizeLenient(days) else [])
  }

  /** CAMBIAR FECHA (tokens after the keyword): the last token is the date, the ones before
      it the course. */
  function ParseChangeDate(tokens: seq<string>): (r: Intent)
    ensures r.ChangeDateUsage? <==> |tokens| < 2
    ensures r.ChangeDateUsage? || r.ChangeDate?
    ensures r.ChangeDate? ==>
      r.date == tokens[|tokens| - 1] && r.course == Join(tokens[..|tokens| - 1], " ")
  {
    if |tokens| < 2 then ChangeDateUsage
    else ChangeDate(Join(tokens[..|tokens| - 1], " "), tokens[|tokens| - 1])
  }

  /** SET GLOBALES (the whole message): every "SET GLOBALES" is removed from the upper-cased
      text and the remaining words are read as day numbers. */
  function ParseSetGlobals(incoming: string): (r: Intent)
    ensures r.SetGlobals? && WellFormed(r.offsets)
  {
    SetGlobals(NormalizeLenient(Words(Strip(RemoveAll(Upper(incoming), KwSetGlobals)))))
  }

  /** USAR GLOBALES: the last word of the whole message decides. */
  function ParseUseGlobals(parts: seq<string>): (r: Intent)
    requires |parts| > 0
    ensures r.UseGlobals?
    ensures r.choice == Some(true) <==> Upper(parts[|parts| - 1]) in YesWords
    ensures r.choice == Some(false) <==> Upper(parts[|parts| - 1]) in NoWords
  {
    var word := Upper(parts[|parts| - 1]);
    UseGlobals(if word in YesWords then Some(true) else if word in NoWords then Some(false) else None)
  }

  /** The command a message starts with, found by the webhook's chain of tests. */
  datatype Keyword =
    | NoText | MenuKw | ListKw | SetGlobalsKw | UseGlobalsKw
    | SetCourseKw | AddExamKw | ChangeDateKw | DeleteExamKw | NoKeyword

  /** What a keyword guarantees about the message, enough to read its arguments. */
  predicate Marks(incoming: string, kw: Keyword) {
    match kw
    case UseGlobalsKw => |Words(incoming)| > 0
    case SetCourseKw => |KwSetCourse| <= |incoming|
    case AddExamKw => |KwAddExam| <= |incoming|
    case ChangeDateKw => |KwChangeDate| <= |incoming|
    case DeleteExamKw => |KwDeleteExam| <= |incoming|
    case _ => true
  }

  /** Position of a keyword's test in the webhook's chain (`NoKeyword` comes after all). */
  function Rank(kw: Keyword): nat {
    match kw
    case NoText => 0
    case MenuKw => 1
    case ListKw => 2
    case SetGlobalsKw => 3
    case UseGlobalsKw => 4
    case SetCourseKw => 5
    case AddExamKw => 6
    case ChangeDateKw => 7
    case DeleteExamKw => 8
    case NoKeyword => 9
  }

  /** The test that selects a keyword, on its own: MENU looks at the first word, every other
      command at the start of the whole upper-cased message. */
  predicate Fires(kw: Keyword, first: string, up: string, hasWords: bool) {
    match kw
    case MenuKw => hasWords && first in MenuWords
    case ListKw => StartsWith(up, KwListExams)
    case SetGlobalsKw => StartsWith(up, KwSetGlobals)
    case UseGlobalsKw => StartsWith(up, KwUseGlobals) && hasWords
    case SetCourseKw => StartsWith(up, KwSetCourse)
    case AddExamKw => StartsWith(up, KwAddExam)
    case ChangeDateKw => StartsWith(up, KwChangeDate)
    case DeleteExamKw => StartsWith(up, KwDeleteExam)
    case _ => false
  }

  /** `kw` is the first keyword whose test holds, or `NoKeyword` when none holds. */
  predicate FirstFiring(kw: Keyword, first: string, up: string, hasWords: bool) {
    && !kw.NoText?
    && (kw.NoKeyword? || Fires(kw, first, up, hasWords))
    && forall k :: Rank(k) < Rank(kw) ==> !Fires(k, first, up, hasWords)
  }

  /** At most one keyword is the first to fire. */
  lemma FirstFiringUnique(a: Keyword, b: Keyword, first: string, up: string, hasWords: bool)
    requires FirstFiring(a, first, up, hasWords) && FirstFiring(b, first, up, hasWords)
    ensures a == b
  {
  }

  /** The webhook's chain of tests over the upper-cased first word and the upper-cased
      message: the first word decides MENU; every other command is a prefix of the whole
      message, tried in order. */
  function DetectKeyword(first: string, up: string, hasWords: bool): (kw: Keyword)
    ensures FirstFiring(kw, first, up, hasWords)
    ensures kw.UseGlobalsKw? ==> hasWords
    ensures kw.SetCourseKw? ==> |KwSetCourse| <= |up|
    ensures kw.AddExamKw? ==> |KwAddExam| <= |up|
    ensures kw.ChangeDateKw? ==> |KwChangeDate| <= |up|
    ensures kw.DeleteExamKw? ==> |KwDeleteExam| <= |up|
  {
    if hasWords && first in MenuWords then MenuKw
    else if StartsWith(up, KwListExams) then ListKw
    else if StartsWith(up, KwSetGlobals) then SetGlobalsKw
    else if StartsWith(up, KwUseGlobals) && hasWords then UseGlobalsKw
    else if StartsWith(up, KwSetCourse) then SetCourseKw
    else if StartsWith(up, KwAddExam) then AddExamKw
    else if StartsWith(up, KwChangeDate) then ChangeDateKw
    else if StartsWith(up, KwDeleteExam) then DeleteExamKw
    else NoKeyword
  }

  /** The upper-cased first word of a message ("" when it has none). */
  function FirstWordUpper(incoming: string): string {
    var parts := Words(incoming);
    if |parts| > 0 then Upper(parts[0]) else ""
  }

  /** The command a stripped message starts with ("" is no text at all). */
  function Detect(incoming: string): (kw: Keyword)
    ensures Marks(incoming, kw)
    ensures kw.NoText? <==> incoming == ""
  {
    if incoming == "" then NoText
    else DetectKeyword(FirstWordUpper(incoming), Upper(incoming), |Words(incoming)| > 0)
  }

  /** Reads the arguments of the detected command. SET GLOBALES reads them from the upper-cased
      text with every "SET GLOBALES" removed; the later commands from the original text after
      the keyword. The per-keyword ensures only unfold the dispatch, as an aid for the
      `Messages.Classify*` lemmas; those lemmas and `ClassifyAnswers` are the specification. */
  function Interpret(incoming: string, kw: Keyword): (r: Intent)
    requires Marks(incoming, kw)
    ensures Answers(kw, r)
    ensures kw.SetGlobalsKw? ==> r == ParseSetGlobals(incoming)
    ensures kw.UseGlobalsKw? ==> r == ParseUseGlobals(Words(incoming))
    ensures kw.SetCourseKw? ==> r == ParseSetCourse(Words(Strip(incoming[|KwSetCourse|..])))
    ensures kw.AddExamKw? ==> r == ParseAddExam(Words(Strip(incoming[|KwAddExam|..])))
    ensures kw.ChangeDateKw? ==> r == ParseChangeDate(Words(Strip(incoming[|KwChangeDate|..])))
    ensures kw.DeleteExamKw? ==> r == DeleteExam(Strip(incoming[|KwDeleteExam|..]))
  {
    match kw
    case NoText => Blank
    case MenuKw => Menu
    case ListKw => ListExams
    case SetGlobalsKw => ParseSetGlobals(incoming)
    case UseGlobalsKw => ParseUseGlobals(Words(incoming))
    case SetCourseKw => ParseSetCourse(Words(Strip(incoming[|KwSetCourse|..])))
    case AddExamKw => ParseAddExam(Words(Strip(incoming[|KwAddExam|..])))
    case ChangeDateKw => ParseChangeDate(Words(Strip(incoming[|KwChangeDate|..])))
    case DeleteExamKw => DeleteExam(Strip(incoming[|KwDeleteExam|..]))
    case NoKeyword => Unrecognized
  }

  /** The kind of intent each keyword leads to. */
  predicate Answers(kw: Keyword, r: Intent) {
    match kw
    case NoText => r == Blank
    case MenuKw => r == Menu
    case ListKw => r == ListExams
    case SetGlobalsKw => r.SetGlobals? && WellFormed(r.offsets)
    case UseGlobalsKw => r.UseGlobals?
    case SetCourseKw => r.SetCourse? && WellFormed(r.offsets)
    case AddExamKw => r.AddExamUsage? || r.AddExamNoDate? || r.AddExam?
    case ChangeDateKw => r.ChangeDateUsage? || r.ChangeDate?
    case DeleteExamKw => r.DeleteExam?
    case NoKeyword => r == Unrecognized
  }

  /** Classifies a stripped message. */
  function Classify(incoming: string): Intent {
    Interpret(incoming, Detect(incoming))
  }

  /** A non-empty message selects the first command whose test holds. */
  lemma DetectFirstFiring(incoming: string)
    requires incoming != ""
    ensures FirstFiring(Detect(incoming), FirstWordUpper(incoming), Upper(incoming), |Words(incoming)| > 0)
  {
  }

  /** Empty text is blank, text no test recognises is not understood, and anything else is
      read as the command it was detected as. */
  lemma ClassifyAnswers(incoming: string)
    ensures Classify(incoming) == Blank <==> incoming == ""
    ensures Classify(incoming) == Unrecognized <==> Detect(incoming) == NoKeyword
    ensures Answers(Detect(incoming), Classify(incoming))
  {
  }

  // ---------------------------------------------------------------------------
  // Listing (`pretty_examenes`)
  // ---------------------------------------------------------------------------

  /** What a listing line shows for an exam's offsets. */
  datatype Shown = UsesGlobals(globals: string) | Days(offsets: seq<int>) | Raw(text: string)

  const NoExamsText := "No tienes ex\U{E1}menes registrados."

  /** The live webhook's choice: the exam's own list; else "(uses defaults)" when the flag
      is on; else the fixed default list. */
  function ShownAvisos(u: User, ex: Exam): (s: Shown)
    ensures s.UsesGlobals? <==> ParseList(ex.avisos) == [] && u.useGlobals
    ensures s.UsesGlobals? ==> s.globals == u.globals
    ensures s.Days? && ParseList(ex.avisos) != [] ==> s.offsets == ParseList(ex.avisos)
    ensures s.Days? && ParseList(ex.avisos) == [] ==> s.offsets == DefaultOffsets
  {
    var own := ParseList(ex.avisos);
    if own == [] && u.useGlobals then UsesGlobals(u.globals)
    else Days(if own != [] then own else DefaultOffsets)
  }

  /** Python's `str(list)` of integers: "[30, 20, 10, 5]". */
  function ListRepr(xs: seq<int>): string {
    "[" + Join(IntStrings(xs), ", ") + "]"
  }

  function ShownText(s: Shown): string {
    match s
    case UsesGlobals(g) => "(usa globales: " + g + ")"
    case Days(xs) => ListRepr(xs)
    case Raw(t) => t
  }

  function ExamLine(ex: Exam, s: Shown): (line: string)
    ensures StartsWith(line, "- " + ex.course)
  {
    var line := "- " + ex.course + ": " + ex.date + " | avisos: " + ShownText(s);
    assert line[..|"- " + ex.course|] == "- " + ex.course;
    line
  }

  /** One line per exam, or the "no exams" sentence. */
  function RenderListing(lines: seq<string>): (text: string)
    requires forall k :: 0 <= k < |lines| ==> StartsWith(lines[k], "- ")
    ensures text == NoExamsText <==> |lines| == 0
  {
    if |lines| == 0 then NoExamsText
    else
      var text := Join(lines, "\n");
      JoinStartsWith(lines, "\n");
      assert StartsWith(lines[0], "- ");
      assert lines[0][0] == lines[0][..2][0] == '-';
      assert text[0] == text[..|lines[0]|][0] == lines[0][0];
      assert NoExamsText[0] == 'N';
      text
  }

  function ListingLines(u: User): (lines: seq<string>)
    ensures |lines| == |u.exams|
    ensures forall k :: 0 <= k < |lines| ==> lines[k] == ExamLine(u.exams[k], ShownAvisos(u, u.exams[k]))
  {
    seq(|u.exams|, k requires 0 <= k < |u.exams| => ExamLine(u.exams[k], ShownAvisos(u, u.exams[k])))
  }

  /** `pretty_examenes` of the live webhook. */
  function PrettyExams(u: User): (text: string)
    ensures text == NoExamsText <==> |u.exams| == 0
  {
    var lines := ListingLines(u);
    assert forall k :: 0 <= k < |lines| ==> StartsWith(lines[k], "- ") by {
      forall k | 0 <= k < |lines| ensures StartsWith(lines[k], "- ") {
        assert lines[k][..|"- " + u.exams[k].course|] == "- " + u.exams[k].course;
      }
    }
    RenderListing(lines)
  }

  // ---------------------------------------------------------------------------
  // Effect stage
  // ---------------------------------------------------------------------------

  /** SET CURSO on the sender's record. */
  function SetCourseStep(u: User, course: string, offs: seq<int>): (r: Step)
    ensures IsFailure(r.reply) ==> r.user == u
    ensures r.user.phone == u.phone && r.user.zone == u.zone
    ensures |r.user.exams| == |u.exams|
    ensures forall k :: 0 <= k < |u.exams| ==> r.user.exams[k].course == u.exams[k].course
  {
    match FindExam(u.exams, course)
    case None => Step(u, CourseNotFound(course))
    case Some(i) =>
      var exams := u.exams[i := u.exams[i].(avisos := FormatList(offs))];
      Step(u.(exams := exams, useGlobals := false), CourseUpdated(course, offs))
  }

  /** AGREGAR EXAMEN on the sender's record. */
  function AddExamStep(u: User, course: string, date: string, offs: seq<int>): (r: Step)
    ensures IsFailure(r.reply) ==> r.user == u
    ensures r.user.phone == u.phone && r.user.zone == u.zone
    ensures UniqueCourses(u.exams) ==> UniqueCourses(r.user.exams)
  {
    match FindExam(u.exams, course)
    case Some(_) => Step(u, DuplicateCourse(course))
    case None => Step(u.(exams := u.exams + [Exam(course, date, FormatList(offs))]), ExamAdded(course, date, offs))
  }

  /** CAMBIAR FECHA on the sender's record. */
  function ChangeDateStep(u: User, course: string, date: string): (r: Step)
    ensures IsFailure(r.reply) ==> r.user == u
    ensures r.user.phone == u.phone && r.user.zone == u.zone
    ensures |r.user.exams| == |u.exams|
    ensures forall k :: 0 <= k < |u.exams| ==> r.user.exams[k].course == u.exams[k].course
  {
    match FindExam(u.exams, course)
    case None => Step(u, CourseNotFound(course))
    case Some(i) => Step(u.(exams := u.exams[i := u.exams[i].(date := date)]), DateChanged(course, date))
  }

  /** ELIMINAR EXAMEN on the sender's record. */
  function DeleteExamStep(u: User, course: string): (r: Step)
    ensures IsFailure(r.reply) ==> r.user == u
    ensures r.user.phone == u.phone && r.user.zone == u.zone
    ensures UniqueCourses(u.exams) ==> UniqueCourses(r.user.exams)
  {
    match FindExam(u.exams, course)
    case None => Step(u, CourseNotFound(course))
    case Some(i) =>
      var exams := u.exams[..i] + u.exams[i + 1..];
      assert forall k :: 0 <= k < |exams| ==> exams[k] == u.exams[if k < i then k else k + 1];
      Step(u.(exams := exams), ExamDeleted(course))
  }

  /** Applies an intent to the sender's record. */
  function Apply(u: User, intent: Intent): (r: Step)
    ensures IsFailure(r.reply) ==> r.user == u
    ensures r.user.phone == u.phone && r.user.zone == u.zone
    ensures UniqueCourses(u.exams) ==> UniqueCourses(r.user.exams)
  {
    match intent
    case Blank => Step(u, MenuPrompt)
    case Menu => Step(u, Help)
    case ListExams => Step(u, Listing(PrettyExams(u)))
    case SetGlobals(offs) => Step(u.(globals := FormatList(offs), useGlobals := true), GlobalsSaved(offs))
    case UseGlobals(choice) =>
      (match choice
       case Some(true) => Step(u.(useGlobals := true), GlobalsOn)
       case Some(false) => Step(u.(useGlobals := false), GlobalsOff)
       case None => Step(u, UseGlobalsUsage))
    case SetCourse(course, offs) => SetCourseStep(u, course, offs)
    case AddExamUsage => Step(u, AddUsage)
    case AddExamNoDate => Step(u, MissingDate)
    case AddExam(course, date, offs) => AddExamStep(u, course, date, offs)
    case ChangeDateUsage => Step(u, ChangeUsage)
    case ChangeDate(course, date) => ChangeDateStep(u, course, date)
    case DeleteExam(course) => DeleteExamStep(u, course)
    case Unrecognized => Step(u, NotUnderstood)
  }

  /** The record a first message creates (`avisos_globales` from the default list). */
  function NewChatUser(phone: string): (u: User)
    ensures u.phone == phone && u.zone == DefaultZone
    ensures u.globals == FormatList(DefaultOffsets) && u.useGlobals && u.exams == []
  {
    DefaultOffsetsText();
    User(phone, DefaultGlobals, true, DefaultZone, [])
  }

  /** The new record's offsets text reads back as the default list. */
  lemma NewChatUserOffsets(phone: string)
    ensures ParseList(NewChatUser(phone).globals) == DefaultOffsets
  {
    DefaultOffsetsRoundTrip();
  }

  /** What a registered user's message does: its stripped text is classified, then applied. */
  function Respond(u: User, body: string): (r: Step)
    ensures IsFailure(r.reply) ==> r.user == u
    ensures r.user.phone == u.phone && r.user.zone == u.zone
    ensures UniqueCourses(u.exams) ==> UniqueCourses(r.user.exams)
  {
    Apply(u, Classify(Strip(body)))
  }

  /** One webhook call: an unknown number is registered and greeted (its text is not
      interpreted); a known number's stripped text is classified and applied. */
  function Handle(db: map<string, User>, from: string, body: string): (r: (map<string, User>, Reply))
    ensures r.0.Keys == db.Keys + {from}
    ensures from !in db ==> r.1 == Greeting
    ensures from in db && IsFailure(r.1) ==> r.0 == db
    ensures from in db ==> r.0[from].phone == db[from].phone && r.0[from].zone == db[from].zone
  {
    if from !in db then Register(db, from)
    else HandleKnown(db, from, body)
  }

  /** The branch for a new number: its record is added and it is greeted. */
  function Register(db: map<string, User>, from: string): (r: (map<string, User>, Reply))
    requires from !in db
    ensures r.0.Keys == db.Keys + {from} && r.0[from] == NewChatUser(from) && r.1 == Greeting
    ensures forall p :: p in db ==> r.0[p] == db[p]
  {
    (db[from := NewChatUser(from)], Greeting)
  }

  /** The branch for a number already in the table. */
  function HandleKnown(db: map<string, User>, from: string, body: string): (r: (map<string, User>, Reply))
    requires from in db
    ensures r.0.Keys == db.Keys
    ensures IsFailure(r.1) ==> r.0 == db
    ensures r.0[from].phone == db[from].phone && r.0[from].zone == db[from].zone
  {
    var step := Respond(db[from], body);
    (Store(db, from, step.user), step.reply)
  }

  /** Whatever the message, only the sender's record is touched, and only a new sender adds one. */
  lemma HandleTouchesOnlySender(db: map<string, User>, from: string, body: string)
    ensures var (db', _) := Handle(db, from, body);
      && db'.Keys == db.Keys + {from}
      && forall p :: p in db && p != from ==> db'[p] == db[p]
  {
    if from in db {
      var step := Respond(db[from], body);
      assert HandleKnown(db, from, body).0 == Store(db, from, step.user);
      StoreTouchesOnlyKey(db, from, step.user);
    }
  }

  /** Writes back one user record. */
  function Store(db: map<string, User>, from: string, u: User): (db': map<string, User>)
    requires from in db
    ensures db'.Keys == db.Keys && db'[from] == u
    ensures u == db[from] ==> db' == db
  {
    db[from := u]
  }

  lemma StoreTouchesOnlyKey(db: map<string, User>, from: string, u: User)
    requires from in db
    ensures forall p :: p in db && p != from ==> Store(db, from, u)[p] == db[p]
  {
  }

  // ---------------------------------------------------------------------------
  // Properties
  // ---------------------------------------------------------------------------

  /** A message from an unknown number creates a user with the default offsets text
      "30,20,10,5", the flag on and no exams, answers with the greeting, and does not run
      the command it carried. */
  lemma UnknownNumberRegisters(db: map<string, User>, from: string, body: string)
    requires from !in db
    ensures var (db', reply) := Handle(db, from, body);
      && reply == Greeting
      && db'[from].globals == "30,20,10,5" && db'[from].useGlobals && db'[from].exams == []
      && db'[from].phone == from
      && db'.Keys == db.Keys + {from}
  {
    DefaultOffsetsText();
  }

  /** USAR GLOBALES: SI/SÍ/YES turns the flag on, NO/N turns it off, anything else changes
      nothing; no other field moves. */
  lemma UseGlobalsEffect(u: User, parts: seq<string>)
    requires |parts| > 0
    ensures var r := Apply(u, ParseUseGlobals(parts));
      var word := Upper(parts[|parts| - 1]);
      && (word in YesWords ==> r.user == u.(useGlobals := true))
      && (word in NoWords ==> r.user == u.(useGlobals := false))
      && (word !in YesWords && word !in NoWords ==> r.user == u && r.reply == UseGlobalsUsage)
  {
  }

  /** SET GLOBALES stores the normalised list as text that reads back as that list, and
      turns the flag on. */
  lemma SetGlobalsEffect(u: User, offs: seq<int>)
    requires WellFormed(offs)
    ensures var r := Apply(u, SetGlobals(offs));
      && ParseList(r.user.globals) == offs
      && r.user.useGlobals
      && r.user.exams == u.exams
      && r.reply == GlobalsSaved(offs)
  {
    ListRoundTrip(offs);
  }

  /** SET CURSO: an unknown course changes nothing; otherwise only that exam's offsets change
      (to text that reads back as the normalised list) and the flag is turned off. */
  lemma SetCourseEffect(u: User, course: string, offs: seq<int>)
    requires WellFormed(offs)
    ensures var r := SetCourseStep(u, course, offs);
      match FindExam(u.exams, course)
      case None => r.user == u && r.reply == CourseNotFound(course)
      case Some(i) =>
        && |r.user.exams| == |u.exams|
        && (forall j :: 0 <= j < |u.exams| && j != i ==> r.user.exams[j] == u.exams[j])
        && r.user.exams[i].course == u.exams[i].course
        && r.user.exams[i].date == u.exams[i].date
        && ParseList(r.user.exams[i].avisos) == offs
        && !r.user.useGlobals
        && r.user.globals == u.globals
  {
    ListRoundTrip(offs);
  }

  /** AGREGAR EXAMEN: a duplicate course changes nothing; otherwise exactly one exam is
      appended, whose offsets text reads back as the given list ("" for none). */
  lemma AddExamEffect(u: User, course: string, date: string, offs: seq<int>)
    requires offs == [] || WellFormed(offs)
    ensures var r := AddExamStep(u, course, date, offs);
      && (FindExam(u.exams, course).Some? ==> r.user == u && r.reply == DuplicateCourse(course))
      && (FindExam(u.exams, course).None? ==>
            && r.user.exams[..|u.exams|] == u.exams
            && |r.user.exams| == |u.exams| + 1
            && r.user.exams[|u.exams|].course == course
            && r.user.exams[|u.exams|].date == date
            && (offs == [] ==> r.user.exams[|u.exams|].avisos == "")
            && ParseList(r.user.exams[|u.exams|].avisos) == offs
            && r.user.globals == u.globals && r.user.useGlobals == u.useGlobals)
  {
    ListRoundTrip(offs);
    var r := AddExamStep(u, course, date, offs);
    if FindExam(u.exams, course).None? {
      assert r.user.exams[..|u.exams|] == u.exams;
    }
  }

  /** CAMBIAR FECHA: an unknown course changes nothing; otherwise only that exam's date does. */
  lemma ChangeDateEffect(u: User, course: string, date: string)
    ensures var r := ChangeDateStep(u, course, date);
      match FindExam(u.exams, course)
      case None => r.user == u && r.reply == CourseNotFound(course)
      case Some(i) =>
        && |r.user.exams| == |u.exams|
        && (forall j :: 0 <= j < |u.exams| && j != i ==> r.user.exams[j] == u.exams[j])
        && r.user.exams[i] == u.exams[i].(date := date)
        && r.user.globals == u.globals && r.user.useGlobals == u.useGlobals
  {
  }

  /** ELIMINAR EXAMEN: an unknown course changes nothing; otherwise the first exam with that
      course is removed and the others keep their order. */
  lemma DeleteExamEffect(u: User, course: string)
    ensures var r := DeleteExamStep(u, course);
      match FindExam(u.exams, course)
      case None => r.user == u && r.reply == CourseNotFound(course)
      case Some(i) =>
        && |r.user.exams| == |u.exams| - 1
        && (forall j :: 0 <= j < i ==> r.user.exams[j] == u.exams[j])
        && (forall j :: i <= j < |r.user.exams| ==> r.user.exams[j] == u.exams[j + 1])
        && (UniqueCourses(u.exams) ==> forall j :: 0 <= j < |r.user.exams| ==> r.user.exams[j].course != course)
  {
    if FindExam(u.exams, course).Some? {
      var i := FindExam(u.exams, course).value;
      var e := DeleteExamStep(u, course).user.exams;
      assert e == u.exams[..i] + u.exams[i + 1..];
      assert forall j :: 0 <= j < |e| ==> e[j] == u.exams[if j < i then j else j + 1];
    }
  }

  /** Every command keeps course names unique in every user record. */
  lemma HandleKeepsCoursesUnique(db: map<string, User>, from: string, body: string)
    requires forall p :: p in db ==> UniqueCourses(db[p].exams)
    ensures var (db', _) := Handle(db, from, body);
      forall p :: p in db' ==> UniqueCourses(db'[p].exams)
  {
  }
}
