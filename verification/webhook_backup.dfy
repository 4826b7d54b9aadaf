/** The older chat interpreter (`whatsapp_webhook_backup`): it knows only MENU, MIS EXAMENES,
    SET GLOBALES and USAR GLOBALES, never registers a number and never edits exams. */
module WebhookBackup {
  import opened Outcomes
  import opened Text
  import opened Offsets
  import opened Models
  import W = Webhook

  /** Either the sender is not in the table, or the command got a reply. */
  datatype Outcome = NotRegistered | Answered(reply: W.Reply)

  /** The older chain of tests: the same first four, in the same order, then nothing. */
  function DetectKeyword(first: string, up: string, hasWords: bool): (kw: W.Keyword)
    ensures kw.UseGlobalsKw? ==> hasWords
    ensures kw.MenuKw? || kw.ListKw? || kw.SetGlobalsKw? || kw.UseGlobalsKw? || kw.NoKeyword?
  {
    if hasWords && first in W.MenuWords then W.MenuKw
    else if StartsWith(up, W.KwListExams) then W.ListKw
    else if StartsWith(up, W.KwSetGlobals) then W.SetGlobalsKw
    else if StartsWith(up, W.KwUseGlobals) && hasWords then W.UseGlobalsKw
    else W.NoKeyword
  }

  function Detect(incoming: string): (kw: W.Keyword)
    ensures W.Marks(incoming, kw)
  {
    if incoming == "" then W.NoText
    else DetectKeyword(W.FirstWordUpper(incoming), Upper(incoming), |Words(incoming)| > 0)
  }

  function Classify(incoming: string): W.Intent {
    W.Interpret(incoming, Detect(incoming))
  }

  /** The commands the live webhook added later. */
  predicate LaterKeyword(kw: W.Keyword) {
    kw.SetCourseKw? || kw.AddExamKw? || kw.ChangeDateKw? || kw.DeleteExamKw?
  }

  predicate LaterCommand(i: W.Intent) {
    i.SetCourse? || i.AddExamUsage? || i.AddExamNoDate? || i.AddExam?
    || i.ChangeDateUsage? || i.ChangeDate? || i.DeleteExam?
  }

  /** The older chain finds the same command as the live one, except that the commands added
      later are not found at all. */
  lemma DetectAgreesWithLive(first: string, up: string, hasWords: bool)
    ensures var live := W.DetectKeyword(first, up, hasWords);
      && (!LaterKeyword(live) ==> DetectKeyword(first, up, hasWords) == live)
      && (LaterKeyword(live) ==> DetectKeyword(first, up, hasWords) == W.NoKeyword)
  {
  }

  /** The commands added later are exactly the intents read from the keywords added later. */
  lemma InterpretLater(incoming: string, kw: W.Keyword)
    requires W.Marks(incoming, kw)
    ensures LaterKeyword(kw) <==> LaterCommand(W.Interpret(incoming, kw))
  {
  }

  /** Hence the older webhook reads every message the way the live one does, except that the
      commands added later fall through to "not understood". */
  lemma ClassifyAgreesWithLive(incoming: string)
    ensures !LaterCommand(W.Classify(incoming)) ==> Classify(incoming) == W.Classify(incoming)
    ensures LaterCommand(W.Classify(incoming)) ==> Classify(incoming) == W.Unrecognized
    ensures !LaterCommand(Classify(incoming))
  {
    var live := W.Detect(incoming);
    var older := Detect(incoming);
    if incoming != "" {
      DetectAgreesWithLive(W.FirstWordUpper(incoming), Upper(incoming), |Words(incoming)| > 0);
    }
    assert !LaterKeyword(live) ==> older == live;
    assert LaterKeyword(live) ==> older == W.NoKeyword;
    InterpretLater(incoming, live);
    InterpretLater(incoming, older);
  }

  /** The older listing shows an exam's stored offsets text as it is, and "uses defaults"
      whenever that text is empty, whatever the flag says. */
  function ShownAvisos(u: User, ex: Exam): (s: W.Shown)
    ensures s.Raw? <==> ex.avisos != ""
    ensures s.Raw? ==> s.text == ex.avisos
    ensures s.UsesGlobals? ==> s.globals == u.globals
  {
    if ex.avisos != "" then W.Raw(ex.avisos) else W.UsesGlobals(u.globals)
  }

  function PrettyExams(u: User): (text: string)
    ensures text == W.NoExamsText <==> |u.exams| == 0
  {
    var lines := seq(|u.exams|, k requires 0 <= k < |u.exams| => W.ExamLine(u.exams[k], ShownAvisos(u, u.exams[k])));
    assert forall k :: 0 <= k < |lines| ==> StartsWith(lines[k], "- ") by {
      forall k | 0 <= k < |lines| ensures StartsWith(lines[k], "- ") {
        assert lines[k][..|"- " + u.exams[k].course|] == "- " + u.exams[k].course;
      }
    }
    W.RenderListing(lines)
  }

  /** With the flag on, both listings describe an exam without offsets of its own the same way. */
  lemma ListingsAgreeWhenFlagOn(u: User, ex: Exam)
    requires u.useGlobals && ex.avisos == ""
    ensures ShownAvisos(u, ex) == W.ShownAvisos(u, ex) == W.UsesGlobals(u.globals)
  {
  }

  /** With the flag off, the live listing names the fixed default list where the older one
      still says "uses defaults". */
  lemma ListingsDisagreeWhenFlagOff(u: User, ex: Exam)
    requires !u.useGlobals && ex.avisos == ""
    ensures ShownAvisos(u, ex) == W.UsesGlobals(u.globals)
    ensures W.ShownAvisos(u, ex) == W.Days(DefaultOffsets)
  {
  }

  /** The older effect stage: the listing is its own, everything else behaves as live. */
  function Apply(u: User, intent: W.Intent): (r: W.Step)
    requires !LaterCommand(intent)
    ensures r.user.exams == u.exams
    ensures r.user.phone == u.phone && r.user.zone == u.zone
    ensures W.IsFailure(r.reply) ==> r.user == u
  {
    match intent
    case ListExams => W.Step(u, W.Listing(PrettyExams(u)))
    case _ => W.Apply(u, intent)
  }

  /** One call of the older webhook: an unknown number is only told it is not registered;
      the table never gains a key and no exam list ever changes. */
  function Handle(db: map<string, User>, from: string, body: string): (r: (map<string, User>, Outcome))
    ensures r.0.Keys == db.Keys
    ensures from !in db <==> r.1 == NotRegistered
    ensures from !in db ==> r.0 == db
    ensures from in db ==> r.0[from].exams == db[from].exams && r.0[from].phone == db[from].phone
  {
    if from !in db then (db, NotRegistered)
    else
      var intent := Classify(Strip(body));
      ClassifyAgreesWithLive(Strip(body));
      var step := Apply(db[from], intent);
      (W.Store(db, from, step.user), Answered(step.reply))
  }

  /** Only the sender's record is touched. */
  lemma HandleTouchesOnlySender(db: map<string, User>, from: string, body: string)
    ensures var (db', _) := Handle(db, from, body);
      forall p :: p in db && p != from ==> db'[p] == db[p]
  {
    if from in db {
      ClassifyAgreesWithLive(Strip(body));
      var step := Apply(db[from], Classify(Strip(body)));
      W.StoreTouchesOnlyKey(db, from, step.user);
    }
  }
}
