/** The reminder scheduler (`scheduler`): for a given day, which exams of which users get a
    reminder, and what the run reports. The clock, the time-zone database, the random quote
    and the message transport are inputs: `hoy` is the day, `hours` maps each time-zone name
    the database knows to the current local hour there, and `pick` chooses the quote. */
module Scheduler {
  import opened Outcomes
  import opened Text
  import opened Dates
  import opened Offsets
  import opened Models

  /** The local hour at which reminders go out. */
  const SendHour := 8

  /** `CITAS`: the motivational quotes one of which closes every reminder. */
  const Quotes: seq<string> := [
    "El éxito es la suma de pequeños esfuerzos repetidos cada día. – Robert Collier",
    "La disciplina es el puente entre metas y logros. – Jim Rohn",
    "Haz lo que debes hacer, aunque no quieras hacerlo. – Brian Tracy",
    "No dejes que el tiempo decida por ti, decide tú por el tiempo. – Anónimo"
  ]

  /** One reminder: which exam, on which date, how many days ahead. */
  datatype Notice = Notice(course: string, date: string, days: int)

  /** A reminder addressed to a phone. */
  datatype Send = Send(to: string, notice: Notice)

  /** Whole days from `hoy` to the exam date, or `None` when the date text does not parse. */
  function DaysLeft(ex: Exam, hoy: Date): (r: Option<int>)
    requires Valid(hoy)
    ensures r.Some? <==> ParseIso(ex.date).Some?
  {
    match ParseIso(ex.date)
    case None => None
    case Some(d) => Some(DaysBetween(hoy, d))
  }

  /** The offsets that apply to an exam: its own, else the user's, else the default.
      The "use defaults" flag plays no part. */
  function Resolve(u: User, ex: Exam): (r: seq<int>)
    ensures |r| > 0
    ensures ParseList(ex.avisos) != [] ==> r == ParseList(ex.avisos)
    ensures ParseList(ex.avisos) == [] && ParseList(u.globals) != [] ==> r == ParseList(u.globals)
    ensures ParseList(ex.avisos) == [] && ParseList(u.globals) == [] ==> r == DefaultOffsets
  {
    var own := ParseList(ex.avisos);
    if own != [] then own
    else
      var globals := ParseList(u.globals);
      if globals != [] then globals else DefaultOffsets
  }

  /** An exam is due today when its date parses, lies today or later, and the number of days
      left is one of the resolved offsets. */
  predicate Due(u: User, ex: Exam, hoy: Date)
    requires Valid(hoy)
    ensures Due(u, ex, hoy) ==>
      && ParseIso(ex.date).Some?
      && !Before(ParseIso(ex.date).value, hoy)
      && DaysBetween(hoy, ParseIso(ex.date).value) in Resolve(u, ex)
  {
    match DaysLeft(ex, hoy)
    case None => false
    case Some(d) =>
      DaysBetweenSign(hoy, ParseIso(ex.date).value);
      d >= 0 && d in Resolve(u, ex)
  }

  function NoticeOf(ex: Exam, hoy: Date): Notice
    requires Valid(hoy) && DaysLeft(ex, hoy).Some?
  {
    Notice(ex.course, ex.date, DaysLeft(ex, hoy).value)
  }

  /** The reminders due for one user's exams, in exam order. */
  function DueNotices(u: User, exams: seq<Exam>, hoy: Date): (r: seq<Notice>)
    requires Valid(hoy)
    ensures |r| <= |exams|
    ensures forall k :: 0 <= k < |r| ==> r[k].days >= 0
  {
    if |exams| == 0 then []
    else
      var ex := exams[0];
      (if Due(u, ex, hoy) then [NoticeOf(ex, hoy)] else []) + DueNotices(u, exams[1..], hoy)
  }

  /** Every reminder listed is one of the exams, due today. */
  lemma {:induction false} DueNoticesSound(u: User, exams: seq<Exam>, hoy: Date, n: Notice)
    requires Valid(hoy) && n in DueNotices(u, exams, hoy)
    ensures exists ex :: ex in exams && Due(u, ex, hoy) && n == NoticeOf(ex, hoy)
  {
    var ex := exams[0];
    var rest := DueNotices(u, exams[1..], hoy);
    if Due(u, ex, hoy) && n == NoticeOf(ex, hoy) {
      assert ex in exams;
    } else {
      assert n in rest;
      DueNoticesSound(u, exams[1..], hoy, n);
      var e :| e in exams[1..] && Due(u, e, hoy) && n == NoticeOf(e, hoy);
      assert e in exams;
    }
  }

  /** Every exam due today is listed. */
  lemma {:induction false} DueNoticesComplete(u: User, exams: seq<Exam>, hoy: Date, ex: Exam)
    requires Valid(hoy) && ex in exams && Due(u, ex, hoy)
    ensures NoticeOf(ex, hoy) in DueNotices(u, exams, hoy)
  {
    if exams[0] != ex {
      assert ex in exams[1..];
      DueNoticesComplete(u, exams[1..], hoy, ex);
    }
  }

  /** `generar_mensajes_recordatorio`: the exams exactly `days` days away, in exam order;
      unparseable dates are skipped and the exams' own offsets are not consulted. */
  function Generate(exams: seq<Exam>, days: int, hoy: Date): (r: seq<Notice>)
    requires Valid(hoy)
    ensures |r| <= |exams|
    ensures forall n :: n in r ==> n.days == days
  {
    if |exams| == 0 then []
    else
      var rest := Generate(exams[1..], days, hoy);
      var ex := exams[0];
      (if DaysLeft(ex, hoy) == Some(days) then [NoticeOf(ex, hoy)] else []) + rest
  }

  /** The messages are exactly those for the exams whose date parses and lies `days` away. */
  lemma {:induction false} GenerateExactly(exams: seq<Exam>, days: int, hoy: Date)
    requires Valid(hoy)
    ensures forall n :: n in Generate(exams, days, hoy) ==>
      exists ex :: ex in exams && DaysLeft(ex, hoy) == Some(days) && n == NoticeOf(ex, hoy)
    ensures forall ex :: ex in exams && DaysLeft(ex, hoy) == Some(days) ==> NoticeOf(ex, hoy) in Generate(exams, days, hoy)
    decreases |exams|
  {
    if |exams| > 0 {
      GenerateExactly(exams[1..], days, hoy);
      assert forall e :: e in exams[1..] ==> e in exams;
      assert forall e :: e in exams ==> e == exams[0] || e in exams[1..];
    }
  }

  /** Generating for a list of exams keeps their order: it is generating for each part. */
  lemma {:induction false} GenerateAppend(a: seq<Exam>, b: seq<Exam>, days: int, hoy: Date)
    requires Valid(hoy)
    ensures Generate(a + b, days, hoy) == Generate(a, days, hoy) + Generate(b, days, hoy)
    decreases |a|
  {
    if |a| > 0 {
      assert (a + b)[1..] == a[1..] + b;
      GenerateAppend(a[1..], b, days, hoy);
    } else {
      assert a + b == b;
    }
  }

  /** When every exam resolves to the single offset `days >= 0`, the run's due reminders
      are exactly what `generar_mensajes_recordatorio` yields for `days`. */
  lemma {:induction false} DueNoticesAsGenerate(u: User, exams: seq<Exam>, days: int, hoy: Date)
    requires Valid(hoy) && days >= 0
    requires forall ex :: ex in exams ==> Resolve(u, ex) == [days]
    ensures DueNotices(u, exams, hoy) == Generate(exams, days, hoy)
    decreases |exams|
  {
    if |exams| > 0 {
      assert exams[0] in exams;
      assert forall e :: e in exams[1..] ==> e in exams;
      DueNoticesAsGenerate(u, exams[1..], days, hoy);
    }
  }

  /** An exam dated before `hoy` never yields a reminder, whatever its offsets. */
  lemma PastExamNeverDue(u: User, ex: Exam, hoy: Date)
    requires Valid(hoy)
    requires ParseIso(ex.date).Some? && Before(ParseIso(ex.date).value, hoy)
    ensures !Due(u, ex, hoy)
  {
    OrdinalOrder(ParseIso(ex.date).value, hoy);
  }

  /** An exam dated today or later is due exactly when the days left are one of its
      resolved offsets. */
  lemma DueIffOffset(u: User, ex: Exam, hoy: Date)
    requires Valid(hoy)
    requires ParseIso(ex.date).Some? && !Before(ParseIso(ex.date).value, hoy)
    ensures Due(u, ex, hoy) <==> DaysBetween(hoy, ParseIso(ex.date).value) in Resolve(u, ex)
  {
    OrdinalOrder(ParseIso(ex.date).value, hoy);
  }

  /** The flag the chat commands toggle does not affect which reminders are due. */
  lemma {:induction false} DueNoticesIgnoreFlag(u: User, flag: bool, exams: seq<Exam>, hoy: Date)
    requires Valid(hoy)
    ensures DueNotices(u.(useGlobals := flag), exams, hoy) == DueNotices(u, exams, hoy)
    decreases |exams|
  {
    if |exams| > 0 {
      assert Resolve(u.(useGlobals := flag), exams[0]) == Resolve(u, exams[0]);
      DueNoticesIgnoreFlag(u, flag, exams[1..], hoy);
    }
  }

  // ---------------------------------------------------------------------------
  // One run over all users
  // ---------------------------------------------------------------------------

  /** The user's time zone, Lima when none is stored. */
  function ZoneOf(u: User): string {
    if u.zone == "" then DefaultZone else u.zone
  }

  /** A user is served when the zone is known and it is the send hour there (or the hour
      check is switched off). */
  predicate Awake(u: User, ignoreHour: bool, hours: map<string, int>)
    ensures Awake(u, ignoreHour, hours) ==> ZoneOf(u) in hours
    ensures Awake(u, ignoreHour, hours) && !ignoreHour ==> hours[ZoneOf(u)] == SendHour
  {
    ZoneOf(u) in hours && (ignoreHour || hours[ZoneOf(u)] == SendHour)
  }

  datatype Status = Completed | MissingCredentials | UnknownZone(zone: string)

  /** What a run did: how it ended and every reminder it handed to the transport, in order.
      The run's counter is the number of those reminders, whether or not delivery worked. */
  datatype Outcome = Outcome(status: Status, sends: seq<Send>)

  function Addressed(phone: string, notices: seq<Notice>): (r: seq<Send>)
    ensures |r| == |notices|
    ensures forall k :: 0 <= k < |r| ==> r[k] == Send(phone, notices[k])
  {
    seq(|notices|, k requires 0 <= k < |notices| => Send(phone, notices[k]))
  }

  /** The sends for one served user: every due reminder, addressed to the user's phone. */
  function UserSends(u: User, hoy: Date): (r: seq<Send>)
    requires Valid(hoy)
    ensures |r| == |DueNotices(u, u.exams, hoy)|
  {
    Addressed(u.phone, DueNotices(u, u.exams, hoy))
  }

  /** A send is for the user exactly when it goes to the user's phone with a due reminder. */
  lemma UserSendsMembers(u: User, hoy: Date)
    requires Valid(hoy)
    ensures forall s :: s in UserSends(u, hoy) <==> s.to == u.phone && s.notice in DueNotices(u, u.exams, hoy)
  {
    var ns := DueNotices(u, u.exams, hoy);
    var r := UserSends(u, hoy);
    forall s: Send | s in r ensures s.to == u.phone && s.notice in ns {
      var k :| 0 <= k < |r| && r[k] == s;
    }
    forall s: Send | s.to == u.phone && s.notice in ns ensures s in r {
      var k :| 0 <= k < |ns| && ns[k] == s.notice;
      assert r[k] == s;
    }
  }

  /** The user loop: users in order; an unknown zone aborts the run, keeping what was sent. */
  function Sweep(users: seq<User>, hoy: Date, ignoreHour: bool, hours: map<string, int>): (r: Outcome)
    requires Valid(hoy)
    ensures !r.status.MissingCredentials?
  {
    if |users| == 0 then Outcome(Completed, [])
    else
      var u := users[0];
      if ZoneOf(u) !in hours then Outcome(UnknownZone(ZoneOf(u)), [])
      else
        var rest := Sweep(users[1..], hoy, ignoreHour, hours);
        Outcome(rest.status, (if Awake(u, ignoreHour, hours) then UserSends(u, hoy) else []) + rest.sends)
  }

  /** The loop ends on an unknown zone exactly when some user's zone is unknown, and then
      names an unknown zone. */
  lemma {:induction false} SweepStops(users: seq<User>, hoy: Date, ignoreHour: bool, hours: map<string, int>)
    requires Valid(hoy)
    ensures Sweep(users, hoy, ignoreHour, hours).status.UnknownZone? <==>
      exists k :: 0 <= k < |users| && ZoneOf(users[k]) !in hours
    ensures Sweep(users, hoy, ignoreHour, hours).status.UnknownZone? ==>
      Sweep(users, hoy, ignoreHour, hours).status.zone !in hours
    decreases |users|
  {
    if |users| > 0 && ZoneOf(users[0]) in hours {
      var rest := users[1..];
      SweepStops(rest, hoy, ignoreHour, hours);
      if exists k :: 0 <= k < |users| && ZoneOf(users[k]) !in hours {
        var k :| 0 <= k < |users| && ZoneOf(users[k]) !in hours;
        assert rest[k - 1] == users[k];
      }
      if Sweep(rest, hoy, ignoreHour, hours).status.UnknownZone? {
        var k :| 0 <= k < |rest| && ZoneOf(rest[k]) !in hours;
        assert users[k + 1] == rest[k];
      }
    }
  }

  /** Every send goes to a served user, for one of that user's due reminders. */
  lemma {:induction false} SweepSound(users: seq<User>, hoy: Date, ignoreHour: bool, hours: map<string, int>, s: Send)
    requires Valid(hoy) && s in Sweep(users, hoy, ignoreHour, hours).sends
    ensures exists u :: u in users && Awake(u, ignoreHour, hours) && s.to == u.phone && s.notice in DueNotices(u, u.exams, hoy)
  {
    var u := users[0];
    var rest := Sweep(users[1..], hoy, ignoreHour, hours);
    UserSendsMembers(u, hoy);
    if Awake(u, ignoreHour, hours) && s in UserSends(u, hoy) {
      assert u in users;
    } else {
      assert s in rest.sends;
      SweepSound(users[1..], hoy, ignoreHour, hours, s);
      var v :| v in users[1..] && Awake(v, ignoreHour, hours) && s.to == v.phone && s.notice in DueNotices(v, v.exams, hoy);
      assert v in users;
    }
  }

  /** A run that completes sends every due reminder of every served user. */
  lemma {:induction false} SweepComplete(users: seq<User>, hoy: Date, ignoreHour: bool, hours: map<string, int>,
                                          u: User, n: Notice)
    requires Valid(hoy) && Sweep(users, hoy, ignoreHour, hours).status.Completed?
    requires u in users && Awake(u, ignoreHour, hours) && n in DueNotices(u, u.exams, hoy)
    ensures Send(u.phone, n) in Sweep(users, hoy, ignoreHour, hours).sends
  {
    if users[0] != u {
      assert u in users[1..];
      SweepComplete(users[1..], hoy, ignoreHour, hours, u, n);
    } else {
      UserSendsMembers(u, hoy);
      assert Send(u.phone, n) in UserSends(u, hoy);
    }
  }

  /** `run_once`: sending for real without credentials stops before any send. */
  function RunOnce(users: seq<User>, hoy: Date, dryRun: bool, ignoreHour: bool, hasCredentials: bool,
                   hours: map<string, int>): (r: Outcome)
    requires Valid(hoy)
    ensures r.status.MissingCredentials? <==> !dryRun && !hasCredentials
    ensures r.status.MissingCredentials? ==> r.sends == []
  {
    if !dryRun && !hasCredentials then Outcome(MissingCredentials, [])
    else Sweep(users, hoy, ignoreHour, hours)
  }

  /** A dry run and a real run with credentials pick the same reminders in the same order;
      a dry run never needs credentials. */
  lemma ModesAgree(users: seq<User>, hoy: Date, ignoreHour: bool, hasCredentials: bool, hours: map<string, int>)
    requires Valid(hoy)
    ensures RunOnce(users, hoy, true, ignoreHour, hasCredentials, hours) == RunOnce(users, hoy, true, ignoreHour, false, hours)
    ensures hasCredentials ==>
      RunOnce(users, hoy, false, ignoreHour, true, hours) == RunOnce(users, hoy, true, ignoreHour, hasCredentials, hours)
  {
  }

  /** With the hour check on, a user whose local hour is not the send hour gets nothing. */
  lemma HourGate(users: seq<User>, hoy: Date, dryRun: bool, hasCredentials: bool, hours: map<string, int>, u: User)
    requires Valid(hoy)
    requires u in users && ZoneOf(u) in hours && hours[ZoneOf(u)] != SendHour
    requires forall v :: v in users && v.phone == u.phone ==> v == u
    ensures forall s :: s in RunOnce(users, hoy, dryRun, false, hasCredentials, hours).sends ==> s.to != u.phone
  {
    forall s | s in RunOnce(users, hoy, dryRun, false, hasCredentials, hours).sends ensures s.to != u.phone {
      SweepSound(users, hoy, false, hours, s);
    }
  }

  /** A run that completes sends every due reminder of every served user, and never sends
      for a past exam. */
  lemma RunSendsEveryDue(users: seq<User>, hoy: Date, dryRun: bool, ignoreHour: bool, hasCredentials: bool,
                         hours: map<string, int>, u: User, ex: Exam)
    requires Valid(hoy)
    requires u in users && ex in u.exams
    ensures var r := RunOnce(users, hoy, dryRun, ignoreHour, hasCredentials, hours);
      r.status.Completed? && Awake(u, ignoreHour, hours) && Due(u, ex, hoy) ==> Send(u.phone, NoticeOf(ex, hoy)) in r.sends
    ensures var r := RunOnce(users, hoy, dryRun, ignoreHour, hasCredentials, hours);
      forall s :: s in r.sends ==> s.notice.days >= 0
  {
    var r := RunOnce(users, hoy, dryRun, ignoreHour, hasCredentials, hours);
    if r.status.Completed? && Awake(u, ignoreHour, hours) && Due(u, ex, hoy) {
      DueNoticesComplete(u, u.exams, hoy, ex);
      SweepComplete(users, hoy, ignoreHour, hours, u, NoticeOf(ex, hoy));
    }
    forall s | s in r.sends ensures s.notice.days >= 0 {
      SweepSound(users, hoy, ignoreHour, hours, s);
      var v :| v in users && Awake(v, ignoreHour, hours) && s.to == v.phone && s.notice in DueNotices(v, v.exams, hoy);
    }
  }

  /** Users before the first one with an unknown zone are served as usual; the run stops there. */
  lemma {:induction false} SweepAppend(a: seq<User>, b: seq<User>, hoy: Date, ignoreHour: bool, hours: map<string, int>)
    requires Valid(hoy)
    requires forall u :: u in a ==> ZoneOf(u) in hours
    ensures Sweep(a + b, hoy, ignoreHour, hours).status == Sweep(b, hoy, ignoreHour, hours).status
    ensures Sweep(a + b, hoy, ignoreHour, hours).sends == Sweep(a, hoy, ignoreHour, hours).sends + Sweep(b, hoy, ignoreHour, hours).sends
    decreases |a|
  {
    if |a| > 0 {
      assert (a + b)[0] == a[0] && (a + b)[1..] == a[1..] + b;
      assert a[0] in a;
      assert forall u :: u in a[1..] ==> u in a;
      SweepAppend(a[1..], b, hoy, ignoreHour, hours);
    } else {
      assert a + b == b;
    }
  }

  // ---------------------------------------------------------------------------
  // Message text
  // ---------------------------------------------------------------------------

  /** The shape both reminder texts share: a greeting, the course and the day count each
      between asterisks, the date, a closing line and the quote picked by `pick`. */
  function NoticeText(greeting: string, closing: string, n: Notice, pick: nat): (body: string)
    ensures Occurs("*" + n.course + "*", body)
    ensures Occurs("*" + IntToString(n.days) + "*", body)
  {
    var head := "\U{1F4E2} *Recordatorio de examen*\n\n" + greeting + "Tu examen de ";
    var course := "*" + n.course + "*";
    var mid := " es en ";
    var days := "*" + IntToString(n.days) + "*";
    var tail := " d\U{ED}a(s) (fecha: " + n.date + ").\n" + closing + "Frase: " + Quotes[pick % |Quotes|];
    var body := head + course + mid + days + tail;
    assert body == head + course + (mid + days + tail);
    OccursBetween(head, course, mid + days + tail);
    assert body == (head + course + mid) + days + tail;
    OccursBetween(head + course + mid, days, tail);
    body
  }

  /** The reminder the run sends: it greets the student and adds an encouraging line. */
  function ReminderBody(n: Notice, pick: nat): (body: string)
    ensures Occurs("*" + n.course + "*", body)
    ensures Occurs("*" + IntToString(n.days) + "*", body)
  {
    NoticeText("Hola! ", "\nEs un buen momento para organizar tu estudio. \U{1F4AA}\n", n, pick)
  }

  /** The text the message generator builds for one notice: no greeting, no extra line. */
  function GeneratedBody(n: Notice, pick: nat): (body: string)
    ensures Occurs("*" + n.course + "*", body)
    ensures Occurs("*" + IntToString(n.days) + "*", body)
  {
    NoticeText("", "", n, pick)
  }
}
