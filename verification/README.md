# Exam-reminder bot: a verified model of its offsets and reminder logic

The bot keeps, for every WhatsApp number, a user with a list of exams (course, date
text, per-exam offsets text). It also keeps a default offsets list and a "use defaults"
flag. An *offset* ("aviso") is a number of days before an exam on which a reminder goes
out. This project models the parts of the bot that decide what is stored and what is
sent, as pure functions over immutable records:

- `Offsets`: the lenient normaliser both chat webhooks use (`normalizar_avisos`), the
  canonical descending form it produces, and the comma-separated text codec
  (`avisos_to_str`, `avisos_to_list`, the scheduler's `parse_avisos`).
- `Webhook`: the live chat interpreter. A message is classified into a tagged `Intent`
  (the lexical stage), which is then applied to the sender's record (the effect stage).
  `Handle` runs both over a table keyed by phone number. `WebhookBackup` is the older
  interpreter with four commands, and it never registers a number.
- `Scheduler`: when an exam is due (days left, offsets resolved as exam, then user
  defaults, then the built-in list), the per-user and per-exam loop of `run_once`, and
  `generar_mensajes_recordatorio`.
- `Gestor`: the roster editor's commands over a sequence of students. Each returns
  either an error, leaving the roster as it was, or the new roster. It has its own
  strict normaliser with the default `[30, 10, 5]`.
- `Registration`: `validar_avisos`, the parsing of `Course|YYYY-MM-DD|offsets`
  arguments, phone normalisation and the upsert of `registrar_usuario_db`.
- `FixAvisos`, `FixNumbers` and `Repairs`: the two data-repair passes and their change
  counters.
- `Report`: the reminder calendar printed by `reporte_programacion.py`.
- `Models`, `Text`, `Dates` and `Outcomes` hold the records, the Python string
  operations the code relies on, proleptic Gregorian dates with Python's day numbers,
  and `Option` and `Result`.

Inputs from the outside world are parameters:

- the current day `hoy`;
- the current local hour in every known time zone (a `map<string, int>`);
- the set of known zone names;
- whether credentials are present;
- the index of the random quote.

Two behaviours of the code, modelled as written:

- The chat listing and the scheduler disagree for an exam without offsets of its own
  when the user's flag is off. The live listing shows the fixed list `[30, 20, 10, 5]`,
  but the scheduler never reads the flag and uses the user's defaults
  (`WebhookBackup.ListingsDisagreeWhenFlagOff`, `Scheduler.DueNoticesIgnoreFlag`).
- Registering a number that already exists appends the exams and ignores the zone given
  (`Registration.RegisterTwice`).

## Model

| member | source | states |
|---|---|---|
| Text.ParseAll | whatsapp_webhook.py:20-22 | the word list converts exactly when every word converts; the values are the converted words, one per word, in order |
| Text.ParseIntOfIntToString | whatsapp_webhook.py:31-32 | reading back the printed form of any integer gives the integer |
| Text.SplitJoin | whatsapp_webhook.py:26-32 | splitting a separator-joined list of separator-free parts gives back the parts |
| Text.WordsAreWords | whatsapp_webhook.py:87 | every word of `str.split()` is non-empty and holds no white space |
| Text.WordsJoin | whatsapp_webhook.py:145 | splitting non-empty, space-free words joined by single spaces gives back the words |
| Text.Strip | whatsapp_webhook.py:64 | the stripped text is no longer than the input, and neither end is white space |
| Text.StripDropsSpace | whatsapp_webhook.py:64 | the stripped text is a piece of the input, and only white space is removed on either side of it |
| Text.StripAround | whatsapp_webhook.py:145 | white space around a text whose ends are not white space is removed and the text is kept whole |
| Text.Upper | whatsapp_webhook.py:88 | one character for each input character, each mapped to its upper case |
| Text.UpperIdempotent | whatsapp_webhook.py:97 | upper-casing an upper-cased text changes nothing |
| Text.ParseInt | whatsapp_webhook.py:20 | a run of digits reads as its decimal value, and a text that reads is not blank |
| Text.ParseIntTrims | whatsapp_webhook.py:20 | white space around a number does not change how it reads |
| Text.ParseIntSigned | whatsapp_webhook.py:20 | an optional '+' or '-' followed by digits reads as the digits' value, negated after '-' |
| Text.ParseIntRejects | whatsapp_webhook.py:20-22 | a stripped text holding any character other than a digit, except a leading sign, fails to read |
| Text.ParseIntNeedsDigit | whatsapp_webhook.py:20-22 | a stripped text without a digit, such as "", "+" or "-", fails to read |
| Text.Split | add_user.py:21 | a text always splits into at least one segment |
| Text.JoinSplit | add_user.py:21 | no segment holds the separator, and joining the segments with it gives the text back |
| Text.RemoveAll | whatsapp_webhook.py:106 | the result is no longer than the text, and a text without the pattern is unchanged |
| Dates.SubtractDays | reporte_programacion.py:18-20 | the result's day number is the date's minus `k`; there is no result exactly when that number leaves 0001-01-01..9999-12-31 |
| Dates.FromOrdinal | reporte_programacion.py:18-20 | the date built for a day number in range is a real date with that day number |
| Dates.FromOrdinalOfOrdinal | reporte_programacion.py:18-20 | day numbering is one-to-one: a date is rebuilt from its day number |
| Dates.OrdinalOrder | scheduler.py:102-104 | calendar order of two dates agrees with the order of their day numbers, and equality with equality |
| Dates.OrdinalRange | reporte_programacion.py:18-20 | every real date has a day number between 1 and that of 9999-12-31 |
| Dates.ParseFormatIso | gestor_avisos.py:51-56 | a real date written as YYYY-MM-DD reads back as itself |
| Dates.ParseIso | gestor_avisos.py:51-56 | a text that reads as a date gives a real date, and the text is exactly how that date is written |
| Dates.FormatIso | reporte_programacion.py:19 | a date is written in ten characters with '-' at positions 4 and 7 |
| Dates.DaysBetweenSign | scheduler.py:102-104 | the day difference is zero exactly for the same date, positive exactly when the second date is later, and negative exactly when it is earlier |
| Offsets.RangeDesc | whatsapp_webhook.py:23 | strictly descending, and holds exactly the input values between 5 and `v` |
| Offsets.Filtered | whatsapp_webhook.py:23 | strictly descending, every value in [5, 30], and holds exactly the in-range input values |
| Offsets.Canonical | whatsapp_webhook.py:23-24 | with no in-range value the fallback; otherwise distinct, strictly descending, in [5, 30], one to four values |
| Offsets.CanonicalKeepsLargest | whatsapp_webhook.py:23-24 | every kept value is an in-range input; an in-range input is dropped only when four values are kept and all exceed it |
| Offsets.DescendingUnique | whatsapp_webhook.py:23 | two strictly descending lists with the same elements are equal |
| Offsets.CanonicalOfWellFormed | whatsapp_webhook.py:23-24 | a list already in canonical form is its own canonical form |
| Offsets.NormalizeLenient | whatsapp_webhook.py:16-24 | always well formed; no words, a word that is not an integer, or no value in range give `[30, 20, 10, 5]`; otherwise the canonical form of the values |
| Offsets.NormalizeLenientIdempotent | whatsapp_webhook.py:16-24 | normalising the printed normalised list changes nothing |
| Offsets.SegmentValues | whatsapp_webhook.py:29 | at most one value per segment, all non-negative |
| Offsets.SegmentValuesAppend | whatsapp_webhook.py:29 | segments are read one at a time: the values of two lists of segments in a row are the values of each, in order |
| Offsets.SegmentValuesOne | whatsapp_webhook.py:29 | a list of one segment gives exactly that segment's value, if it has one |
| Offsets.ParseList | whatsapp_webhook.py:26-29 | the empty text reads as the empty list; every value read is non-negative |
| Offsets.ListRoundTrip | whatsapp_webhook.py:26-32 | reading back the comma-joined text of any list of non-negative values gives that list |
| Offsets.FormatList | whatsapp_webhook.py:31-32 | only the empty list is written as the empty text |
| Offsets.FormatListSplits | whatsapp_webhook.py:31-32 | splitting the text of a non-empty list at its commas gives each value's printed form, in order |
| Offsets.DefaultOffsetsRoundTrip | whatsapp_webhook.py:73 | the stored default text reads back as `[30, 20, 10, 5]` |
| Offsets.DefaultOffsetsText | whatsapp_webhook.py:73 | the default list is written as "30,20,10,5", the column default of models.py |
| Models.FindExam | whatsapp_webhook.py:148 | the index of the first exam with the course name, or none exactly when no exam has it |
| Models.FindExamUnique | whatsapp_webhook.py:148 | with unique course names, looking up any exam's course finds exactly that exam |
| Models.NormalizePhone | add_user.py:88 | always prefixed with "whatsapp:"; a prefixed number is kept, any other gets the prefix in front |
| Models.NormalizePhoneIdempotent | add_user.py:88 | normalising twice is normalising once |
| Webhook.DateIndex | whatsapp_webhook.py:173-177 | the first token of ten characters with exactly two '-', or none exactly when no token has that shape |
| Webhook.DigitTokens | whatsapp_webhook.py:138-143 | holds exactly the input tokens made only of digits |
| Webhook.NameTokensMembers | whatsapp_webhook.py:138-143 | a token is a name token exactly when it is an input token not made only of digits |
| Webhook.TokensPartition | whatsapp_webhook.py:138-143 | every token goes to exactly one of the two lists, which together are as long as the input |
| Messages.TokensAppend | whatsapp_webhook.py:139-143 | tokens are sorted one at a time: both lists of two token lists in a row are each list's, in order |
| Messages.NameTokensAppend | whatsapp_webhook.py:139-143 | the name tokens of two token lists in a row are those of each, in order |
| Messages.DigitTokensAppend | whatsapp_webhook.py:139-141 | the day tokens of two token lists in a row are those of each, in order |
| Messages.TokensOne | whatsapp_webhook.py:140-143 | a single token is a day exactly when it is made only of digits, and otherwise a name word |
| Messages.ParseSetCourseOf | whatsapp_webhook.py:137-146 | course words that are not digit runs, followed by digit runs, name that course joined by single spaces, with the normalised list of the digits |
| Webhook.ParseAddExam | whatsapp_webhook.py:166-186 | fewer than two tokens is a usage error; no date-shaped token is a missing-date error; otherwise the course is the tokens before the first date-shaped one, the date is that token, and the offsets are `[]` when nothing follows, else the normalised rest |
| Webhook.ParseChangeDate | whatsapp_webhook.py:210-218 | fewer than two tokens is a usage error; otherwise the last token is the date and the ones before it, joined by spaces, the course |
| Webhook.ParseUseGlobals | whatsapp_webhook.py:119-129 | the choice is "on" exactly when the upper-cased last word is SI, SÍ or YES, and "off" exactly when it is NO or N |
| Webhook.DetectKeyword | whatsapp_webhook.py:87-235 | each later command is detected only when the upper-cased message starts with its keyword |
| Webhook.FirstFiringUnique | whatsapp_webhook.py:87-235 | at most one command is the first whose test holds, so the chain's choice is determined |
| Webhook.DetectFirstFiring | whatsapp_webhook.py:82-235 | a non-empty message selects the first command, in the chain's order, whose test holds; no earlier test holds |
| Messages.DetectSetGlobals | whatsapp_webhook.py:104 | a message starting with SET GLOBALES and a space is detected as that command |
| Messages.DetectUseGlobals | whatsapp_webhook.py:118 | a message starting with USAR GLOBALES and a space is detected as that command |
| Messages.DetectSetCourse | whatsapp_webhook.py:134 | a message starting with SET CURSO and a space is detected as that command |
| Messages.DetectAddExam | whatsapp_webhook.py:164 | a message starting with AGREGAR EXAMEN and a space is detected as that command |
| Messages.DetectChangeDate | whatsapp_webhook.py:208 | a message starting with CAMBIAR FECHA and a space is detected as that command |
| Messages.DetectDeleteExam | whatsapp_webhook.py:235 | a message starting with ELIMINAR EXAMEN and a space is detected as that command |
| Webhook.ClassifyAnswers | whatsapp_webhook.py:82-252 | blank exactly for the empty message; "not understood" exactly when no test holds; otherwise the reading of the detected command |
| Webhook.ParseSetGlobals | whatsapp_webhook.py:104-107 | a SET GLOBALES message always yields a well-formed list |
| Messages.ClassifySetGlobals | whatsapp_webhook.py:104-107 | SET GLOBALES followed by day numbers sets the normalised list of those numbers |
| Messages.ClassifyUseGlobals | whatsapp_webhook.py:118-129 | USAR GLOBALES followed by one word: a yes word turns the flag on, a no word off, any other word is not a choice |
| Messages.ClassifySetCourse | whatsapp_webhook.py:134-146 | SET CURSO followed by course words and then day numbers names that course, joined by spaces, with the normalised days |
| Messages.ClassifyAddExamWords | whatsapp_webhook.py:164-167 | the words after AGREGAR EXAMEN are read exactly as written |
| Messages.ClassifyAddExam | whatsapp_webhook.py:164-186 | AGREGAR EXAMEN with course words, a date-shaped word and day numbers adds that course on that date, with `[]` when no days follow and otherwise the normalised days |
| Messages.ClassifyChangeDateWords | whatsapp_webhook.py:208-211 | the words after CAMBIAR FECHA are read exactly as written |
| Messages.ClassifyChangeDate | whatsapp_webhook.py:208-218 | CAMBIAR FECHA with course words and a last word moves that course to that word |
| Messages.ClassifyDeleteExam | whatsapp_webhook.py:235-237 | ELIMINAR EXAMEN names the course by the whole text after the keyword |
| Webhook.Detect | whatsapp_webhook.py:82-88 | the detected command guarantees what its arguments need: a word for USAR GLOBALES, the full keyword for the later commands |
| Webhook.ShownAvisos | whatsapp_webhook.py:38-43 | "uses defaults" exactly when the exam reads no offsets and the flag is on; otherwise its own list, or `[30, 20, 10, 5]` when it has none |
| Webhook.ExamLine | whatsapp_webhook.py:44 | each listing line starts with "- " and the course |
| Webhook.RenderListing | whatsapp_webhook.py:35-36 | the "no exams" sentence exactly when there are no lines |
| Webhook.ListingLines | whatsapp_webhook.py:37-44 | one line per exam, in order, each describing that exam |
| Webhook.PrettyExams | whatsapp_webhook.py:34-45 | the "no exams" sentence exactly when the user has no exams |
| Webhook.SetCourseStep | whatsapp_webhook.py:148-157 | a failure changes nothing; the phone, the zone, the number of exams and every course name are kept |
| Webhook.AddExamStep | whatsapp_webhook.py:188-200 | a failure changes nothing; the phone and zone are kept; unique course names stay unique |
| Webhook.ChangeDateStep | whatsapp_webhook.py:220-227 | a failure changes nothing; the phone, the zone, the number of exams and every course name are kept |
| Webhook.DeleteExamStep | whatsapp_webhook.py:238-245 | a failure changes nothing; the phone and zone are kept; unique course names stay unique |
| Webhook.Apply | whatsapp_webhook.py:91-252 | for every command: a rejected command changes nothing, the phone and zone never change, unique course names stay unique |
| Webhook.Respond | whatsapp_webhook.py:64-88 | the same three guarantees for a whole message from a registered number |
| Webhook.Handle | whatsapp_webhook.py:69-85 | the table gains at most the sender; an unknown sender is greeted; a rejected command leaves the table unchanged; a known sender keeps phone and zone |
| Webhook.HandleKnown | whatsapp_webhook.py:82-252 | for a registered sender: same keys, a rejected command leaves the table unchanged, phone and zone kept |
| Webhook.Store | whatsapp_webhook.py:110 | writing a record back keeps the keys, and writing back an unchanged record leaves the table unchanged |
| Webhook.StoreTouchesOnlyKey | whatsapp_webhook.py:110 | writing back one record leaves every other record as it was |
| Webhook.HandleTouchesOnlySender | whatsapp_webhook.py:62-254 | whatever the message, only the sender's record may change, and only a new sender adds a key |
| Webhook.NewChatUser | whatsapp_webhook.py:71-75 | the new record has the sender's number, the default zone, defaults written from `[30, 20, 10, 5]`, the flag on and no exams |
| Webhook.NewChatUserOffsets | whatsapp_webhook.py:73 | the new record's defaults read back as `[30, 20, 10, 5]` |
| Webhook.Register | whatsapp_webhook.py:69-80 | the new number's record is added, every other record is kept, and the greeting is the reply |
| Webhook.UnknownNumberRegisters | whatsapp_webhook.py:69-80 | an unknown number gets a record with defaults "30,20,10,5", the flag on and no exams, plus the greeting; its command is not run |
| Webhook.UseGlobalsEffect | whatsapp_webhook.py:118-131 | SI/SÍ/YES turn the flag on, NO/N turn it off, any other word changes nothing and gets the usage reply |
| Webhook.SetGlobalsEffect | whatsapp_webhook.py:104-111 | the stored defaults read back as the normalised list, the flag is on, the exams are untouched |
| Webhook.SetCourseEffect | whatsapp_webhook.py:134-161 | an unknown course changes nothing; otherwise only that exam's offsets change, to text reading back as the list, and the flag goes off |
| Webhook.AddExamEffect | whatsapp_webhook.py:164-205 | a duplicate course changes nothing; otherwise exactly one exam is appended with that course and date, and its offsets text is "" for none and otherwise reads back as the list |
| Webhook.ChangeDateEffect | whatsapp_webhook.py:208-232 | an unknown course changes nothing; otherwise only that exam's date changes |
| Webhook.DeleteExamEffect | whatsapp_webhook.py:235-250 | an unknown course changes nothing; otherwise the first matching exam is removed, the rest keep their order, and under unique names no exam with that course remains |
| Webhook.HandleKeepsCoursesUnique | whatsapp_webhook.py:62-254 | if every user's course names are unique before a message, they are after it |
| WebhookBackup.DetectKeyword | whatsapp_webhook_backup.py:68-107 | only MENU, MIS EXAMENES, SET GLOBALES, USAR GLOBALES or nothing is detected, and USAR GLOBALES only with a word |
| WebhookBackup.Detect | whatsapp_webhook_backup.py:64-69 | the detected command guarantees what its arguments need |
| WebhookBackup.DetectAgreesWithLive | whatsapp_webhook_backup.py:68-107 | the older chain detects what the live one does, except that the four later commands fall through to nothing |
| WebhookBackup.InterpretLater | whatsapp_webhook_backup.py:68-107 | a later keyword is exactly what yields one of the later commands |
| WebhookBackup.ClassifyAgreesWithLive | whatsapp_webhook_backup.py:68-108 | every message is read as the live webhook reads it, except that the later commands become "not understood" |
| WebhookBackup.ShownAvisos | whatsapp_webhook_backup.py:33 | the raw offsets text exactly when it is non-empty, else "uses defaults" with the user's defaults |
| WebhookBackup.PrettyExams | whatsapp_webhook_backup.py:30-35 | the "no exams" sentence exactly when the user has no exams |
| WebhookBackup.ListingsAgreeWhenFlagOn | whatsapp_webhook_backup.py:33 | with the flag on, both listings show "uses defaults" for an exam without offsets |
| WebhookBackup.ListingsDisagreeWhenFlagOff | whatsapp_webhook.py:40-43 | with the flag off, the older listing says "uses defaults" while the live one shows `[30, 20, 10, 5]` |
| WebhookBackup.Apply | whatsapp_webhook_backup.py:77-105 | exams are never changed, phone and zone are kept, a rejected command changes nothing |
| WebhookBackup.Handle | whatsapp_webhook_backup.py:59-66 | an unknown number is exactly the case answered "not registered", and it changes nothing; no key is ever added; exams and phone never change |
| WebhookBackup.HandleTouchesOnlySender | whatsapp_webhook_backup.py:59-107 | only the sender's record may change |
| Scheduler.DaysLeft | scheduler.py:96-102 | there is a day count exactly when the date text parses |
| Scheduler.Resolve | scheduler.py:106-107 | the exam's own list when it reads as non-empty, else the user's defaults when they read as non-empty, else `[30, 20, 10, 5]`; so never empty |
| Scheduler.DueNotices | scheduler.py:95-119 | at most one reminder per exam, none for a past day |
| Scheduler.DueNoticesSound | scheduler.py:95-119 | every reminder listed is for one of the exams, due today |
| Scheduler.DueNoticesComplete | scheduler.py:109-119 | every exam due today is listed |
| Scheduler.PastExamNeverDue | scheduler.py:102-104 | an exam dated before today is never due, whatever its offsets |
| Scheduler.Due | scheduler.py:96-109 | a due exam has a readable date, not before today, whose days left are among its resolved offsets |
| Scheduler.DueIffOffset | scheduler.py:106-109 | an exam dated today or later is due exactly when the days left are among its resolved offsets |
| Scheduler.DueNoticesIgnoreFlag | scheduler.py:85 | the "use defaults" flag has no effect on which reminders are due |
| Scheduler.Generate | scheduler.py:44-62 | at most one message per exam, each for exactly `days` days |
| Scheduler.GenerateExactly | scheduler.py:49-61 | a message is for one of the exams, whose date parses and lies `days` away, and every such exam gets one |
| Scheduler.GenerateAppend | scheduler.py:49-61 | messages follow exam order: generating for two lists in a row is generating for each |
| Scheduler.DueNoticesAsGenerate | scheduler.py:44-62 | when every exam resolves to the single offset `days`, the run's due reminders are what `generar_mensajes_recordatorio` yields |
| Scheduler.Addressed | scheduler.py:118 | one send per reminder, in order, to the given phone |
| Scheduler.UserSends | scheduler.py:109-118 | one send for each of the user's due reminders |
| Scheduler.UserSendsMembers | scheduler.py:109-118 | a send is for the user exactly when it goes to the user's phone and carries one of the user's due reminders |
| Scheduler.Awake | scheduler.py:86-93 | a served user's zone is known and, with the hour check on, the local hour there is 8 |
| Scheduler.SweepStops | scheduler.py:84-119 | the loop ends on an unknown zone exactly when some user's zone is unknown, and names an unknown zone |
| Scheduler.SweepSound | scheduler.py:89-119 | every send goes to a served user and carries one of that user's due reminders |
| Scheduler.SweepComplete | scheduler.py:95-119 | a run that completes sends every due reminder of every served user |
| Scheduler.SweepAppend | scheduler.py:84-86 | when every zone of a first group of users is known, the run over that group and then the rest sends the group's messages followed by the rest's, and ends as the rest's run ends |
| Scheduler.RunOnce | scheduler.py:72-77 | the missing-credentials status comes exactly from a real run without credentials, and then nothing is sent |
| Scheduler.ModesAgree | scheduler.py:28-31 | a dry run never needs credentials, and it picks the same reminders as a real run with credentials |
| Scheduler.HourGate | scheduler.py:89-93 | with the hour check on, a user whose local hour is not 8 and whose phone no other user shares receives nothing |
| Scheduler.RunSendsEveryDue | scheduler.py:102-119 | a completed run sends every due exam of every served user, and no send is for a past day |
| Scheduler.ReminderBody | scheduler.py:110-117 | the message names the course and the day count, each between asterisks |
| Scheduler.GeneratedBody | scheduler.py:56-61 | the message names the course and the day count, each between asterisks |
| Gestor.GestorDefaultWellFormed | gestor_avisos.py:12 | the tool's default `[30, 10, 5]` is itself in canonical form |
| Gestor.NormalizeValues | gestor_avisos.py:27-37 | always well formed; no list, or no value in range, gives `[30, 10, 5]`; otherwise the canonical form |
| Gestor.NormalizeStrict | gestor_avisos.py:27-37 | fails exactly when some word is not an integer; no words give `[30, 10, 5]`; a result is always well formed |
| Gestor.StrictMatchesLenient | gestor_avisos.py:27-37 | when all words are integers and one is in range, the strict and lenient normalisers agree |
| Gestor.StrictFallsBackElsewhere | gestor_avisos.py:35-36 | when no value is in range, the strict one gives `[30, 10, 5]` and the lenient one `[30, 20, 10, 5]` |
| Gestor.StrictFailsWhereLenientFallsBack | gestor_avisos.py:30-33 | a word that is not an integer fails the strict one and sends the lenient one to its default |
| Gestor.FindStudent | gestor_avisos.py:39-43 | the first student with the name, or none exactly when no student has it |
| Gestor.FindCourse | gestor_avisos.py:45-49 | the first exam with the course, or none exactly when no exam has it |
| Gestor.ValidDateIffWritten | gestor_avisos.py:51-56 | a text is accepted exactly when it is how some real date is written |
| Gestor.ValidDate | gestor_avisos.py:51-56 | an accepted text is ten characters with '-' at positions 4 and 7 |
| Gestor.StrictOkIff | gestor_avisos.py:30-33 | the strict normaliser succeeds exactly when every word is an integer |
| Gestor.SetGlobals | gestor_avisos.py:135-155 | unknown student or a non-integer word fails; otherwise only that student changes: defaults become the normalised list, and the flag changes only when exactly one flag is given, to that flag |
| Gestor.SetCourse | gestor_avisos.py:157-174 | unknown student or course fails; otherwise only that exam's offsets change, to the normalised list |
| Gestor.WithAvisos | gestor_avisos.py:188-189 | every exam gets the list and nothing else |
| Gestor.CopyToAll | gestor_avisos.py:176-195 | unknown student or course fails, and otherwise it succeeds; every exam of the student gets the source exam's normalised list, and the flag goes off |
| Gestor.AddExam | gestor_avisos.py:197-221 | unknown student, invalid date or existing course fail, in that order; otherwise exactly one exam is appended at the end, with `[]` offsets when none are given |
| Gestor.UpdateDate | gestor_avisos.py:223-243 | unknown student, invalid date or unknown course fail, in that order; otherwise only that exam's date changes |
| Gestor.RenameExam | gestor_avisos.py:245-268 | unknown student or course fails; a new name already used by any exam, the target included, fails; otherwise only the target's name changes |
| Gestor.DeleteExam | gestor_avisos.py:270-285 | unknown student or course fails; otherwise the first matching exam is removed and the rest keep their order |
| Gestor.SetGlobalsSucceeds | gestor_avisos.py:135-155 | with the student present, set-globales fails exactly on a word that is not an integer |
| Gestor.SetCourseSucceeds | gestor_avisos.py:157-174 | with the student and the course present, set-curso fails exactly on a word that is not an integer, and with that error |
| Gestor.AddExamSucceeds | gestor_avisos.py:197-221 | with the student present, a valid date and a new course, add-examen succeeds exactly when no offsets are given or every word is an integer |
| Gestor.UpdateDateSucceeds | gestor_avisos.py:223-243 | with the student present, a valid date and the course present, update-fecha succeeds |
| Gestor.RenameSucceeds | gestor_avisos.py:245-268 | with the student and the course present and the new name unused, rename-examen succeeds |
| Gestor.DeleteSucceeds | gestor_avisos.py:270-285 | with the student and the course present, delete-examen succeeds |
| Gestor.ReplaceKeepsUnique | gestor_avisos.py:152 | replacing one student by one with unique course names keeps the roster unique |
| Gestor.SameCoursesKeepUnique | gestor_avisos.py:169-170 | changing anything but course names keeps names unique |
| Gestor.SameCoursesKeepRosterUnique | gestor_avisos.py:169-171 | the same for the whole roster |
| Gestor.AppendKeepsUnique | gestor_avisos.py:207-217 | appending an exam under an unused name keeps names unique |
| Gestor.SetGlobalsKeepsUnique | gestor_avisos.py:135-155 | set-globales keeps every student's course names unique |
| Gestor.SetCourseKeepsUnique | gestor_avisos.py:157-174 | set-curso keeps every student's course names unique |
| Gestor.CopyToAllKeepsUnique | gestor_avisos.py:176-195 | copiar-a-todos keeps every student's course names unique |
| Gestor.AddExamKeepsUnique | gestor_avisos.py:197-221 | add-examen keeps every student's course names unique |
| Gestor.UpdateDateKeepsUnique | gestor_avisos.py:223-243 | update-fecha keeps every student's course names unique |
| Gestor.RenameKeepsUnique | gestor_avisos.py:256-263 | rename-examen keeps every student's course names unique |
| Gestor.DeleteKeepsUnique | gestor_avisos.py:276-281 | delete-examen keeps every student's course names unique |
| Registration.ValidateZone | add_user.py:13-16 | accepted exactly when the zone is known, and then returned unchanged |
| Registration.ValidateOffsets | add_user.py:19-26 | format error exactly when some segment is not an integer; below-minimum error exactly when they all are but one is under 5; an accepted text reads back as the values in input order |
| Registration.SegmentsFail | add_user.py:20-23 | the list fails to read exactly when one segment does |
| Registration.SegmentsBelowMin | add_user.py:24-25 | the list has a value under 5 exactly when one segment reads as one |
| Registration.ValidateOffsetsIdempotent | add_user.py:19-26 | validating an accepted text again gives the same result |
| Registration.ValidateOffsetsAcceptsAsWritten | add_user.py:24-26 | any non-empty list of values of at least 5 is accepted as written: no sorting, no dedup, no upper bound |
| Registration.ExamOffsets | add_user.py:58 | a missing or empty third part gives "30,20,10,5"; otherwise the third part's validation |
| Registration.DefaultGlobalsAccepted | add_user.py:8 | the default text passes the minimum |
| Registration.WrittenListAccepted | add_user.py:26 | a written list of values of at least 5 reads back as such a list |
| Registration.StrippedParts | add_user.py:53 | one part per '|' segment, each stripped |
| Registration.ParseExamArg | add_user.py:52-59 | fewer than two parts is exactly the format error; course and date are the first two stripped parts; offsets are the default without a third part and at least 5 otherwise |
| Registration.MapAll | add_user.py:52-60 | all results in order when each succeeds, else the error of the first failing element |
| Registration.ParseExamArgs | add_user.py:44-60 | same length and order as the arguments when each one parses, else the error of the first bad one |
| Registration.Materialize | add_user.py:97-103 | one exam per argument, in order, with a missing offsets entry replaced by "30,20,10,5" |
| Registration.Register | add_user.py:83-107 | the number is normalised; the count is the number of exams given; only that number's record changes; an existing user gets the exams appended and a new one is created with the default fields and the zone given |
| Registration.RegisterTwice | add_user.py:90-103 | registering a new number twice makes one user holding both batches in order, with the first zone |
| Registration.RegisterPrefixInsensitive | add_user.py:88 | a number written with or without the prefix reaches the same user |
| Repairs.Differences | fix_avisos.py:13-15 | the count is at most the length, and zero exactly when nothing differs |
| Repairs.Pass | fix_avisos.py:9-15 | every element replaced by its repair, in order; the counter is the number of elements that changed |
| Repairs.SecondPassIdle | fix_numbers.py:9-13 | when a repair is idempotent, a second pass changes nothing and counts zero |
| FixAvisos.KeepAtLeast | fix_avisos.py:11 | all values at least 5; the kept values are the input's values of at least 5 with their multiplicities |
| FixAvisos.KeepAtLeastOfLarge | fix_avisos.py:11 | a list with all values at least 5 is kept as is |
| FixAvisos.Insert | fix_avisos.py:11 | inserting into a descending list gives a descending list with one more occurrence of the value |
| FixAvisos.SortDesc | fix_avisos.py:11 | descending, and a permutation of the input |
| FixAvisos.SortDescOfDescending | fix_avisos.py:11 | a descending list is sorted to itself |
| FixAvisos.HeadIsMax | fix_avisos.py:11 | the head of a descending list bounds every element |
| FixAvisos.DescendingUnique | fix_avisos.py:11 | two descending lists with the same multiset are equal, so the sort is determined |
| FixAvisos.Prune | fix_avisos.py:11 | descending, all values at least 5, and the input's values of at least 5 with their multiplicities (duplicates kept, no upper bound) |
| FixAvisos.Repaired | fix_avisos.py:10-11 | the same facts about the digit segments of the stored text |
| FixAvisos.DigitSegmentsOfFormat | fix_avisos.py:10-14 | the digit segments of a written list of non-negative values are the list |
| FixAvisos.FixExam | fix_avisos.py:13-14 | course and date kept; the exam is rewritten exactly when its list differs from the repaired one, and the new text reads as the repaired list |
| FixAvisos.FixExamIdempotent | fix_avisos.py:10-14 | a repaired exam needs no repair |
| FixAvisos.FixPass | fix_avisos.py:9-15 | courses and dates kept; each exam changes exactly when it needs the repair; afterwards none needs it; the counter is the number of changed exams |
| FixAvisos.FixPassIdle | fix_avisos.py:9-15 | a second pass changes nothing and counts zero |
| FixNumbers.FixUser | fix_numbers.py:10-12 | the phone becomes its normalised form, nothing else changes, and the user is unchanged exactly when already prefixed |
| FixNumbers.FixPass | fix_numbers.py:9-13 | afterwards every phone is prefixed; only phones change; a user changes exactly when not prefixed; the counter is the number changed, zero exactly when all were prefixed |
| FixNumbers.FixPassIdle | fix_numbers.py:9-13 | a second pass changes nothing and counts zero |
| Report.ReminderDates | reporte_programacion.py:18-22 | at most one date per offset |
| Report.Prepend | reporte_programacion.py:18-22 | a failure on either side fails the whole; otherwise one date is added exactly when it is not before today |
| Report.ReminderDatesInRange | reporte_programacion.py:21 | every listed date is a real date no earlier than today |
| Report.ReminderDatesFails | reporte_programacion.py:19 | the calendar fails exactly when subtracting some offset leaves the representable dates |
| Report.ReminderDatesOrigin | reporte_programacion.py:18-20 | every listed date is the exam date minus one of the offsets |
| Report.ReminderDatesAppend | reporte_programacion.py:18-22 | the calendar of two offset lists in a row is the two calendars in a row: offset order, duplicates included |
| Report.PrependConcat | reporte_programacion.py:18-22 | adding one date in front commutes with appending later dates |
| Report.ReminderListedIff | reporte_programacion.py:21 | a single offset yields its date exactly when it is at most the number of days left, and nothing exactly when it is more |
| Report.RenderDates | reporte_programacion.py:23 | "Ninguno" exactly when there are no dates; otherwise the text starts with the first date in ISO form |
| Report.ReportLine | reporte_programacion.py:16-23 | an unreadable date is exactly the date error; otherwise the line is "Ninguno" exactly when no date is listed |
| Report.MissingOffsetsDefault | reporte_programacion.py:17 | an exam without offsets is reported as if it listed 3, 2 and 1 |

## Left out

- Flask routing, the Twilio client and reply object, and SQLAlchemy sessions, commits and schema: these are I/O. Records are immutable values, and a table is a `map` keyed by phone number.
- pytz: the set of known zones and each zone's current local hour are inputs.
- `random.choice`, `date.today()` and `datetime.now()`: the quote index and the day are inputs.
- Printed and help texts are left out. Replies are tags. Only the reminder bodies are built as text.
- The send outcome and the transport are left out. The run's counter is the length of the sends, which is what the code counts whatever delivery does.
- argparse and the JSON load and save of the roster editor are left out. A command gets its arguments as values and returns the new roster instead of saving it.
- The interactive `input()` loops of the registration script, its `main` functions, and `merge_users.py` are left out. They are interaction, or their effect rests on ORM cascade behaviour.
- The I/O-only scripts are left out: the app entry point, the test-message sender, the database viewers, the data loaders, the Madrid and time-zone fix scripts, and the simulation scripts.
- There is no dedup ledger and no locking, as in the code: every run sends every due reminder again.
- Text.Upper: letters beyond Latin-1 (Greek, Cyrillic and the rest) are left unchanged, where Python upper-cases them. 'ß' is kept as it is, where Python writes "SS".
- Text.IsDigits: only the ASCII digits count. `str.isdigit()` also accepts other Unicode digits such as '٣', so SET CURSO files such a token under the course name where the code reads it as a day.
- Text.IsSpace: only the ASCII white-space characters count. Unicode spaces such as U+00A0 are outside the model.
- Text.ParseInt: Python's `int()` also accepts '_' digit separators and non-ASCII digits. Both are outside the model.
- Models.FindExam: the lookup by course takes the first exam in insertion order, while the query has no ORDER BY, so the database may return another one. This matters only when course names repeat, which registration allows. Webhook.DeleteExamStep and the other steps inherit this.
- Dates.ParseIso: only the canonical YYYY-MM-DD form is accepted. `strptime` also takes one-digit months and days such as "2025-8-1". Gestor.ValidDate, Scheduler.DaysLeft and Report.ReportLine inherit this.
- Gestor.NormalizeValues: JSON offsets are assumed to be integers. A string or float entry, which `int()` would convert or reject, is outside the model.
- Report.ReportLine: a bad date or an overflow stops the whole script. The model reports the error for that exam and does not model that the remaining exams are never printed.
- FixNumbers.FixPass: a repaired number can collide with an existing one under the table's unique constraint, which fails at commit. That failure is not modelled.
- FixAvisos.FixPass: a NULL offsets column would make the script raise. Columns are modelled as text, with "" for empty.
- The registration test that reads attributes off the returned dictionary contradicts the code. The model follows the code, which returns the normalised number and the count.
