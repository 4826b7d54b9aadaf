/** Command-line registration (`add_user.py`): validating an offsets argument, reading the
    repeated `Course|YYYY-MM-DD|offsets` arguments, normalising a phone number and the
    upsert that appends exams to a user, creating the user when the number is new. */
module Registration {
  import opened Outcomes
  import opened Text
  import opened Offsets
  import opened Models

  /** The smallest offset `validar_avisos` accepts. */
  const MinOffset: int := 5

  datatype RegError =
    | BadZone(zone: string)
    | BadOffsetFormat
    | OffsetBelowMin
    | BadExamFormat(raw: string)

  /** `validar_timezone`: the zone database is a parameter. */
  function ValidateZone(zones: set<string>, tz: string): (r: Result<string, RegError>)
    ensures r.Ok? <==> tz in zones
    ensures r.Ok? ==> r.value == tz
    ensures r.Err? ==> r.error == BadZone(tz)
  {
    if tz in zones then Ok(tz) else Err(BadZone(tz))
  }

  /** No value is below the minimum. */
  predicate AllAtLeastMin(xs: seq<int>) {
    forall k :: 0 <= k < |xs| ==> xs[k] >= MinOffset
  }

  /** `validar_avisos`: every comma segment must be an integer (else a format error), then
      every value must be at least 5; the values come back comma-joined in input order,
      with no sorting, deduplication or upper bound. */
  function ValidateOffsets(s: string): (r: Result<string, RegError>)
    ensures r == Err(BadOffsetFormat) <==> ParseAll(Split(s, ',')).None?
    ensures r == Err(OffsetBelowMin) <==>
      ParseAll(Split(s, ',')).Some? && !AllAtLeastMin(ParseAll(Split(s, ',')).value)
    ensures r.Err? ==> r.error == BadOffsetFormat || r.error == OffsetBelowMin
    ensures r.Ok? ==> ParseAll(Split(s, ',')).Some?
    ensures r.Ok? ==> ParseList(r.value) == ParseAll(Split(s, ',')).value
    ensures r.Ok? ==> AllAtLeastMin(ParseList(r.value))
  {
    match ParseAll(Split(s, ','))
    case None => Err(BadOffsetFormat)
    case Some(xs) =>
      if !AllAtLeastMin(xs) then Err(OffsetBelowMin)
      else
        ListRoundTrip(xs);
        Ok(FormatList(xs))
  }

  /** The whole list fails to read exactly when one segment does. */
  lemma SegmentsFail(segs: seq<string>)
    ensures ParseAll(segs).None? <==> exists k :: 0 <= k < |segs| && ParseInt(segs[k]).None?
  {
    if ParseAll(segs).None? {
      var k :| 0 <= k < |segs| && !ParseInt(segs[k]).Some?;
    }
  }

  /** A read list has a value below the minimum exactly when one segment reads as one. */
  lemma SegmentsBelowMin(segs: seq<string>)
    requires ParseAll(segs).Some?
    ensures !AllAtLeastMin(ParseAll(segs).value) <==>
      exists k :: 0 <= k < |segs| && ParseInt(segs[k]).value < MinOffset
  {
    var xs := ParseAll(segs).value;
    if !AllAtLeastMin(xs) {
      var k :| 0 <= k < |xs| && xs[k] < MinOffset;
      assert ParseInt(segs[k]).value == xs[k];
    }
  }

  /** Validating an accepted offsets text again gives the same text back. */
  lemma ValidateOffsetsIdempotent(s: string)
    requires ValidateOffsets(s).Ok?
    ensures ValidateOffsets(ValidateOffsets(s).value) == ValidateOffsets(s)
  {
    var xs := ParseAll(Split(s, ',')).value;
    assert ValidateOffsets(s) == Ok(FormatList(xs));
    assert |xs| >= 1 && AllAtLeastMin(xs);
    ValidateOffsetsAcceptsAsWritten(xs);
  }

  /** Any non-empty list of values of at least 5 is accepted as written: no sorting, no
      deduplication, no upper bound. */
  lemma ValidateOffsetsAcceptsAsWritten(xs: seq<int>)
    requires |xs| >= 1 && AllAtLeastMin(xs)
    ensures ValidateOffsets(FormatList(xs)) == Ok(FormatList(xs))
  {
    var parts := IntStrings(xs);
    forall k | 0 <= k < |parts| ensures ',' !in parts[k] {
      IntToStringNoSep(xs[k], ',');
    }
    SplitJoin(parts, ',');
    ParseAllOfIntStrings(xs);
  }

  /** The offsets text of a registered exam: the default list unless the argument gives one. */
  function ExamOffsets(parts: seq<string>): (r: Result<string, RegError>)
    ensures (|parts| < 3 || parts[2] == "") ==> r == Ok(DefaultGlobals)
    ensures (|parts| >= 3 && parts[2] != "") ==> r == ValidateOffsets(parts[2])
    ensures r.Ok? ==> AllAtLeastMin(ParseList(r.value)) && r.value != ""
  {
    if |parts| < 3 || parts[2] == "" then
      DefaultGlobalsAccepted();
      Ok(DefaultGlobals)
    else
      var v := ValidateOffsets(parts[2]);
      assert v.Ok? ==> |ParseList(v.value)| >= 1;
      v
  }

  /** The column default itself passes the minimum. */
  lemma DefaultGlobalsAccepted()
    ensures DefaultGlobals != "" && AllAtLeastMin(ParseList(DefaultGlobals))
  {
    DefaultOffsetsText();
    WrittenListAccepted(DefaultOffsets, DefaultGlobals);
  }

  /** A written list of values of at least 5 reads back as such a list. */
  lemma WrittenListAccepted(xs: seq<int>, t: string)
    requires AllAtLeastMin(xs) && t == FormatList(xs)
    ensures AllAtLeastMin(ParseList(t))
  {
    ListRoundTrip(xs);
  }

  /** Each '|'-separated part of the argument, with its surrounding white space removed. */
  function StrippedParts(raw: string): (parts: seq<string>)
    ensures |parts| == |Split(raw, '|')|
    ensures forall k :: 0 <= k < |parts| ==> parts[k] == Strip(Split(raw, '|')[k])
  {
    var segs := Split(raw, '|');
    seq(|segs|, k requires 0 <= k < |segs| => Strip(segs[k]))
  }

  /** One `--examen` argument: course and date are the first two stripped parts; fewer than
      two parts is a format error; the optional third part is validated as offsets. */
  function ParseExamArg(raw: string): (r: Result<Exam, RegError>)
    ensures |Split(raw, '|')| < 2 <==> r == Err(BadExamFormat(raw))
    ensures r.Ok? ==> && r.value.course == Strip(Split(raw, '|')[0])
                      && r.value.date == Strip(Split(raw, '|')[1])
    ensures r.Ok? ==> AllAtLeastMin(ParseList(r.value.avisos))
    ensures r.Ok? && |Split(raw, '|')| < 3 ==> r.value.avisos == DefaultGlobals
    ensures r.Err? && |Split(raw, '|')| >= 2 ==> r.error == BadOffsetFormat || r.error == OffsetBelowMin
    ensures |Split(raw, '|')| >= 2 ==>
      var offs := ExamOffsets(StrippedParts(raw));
      && (r.Ok? <==> offs.Ok?)
      && (r.Ok? ==> r.value.avisos == offs.value)
      && (r.Err? ==> r.error == offs.error)
  {
    var parts := StrippedParts(raw);
    if |parts| < 2 then Err(BadExamFormat(raw))
    else
      match ExamOffsets(parts)
      case Err(e) => Err(e)
      case Ok(avisos) => Ok(Exam(parts[0], parts[1], avisos))
  }

  /** `f` applied to every element in order: all the values when every result is `Ok`,
      else the first error. */
  function MapAll<A, T, E>(f: A -> Result<T, E>, xs: seq<A>): (r: Result<seq<T>, E>)
    ensures r.Ok? <==> forall i :: 0 <= i < |xs| ==> f(xs[i]).Ok?
    ensures r.Ok? ==> |r.value| == |xs|
    ensures r.Ok? ==> forall i :: 0 <= i < |xs| ==> r.value[i] == f(xs[i]).value
    ensures r.Err? ==> exists i :: && 0 <= i < |xs|
                                   && (forall j :: 0 <= j < i ==> f(xs[j]).Ok?)
                                   && f(xs[i]) == Err(r.error)
  {
    if |xs| == 0 then Ok([])
    else
      match f(xs[0])
      case Err(e) => Err(e)
      case Ok(x) =>
        match MapAll(f, xs[1..])
        case Err(e) =>
          ghost var i :| && 0 <= i < |xs| - 1
                         && (forall j :: 0 <= j < i ==> f(xs[1..][j]).Ok?)
                         && f(xs[1..][i]) == Err(e);
          assert forall j :: 0 <= j < i + 1 ==> f(xs[j]).Ok? by {
            forall j | 0 <= j < i + 1 ensures f(xs[j]).Ok? {
              if j > 0 { assert xs[j] == xs[1..][j - 1]; }
            }
          }
          assert xs[i + 1] == xs[1..][i];
          Err(e)
        case Ok(rest) =>
          assert forall i :: 1 <= i < |xs| ==> xs[i] == xs[1..][i - 1];
          Ok([x] + rest)
  }

  /** `parsear_examenes_args`: every argument in order, or the error of the first bad one. */
  function ParseExamArgs(args: seq<string>): (r: Result<seq<Exam>, RegError>)
    ensures r.Ok? <==> forall i :: 0 <= i < |args| ==> ParseExamArg(args[i]).Ok?
    ensures r.Ok? ==> |r.value| == |args|
    ensures r.Ok? ==> forall i :: 0 <= i < |args| ==> r.value[i] == ParseExamArg(args[i]).value
    ensures r.Err? ==> exists i :: && 0 <= i < |args|
                                   && (forall j :: 0 <= j < i ==> ParseExamArg(args[j]).Ok?)
                                   && ParseExamArg(args[i]) == Err(r.error)
  {
    MapAll(ParseExamArg, args)
  }

  /** An exam as handed to the upsert: its offsets entry may be absent. */
  datatype ExamArg = ExamArg(course: string, date: string, avisos: Option<string>)

  /** The exam records the upsert creates: an absent offsets entry becomes the default text. */
  function Materialize(args: seq<ExamArg>): (r: seq<Exam>)
    ensures |r| == |args|
    ensures forall i :: 0 <= i < |args| ==> && r[i].course == args[i].course
                                            && r[i].date == args[i].date
    ensures forall i :: 0 <= i < |args| ==>
      r[i].avisos == (if args[i].avisos.Some? then args[i].avisos.value else DefaultGlobals)
  {
    seq(|args|, i requires 0 <= i < |args| =>
      Exam(args[i].course, args[i].date, if args[i].avisos.Some? then args[i].avisos.value else DefaultGlobals))
  }

  /** What `registrar_usuario_db` reports back. */
  datatype Receipt = Receipt(phone: string, added: nat)

  /** `registrar_usuario_db` over a table keyed by stored phone number. */
  function Register(db: map<string, User>, tel: string, tz: string, exams: seq<ExamArg>)
    : (r: (map<string, User>, Receipt))
    ensures r.1.phone == NormalizePhone(tel) && r.1.added == |exams|
    ensures r.0.Keys == db.Keys + {r.1.phone}
    ensures forall p :: p in db && p != r.1.phone ==> r.0[p] == db[p]
    ensures r.1.phone in db ==>
      r.0[r.1.phone] == db[r.1.phone].(exams := db[r.1.phone].exams + Materialize(exams))
    ensures r.1.phone !in db ==>
      r.0[r.1.phone] == User(r.1.phone, DefaultGlobals, true, tz, Materialize(exams))
  {
    var phone := NormalizePhone(tel);
    var u := if phone in db then db[phone] else User(phone, DefaultGlobals, true, tz, []);
    (db[phone := u.(exams := u.exams + Materialize(exams))], Receipt(phone, |exams|))
  }

  /** Registering the same number twice keeps one user holding both batches, in order;
      the second call's zone is ignored. */
  lemma RegisterTwice(db: map<string, User>, tel: string, tz1: string, tz2: string,
                      a: seq<ExamArg>, b: seq<ExamArg>)
    requires NormalizePhone(tel) !in db
    ensures var (db1, _) := Register(db, tel, tz1, a);
            var (db2, rc) := Register(db1, tel, tz2, b);
            && db2.Keys == db.Keys + {rc.phone}
            && db2[rc.phone].zone == tz1
            && db2[rc.phone].exams == Materialize(a) + Materialize(b)
  {
  }

  /** A stored number written with or without the prefix reaches the same user. */
  lemma RegisterPrefixInsensitive(db: map<string, User>, tel: string, tz: string, exams: seq<ExamArg>)
    ensures Register(db, PhonePrefix + tel, tz, exams) == Register(db, tel, tz, exams)
            || StartsWith(tel, PhonePrefix)
  {
    assert (PhonePrefix + tel)[..|PhonePrefix|] == PhonePrefix;
  }
}
