/** The database records of `models.py`: a user (one per WhatsApp number) owning an ordered
    list of exams. Offsets are stored as comma-separated text and exam dates as raw text,
    exactly as the columns hold them; nothing here validates them. */
module Models {
  import opened Outcomes
  import opened Text

  /** Column default of `avisos_globales`. */
  const DefaultGlobals: string := "30,20,10,5"
  /** Column default of `timezone`. */
  const DefaultZone: string := "America/Lima"
  /** The prefix every WhatsApp address carries. */
  const PhonePrefix: string := "whatsapp:"

  /** `Examen`: course name, date text (meant to be YYYY-MM-DD) and per-exam offsets text
      ("" means none of its own). */
  datatype Exam = Exam(course: string, date: string, avisos: string)

  /** `Usuario`: number, default offsets text, the "use defaults" flag, time-zone name and exams. */
  datatype User = User(phone: string, globals: string, useGlobals: bool, zone: string, exams: seq<Exam>)

  /** No two exams of one user share a course name. */
  predicate UniqueCourses(exams: seq<Exam>) {
    forall i, j :: 0 <= i < j < |exams| ==> exams[i].course != exams[j].course
  }

  /** The first of the user's exams with the given course name, as the webhook's lookup by
      user and course returns it. */
  function FindExam(exams: seq<Exam>, course: string): (r: Option<nat>)
    ensures r.Some? ==> r.value < |exams| && exams[r.value].course == course
    ensures r.Some? ==> forall j :: 0 <= j < r.value ==> exams[j].course != course
    ensures r.None? <==> forall j :: 0 <= j < |exams| ==> exams[j].course != course
  {
    if |exams| == 0 then None
    else if exams[0].course == course then Some(0)
    else match FindExam(exams[1..], course)
      case None => None
      case Some(i) => Some(i + 1)
  }

  /** Under unique course names the first match is the only match. */
  lemma FindExamUnique(exams: seq<Exam>, course: string, j: nat)
    requires UniqueCourses(exams)
    requires j < |exams| && exams[j].course == course
    ensures FindExam(exams, course) == Some(j)
  {
  }

  /** The phone number as stored: "whatsapp:" is added exactly when it is missing. */
  function NormalizePhone(tel: string): (r: string)
    ensures StartsWith(r, PhonePrefix)
    ensures StartsWith(tel, PhonePrefix) ==> r == tel
    ensures !StartsWith(tel, PhonePrefix) ==> r == PhonePrefix + tel
  {
    if StartsWith(tel, PhonePrefix) then tel
    else
      assert (PhonePrefix + tel)[..|PhonePrefix|] == PhonePrefix;
      PhonePrefix + tel
  }

  lemma NormalizePhoneIdempotent(tel: string)
    ensures NormalizePhone(NormalizePhone(tel)) == NormalizePhone(tel)
  {
  }
}
