/** The offsets repair pass (`fix_avisos.py`): every exam's offsets text is re-read keeping
    only digit segments, values below 5 are dropped, the rest sorted largest first, and the
    text is rewritten when that differs from what was read. Duplicates are kept and there
    is no upper bound. */
module FixAvisos {
  import opened Text
  import opened Offsets
  import opened Models
  import opened Repairs

  /** The smallest offset the repair keeps. */
  const MinKept: int := 5

  predicate Descending(xs: seq<int>) {
    forall i, j :: 0 <= i < j < |xs| ==> xs[i] >= xs[j]
  }

  /** The values of at least 5, in order, duplicates kept. */
  function KeepAtLeast(xs: seq<int>): (r: seq<int>)
    ensures forall k :: 0 <= k < |r| ==> r[k] >= MinKept
    ensures forall x :: multiset(r)[x] == if x >= MinKept then multiset(xs)[x] else 0
  {
    if |xs| == 0 then []
    else
      assert xs == [xs[0]] + xs[1..];
      (if xs[0] >= MinKept then [xs[0]] else []) + KeepAtLeast(xs[1..])
  }

  lemma {:induction false} KeepAtLeastOfLarge(xs: seq<int>)
    requires forall k :: 0 <= k < |xs| ==> xs[k] >= MinKept
    ensures KeepAtLeast(xs) == xs
  {
    if |xs| > 0 {
      KeepAtLeastOfLarge(xs[1..]);
      assert xs == [xs[0]] + xs[1..];
    }
  }

  /** Puts `x` into a descending list. */
  function Insert(x: int, s: seq<int>): (r: seq<int>)
    requires Descending(s)
    ensures Descending(r)
    ensures multiset(r) == multiset(s) + multiset{x}
    ensures |r| == |s| + 1
  {
    if |s| == 0 || x >= s[0] then
      FrontBound(x, s);
      [x] + s
    else
      var t := Insert(x, s[1..]);
      TailBound(x, s, t);
      assert s == [s[0]] + s[1..];
      [s[0]] + t
  }

  /** A value at least the head of a descending list may go in front of it. */
  lemma FrontBound(x: int, s: seq<int>)
    requires Descending(s) && (|s| == 0 || x >= s[0])
    ensures Descending([x] + s)
  {
    if |s| > 0 { HeadIsMax(s); }
    ConsDescending(x, s);
  }

  /** The head of a descending list may go in front of the rest with a smaller value added. */
  lemma TailBound(x: int, s: seq<int>, t: seq<int>)
    requires Descending(s) && |s| > 0 && x < s[0]
    requires Descending(t) && multiset(t) == multiset(s[1..]) + multiset{x}
    ensures Descending([s[0]] + t)
  {
    HeadIsMax(s);
    assert s == [s[0]] + s[1..];
    assert forall y :: y in multiset(s[1..]) ==> y in multiset(s);
    ConsDescending(s[0], t);
  }

  /** A bound on a descending list may go in front of it. */
  lemma ConsDescending(h: int, t: seq<int>)
    requires Descending(t)
    requires forall y :: y in multiset(t) ==> y <= h
    ensures Descending([h] + t)
  {
    forall j | 0 <= j < |t| ensures t[j] <= h {
      assert t[j] in multiset(t);
    }
  }

  /** The values from largest to smallest, duplicates kept. */
  function SortDesc(xs: seq<int>): (r: seq<int>)
    ensures Descending(r)
    ensures multiset(r) == multiset(xs)
  {
    if |xs| == 0 then []
    else
      assert xs == [xs[0]] + xs[1..];
      Insert(xs[0], SortDesc(xs[1..]))
  }

  /** Sorting a list that is already descending leaves it alone. */
  lemma {:induction false} SortDescOfDescending(xs: seq<int>)
    requires Descending(xs)
    ensures SortDesc(xs) == xs
  {
    if |xs| > 0 {
      SortDescOfDescending(xs[1..]);
      assert xs == [xs[0]] + xs[1..];
    }
  }

  /** The head of a descending list bounds every element. */
  lemma HeadIsMax(a: seq<int>)
    requires Descending(a) && |a| > 0
    ensures forall x :: x in multiset(a) ==> x <= a[0]
  {
    forall x | x in multiset(a) ensures x <= a[0] {
      assert x in a;
      var k :| 0 <= k < |a| && a[k] == x;
    }
  }

  /** A multiset has exactly one descending arrangement, so `SortDesc` is the sort. */
  lemma {:induction false} DescendingUnique(a: seq<int>, b: seq<int>)
    requires Descending(a) && Descending(b)
    requires multiset(a) == multiset(b)
    ensures a == b
    decreases |a|
  {
    assert |a| == |multiset(a)| == |b|;
    if |a| > 0 {
      var h := a[0];
      assert h == b[0] by {
        HeadIsMax(a);
        HeadIsMax(b);
        assert a[0] in a && b[0] in b;
        assert a[0] in multiset(a) && b[0] in multiset(b);
        assert a[0] <= b[0] && b[0] <= a[0];
      }
      assert multiset(a[1..]) == multiset(b[1..]) by {
        assert a == [h] + a[1..] && b == [h] + b[1..];
        assert multiset(a) == multiset{h} + multiset(a[1..]);
        assert multiset(b) == multiset{h} + multiset(b[1..]);
        assert multiset(a[1..]) == multiset(a) - multiset{h};
        assert multiset(b[1..]) == multiset(b) - multiset{h};
      }
      DescendingTail(a);
      DescendingTail(b);
      DescendingUnique(a[1..], b[1..]);
      assert a == [h] + a[1..] && b == [h] + b[1..];
    }
  }

  lemma DescendingTail(a: seq<int>)
    requires Descending(a) && |a| > 0
    ensures Descending(a[1..])
  {
  }

  /** The values of at least 5, from largest to smallest, duplicates kept. */
  function Prune(xs: seq<int>): (r: seq<int>)
    ensures Descending(r)
    ensures forall k :: 0 <= k < |r| ==> r[k] >= MinKept
    ensures forall x :: multiset(r)[x] == if x >= MinKept then multiset(xs)[x] else 0
  {
    var r := SortDesc(KeepAtLeast(xs));
    assert forall k :: 0 <= k < |r| ==> r[k] >= MinKept by {
      forall k | 0 <= k < |r| ensures r[k] >= MinKept {
        assert r[k] in multiset(r);
      }
    }
    r
  }

  /** The offsets the repair would store: digit segments, values below 5 dropped,
      largest first. */
  function Repaired(avisos: string): (r: seq<int>)
    ensures Descending(r)
    ensures forall k :: 0 <= k < |r| ==> r[k] >= MinKept
    ensures forall x :: multiset(r)[x] == if x >= MinKept then multiset(DigitSegments(avisos))[x] else 0
  {
    Prune(DigitSegments(avisos))
  }

  /** The exam is rewritten exactly when the list read differs from the repaired one. */
  predicate NeedsFix(avisos: string) {
    DigitSegments(avisos) != Repaired(avisos)
  }

  /** Reading back a written list gives the list, for every list of non-negative values. */
  lemma DigitSegmentsOfFormat(xs: seq<int>)
    requires forall k :: 0 <= k < |xs| ==> xs[k] >= 0
    ensures DigitSegments(FormatList(xs)) == xs
  {
    if |xs| == 0 {
      assert Split("", ',') == [""];
      assert !IsDigits(Strip(""));
    } else {
      ListRoundTrip(xs);
      JoinStartsWith(IntStrings(xs), ",");
      assert |IntStrings(xs)[0]| > 0;
    }
  }

  /** The per-exam step: only the offsets text may change, and it changes exactly when
      the repair is needed. */
  function FixExam(ex: Exam): (r: Exam)
    ensures r.course == ex.course && r.date == ex.date
    ensures r != ex <==> NeedsFix(ex.avisos)
    ensures NeedsFix(ex.avisos) ==> DigitSegments(r.avisos) == Repaired(ex.avisos)
  {
    if NeedsFix(ex.avisos) then
      var f := Repaired(ex.avisos);
      DigitSegmentsOfFormat(f);
      ex.(avisos := FormatList(f))
    else ex
  }

  /** A repaired exam needs no further repair. */
  lemma FixExamIdempotent(ex: Exam)
    ensures !NeedsFix(FixExam(ex).avisos)
    ensures FixExam(FixExam(ex)) == FixExam(ex)
  {
    if NeedsFix(ex.avisos) {
      var f := Repaired(ex.avisos);
      var t := FixExam(ex).avisos;
      assert DigitSegments(t) == f;
      KeepAtLeastOfLarge(f);
      SortDescOfDescending(f);
      assert Prune(f) == f;
      assert Repaired(t) == f;
    }
  }

  /** `fix_avisos`: every exam repaired in order, and the number of rewritten exams. */
  function FixPass(exams: seq<Exam>): (r: (seq<Exam>, nat))
    ensures |r.0| == |exams|
    ensures forall i :: 0 <= i < |exams| ==> r.0[i].course == exams[i].course && r.0[i].date == exams[i].date
    ensures forall i :: 0 <= i < |exams| ==> (r.0[i] != exams[i] <==> NeedsFix(exams[i].avisos))
    ensures forall i :: 0 <= i < |exams| ==> !NeedsFix(r.0[i].avisos)
    ensures r.1 == Differences(exams, r.0)
  {
    var r := Pass(FixExam, exams);
    forall i | 0 <= i < |exams| ensures !NeedsFix(r.0[i].avisos) {
      FixExamIdempotent(exams[i]);
    }
    r
  }

  /** A second pass rewrites nothing. */
  lemma FixPassIdle(exams: seq<Exam>)
    ensures FixPass(FixPass(exams).0) == (FixPass(exams).0, 0)
  {
    forall i | 0 <= i < |exams| ensures FixExam(FixExam(exams[i])) == FixExam(exams[i]) {
      FixExamIdempotent(exams[i]);
    }
    Repairs.SecondPassIdle(FixExam, exams);
  }
}
