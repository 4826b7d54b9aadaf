/** Reminder offsets ("avisos"): how many days before an exam a reminder fires.
    This module holds the normaliser shared by the chat webhooks, the canonical
    descending form it produces, and the comma-separated text codec
    (`avisos_to_str` / `avisos_to_list`) used by every database column that stores offsets. */
module Offsets {
  import opened Outcomes
  import opened Text

  const MinDay := 5
  const MaxDay := 30
  const MaxCount := 4
  /** `AVISOS_DEFAULT` of the webhooks and the scheduler. */
  const DefaultOffsets: seq<int> := [30, 20, 10, 5]

  predicate InRange(d: int) {
    MinDay <= d <= MaxDay
  }

  predicate StrictlyDescending(xs: seq<int>) {
    forall i, j :: 0 <= i < j < |xs| ==> xs[i] > xs[j]
  }

  /** The shape every normalised offset list has. */
  predicate WellFormed(xs: seq<int>) {
    && StrictlyDescending(xs)
    && (forall i :: 0 <= i < |xs| ==> InRange(xs[i]))
    && 1 <= |xs| <= MaxCount
  }

  function Min(a: int, b: int): int {
    if a <= b then a else b
  }

  /** The distinct values of `xs` lying in `[MinDay, v]`, largest first. */
  function RangeDesc(xs: seq<int>, v: int): (r: seq<int>)
    requires v <= MaxDay
    ensures StrictlyDescending(r)
    ensures forall x :: x in r <==> x in xs && MinDay <= x <= v
    decreases v
  {
    if v < MinDay then []
    else
      var rest := RangeDesc(xs, v - 1);
      var r := (if v in xs then [v] else []) + rest;
      assert forall k :: 0 <= k < |rest| ==> rest[k] < v by {
        forall k | 0 <= k < |rest| ensures rest[k] < v {
          assert rest[k] in rest;
        }
      }
      r
  }

  /** The distinct values of `xs` between the minimum and maximum day, largest first. */
  function Filtered(xs: seq<int>): (r: seq<int>)
    ensures StrictlyDescending(r)
    ensures forall x :: x in r <==> x in xs && InRange(x)
    ensures forall i :: 0 <= i < |r| ==> InRange(r[i])
  {
    var r := RangeDesc(xs, MaxDay);
    assert forall i :: 0 <= i < |r| ==> InRange(r[i]) by {
      forall i | 0 <= i < |r| ensures InRange(r[i]) {
        assert r[i] in r;
      }
    }
    r
  }

  /** The common tail of every normaliser: the (at most four) largest distinct in-range
      values, or `fallback` when none is in range. */
  function Canonical(xs: seq<int>, fallback: seq<int>): (r: seq<int>)
    ensures Filtered(xs) == [] ==> r == fallback
    ensures Filtered(xs) != [] ==> WellFormed(r)
  {
    var f := Filtered(xs);
    if |f| == 0 then fallback
    else
      PrefixWellFormed(f, Min(|f|, MaxCount));
      f[..Min(|f|, MaxCount)]
  }

  /** A non-empty prefix of at most four values of a descending in-range list is well formed. */
  lemma PrefixWellFormed(f: seq<int>, n: nat)
    requires StrictlyDescending(f) && forall i :: 0 <= i < |f| ==> InRange(f[i])
    requires 1 <= n <= |f| && n <= MaxCount
    ensures WellFormed(f[..n])
  {
    var r := f[..n];
    assert forall i :: 0 <= i < |r| ==> r[i] == f[i];
  }

  /** The lenient `normalizar_avisos` of both webhooks: no tokens, or any token that is not
      an integer, gives the default list; otherwise the canonical form of the values. */
  function NormalizeLenient(tokens: seq<string>): (r: seq<int>)
    ensures WellFormed(r)
    ensures |tokens| == 0 || ParseAll(tokens).None? ==> r == DefaultOffsets
    ensures ParseAll(tokens).Some? && Filtered(ParseAll(tokens).value) == [] ==> r == DefaultOffsets
    ensures |tokens| > 0 && ParseAll(tokens).Some? ==> r == Canonical(ParseAll(tokens).value, DefaultOffsets)
  {
    if |tokens| == 0 then DefaultOffsets
    else match ParseAll(tokens)
      case None => DefaultOffsets
      case Some(xs) => Canonical(xs, DefaultOffsets)
  }

  // ---------------------------------------------------------------------------
  // Properties of the canonical form
  // ---------------------------------------------------------------------------

  /** The tail of a strictly descending list holds every element but the head. */
  lemma TailMembers(a: seq<int>)
    requires StrictlyDescending(a) && |a| > 0
    ensures forall x :: x in a[1..] <==> x in a && x != a[0]
    ensures forall x :: x in a ==> x <= a[0]
  {
    forall x | x in a ensures x <= a[0] && (x in a[1..] <==> x != a[0]) {
      var k :| 0 <= k < |a| && a[k] == x;
      if k > 0 { assert a[1..][k - 1] == x; }
      if x in a[1..] {
        var l :| 0 <= l < |a| - 1 && a[1..][l] == x;
        assert a[l + 1] == x;
      }
    }
  }

  /** A strictly descending list is determined by its set of elements. */
  lemma {:induction false} DescendingUnique(a: seq<int>, b: seq<int>)
    requires StrictlyDescending(a) && StrictlyDescending(b)
    requires forall x :: x in a <==> x in b
    ensures a == b
    decreases |a|
  {
    assert |b| > 0 ==> b[0] in b;
    if |a| > 0 {
      assert a[0] in a && a[0] in b;
      assert b[0] in b && b[0] in a;
      TailMembers(a);
      TailMembers(b);
      assert a[0] == b[0];
      DescendingUnique(a[1..], b[1..]);
      assert a == [a[0]] + a[1..] && b == [b[0]] + b[1..];
    }
  }

  /** An element of a strictly descending list that a prefix leaves out is smaller than
      everything in that prefix. */
  lemma DroppedBelowPrefix(f: seq<int>, m: nat, x: int)
    requires StrictlyDescending(f) && m <= |f|
    requires x in f && x !in f[..m]
    ensures m < |f|
    ensures forall k :: 0 <= k < m ==> f[k] > x
  {
    var i :| 0 <= i < |f| && f[i] == x;
    assert forall k :: 0 <= k < m ==> f[..m][k] == f[k];
    assert f[..|f|] == f;
  }

  /** The canonical form keeps exactly the largest in-range inputs: each value it keeps is
      an in-range input, and an in-range input it drops is smaller than every kept value,
      which happens only once four values are kept. */
  lemma CanonicalKeepsLargest(xs: seq<int>, fallback: seq<int>, r: seq<int>)
    requires Filtered(xs) != [] && r == Canonical(xs, fallback)
    ensures forall y :: y in r ==> y in xs && InRange(y)
    ensures forall x :: x in xs && InRange(x) && x !in r ==>
      |r| == MaxCount && forall k :: 0 <= k < |r| ==> r[k] > x
  {
    var f := Filtered(xs);
    PrefixKeepsLargest(f, Min(|f|, MaxCount), r);
  }

  /** The same facts for any prefix of at most four values of a descending list. */
  lemma PrefixKeepsLargest(f: seq<int>, m: nat, r: seq<int>)
    requires StrictlyDescending(f) && m == Min(|f|, MaxCount) && r == f[..m]
    ensures forall y :: y in r ==> y in f
    ensures forall x :: x in f && x !in r ==> |r| == MaxCount && forall k :: 0 <= k < |r| ==> r[k] > x
  {
    forall y | y in r ensures y in f {
      var k :| 0 <= k < |r| && r[k] == y;
      assert f[k] == y;
    }
    forall x | x in f && x !in r
      ensures |r| == MaxCount && forall k :: 0 <= k < |r| ==> r[k] > x
    {
      DroppedBelowPrefix(f, m, x);
    }
  }

  /** A list already in canonical form is its own canonical form. */
  lemma CanonicalOfWellFormed(r: seq<int>, fallback: seq<int>)
    requires WellFormed(r)
    ensures Canonical(r, fallback) == r
  {
    DescendingUnique(Filtered(r), r);
  }

  /** Normalising the printed result of a normalisation changes nothing. */
  lemma NormalizeLenientIdempotent(tokens: seq<string>)
    ensures NormalizeLenient(IntStrings(NormalizeLenient(tokens))) == NormalizeLenient(tokens)
  {
    var r := NormalizeLenient(tokens);
    ParseAllOfIntStrings(r);
    CanonicalOfWellFormed(r, DefaultOffsets);
  }

  // ---------------------------------------------------------------------------
  // Comma-separated text codec
  // ---------------------------------------------------------------------------

  /** The values of the segments that are digit runs once stripped; other segments are dropped. */
  function SegmentValues(segments: seq<string>): (r: seq<int>)
    ensures |r| <= |segments|
    ensures forall k :: 0 <= k < |r| ==> r[k] >= 0
  {
    if |segments| == 0 then [] else SegmentValue(segments[0]) + SegmentValues(segments[1..])
  }

  /** One segment: its value when it is a digit run once stripped, else nothing. */
  function SegmentValue(seg: string): (r: seq<int>)
    ensures |r| <= 1
    ensures forall k :: 0 <= k < |r| ==> r[k] >= 0
  {
    var t := Strip(seg);
    if IsDigits(t) then [DigitsValue(t) as int] else []
  }

  /** Segments are read one at a time and independently: the values of a concatenation
      are the values of its parts, in order. */
  lemma {:induction false} SegmentValuesAppend(a: seq<string>, b: seq<string>)
    ensures SegmentValues(a + b) == SegmentValues(a) + SegmentValues(b)
    decreases |a|
  {
    if |a| == 0 {
      assert a + b == b;
    } else {
      var h := SegmentValue(a[0]);
      assert (a + b)[0] == a[0] && (a + b)[1..] == a[1..] + b;
      assert SegmentValues(a + b) == h + SegmentValues(a[1..] + b);
      SegmentValuesAppend(a[1..], b);
      assert h + (SegmentValues(a[1..]) + SegmentValues(b))
          == (h + SegmentValues(a[1..])) + SegmentValues(b);
    }
  }

  /** A list of one segment yields that segment's value, if any. */
  lemma SegmentValuesOne(seg: string)
    ensures SegmentValues([seg]) == SegmentValue(seg)
  {
    assert [seg][1..] == [];
  }

  /** Reads a comma-separated text: each segment that is a digit run once stripped gives its
      value, in order; every other segment is skipped. */
  function DigitSegments(s: string): seq<int> {
    SegmentValues(Split(s, ','))
  }

  /** `avisos_to_list` (and `parse_avisos` once given a string). */
  function ParseList(s: string): (r: seq<int>)
    ensures s == "" ==> r == []
    ensures forall k :: 0 <= k < |r| ==> r[k] >= 0
  {
    if s == "" then [] else DigitSegments(s)
  }

  /** `avisos_to_str`: the decimal forms of the values, separated by commas; only the empty
      list is written as "". */
  function FormatList(xs: seq<int>): (r: string)
    ensures r == "" <==> xs == []
  {
    JoinedNumbersNonEmpty(xs);
    Join(IntStrings(xs), ",")
  }

  lemma JoinedNumbersNonEmpty(xs: seq<int>)
    ensures xs != [] ==> Join(IntStrings(xs), ",") != ""
  {
    if xs != [] {
      JoinStartsWith(IntStrings(xs), ",");
    }
  }

  /** Splitting a written list at its commas gives back the written numbers. */
  lemma FormatListSplits(xs: seq<int>)
    requires xs != []
    ensures Split(FormatList(xs), ',') == IntStrings(xs)
  {
    var parts := IntStrings(xs);
    forall k | 0 <= k < |parts| ensures ',' !in parts[k] {
      IntToStringNoSep(xs[k], ',');
    }
    SplitJoin(parts, ',');
  }

  lemma {:induction false} SegmentValuesOfIntStrings(xs: seq<int>)
    requires forall k :: 0 <= k < |xs| ==> xs[k] >= 0
    ensures SegmentValues(IntStrings(xs)) == xs
    decreases |xs|
  {
    if |xs| > 0 {
      var s := IntStrings(xs);
      var d := NatToString(xs[0]);
      assert s[0] == d;
      StripNoSpace(d);
      NatToStringValue(xs[0]);
      assert s[1..] == IntStrings(xs[1..]);
      SegmentValuesOfIntStrings(xs[1..]);
      assert xs == [xs[0]] + xs[1..];
    }
  }

  /** Reading back the written form of any list of non-negative values gives that list. */
  lemma ListRoundTrip(xs: seq<int>)
    requires forall k :: 0 <= k < |xs| ==> xs[k] >= 0
    ensures ParseList(FormatList(xs)) == xs
  {
    if |xs| > 0 {
      FormatListSplits(xs);
      SegmentValuesOfIntStrings(xs);
    }
  }

  lemma DefaultOffsetsRoundTrip()
    ensures ParseList(FormatList(DefaultOffsets)) == DefaultOffsets
  {
    ListRoundTrip(DefaultOffsets);
  }

  /** The text the webhook stores for the default offsets is the column default "30,20,10,5". */
  lemma DefaultOffsetsText()
    ensures FormatList(DefaultOffsets) == "30,20,10,5"
  {
    assert NatToString(30) == "30" && NatToString(20) == "20";
    assert NatToString(10) == "10" && NatToString(5) == "5";
  }
}
