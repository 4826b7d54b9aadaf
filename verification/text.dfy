/** The pieces of Python's `str` behaviour the bot relies on, over ASCII-centred text:
    whitespace stripping, `split()`, `split(sep)`, `join`, `upper()`, `isdigit()`,
    `int(...)` and `str(int)`. */
module Text {
  import opened Outcomes

  /** `str.isspace()` restricted to the ASCII range. */
  predicate IsSpace(c: char) {
    c == ' ' || c == '\t' || c == '\n' || c == '\r' || c == '\U{B}' || c == '\U{C}'
    || ('\U{1C}' <= c <= '\U{1F}')
  }

  predicate NoSpace(w: string) {
    forall i :: 0 <= i < |w| ==> !IsSpace(w[i])
  }

  predicate IsDigit(c: char) {
    '0' <= c <= '9'
  }

  predicate AllDigits(s: string) {
    forall i :: 0 <= i < |s| ==> IsDigit(s[i])
  }

  /** `str.isdigit()`: non-empty and made of digits only. */
  predicate IsDigits(s: string) {
    |s| > 0 && AllDigits(s)
  }

  predicate StartsWith(s: string, prefix: string) {
    |prefix| <= |s| && s[..|prefix|] == prefix
  }

  /** `t in s` for strings: `t` occurs as a contiguous piece of `s`. */
  predicate Occurs(t: string, s: string) {
    StartsWith(s, t) || (|s| > 0 && Occurs(t, s[1..]))
  }

  function DigitVal(c: char): nat
    requires IsDigit(c)
  {
    c as int - '0' as int
  }

  function DigitChar(n: nat): (c: char)
    requires n < 10
    ensures IsDigit(c) && DigitVal(c) == n
  {
    ('0' as int + n) as char
  }

  /** The value of a run of decimal digits (0 for the empty run). */
  function DigitsValue(s: string): nat
    requires AllDigits(s)
  {
    if |s| == 0 then 0 else DigitsValue(s[..|s| - 1]) * 10 + DigitVal(s[|s| - 1])
  }

  function Pow10(w: nat): nat {
    if w == 0 then 1 else 10 * Pow10(w - 1)
  }

  /** `n` written with exactly `w` digits, zero-padded (`%0wd` for `n < 10^w`). */
  function PadDigits(n: nat, w: nat): (s: string)
    ensures |s| == w && AllDigits(s)
  {
    if w == 0 then "" else PadDigits(n / 10, w - 1) + [DigitChar(n % 10)]
  }

  /** `str(n)` for a natural number. */
  function NatToString(n: nat): (s: string)
    ensures IsDigits(s)
  {
    if n < 10 then [DigitChar(n)] else NatToString(n / 10) + [DigitChar(n % 10)]
  }

  /** `str(n)` for any integer. */
  function IntToString(n: int): string {
    if n < 0 then "-" + NatToString(-n) else NatToString(n)
  }

  /** `str.upper()` on the ASCII and Latin-1 letters that have a one-character upper case
      (so "sí" becomes "SÍ"); 'µ' and 'ÿ' have theirs outside Latin-1. */
  function UpperChar(c: char): char {
    if 'a' <= c <= 'z' then (c as int - 32) as char
    else if '\U{E0}' <= c <= '\U{FE}' && c != '\U{F7}' && c != '\U{DF}' then (c as int - 32) as char
    else if c == '\U{B5}' then '\U{39C}'
    else if c == '\U{FF}' then '\U{178}'
    else c
  }

  function Upper(s: string): (r: string)
    ensures |r| == |s|
    ensures forall i :: 0 <= i < |s| ==> r[i] == UpperChar(s[i])
  {
    seq(|s|, i requires 0 <= i < |s| => UpperChar(s[i]))
  }

  function TrimLeft(s: string): (r: string)
    ensures |r| <= |s|
    ensures |r| > 0 ==> !IsSpace(r[0])
  {
    if |s| > 0 && IsSpace(s[0]) then TrimLeft(s[1..]) else s
  }

  function TrimRight(s: string): (r: string)
    ensures |r| <= |s| && r == s[..|r|]
    ensures |r| > 0 ==> !IsSpace(r[|r| - 1])
  {
    if |s| > 0 && IsSpace(s[|s| - 1]) then TrimRight(s[..|s| - 1]) else s
  }

  /** What `TrimLeft` keeps is a suffix of the text. */
  lemma {:induction false} TrimLeftSuffix(s: string)
    ensures TrimLeft(s) == s[|s| - |TrimLeft(s)|..]
    decreases |s|
  {
    if |s| > 0 && IsSpace(s[0]) {
      TrimLeftSuffix(s[1..]);
      assert s[1..][|s| - 1 - |TrimLeft(s)|..] == s[|s| - |TrimLeft(s)|..];
    }
  }

  lemma {:induction false} TrimLeftDropsSpace(s: string)
    ensures forall k :: 0 <= k < |s| - |TrimLeft(s)| ==> IsSpace(s[k])
    decreases |s|
  {
    if |s| > 0 && IsSpace(s[0]) {
      TrimLeftDropsSpace(s[1..]);
      assert forall k :: 1 <= k < |s| ==> s[k] == s[1..][k - 1];
    }
  }

  lemma {:induction false} TrimRightDropsSpace(s: string)
    ensures forall k :: |TrimRight(s)| <= k < |s| ==> IsSpace(s[k])
    decreases |s|
  {
    if |s| > 0 && IsSpace(s[|s| - 1]) {
      TrimRightDropsSpace(s[..|s| - 1]);
    }
  }

  /** `r` is `s[i..j]` and everything outside `i..j` is space. */
  predicate SpaceAround(s: string, r: string, i: int, j: int) {
    && 0 <= i <= j <= |s| && r == s[i..j]
    && (forall k | 0 <= k < i :: IsSpace(s[k]))
    && (forall k | j <= k < |s| :: IsSpace(s[k]))
  }

  /** `str.strip()`: drops leading and trailing whitespace. */
  function Strip(s: string): (r: string)
    ensures |r| <= |s|
    ensures |r| > 0 ==> !IsSpace(r[0]) && !IsSpace(r[|r| - 1])
  {
    TrimRight(TrimLeft(s))
  }

  /** Strip keeps a piece of the text and drops only spaces, on either side of it. */
  lemma StripDropsSpace(s: string)
    ensures exists i, j :: SpaceAround(s, Strip(s), i, j)
  {
    var t := TrimLeft(s);
    var r := TrimRight(t);
    var i := |s| - |t|;
    TrimLeftSuffix(s);
    assert Strip(s) == r;
    assert r == s[i..i + |r|] by {
      assert t == s[i..] && r == t[..|r|];
    }
    assert forall k | 0 <= k < i :: IsSpace(s[k]) by {
      TrimLeftDropsSpace(s);
    }
    assert forall k | i + |r| <= k < |s| :: IsSpace(s[k]) by {
      TrimRightDropsSpace(t);
      forall k | i + |r| <= k < |s| ensures IsSpace(s[k]) {
        assert s[k] == t[k - i];
      }
    }
    assert SpaceAround(s, r, i, i + |r|);
  }

  /** Length of the leading run of non-space characters. */
  function WordLen(s: string): (n: nat)
    ensures n <= |s|
    ensures forall i :: 0 <= i < n ==> !IsSpace(s[i])
    ensures n == |s| || IsSpace(s[n])
  {
    if |s| > 0 && !IsSpace(s[0]) then 1 + WordLen(s[1..]) else 0
  }

  /** `str.split()` with no argument: the maximal runs of non-space characters, in order. */
  function Words(s: string): (ws: seq<string>)
    decreases |s|
  {
    var t := TrimLeft(s);
    if |t| == 0 then []
    else
      var n := WordLen(t);
      [t[..n]] + Words(t[n..])
  }

  /** `str.split(sep)` for a one-character separator: every segment, empty ones included. */
  function Split(s: string, sep: char): (parts: seq<string>)
    ensures |parts| >= 1
  {
    if |s| == 0 then [""]
    else
      var rest := Split(s[1..], sep);
      if s[0] == sep then [""] + rest else [[s[0]] + rest[0]] + rest[1..]
  }

  /** `sep.join(parts)`. */
  function Join(parts: seq<string>, sep: string): string {
    if |parts| == 0 then ""
    else if |parts| == 1 then parts[0]
    else parts[0] + sep + Join(parts[1..], sep)
  }

  /** `s.replace(pat, "")`: removes every non-overlapping occurrence, scanning left to right. */
  function RemoveAll(s: string, pat: string): (r: string)
    requires |pat| > 0
    ensures |r| <= |s|
    ensures !Occurs(pat, s) ==> r == s
  {
    if |s| < |pat| then s
    else if s[..|pat|] == pat then RemoveAll(s[|pat|..], pat)
    else [s[0]] + RemoveAll(s[1..], pat)
  }

  /** Python's `int(s)` on text: surrounding whitespace, an optional sign, then decimal digits;
      `None` where Python raises `ValueError`. */
  function ParseInt(s: string): (r: Option<int>)
    ensures IsDigits(s) ==> r == Some(DigitsValue(s))
    ensures r.Some? ==> |Strip(s)| > 0
  {
    var t := Strip(s);
    if |t| > 0 && (t[0] == '+' || t[0] == '-') then
      if IsDigits(t[1..]) then
        Some(if t[0] == '-' then -(DigitsValue(t[1..]) as int) else DigitsValue(t[1..]))
      else None
    else if IsDigits(t) then Some(DigitsValue(t))
    else None
  }

  /** `int(x)` for every element, or `None` if any element fails. */
  function ParseAll(tokens: seq<string>): (r: Option<seq<int>>)
    ensures r.Some? ==> |r.value| == |tokens|
    ensures r.Some? <==> forall i :: 0 <= i < |tokens| ==> ParseInt(tokens[i]).Some?
    ensures r.Some? ==> forall i :: 0 <= i < |tokens| ==> Some(r.value[i]) == ParseInt(tokens[i])
  {
    if |tokens| == 0 then Some([])
    else match (ParseInt(tokens[0]), ParseAll(tokens[1..]))
      case (Some(x), Some(xs)) => Some([x] + xs)
      case _ => None
  }

  /** Applies `str` to every element. */
  function IntStrings(xs: seq<int>): (r: seq<string>)
    ensures |r| == |xs|
    ensures forall i :: 0 <= i < |xs| ==> r[i] == IntToString(xs[i])
  {
    if |xs| == 0 then [] else [IntToString(xs[0])] + IntStrings(xs[1..])
  }

  // ---------------------------------------------------------------------------
  // Lemmas
  // ---------------------------------------------------------------------------

  lemma {:induction false} NatToStringValue(n: nat)
    ensures DigitsValue(NatToString(n)) == n
    decreases n
  {
    if n >= 10 {
      var s := NatToString(n);
      assert s[..|s| - 1] == NatToString(n / 10);
      NatToStringValue(n / 10);
    }
  }

  lemma {:induction false} PadDigitsValue(n: nat, w: nat)
    requires n < Pow10(w)
    ensures DigitsValue(PadDigits(n, w)) == n
    decreases w
  {
    if w > 0 {
      var s := PadDigits(n, w);
      assert s[..|s| - 1] == PadDigits(n / 10, w - 1);
      PadDigitsValue(n / 10, w - 1);
    }
  }

  lemma {:induction false} DigitsValueBound(s: string)
    requires AllDigits(s)
    ensures DigitsValue(s) < Pow10(|s|)
    decreases |s|
  {
    if |s| > 0 {
      DigitsValueBound(s[..|s| - 1]);
    }
  }

  lemma {:induction false} PadDigitsOfValue(s: string)
    requires AllDigits(s)
    ensures PadDigits(DigitsValue(s), |s|) == s
    decreases |s|
  {
    if |s| > 0 {
      var p := s[..|s| - 1];
      var v := DigitsValue(s);
      assert v / 10 == DigitsValue(p) && v % 10 == DigitVal(s[|s| - 1]);
      PadDigitsOfValue(p);
      assert s == p + [s[|s| - 1]];
    }
  }

  lemma StripNoSpace(s: string)
    requires |s| > 0 && !IsSpace(s[0]) && !IsSpace(s[|s| - 1])
    ensures Strip(s) == s
  {
  }

  /** Strip finds the only piece of the text with spaces on both sides and no space at
      either end: whitespace around a text is removed and the text is kept whole. */
  lemma StripAround(a: string, t: string, b: string)
    requires forall k | 0 <= k < |a| :: IsSpace(a[k])
    requires forall k | 0 <= k < |b| :: IsSpace(b[k])
    requires |t| > 0 ==> !IsSpace(t[0]) && !IsSpace(t[|t| - 1])
    ensures Strip(a + t + b) == t
  {
    if |t| == 0 {
      assert a + t + b == (a + b) + "";
      TrimLeftSpaces(a + b, "");
    } else {
      assert a + t + b == a + (t + b);
      TrimLeftSpaces(a, t + b);
      TrimRightSpaces(t, b);
    }
  }

  lemma {:induction false} TrimLeftSpaces(a: string, u: string)
    requires forall k | 0 <= k < |a| :: IsSpace(a[k])
    requires |u| > 0 ==> !IsSpace(u[0])
    ensures TrimLeft(a + u) == u
    decreases |a|
  {
    if |a| == 0 {
      assert a + u == u;
    } else {
      assert (a + u)[1..] == a[1..] + u;
      TrimLeftSpaces(a[1..], u);
    }
  }

  lemma {:induction false} TrimRightSpaces(u: string, b: string)
    requires forall k | 0 <= k < |b| :: IsSpace(b[k])
    requires |u| > 0 ==> !IsSpace(u[|u| - 1])
    ensures TrimRight(u + b) == u
    decreases |b|
  {
    if |b| == 0 {
      assert u + b == u;
    } else {
      assert (u + b)[..|u + b| - 1] == u + b[..|b| - 1];
      TrimRightSpaces(u, b[..|b| - 1]);
    }
  }

  lemma UpperAppend(a: string, b: string)
    ensures Upper(a + b) == Upper(a) + Upper(b)
  {
    assert forall i | 0 <= i < |a + b| :: Upper(a + b)[i] == (Upper(a) + Upper(b))[i];
  }

  /** Upper-casing twice is upper-casing once. */
  lemma UpperIdempotent(s: string)
    ensures Upper(Upper(s)) == Upper(s)
  {
    forall i | 0 <= i < |s| ensures UpperChar(UpperChar(s[i])) == UpperChar(s[i]) {
    }
  }

  lemma WordLenOfWord(w: string, rest: string)
    requires |w| > 0 && NoSpace(w)
    requires |rest| == 0 || IsSpace(rest[0])
    ensures WordLen(w + rest) == |w|
  {
    var s := w + rest;
    assert forall k | 0 <= k < |w| :: s[k] == w[k];
    assert |rest| > 0 ==> s[|w|] == rest[0];
  }

  lemma WordsAfterSpace(s: string)
    ensures Words(" " + s) == Words(s)
  {
    assert (" " + s)[1..] == s;
    assert TrimLeft(" " + s) == TrimLeft(s);
  }

  /** A word followed by nothing or by a space is the first word. */
  lemma WordsCons(w: string, rest: string)
    requires |w| > 0 && NoSpace(w)
    requires |rest| == 0 || IsSpace(rest[0])
    ensures Words(w + rest) == [w] + Words(rest)
  {
    var s := w + rest;
    assert TrimLeft(s) == s by {
      assert s[0] == w[0];
    }
    WordLenOfWord(w, rest);
    assert s[..|w|] == w && s[|w|..] == rest;
  }

  /** Every element is a non-empty run of non-space characters. */
  predicate AllWords(ws: seq<string>) {
    forall k | 0 <= k < |ws| :: |ws[k]| > 0 && NoSpace(ws[k])
  }

  /** Every word `str.split()` returns is non-empty and holds no white space. */
  lemma {:induction false} WordsAreWords(s: string)
    ensures AllWords(Words(s))
    decreases |s|
  {
    var t := TrimLeft(s);
    if |t| > 0 {
      var n := WordLen(t);
      var rest := Words(t[n..]);
      var ws := [t[..n]] + rest;
      assert AllWords(ws) by {
        WordsAreWords(t[n..]);
        assert NoSpace(t[..n]);
        assert forall k | 1 <= k < |ws| :: ws[k] == rest[k - 1];
      }
      assert Words(s) == ws;
    }
  }

  /** `" ".join(ws).split() == ws` for non-empty words without spaces. */
  lemma {:induction false} WordsJoin(ws: seq<string>)
    requires AllWords(ws)
    ensures Words(Join(ws, " ")) == ws
    decreases |ws|
  {
    if |ws| < 2 {
      WordsJoinShort(ws);
    } else {
      var w, rest := ws[0], ws[1..];
      assert AllWords(rest) by {
        assert forall k | 0 <= k < |rest| :: rest[k] == ws[k + 1];
      }
      WordsJoin(rest);
      assert ws == [w] + rest;
      WordsJoinCons(w, rest);
    }
  }

  lemma WordsJoinCons(w: string, rest: seq<string>)
    requires |w| > 0 && NoSpace(w) && |rest| > 0
    requires Words(Join(rest, " ")) == rest
    ensures Words(Join([w] + rest, " ")) == [w] + rest
  {
    var tail := Join(rest, " ");
    assert ([w] + rest)[1..] == rest;
    assert Join([w] + rest, " ") == w + " " + tail;
    WordsConsSpace(w, tail);
  }

  lemma WordsJoinShort(ws: seq<string>)
    requires AllWords(ws) && |ws| < 2
    ensures Words(Join(ws, " ")) == ws
  {
    if |ws| == 0 {
      assert TrimLeft("") == "";
    } else {
      var w := ws[0];
      assert ws == [w];
      assert Join([w], " ") == w;
      WordsOne(w);
    }
  }

  lemma WordsConsSpace(w: string, tail: string)
    requires |w| > 0 && NoSpace(w)
    ensures Words(w + " " + tail) == [w] + Words(tail)
  {
    assert w + " " + tail == w + (" " + tail);
    WordsCons(w, " " + tail);
    WordsAfterSpace(tail);
  }

  /** Upper-casing leaves the text unchanged. */
  predicate UpperStable(s: string) {
    forall i :: 0 <= i < |s| ==> UpperChar(s[i]) == s[i]
  }

  lemma UpperOfStable(s: string)
    requires UpperStable(s)
    ensures Upper(s) == s
  {
  }

  lemma UpperStableAppend(a: string, b: string)
    requires UpperStable(a) && UpperStable(b)
    ensures UpperStable(a + b)
  {
    forall i | 0 <= i < |a + b| ensures UpperChar((a + b)[i]) == (a + b)[i] {
      if i < |a| {
        assert (a + b)[i] == a[i];
      } else {
        assert (a + b)[i] == b[i - |a|];
      }
    }
  }

  /** The digits and the spaces between them: text that upper-casing leaves alone and in
      which no keyword can occur. */
  predicate DigitText(s: string) {
    forall i :: 0 <= i < |s| ==> s[i] == ' ' || IsDigit(s[i])
  }

  lemma {:induction false} JoinDigitText(ds: seq<string>)
    requires forall k | 0 <= k < |ds| :: IsDigits(ds[k])
    ensures DigitText(Join(ds, " "))
    decreases |ds|
  {
    if |ds| > 1 {
      JoinDigitText(ds[1..]);
      var tail := Join(ds[1..], " ");
      var h := ds[0];
      assert IsDigits(h);
      assert Join(ds, " ") == h + " " + tail;
      forall i | 0 <= i < |h + " " + tail|
        ensures (h + " " + tail)[i] == ' ' || IsDigit((h + " " + tail)[i])
      {
        if i < |h| {
          assert (h + " " + tail)[i] == h[i];
        } else if i > |h| {
          assert (h + " " + tail)[i] == tail[i - |h| - 1];
        }
      }
    } else if |ds| == 1 {
      assert IsDigits(ds[0]);
    }
  }

  /** A text without the first letter of a pattern does not contain the pattern. */
  lemma {:induction false} NoOccurrence(t: string, s: string)
    requires |t| > 0 && forall i :: 0 <= i < |s| ==> s[i] != t[0]
    ensures !Occurs(t, s)
    decreases |s|
  {
    if |t| <= |s| {
      assert s[..|t|][0] == s[0];
    }
    if |s| > 0 {
      NoOccurrence(t, s[1..]);
    }
  }

  /** Digits and spaces are their own upper case. */
  lemma DigitTextStable(t: string)
    requires DigitText(t)
    ensures UpperStable(t)
  {
    forall i | 0 <= i < |t| ensures UpperChar(t[i]) == t[i] {
      assert t[i] == ' ' || IsDigit(t[i]);
    }
  }

  /** Removing a pattern from a text that starts with it drops that first occurrence. */
  lemma RemoveAllLeading(pat: string, rest: string)
    requires |pat| > 0
    ensures RemoveAll(pat + rest, pat) == RemoveAll(rest, pat)
  {
    assert (pat + rest)[..|pat|] == pat;
    assert (pat + rest)[|pat|..] == rest;
  }

  /** Upper-casing a word that is already upper case, a space and day numbers changes
      nothing. */
  lemma UpperBeforeDigits(kw: string, j: string)
    requires UpperStable(kw) && DigitText(j)
    ensures Upper(kw + " " + j) == kw + (" " + j)
  {
    assert DigitText(" " + j);
    DigitTextStable(" " + j);
    UpperStableAppend(kw, " " + j);
    UpperOfStable(kw + (" " + j));
    assert kw + " " + j == kw + (" " + j);
  }

  /** A pattern that starts with a letter is removed from the front of a space and day
      numbers, and nothing else is. */
  lemma RemoveAllBeforeDigits(pat: string, j: string)
    requires |pat| > 0 && pat[0] != ' ' && !IsDigit(pat[0]) && DigitText(j)
    ensures RemoveAll(pat + (" " + j), pat) == " " + j
  {
    RemoveAllLeading(pat, " " + j);
    assert DigitText(" " + j);
    NoOccurrence(pat, " " + j);
  }

  /** An upper-case keyword in front of a space and day numbers: upper-casing the text and
      removing the keyword leaves the space and the numbers. */
  lemma KeywordBeforeDigits(kw: string, j: string)
    requires |kw| > 0 && UpperStable(kw) && kw[0] != ' ' && !IsDigit(kw[0]) && DigitText(j)
    ensures RemoveAll(Upper(kw + " " + j), kw) == " " + j
  {
    UpperBeforeDigits(kw, j);
    RemoveAllBeforeDigits(kw, j);
  }

  /** A single word is its own only word. */
  lemma WordsOne(w: string)
    requires |w| > 0 && NoSpace(w)
    ensures Words(w) == [w]
  {
    WordsCons(w, "");
    assert w + "" == w;
  }

  /** Three words joined by spaces split back into those words. */
  lemma ThreeWords(a: string, b: string, c: string)
    requires |a| > 0 && NoSpace(a) && |b| > 0 && NoSpace(b) && |c| > 0 && NoSpace(c)
    ensures Words(a + " " + b + " " + c) == [a, b, c]
  {
    var bc := b + " " + c;
    assert a + " " + b + " " + c == a + " " + bc;
    WordsOne(c);
    WordsConsSpace(b, c);
    WordsConsSpace(a, bc);
  }

  /** `int(str(n)) == n`. */
  lemma ParseIntOfIntToString(n: int)
    ensures ParseInt(IntToString(n)) == Some(n)
  {
    var s := IntToString(n);
    if n < 0 {
      NatToStringValue(-n);
      var d := NatToString(-n);
      assert s == "-" + d && s[1..] == d && s[0] == '-';
      assert !IsSpace(s[|s| - 1]) by { assert s[|s| - 1] == d[|d| - 1]; }
      StripNoSpace(s);
      assert IsDigits(s[1..]) && -(DigitsValue(s[1..]) as int) == n;
    } else {
      NatToStringValue(n);
      var d := NatToString(n);
      assert s == d && IsDigit(s[0]) && IsDigit(s[|s| - 1]);
      StripNoSpace(s);
      assert s[0] != '+' && s[0] != '-';
    }
  }

  /** White space around a number does not change how it reads: `int(" 20 ") == int("20")`. */
  lemma ParseIntTrims(a: string, t: string, b: string)
    requires forall k | 0 <= k < |a| :: IsSpace(a[k])
    requires forall k | 0 <= k < |b| :: IsSpace(b[k])
    requires |t| > 0 ==> !IsSpace(t[0]) && !IsSpace(t[|t| - 1])
    ensures ParseInt(a + t + b) == ParseInt(t)
  {
    StripAround(a, t, b);
    if |t| > 0 {
      StripNoSpace(t);
    }
    SameStripSameInt(a + t + b, t);
  }

  lemma SameStripSameInt(x: string, y: string)
    requires Strip(x) == Strip(y)
    ensures ParseInt(x) == ParseInt(y)
  {
  }

  /** An optional '+' or '-' followed by decimal digits reads as the digits' value, negated
      after '-'. */
  lemma ParseIntSigned(sign: string, ds: string)
    requires sign == "" || sign == "+" || sign == "-"
    requires IsDigits(ds)
    ensures ParseInt(sign + ds) == Some(if sign == "-" then -(DigitsValue(ds) as int) else DigitsValue(ds) as int)
  {
    var s := sign + ds;
    assert s[|s| - 1] == ds[|ds| - 1];
    assert s[0] == (if sign == "" then ds[0] else sign[0]);
    StripNoSpace(s);
    if sign != "" {
      assert s[1..] == ds;
    } else {
      assert s == ds;
    }
  }

  /** `int()` raises on a text that, once stripped, holds a character other than a digit,
      except for a sign in front: "abc", "5a", "1.5", "2 3" and "--4" all fail. */
  lemma ParseIntRejects(s: string, i: nat)
    requires i < |Strip(s)| && !IsDigit(Strip(s)[i])
    requires i > 0 || (Strip(s)[0] != '+' && Strip(s)[0] != '-')
    ensures ParseInt(s).None?
  {
    var t := Strip(s);
    if |t| > 0 && (t[0] == '+' || t[0] == '-') {
      assert t[1..][i - 1] == t[i];
    }
  }

  /** `int()` raises on a text with no digit once stripped: "", "   ", "+" and "-" all fail. */
  lemma ParseIntNeedsDigit(s: string)
    requires forall k | 0 <= k < |Strip(s)| :: !IsDigit(Strip(s)[k])
    ensures ParseInt(s).None?
  {
    var t := Strip(s);
    if |t| > 0 && (t[0] == '+' || t[0] == '-') && |t| > 1 {
      assert t[1..][0] == t[1];
    }
  }

  lemma ParseAllOfIntStrings(xs: seq<int>)
    ensures ParseAll(IntStrings(xs)) == Some(xs)
  {
    forall i | 0 <= i < |xs| ensures ParseInt(IntStrings(xs)[i]) == Some(xs[i]) {
      ParseIntOfIntToString(xs[i]);
    }
    var r := ParseAll(IntStrings(xs));
    assert r.value == xs;
  }

  lemma {:induction false} SplitWithoutSep(p: string, sep: char)
    requires sep !in p
    ensures Split(p, sep) == [p]
    decreases |p|
  {
    if |p| > 0 {
      SplitWithoutSep(p[1..], sep);
      assert [p[0]] + p[1..] == p;
    }
  }

  lemma {:induction false} SplitAfterSegment(p: string, rest: string, sep: char)
    requires sep !in p
    ensures Split(p + [sep] + rest, sep) == [p] + Split(rest, sep)
    decreases |p|
  {
    var s := p + [sep] + rest;
    if |p| == 0 {
      assert s[1..] == rest;
    } else {
      assert s[1..] == p[1..] + [sep] + rest;
      SplitAfterSegment(p[1..], rest, sep);
      assert [p[0]] + p[1..] == p;
    }
  }

  /** Splitting a join on the same one-character separator gives the parts back. */
  lemma {:induction false} SplitJoin(parts: seq<string>, sep: char)
    requires |parts| >= 1
    requires forall k :: 0 <= k < |parts| ==> sep !in parts[k]
    ensures Split(Join(parts, [sep]), sep) == parts
    decreases |parts|
  {
    if |parts| == 1 {
      SplitWithoutSep(parts[0], sep);
    } else {
      SplitJoin(parts[1..], sep);
      SplitAfterSegment(parts[0], Join(parts[1..], [sep]), sep);
      assert [parts[0]] + parts[1..] == parts;
    }
  }

  /** The segments contain no separator, and joining them with it gives the text back. */
  lemma {:induction false} JoinSplit(s: string, sep: char)
    ensures Join(Split(s, sep), [sep]) == s
    ensures forall k :: 0 <= k < |Split(s, sep)| ==> sep !in Split(s, sep)[k]
    decreases |s|
  {
    if |s| > 0 {
      JoinSplit(s[1..], sep);
      if s[0] == sep {
        JoinSplitAtSep(s, sep);
      } else {
        JoinSplitAtChar(s, sep);
      }
    }
  }

  /** One step of `JoinSplit` when the text starts with the separator. */
  lemma JoinSplitAtSep(s: string, sep: char)
    requires |s| > 0 && s[0] == sep
    requires Join(Split(s[1..], sep), [sep]) == s[1..]
    requires forall k :: 0 <= k < |Split(s[1..], sep)| ==> sep !in Split(s[1..], sep)[k]
    ensures Join(Split(s, sep), [sep]) == s
    ensures forall k :: 0 <= k < |Split(s, sep)| ==> sep !in Split(s, sep)[k]
  {
    var rest := Split(s[1..], sep);
    var parts := [""] + rest;
    assert Split(s, sep) == parts;
    assert parts[1..] == rest;
    assert Join(parts, [sep]) == "" + [sep] + Join(rest, [sep]);
    assert s == [sep] + s[1..];
    assert forall k | 1 <= k < |parts| :: parts[k] == rest[k - 1];
  }

  /** One step of `JoinSplit` when the text starts with another character. */
  lemma JoinSplitAtChar(s: string, sep: char)
    requires |s| > 0 && s[0] != sep
    requires Join(Split(s[1..], sep), [sep]) == s[1..]
    requires forall k :: 0 <= k < |Split(s[1..], sep)| ==> sep !in Split(s[1..], sep)[k]
    ensures Join(Split(s, sep), [sep]) == s
    ensures forall k :: 0 <= k < |Split(s, sep)| ==> sep !in Split(s, sep)[k]
  {
    var rest := Split(s[1..], sep);
    assert Split(s, sep) == [[s[0]] + rest[0]] + rest[1..];
    JoinGlued(s[0], rest, [sep]);
    NoSepGlued(s[0], rest, sep);
    assert s == [s[0]] + s[1..];
  }

  /** Gluing a character to the front of the first part puts it in front of the join. */
  lemma JoinGlued(c: char, rest: seq<string>, sep: string)
    requires |rest| > 0
    ensures Join([[c] + rest[0]] + rest[1..], sep) == [c] + Join(rest, sep)
  {
    var parts := [[c] + rest[0]] + rest[1..];
    if |rest| > 1 {
      var t := Join(rest[1..], sep);
      assert parts[1..] == rest[1..];
      assert Join(parts, sep) == ([c] + rest[0]) + sep + t;
      assert ([c] + rest[0]) + sep + t == [c] + (rest[0] + sep + t);
    }
  }

  lemma NoSepGlued(c: char, rest: seq<string>, sep: char)
    requires |rest| > 0 && c != sep
    requires forall k :: 0 <= k < |rest| ==> sep !in rest[k]
    ensures forall k :: 0 <= k < |rest| ==> sep !in ([[c] + rest[0]] + rest[1..])[k]
  {
    var parts := [[c] + rest[0]] + rest[1..];
    assert sep !in rest[0];
    assert forall k | 1 <= k < |parts| :: parts[k] == rest[k];
  }

  /** A join begins with its first part. */
  lemma {:induction false} JoinStartsWith(parts: seq<string>, sep: string)
    requires |parts| > 0
    ensures StartsWith(Join(parts, sep), parts[0])
  {
    if |parts| > 1 {
      var j := Join(parts, sep);
      assert j == parts[0] + (sep + Join(parts[1..], sep));
      assert j[..|parts[0]|] == parts[0];
    }
  }

  lemma {:induction false} OccursBetween(a: string, t: string, b: string)
    ensures Occurs(t, a + t + b)
    decreases |a|
  {
    if |a| == 0 {
      assert a + t + b == t + b;
      assert (t + b)[..|t|] == t;
    } else {
      assert (a + t + b)[1..] == a[1..] + t + b;
      OccursBetween(a[1..], t, b);
    }
  }

  lemma IntToStringNoSep(n: int, sep: char)
    requires !IsDigit(sep) && sep != '-'
    ensures sep !in IntToString(n)
  {
    var d := NatToString(if n < 0 then -n else n);
    assert forall i | 0 <= i < |d| :: d[i] != sep;
  }
}
