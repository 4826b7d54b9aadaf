/** Whole chat messages: what `Webhook.Classify` makes of each command when the words after
    its keyword are given, built up from how the tokens are sorted, how the keyword is found
    and how the argument words are recovered from the text. */
module Messages {
  import opened Outcomes
  import opened Text
  import opened Offsets
  import opened Webhook


  /** Tokens are sorted one at a time, keeping their order: sorting a concatenation is
      sorting each part. */
  lemma TokensAppend(a: seq<string>, b: seq<string>)
    ensures NameTokens(a + b) == NameTokens(a) + NameTokens(b)
    ensures DigitTokens(a + b) == DigitTokens(a) + DigitTokens(b)
  {
    NameTokensAppend(a, b);
    DigitTokensAppend(a, b);
  }

  lemma {:induction false} NameTokensAppend(a: seq<string>, b: seq<string>)
    ensures NameTokens(a + b) == NameTokens(a) + NameTokens(b)
    decreases |a|
  {
    if |a| == 0 {
      assert a + b == b;
    } else {
      var h := if IsDigits(a[0]) then [] else [a[0]];
      assert NameTokens(a + b) == h + NameTokens(a[1..] + b) by {
        assert (a + b)[0] == a[0] && (a + b)[1..] == a[1..] + b;
      }
      assert NameTokens(a) == h + NameTokens(a[1..]);
      NameTokensAppend(a[1..], b);
      assert h + (NameTokens(a[1..]) + NameTokens(b)) == (h + NameTokens(a[1..])) + NameTokens(b);
    }
  }

  lemma {:induction false} DigitTokensAppend(a: seq<string>, b: seq<string>)
    ensures DigitTokens(a + b) == DigitTokens(a) + DigitTokens(b)
    decreases |a|
  {
    if |a| == 0 {
      assert a + b == b;
    } else {
      var h := if IsDigits(a[0]) then [a[0]] else [];
      assert DigitTokens(a + b) == h + DigitTokens(a[1..] + b) by {
        assert (a + b)[0] == a[0] && (a + b)[1..] == a[1..] + b;
      }
      assert DigitTokens(a) == h + DigitTokens(a[1..]);
      DigitTokensAppend(a[1..], b);
      assert h + (DigitTokens(a[1..]) + DigitTokens(b)) == (h + DigitTokens(a[1..])) + DigitTokens(b);
    }
  }

  /** A single token is a day when it is made of digits, otherwise part of the name. */
  lemma TokensOne(t: string)
    ensures NameTokens([t]) == (if IsDigits(t) then [] else [t])
    ensures DigitTokens([t]) == (if IsDigits(t) then [t] else [])
  {
    assert [t][1..] == [];
  }

  lemma {:induction false} TokensOfNames(ws: seq<string>)
    requires forall k | 0 <= k < |ws| :: !IsDigits(ws[k])
    ensures NameTokens(ws) == ws && DigitTokens(ws) == []
    decreases |ws|
  {
    if |ws| > 0 {
      TokensAppend([ws[0]], ws[1..]);
      TokensOne(ws[0]);
      TokensOfNames(ws[1..]);
      assert [ws[0]] + ws[1..] == ws;
    }
  }

  lemma {:induction false} TokensOfDigits(ws: seq<string>)
    requires forall k | 0 <= k < |ws| :: IsDigits(ws[k])
    ensures NameTokens(ws) == [] && DigitTokens(ws) == ws
    decreases |ws|
  {
    if |ws| > 0 {
      TokensAppend([ws[0]], ws[1..]);
      TokensOne(ws[0]);
      TokensOfDigits(ws[1..]);
      assert [ws[0]] + ws[1..] == ws;
    }
  }

  /** The first word of a keyword message is the keyword's first word. */
  lemma KeywordFirstWord(w1: string, tail: string)
    requires |w1| > 0 && NoSpace(w1) && UpperStable(w1)
    ensures FirstWordUpper(w1 + " " + tail) == w1
  {
    WordsConsSpace(w1, tail);
    UpperOfStable(w1);
  }

  /** Upper-casing a message that starts with an upper-case keyword and a space keeps that
      start and upper-cases the rest. */
  lemma KeywordUpper(kw: string, rest: string)
    requires UpperStable(kw)
    ensures Upper(kw + " " + rest) == kw + " " + Upper(rest)
  {
    assert UpperChar(' ') == ' ';
    assert UpperStable(" ");
    UpperStableAppend(kw, " ");
    UpperOfStable(kw + " ");
    assert kw + " " + rest == (kw + " ") + rest;
    UpperAppend(kw + " ", rest);
  }

  /** The words after a keyword and a space, once stripped and split, are the words written. */
  lemma ArgumentWords(ws: seq<string>)
    requires |ws| > 0 && AllWords(ws)
    ensures Words(Strip(" " + Join(ws, " "))) == ws
  {
    JoinEnds(ws);
    StripAround(" ", Join(ws, " "), "");
    assert " " + Join(ws, " ") + "" == " " + Join(ws, " ");
    WordsJoin(ws);
  }

  /** Joining words with spaces gives text that starts and ends with a non-space. */
  lemma {:induction false} JoinEnds(ws: seq<string>)
    requires |ws| > 0 && AllWords(ws)
    ensures var j := Join(ws, " "); |j| > 0 && !IsSpace(j[0]) && !IsSpace(j[|j| - 1])
    decreases |ws|
  {
    if |ws| > 1 {
      var tail := Join(ws[1..], " ");
      assert AllWords(ws[1..]) by {
        assert forall k | 0 <= k < |ws| - 1 :: ws[1..][k] == ws[k + 1];
      }
      JoinEnds(ws[1..]);
      var j := Join(ws, " ");
      assert j == ws[0] + " " + tail;
      assert j[0] == ws[0][0];
      assert j[|j| - 1] == tail[|tail| - 1];
    }
  }

  /** A text that differs from a keyword at some position does not start with it. */
  lemma NotStartsWith(s: string, p: string, i: nat)
    requires i < |p| && i < |s| && s[i] != p[i]
    ensures !StartsWith(s, p)
  {
    if |p| <= |s| {
      assert s[..|p|][i] == s[i];
    }
  }

  /** The chain reaches SET CURSO when MENU and the three earlier prefixes do not apply. */
  lemma ChainSetCourse(first: string, up: string, hasWords: bool)
    requires first !in MenuWords && StartsWith(up, KwSetCourse)
    requires !StartsWith(up, KwListExams) && !StartsWith(up, KwSetGlobals) && !StartsWith(up, KwUseGlobals)
    ensures DetectKeyword(first, up, hasWords) == SetCourseKw
  {
  }

  /** The upper-cased message starts with its keyword, character by character. */
  lemma KeywordPrefix(kw: string, rest: string)
    requires UpperStable(kw)
    ensures var up := Upper(kw + " " + rest);
      StartsWith(up, kw) && forall i :: 0 <= i < |kw| ==> up[i] == kw[i]
  {
    KeywordUpper(kw, rest);
    var up := Upper(kw + " " + rest);
    assert up[..|kw|] == kw;
  }

  /** A message that starts with one keyword does not start with a keyword that differs
      from it at some position. */
  lemma DiffersFrom(kw: string, rest: string, other: string, i: nat)
    requires UpperStable(kw) && i < |kw| && i < |other| && kw[i] != other[i]
    ensures !StartsWith(Upper(kw + " " + rest), other)
  {
    KeywordPrefix(kw, rest);
    NotStartsWith(Upper(kw + " " + rest), other, i);
  }

  /** The keywords and their first words are upper case. */
  lemma KeywordsStable()
    ensures UpperStable(KwSetGlobals) && UpperStable(KwUseGlobals) && UpperStable(KwSetCourse)
    ensures UpperStable(KwAddExam) && UpperStable(KwChangeDate) && UpperStable(KwDeleteExam)
    ensures UpperStable("SET") && UpperStable("USAR") && UpperStable("AGREGAR")
    ensures UpperStable("CAMBIAR") && UpperStable("ELIMINAR")
  {
    SettingKeywordsStable();
    ExamKeywordsStable();
    FirstWordsStable();
  }

  lemma SettingKeywordsStable()
    ensures UpperStable(KwSetGlobals) && UpperStable(KwUseGlobals) && UpperStable(KwSetCourse)
  {
  }

  lemma ExamKeywordsStable()
    ensures UpperStable(KwAddExam) && UpperStable(KwChangeDate) && UpperStable(KwDeleteExam)
  {
  }

  lemma FirstWordsStable()
    ensures UpperStable("SET") && UpperStable("USAR") && UpperStable("AGREGAR")
    ensures UpperStable("CAMBIAR") && UpperStable("ELIMINAR")
  {
  }

  lemma KeywordsSplit()
    ensures KwSetGlobals == "SET" + " " + "GLOBALES" && KwUseGlobals == "USAR" + " " + "GLOBALES"
    ensures KwSetCourse == "SET" + " " + "CURSO" && KwAddExam == "AGREGAR" + " " + "EXAMEN"
    ensures KwChangeDate == "CAMBIAR" + " " + "FECHA" && KwDeleteExam == "ELIMINAR" + " " + "EXAMEN"
    ensures NoSpace("SET") && NoSpace("USAR") && NoSpace("AGREGAR") && NoSpace("CAMBIAR") && NoSpace("ELIMINAR")
    ensures "SET" !in MenuWords && "USAR" !in MenuWords && "AGREGAR" !in MenuWords
    ensures "CAMBIAR" !in MenuWords && "ELIMINAR" !in MenuWords
  {
  }

  /** Where the keywords differ from the ones tested before them: their first letters, and
      the fifth letter of the two SET commands. */
  lemma KeywordInitials()
    ensures KwListExams[0] == 'M' && KwSetGlobals[0] == 'S' && KwUseGlobals[0] == 'U'
    ensures KwSetCourse[0] == 'S' && KwAddExam[0] == 'A' && KwChangeDate[0] == 'C'
    ensures KwDeleteExam[0] == 'E' && KwSetGlobals[4] == 'G' && KwSetCourse[4] == 'C'
  {
  }

  lemma DetectSetCourse(rest: string)
    ensures Detect(KwSetCourse + " " + rest) == SetCourseKw
  {
    KeywordsStable();
    KeywordsSplit();
    KeywordInitials();
    var m := KwSetCourse + " " + rest;
    assert m == "SET" + " " + ("CURSO" + " " + rest);
    KeywordFirstWord("SET", "CURSO" + " " + rest);
    KeywordPrefix(KwSetCourse, rest);
    DiffersFrom(KwSetCourse, rest, KwListExams, 0);
    DiffersFrom(KwSetCourse, rest, KwSetGlobals, 4);
    DiffersFrom(KwSetCourse, rest, KwUseGlobals, 0);
    ChainSetCourse(FirstWordUpper(m), Upper(m), |Words(m)| > 0);
  }

  /** The chain reaches SET GLOBALES when MENU and MIS EXAMENES do not apply. */
  lemma ChainSetGlobals(first: string, up: string, hasWords: bool)
    requires first !in MenuWords && StartsWith(up, KwSetGlobals) && !StartsWith(up, KwListExams)
    ensures DetectKeyword(first, up, hasWords) == SetGlobalsKw
  {
  }

  /** The chain reaches USAR GLOBALES on a message with words when MENU and the two earlier
      prefixes do not apply. */
  lemma ChainUseGlobals(first: string, up: string, hasWords: bool)
    requires first !in MenuWords && hasWords && StartsWith(up, KwUseGlobals)
    requires !StartsWith(up, KwListExams) && !StartsWith(up, KwSetGlobals)
    ensures DetectKeyword(first, up, hasWords) == UseGlobalsKw
  {
  }

  /** The chain reaches AGREGAR EXAMEN when MENU and the four earlier prefixes do not apply. */
  lemma ChainAddExam(first: string, up: string, hasWords: bool)
    requires first !in MenuWords && StartsWith(up, KwAddExam)
    requires !StartsWith(up, KwListExams) && !StartsWith(up, KwSetGlobals)
    requires !StartsWith(up, KwUseGlobals) && !StartsWith(up, KwSetCourse)
    ensures DetectKeyword(first, up, hasWords) == AddExamKw
  {
  }

  /** The chain reaches CAMBIAR FECHA when MENU and the five earlier prefixes do not apply. */
  lemma ChainChangeDate(first: string, up: string, hasWords: bool)
    requires first !in MenuWords && StartsWith(up, KwChangeDate)
    requires !StartsWith(up, KwListExams) && !StartsWith(up, KwSetGlobals)
    requires !StartsWith(up, KwUseGlobals) && !StartsWith(up, KwSetCourse)
    requires !StartsWith(up, KwAddExam)
    ensures DetectKeyword(first, up, hasWords) == ChangeDateKw
  {
  }

  /** The chain reaches ELIMINAR EXAMEN when MENU and the six earlier prefixes do not apply. */
  lemma ChainDeleteExam(first: string, up: string, hasWords: bool)
    requires first !in MenuWords && StartsWith(up, KwDeleteExam)
    requires !StartsWith(up, KwListExams) && !StartsWith(up, KwSetGlobals)
    requires !StartsWith(up, KwUseGlobals) && !StartsWith(up, KwSetCourse)
    requires !StartsWith(up, KwAddExam) && !StartsWith(up, KwChangeDate)
    ensures DetectKeyword(first, up, hasWords) == DeleteExamKw
  {
  }

  lemma DetectSetGlobals(rest: string)
    ensures Detect(KwSetGlobals + " " + rest) == SetGlobalsKw
  {
    KeywordsStable();
    KeywordsSplit();
    KeywordInitials();
    var m := KwSetGlobals + " " + rest;
    assert m == "SET" + " " + ("GLOBALES" + " " + rest);
    KeywordFirstWord("SET", "GLOBALES" + " " + rest);
    KeywordPrefix(KwSetGlobals, rest);
    DiffersFrom(KwSetGlobals, rest, KwListExams, 0);
    ChainSetGlobals(FirstWordUpper(m), Upper(m), |Words(m)| > 0);
  }

  lemma DetectUseGlobals(rest: string)
    ensures Detect(KwUseGlobals + " " + rest) == UseGlobalsKw
  {
    KeywordsStable();
    KeywordsSplit();
    KeywordInitials();
    var m := KwUseGlobals + " " + rest;
    assert m == "USAR" + " " + ("GLOBALES" + " " + rest);
    KeywordFirstWord("USAR", "GLOBALES" + " " + rest);
    WordsConsSpace("USAR", "GLOBALES" + " " + rest);
    KeywordPrefix(KwUseGlobals, rest);
    DiffersFrom(KwUseGlobals, rest, KwListExams, 0);
    DiffersFrom(KwUseGlobals, rest, KwSetGlobals, 0);
    ChainUseGlobals(FirstWordUpper(m), Upper(m), |Words(m)| > 0);
  }

  lemma DetectAddExam(rest: string)
    ensures Detect(KwAddExam + " " + rest) == AddExamKw
  {
    KeywordsStable();
    KeywordsSplit();
    KeywordInitials();
    var m := KwAddExam + " " + rest;
    assert m == "AGREGAR" + " " + ("EXAMEN" + " " + rest);
    KeywordFirstWord("AGREGAR", "EXAMEN" + " " + rest);
    KeywordPrefix(KwAddExam, rest);
    DiffersFrom(KwAddExam, rest, KwListExams, 0);
    DiffersFrom(KwAddExam, rest, KwSetGlobals, 0);
    DiffersFrom(KwAddExam, rest, KwUseGlobals, 0);
    DiffersFrom(KwAddExam, rest, KwSetCourse, 0);
    ChainAddExam(FirstWordUpper(m), Upper(m), |Words(m)| > 0);
  }

  lemma DetectChangeDate(rest: string)
    ensures Detect(KwChangeDate + " " + rest) == ChangeDateKw
  {
    KeywordsStable();
    KeywordsSplit();
    KeywordInitials();
    var m := KwChangeDate + " " + rest;
    assert m == "CAMBIAR" + " " + ("FECHA" + " " + rest);
    KeywordFirstWord("CAMBIAR", "FECHA" + " " + rest);
    KeywordPrefix(KwChangeDate, rest);
    DiffersFrom(KwChangeDate, rest, KwListExams, 0);
    DiffersFrom(KwChangeDate, rest, KwSetGlobals, 0);
    DiffersFrom(KwChangeDate, rest, KwUseGlobals, 0);
    DiffersFrom(KwChangeDate, rest, KwSetCourse, 0);
    DiffersFrom(KwChangeDate, rest, KwAddExam, 0);
    ChainChangeDate(FirstWordUpper(m), Upper(m), |Words(m)| > 0);
  }

  lemma DetectDeleteExam(rest: string)
    ensures Detect(KwDeleteExam + " " + rest) == DeleteExamKw
  {
    KeywordsStable();
    KeywordsSplit();
    KeywordInitials();
    var m := KwDeleteExam + " " + rest;
    assert m == "ELIMINAR" + " " + ("EXAMEN" + " " + rest);
    KeywordFirstWord("ELIMINAR", "EXAMEN" + " " + rest);
    KeywordPrefix(KwDeleteExam, rest);
    DiffersFrom(KwDeleteExam, rest, KwListExams, 0);
    DiffersFrom(KwDeleteExam, rest, KwSetGlobals, 0);
    DiffersFrom(KwDeleteExam, rest, KwUseGlobals, 0);
    DiffersFrom(KwDeleteExam, rest, KwSetCourse, 0);
    DiffersFrom(KwDeleteExam, rest, KwAddExam, 0);
    DiffersFrom(KwDeleteExam, rest, KwChangeDate, 0);
    ChainDeleteExam(FirstWordUpper(m), Upper(m), |Words(m)| > 0);
  }

  /** What follows a keyword in its message is the space and the text. */
  lemma AfterKeyword(kw: string, rest: string)
    ensures (kw + " " + rest)[|kw|..] == " " + rest
  {
  }

  /** A SET CURSO message is read from the words after the keyword. */
  lemma ClassifySetCourseText(rest: string)
    ensures Classify(KwSetCourse + " " + rest) == ParseSetCourse(Words(Strip(" " + rest)))
  {
    DetectSetCourse(rest);
    AfterKeyword(KwSetCourse, rest);
  }

  /** Course words followed by day numbers name that course with those days, normalised. */
  lemma ParseSetCourseOf(cw: seq<string>, ds: seq<string>)
    requires |cw| > 0 && AllWords(cw)
    requires forall k | 0 <= k < |cw| :: !IsDigits(cw[k])
    requires forall k | 0 <= k < |ds| :: IsDigits(ds[k])
    ensures ParseSetCourse(cw + ds) == SetCourse(Join(cw, " "), NormalizeLenient(ds))
  {
    assert NameTokens(cw + ds) == cw && DigitTokens(cw + ds) == ds by {
      TokensAppend(cw, ds);
      TokensOfNames(cw);
      TokensOfDigits(ds);
    }
    JoinStripped(cw);
  }

  /** Words joined by single spaces have nothing for Strip to remove. */
  lemma JoinStripped(ws: seq<string>)
    requires |ws| > 0 && AllWords(ws)
    ensures Strip(Join(ws, " ")) == Join(ws, " ")
  {
    JoinEnds(ws);
    StripNoSpace(Join(ws, " "));
  }

  /** Course words and day numbers, each a non-empty run of non-space characters. */
  lemma AllWordsAppend(a: seq<string>, b: seq<string>)
    requires AllWords(a) && AllWords(b)
    ensures AllWords(a + b)
  {
    forall k | 0 <= k < |a + b| ensures |(a + b)[k]| > 0 && NoSpace((a + b)[k]) {
      if k >= |a| {
        assert (a + b)[k] == b[k - |a|];
      }
    }
  }

  lemma DigitsAreWords(ds: seq<string>)
    requires forall k | 0 <= k < |ds| :: IsDigits(ds[k])
    ensures AllWords(ds)
  {
  }

  /** SET CURSO followed by course words and then day numbers is read as that course with
      those days, normalised. */
  lemma ClassifySetCourse(cw: seq<string>, ds: seq<string>)
    requires |cw| > 0 && AllWords(cw)
    requires forall k | 0 <= k < |cw| :: !IsDigits(cw[k])
    requires forall k | 0 <= k < |ds| :: IsDigits(ds[k])
    ensures Classify(KwSetCourse + " " + Join(cw + ds, " "))
         == SetCourse(Join(cw, " "), NormalizeLenient(ds))
  {
    DigitsAreWords(ds);
    AllWordsAppend(cw, ds);
    ClassifySetCourseText(Join(cw + ds, " "));
    ArgumentWords(cw + ds);
    ParseSetCourseOf(cw, ds);
  }

  /** A SET GLOBALES message is read from its upper-cased text with the keyword removed. */
  lemma ClassifySetGlobalsText(incoming: string)
    requires Detect(incoming) == SetGlobalsKw
    ensures Classify(incoming) == ParseSetGlobals(incoming)
  {
  }

  /** Removing the keyword from an upper-cased SET GLOBALES message leaves the day numbers. */
  lemma SetGlobalsArguments(ds: seq<string>)
    requires forall k | 0 <= k < |ds| :: IsDigits(ds[k])
    ensures RemoveAll(Upper(KwSetGlobals + " " + Join(ds, " ")), KwSetGlobals) == " " + Join(ds, " ")
  {
    SettingKeywordsStable();
    KeywordInitials();
    JoinDigitText(ds);
    KeywordBeforeDigits(KwSetGlobals, Join(ds, " "));
  }

  /** SET GLOBALES followed by day numbers sets those days, normalised. */
  lemma ClassifySetGlobals(ds: seq<string>)
    requires |ds| > 0 && forall k | 0 <= k < |ds| :: IsDigits(ds[k])
    ensures Classify(KwSetGlobals + " " + Join(ds, " ")) == SetGlobals(NormalizeLenient(ds))
  {
    var j := Join(ds, " ");
    var m := KwSetGlobals + " " + j;
    assert Classify(m) == ParseSetGlobals(m) by {
      DetectSetGlobals(j);
      ClassifySetGlobalsText(m);
    }
    assert RemoveAll(Upper(m), KwSetGlobals) == " " + j by {
      SetGlobalsArguments(ds);
    }
    assert Words(Strip(" " + j)) == ds by {
      DigitsAreWords(ds);
      ArgumentWords(ds);
    }
  }

  /** A USAR GLOBALES message is read from the last of all its words. */
  lemma ClassifyUseGlobalsText(rest: string)
    ensures var ws := Words(KwUseGlobals + " " + rest);
      |ws| > 0 && Classify(KwUseGlobals + " " + rest) == ParseUseGlobals(ws)
  {
    DetectUseGlobals(rest);
  }

  /** The second words of the two-word keywords hold no space. */
  lemma SecondWordsNoSpace()
    ensures NoSpace("GLOBALES") && NoSpace("CURSO") && NoSpace("EXAMEN") && NoSpace("FECHA")
  {
  }

  /** The words of USAR GLOBALES followed by one word. */
  lemma UseGlobalsWords(w: string)
    requires |w| > 0 && NoSpace(w)
    ensures Words(KwUseGlobals + " " + w) == ["USAR", "GLOBALES", w]
  {
    KeywordsSplit();
    SecondWordsNoSpace();
    ThreeWords("USAR", "GLOBALES", w);
    assert KwUseGlobals + " " + w == "USAR" + " " + "GLOBALES" + " " + w;
  }

  /** USAR GLOBALES followed by one word: yes and no words switch the globals on and off,
      anything else asks again. */
  lemma ClassifyUseGlobals(w: string)
    requires |w| > 0 && NoSpace(w)
    ensures Classify(KwUseGlobals + " " + w)
         == UseGlobals(if Upper(w) in YesWords then Some(true)
                       else if Upper(w) in NoWords then Some(false) else None)
  {
    ClassifyUseGlobalsText(w);
    UseGlobalsWords(w);
  }

  /** The words after AGREGAR EXAMEN are read as they stand. */
  lemma ClassifyAddExamWords(ws: seq<string>)
    requires |ws| > 0 && AllWords(ws)
    ensures Classify(KwAddExam + " " + Join(ws, " ")) == ParseAddExam(ws)
  {
    DetectAddExam(Join(ws, " "));
    AfterKeyword(KwAddExam, Join(ws, " "));
    ArgumentWords(ws);
  }

  /** Course words, the first date-shaped word, then day numbers: the course, that date and
      those days; no days at all leaves the exam without its own list. */
  lemma ParseAddExamOf(cw: seq<string>, date: string, ds: seq<string>)
    requires forall k | 0 <= k < |cw| :: !DateShaped(cw[k])
    requires DateShaped(date) && |cw| + |ds| > 0
    ensures ParseAddExam(cw + [date] + ds)
         == AddExam(Join(cw, " "), date, if |ds| > 0 then NormalizeLenient(ds) else [])
  {
    var ws := cw + [date] + ds;
    DateIndexAfter(cw, date, ds);
    ParseAddExamAt(ws, |cw|);
    ThreeParts(cw, date, ds);
  }

  /** Once the date is found, the words before it are the course and the words after it
      the days. */
  lemma ParseAddExamAt(ws: seq<string>, k: nat)
    requires |ws| >= 2 && k < |ws| && DateIndex(ws) == Some(k)
    ensures ParseAddExam(ws)
         == AddExam(Join(ws[..k], " "), ws[k], if k + 1 < |ws| then NormalizeLenient(ws[k + 1..]) else [])
  {
  }

  /** The pieces of a sequence with one element in the middle. */
  lemma ThreeParts<T>(a: seq<T>, x: T, b: seq<T>)
    ensures var ws := a + [x] + b;
      ws[..|a|] == a && ws[|a|] == x && ws[|a| + 1..] == b
  {
  }

  /** The first date-shaped word is the one after the course words. */
  lemma DateIndexAfter(cw: seq<string>, date: string, ds: seq<string>)
    requires forall k | 0 <= k < |cw| :: !DateShaped(cw[k])
    requires DateShaped(date)
    ensures DateIndex(cw + [date] + ds) == Some(|cw|)
  {
    var ws := cw + [date] + ds;
    assert ws[|cw|] == date;
    assert forall j | 0 <= j < |cw| :: ws[j] == cw[j];
  }

  /** AGREGAR EXAMEN with course words, a date and day numbers adds that exam. */
  lemma ClassifyAddExam(cw: seq<string>, date: string, ds: seq<string>)
    requires AllWords(cw) && AllWords(ds) && NoSpace(date)
    requires forall k | 0 <= k < |cw| :: !DateShaped(cw[k])
    requires DateShaped(date) && |cw| + |ds| > 0
    ensures Classify(KwAddExam + " " + Join(cw + [date] + ds, " "))
         == AddExam(Join(cw, " "), date, if |ds| > 0 then NormalizeLenient(ds) else [])
  {
    AllWordsAppend(cw, [date]);
    AllWordsAppend(cw + [date], ds);
    ClassifyAddExamWords(cw + [date] + ds);
    ParseAddExamOf(cw, date, ds);
  }

  /** The words after CAMBIAR FECHA are read as they stand. */
  lemma ClassifyChangeDateWords(ws: seq<string>)
    requires |ws| > 0 && AllWords(ws)
    ensures Classify(KwChangeDate + " " + Join(ws, " ")) == ParseChangeDate(ws)
  {
    DetectChangeDate(Join(ws, " "));
    AfterKeyword(KwChangeDate, Join(ws, " "));
    ArgumentWords(ws);
  }

  /** CAMBIAR FECHA with course words and then a last word moves that course to that date. */
  lemma ClassifyChangeDate(cw: seq<string>, date: string)
    requires |cw| > 0 && AllWords(cw) && |date| > 0 && NoSpace(date)
    ensures Classify(KwChangeDate + " " + Join(cw + [date], " ")) == ChangeDate(Join(cw, " "), date)
  {
    assert (cw + [date])[..|cw|] == cw;
    AllWordsAppend(cw, [date]);
    ClassifyChangeDateWords(cw + [date]);
  }

  /** An ELIMINAR EXAMEN message names the course by the stripped text after the keyword. */
  lemma ClassifyDeleteExamText(rest: string)
    ensures Classify(KwDeleteExam + " " + rest) == DeleteExam(Strip(" " + rest))
  {
    DetectDeleteExam(rest);
    AfterKeyword(KwDeleteExam, rest);
  }

  /** ELIMINAR EXAMEN names the course by the whole text after the keyword. */
  lemma ClassifyDeleteExam(course: string)
    requires |course| > 0 && !IsSpace(course[0]) && !IsSpace(course[|course| - 1])
    ensures Classify(KwDeleteExam + " " + course) == DeleteExam(course)
  {
    ClassifyDeleteExamText(course);
    StripLeadingSpace(course);
  }

  /** A space in front of text with non-space ends is all Strip removes. */
  lemma StripLeadingSpace(t: string)
    requires |t| > 0 && !IsSpace(t[0]) && !IsSpace(t[|t| - 1])
    ensures Strip(" " + t) == t
  {
    StripAround(" ", t, "");
    assert " " + t + "" == " " + t;
  }
}
