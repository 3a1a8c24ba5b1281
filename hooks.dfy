/** The speech hook: the language detector and the choice of speech back-end
    that `pronounceText` makes, without the audio and network I/O. */
module Hooks {
  import opened Common
  import opened Text

  const English: string := "en-US"
  const Thai: string := "th-TH"
  const Chinese: string := "zh-CN"

  /** The Thai block U+0E00..U+0E7F. */
  predicate IsThai(c: char) {
    '\U{0E00}' <= c <= '\U{0E7F}'
  }

  /** The CJK ranges the detector tests: the unified ideographs, extension A
      and the compatibility ideographs. */
  predicate IsHan(c: char) {
    || '\U{4E00}' <= c <= '\U{9FFF}'
    || '\U{3400}' <= c <= '\U{4DBF}'
    || '\U{F900}' <= c <= '\U{FAFF}'
  }

  predicate HasThai(s: string) {
    exists i :: 0 <= i < |s| && IsThai(s[i])
  }

  predicate HasHan(s: string) {
    exists i :: 0 <= i < |s| && IsHan(s[i])
  }

  /** The tone-mark class tested case-insensitively: a listed vowel or its
      upper-case form. */
  predicate HasToneMark(s: string) {
    exists i :: 0 <= i < |s| && (s[i] in ToneMarks || s[i] in ToneMarksUpper)
  }

  /** The same class tested case-sensitively, as the per-word test does. */
  predicate HasLowerToneMark(s: string) {
    exists i :: 0 <= i < |s| && s[i] in ToneMarks
  }

  /** The syllable list of the detector, in its order and with its repeats. */
  const Syllables: seq<string> := [
    "ba", "pa", "ma", "fa", "da", "ta", "na", "la", "ga", "ka", "ha",
    "ji", "qi", "xi", "zhi", "chi", "shi", "ri", "zi", "ci", "si",
    "ya", "wa", "yuan", "ying", "yang", "yong", "you", "yan", "yin",
    "ai", "ei", "ao", "ou", "an", "en", "ang", "eng", "ong",
    "ia", "ie", "iao", "iou", "ian", "in", "iang", "ing", "iong",
    "ua", "uo", "uai", "ui", "uan", "un", "uang", "ueng",
    "ue", "uan", "un"
  ]

  /** Some listed syllable equals the text or occurs in it. */
  predicate HasSyllable(t: string) {
    exists syl :: syl in Syllables && (t == syl || Contains(t, syl))
  }

  /** The lower-cased, trimmed text the syllable tests look at. */
  function Folded(s: string): string {
    Trim(Lower(s))
  }

  /** The white-space split test: more than one word, each a listed syllable or
      holding a lower-case tone mark. */
  predicate AllWordsPinyin(t: string) {
    var words := SplitWs(t);
    |words| > 1 && forall k :: 0 <= k < |words| ==> words[k] in Syllables || HasLowerToneMark(words[k])
  }

  /** `detectLanguage`, every test in its order. */
  function DetectLanguage(text: Option<string>): (lang: string)
    ensures lang == English || lang == Thai || lang == Chinese
    ensures text == None || text == Some("") ==> lang == English
  {
    match text
    case None => English
    case Some(s) =>
      if s == "" then English
      else if HasThai(s) then Thai
      else if HasHan(s) then Chinese
      else if HasToneMark(s) || HasSyllable(Folded(s)) then Chinese
      else if AllWordsPinyin(Folded(s)) then Chinese
      else English
  }

  /** Lower-casing creates no tone mark: one in the lowered text comes from a
      tone mark of either case in the text. */
  lemma {:induction false} LowerToneFrom(s: string, p: nat)
    requires p < |Lower(s)| && Lower(s)[p] in ToneMarks
    ensures HasToneMark(s)
  {
    assert |s| > 0;
    var h := LowerOf(s[0]);
    assert Lower(s) == h + Lower(s[1..]);
    if p < |h| {
      assert h[p] == Lower(s)[p];
      LowerOfTone(s[0], p);
    } else {
      assert Lower(s[1..])[p - |h|] == Lower(s)[p];
      LowerToneFrom(s[1..], p - |h|);
      var i :| 0 <= i < |s[1..]| && (s[1..][i] in ToneMarks || s[1..][i] in ToneMarksUpper);
      assert s[i + 1] == s[1..][i];
    }
  }

  /** A lower-case tone mark anywhere in the lowered text comes from a tone
      mark of either case in the text. */
  lemma LoweredToneMark(s: string, w: string)
    requires Contains(Lower(s), w) && HasLowerToneMark(w)
    ensures HasToneMark(s)
  {
    var j :| 0 <= j < |w| && w[j] in ToneMarks;
    var i :| 0 <= i <= |Lower(s)| && w <= Lower(s)[i..];
    assert Lower(s)[i..][j] == w[j];
    assert Lower(s)[i + j] == w[j];
    LowerToneFrom(s, i + j);
  }

  /** The white-space split test only accepts texts the tone-mark and syllable
      tests have already accepted: its first word occurs in the folded text, so
      a listed first word is a syllable match and a tone-marked first word comes
      from a tone mark of the text. */
  lemma WordStepRedundant(s: string)
    requires AllWordsPinyin(Folded(s))
    ensures HasToneMark(s) || HasSyllable(Folded(s))
  {
    var t := Folded(s);
    var w := SplitWs(t)[0];
    SplitWsWordsOccur(t, 0);
    if w in Syllables {
      assert w in Syllables && (t == w || Contains(t, w));
    } else {
      TrimIsInfix(Lower(s));
      ContainsTrans(Lower(s), t, w);
      LoweredToneMark(s, w);
    }
  }

  /** What the detector decides, with the redundant test taken out: Thai
      before everything, then the ideographs, then tone marks or a syllable of
      the folded text, and English otherwise. */
  lemma DetectLanguageClassifies(s: string)
    requires s != ""
    ensures DetectLanguage(Some(s)) == Thai <==> HasThai(s)
    ensures DetectLanguage(Some(s)) == Chinese <==>
      !HasThai(s) && (HasHan(s) || HasToneMark(s) || HasSyllable(Folded(s)))
    ensures DetectLanguage(Some(s)) == English <==>
      !HasThai(s) && !HasHan(s) && !HasToneMark(s) && !HasSyllable(Folded(s))
  {
    DetectsThai(s);
    DetectsChinese(s);
    DetectsEnglish(s);
  }

  lemma DetectsThai(s: string)
    requires s != ""
    ensures DetectLanguage(Some(s)) == Thai <==> HasThai(s)
  {
  }

  lemma DetectsChinese(s: string)
    requires s != ""
    ensures DetectLanguage(Some(s)) == Chinese <==>
      !HasThai(s) && (HasHan(s) || HasToneMark(s) || HasSyllable(Folded(s)))
  {
    if AllWordsPinyin(Folded(s)) {
      WordStepRedundant(s);
    }
  }

  lemma DetectsEnglish(s: string)
    requires s != ""
    ensures DetectLanguage(Some(s)) == English <==>
      !HasThai(s) && !HasHan(s) && !HasToneMark(s) && !HasSyllable(Folded(s))
  {
    if AllWordsPinyin(Folded(s)) {
      WordStepRedundant(s);
    }
  }

  /** A Thai character decides the language whatever else the text holds. */
  lemma ThaiWins(s: string, i: nat)
    requires i < |s| && IsThai(s[i])
    ensures DetectLanguage(Some(s)) == Thai
  {
  }

  /** Without Thai, one ideograph makes the text Chinese. */
  lemma HanIsChinese(s: string, i: nat)
    requires !HasThai(s) && i < |s| && IsHan(s[i])
    ensures DetectLanguage(Some(s)) == Chinese
  {
  }

  lemma FriendHasNoScript(s: string)
    requires s == "friend"
    ensures !HasThai(s) && !HasHan(s)
  {
    forall i | 0 <= i < |s| ensures !IsThai(s[i]) && !IsHan(s[i]) {
    }
  }

  lemma FriendLower(s: string)
    requires s == "friend"
    ensures Lower(s) == s
  {
    forall i | 0 <= i < |s| ensures LowerOf(s[i]) == [s[i]] {
      assert 'a' <= s[i] <= 'z';
      LowerOfSmallLetter(s[i]);
    }
    LowerKeeps(s);
  }

  lemma FriendFolded(s: string)
    requires s == "friend"
    ensures Folded(s) == s
  {
    FriendLower(s);
    assert s[0] == 'f' && s[5] == 'd';
    assert !IsSpace(s[0]) && !IsSpace(s[5]);
    TrimKeeps(s);
  }

  lemma FriendHasSyllable(s: string)
    requires s == "friend"
    ensures HasSyllable(s)
  {
    assert "en" <= s[3..];
    assert "en" in Syllables && Contains(s, "en");
  }

  /** A listed syllable inside a plain English word is enough: "friend" holds
      "en" and is classified as Chinese. */
  lemma FriendIsChinese(s: string)
    requires s == "friend"
    ensures DetectLanguage(Some(s)) == Chinese
  {
    FriendHasNoScript(s);
    FriendFolded(s);
    FriendHasSyllable(s);
  }

  lemma DottedCapitalIHasNoScript(s: string)
    requires s == "U\U{0130}"
    ensures !HasThai(s) && !HasHan(s)
  {
    forall i | 0 <= i < |s| ensures !IsThai(s[i]) && !IsHan(s[i]) {
    }
  }

  lemma DottedCapitalIFolded(s: string)
    requires s == "U\U{0130}"
    ensures Folded(s) == "ui\U{0307}"
  {
    assert Lower(s[1..]) == LowerOf('\U{0130}') + Lower("");
    assert Lower(s) == LowerOf('U') + Lower(s[1..]);
    TrimKeeps("ui\U{0307}");
  }

  lemma DottedCapitalIHasSyllable(t: string)
    requires t == "ui\U{0307}"
    ensures HasSyllable(t)
  {
    assert "ui" <= t[0..];
    assert "ui" in Syllables && Contains(t, "ui");
  }

  /** Lower-casing reaches past ASCII: the capital I with dot above U+0130
      lower-cases to `i` and a combining dot, so the text "U\U{0130}" folds to
      a text holding the syllable "ui" and is Chinese. */
  lemma DottedCapitalIIsChinese(s: string)
    requires s == "U\U{0130}"
    ensures DetectLanguage(Some(s)) == Chinese
  {
    DottedCapitalIHasNoScript(s);
    DottedCapitalIFolded(s);
    DottedCapitalIHasSyllable(Folded(s));
  }

  // ------------------------------------------------------------ routing

  /** A speech back-end tried for a text: the external service, or the
      browser's speech synthesis, each told which language to read. */
  datatype Backend = ExternalTts(text: string, lang: string) | BrowserSpeech(text: string, lang: string)

  /** The back-ends the handler tries for a non-blank text `s` of language
      `lang`, in order. `externalOk` says whether the external service played
      the audio and `speechAvailable` whether the browser offers speech
      synthesis. */
  function Route(s: string, lang: string, externalOk: bool, speechAvailable: bool): (tried: seq<Backend>)
  {
    var browser := if speechAvailable then [BrowserSpeech(s, lang)] else [];
    if lang == Chinese then [ExternalTts(s, Chinese)]
    else if lang == Thai then [ExternalTts(s, Thai)] + (if externalOk then [] else browser)
    else browser
  }

  /** `pronounceText`: nothing for an absent or blank text, otherwise the route
      of its detected language. */
  function Attempts(text: Option<string>, externalOk: bool, speechAvailable: bool): (tried: seq<Backend>)
  {
    if text == None || Trim(text.value) == "" then []
    else Route(text.value, DetectLanguage(text), externalOk, speechAvailable)
  }

  /** No text, or only white space, reaches no back-end. */
  lemma AttemptsBlank(s: string, externalOk: bool, speechAvailable: bool)
    requires forall i :: 0 <= i < |s| ==> IsSpace(s[i])
    ensures Attempts(Some(s), externalOk, speechAvailable) == []
  {
    TrimEmptyIff(s);
  }

  /** Every back-end is handed the text as given and its language, at most
      two are tried, and the external service is tried only first and never
      for English. */
  lemma RouteShape(s: string, lang: string, externalOk: bool, speechAvailable: bool)
    requires lang == English || lang == Thai || lang == Chinese
    ensures var tried := Route(s, lang, externalOk, speechAvailable);
      && |tried| <= 2
      && (forall b :: b in tried ==> b.text == s && b.lang == lang)
      && (forall i :: 0 <= i < |tried| ==> (tried[i].ExternalTts? <==> i == 0 && lang != English))
  {
  }

  /** Chinese goes to the external service only, and a failure there is not
      followed by browser speech. */
  lemma ChineseNoFallback(s: string, externalOk: bool, speechAvailable: bool)
    ensures Route(s, Chinese, externalOk, speechAvailable) == [ExternalTts(s, Chinese)]
  {
  }

  /** Thai goes to the external service first, and browser speech comes next
      exactly when that failed and the browser offers it. */
  lemma ThaiFallback(s: string, externalOk: bool, speechAvailable: bool)
    ensures var tried := Route(s, Thai, externalOk, speechAvailable);
      && tried[0] == ExternalTts(s, Thai)
      && (tried == [ExternalTts(s, Thai), BrowserSpeech(s, Thai)] <==> !externalOk && speechAvailable)
      && (tried == [ExternalTts(s, Thai)] <==> externalOk || !speechAvailable)
  {
  }

  /** English never reaches the external service, and reaches browser speech
      exactly when the browser offers it. */
  lemma EnglishBrowserOnly(s: string, externalOk: bool, speechAvailable: bool)
    ensures var tried := Route(s, English, externalOk, speechAvailable);
      && (forall b :: b in tried ==> b.BrowserSpeech?)
      && (tried == [BrowserSpeech(s, English)] <==> speechAvailable)
      && (tried == [] <==> !speechAvailable)
  {
  }

  /** A non-blank text is routed by the language the detector gives it, and
      the back-ends receive the text untrimmed. */
  lemma AttemptsRouteDetected(s: string, externalOk: bool, speechAvailable: bool)
    requires exists i :: 0 <= i < |s| && !IsSpace(s[i])
    ensures Attempts(Some(s), externalOk, speechAvailable) ==
      Route(s, DetectLanguage(Some(s)), externalOk, speechAvailable)
  {
    TrimEmptyIff(s);
  }
}
