/** The JavaScript string built-ins that the flashcard code relies on (`trim`,
    `toLowerCase`, `includes`, `split`), written out over `seq<char>`. */
module Text {

  /** JavaScript's WhiteSpace and LineTerminator characters: what `trim` strips
      and what the regular-expression class `\s` matches. */
  predicate IsSpace(c: char) {
    || c == ' ' || c == '\t' || c == '\n' || c == '\U{B}' || c == '\U{C}' || c == '\r'
    || c == '\U{A0}' || c == '\U{1680}' || ('\U{2000}' <= c <= '\U{200A}')
    || c == '\U{2028}' || c == '\U{2029}' || c == '\U{202F}' || c == '\U{205F}'
    || c == '\U{3000}' || c == '\U{FEFF}'
  }

  /** `w` occurs in `s` as a contiguous substring (`s.includes(w)`). */
  predicate Contains(s: string, w: string) {
    exists i :: 0 <= i <= |s| && w <= s[i..]
  }

  lemma ContainsInSuffix(s: string, j: nat, w: string)
    requires j <= |s| && Contains(s[j..], w)
    ensures Contains(s, w)
  {
    var i :| 0 <= i <= |s[j..]| && w <= s[j..][i..];
    assert s[j + i..] == s[j..][i..];
  }

  /** Containment is transitive. */
  lemma ContainsTrans(u: string, t: string, w: string)
    requires Contains(u, t) && Contains(t, w)
    ensures Contains(u, w)
  {
    var a :| 0 <= a <= |u| && t <= u[a..];
    var i :| 0 <= i <= |t| && w <= t[i..];
    assert w <= u[a + i..];
  }

  // ---------------------------------------------------------------- trim

  /** Drops the leading white space: the result is the suffix of `s` that starts
      at its first non-space character. */
  function TrimStart(s: string): (r: string)
    ensures |r| <= |s| && r == s[|s| - |r|..]
    ensures r == "" || !IsSpace(r[0])
    ensures forall i :: 0 <= i < |s| - |r| ==> IsSpace(s[i])
  {
    if |s| > 0 && IsSpace(s[0]) then TrimStart(s[1..]) else s
  }

  /** Drops the trailing white space: the result is the prefix of `s` that ends
      at its last non-space character. */
  function TrimEnd(s: string): (r: string)
    ensures |r| <= |s| && r == s[..|r|]
    ensures r == "" || !IsSpace(r[|r| - 1])
    ensures forall i :: |r| <= i < |s| ==> IsSpace(s[i])
  {
    if |s| > 0 && IsSpace(s[|s| - 1]) then TrimEnd(s[..|s| - 1]) else s
  }

  /** `String.prototype.trim`. */
  function Trim(s: string): (r: string)
  {
    TrimEnd(TrimStart(s))
  }

  /** The trimmed string is the part of `s` between some white-space prefix and
      some white-space suffix, and it neither starts nor ends with white space. */
  lemma TrimIsInfix(s: string)
    ensures Contains(s, Trim(s))
    ensures Trim(s) == "" || (!IsSpace(Trim(s)[0]) && !IsSpace(Trim(s)[|Trim(s)| - 1]))
  {
    var t := TrimStart(s);
    var a := |s| - |t|;
    assert Trim(s) <= s[a..];
  }

  /** A string with no white space at either end is its own trim. */
  lemma TrimKeeps(s: string)
    requires s == "" || (!IsSpace(s[0]) && !IsSpace(s[|s| - 1]))
    ensures Trim(s) == s
  {
    assert TrimStart(s) == s;
  }

  /** `s.trim()` is empty exactly when `s` is empty or all white space. */
  lemma TrimEmptyIff(s: string)
    ensures Trim(s) == "" <==> forall i :: 0 <= i < |s| ==> IsSpace(s[i])
  {
    var t := TrimStart(s);
    if Trim(s) == "" {
      assert t == "";
    } else {
      var k := |s| - |t|;
      assert t[0] == s[k] && !IsSpace(t[0]);
    }
  }

  // ----------------------------------------------------------- lowercase

  /** The lower-case tone-marked vowels of pinyin, as listed in the pinyin
      detector, and their upper-case forms in the same order. */
  const ToneMarks: string := "āáǎàēéěèīíǐìōóǒòūúǔùǖǘǚǜ"
  const ToneMarksUpper: string := "ĀÁǍÀĒÉĚÈĪÍǏÌŌÓǑÒŪÚǓÙǕǗǙǛ"

  /** Each upper-case tone-marked vowel and its lower-case form. */
  const ToneLower: map<char, char> := map[
    'Ā' := 'ā', 'Á' := 'á', 'Ǎ' := 'ǎ', 'À' := 'à', 'Ē' := 'ē', 'É' := 'é',
    'Ě' := 'ě', 'È' := 'è', 'Ī' := 'ī', 'Í' := 'í', 'Ǐ' := 'ǐ', 'Ì' := 'ì',
    'Ō' := 'ō', 'Ó' := 'ó', 'Ǒ' := 'ǒ', 'Ò' := 'ò', 'Ū' := 'ū', 'Ú' := 'ú',
    'Ǔ' := 'ǔ', 'Ù' := 'ù', 'Ǖ' := 'ǖ', 'Ǘ' := 'ǘ', 'Ǚ' := 'ǚ', 'Ǜ' := 'ǜ'
  ]

  /** `toLowerCase` on one character, for the characters that lower-case to an
      ASCII letter or to a tone-marked vowel: the ASCII capitals, the Kelvin sign
      U+212A (to `k`) and the upper-case tone-marked vowels. Every other
      character is left as it is. */
  function LowerChar(c: char): (d: char)
    ensures c !in ToneMarksUpper && !('A' <= c <= 'Z') && c != '\U{212A}' ==> d == c
    ensures 'A' <= c <= 'Z' ==> 'a' <= d <= 'z' && d as int == c as int + 32
  {
    if 'A' <= c <= 'Z' then (c as int + 32) as char
    else if c == '\U{212A}' then 'k'
    else if c in ToneLower then ToneLower[c]
    else c
  }

  /** `toLowerCase` of one character as a string: the capital I with dot above
      U+0130 becomes two characters, `i` and the combining dot U+0307. */
  function LowerOf(c: char): string
  {
    if c == '\U{0130}' then "i\U{0307}" else [LowerChar(c)]
  }

  /** `toLowerCase`: each character's lower-case string, in order. It never
      shortens the text. */
  function Lower(s: string): (r: string)
    ensures |r| >= |s|
  {
    if |s| == 0 then "" else LowerOf(s[0]) + Lower(s[1..])
  }

  /** A lower-case ASCII letter lower-cases to itself. */
  lemma LowerOfSmallLetter(c: char)
    requires 'a' <= c <= 'z'
    ensures LowerOf(c) == [c]
  {
    assert c !in ToneMarksUpper;
  }

  /** A text of characters that lower-case to themselves is its own lower case. */
  lemma {:induction false} LowerKeeps(s: string)
    requires forall i :: 0 <= i < |s| ==> LowerOf(s[i]) == [s[i]]
    ensures Lower(s) == s
  {
    if |s| > 0 {
      LowerKeeps(s[1..]);
      assert s == [s[0]] + s[1..];
    }
  }

  /** Lower-casing never creates a tone mark: a lower-case tone mark in the
      result comes from a tone mark of either case in the input. */
  lemma LowerCharTone(c: char)
    requires LowerChar(c) in ToneMarks
    ensures c in ToneMarks || c in ToneMarksUpper
  {
  }

  lemma LowerOfTone(c: char, p: nat)
    requires p < |LowerOf(c)| && LowerOf(c)[p] in ToneMarks
    ensures c in ToneMarks || c in ToneMarksUpper
  {
    if c != '\U{0130}' {
      LowerCharTone(c);
    }
  }

  // --------------------------------------------------------------- split

  /** Position of the first `c` in `s`; `|s|` when there is none. */
  function Find(s: string, c: char): (i: nat)
    ensures i <= |s|
    ensures forall k :: 0 <= k < i ==> s[k] != c
    ensures i < |s| ==> s[i] == c
  {
    if |s| == 0 then 0 else if s[0] == c then 0 else 1 + Find(s[1..], c)
  }

  /** Position of the first white-space character of `s`; `|s|` when there is none. */
  function FindSpace(s: string): (i: nat)
    ensures i <= |s|
    ensures forall k :: 0 <= k < i ==> !IsSpace(s[k])
    ensures i < |s| ==> IsSpace(s[i])
  {
    if |s| == 0 then 0 else if IsSpace(s[0]) then 0 else 1 + FindSpace(s[1..])
  }

  /** End of the run of white space that starts at `i`. */
  function SkipSpaces(s: string, i: nat): (j: nat)
    requires i <= |s|
    ensures i <= j <= |s|
    ensures forall k :: i <= k < j ==> IsSpace(s[k])
    ensures j < |s| ==> !IsSpace(s[j])
    decreases |s| - i
  {
    if i < |s| && IsSpace(s[i]) then SkipSpaces(s, i + 1) else i
  }

  /** `s.split(/\s+/)`: the pieces between maximal runs of white space. A leading
      or trailing run yields an empty first or last piece, and `""` yields `[""]`. */
  function SplitWs(s: string): (words: seq<string>)
    ensures |words| >= 1
    ensures forall k :: 0 <= k < |words| ==> forall c :: c in words[k] ==> !IsSpace(c)
    decreases |s|
  {
    var i := FindSpace(s);
    if i == |s| then [s]
    else
      var j := SkipSpaces(s, i);
      assert forall c :: c in s[..i] ==> !IsSpace(c);
      [s[..i]] + SplitWs(s[j..])
  }

  /** Every piece of a white-space split occurs in the string it came from. */
  lemma {:induction false} SplitWsWordsOccur(s: string, k: nat)
    requires k < |SplitWs(s)|
    ensures Contains(s, SplitWs(s)[k])
    decreases |s|
  {
    var i := FindSpace(s);
    if i == |s| {
      assert SplitWs(s) == [s];
      assert s <= s[0..];
    } else {
      var j := SkipSpaces(s, i);
      var rest := SplitWs(s[j..]);
      assert SplitWs(s) == [s[..i]] + rest;
      if k == 0 {
        assert s[..i] <= s[0..];
      } else {
        assert SplitWs(s)[k] == rest[k - 1];
        SplitWsWordsOccur(s[j..], k - 1);
        ContainsInSuffix(s, j, rest[k - 1]);
      }
    }
  }

  /** `s.split(sep)` for a one-character separator: always one more piece than
      there are separators, none of them holding the separator. */
  function SplitOn(s: string, sep: char): (parts: seq<string>)
    ensures |parts| >= 1
    ensures forall k :: 0 <= k < |parts| ==> sep !in parts[k]
    decreases |s|
  {
    var i := Find(s, sep);
    if i == |s| then [s] else [s[..i]] + SplitOn(s[i + 1..], sep)
  }

  /** `parts.join(sep)`. */
  function JoinWith(parts: seq<string>, sep: char): string
    requires |parts| >= 1
    decreases |parts|
  {
    if |parts| == 1 then parts[0] else parts[0] + [sep] + JoinWith(parts[1..], sep)
  }

  /** Splitting loses nothing: joining the pieces back gives the string. */
  lemma {:induction false} SplitJoin(s: string, sep: char)
    ensures JoinWith(SplitOn(s, sep), sep) == s
    decreases |s|
  {
    var i := Find(s, sep);
    if i < |s| {
      var head, tail := s[..i], s[i + 1..];
      var rest := SplitOn(tail, sep);
      assert SplitOn(s, sep) == [head] + rest;
      SplitJoin(tail, sep);
      JoinCons(head, rest, sep);
      CutAt(s, i);
    }
  }

  lemma CutAt(s: string, i: nat)
    requires i < |s|
    ensures s == s[..i] + [s[i]] + s[i + 1..]
  {
  }

  lemma JoinCons(p: string, rest: seq<string>, sep: char)
    requires |rest| >= 1
    ensures JoinWith([p] + rest, sep) == p + [sep] + JoinWith(rest, sep)
  {
    assert ([p] + rest)[1..] == rest;
  }

  /** Joining separator-free pieces and splitting again gives the pieces back. */
  lemma {:induction false} JoinSplit(parts: seq<string>, sep: char)
    requires |parts| >= 1
    requires forall k :: 0 <= k < |parts| ==> sep !in parts[k]
    ensures SplitOn(JoinWith(parts, sep), sep) == parts
    decreases |parts|
  {
    if |parts| == 1 {
      assert Find(parts[0], sep) == |parts[0]|;
    } else {
      var p, rest := parts[0], parts[1..];
      JoinSplit(rest, sep);
      assert parts == [p] + rest;
      JoinCons(p, rest, sep);
      SplitAfterPrefix(p, sep, JoinWith(rest, sep));
    }
  }

  /** A separator-free first piece comes off first. */
  lemma SplitAfterPrefix(p: string, c: char, t: string)
    requires c !in p
    ensures SplitOn(p + [c] + t, c) == [p] + SplitOn(t, c)
  {
    var s := p + [c] + t;
    FindAfterPrefix(p, c, t);
    assert s[..|p|] == p;
    assert s[|p| + 1..] == t;
  }

  lemma FindAfterPrefix(p: string, c: char, t: string)
    requires c !in p
    ensures Find(p + [c] + t, c) == |p|
  {
    var s := p + [c] + t;
    assert s[|p|] == c;
    assert forall k :: 0 <= k < |p| ==> s[k] == p[k];
  }
}
