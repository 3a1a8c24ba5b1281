/** The vocabulary tables, the access-code table and the Fisher-Yates shuffle. */
module Data {
  import opened Common

  /** A vocabulary entry: the front text (characters, then pinyin), the back
      text (English, then Thai) and a decorative emoji. */
  datatype Vocab = Vocab(front: string, back: string, emoji: string)

  /** A vocabulary entry as it is listed in a deck, with its status tag. */
  datatype DeckCard = DeckCard(front: string, back: string, emoji: string, status: string)

  /** One entry of the access-code table. */
  datatype DeckData = DeckData(
    title: string,
    cards: seq<DeckCard>,
    sampleCard: DeckCard,
    cardColor: string,
    cardBackColor: string)

  const ChineseVocabulary: seq<Vocab> :=
    [
      Vocab("爸爸\nbà ba", "dad\nพ่อ", "👨‍👧‍👦"),
      Vocab("别\nbié", "don't\nอย่า", "🚫"),
      Vocab("朋友\npéng yǒu", "friend\nเพื่อน", "👫"),
      Vocab("怕\npà", "to fear\nกลัว", "😨"),
      Vocab("妈妈\nmā ma", "mom\nแม่", "👩‍👧‍👦"),
      Vocab("买\nmǎi", "to buy\nซื้อ", "🛒"),
      Vocab("饭\nfàn", "meal\nข้าว", "🍽️"),
      Vocab("富\nfù", "rich\nรวย", "💰"),
      Vocab("奶奶\nnǎi nai", "grandmother\nยาย", "👵"),
      Vocab("你\nnǐ", "you\nคุณ", "👤"),
      Vocab("老\nlǎo", "old\nแก่", "🧓"),
      Vocab("来\nlái", "to come\nมา", "➡️"),
      Vocab("大\ndà", "big\nใหญ่", "📏"),
      Vocab("得\ndé", "to get\nได้รับ", "🏆"),
      Vocab("跳\ntiào", "to jump\nกระโดด", "🤸"),
      Vocab("调\ntiáo", "to adjust\nปรับ", "⚙️"),
      Vocab("猪\nzhū", "pig\nหมู", "🐷"),
      Vocab("住\nzhù", "to live\nอาศัย", "🏠"),
      Vocab("吃\nchī", "to eat\nกิน", "🍽️"),
      Vocab("出\nchū", "to go out\nออกไป", "🚪"),
      Vocab("高\ngāo", "high\nสูง", "📏"),
      Vocab("个\ngè", "measure word\nลักษณนาม", "📊"),
      Vocab("裤\nkù", "trousers\nกางเกง", "👖"),
      Vocab("可以\nkě yǐ", "can\nสามารถ", "✅"),
      Vocab("虎\nhǔ", "tiger\nเสือ", "🐅"),
      Vocab("好\nhǎo", "good\nดี", "👍"),
      Vocab("家\njiā", "home\nบ้าน", "🏡"),
      Vocab("就\njiù", "then\nแล้ว", "⏭️"),
      Vocab("小\nxiǎo", "small\nเล็ก", "🐭"),
      Vocab("喜欢\nxǐ huān", "to like\nชอบ", "❤️")
    ]

  const PinyinCards: seq<Vocab> :=
    [
      Vocab("ang", "ang\nFinal compound: 'ahng' sound\nเสียงสระผสม: 'อาง'", "🗣️"),
      Vocab("ing", "ing\nFinal compound: 'eeng' sound\nเสียงสระผสม: 'อิง'", "🗣️"),
      Vocab("en", "en\nFinal compound: 'uhn' sound\nเสียงสระผสม: 'เอิน'", "🗣️"),
      Vocab("ai", "ai\nFinal compound: 'eye' sound\nเสียงสระผสม: 'ไอ'", "🗣️"),
      Vocab("ao", "ao\nFinal compound: 'aow' sound\nเสียงสระผสม: 'เอา'", "🗣️")
    ]

  /** `{ ...card, status: "new" }` */
  function WithStatusNew(v: Vocab): DeckCard
  {
    DeckCard(v.front, v.back, v.emoji, "new")
  }

  /** `vocabulary.map(card => ({ ...card, status: "new" }))` */
  function AllWithStatusNew(vs: seq<Vocab>): (cs: seq<DeckCard>)
    ensures |cs| == |vs|
    ensures forall i :: 0 <= i < |vs| ==> cs[i] == WithStatusNew(vs[i])
  {
    seq(|vs|, i requires 0 <= i < |vs| => WithStatusNew(vs[i]))
  }

  const HelenCode: string := "LearnChinesewithHelen1295"
  const PinyinCode: string := "PinyinPractice"

  const AccessCodes: map<string, DeckData> :=
    map[
      HelenCode := DeckData(
        "Chinese Vocabulary",
        AllWithStatusNew(ChineseVocabulary),
        WithStatusNew(ChineseVocabulary[0]),
        "#E0F7FA",
        "#CFEEF5"),
      PinyinCode := DeckData(
        "Pinyin Practice",
        AllWithStatusNew(PinyinCards),
        WithStatusNew(PinyinCards[0]),
        "#E8F5E9",
        "#DFF0E0")
    ]

  /** The vocabulary table behind each access code. */
  function VocabularyOf(code: string): (vs: seq<Vocab>)
    requires code in AccessCodes
  {
    if code == HelenCode then ChineseVocabulary else PinyinCards
  }

  /** Each deck lists its vocabulary in the original order, every entry tagged
      "new", its sample card is the first entry, and the two decks hold 30 and
      5 cards. */
  lemma DeckContents(code: string)
    requires code in AccessCodes
    ensures AccessCodes.Keys == {HelenCode, PinyinCode}
    ensures |AccessCodes[HelenCode].cards| == 30 && |AccessCodes[PinyinCode].cards| == 5
    ensures |AccessCodes[code].cards| == |VocabularyOf(code)| > 0
    ensures forall i :: 0 <= i < |VocabularyOf(code)| ==>
      var v, c := VocabularyOf(code)[i], AccessCodes[code].cards[i];
      c.front == v.front && c.back == v.back && c.emoji == v.emoji && c.status == "new"
    ensures AccessCodes[code].sampleCard == AccessCodes[code].cards[0]
  {
  }

  /** No two entries of a list share their front text. */
  predicate FrontsDistinct(vs: seq<Vocab>)
  {
    forall i, j :: 0 <= i < j < |vs| ==> vs[i].front != vs[j].front
  }

  /** The leading characters of the Chinese vocabulary's front texts, in three
      blocks of ten. */
  const Initials0: string := "爸别朋怕妈买饭富奶你"
  const Initials1: string := "老来大得跳调猪住吃出"
  const Initials2: string := "高个裤可虎好家就小喜"

  function Initial(i: nat): char
    requires i < 30
  {
    if i < 10 then Initials0[i] else if i < 20 then Initials1[i - 10] else Initials2[i - 20]
  }

  lemma InitialsOfVocabulary()
    ensures |ChineseVocabulary| == 30
    ensures forall i :: 0 <= i < 30 ==>
      |ChineseVocabulary[i].front| > 0 && ChineseVocabulary[i].front[0] == Initial(i)
  {
    InitialsOf0();
    InitialsOf1();
    InitialsOf2();
  }

  lemma InitialsOf0()
    ensures forall i :: 0 <= i < 10 ==>
      |ChineseVocabulary[i].front| > 0 && ChineseVocabulary[i].front[0] == Initials0[i]
  {
  }

  lemma InitialsOf1()
    ensures forall i :: 10 <= i < 20 ==>
      |ChineseVocabulary[i].front| > 0 && ChineseVocabulary[i].front[0] == Initials1[i - 10]
  {
  }

  lemma InitialsOf2()
    ensures forall i :: 20 <= i < 30 ==>
      |ChineseVocabulary[i].front| > 0 && ChineseVocabulary[i].front[0] == Initials2[i - 20]
  {
  }

  predicate CharsDistinct(s: string)
  {
    forall i, j :: 0 <= i < j < |s| ==> s[i] != s[j]
  }

  predicate CharsDisjoint(s: string, t: string)
  {
    forall i, j :: 0 <= i < |s| && 0 <= j < |t| ==> s[i] != t[j]
  }

  lemma InitialBlock0() ensures CharsDistinct(Initials0) {}
  lemma InitialBlock1() ensures CharsDistinct(Initials1) {}
  lemma InitialBlock2() ensures CharsDistinct(Initials2) {}
  lemma InitialBlocks01() ensures CharsDisjoint(Initials0, Initials1) {}
  lemma InitialBlocks02() ensures CharsDisjoint(Initials0, Initials2) {}
  lemma InitialBlocks12() ensures CharsDisjoint(Initials1, Initials2) {}

  lemma InitialsDistinct()
    ensures forall i, j :: 0 <= i < j < 30 ==> Initial(i) != Initial(j)
  {
    InitialBlock0();
    InitialBlock1();
    InitialBlock2();
    InitialBlocks01();
    InitialBlocks02();
    InitialBlocks12();
  }

  /** Within each deck the front strings are pairwise distinct; the
      front-keyed bookkeeping of the study session depends on it. */
  lemma DeckFrontsDistinct(code: string)
    requires code in AccessCodes
    ensures forall i, j :: 0 <= i < j < |AccessCodes[code].cards| ==>
      AccessCodes[code].cards[i].front != AccessCodes[code].cards[j].front
  {
    var vs := VocabularyOf(code);
    DeckCards(code);
    if code == HelenCode {
      ChineseFrontsDistinct();
    } else {
      assert FrontsDistinct(PinyinCards);
    }
    NewCardsFrontsDistinct(vs);
  }

  lemma DeckCards(code: string)
    requires code in AccessCodes
    ensures AccessCodes[code].cards == AllWithStatusNew(VocabularyOf(code))
  {
  }

  lemma NewCardsFrontsDistinct(vs: seq<Vocab>)
    requires FrontsDistinct(vs)
    ensures forall i, j :: 0 <= i < j < |AllWithStatusNew(vs)| ==>
      AllWithStatusNew(vs)[i].front != AllWithStatusNew(vs)[j].front
  {
  }

  lemma ChineseFrontsDistinct()
    ensures FrontsDistinct(ChineseVocabulary)
  {
    InitialsOfVocabulary();
    InitialsDistinct();
  }

  // ------------------------------------------------------------- lookup

  /** The properties every plain JavaScript object inherits from
      `Object.prototype`: indexing any object literal with one of these names
      yields a defined (truthy) value. */
  const ObjectPrototypeNames: set<string> :=
    { "constructor", "__proto__", "hasOwnProperty", "isPrototypeOf",
      "propertyIsEnumerable", "toLocaleString", "toString", "valueOf",
      "__defineGetter__", "__defineSetter__", "__lookupGetter__", "__lookupSetter__" }

  /** What `ACCESS_CODES[code]` evaluates to. */
  datatype Property = OwnDeck(deck: DeckData) | Inherited | Undefined

  /** `ACCESS_CODES[code]` as the object lookup behaves: own keys give their
      deck, inherited names give a value that is truthy but not a deck. */
  function AccessCodesIndex(code: string): (p: Property)
    ensures p.OwnDeck? <==> code in AccessCodes
    ensures p.OwnDeck? ==> p.deck == AccessCodes[code]
    ensures p.Inherited? <==> code in ObjectPrototypeNames
    ensures p.Undefined? <==> code !in AccessCodes && code !in ObjectPrototypeNames
  {
    if code in AccessCodes then OwnDeck(AccessCodes[code])
    else if code in ObjectPrototypeNames then Inherited
    else Undefined
  }

  /** Own-key lookup in the access-code table. */
  function Lookup(code: string): (r: Option<DeckData>)
    ensures r.Some? <==> code in AccessCodes
    ensures r.Some? ==> r.value == AccessCodes[code]
  {
    if code in AccessCodes then Some(AccessCodes[code]) else None
  }

  // ------------------------------------------------------------ shuffle

  /** The random draws of one shuffle of `n` elements, in call order: the draw
      made while `currentIndex` is `n - k` lies below it. */
  predicate ValidPicks(picks: seq<nat>, n: nat)
  {
    |picks| == n && forall k :: 0 <= k < n ==> picks[k] < n - k
  }

  /** `s` with the elements at `i` and `j` exchanged. */
  function Swap<T>(s: seq<T>, i: nat, j: nat): (r: seq<T>)
    requires i < |s| && j < |s|
    ensures |r| == |s| && r[i] == s[j] && r[j] == s[i]
    ensures forall k :: 0 <= k < |s| && k != i && k != j ==> r[k] == s[k]
  {
    s[i := s[j]][j := s[i]]
  }

  lemma SwapPermutes<T>(s: seq<T>, i: nat, j: nat)
    requires i < |s| && j < |s|
    ensures multiset(Swap(s, i, j)) == multiset(s)
  {
  }

  /** What the shuffle loop does to `s` once `currentIndex` has reached `c`:
      the remaining iterations, for `currentIndex` = `c`, `c - 1`, ..., 1. */
  function ShuffleFrom<T>(s: seq<T>, picks: seq<nat>, c: nat): (r: seq<T>)
    requires ValidPicks(picks, |s|) && c <= |s|
    ensures |r| == |s|
    decreases c
  {
    if c == 0 then s else ShuffleFrom(Swap(s, c - 1, picks[|s| - c]), picks, c - 1)
  }

  lemma ShuffleFromStep<T>(s: seq<T>, picks: seq<nat>, c: nat)
    requires ValidPicks(picks, |s|) && 0 < c <= |s|
    ensures ShuffleFrom(s, picks, c) == ShuffleFrom(Swap(s, c - 1, picks[|s| - c]), picks, c - 1)
  {
  }

  /** The Fisher-Yates shuffle of `s` under the draws `picks`. */
  function Shuffled<T>(s: seq<T>, picks: seq<nat>): (r: seq<T>)
    requires ValidPicks(picks, |s|)
  {
    ShuffleFrom(s, picks, |s|)
  }

  /** Whatever the draws, the shuffle only rearranges: the result holds the same
      multiset of elements. */
  lemma {:induction false} ShuffleFromPermutes<T>(s: seq<T>, picks: seq<nat>, c: nat)
    requires ValidPicks(picks, |s|) && c <= |s|
    ensures multiset(ShuffleFrom(s, picks, c)) == multiset(s)
    decreases c
  {
    if c > 0 {
      var t := Swap(s, c - 1, picks[|s| - c]);
      SwapPermutes(s, c - 1, picks[|s| - c]);
      ShuffleFromPermutes(t, picks, c - 1);
    }
  }

  /** The iterations left once `currentIndex` is `c` only touch positions below
      `c`: the positions from `c` on already hold their final elements. */
  lemma {:induction false} ShuffleFromKeepsSuffix<T>(s: seq<T>, picks: seq<nat>, c: nat)
    requires ValidPicks(picks, |s|) && c <= |s|
    ensures ShuffleFrom(s, picks, c)[c..] == s[c..]
    decreases c
  {
    if c > 0 {
      var t := Swap(s, c - 1, picks[|s| - c]);
      ShuffleFromKeepsSuffix(t, picks, c - 1);
      assert t[c..] == s[c..];
    }
  }

  /** The destructuring swap `[array[i], array[j]] = [array[j], array[i]]`. */
  method SwapElements<T>(arr: array<T>, i: nat, j: nat)
    requires i < arr.Length && j < arr.Length
    modifies arr
    ensures arr[..] == Swap(old(arr[..]), i, j)
  {
    arr[i], arr[j] := arr[j], arr[i];
  }

  /** `shuffleArray`: shuffles `arr` in place and returns that same array. */
  method ShuffleArray<T>(arr: array<T>, picks: seq<nat>) returns (r: array<T>)
    requires ValidPicks(picks, arr.Length)
    modifies arr
    ensures r == arr
    ensures arr[..] == Shuffled(old(arr[..]), picks)
    ensures multiset(arr[..]) == multiset(old(arr[..]))
  {
    ghost var result := Shuffled(arr[..], picks);
    var currentIndex := arr.Length;
    while currentIndex != 0
      invariant 0 <= currentIndex <= arr.Length
      invariant ShuffleFrom(arr[..], picks, currentIndex) == result
      invariant arr[currentIndex..] == result[currentIndex..]
      decreases currentIndex
    {
      ghost var before := arr[..];
      var randomIndex := picks[arr.Length - currentIndex];
      currentIndex := currentIndex - 1;
      SwapElements(arr, currentIndex, randomIndex);
      ShuffleFromStep(before, picks, currentIndex + 1);
      ShuffleFromKeepsSuffix(arr[..], picks, currentIndex);
    }
    ShuffleFromPermutes(old(arr[..]), picks, arr.Length);
    r := arr;
  }
}
