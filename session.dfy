/** The study session of the flashcard app: the deck queue, the visible window,
    the remembered and forgotten lists, and the handlers that change them. */
module Session {
  import opened Common
  import Data

  /** A card of a running session. `level` is the mastery counter and `key` the
      per-instance identity drawn when the deck is unlocked. */
  datatype Card = Card(front: string, back: string, emoji: string, status: string, level: int, key: nat)

  /** The swipe directions the flashcard reports. */
  datatype Direction = Left | Right

  datatype Page = Landing | Flashcards | RememberedPage | ForgottenPage | AllDecks | DeckDetail

  /** The four study fields of the session state. */
  datatype Study = Study(deck: seq<Card>, visible: seq<Card>, remembered: seq<Card>, forgotten: seq<Card>)

  // ------------------------------------------------------------ counting

  /** Number of entries of `list` whose front text is `f`. */
  function CountFront(list: seq<Card>, f: string): nat
  {
    if |list| == 0 then 0 else (if list[0].front == f then 1 else 0) + CountFront(list[1..], f)
  }

  /** Number of entries of `list` whose key is `k`. */
  function CountKey(list: seq<Card>, k: nat): nat
  {
    if |list| == 0 then 0 else (if list[0].key == k then 1 else 0) + CountKey(list[1..], k)
  }

  lemma {:induction false} CountFrontConcat(a: seq<Card>, b: seq<Card>, f: string)
    ensures CountFront(a + b, f) == CountFront(a, f) + CountFront(b, f)
  {
    if |a| > 0 {
      assert (a + b)[1..] == a[1..] + b;
      CountFrontConcat(a[1..], b, f);
    } else {
      assert a + b == b;
    }
  }

  lemma {:induction false} CountKeyConcat(a: seq<Card>, b: seq<Card>, k: nat)
    ensures CountKey(a + b, k) == CountKey(a, k) + CountKey(b, k)
  {
    if |a| > 0 {
      assert (a + b)[1..] == a[1..] + b;
      CountKeyConcat(a[1..], b, k);
    } else {
      assert a + b == b;
    }
  }

  /** Two different entries that share a key make that key occur twice. */
  lemma {:induction false} CountKeyTwo(list: seq<Card>, x: Card, y: Card)
    requires x in list && y in list && x != y && x.key == y.key
    ensures CountKey(list, x.key) >= 2
  {
    if list[0] == x {
      CountKeyMember(list[1..], y);
    } else if list[0] == y {
      CountKeyMember(list[1..], x);
    } else {
      CountKeyTwo(list[1..], x, y);
    }
  }

  lemma {:induction false} CountKeyMember(list: seq<Card>, c: Card)
    requires c in list
    ensures CountKey(list, c.key) >= 1
  {
    if list[0] != c {
      CountKeyMember(list[1..], c);
    }
  }

  /** Taking out entry `i` lowers that entry's key count by one. */
  lemma CountKeyDrop(b: seq<Card>, i: nat, k: nat)
    requires i < |b|
    ensures CountKey(b, k) == CountKey(b[..i] + b[i + 1..], k) + (if b[i].key == k then 1 else 0)
  {
    assert b == b[..i] + [b[i]] + b[i + 1..];
    CountKeyConcat(b[..i] + [b[i]], b[i + 1..], k);
    CountKeyConcat(b[..i], [b[i]], k);
    CountKeyConcat(b[..i], b[i + 1..], k);
  }

  lemma IndexOf<T>(b: seq<T>, x: T) returns (i: nat)
    requires x in multiset(b)
    ensures i < |b| && b[i] == x
  {
    assert x in b;
    i :| 0 <= i < |b| && b[i] == x;
  }

  /** Rearranging a list does not change how often a key occurs. */
  lemma {:induction false} CountKeyPermutation(a: seq<Card>, b: seq<Card>, k: nat)
    requires multiset(a) == multiset(b)
    ensures CountKey(a, k) == CountKey(b, k)
    decreases |a|
  {
    if |a| == 0 {
      assert |b| == |multiset(b)| == 0;
    } else {
      assert a[0] in multiset(b);
      var i := IndexOf(b, a[0]);
      MultisetTails(a, b, i);
      CountKeyPermutation(a[1..], b[..i] + b[i + 1..], k);
      CountKeyPermStep(a, b, i, k);
    }
  }

  /** Matching heads taken off two rearrangements of each other leave two
      rearrangements of each other. */
  lemma MultisetTails(a: seq<Card>, b: seq<Card>, i: nat)
    requires |a| > 0 && i < |b| && b[i] == a[0] && multiset(a) == multiset(b)
    ensures multiset(a[1..]) == multiset(b[..i] + b[i + 1..])
  {
    var x, p, q := a[0], b[..i], b[i + 1..];
    assert a == [x] + a[1..];
    assert multiset(a) == multiset{x} + multiset(a[1..]);
    assert b == p + [x] + q;
    assert multiset(b) == multiset(p) + multiset{x} + multiset(q);
    assert multiset(p + q) == multiset(p) + multiset(q);
    assert multiset(a[1..]) == multiset(a) - multiset{x};
    assert multiset(p + q) == multiset(b) - multiset{x};
  }

  lemma CountKeyPermStep(a: seq<Card>, b: seq<Card>, i: nat, k: nat)
    requires |a| > 0 && i < |b| && b[i] == a[0]
    requires CountKey(a[1..], k) == CountKey(b[..i] + b[i + 1..], k)
    ensures CountKey(a, k) == CountKey(b, k)
  {
    CountKeyDrop(b, i, k);
  }

  /** At most one entry per front text. */
  ghost predicate FrontsUnique(list: seq<Card>)
  {
    forall f :: CountFront(list, f) <= 1
  }

  /** At most one entry per key. */
  ghost predicate KeysUnique(list: seq<Card>)
  {
    forall k :: CountKey(list, k) <= 1
  }

  // ------------------------------------------------------- list updates

  /** `removeCardFromListByFront`: the entries of `list` whose front differs from
      the given card's, in their original order. */
  function RemoveByFront(list: seq<Card>, card: Card): (r: seq<Card>)
    ensures |r| <= |list|
  {
    if |list| == 0 then []
    else if list[0].front != card.front then [list[0]] + RemoveByFront(list[1..], card)
    else RemoveByFront(list[1..], card)
  }

  /** The entries that stay are exactly those whose front differs. */
  lemma {:induction false} RemoveByFrontMembers(list: seq<Card>, card: Card, c: Card)
    ensures c in RemoveByFront(list, card) <==> c in list && c.front != card.front
  {
    if |list| > 0 {
      RemoveByFrontMembers(list[1..], card, c);
      assert c in list <==> c == list[0] || c in list[1..];
    }
  }

  /** Removal clears the card's front and leaves the count of every other
      front as it was. */
  lemma {:induction false} RemoveByFrontCount(list: seq<Card>, card: Card, f: string)
    ensures CountFront(RemoveByFront(list, card), f) == if f == card.front then 0 else CountFront(list, f)
  {
    if |list| > 0 {
      RemoveByFrontCount(list[1..], card, f);
    }
  }

  /** Filtering distributes over concatenation, so the entries that stay keep
      their relative order. */
  lemma {:induction false} RemoveByFrontConcat(a: seq<Card>, b: seq<Card>, card: Card)
    ensures RemoveByFront(a + b, card) == RemoveByFront(a, card) + RemoveByFront(b, card)
  {
    if |a| == 0 {
      assert a + b == b;
    } else {
      assert (a + b)[1..] == a[1..] + b;
      RemoveByFrontConcat(a[1..], b, card);
    }
  }

  /** A list with no entry of the card's front is left as it is. */
  lemma {:induction false} RemoveByFrontAbsent(list: seq<Card>, card: Card)
    requires CountFront(list, card.front) == 0
    ensures RemoveByFront(list, card) == list
  {
    if |list| > 0 {
      RemoveByFrontAbsent(list[1..], card);
    }
  }

  /** `deck.filter(c => c.key !== k)`: the entries whose key differs from `k`. */
  function RemoveByKey(list: seq<Card>, k: nat): (r: seq<Card>)
    ensures forall c :: c in r <==> c in list && c.key != k
  {
    if |list| == 0 then []
    else if list[0].key != k then [list[0]] + RemoveByKey(list[1..], k)
    else RemoveByKey(list[1..], k)
  }

  /** Removal clears the key and leaves the count of every other key as it was. */
  lemma {:induction false} RemoveByKeyCount(list: seq<Card>, k: nat, j: nat)
    ensures CountKey(RemoveByKey(list, k), j) == if j == k then 0 else CountKey(list, j)
  {
    if |list| > 0 {
      RemoveByKeyCount(list[1..], k, j);
    }
  }

  lemma {:induction false} RemoveByKeyAbsent(list: seq<Card>, k: nat)
    requires CountKey(list, k) == 0
    ensures RemoveByKey(list, k) == list
  {
    if |list| > 0 {
      RemoveByKeyAbsent(list[1..], k);
    }
  }

  lemma {:induction false} RemoveByKeyConcat(a: seq<Card>, b: seq<Card>, k: nat)
    ensures RemoveByKey(a + b, k) == RemoveByKey(a, k) + RemoveByKey(b, k)
  {
    if |a| == 0 {
      assert a + b == b;
    } else {
      assert (a + b)[1..] == a[1..] + b;
      RemoveByKeyConcat(a[1..], b, k);
    }
  }

  /** `s` with `x` inserted before position `i`: what `splice(i, 0, x)` does. */
  function InsertAt<T>(s: seq<T>, i: nat, x: T): (r: seq<T>)
    requires i <= |s|
    ensures r == s[..i] + [x] + s[i..]
  {
    if i == 0 then [x] + s
    else
      assert s == [s[0]] + s[1..];
      [s[0]] + InsertAt(s[1..], i - 1, x)
  }

  /** `deck.slice(1)` */
  function Tail(deck: seq<Card>): (r: seq<Card>)
    ensures |deck| > 0 ==> deck == [deck[0]] + r
    ensures |deck| == 0 ==> r == []
  {
    if |deck| == 0 then [] else deck[1..]
  }

  /** `deck.slice(0, 3)`: the cards on screen. */
  function Window(deck: seq<Card>): (r: seq<Card>)
    ensures |r| == Min(3, |deck|) && r <= deck
  {
    deck[..Min(3, |deck|)]
  }

  // --------------------------------------------------------------- swipe

  /** The card after the swipe: one level down, never below 0, when forgotten;
      one level up when remembered. */
  function Judged(card: Card, direction: Direction): (c: Card)
    ensures c.front == card.front && c.back == card.back && c.emoji == card.emoji
    ensures c.status == card.status && c.key == card.key
    ensures direction == Right ==> c.level == card.level + 1
    ensures direction == Left ==> 0 <= c.level <= Max(0, card.level) && (card.level >= 1 ==> c.level == card.level - 1)
  {
    match direction
    case Left => card.(level := Max(0, card.level - 1))
    case Right => card.(level := card.level + 1)
  }

  /** The pending queue after the head card `judged` has been taken off
      (`rest`) and judged: a forgotten card goes back at depth five, or at the
      end of a shorter queue; a remembered card goes to the end until it
      reaches level 2, and then leaves the deck. */
  function Requeued(rest: seq<Card>, judged: Card, direction: Direction): (q: seq<Card>)
  {
    match direction
    case Left => InsertAt(rest, Min(5, |rest|), judged)
    case Right => if judged.level < 2 then rest + [judged] else rest
  }

  /** `handleSwipe` on the study fields. */
  function Swipe(st: Study, direction: Direction): Study
  {
    if |st.visible| == 0 then st
    else
      var card := Judged(st.visible[0], direction);
      var remembered := RemoveByFront(st.remembered, st.visible[0]);
      var forgotten := RemoveByFront(st.forgotten, st.visible[0]);
      var deck := Requeued(Tail(st.deck), card, direction);
      Study(
        deck,
        Window(deck),
        if direction == Right then remembered + [card] else remembered,
        if direction == Left then forgotten + [card] else forgotten)
  }

  /** The body of `handleSwipe`: the head card on screen is judged, taken out
      of both lists by its front and out of the queue, added to the list of its
      direction and requeued, and the window is taken again. */
  method SwipeStep(deck: seq<Card>, visible: seq<Card>, remembered: seq<Card>, forgotten: seq<Card>, direction: Direction)
    returns (next: Study)
    requires |visible| > 0
    ensures next == Swipe(Study(deck, visible, remembered, forgotten), direction)
  {
    ghost var before := Study(deck, visible, remembered, forgotten);
    var swipedCard := visible[0];
    ghost var judged := Judged(swipedCard, direction);
    var newDeck := if |deck| == 0 then [] else deck[1..];
    assert newDeck == Tail(deck);
    var nextRemembered := remembered;
    var nextForgotten := forgotten;
    nextRemembered := RemoveByFront(nextRemembered, swipedCard);
    nextForgotten := RemoveByFront(nextForgotten, swipedCard);
    var deckUpdate := newDeck;

    if direction == Left {
      swipedCard := swipedCard.(level := Max(0, swipedCard.level - 1));
      assert swipedCard == judged;
      nextForgotten := nextForgotten + [swipedCard];
      var reinsertIndex := Min(5, |deckUpdate|);
      deckUpdate := deckUpdate[..reinsertIndex] + [swipedCard] + deckUpdate[reinsertIndex..];
      assert deckUpdate == Requeued(newDeck, judged, Left);
    } else {
      swipedCard := swipedCard.(level := swipedCard.level + 1);
      assert swipedCard == judged;
      nextRemembered := nextRemembered + [swipedCard];
      if swipedCard.level < 2 {
        deckUpdate := deckUpdate + [swipedCard];
      }
      assert deckUpdate == Requeued(newDeck, judged, Right);
    }

    SwipeAssemble(before, direction, deckUpdate, nextRemembered, nextForgotten);
    next := Study(deckUpdate, deckUpdate[..Min(3, |deckUpdate|)], nextRemembered, nextForgotten);
  }

  /** The invariant of the study fields between handler calls. */
  ghost predicate Inv(st: Study)
  {
    && st.visible == Window(st.deck)
    && KeysUnique(st.deck)
    && FrontsUnique(st.remembered + st.forgotten)
    && (forall c :: c in st.forgotten ==> c in st.deck)
    && (forall c :: c in st.deck ==> 0 <= c.level < 2)
  }

  /** With nothing on screen a swipe changes nothing. */
  lemma SwipeEmpty(st: Study, direction: Direction)
    requires |st.visible| == 0
    ensures Swipe(st, direction) == st
  {
  }

  /** The pieces of a swipe, one field at a time. */
  lemma SwipeParts(st: Study, direction: Direction)
    requires |st.visible| > 0
    ensures var st' := Swipe(st, direction); var h := st.visible[0]; var card := Judged(h, direction);
      && st'.deck == Requeued(Tail(st.deck), card, direction)
      && st'.visible == Window(st'.deck)
      && st'.remembered == (if direction == Right then RemoveByFront(st.remembered, h) + [card]
                            else RemoveByFront(st.remembered, h))
      && st'.forgotten == (if direction == Left then RemoveByFront(st.forgotten, h) + [card]
                           else RemoveByFront(st.forgotten, h))
  {
  }

  /** A swipe's new study fields, given each piece of it. */
  lemma SwipeAssemble(st: Study, direction: Direction, deck: seq<Card>, remembered: seq<Card>, forgotten: seq<Card>)
    requires |st.visible| > 0
    requires var h := st.visible[0]; var card := Judged(h, direction);
      && deck == Requeued(Tail(st.deck), card, direction)
      && remembered == (if direction == Right then RemoveByFront(st.remembered, h) + [card]
                        else RemoveByFront(st.remembered, h))
      && forgotten == (if direction == Left then RemoveByFront(st.forgotten, h) + [card]
                       else RemoveByFront(st.forgotten, h))
    ensures Swipe(st, direction) == Study(deck, Window(deck), remembered, forgotten)
  {
    SwipeParts(st, direction);
  }

  /** Requeueing keeps every pending card and adds the judged card once, unless
      it was remembered up to level 2. */
  lemma RequeuedMultiset(rest: seq<Card>, card: Card, direction: Direction)
    ensures multiset(Requeued(rest, card, direction)) ==
      multiset(rest) + (if direction == Left || card.level < 2 then multiset{card} else multiset{})
  {
    if direction == Left {
      var i := Min(5, |rest|);
      assert rest == rest[..i] + rest[i..];
    }
  }

  /** A forgotten card lands at index `min(5, |rest|)` and the other cards keep
      their order around it. */
  lemma RequeuedLeft(rest: seq<Card>, card: Card)
    ensures var d := Requeued(rest, card, Left); var i := Min(5, |rest|);
      |d| == |rest| + 1 && d[i] == card && d[..i] + d[i + 1..] == rest
  {
    var i := Min(5, |rest|);
    var d := Requeued(rest, card, Left);
    assert d[..i] == rest[..i];
    assert d[i + 1..] == rest[i..];
  }

  /** A left swipe: the head card drops a level (not below 0) and is put back
      at index `min(5, |rest|)` of the rest of the queue; the deck keeps its
      length and the other cards keep their order. */
  lemma SwipeLeft(st: Study)
    requires st.visible == Window(st.deck) && |st.deck| > 0
    ensures var d := Swipe(st, Left).deck; var h := st.deck[0]; var i := Min(5, |st.deck| - 1);
      && |d| == |st.deck|
      && d[i] == h.(level := Max(0, h.level - 1))
      && d[..i] + d[i + 1..] == st.deck[1..]
  {
    assert st.visible[0] == st.deck[0];
    SwipeParts(st, Left);
    RequeuedLeft(st.deck[1..], Judged(st.deck[0], Left));
  }

  /** A right swipe: the head card goes up exactly one level; below level 2 it is
      queued at the end, otherwise it graduates and the deck shrinks by one. */
  lemma SwipeRight(st: Study)
    requires st.visible == Window(st.deck) && |st.deck| > 0
    ensures var d := Swipe(st, Right).deck; var h := st.deck[0];
      && (h.level + 1 < 2 ==> d == st.deck[1..] + [h.(level := h.level + 1)])
      && (h.level + 1 >= 2 ==> d == st.deck[1..] && |d| == |st.deck| - 1)
  {
    var h := st.deck[0];
    assert st.visible[0] == h;
    SwipeParts(st, Right);
    assert Tail(st.deck) == st.deck[1..];
    assert Judged(h, Right) == h.(level := h.level + 1);
  }

  lemma CountFrontSingle(c: Card, f: string)
    ensures CountFront([c], f) == if c.front == f then 1 else 0
  {
    assert [c][1..] == [];
  }

  /** Removing a front and appending a card of that front leaves exactly one
      entry of it, and the removal of that front gives the same list as before. */
  lemma RemoveThenAppend(list: seq<Card>, h: Card, card: Card)
    requires card.front == h.front
    ensures CountFront(RemoveByFront(list, h) + [card], h.front) == 1
    ensures RemoveByFront(RemoveByFront(list, h) + [card], h) == RemoveByFront(list, h)
  {
    var r := RemoveByFront(list, h);
    RemoveByFrontCount(list, h, h.front);
    CountFrontConcat(r, [card], h.front);
    CountFrontSingle(card, h.front);
    RemoveByFrontConcat(r, [card], h);
    RemoveByFrontAbsent(r, h);
    assert RemoveByFront([card], h) == [];
  }

  /** Removing a front twice is removing it once. */
  lemma RemoveByFrontTwice(list: seq<Card>, h: Card)
    ensures CountFront(RemoveByFront(list, h), h.front) == 0
    ensures RemoveByFront(RemoveByFront(list, h), h) == RemoveByFront(list, h)
  {
    RemoveByFrontCount(list, h, h.front);
    RemoveByFrontAbsent(RemoveByFront(list, h), h);
  }

  /** After a swipe the swiped front is listed exactly once across the two
      lists, in the forgotten list for a left swipe and in the remembered list
      for a right one; the entries with other fronts stay as they were, in the
      same order. */
  lemma SwipeLists(st: Study, direction: Direction)
    requires |st.visible| > 0
    ensures var st' := Swipe(st, direction); var h := st.visible[0];
      && CountFront(st'.remembered + st'.forgotten, h.front) == 1
      && (CountFront(st'.forgotten, h.front) == 1 <==> direction == Left)
      && (CountFront(st'.remembered, h.front) == 1 <==> direction == Right)
      && RemoveByFront(st'.remembered, h) == RemoveByFront(st.remembered, h)
      && RemoveByFront(st'.forgotten, h) == RemoveByFront(st.forgotten, h)
  {
    var st' := Swipe(st, direction);
    var h := st.visible[0];
    var card := Judged(h, direction);
    SwipeParts(st, direction);
    CountFrontConcat(st'.remembered, st'.forgotten, h.front);
    if direction == Left {
      RemoveThenAppend(st.forgotten, h, card);
      RemoveByFrontTwice(st.remembered, h);
    } else {
      RemoveThenAppend(st.remembered, h, card);
      RemoveByFrontTwice(st.forgotten, h);
    }
  }

  /** A swipe changes the count of no front other than the swiped one, in
      either list. */
  lemma SwipeOtherFronts(st: Study, direction: Direction, f: string)
    requires |st.visible| > 0 && f != st.visible[0].front
    ensures var st' := Swipe(st, direction);
      && CountFront(st'.remembered, f) == CountFront(st.remembered, f)
      && CountFront(st'.forgotten, f) == CountFront(st.forgotten, f)
      && CountFront(st'.remembered + st'.forgotten, f) == CountFront(st.remembered + st.forgotten, f)
  {
    var st' := Swipe(st, direction);
    var h := st.visible[0];
    var card := Judged(h, direction);
    SwipeParts(st, direction);
    RemoveByFrontCount(st.remembered, h, f);
    RemoveByFrontCount(st.forgotten, h, f);
    CountFrontSingle(card, f);
    CountFrontConcat(st.remembered, st.forgotten, f);
    CountFrontConcat(st'.remembered, st'.forgotten, f);
    CountFrontConcat(RemoveByFront(st.remembered, h), [card], f);
    CountFrontConcat(RemoveByFront(st.forgotten, h), [card], f);
  }

  /** Requeueing adds at most the judged card's key. */
  lemma RequeuedCountKey(rest: seq<Card>, card: Card, direction: Direction, k: nat)
    ensures CountKey(Requeued(rest, card, direction), k) <= CountKey(rest, k) + (if card.key == k then 1 else 0)
  {
    RequeuedMultiset(rest, card, direction);
    if direction == Left || card.level < 2 {
      CountKeyPermutation(Requeued(rest, card, direction), rest + [card], k);
      CountKeyConcat(rest, [card], k);
    } else {
      CountKeyPermutation(Requeued(rest, card, direction), rest, k);
    }
  }

  /** A swipe keeps the deck's keys unique. */
  lemma SwipeKeepsKeys(st: Study, direction: Direction)
    requires |st.deck| > 0 && |st.visible| > 0 && st.visible[0] == st.deck[0] && KeysUnique(st.deck)
    ensures KeysUnique(Swipe(st, direction).deck)
  {
    var st' := Swipe(st, direction);
    var h := st.deck[0];
    var rest := st.deck[1..];
    var card := Judged(h, direction);
    assert st.deck == [h] + rest;
    SwipeParts(st, direction);
    assert Tail(st.deck) == rest;
    forall k ensures CountKey(st'.deck, k) <= 1 {
      CountKeyConcat([h], rest, k);
      RequeuedCountKey(rest, card, direction, k);
    }
  }

  /** A swipe keeps every front listed at most once across the two lists. */
  lemma SwipeKeepsFronts(st: Study, direction: Direction)
    requires |st.visible| > 0 && FrontsUnique(st.remembered + st.forgotten)
    ensures FrontsUnique(Swipe(st, direction).remembered + Swipe(st, direction).forgotten)
  {
    var st' := Swipe(st, direction);
    forall f ensures CountFront(st'.remembered + st'.forgotten, f) <= 1 {
      if f == st.visible[0].front {
        SwipeLists(st, direction);
      } else {
        SwipeOtherFronts(st, direction, f);
      }
    }
  }

  /** The requeued deck holds the pending cards, and the judged card unless it
      graduated, and nothing else. */
  lemma RequeuedMember(rest: seq<Card>, card: Card, direction: Direction, c: Card)
    ensures c in Requeued(rest, card, direction) <==>
      c in rest || (c == card && (direction == Left || card.level < 2))
  {
    RequeuedMultiset(rest, card, direction);
    assert c in Requeued(rest, card, direction) <==> c in multiset(Requeued(rest, card, direction));
  }

  /** A swipe keeps every forgotten card in the deck. */
  lemma SwipeKeepsForgotten(st: Study, direction: Direction)
    requires |st.deck| > 0 && |st.visible| > 0 && st.visible[0] == st.deck[0]
    requires forall c :: c in st.forgotten ==> c in st.deck
    ensures forall c :: c in Swipe(st, direction).forgotten ==> c in Swipe(st, direction).deck
  {
    var st' := Swipe(st, direction);
    var h := st.visible[0];
    var rest := Tail(st.deck);
    SwipeParts(st, direction);
    assert forall x :: x in st.forgotten ==> x == h || x in rest;
    forall c | c in st'.forgotten ensures c in st'.deck {
      ForgottenRequeued(st.forgotten, rest, h, direction, c);
    }
  }

  /** A card of the new forgotten list is in the requeued deck. */
  lemma ForgottenRequeued(forgotten: seq<Card>, rest: seq<Card>, h: Card, direction: Direction, c: Card)
    requires forall x :: x in forgotten ==> x == h || x in rest
    requires c in (if direction == Left then RemoveByFront(forgotten, h) + [Judged(h, direction)]
                   else RemoveByFront(forgotten, h))
    ensures c in Requeued(rest, Judged(h, direction), direction)
  {
    RemoveByFrontMembers(forgotten, h, c);
    RequeuedMember(rest, Judged(h, direction), direction, c);
  }

  /** Requeueing keeps deck levels at 0 or 1: a forgotten card drops to at most
      1 and a remembered card that reaches 2 is not requeued. */
  lemma RequeuedLevels(rest: seq<Card>, h: Card, direction: Direction)
    requires forall c :: c in rest ==> 0 <= c.level < 2
    requires 0 <= h.level < 2
    ensures forall c :: c in Requeued(rest, Judged(h, direction), direction) ==> 0 <= c.level < 2
  {
    forall c | c in Requeued(rest, Judged(h, direction), direction) ensures 0 <= c.level < 2 {
      RequeuedMember(rest, Judged(h, direction), direction, c);
    }
  }

  /** A swipe keeps every deck level at 0 or 1. */
  lemma SwipeKeepsLevels(st: Study, direction: Direction)
    requires |st.deck| > 0 && |st.visible| > 0 && st.visible[0] == st.deck[0]
    requires forall c :: c in st.deck ==> 0 <= c.level < 2
    ensures forall c :: c in Swipe(st, direction).deck ==> 0 <= c.level < 2
  {
    SwipeParts(st, direction);
    var rest := Tail(st.deck);
    assert forall c :: c in rest ==> c in st.deck;
    assert st.deck[0] in st.deck;
    RequeuedLevels(rest, st.visible[0], direction);
  }

  lemma SwipeKeepsInvStep(st: Study, direction: Direction)
    ensures Inv(st) ==> Inv(Swipe(st, direction))
  {
    if Inv(st) {
      SwipeKeepsInv(st, direction);
    }
  }

  /** Every swipe keeps the invariant: the window is the deck's prefix, keys
      stay unique in the deck, fronts stay unique across the two lists,
      forgotten cards stay in the deck and deck levels stay 0 or 1. */
  lemma SwipeKeepsInv(st: Study, direction: Direction)
    requires Inv(st)
    ensures Inv(Swipe(st, direction))
  {
    if |st.visible| > 0 {
      assert st.visible[0] == st.deck[0];
      SwipeParts(st, direction);
      SwipeKeepsKeys(st, direction);
      SwipeKeepsFronts(st, direction);
      SwipeKeepsForgotten(st, direction);
      SwipeKeepsLevels(st, direction);
    }
  }

  // ---------------------------------------------------------- long press

  /** `handleLongPress` on the study fields: the chosen card goes to the front
      and every other deck entry with its key is dropped. */
  function LongPress(st: Study, card: Card): (st': Study)
    ensures |st'.deck| >= 1 && st'.deck[0] == card
    ensures forall c :: c in st'.deck[1..] <==> c in st.deck && c.key != card.key
    ensures st'.visible == Window(st'.deck)
    ensures st'.remembered == st.remembered && st'.forgotten == st.forgotten
  {
    var deck := [card] + RemoveByKey(st.deck, card.key);
    Study(deck, Window(deck), st.remembered, st.forgotten)
  }

  /** Long-pressing a forgotten card keeps the invariant. */
  lemma LongPressKeepsInv(st: Study, card: Card)
    requires Inv(st) && card in st.forgotten
    ensures Inv(LongPress(st, card))
  {
    var st' := LongPress(st, card);
    var others := RemoveByKey(st.deck, card.key);
    assert st'.deck == [card] + others;
    forall k ensures CountKey(st'.deck, k) <= 1 {
      CountKeyConcat([card], others, k);
      RemoveByKeyCount(st.deck, card.key, k);
    }
    forall c | c in st'.forgotten ensures c in st'.deck {
      if c.key == card.key && c != card {
        CountKeyTwo(st.deck, c, card);
      }
    }
  }

  /** With the card's key held by no one else, dropping its key drops just the card. */
  lemma RemoveOnlyKey(p: seq<Card>, card: Card, q: seq<Card>)
    requires CountKey(p + [card] + q, card.key) <= 1
    ensures RemoveByKey(p + [card] + q, card.key) == p + q
  {
    var k := card.key;
    var pc := p + [card];
    CountKeyConcat(pc, q, k);
    CountKeyConcat(p, [card], k);
    assert CountKey([card], k) == 1 by {
      assert [card][1..] == [];
    }
    assert CountKey(p, k) == 0 && CountKey(q, k) == 0;
    RemoveByKeyConcat(pc, q, k);
    RemoveByKeyConcat(p, [card], k);
    RemoveByKeyAbsent(p, k);
    RemoveByKeyAbsent(q, k);
    assert RemoveByKey([card], k) == [] by {
      assert [card][1..] == [];
    }
    assert RemoveByKey(pc, k) == p;
  }

  /** Dropping the only entry with a card's key and putting the card in front
      gives the same entries. */
  lemma MoveToFront(deck: seq<Card>, card: Card)
    requires card in deck && CountKey(deck, card.key) <= 1
    ensures multiset([card] + RemoveByKey(deck, card.key)) == multiset(deck)
  {
    assert card in multiset(deck);
    var i := IndexOf(deck, card);
    var p, q := deck[..i], deck[i + 1..];
    assert deck == p + [card] + q;
    RemoveOnlyKey(p, card, q);
    MultisetToFront(p, card, q);
  }

  lemma MultisetToFront(p: seq<Card>, x: Card, q: seq<Card>)
    ensures multiset([x] + (p + q)) == multiset(p + [x] + q)
  {
    assert multiset([x] + (p + q)) == multiset{x} + multiset(p) + multiset(q);
    assert multiset(p + [x] + q) == multiset(p) + multiset{x} + multiset(q);
  }

  /** Under the invariant, long-pressing a forgotten card only reorders the
      deck: it holds the same cards, the chosen one first. */
  lemma LongPressReorders(st: Study, card: Card)
    requires Inv(st) && card in st.forgotten
    ensures multiset(LongPress(st, card).deck) == multiset(st.deck)
    ensures LongPress(st, card).deck[0] == card
  {
    assert CountKey(st.deck, card.key) <= 1;
    MoveToFront(st.deck, card);
  }

  // -------------------------------------------------------------- unlock

  /** Fresh keys for a deck of `n` cards: one per card, all different. */
  predicate FreshKeys(keys: seq<nat>, n: nat)
  {
    |keys| == n && forall i, j :: 0 <= i < j < n ==> keys[i] != keys[j]
  }

  /** `cards.map(card => ({ ...card, status: 'new', level: 0, key }))` */
  function Materialize(cards: seq<Data.DeckCard>, keys: seq<nat>): (deck: seq<Card>)
    requires |keys| == |cards|
    ensures |deck| == |cards|
    ensures forall i :: 0 <= i < |cards| ==>
      deck[i] == Card(cards[i].front, cards[i].back, cards[i].emoji, "new", 0, keys[i])
  {
    seq(|cards|, i requires 0 <= i < |cards| =>
      Card(cards[i].front, cards[i].back, cards[i].emoji, "new", 0, keys[i]))
  }

  lemma {:induction false} FreshKeysUnique(deck: seq<Card>)
    requires forall i, j :: 0 <= i < j < |deck| ==> deck[i].key != deck[j].key
    ensures KeysUnique(deck)
    decreases |deck|
  {
    if |deck| > 0 {
      FreshKeysUnique(deck[1..]);
      forall k ensures CountKey(deck, k) <= 1 {
        if deck[0].key == k && CountKey(deck[1..], k) > 0 {
          var c := KeyWitness(deck[1..], k);
          assert false;
        }
      }
    }
  }

  /** Some entry carries every key that occurs. */
  lemma {:induction false} KeyWitness(list: seq<Card>, k: nat) returns (c: Card)
    requires CountKey(list, k) > 0
    ensures c in list && c.key == k
  {
    if list[0].key == k {
      c := list[0];
    } else {
      c := KeyWitness(list[1..], k);
    }
  }

  /** The study fields right after a successful unlock. */
  function Opened(cards: seq<Data.DeckCard>, keys: seq<nat>, picks: seq<nat>): Study
    requires |keys| == |cards| && Data.ValidPicks(picks, |cards|)
  {
    var deck := Data.Shuffled(Materialize(cards, keys), picks);
    Study(deck, Window(deck), [], [])
  }

  /** An unlocked deck is a rearrangement of the deck's cards, each at level 0
      with status "new", both lists are empty, and the invariant holds. */
  lemma OpenedDeck(cards: seq<Data.DeckCard>, keys: seq<nat>, picks: seq<nat>)
    requires FreshKeys(keys, |cards|) && Data.ValidPicks(picks, |cards|)
    ensures var st := Opened(cards, keys, picks);
      && multiset(st.deck) == multiset(Materialize(cards, keys))
      && |st.deck| == |cards|
      && (forall c :: c in st.deck ==> c.level == 0 && c.status == "new")
      && st.remembered == [] && st.forgotten == []
      && Inv(st)
  {
    var made := Materialize(cards, keys);
    var st := Opened(cards, keys, picks);
    Data.ShuffleFromPermutes(made, picks, |made|);
    FreshKeysUnique(made);
    forall k ensures CountKey(st.deck, k) <= 1 {
      CountKeyPermutation(st.deck, made, k);
    }
    forall c | c in st.deck ensures c.level == 0 && c.status == "new" {
      assert c in multiset(made);
    }
    assert st.remembered + st.forgotten == [];
  }

  /** The unlocking half of `handleCodeUnlock`: the deck's cards are copied
      with status "new", level 0 and their keys, shuffled in place, and the
      first three are put on screen. */
  method OpenDeck(cards: seq<Data.DeckCard>, keys: seq<nat>, picks: seq<nat>) returns (st: Study)
    requires FreshKeys(keys, |cards|) && Data.ValidPicks(picks, |cards|)
    ensures st == Opened(cards, keys, picks) && Inv(st)
  {
    var initialDeck := Materialize(cards, keys);
    var copy := new Card[|initialDeck|](i requires 0 <= i < |initialDeck| => initialDeck[i]);
    assert copy[..] == initialDeck;
    var shuffled := Data.ShuffleArray(copy, picks);
    st := Study(shuffled[..], Window(shuffled[..]), [], []);
    OpenedDeck(cards, keys, picks);
  }

  /** How `handleCodeUnlock` ends for a code. */
  datatype Outcome = Started | InvalidCode | TypeError

  /** `handleCodeUnlock` as written: `ACCESS_CODES[code]` is tested for
      truthiness, so an inherited property name passes the test and the
      following `deckData.cards.map` throws. */
  function UnlockOutcomeAsWritten(code: string): Outcome
  {
    match Data.AccessCodesIndex(code)
    case OwnDeck(_) => Started
    case Inherited => TypeError
    case Undefined => InvalidCode
  }

  /** The code "constructor" passes the truthiness test and ends in a thrown
      error instead of the invalid-code message. */
  lemma ConstructorCodeThrows()
    ensures "constructor" !in Data.AccessCodes
    ensures UnlockOutcomeAsWritten("constructor") == TypeError
  {
    assert "constructor" in Data.ObjectPrototypeNames;
  }

  /** The lookup this model uses: own keys only. */
  function UnlockOutcome(code: string): (o: Outcome)
    ensures o != TypeError
    ensures o == Started <==> code in Data.AccessCodes
  {
    if Data.Lookup(code).Some? then Started else InvalidCode
  }

  /** The two lookups agree on every code except the inherited property names. */
  lemma UnlockOutcomesAgree(code: string)
    requires code !in Data.ObjectPrototypeNames
    ensures UnlockOutcomeAsWritten(code) == UnlockOutcome(code)
  {
  }

  const InvalidCodeMessage: string := "Invalid code. Please try again."

  // ------------------------------------------------------------- session

  /** The state bag of the app component and its handlers. */
  class Session {
    /** The access-code table the component reads, `ACCESS_CODES`. */
    const accessCodes: map<string, Data.DeckData>
    var currentPage: Page
    var deck: seq<Card>
    var visibleCards: seq<Card>
    var rememberedCards: seq<Card>
    var forgottenCards: seq<Card>
    var showErrorModal: bool
    var errorMessage: string
    var code: string
    var selectedDeckCode: Option<string>

    function Progress(): Study
      reads this
    {
      Study(deck, visibleCards, rememberedCards, forgottenCards)
    }

    ghost predicate Valid()
      reads this
    {
      Inv(Progress())
    }

    /** The initial state of every `useState`. */
    constructor ()
      ensures accessCodes == Data.AccessCodes
      ensures Valid()
      ensures currentPage == Landing && code == "" && selectedDeckCode == None
      ensures Progress() == Study([], [], [], [])
      ensures !showErrorModal && errorMessage == ""
    {
      accessCodes := Data.AccessCodes;
      currentPage := Landing;
      deck, visibleCards, rememberedCards, forgottenCards := [], [], [], [];
      showErrorModal, errorMessage := false, "";
      code := "";
      selectedDeckCode := None;
    }

    /** The code input's `onChange`. */
    method SetCode(value: string)
      modifies this`code
      ensures code == value
    {
      code := value;
    }

    /** `handleCodeUnlock`, with `keys` for the per-card random keys and
      `picks` for the shuffle's random draws. */
    method HandleCodeUnlock(keys: seq<nat>, picks: seq<nat>)
      requires code in accessCodes ==>
        var n := |accessCodes[code].cards|;
        FreshKeys(keys, n) && Data.ValidPicks(picks, n)
      modifies this`deck, this`visibleCards, this`rememberedCards, this`forgottenCards
      modifies this`currentPage, this`showErrorModal, this`errorMessage
      ensures code in accessCodes ==>
        && Progress() == Opened(accessCodes[code].cards, keys, picks)
        && currentPage == Flashcards
        && showErrorModal == old(showErrorModal) && unchanged(this`errorMessage)
        && Valid()
      ensures code !in accessCodes ==>
        && unchanged(this`deck, this`visibleCards, this`rememberedCards, this`forgottenCards, this`currentPage)
        && showErrorModal && errorMessage == InvalidCodeMessage
    {
      if code in accessCodes {
        var cards := accessCodes[code].cards;
        var started := OpenDeck(cards, keys, picks);
        deck, visibleCards, rememberedCards, forgottenCards := started.deck, started.visible, started.remembered, started.forgotten;
        currentPage := Flashcards;
      } else {
        errorMessage := InvalidCodeMessage;
        showErrorModal := true;
      }
    }

    /** `handleSwipe`, run on the latest committed state. */
    method HandleSwipe(direction: Direction)
      modifies this`deck, this`visibleCards, this`rememberedCards, this`forgottenCards
      ensures Progress() == Swipe(old(Progress()), direction)
      ensures old(Valid()) ==> Valid()
    {
      if |visibleCards| == 0 {
        return;
      }
      ghost var before := Progress();
      var next := SwipeStep(deck, visibleCards, rememberedCards, forgottenCards, direction);
      SwipeKeepsInvStep(before, direction);
      deck, visibleCards, rememberedCards, forgottenCards := next.deck, next.visible, next.remembered, next.forgotten;
    }

    /** `handleLongPress`, as the forgotten-cards page calls it. */
    method HandleLongPress(cardToStudy: Card)
      modifies this`deck, this`visibleCards, this`currentPage
      ensures Progress() == LongPress(old(Progress()), cardToStudy)
      ensures currentPage == Flashcards
      ensures old(Valid()) && cardToStudy in old(forgottenCards) ==> Valid()
    {
      ghost var before := Progress();
      var newDeck := [cardToStudy] + RemoveByKey(deck, cardToStudy.key);
      deck := newDeck;
      visibleCards := newDeck[..Min(3, |newDeck|)];
      currentPage := Flashcards;
      if Inv(before) && cardToStudy in before.forgotten {
        LongPressKeepsInv(before, cardToStudy);
      }
    }

    /** `handleSelectDeck` */
    method HandleSelectDeck(deckCode: string)
      modifies this`selectedDeckCode, this`currentPage
      ensures selectedDeckCode == Some(deckCode) && currentPage == DeckDetail
    {
      selectedDeckCode := Some(deckCode);
      currentPage := DeckDetail;
    }

    /** `resetApp`: back to the landing page with an empty session. */
    method ResetApp()
      modifies this`currentPage, this`code
      modifies this`deck, this`visibleCards, this`rememberedCards, this`forgottenCards
      ensures currentPage == Landing && code == ""
      ensures Progress() == Study([], [], [], []) && Valid()
    {
      currentPage := Landing;
      code := "";
      deck := [];
      visibleCards := [];
      rememberedCards := [];
      forgottenCards := [];
      assert Progress().remembered + Progress().forgotten == [];
    }

    /** The error modal's close button. */
    method CloseErrorModal()
      modifies this`showErrorModal
      ensures !showErrorModal
    {
      showErrorModal := false;
    }
  }
}
