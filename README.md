# Flashcard study app, modelled in Dafny

A model of a small flashcard web app for learning Chinese. The app has several parts:

- An access code unlocks a deck of vocabulary cards.
- The deck is shuffled with Fisher-Yates.
- The user studies the cards three at a time by swiping. A swipe to the left means
  "forgotten" and a swipe to the right means "remembered".
- A long press on a forgotten card brings it back to the front of the queue.
- A card shows at most two lines of each side: the first and second line of its text,
  trimmed. In the Chinese deck the front holds characters and pinyin and the back English
  and Thai. In the pinyin deck the front is one line (the final) and the back three lines:
  the final, an English hint and a Thai hint. The Thai hint, being the third line, is
  never shown.
- A speech hook detects the language of a text and picks a speech back-end for it.

The model is split into modules that follow the program's files:

| module | file | models |
|---|---|---|
| `Common` | `common.dfy` | `Option`, `Min`, `Max`, `Abs` |
| `Text` | `text.dfy` | the JavaScript string built-ins the app uses (`trim`, `toLowerCase` on ASCII and pinyin tone marks, `includes`, `split` on a character and on `/\s+/`), with their round trips |
| `Data` | `data.dfy` | `data.js`: the two vocabulary tables, `ACCESS_CODES`, the object lookup `ACCESS_CODES[code]`, and `shuffleArray` as an in-place method on an `array` proved against a reference function |
| `Session` | `session.dfy` | `app.js`: the study state as values (`Study`) with its invariant `Inv`, the pure transition functions, and a class `Session` whose methods are the component's handlers and update its state fields |
| `Hooks` | `hooks.dfy` | `hooks.js`: `detectLanguage`, and the back-ends that `pronounceText` tries |
| `Components` | `components.dfy` | `components.js`: the two-line split of a card field, the `SlideToUnlock` control as a class, and the `Flashcard` pointer handlers as a class |

The study state invariant `Session.Inv` has five parts:

- the cards on screen are the first three of the deck;
- the deck's keys are unique;
- no front is listed twice across the remembered and forgotten lists;
- every forgotten card is in the deck;
- every deck card is at level 0 or 1.

Every handler keeps this invariant. A successful unlock establishes it.

## Model

| member | source | states |
|---|---|---|
| Session.RemoveByFront | app.js:5-6 | the filtered list is never longer than the input |
| Session.RemoveByFrontMembers | app.js:5-6 | a card stays exactly when it was in the list and its front differs from the removed card's |
| Session.RemoveByFrontCount | app.js:5-6 | afterwards the removed front occurs zero times, and every other front occurs as often as before |
| Session.RemoveByFrontConcat | app.js:5-6 | filtering distributes over concatenation, so the cards that stay keep their order |
| Session.RemoveByFrontAbsent | app.js:5-6 | a list without the card's front is returned unchanged |
| Session.RemoveByKey | app.js:78 | a card stays exactly when it was in the list and its key differs |
| Session.RemoveByKeyCount | app.js:78 | afterwards the key occurs zero times, and every other key occurs as often as before |
| Session.InsertAt | app.js:62 | `splice(i, 0, x)` gives the prefix up to `i`, then `x`, then the rest |
| Session.Window | app.js:38 | the cards on screen are a prefix of the deck, of length min(3, deck length) |
| Session.Judged | app.js:59-64 | the swiped card keeps its texts, status and key; a right swipe raises its level by one; a left swipe lowers it by one, never below 0 |
| Session.Requeued | app.js:56-69 | the queue after the head card is judged: a forgotten card goes back at index min(5, rest), and a remembered one goes to the end below level 2 and leaves at level 2 (stated by `RequeuedMultiset` and `RequeuedLeft`) |
| Session.RequeuedLeft | app.js:61-62 | a forgotten card lands at index min(5, rest), and the other cards keep their order around it |
| Session.Swipe | app.js:48-75 | the reference transition of `handleSwipe` on the study fields; its properties are stated by `SwipeEmpty`, `SwipeLeft`, `SwipeRight`, `SwipeLists`, `SwipeOtherFronts` and `SwipeKeepsInv` |
| Session.Inv | app.js:48-96 | the five-part study invariant above; `SwipeKeepsInv`, `LongPressKeepsInv`, `OpenedDeck` and `ResetApp` show that it holds between handler calls |
| Session.SwipeStep | app.js:48-75 | the imperative body of `handleSwipe` computes exactly the reference transition `Swipe` |
| Session.SwipeEmpty | app.js:49 | with no card on screen a swipe changes nothing |
| Session.SwipeLeft | app.js:58-62 | the head card drops one level, never below 0; it is reinserted at index min(5, rest); the deck keeps its length and the other cards keep their order |
| Session.SwipeRight | app.js:63-69 | the head card rises exactly one level; below level 2 it goes to the end of the deck; at level 2 it leaves the deck and the deck shrinks by one |
| Session.RequeuedMultiset | app.js:56-69 | the new deck holds the rest of the deck, plus the judged card unless it graduated |
| Session.SwipeLists | app.js:52-55 | after a swipe, the swiped front is listed exactly once across the two lists, in the list of the swipe's direction; the other entries keep their order |
| Session.SwipeOtherFronts | app.js:52-55 | a swipe does not change the count of any other front, in the remembered list, in the forgotten list, and across both |
| Session.SwipeKeepsKeys | app.js:51-69 | a swipe keeps the deck's keys unique |
| Session.SwipeKeepsFronts | app.js:52-69 | a swipe keeps every front listed at most once across the two lists |
| Session.SwipeKeepsForgotten | app.js:51-69 | after a swipe every forgotten card is still in the deck |
| Session.SwipeKeepsLevels | app.js:58-69 | after a swipe every deck card is at level 0 or 1 |
| Session.SwipeKeepsInv | app.js:48-75 | every swipe keeps the invariant `Inv` |
| Session.Session.HandleSwipe | app.js:48-75 | the new state is `Swipe` of the old state, and the invariant is kept |
| Session.LongPress | app.js:77-82 | the chosen card comes first; the rest holds exactly the deck cards with other keys; the window is retaken; both lists are unchanged |
| Session.LongPressKeepsInv | app.js:77-82 | long-pressing a forgotten card keeps the invariant |
| Session.LongPressReorders | app.js:77-82 | under the invariant, long-pressing a forgotten card only reorders the deck: same multiset, chosen card first |
| Session.Session.HandleLongPress | app.js:77-82 | the new state is `LongPress` of the old state, the page is the study page, and the invariant is kept for a forgotten card |
| Session.Materialize | app.js:30-35 | each deck card becomes a study card with its own texts, status "new", level 0 and its key |
| Session.Opened | app.js:30-40 | the study fields after a successful unlock: the shuffled materialised deck, its window and two empty lists (stated by `OpenedDeck`) |
| Session.OpenedDeck | app.js:30-40 | an unlocked deck holds the same material cards, rearranged, all at level 0 with status "new"; both lists are empty; `Inv` holds |
| Session.OpenDeck | app.js:30-40 | copying, shuffling in place and taking the window gives `Opened` and satisfies `Inv` |
| Session.Session.HandleCodeUnlock | app.js:23-46 | a listed code starts the session on the shuffled deck and opens the study page, and `Valid` holds; any other code leaves the study state and page as they were and shows the invalid-code message |
| Session.UnlockOutcome | app.js:23-46 | unlocking starts exactly for the codes of the table and never throws |
| Session.UnlockOutcomeAsWritten | app.js:24-25 | the truthiness test as written: own codes start the session, inherited `Object.prototype` names throw, every other code is invalid |
| Session.ConstructorCodeThrows | app.js:24-30 | the code "constructor" is not a listed deck, yet as written it ends in a thrown error rather than the invalid-code message |
| Session.UnlockOutcomesAgree | app.js:24-25 | the own-key lookup and the as-written test agree on every code that is not an inherited property name |
| Session.Session.HandleSelectDeck | app.js:84-87 | the selected code is recorded and the deck-detail page is shown |
| Session.Session.ResetApp | app.js:89-96 | the landing page, an empty code, and an empty study state that satisfies `Valid` |
| Session.Session.constructor | app.js:13-21 | the initial state of every `useState`, which satisfies `Valid` |
| Session.Session.SetCode | app.js:194 | the code field takes the typed value |
| Session.Session.CloseErrorModal | app.js:321 | the error modal is hidden |
| Data.AllWithStatusNew | data.js:72 | each deck entry is its vocabulary entry, tagged "new", at the same index |
| Data.DeckCards | data.js:69-83 | each deck of the table lists its vocabulary table, every entry tagged "new" |
| Data.DeckContents | data.js:24-85 | the table has exactly the two codes; the decks hold 30 and 5 cards; each lists its vocabulary in order, tagged "new"; the sample card is the first entry |
| Data.DeckFrontsDistinct | data.js:24-85 | within each deck the fronts are pairwise distinct |
| Data.AccessCodesIndex | data.js:69-85 | `ACCESS_CODES[code]` gives a deck exactly for the table's own codes, an inherited truthy value exactly for the names of `Object.prototype`, and `undefined` otherwise |
| Data.Lookup | data.js:69-85 | the own-key lookup finds a deck exactly for listed codes, and that deck is the table's |
| Data.Swap | data.js:102 | the two positions exchange their elements and no other position changes |
| Data.SwapElements | data.js:102 | the in-place swap leaves the array holding `Swap` of its old contents |
| Data.ShuffleFrom | data.js:96-103 | what the remaining iterations of the loop do once `currentIndex` is `c`; it keeps the length (with `ShuffleFromPermutes` and `ShuffleFromKeepsSuffix`) |
| Data.Shuffled | data.js:92-105 | the Fisher-Yates result for the draws, all `n` iterations; `ShuffleArray` computes it in place |
| Data.ShuffleFromPermutes | data.js:92-105 | whatever the draws, the shuffle only rearranges: same multiset |
| Data.ShuffleFromKeepsSuffix | data.js:96-103 | once `currentIndex` has reached `c`, the positions from `c` on hold their final elements |
| Data.ShuffleArray | data.js:92-105 | the array is shuffled in place into the Fisher-Yates result for the draws, it is the same array that is returned, and it holds the same multiset |
| Hooks.DetectLanguage | hooks.js:7-55 | the result is one of the three tags, and English for an absent or empty text |
| Hooks.Folded | hooks.js:35 | the lower-cased, trimmed text the syllable tests look at |
| Hooks.AllWordsPinyin | hooks.js:45-48 | more than one `/\s+/` word, each a listed syllable or holding a lower-case tone mark (shown redundant by `WordStepRedundant`) |
| Hooks.DetectLanguageClassifies | hooks.js:7-55 | for a non-empty text: Thai exactly when it holds a Thai character; Chinese exactly when there is no Thai and it has an ideograph, a tone mark or a listed syllable inside the folded text; English exactly otherwise |
| Hooks.WordStepRedundant | hooks.js:44-52 | the test on space-separated words only accepts texts that the tone-mark or syllable test already accepted |
| Hooks.ThaiWins | hooks.js:10-14 | one Thai character makes the text Thai, whatever else it holds |
| Hooks.HanIsChinese | hooks.js:16-20 | without Thai, one ideograph makes the text Chinese |
| Hooks.FriendIsChinese | hooks.js:22-42 | the English word "friend" contains the syllable "en" and is classified as Chinese |
| Hooks.LowerToneFrom | hooks.js:34-35 | a lower-case tone mark in the lowered text comes from a tone mark of either case in the original text |
| Hooks.DottedCapitalIIsChinese | hooks.js:35-42 | the text "U" followed by U+0130 lower-cases to "ui" and a combining dot, so it holds the syllable "ui" and is Chinese |
| Hooks.AttemptsBlank | hooks.js:58-61 | a text of only white space reaches no back-end |
| Hooks.Attempts | hooks.js:57-180 | `pronounceText`: no back-end for an absent or blank text, otherwise the route of its detected language (stated by `AttemptsBlank` and `AttemptsRouteDetected`) |
| Hooks.Route | hooks.js:67-177 | the back-ends tried for a language in order: external only for Chinese, external then browser on failure for Thai, browser only for English (stated by `RouteShape`, `ChineseNoFallback`, `ThaiFallback` and `EnglishBrowserOnly`) |
| Hooks.AttemptsRouteDetected | hooks.js:57-68 | a non-blank text is routed by its detected language and passed on untrimmed |
| Hooks.RouteShape | hooks.js:57-180 | at most two back-ends are tried; each gets the text and its language; the external service is tried only first and never for English |
| Hooks.ChineseNoFallback | hooks.js:67-111 | Chinese goes to the external service only, with no browser fallback when it fails |
| Hooks.ThaiFallback | hooks.js:113-156 | Thai goes to the external service first; browser speech follows exactly when that failed and the browser offers speech |
| Hooks.EnglishBrowserOnly | hooks.js:158-177 | English never reaches the external service, and reaches browser speech exactly when the browser offers it |
| Text.TrimIsInfix | components.js:180 | the trimmed text occurs in the original, and starts and ends with a non-space character unless empty |
| Text.Trim | components.js:180 | `trim`: the text without leading and trailing white space (stated by `TrimIsInfix`, `TrimKeeps` and `TrimEmptyIff`) |
| Text.TrimStart | components.js:180 | the suffix left after the leading white space is removed, starting with a non-space character unless empty |
| Text.TrimEnd | components.js:180 | the prefix left after the trailing white space is removed, ending with a non-space character unless empty |
| Text.Lower | hooks.js:35 | `toLowerCase`, character by character, never shortening the text |
| Text.SplitOn | components.js:180 | `split` on a character: at least one piece, none holding the separator |
| Text.TrimEmptyIff | hooks.js:58 | trimming gives "" exactly when every character is white space |
| Text.SplitJoin | components.js:180 | joining the pieces of `split` with the separator gives back the string |
| Text.JoinSplit | components.js:180 | splitting the join of separator-free lines gives back the lines |
| Text.SplitWsWordsOccur | hooks.js:45 | every piece of a `/\s+/` split occurs in the string |
| Text.SplitWs | hooks.js:45 | `split(/\s+/)`: at least one piece, none holding white space |
| Components.CardLinesEmpty | components.js:180-186 | an absent or empty field shows "" on both lines |
| Components.CardLines | components.js:180-186 | the two lines a card field shows, the first and second pieces of its line split, trimmed, with "" for a missing line (stated by `CardLinesEmpty`, `CardLinesOfLines` and `CardLinesShape`) |
| Components.CardLinesOfLines | components.js:180-186 | a field made of lines joined by line breaks shows its first and second lines, trimmed; the second is "" for a one-line field, and later lines are not shown |
| Components.CardLinesShape | components.js:180-186 | neither shown line holds a line break or starts or ends with white space, and each occurs in the field |
| Components.SliderX | components.js:60-61 | the knob position is the drag clamped to [0, maxTranslateX]; it is 0 for a track narrower than the knob (maxTranslateX < 0) |
| Components.SliderUnlocksAtEnd | components.js:44-67 | a drag to the end always unlocks; a move unlocks exactly when maxTranslateX <= 2 or the drag reaches maxTranslateX - 2, so on a control at most 52 pixels wide every move unlocks, a leftward one too |
| Components.SlideToUnlock.constructor | components.js:35-50 | not dragging, knob at 0, locked; the track width is measured on mount |
| Components.SlideToUnlock.HandleStart | components.js:52-56 | once unlocked nothing changes; otherwise a drag starts at the pointer |
| Components.SlideToUnlock.HandleMove | components.js:58-68 | the knob follows the clamped drag; it unlocks exactly at the end of the track and calls `onUnlock` once; the control's invariant is kept |
| Components.SlideToUnlock.HandleEnd | components.js:70-76 | a drag let go short of the end snaps back to 0 |
| Components.Classify | components.js:151-171 | a tap exactly for a short press with little travel; otherwise a swipe exactly for travel beyond 35% of the window width, in the travel's direction; otherwise a snap-back |
| Components.ClassifyMirror | components.js:154-171 | mirroring the travel mirrors the swipe, and keeps taps and snap-backs |
| Components.ShortTravelNeverSwipes | components.js:154-171 | on a window at least 58 pixels wide, a travel under 20 pixels is never a swipe |
| Components.Flashcard.constructor | components.js:108-117 | a card shows its front, with no drag and a zeroed touch record |
| Components.Flashcard.NewCard | components.js:120-122 | a new card shows its front |
| Components.Flashcard.PointerDownAsWritten | components.js:124-132 | a press on the top card starts a drag and keeps the previous travel; other cards ignore it |
| Components.Flashcard.PointerMove | components.js:134-145 | records the travel, and gives the drag up to scrolling when the pointer moved more vertically than horizontally after 100 ms |
| Components.Flashcard.PointerUp | components.js:147-172 | ends the drag and reports `Classify` of its duration and travel; a tap off the text lines turns the card over |
| Components.StaleTravelSwipes | components.js:124-172 | as written, a still click after a drag given up to scrolling is a right swipe on a 1000-pixel window |
| Components.Flashcard.PointerDown | components.js:124-132 | the corrected press: it also starts the travel at 0 |
| Components.FreshPressTaps | components.js:124-172 | with the corrected press, that same click is a tap and turns the card over |
| Components.StillPressIsTap | components.js:154 | with the travel reset, a still press released within 300 ms is always a tap |

## Left out

- DOM and styling are not modelled: CSS variables, card colours, transforms, transitions, pointer capture and the resize listener. Only the measured track width of the slider is kept, as a constructor parameter.
- Speech I/O is not modelled: the audio context, `fetch` to the speech back-end, audio decoding and `speechSynthesis`. The route is a list of attempted back-ends. Whether the external service succeeded and whether the browser offers speech are parameters.
- The speech rate and volume, and all console logging, are not modelled.
- `Math.random` and `Date.now` are parameters: `keys` holds the per-card keys (assumed distinct), `picks` holds the shuffle's draws (`picks[k] < n - k`), and times are explicit arguments.
- Timers are not modelled. The 100 ms delay before `onSwipe`, the 500 ms long-press timer of the small cards, and the 2 s flip of the small cards become direct calls or are left out.
- React state updates are applied at once. Each handler runs on the latest committed state, so stale `useCallback` closures are not modelled.
- The JSX pages, `Modal`, `TRANSLATIONS` and `src/App.js` are rendering only and are not modelled.
- `handleSwipe` mutates `swipedCard.level` in place. The model updates a value instead. This is exact because the handler drops every other alias of that object and deck keys are unique.
- `Session.Session.HandleCodeUnlock` reads the table through the class constant `accessCodes`, which the constructor sets to `Data.AccessCodes`. Its contract speaks of that constant.
- Text.Lower folds the ASCII capitals, the Kelvin sign U+212A (to `k`), the capital I with dot above U+0130 (to `i` and U+0307) and the upper-case tone-marked pinyin vowels, and keeps every other character. These are the characters whose lower case is or holds an ASCII letter or a listed tone mark, which is all the detector tests for. The lower case of other letters (Greek and Cyrillic capitals, for instance) is not modelled: it is neither an ASCII letter nor a listed tone mark, so it cannot complete a syllable or a tone-mark match.
- The swipe threshold `innerWidth * 0.35` is the integer comparison `100 * |deltaX| > 35 * innerWidth`. Pointer coordinates are integers.
- Data.DeckContents states the order, texts, emoji and tags of the cards and the sample card, but not the deck titles and colour strings, which only the pages and the CSS variables use.

## Findings

| source | as written | input that shows it | evidently intended | confidence | as-written member | corrected member |
|---|---|---|---|---|---|---|
| app.js:24-25 | `ACCESS_CODES[code]` is tested for truthiness, so a name inherited from `Object.prototype` passes the test, and `deckData.cards.map` then throws | code "constructor" | every code that is not a listed deck shows the invalid-code message | not executed | Session.ConstructorCodeThrows | Session.UnlockOutcomesAgree |
| components.js:124-132 | `handlePointerDown` does not reset `touchState.deltaX`, so a press with no pointer movement is judged by the travel of the previous drag | press at (0,0), move to (400,500) after 200 ms (given up to scrolling), press at 1000 ms, release at 1050 ms on a 1000-pixel window: a right swipe instead of a tap | a new press starts with no travel | not executed | Components.StaleTravelSwipes | Components.FreshPressTaps |

For the first row, `Session.UnlockOutcomeAsWritten` models the truthiness test as written. `Session.UnlockOutcome`, which uses own-key lookup, is the corrected version that `Session.Session.HandleCodeUnlock` follows.

For the second row, `Components.Flashcard.PointerDownAsWritten` models the handler as written. `Components.Flashcard.PointerDown` and `Components.StillPressIsTap` are the corrected version.
