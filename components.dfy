/** The interactive components: the two-line card text, the slide-to-unlock
    control and the flashcard's pointer gestures. */
module Components {
  import opened Common
  import opened Text
  import Session

  // ---------------------------------------------------------- card text

  /** The primary and secondary text of a card field: its first and second
      line, each trimmed, with `""` for an absent field or a missing line. */
  function CardLines(field: Option<string>): (lines: (string, string))
  {
    var parts := SplitOn(if field.Some? then field.value else "", '\n');
    (Trim(parts[0]), if |parts| > 1 then Trim(parts[1]) else "")
  }

  /** An absent or empty field shows nothing on either line. */
  lemma CardLinesEmpty(field: Option<string>)
    requires field == None || field == Some("")
    ensures CardLines(field) == ("", "")
  {
    assert SplitOn("", '\n') == [""];
  }

  /** A field written as lines joined by line breaks shows its first line and
      its second line, trimmed; a one-line field has no second line, and the
      lines after the second are not shown. */
  lemma CardLinesOfLines(lines: seq<string>)
    requires |lines| >= 1 && forall k :: 0 <= k < |lines| ==> '\n' !in lines[k]
    ensures CardLines(Some(JoinWith(lines, '\n'))) ==
      (Trim(lines[0]), if |lines| > 1 then Trim(lines[1]) else "")
  {
    JoinSplit(lines, '\n');
  }

  /** A line as a card shows it: no line break, no white space at either end,
      and taken from the field `s`. */
  ghost predicate ShownLine(s: string, t: string)
  {
    && '\n' !in t
    && (t == "" || (!IsSpace(t[0]) && !IsSpace(t[|t| - 1])))
    && Contains(s, t)
  }

  /** A trimmed piece of a line split is a shown line of the split string. */
  lemma TrimmedPiece(s: string, k: nat)
    requires k < |SplitOn(s, '\n')|
    ensures ShownLine(s, Trim(SplitOn(s, '\n')[k]))
  {
    var parts := SplitOn(s, '\n');
    SplitJoin(s, '\n');
    TrimIsInfix(parts[k]);
    TrimInfixNoBreak(parts[k]);
    PartOccurs(parts, k, '\n');
    ContainsTrans(s, parts[k], Trim(parts[k]));
  }

  /** Neither shown line holds a line break or starts or ends with white space,
      and each occurs in the field. */
  lemma CardLinesShape(s: string)
    ensures ShownLine(s, CardLines(Some(s)).0) && ShownLine(s, CardLines(Some(s)).1)
  {
    var parts := SplitOn(s, '\n');
    TrimmedPiece(s, 0);
    if |parts| > 1 {
      TrimmedPiece(s, 1);
    } else {
      assert "" <= s[0..];
      assert ShownLine(s, "");
    }
  }

  /** Trimming a line without a break leaves none. */
  lemma TrimInfixNoBreak(p: string)
    requires '\n' !in p
    ensures '\n' !in Trim(p)
  {
    var t := TrimStart(p);
    forall k | 0 <= k < |t| ensures t[k] != '\n' {
      assert t[k] == p[|p| - |t| + k];
    }
    var u := TrimEnd(t);
    forall k | 0 <= k < |u| ensures u[k] != '\n' {
      assert u[k] == t[k];
    }
  }

  /** Every piece occurs in the joined string. */
  lemma {:induction false} PartOccurs(parts: seq<string>, k: nat, sep: char)
    requires k < |parts|
    ensures Contains(JoinWith(parts, sep), parts[k])
    decreases |parts|
  {
    if |parts| == 1 || k == 0 {
      assert parts[0] <= JoinWith(parts, sep)[0..];
    } else {
      var j := |parts[0]| + 1;
      var s := JoinWith(parts, sep);
      assert s == parts[0] + [sep] + JoinWith(parts[1..], sep);
      assert s[j..] == JoinWith(parts[1..], sep);
      PartOccurs(parts[1..], k - 1, sep);
      ContainsInSuffix(s, j, parts[k]);
    }
  }

  // ----------------------------------------------------- slide to unlock

  /** Where the slider knob goes for a drag of `delta`: clamped to
      `[0, maxTranslateX]`, or to 0 when the track is narrower than the knob. */
  function SliderX(delta: int, maxTranslateX: int): (x: int)
    ensures x >= 0
    ensures maxTranslateX >= 0 ==> x <= maxTranslateX
    ensures 0 <= delta <= maxTranslateX ==> x == delta
    ensures delta <= 0 ==> x == 0
    ensures 0 <= maxTranslateX <= delta ==> x == maxTranslateX
    ensures maxTranslateX < 0 ==> x == 0
  {
    Max(0, Min(delta, maxTranslateX))
  }

  /** The unlock threshold: within two pixels of the end of the track. */
  predicate ReachesEnd(x: int, maxTranslateX: int) {
    x >= maxTranslateX - 2
  }

  /** Dragging to the end of a track always unlocks. Otherwise a move unlocks
      exactly when it reaches the two-pixel margin, and on a track of at most
      two pixels (a control at most 52 pixels wide) every move unlocks, a
      leftward one too. */
  lemma SliderUnlocksAtEnd(delta: int, maxTranslateX: int)
    ensures delta >= maxTranslateX ==> ReachesEnd(SliderX(delta, maxTranslateX), maxTranslateX)
    ensures ReachesEnd(SliderX(delta, maxTranslateX), maxTranslateX) <==>
      maxTranslateX <= 2 || delta >= maxTranslateX - 2
  {
  }

  /** The slide-to-unlock control. `unlockCalls` counts the calls of the
      `onUnlock` callback. */
  class SlideToUnlock {
    var isDragging: bool
    var currentX: int
    var unlocked: bool
    var maxTranslateX: int
    var startX: int
    var unlockCalls: nat

    /** The knob never sits left of the track's start, a drag stops once the
        control is unlocked, and the callback has run once exactly when the
        control is unlocked. */
    ghost predicate Valid()
      reads this
    {
      && currentX >= 0
      && (unlocked ==> !isDragging)
      && unlockCalls == (if unlocked then 1 else 0)
    }

    /** The initial state, with the track width measured on mount. */
    constructor (offsetWidth: int)
      ensures Valid()
      ensures !isDragging && currentX == 0 && !unlocked && unlockCalls == 0
      ensures maxTranslateX == offsetWidth - 50
    {
      isDragging, currentX, unlocked := false, 0, false;
      maxTranslateX := offsetWidth - 50;
      startX := 0;
      unlockCalls := 0;
    }

    /** `handleStart` */
    method HandleStart(clientX: int)
      requires Valid()
      modifies this
      ensures Valid()
      ensures old(unlocked) ==> unchanged(this)
      ensures !old(unlocked) ==> isDragging && startX == clientX
      ensures currentX == old(currentX) && unlocked == old(unlocked) && unlockCalls == old(unlockCalls)
      ensures maxTranslateX == old(maxTranslateX)
    {
      if unlocked {
        return;
      }
      isDragging := true;
      startX := clientX;
    }

    /** `handleMove` */
    method HandleMove(clientX: int)
      requires Valid()
      modifies this
      ensures Valid()
      ensures !old(isDragging) || old(unlocked) ==> unchanged(this)
      ensures old(isDragging) && !old(unlocked) ==>
        && currentX == SliderX(clientX - startX, maxTranslateX)
        && (unlocked <==> ReachesEnd(currentX, maxTranslateX))
        && isDragging == !unlocked
        && unlockCalls == old(unlockCalls) + (if unlocked then 1 else 0)
      ensures startX == old(startX) && maxTranslateX == old(maxTranslateX)
    {
      if !isDragging || unlocked {
        return;
      }
      var deltaX := clientX - startX;
      var newX := Max(0, Min(deltaX, maxTranslateX));
      currentX := newX;
      if newX >= maxTranslateX - 2 {
        unlocked := true;
        isDragging := false;
        unlockCalls := unlockCalls + 1;
      }
    }

    /** `handleEnd`: a drag let go short of the end snaps back. */
    method HandleEnd()
      requires Valid()
      modifies this
      ensures Valid()
      ensures old(unlocked) || !old(isDragging) ==> unchanged(this)
      ensures !old(unlocked) && old(isDragging) ==> !isDragging && currentX == 0
      ensures unlocked == old(unlocked) && unlockCalls == old(unlockCalls)
      ensures startX == old(startX) && maxTranslateX == old(maxTranslateX)
    {
      if unlocked {
        return;
      }
      if isDragging {
        isDragging := false;
        currentX := 0;
      }
    }
  }

  // ------------------------------------------------------------ flashcard

  /** What letting go of the top card does. */
  datatype Gesture = Tap | SwipeTo(direction: Session.Direction) | SnapBack

  /** The pointer-up decision: a short press that barely moved is a tap;
      otherwise a horizontal travel beyond 35% of the window width is a swipe
      in the travel's direction; anything else snaps back. */
  function Classify(duration: int, deltaX: int, innerWidth: int): (g: Gesture)
    ensures g == Tap <==> duration < 300 && Abs(deltaX) < 20
    ensures g.SwipeTo? <==> !(duration < 300 && Abs(deltaX) < 20) && 100 * Abs(deltaX) > 35 * innerWidth
    ensures g.SwipeTo? ==> (g.direction == Session.Right <==> deltaX > 0)
  {
    if duration < 300 && Abs(deltaX) < 20 then Tap
    else if 100 * Abs(deltaX) > 35 * innerWidth then
      SwipeTo(if deltaX > 0 then Session.Right else Session.Left)
    else SnapBack
  }

  /** Mirroring the travel mirrors the swipe and keeps taps and snap-backs. */
  lemma ClassifyMirror(duration: int, deltaX: int, innerWidth: int)
    requires deltaX != 0
    ensures var g := Classify(duration, deltaX, innerWidth);
      var m := Classify(duration, -deltaX, innerWidth);
      && (g == Tap <==> m == Tap)
      && (g == SnapBack <==> m == SnapBack)
      && (g == SwipeTo(Session.Right) <==> m == SwipeTo(Session.Left))
  {
  }

  /** On a window at least 58 pixels wide a press that travelled less than 20
      pixels is never a swipe, however long it lasted. */
  lemma ShortTravelNeverSwipes(duration: int, deltaX: int, innerWidth: int)
    requires innerWidth >= 58 && Abs(deltaX) < 20
    ensures !Classify(duration, deltaX, innerWidth).SwipeTo?
  {
  }

  /** The top card's pointer handling (`handlePointerDown`, `handlePointerMove`
      and `handlePointerUp`) over its touch record. Only the card at index 0
      reacts. */
  class Flashcard {
    const index: int
    var isFlipped: bool
    var isDragging: bool
    var startX: int
    var startY: int
    var startTime: int
    var deltaX: int

    constructor (index: int)
      ensures this.index == index
      ensures !isFlipped && !isDragging && startX == 0 && startY == 0 && startTime == 0 && deltaX == 0
    {
      this.index := index;
      isFlipped := false;
      isDragging := false;
      startX, startY, startTime, deltaX := 0, 0, 0, 0;
    }

    /** A new card on the component shows its front again. */
    method NewCard()
      modifies this
      ensures !isFlipped
      ensures isDragging == old(isDragging) && deltaX == old(deltaX)
      ensures startX == old(startX) && startY == old(startY) && startTime == old(startTime)
    {
      isFlipped := false;
    }

    /** `handlePointerDown` as written: it starts a drag but keeps the
        horizontal travel of the previous drag. */
    method PointerDownAsWritten(clientX: int, clientY: int, now: int)
      modifies this
      ensures index != 0 ==> unchanged(this)
      ensures index == 0 ==> isDragging && startX == clientX && startY == clientY && startTime == now
      ensures deltaX == old(deltaX) && isFlipped == old(isFlipped)
    {
      if index != 0 {
        return;
      }
      isDragging := true;
      startX := clientX;
      startY := clientY;
      startTime := now;
    }

    /** `handlePointerDown`, with the new drag starting from no travel. */
    method PointerDown(clientX: int, clientY: int, now: int)
      modifies this
      ensures index != 0 ==> unchanged(this)
      ensures index == 0 ==> isDragging && startX == clientX && startY == clientY && startTime == now && deltaX == 0
      ensures isFlipped == old(isFlipped)
    {
      if index != 0 {
        return;
      }
      isDragging := true;
      startX := clientX;
      startY := clientY;
      startTime := now;
      deltaX := 0;
    }

    /** `handlePointerMove`: records the horizontal travel, and gives the
        gesture up to scrolling when the pointer moved more vertically than
        horizontally more than 100 ms after the press. */
    method PointerMove(clientX: int, clientY: int, now: int)
      modifies this
      ensures !old(isDragging) || index != 0 ==> unchanged(this)
      ensures old(isDragging) && index == 0 ==>
        && deltaX == clientX - startX
        && (isDragging <==> !(Abs(deltaX) < Abs(clientY - startY) && now - startTime > 100))
      ensures startX == old(startX) && startY == old(startY) && startTime == old(startTime)
      ensures isFlipped == old(isFlipped)
    {
      if !isDragging || index != 0 {
        return;
      }
      deltaX := clientX - startX;
      var deltaY := clientY - startY;
      if Abs(deltaX) < Abs(deltaY) && now - startTime > 100 {
        isDragging := false;
        return;
      }
    }

    /** `handlePointerUp`: ends the drag and reports the gesture; a tap turns
        the card over unless it landed on one of the card's text lines, which
        pronounce instead. */
    method PointerUp(now: int, onTextArea: bool, innerWidth: int) returns (g: Option<Gesture>)
      modifies this
      ensures !old(isDragging) || index != 0 ==> unchanged(this) && g == None
      ensures old(isDragging) && index == 0 ==>
        && g == Some(Classify(now - startTime, deltaX, innerWidth))
        && !isDragging
        && isFlipped == (if g == Some(Tap) && !onTextArea then !old(isFlipped) else old(isFlipped))
      ensures deltaX == old(deltaX) && startX == old(startX) && startY == old(startY) && startTime == old(startTime)
    {
      if !isDragging || index != 0 {
        return None;
      }
      isDragging := false;
      var touchDuration := now - startTime;
      var gesture := Classify(touchDuration, deltaX, innerWidth);
      if gesture == Tap && !onTextArea {
        isFlipped := !isFlipped;
      }
      g := Some(gesture);
    }
  }

  /** As written: a drag given up to scrolling leaves its horizontal travel
      behind, so a later click without any pointer movement on a 1000-pixel
      window is taken as a swipe to the right. */
  method StaleTravelSwipes() returns (g: Option<Gesture>)
    ensures g == Some(SwipeTo(Session.Right))
  {
    var card := new Flashcard(0);
    card.PointerDownAsWritten(0, 0, 0);
    card.PointerMove(400, 500, 200);
    card.PointerDownAsWritten(0, 0, 1000);
    g := card.PointerUp(1050, false, 1000);
  }

  /** With the travel reset on press, the same click is a tap and turns the
      card over. */
  method FreshPressTaps() returns (g: Option<Gesture>, flipped: bool)
    ensures g == Some(Tap) && flipped
  {
    var card := new Flashcard(0);
    card.PointerDown(0, 0, 0);
    card.PointerMove(400, 500, 200);
    card.PointerDown(0, 0, 1000);
    g := card.PointerUp(1050, false, 1000);
    flipped := card.isFlipped;
  }

  /** With the travel reset on press, a click that is released within 300 ms
      without moving is always a tap. */
  lemma StillPressIsTap(duration: int, innerWidth: int)
    requires duration < 300
    ensures Classify(duration, 0, innerWidth) == Tap
  {
  }
}
