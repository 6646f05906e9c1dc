/** The typewriter headline: a text revealed one character per timer tick,
    with a blinking cursor that is hidden once the whole text is shown.
    Timers are not modelled by their timing, only by which callbacks are
    waiting to run: at most one typing step, and any number of cursor hides
    (a scheduled hide is never cancelled). */
module Typewriter {

  /** What the component holds: its props (`text`, `delay`, `speed`), the
      effect's closure counter `currentIndex`, the two React state cells,
      and the callbacks waiting on a timer. */
  datatype TypeState = TypeState(
    text: string,
    delay: int,
    speed: int,
    currentIndex: nat,
    displayText: string,
    showCursor: bool,
    stepPending: bool,
    hidesPending: nat)

  /** The shown text is exactly the typed part of the current text, once
      anything of it has been typed, and typing stops only at the end. */
  predicate Consistent(s: TypeState)
  {
    && s.currentIndex <= |s.text|
    && (s.currentIndex > 0 ==> s.displayText == s.text[..s.currentIndex])
    && (!s.stepPending ==> s.currentIndex == |s.text|)
  }

  /** The first render followed by the effect: nothing shown, the cursor
      on, and the first step waiting on the `delay` timer. */
  function Mount(text: string, delay: int, speed: int): (s: TypeState)
    ensures s.displayText == "" && s.showCursor
    ensures s.currentIndex == 0 && s.stepPending && s.hidesPending == 0
    ensures s.text == text && Consistent(s)
  {
    TypeState(text, delay, speed, 0, "", true, true, 0)
  }

  /** `startTyping`: reveal one more character and wait for the next tick,
      or, with the whole text shown, stop and schedule the cursor hide. */
  function Step(s: TypeState): (r: TypeState)
    requires s.stepPending
    ensures Consistent(s) ==> Consistent(r)
    ensures r.text == s.text && r.delay == s.delay && r.speed == s.speed
    ensures r.showCursor == s.showCursor
    ensures s.currentIndex < |s.text| ==>
              && r.currentIndex == s.currentIndex + 1
              && r.displayText == s.text[..r.currentIndex]
              && r.stepPending && r.hidesPending == s.hidesPending
    ensures s.currentIndex >= |s.text| ==>
              && r.currentIndex == s.currentIndex && r.displayText == s.displayText
              && !r.stepPending && r.hidesPending == s.hidesPending + 1
    ensures r.hidesPending > s.hidesPending <==> s.currentIndex >= |s.text|
  {
    if s.currentIndex < |s.text| then
      s.(displayText := s.text[..s.currentIndex + 1],
         currentIndex := s.currentIndex + 1)
    else
      s.(stepPending := false, hidesPending := s.hidesPending + 1)
  }

  /** The scheduled cursor hide firing. */
  function Hide(s: TypeState): (r: TypeState)
    requires s.hidesPending > 0
    ensures !r.showCursor && r.hidesPending == s.hidesPending - 1
    ensures r.text == s.text && r.currentIndex == s.currentIndex
    ensures r.displayText == s.displayText && r.stepPending == s.stepPending
    ensures Consistent(s) ==> Consistent(r)
  {
    s.(showCursor := false, hidesPending := s.hidesPending - 1)
  }

  /** A render with new props. When any of `text`, `delay`, `speed` has
      changed, the effect's cleanup cancels the waiting step and the effect
      runs again with a fresh counter; the shown text, the cursor and any
      scheduled hide are left as they are. Otherwise nothing happens. */
  function Render(s: TypeState, text: string, delay: int, speed: int): (r: TypeState)
    ensures (text, delay, speed) == (s.text, s.delay, s.speed) ==> r == s
    ensures (text, delay, speed) != (s.text, s.delay, s.speed) ==>
              && r.text == text && r.delay == delay && r.speed == speed
              && r.currentIndex == 0 && r.stepPending
    ensures r.displayText == s.displayText && r.showCursor == s.showCursor
    ensures r.hidesPending == s.hidesPending
    ensures Consistent(s) ==> Consistent(r)
  {
    if (text, delay, speed) == (s.text, s.delay, s.speed) then s
    else s.(text := text, delay := delay, speed := speed, currentIndex := 0, stepPending := true)
  }

  // ---------------------------------------------------------------------
  // Runs of events

  /** A timer callback firing, or a render with some props. */
  datatype Event = StepFires | HideFires | Rerender(text: string, delay: int, speed: int)

  /** The effect of one event; a callback that is not waiting cannot fire,
      so it changes nothing. */
  function Apply(s: TypeState, e: Event): (r: TypeState)
  {
    match e
    case StepFires => if s.stepPending then Step(s) else s
    case HideFires => if s.hidesPending > 0 then Hide(s) else s
    case Rerender(t, d, sp) => Render(s, t, d, sp)
  }

  function Run(s: TypeState, es: seq<Event>): (r: TypeState)
    decreases |es|
  {
    if es == [] then s else Run(Apply(s, es[0]), es[1..])
  }

  /** `k` typing ticks in a row. */
  function Steps(s: TypeState, k: nat): (r: TypeState)
    decreases k
  {
    if k == 0 then s else Steps(Apply(s, StepFires), k - 1)
  }

  /** Every reachable state is consistent. */
  lemma {:induction false} RunConsistent(s: TypeState, es: seq<Event>)
    requires Consistent(s)
    ensures Consistent(Run(s, es))
    decreases |es|
  {
    if es != [] {
      RunConsistent(Apply(s, es[0]), es[1..]);
    }
  }

  /** Once hidden, the cursor never comes back. */
  lemma {:induction false} CursorStaysHidden(s: TypeState, es: seq<Event>)
    requires !s.showCursor
    ensures !Run(s, es).showCursor
    decreases |es|
  {
    if es != [] {
      CursorStaysHidden(Apply(s, es[0]), es[1..]);
    }
  }

  /** The cursor is hidden only by a hide firing. */
  lemma {:induction false} CursorHiddenOnlyByHide(s: TypeState, es: seq<Event>)
    requires forall k :: 0 <= k < |es| ==> es[k] != HideFires
    ensures Run(s, es).showCursor == s.showCursor
    decreases |es|
  {
    if es != [] {
      CursorHiddenOnlyByHide(Apply(s, es[0]), es[1..]);
    }
  }

  /** `k` ticks from a consistent state with `k` characters left reveal them
      all, one by one, and keep the next tick waiting. */
  lemma {:induction false} TypesOut(s: TypeState, k: nat)
    requires Consistent(s) && s.stepPending && s.currentIndex + k <= |s.text|
    ensures Steps(s, k).currentIndex == s.currentIndex + k
    ensures Steps(s, k).stepPending && Steps(s, k).hidesPending == s.hidesPending
    ensures Steps(s, k).currentIndex > 0 ==> Steps(s, k).displayText == s.text[..s.currentIndex + k]
    ensures Steps(s, k).currentIndex == 0 ==> Steps(s, k).displayText == s.displayText
    ensures Steps(s, k).text == s.text && Steps(s, k).showCursor == s.showCursor
    decreases k
  {
    if k > 0 {
      TypesOut(Step(s), k - 1);
    }
  }

  /** From the first render, `|text|` ticks show the whole text with the
      cursor still on and the next tick waiting. */
  lemma Typed(text: string, delay: int, speed: int)
    ensures var full := Steps(Mount(text, delay, speed), |text|);
              full.displayText == text && full.showCursor && full.stepPending &&
              full.currentIndex == |text| && full.hidesPending == 0 && full.text == text
  {
    TypesOut(Mount(text, delay, speed), |text|);
    assert text[..|text|] == text;
  }

  /** One tick more changes no text, stops typing and schedules exactly one
      hide; when it fires the cursor is off and the text stays whole. */
  lemma Completed(text: string, delay: int, speed: int)
    ensures var done := Steps(Mount(text, delay, speed), |text| + 1);
              done.displayText == text && !done.stepPending && done.hidesPending == 1 &&
              done.showCursor
    ensures var hidden := Run(Steps(Mount(text, delay, speed), |text| + 1), [HideFires]);
              hidden.displayText == text && !hidden.showCursor && hidden.hidesPending == 0
  {
    var s := Mount(text, delay, speed);
    Typed(text, delay, speed);
    StepsLast(s, |text|);
    Finish(Steps(s, |text|));
  }

  /** A tick with the whole text shown, then the hide it schedules. */
  lemma Finish(s: TypeState)
    requires s.stepPending && s.currentIndex == |s.text|
    ensures Apply(s, StepFires).displayText == s.displayText
    ensures !Apply(s, StepFires).stepPending
    ensures Apply(s, StepFires).hidesPending == s.hidesPending + 1
    ensures Apply(s, StepFires).showCursor == s.showCursor
    ensures Run(Apply(s, StepFires), [HideFires]).displayText == s.displayText
    ensures !Run(Apply(s, StepFires), [HideFires]).showCursor
    ensures Run(Apply(s, StepFires), [HideFires]).hidesPending == s.hidesPending
  {
    var done := Step(s);
    assert Run(done, [HideFires]) == Run(Hide(done), []);
  }

  /** The last of `k + 1` ticks is one tick after the first `k`. */
  lemma {:induction false} StepsLast(s: TypeState, k: nat)
    ensures Steps(s, k + 1) == Apply(Steps(s, k), StepFires)
    decreases k
  {
    if k > 0 {
      StepsLast(Apply(s, StepFires), k - 1);
    }
  }

  /** An empty text goes straight to completion on the first tick and the
      shown text stays empty. */
  lemma EmptyText(delay: int, speed: int)
    ensures Step(Mount("", delay, speed)).displayText == ""
    ensures !Step(Mount("", delay, speed)).stepPending
    ensures Step(Mount("", delay, speed)).hidesPending == 1
  {
  }

  /** A hide is scheduled only by a tick at the end of the text. */
  lemma HideOnlyAtEnd(s: TypeState, e: Event)
    ensures Apply(s, e).hidesPending > s.hidesPending <==>
              e == StepFires && s.stepPending && s.currentIndex >= |s.text|
  {
  }

  // ---------------------------------------------------------------------
  // The component

  class TypewriterText {
    var text: string
    var delay: int
    var speed: int
    var currentIndex: nat
    var displayText: string
    var showCursor: bool
    var stepPending: bool
    var hidesPending: nat

    ghost function State(): (s: TypeState)
      reads this
    {
      TypeState(text, delay, speed, currentIndex, displayText, showCursor, stepPending, hidesPending)
    }

    /** First render and the effect's first run. */
    constructor (text: string, delay: int, speed: int)
      ensures State() == Mount(text, delay, speed)
    {
      this.text := text;
      this.delay := delay;
      this.speed := speed;
      displayText := "";
      showCursor := true;
      currentIndex := 0;
      stepPending := true;
      hidesPending := 0;
    }

    /** The `startTyping` timer callback. */
    method StartTyping()
      requires stepPending
      modifies this
      ensures State() == Step(old(State()))
    {
      if currentIndex < |text| {
        displayText := text[..currentIndex + 1];
        currentIndex := currentIndex + 1;
      } else {
        stepPending := false;
        hidesPending := hidesPending + 1;
      }
    }

    /** The cursor-hide timer callback. */
    method HideCursor()
      requires hidesPending > 0
      modifies this
      ensures State() == Hide(old(State()))
    {
      showCursor := false;
      hidesPending := hidesPending - 1;
    }

    /** A render with the given props. */
    method Rerender(text: string, delay: int, speed: int)
      modifies this
      ensures State() == Render(old(State()), text, delay, speed)
    {
      if (text, delay, speed) != (this.text, this.delay, this.speed) {
        this.text := text;
        this.delay := delay;
        this.speed := speed;
        currentIndex := 0;
        stepPending := true;
      }
    }
  }
}
