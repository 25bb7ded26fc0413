/**
 * The onboarding walkthrough: six cards shown one at a time, a "next"
 * handler guarded against re-entry while a transition runs, a fade-out
 * timer that advances the card, and a fade-in timer that ends the
 * transition. The last card shows the snap animation instead of a button.
 */
module Onboarding {

  /** What the view needs of a card: its button label (empty for none) and whether it is the snap card. */
  datatype Card = Card(cta: string, isThanos: bool)

  const Cards: seq<Card> := [
    Card("Next →", false),
    Card("I'm Listening →", false),
    Card("Got It →", false),
    Card("grow that muscle →", false),
    Card("Hell Yes!", false),
    Card("", true)
  ]

  /** The index of the last card. */
  const LAST: nat := 5

  /** The timer that is pending, if any; the fade-out timer holds the step its closure captured. */
  datatype Timer = Idle | FadeOut(captured: nat) | FadeIn

  /** The card after the fade-out of card `step`, and whether the walkthrough completes instead. */
  function AfterFadeOut(step: nat): (r: (nat, bool))
    ensures step < LAST ==> r == (step + 1, false)
    ensures step >= LAST ==> r == (step, true)
  {
    if step < |Cards| - 1 then (step + 1, false) else (step, true)
  }

  /** The button is rendered exactly when the card has a label and the snap animation is not showing. */
  predicate ShowsButton(step: nat, showThanosSnap: bool)
    requires step < |Cards|
  {
    !(Cards[step].isThanos && showThanosSnap) && Cards[step].cta != ""
  }

  /** Only the last card has no button: every other card can be advanced by clicking. */
  lemma ButtonOnAllButLast(step: nat, showThanosSnap: bool)
    requires step < |Cards|
    requires showThanosSnap <==> step == LAST
    ensures ShowsButton(step, showThanosSnap) <==> step < LAST
  {
  }

  /** The progress dots: dot `i` is highlighted when it is the current card. */
  function Dots(step: nat): (dots: seq<bool>)
    ensures |dots| == |Cards|
  {
    seq(|Cards|, i => i == step)
  }

  function CountTrue(bs: seq<bool>): nat {
    if bs == [] then 0 else (if bs[0] then 1 else 0) + CountTrue(bs[1..])
  }

  lemma {:induction false} CountTrueSingle(bs: seq<bool>, j: nat)
    requires j < |bs| && forall i :: 0 <= i < |bs| ==> (bs[i] <==> i == j)
    ensures CountTrue(bs) == 1
  {
    if j == 0 {
      CountTrueNone(bs[1..]);
    } else {
      CountTrueSingle(bs[1..], j - 1);
    }
  }

  lemma {:induction false} CountTrueNone(bs: seq<bool>)
    requires forall i :: 0 <= i < |bs| ==> !bs[i]
    ensures CountTrue(bs) == 0
  {
    if bs != [] {
      CountTrueNone(bs[1..]);
    }
  }

  /** Exactly one dot is highlighted, and it is the current card's. */
  lemma DotsHighlightCurrent(step: nat)
    requires step < |Cards|
    ensures Dots(step)[step]
    ensures CountTrue(Dots(step)) == 1
  {
    CountTrueSingle(Dots(step), step);
  }

  class Walkthrough {
    var step: nat
    var isTransitioning: bool
    var isFadingOut: bool
    var showThanosSnap: bool
    var timer: Timer

    /**
     * The state between events: the step is a card index, the snap shows
     * exactly on the last card, and the flags match the pending timer.
     */
    predicate Valid()
      reads this
    {
      step <= LAST &&
      (showThanosSnap <==> step == LAST) &&
      match timer
      case Idle => !isTransitioning && !isFadingOut
      case FadeOut(captured) => captured == step && isTransitioning && isFadingOut
      case FadeIn => isTransitioning && !isFadingOut
    }

    constructor ()
      ensures Valid() && step == 0 && timer == Idle
    {
      step := 0;
      isTransitioning := false;
      isFadingOut := false;
      showThanosSnap := false;
      timer := Idle;
    }

    /** `handleNext`: ignored during a transition; otherwise starts the fade-out and its timer. */
    method HandleNext()
      requires Valid()
      modifies this
      ensures Valid()
      ensures old(isTransitioning) ==> unchanged(this)
      ensures !old(isTransitioning) ==>
                step == old(step) && showThanosSnap == old(showThanosSnap) &&
                isTransitioning && isFadingOut && timer == FadeOut(old(step))
    {
      if isTransitioning {
        return;
      }
      isTransitioning := true;
      isFadingOut := true;
      timer := FadeOut(step);
    }

    /**
     * The fade-out timer: advance from the captured step, showing the snap
     * when the last card is reached, or report completion when already on
     * it; then fade back in and start the fade-in timer.
     */
    method FadeOutDone() returns (completed: bool)
      requires Valid() && timer.FadeOut?
      modifies this
      ensures Valid()
      ensures (step, completed) == AfterFadeOut(old(step))
      ensures completed <==> old(step) == LAST
      ensures isTransitioning && !isFadingOut && timer == FadeIn
    {
      var captured := timer.captured;
      completed := false;
      if captured < |Cards| - 1 {
        step := captured + 1;
        if captured == |Cards| - 2 {
          showThanosSnap := true;
        }
      } else {
        completed := true;
      }
      isFadingOut := false;
      timer := FadeIn;
    }

    /** The fade-in timer: the transition ends and the button accepts clicks again. */
    method FadeInDone()
      requires Valid() && timer == FadeIn
      modifies this
      ensures Valid()
      ensures step == old(step) && showThanosSnap == old(showThanosSnap)
      ensures !isTransitioning && !isFadingOut && timer == Idle
    {
      isTransitioning := false;
      timer := Idle;
    }
  }

  /** One click on the button followed by both timers: the next card, ready for the next click. */
  method ClickThrough(w: Walkthrough) returns (completed: bool)
    requires w.Valid() && w.timer == Idle
    modifies w
    ensures w.Valid() && w.timer == Idle
    ensures (w.step, completed) == AfterFadeOut(old(w.step))
  {
    w.HandleNext();
    completed := w.FadeOutDone();
    w.FadeInDone();
  }
}
