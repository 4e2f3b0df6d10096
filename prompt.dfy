/**
 * Level 1 of game.js: the escalating "No" button. Every click on "No" shows
 * the next phrase of a fixed list, shrinks "No" and grows "Yes", and after
 * enough clicks disables "No" for good.
 *
 * Scale factors are kept in integer hundredths (`65` stands for `0.65`).
 */
module Prompt {

  /** The phrases "No" cycles through, in order. */
  const NoPhrases: seq<string> := [
    "Are you sure?",
    "Like, really sure?",
    "Super sure?",
    "100% sure??",
    "Think again... \U{1F928}",
    "Pretty please?",
    "I\U{2019}ll bring flowers! \U{1F339}",
    "There will be chocolate! \U{1F36B}",
    "A playlist is ready! \U{1F3B5}",
    "We would be cute together!",
    "Okay, now you\U{2019}re teasing me!",
    "Final final chance! \U{1F495}"
  ]

  /** The click count at which "No" becomes disabled: two past the phrase list. */
  const DisableAt: nat := |NoPhrases| + 2

  /** Scale of a button that has not been transformed, in hundredths. */
  const Unscaled: int := 100

  /** Index of the phrase shown after the `clicks`-th click on "No": a new
      phrase per click until the list runs out, then the last one. */
  function PhraseIndex(clicks: nat): (i: nat)
    requires clicks >= 1
    ensures i < |NoPhrases|
    ensures clicks <= |NoPhrases| ==> i == clicks - 1
    ensures clicks >= |NoPhrases| ==> i == |NoPhrases| - 1
  {
    if clicks - 1 < |NoPhrases| - 1 then clicks - 1 else |NoPhrases| - 1
  }

  /** Scale of "No" after the `clicks`-th click (from the second on):
      `max(0.65, 1 - 0.08 (clicks - 1))`. */
  function Shrink(clicks: nat): (s: int)
    requires clicks >= 2
    ensures 65 <= s <= 92
  {
    var linear := 100 - 8 * (clicks - 1);
    if linear < 65 then 65 else linear
  }

  /** Scale of "Yes" after the `clicks`-th click (from the second on):
      `1 + min(0.9, 0.18 (clicks - 1))`. */
  function Grow(clicks: nat): (g: int)
    requires clicks >= 2
    ensures 118 <= g <= 190
  {
    var step := 18 * (clicks - 1);
    100 + (if step > 90 then 90 else step)
  }

  /** Once the list is exhausted, every further click shows the last phrase. */
  lemma PhraseStaysLast(a: nat, b: nat)
    requires |NoPhrases| <= a <= b
    ensures PhraseIndex(a) == PhraseIndex(b) == |NoPhrases| - 1
  {
  }

  /** "No" never grows and "Yes" never shrinks as the clicks go on. */
  lemma ScalesMonotone(a: nat, b: nat)
    requires 2 <= a <= b
    ensures Shrink(b) <= Shrink(a)
    ensures Grow(a) <= Grow(b)
  {
  }

  /** Both scales reach their bound at the sixth click and stay there. */
  lemma ScalesSaturate(clicks: nat)
    requires clicks >= 2
    ensures Shrink(clicks) == 65 <==> clicks >= 6
    ensures Grow(clicks) == 190 <==> clicks >= 6
  {
  }

  /** The scales never leave the untransformed range on the wrong side:
      "No" is at most its natural size, "Yes" at least its natural size. */
  lemma ScalesAroundUnscaled(clicks: nat)
    requires clicks >= 2
    ensures Shrink(clicks) < Unscaled < Grow(clicks)
  {
  }
}
