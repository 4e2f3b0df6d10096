/**
 * Maze input in game.js: keys (arrows or WASD) and swipes on the maze grid,
 * each turned into a one-cell step `(dr, dc)` for the maze's `tryMove`.
 */
module Input {
  import opened Wrappers

  /** A step on the grid: rows down, columns right. */
  datatype Delta = Delta(dr: int, dc: int)

  /** A step to one of the four neighbouring cells. */
  predicate IsUnitStep(d: Delta) {
    (d.dr == 0 && (d.dc == 1 || d.dc == -1)) || (d.dc == 0 && (d.dr == 1 || d.dr == -1))
  }

  const Up := Delta(-1, 0)
  const Down := Delta(1, 0)
  const Left := Delta(0, -1)
  const Right := Delta(0, 1)

  /** Minimal swipe length, in pixels, on at least one axis. */
  const SwipeThreshold: real := 20.0

  function Abs(x: real): (a: real)
    ensures a >= 0.0 && (a == x || a == -x)
  {
    if x < 0.0 then -x else x
  }

  /** A character in lower case (ASCII letters only: the key names the game
      listens for are ASCII). */
  function LowerChar(ch: char): (l: char)
    ensures 'A' <= ch <= 'Z' ==> l as int == ch as int + 32
    ensures !('A' <= ch <= 'Z') ==> l == ch
    ensures !('A' <= l <= 'Z')
  {
    if 'A' <= ch <= 'Z' then (ch as int + 32) as char else ch
  }

  /** `toLowerCase` on the ASCII letters of `s`: every upper-case letter
      becomes its lower-case letter, everything else is kept, and no
      upper-case letter remains. */
  function Lower(s: string): (l: string)
    ensures |l| == |s|
    ensures forall i :: 0 <= i < |s| && 'A' <= s[i] <= 'Z' ==> l[i] as int == s[i] as int + 32
    ensures forall i :: 0 <= i < |s| && !('A' <= s[i] <= 'Z') ==> l[i] == s[i]
    ensures forall i :: 0 <= i < |l| ==> !('A' <= l[i] <= 'Z')
  {
    seq(|s|, i requires 0 <= i < |s| => LowerChar(s[i]))
  }

  /** Lowering is idempotent. */
  lemma LowerIdempotent(s: string)
    ensures Lower(Lower(s)) == Lower(s)
  {
  }

  /** The step a key press asks for: arrows or W/A/S/D in either case;
      any other key asks for none. */
  function KeyDelta(key: string): (d: Option<Delta>)
    ensures d.Some? ==> IsUnitStep(d.value)
    ensures d == Some(Up) <==> Lower(key) in {"arrowup", "w"}
    ensures d == Some(Down) <==> Lower(key) in {"arrowdown", "s"}
    ensures d == Some(Left) <==> Lower(key) in {"arrowleft", "a"}
    ensures d == Some(Right) <==> Lower(key) in {"arrowright", "d"}
  {
    var k := Lower(key);
    if k == "arrowup" || k == "w" then Some(Up)
    else if k == "arrowdown" || k == "s" then Some(Down)
    else if k == "arrowleft" || k == "a" then Some(Left)
    else if k == "arrowright" || k == "d" then Some(Right)
    else None
  }

  /** Key handling ignores case: a key and its lower-case form ask for the
      same step. */
  lemma KeyDeltaIgnoresCase(key: string)
    ensures KeyDelta(key) == KeyDelta(Lower(key))
  {
    LowerIdempotent(key);
  }

  /** The browser's key names and the WASD letters, upper or lower case. */
  lemma KeyNames()
    ensures KeyDelta("ArrowUp") == KeyDelta("W") == KeyDelta("w") == Some(Up)
    ensures KeyDelta("ArrowDown") == KeyDelta("S") == KeyDelta("s") == Some(Down)
    ensures KeyDelta("ArrowLeft") == KeyDelta("A") == KeyDelta("a") == Some(Left)
    ensures KeyDelta("ArrowRight") == KeyDelta("D") == KeyDelta("d") == Some(Right)
    ensures KeyDelta("Enter") == KeyDelta("q") == None
  {
    LowerKeyNames();
  }

  /** The lower-case forms of the key names `KeyNames` uses. */
  lemma LowerKeyNames()
    ensures Lower("ArrowUp") == "arrowup" && Lower("W") == "w" && Lower("w") == "w"
    ensures Lower("ArrowDown") == "arrowdown" && Lower("S") == "s" && Lower("s") == "s"
    ensures Lower("ArrowLeft") == "arrowleft" && Lower("A") == "a" && Lower("a") == "a"
    ensures Lower("ArrowRight") == "arrowright" && Lower("D") == "d" && Lower("d") == "d"
    ensures Lower("Enter") == "enter" && Lower("q") == "q"
  {
    LowerWord("ArrowUp", "arrowup");
    LowerWord("ArrowDown", "arrowdown");
    LowerWord("ArrowLeft", "arrowleft");
    LowerWord("ArrowRight", "arrowright");
    LowerWord("Enter", "enter");
  }

  /** `t` is `s` lowered when it is, character by character. */
  lemma LowerWord(s: string, t: string)
    requires |s| == |t|
    requires forall i :: 0 <= i < |s| ==> LowerChar(s[i]) == t[i]
    ensures Lower(s) == t
  {
  }

  /**
   * The step a swipe of `(dx, dy)` pixels asks for. A swipe shorter than the
   * threshold on both axes asks for none; otherwise it moves along the axis
   * with the strictly larger extent, vertically on a tie, in the direction
   * of the swipe.
   */
  function SwipeDelta(dx: real, dy: real): (d: Option<Delta>)
    ensures d.None? <==> Abs(dx) < SwipeThreshold && Abs(dy) < SwipeThreshold
    ensures d.Some? ==> IsUnitStep(d.value)
    ensures d.Some? ==> (d.value.dr == 0 <==> Abs(dx) > Abs(dy))
    ensures d.Some? && d.value.dr == 0 ==> (d.value.dc == 1 <==> dx > 0.0)
    ensures d.Some? && d.value.dc == 0 ==> (d.value.dr == 1 <==> dy > 0.0)
  {
    var absX, absY := Abs(dx), Abs(dy);
    if absX < SwipeThreshold && absY < SwipeThreshold then None
    else if absX > absY then Some(Delta(0, if dx > 0.0 then 1 else -1))
    else Some(Delta(if dy > 0.0 then 1 else -1, 0))
  }

  /** Swiping the opposite way asks for the opposite step. */
  lemma SwipeReversed(dx: real, dy: real)
    ensures SwipeDelta(-dx, -dy).None? == SwipeDelta(dx, dy).None?
    ensures SwipeDelta(dx, dy).Some? ==>
      SwipeDelta(-dx, -dy).value == Delta(-SwipeDelta(dx, dy).value.dr, -SwipeDelta(dx, dy).value.dc)
  {
  }

  /** A diagonal swipe (equal extents) past the threshold moves vertically. */
  lemma DiagonalSwipeIsVertical(dx: real, dy: real)
    requires Abs(dx) == Abs(dy) >= SwipeThreshold
    ensures SwipeDelta(dx, dy) == Some(if dy > 0.0 then Down else Up)
  {
  }
}
