/**
 * Level 2 of game.js: the catch game. Pods fall from the top of the play
 * area; the player drags a basket along the bottom; a pod that touches the
 * basket is caught, one that falls past the bottom is dropped.
 *
 * This module holds the pure parts: rectangle overlap, the basket clamp, the
 * effect of one animation frame on the list of pods, and how many win checks
 * a run of catches fires.
 */
module Catch {

  /** Catches needed to win the level. */
  const TargetCatches: nat := 10

  /** Vertical offset at which a new pod starts, above the play area. */
  const SpawnY: int := -40

  /** How far below the play area's height a pod may fall before it is dropped. */
  const DropMargin: int := 60

  /** A screen rectangle, as a bounding client rect gives it. */
  datatype Rect = Rect(left: real, top: real, right: real, bottom: real)

  predicate WellFormed(a: Rect) {
    a.left <= a.right && a.top <= a.bottom
  }

  /** The point `(x, y)` lies in `a`, edges included. */
  predicate InRect(a: Rect, x: real, y: real) {
    a.left <= x <= a.right && a.top <= y <= a.bottom
  }

  /** Two rectangles overlap unless one lies strictly to one side of the
      other; rectangles that only share an edge overlap. */
  predicate RectsOverlap(a: Rect, b: Rect) {
    !(a.right < b.left || a.left > b.right || a.bottom < b.top || a.top > b.bottom)
  }

  /** For well-formed rectangles, overlapping means having a point in common. */
  lemma OverlapIffCommonPoint(a: Rect, b: Rect)
    requires WellFormed(a) && WellFormed(b)
    ensures RectsOverlap(a, b) <==> exists x, y :: InRect(a, x, y) && InRect(b, x, y)
  {
    if RectsOverlap(a, b) {
      var x := if a.left < b.left then b.left else a.left;
      var y := if a.top < b.top then b.top else a.top;
      assert InRect(a, x, y) && InRect(b, x, y);
    }
  }

  /** Overlap does not depend on the order of the two rectangles. */
  lemma OverlapSymmetric(a: Rect, b: Rect)
    ensures RectsOverlap(a, b) == RectsOverlap(b, a)
  {
  }

  /** `max(lo, min(hi, x))`: the value `x` pulled into `[lo, hi]`. When the
      interval is empty (`hi < lo`) the lower bound wins. */
  function Clamp(lo: real, hi: real, x: real): (r: real)
    ensures lo <= hi ==> lo <= r <= hi
    ensures lo <= x <= hi ==> r == x
    ensures hi < lo ==> r == lo
    ensures lo <= hi && x < lo ==> r == lo
    ensures lo <= hi && hi < x ==> r == hi
  {
    var m := if hi < x then hi else x;
    if lo < m then m else lo
  }

  /** Clamping twice is clamping once. */
  lemma ClampIdempotent(lo: real, hi: real, x: real)
    ensures Clamp(lo, hi, Clamp(lo, hi, x)) == Clamp(lo, hi, x)
  {
  }

  /** The collision test of a frame: a pod is caught when the rectangle it
      is drawn in (given by `podRect`) overlaps the basket's rectangle. */
  function HitTest(basket: Rect, podRect: Pod -> Rect): (hit: Pod -> bool)
  {
    p => RectsOverlap(basket, podRect(p))
  }

  /** A falling pod: its horizontal position (fixed at spawn), its vertical
      offset and the distance it falls per animation frame. */
  datatype Pod = Pod(x: real, y: int, fall: int)

  /** The pod one frame later. */
  function Fallen(p: Pod): Pod
  {
    p.(y := p.y + p.fall)
  }

  /** The pods left after a frame and how many were caught in it. */
  datatype FrameOutcome = FrameOutcome(pods: seq<Pod>, caught: nat)

  /** The list `ps` without its element at `k`: `splice(k, 1)`. */
  function RemoveAt(ps: seq<Pod>, k: nat): (r: seq<Pod>)
    requires k < |ps|
    ensures |r| == |ps| - 1
    ensures forall i :: 0 <= i < k ==> r[i] == ps[i]
    ensures forall i :: k <= i < |r| ==> r[i] == ps[i + 1]
  {
    ps[..k] + ps[k + 1..]
  }

  /**
   * One animation frame, the way the source's `forEach` with an in-place
   * `splice` runs it: the callback is given index `k` of the list AS IT IS
   * NOW, for `k` counting up from where the frame has got to; a pod that is
   * caught (overlaps after falling) or has fallen past `floor` is spliced
   * out, which shifts the next pod into index `k`, and the frame moves on
   * to `k + 1`.
   */
  function FrameFrom(ps: seq<Pod>, k: nat, hit: Pod -> bool, floor: int): (o: FrameOutcome)
    decreases |ps| - k
  {
    if |ps| <= k then FrameOutcome(ps, 0)
    else
      var p := Fallen(ps[k]);
      if hit(p) then
        var rest := FrameFrom(RemoveAt(ps, k), k + 1, hit, floor);
        rest.(caught := rest.caught + 1)
      else if p.y > floor then FrameFrom(RemoveAt(ps, k), k + 1, hit, floor)
      else FrameFrom(ps[k := p], k + 1, hit, floor)
  }

  /** A frame creates no pods: what it keeps plus what it catches never
      exceeds what there was, whatever index it starts from. */
  lemma {:induction false} FrameFromConserves(ps: seq<Pod>, k: nat, hit: Pod -> bool, floor: int)
    ensures |FrameFrom(ps, k, hit, floor).pods| + FrameFrom(ps, k, hit, floor).caught <= |ps|
    decreases |ps| - k
  {
    if k < |ps| {
      var p := Fallen(ps[k]);
      if hit(p) || p.y > floor {
        FrameFromConserves(RemoveAt(ps, k), k + 1, hit, floor);
      } else {
        FrameFromConserves(ps[k := p], k + 1, hit, floor);
      }
    }
  }

  /**
   * The same frame described pod by pod, as a reference: a visited pod falls
   * and is caught, dropped or kept; the pod right after one that was removed
   * is skipped (`skip`): it stays where it was, unmoved, for this frame.
   */
  function Sweep(ps: seq<Pod>, skip: bool, hit: Pod -> bool, floor: int): (o: FrameOutcome)
    decreases |ps|
  {
    if ps == [] then FrameOutcome([], 0)
    else if skip then
      var rest := Sweep(ps[1..], false, hit, floor);
      FrameOutcome([ps[0]] + rest.pods, rest.caught)
    else
      var p := Fallen(ps[0]);
      if hit(p) then
        var rest := Sweep(ps[1..], true, hit, floor);
        rest.(caught := rest.caught + 1)
      else if p.y > floor then Sweep(ps[1..], true, hit, floor)
      else
        var rest := Sweep(ps[1..], false, hit, floor);
        FrameOutcome([p] + rest.pods, rest.caught)
  }

  /** The index-by-index frame from position `k` on leaves the first `k`
      pods as they are and sweeps the rest. */
  lemma {:induction false} FrameFromIsSweep(ps: seq<Pod>, k: nat, hit: Pod -> bool, floor: int)
    requires k <= |ps|
    ensures FrameFrom(ps, k, hit, floor).pods == ps[..k] + Sweep(ps[k..], false, hit, floor).pods
    ensures FrameFrom(ps, k, hit, floor).caught == Sweep(ps[k..], false, hit, floor).caught
    decreases |ps| - k, 1
  {
    if k == |ps| {
      assert ps[..k] == ps && ps[k..] == [];
    } else if hit(Fallen(ps[k])) || Fallen(ps[k]).y > floor {
      RemovedStep(ps, k, hit, floor);
    } else {
      KeptStep(ps, k, hit, floor);
    }
  }

  /** The step of `FrameFromIsSweep` where the pod at `k` is spliced out. */
  lemma {:induction false} RemovedStep(ps: seq<Pod>, k: nat, hit: Pod -> bool, floor: int)
    requires k < |ps|
    requires hit(Fallen(ps[k])) || Fallen(ps[k]).y > floor
    ensures FrameFrom(ps, k, hit, floor).pods == ps[..k] + Sweep(ps[k..], false, hit, floor).pods
    ensures FrameFrom(ps, k, hit, floor).caught == Sweep(ps[k..], false, hit, floor).caught
    decreases |ps| - k, 0
  {
    var tail := ps[k..];
    assert tail[0] == ps[k] && tail[1..] == ps[k + 1..];
    var ps' := RemoveAt(ps, k);
    var c := if hit(Fallen(ps[k])) then 1 else 0;
    var sw := Sweep(ps[k + 1..], true, hit, floor);
    assert Sweep(tail, false, hit, floor) == sw.(caught := sw.caught + c);
    var ff := FrameFrom(ps', k + 1, hit, floor);
    assert FrameFrom(ps, k, hit, floor) == ff.(caught := ff.caught + c);
    if k + 1 == |ps| {
      assert ps' == ps[..k];
      assert ps[k + 1..] == [];
    } else {
      FrameFromIsSweep(ps', k + 1, hit, floor);
      var rest := Sweep(ps[k + 2..], false, hit, floor);
      assert ps[k + 1..][1..] == ps[k + 2..];
      assert sw == FrameOutcome([ps[k + 1]] + rest.pods, rest.caught);
      assert ps'[..k + 1] == ps[..k] + [ps[k + 1]];
      assert ps'[k + 1..] == ps[k + 2..];
      assert ps[..k] + [ps[k + 1]] + rest.pods == ps[..k] + ([ps[k + 1]] + rest.pods);
    }
  }

  /** The step of `FrameFromIsSweep` where the pod at `k` falls and stays. */
  lemma {:induction false} KeptStep(ps: seq<Pod>, k: nat, hit: Pod -> bool, floor: int)
    requires k < |ps|
    requires !hit(Fallen(ps[k])) && Fallen(ps[k]).y <= floor
    ensures FrameFrom(ps, k, hit, floor).pods == ps[..k] + Sweep(ps[k..], false, hit, floor).pods
    ensures FrameFrom(ps, k, hit, floor).caught == Sweep(ps[k..], false, hit, floor).caught
    decreases |ps| - k, 0
  {
    var p := Fallen(ps[k]);
    var tail := ps[k..];
    assert tail[0] == ps[k] && tail[1..] == ps[k + 1..];
    var ps' := ps[k := p];
    FrameFromIsSweep(ps', k + 1, hit, floor);
    assert ps'[..k + 1] == ps[..k] + [p];
    assert ps'[k + 1..] == ps[k + 1..];
    assert ps[..k] + [p] + Sweep(ps[k + 1..], false, hit, floor).pods
        == ps[..k] + ([p] + Sweep(ps[k + 1..], false, hit, floor).pods);
  }

  /** A whole frame (from index 0) is the sweep of the whole list. */
  lemma FrameIsSweep(ps: seq<Pod>, hit: Pod -> bool, floor: int)
    ensures FrameFrom(ps, 0, hit, floor) == Sweep(ps, false, hit, floor)
  {
    FrameFromIsSweep(ps, 0, hit, floor);
    assert ps[..0] == [] && ps[0..] == ps;
  }

  /** No pod is created by a frame: what is kept plus what is caught never
      exceeds what was there. */
  lemma {:induction false} SweepConserves(ps: seq<Pod>, skip: bool, hit: Pod -> bool, floor: int)
    ensures |Sweep(ps, skip, hit, floor).pods| + Sweep(ps, skip, hit, floor).caught <= |ps|
    decreases |ps|
  {
    if ps != [] {
      SweepConserves(ps[1..], false, hit, floor);
      SweepConserves(ps[1..], true, hit, floor);
    }
  }

  /** Every pod still there after a frame is either one of the pods the
      frame started with, left unmoved, or a pod that fell this frame and
      neither touches the basket nor lies past the floor. */
  lemma {:induction false} SweepSurvivors(ps: seq<Pod>, skip: bool, hit: Pod -> bool, floor: int)
    ensures forall q :: q in Sweep(ps, skip, hit, floor).pods ==> q in ps || (!hit(q) && q.y <= floor)
    decreases |ps|
  {
    if ps != [] {
      SweepSurvivors(ps[1..], false, hit, floor);
      SweepSurvivors(ps[1..], true, hit, floor);
    }
  }

  /** When nothing is removed, every pod falls one step and none is caught. */
  lemma {:induction false} SweepWithoutRemovals(ps: seq<Pod>, hit: Pod -> bool, floor: int)
    requires forall i :: 0 <= i < |ps| ==> !hit(Fallen(ps[i])) && Fallen(ps[i]).y <= floor
    ensures Sweep(ps, false, hit, floor).caught == 0
    ensures |Sweep(ps, false, hit, floor).pods| == |ps|
    ensures forall i :: 0 <= i < |ps| ==> Sweep(ps, false, hit, floor).pods[i] == Fallen(ps[i])
    decreases |ps|
  {
    if ps != [] {
      forall i | 0 <= i < |ps[1..]| ensures !hit(Fallen(ps[1..][i])) && Fallen(ps[1..][i]).y <= floor {
        assert ps[1..][i] == ps[i + 1];
      }
      SweepWithoutRemovals(ps[1..], hit, floor);
      var rest := Sweep(ps[1..], false, hit, floor);
      forall i | 0 <= i < |ps| ensures Sweep(ps, false, hit, floor).pods[i] == Fallen(ps[i]) {
        if i > 0 { assert ps[1..][i - 1] == ps[i]; }
      }
    }
  }

  /** The skip: when the first pod is caught, the pod right after it is not
      moved this frame, even if it would be caught too. */
  lemma CaughtPodSkipsNext(a: Pod, b: Pod, rest: seq<Pod>, hit: Pod -> bool, floor: int)
    requires hit(Fallen(a))
    ensures var o := FrameFrom([a, b] + rest, 0, hit, floor); |o.pods| >= 1 && o.pods[0] == b && o.caught >= 1
  {
    var ps := [a, b] + rest;
    FrameIsSweep(ps, hit, floor);
    assert ps[1..] == [b] + rest;
    assert ([b] + rest)[1..] == rest;
  }

  /**
   * How many win checks fire while `n` pods are caught one after another,
   * starting from `before` catches: one for each catch after which the count
   * has reached the target.
   */
  function WinChecks(before: nat, n: nat): (w: nat)
    ensures w <= n
    decreases n
  {
    if n == 0 then 0
    else (if before + 1 >= TargetCatches then 1 else 0) + WinChecks(before + 1, n - 1)
  }

  /** Catches that stay below the target fire no win check. */
  lemma {:induction false} NoWinBelowTarget(before: nat, n: nat)
    requires before + n < TargetCatches
    ensures WinChecks(before, n) == 0
    decreases n
  {
    if n > 0 { NoWinBelowTarget(before + 1, n - 1); }
  }

  /** From the target on, every single catch fires the win check again. */
  lemma {:induction false} EveryCatchPastTargetWins(before: nat, n: nat)
    requires before + 1 >= TargetCatches
    ensures WinChecks(before, n) == n
    decreases n
  {
    if n > 0 { EveryCatchPastTargetWins(before + 1, n - 1); }
  }

  /** The count of win checks in closed form. */
  lemma {:induction false} WinChecksClosedForm(before: nat, n: nat)
    ensures WinChecks(before, n) ==
      if before + n < TargetCatches then 0
      else if before + 1 >= TargetCatches then n
      else before + n + 1 - TargetCatches
    decreases n
  {
    if n > 0 {
      WinChecksClosedForm(before + 1, n - 1);
    }
  }
}
