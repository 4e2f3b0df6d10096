/**
 * The state of game.js and the handlers that change it. The script keeps
 * all of its state in variables of one closure; here they are the fields of
 * one `Game` object, and every handler or helper that assigns them is a
 * method. What the script only draws (text, emoji, styles) is left out;
 * what it reads back from the page (the play area's size, bounding
 * rectangles, pointer coordinates) comes in as parameters.
 *
 * Events are delivered by the browser: a click on the disabled "No" button,
 * a timer that was cleared, or an animation frame that was not requested
 * never reaches a handler. The methods named `On...` model that delivery.
 */
module Valentine {
  import opened Wrappers
  import opened Levels
  import opened Prompt
  import opened Catch
  import opened Seals
  import opened Maze
  import opened Input

  /** Where a touch on the maze began. */
  datatype TouchPoint = TouchPoint(x: real, y: real)

  class Game {
    /** The four level sections: `levels[i]` is the `active` flag of level `i + 1`. */
    const levels: array<bool>

    // Level 1: the "No" button
    var noClicks: nat
    /** Index of the phrase on "No"; `None` while it still shows its own label. */
    var noPhrase: Option<nat>
    /** Scales of "No" and "Yes", in hundredths. */
    var noScale: int
    var yesScale: int
    var noDisabled: bool

    // Level 2: the catch game
    var areaWidth: real
    var areaHeight: int
    /** Half the basket's width. */
    var basketHalf: real
    /** Horizontal centre of the basket in the play area. */
    var basketX: real
    var pods: seq<Pod>
    var catchCount: nat
    /** The 900 ms spawn interval is running. */
    var spawning: bool
    /** An animation frame is requested. */
    var framesRunning: bool
    /** Scheduled 350 ms timeouts that will move on to the seal hunt. */
    var pendingWins: nat
    var dragActive: bool
    var dragOffset: real

    // Level 3: the seal hunt
    var sealsFound: nat
    var sealPositions: set<nat>
    /** Indices of the tiles that have been revealed. */
    var revealed: set<nat>

    // Level 4: the heart maze
    var playerPos: Pos
    var goalPos: Pos
    var mazeMoves: nat
    var mazeWon: bool
    var touchStart: Option<TouchPoint>

    /** "No" shows the phrase, scales and enabled state its click count
        calls for; it is disabled exactly at the last click it accepts. */
    ghost predicate PromptValid()
      reads this`noClicks, this`noPhrase, this`noScale, this`yesScale, this`noDisabled
    {
      && noClicks <= DisableAt
      && (noDisabled <==> noClicks == DisableAt)
      && noPhrase == (if noClicks == 0 then None else Some(PhraseIndex(noClicks)))
      && noScale == (if noClicks >= 2 then Shrink(noClicks) else Unscaled)
      && yesScale == (if noClicks >= 2 then Grow(noClicks) else Unscaled)
    }

    /** The basket lies inside the play area whenever it fits in it. */
    ghost predicate BasketValid()
      reads this`basketHalf, this`basketX, this`areaWidth
    {
      2.0 * basketHalf <= areaWidth ==> basketHalf <= basketX <= areaWidth - basketHalf
    }

    /** The seals are five tiles of the grid (none before the first build),
        and the found count is the number of revealed seal tiles. */
    ghost predicate SealsValid()
      reads this`revealed, this`sealPositions, this`sealsFound
    {
      && (forall i :: i in revealed ==> i < GridSize)
      && (forall i :: i in sealPositions ==> i < GridSize)
      && (sealPositions == {} || |sealPositions| == SealsTotal)
      && sealsFound == |revealed * sealPositions|
    }

    /** The maze state after a build, as `tryMove` keeps it. */
    ghost predicate MazeReady()
      reads this`playerPos, this`goalPos, this`mazeMoves, this`mazeWon
    {
      goalPos == GoalPos && Consistent(Walker(playerPos, mazeMoves, mazeWon), goalPos)
    }

    ghost predicate Valid()
      reads this`noClicks, this`noPhrase, this`noScale, this`yesScale, this`noDisabled
      reads this`basketHalf, this`basketX, this`areaWidth
      reads this`revealed, this`sealPositions, this`sealsFound
      reads this`playerPos, this`goalPos, this`mazeMoves, this`mazeWon, levels
    {
      && levels.Length == LevelCount
      && PromptValid()
      && BasketValid()
      && SealsValid()
      && (levels[3] ==> MazeReady())
    }

    /** The page loads: level 1 is shown, nothing has happened yet. */
    constructor (width: real, height: int, half: real)
      ensures Valid() && fresh(levels)
      ensures levels[..] == LevelFlags(1)
      ensures noClicks == 0 && noPhrase == None && !noDisabled
      ensures areaWidth == width && areaHeight == height && basketHalf == half
      ensures basketX == width / 2.0 && pods == [] && catchCount == 0
      ensures !spawning && !framesRunning && pendingWins == 0 && !dragActive
      ensures sealsFound == 0 && sealPositions == {} && revealed == {}
      ensures playerPos == Pos(0, 0) && goalPos == Pos(0, 0) && mazeMoves == 0 && !mazeWon
      ensures touchStart == None
    {
      levels := new bool[LevelCount];
      noClicks, noPhrase, noScale, yesScale, noDisabled := 0, None, Unscaled, Unscaled, false;
      areaWidth, areaHeight, basketHalf, basketX := width, height, half, width / 2.0;
      pods, catchCount := [], 0;
      spawning, framesRunning, pendingWins := false, false, 0;
      dragActive, dragOffset := false, 0.0;
      sealsFound, sealPositions, revealed := 0, {}, {};
      playerPos, goalPos, mazeMoves, mazeWon := Pos(0, 0), Pos(0, 0), 0, false;
      touchStart := None;
      new;
      ShowLevel(1);
    }

    /** `showLevel(n)`: every level's flag is set exactly when it is level `n`. */
    method ShowLevel(n: int)
      requires levels.Length == LevelCount
      modifies levels
      ensures levels[..] == LevelFlags(n)
    {
      for idx := 0 to LevelCount
        invariant forall j :: 0 <= j < idx ==> levels[j] == (j == n - 1)
      {
        levels[idx] := idx == n - 1;
      }
    }

    // ---------------------------------------------------------------- Level 1

    /** A click on "No": the next phrase, smaller "No" and bigger "Yes" from
        the second click on, and "No" disabled from the fourteenth. A
        disabled button receives no clicks. */
    method NoClick()
      requires Valid()
      modifies this`noClicks, this`noPhrase, this`noScale, this`yesScale, this`noDisabled
      ensures Valid()
      ensures noClicks == if old(noDisabled) then old(noClicks) else old(noClicks) + 1
      ensures noPhrase == Some(PhraseIndex(noClicks)) || old(noDisabled)
      ensures old(noDisabled) ==> noDisabled
      ensures noDisabled <==> noClicks >= DisableAt
    {
      if noDisabled {
        return;
      }
      noClicks := noClicks + 1;
      noPhrase := Some(PhraseIndex(noClicks));
      if noClicks >= 2 {
        noScale := Shrink(noClicks);
        yesScale := Grow(noClicks);
      }
      if noClicks >= DisableAt {
        noDisabled := true;
      }
    }

    /** A click on "Yes": level 2 is shown and the catch game starts. */
    method YesClick()
      requires Valid()
      modifies levels, this`pods, this`catchCount, this`basketX, this`spawning, this`framesRunning
      ensures Valid()
      ensures levels[..] == LevelFlags(2)
      ensures pods == [] && catchCount == 0 && spawning && framesRunning
      ensures 2.0 * basketHalf <= areaWidth ==> basketX == areaWidth / 2.0
    {
      ShowLevel(2);
      StartCatchGame();
    }

    // ---------------------------------------------------------------- Level 2

    /** `startCatchGame`: reset, then start the spawn interval and the frame loop. */
    method StartCatchGame()
      modifies this`pods, this`catchCount, this`basketX, this`spawning, this`framesRunning
      ensures pods == [] && catchCount == 0 && spawning && framesRunning
      ensures basketX == Clamp(basketHalf, areaWidth - basketHalf, areaWidth / 2.0)
      ensures BasketValid()
    {
      ResetCatchGame();
      spawning := true;
      framesRunning := true;
    }

    /** `resetCatchGame`: no pods, no catches, the basket in the middle. */
    method ResetCatchGame()
      modifies this`pods, this`catchCount, this`basketX
      ensures pods == [] && catchCount == 0
      ensures basketX == Clamp(basketHalf, areaWidth - basketHalf, areaWidth / 2.0)
      ensures 2.0 * basketHalf <= areaWidth ==> basketX == areaWidth / 2.0
      ensures BasketValid()
    {
      pods := [];
      catchCount := 0;
      MoveBasket(areaWidth / 2.0);
    }

    /** `moveBasket(x)`: the basket's centre goes to `x`, kept inside the area. */
    method MoveBasket(x: real)
      modifies this`basketX
      ensures basketX == Clamp(basketHalf, areaWidth - basketHalf, x)
      ensures BasketValid()
    {
      basketX := Clamp(basketHalf, areaWidth - basketHalf, x);
    }

    /** The window is resized: the area and basket may change size, and the
        basket is clamped again from where it was. */
    method Resize(width: real, height: int, half: real)
      requires BasketValid()
      modifies this`areaWidth, this`areaHeight, this`basketHalf, this`basketX
      ensures areaWidth == width && areaHeight == height && basketHalf == half
      ensures basketX == Clamp(half, width - half, old(basketX))
      ensures BasketValid()
      ensures width == old(areaWidth) && half == old(basketHalf) && 2.0 * half <= width ==>
        basketX == old(basketX)
    {
      areaWidth, areaHeight, basketHalf := width, height, half;
      MoveBasket(basketX);
    }

    /** A touch or mouse press on the basket: remember where on the basket
        it was grabbed. */
    method StartDrag(clientX: real, basketLeft: real, basketWidth: real)
      modifies this`dragActive, this`dragOffset
      ensures dragActive && dragOffset == clientX - (basketLeft + basketWidth / 2.0)
    {
      dragActive := true;
      dragOffset := clientX - (basketLeft + basketWidth / 2.0);
    }

    /** Pointer movement: while dragging, the basket follows the pointer. */
    method OnDrag(clientX: real, areaLeft: real)
      modifies this`basketX
      ensures dragActive ==> basketX == Clamp(basketHalf, areaWidth - basketHalf, clientX - areaLeft - dragOffset)
      ensures !dragActive ==> basketX == old(basketX)
      ensures old(BasketValid()) ==> BasketValid()
    {
      if !dragActive {
        return;
      }
      MoveBasket(clientX - areaLeft - dragOffset);
    }

    method EndDrag()
      modifies this`dragActive
      ensures !dragActive
    {
      dragActive := false;
    }

    /** `spawnPod`: a new pod at horizontal position `x`, above the area,
        falling `fall` per frame. */
    method SpawnPod(x: real, fall: int)
      modifies this`pods
      ensures pods == old(pods) + [Pod(x, SpawnY, fall)]
    {
      pods := pods + [Pod(x, SpawnY, fall)];
    }

    /** The spawn interval fires, if it is still running. */
    method OnSpawnTimer(x: real, fall: int)
      modifies this`pods
      ensures pods == if spawning then old(pods) + [Pod(x, SpawnY, fall)] else old(pods)
    {
      if spawning {
        SpawnPod(x, fall);
      }
    }

    /** `checkCatchWin`: from the target on, stop spawning, cancel the
        requested frame and schedule the move to level 3. */
    method CheckCatchWin()
      modifies this`spawning, this`framesRunning, this`pendingWins
      ensures catchCount >= TargetCatches ==>
        !spawning && !framesRunning && pendingWins == old(pendingWins) + 1
      ensures catchCount < TargetCatches ==>
        spawning == old(spawning) && framesRunning == old(framesRunning) && pendingWins == old(pendingWins)
    {
      if catchCount >= TargetCatches {
        spawning := false;
        framesRunning := false;
        pendingWins := pendingWins + 1;
      }
    }

    /**
     * `tick`, one animation frame: every pod visited falls; one that overlaps
     * the basket is caught (counted, and the win is checked), one past the
     * bottom is dropped; both are spliced out of the list in place, so the
     * pod after them is skipped this frame. At the end the next frame is
     * requested, which undoes a cancellation made by a win check during the
     * frame: the frame loop never stops.
     */
    method Tick(basketRect: Rect, podRect: Pod -> Rect)
      modifies this`pods, this`catchCount, this`spawning, this`framesRunning, this`pendingWins
      ensures var o := Sweep(old(pods), false, HitTest(basketRect, podRect), areaHeight + DropMargin);
        && pods == o.pods
        && catchCount == old(catchCount) + o.caught
        && pendingWins == old(pendingWins) + WinChecks(old(catchCount), o.caught)
        && spawning == (old(spawning) && WinChecks(old(catchCount), o.caught) == 0)
      ensures framesRunning
    {
      var hit := HitTest(basketRect, podRect);
      var floor := areaHeight + DropMargin;
      ghost var start := pods;
      ghost var whole := FrameFrom(start, 0, hit, floor);
      var n := |pods|;
      var k := 0;
      while k < n
        invariant k <= n && |pods| <= n
        invariant FrameFrom(pods, k, hit, floor).pods == whole.pods
        invariant catchCount + FrameFrom(pods, k, hit, floor).caught == old(catchCount) + whole.caught
        invariant pendingWins + WinChecks(catchCount, FrameFrom(pods, k, hit, floor).caught)
               == old(pendingWins) + WinChecks(old(catchCount), whole.caught)
        invariant pendingWins >= old(pendingWins)
        invariant spawning == (old(spawning) && pendingWins == old(pendingWins))
      {
        if k < |pods| {
          VisitPod(k, hit, floor);
        }
        k := k + 1;
      }
      framesRunning := true;
      FrameIsSweep(start, hit, floor);
    }

    /** The `forEach` callback of `tick` at index `k`: the pod there falls,
        and is caught (counted, the win checked) or dropped, both by a
        splice, or kept. The rest of the frame is left exactly as it was. */
    method VisitPod(k: nat, hit: Pod -> bool, floor: int)
      requires k < |pods|
      modifies this`pods, this`catchCount, this`spawning, this`framesRunning, this`pendingWins
      ensures |pods| <= old(|pods|)
      ensures FrameFrom(pods, k + 1, hit, floor).pods == FrameFrom(old(pods), k, hit, floor).pods
      ensures catchCount + FrameFrom(pods, k + 1, hit, floor).caught
           == old(catchCount) + FrameFrom(old(pods), k, hit, floor).caught
      ensures pendingWins + WinChecks(catchCount, FrameFrom(pods, k + 1, hit, floor).caught)
           == old(pendingWins) + WinChecks(old(catchCount), FrameFrom(old(pods), k, hit, floor).caught)
      ensures pendingWins >= old(pendingWins)
      ensures spawning == (old(spawning) && pendingWins == old(pendingWins))
    {
      var p := Fallen(pods[k]);
      if hit(p) {
        pods := RemoveAt(pods, k);
        catchCount := catchCount + 1;
        CheckCatchWin();
      } else if p.y > floor {
        pods := RemoveAt(pods, k);
      } else {
        pods := pods[k := p];
      }
    }

    /** An animation frame arrives, if one was requested. */
    method OnAnimationFrame(basketRect: Rect, podRect: Pod -> Rect)
      modifies this`pods, this`catchCount, this`spawning, this`framesRunning, this`pendingWins
      ensures !old(framesRunning) ==>
        pods == old(pods) && catchCount == old(catchCount) && spawning == old(spawning)
        && !framesRunning && pendingWins == old(pendingWins)
      ensures old(framesRunning) ==> framesRunning
      ensures old(framesRunning) ==>
        var o := Sweep(old(pods), false, HitTest(basketRect, podRect), areaHeight + DropMargin);
        pods == o.pods && catchCount == old(catchCount) + o.caught
        && pendingWins == old(pendingWins) + WinChecks(old(catchCount), o.caught)
        && spawning == (old(spawning) && WinChecks(old(catchCount), o.caught) == 0)
    {
      if framesRunning {
        Tick(basketRect, podRect);
      }
    }

    /** One of the scheduled 350 ms timeouts fires: level 3 is shown and the
        seal grid is built (again, if an earlier timeout already built it).
        `draws` stands for the random values the grid's build will draw. */
    method OnWinTimeout(draws: seq<nat>)
      requires Valid()
      requires forall i :: 0 <= i < |draws| ==> draws[i] < GridSize
      requires SealsTotal <= |Drawn(draws)|
      modifies levels, this`pendingWins, this`sealsFound, this`sealPositions, this`revealed
      ensures Valid()
      ensures old(pendingWins) == 0 ==>
        pendingWins == 0 && levels[..] == old(levels[..]) && sealsFound == old(sealsFound)
        && sealPositions == old(sealPositions) && revealed == old(revealed)
      ensures old(pendingWins) > 0 ==>
        pendingWins == old(pendingWins) - 1 && levels[..] == LevelFlags(3)
        && sealsFound == 0 && revealed == {} && |sealPositions| == SealsTotal
    {
      if pendingWins == 0 {
        return;
      }
      pendingWins := pendingWins - 1;
      ShowLevel(3);
      BuildSealGrid(draws);
    }

    // ---------------------------------------------------------------- Level 3

    /** `buildSealGrid`: sixteen hidden tiles, five of them seals drawn at
        random, nothing found yet. */
    method BuildSealGrid(draws: seq<nat>)
      requires forall i :: 0 <= i < |draws| ==> draws[i] < GridSize
      requires SealsTotal <= |Drawn(draws)|
      modifies this`sealsFound, this`sealPositions, this`revealed
      ensures SealsValid()
      ensures sealsFound == 0 && revealed == {}
      ensures |sealPositions| == SealsTotal
      ensures forall v :: v in sealPositions ==> v < GridSize && v in draws
    {
      sealsFound := 0;
      var picked, used := PickUnique(SealsTotal, GridSize, draws);
      DrawnMembers(draws[..used]);
      sealPositions := picked;
      revealed := {};
    }

    /**
     * A click on tile `index`: a tile already revealed ignores it; otherwise
     * the tile is revealed and, if it hides a seal, counted; the fifth seal
     * starts the maze. Returns whether the maze was started.
     */
    method RevealTile(index: nat) returns (mazeStarted: bool)
      requires Valid() && index < GridSize
      modifies levels, this`revealed, this`sealsFound, this`playerPos, this`goalPos, this`mazeMoves, this`mazeWon
      ensures Valid()
      ensures revealed == old(revealed) + {index}
      ensures sealsFound == old(sealsFound) + (if index !in old(revealed) && index in sealPositions then 1 else 0)
      ensures sealsFound <= SealsTotal
      ensures mazeStarted <==> sealsFound == SealsTotal && old(sealsFound) < SealsTotal
      ensures old(sealsFound) == SealsTotal ==> !mazeStarted
      ensures mazeStarted ==>
        levels[..] == LevelFlags(4) && playerPos == StartPos && goalPos == GoalPos && mazeMoves == 0 && !mazeWon
      ensures !mazeStarted ==>
        levels[..] == old(levels[..]) && playerPos == old(playerPos) && goalPos == old(goalPos)
        && mazeMoves == old(mazeMoves) && mazeWon == old(mazeWon)
    {
      var seal := CountReveal(index);
      mazeStarted := seal && sealsFound == SealsTotal;
      if mazeStarted {
        StartMazeLevel();
      } else {
        assert levels[3] ==> MazeReady();
      }
    }

    /** The bookkeeping part of a tile click: the tile is revealed, and a
        seal tile not revealed before is counted. */
    method CountReveal(index: nat) returns (seal: bool)
      requires SealsValid() && index < GridSize
      modifies this`revealed, this`sealsFound
      ensures SealsValid()
      ensures revealed == old(revealed) + {index}
      ensures seal <==> index !in old(revealed) && index in sealPositions
      ensures sealsFound == old(sealsFound) + (if seal then 1 else 0)
      ensures sealsFound <= SealsTotal
      ensures PromptValid() == old(PromptValid()) && BasketValid() == old(BasketValid())
    {
      RevealCounts(revealed, sealPositions, index);
      FoundAtMostTotal(revealed + {index}, sealPositions);
      seal := index !in revealed && index in sealPositions;
      revealed := revealed + {index};
      sealsFound := sealsFound + if seal then 1 else 0;
    }

    // ---------------------------------------------------------------- Level 4

    /** `startMazeLevel` (also the reset button): rebuild the maze, no moves,
        not won, level 4 shown. */
    method StartMazeLevel()
      requires levels.Length == LevelCount
      modifies levels, this`playerPos, this`goalPos, this`mazeMoves, this`mazeWon
      ensures playerPos == StartPos && goalPos == GoalPos && mazeMoves == 0 && !mazeWon
      ensures levels[..] == LevelFlags(4)
      ensures MazeReady()
      ensures PromptValid() == old(PromptValid()) && BasketValid() == old(BasketValid())
      ensures SealsValid() == old(SealsValid())
    {
      ScanFindsStartAndGoal(playerPos);
      ScanFindsStartAndGoal(goalPos);
      BuildMaze();
      mazeMoves := 0;
      mazeWon := false;
      ShowLevel(4);
      FreshConsistent();
    }

    /** `buildMaze`: scan the layout row by row; the player goes where the
        scan last saw `S`, the goal where it last saw `G`. */
    method BuildMaze()
      modifies this`playerPos, this`goalPos
      ensures playerPos == Locate('S', old(playerPos)) && goalPos == Locate('G', old(goalPos))
    {
      playerPos, goalPos := ScanLayout(playerPos, goalPos);
    }

    /** `tryMove(dr, dc)`: the maze steps as `Step` says. */
    method TryMove(dr: int, dc: int)
      modifies this`playerPos, this`mazeMoves, this`mazeWon
      ensures Walker(playerPos, mazeMoves, mazeWon) == Step(Walker(old(playerPos), old(mazeMoves), old(mazeWon)), goalPos, dr, dc)
      ensures old(MazeReady()) ==> MazeReady()
    {
      if mazeWon {
        return;
      }
      var target := Pos(playerPos.r + dr, playerPos.c + dc);
      if target.r < 0 || target.c < 0 || target.r >= |Layout| || target.c >= |Layout[0]| {
        return;
      }
      if CharAt(target) == '#' {
        return;
      }
      playerPos := target;
      mazeMoves := mazeMoves + 1;
      CheckMazeWin();
      if old(MazeReady()) {
        StepKeepsConsistent(Walker(old(playerPos), old(mazeMoves), old(mazeWon)), goalPos, dr, dc);
      }
    }

    /** `checkMazeWin`: standing on the goal wins. */
    method CheckMazeWin()
      modifies this`mazeWon
      ensures mazeWon == (old(mazeWon) || playerPos == goalPos)
    {
      if playerPos == goalPos {
        mazeWon := true;
      }
    }

    /** A key press; only while level 4 is shown. */
    method KeyDown(key: string)
      requires levels.Length == LevelCount
      modifies this`playerPos, this`mazeMoves, this`mazeWon
      ensures var before := Walker(old(playerPos), old(mazeMoves), old(mazeWon));
        Walker(playerPos, mazeMoves, mazeWon) ==
          if levels[3] && KeyDelta(key).Some?
          then Step(before, goalPos, KeyDelta(key).value.dr, KeyDelta(key).value.dc)
          else before
      ensures old(MazeReady()) ==> MazeReady()
    {
      if !levels[3] {
        return;
      }
      match KeyDelta(key)
      case Some(d) => TryMove(d.dr, d.dc);
      case None =>
    }

    /** A touch begins on the maze; only while level 4 is shown. */
    method TouchStart(x: real, y: real)
      requires levels.Length == LevelCount
      modifies this`touchStart
      ensures touchStart == if levels[3] then Some(TouchPoint(x, y)) else old(touchStart)
    {
      if !levels[3] {
        return;
      }
      touchStart := Some(TouchPoint(x, y));
    }

    /** A touch ends on the maze; only while level 4 is shown and a touch
        start was recorded. A swipe too short to count leaves the recorded
        start in place; one that counts moves and forgets it. */
    method TouchEnd(x: real, y: real)
      requires levels.Length == LevelCount
      modifies this`touchStart, this`playerPos, this`mazeMoves, this`mazeWon
      ensures var before := Walker(old(playerPos), old(mazeMoves), old(mazeWon));
        var swipe := if old(touchStart).Some?
          then SwipeDelta(x - old(touchStart).value.x, y - old(touchStart).value.y) else None;
        if levels[3] && swipe.Some? then
          Walker(playerPos, mazeMoves, mazeWon) == Step(before, goalPos, swipe.value.dr, swipe.value.dc)
          && touchStart == None
        else
          Walker(playerPos, mazeMoves, mazeWon) == before && touchStart == old(touchStart)
      ensures old(MazeReady()) ==> MazeReady()
    {
      if !levels[3] {
        return;
      }
      if touchStart.None? {
        return;
      }
      var d := SwipeDelta(x - touchStart.value.x, y - touchStart.value.y);
      if d.None? {
        return;
      }
      TryMove(d.value.dr, d.value.dc);
      touchStart := None;
    }
  }

  /** Opening the page and answering "Yes" straight away shows the catch
      game with no catches and the basket in the middle of the area. */
  method AcceptAtOnce(width: real, height: int, half: real) returns (g: Game)
    requires 2.0 * half <= width
    ensures fresh(g) && g.Valid()
    ensures g.levels[..] == LevelFlags(2) && g.noClicks == 0
    ensures g.catchCount == 0 && g.pods == [] && g.basketX == width / 2.0
  {
    g := new Game(width, height, half);
    g.YesClick();
  }

  /** Starting the maze and moving right four times wins it in four
      moves; a fifth move, in any direction, changes nothing. */
  method FourRightsWin(g: Game, dr: int, dc: int)
    requires g.levels.Length == LevelCount
    modifies g.levels, g
    ensures g.mazeWon && g.mazeMoves == 4 && g.playerPos == GoalPos
  {
    g.StartMazeLevel();
    g.TryMove(0, 1);
    g.TryMove(0, 1);
    g.TryMove(0, 1);
    g.TryMove(0, 1);
    FourStepsRightWin(dr, dc);
    g.TryMove(dr, dc);
  }
}
