# Valentine mini-game, modelled in Dafny

`game.js` drives a one-page game in four levels, only one shown at a time:

1. **The question.** "Yes" and "No" buttons. Each click on "No" shows the next of twelve
   phrases, shrinking "No" and growing "Yes". From the fourteenth click "No" is disabled.
2. **The catch game.** Pods fall from above the play area, and the player drags a basket
   to catch them. Ten catches win, and a 350 ms timeout then moves on to level 3.
3. **The seal hunt.** A 4x4 grid of tiles hides five seals at random positions. Revealing
   the fifth seal starts the maze.
4. **The heart maze.** A fixed 7x7 maze. The heart moves with the arrow keys, WASD or
   swipes, from `S` to `G`. Reaching `G` wins and freezes the maze.

The script keeps its state in the variables of one closure, and its handlers change them
step by step. Here that state is the class `Valentine.Game`, and each handler is a method
with a `modifies` frame. What the handlers compute is given by functions in one module per
level, and the lemmas are proved about those functions.

| file | module | contents |
|---|---|---|
| `levels.dfy` | `Levels` | `showLevel`'s flags and the "exactly one level active" property |
| `prompt.dfy` | `Prompt` | the "No" phrases, the phrase index, the shrink/grow scales |
| `catch.dfy` | `Catch` | rectangles, the clamp, pods and the exact semantics of a frame of `tick`, the win check |
| `seals.dfy` | `Seals` | `pickUnique` over a supplied sequence of random draws; seal counting |
| `maze.dfy` | `Maze` | the layout, the scan `buildMaze` makes, `tryMove` as a step function and its invariant |
| `input.dfy` | `Input` | key and swipe classification |
| `game.dfy` | `Valentine` | the `Game` class: every handler as a method over the state |
| `wrappers.dfy` | `Wrappers` | `Option` |

Points the model makes precise:

- **The frame skips pods.** `tick` removes a caught or dropped pod with `splice` while
  `forEach` is still iterating, so the pod right after it is not visited in that frame.
  - `Catch.FrameFrom` is the index-by-index semantics that `Game.Tick` executes.
  - `Catch.Sweep` is an independent "visit, or skip after a removal" definition.
  - `Catch.FrameFromIsSweep` proves the two agree. `Catch.CaughtPodSkipsNext` shows the
    skipped pod concretely.
- **The win check fires on every catch from the tenth on.** Each such catch schedules one
  more timeout to level 3 (`Game.pendingWins`).
  - The frame loop itself is never stopped. `tick` requests the next frame after the win
    check has cancelled the current one, so `Game.Tick` ensures `framesRunning`.
  - As a result, pods still on screen can be caught after the win. Each of those catches
    schedules another timeout, and that timeout rebuilds the seal grid (`Game.OnWinTimeout`).
- **The scans overwrite.** `buildMaze` assigns the player and the goal for every `S` and
  `G` it meets.
  - `Maze.Locate` gives "the last occurrence in row-major order, or the previous value".
  - `Maze.ScanFindsStartAndGoal` proves that this layout yields (1,1) and (1,5).
- **Random choices are inputs.**
  - `pickUnique`'s calls to `Math.random()` are the sequence `draws`, already scaled to
    `0..max-1`.
  - Pod positions and speeds are parameters of `Game.SpawnPod`.

## Model

| member | source | states |
|---|---|---|
| `Levels.LevelFlags` | game.js:52-56 | one flag per level; for `n` in 1..4 exactly one level is active, and it is level `n`; for any other `n` none is |
| `Levels.NoneActiveIff` | game.js:52-56 | the active count is zero exactly when no flag is set |
| `Levels.OnlyOneActive` | game.js:52-56 | flags set at exactly one index count one active level |
| `Valentine.Game.ShowLevel` | game.js:52-56 | after the loop the level flags are exactly `LevelFlags(n)` |
| `Valentine.Game.constructor` | game.js:215-216 | the page starts on level 1 with the initial values of game.js:27, 62-66, 131, 172-173, 232-236 and 311: no clicks, no pods, no catches, no seals, the maze not built, no touch recorded, and all invariants holding |
| `Prompt.PhraseIndex` | game.js:31 | the phrase index is always a valid index; it is `clicks - 1` up to 12 clicks and stays at the last phrase from then on |
| `Prompt.PhraseStaysLast` | game.js:31 | from the twelfth click on, every click shows the same, last phrase |
| `Prompt.Shrink` | game.js:36 | the "No" scale lies between 0.65 and 0.92 |
| `Prompt.Grow` | game.js:37 | the "Yes" scale lies between 1.18 and 1.90 |
| `Prompt.ScalesMonotone` | game.js:35-40 | more clicks never grow "No" and never shrink "Yes" |
| `Prompt.ScalesSaturate` | game.js:36-37 | both scales reach their bounds (0.65 and 1.90) exactly from the sixth click on |
| `Prompt.ScalesAroundUnscaled` | game.js:35-40 | once scaling starts, "No" is smaller and "Yes" larger than normal size |
| `Valentine.Game.NoClick` | game.js:29-45 | a click on the enabled button counts and shows `PhraseIndex`; the scales follow the count; "No" is disabled exactly when the count reaches 14 and is never enabled again; a disabled button does not react |
| `Valentine.Game.YesClick` | game.js:47-50 | shows level 2 and starts the catch game: no pods, no catches, spawning and the frame loop running, the basket centred when it fits |
| `Valentine.Game.StartCatchGame` | game.js:69-73 | resets the game, then starts the spawn interval and the frame loop |
| `Valentine.Game.ResetCatchGame` | game.js:75-81 | no pods, no catches, and the basket at the clamped middle of the area |
| `Catch.RectsOverlap` | game.js:115-117 | two rectangles overlap unless one lies strictly left of, right of, above or below the other |
| `Catch.OverlapIffCommonPoint` | game.js:115-117 | for well-formed rectangles, `rectsOverlap` holds exactly when the rectangles share a point |
| `Catch.OverlapSymmetric` | game.js:115-117 | overlap does not depend on argument order |
| `Catch.Clamp` | game.js:161 | the result lies in `[lo, hi]` when that is non-empty; it is `x` when `x` is in range and the nearer bound otherwise; the lower bound wins when the interval is empty |
| `Catch.ClampIdempotent` | game.js:161 | clamping an already clamped value changes nothing |
| `Valentine.Game.MoveBasket` | game.js:159-164 | the basket goes to the clamped position and stays inside the area whenever it fits |
| `Valentine.Game.Resize` | game.js:213 | after a resize the area takes its new width and height and the basket is clamped again from its old position; with unchanged geometry it does not move |
| `Valentine.Game.StartDrag` | game.js:139-144 | dragging starts and remembers the grab offset from the basket's centre |
| `Valentine.Game.OnDrag` | game.js:146-153 | while dragging, the basket follows the pointer minus the offset, clamped; otherwise it stays |
| `Valentine.Game.EndDrag` | game.js:155-157 | dragging stops |
| `Valentine.Game.SpawnPod` | game.js:83-92 | appends one pod at the spawn height -40 |
| `Valentine.Game.OnSpawnTimer` | game.js:71 | the interval adds a pod only while it is running |
| `Catch.RemoveAt` | game.js:103 | `splice(i, 1)`: one element shorter, the elements before `i` kept and those after it shifted down by one |
| `Catch.FrameFrom` | game.js:95-111 | one frame as `forEach` runs it over a list spliced in place: each pod visited falls (game.js:96) and is caught when it overlaps the basket (game.js:99-101), dropped past the floor, or kept |
| `Catch.FrameFromConserves` | game.js:95-111 | a frame creates no pods: pods kept plus pods caught never exceed the pods there were |
| `Catch.FrameFromIsSweep` | game.js:95-111 | the in-place splice iteration equals the visit/skip definition: after a removal the next pod is skipped, unmoved |
| `Catch.RemovedStep` | game.js:101-110 | when the pod at the current index is caught or dropped, the splice shifts the next pod into that index, and the frame skips it |
| `Catch.KeptStep` | game.js:95-110 | when the pod at the current index is neither caught nor dropped, it falls and stays in place |
| `Catch.FrameIsSweep` | game.js:95-111 | a whole frame equals `Sweep` of the pod list |
| `Catch.SweepConserves` | game.js:95-111 | survivors plus catches never exceed the pods there were |
| `Catch.SweepSurvivors` | game.js:101-110 | every pod kept is either a pod from before the frame or a moved one that was not caught and is above the drop line |
| `Catch.SweepWithoutRemovals` | game.js:95-111 | when no pod is caught or dropped, every pod falls once and none is lost |
| `Catch.CaughtPodSkipsNext` | game.js:101-104 | when the first pod is caught, the second is not moved in that frame |
| `Catch.WinChecks` | game.js:104-106 | the win fires at most once per catch |
| `Catch.NoWinBelowTarget` | game.js:119-120 | while the total stays below ten, no win fires |
| `Catch.EveryCatchPastTargetWins` | game.js:119-120 | once the count is at least ten, every further catch fires the win again |
| `Catch.WinChecksClosedForm` | game.js:119-128 | the number of wins fired by `n` catches, in closed form |
| `Valentine.Game.CheckCatchWin` | game.js:119-128 | from ten catches on it stops spawning, cancels the frame and schedules one more timeout; below ten nothing changes |
| `Valentine.Game.VisitPod` | game.js:95-111 | one run of the `forEach` callback at index `k` advances the frame by one index exactly as `FrameFrom` does, keeping the catch count and the scheduled timeouts in step with it; spawning stops exactly when a win check fires |
| `Valentine.Game.Tick` | game.js:94-113 | the pods and the catch count afterwards are those `Sweep` gives; one timeout is scheduled per win check fired; spawning stops exactly if one fired; the next frame is always requested |
| `Valentine.Game.OnAnimationFrame` | game.js:72 | a frame runs `tick` only when one was requested; then pods, catches, scheduled timeouts and spawning change exactly as `Tick` states, and the next frame is requested |
| `Valentine.Game.OnWinTimeout` | game.js:123-126 | each scheduled timeout shows level 3 and builds a new seal grid, with five seals and nothing found or revealed |
| `Seals.PickUnique` | game.js:190-194 | draws until `count` distinct values are held or the draws run out; the result is the set of the draws consumed, all below `max`, and exactly `count` values when the draws offer that many; no draw is consumed after the set is full |
| `Seals.DrawnMembers` | game.js:192 | the set built from the draws holds exactly the drawn values |
| `Seals.DrawnAtMost` | game.js:192 | draws below `max` give at most `max` distinct values, so `count > max` can never be met |
| `Valentine.Game.BuildSealGrid` | game.js:175-188 | no seal found, no tile revealed, and five seal positions, all drawn and on the grid |
| `Seals.AllSealsFoundIff` | game.js:199-206 | the found count equals the number of seals exactly when every seal tile is revealed |
| `Seals.RevealCounts` | game.js:197-201 | revealing a tile adds one to the number of revealed seal tiles exactly when it is a seal tile that was still hidden |
| `Seals.FoundAtMostTotal` | game.js:199-203 | the found count never exceeds the number of seals |
| `Valentine.Game.RevealTile` | game.js:196-210 | revealing twice is a no-op; the found count is always the number of revealed seal tiles and at most five; the maze starts exactly when the fifth seal is found, and never a second time |
| `Valentine.Game.CountReveal` | game.js:197-202 | the tile joins the revealed set; the found count goes up exactly for a seal tile not revealed before, and stays the number of revealed seal tiles, at most five |
| `Maze.ScanLayout` | game.js:250-268 | the row-by-row scan leaves the player at the last `S` and the goal at the last `G` of the layout |
| `Maze.ScanRow` | game.js:252-266 | scanning one row extends the scan by exactly that row's cells |
| `Maze.ScanStep` | game.js:256-263 | one cell of the scan replaces the position found so far exactly when the cell holds the character sought |
| `Maze.LastUpToFinds` | game.js:250-268 | a scan finds the last occurrence of a character before its end |
| `Maze.ScanFindsStartAndGoal` | game.js:223-263 | scanning this layout always puts the player on (1,1) and the goal on (1,5) |
| `Maze.OnlyStartAndGoal` | game.js:223-231 | the layout has exactly one `S` and one `G` |
| `Maze.TopCorridorOpen` | game.js:224-226 | row 1 is open from the start to the goal |
| `Valentine.Game.BuildMaze` | game.js:247-270 | the player and goal are those the scan of the layout gives |
| `Valentine.Game.StartMazeLevel` | game.js:238-245 | the player on the start, the goal set, no moves, not won, level 4 shown, and the maze invariant holding (also the reset button, game.js:346) |
| `Maze.Step` | game.js:289-300 | won, outside the grid or a wall: nothing changes; otherwise the player moves, the move counts, and the maze is won exactly when the new cell is the goal |
| `Maze.FreshConsistent` | game.js:238-245 | a freshly started maze satisfies the invariant |
| `Maze.StepKeepsConsistent` | game.js:289-308 | every move keeps the player on an open cell and "won" equal to "on the goal" |
| `Maze.FourStepsRightWin` | game.js:289-308 | from the start, four moves right win in four moves, and any further move changes nothing |
| `Valentine.Game.TryMove` | game.js:289-300 | the maze state changes exactly as `Step` says and keeps its invariant |
| `Valentine.Game.CheckMazeWin` | game.js:302-308 | standing on the goal sets the win, and a win is never undone |
| `Valentine.FourRightsWin` | game.js:289-308 | starting the maze and moving right four times wins in four moves; a fifth move keeps it won |
| `Valentine.AcceptAtOnce` | game.js:47-81 | opening the page and clicking "Yes" at once gives level 2, no catches, no pods and a centred basket |
| `Input.LowerChar` | game.js:339 | upper-case ASCII letters are lowered, other characters kept, and no upper-case letter remains |
| `Input.Lower` | game.js:339 | every upper-case ASCII letter becomes its lower-case letter, every other character is kept, and no upper-case letter remains |
| `Input.LowerIdempotent` | game.js:339 | lowering twice is lowering once |
| `Input.KeyDelta` | game.js:339-343 | the key moves up, down, left or right exactly when, lower-cased, it is the matching arrow key name or W/S/A/D; every move is a unit step |
| `Input.KeyDeltaIgnoresCase` | game.js:339 | key handling does not depend on case |
| `Input.LowerKeyNames` | game.js:339 | the lower-case forms of the arrow key names and of W, A, S, D |
| `Input.KeyNames` | game.js:340-343 | concrete keys, mixed case included, map to their moves; other keys do nothing |
| `Valentine.Game.KeyDown` | game.js:337-344 | on level 4 a direction key steps the maze as `Step` says; otherwise nothing changes |
| `Input.Abs` | game.js:324-325 | the absolute value is non-negative and equals `x` or `-x` |
| `Input.SwipeDelta` | game.js:322-332 | no move exactly when both extents are under 20; otherwise a unit step, horizontal exactly when the horizontal extent is larger, in the direction of the swipe |
| `Input.SwipeReversed` | game.js:322-332 | reversing a swipe reverses the move |
| `Input.DiagonalSwipeIsVertical` | game.js:328-332 | a swipe with equal extents moves vertically |
| `Valentine.Game.TouchStart` | game.js:312-316 | on level 4 a touch records its start point; otherwise nothing changes |
| `Valentine.Game.TouchEnd` | game.js:318-334 | on level 4, with a recorded start and a long enough swipe, the maze steps and the start is forgotten; otherwise nothing changes |

## Left out

- The DOM is not modelled: element creation and removal, text, emoji, styles, opacity,
  `aria-label`s and `paintPlayer`'s drawing. The level sections are the boolean array
  `Game.levels`, and the scales of the buttons are fields in hundredths.
- Timers and animation frames are events the environment delivers: `OnSpawnTimer`,
  `OnAnimationFrame` and `OnWinTimeout`. Their delays (900 ms, 350 ms) and their ordering
  are not modelled.
- `Math.random()` is not modelled. It becomes the sequence `draws` for `pickUnique`, and the
  `x` and `fall` parameters of `SpawnPod`.
- Page geometry is supplied by the caller. Bounding rectangles come in as the basket's
  `Rect` and the function `podRect`. The area's width and height and the basket's half
  width are fields set by the constructor and by `Resize`. The source reads them from the
  page at each use; the model assumes they change only when the window is resized.
- Prompt.Shrink and Prompt.Grow are exact in hundredths. `game.js` computes the scales in
  floating point, where for example `1 - 4 * 0.08` is not exactly 0.68.
- Catch.Fallen moves a pod by an integer distance. The source falls `speed * 3.2` pixels,
  where `speed` is a random float.
- Valentine.Game.BuildSealGrid requires draws that hold five distinct values. This stands
  for `pickUnique`'s loop running until its set is full. With fewer the source would never
  return, and `Seals.DrawnAtMost` shows that `count > max` could never be satisfied.
- Valentine.Game.NoClick models a disabled button as delivering no click, as the browser
  does. The source's own handler has no such check.
- Valentine.Game.KeyDown uses `KeyDelta` in place of the four separate `if`s. At most one
  of them can match a key, so the two forms are equivalent.
- Calling `startCatchGame` a second time (clicking "Yes" again while level 2 is shown)
  would leave the first spawn interval running in the source, and would start a second
  animation-frame chain beside the first (`rafId` is overwritten, and both chains keep
  re-requesting), so that `tick` then runs twice per frame. The model has single `spawning`
  and `framesRunning` flags and counts neither intervals nor frame chains.
- Before the maze is first built, the player and goal are (0,0), a wall. The maze invariant
  (`MazeReady`) is therefore only kept from the first `StartMazeLevel` on.
- The seal tiles' click handlers are modelled by `RevealTile(index)` on the tile's index.
  The model does not track the tile objects of earlier grids.
- Unicode case folding is not modelled: `Input.Lower` lowers ASCII letters only. All key
  names that matter are ASCII.
