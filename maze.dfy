/**
 * Level 4 of game.js: the heart maze. A fixed 7x7 text layout — `#` wall,
 * `.` open, `S` start, `G` goal — in which the player's heart moves one
 * cell at a time from the start to the goal.
 */
module Maze {
  import opened Wrappers

  /** The maze, one string per row. */
  const Layout: seq<string> := [
    "#######",
    "#S...G#",
    "#.#.#.#",
    "#.#...#",
    "#.###.#",
    "#.....#",
    "#######"
  ]

  const Rows: nat := 7
  const Cols: nat := 7

  /** A grid position: row and column. */
  datatype Pos = Pos(r: int, c: int)

  /** Where the layout puts the start and the goal. */
  const StartPos := Pos(1, 1)
  const GoalPos := Pos(1, 5)

  /** The layout is a 7x7 rectangle. */
  lemma LayoutIsRectangle()
    ensures |Layout| == Rows
    ensures forall r :: 0 <= r < Rows ==> |Layout[r]| == Cols
  {
  }

  /** `p` lies inside the grid, bounded by the number of rows and the
      length of the first row. */
  predicate InGrid(p: Pos) {
    0 <= p.r < |Layout| && 0 <= p.c < |Layout[0]|
  }

  /** The layout character at `p`. */
  function CharAt(p: Pos): char
    requires InGrid(p)
  {
    LayoutIsRectangle();
    Layout[p.r][p.c]
  }

  /** A cell the player may stand on: inside the grid and not a wall. */
  predicate Open(p: Pos) {
    InGrid(p) && CharAt(p) != '#'
  }

  /** The cell at row-major index `k`. */
  function PosAt(k: nat): (p: Pos)
    requires k < Rows * Cols
    ensures InGrid(p) && p.r * Cols + p.c == k
  {
    Pos(k / Cols, k % Cols)
  }

  /**
   * Scanning the layout row by row, cell by cell, the position of the LAST
   * cell before index `k` that holds `ch`, if any: what repeated assignment
   * during a row-major scan leaves behind.
   */
  function LastUpTo(ch: char, k: nat): (found: Option<Pos>)
    requires k <= Rows * Cols
    ensures found.Some? ==> InGrid(found.value) && CharAt(found.value) == ch
  {
    if k == 0 then None
    else if CharAt(PosAt(k - 1)) == ch then Some(PosAt(k - 1))
    else LastUpTo(ch, k - 1)
  }

  /** What a scan for `ch` of the cells before index `k` leaves in a
      variable that held `dflt`. */
  function LocateUpTo(ch: char, k: nat, dflt: Pos): Pos
    requires k <= Rows * Cols
  {
    match LastUpTo(ch, k)
    case Some(p) => p
    case None => dflt
  }

  /** What a full scan for `ch` leaves in a variable that held `dflt`. */
  function Locate(ch: char, dflt: Pos): Pos {
    LocateUpTo(ch, Rows * Cols, dflt)
  }

  /** One more cell of the scan: the cell at `(r, c)` is the one at index
      `r * Cols + c`, and it replaces what was found so far exactly when it
      holds `ch`. */
  lemma ScanStep(r: nat, c: nat, player: Pos, goal: Pos)
    requires r < Rows && c < Cols
    ensures r * Cols + c < Rows * Cols && PosAt(r * Cols + c) == Pos(r, c)
    ensures LocateUpTo('S', r * Cols + c + 1, player) ==
      if CharAt(Pos(r, c)) == 'S' then Pos(r, c) else LocateUpTo('S', r * Cols + c, player)
    ensures LocateUpTo('G', r * Cols + c + 1, goal) ==
      if CharAt(Pos(r, c)) == 'G' then Pos(r, c) else LocateUpTo('G', r * Cols + c, goal)
  {
    LayoutIsRectangle();
    assert PosAt(r * Cols + c) == Pos(r, c);
  }

  /** If `ch` occurs at index `j` and at no later index below `k`, the scan
      up to `k` finds `j`. */
  lemma {:induction false} LastUpToFinds(ch: char, k: nat, j: nat)
    requires j < k <= Rows * Cols
    requires CharAt(PosAt(j)) == ch
    requires forall i :: j < i < k ==> CharAt(PosAt(i)) != ch
    ensures LastUpTo(ch, k) == Some(PosAt(j))
  {
    if k - 1 != j {
      LastUpToFinds(ch, k - 1, j);
    }
  }

  /**
   * The scan `buildMaze` makes: every cell, row by row, left to right; a
   * `G` moves the goal there, an `S` moves the player there. Starting from
   * `player0` and `goal0`, it ends where the last `S` and the last `G` are.
   */
  method ScanLayout(player0: Pos, goal0: Pos) returns (player: Pos, goal: Pos)
    ensures player == Locate('S', player0) && goal == Locate('G', goal0)
  {
    player, goal := player0, goal0;
    for r := 0 to |Layout|
      invariant player == LocateUpTo('S', r * Cols, player0)
      invariant goal == LocateUpTo('G', r * Cols, goal0)
    {
      player, goal := ScanRow(r, player, goal, player0, goal0);
    }
  }

  /** The scan of row `r`, continuing from what the rows above it left. */
  method ScanRow(r: nat, player: Pos, goal: Pos, ghost player0: Pos, ghost goal0: Pos)
    returns (player': Pos, goal': Pos)
    requires r < Rows
    requires player == LocateUpTo('S', r * Cols, player0)
    requires goal == LocateUpTo('G', r * Cols, goal0)
    ensures player' == LocateUpTo('S', r * Cols + Cols, player0)
    ensures goal' == LocateUpTo('G', r * Cols + Cols, goal0)
  {
    player', goal' := player, goal;
    for c := 0 to |Layout[r]|
      invariant player' == LocateUpTo('S', r * Cols + c, player0)
      invariant goal' == LocateUpTo('G', r * Cols + c, goal0)
    {
      var ch := CharAt(Pos(r, c));
      ScanStep(r, c, player0, goal0);
      if ch == 'G' {
        goal' := Pos(r, c);
      }
      if ch == 'S' {
        player' := Pos(r, c);
      }
    }
  }

  /** The layout holds one `S`, at (1,1), and one `G`, at (1,5). */
  lemma OnlyStartAndGoal()
    ensures forall p :: InGrid(p) && CharAt(p) == 'S' ==> p == StartPos
    ensures forall p :: InGrid(p) && CharAt(p) == 'G' ==> p == GoalPos
  {
    LayoutIsRectangle();
  }

  /** Scanning the layout puts the player on (1,1) and the goal on (1,5),
      whatever they held before. */
  lemma ScanFindsStartAndGoal(dflt: Pos)
    ensures Locate('S', dflt) == StartPos
    ensures Locate('G', dflt) == GoalPos
  {
    OnlyStartAndGoal();
    forall i | 8 < i < Rows * Cols ensures CharAt(PosAt(i)) != 'S' { }
    LastUpToFinds('S', Rows * Cols, 8);
    forall i | 12 < i < Rows * Cols ensures CharAt(PosAt(i)) != 'G' { }
    LastUpToFinds('G', Rows * Cols, 12);
  }

  /** Start and goal are open cells, and so is the straight corridor
      between them along row 1. */
  lemma TopCorridorOpen()
    ensures forall c :: 1 <= c <= 5 ==> Open(Pos(1, c))
  {
    LayoutIsRectangle();
  }

  /** The state `tryMove` works on: where the player is, how many moves
      were made, and whether the goal has been reached. */
  datatype Walker = Walker(player: Pos, moves: nat, won: bool)

  /** The state `startMazeLevel` leaves: on the start cell, no moves, not won. */
  const Fresh := Walker(StartPos, 0, false)

  /**
   * `tryMove(dr, dc)` toward a maze whose goal is `goal`: nothing happens
   * once the maze is won, or when the target cell is outside the grid or a
   * wall; otherwise the player moves there, the move is counted, and
   * reaching the goal wins.
   */
  function Step(w: Walker, goal: Pos, dr: int, dc: int): (w': Walker)
    ensures w.won ==> w' == w
    ensures !Open(Pos(w.player.r + dr, w.player.c + dc)) ==> w' == w
    ensures !w.won && Open(Pos(w.player.r + dr, w.player.c + dc)) ==>
      w'.player == Pos(w.player.r + dr, w.player.c + dc) && w'.moves == w.moves + 1
    ensures w'.moves == w.moves || w'.moves == w.moves + 1
    ensures !w.won ==> (w'.won <==> w'.moves == w.moves + 1 && w'.player == goal)
  {
    if w.won then w
    else
      var target := Pos(w.player.r + dr, w.player.c + dc);
      if !Open(target) then w
      else Walker(target, w.moves + 1, target == goal)
  }

  /** The invariant of a built maze: the player stands on an open cell, and
      the maze counts as won exactly when the player stands on the goal. */
  predicate Consistent(w: Walker, goal: Pos) {
    Open(w.player) && (w.won <==> w.player == goal)
  }

  /** A freshly built maze is consistent, with the goal the layout gives. */
  lemma FreshConsistent()
    ensures Consistent(Fresh, GoalPos)
  {
    TopCorridorOpen();
  }

  /** Every step keeps the maze consistent: the player never ends up on a
      wall or outside the grid, and "won" keeps meaning "on the goal". */
  lemma StepKeepsConsistent(w: Walker, goal: Pos, dr: int, dc: int)
    requires Consistent(w, goal)
    ensures Consistent(Step(w, goal, dr, dc), goal)
  {
  }

  /** From a fresh maze, four steps to the right reach the goal in four
      moves; any step after that changes nothing. */
  lemma FourStepsRightWin(dr: int, dc: int)
    ensures var w4 := Step(Step(Step(Step(Fresh, GoalPos, 0, 1), GoalPos, 0, 1), GoalPos, 0, 1), GoalPos, 0, 1);
      w4 == Walker(GoalPos, 4, true) && Step(w4, GoalPos, dr, dc) == w4
  {
    TopCorridorOpen();
    var w1 := Step(Fresh, GoalPos, 0, 1);
    assert w1 == Walker(Pos(1, 2), 1, false);
    var w2 := Step(w1, GoalPos, 0, 1);
    assert w2 == Walker(Pos(1, 3), 2, false);
    var w3 := Step(w2, GoalPos, 0, 1);
    assert w3 == Walker(Pos(1, 4), 3, false);
  }
}
