/**
 * The level selector of game.js: four levels (the "No"/"Yes" prompt, the
 * catch game, the seal hunt and the heart maze), of which `showLevel(n)`
 * marks level `n` (counting from 1) as the active one.
 */
module Levels {

  /** Number of levels on the page. */
  const LevelCount: nat := 4

  /** The `active` flags `showLevel(n)` leaves on the four levels: level
      element `idx` is active exactly when `idx == n - 1`. For a level
      number 1..4 exactly one level is active, level `n`; for any other `n`
      none is. */
  function LevelFlags(n: int): (flags: seq<bool>)
    ensures |flags| == LevelCount
    ensures CountActive(flags) == if 1 <= n <= LevelCount then 1 else 0
    ensures 1 <= n <= LevelCount ==> flags[n - 1]
  {
    var flags := seq(LevelCount, idx => idx == n - 1);
    if 1 <= n <= LevelCount then
      OnlyOneActive(flags, n - 1);
      flags
    else
      NoneActiveIff(flags);
      flags
  }

  /** How many of the flags are set. */
  function CountActive(flags: seq<bool>): (k: nat)
    ensures k <= |flags|
  {
    if flags == [] then 0 else (if flags[0] then 1 else 0) + CountActive(flags[1..])
  }

  /** No flag set: the count is zero, and the other way round. */
  lemma {:induction false} NoneActiveIff(flags: seq<bool>)
    ensures CountActive(flags) == 0 <==> forall i :: 0 <= i < |flags| ==> !flags[i]
  {
    if flags != [] {
      NoneActiveIff(flags[1..]);
      if CountActive(flags) == 0 {
        forall i | 0 <= i < |flags| ensures !flags[i] {
          if i > 0 { assert flags[i] == flags[1..][i - 1]; }
        }
      }
    }
  }

  /** Exactly the flag at position `j` is set: the count is one. */
  lemma {:induction false} OnlyOneActive(flags: seq<bool>, j: nat)
    requires j < |flags|
    requires forall i :: 0 <= i < |flags| ==> (flags[i] <==> i == j)
    ensures CountActive(flags) == 1
  {
    if j == 0 {
      NoneActiveIff(flags[1..]);
    } else {
      OnlyOneActive(flags[1..], j - 1);
    }
  }
}
