/**
 * Level 3 of game.js: the seal hunt. A 4x4 grid of hidden tiles, five of
 * which hide a seal; the seal tiles are drawn at random when the grid is
 * built, and the level is won when all five have been revealed.
 *
 * Random draws are not modelled as such: the values `Math.floor(Math.random()
 * * max)` that the drawing loop would see are given as a sequence.
 */
module Seals {

  /** Tiles in the grid (4x4). */
  const GridSize: nat := 16

  /** Seals hidden in the grid. */
  const SealsTotal: nat := 5

  /** The set of values among the draws. */
  function Drawn(draws: seq<nat>): (s: set<nat>)
    ensures |s| <= |draws|
  {
    if draws == [] then {} else Drawn(draws[..|draws| - 1]) + {draws[|draws| - 1]}
  }

  /** The drawn set holds exactly the values that occur among the draws. */
  lemma {:induction false} DrawnMembers(draws: seq<nat>)
    ensures forall v :: v in Drawn(draws) <==> v in draws
  {
    if draws != [] {
      var init := draws[..|draws| - 1];
      DrawnMembers(init);
      assert draws == init + [draws[|draws| - 1]];
    }
  }

  /** Draws that all lie in `[0, max)` hold at most `max` distinct values, so
      asking for more than `max` of them could never finish. */
  lemma DrawnAtMost(draws: seq<nat>, max: nat)
    requires forall i :: 0 <= i < |draws| ==> draws[i] < max
    ensures |Drawn(draws)| <= max
  {
    DrawnMembers(draws);
    SubsetSize(Drawn(draws), Below(max));
  }

  /** `[0, max)`. */
  function Below(max: nat): (s: set<nat>)
    ensures forall v: nat :: v in s <==> v < max
    ensures |s| == max
  {
    if max == 0 then {} else Below(max - 1) + {max - 1}
  }

  /** Taking one more draw adds that draw's value. */
  lemma DrawnExtend(draws: seq<nat>, i: nat)
    requires i < |draws|
    ensures Drawn(draws[..i + 1]) == Drawn(draws[..i]) + {draws[i]}
  {
    assert draws[..i + 1][..i] == draws[..i];
  }

  /** A subset is no larger than the set around it. */
  lemma {:induction false} SubsetSize(a: set<nat>, b: set<nat>)
    requires a <= b
    ensures |a| <= |b|
    decreases b
  {
    if a != {} {
      var x :| x in a;
      SubsetSize(a - {x}, b - {x});
    }
  }

  /**
   * `pickUnique(count, max)`: add draws to a set until it holds `count`
   * values. Returns the set and how many draws it took. The loop stops as
   * soon as the set is full, and never takes more draws than are given.
   */
  method PickUnique(count: nat, max: nat, draws: seq<nat>) returns (picked: set<nat>, used: nat)
    requires forall i :: 0 <= i < |draws| ==> draws[i] < max
    ensures used <= |draws|
    ensures picked == Drawn(draws[..used])
    ensures forall v :: v in picked ==> v < max
    ensures |picked| <= count
    ensures |picked| < count ==> used == |draws|
    ensures 0 < used ==> |Drawn(draws[..used - 1])| < count
    ensures count <= |Drawn(draws)| ==> |picked| == count
  {
    picked, used := {}, 0;
    while |picked| < count && used < |draws|
      invariant used <= |draws|
      invariant picked == Drawn(draws[..used])
      invariant |picked| <= count
      invariant forall v :: v in picked ==> v < max
      invariant 0 < used ==> |Drawn(draws[..used - 1])| < count
      decreases |draws| - used
    {
      DrawnExtend(draws, used);
      picked := picked + {draws[used]};
      used := used + 1;
    }
    assert used == |draws| ==> draws[..used] == draws;
  }

  /** The number of seals found equals the number of seals exactly when
      every seal tile has been revealed. */
  lemma AllSealsFoundIff(revealed: set<nat>, seals: set<nat>)
    ensures |revealed * seals| == |seals| <==> seals <= revealed
  {
    if seals <= revealed {
      assert revealed * seals == seals;
    } else {
      var x :| x in seals && x !in revealed;
      SubsetSize(revealed * seals, seals - {x});
    }
  }

  /** The found count never exceeds the number of seals. */
  lemma FoundAtMostTotal(revealed: set<nat>, seals: set<nat>)
    ensures |revealed * seals| <= |seals|
  {
    SubsetSize(revealed * seals, seals);
  }

  /** Revealing tile `index` adds one to the found count exactly when it
      is a seal tile that was still hidden. */
  lemma RevealCounts(revealed: set<nat>, seals: set<nat>, index: nat)
    ensures |(revealed + {index}) * seals| ==
      |revealed * seals| + (if index !in revealed && index in seals then 1 else 0)
  {
    if index !in revealed && index in seals {
      assert (revealed + {index}) * seals == revealed * seals + {index};
    } else {
      assert (revealed + {index}) * seals == revealed * seals;
    }
  }
}
