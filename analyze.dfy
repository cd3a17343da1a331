/**
 * `destroy_prob` of analyze.py: for each of the next turns, the chance that
 * one attack destroys the defender when it has already taken the attack's
 * base damage once per earlier turn. The chance sums the weights of the
 * crit modifiers i for which the damage plus i reaches the remaining health.
 * Probabilities are exact reals.
 */
module Analyze {
  import opened Wrappers
  import opened Tiles
  import opened Units

  /** `crit_prob`: each crit modifier with its weight, in the dictionary's iteration order. */
  const CritTable: seq<(int, real)> := [(-1, 0.2), (0, 0.5), (1, 0.2), (2, 0.1)]

  /** The summed weight of the table's entries whose modifier i makes the damage d reach hp: i + d >= hp. */
  function KillWeight(table: seq<(int, real)>, d: int, hp: int): (w: real)
    ensures (forall i :: 0 <= i < |table| ==> table[i].1 >= 0.0) ==> w >= 0.0
    ensures (forall i :: 0 <= i < |table| ==> table[i].0 + d < hp) ==> w == 0.0
    decreases |table|
  {
    if table == [] then 0.0
    else
      var last := table[|table| - 1];
      KillWeight(table[..|table| - 1], d, hp) + (if last.0 + d >= hp then last.1 else 0.0)
  }

  /**
   * The chance of a kill by the threshold the health sets over the damage:
   * every modifier kills when hp - d <= -1, all but -1 when it is 0, the
   * modifiers 1 and 2 when it is 1, only 2 when it is 2, and none above.
   */
  lemma KillWeightSteps(d: int, hp: int)
    ensures KillWeight(CritTable, d, hp) ==
              if hp - d <= -1 then 1.0
              else if hp - d == 0 then 0.8
              else if hp - d == 1 then 0.3
              else if hp - d == 2 then 0.1
              else 0.0
  {
    var t1, t2, t3 := [(-1, 0.2)], [(-1, 0.2), (0, 0.5)], [(-1, 0.2), (0, 0.5), (1, 0.2)];
    assert t1[..0] == [] && t2[..1] == t1 && t3[..2] == t2 && CritTable[..3] == t3;
    assert KillWeight(t1, d, hp) == if d - 1 >= hp then 0.2 else 0.0;
    assert KillWeight(t2, d, hp) == KillWeight(t1, d, hp) + if d >= hp then 0.5 else 0.0;
    assert KillWeight(t3, d, hp) == KillWeight(t2, d, hp) + if d + 1 >= hp then 0.2 else 0.0;
    assert KillWeight(CritTable, d, hp) == KillWeight(t3, d, hp) + if d + 2 >= hp then 0.1 else 0.0;
  }

  /** Every chance is a probability: the weights are non-negative and sum to 1. */
  lemma KillWeightIsProbability(d: int, hp: int)
    ensures 0.0 <= KillWeight(CritTable, d, hp) <= 1.0
    ensures hp - d <= -1 ==> KillWeight(CritTable, d, hp) == 1.0
  {
    KillWeightSteps(d, hp);
  }

  /** Less health never lowers the chance of a kill. */
  lemma KillWeightAntitone(d: int, hp1: int, hp2: int)
    requires hp1 <= hp2
    ensures KillWeight(CritTable, d, hp2) <= KillWeight(CritTable, d, hp1)
  {
    KillWeightSteps(d, hp1);
    KillWeightSteps(d, hp2);
  }

  /** The inner loop of `destroy_prob`: the weights of the killing modifiers, summed in table order. */
  method KillChance(d: int, hp: int) returns (temp: real)
    ensures temp == KillWeight(CritTable, d, hp)
  {
    temp := 0.0;
    var i := 0;
    while i < |CritTable|
      invariant 0 <= i <= |CritTable|
      invariant temp == KillWeight(CritTable[..i], d, hp)
    {
      assert CritTable[..i + 1][..i] == CritTable[..i];
      if CritTable[i].0 + d >= hp {
        temp := temp + CritTable[i].1;
      }
      i := i + 1;
    }
    assert CritTable[..|CritTable|] == CritTable;
  }

  /**
   * `destroy_prob(attacker, defender, current_tile, turns)`: one entry per
   * turn 0..turns (none when turns is negative); entry k is the chance of a
   * kill against the defender's health less k times the damage. The
   * defender is a record passed by value, so it is never changed.
   */
  method DestroyProb(attacker: Unit, defender: Unit, currentTile: Option<Tile>, turns: int)
    returns (prob: seq<real>)
    ensures |prob| == if turns < 0 then 0 else turns + 1
    ensures forall k :: 0 <= k < |prob| ==>
              prob[k] == TurnChance(GetDamage(attacker.kind, defender.kind, currentTile), defender.health, k)
  {
    prob := [];
    var d := GetDamage(attacker.kind, defender.kind, currentTile);
    var hp := defender.health;
    var k := 0;
    while k < turns + 1
      invariant 0 <= k && (turns < 0 ==> k == 0) && (turns >= 0 ==> k <= turns + 1)
      invariant |prob| == k && hp == Remaining(defender.health, d, k)
      invariant forall j :: 0 <= j < k ==> prob[j] == TurnChance(d, defender.health, j)
    {
      var temp := KillChance(d, hp);
      RemainingStep(defender.health, d, k);
      hp := hp - d;
      prob := prob + [temp];
      k := k + 1;
    }
  }

  /** The defender's health after k hits of damage d. */
  function Remaining(hp0: int, d: int, k: int): int
  {
    hp0 - k * d
  }

  lemma RemainingStep(hp0: int, d: int, k: int)
    ensures Remaining(hp0, d, k + 1) == Remaining(hp0, d, k) - d
  {
  }

  /** The chance of a kill on turn k: against the health left after k base hits. */
  function TurnChance(d: int, hp0: int, k: int): (p: real)
    ensures 0.0 <= p <= 1.0
  {
    KillWeightIsProbability(d, Remaining(hp0, d, k));
    KillWeight(CritTable, d, Remaining(hp0, d, k))
  }

  /** The chances never fall from one turn to the next when the damage is not negative. */
  lemma ChanceGrows(d: int, hp0: int, j: int, k: int)
    requires 0 <= d && 0 <= j <= k
    ensures TurnChance(d, hp0, j) <= TurnChance(d, hp0, k)
  {
    MoreHitsLeaveLess(hp0, d, j, k);
    KillWeightAntitone(d, Remaining(hp0, d, k), Remaining(hp0, d, j));
  }

  lemma MoreHitsLeaveLess(hp0: int, d: int, j: int, k: int)
    requires 0 <= d && j <= k
    ensures Remaining(hp0, d, k) <= Remaining(hp0, d, j)
  {
    assert k * d == j * d + (k - j) * d;
    assert (k - j) * d >= 0;
  }

  /**
   * With positive damage the chance reaches 1: on every turn k whose next
   * hit would take the defender below 0 even with the -1 modifier.
   */
  lemma EventuallyCertain(d: int, hp0: int, k: int)
    requires d > 0 && 0 <= k && (k + 1) * d >= hp0 + 1
    ensures TurnChance(d, hp0, k) == 1.0
  {
    assert Remaining(hp0, d, k) - d == hp0 - (k + 1) * d;
    KillWeightIsProbability(d, Remaining(hp0, d, k));
  }

  /** Every turn from hp0 / d on (for positive d) has chance 1, so the table ends in certainty. */
  lemma CertainFrom(d: int, hp0: int, k: int)
    requires d > 0 && hp0 >= 0 && k >= hp0 / d
    ensures TurnChance(d, hp0, k) == 1.0
  {
    assert (hp0 / d + 1) * d > hp0;
    assert (k + 1) * d >= (hp0 / d + 1) * d;
    EventuallyCertain(d, hp0, k);
  }

  /** Without damage every turn has the same chance, and none above 2 health. */
  lemma NoDamageNoProgress(hp0: int, k: int)
    ensures TurnChance(0, hp0, k) == TurnChance(0, hp0, 0)
    ensures hp0 > 2 ==> TurnChance(0, hp0, k) == 0.0
  {
    KillWeightSteps(0, hp0);
  }

  /** Each entry of a table produced by DestroyProb is a probability. */
  lemma ChancesAreProbabilities(d: int, hp0: int, prob: seq<real>)
    requires forall k :: 0 <= k < |prob| ==> prob[k] == TurnChance(d, hp0, k)
    ensures forall k :: 0 <= k < |prob| ==> 0.0 <= prob[k] <= 1.0
  {
  }
}
