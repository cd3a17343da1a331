/**
 * The turn and combat bookkeeping of the game screen (`GUI` in
 * a4_game/gui.py): the mode, the selected unit, the movable and attackable
 * cells with their map highlights, ending a turn, attacking and moving.
 * Rendering, sounds, effects, buttons, clicks and level loading are not
 * part of this model.
 */
module Play {
  import opened Helper
  import opened Wrappers
  import opened Tiles
  import opened TileSearch
  import opened PathFinding
  import opened Units
  import opened UnitStore
  import opened Analyze

  /** `Modes`. */
  datatype Mode = Select | ChooseMove | Moving | ChooseAttack | GameOver

  const MoveColorA: Color := Color(0, 0, 160, 120)
  const MoveColorB: Color := Color(105, 155, 255, 160)
  const AtkColorA: Color := Color(255, 0, 0, 140)
  const AtkColorB: Color := Color(220, 128, 0, 180)

  // ---- turns and days ----

  /** `cur_team`: the teams take turns in order. */
  function CurTeam(turn: nat, numTeams: int): (team: int)
    requires numTeams > 0
    ensures 0 <= team < numTeams
  {
    turn % numTeams
  }

  /** `cur_day`: a day is one turn of every team, counted from 1. */
  function CurDay(turn: nat, numTeams: int): (day: int)
    requires numTeams > 0
    ensures day >= 1
  {
    turn / numTeams + 1
  }

  /** Day and team number the turns: turn = (day - 1) * teams + team. */
  lemma TurnNumbering(turn: nat, numTeams: int)
    requires numTeams > 0
    ensures (CurDay(turn, numTeams) - 1) * numTeams + CurTeam(turn, numTeams) == turn
  {
  }

  /**
   * Advancing the turn hands it to the next team, and starts a new day
   * exactly when the last team has had its turn.
   */
  lemma NextTurn(turn: nat, numTeams: int)
    requires numTeams > 0
    ensures CurTeam(turn + 1, numTeams) == (CurTeam(turn, numTeams) + 1) % numTeams
    ensures CurDay(turn + 1, numTeams) ==
              if CurTeam(turn, numTeams) == numTeams - 1 then CurDay(turn, numTeams) + 1
              else CurDay(turn, numTeams)
  {
    var q, r := turn / numTeams, turn % numTeams;
    if r == numTeams - 1 {
      LemmaDivModUnique(turn + 1, numTeams, q + 1, 0);
      LemmaDivModUnique(numTeams, numTeams, 1, 0);
    } else {
      LemmaDivModUnique(turn + 1, numTeams, q, r + 1);
      LemmaDivModUnique(r + 1, numTeams, 0, r + 1);
    }
  }

  // ---- attacks ----

  /** The crit modifiers `sel_unit_attack` draws one of, each with equal chance. */
  const CritChoices: seq<int> := [-1, -1, 0, 0, 0, 0, 0, 1, 1, 2]

  /** The damage of one strike: the computed damage plus the crit modifier, never negative. */
  function StrikeDamage(damage: int, crit: int): (r: nat)
    ensures r >= damage + crit && (r == 0 || r == damage + crit)
  {
    Positive(damage + crit)
  }

  /** 1 when a strike of base damage d with the modifier leaves no health out of hp, else 0. */
  function Lethal(d: int, crit: int, hp: int): nat
  {
    if hp - StrikeDamage(d, crit) <= 0 then 1 else 0
  }

  /** The number of choices whose strike of base damage d leaves no health out of hp. */
  function Kills(choices: seq<int>, d: int, hp: int): nat
  {
    if choices == [] then 0 else Lethal(d, choices[0], hp) + Kills(choices[1..], d, hp)
  }

  /** Each modifier's share of the ten choices is its weight in the analyser's crit table. */
  lemma CritFrequencies()
    ensures forall i :: 0 <= i < |CritTable| ==>
              multiset(CritChoices)[CritTable[i].0] as real / 10.0 == CritTable[i].1
  {
    var m := multiset(CritChoices);
    assert m == multiset{-1, -1, 0, 0, 0, 0, 0, 1, 1, 2};
    assert m[-1] == 2 && m[0] == 5 && m[1] == 2 && m[2] == 1;
  }

  /**
   * The analyser's first-turn chance is the attack's real kill odds: for a
   * living target, the weight of the killing modifiers is the share of the
   * ten choices whose strike leaves it no health.
   */
  lemma KillOddsMatch(d: int, hp: int)
    requires d >= 0 && hp > 0
    ensures KillWeight(CritTable, d, hp) == Kills(CritChoices, d, hp) as real / 10.0
  {
    KillWeightSteps(d, hp);
    KillsSteps(d, hp);
    var n := Kills(CritChoices, d, hp);
    if hp - d <= -1 {
      assert n == 10;
    } else if hp - d == 0 {
      assert n == 8;
    } else if hp - d == 1 {
      assert n == 3;
    } else if hp - d == 2 {
      assert n == 1;
    } else {
      assert n == 0;
    }
  }

  /** The ten choices counted by modifier, each lethal exactly when it makes up the health the damage leaves. */
  lemma KillsSteps(d: int, hp: int)
    requires d >= 0 && hp > 0
    ensures Kills(CritChoices, d, hp) ==
              2 * Lethal(d, -1, hp) + 5 * Lethal(d, 0, hp) + 2 * Lethal(d, 1, hp) + Lethal(d, 2, hp)
    ensures forall c :: Lethal(d, c, hp) == if hp - d <= c then 1 else 0
  {
    var c0, c1, c2, c3, c4 := [2], [1, 2], [1, 1, 2], [0, 1, 1, 2], [0, 0, 1, 1, 2];
    var c5, c6, c7, c8 := [0, 0, 0, 1, 1, 2], [0, 0, 0, 0, 1, 1, 2], [0, 0, 0, 0, 0, 1, 1, 2], [-1, 0, 0, 0, 0, 0, 1, 1, 2];
    assert c0[1..] == [] && c1[1..] == c0 && c2[1..] == c1 && c3[1..] == c2 && c4[1..] == c3;
    assert c5[1..] == c4 && c6[1..] == c5 && c7[1..] == c6 && c8[1..] == c7 && CritChoices[1..] == c8;
    assert Kills(c0, d, hp) == Lethal(d, 2, hp);
    assert Kills(c2, d, hp) == 2 * Lethal(d, 1, hp) + Lethal(d, 2, hp);
    assert Kills(c4, d, hp) == 2 * Lethal(d, 0, hp) + 2 * Lethal(d, 1, hp) + Lethal(d, 2, hp);
    assert Kills(c6, d, hp) == 4 * Lethal(d, 0, hp) + 2 * Lethal(d, 1, hp) + Lethal(d, 2, hp);
    assert Kills(c7, d, hp) == 5 * Lethal(d, 0, hp) + 2 * Lethal(d, 1, hp) + Lethal(d, 2, hp);
  }

  // ---- the lambdas handed to the searches ----

  /** The `cost` lambda: the unit's move cost on the cell (1 off the map, where no search looks). */
  function CostFor(k: Kind, g: TileMap): (f: Pos -> real)
    requires g.Valid()
    ensures forall c :: f(c) >= 1.0
    ensures forall c :: g.TileData(c).Some? ==> f(c) == MoveCost(k, g.TileData(c).value)
  {
    (c: Pos) => match g.TileData(c) case Some(t) => MoveCost(k, t) case None => 1.0
  }

  /** Move costs are at least 1, so the reachability search is complete. */
  lemma CostsNonNegative(k: Kind, g: TileMap)
    requires g.Valid()
    ensures NonNegative(CostFor(k, g))
  {
    forall p
      ensures CostFor(k, g)(p) >= 0.0
    {
      var t := g.TileData(p);
      if t.Some? {
        assert CostFor(k, g)(p) == MoveCost(k, t.value);
      }
    }
  }

  /** The `passable` lambda: `is_passable` of the unit with the cell's tile. */
  function PassableFor(u: Unit, active: seq<Unit>, g: TileMap): Pos -> bool
    requires g.Valid()
  {
    (c: Pos) => IsPassable(u, active, g.TileData(c), c)
  }

  /** A cell the unit may end its move on: reachable within its speed, and stoppable. */
  ghost predicate Movable(g: TileMap, active: seq<Unit>, u: Unit, t: Pos)
    requires g.Valid()
    ensures Movable(g, active, u, t) ==> UnitAt(active, t).None? && IsPassable(u, active, g.TileData(t), t)
  {
    ReachableWithin(g, PassableFor(u, active, g), CostFor(u.kind, g), UnitTile(u), Speed(u.kind) as real, t) &&
    IsStoppable(u, active, g.TileData(t), t)
  }

  /** Every cell offered for a move other than the unit's own is on the map and passable for it. */
  lemma MovableCellsPassable(g: TileMap, active: seq<Unit>, u: Unit, t: Pos)
    requires g.Valid() && Movable(g, active, u, t) && t != UnitTile(u)
    ensures g.TileExists(t) && IsPassable(u, active, g.TileData(t), t)
  {
    var passable := PassableFor(u, active, g);
    var w :| WalkFromTo(g, passable, w, UnitTile(u), t) &&
             WalkCost(CostFor(u.kind, g), w) <= Speed(u.kind) as real;
    assert |w| >= 2;
    assert Step(g, passable, w[|w| - 2], w[|w| - 1]);
  }

  /** The loop of `move_pressed` over the reachable cells: keep those the unit can stop on. */
  method StoppableAmong(g: TileMap, active: seq<Unit>, u: Unit, cells: set<Pos>) returns (found: set<Pos>)
    requires g.Valid()
    ensures forall t :: t in found <==> t in cells && IsStoppable(u, active, g.TileData(t), t)
  {
    found := {};
    var todo := cells;
    while todo != {}
      invariant todo <= cells
      invariant forall t :: t in found <==> t in cells && t !in todo && IsStoppable(u, active, g.TileData(t), t)
      decreases |todo|
    {
      var t :| t in todo;
      if IsStoppable(u, active, g.TileData(t), t) {
        found := found + {t};
      }
      todo := todo - {t};
    }
  }

  /** The loop of `attack_pressed` over the cells in range: keep those holding an enemy it can damage. */
  method AttackableAmong(g: TileMap, active: seq<Unit>, u: Unit, fromTile: Tile, fromPos: Point, cells: set<Pos>)
    returns (found: set<Pos>)
    requires g.Valid()
    ensures forall t :: t in found <==> t in cells && IsAttackable(u, active, fromTile, fromPos, g.TileData(t), t)
  {
    found := {};
    var todo := cells;
    while todo != {}
      invariant todo <= cells
      invariant forall t :: t in found <==>
                  t in cells && t !in todo && IsAttackable(u, active, fromTile, fromPos, g.TileData(t), t)
      decreases |todo|
    {
      var t :| t in todo;
      if IsAttackable(u, active, fromTile, fromPos, g.TileData(t), t) {
        found := found + {t};
      }
      todo := todo - {t};
    }
  }

  /** No catalog tile lowers the attack range. */
  lemma RangeBonusesNonNegative(t: Tile)
    requires t in TileTypes.Values
    ensures t.rangeBonus >= 0
  {
  }

  /**
   * The box `positions_in_range` scans around a unit standing on a map cell
   * holds every cell it can attack, so the attackable cells are exactly the
   * cells `is_attackable` accepts.
   */
  lemma TargetsExact(g: TileMap, u: Unit, active: seq<Unit>)
    requires g.Valid() && g.TileExists(UnitTile(u))
    ensures var tile := g.TileData(UnitTile(u)).value;
            forall t :: t in RangeBox(u.kind, tile, u.pos) && IsAttackable(u, active, tile, u.pos, g.TileData(t), t) <==>
                      IsAttackable(u, active, tile, u.pos, g.TileData(t), t)
  {
    var tile := g.TileData(UnitTile(u)).value;
    RangeBonusesNonNegative(tile);
    forall t
      ensures t in RangeBox(u.kind, tile, u.pos) && IsAttackable(u, active, tile, u.pos, g.TileData(t), t) <==>
              IsAttackable(u, active, tile, u.pos, g.TileData(t), t)
    {
      RangeBoxExact(u.kind, tile, u.pos, t);
    }
  }

  // ---- ending a turn ----

  /** A unit of the team that may not end its turn yet. */
  predicate Blocks(s: RosterState, team: int, h: nat)
    requires Handles(s.units, s.active) && h < |s.units|
  {
    s.units[h].team == team && !CanTurnEnd(s.units[h], ActiveUnits(s))
  }

  /** The first handle of hs whose unit blocks the team's turn end. */
  function FirstBlocker(s: RosterState, team: int, hs: seq<nat>): (r: Option<nat>)
    requires Handles(s.units, s.active) && Handles(s.units, hs)
    ensures r.Some? ==> r.value in hs && Blocks(s, team, r.value)
    ensures r.None? <==> forall i :: 0 <= i < |hs| ==> !Blocks(s, team, hs[i])
  {
    if hs == [] then None
    else if Blocks(s, team, hs[0]) then Some(hs[0])
    else
      var r := FirstBlocker(s, team, hs[1..]);
      assert forall i :: 1 <= i < |hs| ==> hs[i] == hs[1..][i - 1];
      r
  }

  /** The blocker found is the first in hs: no handle before it blocks. */
  lemma {:induction false} FirstBlockerIsFirst(s: RosterState, team: int, hs: seq<nat>)
    requires Handles(s.units, s.active) && Handles(s.units, hs)
    ensures var r := FirstBlocker(s, team, hs);
            r.Some? ==> exists i :: 0 <= i < |hs| && hs[i] == r.value && forall j :: 0 <= j < i ==> !Blocks(s, team, hs[j])
  {
    if hs != [] && !Blocks(s, team, hs[0]) {
      var r := FirstBlocker(s, team, hs[1..]);
      FirstBlockerIsFirst(s, team, hs[1..]);
      if r.Some? {
        var k :| 0 <= k < |hs[1..]| && hs[1..][k] == r.value && forall j :: 0 <= j < k ==> !Blocks(s, team, hs[1..][j]);
        assert hs[k + 1] == r.value && forall j :: 0 <= j < k + 1 ==> !Blocks(s, team, hs[j]);
      }
    }
  }

  /** `turn_ended` on every unit of the team among hs, in the order of hs (EndTurnsRule). */
  function EndTurns(s: RosterState, team: int, hs: seq<nat>): (r: RosterState)
    requires Consistent(s) && Handles(s.units, hs)
    ensures Consistent(r) && |r.units| == |s.units|
    decreases |hs|
  {
    if hs == [] then s
    else
      var t := EndTurns(s, team, hs[..|hs| - 1]);
      var h := hs[|hs| - 1];
      if t.units[h].team == team then TurnEndedState(t, h).0 else t
  }

  /**
   * Ending the team's turn clears the turn state of each of its units among
   * hs, keeps their team, rests non-aircraft without any other change, and
   * leaves every other unit as it was.
   */
  lemma {:induction false} EndTurnsRule(s: RosterState, team: int, hs: seq<nat>)
    requires Consistent(s) && Handles(s.units, hs) && Distinct(hs)
    ensures var r := EndTurns(s, team, hs);
            (forall y :: 0 <= y < |s.units| && (y !in hs || s.units[y].team != team) ==> r.units[y] == s.units[y]) &&
            (forall y :: y in hs && s.units[y].team == team ==>
               !r.units[y].moved && !r.units[y].attacked && r.units[y].team == team &&
               (DomainOf(s.units[y].kind) != AirUnit ==> r.units[y] == Rested(s.units[y])))
    decreases |hs|
  {
    if hs != [] {
      var pre, h := hs[..|hs| - 1], hs[|hs| - 1];
      assert hs == pre + [h];
      assert Distinct(pre) by {
        forall i, j | 0 <= i < j < |pre|
          ensures pre[i] != pre[j]
        {
          assert pre[i] == hs[i] && pre[j] == hs[j];
        }
      }
      assert h !in pre by {
        forall i | 0 <= i < |pre|
          ensures pre[i] != h
        {
          assert pre[i] == hs[i];
        }
      }
      EndTurnsRule(s, team, pre);
      var t := EndTurns(s, team, pre);
      assert t.units[h] == s.units[h];
      var r := if t.units[h].team == team then TurnEndedState(t, h).0 else t;
      assert EndTurns(s, team, hs) == r;
      if t.units[h].team == team {
        TurnEndedRule(t, h);
      }
      forall y | y in hs && s.units[y].team == team
        ensures !r.units[y].moved && !r.units[y].attacked && r.units[y].team == team &&
                (DomainOf(s.units[y].kind) != AirUnit ==> r.units[y] == Rested(s.units[y]))
      {
        if y != h {
          assert y in pre;
        }
      }
    }
  }

  // ---- the win check ----

  /** The win check's loop: every unit behind hs is on the team. */
  method AllOnTeam(units: seq<Unit>, hs: seq<nat>, team: int) returns (lone: bool)
    requires Handles(units, hs)
    ensures lone <==> forall i :: 0 <= i < |hs| ==> units[hs[i]].team == team
  {
    var i := 0;
    while i < |hs|
      invariant 0 <= i <= |hs|
      invariant forall j :: 0 <= j < i ==> units[hs[j]].team == team
    {
      if units[hs[i]].team != team {
        return false;
      }
      i := i + 1;
    }
    return true;
  }

  /** The loop of `end_turn_pressed` that looks for a unit of the team that cannot end its turn. */
  method FindBlocker(units: seq<Unit>, active: seq<nat>, team: int) returns (b: Option<nat>)
    requires Consistent(RosterState(units, active))
    ensures b == FirstBlocker(RosterState(units, active), team, active)
  {
    ghost var s := RosterState(units, active);
    var roster := Gather(units, active);
    var i := 0;
    while i < |active|
      invariant 0 <= i <= |active|
      invariant FirstBlocker(s, team, active[i..]) == FirstBlocker(s, team, active)
    {
      var u := units[active[i]];
      assert active[i..][1..] == active[i + 1..];
      if u.team == team {
        var ok := CheckTurnEnd(u, roster);
        if !ok {
          return Some(active[i]);
        }
      }
      i := i + 1;
    }
    return None;
  }

  /** The loop of `end_turn_pressed` that ends the turn of each unit of the team, over a snapshot of the roster. */
  method EndTurnsOf(r: Roster, team: int, hs: seq<nat>)
    requires r.Valid() && Handles(r.units, hs)
    modifies r
    ensures r.Valid() && r.State() == EndTurns(old(r.State()), team, hs)
  {
    ghost var s := r.State();
    var j := 0;
    while j < |hs|
      invariant 0 <= j <= |hs|
      invariant r.Valid() && r.State() == EndTurns(s, team, hs[..j]) && |r.units| == |s.units|
    {
      var h := hs[j];
      EndTurnsStep(s, team, hs, j);
      if r.units[h].team == team {
        ghost var before := r.State();
        var alive := r.TurnEnded(h);
        assert r.State() == TurnEndedState(before, h).0;
      }
      j := j + 1;
    }
    assert hs[..|hs|] == hs;
  }

  /** One more handle of the snapshot: its unit ends its turn when it is on the team. */
  lemma EndTurnsStep(s: RosterState, team: int, hs: seq<nat>, j: nat)
    requires Consistent(s) && Handles(s.units, hs) && j < |hs|
    ensures var t := EndTurns(s, team, hs[..j]);
            EndTurns(s, team, hs[..j + 1]) == if t.units[hs[j]].team == team then TurnEndedState(t, hs[j]).0 else t
  {
    assert hs[..j + 1][..j] == hs[..j];
  }

  /**
   * The attacker after `sel_unit_attack`'s bookkeeping: marked as having
   * attacked, facing the target (StrikingKeepsPositions).
   */
  function Striking(s: RosterState, a: nat, pos: Pos): (r: RosterState)
    requires Consistent(s) && a < |s.units|
    ensures Consistent(r)
  {
    var u := s.units[a];
    var v := u.(attacked := true, angle := FaceAngle(u.angle, pos.0 as real - u.pos.0, pos.1 as real - u.pos.1));
    ReplaceKeeps(s, a, v);
    RosterState(s.units[a := v], s.active)
  }

  /**
   * The roster side of `sel_unit_attack`: the attacker is marked and faces
   * pos, and the unit found on pos takes the strike; returns its handle.
   */
  method Strike(r: Roster, g: TileMap, a: nat, pos: Pos, crit: int) returns (t: nat)
    requires r.Valid() && g.Valid() && a < |r.units|
    requires HandleAt(r.units, r.active, pos).Some?
    modifies r
    ensures t == old(HandleAt(r.units, r.active, pos)).value
    ensures var s := Striking(old(r.State()), a, pos);
            var damage := StrikeDamage(GetDamage(s.units[a].kind, s.units[t].kind, g.TileData(pos)), crit);
            r.Valid() && r.State() == Hurted(s, t, damage) && |r.units| == |s.units| &&
            (r.units[t].active <==> s.units[t].health > damage)
  {
    ghost var s0 := r.State();
    r.MarkAttacked(a);
    var u := r.units[a];
    r.FaceVector(a, pos.0 as real - u.pos.0, pos.1 as real - u.pos.1);
    ghost var s1 := r.State();
    StrikingKeepsPositions(s0, a, pos);
    assert s1 == Striking(s0, a, pos);
    HandleAtSamePositions(s0.units, s1.units, s0.active, pos);
    var target := r.UnitAtPos(pos);
    t := target.value;
    var damage := GetDamage(u.kind, r.units[t].kind, g.TileData(pos));
    var strike := StrikeDamage(damage, crit);
    r.Hurt(t, strike);
    HurtedRule(s1, t, strike);
  }

  /**
   * v is u sent towards pos along a cheapest walk it can pass, found by the
   * search: moving along a path that starts after its own cell when pos can
   * be reached, unchanged when it cannot, and with nothing left to walk when
   * pos is its own cell.
   */
  ghost predicate SentToward(g: TileMap, passable: Pos -> bool, cost: Pos -> real, u: Unit, v: Unit, pos: Pos)
  {
    (!Connected(g, passable, UnitTile(u), pos) ==> v == u) &&
    (Connected(g, passable, UnitTile(u), pos) ==>
       v == u.(moving := true, path := v.path) &&
       WalkFromTo(g, passable, [UnitTile(u)] + v.path, UnitTile(u), pos) &&
       Cheapest(g, passable, cost, [UnitTile(u)] + v.path, UnitTile(u), pos)) &&
    (UnitTile(u) == pos ==> v == u.(moving := true, path := []))
  }

  /** The roster side of `sel_unit_move`: mark the unit as moved, then set the cheapest path `find_path` finds. */
  method Dispatch(r: Roster, g: TileMap, a: nat, pos: Pos)
    requires r.Valid() && g.Valid() && a < |r.units|
    modifies r
    ensures r.Valid() && r.active == old(r.active) && |r.units| == old(|r.units|)
    ensures forall y :: 0 <= y < |r.units| && y != a ==> r.units[y] == old(r.units[y])
    ensures var u := old(r.units[a]).(moved := true);
            SentToward(g, PassableFor(u, Gather(old(r.units)[a := u], old(r.active)), g), CostFor(u.kind, g),
                       u, r.units[a], pos)
  {
    r.MarkMoved(a);
    var u := r.units[a];
    var from := UnitTile(u);
    var passable := PassableFor(u, r.Active(), g);
    ManhattanConsistent(CostFor(u.kind, g), pos);
    var path := FindPath(g, from, pos, CostFor(u.kind, g), passable, Manhattan());
    r.SetPath(a, path);
    if path != [] {
      assert [from] + path[1..] == path;
    }
  }

  lemma StrikingKeepsPositions(s: RosterState, a: nat, pos: Pos)
    requires Consistent(s) && a < |s.units|
    ensures var r := Striking(s, a, pos);
            r.active == s.active && |r.units| == |s.units| &&
            forall i :: 0 <= i < |s.units| ==> r.units[i].pos == s.units[i].pos && r.units[i].health == s.units[i].health
  {
  }

  /** The game screen's state. */
  class Gui {
    const tileMap: TileMap
    const roster: Roster
    const numTeams: int
    var currentTurn: nat
    var winTeam: Option<int>
    /** The handle of the selected unit. */
    var selUnit: Option<nat>
    var mode: Mode
    var movable: set<Pos>
    var attackable: set<Pos>

    /** A loaded game: the map and roster are well formed, there is a team, a selection is a unit. */
    ghost predicate Loaded()
      reads this, tileMap, roster
    {
      tileMap.Valid() && roster.Valid() && numTeams > 0 &&
      (selUnit.Some? ==> selUnit.value < |roster.units|)
    }

    /** No movable cells and no "move" highlight. */
    ghost predicate MoveCleared()
      reads this, tileMap
    {
      movable == {} && "move" !in tileMap.highlights
    }

    /** No attackable cells and no "attack" highlight. */
    ghost predicate AttackCleared()
      reads this, tileMap
    {
      attackable == {} && "attack" !in tileMap.highlights
    }

    /** The cells and highlight of a move (an attack) only exist while choosing one. */
    ghost predicate Valid()
      reads this, tileMap, roster
    {
      Loaded() && (mode != ChooseMove ==> MoveCleared()) && (mode != ChooseAttack ==> AttackCleared())
    }

    /** `__init__` with a loaded level: turn 0, no winner, nothing selected, select mode. */
    constructor (tileMap: TileMap, roster: Roster, numTeams: int)
      requires tileMap.Valid() && roster.Valid() && numTeams > 0
      requires "move" !in tileMap.highlights && "attack" !in tileMap.highlights
      ensures Valid()
      ensures this.tileMap == tileMap && this.roster == roster && this.numTeams == numTeams
      ensures currentTurn == 0 && winTeam == None && selUnit == None && mode == Select
    {
      this.tileMap := tileMap;
      this.roster := roster;
      this.numTeams := numTeams;
      currentTurn := 0;
      winTeam := None;
      selUnit := None;
      mode := Select;
      movable := {};
      attackable := {};
    }

    /** The selected unit's record. */
    function Selected(): Unit
      reads this, roster
      requires selUnit.Some? && selUnit.value < |roster.units|
    {
      roster.units[selUnit.value]
    }

    /** `can_move`: a unit is selected and has not moved this turn. */
    predicate CanMove()
      reads this, roster
      requires selUnit.Some? ==> selUnit.value < |roster.units|
      ensures CanMove() <==> selUnit.Some? && !roster.units[selUnit.value].moved
    {
      selUnit.Some? && !Selected().moved
    }

    /** `can_attack`: a unit is selected and has not attacked this turn. */
    predicate CanAttack()
      reads this, roster
      requires selUnit.Some? ==> selUnit.value < |roster.units|
      ensures CanAttack() <==> selUnit.Some? && !roster.units[selUnit.value].attacked
    {
      selUnit.Some? && !Selected().attacked
    }

    /**
     * `change_mode`: the same mode changes nothing; leaving a choosing mode
     * drops its cells and its highlight. The highlight of the mode being
     * entered may already be set.
     */
    method ChangeMode(newMode: Mode)
      requires Loaded()
      requires mode != ChooseMove && newMode != ChooseMove ==> MoveCleared()
      requires mode != ChooseAttack && newMode != ChooseAttack ==> AttackCleared()
      modifies this, tileMap
      ensures Valid() && mode == newMode
      ensures currentTurn == old(currentTurn) && winTeam == old(winTeam) && selUnit == old(selUnit)
      ensures old(mode) == newMode || old(mode) !in {ChooseMove, ChooseAttack} ==>
                movable == old(movable) && attackable == old(attackable) &&
                tileMap.highlights == old(tileMap.highlights)
      ensures old(mode) == ChooseMove && newMode != ChooseMove ==>
                movable == {} && attackable == old(attackable) &&
                tileMap.highlights == old(tileMap.highlights) - {"move"}
      ensures old(mode) == ChooseAttack && newMode != ChooseAttack ==>
                attackable == {} && movable == old(movable) &&
                tileMap.highlights == old(tileMap.highlights) - {"attack"}
    {
      if mode == newMode {
        return;
      }
      if mode == ChooseMove {
        movable := {};
        tileMap.RemoveHighlight("move");
      }
      if mode == ChooseAttack {
        attackable := {};
        tileMap.RemoveHighlight("attack");
      }
      mode := newMode;
    }

    /** Going back to select mode clears whatever was being chosen. */
    method Deselect()
      requires Valid()
      modifies this, tileMap
      ensures Valid() && mode == Select
      ensures currentTurn == old(currentTurn) && winTeam == old(winTeam) && selUnit == old(selUnit)
      ensures movable == {} && attackable == {}
      ensures tileMap.highlights == old(tileMap.highlights) - {"move", "attack"}
    {
      ChangeMode(Select);
    }

    /**
     * `move_pressed`: pressing it while choosing a move goes back to select
     * mode; with no selected unit, or one that has moved, nothing happens;
     * otherwise the movable cells are shown.
     */
    method MovePressed()
      requires Valid()
      modifies this, tileMap
      ensures Valid()
      ensures currentTurn == old(currentTurn) && winTeam == old(winTeam) && selUnit == old(selUnit)
      ensures old(mode) == ChooseMove ==>
                mode == Select && movable == {} && tileMap.highlights == old(tileMap.highlights) - {"move"}
      ensures old(mode) != ChooseMove && !old(CanMove()) ==>
                mode == old(mode) && movable == old(movable) && attackable == old(attackable) &&
                tileMap.highlights == old(tileMap.highlights)
      ensures old(mode) != ChooseMove && old(CanMove()) ==>
                mode == ChooseMove && attackable == {} &&
                (forall t :: t in movable <==> Movable(tileMap, roster.Active(), Selected(), t)) &&
                tileMap.highlights ==
                  old(tileMap.highlights)["move" := Highlight(movable, MoveColorA, MoveColorB)] - {"attack"}
    {
      if mode == ChooseMove {
        ChangeMode(Select);
        return;
      }
      if selUnit.None? || roster.units[selUnit.value].moved {
        return;
      }
      ShowMoves();
    }

    /**
     * The rest of `move_pressed`: the movable cells become exactly those the
     * unit can reach within its speed and stop on; they are highlighted and
     * a move is being chosen.
     */
    method ShowMoves()
      requires Valid() && mode != ChooseMove && CanMove()
      modifies this, tileMap
      ensures Valid() && mode == ChooseMove && attackable == {}
      ensures currentTurn == old(currentTurn) && winTeam == old(winTeam) && selUnit == old(selUnit)
      ensures forall t :: t in movable <==> Movable(tileMap, roster.Active(), Selected(), t)
      ensures tileMap.highlights ==
                old(tileMap.highlights)["move" := Highlight(movable, MoveColorA, MoveColorB)] - {"attack"}
    {
      var u := roster.units[selUnit.value];
      var active := roster.Active();
      var cost := CostFor(u.kind, tileMap);
      var passable := PassableFor(u, active, tileMap);
      CostsNonNegative(u.kind, tileMap);
      var reachable := ReachableTiles(tileMap, UnitTile(u), Speed(u.kind) as real, cost, passable);
      var stoppable := StoppableAmong(tileMap, active, u, reachable);
      movable := movable + stoppable;
      tileMap.SetHighlight("move", MoveColorA, MoveColorB, movable);
      ChangeMode(ChooseMove);
    }

    /**
     * `attack_pressed`: pressing it while choosing an attack goes back to
     * select mode; with no selected unit, or one that has attacked, nothing
     * happens; otherwise the attackable cells are shown.
     */
    method AttackPressed()
      requires Valid()
      requires mode != ChooseAttack && CanAttack() ==> tileMap.TileExists(UnitTile(Selected()))
      modifies this, tileMap
      ensures Valid()
      ensures currentTurn == old(currentTurn) && winTeam == old(winTeam) && selUnit == old(selUnit)
      ensures old(mode) == ChooseAttack ==>
                mode == Select && attackable == {} && tileMap.highlights == old(tileMap.highlights) - {"attack"}
      ensures old(mode) != ChooseAttack && !old(CanAttack()) ==>
                mode == old(mode) && movable == old(movable) && attackable == old(attackable) &&
                tileMap.highlights == old(tileMap.highlights)
      ensures old(mode) != ChooseAttack && old(CanAttack()) ==>
                var u := Selected(); var tile := tileMap.TileData(UnitTile(u)).value;
                mode == ChooseAttack && movable == {} &&
                (forall t :: t in attackable <==>
                   t in RangeBox(u.kind, tile, u.pos) && IsAttackable(u, roster.Active(), tile, u.pos, tileMap.TileData(t), t)) &&
                (forall t :: t in attackable <==> IsAttackable(u, roster.Active(), tile, u.pos, tileMap.TileData(t), t)) &&
                tileMap.highlights ==
                  old(tileMap.highlights)["attack" := Highlight(RangeBox(u.kind, tile, u.pos), AtkColorA, AtkColorB)] - {"move"}
    {
      if mode == ChooseAttack {
        ChangeMode(Select);
        return;
      }
      if selUnit.None? || roster.units[selUnit.value].attacked {
        return;
      }
      ShowTargets();
    }

    /**
     * The rest of `attack_pressed`: the attackable cells become those of the
     * scanned box that hold an enemy the unit can damage; the whole box is
     * highlighted and an attack is being chosen.
     */
    method ShowTargets()
      requires Valid() && mode != ChooseAttack && CanAttack()
      requires tileMap.TileExists(UnitTile(Selected()))
      modifies this, tileMap
      ensures Valid() && mode == ChooseAttack && movable == {}
      ensures currentTurn == old(currentTurn) && winTeam == old(winTeam) && selUnit == old(selUnit)
      ensures var u := Selected(); var tile := tileMap.TileData(UnitTile(u)).value;
              (forall t :: t in attackable <==>
                 t in RangeBox(u.kind, tile, u.pos) && IsAttackable(u, roster.Active(), tile, u.pos, tileMap.TileData(t), t)) &&
              tileMap.highlights ==
                old(tileMap.highlights)["attack" := Highlight(RangeBox(u.kind, tile, u.pos), AtkColorA, AtkColorB)] - {"move"}
      ensures var u := Selected(); var tile := tileMap.TileData(UnitTile(u)).value;
              forall t :: t in attackable <==> IsAttackable(u, roster.Active(), tile, u.pos, tileMap.TileData(t), t)
    {
      var u := roster.units[selUnit.value];
      var unitTile := tileMap.TileData(UnitTile(u)).value;
      var inRange := PositionsInRange(u.kind, unitTile, u.pos);
      var found := AttackableAmong(tileMap, roster.Active(), u, unitTile, u.pos, inRange);
      attackable := attackable + found;
      tileMap.SetHighlight("attack", AtkColorA, AtkColorB, inRange);
      ChangeMode(ChooseAttack);
      TargetsExact(tileMap, u, roster.Active());
    }

    /**
     * `end_turn_pressed`: when a unit of the current team cannot end its
     * turn, the first such unit in roster order is selected and the turn
     * stays; otherwise every unit of the team ends its turn, nothing is
     * selected and the turn advances. Either way the mode is back to select.
     */
    method EndTurnPressed()
      requires Valid()
      modifies this, tileMap, roster
      ensures Valid() && mode == Select && winTeam == old(winTeam)
      ensures movable == {} && attackable == {} && tileMap.highlights == old(tileMap.highlights) - {"move", "attack"}
      ensures var s := old(roster.State()); var team := CurTeam(old(currentTurn), numTeams);
              var b := FirstBlocker(s, team, s.active);
              (b.Some? ==> selUnit == b && currentTurn == old(currentTurn) && roster.State() == s) &&
              (b.None? ==>
                 selUnit == None && currentTurn == old(currentTurn) + 1 && roster.State() == EndTurns(s, team, s.active))
    {
      var team := CurTeam(currentTurn, numTeams);
      var hs := roster.active;
      var b := FindBlocker(roster.units, hs, team);
      Deselect();
      if b.Some? {
        assert b.value < |roster.units| by {
          var i :| 0 <= i < |hs| && hs[i] == b.value;
        }
        selUnit := b;
      } else {
        PassTurn(team);
      }
    }

    /** The rest of `end_turn_pressed` when nothing blocks: no selection, the team's units end their turns, the turn advances. */
    method PassTurn(team: int)
      requires Valid() && mode == Select
      modifies this, roster
      ensures Valid() && mode == Select && selUnit == None && currentTurn == old(currentTurn) + 1
      ensures winTeam == old(winTeam) && movable == old(movable) && attackable == old(attackable)
      ensures roster.State() == EndTurns(old(roster.State()), team, old(roster.active))
    {
      selUnit := None;
      EndTurnsOf(roster, team, roster.active);
      currentTurn := currentTurn + 1;
    }

    /**
     * `sel_unit_attack`: back to select mode; the attacker is marked as
     * having attacked and faces the target; the target first found on pos
     * takes the damage plus the crit modifier, floored at 0, and dies when
     * that leaves it no health. When it dies and every remaining active
     * unit is on the attacker's team, that team wins and the game is over.
     */
    method SelUnitAttack(pos: Pos, crit: int)
      requires Valid() && selUnit.Some?
      requires HandleAt(roster.units, roster.active, pos).Some?
      requires crit in CritChoices
      modifies this, tileMap, roster
      ensures Valid()
      ensures selUnit == old(selUnit) && currentTurn == old(currentTurn)
      ensures movable == {} && attackable == {} && tileMap.highlights == old(tileMap.highlights) - {"move", "attack"}
      ensures var a, t := selUnit.value, old(HandleAt(roster.units, roster.active, pos)).value;
              var s := Striking(old(roster.State()), a, pos);
              var damage := StrikeDamage(GetDamage(s.units[a].kind, s.units[t].kind, tileMap.TileData(pos)), crit);
              roster.State() == Hurted(s, t, damage) &&
              (roster.units[t].active <==> s.units[t].health > damage)
      ensures var t, team := old(HandleAt(roster.units, roster.active, pos)).value, old(Selected()).team;
              var won := !roster.units[t].active &&
                         forall i :: 0 <= i < |roster.active| ==> roster.units[roster.active[i]].team == team;
              (won ==> winTeam == Some(team) && mode == GameOver) &&
              (!won ==> winTeam == old(winTeam) && mode == Select)
    {
      Deselect();
      var a := selUnit.value;
      var team := roster.units[a].team;
      var t := Strike(roster, tileMap, a, pos, crit);
      CheckWin(t, team);
    }

    /** The end of `sel_unit_attack`: when the target died and only the team remains active, the team wins. */
    method CheckWin(t: nat, team: int)
      requires Valid() && mode == Select && t < |roster.units|
      modifies this
      ensures Valid() && selUnit == old(selUnit) && currentTurn == old(currentTurn)
      ensures movable == old(movable) && attackable == old(attackable)
      ensures var won := !roster.units[t].active &&
                         forall i :: 0 <= i < |roster.active| ==> roster.units[roster.active[i]].team == team;
              (won ==> winTeam == Some(team) && mode == GameOver) &&
              (!won ==> winTeam == old(winTeam) && mode == Select)
    {
      if !roster.units[t].active {
        var lone := AllOnTeam(roster.units, roster.active, team);
        if lone {
          winTeam := Some(team);
          mode := GameOver;
        }
      }
    }

    /**
     * `sel_unit_move`: the mode becomes moving and the unit is marked as
     * having moved; it is sent along the cheapest path `find_path` finds
     * from its cell to pos (with the unit already marked), and stays put
     * when there is none.
     */
    method SelUnitMove(pos: Pos)
      requires Valid() && selUnit.Some?
      modifies this, tileMap, roster
      ensures Valid() && mode == Moving
      ensures selUnit == old(selUnit) && currentTurn == old(currentTurn) && winTeam == old(winTeam)
      ensures movable == {} && attackable == {} && tileMap.highlights == old(tileMap.highlights) - {"move", "attack"}
      ensures roster.active == old(roster.active) && |roster.units| == old(|roster.units|)
      ensures forall y :: 0 <= y < |roster.units| && y != selUnit.value ==> roster.units[y] == old(roster.units[y])
      ensures var a := selUnit.value; var u := old(roster.units[a]).(moved := true);
              SentToward(tileMap, PassableFor(u, Gather(old(roster.units)[a := u], old(roster.active)), tileMap),
                         CostFor(u.kind, tileMap), u, roster.units[a], pos)
    {
      ChangeMode(Moving);
      Dispatch(roster, tileMap, selUnit.value, pos);
    }
  }
}
