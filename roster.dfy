/**
 * The units of a game and the class-level roster `BaseUnit.active_units`.
 *
 * Every unit object is a record in `units`, addressed by its handle (its
 * index there); `active` lists the handles of the active units in the order
 * in which the roster iterates them. The roster is a pygame layered group:
 * aircraft are moved to layer 5 when activated, and the group orders its
 * members by layer, then by the order in which they joined the layer.
 */
module UnitStore {
  import opened Helper
  import opened Wrappers
  import opened Tiles
  import opened Units

  /** `AIR_LAYER`: the drawing layer of aircraft; every other unit stays on layer 0. */
  const AirLayer: int := 5

  function Layer(u: Unit): int
  {
    if DomainOf(u.kind) == AirUnit then AirLayer else 0
  }

  /** All unit records, and the handles of the active ones in roster order. */
  datatype RosterState = RosterState(units: seq<Unit>, active: seq<nat>)

  predicate Handles(units: seq<Unit>, hs: seq<nat>)
  {
    forall i :: 0 <= i < |hs| ==> hs[i] < |units|
  }

  predicate Distinct(hs: seq<nat>)
  {
    forall i, j :: 0 <= i < j < |hs| ==> hs[i] != hs[j]
  }

  /** The handles are ordered by layer. */
  predicate Layered(units: seq<Unit>, hs: seq<nat>)
    requires Handles(units, hs)
  {
    forall i, j :: 0 <= i < j < |hs| ==> Layer(units[hs[i]]) <= Layer(units[hs[j]])
  }

  /**
   * The roster invariant: the active handles are distinct, ordered by layer,
   * and are exactly the units whose `_active` flag is set.
   */
  predicate Consistent(s: RosterState)
  {
    Handles(s.units, s.active) && Distinct(s.active) && Layered(s.units, s.active) &&
    forall h :: 0 <= h < |s.units| ==> (s.units[h].active <==> h in s.active)
  }

  /** The unit records behind a sequence of handles, in that order. */
  function Gather(units: seq<Unit>, hs: seq<nat>): (r: seq<Unit>)
    requires Handles(units, hs)
    ensures |r| == |hs|
    ensures forall i :: 0 <= i < |hs| ==> r[i] == units[hs[i]]
  {
    if hs == [] then [] else [units[hs[0]]] + Gather(units, hs[1..])
  }

  /** The active units in iteration order: the sequence every rule query scans. */
  function ActiveUnits(s: RosterState): seq<Unit>
    requires Handles(s.units, s.active)
  {
    Gather(s.units, s.active)
  }

  /** The number of leading handles whose layer is at most `layer`: where a new member of that layer goes. */
  function LayerEnd(units: seq<Unit>, hs: seq<nat>, layer: int): (k: nat)
    requires Handles(units, hs)
    ensures k <= |hs|
    ensures forall i :: 0 <= i < k ==> Layer(units[hs[i]]) <= layer
    ensures k < |hs| ==> layer < Layer(units[hs[k]])
  {
    if hs == [] || layer < Layer(units[hs[0]]) then 0
    else 1 + LayerEnd(units, hs[1..], layer)
  }

  /** Joining the group: the handle goes after every member of its own or a lower layer. */
  function Enlisted(units: seq<Unit>, active: seq<nat>, h: nat): seq<nat>
    requires Handles(units, active)
    requires h < |units|
  {
    var k := LayerEnd(units, active, Layer(units[h]));
    active[..k] + [h] + active[k..]
  }

  /** The first place where h stands. */
  function IndexOf(hs: seq<nat>, h: nat): (k: nat)
    requires h in hs
    ensures k < |hs| && hs[k] == h
    ensures forall i :: 0 <= i < k ==> hs[i] != h
  {
    if hs[0] == h then 0 else 1 + IndexOf(hs[1..], h)
  }

  /** Leaving the group: the first occurrence of h is removed and the order of the rest is kept. */
  function Removed(hs: seq<nat>, h: nat): seq<nat>
    requires h in hs
  {
    var k := IndexOf(hs, h);
    hs[..k] + hs[k + 1..]
  }

  /**
   * `activate`: an inactive unit is flagged and joins the roster at the end
   * of its layer. An active aircraft is taken out and put back at the end of
   * the air layer, since `change_layer` runs whether or not the unit was
   * already active; any other active unit is left alone.
   */
  function Activated(s: RosterState, h: nat): (r: RosterState)
    requires Consistent(s) && h < |s.units|
    ensures |r.units| == |s.units| && r.units[h].active && h in r.active
  {
    if !s.units[h].active then
      RosterState(s.units[h := s.units[h].(active := true)], Enlisted(s.units, s.active, h))
    else if DomainOf(s.units[h].kind) == AirUnit then
      DeletedLayered(s.units, s.active, IndexOf(s.active, h));
      RosterState(s.units, Enlisted(s.units, Removed(s.active, h), h))
    else s
  }

  /** `deactivate`: an active unit is unflagged and leaves the roster; an inactive one is left alone. */
  function Deactivated(s: RosterState, h: nat): (r: RosterState)
    requires Consistent(s) && h < |s.units|
    ensures |r.units| == |s.units| && !r.units[h].active && h !in r.active
  {
    if !s.units[h].active then s
    else RosterState(s.units[h := s.units[h].(active := false)], Removed(s.active, h))
  }

  /** `hurt`: the health drops by the damage, and a unit left at 0 or below is deactivated (HurtedRule). */
  function Hurted(s: RosterState, h: nat, damage: int): (t: RosterState)
    requires Consistent(s) && h < |s.units|
    ensures Consistent(t)
  {
    var u := s.units[h];
    var s' := RosterState(s.units[h := u.(health := u.health - damage)], s.active);
    ReplaceKeeps(s, h, u.(health := u.health - damage));
    DeactivatedKeeps(s', h);
    if u.health - damage <= 0 then Deactivated(s', h) else s'
  }

  /** `turn_state = [False, False]`. */
  function Rested(u: Unit): (v: Unit)
    ensures !v.moved && !v.attacked
    ensures v == u.(moved := v.moved, attacked := v.attacked)
  {
    u.(moved := false, attacked := false)
  }

  // ---- the invariant is kept ----

  /** Inserting a fresh handle keeps a sequence of handles distinct. */
  lemma InsertedDistinct(hs: seq<nat>, k: nat, h: nat)
    requires k <= |hs| && Distinct(hs) && h !in hs
    ensures Distinct(hs[..k] + [h] + hs[k..])
  {
    var r := hs[..k] + [h] + hs[k..];
    forall i, j | 0 <= i < j < |r|
      ensures r[i] != r[j]
    {
      if j < k {
        assert r[i] == hs[i] && r[j] == hs[j];
      } else if j == k {
        assert r[i] == hs[i];
      } else if i < k {
        assert r[i] == hs[i] && r[j] == hs[j - 1];
      } else if i == k {
        assert r[j] == hs[j - 1];
      } else {
        assert r[i] == hs[i - 1] && r[j] == hs[j - 1];
      }
    }
  }

  /** Where everything stands after inserting h at k. */
  lemma InsertShape(hs: seq<nat>, k: nat, h: nat)
    requires k <= |hs|
    ensures var r := hs[..k] + [h] + hs[k..];
            |r| == |hs| + 1 && r[k] == h &&
            (forall i :: 0 <= i < k ==> r[i] == hs[i]) &&
            (forall i :: k < i < |r| ==> r[i] == hs[i - 1])
  {
  }

  /** Inserting at the end of its layer keeps the roster layered. */
  lemma EnlistedLayered(units: seq<Unit>, hs: seq<nat>, h: nat)
    requires Handles(units, hs) && Layered(units, hs) && h < |units|
    ensures Handles(units, Enlisted(units, hs, h)) && Layered(units, Enlisted(units, hs, h))
  {
    var l := Layer(units[h]);
    var k := LayerEnd(units, hs, l);
    var r := Enlisted(units, hs, h);
    InsertShape(hs, k, h);
    assert Handles(units, r);
    forall i, j | 0 <= i < j < |r|
      ensures Layer(units[r[i]]) <= Layer(units[r[j]])
    {
      if j < k {
        assert r[i] == hs[i] && r[j] == hs[j];
      } else if j == k {
        assert r[i] == hs[i] && Layer(units[hs[i]]) <= l;
      } else if i < k {
        assert r[i] == hs[i] && r[j] == hs[j - 1] && i < j - 1;
      } else if i == k {
        assert r[j] == hs[j - 1] && l < Layer(units[hs[k]]);
        assert k <= j - 1 && Layer(units[hs[k]]) <= Layer(units[hs[j - 1]]);
      } else {
        assert r[i] == hs[i - 1] && r[j] == hs[j - 1];
      }
    }
  }

  /** Deleting one position keeps a sequence of handles distinct. */
  lemma DeletedDistinct(hs: seq<nat>, k: nat)
    requires k < |hs| && Distinct(hs)
    ensures Distinct(hs[..k] + hs[k + 1..])
  {
    var r := hs[..k] + hs[k + 1..];
    forall i, j | 0 <= i < j < |r|
      ensures r[i] != r[j]
    {
      if j < k {
        assert r[i] == hs[i] && r[j] == hs[j];
      } else if i < k {
        assert r[i] == hs[i] && r[j] == hs[j + 1];
      } else {
        assert r[i] == hs[i + 1] && r[j] == hs[j + 1];
      }
    }
  }

  /** Deleting one position keeps the roster layered. */
  lemma DeletedLayered(units: seq<Unit>, hs: seq<nat>, k: nat)
    requires Handles(units, hs) && Layered(units, hs) && k < |hs|
    ensures Handles(units, hs[..k] + hs[k + 1..]) && Layered(units, hs[..k] + hs[k + 1..])
  {
    var r := hs[..k] + hs[k + 1..];
    forall i, j | 0 <= i < j < |r|
      ensures Layer(units[r[i]]) <= Layer(units[r[j]])
    {
      if j < k {
        assert r[i] == hs[i] && r[j] == hs[j];
      } else if i < k {
        assert r[i] == hs[i] && r[j] == hs[j + 1];
      } else {
        assert r[i] == hs[i + 1] && r[j] == hs[j + 1];
      }
    }
  }

  /** From a distinct roster, removal takes away exactly h. */
  lemma RemovedMembers(hs: seq<nat>, h: nat, x: nat)
    requires Distinct(hs) && h in hs
    ensures x in Removed(hs, h) <==> x in hs && x != h
  {
    var k := IndexOf(hs, h);
    assert hs == hs[..k] + [h] + hs[k + 1..];
    if x == h {
      assert forall i :: k < i < |hs| ==> hs[i] != hs[k];
      assert x !in hs[k + 1..];
    }
  }

  /** Replacing a unit record by one of the same kind and activity keeps the invariant. */
  lemma ReplaceKeeps(s: RosterState, h: nat, u: Unit)
    requires Consistent(s)
    requires h < |s.units| && u.kind == s.units[h].kind && u.active == s.units[h].active
    ensures Consistent(RosterState(s.units[h := u], s.active))
  {
    var units' := s.units[h := u];
    assert forall i :: 0 <= i < |s.active| ==> Layer(units'[s.active[i]]) == Layer(s.units[s.active[i]]);
  }

  /** Activation keeps the invariant. */
  lemma ActivatedKeeps(s: RosterState, h: nat)
    requires Consistent(s) && h < |s.units|
    ensures Consistent(Activated(s, h))
  {
    if s.units[h].active && DomainOf(s.units[h].kind) == AirUnit {
      ReactivatedKeeps(s, h);
    } else if !s.units[h].active {
      EnlistedKeeps(s, h);
    }
  }

  /** Flagging an inactive unit and enlisting it keeps the invariant. */
  lemma EnlistedKeeps(s: RosterState, h: nat)
    requires Consistent(s) && h < |s.units| && !s.units[h].active
    ensures Consistent(RosterState(s.units[h := s.units[h].(active := true)], Enlisted(s.units, s.active, h)))
  {
    var units' := s.units[h := s.units[h].(active := true)];
    var k := LayerEnd(s.units, s.active, Layer(s.units[h]));
    var r := Enlisted(s.units, s.active, h);
    InsertedDistinct(s.active, k, h);
    EnlistedLayered(s.units, s.active, h);
    SameLayers(s.units, units', r);
    forall x | 0 <= x < |units'|
      ensures units'[x].active <==> x in r
    {
      InsertedMembers(s.active, k, h, x);
    }
  }

  /** Taking an active unit out and enlisting it again keeps the invariant. */
  lemma ReactivatedKeeps(s: RosterState, h: nat)
    requires Consistent(s) && h < |s.units| && s.units[h].active
    ensures h in s.active && Consistent(RosterState(s.units, Enlisted(s.units, Removed(s.active, h), h)))
  {
    var rest := Removed(s.active, h);
    DeletedDistinct(s.active, IndexOf(s.active, h));
    DeletedLayered(s.units, s.active, IndexOf(s.active, h));
    RemovedMembers(s.active, h, h);
    var k := LayerEnd(s.units, rest, Layer(s.units[h]));
    InsertedDistinct(rest, k, h);
    EnlistedLayered(s.units, rest, h);
    forall x | 0 <= x < |s.units|
      ensures s.units[x].active <==> x in Enlisted(s.units, rest, h)
    {
      InsertedMembers(rest, k, h, x);
      RemovedMembers(s.active, h, x);
    }
  }

  /** Inserting h adds exactly h to the members. */
  lemma InsertedMembers(hs: seq<nat>, k: nat, h: nat, x: nat)
    requires k <= |hs|
    ensures x in hs[..k] + [h] + hs[k..] <==> x in hs || x == h
  {
    assert hs == hs[..k] + hs[k..];
  }

  /** Records with the same layers give the same layer order. */
  lemma SameLayers(units: seq<Unit>, units': seq<Unit>, hs: seq<nat>)
    requires Handles(units, hs) && Layered(units, hs) && |units'| == |units|
    requires forall i :: 0 <= i < |units| ==> Layer(units'[i]) == Layer(units[i])
    ensures Handles(units', hs) && Layered(units', hs)
  {
  }

  /** Deactivation keeps the invariant. */
  lemma DeactivatedKeeps(s: RosterState, h: nat)
    requires Consistent(s) && h < |s.units|
    ensures Consistent(Deactivated(s, h))
  {
    if s.units[h].active {
      var units' := s.units[h := s.units[h].(active := false)];
      var k := IndexOf(s.active, h);
      var r := Removed(s.active, h);
      DeletedDistinct(s.active, k);
      DeletedLayered(s.units, s.active, k);
      forall x | 0 <= x < |units'|
        ensures units'[x].active <==> x in r
      {
        RemovedMembers(s.active, h, x);
      }
      assert forall i :: 0 <= i < |r| ==> Layer(units'[r[i]]) == Layer(s.units[r[i]]);
    }
  }

  // ---- what activation, deactivation and damage do ----

  /**
   * Activating twice is activating once, and likewise for deactivating. A
   * second activation of an aircraft takes it out of the back of the air
   * layer and puts it back there.
   */
  lemma ActivationIdempotent(s: RosterState, h: nat)
    requires Consistent(s) && h < |s.units|
    ensures Consistent(Activated(s, h)) && Activated(Activated(s, h), h) == Activated(s, h)
    ensures Consistent(Deactivated(s, h)) && Deactivated(Deactivated(s, h), h) == Deactivated(s, h)
  {
    ActivatedKeeps(s, h);
    DeactivatedKeeps(s, h);
    if DomainOf(s.units[h].kind) == AirUnit {
      if s.units[h].active {
        ReactivatedTwice(s, h);
      } else {
        ActivatedTwice(s, h);
      }
    }
  }

  /** A second activation of a freshly activated aircraft puts it back where the first one did. */
  lemma ActivatedTwice(s: RosterState, h: nat)
    requires Consistent(s) && h < |s.units| && !s.units[h].active && DomainOf(s.units[h].kind) == AirUnit
    ensures Consistent(Activated(s, h)) && Activated(Activated(s, h), h) == Activated(s, h)
  {
    ActivatedKeeps(s, h);
    var t := Activated(s, h);
    var k := LayerEnd(s.units, s.active, AirLayer);
    assert t.active == s.active[..k] + [h] + s.active[k..];
    RemovedInserted(s.active, k, h);
    SameLayerEnd(s.units, t.units, s.active, AirLayer);
  }

  /** Reactivating an active aircraft twice is reactivating it once. */
  lemma ReactivatedTwice(s: RosterState, h: nat)
    requires Consistent(s) && h < |s.units| && s.units[h].active && DomainOf(s.units[h].kind) == AirUnit
    ensures Consistent(Activated(s, h)) && Activated(Activated(s, h), h) == Activated(s, h)
  {
    ActivatedKeeps(s, h);
    var t := Activated(s, h);
    var rest := Removed(s.active, h);
    DeletedLayered(s.units, s.active, IndexOf(s.active, h));
    RemovedMembers(s.active, h, h);
    var k := LayerEnd(s.units, rest, AirLayer);
    assert t.active == rest[..k] + [h] + rest[k..];
    RemovedInserted(rest, k, h);
  }

  /** Taking h back out of a sequence it was inserted into, where it did not occur, restores the sequence. */
  lemma RemovedInserted(hs: seq<nat>, k: nat, h: nat)
    requires k <= |hs| && h !in hs
    ensures Removed(hs[..k] + [h] + hs[k..], h) == hs
  {
    var r := hs[..k] + [h] + hs[k..];
    InsertShape(hs, k, h);
    assert IndexOf(r, h) == k;
    assert r[..k] == hs[..k] && r[k + 1..] == hs[k..];
  }

  /** The end of a layer depends only on the layers of the units. */
  lemma {:induction false} SameLayerEnd(units: seq<Unit>, units': seq<Unit>, hs: seq<nat>, layer: int)
    requires Handles(units, hs) && |units'| == |units|
    requires forall i :: 0 <= i < |units| ==> Layer(units'[i]) == Layer(units[i])
    ensures Handles(units', hs) && LayerEnd(units', hs, layer) == LayerEnd(units, hs, layer)
    decreases |hs|
  {
    if hs != [] {
      SameLayerEnd(units, units', hs[1..], layer);
    }
  }

  /** Activating an active aircraft moves it to the back of the roster; the others keep their order. */
  lemma ReactivatedOrder(s: RosterState, h: nat)
    requires Consistent(s) && h < |s.units| && s.units[h].active && DomainOf(s.units[h].kind) == AirUnit
    ensures h in s.active && Activated(s, h) == RosterState(s.units, Removed(s.active, h) + [h])
  {
    var rest := Removed(s.active, h);
    DeletedLayered(s.units, s.active, IndexOf(s.active, h));
    assert LayerEnd(s.units, rest, AirLayer) == |rest|;
    assert rest[..|rest|] == rest && rest[|rest|..] == [];
  }

  /** After activation the unit is in the roster and flagged; nothing else changes flag or membership. */
  lemma ActivatedMembers(s: RosterState, h: nat, x: nat)
    requires Consistent(s) && h < |s.units|
    ensures var t := Activated(s, h);
            |t.units| == |s.units| && t.units[h].active && h in t.active &&
            (x != h ==> (x in t.active <==> x in s.active)) &&
            forall y :: 0 <= y < |s.units| && y != h ==> t.units[y] == s.units[y]
  {
    if !s.units[h].active {
      var k := LayerEnd(s.units, s.active, Layer(s.units[h]));
      assert s.active == s.active[..k] + s.active[k..];
      assert Enlisted(s.units, s.active, h)[k] == h;
    } else if DomainOf(s.units[h].kind) == AirUnit {
      var rest := Removed(s.active, h);
      DeletedLayered(s.units, s.active, IndexOf(s.active, h));
      InsertedMembers(rest, LayerEnd(s.units, rest, Layer(s.units[h])), h, x);
      RemovedMembers(s.active, h, x);
    }
  }

  /** Aircraft join at the back of the roster; any other unit joins right behind the last non-aircraft. */
  lemma ActivatedOrder(s: RosterState, h: nat)
    requires Consistent(s) && h < |s.units| && !s.units[h].active
    ensures var k := LayerEnd(s.units, s.active, Layer(s.units[h]));
            Activated(s, h).active == s.active[..k] + [h] + s.active[k..] &&
            (DomainOf(s.units[h].kind) == AirUnit ==> k == |s.active|) &&
            (forall i :: 0 <= i < k ==> DomainOf(s.units[s.active[i]].kind) != AirUnit ||
                                        DomainOf(s.units[h].kind) == AirUnit) &&
            (forall i :: k <= i < |s.active| ==> DomainOf(s.units[s.active[i]].kind) == AirUnit)
  {
    var l := Layer(s.units[h]);
    var k := LayerEnd(s.units, s.active, l);
    assert forall i :: k <= i < |s.active| ==> Layer(s.units[s.active[k]]) <= Layer(s.units[s.active[i]]);
  }

  /** After deactivation the unit is out of the roster and unflagged; the rest keep their order. */
  lemma DeactivatedMembers(s: RosterState, h: nat, x: nat)
    requires Consistent(s) && h < |s.units|
    ensures var t := Deactivated(s, h);
            |t.units| == |s.units| && !t.units[h].active && h !in t.active &&
            (x != h ==> (x in t.active <==> x in s.active)) &&
            forall y :: 0 <= y < |s.units| && y != h ==> t.units[y] == s.units[y]
  {
    if s.units[h].active {
      RemovedMembers(s.active, h, x);
      RemovedMembers(s.active, h, h);
    }
  }

  /**
   * `hurt(d)`: health drops by exactly d, nothing else about the unit but
   * its flag changes, and the unit stays in the roster exactly when it was
   * there and its health is still positive.
   */
  lemma HurtedRule(s: RosterState, h: nat, damage: int)
    requires Consistent(s) && h < |s.units|
    ensures |Hurted(s, h, damage).units| == |s.units|
    ensures var t := Hurted(s, h, damage); var u := s.units[h];
            t.units[h] == u.(health := u.health - damage, active := t.units[h].active)
    ensures h in Hurted(s, h, damage).active <==> h in s.active && s.units[h].health - damage > 0
    ensures var t := Hurted(s, h, damage);
            forall y :: 0 <= y < |s.units| && y != h ==> t.units[y] == s.units[y]
  {
    HurtedShape(s, h, damage);
    if s.units[h].active {
      RemovedMembers(s.active, h, h);
    }
  }

  /** Hurted written out on the records. */
  lemma HurtedShape(s: RosterState, h: nat, damage: int)
    requires Consistent(s) && h < |s.units|
    ensures var u := s.units[h];
            Hurted(s, h, damage) ==
              if u.health - damage <= 0 && u.active
              then RosterState(s.units[h := u.(health := u.health - damage, active := false)], Removed(s.active, h))
              else RosterState(s.units[h := u.(health := u.health - damage)], s.active)
  {
  }

  /**
   * The aircraft's part of `turn_ended`, on the state after the turn state
   * was reset: refuel to the maximum when docked where it stands (alive);
   * otherwise burn one unit of fuel, and once the fuel is gone take damage
   * equal to the maximum health and report the unit lost. AirTurnEndRule
   * states the outcome.
   */
  function AirTurnEnd(s: RosterState, h: nat): (r: (RosterState, bool))
    requires Consistent(s) && h < |s.units| && DomainOf(s.units[h].kind) == AirUnit
    ensures Consistent(r.0)
  {
    var u := s.units[h];
    if IsDocked(u, ActiveUnits(s), u.pos) then
      ReplaceKeeps(s, h, u.(fuel := MaxFuel(u.kind)));
      (RosterState(s.units[h := u.(fuel := MaxFuel(u.kind))], s.active), true)
    else
      var burnt := RosterState(s.units[h := u.(fuel := u.fuel - 1)], s.active);
      ReplaceKeeps(s, h, u.(fuel := u.fuel - 1));
      if u.fuel - 1 <= 0 then (Hurted(burnt, h, MaxHealth), false) else (burnt, true)
  }

  /**
   * A docked aircraft is refuelled to its maximum; an undocked one burns
   * exactly one unit of fuel and survives exactly when fuel remains, and a
   * lost one has taken its maximum health in damage and, from full health or
   * less, has left the roster. No other unit changes.
   */
  lemma AirTurnEndRule(s: RosterState, h: nat)
    requires Consistent(s) && h < |s.units| && DomainOf(s.units[h].kind) == AirUnit
    ensures var u := s.units[h]; var r := AirTurnEnd(s, h);
            |r.0.units| == |s.units| &&
            (forall y :: 0 <= y < |s.units| && y != h ==> r.0.units[y] == s.units[y]) &&
            (IsDocked(u, ActiveUnits(s), u.pos) ==>
               r.1 && r.0.units[h] == u.(fuel := MaxFuel(u.kind)) && r.0.active == s.active) &&
            (!IsDocked(u, ActiveUnits(s), u.pos) ==>
               r.0.units[h].fuel == u.fuel - 1 && (r.1 <==> u.fuel > 1) &&
               (r.1 ==> r.0.units[h] == u.(fuel := u.fuel - 1) && r.0.active == s.active) &&
               (!r.1 ==> r.0.units[h].health == u.health - MaxHealth &&
                         (u.health <= MaxHealth ==> h !in r.0.active)))
  {
    var u := s.units[h];
    if !IsDocked(u, ActiveUnits(s), u.pos) && u.fuel <= 1 {
      var burnt := RosterState(s.units[h := u.(fuel := u.fuel - 1)], s.active);
      ReplaceKeeps(s, h, u.(fuel := u.fuel - 1));
      HurtedRule(burnt, h, MaxHealth);
    }
  }

  /**
   * `turn_ended` on a roster state: reset the turn state, then an aircraft's
   * fuel bookkeeping; with the returned flag. TurnEndedRule states the outcome.
   */
  function TurnEndedState(s: RosterState, h: nat): (r: (RosterState, bool))
    requires Consistent(s) && h < |s.units|
    ensures Consistent(r.0) && |r.0.units| == |s.units|
  {
    var rested := RosterState(s.units[h := Rested(s.units[h])], s.active);
    ReplaceKeeps(s, h, Rested(s.units[h]));
    if DomainOf(s.units[h].kind) != AirUnit then (rested, true)
    else
      AirTurnEndRule(rested, h);
      AirTurnEnd(rested, h)
  }

  /**
   * After `turn_ended` the unit's turn state is clear and no other unit has
   * changed; a unit that is not an aircraft survives with nothing else changed.
   */
  lemma TurnEndedRule(s: RosterState, h: nat)
    requires Consistent(s) && h < |s.units|
    ensures var r := TurnEndedState(s, h);
            !r.0.units[h].moved && !r.0.units[h].attacked &&
            r.0.units[h].team == s.units[h].team && r.0.units[h].kind == s.units[h].kind &&
            (forall y :: 0 <= y < |s.units| && y != h ==> r.0.units[y] == s.units[y]) &&
            (DomainOf(s.units[h].kind) != AirUnit ==> r.1 && r.0.units[h] == Rested(s.units[h]) && r.0.active == s.active)
  {
    var rested := RosterState(s.units[h := Rested(s.units[h])], s.active);
    ReplaceKeeps(s, h, Rested(s.units[h]));
    if DomainOf(s.units[h].kind) == AirUnit {
      AirTurnEndRule(rested, h);
      if !IsDocked(rested.units[h], ActiveUnits(rested), rested.units[h].pos) && rested.units[h].fuel <= 1 {
        var burnt := RosterState(rested.units[h := rested.units[h].(fuel := rested.units[h].fuel - 1)], rested.active);
        ReplaceKeeps(rested, h, burnt.units[h]);
        HurtedRule(burnt, h, MaxHealth);
      }
    }
  }

  /** The first active handle whose unit stands exactly on pos. */
  function HandleAt(units: seq<Unit>, hs: seq<nat>, pos: Pos): (r: Option<nat>)
    requires Handles(units, hs)
    ensures r.Some? ==> r.value in hs && r.value < |units|
  {
    if hs == [] then None
    else if units[hs[0]].pos == ToPoint(pos) then Some(hs[0])
    else HandleAt(units, hs[1..], pos)
  }

  /** The handle found is the one behind the unit `get_unit_at_pos` returns. */
  lemma {:induction false} HandleAtAgrees(units: seq<Unit>, hs: seq<nat>, pos: Pos)
    requires Handles(units, hs)
    ensures HandleAt(units, hs, pos).None? <==> UnitAt(Gather(units, hs), pos).None?
    ensures HandleAt(units, hs, pos).Some? ==>
              UnitAt(Gather(units, hs), pos) == Some(units[HandleAt(units, hs, pos).value])
  {
    if hs != [] {
      var g := Gather(units, hs);
      HandleAtAgrees(units, hs[1..], pos);
      assert g[0] == units[hs[0]] && g[1..] == Gather(units, hs[1..]);
      assert UnitAt(g, pos) == if g[0].pos == ToPoint(pos) then Some(g[0]) else UnitAt(g[1..], pos);
    }
  }

  /** The handle search reads only positions: records that agree on every position give the same answer. */
  lemma {:induction false} HandleAtSamePositions(units: seq<Unit>, units': seq<Unit>, hs: seq<nat>, pos: Pos)
    requires Handles(units, hs) && |units'| == |units|
    requires forall i :: 0 <= i < |units| ==> units'[i].pos == units[i].pos
    ensures HandleAt(units', hs, pos) == HandleAt(units, hs, pos)
  {
    if hs != [] {
      HandleAtSamePositions(units, units', hs[1..], pos);
    }
  }

  /** An empty store is consistent. */
  lemma EmptyConsistent()
    ensures Consistent(RosterState([], []))
  {
  }

  /** The store of unit objects together with the roster of the active ones. */
  class Roster {
    var units: seq<Unit>
    var active: seq<nat>

    function State(): RosterState
      reads this
    {
      RosterState(units, active)
    }

    ghost predicate Valid()
      reads this
    {
      Consistent(State())
    }

    /** The active units in iteration order, snapshotted as the source's loops copy the group. */
    function Active(): (r: seq<Unit>)
      reads this
      requires Valid()
      ensures r == ActiveUnits(State())
    {
      Gather(units, active)
    }

    constructor()
      ensures Valid() && units == [] && active == []
    {
      units, active := [], [];
      new;
      EmptyConsistent();
      assert State() == RosterState([], []);
    }

    /** `BaseUnit.__init__`: a new unit at full health, activated when asked. */
    method Create(k: Kind, team: int, tile: Pos, angle: int, activate: bool) returns (h: nat)
      requires Valid()
      modifies this
      ensures Valid()
      ensures h == |old(units)|
      ensures var s := RosterState(old(units) + [NewUnit(k, team, tile, angle)], old(active));
              Consistent(s) && State() == if activate then Activated(s, h) else s
    {
      h := |units|;
      var u := NewUnit(k, team, tile, angle);
      units := units + [u];
      assert forall i :: 0 <= i < |active| ==> units[active[i]] == old(units)[active[i]];
      if activate {
        Activate(h);
      }
    }

    /** `activate`. */
    method Activate(h: nat)
      requires Valid() && h < |units|
      modifies this
      ensures Valid() && State() == Activated(old(State()), h)
    {
      ActivatedKeeps(State(), h);
      if !units[h].active {
        active := Enlisted(units, active, h);
        units := units[h := units[h].(active := true)];
      } else if DomainOf(units[h].kind) == AirUnit {
        DeletedLayered(units, active, IndexOf(active, h));
        active := Enlisted(units, Removed(active, h), h);
      }
    }

    /** `deactivate`. */
    method Deactivate(h: nat)
      requires Valid() && h < |units|
      modifies this
      ensures Valid() && State() == Deactivated(old(State()), h)
    {
      DeactivatedKeeps(State(), h);
      if units[h].active {
        active := Removed(active, h);
        units := units[h := units[h].(active := false)];
      }
    }

    /** Stores a new record for unit h that keeps its kind and activity. */
    method Replace(h: nat, u: Unit)
      requires Valid() && h < |units|
      requires u.kind == units[h].kind && u.active == units[h].active
      modifies this
      ensures Valid()
      ensures units == old(units)[h := u] && active == old(active)
    {
      ReplaceKeeps(State(), h, u);
      units := units[h := u];
    }

    /** `hurt`. */
    method Hurt(h: nat, damage: int)
      requires Valid() && h < |units|
      modifies this
      ensures Valid() && State() == Hurted(old(State()), h, damage)
    {
      Replace(h, units[h].(health := units[h].health - damage));
      if units[h].health <= 0 {
        Deactivate(h);
      }
    }

    /** `face_vector`: the unit turns to the cardinal of the dominant axis of (dx, dy). */
    method FaceVector(h: nat, dx: real, dy: real)
      requires Valid() && h < |units|
      modifies this
      ensures Valid() && active == old(active)
      ensures units == old(units)[h := old(units[h]).(angle := FaceAngle(old(units[h]).angle, dx, dy))]
    {
      Replace(h, units[h].(angle := FaceAngle(units[h].angle, dx, dy)));
    }

    /** `set_path`. */
    method SetPath(h: nat, path: seq<Pos>)
      requires Valid() && h < |units|
      modifies this
      ensures Valid() && active == old(active)
      ensures units == old(units)[h := Units.SetPath(old(units[h]), path)]
    {
      Replace(h, Units.SetPath(units[h], path));
    }

    /** `set_fuel`. */
    method SetFuel(h: nat, fuel: int)
      requires Valid() && h < |units|
      modifies this
      ensures Valid() && active == old(active)
      ensures units == old(units)[h := old(units[h]).(fuel := fuel)]
    {
      Replace(h, units[h].(fuel := fuel));
    }

    /** `get_unit_at_pos`, answering with the unit's handle. */
    method UnitAtPos(pos: Pos) returns (r: Option<nat>)
      requires Valid()
      ensures r == HandleAt(units, active, pos)
    {
      var i := 0;
      while i < |active|
        invariant 0 <= i <= |active|
        invariant HandleAt(units, active[i..], pos) == HandleAt(units, active, pos)
      {
        if units[active[i]].pos == ToPoint(pos) {
          return Some(active[i]);
        }
        assert active[i..][1..] == active[i + 1..];
        i := i + 1;
      }
      return None;
    }

    /** `turn_state[0] = True`. */
    method MarkMoved(h: nat)
      requires Valid() && h < |units|
      modifies this
      ensures Valid() && active == old(active)
      ensures units == old(units)[h := old(units[h]).(moved := true)]
    {
      Replace(h, units[h].(moved := true));
    }

    /** `turn_state[1] = True`. */
    method MarkAttacked(h: nat)
      requires Valid() && h < |units|
      modifies this
      ensures Valid() && active == old(active)
      ensures units == old(units)[h := old(units[h]).(attacked := true)]
    {
      Replace(h, units[h].(attacked := true));
    }

    /**
     * `update`, as the unit's class overrides it: a teleporter jumps to the
     * end of its path, every other unit takes one step along it.
     */
    method Update(h: nat)
      requires Valid() && h < |units|
      modifies this
      ensures Valid() && active == old(active)
      ensures DomainOf(old(units[h]).kind) == TeleportUnit ==> units == old(units)[h := Teleported(old(units[h]))]
      ensures DomainOf(old(units[h]).kind) != TeleportUnit ==> units == old(units)[h := Advance(old(units[h]))]
    {
      var u := units[h];
      if DomainOf(u.kind) == TeleportUnit {
        u := TeleportStep(u);
      } else {
        u := WalkStep(u);
      }
      Replace(h, u);
    }

    /** The aircraft's part of `turn_ended`, written as the source's statements. */
    method AirTurnEnded(h: nat) returns (alive: bool)
      requires Valid() && h < |units| && DomainOf(units[h].kind) == AirUnit
      modifies this
      ensures Valid() && (State(), alive) == AirTurnEnd(old(State()), h)
    {
      var docked := FindCarrier(units[h], Active(), units[h].pos);
      if docked {
        SetFuel(h, MaxFuel(units[h].kind));
        return true;
      }
      SetFuel(h, units[h].fuel - 1);
      if units[h].fuel <= 0 {
        Hurt(h, MaxHealth);
        return false;
      }
      return true;
    }

    /**
     * `turn_ended`: the turn state is reset, then an aircraft does its fuel
     * bookkeeping. The result says whether the unit is still alive.
     */
    method TurnEnded(h: nat) returns (alive: bool)
      requires Valid() && h < |units|
      modifies this
      ensures Valid() && (State(), alive) == TurnEndedState(old(State()), h)
    {
      Replace(h, Rested(units[h]));
      if DomainOf(units[h].kind) != AirUnit {
        return true;
      }
      alive := AirTurnEnded(h);
    }
  }

  /** The base `update` on a unit record: the step Advance describes, written as the source's statements. */
  method WalkStep(u: Unit) returns (v: Unit)
    ensures v == Advance(u)
  {
    v := u;
    if !v.moving {
      return;
    }
    if v.path == [] {
      v := v.(moving := false);
      return;
    }
    if v.pos == ToPoint(v.path[0]) {
      v := v.(path := v.path[1..]);
      if v.path == [] {
        return;
      }
    }
    var target := ToPoint(v.path[0]);
    var dx := Clamp(target.0 - v.pos.0, -FrameMoveSpeed, FrameMoveSpeed);
    var dy := Clamp(target.1 - v.pos.1, -FrameMoveSpeed, FrameMoveSpeed);
    v := v.(angle := FaceAngle(v.angle, dx, dy));
    v := v.(pos := (v.pos.0 + dx, v.pos.1 + dy));
  }

  /**
   * The teleporter's `update` on a unit record: waypoints are popped one by
   * one until only the last is left, then the unit drops it if it stands on
   * it and jumps onto it otherwise.
   */
  method TeleportStep(u: Unit) returns (v: Unit)
    ensures v == Teleported(u)
  {
    v := u;
    if !v.moving {
      return;
    }
    if v.path == [] {
      v := v.(moving := false);
      return;
    }
    var path := v.path;
    var i := 0;
    while i < |u.path| - 1
      invariant 0 <= i <= |u.path| - 1
      invariant path == u.path[i..]
    {
      path := path[1..];
      i := i + 1;
    }
    assert path == [u.path[|u.path| - 1]];
    if v.pos == ToPoint(path[0]) {
      path := path[1..];
      v := v.(path := path);
      return;
    }
    v := v.(path := path, pos := ToPoint(path[0]));
  }
}
