/**
 * The unit rule hierarchy of the `unit` package (unit/base_unit.py, the
 * ground, water, air and teleport domain classes and the twelve concrete
 * kinds). Python dispatches through subclassing and `isinstance`; here
 * a unit is a record with a `Kind`, the domain is derived from the kind, and
 * every rule is one function that dispatches on them. The shared roster
 * `BaseUnit.active_units` is passed explicitly as the sequence of active
 * units in iteration order.
 */
module Units {
  import opened Helper
  import opened Wrappers
  import opened Tiles

  /** The four domain base classes. */
  datatype Domain = GroundUnit | WaterUnit | AirUnit | TeleportUnit

  /** The concrete unit classes. */
  datatype Kind =
    | Tank | Jeep | SuperJeep | Artillery | AntiAir | AntiArmour
    | Battleship | Carrier
    | Fighter | Bomber
    | Warper | WaterWarper

  /** The domain class each kind derives from. */
  function DomainOf(k: Kind): Domain
  {
    match k
    case Tank => GroundUnit case Jeep => GroundUnit case SuperJeep => GroundUnit
    case Artillery => GroundUnit case AntiAir => GroundUnit case AntiArmour => GroundUnit
    case Battleship => WaterUnit case Carrier => WaterUnit
    case Fighter => AirUnit case Bomber => AirUnit
    case Warper => TeleportUnit case WaterWarper => TeleportUnit
  }

  /** The `type` attribute of each kind. */
  function TypeName(k: Kind): (n: string)
    ensures |n| > 0
  {
    match k
    case Tank => "Tank" case Jeep => "Jeep" case SuperJeep => "Incredibly Fast Jeep"
    case Artillery => "Artillery" case AntiAir => "Anti-Air" case AntiArmour => "Anti-Armour"
    case Battleship => "Battleship" case Carrier => "Carrier"
    case Fighter => "Fighter" case Bomber => "Bomber"
    case Warper => "Warper" case WaterWarper => "Water_warper"
  }

  /** The key each kind is registered under in `unit.unit_types`. */
  function RegistryName(k: Kind): string
  {
    match k
    case Tank => "Tank" case Jeep => "Jeep" case SuperJeep => "SuperJeep"
    case Artillery => "Artillery" case AntiAir => "Anti-Air" case AntiArmour => "Anti-Armour"
    case Battleship => "Battleship" case Carrier => "Carrier"
    case Fighter => "Fighter" case Bomber => "Bomber"
    case Warper => "Warper" case WaterWarper => "Water-Warper"
  }

  /** The registry `unit.unit_types`, as it stands once every kind has registered. */
  const Registry: map<string, Kind> := map[
    "Tank" := Tank, "Jeep" := Jeep, "SuperJeep" := SuperJeep, "Artillery" := Artillery,
    "Anti-Air" := AntiAir, "Anti-Armour" := AntiArmour, "Battleship" := Battleship,
    "Carrier" := Carrier, "Fighter" := Fighter, "Bomber" := Bomber, "Warper" := Warper,
    "Water-Warper" := WaterWarper
  ]

  /**
   * The registry holds exactly one key per kind and maps it back to that
   * kind; the key equals the type string except for the super jeep and the
   * water warper.
   */
  lemma RegistryRoundTrip(k: Kind)
    ensures RegistryName(k) in Registry && Registry[RegistryName(k)] == k
    ensures RegistryName(k) == TypeName(k) <==> k != SuperJeep && k != WaterWarper
  {
    match k {
      case Tank => case Jeep => case SuperJeep => case Artillery => case AntiAir => case AntiArmour =>
      case Battleship => case Carrier => case Fighter => case Bomber => case Warper => case WaterWarper =>
    }
  }

  /** Every registry key is the registry name of the kind it maps to. */
  lemma RegistryKeys(name: string)
    requires name in Registry
    ensures RegistryName(Registry[name]) == name
  {
  }

  /** No two kinds share a type string. */
  lemma TypeNamesDistinct(k1: Kind, k2: Kind)
    requires k1 != k2
    ensures TypeName(k1) != TypeName(k2)
  {
  }

  // ---- stats ----

  /** Every unit starts with 15 health points (`max_health`). */
  const MaxHealth: int := 15

  /** `speed`: the movement budget of one turn. */
  function Speed(k: Kind): (s: nat)
    ensures s > 0
  {
    match k
    case Tank => 5 case Jeep => 10 case SuperJeep => 100 case Artillery => 6
    case AntiAir => 6 case AntiArmour => 4 case Battleship => 8 case Carrier => 4
    case Fighter => 16 case Bomber => 10 case Warper => 10 case WaterWarper => 15
  }

  /** `max_atk_range`. */
  function MaxAtkRange(k: Kind): (r: nat)
    ensures r >= 1
    ensures k == Artillery ==> r > ArtilleryMinRange
  {
    match k
    case Tank => 2 case Jeep => 2 case SuperJeep => 2 case Artillery => 5
    case AntiAir => 4 case AntiArmour => 3 case Battleship => 4 case Carrier => 2
    case Fighter => 4 case Bomber => 1 case Warper => 1 case WaterWarper => 1
  }

  /** `min_atk_range`, which only artillery has. */
  const ArtilleryMinRange: int := 3

  /** `damage`: the base attack strength. */
  function Damage(k: Kind): (d: int)
    ensures d > 0
  {
    match k
    case Tank => 6 case Jeep => 5 case SuperJeep => 5 case Artillery => 7
    case AntiAir => 2 case AntiArmour => 4 case Battleship => 6 case Carrier => 4
    case Fighter => 5 case Bomber => 4 case Warper => 2 case WaterWarper => 50
  }

  /**
   * `bonus_damage` (anti-air against air, anti-armour against armour,
   * fighters against air; the warpers carry one that nothing uses) and, for
   * the bomber, `bonus_land_damage`.
   */
  function BonusDamage(k: Kind): (b: int)
    ensures b >= 0
    ensures b > 0 <==> k in {AntiAir, AntiArmour, Fighter, Bomber, Warper, WaterWarper}
  {
    match k
    case AntiAir => 7 case AntiArmour => 4 case Fighter => 2 case Bomber => 4
    case Warper => 2 case WaterWarper => 2
    case _ => 0
  }

  /** The bomber's `bonus_water_damage`. */
  const BomberWaterBonus: int := 3

  /** `defense`: the base defense. */
  function BaseDefense(k: Kind): (d: int)
    ensures 0 <= d <= 4
  {
    match k
    case Tank => 3 case Jeep => 1 case SuperJeep => 1 case Artillery => 1
    case AntiAir => 2 case AntiArmour => 0 case Battleship => 3 case Carrier => 2
    case Fighter => 3 case Bomber => 4 case Warper => 3 case WaterWarper => 3
  }

  /** `max_fuel` of the air kinds. */
  function MaxFuel(k: Kind): (f: int)
    requires DomainOf(k) == AirUnit
    ensures f > 1
  {
    if k == Fighter then 7 else 10
  }

  /** `min_move_distance` of the air and teleport kinds. */
  function MinMoveDistance(k: Kind): (m: int)
    requires DomainOf(k) == AirUnit || DomainOf(k) == TeleportUnit
    ensures 0 < m <= Speed(k)
  {
    match k
    case Fighter => 6 case Bomber => 4 case Warper => 8 case WaterWarper => 13
  }

  /** The stats the super jeep does not override are the jeep's. */
  lemma SuperJeepIsFastJeep()
    ensures Speed(SuperJeep) == 100 && Speed(Jeep) == 10
    ensures MaxAtkRange(SuperJeep) == MaxAtkRange(Jeep)
    ensures Damage(SuperJeep) == Damage(Jeep) && BaseDefense(SuperJeep) == BaseDefense(Jeep)
    ensures MoveCosts(SuperJeep) == MoveCosts(Jeep)
    ensures DomainOf(SuperJeep) == DomainOf(Jeep)
  {
  }

  // ---- movement cost ----

  /** `_move_costs`: the cost table of each kind (empty where none is set). */
  function MoveCosts(k: Kind): (m: map<Terrain, real>)
    ensures forall t :: t in m ==> m[t] >= 1.0
    ensures Water !in m && Wall !in m
  {
    match k
    case Jeep => map[Plains := 2.0, Sand := 3.0, Forest := 3.0, Road := 1.0, Mountain := 4.0]
    case SuperJeep => map[Plains := 2.0, Sand := 3.0, Forest := 3.0, Road := 1.0, Mountain := 4.0]
    case Artillery => map[Plains := 1.5, Sand := 1.5, Road := 1.0, Mountain := 3.0]
    case AntiAir => map[Plains := 1.5, Sand := 1.5, Road := 1.0, Mountain := 3.0]
    case AntiArmour => map[Mountain := 2.0, Forest := 1.5, Sand := 1.5]
    case _ => map[]
  }

  /** `move_cost`: the table entry of the tile's terrain, 1 for a terrain not in the table. */
  function MoveCost(k: Kind, t: Tile): (c: real)
    ensures c >= 1.0
    ensures t.terrain in MoveCosts(k) ==> c == MoveCosts(k)[t.terrain]
  {
    if t.terrain in MoveCosts(k) then MoveCosts(k)[t.terrain] else 1.0
  }

  /** Kinds without a table (tanks, ships, aircraft, warpers) move at a constant rate of 1. */
  lemma ConstantRate(k: Kind, t: Tile)
    requires k !in {Jeep, SuperJeep, Artillery, AntiAir, AntiArmour}
    ensures MoveCost(k, t) == 1.0
  {
  }

  /** Water and wall are in no table, so they cost 1 for everybody. */
  lemma UntabledTerrain(k: Kind, t: Tile)
    requires t.terrain == Water || t.terrain == Wall
    ensures MoveCost(k, t) == 1.0
  {
  }

  // ---- unit records ----

  /**
   * A unit. `pos` is (`tile_x`, `tile_y`), fractional while it moves;
   * `moved` and `attacked` are `turn_state`; `fuel` is only used by air kinds.
   */
  datatype Unit = Unit(kind: Kind, team: int, pos: Point, angle: int,
                       moving: bool, active: bool, path: seq<Pos>,
                       moved: bool, attacked: bool, health: int, fuel: int)

  /** A new, inactive unit standing on a tile: full health and, for aircraft, full fuel. */
  function NewUnit(k: Kind, team: int, tile: Pos, angle: int): (u: Unit)
    ensures u.kind == k && u.team == team && u.pos == ToPoint(tile) && u.angle == angle
    ensures !u.active && !u.moving && u.path == [] && !u.moved && !u.attacked
    ensures u.health == MaxHealth
    ensures DomainOf(k) == AirUnit ==> u.fuel == MaxFuel(k)
  {
    Unit(k, team, ToPoint(tile), angle, false, false, [], false, false, MaxHealth,
         if DomainOf(k) == AirUnit then MaxFuel(k) else 0)
  }

  /** The tile a unit occupies: its coordinates truncated, as `_tile_index` reads them (whole numbers at rest). */
  function UnitTile(u: Unit): (r: Pos)
    ensures r.0 as real - 1.0 < u.pos.0 < r.0 as real + 1.0 && r.1 as real - 1.0 < u.pos.1 < r.1 as real + 1.0
  {
    (Trunc(u.pos.0), Trunc(u.pos.1))
  }

  /** At rest on a tile, the unit's tile is its position. */
  lemma UnitTileAtRest(u: Unit, p: Pos)
    requires u.pos == ToPoint(p)
    ensures UnitTile(u) == p
  {
  }

  // ---- the roster ----

  /**
   * `get_unit_at_pos`: the first active unit standing exactly on pos, in
   * roster order.
   */
  function UnitAt(roster: seq<Unit>, pos: Pos): (r: Option<Unit>)
    ensures r.None? <==> forall i :: 0 <= i < |roster| ==> roster[i].pos != ToPoint(pos)
    ensures r.Some? ==> exists i :: 0 <= i < |roster| && roster[i] == r.value &&
                          r.value.pos == ToPoint(pos) &&
                          forall j :: 0 <= j < i ==> roster[j].pos != ToPoint(pos)
  {
    if |roster| == 0 then None
    else if roster[0].pos == ToPoint(pos) then Some(roster[0])
    else
      var r := UnitAt(roster[1..], pos);
      assert forall i :: 0 < i < |roster| ==> roster[i] == roster[1..][i - 1];
      r
  }

  /** The same scan written as the source's loop. */
  method GetUnitAtPos(roster: seq<Unit>, pos: Pos) returns (r: Option<Unit>)
    ensures r == UnitAt(roster, pos)
  {
    var i := 0;
    while i < |roster|
      invariant 0 <= i <= |roster|
      invariant forall j :: 0 <= j < i ==> roster[j].pos != ToPoint(pos)
      invariant UnitAt(roster[i..], pos) == UnitAt(roster, pos)
    {
      if roster[i].pos == ToPoint(pos) {
        return Some(roster[i]);
      }
      assert roster[i..][1..] == roster[i + 1..];
      i := i + 1;
    }
    return None;
  }

  /** The unit at pos is an enemy of `team` of domain d. */
  predicate EnemyAt(roster: seq<Unit>, team: int, d: Domain, pos: Pos)
  {
    match UnitAt(roster, pos)
    case None => false
    case Some(o) => o.team != team && DomainOf(o.kind) == d
  }

  /**
   * `is_docked`: some active carrier of u's team lies within Manhattan
   * distance 1 of p (its own tile included).
   */
  predicate IsDocked(u: Unit, roster: seq<Unit>, p: Point)
    ensures (exists i :: 0 <= i < |roster| && roster[i].team == u.team && roster[i].kind == Carrier && roster[i].pos == p) ==>
              IsDocked(u, roster, p)
    ensures IsDocked(u, roster, p) ==> exists i :: 0 <= i < |roster| && roster[i].team == u.team && roster[i].kind == Carrier
  {
    exists i :: 0 <= i < |roster| && DockingCarrier(u, roster[i], p)
  }

  predicate DockingCarrier(u: Unit, c: Unit, p: Point)
  {
    c.team == u.team && c.kind == Carrier && ManhattanDist(c.pos, p) <= 1.0
  }

  /** The source's scan for a carrier, which stops at the first one it finds. */
  method FindCarrier(u: Unit, roster: seq<Unit>, p: Point) returns (docked: bool)
    ensures docked <==> IsDocked(u, roster, p)
  {
    var i := 0;
    while i < |roster|
      invariant 0 <= i <= |roster|
      invariant forall j :: 0 <= j < i ==> !DockingCarrier(u, roster[j], p)
    {
      if DockingCarrier(u, roster[i], p) {
        return true;
      }
      i := i + 1;
    }
    return false;
  }

  // ---- passability and stopping ----

  /**
   * `is_passable`, dispatched as the subclasses override it. A missing tile
   * (`tile_data` off the map) is impassable for everybody; ground, water and
   * air units are blocked by an enemy of their own domain that is the first
   * unit on pos; the catalog's `passable` flag is never read.
   */
  predicate IsPassable(u: Unit, roster: seq<Unit>, tile: Option<Tile>, pos: Pos)
    ensures IsPassable(u, roster, tile, pos) ==> tile.Some? && tile.value.terrain in PassableTerrain(u.kind)
    ensures IsPassable(u, roster, tile, pos) && BlockingDomain(u.kind).Some? ==>
              !EnemyAt(roster, u.team, BlockingDomain(u.kind).value, pos)
  {
    tile.Some? &&
    var t := tile.value.terrain;
    EveryTerrain(t);
    match DomainOf(u.kind)
    case GroundUnit =>
      !EnemyAt(roster, u.team, GroundUnit, pos) && t != Water && t != Wall &&
      (u.kind == Tank ==> t != Mountain && t != Forest) &&
      (u.kind == Artillery || u.kind == AntiAir ==> t != Forest)
    case WaterUnit => !EnemyAt(roster, u.team, WaterUnit, pos) && t == Water
    case AirUnit => !EnemyAt(roster, u.team, AirUnit, pos)
    case TeleportUnit => if u.kind == WaterWarper then t == Water else t != Water
  }

  /** The terrains each kind may cross. */
  function PassableTerrain(k: Kind): set<Terrain>
  {
    match k
    case Tank => {Plains, Sand, Road}
    case Artillery => {Plains, Sand, Road, Mountain}
    case AntiAir => {Plains, Sand, Road, Mountain}
    case Jeep => {Plains, Sand, Road, Mountain, Forest}
    case SuperJeep => {Plains, Sand, Road, Mountain, Forest}
    case AntiArmour => {Plains, Sand, Road, Mountain, Forest}
    case Battleship => {Water}
    case Carrier => {Water}
    case WaterWarper => {Water}
    case Fighter => {Plains, Wall, Water, Sand, Road, Mountain, Forest}
    case Bomber => {Plains, Wall, Water, Sand, Road, Mountain, Forest}
    case Warper => {Plains, Wall, Sand, Road, Mountain, Forest}
  }

  /** The domain whose enemies block each kind (teleporters pass through everybody). */
  function BlockingDomain(k: Kind): Option<Domain>
  {
    if DomainOf(k) == TeleportUnit then None else Some(DomainOf(k))
  }

  /**
   * Passability as a table: a tile is passable iff it exists, its terrain is
   * one the kind may cross, and the first unit on it is not an enemy of the
   * kind's blocking domain.
   */
  lemma PassabilityTable(u: Unit, roster: seq<Unit>, tile: Option<Tile>, pos: Pos)
    ensures IsPassable(u, roster, tile, pos) <==>
              tile.Some? && tile.value.terrain in PassableTerrain(u.kind) &&
              !(BlockingDomain(u.kind).Some? && EnemyAt(roster, u.team, BlockingDomain(u.kind).value, pos))
  {
    match u.kind {
      case Tank => case Jeep => case SuperJeep => case Artillery => case AntiAir => case AntiArmour =>
      case Battleship => case Carrier => case Warper => case WaterWarper =>
      case Fighter => if tile.Some? { EveryTerrain(tile.value.terrain); }
      case Bomber => if tile.Some? { EveryTerrain(tile.value.terrain); }
    }
  }

  lemma EveryTerrain(t: Terrain)
    ensures t in {Plains, Wall, Water, Sand, Road, Mountain, Forest}
  {
    match t {
      case Plains => case Wall => case Water => case Sand => case Road => case Mountain => case Forest =>
    }
  }

  /** Units never consult the catalog's `passable` flag: a mountain is as passable as plains for a jeep. */
  lemma PassableFlagIgnored(u: Unit, roster: seq<Unit>, t: Tile, b: bool, pos: Pos)
    ensures IsPassable(u, roster, Some(t), pos) == IsPassable(u, roster, Some(t.(passable := b)), pos)
    ensures !TileTypes[5].passable && TileTypes[5].terrain == Mountain
  {
  }

  /** A friendly unit, or an enemy of another domain, never blocks. */
  lemma OnlyEnemiesOfTheDomainBlock(u: Unit, roster: seq<Unit>, t: Tile, pos: Pos)
    requires t.terrain in PassableTerrain(u.kind)
    requires UnitAt(roster, pos).Some? ==>
               UnitAt(roster, pos).value.team == u.team ||
               DomainOf(UnitAt(roster, pos).value.kind) != DomainOf(u.kind)
    ensures IsPassable(u, roster, Some(t), pos)
  {
    PassabilityTable(u, roster, Some(t), pos);
  }

  /**
   * `is_stoppable`: aircraft must end at least `min_move_distance` away
   * unless pos is docked; teleporters must always; then nobody may stop on
   * an occupied tile (itself included), and the tile must be passable.
   */
  predicate IsStoppable(u: Unit, roster: seq<Unit>, tile: Option<Tile>, pos: Pos)
    ensures IsStoppable(u, roster, tile, pos) ==> UnitAt(roster, pos).None? && IsPassable(u, roster, tile, pos)
    ensures IsStoppable(u, roster, tile, pos) && DomainOf(u.kind) == TeleportUnit ==>
              ManhattanDist(u.pos, ToPoint(pos)) >= MinMoveDistance(u.kind) as real
  {
    var dist := ManhattanDist(u.pos, ToPoint(pos));
    match DomainOf(u.kind)
    case AirUnit =>
      if dist < MinMoveDistance(u.kind) as real && !IsDocked(u, roster, ToPoint(pos)) then false
      else BaseStoppable(u, roster, tile, pos)
    case TeleportUnit =>
      if dist < MinMoveDistance(u.kind) as real then false
      else BaseStoppable(u, roster, tile, pos)
    case _ => BaseStoppable(u, roster, tile, pos)
  }

  /** The base rule: no active unit stands on pos, and pos is passable. */
  predicate BaseStoppable(u: Unit, roster: seq<Unit>, tile: Option<Tile>, pos: Pos)
  {
    UnitAt(roster, pos).None? && IsPassable(u, roster, tile, pos)
  }

  /**
   * Stopping is passing plus emptiness plus the distance rule of the
   * domain, in both directions.
   */
  lemma StoppableRule(u: Unit, roster: seq<Unit>, tile: Option<Tile>, pos: Pos)
    ensures IsStoppable(u, roster, tile, pos) <==>
              (forall i :: 0 <= i < |roster| ==> roster[i].pos != ToPoint(pos)) &&
              IsPassable(u, roster, tile, pos) &&
              (DomainOf(u.kind) == TeleportUnit ==>
                 ManhattanDist(u.pos, ToPoint(pos)) >= MinMoveDistance(u.kind) as real) &&
              (DomainOf(u.kind) == AirUnit ==>
                 ManhattanDist(u.pos, ToPoint(pos)) >= MinMoveDistance(u.kind) as real ||
                 IsDocked(u, roster, ToPoint(pos)))
  {
  }

  /** An active unit can never stop on its own tile. */
  lemma NotOnItself(u: Unit, roster: seq<Unit>, tile: Option<Tile>, p: Pos)
    requires u in roster && u.pos == ToPoint(p)
    ensures !IsStoppable(u, roster, tile, p)
  {
    var i :| 0 <= i < |roster| && roster[i] == u;
    StoppableRule(u, roster, tile, p);
  }

  /** A warper only stops eight or more tiles from where it stands. */
  lemma WarperJumpsFar(u: Unit, roster: seq<Unit>, tile: Option<Tile>, p: Pos)
    requires u.kind == Warper && IsStoppable(u, roster, tile, p)
    ensures ManhattanDist(u.pos, ToPoint(p)) >= 8.0
  {
  }

  // ---- defense, hitting and damage ----

  /** `get_defense`: the tile's bonus is added when there is a tile, except for aircraft. */
  function Defense(k: Kind, tile: Option<Tile>): (d: int)
    ensures DomainOf(k) == AirUnit || tile.None? ==> d == BaseDefense(k)
    ensures DomainOf(k) != AirUnit && tile.Some? ==> d == BaseDefense(k) + tile.value.defenseBonus
  {
    if DomainOf(k) != AirUnit && tile.Some? then BaseDefense(k) + tile.value.defenseBonus
    else BaseDefense(k)
  }

  /** `can_hit`. */
  predicate CanHit(attacker: Kind, target: Kind)
    ensures DomainOf(target) == WaterUnit ==> CanHit(attacker, target)
    ensures DomainOf(target) == AirUnit ==>
              (CanHit(attacker, target) <==> attacker in {Jeep, SuperJeep, AntiAir, Battleship, Carrier, Fighter, Warper})
  {
    match attacker
    case Tank => DomainOf(target) != AirUnit
    case Artillery => DomainOf(target) != AirUnit
    case AntiArmour => DomainOf(target) != AirUnit
    case Bomber => DomainOf(target) != AirUnit
    case WaterWarper => DomainOf(target) == WaterUnit
    case _ => true
  }

  /** Subtraction floored at zero ("don't do negative damage"). */
  function Positive(x: int): (r: nat)
    ensures r == if x < 0 then 0 else x
  {
    if x < 0 then 0 else x
  }

  /** The base `get_damage`: nothing when the target cannot be hit, else damage minus defense, floored at 0. */
  function BaseDamage(attacker: Kind, target: Kind, tile: Option<Tile>): nat
  {
    if !CanHit(attacker, target) then 0
    else Positive(Damage(attacker) - Defense(target, tile))
  }

  /** `get_damage`, with the overrides of the anti-air, anti-armour, fighter and bomber kinds. */
  function GetDamage(attacker: Kind, target: Kind, tile: Option<Tile>): (r: nat)
    ensures !CanHit(attacker, target) ==> r == 0
  {
    match attacker
    case AntiAir =>
      if DomainOf(target) == AirUnit then Positive(Damage(AntiAir) + BonusDamage(AntiAir) - Defense(target, tile))
      else BaseDamage(attacker, target, tile)
    case AntiArmour =>
      if TypeName(target) == "Tank" || TypeName(target) == "Battleship" then
        Positive(Damage(AntiArmour) + BonusDamage(AntiArmour) - Defense(target, tile))
      else BaseDamage(attacker, target, tile)
    case Fighter =>
      if DomainOf(target) == AirUnit then Positive(Damage(Fighter) + BonusDamage(Fighter) - Defense(target, tile))
      else BaseDamage(attacker, target, tile)
    case Bomber =>
      if DomainOf(target) == GroundUnit then Positive(Damage(Bomber) + BonusDamage(Bomber) - Defense(target, tile))
      else if DomainOf(target) == WaterUnit then Positive(Damage(Bomber) + BomberWaterBonus - Defense(target, tile))
      else 0
    case _ => BaseDamage(attacker, target, tile)
  }

  /** Only the tank and the battleship carry the armour type names. */
  lemma ArmourNames(k: Kind)
    ensures TypeName(k) == "Tank" || TypeName(k) == "Battleship" <==> k == Tank || k == Battleship
  {
  }

  /** The attack strength each kind brings against each target, as stated by the unit docs. */
  function Strength(attacker: Kind, target: Kind): int
  {
    match attacker
    case AntiAir => if DomainOf(target) == AirUnit then 9 else 2
    case AntiArmour => if target == Tank || target == Battleship then 8 else 4
    case Fighter => if DomainOf(target) == AirUnit then 7 else 5
    case Bomber => if DomainOf(target) == GroundUnit then 8 else if DomainOf(target) == WaterUnit then 7 else 4
    case _ => Damage(attacker)
  }

  /**
   * Every damage rule is one formula: nothing against a target the attacker
   * cannot hit (or, for a bomber, a warper), else its strength against that
   * target minus the target's defense, floored at 0.
   */
  lemma DamageFormula(attacker: Kind, target: Kind, tile: Option<Tile>)
    ensures GetDamage(attacker, target, tile) ==
              if !CanHit(attacker, target) || (attacker == Bomber && DomainOf(target) == TeleportUnit) then 0
              else Positive(Strength(attacker, target) - Defense(target, tile))
  {
    match attacker
    case AntiAir => SpecialistFormula(AntiAir, target, tile);
    case AntiArmour => ArmourNames(target);
    case Fighter => SpecialistFormula(Fighter, target, tile);
    case Bomber => SpecialistFormula(Bomber, target, tile);
    case _ => PlainFormula(attacker, target, tile);
  }

  /** DamageFormula for the kinds that keep the base damage rule. */
  lemma PlainFormula(attacker: Kind, target: Kind, tile: Option<Tile>)
    requires attacker != AntiAir && attacker != AntiArmour && attacker != Fighter && attacker != Bomber
    ensures GetDamage(attacker, target, tile) ==
              if !CanHit(attacker, target) then 0 else Positive(Strength(attacker, target) - Defense(target, tile))
  {
  }

  /** DamageFormula for one of the kinds whose strength depends on the target's domain. */
  lemma SpecialistFormula(attacker: Kind, target: Kind, tile: Option<Tile>)
    requires attacker == AntiAir || attacker == Fighter || attacker == Bomber
    ensures GetDamage(attacker, target, tile) ==
              if !CanHit(attacker, target) || (attacker == Bomber && DomainOf(target) == TeleportUnit) then 0
              else Positive(Strength(attacker, target) - Defense(target, tile))
  {
    match DomainOf(target)
    case GroundUnit =>
    case WaterUnit =>
    case AirUnit =>
    case TeleportUnit =>
  }

  /** A higher defense bonus on the target's tile never increases the damage. */
  lemma CoverHelps(attacker: Kind, target: Kind, t1: Tile, t2: Tile)
    requires t1.defenseBonus <= t2.defenseBonus
    ensures GetDamage(attacker, target, Some(t2)) <= GetDamage(attacker, target, Some(t1))
  {
    DamageFormula(attacker, target, Some(t1));
    DamageFormula(attacker, target, Some(t2));
  }

  /** Aircraft ignore cover: the tile never changes the damage they take. */
  lemma AircraftIgnoreCover(attacker: Kind, target: Kind, tile: Option<Tile>)
    requires DomainOf(target) == AirUnit
    ensures GetDamage(attacker, target, tile) == GetDamage(attacker, target, None)
  {
  }

  /** No tile of the catalog lowers a unit's defense, and none changes an aircraft's. */
  lemma CatalogCover(k: Kind, t: Tile)
    requires t in TileTypes.Values
    ensures Defense(k, Some(t)) >= Defense(k, None)
    ensures DomainOf(k) == AirUnit ==> Defense(k, Some(t)) == Defense(k, None)
  {
  }

  // ---- attack range ----

  /**
   * `is_tile_in_range`: Manhattan distance at most the range; the tile's
   * range bonus is added except for aircraft; artillery also has a minimum.
   */
  predicate InRange(k: Kind, fromTile: Tile, fromPos: Point, toPos: Point)
    ensures InRange(k, fromTile, fromPos, toPos) ==>
              ManhattanDist(fromPos, toPos) <= (MaxAtkRange(k) + (if fromTile.rangeBonus > 0 then fromTile.rangeBonus else 0)) as real
    ensures InRange(k, fromTile, fromPos, toPos) && k == Artillery ==> ManhattanDist(fromPos, toPos) >= ArtilleryMinRange as real
  {
    var dist := ManhattanDist(fromPos, toPos);
    if DomainOf(k) == AirUnit then dist <= MaxAtkRange(k) as real
    else if k == Artillery then
      ArtilleryMinRange as real <= dist <= (MaxAtkRange(k) + fromTile.rangeBonus) as real
    else dist <= (MaxAtkRange(k) + fromTile.rangeBonus) as real
  }

  /** Range does not depend on which end of the line is the attacker's. */
  lemma InRangeSymmetric(k: Kind, fromTile: Tile, p: Point, q: Point)
    ensures InRange(k, fromTile, p, q) <==> InRange(k, fromTile, q, p)
  {
    ManhattanMetric(p, q, q);
  }

  /** The radius of the box `positions_in_range` scans: the range plus the tile bonus. */
  function BoxRadius(k: Kind, fromTile: Tile): int
  {
    MaxAtkRange(k) + fromTile.rangeBonus
  }

  /** The in-range test of one attacker standing on fromTile at fromPos, as a test on cells. */
  function InRangeOf(k: Kind, fromTile: Tile, fromPos: Point): Pos -> bool
  {
    (p: Pos) => InRange(k, fromTile, fromPos, ToPoint(p))
  }

  /** The cells of column x within the rows [y0, y1) that pass test, scanned upwards. */
  ghost function Column(test: Pos -> bool, x: int, y0: int, y1: int): set<Pos>
    decreases y1 - y0
  {
    if y1 <= y0 then {}
    else Column(test, x, y0, y1 - 1) + (if test((x, y1 - 1)) then {(x, y1 - 1)} else {})
  }

  /** The cells within the columns [x0, x1) and rows [y0, y1) that pass test, column by column. */
  ghost function Scanned(test: Pos -> bool, x0: int, x1: int, y0: int, y1: int): set<Pos>
    decreases x1 - x0
  {
    if x1 <= x0 then {}
    else Scanned(test, x0, x1 - 1, y0, y1) + Column(test, x1 - 1, y0, y1)
  }

  /** The cells passing test within the box of radius r scanned around (fx, fy). */
  ghost function BoxCells(test: Pos -> bool, fx: real, fy: real, r: real): set<Pos>
  {
    Scanned(test, Trunc(fx - r), Trunc(fx + r + 1.0), Trunc(fy - r), Trunc(fy + r + 1.0))
  }

  /** The cells in range within the box that `positions_in_range` scans. */
  ghost function RangeBox(k: Kind, fromTile: Tile, fromPos: Point): set<Pos>
  {
    BoxCells(InRangeOf(k, fromTile, fromPos), fromPos.0, fromPos.1, BoxRadius(k, fromTile) as real)
  }

  /** `positions_in_range`: the nested scan of the box around fromPos. */
  method PositionsInRange(k: Kind, fromTile: Tile, fromPos: Point) returns (cells: set<Pos>)
    ensures cells == RangeBox(k, fromTile, fromPos)
  {
    cells := ScanAround(InRangeOf(k, fromTile, fromPos), fromPos.0, fromPos.1, BoxRadius(k, fromTile) as real);
  }

  /** The scan of the box of radius r around (fx, fy), its bounds truncated towards zero. */
  method ScanAround(test: Pos -> bool, fx: real, fy: real, r: real) returns (cells: set<Pos>)
    ensures cells == BoxCells(test, fx, fy, r)
  {
    cells := ScanBox(test, Trunc(fx - r), Trunc(fx + r + 1.0), Trunc(fy - r), Trunc(fy + r + 1.0));
  }

  /** Row-by-row scan of the rectangle [x0, x1) x [y0, y1), keeping the cells that pass the test. */
  method ScanBox(test: Pos -> bool, x0: int, x1: int, y0: int, y1: int) returns (cells: set<Pos>)
    ensures cells == Scanned(test, x0, x1, y0, y1)
  {
    cells := {};
    var x := x0;
    while x < x1
      invariant x == x0 || x0 < x <= x1
      invariant cells == Scanned(test, x0, x, y0, y1)
      decreases x1 - x
    {
      var y := y0;
      while y < y1
        invariant y == y0 || y0 < y <= y1
        invariant cells == Scanned(test, x0, x, y0, y1) + Column(test, x, y0, y)
        decreases y1 - y
      {
        ScanCell(test, x0, x, y0, y1, y, cells);
        if test((x, y)) {
          cells := cells + {(x, y)};
        }
        y := y + 1;
      }
      ScanColumn(test, x0, x, y0, y1, y, cells);
      x := x + 1;
    }
  }

  /** Scanning one more cell of column x adds it exactly when it passes the test. */
  lemma ScanCell(test: Pos -> bool, x0: int, x: int, y0: int, y1: int, y: int, cells: set<Pos>)
    requires y0 <= y
    requires cells == Scanned(test, x0, x, y0, y1) + Column(test, x, y0, y)
    ensures (if test((x, y)) then cells + {(x, y)} else cells) ==
              Scanned(test, x0, x, y0, y1) + Column(test, x, y0, y + 1)
  {
  }

  /** A finished column joins the columns scanned before it. */
  lemma ScanColumn(test: Pos -> bool, x0: int, x: int, y0: int, y1: int, y: int, cells: set<Pos>)
    requires x0 <= x && (y == y0 || y0 < y <= y1) && y >= y1
    requires cells == Scanned(test, x0, x, y0, y1) + Column(test, x, y0, y)
    ensures cells == Scanned(test, x0, x + 1, y0, y1)
  {
  }

  lemma {:induction false} ColumnMembers(test: Pos -> bool, x: int, y0: int, y1: int, p: Pos)
    ensures p in Column(test, x, y0, y1) <==> p.0 == x && y0 <= p.1 < y1 && test(p)
    decreases y1 - y0
  {
    if y1 > y0 {
      ColumnMembers(test, x, y0, y1 - 1, p);
    }
  }

  /** The scan holds exactly the cells of its rectangle that pass the test. */
  lemma {:induction false} ScannedMembers(test: Pos -> bool, x0: int, x1: int, y0: int, y1: int, p: Pos)
    ensures p in Scanned(test, x0, x1, y0, y1) <==> x0 <= p.0 < x1 && y0 <= p.1 < y1 && test(p)
    decreases x1 - x0
  {
    if x1 > x0 {
      ScannedMembers(test, x0, x1 - 1, y0, y1, p);
      ColumnMembers(test, x1 - 1, y0, y1, p);
    }
  }

  /** An integer within r of f along one axis lies in the scanned range [int(f - r), int(f + r + 1)). */
  lemma AxisCovers(f: real, r: real, n: int)
    requires Abs(f - n as real) <= r
    ensures Trunc(f - r) <= n < Trunc(f + r + 1.0)
  {
    var lo, hi := f - r, f + r + 1.0;
    assert lo <= n as real <= hi - 1.0;
  }

  /** Every cell in range lies within the box radius of the attacker along both axes. */
  lemma InRangeWithinRadius(k: Kind, fromTile: Tile, fromPos: Point, q: Point)
    requires DomainOf(k) == AirUnit ==> fromTile.rangeBonus >= 0
    requires InRange(k, fromTile, fromPos, q)
    ensures Abs(fromPos.0 - q.0) <= BoxRadius(k, fromTile) as real
    ensures Abs(fromPos.1 - q.1) <= BoxRadius(k, fromTile) as real
  {
    assert ManhattanDist(fromPos, q) <= BoxRadius(k, fromTile) as real;
  }

  /** A cell is in the box when it passes the test and lies within r of the centre on both axes. */
  lemma BoxMembers(test: Pos -> bool, fx: real, fy: real, r: real, p: Pos)
    requires Abs(fx - p.0 as real) <= r && Abs(fy - p.1 as real) <= r
    ensures p in BoxCells(test, fx, fy, r) <==> test(p)
  {
    AxisCovers(fx, r, p.0);
    AxisCovers(fy, r, p.1);
    ScannedMembers(test, Trunc(fx - r), Trunc(fx + r + 1.0), Trunc(fy - r), Trunc(fy + r + 1.0), p);
  }

  /** Only cells passing the test are in the box. */
  lemma BoxPasses(test: Pos -> bool, fx: real, fy: real, r: real, p: Pos)
    ensures p in BoxCells(test, fx, fy, r) ==> test(p)
  {
    ScannedMembers(test, Trunc(fx - r), Trunc(fx + r + 1.0), Trunc(fy - r), Trunc(fy + r + 1.0), p);
  }

  /**
   * The box holds every cell in range whenever the tile's bonus does not
   * shrink the box below the range actually used (only aircraft ignore the
   * bonus, so only a negative bonus under an aircraft could).
   */
  lemma RangeBoxExact(k: Kind, fromTile: Tile, fromPos: Point, p: Pos)
    requires DomainOf(k) == AirUnit ==> fromTile.rangeBonus >= 0
    ensures p in RangeBox(k, fromTile, fromPos) <==> InRange(k, fromTile, fromPos, ToPoint(p))
  {
    var r := BoxRadius(k, fromTile) as real;
    var test := InRangeOf(k, fromTile, fromPos);
    if InRange(k, fromTile, fromPos, ToPoint(p)) {
      InRangeWithinRadius(k, fromTile, fromPos, ToPoint(p));
      BoxMembers(test, fromPos.0, fromPos.1, r, p);
    } else {
      BoxPasses(test, fromPos.0, fromPos.1, r, p);
    }
  }

  /** Artillery never lists a cell closer than its minimum range, its own tile included. */
  lemma ArtilleryBlindSpot(fromTile: Tile, fromPos: Point, p: Pos)
    requires ManhattanDist(fromPos, ToPoint(p)) < 3.0
    ensures p !in RangeBox(Artillery, fromTile, fromPos)
  {
    BoxPasses(InRangeOf(Artillery, fromTile, fromPos), fromPos.0, fromPos.1,
              BoxRadius(Artillery, fromTile) as real, p);
  }

  /**
   * `is_attackable`: in range, and the first unit on toPos is an enemy that
   * the attacker can hit for a nonzero damage.
   */
  predicate IsAttackable(u: Unit, roster: seq<Unit>, fromTile: Tile, fromPos: Point,
                         toTile: Option<Tile>, toPos: Pos)
    ensures IsAttackable(u, roster, fromTile, fromPos, toTile, toPos) ==>
              InRange(u.kind, fromTile, fromPos, ToPoint(toPos)) && UnitAt(roster, toPos).Some? &&
              UnitAt(roster, toPos).value.team != u.team &&
              GetDamage(u.kind, UnitAt(roster, toPos).value.kind, toTile) > 0
  {
    InRange(u.kind, fromTile, fromPos, ToPoint(toPos)) &&
    match UnitAt(roster, toPos)
    case None => false
    case Some(target) =>
      target.team != u.team && CanHit(u.kind, target.kind) &&
      GetDamage(u.kind, target.kind, toTile) != 0
  }

  /** What an attackable tile guarantees: an enemy there that the attack damages. */
  lemma AttackableMeansDamage(u: Unit, roster: seq<Unit>, fromTile: Tile, fromPos: Point,
                              toTile: Option<Tile>, toPos: Pos)
    requires IsAttackable(u, roster, fromTile, fromPos, toTile, toPos)
    ensures exists i :: 0 <= i < |roster| && roster[i].pos == ToPoint(toPos) &&
              roster[i].team != u.team && GetDamage(u.kind, roster[i].kind, toTile) > 0
  {
  }

  /** Bombers never attack aircraft or warpers, and water warpers only attack ships. */
  lemma NarrowAttackers(u: Unit, roster: seq<Unit>, fromTile: Tile, fromPos: Point,
                        toTile: Option<Tile>, toPos: Pos)
    requires IsAttackable(u, roster, fromTile, fromPos, toTile, toPos)
    ensures u.kind == Bomber ==> DomainOf(UnitAt(roster, toPos).value.kind) in {GroundUnit, WaterUnit}
    ensures u.kind == WaterWarper ==> DomainOf(UnitAt(roster, toPos).value.kind) == WaterUnit
  {
  }

  // ---- facing ----

  /**
   * `face_vector`: the angle snapped to the dominant axis of (dx, dy), with
   * ties going to the vertical; the zero vector keeps the old angle. Screen
   * rows grow downwards, so dy > 0 faces 270.
   */
  function FaceAngle(angle: int, dx: real, dy: real): (r: int)
    ensures dx != 0.0 || dy != 0.0 ==> r in Cardinals
  {
    if dx == 0.0 && dy == 0.0 then angle
    else if Abs(dx) > Abs(dy) then (if dx > 0.0 then 0 else 180)
    else if dy > 0.0 then 270
    else 90
  }

  /** The four angles a unit can face. */
  const Cardinals: seq<int> := [0, 90, 180, 270]

  /** The screen direction of each cardinal angle. */
  function Heading(a: int): Point
  {
    if a == 0 then (1.0, 0.0)
    else if a == 90 then (0.0, -1.0)
    else if a == 180 then (-1.0, 0.0)
    else if a == 270 then (0.0, 1.0)
    else (0.0, 0.0)
  }

  function Dot(a: Point, b: Point): real
  {
    a.0 * b.0 + a.1 * b.1
  }

  /**
   * A nonzero vector is faced along the cardinal direction closest to it:
   * its projection on the chosen heading is max(|dx|, |dy|), and no other
   * heading does better.
   */
  lemma FacesClosestCardinal(angle: int, dx: real, dy: real)
    requires dx != 0.0 || dy != 0.0
    ensures FaceAngle(angle, dx, dy) in Cardinals
    ensures Dot(Heading(FaceAngle(angle, dx, dy)), (dx, dy)) ==
              if Abs(dx) > Abs(dy) then Abs(dx) else Abs(dy)
    ensures forall i :: 0 <= i < |Cardinals| ==>
              Dot(Heading(Cardinals[i]), (dx, dy)) <= Dot(Heading(FaceAngle(angle, dx, dy)), (dx, dy))
  {
  }

  /** The zero vector leaves the angle alone. */
  lemma ZeroVectorKeepsAngle(angle: int)
    ensures FaceAngle(angle, 0.0, 0.0) == angle
  {
  }

  /** The six documented examples. */
  lemma FaceAngleExamples(angle: int)
    ensures FaceAngle(angle, 1.0, 0.0) == 0
    ensures FaceAngle(angle, -1.0, 0.0) == 180
    ensures FaceAngle(angle, 0.0, 1.0) == 270
    ensures FaceAngle(angle, 0.0, -1.0) == 90
    ensures FaceAngle(angle, 2.0, 1.0) == 0
    ensures FaceAngle(angle, -10.0, 8.0) == 180
  {
  }

  // ---- movement ----

  /** `FRAME_MOVE_SPEED`: how far a unit moves along each axis in one frame. */
  const FrameMoveSpeed: real := 3.0 / 20.0

  /** `set_path`: an empty path is ignored; otherwise the start is dropped and the unit moves. */
  function SetPath(u: Unit, path: seq<Pos>): (v: Unit)
    ensures path == [] ==> v == u
    ensures path != [] ==> v == u.(moving := true, path := path[1..])
  {
    if path == [] then u else u.(moving := true, path := path[1..])
  }

  /**
   * Given a path that starts on the unit's tile and then steps off it, as
   * `find_path` returns, the unit stays where it is and heads for the
   * path's second cell.
   */
  lemma SetPathHeadsOn(u: Unit, path: seq<Pos>)
    requires |path| >= 2 && u.pos == ToPoint(path[0]) && path[1] != path[0]
    ensures SetPath(u, path).pos == u.pos && SetPath(u, path).moving
    ensures NextWaypoint(SetPath(u, path)) == Some(path[1])
  {
  }

  /**
   * One `update` of a walking (not teleporting) unit: a unit that is moving
   * with an empty path stops; a waypoint it stands on is dropped; then it
   * steps towards the next waypoint by at most `FrameMoveSpeed` per axis,
   * facing the step.
   */
  function Advance(u: Unit): (v: Unit)
    ensures !u.moving ==> v == u
    ensures v == u.(pos := v.pos, path := v.path, angle := v.angle, moving := v.moving)
    ensures |v.path| <= |u.path|
  {
    if !u.moving then u
    else if u.path == [] then u.(moving := false)
    else
      var path := if u.pos == ToPoint(u.path[0]) then u.path[1..] else u.path;
      if path == [] then u.(path := path)
      else
        var target := ToPoint(path[0]);
        var dx := Clamp(target.0 - u.pos.0, -FrameMoveSpeed, FrameMoveSpeed);
        var dy := Clamp(target.1 - u.pos.1, -FrameMoveSpeed, FrameMoveSpeed);
        u.(path := path, angle := FaceAngle(u.angle, dx, dy), pos := (u.pos.0 + dx, u.pos.1 + dy))
  }

  /** The waypoint a moving unit heads for in its next step, if any. */
  function NextWaypoint(u: Unit): Option<Pos>
  {
    if !u.moving || u.path == [] then None
    else if u.pos == ToPoint(u.path[0]) then (if |u.path| == 1 then None else Some(u.path[1]))
    else Some(u.path[0])
  }

  /** The point one frame from p towards t. */
  function StepToward(p: Point, t: Point): Point
  {
    (p.0 + Clamp(t.0 - p.0, -FrameMoveSpeed, FrameMoveSpeed),
     p.1 + Clamp(t.1 - p.1, -FrameMoveSpeed, FrameMoveSpeed))
  }

  /** A step of Advance moves the unit to StepToward its next waypoint, changing nothing but position, path and angle. */
  lemma AdvanceShape(u: Unit)
    requires NextWaypoint(u).Some?
    ensures var v := Advance(u);
            v.pos == StepToward(u.pos, ToPoint(NextWaypoint(u).value)) &&
            v.path != [] && v.path[0] == NextWaypoint(u).value &&
            v == u.(pos := v.pos, path := v.path, angle := v.angle)
  {
  }

  /** One axis of a step: it moves at most the frame speed and never passes the target. */
  lemma AxisStep(x: real, t: real, n: real)
    requires n == x + Clamp(t - x, -FrameMoveSpeed, FrameMoveSpeed)
    ensures Abs(n - x) <= FrameMoveSpeed
    ensures (x <= t ==> x <= n <= t) && (t <= x ==> t <= n <= x)
    ensures Abs(n - t) <= Abs(x - t)
    ensures Abs(x - t) <= FrameMoveSpeed ==> n == t
    ensures x != t ==> Abs(n - t) < Abs(x - t)
  {
  }

  /**
   * A step stays within the frame speed on each axis, never passes the
   * target on either axis, lands on it once it is within reach, and
   * otherwise strictly shortens the Manhattan distance to it.
   */
  lemma StepTowardBounds(p: Point, t: Point)
    ensures var n := StepToward(p, t);
            Abs(n.0 - p.0) <= FrameMoveSpeed && Abs(n.1 - p.1) <= FrameMoveSpeed &&
            Abs(n.0 - t.0) <= Abs(p.0 - t.0) && Abs(n.1 - t.1) <= Abs(p.1 - t.1) &&
            (Abs(p.0 - t.0) <= FrameMoveSpeed && Abs(p.1 - t.1) <= FrameMoveSpeed ==> n == t) &&
            (p != t ==> ManhattanDist(n, t) < ManhattanDist(p, t))
  {
    var n := StepToward(p, t);
    AxisStep(p.0, t.0, n.0);
    AxisStep(p.1, t.1, n.1);
  }

  /**
   * A step of a moving unit towards its next waypoint: at most the frame
   * speed on each axis, no overshoot, arrival once within reach, and a
   * strictly shorter distance otherwise; the waypoint stays at the head of
   * the path and nothing but position, path and angle changes.
   */
  lemma AdvanceSteps(u: Unit)
    requires NextWaypoint(u).Some?
    ensures var v := Advance(u); var t := ToPoint(NextWaypoint(u).value);
            Abs(v.pos.0 - u.pos.0) <= FrameMoveSpeed && Abs(v.pos.1 - u.pos.1) <= FrameMoveSpeed &&
            Abs(v.pos.0 - t.0) <= Abs(u.pos.0 - t.0) && Abs(v.pos.1 - t.1) <= Abs(u.pos.1 - t.1) &&
            (Abs(u.pos.0 - t.0) <= FrameMoveSpeed && Abs(u.pos.1 - t.1) <= FrameMoveSpeed ==> v.pos == t) &&
            (u.pos != t ==> ManhattanDist(v.pos, t) < ManhattanDist(u.pos, t)) &&
            v.path != [] && ToPoint(v.path[0]) == t &&
            v == u.(pos := v.pos, path := v.path, angle := v.angle)
  {
    AdvanceShape(u);
    StepTowardBounds(u.pos, ToPoint(NextWaypoint(u).value));
  }

  /** Without a next waypoint the unit stays where it is; once its path is empty it stops moving. */
  lemma AdvanceAtEnd(u: Unit)
    requires NextWaypoint(u).None?
    ensures Advance(u).pos == u.pos && Advance(u).angle == u.angle
    ensures u.moving && u.path == [] ==> !Advance(u).moving
    ensures u.moving && u.path != [] ==> Advance(u).path == [] && Advance(u).moving
  {
  }

  /**
   * One `update` of a teleporting unit, as a value: all but the final
   * waypoint are discarded; standing on it drops it, otherwise the unit
   * jumps onto it.
   */
  function Teleported(u: Unit): (v: Unit)
    ensures !u.moving ==> v == u
    ensures u.moving && u.path == [] ==> v == u.(moving := false)
    ensures u.moving && u.path != [] && u.pos == ToPoint(u.path[|u.path| - 1]) ==>
              v == u.(path := [])
    ensures u.moving && u.path != [] && u.pos != ToPoint(u.path[|u.path| - 1]) ==>
              v == u.(path := [u.path[|u.path| - 1]], pos := ToPoint(u.path[|u.path| - 1]))
  {
    if !u.moving then u
    else if u.path == [] then u.(moving := false)
    else
      var last := u.path[|u.path| - 1];
      if u.pos == ToPoint(last) then u.(path := [])
      else u.(path := [last], pos := ToPoint(last))
  }

  /** A teleporter given a path reaches its end within two updates and stops on the third. */
  lemma TeleportArrives(u: Unit, path: seq<Pos>)
    requires |path| >= 2
    ensures var v := Teleported(Teleported(SetPath(u, path)));
            v.pos == ToPoint(path[|path| - 1]) && v.path == [] && !Teleported(v).moving
  {
  }

  // ---- turn bookkeeping ----

  /** `can_turn_end`: an aircraft that has not moved blocks the turn unless docked where it stands. */
  predicate CanTurnEnd(u: Unit, roster: seq<Unit>)
    ensures DomainOf(u.kind) != AirUnit ==> CanTurnEnd(u, roster)
    ensures u.moved ==> CanTurnEnd(u, roster)
  {
    DomainOf(u.kind) == AirUnit ==> u.moved || IsDocked(u, roster, u.pos)
  }

  /** `can_turn_end`, with the carrier scan of `is_docked` done by the source's loop. */
  method CheckTurnEnd(u: Unit, roster: seq<Unit>) returns (ok: bool)
    ensures ok == CanTurnEnd(u, roster)
  {
    if DomainOf(u.kind) != AirUnit || u.moved {
      return true;
    }
    ok := FindCarrier(u, roster, u.pos);
  }
}
