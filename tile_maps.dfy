/**
 * `CombatMap::mapForTile`: which combat map a fight takes place on, decided by
 * the ground tile, whether a ship is involved on either side and the ground
 * under the opponent.
 */
module TileMaps {
  import opened Wrappers

  /** Tiles of the base tile set that the lookup table names. */
  datatype BaseName =
    | Horse | Swamp | Grass | Brush | Forest | Hills | DungeonEntrance | City | Castle | Town
    | LcbEntrance | Bridge | Balloon | BridgePieces | Shrine | Chest | BrickFloor | Moongate
    | MoongateOpening | DungeonFloor | OtherBase(id: nat)

  /** Tiles of the dungeon tile set that the dungeon table names. */
  datatype DungeonName =
    | DngBrickFloor | UpLadder | DownLadder | UpDownLadder | DungeonDoor | SecretDoor | DngChest
    | OtherDungeon(id: nat)

  /** A ground tile. The two tile sets are distinct, so a base tile never matches a dungeon entry. */
  datatype GroundTile = BaseTile(base: BaseName) | DungeonTile(dng: DungeonName)

  /** The combat maps. `Dng(k)` is the k-th dungeon combat map, 0 to 6. */
  datatype MapId =
    | GrassCon | MarshCon | BrushCon | ForestCon | HillCon | DungeonCon | BridgeCon | BrickCon
    | ShipShipCon | ShorShipCon | ShipSeaCon | ShoreCon | ShipShorCon
    | Dng(k: nat)

  /** The situation around the fight on the outer map. */
  datatype Situation = Situation(
    inDungeon: bool,
    transportIsShip: bool,   // the party travels by ship
    objectUnderIsShip: bool, // the party stands on a ship
    opponentIsPirateShip: bool,
    opponentKnown: bool,     // the opponent is a creature or a person, not an unknown object
    waterUnderOpponent: bool)

  /** The base tile table. */
  function BaseTable(t: GroundTile): Option<MapId>
  {
    match t
    case BaseTile(Horse) => Some(GrassCon)
    case BaseTile(Swamp) => Some(MarshCon)
    case BaseTile(Grass) => Some(GrassCon)
    case BaseTile(Brush) => Some(BrushCon)
    case BaseTile(Forest) => Some(ForestCon)
    case BaseTile(Hills) => Some(HillCon)
    case BaseTile(DungeonEntrance) => Some(DungeonCon)
    case BaseTile(City) => Some(GrassCon)
    case BaseTile(Castle) => Some(GrassCon)
    case BaseTile(Town) => Some(GrassCon)
    case BaseTile(LcbEntrance) => Some(GrassCon)
    case BaseTile(Bridge) => Some(BridgeCon)
    case BaseTile(Balloon) => Some(GrassCon)
    case BaseTile(BridgePieces) => Some(BridgeCon)
    case BaseTile(Shrine) => Some(GrassCon)
    case BaseTile(Chest) => Some(GrassCon)
    case BaseTile(BrickFloor) => Some(BrickCon)
    case BaseTile(Moongate) => Some(GrassCon)
    case BaseTile(MoongateOpening) => Some(GrassCon)
    case BaseTile(DungeonFloor) => Some(GrassCon)
    case _ => None
  }

  /** The dungeon tile table; the dungeon chest has no entry. */
  function DungeonTable(t: GroundTile): Option<MapId>
  {
    match t
    case DungeonTile(DngBrickFloor) => Some(Dng(0))
    case DungeonTile(UpLadder) => Some(Dng(1))
    case DungeonTile(DownLadder) => Some(Dng(2))
    case DungeonTile(UpDownLadder) => Some(Dng(3))
    case DungeonTile(DungeonDoor) => Some(Dng(5))
    case DungeonTile(SecretDoor) => Some(Dng(6))
    case _ => None
  }

  predicate ShipMap(m: MapId)
  {
    m == ShipShipCon || m == ShorShipCon || m == ShipSeaCon || m == ShipShorCon
  }

  /** `CombatMap::mapForTile`. */
  function MapForTile(ground: GroundTile, s: Situation): (r: MapId)
    ensures r.Dng? <==> s.inDungeon
    ensures r.Dng? ==> r.k <= 6 && r.k != 4
    ensures s.inDungeon && DungeonTable(ground).None? ==> r == Dng(0)
    ensures s.inDungeon && DungeonTable(ground).Some? ==> r == DungeonTable(ground).value
    ensures !s.inDungeon && !ShipMap(r) && r != ShoreCon ==> r == (if BaseTable(ground).Some? then BaseTable(ground).value else BrickCon)
  {
    var fromShip := s.transportIsShip || s.objectUnderIsShip;
    var toShip := s.opponentIsPirateShip;
    if s.inDungeon then
      if DungeonTable(ground).Some? then DungeonTable(ground).value else Dng(0)
    else if fromShip && toShip then ShipShipCon
    else if s.opponentKnown && toShip then ShorShipCon
    else if s.opponentKnown && fromShip && s.waterUnderOpponent then ShipSeaCon
    else if s.opponentKnown && s.waterUnderOpponent then ShoreCon
    else if s.opponentKnown && fromShip then ShipShorCon
    else if BaseTable(ground).Some? then BaseTable(ground).value
    else BrickCon
  }

  /**
   * Outside dungeons: a ship map is chosen exactly when a ship is involved on
   * the party's side or the opponent's side (for an unknown opponent, only
   * when both are ships); a fight against a known opponent on water is fought
   * at sea or on the shore; a ship fighting a pirate ship always gets the
   * ship-to-ship map.
   */
  lemma ShipSituations(ground: GroundTile, s: Situation)
    requires !s.inDungeon
    ensures var fromShip := s.transportIsShip || s.objectUnderIsShip;
      && (fromShip && s.opponentIsPirateShip ==> MapForTile(ground, s) == ShipShipCon)
      && (ShipMap(MapForTile(ground, s)) <==> (fromShip && s.opponentIsPirateShip) || (s.opponentKnown && (fromShip || s.opponentIsPirateShip)))
      && (s.opponentKnown && s.waterUnderOpponent ==> ShipMap(MapForTile(ground, s)) || MapForTile(ground, s) == ShoreCon)
      && (!fromShip && !s.opponentIsPirateShip && !s.waterUnderOpponent ==> MapForTile(ground, s) == MapForTile(ground, s.(opponentKnown := false)))
  {
  }

  /** The tile set of the ground tile decides nothing outside its own context: a dungeon tile on the surface falls back to the brick map. */
  lemma DungeonTileOnSurface(d: DungeonName, s: Situation)
    requires !s.inDungeon && !s.transportIsShip && !s.objectUnderIsShip && !s.opponentIsPirateShip && !s.waterUnderOpponent
    ensures MapForTile(DungeonTile(d), s) == BrickCon
  {
  }
}
