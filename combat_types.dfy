/**
 * The values the Ultima IV combat engine works on: coordinates, directions,
 * party members and their weapons, creature types and the creature catalogue,
 * and the objects that stand on a combat map.
 */
module CombatTypes {
  import opened Wrappers

  /** Capacity of the creature table of a combat map. */
  const AREA_CREATURES: nat := 16
  /** Capacity of the party slot table of a combat map. */
  const AREA_PLAYERS: nat := 8

  type byte = x: int | 0 <= x < 256

  datatype Coords = Coords(x: int, y: int, z: int)

  datatype Direction = DirNone | West | North | East | South | Advance | Retreat

  /** Status letters of a party member. */
  datatype Status = Good | Poisoned | Sleeping | Dead

  datatype Weapon = Weapon(
    range: nat,
    rangeAbsolute: bool,     // must hit at exactly the chosen range
    magic: bool,
    canChooseDistance: bool,
    loseWhenUsed: bool,
    loseWhenRanged: bool)

  datatype Member = Member(status: Status, attackBonus: int, weapon: Weapon)

  /** A party member that is asleep or dead takes no turn. */
  predicate Disabled(m: Member)
  {
    m.status == Sleeping || m.status == Dead
  }

  datatype CreatureType = CreatureType(
    id: nat,
    leader: nat,             // id of the type this one is recruited under
    encounterSize: nat,
    leavesChest: bool,
    evil: bool,
    good: bool,
    defense: int)

  /**
   * The creature manager: creature types indexed by their id, the type id
   * drawn with each map tile, and the ids the engine singles out.
   */
  datatype Catalogue = Catalogue(
    types: seq<CreatureType>,
    byTile: map<nat, nat>,
    pirateId: nat,
    rogueId: nat,
    guardId: nat)

  /** Every lookup the engine makes in the catalogue finds a type. */
  predicate WellFormed(cat: Catalogue)
  {
    && (forall id :: 0 <= id < |cat.types| ==> cat.types[id].id == id && cat.types[id].leader < |cat.types|)
    && (forall t :: t in cat.byTile ==> cat.byTile[t] < |cat.types|)
    && cat.rogueId < |cat.types|
  }

  /** `creatureMgr->getByTile`: the type drawn with a tile, if any. */
  function TypeOfTile(cat: Catalogue, tile: nat): (r: Option<CreatureType>)
    requires WellFormed(cat)
    ensures r.Some? <==> tile in cat.byTile
    ensures r.Some? ==> r.value.id == cat.byTile[tile] && r.value.id < |cat.types|
  {
    if tile in cat.byTile then Some(cat.types[cat.byTile[tile]]) else None
  }

  /** The objects on a combat map: creatures, party members and anything else (chests, ships). */
  datatype MapObject =
    | CreatureObj(uid: nat, kind: CreatureType, coords: Coords)
    | MemberObj(slot: nat, coords: Coords)
    | ThingObj(tile: nat, coords: Coords)
}
