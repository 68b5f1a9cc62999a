/**
 * Dungeon rooms: the room record that `CombatController::initDungeonRoom`
 * reads, the entry direction's block of party start coordinates, the altar
 * room chosen on entry, and the portal action `CombatController::end` takes
 * when leaving an altar room.
 */
module Rooms {
  import opened Wrappers
  import opened CombatTypes

  /** The virtues whose altar rooms sit at room 0xF of a dungeon. */
  datatype Virtue = Love | Truth | Courage

  /**
   * A dungeon room record: a creature tile and a start cell per creature slot,
   * and the party start cells as 64 bytes laid out as eight-byte blocks
   * NX, NY, EX, EY, SX, SY, WX, WY (one X and one Y block per entry side).
   */
  datatype DungeonRoom = DungeonRoom(
    creatureTiles: seq<byte>,
    creatureStartX: seq<byte>,
    creatureStartY: seq<byte>,
    partyStart: seq<byte>)

  predicate WellSized(room: DungeonRoom)
  {
    && |room.creatureTiles| == AREA_CREATURES
    && |room.creatureStartX| == AREA_CREATURES
    && |room.creatureStartY| == AREA_CREATURES
    && |room.partyStart| == 4 * 2 * AREA_PLAYERS
  }

  /** The block of party start cells used when entering from `from`; the other directions are an error. */
  function DirectionOffset(from: Direction): (r: Option<nat>)
    ensures r.Some? ==> r.value < 4
    ensures r.None? <==> from == DirNone || from == Advance || from == Retreat
  {
    match from
    case North => Some(0)
    case East => Some(1)
    case South => Some(2)
    case West => Some(3)
    case _ => None
  }

  /** The entry side whose block is at `offset`. */
  function OffsetDirection(offset: nat): Direction
    requires offset < 4
  {
    if offset == 0 then North else if offset == 1 then East else if offset == 2 then South else West
  }

  /** Each entry side has its own block: the offset table is a bijection between the four sides and [0, 4). */
  lemma OffsetRoundTrip(from: Direction, offset: nat)
    requires offset < 4
    ensures DirectionOffset(OffsetDirection(offset)) == Some(offset)
    ensures DirectionOffset(from) == Some(offset) ==> OffsetDirection(offset) == from
  {
  }

  /** Index of party slot `i`'s X start in the party start bytes of entry block `offset`. */
  function PartyStartX(offset: nat, i: nat): (r: nat)
    requires offset < 4 && i < AREA_PLAYERS
    ensures r < 4 * 2 * AREA_PLAYERS
  {
    offset * AREA_PLAYERS * 2 + i
  }

  /** Index of party slot `i`'s Y start: the Y block follows the X block of the same entry side. */
  function PartyStartY(offset: nat, i: nat): (r: nat)
    requires offset < 4 && i < AREA_PLAYERS
    ensures r < 4 * 2 * AREA_PLAYERS
  {
    AREA_PLAYERS + offset * AREA_PLAYERS * 2 + i
  }

  /**
   * The index arithmetic never reads one byte for two purposes: distinct
   * (side, slot, coordinate) triples read distinct bytes of the record.
   */
  lemma PartyStartIndicesDistinct(o1: nat, i1: nat, o2: nat, i2: nat)
    requires o1 < 4 && i1 < AREA_PLAYERS && o2 < 4 && i2 < AREA_PLAYERS
    ensures PartyStartX(o1, i1) != PartyStartY(o2, i2)
    ensures PartyStartX(o1, i1) == PartyStartX(o2, i2) ==> o1 == o2 && i1 == i2
    ensures PartyStartY(o1, i1) == PartyStartY(o2, i2) ==> o1 == o2 && i1 == i2
  {
    assert PartyStartX(o1, i1) == 16 * o1 + i1 && PartyStartX(o2, i2) == 16 * o2 + i2;
    assert PartyStartY(o2, i2) == 16 * o2 + 8 + i2;
    if o1 < o2 {
      assert 16 * o1 + 16 <= 16 * o2;
    } else if o2 < o1 {
      assert 16 * o2 + 16 <= 16 * o1;
    }
  }

  /**
   * The altar room entered, if any: room 0xF of any dungeon but the Abyss;
   * entering at x = 3 gives Love, at x <= 2 Truth, and further east Courage.
   */
  function AltarRoomFor(prevIsAbyss: bool, room: nat, x: int): (r: Option<Virtue>)
    ensures r.Some? <==> !prevIsAbyss && room == 0xF
    ensures r.Some? ==> (r.value == Love <==> x == 3) && (r.value == Truth <==> x <= 2) && (r.value == Courage <==> x > 3)
  {
    if !prevIsAbyss && room == 0xF then
      if x == 3 then Some(Love) else if x <= 2 then Some(Truth) else Some(Courage)
    else None
  }

  /** The portal triggers that leave an altar room towards another dungeon. */
  datatype PortalAction = ActionNone | ExitNorth | ExitEast | ExitSouth | ExitWest

  /**
   * The portal action for leaving an altar room in direction `exitDir`; no
   * direction means no portal, and advance or retreat is an error.
   */
  function ExitAction(exitDir: Direction): (r: Result<PortalAction, string>)
    ensures r.Failure? <==> exitDir == Advance || exitDir == Retreat
    ensures r == Success(ActionNone) <==> exitDir == DirNone
  {
    match exitDir
    case North => Success(ExitNorth)
    case East => Success(ExitEast)
    case South => Success(ExitSouth)
    case West => Success(ExitWest)
    case DirNone => Success(ActionNone)
    case _ => Failure("Invalid exit dir")
  }

  /** The block index of a portal exit. */
  function ExitBlock(a: PortalAction): Option<nat>
  {
    match a
    case ExitNorth => Some(0)
    case ExitEast => Some(1)
    case ExitSouth => Some(2)
    case ExitWest => Some(3)
    case ActionNone => None
  }

  /**
   * Leaving in a direction triggers the portal on the same side as the party
   * start block used when entering from that direction, so the two
   * direction tables agree.
   */
  lemma ExitAgreesWithEntry(d: Direction)
    ensures ExitAction(d).Success? ==> ExitBlock(ExitAction(d).value) == DirectionOffset(d)
    ensures DirectionOffset(d).Some? ==> ExitAction(d).Success? && ExitAction(d).value != ActionNone
  {
  }
}
