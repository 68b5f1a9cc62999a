/**
 * The end of a fight: the loot a beaten creature leaves
 * (`CombatController::awardLoot`) and the outcome branching of
 * `CombatController::end` (death, karma, victory, leaving a dungeon room).
 */
module Lifecycle {
  import opened Wrappers
  import opened CombatTypes
  import opened Rooms

  /**
   * The creature whose encounter started the fight. `isEntry` says the engine
   * handed over the catalogue's own entry for the type (an ambush while
   * camping or resting) rather than a creature standing on the outer map.
   */
  datatype Encountered = Encountered(kind: CreatureType, at: Coords, isPirateShip: bool, facing: Direction, isEntry: bool)

  /** The ground under the encountered creature on the outer map. */
  datatype LootSite = LootSite(walkable: bool, dungeonFloor: bool, inDungeon: bool)

  /** What is added to the outer map after a victory. */
  datatype Loot = NoLoot | Chest(at: Coords) | Ship(at: Coords, facing: Direction)

  /** A creature that leaves a chest may drop it only on ground a creature can walk on (in a dungeon: dungeon floor). */
  predicate ChestFits(e: Encountered, site: LootSite)
  {
    e.kind.leavesChest && site.walkable && (!site.inDungeon || site.dungeonFloor)
  }

  /**
   * `awardLoot`: a chest where the creature stood when one fits there; failing
   * that, a beaten pirate ship becomes a ship facing the way it faced.
   */
  function AwardLoot(e: Encountered, site: LootSite): (r: Loot)
    ensures r.Chest? <==> ChestFits(e, site)
    ensures r.Ship? <==> !ChestFits(e, site) && e.isPirateShip
    ensures r.Chest? ==> r.at == e.at
    ensures r.Ship? ==> r.at == e.at && r.facing == e.facing
  {
    if ChestFits(e, site) then Chest(e.at)
    else if e.isPirateShip then Ship(e.at, e.facing)
    else NoLoot
  }

  /** The karma adjustments `end` makes. */
  datatype Karma = KilledEvil | FledEvil | FledGood

  /** The state `end` sees. `won` is taken before the fight's map is left, which clears its creatures. */
  datatype Ending = Ending(
    partyDead: bool,
    won: bool,
    winOrLose: bool,
    adjustKarma: bool,
    encountered: Option<Encountered>,
    site: LootSite,
    dungeonRoom: bool,
    altarRoom: Option<Virtue>,
    exitDir: Direction,
    outerIsCombat: bool)      // the controller on top after leaving is another fight

  /** What `end` does to the game. */
  datatype EndReport = EndReport(
    deathSequence: bool,
    karma: Option<Karma>,
    victory: bool,
    loot: Loot,
    portal: PortalAction,
    facing: Option<Direction>,   // the party turns this way and steps out of the room
    removeEncountered: bool,
    finishOuterTurn: bool)

  function Adjustment(x: Ending): Option<Karma>
  {
    if !x.winOrLose || x.encountered.None? then None
    else if x.won then (if x.encountered.value.kind.evil then Some(KilledEvil) else None)
    else if x.adjustKarma && x.encountered.value.kind.evil then Some(FledEvil)
    else if x.adjustKarma && x.encountered.value.kind.good then Some(FledGood)
    else None
  }

  /**
   * The outcome branching of `end`. A dead party starts the death sequence and
   * nothing else happens but removing the encountered creature; leaving an
   * altar room by advancing or retreating is an error.
   */
  function EndOutcome(x: Ending): (r: Result<EndReport, string>)
    ensures r.Failure? <==> !x.partyDead && x.dungeonRoom && x.altarRoom.Some? && (x.exitDir == Advance || x.exitDir == Retreat)
    ensures r.Success? ==> var e := r.value;
      && (e.deathSequence <==> x.partyDead)
      && (e.removeEncountered <==> x.encountered.Some?)
      && (e.finishOuterTurn <==> !x.partyDead && !x.outerIsCombat)
      && (e.victory <==> !x.partyDead && x.winOrLose && x.won)
      && (e.karma == Some(KilledEvil) <==> !x.partyDead && x.winOrLose && x.won && x.encountered.Some? && x.encountered.value.kind.evil)
      && (e.karma == Some(FledEvil) <==> !x.partyDead && x.winOrLose && !x.won && x.adjustKarma && x.encountered.Some? && x.encountered.value.kind.evil)
      && (e.karma == Some(FledGood) <==> !x.partyDead && x.winOrLose && !x.won && x.adjustKarma && x.encountered.Some?
                                         && !x.encountered.value.kind.evil && x.encountered.value.kind.good)
      && (e.loot == if e.victory && x.encountered.Some? then AwardLoot(x.encountered.value, x.site) else NoLoot)
      && (e.portal != ActionNone <==> !x.partyDead && x.dungeonRoom && x.altarRoom.Some? && DirectionOffset(x.exitDir).Some?)
      && (e.portal != ActionNone ==> ExitBlock(e.portal) == DirectionOffset(x.exitDir))
      && (e.facing.Some? <==> !x.partyDead && x.dungeonRoom && x.exitDir != DirNone)
  {
    if x.partyDead then
      Success(EndReport(true, None, false, NoLoot, ActionNone, None, x.encountered.Some?, false))
    else
      var victory := x.winOrLose && x.won;
      var loot := if victory && x.encountered.Some? then AwardLoot(x.encountered.value, x.site) else NoLoot;
      var portal := if x.dungeonRoom && x.altarRoom.Some? then ExitAction(x.exitDir) else Success(ActionNone);
      if portal.Failure? then Failure(portal.error)
      else
        ExitAgreesWithEntry(x.exitDir);
        var facing := if x.dungeonRoom && x.exitDir != DirNone then Some(x.exitDir) else None;
        Success(EndReport(false, Adjustment(x), victory, loot, portal.value, facing, x.encountered.Some?, !x.outerIsCombat))
  }

  /** A fight ends with at most one karma adjustment, and a fight that was fled never yields loot. */
  lemma EndKarmaExclusive(x: Ending)
    requires EndOutcome(x).Success?
    ensures EndOutcome(x).value.karma.Some? && EndOutcome(x).value.karma.value != KilledEvil ==> EndOutcome(x).value.loot == NoLoot
    ensures !x.adjustKarma ==> EndOutcome(x).value.karma != Some(FledEvil) && EndOutcome(x).value.karma != Some(FledGood)
    ensures !x.winOrLose ==> EndOutcome(x).value.karma.None? && !EndOutcome(x).value.victory
  {
  }
}
