# Ultima IV combat engine and Ultima 8 item-creation record, in Dafny

This project models two pieces of the ScummVM Ultima engines and proves properties about them.

**The Ultima IV combat controller** (`engines/ultima/ultima4/controllers/combat_controller.cpp`) runs a fight on a combat map. The model covers these operations:

- `init` and `initDungeonRoom` set up a fight: they reset its flags, fill the creature table and load a dungeon room's creatures and start cells.
- `initialNumberOfCreatures` and `fillCreatureTable` decide how many creatures an encounter starts with and which type each one is, by leader substitution.
- `placeCreatures`, `placePartyMembers`, `begin` and `setActivePlayer` put the combatants on the map and give the focus to the first member who can fight.
- `finishTurn` and `moveCreatures` cover the turn cycle: the focus moves from member to member and sleeping members may wake. Each time the focus wraps around, the creatures act once each in list order, and the fight is then checked for a loss (`isLost`) or a win (`isWon`).
- `attackHit`, `attackAt` and `attack` resolve an attack: a to-hit roll, a strike at one cell, the walk along the weapon's path, and the weapon-loss rule.
- `awardLoot` and `end` cover the end of a fight: the loot left behind, and the branching over death, karma, victory and leaving an altar room.
- The `CombatMap` queries `getCreatures`, `getPartyMembers`, `creatureAt`, `partyMemberAt` and `mapForTile`.

The controller and its creature table, start-cell tables, object list, roster and slots are modelled as a Dafny class:

- The fixed-size tables (16 creature slots, 8 party slots) are arrays that its methods update in place.
- The object list, roster and combat slots are sequence fields that its methods reassign.
- The loops of the source are methods with loop invariants, each proved against a specification function. The properties of those functions are proved as lemmas.

Randomness is a supplied sequence of draws. `xu4_random(n)` is `d % n` for the next draw `d`. An operation that runs out of draws reports it (`None`, `ok == false` or `Stalled`).

**The Ultima 8 `CreateItemProcess` record** (`engines/ultima/ultima8/world/create_item_process.cpp`) is ten fields that `saveData` writes and `loadData` reads back:

- shape and frame (32 bits each);
- quality, flags, NPC number and map number (16 bits each);
- extended flags (32 bits);
- x, y and z (signed 32-bit values).

Every field is written little-endian, and the signed coordinates go through their two's-complement pattern. The streams and the process are classes. The record's byte layout and both round trips are proved.

## Model

| member | source | states |
|---|---|---|
| Wrappers.Random | engines/ultima/ultima4/controllers/combat_controller.cpp:395 | `xu4_random(n)` yields a value in [0, n) |
| CombatTypes.TypeOfTile | engines/ultima/ultima4/controllers/combat_controller.cpp:204 | a tile maps to a creature type exactly when the catalogue registers it, and to the registered id |
| Population.FirstCount | engines/ultima/ultima4/controllers/combat_controller.cpp:421-428 | the first standard count lies in [2, 8], or in [s+1, 2s] after the reroll for encounter size s; two draws always suffice |
| Population.RerollRange | engines/ultima/ultima4/controllers/combat_controller.cpp:421-428 | a first count other than 1 (a draw not 0 from 8) gives [2, 8] using one draw; a count of 1 is rerolled into [s+1, 2s] for encounter size s > 0, or becomes 8 |
| Population.CapLoop | engines/ultima/ultima4/controllers/combat_controller.cpp:430-432 | a settled count never exceeds twice the party size |
| Population.CapLoopBounds | engines/ultima/ultima4/controllers/combat_controller.cpp:430-432 | a settled count is at least 1, and a count already within the cap is kept without a draw |
| Population.CapLoopNeverSettlesForEmptyParty | engines/ultima/ultima4/controllers/combat_controller.cpp:430-432 | with no party members the redraw loop never ends on its own |
| Population.CapLoopSettlesForFullParty | engines/ultima/ultima4/controllers/combat_controller.cpp:430-432 | with eight members at most one redraw is needed |
| Population.InitialCountBounds | engines/ultima/ultima4/controllers/combat_controller.cpp:414-441 | standard encounters give [1, 2·members] and never settle for an empty party; otherwise twice the party size for a guard and 1 for any other creature, with no draw used |
| Population.InitialNumberOfCreatures | engines/ultima/ultima4/controllers/combat_controller.cpp:414-441 | the loop computes exactly the count `InitialCount` specifies, and fails exactly when that runs out of draws |
| Population.BaseCreature | engines/ultima/ultima4/controllers/combat_controller.cpp:387-388 | a pirate is replaced by the rogue; any other creature is kept |
| Population.Recruit | engines/ultima/ultima4/controllers/combat_controller.cpp:398-406 | each placed creature is the base, its leader or its leader's leader; the last placement is always the base and uses no draw; the base skips the draws only when it is the catalogue's own entry and leads itself, since the engine compares the leader's entry with the base as objects |
| Controller.FreeSlot | engines/ultima/ultima4/controllers/combat_controller.cpp:393-396 | the slot found is free and below 16, and at least one draw is used |
| Controller.FreeSlotFirst | engines/ultima/ultima4/controllers/combat_controller.cpp:393-396 | the slot found is the one named by the first draw that names a free slot; the search fails exactly when no draw names one |
| Controller.CombatController.FindFreeSlot | engines/ultima/ultima4/controllers/combat_controller.cpp:393-396 | the retry loop returns what `FreeSlot` specifies |
| Controller.CombatController.FillSlots | engines/ultima/ultima4/controllers/combat_controller.cpp:390-410 | succeeds exactly when the fill `FillFrom` specifies from the old table succeeds, and then leaves that fill's table and slots; in every case it fills at most `count` distinct slots that were free, each with a recruit of the base, the last one the base, and changes no other slot |
| Controller.CombatController.FillFromFills | engines/ultima/ultima4/controllers/combat_controller.cpp:390-410 | a completed fill places exactly `count` creatures, in distinct slots that were free, each a recruit of the base, and leaves every other slot as it was |
| Controller.CombatController.FillFromExtends | engines/ultima/ultima4/controllers/combat_controller.cpp:398-408 | a fill only appends to the slots already placed: the slots it ends with begin with those |
| Controller.CombatController.FillFromEndsWithBase | engines/ultima/ultima4/controllers/combat_controller.cpp:398-408 | a completed fill with a creature still to place ends with exactly `count` slots, and the last slot it fills holds the base creature itself |
| Controller.CombatController.FillOfPlaces | engines/ultima/ultima4/controllers/combat_controller.cpp:380-412 | with no creature the table is untouched; otherwise a completed fill places as many creatures as `initialNumberOfCreatures` chose, in free slots, each a recruit of the base |
| Controller.CombatController.FillOfEndsWithBase | engines/ultima/ultima4/controllers/combat_controller.cpp:380-412 | when a creature was met and anything was placed, the last slot filled holds the encounter's base creature |
| Controller.CombatController.FillCreatureTable | engines/ultima/ultima4/controllers/combat_controller.cpp:380-412 | succeeds exactly when `FillOf` from the old table succeeds, and then leaves that fill; without a creature nothing is placed; otherwise the number placed is the initial count, in distinct formerly free slots, with the last one the base creature and every other slot unchanged |
| Controller.DistinctBelow | engines/ultima/ultima4/controllers/combat_controller.cpp:390-396 | distinct slot numbers below 16 are at most 16, so the table never holds more creatures than slots |
| Controller.CombatController.ClearCreatureTable | engines/ultima/ultima4/controllers/combat_controller.cpp:160-162 | every creature slot is empty |
| Controller.CombatController.ResetFlags | engines/ultima/ultima4/controllers/combat_controller.cpp:150-157 | the fight's flags take the values `init` gives them; creatures are placed exactly when a creature was encountered |
| Controller.CombatController.Init | engines/ultima/ultima4/controllers/combat_controller.cpp:147-173 | flags reset, eight empty combat slots appended, the focus at slot 0, and the table the fill `FillOf` specifies from an empty table, `ok` telling exactly whether that fill succeeded, with every unplaced slot empty |
| Rooms.AltarRoomFor | engines/ultima/ultima4/controllers/combat_controller.cpp:191-198 | an altar room is entered exactly at room 0xF outside the Abyss: Love at x = 3, Truth at x ≤ 2, Courage further east |
| Controller.CombatController.LoadRoomFlags | engines/ultima/ultima4/controllers/combat_controller.cpp:186-198 | a dungeon room has no win-or-lose ending and no exit yet, and its altar is the one `AltarRoomFor` chooses |
| Controller.CombatController.LoadRoomCreatures | engines/ultima/ultima4/controllers/combat_controller.cpp:201-208 | every slot with a tile takes that tile's creature type; creatures are placed exactly when some tile is set; every start cell takes the room's X and Y |
| Rooms.DirectionOffset | engines/ultima/ultima4/controllers/combat_controller.cpp:211-228 | each compass side has a block below 4; no direction, advance and retreat have none |
| Rooms.OffsetRoundTrip | engines/ultima/ultima4/controllers/combat_controller.cpp:211-228 | the side-to-block table is a bijection between the four sides and [0, 4) |
| Rooms.PartyStartX | engines/ultima/ultima4/controllers/combat_controller.cpp:232 | the X byte of a party start lies within the room's 64 party-start bytes |
| Rooms.PartyStartY | engines/ultima/ultima4/controllers/combat_controller.cpp:233 | the Y byte of a party start lies within the room's 64 party-start bytes |
| Rooms.PartyStartIndicesDistinct | engines/ultima/ultima4/controllers/combat_controller.cpp:230-234 | different (side, slot, coordinate) triples read different bytes, and none reads past the record |
| Controller.CombatController.LoadPartyStarts | engines/ultima/ultima4/controllers/combat_controller.cpp:231-234 | each party start cell takes the X and Y bytes of the entry block |
| Controller.CombatController.InitDungeonRoom | engines/ultima/ultima4/controllers/combat_controller.cpp:175-236 | `init` without a creature, then the room's flags, altar and creatures; the party starts come from the side entered, and entering other than from a compass side fails with the party starts untouched |
| Controller.SpawnCoversOccupied | engines/ultima/ultima4/controllers/combat_controller.cpp:475-483 | every occupied table slot yields a creature of its type at its start cell |
| Controller.SpawnOnlyOccupied | engines/ultima/ultima4/controllers/combat_controller.cpp:475-483 | nothing but the creatures of occupied slots, at their start cells, is added |
| Controller.CombatController.PlaceCreatures | engines/ultima/ultima4/controllers/combat_controller.cpp:475-483 | the map gains exactly `Spawn`'s creatures, in slot order, with fresh distinct identities |
| Controller.PlacementsExactlyLiving | engines/ultima/ultima4/controllers/combat_controller.cpp:490-501 | exactly the roster members who are not dead are placed, each at its own slot's start cell |
| Controller.PlacementsNoCreature | engines/ultima/ultima4/controllers/combat_controller.cpp:485-503 | placing the party adds no creature |
| Controller.JoinedSlots | engines/ultima/ultima4/controllers/combat_controller.cpp:495-501 | a combat slot is taken afterwards exactly when it was taken before or holds a member who is not dead |
| Controller.CombatController.PlacePartyMembers | engines/ultima/ultima4/controllers/combat_controller.cpp:485-503 | the map gains exactly `Placements`' members, and the combat slots become `Joined`'s |
| Controller.CombatController.SetActivePlayer | engines/ultima/ultima4/controllers/combat_controller.cpp:505-521 | the focus moves to the slot exactly when its member is in the fight and able; otherwise it stays |
| Controller.CombatController.PlaceFlagged | engines/ultima/ultima4/controllers/combat_controller.cpp:252-258 | the party, then the creatures, join the map as the two flags say |
| Controller.CombatController.FocusFirstAble | engines/ultima/ultima4/controllers/combat_controller.cpp:276-282 | the party is ready exactly when some slot can fight; the focus is then the first such slot |
| Controller.CombatController.Begin | engines/ultima/ultima4/controllers/combat_controller.cpp:249-287 | placement as flagged and the focus on the first able slot; the party is ready exactly when some member can fight; when no one can and the party is not camping, the combat's own turn is finished, ending exactly as `FinishTurnOf` specifies from the placed map |
| Controller.CombatController.IsWon | engines/ultima/ultima4/controllers/combat_controller.cpp:443-448 | won exactly when no creature stands on the map |
| Controller.CombatController.IsLost | engines/ultima/ultima4/controllers/combat_controller.cpp:450-455 | lost exactly when no party member stands on the map |
| CombatMap.GetCreatures | engines/ultima/ultima4/controllers/combat_controller.cpp:1139-1147 | the creatures of the object list, and only those |
| CombatMap.GetPartyMembers | engines/ultima/ultima4/controllers/combat_controller.cpp:1149-1157 | the party members of the object list, and only those |
| CombatMap.GetCreaturesAppend | engines/ultima/ultima4/controllers/combat_controller.cpp:1139-1147 | the creature list of a joined object list is the join of the two creature lists, in order |
| CombatMap.GetPartyMembersAppend | engines/ultima/ultima4/controllers/combat_controller.cpp:1149-1157 | the same for party members |
| CombatMap.FirstAt | engines/ultima/ultima4/controllers/combat_controller.cpp:1163-1167 | the object found stands on the cell; none is found exactly when nothing stands there |
| CombatMap.FirstAtIsFirst | engines/ultima/ultima4/controllers/combat_controller.cpp:1174-1178 | the object found is the first on the cell in list order |
| CombatMap.CreatureAt | engines/ultima/ultima4/controllers/combat_controller.cpp:1170-1179 | a creature on the cell, or none exactly when no creature stands there |
| CombatMap.PartyMemberAt | engines/ultima/ultima4/controllers/combat_controller.cpp:1159-1168 | a party member on the cell, or none exactly when no member stands there |
| CombatMap.RemoveCreature | engines/ultima/ultima4/controllers/combat_controller.cpp:589-593 | exactly that creature's identity leaves the map, and the party members stay |
| CombatMap.MoveCreature | engines/ultima/ultima4/controllers/combat_controller.cpp:466 | a creature moving keeps the creature list and the party members |
| CombatMap.RemoveMember | engines/ultima/ultima4/controllers/combat_controller.cpp:466 | exactly that slot's member leaves the map, and the creatures stay |
| CreatureMoves.ApplyActEffect | engines/ultima/ultima4/controllers/combat_controller.cpp:466 | an action removes exactly the creature it names, keeps the roster's size, changes a member only by slaying, poisoning or putting it to sleep, and brings no one onto the map |
| CreatureMoves.MoveFrom | engines/ultima/ultima4/controllers/combat_controller.cpp:463-472 | the pass uses a prefix of the outcomes, keeps the roster's size, and completes only by reaching the end of the list or using outcomes |
| CreatureMoves.MoveFromIncomplete | engines/ultima/ultima4/controllers/combat_controller.cpp:463-472 | a pass stops short only when it has used up the outcomes |
| CreatureMoves.PassFrom | engines/ultima/ultima4/controllers/combat_controller.cpp:463-472 | from any index, the pass never lets a creature act twice, never skips one still on the map, lets only listed creatures act, and completes when the outcomes suffice |
| CreatureMoves.EveryCreatureActsOnce | engines/ultima/ultima4/controllers/combat_controller.cpp:457-473 | a completed round leaves every remaining creature having acted exactly once, even when creatures leave the list mid-pass; one outcome per creature always completes it |
| CreatureMoves.PassOnlyHarms | engines/ultima/ultima4/controllers/combat_controller.cpp:463-472 | the pass changes party members only by slaying, poisoning or putting them to sleep, and adds no party member |
| Controller.RoundKeeps | engines/ultima/ultima4/controllers/combat_controller.cpp:457-473 | a round keeps creature identities distinct and known, keeps each member's weapon and bonus and the dead dead, and brings no one onto the map |
| Controller.CombatController.MoveCreatures | engines/ultima/ultima4/controllers/combat_controller.cpp:457-473 | the index-adjusting loop ends in exactly the state `CreatureRound` specifies |
| Controller.CombatController.PassFocus | engines/ultima/ultima4/controllers/combat_controller.cpp:726-746 | a sleeping member wakes on a draw of 0 from 8; the focus moves to the next slot, wrapping to 0 after the last |
| Controller.CombatController.FocusStep | engines/ultima/ultima4/controllers/combat_controller.cpp:723-790 | one pass of the focus loop ends in exactly the state and stop `TurnStep` specifies |
| Controller.TurnStepEnds | engines/ultima/ultima4/controllers/combat_controller.cpp:723-790 | a step stops at a `Ready` member and otherwise leaves the focus on one who is not; after a creature round a loss is reported before a win, and a win only with win-or-lose; it stalls only when the draws or the outcomes run out; the focus moves to the next slot, wrapping to 0 exactly with a creature round, and without a round the map and outcomes are unchanged |
| Controller.FocusWalkEnds | engines/ultima/ultima4/controllers/combat_controller.cpp:723-790 | a walk ends on a `Ready` member, or on a loss or a win only after a creature round, a win only with win-or-lose and no loss; it stalls only when the fuel, draws or outcomes run out; it never gives the same member another turn; without a round the map and outcomes are unchanged and the new focus lies past the old |
| Controller.WalkStopsAtFirstReady | engines/ultima/ultima4/controllers/combat_controller.cpp:723-790 | a walk that stops without a creature round stops at the first slot past the old focus whose member can fight, passing only members who cannot, and never when an able active player below the focus overrides |
| Controller.WalkReachesReady | engines/ultima/ultima4/controllers/combat_controller.cpp:723-790 | when some member past the old focus can fight and no able active player overrides, a walk that does not stall stops at such a member before any creature round |
| Controller.WalkKeeps | engines/ultima/ultima4/controllers/combat_controller.cpp:723-790 | a walk keeps creature identities distinct and below the next identity, changes the roster only as a turn may, and brings no one onto the map |
| Controller.CombatController.WalkStep | engines/ultima/ultima4/controllers/combat_controller.cpp:723-790 | one pass of the do-while: the walk from the old state either stops here with the outcome and round count returned, or is the walk of one step less from the new state |
| Controller.CombatController.RunFocusWalk | engines/ultima/ultima4/controllers/combat_controller.cpp:723-790 | the do-while loop ends in exactly the state, outcome and round count `FocusWalk` specifies |
| Controller.CombatController.WalkFocus | engines/ultima/ultima4/controllers/combat_controller.cpp:723-800 | the walk ends as `FocusWalk` specifies, and the focus stays on the member found; without a creature round the new focus lies past the old; the roster changes only as a turn may and no one joins the map |
| Controller.CombatController.FinishTurn | engines/ultima/ultima4/controllers/combat_controller.cpp:700-802 | ends in exactly the state and outcome `FinishTurnOf` specifies; a win with win-or-lose ends at once with nothing changed; the same member goes again, with nothing changed, exactly when quickness, a draw of 0 from 2 and an able member in focus coincide; a continued turn has an able member in focus with no able active player overriding; a loss is reported only after a creature round |
| Controller.FinishTurnOf | engines/ultima/ultima4/controllers/combat_controller.cpp:700-802 | a win with win-or-lose ends at once with nothing changed; the same member goes again exactly when quickness, a draw of 0 from 2 and an able member in focus coincide, changing nothing; otherwise the walk's end: a `Ready` member, a loss after a round, a win only with win-or-lose, or a stall only for want of fuel, draws or outcomes |
| Attack.HitPossibleIff | engines/ultima/ultima4/controllers/combat_controller.cpp:542-550 | some roll hits exactly when the defense is below 255 plus the bonus |
| Attack.NeverHitsHighDefense | engines/ultima/ultima4/controllers/combat_controller.cpp:546-549 | without a bonus a defense of 255 or more is never beaten |
| Attack.HitMonotone | engines/ultima/ultima4/controllers/combat_controller.cpp:546-549 | a larger bonus hits on every roll a smaller one hits on |
| Attack.StrikeAt | engines/ultima/ultima4/controllers/combat_controller.cpp:552-597 | no target without a creature or at the wrong range for an absolute-range weapon; otherwise a mundane weapon in the Abyss misses without a draw, and a hit is decided by the to-hit roll |
| Attack.AbyssMundaneMisses | engines/ultima/ultima4/controllers/combat_controller.cpp:576-577 | a weapon that is not magic always misses in the Abyss |
| Attack.WalkFromFinds | engines/ultima/ultima4/controllers/combat_controller.cpp:1089-1104 | the walk strikes the first targetable cell of the path exactly as a strike there would; with none, it covers the whole path and uses no draw |
| Controller.CombatController.WalkAlong | engines/ultima/ultima4/controllers/combat_controller.cpp:1095-1104 | the loop over the path computes what `WalkPath` specifies |
| Attack.ChosenRange | engines/ultima/ultima4/controllers/combat_controller.cpp:1066-1077 | the weapon's range, or a typed digit in [1, range] for a weapon whose distance can be chosen; anything else abandons |
| Attack.WeaponLossRules | engines/ultima/ultima4/controllers/combat_controller.cpp:1106-1111 | always lost if lost when used; lost when thrown on a miss or a target beyond one cell; otherwise kept |
| Controller.CombatController.Attack | engines/ultima/ultima4/controllers/combat_controller.cpp:1051-1128 | abandoned exactly for no direction or a bad range; otherwise the strike, distance and weapon loss of the path walk, and a slain victim leaves the map |
| Lifecycle.AwardLoot | engines/ultima/ultima4/controllers/combat_controller.cpp:523-540 | a chest where a chest fits; failing that, a ship with the same facing for a pirate ship; otherwise nothing |
| Rooms.ExitAction | engines/ultima/ultima4/controllers/combat_controller.cpp:335-355 | advance and retreat are an error; no direction means no portal |
| Rooms.ExitAgreesWithEntry | engines/ultima/ultima4/controllers/combat_controller.cpp:335-355 | the portal side left by matches the start block entered by |
| Lifecycle.EndOutcome | engines/ultima/ultima4/controllers/combat_controller.cpp:289-378 | death sequence exactly for a dead party; the error exactly for an altar room left by advance or retreat; victory and each karma change exactly under their branches; the loot is exactly the award for a won fight with loot, a portal is used exactly when a living party leaves an altar room by a compass side, through the exit block of that side, and the facing is set exactly when a dungeon room is left in some direction |
| Lifecycle.EndKarmaExclusive | engines/ultima/ultima4/controllers/combat_controller.cpp:309-326 | a fled fight never yields loot; no flight karma without `adjustKarma`; nothing without win-or-lose |
| Controller.CombatController.EndingOf | engines/ultima/ultima4/controllers/combat_controller.cpp:293-304 | the party is dead when every member is; the fight is won when no creature is left |
| TileMaps.MapForTile | engines/ultima/ultima4/controllers/combat_controller.cpp:1181-1254 | dungeon maps exactly in dungeons: the dungeon-table entry for the ground tile whenever it has one, otherwise map 0; outside, the base-table entry or the brick map whenever no ship or shore map is chosen |
| TileMaps.ShipSituations | engines/ultima/ultima4/controllers/combat_controller.cpp:1228-1248 | a ship fighting a pirate ship always gets the ship-to-ship map; a ship map is chosen exactly when a ship is on both sides, or a ship is on either side of a known opponent; a known opponent on water gets a ship or shore map; with no ship and no water, whether the opponent is known does not matter |
| TileMaps.DungeonTileOnSurface | engines/ultima/ultima4/controllers/combat_controller.cpp:1250-1253 | a dungeon tile on the surface, with no ship and no water involved, gets the brick map |
| ItemProcess.TwosComplement | engines/ultima/ultima8/world/create_item_process.cpp:73-90 | the signed and unsigned casts are inverse bijections that keep the value modulo 2^32; negative values have the top bit set |
| ItemProcess.LE16RoundTrip | engines/ultima/ultima8/world/create_item_process.cpp:68-84 | a 16-bit value read back where it was written is the value |
| ItemProcess.LE32RoundTrip | engines/ultima/ultima8/world/create_item_process.cpp:66-81 | a 32-bit value read back where it was written is the value |
| ItemProcess.Read16Encodes | engines/ultima/ultima8/world/create_item_process.cpp:83-86 | any two bytes are the encoding of the value read from them |
| ItemProcess.Read32Encodes | engines/ultima/ultima8/world/create_item_process.cpp:81-90 | any four bytes are the encoding of the value read from them |
| ItemProcess.LittleEndian | engines/ultima/ultima8/world/create_item_process.cpp:66-75 | the least significant byte is written first and the most significant last |
| ItemProcess.Encode | engines/ultima/ultima8/world/create_item_process.cpp:63-76 | the record is 32 bytes |
| ItemProcess.Layout | engines/ultima/ultima8/world/create_item_process.cpp:66-75 | the byte offsets of the ten fields: 0, 4, 8, 10, 12, 14, 16, 20, 24, 28 |
| ItemProcess.DecodeEncode | engines/ultima/ultima8/world/create_item_process.cpp:63-92 | loading what was saved restores all ten fields, negative coordinates included, wherever the record sits in the stream |
| ItemProcess.EncodeDecode | engines/ultima/ultima8/world/create_item_process.cpp:78-92 | saving what was loaded rewrites the same 32 bytes |
| ItemProcess.CreateItemProcess.constructor | engines/ultima/ultima8/world/create_item_process.cpp:39-48 | each argument is stored into its field unchanged |
| ItemProcess.CreateItemProcess.SaveData | engines/ultima/ultima8/world/create_item_process.cpp:63-76 | appends exactly the record of the fields to the stream |
| ItemProcess.ReadFields | engines/ultima/ultima8/world/create_item_process.cpp:81-90 | with 32 bytes left, the ten reads yield the record's decoding and advance by 32 |
| ItemProcess.CreateItemProcess.LoadData | engines/ultima/ultima8/world/create_item_process.cpp:78-92 | fails, touching nothing, exactly when the base data failed to load; otherwise succeeds with the fields decoded from the stream |
| ItemProcess.SaveLoadRoundTrip | engines/ultima/ultima8/world/create_item_process.cpp:63-92 | a process saved and loaded into another comes back with the same ten fields |

## Left out

- Screen messages, sounds, music, tile flashes, stats highlighting, the member focus markers, the controller stack (`pushController`/`popController`) and key input are presentation or user interface, and are not modelled. `attack`'s direction and range prompts become the parameters `dir` and `choice`.
- `xu4_random` is not modelled. Its draws are supplied. When they run out, an operation reports it rather than looping.
  - This also covers the free-slot loop of `fillCreatureTable` and the cap loop of `initialNumberOfCreatures`, which the source retries without bound. With no party members the cap loop never settles (`CapLoopNeverSettlesForEmptyParty`).
- `Creature::act` is not part of this model. Each creature action's effect on the map is supplied as an `ActOutcome`: hold, move, flee, slay a creature, or slay a party member.
- `PartyMember::dealDamage` is not part of this model. Whether a hit slays its victim is the parameter `slays`, and a slain victim leaves the map.
- `gameGetDirectionalActionPath` is not part of this model. The path of cells the weapon travels is the parameter `path`.
- Tile effects are not modelled. This covers `applyEffect` on the focused member, `applyCreatureTileEffects`, and the annotation a weapon leaves behind.
- Food, `Party::endTurn`, the aura countdown and annotation turns in `finishTurn` are not modelled. The quickness aura is the parameter `quickness`.
- `loseWeapon` and `returnWeaponToOwner` are not modelled. `attack` reports whether the weapon is lost, but does not change the inventory.
- `end`'s effects on the game are reported in an `EndReport`: the death sequence, karma, victory, loot, portal, facing, removal of the encountered creature and finishing the outer turn. Leaving to the parent map, `usePortalAt` and the step out of the room are not performed.
- `Controller.CombatController.InitDungeonRoom`: the `error()` abort for a bad entry side is modelled as `ok == false`. The assertion that the previous location is a dungeon (line 179) is not modelled.
- `Controller.CombatController.Attack`: the target cell and its "Missed!" handling are not modelled, and neither are the attack's `dir` argument to `attackAt` (unused there) and the weapon's travel display.
- `Controller.CombatController.WalkFocus`: the source's focus loop may run without bound while every member sleeps. A `fuel` bound limits its steps, and `Stalled` reports that the fuel, the draws or the creature outcomes ran out.
- `Controller.Joined`: the function's own contract states only the size of the slot list. `JoinedSlots` states what each slot holds.
- The creature manager is a catalogue of types indexed by id, plus a map from tiles to ids. Creatures and party members are values on the object list: creatures carry an identity number in place of object identity, and members carry their roster slot. A party member is never listed as a creature, as `getCreatures` ensures by skipping party members.
- `begin` marking the location's context as an altar room is not modelled.
- `rangedAttack` is not part of this model, but its poison and sleep effects on a party member (a draw of 0 from 2 poisons a member not yet poisoned, or puts one to sleep) are supplied, already decided, as the `Afflict` outcome of a creature action.
- Damage short of death is not modelled: a member's hit points are not part of `Member`.
- `Controller.RoundKeeps`: of a member's status it promises only that the dead stay dead, since a round may also poison, put to sleep or slay.
- `Controller.WalkStopsAtFirstReady`: covers an active player below the old focus, or none (a negative one). An active player at or past the focus is covered only by `Controller.FocusWalkEnds`, which says the member found is `Ready`.
- `Controller.WalkReachesReady`: the same restriction on the active player as `Controller.WalkStopsAtFirstReady`.
- `Controller.WalkStopsAtFirstReady`: the first able slot is stated only for the stretch of the walk before the focus wraps around. After a creature round the walk restarts at slot 0 on a changed roster; there `Controller.FocusWalkEnds` states only that the member found is `Ready`.
- `mapForTile` receives the facts it looks up as booleans in a `Situation`: the transport, the object under the party, the opponent's tile type and kind, and the water under the opponent.
- The constructors, `rangedAttack`, `rangedMiss`, `movePartyMember`, `keyPressed` and `update` of the combat controller are not part of this model.
- The encounter-size reroll gives `random(s) + s + 1`, that is [s+1, 2s], as the code computes. The model follows the code where a looser description would say [s, 2s].
- `CreateItemProcess::run` is not part of this model. It calls into `ItemFactory` and `Item::move`.
- The base `Process::saveData` and `Process::loadData` are not part of this model. `SaveData` writes only the process's own record, and the base load's outcome is the parameter `baseLoaded`. The `version` argument is unused by the source and left out.
- The default constructor is left out: it leaves the ten fields uninitialised in C++.
- The value a stream read returns past the end of its data is not modelled. The model sets `eos` and stops at the end.
- `Common::WriteStream` and `Common::ReadStream` are not part of this model. Only the little-endian writes and reads the record uses are modelled.
