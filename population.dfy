/**
 * How many creatures an encounter starts with, and which type each placed
 * creature takes (`CombatController::initialNumberOfCreatures` and the choice
 * made for each placement in `CombatController::fillCreatureTable`).
 *
 * Every `xu4_random` call consumes the next supplied draw; a computation that
 * runs out of draws yields `None`.
 */
module Population {
  import opened Wrappers
  import opened CombatTypes

  /**
   * Where the fight happens: a forced standard encounter size, the previous
   * map being the world map, or the previous location being a dungeon.
   */
  datatype EncounterContext = EncounterContext(forceStandard: bool, worldMap: bool, prevInDungeon: bool)

  /** The situations in which the count is drawn rather than fixed. */
  predicate Standard(ctx: EncounterContext)
  {
    ctx.forceStandard || ctx.worldMap || ctx.prevInDungeon
  }

  /**
   * The first count of a standard encounter: `random(8) + 1`, replaced on a 1
   * by `random(s) + s + 1` for a creature of encounter size `s > 0`, or by 8.
   */
  function FirstCount(kind: CreatureType, draws: seq<nat>): (r: Option<Drawn<nat>>)
    ensures r.Some? ==> Consumes(r.value.rest, draws) && |r.value.rest| < |draws|
    ensures r.Some? ==> 2 <= r.value.value <= 8 || kind.encounterSize + 1 <= r.value.value <= 2 * kind.encounterSize
    ensures |draws| >= 2 ==> r.Some?
  {
    if draws == [] then None
    else
      var n := Random(draws[0], 8) + 1;
      if n != 1 then Some(Drawn(n, draws[1..]))
      else if kind.encounterSize > 0 then
        if |draws| < 2 then None
        else Some(Drawn(Random(draws[1], kind.encounterSize) + kind.encounterSize + 1, draws[2..]))
      else Some(Drawn(8, draws[1..]))
  }

  /**
   * On a first draw of 1 the count is rerolled from the encounter size into
   * [s + 1, 2s], or set to 8 for a creature without a positive encounter size;
   * any other first draw gives a count in [2, 8].
   */
  lemma RerollRange(kind: CreatureType, draws: seq<nat>)
    requires |draws| >= 2
    ensures var n := FirstCount(kind, draws).value.value;
      && (draws[0] % 8 != 0 ==> 2 <= n <= 8 && FirstCount(kind, draws).value.rest == draws[1..])
      && (draws[0] % 8 == 0 && kind.encounterSize > 0 ==> kind.encounterSize + 1 <= n <= 2 * kind.encounterSize)
      && (draws[0] % 8 == 0 && kind.encounterSize == 0 ==> n == 8)
  {
  }

  /** The cap loop: while the count exceeds twice the party size, it is redrawn as `random(16) + 1`. */
  function CapLoop(n: nat, members: nat, draws: seq<nat>): (r: Option<Drawn<nat>>)
    ensures r.Some? ==> r.value.value <= 2 * members && Consumes(r.value.rest, draws)
    decreases |draws|
  {
    if n <= 2 * members then Some(Drawn(n, draws))
    else if draws == [] then None
    else CapLoop(Random(draws[0], 16) + 1, members, draws[1..])
  }

  /** A count the cap loop settles on is at least 1, and a count already within the cap is kept. */
  lemma {:induction false} CapLoopBounds(n: nat, members: nat, draws: seq<nat>)
    requires n >= 1
    ensures var r := CapLoop(n, members, draws);
      && (r.Some? ==> 1 <= r.value.value <= 2 * members)
      && (n <= 2 * members ==> r == Some(Drawn(n, draws)))
    decreases |draws|
  {
    if n > 2 * members && draws != [] {
      CapLoopBounds(Random(draws[0], 16) + 1, members, draws[1..]);
    }
  }

  /** With no party members the cap loop never settles: it only stops when the draws run out. */
  lemma {:induction false} CapLoopNeverSettlesForEmptyParty(n: nat, draws: seq<nat>)
    requires n >= 1
    ensures CapLoop(n, 0, draws).None?
    decreases |draws|
  {
    if draws != [] {
      CapLoopNeverSettlesForEmptyParty(Random(draws[0], 16) + 1, draws[1..]);
    }
  }

  /** With a full party of eight every redraw fits under the cap, so one draw settles it. */
  lemma CapLoopSettlesForFullParty(n: nat, members: nat, draws: seq<nat>)
    requires members >= 8 && |draws| >= 1
    ensures CapLoop(n, members, draws).Some?
    ensures |CapLoop(n, members, draws).value.rest| >= |draws| - 1
  {
  }

  /** The number of creatures an encounter with `kind` starts with. */
  function InitialCount(ctx: EncounterContext, kind: CreatureType, guardId: nat, members: nat, draws: seq<nat>): Option<Drawn<nat>>
  {
    if Standard(ctx) then
      match FirstCount(kind, draws)
      case None => None
      case Some(first) => CapLoop(first.value, members, first.rest)
    else Some(Drawn(if kind.id == guardId then members * 2 else 1, draws))
  }

  /**
   * In a standard encounter the count lies in [1, 2 * members]; with no party
   * members it is never settled. Otherwise it is twice the party size for a
   * guard and 1 for any other creature, and no draw is used.
   */
  lemma InitialCountBounds(ctx: EncounterContext, kind: CreatureType, guardId: nat, members: nat, draws: seq<nat>)
    ensures var r := InitialCount(ctx, kind, guardId, members, draws);
      && (r.Some? ==> Consumes(r.value.rest, draws))
      && (Standard(ctx) && r.Some? ==> 1 <= r.value.value <= 2 * members)
      && (Standard(ctx) && members == 0 ==> r.None?)
      && (!Standard(ctx) && kind.id == guardId ==> r == Some(Drawn(2 * members, draws)))
      && (!Standard(ctx) && kind.id != guardId ==> r == Some(Drawn(1, draws)))
  {
    if Standard(ctx) {
      var first := FirstCount(kind, draws);
      if first.Some? {
        CapLoopBounds(first.value.value, members, first.value.rest);
        if members == 0 {
          CapLoopNeverSettlesForEmptyParty(first.value.value, first.value.rest);
        }
        var r := CapLoop(first.value.value, members, first.value.rest);
        if r.Some? {
          ConsumesTrans(r.value.rest, first.value.rest, draws);
        }
      }
    }
  }

  /**
   * `CombatController::initialNumberOfCreatures`. Returns `ok == false` when the
   * draws run out before the count settles.
   */
  method InitialNumberOfCreatures(ctx: EncounterContext, kind: CreatureType, guardId: nat, members: nat, draws: seq<nat>)
    returns (n: nat, rest: seq<nat>, ok: bool)
    ensures ok <==> InitialCount(ctx, kind, guardId, members, draws).Some?
    ensures ok ==> InitialCount(ctx, kind, guardId, members, draws) == Some(Drawn(n, rest))
  {
    rest := draws;
    if !Standard(ctx) {
      if kind.id == guardId {
        n := members * 2;
      } else {
        n := 1;
      }
      return n, rest, true;
    }
    if |rest| == 0 {
      return 0, rest, false;
    }
    n := Random(rest[0], 8) + 1;
    rest := rest[1..];
    if n == 1 {
      if kind.encounterSize > 0 {
        if |rest| == 0 {
          return 0, rest, false;
        }
        n := Random(rest[0], kind.encounterSize) + kind.encounterSize + 1;
        rest := rest[1..];
      } else {
        n := 8;
      }
    }
    assert FirstCount(kind, draws) == Some(Drawn(n, rest));
    while n > 2 * members
      invariant CapLoop(n, members, rest) == InitialCount(ctx, kind, guardId, members, draws)
      decreases |rest|
    {
      if |rest| == 0 {
        return 0, rest, false;
      }
      n := Random(rest[0], 16) + 1;
      rest := rest[1..];
    }
    ok := true;
  }

  /** A catalogue entry: the type registered under its own id. */
  predicate Known(cat: Catalogue, t: CreatureType)
  {
    t.id < |cat.types| && cat.types[t.id] == t
  }

  /** The creature encountered, with a rogue standing in for a pirate. */
  function BaseCreature(cat: Catalogue, encountered: CreatureType): (b: CreatureType)
    requires WellFormed(cat) && Known(cat, encountered)
    ensures Known(cat, b)
    ensures encountered.id == cat.pirateId ==> b.id == cat.rogueId
    ensures encountered.id != cat.pirateId ==> b == encountered
  {
    if encountered.id == cat.pirateId then cat.types[cat.rogueId] else encountered
  }

  /**
   * The type of one placed creature. Unless this is the last placement or the
   * base creature is its own leader, a draw of 0 from 32 recruits the
   * leader's leader, and otherwise a draw of 0 from 8 recruits the leader.
   * The engine asks whether the base is its own leader by comparing the
   * catalogue's entry for the leader with the base creature as objects, so
   * the answer is yes only when the base is itself the catalogue's entry
   * (`baseIsEntry`) and leads itself; a creature taken from the outer map is
   * never the same object, so it always draws.
   */
  function Recruit(cat: Catalogue, base: CreatureType, baseIsEntry: bool, last: bool, draws: seq<nat>): (r: Option<Drawn<CreatureType>>)
    requires WellFormed(cat) && Known(cat, base)
    ensures r.Some? ==> Known(cat, r.value.value) && Consumes(r.value.rest, draws)
    ensures r.Some? ==> var t := r.value.value;
      t == base || t == cat.types[base.leader] || t == cat.types[cat.types[base.leader].leader]
    ensures last || (baseIsEntry && base.leader == base.id) ==> r == Some(Drawn(base, draws))
    ensures !last && !(baseIsEntry && base.leader == base.id) ==>
      && (r.Some? ==> |r.value.rest| < |draws|)
      && (|draws| >= 2 ==> r.Some?)
      && (r.None? <==> draws == [] || (|draws| == 1 && Random(draws[0], 32) != 0))
  {
    var leader := cat.types[base.leader];
    if last || (baseIsEntry && base.leader == base.id) then Some(Drawn(base, draws))
    else if draws == [] then None
    else if Random(draws[0], 32) == 0 then Some(Drawn(cat.types[leader.leader], draws[1..]))
    else if |draws| < 2 then None
    else if Random(draws[1], 8) == 0 then Some(Drawn(leader, draws[2..]))
    else Some(Drawn(base, draws[2..]))
  }
}
