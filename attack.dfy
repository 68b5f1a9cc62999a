/**
 * Attack resolution of a party member's turn: the to-hit roll
 * (`CombatController::attackHit`), the strike at one cell (`attackAt`), the
 * walk along the weapon's path and the weapon-loss rule of `attack`.
 */
module Attack {
  import opened Wrappers
  import opened CombatTypes
  import opened CombatMap

  /** `attackHit`: the roll `random(256)` plus the attack bonus must exceed the defense. */
  function AttackHit(draw: nat, bonus: int, defense: int): bool
  {
    Random(draw, 256) + bonus > defense
  }

  /** Some roll hits exactly when the defense is below the best roll, 255, plus the bonus. */
  lemma HitPossibleIff(bonus: int, defense: int)
    ensures (exists d: nat :: AttackHit(d, bonus, defense)) <==> defense < 255 + bonus
  {
    if defense < 255 + bonus {
      assert AttackHit(255, bonus, defense);
    } else {
      forall d: nat ensures !AttackHit(d, bonus, defense) {
        assert Random(d, 256) <= 255;
      }
    }
  }

  /** Without an attack bonus a defense of 255 or more is never beaten. */
  lemma NeverHitsHighDefense(draw: nat, defense: int)
    requires defense >= 255
    ensures !AttackHit(draw, 0, defense)
  {
  }

  /** A larger bonus hits on every roll a smaller one hits on. */
  lemma HitMonotone(draw: nat, bonus: int, more: int, defense: int)
    requires bonus <= more && AttackHit(draw, bonus, defense)
    ensures AttackHit(draw, more, defense)
  {
  }

  /** What a strike at one cell found: nothing to attack, a miss, or a hit on the creature `victim`. */
  datatype Strike = NoTarget | Missed(victim: nat) | Struck(victim: nat)

  /**
   * The cell holds a creature, and the weapon is not one that must strike at
   * exactly the chosen range while being tested at another distance.
   */
  predicate Targetable(objs: seq<MapObject>, c: Coords, w: Weapon, range: nat, distance: nat)
  {
    CreatureAt(objs, c).Some? && !(w.rangeAbsolute && distance != range)
  }

  /**
   * `attackAt` at cell `c`, `distance` cells away from the attacker. The to-hit
   * draw is used only when there is a target and the weapon is not a mundane
   * one swung in the Abyss.
   */
  function StrikeAt(objs: seq<MapObject>, c: Coords, w: Weapon, range: nat, distance: nat,
                    prevIsAbyss: bool, bonus: int, draws: seq<nat>): (r: Option<Drawn<Strike>>)
    ensures r.None? <==> Targetable(objs, c, w, range, distance) && !(prevIsAbyss && !w.magic) && draws == []
    ensures r.Some? ==> (r.value.value.NoTarget? <==> !Targetable(objs, c, w, range, distance))
    ensures r.Some? && r.value.value.NoTarget? ==> r.value.rest == draws
    ensures r.Some? && !r.value.value.NoTarget? ==>
      var t := CreatureAt(objs, c).value;
      && r.value.value.victim == t.uid
      && (r.value.value.Struck? <==> !(prevIsAbyss && !w.magic) && AttackHit(draws[0], bonus, t.kind.defense))
    ensures r.Some? ==> Consumes(r.value.rest, draws) && |draws| - |r.value.rest| <= 1
  {
    if !Targetable(objs, c, w, range, distance) then Some(Drawn(NoTarget, draws))
    else
      var t := CreatureAt(objs, c).value;
      if prevIsAbyss && !w.magic then Some(Drawn(Missed(t.uid), draws))
      else if draws == [] then None
      else if AttackHit(draws[0], bonus, t.kind.defense) then Some(Drawn(Struck(t.uid), draws[1..]))
      else Some(Drawn(Missed(t.uid), draws[1..]))
  }

  /** In the Abyss a weapon that is not magic always misses a target, and uses no draw. */
  lemma AbyssMundaneMisses(objs: seq<MapObject>, c: Coords, w: Weapon, range: nat, distance: nat, bonus: int, draws: seq<nat>)
    requires Targetable(objs, c, w, range, distance) && !w.magic
    ensures StrikeAt(objs, c, w, range, distance, true, bonus, draws) == Some(Drawn(Missed(CreatureAt(objs, c).value.uid), draws))
  {
  }

  /**
   * The outcome of walking the weapon's path: the strike at the first
   * targetable cell and its distance, or `NoTarget` and the length of the path.
   */
  datatype PathWalk = PathWalk(strike: Strike, distance: nat, rest: seq<nat>)

  /** The walk along `path` from its index `k` on; the cell at index `j` is `j + 1` cells away. */
  function WalkFrom(objs: seq<MapObject>, path: seq<Coords>, k: nat, w: Weapon, range: nat,
                    prevIsAbyss: bool, bonus: int, draws: seq<nat>): Option<PathWalk>
    requires k <= |path|
    decreases |path| - k
  {
    if k == |path| then Some(PathWalk(NoTarget, |path|, draws))
    else
      match StrikeAt(objs, path[k], w, range, k + 1, prevIsAbyss, bonus, draws)
      case None => None
      case Some(Drawn(NoTarget, rest)) => WalkFrom(objs, path, k + 1, w, range, prevIsAbyss, bonus, rest)
      case Some(Drawn(s, rest)) => Some(PathWalk(s, k + 1, rest))
  }

  /**
   * The walk strikes the first targetable cell of the path, exactly as a
   * strike at that cell with the walk's draws would, and nothing before it;
   * when no cell is targetable the walk covers the whole path and uses no
   * draw.
   */
  lemma {:induction false} WalkFromFinds(objs: seq<MapObject>, path: seq<Coords>, k: nat, w: Weapon, range: nat,
                                         prevIsAbyss: bool, bonus: int, draws: seq<nat>)
    requires k <= |path|
    ensures var r := WalkFrom(objs, path, k, w, range, prevIsAbyss, bonus, draws);
      r.Some? && r.value.strike.NoTarget? ==>
        && r.value.distance == |path|
        && r.value.rest == draws
        && forall j :: k <= j < |path| ==> !Targetable(objs, path[j], w, range, j + 1)
    ensures var r := WalkFrom(objs, path, k, w, range, prevIsAbyss, bonus, draws);
      r.Some? && !r.value.strike.NoTarget? ==>
        && k < r.value.distance <= |path|
        && StrikeAt(objs, path[r.value.distance - 1], w, range, r.value.distance, prevIsAbyss, bonus, draws)
           == Some(Drawn(r.value.strike, r.value.rest))
        && forall j :: k <= j < r.value.distance - 1 ==> !Targetable(objs, path[j], w, range, j + 1)
    decreases |path| - k
  {
    if k < |path| {
      var s := StrikeAt(objs, path[k], w, range, k + 1, prevIsAbyss, bonus, draws);
      if s.Some? && s.value.value.NoTarget? {
        assert s.value.rest == draws;
        assert WalkFrom(objs, path, k, w, range, prevIsAbyss, bonus, draws)
            == WalkFrom(objs, path, k + 1, w, range, prevIsAbyss, bonus, draws);
        WalkFromFinds(objs, path, k + 1, w, range, prevIsAbyss, bonus, draws);
        var r := WalkFrom(objs, path, k + 1, w, range, prevIsAbyss, bonus, draws);
        if r.Some? {
          var end := if r.value.strike.NoTarget? then |path| else r.value.distance - 1;
          forall j | k <= j < end ensures !Targetable(objs, path[j], w, range, j + 1) {
            if j == k {
              assert !Targetable(objs, path[k], w, range, k + 1);
            }
          }
        }
      }
    }
  }

  /** The walk of a whole path, starting one cell away from the attacker. */
  function WalkPath(objs: seq<MapObject>, path: seq<Coords>, w: Weapon, range: nat,
                    prevIsAbyss: bool, bonus: int, draws: seq<nat>): Option<PathWalk>
  {
    WalkFrom(objs, path, 0, w, range, prevIsAbyss, bonus, draws)
  }

  /**
   * The range of the attack: the weapon's own range, or the digit chosen for a
   * weapon whose distance can be chosen, which must lie in [1, weapon range];
   * `None` abandons the attack.
   */
  function ChosenRange(w: Weapon, choice: int): (r: Option<nat>)
    ensures !w.canChooseDistance ==> r == Some(w.range)
    ensures w.canChooseDistance ==> (r.Some? <==> 1 <= choice <= w.range)
    ensures r.Some? ==> r.value <= w.range
    ensures w.canChooseDistance && r.Some? ==> r.value == choice
  {
    if !w.canChooseDistance then Some(w.range)
    else if 1 <= choice <= w.range then Some(choice)
    else None
  }

  /** The weapon-loss rule of `attack`. */
  function WeaponLost(w: Weapon, found: bool, targetDistance: nat): bool
  {
    w.loseWhenUsed || (w.loseWhenRanged && (!found || targetDistance > 1))
  }

  /**
   * A weapon used up on use is always lost; one lost when thrown is lost on a
   * miss and on a target further than one cell, and kept on an adjacent
   * target; any other weapon is kept.
   */
  lemma WeaponLossRules(w: Weapon, found: bool, targetDistance: nat)
    ensures w.loseWhenUsed ==> WeaponLost(w, found, targetDistance)
    ensures !w.loseWhenUsed && !w.loseWhenRanged ==> !WeaponLost(w, found, targetDistance)
    ensures w.loseWhenRanged && !found ==> WeaponLost(w, found, targetDistance)
    ensures w.loseWhenRanged && found && targetDistance > 1 ==> WeaponLost(w, found, targetDistance)
    ensures !w.loseWhenUsed && found && targetDistance <= 1 ==> !WeaponLost(w, found, targetDistance)
  {
  }
}
