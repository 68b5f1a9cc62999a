/**
 * The end-of-round creature pass of `CombatController::moveCreatures`: every
 * creature on the map acts once, in list order, while the actions themselves
 * take creatures (the actor or another one) off the list being walked.
 *
 * `Creature::act` is not part of this model. What an action does to the map is
 * supplied as an `ActOutcome`, one per action, in the order the actions happen.
 */
module CreatureMoves {
  import opened Wrappers
  import opened CombatTypes
  import opened CombatMap

  /** The effect of one creature action on the combat map. */
  datatype ActOutcome =
    | Hold                      // stayed, or attacked without slaying anyone
    | MoveTo(to: Coords)        // moved to another cell
    | Flee                      // left the map
    | SlayCreature(victim: nat) // slew the creature with identity `victim` (a jinxed creature)
    | SlaySlot(slot: nat)       // slew the party member of roster slot `slot`
    | Afflict(slots: set<nat>, sleep: bool) // puts the listed members to sleep, or poisons them

  /** The state a creature action can change: the map's objects and the party roster. */
  datatype Field = Field(objects: seq<MapObject>, roster: seq<Member>)

  function Slain(m: Member): Member
  {
    m.(status := Dead)
  }

  /** The identity of the creature that action `a` of creature `actor` takes off the map, if any. */
  function Removed(actor: nat, a: ActOutcome): Option<nat>
  {
    match a
    case Flee => Some(actor)
    case SlayCreature(v) => Some(v)
    case _ => None
  }

  /** The status an affliction gives: asleep, or poisoned. */
  function Affliction(sleep: bool): Status
  {
    if sleep then Sleeping else Poisoned
  }

  /**
   * The roster after an affliction: every listed member standing on the map
   * and not dead takes the affliction's status; everyone else is unchanged.
   */
  function Afflicted(objects: seq<MapObject>, roster: seq<Member>, slots: set<nat>, sleep: bool): (r: seq<Member>)
    ensures |r| == |roster|
  {
    seq(|roster|, k requires 0 <= k < |roster| => AfflictedMember(objects, roster[k], k, slots, sleep))
  }

  /** Roster member `m` of slot `k` after an affliction of the members of `slots`. */
  function AfflictedMember(objects: seq<MapObject>, m: Member, k: nat, slots: set<nat>, sleep: bool): Member
  {
    if k in slots && MemberOnMap(objects, k) && m.status != Dead then m.(status := Affliction(sleep)) else m
  }

  /**
   * A party member after an action: unchanged, slain, or, when alive, put to
   * sleep or poisoned.
   */
  predicate Harmed(before: Member, after: Member)
  {
    || after == before
    || after == Slain(before)
    || (before.status != Dead && (after == before.(status := Sleeping) || after == before.(status := Poisoned)))
  }

  /** Applies action `a` of the creature with identity `actor`. */
  function ApplyAct(f: Field, actor: nat, a: ActOutcome): Field
  {
    match a
    case Hold => f
    case MoveTo(c) => f.(objects := MoveCreature(f.objects, actor, c))
    case Flee => f.(objects := RemoveCreature(f.objects, actor))
    case SlayCreature(v) => f.(objects := RemoveCreature(f.objects, v))
    case SlaySlot(slot) =>
      if MemberOnMap(f.objects, slot) then
        Field(RemoveMember(f.objects, slot),
              if slot < |f.roster| then f.roster[slot := Slain(f.roster[slot])] else f.roster)
      else f
    case Afflict(slots, sleep) => f.(roster := Afflicted(f.objects, f.roster, slots, sleep))
  }

  /**
   * An action takes off the map exactly the creature it removes, keeps the
   * roster's size, changes a party member only by slaying it, putting it to
   * sleep or poisoning it, and never brings one onto the map.
   */
  lemma {:induction false} ApplyActEffect(f: Field, actor: nat, a: ActOutcome)
    ensures var g := ApplyAct(f, actor, a);
      && CreatureUids(g.objects) ==
           (if Removed(actor, a).Some? then Without(CreatureUids(f.objects), Removed(actor, a).value)
            else CreatureUids(f.objects))
      && |g.roster| == |f.roster|
      && (forall k :: 0 <= k < |f.roster| ==> Harmed(f.roster[k], g.roster[k]))
      && (forall o {:trigger o in GetPartyMembers(g.objects)} :: o in GetPartyMembers(g.objects) ==> o in GetPartyMembers(f.objects))
  {
  }

  /**
   * The index visited after the creature `m` at index `i` has acted, given the
   * creature identities `vs` listed afterwards: the same index again when the
   * slot no longer holds `m`, the next one otherwise.
   */
  function NextIndex(vs: seq<nat>, i: nat, m: nat): nat
  {
    if i < |vs| && vs[i] != m then i else i + 1
  }

  datatype MoveResult = MoveResult(field: Field, acted: seq<nat>, rest: seq<ActOutcome>, complete: bool)

  /**
   * The creature pass from index `i` on; `acted` lists the identities of the
   * creatures that have acted so far. It stops incomplete when the supplied
   * outcomes run out.
   */
  function MoveFrom(f: Field, acted: seq<nat>, i: nat, acts: seq<ActOutcome>): (r: MoveResult)
    ensures Consumes(r.rest, acts)
    ensures |r.field.roster| == |f.roster|
    ensures r.complete ==> i >= |CreatureUids(f.objects)| || |r.rest| < |acts|
    decreases |acts|
  {
    var us := CreatureUids(f.objects);
    if i >= |us| then MoveResult(f, acted, acts, true)
    else if acts == [] then MoveResult(f, acted, acts, false)
    else
      var m := us[i];
      var g := ApplyAct(f, m, acts[0]);
      MoveFrom(g, acted + [m], NextIndex(CreatureUids(g.objects), i, m), acts[1..])
  }

  /** A pass stops incomplete only when the outcomes are all used up. */
  lemma {:induction false} MoveFromIncomplete(f: Field, acted: seq<nat>, i: nat, acts: seq<ActOutcome>)
    ensures !MoveFrom(f, acted, i, acts).complete ==> MoveFrom(f, acted, i, acts).rest == []
    decreases |acts|
  {
    var us := CreatureUids(f.objects);
    if i < |us| && acts != [] {
      var m := us[i];
      var g := ApplyAct(f, m, acts[0]);
      MoveFromIncomplete(g, acted + [m], NextIndex(CreatureUids(g.objects), i, m), acts[1..]);
    }
  }

  /** One step of the pass: the creature at index `i` acts, and the pass goes on from the index `NextIndex` gives. */
  lemma MoveFromStep(f: Field, acted: seq<nat>, i: nat, acts: seq<ActOutcome>)
    requires i < |CreatureUids(f.objects)| && acts != []
    ensures var m := CreatureUids(f.objects)[i];
      var g := ApplyAct(f, m, acts[0]);
      MoveFrom(f, acted, i, acts) == MoveFrom(g, acted + [m], NextIndex(CreatureUids(g.objects), i, m), acts[1..])
  {
  }

  /** The whole pass of one round. */
  function CreatureRound(f: Field, acts: seq<ActOutcome>): MoveResult
  {
    MoveFrom(f, [], 0, acts)
  }

  /** Exactly the creatures listed before index `i` have acted. */
  predicate ActedPrefix(us: seq<nat>, acted: seq<nat>, i: nat)
  {
    forall k :: 0 <= k < |us| ==> (us[k] in acted <==> k < i)
  }

  /**
   * One step of the pass keeps the bookkeeping right when the action took at
   * most one creature off the list: `vs` is the list unchanged (`p < 0`) or
   * without its position `p`.
   */
  lemma {:induction false} StepKeepsPrefix(us: seq<nat>, acted: seq<nat>, i: nat, vs: seq<nat>, p: int)
    requires Distinct(us) && Distinct(acted) && ActedPrefix(us, acted, i) && i < |us|
    requires (p < 0 && vs == us) || (0 <= p < |us| && vs == us[..p] + us[p + 1..])
    ensures Distinct(vs) && Distinct(acted + [us[i]])
    ensures ActedPrefix(vs, acted + [us[i]], NextIndex(vs, i, us[i]))
    ensures |vs| - NextIndex(vs, i, us[i]) < |us| - i
    ensures forall x :: x in vs ==> x in us
  {
    var m := us[i];
    var acted' := acted + [m];
    var next := NextIndex(vs, i, m);
    assert Distinct(acted') by {
      assert m !in acted;
      DistinctAppend(acted, m);
    }
    assert Distinct(vs) by {
      if p >= 0 {
        WithoutAt(us, p);
        WithoutDistinct(us, us[p]);
      }
    }
    assert next == (if p < 0 || p > i || i >= |vs| then i + 1 else i) by {
      if 0 <= p <= i && i < |vs| {
        assert vs[i] == us[i + 1];
        DistinctIndexed(us);
      }
    }
    forall k | 0 <= k < |vs| ensures (vs[k] in acted' <==> k < next) {
      var j := if p < 0 || k < p then k else k + 1;
      assert vs[k] == us[j];
      assert us[j] == m <==> j == i by {
        DistinctIndexed(us);
      }
    }
    assert forall x :: x in vs ==> x in us by {
      forall x | x in vs ensures x in us {
        var k :| 0 <= k < |vs| && vs[k] == x;
        assert vs[k] == us[if p < 0 || k < p then k else k + 1];
      }
    }
  }

  lemma {:induction false} PassFrom(f: Field, acted: seq<nat>, i: nat, acts: seq<ActOutcome>)
    requires Distinct(CreatureUids(f.objects)) && Distinct(acted)
    requires ActedPrefix(CreatureUids(f.objects), acted, i)
    ensures var r := MoveFrom(f, acted, i, acts);
      && (r.complete ==> forall u :: u in CreatureUids(r.field.objects) ==> u in r.acted)
      && Distinct(r.acted)
      && Distinct(CreatureUids(r.field.objects))
      && (forall u :: u in r.acted ==> u in acted || u in CreatureUids(f.objects))
      && (forall u :: u in CreatureUids(r.field.objects) ==> u in CreatureUids(f.objects))
      && (|acts| + i >= |CreatureUids(f.objects)| ==> r.complete)
    decreases |acts|
  {
    var us := CreatureUids(f.objects);
    if i >= |us| {
      forall u | u in us ensures u in acted {
        var k :| 0 <= k < |us| && us[k] == u;
      }
    } else if acts != [] {
      var m := us[i];
      var g := ApplyAct(f, m, acts[0]);
      ApplyActEffect(f, m, acts[0]);
      var vs := CreatureUids(g.objects);
      var p: int := -1;
      var removed := Removed(m, acts[0]);
      if removed.Some? && removed.value in us {
        p :| 0 <= p < |us| && us[p] == removed.value;
        WithoutAt(us, p);
      } else if removed.Some? {
        WithoutAbsent(us, removed.value);
      }
      StepKeepsPrefix(us, acted, i, vs, p);
      PassFrom(g, acted + [m], NextIndex(vs, i, m), acts[1..]);
      assert MoveFrom(f, acted, i, acts) == MoveFrom(g, acted + [m], NextIndex(vs, i, m), acts[1..]);
    }
  }

  /**
   * The creature pass never skips a creature: when the round completes, every
   * creature still on the map has acted, none acted twice, and only creatures
   * that were on the map at the start of the round acted. Given one outcome
   * per creature on the map, the round always completes.
   */
  lemma {:induction false} EveryCreatureActsOnce(f: Field, acts: seq<ActOutcome>)
    requires Distinct(CreatureUids(f.objects))
    ensures var r := CreatureRound(f, acts);
      && (r.complete ==> forall u :: u in CreatureUids(r.field.objects) ==> u in r.acted)
      && Distinct(r.acted)
      && Distinct(CreatureUids(r.field.objects))
      && (forall u :: u in r.acted ==> u in CreatureUids(f.objects))
      && (forall u :: u in CreatureUids(r.field.objects) ==> u in CreatureUids(f.objects))
      && (|acts| >= |CreatureUids(f.objects)| ==> r.complete)
  {
    PassFrom(f, [], 0, acts);
  }

  /**
   * The pass changes party members only by slaying them, putting them to
   * sleep or poisoning them, and never brings a member onto the map.
   */
  lemma {:induction false} PassOnlyHarms(f: Field, acted: seq<nat>, i: nat, acts: seq<ActOutcome>)
    ensures var r := MoveFrom(f, acted, i, acts);
      && (forall k :: 0 <= k < |f.roster| ==> Harmed(f.roster[k], r.field.roster[k]))
      && (forall o {:trigger o in GetPartyMembers(r.field.objects)} :: o in GetPartyMembers(r.field.objects) ==> o in GetPartyMembers(f.objects))
    decreases |acts|
  {
    var us := CreatureUids(f.objects);
    if i < |us| && acts != [] {
      var m := us[i];
      var g := ApplyAct(f, m, acts[0]);
      ApplyActEffect(f, m, acts[0]);
      PassOnlyHarms(g, acted + [m], NextIndex(CreatureUids(g.objects), i, m), acts[1..]);
      assert MoveFrom(f, acted, i, acts) == MoveFrom(g, acted + [m], NextIndex(CreatureUids(g.objects), i, m), acts[1..]);
    }
  }
}
