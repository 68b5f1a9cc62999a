/**
 * `CombatController`: the state of one fight and the operations that set it
 * up, run its turns and resolve the party's attacks.
 *
 * The fight's map is reduced to its object list (`objects`) and its start
 * tables; the game's party roster is held here as `roster`. A combat slot of
 * the controller (`_party[i]`) is either empty or refers to roster member `i`,
 * so it is modelled as the flag `inCombat[i]`.
 */
module Controller {
  import opened Wrappers
  import opened CombatTypes
  import opened CombatMap
  import opened Population
  import opened Attack
  import opened Rooms
  import opened Lifecycle
  import opened CreatureMoves

  /**
   * The creatures `placeCreatures` adds for the table slots below `n`, in slot
   * order: one per occupied slot, at that slot's start cell, numbered on from
   * `uid`.
   */
  function Spawn(table: seq<Option<CreatureType>>, starts: seq<Coords>, uid: nat, n: nat): seq<MapObject>
    requires |starts| == |table| && n <= |table|
  {
    if n == 0 then []
    else
      var prev := Spawn(table, starts, uid, n - 1);
      if table[n - 1].Some? then prev + [CreatureObj(uid + |prev|, table[n - 1].value, starts[n - 1])] else prev
  }

  /** One more table slot visited: an occupied slot adds its creature, numbered next, to the end of the list. */
  lemma {:induction false} SpawnStep(table: seq<Option<CreatureType>>, starts: seq<Coords>, uid: nat, objects0: seq<MapObject>,
                                     objs: seq<MapObject>, i: nat)
    requires |starts| == |table| && i < |table| && objs == objects0 + Spawn(table, starts, uid, i)
    ensures table[i].Some? ==>
      && objs + [CreatureObj(uid + |Spawn(table, starts, uid, i)|, table[i].value, starts[i])] == objects0 + Spawn(table, starts, uid, i + 1)
      && |Spawn(table, starts, uid, i + 1)| == |Spawn(table, starts, uid, i)| + 1
    ensures table[i].None? ==> objs == objects0 + Spawn(table, starts, uid, i + 1) && Spawn(table, starts, uid, i + 1) == Spawn(table, starts, uid, i)
  {
    if table[i].Some? {
      var last := [CreatureObj(uid + |Spawn(table, starts, uid, i)|, table[i].value, starts[i])];
      assert objs + last == objects0 + (Spawn(table, starts, uid, i) + last);
    }
  }

  /** Some creature of type `kind` stands at `c` in `objs`. */
  predicate HasCreature(objs: seq<MapObject>, kind: CreatureType, c: Coords)
  {
    exists o :: o in objs && o.CreatureObj? && o.kind == kind && o.coords == c
  }

  /** Every occupied slot below `n` yields a creature of its type at its start cell. */
  lemma {:induction false} SpawnCoversOccupied(table: seq<Option<CreatureType>>, starts: seq<Coords>, uid: nat, n: nat)
    requires |starts| == |table| && n <= |table|
    ensures forall j :: 0 <= j < n && table[j].Some? ==> HasCreature(Spawn(table, starts, uid, n), table[j].value, starts[j])
  {
    if n > 0 {
      var prev := Spawn(table, starts, uid, n - 1);
      SpawnCoversOccupied(table, starts, uid, n - 1);
      var last := if table[n - 1].Some? then [CreatureObj(uid + |prev|, table[n - 1].value, starts[n - 1])] else [];
      var all := Spawn(table, starts, uid, n);
      assert all == prev + last;
      forall j | 0 <= j < n && table[j].Some?
        ensures HasCreature(all, table[j].value, starts[j])
      {
        if j == n - 1 {
          assert last[0] in all;
        } else {
          var o :| o in prev && o.CreatureObj? && o.kind == table[j].value && o.coords == starts[j];
          assert o in all;
        }
      }
    }
  }

  /** Nothing but creatures of occupied slots below `n`, at those slots' start cells, is added. */
  lemma {:induction false} SpawnOnlyOccupied(table: seq<Option<CreatureType>>, starts: seq<Coords>, uid: nat, n: nat)
    requires |starts| == |table| && n <= |table|
    ensures forall o {:trigger o in Spawn(table, starts, uid, n)} :: o in Spawn(table, starts, uid, n) ==>
      o.CreatureObj? && exists j :: 0 <= j < n && table[j] == Some(o.kind) && starts[j] == o.coords
  {
    if n > 0 {
      var prev := Spawn(table, starts, uid, n - 1);
      SpawnOnlyOccupied(table, starts, uid, n - 1);
      var last := if table[n - 1].Some? then [CreatureObj(uid + |prev|, table[n - 1].value, starts[n - 1])] else [];
      var all := Spawn(table, starts, uid, n);
      assert all == prev + last;
      forall o | o in all
        ensures o.CreatureObj? && exists j :: 0 <= j < n && table[j] == Some(o.kind) && starts[j] == o.coords
      {
        if o !in prev {
          assert o == last[0];
          assert table[n - 1] == Some(o.kind) && starts[n - 1] == o.coords;
        }
      }
    }
  }

  /** The party members `placePartyMembers` adds for roster slots below `n`: every member not dead, at its start cell. */
  function Placements(roster: seq<Member>, starts: seq<Coords>, n: nat): seq<MapObject>
    requires n <= |roster| && n <= |starts|
  {
    if n == 0 then []
    else
      var prev := Placements(roster, starts, n - 1);
      if roster[n - 1].status != Dead then prev + [MemberObj(n - 1, starts[n - 1])] else prev
  }

  /** Exactly the roster members below `n` that are not dead are placed, each from its own slot and at its own start cell. */
  lemma {:induction false} PlacementsExactlyLiving(roster: seq<Member>, starts: seq<Coords>, n: nat)
    requires n <= |roster| && n <= |starts|
    ensures forall o {:trigger o in Placements(roster, starts, n)} :: o in Placements(roster, starts, n) <==>
      o.MemberObj? && o.slot < n && roster[o.slot].status != Dead && o.coords == starts[o.slot]
  {
    if n > 0 {
      var prev := Placements(roster, starts, n - 1);
      var last := if roster[n - 1].status != Dead then [MemberObj(n - 1, starts[n - 1])] else [];
      PlacementsExactlyLiving(roster, starts, n - 1);
      assert Placements(roster, starts, n) == prev + last;
    }
  }

  /** Placing the party adds no creature. */
  lemma {:induction false} PlacementsNoCreature(roster: seq<Member>, starts: seq<Coords>, n: nat)
    requires n <= |roster| && n <= |starts|
    ensures CreatureUids(Placements(roster, starts, n)) == []
  {
    if n > 0 {
      var prev := Placements(roster, starts, n - 1);
      var last := if roster[n - 1].status != Dead then [MemberObj(n - 1, starts[n - 1])] else [];
      PlacementsNoCreature(roster, starts, n - 1);
      CreatureUidsAppend(prev, last);
      assert CreatureUids(last) == [];
    }
  }

  /** One more roster slot placed: its member, if not dead, joins the end of the list, and no creature identity is added. */
  lemma {:induction false} PlacementsStep(roster: seq<Member>, starts: seq<Coords>, objects0: seq<MapObject>, objs: seq<MapObject>, i: nat)
    requires i < |roster| && i < |starts| && objs == objects0 + Placements(roster, starts, i)
    ensures roster[i].status != Dead ==> objs + [MemberObj(i, starts[i])] == objects0 + Placements(roster, starts, i + 1)
    ensures roster[i].status != Dead ==> CreatureUids(objs + [MemberObj(i, starts[i])]) == CreatureUids(objs)
    ensures roster[i].status == Dead ==> objs == objects0 + Placements(roster, starts, i + 1)
  {
    if roster[i].status != Dead {
      var last := [MemberObj(i, starts[i])];
      CreatureUidsAppend(objs, last);
      assert CreatureUids(last) == [];
      assert objs + last == objects0 + (Placements(roster, starts, i) + last);
    }
  }

  /** The combat slots after `placePartyMembers` has visited the roster slots below `n`: the slot of each member not dead is taken. */
  function Joined(slots: seq<bool>, roster: seq<Member>, n: nat): (r: seq<bool>)
    requires n <= |roster| <= |slots|
    ensures |r| == |slots|
  {
    if n == 0 then slots
    else
      var prev := Joined(slots, roster, n - 1);
      if roster[n - 1].status != Dead then prev[n - 1 := true] else prev
  }

  /** A slot is taken after the visit exactly when it was taken before or holds a visited member that is not dead. */
  lemma {:induction false} JoinedSlots(slots: seq<bool>, roster: seq<Member>, n: nat)
    requires n <= |roster| <= |slots|
    ensures forall k :: 0 <= k < |slots| ==> Joined(slots, roster, n)[k] == (slots[k] || (k < n && roster[k].status != Dead))
  {
    if n > 0 {
      JoinedSlots(slots, roster, n - 1);
    }
  }

  /** The eight combat slots `init` adds, none of them taken yet. */
  const EMPTY_SLOTS: seq<bool> := [false, false, false, false, false, false, false, false]

  /** Every element of `s` is below `n`. */
  predicate Below(s: seq<nat>, n: nat)
  {
    forall k :: 0 <= k < |s| ==> s[k] < n
  }

  lemma {:induction false} BelowSubset(a: seq<nat>, b: seq<nat>, n: nat)
    requires Below(b, n) && forall u :: u in a ==> u in b
    ensures Below(a, n)
  {
    forall k | 0 <= k < |a| ensures a[k] < n {
      assert a[k] in b;
    }
  }

  /** A creature numbered with the next unused identity keeps the identities on the map distinct. */
  lemma {:induction false} AddFresh(objs: seq<MapObject>, c: MapObject, uid: nat)
    requires Distinct(CreatureUids(objs)) && Below(CreatureUids(objs), uid)
    requires c.CreatureObj? && c.uid == uid
    ensures CreatureUids(objs + [c]) == CreatureUids(objs) + [uid]
    ensures Distinct(CreatureUids(objs + [c])) && Below(CreatureUids(objs + [c]), uid + 1)
  {
    CreatureUidsAppend(objs, [c]);
    assert CreatureUids([c]) == [uid];
    DistinctAppend(CreatureUids(objs), uid);
  }

  /** At most `n` distinct values lie below `n`. */
  lemma {:induction false} DistinctBelow(s: seq<nat>, n: nat)
    requires Distinct(s) && forall k :: 0 <= k < |s| ==> s[k] < n
    ensures |s| <= n
    decreases n
  {
    if s != [] {
      var t := Without(s, n - 1);
      assert |s| <= |t| + 1 by {
        if n - 1 in s {
          var p :| 0 <= p < |s| && s[p] == n - 1;
          WithoutAt(s, p);
        } else {
          WithoutAbsent(s, n - 1);
        }
      }
      assert Distinct(t) by {
        WithoutDistinct(s, n - 1);
      }
      assert forall k :: 0 <= k < |t| ==> t[k] < n - 1 by {
        forall k | 0 <= k < |t| ensures t[k] < n - 1 {
          assert t[k] in t;
        }
      }
      DistinctBelow(t, n - 1);
    }
  }

  /**
   * The search for a free slot of the creature table: each draw names a slot,
   * and the first one drawn that is free is taken. `None` when the draws run
   * out first.
   */
  function FreeSlot(table: seq<Option<CreatureType>>, draws: seq<nat>): (r: Option<Drawn<nat>>)
    requires |table| == AREA_CREATURES
    ensures r.Some? ==> r.value.value < AREA_CREATURES && table[r.value.value].None?
    ensures r.Some? ==> Consumes(r.value.rest, draws) && |r.value.rest| < |draws|
    decreases |draws|
  {
    if draws == [] then None
    else if table[Random(draws[0], AREA_CREATURES)].None? then Some(Drawn(Random(draws[0], AREA_CREATURES), draws[1..]))
    else FreeSlot(table, draws[1..])
  }

  /**
   * The slot found is the one named by the first draw that names a free slot,
   * and the search fails only when no draw does.
   */
  lemma {:induction false} FreeSlotFirst(table: seq<Option<CreatureType>>, draws: seq<nat>)
    requires |table| == AREA_CREATURES
    ensures var r := FreeSlot(table, draws);
      r.Some? ==> var n := |draws| - |r.value.rest| - 1;
        && r.value.value == Random(draws[n], AREA_CREATURES)
        && r.value.rest == draws[n + 1..]
        && forall i :: 0 <= i < n ==> table[Random(draws[i], AREA_CREATURES)].Some?
    ensures FreeSlot(table, draws).None? <==> forall i :: 0 <= i < |draws| ==> table[Random(draws[i], AREA_CREATURES)].Some?
    decreases |draws|
  {
    if draws != [] && table[Random(draws[0], AREA_CREATURES)].Some? {
      FreeSlotFirst(table, draws[1..]);
      assert forall i :: 1 <= i < |draws| ==> draws[i] == draws[1..][i - 1];
      var r := FreeSlot(table, draws);
      if r.Some? {
        var n := |draws| - |r.value.rest| - 1;
        assert draws[1..][n - 1 + 1..] == draws[n + 1..];
      }
    }
  }

  /** The type placed for a recruited creature: the base creature, its leader or its leader's leader. */
  predicate RecruitOf(cat: Catalogue, base: CreatureType, t: CreatureType)
    requires WellFormed(cat) && Known(cat, base)
  {
    t == base || t == cat.types[base.leader] || t == cat.types[cat.types[base.leader].leader]
  }

  /**
   * A roster member over a turn: the same but for status, and a dead member
   * stays dead. (A living member may in turn be slain, put to sleep,
   * poisoned, or woken.)
   */
  predicate StatusEvolved(before: Member, after: Member)
  {
    && after.attackBonus == before.attackBonus
    && after.weapon == before.weapon
    && (before.status == Dead ==> after.status == Dead)
  }

  /** The whole roster over a turn: the same size, and every member evolved as `StatusEvolved` allows. */
  predicate RosterEvolved(before: seq<Member>, after: seq<Member>)
  {
    |after| == |before| && forall k :: 0 <= k < |before| ==> StatusEvolved(before[k], after[k])
  }

  lemma {:induction false} RosterEvolvedTrans(a: seq<Member>, b: seq<Member>, c: seq<Member>)
    requires RosterEvolved(a, b) && RosterEvolved(b, c)
    ensures RosterEvolved(a, c)
  {
    forall k | 0 <= k < |a| ensures StatusEvolved(a[k], c[k]) {
      assert StatusEvolved(a[k], b[k]) && StatusEvolved(b[k], c[k]);
    }
  }

  /** No party member object of `now` is missing from `before`, and no creature identity is new. */
  predicate OnlyLeft(now: seq<MapObject>, before: seq<MapObject>)
  {
    && (forall o {:trigger o in GetPartyMembers(now)} :: o in GetPartyMembers(now) ==> o in GetPartyMembers(before))
    && (forall u {:trigger u in CreatureUids(now)} :: u in CreatureUids(now) ==> u in CreatureUids(before))
  }

  lemma {:induction false} OnlyLeftTrans(a: seq<MapObject>, b: seq<MapObject>, c: seq<MapObject>)
    requires OnlyLeft(a, b) && OnlyLeft(b, c)
    ensures OnlyLeft(a, c)
  {
  }

  /**
   * A creature round keeps the creature identities distinct and below the
   * next identity, changes the roster only as a turn may, and brings no one
   * onto the map.
   */
  lemma {:induction false} RoundKeeps(f: Field, outcomes: seq<ActOutcome>, n: nat)
    requires Distinct(CreatureUids(f.objects)) && Below(CreatureUids(f.objects), n)
    ensures var r := CreatureRound(f, outcomes);
      && Distinct(CreatureUids(r.field.objects)) && Below(CreatureUids(r.field.objects), n)
      && RosterEvolved(f.roster, r.field.roster) && OnlyLeft(r.field.objects, f.objects)
  {
    var r := CreatureRound(f, outcomes);
    EveryCreatureActsOnce(f, outcomes);
    PassOnlyHarms(f, [], 0, outcomes);
    assert r == MoveFrom(f, [], 0, outcomes);
    forall k | 0 <= k < |f.roster| ensures StatusEvolved(f.roster[k], r.field.roster[k]) {
      assert Harmed(f.roster[k], r.field.roster[k]);
    }
    BelowSubset(CreatureUids(r.field.objects), CreatureUids(f.objects), n);
  }

  /** How `finishTurn` ended: the next player's turn (an extra one under the quickness aura), a won or lost fight, or out of draws, outcomes or fuel. */
  datatype TurnOutcome = Continue(extraTurn: bool) | EndedWon | EndedLost | Stalled

  /** Slot `k` holds a party member in the fight who is neither asleep nor dead. */
  predicate CanFightIn(inCombat: seq<bool>, roster: seq<Member>, k: int)
  {
    0 <= k < |inCombat| && inCombat[k] && k < |roster| && !Disabled(roster[k])
  }

  /** Slot `k` holds a party member in the fight who is asleep. */
  predicate AsleepIn(inCombat: seq<bool>, roster: seq<Member>, k: int)
  {
    0 <= k < |inCombat| && inCombat[k] && k < |roster| && roster[k].status == Sleeping
  }

  /** The party's chosen active player is in the fight and able, but does not have the focus. */
  predicate OverridesIn(inCombat: seq<bool>, roster: seq<Member>, activePlayer: int, focus: int)
  {
    activePlayer >= 0 && CanFightIn(inCombat, roster, activePlayer) && activePlayer != focus
  }

  /** `isWon`: no creature is left among `objs`. */
  predicate Won(objs: seq<MapObject>)
  {
    GetCreatures(objs) == []
  }

  /** `isLost`: no party member is left among `objs`. */
  predicate Lost(objs: seq<MapObject>)
  {
    GetPartyMembers(objs) == []
  }

  /** The part of the fight a turn changes: the roster, the map's objects and the focus. */
  datatype Turn = Turn(roster: seq<Member>, objects: seq<MapObject>, focus: nat)

  /** The focus walk of `finishTurn` may stop at `t`: its member can fight and the active player does not override it. */
  predicate Ready(inCombat: seq<bool>, activePlayer: int, t: Turn)
  {
    CanFightIn(inCombat, t.roster, t.focus) && !OverridesIn(inCombat, t.roster, activePlayer, t.focus)
  }

  /** One step of the focus walk: the new turn, the draws and outcomes left, whether the creatures moved, and the end of the walk, if it ends here. */
  datatype StepResult = StepResult(turn: Turn, rest: seq<nat>, acts: seq<ActOutcome>, moved: bool, stop: Option<TurnOutcome>)

  /**
   * One pass of the do-while loop of `finishTurn`: a sleeping member in the
   * fight wakes on a draw of 0 from 8, the focus moves to the next slot, and
   * past the last roster slot the creatures move, after which a loss, then a
   * win, ends the fight. Otherwise the walk stops when the new focus is
   * `Ready`.
   */
  function TurnStep(inCombat: seq<bool>, winOrLose: bool, activePlayer: int, t: Turn, draws: seq<nat>, acts: seq<ActOutcome>): (r: StepResult)
    requires t.focus < |t.roster|
    ensures |r.turn.roster| == |t.roster| && r.turn.focus < |r.turn.roster|
  {
    var asleep := AsleepIn(inCombat, t.roster, t.focus);
    if asleep && draws == [] then StepResult(t, draws, acts, false, Some(Stalled))
    else
      var roster1 := if asleep then t.roster[t.focus := t.roster[t.focus].(status := if Random(draws[0], 8) == 0 then Good else Sleeping)]
                     else t.roster;
      var rest := if asleep then draws[1..] else draws;
      if t.focus + 1 < |t.roster| then
        var t1 := Turn(roster1, t.objects, t.focus + 1);
        StepResult(t1, rest, acts, false, if Ready(inCombat, activePlayer, t1) then Some(Continue(false)) else None)
      else
        var round := CreatureRound(Field(t.objects, roster1), acts);
        var t1 := Turn(round.field.roster, round.field.objects, 0);
        StepResult(t1, rest, round.rest, true,
                   if !round.complete then Some(Stalled)
                   else if Lost(t1.objects) then Some(EndedLost)
                   else if winOrLose && Won(t1.objects) then Some(EndedWon)
                   else if Ready(inCombat, activePlayer, t1) then Some(Continue(false))
                   else None)
  }

  /**
   * A step ends the walk at a `Ready` member, or on a loss, before a win,
   * right after a creature round, or stalls only when the draws or the
   * outcomes run out; otherwise the new focus is not `Ready`. The focus
   * moves to the next slot, wrapping to slot 0 with a creature round, and
   * the map and the outcomes change only in that round.
   */
  lemma TurnStepEnds(inCombat: seq<bool>, winOrLose: bool, activePlayer: int, t: Turn, draws: seq<nat>, acts: seq<ActOutcome>)
    requires t.focus < |t.roster|
    ensures var r := TurnStep(inCombat, winOrLose, activePlayer, t, draws, acts);
      && (r.stop.None? ==> !Ready(inCombat, activePlayer, r.turn))
      && (r.stop == Some(Continue(false)) ==> Ready(inCombat, activePlayer, r.turn))
      && r.stop != Some(Continue(true))
      && (r.moved && r.stop != Some(Stalled) && Lost(r.turn.objects) ==> r.stop == Some(EndedLost))
      && (r.moved && r.stop != Some(Stalled) && !Lost(r.turn.objects) && winOrLose && Won(r.turn.objects) ==> r.stop == Some(EndedWon))
      && (r.stop == Some(EndedWon) ==> r.moved && winOrLose && Won(r.turn.objects) && !Lost(r.turn.objects))
      && (r.stop == Some(EndedLost) ==> r.moved && Lost(r.turn.objects))
      && (r.stop == Some(Stalled) ==> r.rest == [] || r.acts == [])
      && (r.stop != Some(Stalled) ==>
            && r.moved == (t.focus + 1 == |t.roster|)
            && r.turn.focus == (if r.moved then 0 else t.focus + 1))
      && (!r.moved ==> r.turn.objects == t.objects && r.acts == acts)
  {
    var asleep := AsleepIn(inCombat, t.roster, t.focus);
    if !(asleep && draws == []) && t.focus + 1 == |t.roster| {
      var roster1 := if asleep then t.roster[t.focus := t.roster[t.focus].(status := if Random(draws[0], 8) == 0 then Good else Sleeping)]
                     else t.roster;
      MoveFromIncomplete(Field(t.objects, roster1), [], 0, acts);
    }
  }

  /** The end of a focus walk: how it ended, the creature rounds counted, the fuel left, the final turn and the draws and outcomes left. */
  datatype WalkResult = WalkResult(outcome: TurnOutcome, rounds: nat, fuelLeft: nat, turn: Turn, rest: seq<nat>, acts: seq<ActOutcome>)

  /**
   * The do-while loop of `finishTurn`: steps of the focus until one ends the
   * walk, at most `fuel` of them; `rounds` counts the creature rounds so far.
   * The walk ends on a member who is `Ready`, on a loss or a win right after
   * a creature round, or stalls only when the fuel, the draws or the
   * outcomes run out.
   */
  function FocusWalk(inCombat: seq<bool>, winOrLose: bool, activePlayer: int, t: Turn, draws: seq<nat>, acts: seq<ActOutcome>,
                     fuel: nat, rounds: nat): (w: WalkResult)
    requires t.focus < |t.roster|
    ensures |w.turn.roster| == |t.roster| && w.turn.focus < |w.turn.roster|
    decreases fuel
  {
    if fuel == 0 then WalkResult(Stalled, rounds, 0, t, draws, acts)
    else
      var s := TurnStep(inCombat, winOrLose, activePlayer, t, draws, acts);
      var n := if s.moved then rounds + 1 else rounds;
      if s.stop.Some? then WalkResult(s.stop.value, n, fuel - 1, s.turn, s.rest, s.acts)
      else FocusWalk(inCombat, winOrLose, activePlayer, s.turn, s.rest, s.acts, fuel - 1, n)
  }

  /**
   * A walk ends on a member who is `Ready`, or on a win or a loss only after
   * a creature round, a win only when winning ends the fight and the party
   * is not lost; it stalls only when the fuel, the draws or the outcomes run
   * out. Without a creature round the map and the outcomes are unchanged
   * and a member found `Ready` lies past the old focus.
   */
  lemma {:induction false} FocusWalkEnds(inCombat: seq<bool>, winOrLose: bool, activePlayer: int, t: Turn, draws: seq<nat>,
                                         acts: seq<ActOutcome>, fuel: nat, rounds: nat)
    requires t.focus < |t.roster|
    ensures var w := FocusWalk(inCombat, winOrLose, activePlayer, t, draws, acts, fuel, rounds);
      && w.rounds >= rounds
      && w.outcome != Continue(true)
      && (w.outcome == Continue(false) ==> Ready(inCombat, activePlayer, w.turn))
      && (w.outcome == EndedWon ==> winOrLose && Won(w.turn.objects) && !Lost(w.turn.objects) && w.rounds > rounds)
      && (w.outcome == EndedLost ==> Lost(w.turn.objects) && w.rounds > rounds)
      && (w.outcome == Stalled ==> w.fuelLeft == 0 || w.rest == [] || w.acts == [])
      && (w.rounds == rounds ==> w.turn.objects == t.objects && w.acts == acts)
      && (w.outcome == Continue(false) && w.rounds == rounds ==> w.turn.focus > t.focus)
    decreases fuel
  {
    if fuel > 0 {
      var s := TurnStep(inCombat, winOrLose, activePlayer, t, draws, acts);
      TurnStepEnds(inCombat, winOrLose, activePlayer, t, draws, acts);
      if s.stop.None? {
        FocusWalkEnds(inCombat, winOrLose, activePlayer, s.turn, s.rest, s.acts, fuel - 1, if s.moved then rounds + 1 else rounds);
      }
    }
  }

  /** A walk with fuel left takes one step and either stops there or walks on from the step's result. */
  lemma FocusWalkUnfold(inCombat: seq<bool>, winOrLose: bool, activePlayer: int, t: Turn, draws: seq<nat>, acts: seq<ActOutcome>,
                        fuel: nat, rounds: nat, s: StepResult)
    requires t.focus < |t.roster| && fuel > 0
    requires s == TurnStep(inCombat, winOrLose, activePlayer, t, draws, acts)
    ensures var n := if s.moved then rounds + 1 else rounds;
      && s.turn.focus < |s.turn.roster|
      && FocusWalk(inCombat, winOrLose, activePlayer, t, draws, acts, fuel, rounds)
         == if s.stop.Some? then WalkResult(s.stop.value, n, fuel - 1, s.turn, s.rest, s.acts)
            else FocusWalk(inCombat, winOrLose, activePlayer, s.turn, s.rest, s.acts, fuel - 1, n)
  {
  }

  /** A step changes no member but the one that had the focus, so who can fight elsewhere is unchanged. */
  lemma StepKeepsOthers(inCombat: seq<bool>, winOrLose: bool, activePlayer: int, t: Turn, draws: seq<nat>, acts: seq<ActOutcome>)
    requires t.focus < |t.roster|
    ensures var s := TurnStep(inCombat, winOrLose, activePlayer, t, draws, acts);
      !s.moved ==> forall k :: k != t.focus ==> (CanFightIn(inCombat, s.turn.roster, k) <==> CanFightIn(inCombat, t.roster, k))
  {
    var s := TurnStep(inCombat, winOrLose, activePlayer, t, draws, acts);
    if !s.moved {
      assert forall k :: k != t.focus && 0 <= k < |t.roster| ==> s.turn.roster[k] == t.roster[k];
    }
  }

  /**
   * Before the focus wraps around, the walk stops at the first slot after the
   * old focus whose member can fight: when it stops without a creature round,
   * it has passed over only members who cannot, and an active player below
   * the old focus, when able to fight, overrides every slot it passes.
   */
  lemma {:induction false} WalkStopsAtFirstReady(inCombat: seq<bool>, winOrLose: bool, activePlayer: int, t: Turn,
                                                 draws: seq<nat>, acts: seq<ActOutcome>, fuel: nat, rounds: nat)
    requires t.focus < |t.roster| && activePlayer < t.focus
    ensures var w := FocusWalk(inCombat, winOrLose, activePlayer, t, draws, acts, fuel, rounds);
      w.outcome == Continue(false) && w.rounds == rounds ==>
        && t.focus < w.turn.focus && !(activePlayer >= 0 && CanFightIn(inCombat, t.roster, activePlayer))
        && CanFightIn(inCombat, t.roster, w.turn.focus)
        && forall k :: t.focus < k < w.turn.focus ==> !CanFightIn(inCombat, t.roster, k)
    decreases fuel
  {
    if fuel > 0 {
      var s := TurnStep(inCombat, winOrLose, activePlayer, t, draws, acts);
      var n := if s.moved then rounds + 1 else rounds;
      TurnStepEnds(inCombat, winOrLose, activePlayer, t, draws, acts);
      FocusWalkUnfold(inCombat, winOrLose, activePlayer, t, draws, acts, fuel, rounds, s);
      if s.stop.None? {
        FocusWalkEnds(inCombat, winOrLose, activePlayer, s.turn, s.rest, s.acts, fuel - 1, n);
      }
      if !s.moved && s.stop.None? {
        StepKeepsOthers(inCombat, winOrLose, activePlayer, t, draws, acts);
        WalkStopsAtFirstReady(inCombat, winOrLose, activePlayer, s.turn, s.rest, s.acts, fuel - 1, rounds);
      }
    }
  }

  /**
   * When some member after the old focus can fight and no able active player
   * overrides, a walk that does not stall stops at such a member before any
   * creature round.
   */
  lemma {:induction false} WalkReachesReady(inCombat: seq<bool>, winOrLose: bool, activePlayer: int, t: Turn,
                                            draws: seq<nat>, acts: seq<ActOutcome>, fuel: nat, rounds: nat)
    requires t.focus < |t.roster| && activePlayer < t.focus
    ensures var w := FocusWalk(inCombat, winOrLose, activePlayer, t, draws, acts, fuel, rounds);
      !(activePlayer >= 0 && CanFightIn(inCombat, t.roster, activePlayer)) && w.outcome != Stalled
      && (exists k :: t.focus < k < |t.roster| && CanFightIn(inCombat, t.roster, k)) ==>
        w.outcome == Continue(false) && w.rounds == rounds
    decreases fuel
  {
    if fuel > 0 {
      var s := TurnStep(inCombat, winOrLose, activePlayer, t, draws, acts);
      TurnStepEnds(inCombat, winOrLose, activePlayer, t, draws, acts);
      FocusWalkUnfold(inCombat, winOrLose, activePlayer, t, draws, acts, fuel, rounds, s);
      if !s.moved && s.stop.None? {
        StepKeepsOthers(inCombat, winOrLose, activePlayer, t, draws, acts);
        WalkReachesReady(inCombat, winOrLose, activePlayer, s.turn, s.rest, s.acts, fuel - 1, rounds);
      }
    }
  }

  /**
   * A focus walk keeps the creature identities distinct and below the next
   * identity, changes the roster only as a turn may, and brings no one onto
   * the map.
   */
  lemma {:induction false} WalkKeeps(inCombat: seq<bool>, winOrLose: bool, activePlayer: int, t: Turn,
                                     draws: seq<nat>, acts: seq<ActOutcome>, fuel: nat, rounds: nat, n: nat)
    requires t.focus < |t.roster|
    requires Distinct(CreatureUids(t.objects)) && Below(CreatureUids(t.objects), n)
    ensures var w := FocusWalk(inCombat, winOrLose, activePlayer, t, draws, acts, fuel, rounds);
      && Distinct(CreatureUids(w.turn.objects)) && Below(CreatureUids(w.turn.objects), n)
      && RosterEvolved(t.roster, w.turn.roster) && OnlyLeft(w.turn.objects, t.objects)
    decreases fuel
  {
    if fuel > 0 {
      var s := TurnStep(inCombat, winOrLose, activePlayer, t, draws, acts);
      var asleep := AsleepIn(inCombat, t.roster, t.focus);
      if !(asleep && draws == []) {
        var roster1 := if asleep then t.roster[t.focus := t.roster[t.focus].(status := if Random(draws[0], 8) == 0 then Good else Sleeping)]
                       else t.roster;
        assert RosterEvolved(t.roster, roster1);
        if t.focus + 1 == |t.roster| {
          RoundKeeps(Field(t.objects, roster1), acts, n);
          RosterEvolvedTrans(t.roster, roster1, s.turn.roster);
        }
        assert RosterEvolved(t.roster, s.turn.roster) && OnlyLeft(s.turn.objects, t.objects);
        if s.stop.None? {
          WalkKeeps(inCombat, winOrLose, activePlayer, s.turn, s.rest, s.acts, fuel - 1, if s.moved then rounds + 1 else rounds, n);
          var w := FocusWalk(inCombat, winOrLose, activePlayer, s.turn, s.rest, s.acts, fuel - 1, if s.moved then rounds + 1 else rounds);
          RosterEvolvedTrans(t.roster, s.turn.roster, w.turn.roster);
          OnlyLeftTrans(w.turn.objects, s.turn.objects, t.objects);
        }
      }
    }
  }

  /**
   * `finishTurn`: a won fight ends at once when winning ends it; under the
   * quickness aura a member in the fight gets another turn on a draw of 0
   * from 2 when able; otherwise the focus walks on (`FocusWalk`).
   */
  function FinishTurnOf(inCombat: seq<bool>, winOrLose: bool, quickness: bool, activePlayer: int, t: Turn,
                        draws: seq<nat>, acts: seq<ActOutcome>, fuel: nat): (w: WalkResult)
    requires t.focus < |t.roster|
    ensures winOrLose && Won(t.objects) ==> w == WalkResult(EndedWon, 0, fuel, t, draws, acts)
    ensures w.outcome == Continue(true) <==>
      && !(winOrLose && Won(t.objects))
      && quickness && t.focus < |inCombat| && inCombat[t.focus] && draws != [] && Random(draws[0], 2) == 0
      && !Disabled(t.roster[t.focus])
    ensures w.outcome == Continue(true) ==> w.turn == t && w.rounds == 0
    ensures w.outcome == Continue(false) ==> Ready(inCombat, activePlayer, w.turn)
    ensures w.outcome == EndedWon ==> winOrLose && Won(w.turn.objects)
    ensures w.outcome == EndedLost ==> Lost(w.turn.objects) && w.rounds > 0
    ensures w.outcome == Stalled ==> w.fuelLeft == 0 || w.rest == [] || w.acts == []
    ensures w.rounds == 0 ==> w.turn.objects == t.objects
    ensures w.outcome == Continue(false) && w.rounds == 0 ==> w.turn.focus > t.focus
  {
    var player := quickness && t.focus < |inCombat| && inCombat[t.focus];
    if winOrLose && Won(t.objects) then WalkResult(EndedWon, 0, fuel, t, draws, acts)
    else if player && draws == [] then WalkResult(Stalled, 0, fuel, t, draws, acts)
    else
      var quick := player && Random(draws[0], 2) == 0;
      var rest := if player then draws[1..] else draws;
      FocusWalkEnds(inCombat, winOrLose, activePlayer, t, rest, acts, fuel, 0);
      if quick && !Disabled(t.roster[t.focus]) then WalkResult(Continue(true), 0, fuel, t, rest, acts)
      else FocusWalk(inCombat, winOrLose, activePlayer, t, rest, acts, fuel, 0)
  }

  /** A filled creature table and the slots filled, in order. */
  datatype Fill = Fill(table: seq<Option<CreatureType>>, placed: seq<nat>)

  /** The creature table as `init` leaves it before filling: every slot empty. */
  const EMPTY_TABLE: seq<Option<CreatureType>> := seq(AREA_CREATURES, _ => None)

  /** How `attack` ended: abandoned at the direction or range prompt, out of draws, or made. */
  datatype AttackReport = Abandoned | OutOfDraws | Made(strike: Strike, distance: nat, weaponLost: bool)

  class CombatController {
    const cat: Catalogue
    const creatureTable: array<Option<CreatureType>>
    const creatureStart: array<Coords>
    const playerStart: array<Coords>
    var roster: seq<Member>
    var objects: seq<MapObject>
    var inCombat: seq<bool>
    var focus: nat
    var nextUid: nat
    var encountered: Option<Encountered>
    var winOrLose: bool
    var placeCreaturesOnMap: bool
    var placePartyOnMap: bool
    var showMessage: bool
    var camping: bool
    var dungeonRoom: bool
    var altarRoom: Option<Virtue>
    var exitDir: Direction

    predicate Valid()
      reads this`roster, this`focus, this`objects, this`nextUid, this`inCombat
    {
      && creatureTable.Length == AREA_CREATURES
      && creatureStart.Length == AREA_CREATURES
      && playerStart.Length == AREA_PLAYERS
      && creatureStart != playerStart
      && 1 <= |roster| <= AREA_PLAYERS
      && focus < |roster|
      && Distinct(CreatureUids(objects))
      && Below(CreatureUids(objects), nextUid)
      && (forall k :: 0 <= k < |inCombat| && inCombat[k] ==> k < |roster|)
    }

    /** The combat slots have been set up by `init`. */
    predicate Initialized()
      reads this`roster, this`focus, this`objects, this`nextUid, this`inCombat
    {
      Valid() && |inCombat| >= AREA_PLAYERS
    }

    /** Slot `k` holds a party member in the fight who is neither asleep nor dead. */
    predicate CanFight(k: int)
      reads this`roster, this`inCombat
    {
      CanFightIn(inCombat, roster, k)
    }

    /** The party's chosen active player is in the fight and able, but does not have the focus. */
    predicate ActiveOverrides(activePlayer: int)
      reads this`roster, this`inCombat, this`focus
    {
      OverridesIn(inCombat, roster, activePlayer, focus)
    }

    /** `isWon`: no creature is left on the map. */
    function IsWon(): (r: bool)
      reads this`objects
      ensures r <==> forall o {:trigger o in objects} :: o in objects ==> !o.CreatureObj?
    {
      var cs := GetCreatures(objects);
      assert cs != [] ==> cs[0] in cs;
      Won(objects)
    }

    /** `isLost`: no party member is left on the map. */
    function IsLost(): (r: bool)
      reads this`objects
      ensures r <==> forall o {:trigger o in objects} :: o in objects ==> !o.MemberObj?
    {
      var ps := GetPartyMembers(objects);
      assert ps != [] ==> ps[0] in ps;
      Lost(objects)
    }

    constructor(cat: Catalogue, roster: seq<Member>)
      requires 1 <= |roster| <= AREA_PLAYERS
      ensures Valid()
      ensures this.cat == cat && this.roster == roster && objects == [] && inCombat == [] && focus == 0 && nextUid == 0
      ensures fresh(creatureTable) && fresh(creatureStart) && fresh(playerStart)
    {
      this.cat := cat;
      this.roster := roster;
      creatureTable := new Option<CreatureType>[AREA_CREATURES](_ => None);
      creatureStart := new Coords[AREA_CREATURES](_ => Coords(0, 0, 0));
      playerStart := new Coords[AREA_PLAYERS](_ => Coords(0, 0, 0));
      objects := [];
      inCombat := [];
      focus := 0;
      nextUid := 0;
      encountered := None;
      winOrLose := true;
      placeCreaturesOnMap := false;
      placePartyOnMap := true;
      showMessage := true;
      camping := false;
      dungeonRoom := false;
      altarRoom := None;
      exitDir := DirNone;
    }

    /** The free-slot search of `fillCreatureTable`: draws slots until one is free. */
    method FindFreeSlot(draws: seq<nat>) returns (r: Option<Drawn<nat>>)
      requires Valid()
      ensures r == FreeSlot(creatureTable[..], draws)
    {
      var rest := draws;
      while true
        invariant FreeSlot(creatureTable[..], rest) == FreeSlot(creatureTable[..], draws)
        decreases |rest|
      {
        if rest == [] {
          return None;
        }
        var j := Random(rest[0], AREA_CREATURES);
        if creatureTable[j].None? {
          return Some(Drawn(j, rest[1..]));
        }
        rest := rest[1..];
      }
    }

    /**
     * The creature table after `fillCreatureTable` for `m`: `placed` lists
     * distinct occupied slots; without a creature nothing is placed; when the
     * draws sufficed as many creatures as `initialNumberOfCreatures` chose are
     * placed, the last one of the base type and every one a recruit of it.
     */
    predicate Filled(m: Option<Encountered>, ctx: EncounterContext, draws: seq<nat>, placed: seq<nat>, ok: bool)
      requires creatureTable.Length == AREA_CREATURES
      requires WellFormed(cat) && (m.Some? ==> Known(cat, m.value.kind))
      reads this`roster, creatureTable
    {
      && Distinct(placed)
      && (forall k :: 0 <= k < |placed| ==> placed[k] < AREA_CREATURES && creatureTable[placed[k]].Some?)
      && (m.None? ==> placed == [] && ok)
      && (m.Some? && ok ==>
            var count := InitialCount(ctx, m.value.kind, cat.guardId, |roster|, draws);
            count.Some? && |placed| == count.value.value)
      && (m.Some? && ok && |placed| > 0 ==> creatureTable[placed[|placed| - 1]] == Some(BaseCreature(cat, m.value.kind)))
      && (m.Some? ==> forall k :: 0 <= k < |placed| ==> Placed(creatureTable[..], BaseCreature(cat, m.value.kind), placed[k]))
    }

    /**
     * The engine's base creature for `m` is the catalogue's own entry when
     * the pirate ship was swapped for the rogue, or when the engine handed
     * over the entry itself; otherwise it is the creature found on the map.
     */
    predicate BaseIsEntry(e: Encountered)
    {
      e.kind.id == cat.pirateId || e.isEntry
    }

    /**
     * The loop of `fillCreatureTable` from the filling `table`/`placed`: until
     * `count` creatures are placed, a free slot is drawn and receives a
     * recruit of `base`, the last one `base` itself. `None` when the draws
     * run out first.
     */
    /** A sequence that begins with `p + [x]` begins with `p`. */
    static lemma PrefixShrinks(s: seq<nat>, p: seq<nat>, x: nat)
      requires |p| + 1 <= |s| && s[..|p| + 1] == p + [x]
      ensures |p| <= |s| && s[..|p|] == p
    {
      assert s[..|p|] == s[..|p| + 1][..|p|];
    }

    /** The fill's slots begin with `placed`. */
    static predicate Extends(f: Fill, placed: seq<nat>)
    {
      |placed| <= |f.placed| && f.placed[..|placed|] == placed
    }

    /** The last slot of the fill holds `base`. */
    static predicate EndsWith(f: Fill, base: CreatureType)
    {
      f.placed != [] && f.placed[|f.placed| - 1] < |f.table| && f.table[f.placed[|f.placed| - 1]] == Some(base)
    }

    function FillFrom(table: seq<Option<CreatureType>>, base: CreatureType, baseIsEntry: bool, count: nat, placed: seq<nat>,
                      draws: seq<nat>): Option<Fill>
      requires WellFormed(cat) && Known(cat, base) && |table| == AREA_CREATURES && |placed| <= count
      decreases count - |placed|
    {
      if |placed| == count then Some(Fill(table, placed))
      else match FreeSlot(table, draws)
        case None => None
        case Some(slot) =>
          match Recruit(cat, base, baseIsEntry, |placed| == count - 1, slot.rest)
          case None => None
          case Some(pick) => FillFrom(table[slot.value := Some(pick.value)], base, baseIsEntry, count, placed + [slot.value], pick.rest)
    }

    /**
     * A completed loop places exactly `count` creatures in slots that were
     * free, each a recruit of `base`, and leaves every other slot as it was.
     */
    lemma {:induction false} FillFromFills(table0: seq<Option<CreatureType>>, table: seq<Option<CreatureType>>, base: CreatureType,
                                           baseIsEntry: bool, count: nat, placed: seq<nat>, draws: seq<nat>)
      requires WellFormed(cat) && Known(cat, base) && |placed| <= count
      requires Filling(table0, table, base, placed)
      ensures var r := FillFrom(table, base, baseIsEntry, count, placed, draws);
        r.Some? ==> Filling(table0, r.value.table, base, r.value.placed) && |r.value.placed| == count
      decreases count - |placed|
    {
      if |placed| < count {
        var slot := FreeSlot(table, draws);
        if slot.Some? {
          var pick := Recruit(cat, base, baseIsEntry, |placed| == count - 1, slot.value.rest);
          if pick.Some? {
            FillingStep(table0, table, base, placed, slot.value.value, pick.value.value);
            FillFromFills(table0, table[slot.value.value := Some(pick.value.value)], base, baseIsEntry, count,
                          placed + [slot.value.value], pick.value.rest);
          }
        }
      }
    }

    /** The loop only appends to the slots already placed. */
    lemma {:induction false} FillFromExtends(table: seq<Option<CreatureType>>, base: CreatureType, baseIsEntry: bool, count: nat,
                                             placed: seq<nat>, draws: seq<nat>)
      requires WellFormed(cat) && Known(cat, base) && |table| == AREA_CREATURES && |placed| <= count
      ensures var r := FillFrom(table, base, baseIsEntry, count, placed, draws);
        r.Some? ==> Extends(r.value, placed)
      decreases count - |placed|
    {
      if |placed| < count {
        var slot := FreeSlot(table, draws);
        if slot.Some? {
          var pick := Recruit(cat, base, baseIsEntry, |placed| == count - 1, slot.value.rest);
          if pick.Some? {
            var next := placed + [slot.value.value];
            FillFromStep(table, base, baseIsEntry, count, placed, draws, slot.value, pick.value);
            FillFromExtends(table[slot.value.value := Some(pick.value.value)], base, baseIsEntry, count, next, pick.value.rest);
            var r := FillFrom(table, base, baseIsEntry, count, placed, draws);
            if r.Some? {
              PrefixShrinks(r.value.placed, placed, slot.value.value);
            }
          }
        }
      }
    }

    /** The last creature the loop places is `base` itself. */
    lemma {:induction false} FillFromEndsWithBase(table: seq<Option<CreatureType>>, base: CreatureType, baseIsEntry: bool, count: nat,
                                                  placed: seq<nat>, draws: seq<nat>)
      requires WellFormed(cat) && Known(cat, base) && |table| == AREA_CREATURES && |placed| < count
      ensures var r := FillFrom(table, base, baseIsEntry, count, placed, draws);
        r.Some? ==> |r.value.placed| == count && EndsWith(r.value, base)
      decreases count - |placed|
    {
      var slot := FreeSlot(table, draws);
      if slot.Some? {
        var pick := Recruit(cat, base, baseIsEntry, |placed| == count - 1, slot.value.rest);
        if pick.Some? {
          var j := slot.value.value;
          var table' := table[j := Some(pick.value.value)];
          var next := placed + [j];
          FillFromStep(table, base, baseIsEntry, count, placed, draws, slot.value, pick.value);
          if |next| < count {
            FillFromEndsWithBase(table', base, baseIsEntry, count, next, pick.value.rest);
          } else {
            assert pick.value.value == base;
          }
        }
      }
    }

    /**
     * `fillCreatureTable` for `m`, starting from `table0`: nothing when no
     * creature was encountered; otherwise `initialNumberOfCreatures` chooses
     * the count and the loop places that many. `None` when the draws run out.
     */
    function FillOf(table0: seq<Option<CreatureType>>, m: Option<Encountered>, ctx: EncounterContext, members: nat, draws: seq<nat>): Option<Fill>
      requires WellFormed(cat) && (m.Some? ==> Known(cat, m.value.kind)) && |table0| == AREA_CREATURES
    {
      if m.None? then Some(Fill(table0, []))
      else match InitialCount(ctx, m.value.kind, cat.guardId, members, draws)
        case None => None
        case Some(count) => FillFrom(table0, BaseCreature(cat, m.value.kind), BaseIsEntry(m.value), count.value, [], count.rest)
    }

    /**
     * A complete fill for an encountered creature places as many creatures
     * as `initialNumberOfCreatures` chose, in slots that were free, each a
     * recruit of the base creature; without a creature it places none.
     */
    lemma {:induction false} FillOfPlaces(table0: seq<Option<CreatureType>>, m: Option<Encountered>, ctx: EncounterContext, members: nat,
                                          draws: seq<nat>)
      requires WellFormed(cat) && (m.Some? ==> Known(cat, m.value.kind)) && |table0| == AREA_CREATURES
      ensures var r := FillOf(table0, m, ctx, members, draws);
        && (m.None? ==> r == Some(Fill(table0, [])))
        && (m.Some? && r.Some? ==>
              && InitialCount(ctx, m.value.kind, cat.guardId, members, draws).Some?
              && |r.value.placed| == InitialCount(ctx, m.value.kind, cat.guardId, members, draws).value.value
              && Filling(table0, r.value.table, BaseCreature(cat, m.value.kind), r.value.placed))
    {
      if m.Some? {
        var count := InitialCount(ctx, m.value.kind, cat.guardId, members, draws);
        if count.Some? {
          FillFromFills(table0, table0, BaseCreature(cat, m.value.kind), BaseIsEntry(m.value), count.value.value, [], count.value.rest);
        }
      }
    }

    /** The last creature a complete fill places is the base creature itself. */
    lemma {:induction false} FillOfEndsWithBase(table0: seq<Option<CreatureType>>, m: Option<Encountered>, ctx: EncounterContext,
                                                members: nat, draws: seq<nat>)
      requires WellFormed(cat) && (m.Some? ==> Known(cat, m.value.kind)) && |table0| == AREA_CREATURES
      ensures var r := FillOf(table0, m, ctx, members, draws);
        m.Some? && r.Some? && r.value.placed != [] ==> EndsWith(r.value, BaseCreature(cat, m.value.kind))
    {
      if m.Some? {
        var count := InitialCount(ctx, m.value.kind, cat.guardId, members, draws);
        if count.Some? && count.value.value > 0 {
          FillFromEndsWithBase(table0, BaseCreature(cat, m.value.kind), BaseIsEntry(m.value), count.value.value, [], count.value.rest);
        }
      }
    }

    /**
     * `fillCreatureTable`: puts the encounter's creatures into distinct free
     * slots of the creature table. `placed` lists the slots filled, in order;
     * `ok` is false when the draws ran out first.
     */
    method FillCreatureTable(m: Option<Encountered>, ctx: EncounterContext, draws: seq<nat>) returns (placed: seq<nat>, ok: bool)
      requires WellFormed(cat)
      requires Valid()
      requires m.Some? ==> Known(cat, m.value.kind)
      modifies creatureTable
      ensures ok <==> FillOf(old(creatureTable[..]), m, ctx, |roster|, draws).Some?
      ensures ok ==> FillOf(old(creatureTable[..]), m, ctx, |roster|, draws) == Some(Fill(creatureTable[..], placed))
      ensures Filled(m, ctx, draws, placed, ok) && |placed| <= AREA_CREATURES
      ensures forall k :: 0 <= k < |placed| ==> old(creatureTable[placed[k]]).None?
      ensures forall i :: 0 <= i < AREA_CREATURES && i !in placed ==> creatureTable[i] == old(creatureTable[i])
    {
      placed, ok := [], true;
      if m.Some? {
        var count, rest, counted := InitialNumberOfCreatures(ctx, m.value.kind, cat.guardId, |roster|, draws);
        if counted {
          var base := BaseCreature(cat, m.value.kind);
          placed, ok := FillSlots(base, BaseIsEntry(m.value), count, rest);
          DistinctBelow(placed, AREA_CREATURES);
        } else {
          ok := false;
        }
      }
    }

    /**
     * The loop of `fillCreatureTable`: `count` creatures, each of type `base`
     * or one of its leaders, go into free slots drawn at random; the last one
     * is always of type `base`. `ok` is false when the draws ran out first.
     */
    method FillSlots(base: CreatureType, baseIsEntry: bool, count: nat, draws: seq<nat>) returns (placed: seq<nat>, ok: bool)
      requires WellFormed(cat) && Known(cat, base)
      requires Valid()
      modifies creatureTable
      ensures ok <==> FillFrom(old(creatureTable[..]), base, baseIsEntry, count, [], draws).Some?
      ensures ok ==> FillFrom(old(creatureTable[..]), base, baseIsEntry, count, [], draws) == Some(Fill(creatureTable[..], placed))
      ensures Distinct(placed) && |placed| <= count && (ok ==> |placed| == count)
      ensures forall k :: 0 <= k < |placed| ==> placed[k] < AREA_CREATURES && old(creatureTable[placed[k]]).None?
      ensures forall k :: 0 <= k < |placed| ==> Placed(creatureTable[..], base, placed[k])
      ensures forall j :: 0 <= j < AREA_CREATURES && j !in placed ==> creatureTable[j] == old(creatureTable[j])
      ensures ok && count > 0 ==> creatureTable[placed[count - 1]] == Some(base)
    {
      placed := [];
      ghost var table0 := creatureTable[..];
      ghost var table := table0;
      var rest := draws;
      var i := 0;
      ok := true;
      while i < count
        invariant i <= count && |placed| == i && table == creatureTable[..]
        invariant Filling(table0, table, base, placed)
        invariant FillFrom(table0, base, baseIsEntry, count, [], draws) == FillFrom(table, base, baseIsEntry, count, placed, rest)
        invariant i == count && i > 0 ==> table[placed[i - 1]] == Some(base)
      {
        // find a free spot in the creature table
        var slot := FindFreeSlot(rest);
        if slot.None? {
          ok := false;
          break;
        }
        var j := slot.value.value;
        var pick := Recruit(cat, base, baseIsEntry, i == count - 1, slot.value.rest);
        if pick.None? {
          ok := false;
          break;
        }
        FillFromStep(table, base, baseIsEntry, count, placed, rest, slot.value, pick.value);
        FillingStep(table0, table, base, placed, j, pick.value.value);
        rest := pick.value.rest;
        creatureTable[j] := Some(pick.value.value);
        table := table[j := Some(pick.value.value)];
        placed := placed + [j];
        i := i + 1;
      }
    }

    /** One placement of the fill loop: a free slot and a recruit found, the fill goes on from the table with that slot filled. */
    lemma FillFromStep(table: seq<Option<CreatureType>>, base: CreatureType, baseIsEntry: bool, count: nat, placed: seq<nat>,
                       draws: seq<nat>, slot: Drawn<nat>, pick: Drawn<CreatureType>)
      requires WellFormed(cat) && Known(cat, base) && |table| == AREA_CREATURES && |placed| < count
      requires FreeSlot(table, draws) == Some(slot)
      requires Recruit(cat, base, baseIsEntry, |placed| == count - 1, slot.rest) == Some(pick)
      ensures FillFrom(table, base, baseIsEntry, count, placed, draws)
              == FillFrom(table[slot.value := Some(pick.value)], base, baseIsEntry, count, placed + [slot.value], pick.rest)
    {
    }

    /**
     * The slots `placed` were free in `table0` and now hold `base` or one of
     * its leaders; every other slot is as it was.
     */
    ghost predicate Filling(table0: seq<Option<CreatureType>>, table: seq<Option<CreatureType>>, base: CreatureType, placed: seq<nat>)
      requires WellFormed(cat) && Known(cat, base)
    {
      && |table| == |table0| == AREA_CREATURES
      && Distinct(placed)
      && (forall k :: 0 <= k < |placed| ==> placed[k] < AREA_CREATURES && table0[placed[k]].None? && Placed(table, base, placed[k]))
      && (forall j :: 0 <= j < AREA_CREATURES && j !in placed ==> table[j] == table0[j])
    }

    /** Filling a free slot with a recruit of `base` extends the filling by that slot. */
    lemma FillingStep(table0: seq<Option<CreatureType>>, table: seq<Option<CreatureType>>, base: CreatureType, placed: seq<nat>,
                      j: nat, c: CreatureType)
      requires WellFormed(cat) && Known(cat, base) && Known(cat, c) && RecruitOf(cat, base, c)
      requires Filling(table0, table, base, placed) && j < AREA_CREATURES && table[j].None?
      ensures Filling(table0, table[j := Some(c)], base, placed + [j])
    {
      assert j !in placed;
      DistinctAppend(placed, j);
      var next := placed + [j];
      forall k | 0 <= k < |next| ensures Placed(table[j := Some(c)], base, next[k]) {
        if k < |placed| {
          assert next[k] == placed[k] != j;
        }
      }
    }

    /** Slot `j` of the creature table `table` holds a known creature that is `base` or one of its leaders. */
    predicate Placed(table: seq<Option<CreatureType>>, base: CreatureType, j: nat)
      requires WellFormed(cat) && Known(cat, base)
    {
      j < |table| && table[j].Some? && Known(cat, table[j].value) && RecruitOf(cat, base, table[j].value)
    }

    /** The table reset of `init`: every creature slot is emptied. */
    method ClearCreatureTable()
      requires Valid()
      modifies creatureTable
      ensures forall i :: 0 <= i < AREA_CREATURES ==> creatureTable[i].None?
    {
      var i := 0;
      while i < AREA_CREATURES
        invariant i <= AREA_CREATURES
        invariant forall j :: 0 <= j < i ==> creatureTable[j].None?
      {
        creatureTable[i] := None;
        i := i + 1;
      }
    }

    /** The flag resets of `init` for the encountered creature `m`. */
    method ResetFlags(m: Option<Encountered>)
      modifies this`encountered, this`placeCreaturesOnMap, this`placePartyOnMap, this`winOrLose, this`dungeonRoom,
               this`altarRoom, this`showMessage, this`camping
      ensures encountered == m && placeCreaturesOnMap == m.Some? && placePartyOnMap && winOrLose
      ensures !dungeonRoom && altarRoom.None? && showMessage && !camping
    {
      encountered := m;
      placeCreaturesOnMap := m.Some?;
      placePartyOnMap := true;
      winOrLose := true;
      dungeonRoom := false;
      altarRoom := None;
      showMessage := true;
      camping := false;
    }

    /**
     * `init`: resets the fight's flags, empties the creature table, adds eight
     * empty combat slots, fills the table for the encountered creature `m` and
     * gives the focus to slot 0.
     */
    method Init(m: Option<Encountered>, ctx: EncounterContext, draws: seq<nat>) returns (placed: seq<nat>, ok: bool)
      requires WellFormed(cat)
      requires Valid()
      requires m.Some? ==> Known(cat, m.value.kind)
      modifies this`encountered, this`placeCreaturesOnMap, this`placePartyOnMap, this`winOrLose, this`dungeonRoom,
               this`altarRoom, this`showMessage, this`camping, this`inCombat, this`focus, creatureTable
      ensures Initialized()
      ensures encountered == m && placeCreaturesOnMap == m.Some? && placePartyOnMap && winOrLose
      ensures !dungeonRoom && altarRoom.None? && showMessage && !camping && focus == 0
      ensures inCombat == old(inCombat) + EMPTY_SLOTS
      ensures ok <==> FillOf(EMPTY_TABLE, m, ctx, |roster|, draws).Some?
      ensures ok ==> FillOf(EMPTY_TABLE, m, ctx, |roster|, draws) == Some(Fill(creatureTable[..], placed))
      ensures Filled(m, ctx, draws, placed, ok)
      ensures forall i :: 0 <= i < AREA_CREATURES && i !in placed ==> creatureTable[i].None?
    {
      ResetFlags(m);
      ClearCreatureTable();
      assert creatureTable[..] == EMPTY_TABLE;
      inCombat := inCombat + EMPTY_SLOTS;
      placed, ok := FillCreatureTable(m, ctx, draws);
      focus := 0;
    }

    /**
     * The room properties `initDungeonRoom` sets: no win-or-lose ending, a
     * dungeon room, no exit yet, and the altar room entered, if any (left as
     * `init` reset it otherwise).
     */
    method LoadRoomFlags(roomIndex: nat, prevIsAbyss: bool, prevX: int)
      requires altarRoom.None?
      modifies this`winOrLose, this`dungeonRoom, this`exitDir, this`altarRoom
      ensures !winOrLose && dungeonRoom && exitDir == DirNone
      ensures altarRoom == AltarRoomFor(prevIsAbyss, roomIndex, prevX)
    {
      winOrLose := false;
      dungeonRoom := true;
      exitDir := DirNone;
      if !prevIsAbyss && roomIndex == 0xF {
        // which altar room the party enters
        if prevX == 3 {
          altarRoom := Some(Love);
        } else if prevX <= 2 {
          altarRoom := Some(Truth);
        } else {
          altarRoom := Some(Courage);
        }
      }
    }

    /** The creature part of `initDungeonRoom`: the room's creatures go into the empty table, and every start cell takes the room's coordinates. */
    method LoadRoomCreatures(room: DungeonRoom)
      requires WellFormed(cat)
      requires Valid() && WellSized(room) && !placeCreaturesOnMap
      requires forall i :: 0 <= i < AREA_CREATURES ==> creatureTable[i].None?
      modifies this`placeCreaturesOnMap, creatureTable, creatureStart
      ensures placeCreaturesOnMap <==> exists i :: 0 <= i < AREA_CREATURES && room.creatureTiles[i] > 0
      ensures forall i :: 0 <= i < AREA_CREATURES ==>
        creatureTable[i] == (if room.creatureTiles[i] > 0 then TypeOfTile(cat, room.creatureTiles[i]) else None)
      ensures forall i :: 0 <= i < AREA_CREATURES ==>
        creatureStart[i] == old(creatureStart[i]).(x := room.creatureStartX[i], y := room.creatureStartY[i])
    {
      var i := 0;
      while i < AREA_CREATURES
        invariant i <= AREA_CREATURES
        invariant placeCreaturesOnMap <==> exists j :: 0 <= j < i && room.creatureTiles[j] > 0
        invariant forall j :: 0 <= j < i ==>
          creatureTable[j] == (if room.creatureTiles[j] > 0 then TypeOfTile(cat, room.creatureTiles[j]) else None)
        invariant forall j :: i <= j < AREA_CREATURES ==> creatureTable[j].None?
        invariant forall j :: 0 <= j < i ==>
          creatureStart[j] == old(creatureStart[j]).(x := room.creatureStartX[j], y := room.creatureStartY[j])
        invariant forall j :: i <= j < AREA_CREATURES ==> creatureStart[j] == old(creatureStart[j])
      {
        if room.creatureTiles[i] > 0 {
          placeCreaturesOnMap := true;
          creatureTable[i] := TypeOfTile(cat, room.creatureTiles[i]);
        }
        creatureStart[i] := creatureStart[i].(x := room.creatureStartX[i], y := room.creatureStartY[i]);
        i := i + 1;
      }
    }

    /** The party part of `initDungeonRoom`: slot `i` starts at the X and Y bytes of the entry block `offset`. */
    method LoadPartyStarts(room: DungeonRoom, offset: nat)
      requires Valid() && WellSized(room) && offset < 4
      modifies playerStart
      ensures forall i :: 0 <= i < AREA_PLAYERS ==>
        playerStart[i] == old(playerStart[i]).(x := room.partyStart[PartyStartX(offset, i)],
                                               y := room.partyStart[PartyStartY(offset, i)])
    {
      var i := 0;
      while i < AREA_PLAYERS
        invariant i <= AREA_PLAYERS
        invariant forall j :: 0 <= j < i ==>
          playerStart[j] == old(playerStart[j]).(x := room.partyStart[PartyStartX(offset, j)],
                                                 y := room.partyStart[PartyStartY(offset, j)])
        invariant forall j :: i <= j < AREA_PLAYERS ==> playerStart[j] == old(playerStart[j])
      {
        playerStart[i] := playerStart[i].(x := room.partyStart[PartyStartX(offset, i)],
                                          y := room.partyStart[PartyStartY(offset, i)]);
        i := i + 1;
      }
    }

    /**
     * `initDungeonRoom`: `init` without an encountered creature, then the room's
     * creatures and start cells, its altar, and the party start cells of the
     * side entered from. Entering other than from a compass side is an error
     * (`ok == false`), raised after the creature table is loaded.
     */
    method InitDungeonRoom(room: DungeonRoom, roomIndex: nat, from: Direction, prevIsAbyss: bool, prevX: int) returns (ok: bool)
      requires WellFormed(cat)
      requires Valid() && WellSized(room)
      modifies this`encountered, this`placeCreaturesOnMap, this`placePartyOnMap, this`winOrLose, this`dungeonRoom,
               this`altarRoom, this`showMessage, this`camping, this`inCombat, this`focus, this`exitDir,
               creatureTable, creatureStart, playerStart
      ensures Initialized()
      ensures encountered.None? && placePartyOnMap && !winOrLose && dungeonRoom && exitDir == DirNone
      ensures showMessage && !camping && focus == 0
      ensures altarRoom == AltarRoomFor(prevIsAbyss, roomIndex, prevX)
      ensures inCombat == old(inCombat) + EMPTY_SLOTS
      ensures placeCreaturesOnMap <==> exists i :: 0 <= i < AREA_CREATURES && room.creatureTiles[i] > 0
      ensures forall i :: 0 <= i < AREA_CREATURES ==>
        creatureTable[i] == (if room.creatureTiles[i] > 0 then TypeOfTile(cat, room.creatureTiles[i]) else None)
      ensures forall i :: 0 <= i < AREA_CREATURES ==>
        creatureStart[i] == old(creatureStart[i]).(x := room.creatureStartX[i], y := room.creatureStartY[i])
      ensures ok <==> DirectionOffset(from).Some?
      ensures ok ==> forall i :: 0 <= i < AREA_PLAYERS ==>
        playerStart[i] == old(playerStart[i]).(x := room.partyStart[PartyStartX(DirectionOffset(from).value, i)],
                                               y := room.partyStart[PartyStartY(DirectionOffset(from).value, i)])
      ensures !ok ==> playerStart[..] == old(playerStart[..])
    {
      var placed, _ := Init(None, EncounterContext(false, false, false), []);
      LoadRoomFlags(roomIndex, prevIsAbyss, prevX);
      LoadRoomCreatures(room);
      var offset := DirectionOffset(from);
      if offset.None? {
        return false;
      }
      LoadPartyStarts(room, offset.value);
      ok := true;
    }

    /** `placeCreatures`: adds a creature for every occupied table slot at that slot's start cell. */
    method PlaceCreatures()
      requires Valid()
      modifies this`objects, this`nextUid
      ensures Valid()
      ensures objects == old(objects) + Spawn(creatureTable[..], creatureStart[..], old(nextUid), AREA_CREATURES)
      ensures nextUid == old(nextUid) + |Spawn(creatureTable[..], creatureStart[..], old(nextUid), AREA_CREATURES)|
    {
      var table, starts, objs, uid := creatureTable[..], creatureStart[..], objects, nextUid;
      var i := 0;
      while i < AREA_CREATURES
        modifies {}
        invariant i <= AREA_CREATURES
        invariant objs == objects + Spawn(table, starts, nextUid, i)
        invariant uid == nextUid + |Spawn(table, starts, nextUid, i)|
        invariant Distinct(CreatureUids(objs)) && Below(CreatureUids(objs), uid)
      {
        SpawnStep(table, starts, nextUid, objects, objs, i);
        if table[i].Some? {
          var c := CreatureObj(uid, table[i].value, starts[i]);
          AddFresh(objs, c, uid);
          objs := objs + [c];
          uid := uid + 1;
        }
        i := i + 1;
      }
      objects, nextUid := objs, uid;
    }

    /** `placePartyMembers`: every roster member not dead joins the map at its start cell and takes its combat slot. */
    method PlacePartyMembers()
      requires Initialized()
      modifies this`objects, this`inCombat
      ensures Initialized()
      ensures objects == old(objects) + Placements(roster, playerStart[..], |roster|)
      ensures inCombat == Joined(old(inCombat), roster, |roster|)
    {
      var starts, objs, slots := playerStart[..], objects, inCombat;
      var i := 0;
      while i < |roster|
        modifies {}
        invariant i <= |roster|
        invariant objs == objects + Placements(roster, starts, i)
        invariant CreatureUids(objs) == CreatureUids(objects)
        invariant slots == Joined(inCombat, roster, i)
      {
        PlacementsStep(roster, starts, objects, objs, i);
        if roster[i].status != Dead {
          objs := objs + [MemberObj(i, starts[i])];
          slots := slots[i := true];
        }
        i := i + 1;
      }
      JoinedSlots(inCombat, roster, |roster|);
      objects, inCombat := objs, slots;
    }

    /** `setActivePlayer`: the focus moves to `player` exactly when that slot's member can fight. */
    method SetActivePlayer(player: nat) returns (ok: bool)
      requires Valid() && player < |inCombat|
      modifies this`focus
      ensures Valid()
      ensures ok <==> CanFight(player)
      ensures ok ==> focus == player
      ensures !ok ==> focus == old(focus)
    {
      if inCombat[player] && !Disabled(roster[player]) {
        focus := player;
        return true;
      }
      return false;
    }

    /** The placement phase of `begin`: the party and the creatures join the map as flagged, the party first. */
    method PlaceFlagged()
      requires Initialized()
      modifies this`objects, this`inCombat, this`nextUid
      ensures Initialized()
      ensures var placed := Placements(roster, playerStart[..], |roster|);
        var spawned := Spawn(creatureTable[..], creatureStart[..], old(nextUid), AREA_CREATURES);
        objects == if placePartyOnMap && placeCreaturesOnMap then old(objects) + placed + spawned
                   else if placePartyOnMap then old(objects) + placed
                   else if placeCreaturesOnMap then old(objects) + spawned
                   else old(objects)
    {
      if placePartyOnMap {
        PlacePartyMembers();
      }
      if placeCreaturesOnMap {
        PlaceCreatures();
      }
    }

    /** The focus search of `begin`: the focus goes to the first slot whose member can fight, if there is one. */
    method FocusFirstAble() returns (ready: bool)
      requires Initialized()
      modifies this`focus
      ensures Initialized()
      ensures ready <==> exists k :: 0 <= k < AREA_PLAYERS && CanFight(k)
      ensures ready ==> CanFight(focus) && forall k :: 0 <= k < focus ==> !CanFight(k)
      ensures !ready ==> focus == old(focus)
    {
      ready := false;
      var i := 0;
      while i < AREA_PLAYERS && !ready
        invariant i <= AREA_PLAYERS
        invariant Initialized()
        invariant !ready ==> focus == old(focus) && forall k :: 0 <= k < i ==> !CanFight(k)
        invariant ready ==> CanFight(focus) && forall k :: 0 <= k < focus ==> !CanFight(k)
      {
        ready := SetActivePlayer(i);
        i := i + 1;
      }
    }

    /**
     * `begin`: places the party and the creatures as flagged, then gives the
     * focus to the first slot whose member can fight. When no one can and the
     * party is not camping, the fight's own turn is finished at once
     * (`FinishTurn`; the controller is its map's turn completer), and `turn`
     * is how it ended.
     */
    method Begin(quickness: bool, activePlayer: int, draws: seq<nat>, outcomes: seq<ActOutcome>, fuel: nat)
      returns (ready: bool, turn: Option<TurnOutcome>)
      requires Initialized() && activePlayer < |roster|
      modifies this`objects, this`inCombat, this`nextUid, this`focus, this`roster
      ensures Initialized()
      ensures ready <==> exists k :: 0 <= k < AREA_PLAYERS && CanFightIn(inCombat, old(roster), k)
      ensures turn.Some? <==> !camping && !ready
      ensures var placed := Placements(old(roster), playerStart[..], |old(roster)|);
        var spawned := Spawn(creatureTable[..], creatureStart[..], old(nextUid), AREA_CREATURES);
        var arrived := if placePartyOnMap && placeCreaturesOnMap then old(objects) + placed + spawned
                       else if placePartyOnMap then old(objects) + placed
                       else if placeCreaturesOnMap then old(objects) + spawned
                       else old(objects);
        && (turn.None? ==> objects == arrived && roster == old(roster))
        && (turn.Some? ==>
              var w := FinishTurnOf(inCombat, winOrLose, quickness, activePlayer, Turn(old(roster), arrived, old(focus)), draws, outcomes, fuel);
              turn == Some(w.outcome) && Turn(roster, objects, focus) == w.turn)
      ensures ready ==> CanFight(focus) && forall k :: 0 <= k < focus ==> !CanFight(k)
      ensures !ready && turn.None? ==> focus == old(focus)
    {
      PlaceFlagged();
      ready := FocusFirstAble();
      if ready {
        var k :| 0 <= k < AREA_PLAYERS && CanFight(k);
        assert CanFightIn(inCombat, old(roster), k);
      } else {
        forall k | 0 <= k < AREA_PLAYERS ensures !CanFightIn(inCombat, old(roster), k) {
          assert !CanFight(k);
        }
      }
      turn := None;
      if !camping && !ready {
        var outcome, _ := FinishTurn(quickness, activePlayer, draws, outcomes, fuel);
        turn := Some(outcome);
      }
    }

    /**
     * `moveCreatures`: every creature acts once, in list order; the index is
     * held back when the acting creature's slot of the list changed hands.
     * `outcomes` supplies what each action does; `complete` is false when
     * they ran out.
     */
    method MoveCreatures(outcomes: seq<ActOutcome>) returns (complete: bool, rest: seq<ActOutcome>)
      requires Valid()
      modifies this`objects, this`roster
      ensures Valid()
      ensures var r := CreatureRound(Field(old(objects), old(roster)), outcomes);
        objects == r.field.objects && roster == r.field.roster && complete == r.complete && rest == r.rest
      ensures RosterEvolved(old(roster), roster) && OnlyLeft(objects, old(objects))
    {
      var field := Field(objects, roster);
      ghost var field0 := field;
      ghost var round := CreatureRound(field, outcomes);
      var i := 0;
      ghost var acted: seq<nat> := [];
      rest := outcomes;
      var us := CreatureUids(field.objects);
      while i < |us| && rest != []
        invariant us == CreatureUids(field.objects)
        invariant MoveFrom(field, acted, i, rest) == round
        decreases |rest|
      {
        var m := us[i];
        MoveFromStep(field, acted, i, rest);
        field := ApplyAct(field, m, rest[0]);
        us := CreatureUids(field.objects);
        acted := acted + [m];
        rest := rest[1..];
        if i < |us| && us[i] != m {
          // don't skip a later creature when an earlier one leaves
        } else {
          i := i + 1;
        }
      }
      complete := i >= |us|;
      assert round == MoveResult(field, acted, rest, complete);
      RoundKeeps(field0, outcomes, nextUid);
      objects, roster := field.objects, field.roster;
    }

    /** Slot `k` holds a party member in the fight who is asleep. */
    predicate Asleep(k: nat)
      reads this`roster, this`inCombat
    {
      AsleepIn(inCombat, roster, k)
    }

    /**
     * One step of the focus in `finishTurn`: a sleeping member in the fight
     * wakes on a draw of 0 from 8, then the focus moves to the next slot,
     * wrapping to slot 0 after the last roster slot. `ok` is false when a draw
     * was needed and none was left.
     */
    method PassFocus(draws: seq<nat>) returns (rest: seq<nat>, wrapped: bool, ok: bool)
      requires Initialized()
      modifies this`focus, this`roster
      ensures Initialized() && RosterEvolved(old(roster), roster)
      ensures !ok <==> old(Asleep(focus)) && draws == []
      ensures !ok ==> focus == old(focus) && roster == old(roster) && rest == draws
      ensures ok ==> wrapped == (old(focus) + 1 == |roster|) && focus == (if wrapped then 0 else old(focus) + 1)
      ensures ok && old(Asleep(focus)) ==>
        rest == draws[1..] && roster == old(roster)[old(focus) := old(roster[focus]).(status := if Random(draws[0], 8) == 0 then Good else Sleeping)]
      ensures ok && !old(Asleep(focus)) ==> rest == draws && roster == old(roster)
    {
      rest := draws;
      wrapped := false;
      if Asleep(focus) {
        if |rest| == 0 {
          return rest, wrapped, false;
        }
        if Random(rest[0], 8) == 0 {
          roster := roster[focus := roster[focus].(status := Good)];
        }
        rest := rest[1..];
      }
      focus := focus + 1;
      if focus >= |roster| {
        focus := 0;
        wrapped := true;
      }
      ok := true;
    }

    /**
     * `finishTurn`: ends the focused member's turn. A won fight ends at once
     * when winning ends it; under the quickness aura a draw of 0 from 2 gives
     * an able member another turn. Otherwise the focus walks on
     * (`WalkFocus`). `activePlayer` is -1 when none is set; `fuel` bounds the
     * number of steps of the focus.
     */
    method FinishTurn(quickness: bool, activePlayer: int, draws: seq<nat>, outcomes: seq<ActOutcome>, fuel: nat)
      returns (outcome: TurnOutcome, rounds: nat)
      requires Initialized() && activePlayer < |roster|
      modifies this`focus, this`roster, this`objects
      ensures Initialized()
      ensures var w := FinishTurnOf(inCombat, winOrLose, quickness, activePlayer, Turn(old(roster), old(objects), old(focus)), draws, outcomes, fuel);
        outcome == w.outcome && rounds == w.rounds && Turn(roster, objects, focus) == w.turn
      ensures winOrLose && Won(old(objects)) ==>
        outcome == EndedWon && rounds == 0 && focus == old(focus) && roster == old(roster) && objects == old(objects)
      ensures outcome == Continue(true) <==>
        && !(winOrLose && Won(old(objects)))
        && quickness && old(focus) < |inCombat| && inCombat[old(focus)] && draws != [] && Random(draws[0], 2) == 0
        && !Disabled(old(roster)[old(focus)])
      ensures outcome.Continue? ==> CanFight(focus)
      ensures outcome == Continue(false) ==> !ActiveOverrides(activePlayer)
      ensures outcome == Continue(true) ==> focus == old(focus) && roster == old(roster) && objects == old(objects)
      ensures outcome == Continue(false) && rounds == 0 ==> focus > old(focus)
      ensures outcome == EndedWon ==> winOrLose && IsWon()
      ensures outcome == EndedWon && rounds > 0 ==> !IsLost()
      ensures outcome == EndedLost ==> IsLost() && rounds > 0
      ensures rounds == 0 ==> objects == old(objects)
      ensures RosterEvolved(old(roster), roster) && OnlyLeft(objects, old(objects))
    {
      if IsWon() && winOrLose {
        return EndedWon, 0;
      }
      var rest := draws;
      var quick := false;
      if quickness && inCombat[focus] {
        if |rest| == 0 {
          return Stalled, 0;
        }
        quick := Random(rest[0], 2) == 0;
        rest := rest[1..];
      }
      if quick && !Disabled(roster[focus]) {
        return Continue(true), 0;
      }
      ghost var t := Turn(roster, objects, focus);
      outcome, rounds := WalkFocus(activePlayer, rest, outcomes, fuel);
      FocusWalkEnds(inCombat, winOrLose, activePlayer, t, rest, outcomes, fuel, 0);
    }

    /**
     * One step of the focus walk of `finishTurn` (`TurnStep`): the focus
     * moves on (`PassFocus`); past the last roster slot the creatures move
     * (`MoveCreatures`) and then loss, before win, is checked. `stop` is the
     * outcome when the walk ends here.
     */
    method FocusStep(activePlayer: int, draws: seq<nat>, outcomes: seq<ActOutcome>)
      returns (rest: seq<nat>, acts: seq<ActOutcome>, moved: bool, stop: Option<TurnOutcome>)
      requires Initialized() && activePlayer < |roster|
      modifies this`focus, this`roster, this`objects
      ensures Initialized()
      ensures StepResult(Turn(roster, objects, focus), rest, acts, moved, stop)
              == TurnStep(inCombat, winOrLose, activePlayer, Turn(old(roster), old(objects), old(focus)), draws, outcomes)
      ensures RosterEvolved(old(roster), roster) && OnlyLeft(objects, old(objects))
    {
      var wrapped, ok;
      rest, wrapped, ok := PassFocus(draws);
      acts, moved, stop := outcomes, false, None;
      if !ok {
        stop := Some(Stalled);
        return;
      }
      if wrapped {
        ghost var roster1 := roster;
        var complete;
        complete, acts := MoveCreatures(outcomes);
        moved := true;
        RosterEvolvedTrans(old(roster), roster1, roster);
        if !complete {
          stop := Some(Stalled);
        } else if IsLost() {
          stop := Some(EndedLost);
        } else if IsWon() && winOrLose {
          stop := Some(EndedWon);
        }
        if stop.Some? {
          return;
        }
      }
      if CanFight(focus) && !ActiveOverrides(activePlayer) {
        stop := Some(Continue(false));
      }
    }

    /**
     * One step of the focus walk (`FocusStep`) seen from the walk: a walk of
     * `fuel` steps from the old state either stops here, with the outcome
     * `stop` and `rounds` creature rounds, or is the walk of one step less
     * from the new state. `ic` and `wol` are the combat slots and the
     * win-or-lose flag, which a step leaves alone.
     */
    method WalkStep(ghost ic: seq<bool>, ghost wol: bool, activePlayer: int, draws: seq<nat>, outcomes: seq<ActOutcome>, fuel: nat, rounds0: nat)
      returns (rest: seq<nat>, acts: seq<ActOutcome>, rounds: nat, stop: Option<TurnOutcome>)
      requires Initialized() && activePlayer < |roster| && fuel > 0 && ic == inCombat && wol == winOrLose
      modifies this`focus, this`roster, this`objects
      ensures Initialized()
      ensures stop.Some? ==>
                FocusWalk(ic, wol, activePlayer, Turn(old(roster), old(objects), old(focus)), draws, outcomes, fuel, rounds0)
                == WalkResult(stop.value, rounds, fuel - 1, Turn(roster, objects, focus), rest, acts)
      ensures stop.None? ==>
                FocusWalk(ic, wol, activePlayer, Turn(old(roster), old(objects), old(focus)), draws, outcomes, fuel, rounds0)
                == FocusWalk(ic, wol, activePlayer, Turn(roster, objects, focus), rest, acts, fuel - 1, rounds)
    {
      var moved;
      rest, acts, moved, stop := FocusStep(activePlayer, draws, outcomes);
      FocusWalkUnfold(ic, wol, activePlayer, Turn(old(roster), old(objects), old(focus)), draws, outcomes, fuel, rounds0,
                      StepResult(Turn(roster, objects, focus), rest, acts, moved, stop));
      rounds := if moved then rounds0 + 1 else rounds0;
    }

    /**
     * The do-while loop of `finishTurn`: steps of the focus (`WalkStep`)
     * until one ends the walk or the fuel runs out, exactly as `FocusWalk`
     * from no rounds specifies.
     */
    method RunFocusWalk(ghost ic: seq<bool>, ghost wol: bool, activePlayer: int, draws: seq<nat>, outcomes: seq<ActOutcome>, fuel: nat)
      returns (outcome: TurnOutcome, rounds: nat)
      requires Initialized() && activePlayer < |roster| && ic == inCombat && wol == winOrLose
      modifies this`focus, this`roster, this`objects
      ensures Initialized()
      ensures var w := FocusWalk(ic, wol, activePlayer, Turn(old(roster), old(objects), old(focus)), draws, outcomes, fuel, 0);
        outcome == w.outcome && rounds == w.rounds && Turn(roster, objects, focus) == w.turn
    {
      ghost var walk := FocusWalk(ic, wol, activePlayer, Turn(roster, objects, focus), draws, outcomes, fuel, 0);
      var rest, acts := draws, outcomes;
      var left := fuel;
      var stop: Option<TurnOutcome> := None;
      rounds := 0;
      while stop.None? && left > 0
        invariant Initialized() && ic == inCombat && wol == winOrLose
        invariant stop.None? ==> walk == FocusWalk(ic, wol, activePlayer, Turn(roster, objects, focus), rest, acts, left, rounds)
        invariant stop.Some? ==> walk == WalkResult(stop.value, rounds, left, Turn(roster, objects, focus), rest, acts)
        decreases left
      {
        rest, acts, rounds, stop := WalkStep(ic, wol, activePlayer, rest, acts, left, rounds);
        left := left - 1;
      }
      outcome := if stop.None? then Stalled else stop.value;
    }

    /**
     * The focus walk of `finishTurn` (`FocusWalk` from no rounds), then the
     * focus handed to the member it found. `rounds` counts the creature
     * rounds started.
     */
    method WalkFocus(activePlayer: int, draws: seq<nat>, outcomes: seq<ActOutcome>, fuel: nat)
      returns (outcome: TurnOutcome, rounds: nat)
      requires Initialized() && activePlayer < |roster|
      modifies this`focus, this`roster, this`objects
      ensures Initialized()
      ensures var w := FocusWalk(inCombat, winOrLose, activePlayer, Turn(old(roster), old(objects), old(focus)), draws, outcomes, fuel, 0);
        outcome == w.outcome && rounds == w.rounds && Turn(roster, objects, focus) == w.turn
      ensures outcome.Continue? && rounds == 0 ==> focus > old(focus)
      ensures RosterEvolved(old(roster), roster) && OnlyLeft(objects, old(objects))
    {
      outcome, rounds := RunFocusWalk(inCombat, winOrLose, activePlayer, draws, outcomes, fuel);
      ghost var t0 := Turn(old(roster), old(objects), old(focus));
      WalkKeeps(inCombat, winOrLose, activePlayer, t0, draws, outcomes, fuel, 0, old(nextUid));
      FocusWalkEnds(inCombat, winOrLose, activePlayer, t0, draws, outcomes, fuel, 0);
      if outcome == Continue(false) {
        var _ := SetActivePlayer(focus);
      }
    }

    /** The walk along the path in `attack`: strikes at each cell in turn, nearest first, until one has a target. */
    method WalkAlong(path: seq<Coords>, w: Weapon, range: nat, prevIsAbyss: bool, bonus: int, draws: seq<nat>)
      returns (walk: Option<PathWalk>)
      ensures walk == WalkPath(objects, path, w, range, prevIsAbyss, bonus, draws)
    {
      var rest := draws;
      var k := 0;
      while k < |path|
        invariant k <= |path|
        invariant WalkFrom(objects, path, k, w, range, prevIsAbyss, bonus, rest) == WalkPath(objects, path, w, range, prevIsAbyss, bonus, draws)
        decreases |path| - k
      {
        var s := StrikeAt(objects, path[k], w, range, k + 1, prevIsAbyss, bonus, rest);
        if s.None? {
          return None;
        }
        if !s.value.value.NoTarget? {
          return Some(PathWalk(s.value.value, k + 1, s.value.rest));
        }
        rest := s.value.rest;
        k := k + 1;
      }
      return Some(PathWalk(NoTarget, |path|, rest));
    }

    /**
     * `attack`: the focused member strikes along `path`, the cells in
     * direction `dir` up to the attack's range, nearest first; the first cell
     * with a target takes the strike. `choice` is the range typed for a weapon
     * whose distance can be chosen; `slays` says whether a hit kills its victim.
     */
    method Attack(dir: Direction, choice: int, path: seq<Coords>, prevIsAbyss: bool, draws: seq<nat>, slays: bool)
      returns (report: AttackReport)
      requires Initialized() && inCombat[focus]
      modifies this`objects
      ensures Initialized()
      ensures report.Abandoned? <==> dir == DirNone || ChosenRange(roster[focus].weapon, choice).None?
      ensures report.Abandoned? || report.OutOfDraws? ==> objects == old(objects)
      ensures !report.Abandoned? ==>
        var walk := WalkPath(old(objects), path, roster[focus].weapon, ChosenRange(roster[focus].weapon, choice).value,
                             prevIsAbyss, roster[focus].attackBonus, draws);
        && (report.OutOfDraws? <==> walk.None?)
        && (report.Made? ==>
              && report.strike == walk.value.strike
              && report.distance == walk.value.distance
              && report.weaponLost == WeaponLost(roster[focus].weapon, !walk.value.strike.NoTarget?, walk.value.distance)
              && objects == if report.strike.Struck? && slays then RemoveCreature(old(objects), report.strike.victim) else old(objects))
    {
      if dir == DirNone {
        return Abandoned;
      }
      var attacker := roster[focus];
      var range := ChosenRange(attacker.weapon, choice);
      if range.None? {
        return Abandoned;
      }
      var walk := WalkAlong(path, attacker.weapon, range.value, prevIsAbyss, attacker.attackBonus, draws);
      if walk.None? {
        return OutOfDraws;
      }
      var strike := walk.value.strike;
      var lost := WeaponLost(attacker.weapon, !strike.NoTarget?, walk.value.distance);
      if strike.Struck? && slays {
        ghost var us := CreatureUids(objects);
        WithoutDistinct(us, strike.victim);
        objects := RemoveCreature(objects, strike.victim);
        BelowSubset(CreatureUids(objects), us, nextUid);
      }
      report := Made(strike, walk.value.distance, lost);
    }

    /** The state `end` decides on: the party is dead when every roster member is, and the fight is won when no creature is left. */
    function EndingOf(adjustKarma: bool, site: LootSite, outerIsCombat: bool): (x: Ending)
      reads this
      ensures x.partyDead <==> forall k :: 0 <= k < |roster| ==> roster[k].status == Dead
      ensures x.won <==> forall o {:trigger o in objects} :: o in objects ==> !o.CreatureObj?
      ensures x.winOrLose == winOrLose && x.encountered == encountered && x.dungeonRoom == dungeonRoom
      ensures x.altarRoom == altarRoom && x.exitDir == exitDir
    {
      Ending(forall k :: 0 <= k < |roster| ==> roster[k].status == Dead, IsWon(), winOrLose, adjustKarma,
             encountered, site, dungeonRoom, altarRoom, exitDir, outerIsCombat)
    }
  }
}
