/**
 * Queries and updates on the object list of a combat map: the creatures and
 * the party members standing on it, what stands on a cell, and the removals
 * and moves that creature actions cause.
 */
module CombatMap {
  import opened Wrappers
  import opened CombatTypes

  /** `CombatMap::getCreatures`: the creature objects of the map, in list order. */
  function GetCreatures(objs: seq<MapObject>): (cs: seq<MapObject>)
    ensures |cs| <= |objs|
    ensures forall o {:trigger o in cs} {:trigger o in objs} :: o in cs <==> o in objs && o.CreatureObj?
  {
    if objs == [] then []
    else if objs[0].CreatureObj? then [objs[0]] + GetCreatures(objs[1..]) else GetCreatures(objs[1..])
  }

  /** `CombatMap::getPartyMembers`: the party member objects of the map, in list order. */
  function GetPartyMembers(objs: seq<MapObject>): (ps: seq<MapObject>)
    ensures |ps| <= |objs|
    ensures forall o {:trigger o in ps} {:trigger o in objs} :: o in ps <==> o in objs && o.MemberObj?
  {
    if objs == [] then []
    else if objs[0].MemberObj? then [objs[0]] + GetPartyMembers(objs[1..]) else GetPartyMembers(objs[1..])
  }

  lemma {:induction false} GetCreaturesAppend(a: seq<MapObject>, b: seq<MapObject>)
    ensures GetCreatures(a + b) == GetCreatures(a) + GetCreatures(b)
  {
    if a == [] {
      assert a + b == b;
    } else {
      assert (a + b)[0] == a[0] && (a + b)[1..] == a[1..] + b;
      GetCreaturesAppend(a[1..], b);
    }
  }

  lemma {:induction false} GetPartyMembersAppend(a: seq<MapObject>, b: seq<MapObject>)
    ensures GetPartyMembers(a + b) == GetPartyMembers(a) + GetPartyMembers(b)
  {
    if a == [] {
      assert a + b == b;
    } else {
      assert (a + b)[0] == a[0] && (a + b)[1..] == a[1..] + b;
      GetPartyMembersAppend(a[1..], b);
    }
  }

  /** The first object of `s` standing on `c`. */
  function FirstAt(s: seq<MapObject>, c: Coords): (r: Option<MapObject>)
    ensures r.Some? ==> r.value in s && r.value.coords == c
    ensures r.None? <==> forall o {:trigger o in s} :: o in s ==> o.coords != c
  {
    if s == [] then None
    else if s[0].coords == c then Some(s[0])
    else
      assert forall o {:trigger o in s} :: o in s ==> o == s[0] || o in s[1..];
      FirstAt(s[1..], c)
  }

  /** The object found is the first on `c` in list order: every object before it stands elsewhere. */
  lemma {:induction false} FirstAtIsFirst(s: seq<MapObject>, c: Coords)
    requires FirstAt(s, c).Some?
    ensures exists k :: 0 <= k < |s| && s[k] == FirstAt(s, c).value && forall j :: 0 <= j < k ==> s[j].coords != c
  {
    if s[0].coords != c {
      FirstAtIsFirst(s[1..], c);
      var k :| 0 <= k < |s[1..]| && s[1..][k] == FirstAt(s, c).value && forall j :: 0 <= j < k ==> s[1..][j].coords != c;
      assert s[k + 1] == FirstAt(s, c).value;
      assert forall j :: 0 <= j < k + 1 ==> s[j].coords != c by {
        forall j | 0 <= j < k + 1 ensures s[j].coords != c {
          if j > 0 { assert s[j] == s[1..][j - 1]; }
        }
      }
    } else {
      assert s[0] == FirstAt(s, c).value;
    }
  }

  /** `CombatMap::creatureAt`: the first creature standing on `c`, if any. */
  function CreatureAt(objs: seq<MapObject>, c: Coords): (r: Option<MapObject>)
    ensures r.Some? ==> r.value.CreatureObj? && r.value in objs && r.value.coords == c
    ensures r.None? <==> forall o {:trigger o in objs} :: o in objs && o.CreatureObj? ==> o.coords != c
  {
    FirstAt(GetCreatures(objs), c)
  }

  /** `CombatMap::partyMemberAt`: the first party member standing on `c`, if any. */
  function PartyMemberAt(objs: seq<MapObject>, c: Coords): (r: Option<MapObject>)
    ensures r.Some? ==> r.value.MemberObj? && r.value in objs && r.value.coords == c
    ensures r.None? <==> forall o {:trigger o in objs} :: o in objs && o.MemberObj? ==> o.coords != c
  {
    FirstAt(GetPartyMembers(objs), c)
  }

  /** The identities of the creatures on the map, in the order `GetCreatures` lists them. */
  function CreatureUids(objs: seq<MapObject>): seq<nat>
  {
    if objs == [] then []
    else if objs[0].CreatureObj? then [objs[0].uid] + CreatureUids(objs[1..]) else CreatureUids(objs[1..])
  }

  lemma {:induction false} CreatureUidsAppend(a: seq<MapObject>, b: seq<MapObject>)
    ensures CreatureUids(a + b) == CreatureUids(a) + CreatureUids(b)
  {
    if a == [] {
      assert a + b == b;
    } else {
      assert (a + b)[0] == a[0] && (a + b)[1..] == a[1..] + b;
      CreatureUidsAppend(a[1..], b);
    }
  }

  /** No value occurs twice in `s`. */
  predicate Distinct(s: seq<nat>)
  {
    s == [] || (s[0] !in s[1..] && Distinct(s[1..]))
  }

  /** `Distinct` by positions: no two positions of `s` hold the same value. */
  lemma {:induction false} DistinctIndexed(s: seq<nat>)
    ensures Distinct(s) <==> forall a, b :: 0 <= a < b < |s| ==> s[a] != s[b]
  {
    if s != [] {
      var t := s[1..];
      DistinctIndexed(t);
      if Distinct(s) {
        forall a, b | 0 <= a < b < |s| ensures s[a] != s[b] {
          assert s[b] == t[b - 1];
          if a > 0 {
            assert s[a] == t[a - 1];
          } else {
            assert s[b] in t;
          }
        }
      }
      if forall a, b :: 0 <= a < b < |s| ==> s[a] != s[b] {
        forall a, b | 0 <= a < b < |t| ensures t[a] != t[b] {
          assert t[a] == s[a + 1] && t[b] == s[b + 1];
        }
        forall k | 0 <= k < |t| ensures t[k] != s[0] {
          assert t[k] == s[k + 1];
        }
      }
    }
  }

  /** A value not yet in a sequence without repetitions can be appended to it. */
  lemma {:induction false} DistinctAppend(s: seq<nat>, x: nat)
    requires Distinct(s) && x !in s
    ensures Distinct(s + [x])
  {
    if s != [] {
      DistinctAppend(s[1..], x);
      assert (s + [x])[1..] == s[1..] + [x];
    }
  }

  /** `s` with every occurrence of `u` taken out. */
  function Without(s: seq<nat>, u: nat): (r: seq<nat>)
    ensures |r| <= |s|
    ensures forall x :: x in r <==> x in s && x != u
  {
    if s == [] then []
    else if s[0] == u then Without(s[1..], u)
    else [s[0]] + Without(s[1..], u)
  }

  lemma {:induction false} WithoutAppend(a: seq<nat>, b: seq<nat>, u: nat)
    ensures Without(a + b, u) == Without(a, u) + Without(b, u)
  {
    if a == [] {
      assert a + b == b;
    } else {
      assert (a + b)[0] == a[0] && (a + b)[1..] == a[1..] + b;
      WithoutAppend(a[1..], b, u);
    }
  }

  lemma {:induction false} WithoutAbsent(s: seq<nat>, u: nat)
    requires u !in s
    ensures Without(s, u) == s
  {
    if s != [] {
      WithoutAbsent(s[1..], u);
    }
  }

  /** In a sequence without repetitions, taking `u` out removes exactly the one position holding it. */
  lemma {:induction false} WithoutAt(s: seq<nat>, p: nat)
    requires Distinct(s) && p < |s|
    ensures Without(s, s[p]) == s[..p] + s[p + 1..]
  {
    if p == 0 {
      assert s[0] !in s[1..];
      WithoutAbsent(s[1..], s[0]);
    } else {
      WithoutAt(s[1..], p - 1);
      assert s[1..][..p - 1] + s[1..][p..] == s[1..p] + s[p + 1..];
      assert [s[0]] + s[1..p] == s[..p];
    }
  }

  lemma {:induction false} WithoutDistinct(s: seq<nat>, u: nat)
    requires Distinct(s)
    ensures Distinct(Without(s, u))
  {
    if s != [] {
      WithoutDistinct(s[1..], u);
      if s[0] != u {
        var r := Without(s[1..], u);
        assert s[0] !in r;
        assert ([s[0]] + r)[1..] == r;
      }
    }
  }

  /** Takes the creature with identity `u` off the map (it fled or was slain). */
  function RemoveCreature(objs: seq<MapObject>, u: nat): (r: seq<MapObject>)
    ensures CreatureUids(r) == Without(CreatureUids(objs), u)
    ensures GetPartyMembers(r) == GetPartyMembers(objs)
  {
    if objs == [] then []
    else
      var head := if objs[0].CreatureObj? && objs[0].uid == u then [] else [objs[0]];
      var rest := RemoveCreature(objs[1..], u);
      GetPartyMembersAppend(head, rest);
      CreatureUidsAppend(head, rest);
      CreatureUidsAppend([objs[0]], objs[1..]);
      assert [objs[0]] + objs[1..] == objs;
      WithoutAppend(CreatureUids([objs[0]]), CreatureUids(objs[1..]), u);
      head + rest
  }

  /** Puts the creature with identity `u` on cell `c`. */
  function MoveCreature(objs: seq<MapObject>, u: nat, c: Coords): (r: seq<MapObject>)
    ensures CreatureUids(r) == CreatureUids(objs)
    ensures GetPartyMembers(r) == GetPartyMembers(objs)
  {
    if objs == [] then []
    else
      var head := if objs[0].CreatureObj? && objs[0].uid == u then CreatureObj(u, objs[0].kind, c) else objs[0];
      [head] + MoveCreature(objs[1..], u, c)
  }

  /** Whether the party member fighting from `slot` stands on the map. */
  predicate MemberOnMap(objs: seq<MapObject>, slot: nat)
  {
    exists o {:trigger o in objs} :: o in objs && o.MemberObj? && o.slot == slot
  }

  /** Takes the party member fighting from `slot` off the map. */
  function RemoveMember(objs: seq<MapObject>, slot: nat): (r: seq<MapObject>)
    ensures CreatureUids(r) == CreatureUids(objs)
    ensures GetCreatures(r) == GetCreatures(objs)
    ensures forall o {:trigger o in GetPartyMembers(r)} {:trigger o in GetPartyMembers(objs)} :: o in GetPartyMembers(r) <==> o in GetPartyMembers(objs) && o.slot != slot
  {
    if objs == [] then []
    else
      var head := if objs[0].MemberObj? && objs[0].slot == slot then [] else [objs[0]];
      var rest := RemoveMember(objs[1..], slot);
      GetCreaturesAppend(head, rest);
      CreatureUidsAppend(head, rest);
      head + rest
  }
}
