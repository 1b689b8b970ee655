/** The periodic sweep: what it removes, and why the order of its loops does not matter. */
module RoomSweep {
  import opened RoomState
  import opened RoomInvariant

  // ---- what a sweep does ----

  /** A replaced host was offline, so its successor is somebody else. */
  lemma ReplacedHostOffline(c: Core, r: Id, now: int)
    requires Inv(c) && Replaces(c, r, now)
    ensures c.rooms[r].host in c.members ==>
      !c.members[c.rooms[r].host].connected && c.members[c.rooms[r].host].room == r
    ensures var next := Successor(c.members, r);
            next in c.members && c.members[next].room == r && c.members[next].connected && next != c.rooms[r].host
            && !SweptAway(c, next, now) && Rises(c, next, now)
  {
    assert DeadlinesOk(c, r);
  }

  /** A sweep never removes a connected member. */
  lemma SweptAwayIsOffline(c: Core, m: Id, now: int)
    requires Inv(c) && m in c.members && SweptAway(c, m, now)
    ensures !c.members[m].connected
  {
    var r := c.members[m].room;
    assert MemberOk(c, m) && DeadlinesOk(c, r);
    if Replaces(c, r, now) {
      ReplacedHostOffline(c, r, now);
    }
    assert c.members[m].connected ==> AnyOnline(c.members, r);
  }

  lemma SweptMemberOk(c: Core, m: Id, now: int)
    requires Inv(c) && m in c.members && !SweptAway(c, m, now)
    ensures MemberOk(Swept(c, now), m)
  {
    var r := c.members[m].room;
    assert MemberOk(c, m);
    if Replaces(c, r, now) {
      ReplacedHostOffline(c, r, now);
    }
  }

  lemma SweptDeadlinesOk(c: Core, r: Id, now: int)
    requires Inv(c) && r in c.rooms && !Dead(c, r, now)
    ensures DeadlinesOk(Swept(c, now), r)
  {
    var d := Swept(c, now);
    assert DeadlinesOk(c, r);
    if Replaces(c, r, now) {
      ReplacedHostOffline(c, r, now);
    }
    if AnyOnline(d.members, r) {
      var m :| m in d.members && d.members[m].room == r && d.members[m].connected;
      assert m in c.members && c.members[m].connected;
    }
  }

  lemma SweptKeeps(c: Core, now: int)
    requires Inv(c)
    ensures Inv(Swept(c, now))
  {
    var d := Swept(c, now);
    IdentityKept(c, d);
    forall m | m in d.members
      ensures MemberOk(d, m)
    {
      SweptMemberOk(c, m, now);
    }
    forall r | r in d.rooms
      ensures DeadlinesOk(d, r)
    {
      SweptDeadlinesOk(c, r, now);
    }
  }

  /** Nothing is left for a second sweep at the same moment. */
  lemma NothingLeft(c: Core, now: int)
    requires Inv(c)
    ensures var d := Swept(c, now);
            && (forall r :: r in d.rooms ==> !Dead(d, r, now) && !Replaces(d, r, now))
            && (forall m :: m in d.members ==> !SweptAway(d, m, now))
  {
  }

  lemma SweepIdempotent(c: Core, now: int)
    requires Inv(c)
    ensures Swept(Swept(c, now), now) == Swept(c, now)
  {
    NothingLeft(c, now);
    NothingDue(Swept(c, now), now);
  }

  /** Where nothing is due a sweep changes nothing. */
  lemma NothingDue(c: Core, now: int)
    requires forall r :: r in c.rooms ==> !Dead(c, r, now) && !Replaces(c, r, now)
    requires forall m :: m in c.members ==> !SweptAway(c, m, now)
    ensures Swept(c, now) == c
  {
    assert Swept(c, now).rooms == c.rooms;
    assert Swept(c, now).members == c.members;
  }

  // ---- the loops, one element at a time ----

  predicate Demoted(c: Core, m: Id, done: set<Id>, now: int)
    requires m in c.members
  {
    var r := c.members[m].room;
    r in done && Replaces(c, r, now) && c.rooms[r].host == m
  }

  /** The state when the first loop has visited these rooms. */
  ghost function HostsDone(c: Core, done: set<Id>, now: int): Core {
    Core(map r | r in c.rooms :: if r in done then SweptRoom(c, r, now) else c.rooms[r],
         map m | m in c.members && !Demoted(c, m, done, now) ::
           if c.members[m].room in done then SweptMember(c, m, now) else c.members[m])
  }

  /** Candidates of a room not yet visited are as they were. */
  lemma CandidatesKept(c: Core, done: set<Id>, r: Id, now: int)
    requires r !in done
    ensures Candidates(HostsDone(c, done, now).members, r) == Candidates(c.members, r)
    ensures Candidates(c.members, r) != {} ==> Successor(HostsDone(c, done, now).members, r) in c.members
  {
  }

  lemma SuccessorKept(c: Core, done: set<Id>, r: Id, now: int)
    requires Inv(c) && r !in done && Candidates(c.members, r) != {}
    ensures Candidates(HostsDone(c, done, now).members, r) != {}
    ensures Successor(HostsDone(c, done, now).members, r) == Successor(c.members, r)
  {
    var d := HostsDone(c, done, now);
    CandidatesKept(c, done, r, now);
    var next := Successor(d.members, r);
    forall m | m in Candidates(c.members, r)
      ensures c.members[next].order <= c.members[m].order
    {
      assert m in Candidates(d.members, r);
      assert d.members[m] == c.members[m] && d.members[next] == c.members[next];
    }
    assert IsLeast(c.members, Candidates(c.members, r), next);
    SuccessorUnique(c, r, next);
  }

  /** Promoting over an offline predecessor removes it and changes one other record. */
  lemma PromotedShape(d: Core, r: Id, next: Id)
    requires r in d.rooms && next in d.members && d.rooms[r].host != next
    requires d.rooms[r].host in d.members ==> !d.members[d.rooms[r].host].connected
    ensures var p := Promoted(d, r, next).members;
            && p.Keys == d.members.Keys - {d.rooms[r].host}
            && forall m :: m in p ==>
                 p[m] == if m == next then d.members[m].(isHost := true, canSpeak := true) else d.members[m]
  {
  }

  /** The same shape, from the closed form. */
  lemma HostsDoneShape(c: Core, done: set<Id>, r: Id, now: int)
    requires Inv(c) && r !in done && Replaces(c, r, now)
    ensures var d, e := HostsDone(c, done, now).members, HostsDone(c, done + {r}, now).members;
            var next := Successor(c.members, r);
            && next in d && d[next] == c.members[next]
            && e.Keys == d.Keys - {c.rooms[r].host}
            && forall m :: m in e ==> e[m] == if m == next then d[m].(isHost := true, canSpeak := true) else d[m]
  {
    var d, e := HostsDone(c, done, now).members, HostsDone(c, done + {r}, now).members;
    ReplacedHostOffline(c, r, now);
    forall m | m in c.members
      ensures m in e <==> m in d && m != c.rooms[r].host
    {
      assert Demoted(c, m, done + {r}, now) <==>
        Demoted(c, m, done, now) || (m == c.rooms[r].host && c.members[m].room == r);
    }
  }

  /** Two member maps of that shape are the same. */
  lemma SameShape(d: Members, e: Members, p: Members, host: Id, next: Id)
    requires e.Keys == d.Keys - {host} && p.Keys == d.Keys - {host}
    requires forall m :: m in e ==> e[m] == if m == next then d[m].(isHost := true, canSpeak := true) else d[m]
    requires forall m :: m in p ==> p[m] == if m == next then d[m].(isHost := true, canSpeak := true) else d[m]
    ensures e == p
  {
  }

  lemma ReplacedRooms(c: Core, done: set<Id>, r: Id, now: int)
    requires r !in done && Replaces(c, r, now)
    requires Successor(c.members, r) in HostsDone(c, done, now).members
    requires HostsDone(c, done, now).members[Successor(c.members, r)] == c.members[Successor(c.members, r)]
    ensures HostsDone(c, done + {r}, now).rooms == Promoted(HostsDone(c, done, now), r, Successor(c.members, r)).rooms
  {
  }

  lemma VisitReplaced(c: Core, done: set<Id>, r: Id, now: int)
    requires Inv(c) && r !in done && Replaces(c, r, now)
    ensures r in HostsDone(c, done, now).rooms && Successor(c.members, r) in HostsDone(c, done, now).members
    ensures HostsDone(c, done + {r}, now) == Promoted(HostsDone(c, done, now), r, Successor(c.members, r))
  {
    var d, e := HostsDone(c, done, now), HostsDone(c, done + {r}, now);
    var next := Successor(c.members, r);
    HostsDoneShape(c, done, r, now);
    ReplacedRooms(c, done, r, now);
    ReplacedShape(c, done, r, now);
    SameShape(d.members, e.members, Promoted(d, r, next).members, c.rooms[r].host, next);
  }

  lemma ReplacedShape(c: Core, done: set<Id>, r: Id, now: int)
    requires Inv(c) && r !in done && Replaces(c, r, now)
    requires Successor(c.members, r) in HostsDone(c, done, now).members
    ensures var d, next := HostsDone(c, done, now), Successor(c.members, r);
            var p := Promoted(d, r, next).members;
            && p.Keys == d.members.Keys - {c.rooms[r].host}
            && forall m :: m in p ==>
                 p[m] == if m == next then d.members[m].(isHost := true, canSpeak := true) else d.members[m]
  {
    ReplacedHostOffline(c, r, now);
    HostRecordKept(c, done, r, now);
    PromotedShape(HostsDone(c, done, now), r, Successor(c.members, r));
  }

  lemma HostRecordKept(c: Core, done: set<Id>, r: Id, now: int)
    requires Inv(c) && r !in done && r in c.rooms
    ensures var d, host := HostsDone(c, done, now), c.rooms[r].host;
            && r in d.rooms && d.rooms[r] == c.rooms[r]
            && (host in d.members ==> host in c.members && d.members[host] == c.members[host])
  {
    assert DeadlinesOk(c, r);
  }

  lemma VisitOther(c: Core, done: set<Id>, r: Id, now: int)
    requires r in c.rooms && !Replaces(c, r, now)
    ensures HostsDone(c, done + {r}, now) == HostsDone(c, done, now)
  {
  }

  /** Visiting one more room: assignHostLocked when its host timed out, nothing otherwise. */
  lemma VisitRoom(c: Core, done: set<Id>, r: Id, now: int)
    requires Inv(c) && r in c.rooms && r !in done
    ensures var d := HostsDone(c, done, now);
            && r in d.rooms && d.rooms[r] == c.rooms[r]
            && HostsDone(c, done + {r}, now)
               == if !Dead(c, r, now) && Passed(c.rooms[r].hostDeadline, now) then Assigned(d, r) else d
  {
    CandidatesKept(c, done, r, now);
    if Replaces(c, r, now) {
      SuccessorKept(c, done, r, now);
      VisitReplaced(c, done, r, now);
    } else {
      VisitOther(c, done, r, now);
    }
    HostRecordKept(c, done, r, now);
  }

  /** The state when the second loop has visited these members. */
  ghost function MembersDone(c: Core, done: set<Id>, now: int): Core {
    var h := HostsDone(c, c.rooms.Keys, now);
    h.(members := map m | m in h.members && !(m in done && Expired(h.members[m], now)) :: h.members[m])
  }

  /** Visiting one more member. */
  lemma VisitMember(c: Core, done: set<Id>, m: Id, now: int)
    requires m in MembersDone(c, done, now).members
    ensures var d := MembersDone(c, done, now);
            MembersDone(c, done + {m}, now) == if Expired(d.members[m], now) then d.(members := d.members - {m}) else d
  {
  }

  /** The state when the dead rooms in this set have been deleted. */
  ghost function RoomsDone(c: Core, done: set<Id>, now: int): Core {
    var d := MembersDone(c, c.members.Keys, now);
    Core(d.rooms - done, map m | m in d.members && d.members[m].room !in done :: d.members[m])
  }

  lemma VisitDead(c: Core, done: set<Id>, r: Id, now: int)
    ensures RoomsDone(c, done + {r}, now) == Deleted(RoomsDone(c, done, now), r)
  {
  }

  function DeadAmong(c: Core, done: set<Id>, now: int): set<Id> {
    set r | r in done && Dead(c, r, now)
  }

  /** Visiting one more room notes it or not. */
  lemma NoteRoom(c: Core, done: set<Id>, r: Id, now: int)
    ensures DeadAmong(c, done + {r}, now)
            == if Dead(c, r, now) then DeadAmong(c, done, now) + {r} else DeadAmong(c, done, now)
  {
  }

  function DeadRooms(c: Core, now: int): set<Id> {
    DeadAmong(c, c.rooms.Keys, now)
  }

  /** The three loops together compute the closed form, whatever order each ran in. */
  lemma LoopsAreSwept(c: Core, now: int)
    requires Inv(c)
    ensures RoomsDone(c, DeadRooms(c, now), now) == Swept(c, now)
  {
    var e, s := RoomsDone(c, DeadRooms(c, now), now), Swept(c, now);
    LoopsRooms(c, now);
    LoopsSubset(c, now);
    forall m | m in c.members
      ensures m in e.members <==> m in s.members
      ensures m in s.members && m in e.members ==> e.members[m] == s.members[m]
    {
      LoopsMember(c, m, now);
    }
    SameMembers(c, e.members, s.members);
  }

  lemma LoopsRooms(c: Core, now: int)
    ensures RoomsDone(c, DeadRooms(c, now), now).rooms == Swept(c, now).rooms
  {
  }

  lemma LoopsSubset(c: Core, now: int)
    ensures RoomsDone(c, DeadRooms(c, now), now).members.Keys <= c.members.Keys
    ensures Swept(c, now).members.Keys <= c.members.Keys
  {
  }

  lemma SameMembers(c: Core, a: Members, b: Members)
    requires a.Keys <= c.members.Keys && b.Keys <= c.members.Keys
    requires forall m :: m in c.members ==> (m in a <==> m in b) && (m in a && m in b ==> a[m] == b[m])
    ensures a == b
  {
  }

  lemma LoopsMember(c: Core, m: Id, now: int)
    requires Inv(c) && m in c.members
    ensures var e, s := RoomsDone(c, DeadRooms(c, now), now).members, Swept(c, now).members;
            (m in e <==> m in s) && (m in e && m in s ==> e[m] == s[m])
  {
  }

  /** Before a loop has visited anything. */
  lemma NoHostVisited(c: Core, now: int)
    ensures HostsDone(c, {}, now) == c && DeadAmong(c, {}, now) == {}
  {
  }

  lemma NoMemberVisited(c: Core, now: int)
    ensures MembersDone(c, {}, now) == HostsDone(c, c.rooms.Keys, now)
  {
  }

  lemma NoneDeleted(c: Core, now: int)
    ensures RoomsDone(c, {}, now) == MembersDone(c, c.members.Keys, now)
  {
  }

  /** Visiting everyone left is visiting everyone. */
  lemma AllMembersVisited(c: Core, done: set<Id>, now: int)
    requires HostsDone(c, c.rooms.Keys, now).members.Keys <= done
    ensures MembersDone(c, done, now) == MembersDone(c, c.members.Keys, now)
  {
  }
}
