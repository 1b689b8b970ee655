/**
 What the code does not promise of a room, and exactly when it holds nevertheless: a live host, an
 empty deadline, no deadline while connected, the host's nickname; and when a room ends.
 */
module RoomLifetime {
  import opened Collections
  import opened RoomState
  import opened RoomInvariant
  import opened RoomMachine
  import opened HandlerOutcomes
  import Admission
  import RoomSweep

  // ---- leaving ----

  function Without(c: Core, m: Id): Core {
    c.(members := c.members - {m})
  }

  /** The succession after a host left: the first connected member takes over, or nothing changes. */
  lemma Succession(c: Core, m: Id)
    requires Inv(c) && m in c.members && c.members[m].isHost
    ensures var r := c.members[m].room;
            r in c.rooms && c.rooms[r].host == m
    ensures var r := c.members[m].room;
            var d := Assigned(Without(c, m), r);
            && d.rooms.Keys == c.rooms.Keys && d.members.Keys == c.members.Keys - {m}
            && (forall x :: x in d.members ==>
                  d.members[x].room == c.members[x].room && d.members[x].connected == c.members[x].connected)
            && (forall x :: x in d.rooms && x != r ==> d.rooms[x] == c.rooms[x])
            && (Candidates(Without(c, m).members, r) == {} ==> d == Without(c, m))
            && (Candidates(Without(c, m).members, r) != {} ==>
                  var next := d.rooms[r].host;
                  next in d.members && d.members[next].room == r && d.members[next].connected
                  && d.rooms[r] == c.rooms[r].(host := next, hostNickname := c.members[next].nickname,
                                               hostDeadline := None))
  {
    var r := c.members[m].room;
    assert MemberOk(c, m);
    var w := Without(c, m);
    if Candidates(w.members, r) != {} {
      RerolledIdentity(w.members, m, Successor(w.members, r));
    }
  }

  /** Who is left in the room. */
  lemma InWithout(c: Core, m: Id, r: Id)
    requires m in c.members && c.members[m].room == r
    ensures In(Without(c, m).members, r) == In(c.members, r) - {m}
    ensures In(Without(c, m).members, r) == {} <==> In(c.members, r) == {m}
  {
    assert m in In(c.members, r);
    assert In(Without(c, m).members, r) == In(c.members, r) - {m};
  }

  lemma OnlyMember(ms: Members, m: Id, r: Id)
    requires In(ms, r) == {m}
    ensures forall x :: x in ms && ms[x].room == r ==> x == m
  {
    forall x | x in ms && ms[x].room == r
      ensures x == m
    {
      assert x in In(ms, r);
    }
  }

  lemma SameIn(ms: Members, ns: Members, r: Id)
    requires ms.Keys == ns.Keys && forall x :: x in ms ==> ms[x].room == ns[x].room
    ensures In(ms, r) == In(ns, r)
  {
  }

  /**
   When the host leaves, its room ends if and only if nobody else is in it.  Otherwise it stands, and has a
   live host if and only if somebody else is connected, who then is connected itself; else its record stays
   and names the host that left.
   */
  lemma HostLeaves(c: Core, m: Id)
    requires Inv(c) && m in c.members && c.members[m].isHost
    ensures var r, d := c.members[m].room, Left(c, m);
            && r in c.rooms && (r in d.rooms <==> In(c.members, r) != {m})
            && (r in d.rooms ==> d == Assigned(Without(c, m), r))
            && (r in d.rooms ==> (d.rooms[r].host in d.members <==> Candidates(Without(c, m).members, r) != {}))
            && (r in d.rooms && d.rooms[r].host in d.members ==> d.members[d.rooms[r].host].connected)
            && (r in d.rooms && d.rooms[r].host !in d.members ==> d.rooms[r] == c.rooms[r])
  {
    var r := c.members[m].room;
    Succession(c, m);
    InWithout(c, m, r);
    SameIn(Assigned(Without(c, m), r).members, Without(c, m).members, r);
  }

  /** Other rooms and their members do not notice. */
  lemma HostLeavesOther(c: Core, m: Id, r: Id)
    requires Inv(c) && m in c.members && c.members[m].isHost && r in c.rooms && c.members[m].room != r
    ensures var d := Left(c, m);
            && r in d.rooms && d.rooms[r] == c.rooms[r] && d.members.Keys <= c.members.Keys
            && (forall x :: x in c.members && c.members[x].room == r ==>
                  x in d.members && d.members[x].room == r && d.members[x].connected == c.members[x].connected)
            && (forall x :: x in d.members ==> d.members[x].room == c.members[x].room)
  {
    Succession(c, m);
  }

  /** When somebody else leaves, no room changes. */
  lemma GuestLeaves(c: Core, m: Id)
    requires m in c.members && !c.members[m].isHost
    ensures Left(c, m) == Without(c, m)
  {
  }

  /**
   The last one out, if it is not the host, leaves the room standing empty with its record unchanged,
   and with no empty deadline if it was connected.
   */
  lemma LastOutStays(c: Core, m: Id)
    requires Inv(c) && m in c.members && !c.members[m].isHost && In(c.members, c.members[m].room) == {m}
    ensures var r, d := c.members[m].room, Left(c, m);
            && r in c.rooms && r in d.rooms && d.rooms[r] == c.rooms[r]
            && In(d.members, r) == {} && d.rooms[r].host !in d.members
            && (c.members[m].connected ==> d.rooms[r].emptyDeadline.None?)
  {
    var r := c.members[m].room;
    assert MemberOk(c, m) && DeadlinesOk(c, r);
    InWithout(c, m, r);
    if c.members[m].connected {
      assert AnyOnline(c.members, r);
    }
    OnlyMember(c.members, m, r);
  }

  // ---- the end of a room ----

  /** A room ends by its host's or an administrator's order, by a sweep, or with its host as the last one out. */
  predicate Ends(c: Core, e: Event, r: Id) {
    || (e.End? && e.r == r)
    || (e.Sweep? && r in c.rooms && c.rooms[r].emptyDeadline.Some? && e.now > c.rooms[r].emptyDeadline.value)
    || (e.Leave? && e.m in c.members && c.members[e.m].room == r && c.members[e.m].isHost && In(c.members, r) == {e.m})
  }

  lemma LeaveEndsIff(s: State, e: Event, r: Id)
    requires Inv(s.core) && Possible(s, e) && e.Leave? && r in s.core.rooms
    ensures r !in CoreAfter(s, e).rooms <==> Ends(s.core, e, r)
  {
    var c, m := s.core, e.m;
    if c.members[m].isHost {
      HostLeaves(c, m);
      if c.members[m].room != r {
        Succession(c, m);
      }
    } else {
      GuestLeaves(c, m);
    }
  }

  lemma MarkRooms(s: State, e: Event)
    requires Inv(s.core) && Possible(s, e) && (e.MarkOn? || e.MarkOff?)
    ensures CoreAfter(s, e).rooms.Keys == s.core.rooms.Keys
  {
    var x := s.handlers[e.h].member;
    MarkShape(s.core, x, e.MarkOn?, Channels(s, x) != {}, if e.MarkOff? then e.now else 0);
  }

  /** Handlers that neither delete nor restart keep every room. */
  lemma RoomsStay(s: State, e: Event)
    requires Possible(s, e) && !e.Leave? && !e.End? && !e.Sweep? && !e.Restart? && !e.MarkOn? && !e.MarkOff?
    ensures s.core.rooms.Keys <= CoreAfter(s, e).rooms.Keys
  {
  }

  /** Nothing else ends a room. */
  lemma RoomEndsIff(s: State, e: Event, r: Id)
    requires Inv(s.core) && Known(s) && Possible(s, e) && r in s.core.rooms
    ensures r !in CoreAfter(s, e).rooms <==> Ends(s.core, e, r)
  {
    if e.Leave? {
      LeaveEndsIff(s, e, r);
    } else if e.Sweep? || e.End? {
      OrderEndsIff(s, e, r);
    } else {
      OthersEndNothing(s, e);
    }
  }

  /** A room that was there and is gone ended by one of these steps: no sweep up to its deadline is one. */
  lemma {:induction false} RoomEndedBy(run: seq<Event>, n: nat, r: Id)
    requires IsRun(run) && n <= |run| && IsRun(run[..n]) && r in After(run[..n]).core.rooms
    requires r !in After(run).core.rooms
    ensures exists i: nat :: n <= i < |run| && EndsAt(run, i, r)
  {
    assert run[..|run|] == run;
    if n < |run| {
      var shorter := run[..|run| - 1];
      assert shorter[..n] == run[..n];
      if r in After(shorter).core.rooms {
        LastEnds(run, r);
      } else {
        RoomEndedBy(shorter, n, r);
        var i: nat :| n <= i < |shorter| && EndsAt(shorter, i, r);
        assert shorter[..i] == run[..i];
        assert EndsAt(run, i, r);
      }
    }
  }

  lemma LastEnds(run: seq<Event>, r: Id)
    requires IsRun(run) && run != [] && r in After(run[..|run| - 1]).core.rooms && r !in After(run).core.rooms
    ensures EndsAt(run, |run| - 1, r)
  {
    RunInv(run[..|run| - 1]);
    NextCore(After(run[..|run| - 1]), run[|run| - 1]);
    RoomEndsIff(After(run[..|run| - 1]), run[|run| - 1], r);
  }

  ghost predicate EndsAt(run: seq<Event>, i: nat, r: Id) {
    i < |run| && IsRun(run[..i]) && Ends(After(run[..i]).core, run[i], r)
  }

  lemma OrderEndsIff(s: State, e: Event, r: Id)
    requires Possible(s, e) && (e.Sweep? || e.End?) && r in s.core.rooms
    ensures r !in CoreAfter(s, e).rooms <==> Ends(s.core, e, r)
  {
  }

  lemma OthersEndNothing(s: State, e: Event)
    requires Inv(s.core) && Possible(s, e) && !e.Leave? && !e.Sweep? && !e.End?
    ensures s.core.rooms.Keys <= CoreAfter(s, e).rooms.Keys
  {
    if e.MarkOn? || e.MarkOff? {
      MarkRooms(s, e);
    } else if e.Restart? {
      RestartedShape(s.core, e.now);
    } else {
      RoomsStay(s, e);
    }
  }

  lemma NextCore(s: State, e: Event)
    requires Possible(s, e)
    ensures Next(s, e).core == CoreAfter(s, e) && s.used <= Next(s, e).used
  {
  }

  // ---- a live host ----

  predicate HasHost(c: Core, r: Id) {
    r in c.rooms && c.rooms[r].host in c.members
  }

  /** The host leaves while nobody else in the room is connected. */
  predicate Abandons(c: Core, e: Event, r: Id) {
    e.Leave? && r in c.rooms && e.m == c.rooms[r].host && Candidates(Without(c, e.m).members, r) == {}
  }

  lemma LeaveHost(s: State, e: Event, r: Id)
    requires Inv(s.core) && Possible(s, e) && e.Leave? && r in s.core.rooms && r in CoreAfter(s, e).rooms
    ensures HasHost(s.core, r) ==> (HasHost(CoreAfter(s, e), r) <==> !Abandons(s.core, e, r))
    ensures !HasHost(s.core, r) ==> !HasHost(CoreAfter(s, e), r)
    ensures !HasHost(s.core, r) ==> CoreAfter(s, e).rooms[r] == s.core.rooms[r]
  {
    var c, m := s.core, e.m;
    assert MemberOk(c, m) && DeadlinesOk(c, r);
    if !c.members[m].isHost {
      GuestLeaves(c, m);
    } else if c.members[m].room != r {
      HostLeavesOther(c, m, r);
    } else {
      HostLeaves(c, m);
    }
  }

  lemma SweepHost(c: Core, now: int, r: Id)
    requires Inv(c) && r in c.rooms && r in Swept(c, now).rooms
    ensures HasHost(Swept(c, now), r) <==> HasHost(c, r) || Replaces(c, r, now)
    ensures !Replaces(c, r, now) ==> Swept(c, now).rooms[r] == c.rooms[r]
  {
    assert DeadlinesOk(c, r);
    if Replaces(c, r, now) {
      RoomSweep.ReplacedHostOffline(c, r, now);
    } else if HasHost(c, r) {
      assert MemberOk(c, c.rooms[r].host);
    }
  }

  /** Marking, of the room's host or of anybody else. */
  lemma MarkHost(s: State, e: Event, r: Id)
    requires Inv(s.core) && Possible(s, e) && (e.MarkOn? || e.MarkOff?) && r in s.core.rooms
    ensures r in CoreAfter(s, e).rooms && (HasHost(CoreAfter(s, e), r) <==> HasHost(s.core, r))
    ensures !HasHost(s.core, r) ==> CoreAfter(s, e).rooms[r].hostDeadline == s.core.rooms[r].hostDeadline
    ensures CoreAfter(s, e).rooms[r].host == s.core.rooms[r].host
  {
    var x := s.handlers[e.h].member;
    MarkShape(s.core, x, e.MarkOn?, Channels(s, x) != {}, if e.MarkOff? then e.now else 0);
    if x in s.core.members {
      assert MemberOk(s.core, x);
    }
  }

  lemma EditHost(s: State, e: Event, r: Id)
    requires Inv(s.core) && Known(s) && Possible(s, e) && !e.Leave? && !e.Sweep? && !e.MarkOn? && !e.MarkOff?
    requires r in s.core.rooms && r in CoreAfter(s, e).rooms
    ensures HasHost(CoreAfter(s, e), r) <==> HasHost(s.core, r)
    ensures !HasHost(s.core, r) ==>
      CoreAfter(s, e).rooms[r].host == s.core.rooms[r].host
      && CoreAfter(s, e).rooms[r].hostDeadline == s.core.rooms[r].hostDeadline
  {
    assert DeadlinesOk(s.core, r);
    if e.Resume? {
      assert MemberOk(s.core, e.m);
    }
  }

  /** A room loses its live host exactly when the host leaves while nobody else in the room is connected. */
  lemma HostLostIff(s: State, e: Event, r: Id)
    requires Inv(s.core) && Known(s) && Possible(s, e) && HasHost(s.core, r) && r in CoreAfter(s, e).rooms
    ensures HasHost(CoreAfter(s, e), r) <==> !Abandons(s.core, e, r)
  {
    if e.Leave? {
      LeaveHost(s, e, r);
    } else if e.Sweep? {
      SweepHost(s.core, e.now, r);
    } else if e.MarkOn? || e.MarkOff? {
      MarkHost(s, e, r);
    } else {
      EditHost(s, e, r);
    }
  }

  /** And it gets one back exactly by a sweep after the host deadline, with somebody online. */
  lemma HostRegainedIff(s: State, e: Event, r: Id)
    requires Inv(s.core) && Known(s) && Possible(s, e) && !HasHost(s.core, r)
    requires r in s.core.rooms && r in CoreAfter(s, e).rooms
    ensures HasHost(CoreAfter(s, e), r) <==> e.Sweep? && HostOverdue(s.core, r, e.now)
    ensures !HasHost(CoreAfter(s, e), r) ==>
      CoreAfter(s, e).rooms[r].host == s.core.rooms[r].host
      && CoreAfter(s, e).rooms[r].hostDeadline == s.core.rooms[r].hostDeadline
  {
    if e.Leave? {
      LeaveHost(s, e, r);
    } else if e.Sweep? {
      HostOverdueReplaces(s.core, r, e.now);
      SweepHost(s.core, e.now, r);
    } else if e.MarkOn? || e.MarkOff? {
      MarkHost(s, e, r);
    } else {
      EditHost(s, e, r);
    }
  }

  /** A room that is gone does not come back. */
  lemma RoomStaysGone(s: State, e: Event, r: Id)
    requires Inv(s.core) && Known(s) && Possible(s, e) && r in s.used && r !in s.core.rooms
    ensures r !in CoreAfter(s, e).rooms
  {
    if e.MarkOn? || e.MarkOff? {
      MarkRooms(s, e);
    } else if e.Restart? {
      RestartedShape(s.core, e.now);
    } else if Quiet(e) && !e.Create? && !e.Join? {
      QuietShape(s, e);
    }
  }

  /** Abandoned without a host deadline. */
  predicate Hostless(s: State, r: Id) {
    r in s.used && (r in s.core.rooms ==> !HasHost(s.core, r) && s.core.rooms[r].hostDeadline.None?)
  }

  lemma HostlessStep(s: State, e: Event, r: Id)
    requires Inv(s.core) && Known(s) && Possible(s, e) && Hostless(s, r)
    ensures Hostless(Next(s, e), r)
  {
    NextCore(s, e);
    if r !in s.core.rooms {
      RoomStaysGone(s, e, r);
    } else if r in CoreAfter(s, e).rooms {
      HostRegainedIff(s, e, r);
    }
  }

  /** Then it never has a live host again, whatever handlers, sweeps and restarts follow. */
  lemma {:induction false} HostlessForever(run: seq<Event>, n: nat, r: Id)
    requires IsRun(run) && n <= |run| && IsRun(run[..n]) && Hostless(After(run[..n]), r)
    ensures Hostless(After(run), r)
  {
    if n == |run| {
      assert run[..n] == run;
    } else {
      var shorter := run[..|run| - 1];
      assert shorter[..n] == run[..n];
      HostlessForever(shorter, n, r);
      RunInv(shorter);
      HostlessStep(After(shorter), run[|run| - 1], r);
    }
  }

  // ---- the empty deadline ----

  /** A handler of a member of r closes, finds no other channel, and leaves nobody else online. */
  predicate Closes(s: State, e: Event, r: Id) {
    && e.MarkOff? && e.h in s.handlers
    && var m := s.handlers[e.h].member;
       m in s.core.members && s.core.members[m].room == r && Channels(s, m) == {}
       && Candidates(Without(s.core, m).members, r) == {}
  }

  lemma LeaveEmptyDeadline(c: Core, m: Id, r: Id)
    requires Inv(c) && m in c.members && r in c.rooms && r in Left(c, m).rooms
    ensures Left(c, m).rooms[r].emptyDeadline == c.rooms[r].emptyDeadline
  {
    if c.members[m].isHost {
      Succession(c, m);
    }
  }

  lemma MarkEmptyDeadline(s: State, e: Event, r: Id)
    requires Inv(s.core) && Possible(s, e) && (e.MarkOn? || e.MarkOff?) && r in s.core.rooms
    ensures r in CoreAfter(s, e).rooms
    ensures s.core.rooms[r].emptyDeadline.None? ==> (CoreAfter(s, e).rooms[r].emptyDeadline.Some? <==> Closes(s, e, r))
  {
    var c, x := s.core, s.handlers[e.h].member;
    MarkRooms(s, e);
    if x in c.members {
      assert MemberOk(c, x);
      OfflineOthers(c, x, r);
    }
  }

  /** Marking x offline leaves somebody of r online exactly when somebody else is. */
  lemma OfflineOthers(c: Core, x: Id, r: Id)
    requires x in c.members
    ensures forall d :: AnyOnline(c.members[x := c.members[x].(connected := false, deadline := d)], r)
                        <==> Candidates(Without(c, x).members, r) != {}
  {
    forall d
      ensures AnyOnline(c.members[x := c.members[x].(connected := false, deadline := d)], r)
              <==> Candidates(Without(c, x).members, r) != {}
    {
      var ms, others := c.members[x := c.members[x].(connected := false, deadline := d)], Without(c, x).members;
      if AnyOnline(ms, r) {
        var y :| y in ms && ms[y].room == r && ms[y].connected;
        assert y in Candidates(others, r);
      }
      if y :| y in Candidates(others, r) {
        assert ms[y].room == r && ms[y].connected;
      }
    }
  }

  lemma EditEmptyDeadline(s: State, e: Event, r: Id)
    requires Inv(s.core) && Known(s) && Possible(s, e) && !e.Leave? && !e.MarkOn? && !e.MarkOff? && !e.Restart?
    requires r in s.core.rooms && r in CoreAfter(s, e).rooms
    ensures CoreAfter(s, e).rooms[r].emptyDeadline == s.core.rooms[r].emptyDeadline
  {
  }

  /** An empty deadline is set only by a restart, or by the close that leaves nobody of the room online. */
  lemma EmptyDeadlineSetIff(s: State, e: Event, r: Id)
    requires Inv(s.core) && Known(s) && Possible(s, e) && r in s.core.rooms && r in CoreAfter(s, e).rooms
    requires s.core.rooms[r].emptyDeadline.None?
    ensures CoreAfter(s, e).rooms[r].emptyDeadline.Some? <==> e.Restart? || Closes(s, e, r)
  {
    if e.Leave? {
      LeaveEmptyDeadline(s.core, e.m, r);
    } else if e.MarkOn? || e.MarkOff? {
      MarkEmptyDeadline(s, e, r);
    } else if !e.Restart? {
      EditEmptyDeadline(s, e, r);
    }
  }

  predicate Untimed(s: State, r: Id) {
    r in s.used && (r in s.core.rooms ==> s.core.rooms[r].emptyDeadline.None?)
  }

  lemma UntimedStep(s: State, e: Event, r: Id)
    requires Inv(s.core) && Known(s) && Possible(s, e) && Untimed(s, r) && !e.Restart? && !Closes(s, e, r)
    ensures Untimed(Next(s, e), r)
  {
    NextCore(s, e);
    if r !in s.core.rooms {
      RoomStaysGone(s, e, r);
    } else if r in CoreAfter(s, e).rooms {
      EmptyDeadlineSetIff(s, e, r);
    }
  }

  /**
   Until such a close or a restart no sweep ends the room, at whatever time, though nobody may be online:
   nobody was ever connected, or whoever was has left.
   */
  lemma {:induction false} UntimedStands(run: seq<Event>, n: nat, r: Id, now: int)
    requires IsRun(run) && n <= |run| && IsRun(run[..n]) && Untimed(After(run[..n]), r)
    requires forall i :: n <= i < |run| ==> IsRun(run[..i]) && !run[i].Restart? && !Closes(After(run[..i]), run[i], r)
    ensures Untimed(After(run), r)
    ensures r in After(run).core.rooms ==> r in Swept(After(run).core, now).rooms
  {
    if n == |run| {
      assert run[..n] == run;
    } else {
      var shorter := run[..|run| - 1];
      assert shorter[..n] == run[..n];
      forall i | n <= i < |shorter|
        ensures IsRun(shorter[..i]) && !shorter[i].Restart? && !Closes(After(shorter[..i]), shorter[i], r)
      {
        assert shorter[..i] == run[..i];
      }
      UntimedStands(shorter, n, r, now);
      RunInv(shorter);
      assert !Closes(After(run[..|run| - 1]), run[|run| - 1], r);
      UntimedStep(After(shorter), run[|run| - 1], r);
    }
  }

  /** A new room starts that way. */
  lemma CreatedUntimed(s: State, e: Event)
    requires Possible(s, e) && e.Create?
    ensures e.r in Next(s, e).core.rooms && Untimed(Next(s, e), e.r)
  {
  }

  // ---- an empty deadline whenever nobody is online ----

  predicate Timed(c: Core, r: Id) {
    r in c.rooms && (AnyOnline(c.members, r) || c.rooms[r].emptyDeadline.Some?)
  }

  /** The last one online leaves, rather than closing. */
  predicate LastOnlineLeaves(c: Core, e: Event, r: Id) {
    && e.Leave? && e.m in c.members && c.members[e.m].room == r && c.members[e.m].connected
    && Candidates(Without(c, e.m).members, r) == {}
  }

  lemma OnlineIsCandidates(ms: Members, r: Id)
    ensures AnyOnline(ms, r) <==> Candidates(ms, r) != {}
  {
    if m :| m in ms && ms[m].room == r && ms[m].connected {
      assert m in Candidates(ms, r);
    }
  }

  /** Members of r with the same presence in both states. */
  lemma SameOnline(ms: Members, ns: Members, r: Id)
    requires forall m :: m in ms && ms[m].room == r && ms[m].connected ==>
      m in ns && ns[m].room == r && ns[m].connected
    requires forall m :: m in ns && ns[m].room == r && ns[m].connected ==>
      m in ms && ms[m].room == r && ms[m].connected
    ensures AnyOnline(ms, r) <==> AnyOnline(ns, r)
  {
  }

  lemma LeaveOnline(c: Core, m: Id, r: Id)
    requires Inv(c) && m in c.members && r in c.rooms && r in Left(c, m).rooms
    ensures AnyOnline(Left(c, m).members, r) <==> AnyOnline(Without(c, m).members, r)
  {
    if !c.members[m].isHost {
      GuestLeaves(c, m);
    } else if c.members[m].room != r {
      HostLeavesOther(c, m, r);
      SameOnline(Left(c, m).members, Without(c, m).members, r);
    } else {
      HostLeaves(c, m);
      Succession(c, m);
      SameOnline(Left(c, m).members, Without(c, m).members, r);
    }
  }

  lemma LeaveTimed(c: Core, m: Id, r: Id)
    requires Inv(c) && m in c.members && r in c.rooms && r in Left(c, m).rooms && Timed(c, r)
    ensures Timed(Left(c, m), r) <==> !LastOnlineLeaves(c, Leave(m), r)
  {
    assert DeadlinesOk(c, r);
    LeaveOnline(c, m, r);
    LeaveEmptyDeadline(c, m, r);
    OnlineIsCandidates(Without(c, m).members, r);
    if c.members[m].room == r && c.members[m].connected {
      assert AnyOnline(c.members, r);
    } else {
      SameOnline(c.members, Without(c, m).members, r);
    }
  }

  lemma MarkTimed(s: State, e: Event, r: Id)
    requires Inv(s.core) && Possible(s, e) && (e.MarkOn? || e.MarkOff?) && Timed(s.core, r)
    ensures Timed(CoreAfter(s, e), r)
  {
    var c, x := s.core, s.handlers[e.h].member;
    MarkRooms(s, e);
    if x in c.members {
      assert MemberOk(c, x);
      if c.members[x].room == r {
        assert e.MarkOn? ==> CoreAfter(s, e).members[x].connected;
      } else {
        MarkOther(c, x, e.MarkOn?, Channels(s, x) != {}, if e.MarkOff? then e.now else 0, r);
      }
    }
  }

  /** Marking a member of another room. */
  lemma MarkOther(c: Core, x: Id, connected: bool, busy: bool, now: int, r: Id)
    requires Inv(c) && x in c.members && c.members[x].room != r && r in c.rooms
    ensures var d := Marked(c, x, connected, busy, now);
            r in d.rooms && d.rooms[r] == c.rooms[r] && (AnyOnline(d.members, r) <==> AnyOnline(c.members, r))
  {
    assert MemberOk(c, x);
    SameOnline(c.members, Marked(c, x, connected, busy, now).members, r);
  }

  lemma SweepTimed(c: Core, now: int, r: Id)
    requires Inv(c) && Timed(c, r) && r in Swept(c, now).rooms
    ensures Timed(Swept(c, now), r)
  {
    if m :| m in c.members && c.members[m].room == r && c.members[m].connected {
      if SweptAway(c, m, now) {
        RoomSweep.SweptAwayIsOffline(c, m, now);
      }
      assert m in Swept(c, now).members;
    }
  }

  lemma EditTimed(s: State, e: Event, r: Id)
    requires Inv(s.core) && Known(s) && Possible(s, e) && !e.Leave? && !e.Sweep? && !e.MarkOn? && !e.MarkOff?
    requires !e.Restart? && Timed(s.core, r) && r in CoreAfter(s, e).rooms
    ensures Timed(CoreAfter(s, e), r)
  {
    EditEmptyDeadline(s, e, r);
    if m :| m in s.core.members && s.core.members[m].room == r && s.core.members[m].connected {
      EditOnline(s, e, m, r);
    }
  }

  lemma EditOnline(s: State, e: Event, m: Id, r: Id)
    requires Inv(s.core) && Known(s) && Possible(s, e) && !e.Leave? && !e.Sweep? && !e.MarkOn? && !e.MarkOff?
    requires !e.Restart? && r in CoreAfter(s, e).rooms
    requires m in s.core.members && s.core.members[m].room == r && s.core.members[m].connected
    ensures var d := CoreAfter(s, e); m in d.members && d.members[m].room == r && d.members[m].connected
  {
    assert MemberOk(s.core, m);
    if Quiet(e) && !e.Create? && !e.Join? {
      QuietShape(s, e);
      EditKeepsMember(s, e, m, r);
    }
  }

  /** Only an end removes a member here, and that of another room. */
  lemma EditKeepsMember(s: State, e: Event, m: Id, r: Id)
    requires Possible(s, e) && Quiet(e) && !e.Create? && !e.Join? && !e.Leave? && !e.Sweep?
    requires m in s.core.members && s.core.members[m].room == r && r in CoreAfter(s, e).rooms
    ensures m in CoreAfter(s, e).members
  {
  }

  /** A room comes to have nobody online and no empty deadline exactly when the last one online leaves. */
  lemma TimedLostIff(s: State, e: Event, r: Id)
    requires Inv(s.core) && Known(s) && Possible(s, e) && Timed(s.core, r) && r in CoreAfter(s, e).rooms
    ensures Timed(CoreAfter(s, e), r) <==> !LastOnlineLeaves(s.core, e, r)
  {
    if e.Leave? {
      LeaveTimed(s.core, e.m, r);
    } else if e.Sweep? {
      SweepTimed(s.core, e.now, r);
    } else if e.MarkOn? || e.MarkOff? {
      MarkTimed(s, e, r);
    } else if !e.Restart? {
      EditTimed(s, e, r);
    }
  }

  // ---- the host's nickname ----

  /** The room shows the nickname its host has. */
  predicate Names(c: Core, r: Id) {
    HasHost(c, r) ==> c.rooms[r].hostNickname == c.members[c.rooms[r].host].nickname
  }

  /** The room's host rejoins under another nickname than the one shown. */
  predicate Renames(c: Core, e: Event, r: Id) {
    e.Rejoin? && r in c.rooms && e.m == c.rooms[r].host && e.nickname != c.rooms[r].hostNickname
  }

  lemma LeaveNames(c: Core, m: Id, r: Id)
    requires Inv(c) && m in c.members && r in c.rooms && r in Left(c, m).rooms && Names(c, r)
    ensures Names(Left(c, m), r)
  {
    assert DeadlinesOk(c, r);
    if !c.members[m].isHost {
      GuestLeaves(c, m);
    } else if c.members[m].room != r {
      LeaveKeepsNickname(c, m, r);
    } else {
      HostLeaves(c, m);
      LeaveNamesSuccessor(c, m);
    }
  }

  lemma LeaveKeepsNickname(c: Core, m: Id, r: Id)
    requires Inv(c) && m in c.members && c.members[m].isHost && r in c.rooms && c.members[m].room != r
    ensures var d := Left(c, m);
            r in d.rooms && d.rooms[r] == c.rooms[r]
            && forall x :: x in d.members && x in c.members && c.members[x].room == r ==>
                 d.members[x].nickname == c.members[x].nickname
  {
    HostLeavesOther(c, m, r);
  }

  lemma LeaveNamesSuccessor(c: Core, m: Id)
    requires Inv(c) && m in c.members && c.members[m].isHost && c.members[m].room in c.rooms
    ensures Names(Assigned(Without(c, m), c.members[m].room), c.members[m].room)
  {
    Succession(c, m);
  }

  lemma SweepNames(c: Core, now: int, r: Id)
    requires Inv(c) && Names(c, r) && r in c.rooms && r in Swept(c, now).rooms
    ensures Names(Swept(c, now), r)
  {
    if Replaces(c, r, now) {
      RoomSweep.ReplacedHostOffline(c, r, now);
    }
  }

  lemma MarkNames(s: State, e: Event, r: Id)
    requires Inv(s.core) && Possible(s, e) && (e.MarkOn? || e.MarkOff?) && r in s.core.rooms && Names(s.core, r)
    ensures Names(CoreAfter(s, e), r)
  {
    var x := s.handlers[e.h].member;
    if x in s.core.members {
      assert MemberOk(s.core, x);
    }
  }

  lemma EditNames(s: State, e: Event, r: Id)
    requires Inv(s.core) && Known(s) && Possible(s, e) && !e.Leave? && !e.Sweep? && !e.MarkOn? && !e.MarkOff?
    requires r in s.core.rooms && r in CoreAfter(s, e).rooms && Names(s.core, r) && !e.Rejoin?
    ensures Names(CoreAfter(s, e), r)
  {
    assert DeadlinesOk(s.core, r);
  }

  /** The name shown stops being the host's exactly when the host rejoins under another one. */
  lemma NamesLostIff(s: State, e: Event, r: Id)
    requires Inv(s.core) && Known(s) && Possible(s, e) && Names(s.core, r)
    requires r in s.core.rooms && r in CoreAfter(s, e).rooms
    ensures Names(CoreAfter(s, e), r) <==> !Renames(s.core, e, r)
  {
    if e.Leave? {
      LeaveNames(s.core, e.m, r);
    } else if e.Sweep? {
      SweepNames(s.core, e.now, r);
    } else if e.MarkOn? || e.MarkOff? {
      MarkNames(s, e, r);
    } else if !e.Rejoin? {
      EditNames(s, e, r);
    }
  }

  lemma NewNames(s: State, e: Event, r: Id)
    requires Inv(s.core) && Known(s) && Possible(s, e) && r !in s.core.rooms
    ensures Names(CoreAfter(s, e), r)
  {
    if e.MarkOn? || e.MarkOff? {
      MarkRooms(s, e);
    } else if e.Restart? {
      RestartedShape(s.core, e.now);
    } else if Quiet(e) && !e.Create? && !e.Join? {
      QuietShape(s, e);
    }
  }

  /** In every run in which no host rejoins under another name, every room shows its host's nickname. */
  lemma {:induction false} RunNames(run: seq<Event>, r: Id)
    requires IsRun(run)
    requires forall i :: 0 <= i < |run| ==> IsRun(run[..i]) && !Renames(After(run[..i]).core, run[i], r)
    ensures Names(After(run).core, r)
  {
    if run != [] {
      var shorter, e := run[..|run| - 1], run[|run| - 1];
      forall i | 0 <= i < |shorter|
        ensures IsRun(shorter[..i]) && !Renames(After(shorter[..i]).core, shorter[i], r)
      {
        assert shorter[..i] == run[..i];
      }
      RunNames(shorter, r);
      RunInv(shorter);
      var s := After(shorter);
      assert !Renames(After(run[..|run| - 1]).core, e, r);
      NextCore(s, e);
      if r !in s.core.rooms {
        NewNames(s, e, r);
      } else if r in CoreAfter(s, e).rooms {
        NamesLostIff(s, e, r);
      }
    }
  }

  // ---- no deadline while connected ----

  predicate Calm(c: Core, m: Id) {
    m in c.members && c.members[m].connected ==> c.members[m].deadline.None?
  }

  lemma LeaveCalm(c: Core, x: Id, m: Id)
    requires Inv(c) && x in c.members && Calm(c, m)
    ensures Calm(Left(c, x), m)
  {
    if c.members[x].isHost {
      var r, w := c.members[x].room, Without(c, x);
      Succession(c, x);
      if Candidates(w.members, r) != {} {
        AssignedCalm(w, r, m);
      }
    } else {
      GuestLeaves(c, x);
    }
  }

  lemma AssignedCalm(w: Core, r: Id, m: Id)
    requires r in w.rooms && Calm(w, m)
    ensures Calm(Assigned(w, r), m)
  {
  }

  lemma MarkCalm(s: State, e: Event, m: Id)
    requires Inv(s.core) && Possible(s, e) && (e.MarkOn? || e.MarkOff?) && Calm(s.core, m)
    ensures Calm(CoreAfter(s, e), m)
  {
    var x := s.handlers[e.h].member;
    if x in s.core.members {
      assert MemberOk(s.core, x);
    }
  }

  lemma EditCalm(s: State, e: Event, m: Id)
    requires Inv(s.core) && Known(s) && Possible(s, e) && !e.Leave? && !e.MarkOn? && !e.MarkOff? && !e.Rejoin?
    requires Calm(s.core, m)
    ensures Calm(CoreAfter(s, e), m)
  {
  }

  /** A connected member gets a deadline exactly by rejoining while connected. */
  lemma CalmLostIff(s: State, e: Event, m: Id)
    requires Inv(s.core) && Known(s) && Possible(s, e) && Calm(s.core, m)
    ensures Calm(CoreAfter(s, e), m) <==> !(e.Rejoin? && e.m == m && s.core.members[m].connected)
  {
    if e.Leave? {
      LeaveCalm(s.core, e.m, m);
    } else if e.MarkOn? || e.MarkOff? {
      MarkCalm(s, e, m);
    } else if !e.Rejoin? {
      EditCalm(s, e, m);
    }
  }

  /** What such a deadline does: once it has passed, the member's own token is refused although it is connected. */
  lemma ConnectedResume(c: Core, m: Id, r: Id, token: Digest, now: int)
    requires Inv(c) && m in c.members && c.members[m].connected && r == c.members[m].room
    requires token == c.members[m].resumeToken
    ensures MayResume(c, m, r, token, now) <==> !Passed(c.members[m].deadline, now)
    ensures Calm(c, m) ==> MayResume(c, m, r, token, now)
  {
    assert MemberOk(c, m) && DeadlinesOk(c, r);
  }

  /** In every run in which m does not rejoin while connected, m has no deadline while connected. */
  lemma {:induction false} RunCalm(run: seq<Event>, m: Id)
    requires IsRun(run)
    requires forall i :: 0 <= i < |run| ==>
      IsRun(run[..i]) && !(run[i].Rejoin? && run[i].m == m && m in After(run[..i]).core.members
                           && After(run[..i]).core.members[m].connected)
    ensures Calm(After(run).core, m)
  {
    if run != [] {
      var shorter, e := run[..|run| - 1], run[|run| - 1];
      forall i | 0 <= i < |shorter|
        ensures IsRun(shorter[..i])
        ensures !(shorter[i].Rejoin? && shorter[i].m == m && m in After(shorter[..i]).core.members
                  && After(shorter[..i]).core.members[m].connected)
      {
        assert shorter[..i] == run[..i];
      }
      RunCalm(shorter, m);
      RunInv(shorter);
      var s := After(shorter);
      assert IsRun(run[..|run| - 1]);
      NextCore(s, e);
      CalmLostIff(s, e, m);
    }
  }

  // ---- a room nobody hosts ----

  /** One more event. */
  ghost predicate Reaches(run: seq<Event>, c: Core) {
    IsRun(run) && After(run).core == c
  }

  /** A guest joins the room its host just made, under another device. */
  lemma GuestJoins(r: Id, m: Id, x: Id, access: Access, token: Digest) returns (run: seq<Event>, c: Core)
    requires r != m && r != x && m != x
    ensures Reaches(run, c) && After(run).handlers == map[] && r in After(run).used
    ensures r in c.rooms && c.rooms[r].host == m && c.rooms[r].hostDeadline.None? && m in c.members && x in c.members
    ensures c.members[m].room == r && c.members[x].room == r && c.members[m].isHost && !c.members[m].connected
    ensures forall y :: y in c.members && y != m ==> !c.members[y].connected
  {
    var create := Create(r, m, "", "", 2, 5, access, None, "", None, token, 0);
    Extend([], create);
    run := [] + [create];
    var s := After(run);
    var join := Join(x, r, access.credential, "", "guest", None, token, 2, 0);
    RunInv(run);
    assert In(s.core.members, r) == {m};
    Admission.AdmitIff(s.core, r, access.credential, "guest", None);
    assert s.core.members[m].order == 1;
    assert IsNextOrder(s.core.members, r, 2);
    Extend(run, join);
    run := run + [join];
    c := After(run).core;
  }

  lemma Arrives(begin: seq<Event>, c: Core, m: Id) returns (run: seq<Event>)
    requires Reaches(begin, c) && After(begin).handlers == map[] && m in c.members
    ensures Reaches(run, c) && At(After(run), 0, Added) && After(run).handlers[0].member == m
    ensures After(run).used == After(begin).used
  {
    Extend(begin, Find(0, m));
    run := begin + [Find(0, m)];
    Extend(run, Add(0));
    run := run + [Add(0)];
  }

  lemma Connects(begin: seq<Event>, c: Core, m: Id) returns (run: seq<Event>)
    requires Reaches(begin, c) && After(begin).handlers == map[] && m in c.members && c.members[m].room in c.rooms
    ensures Reaches(run, Online(c, m)) && After(run).used == After(begin).used
  {
    run := Arrives(begin, c, m);
    Extend(run, MarkOn(0));
    run := run + [MarkOn(0)];
  }

  /** The host, the only one connected, leaves. */
  lemma HostAbandons(c: Core, m: Id, x: Id)
    requires Inv(c) && m in c.members && c.members[m].isHost && c.members[m].connected
    requires x in c.members && x != m && c.members[x].room == c.members[m].room
    requires forall y :: y in c.members && y != m ==> !c.members[y].connected
    ensures var r, d := c.members[m].room, Left(c, m);
            && r in d.rooms && d.rooms[r].hostDeadline.None? && !HasHost(d, r)
            && x in d.members && d.members[x] == c.members[x]
  {
    var r := c.members[m].room;
    assert MemberOk(c, m) && DeadlinesOk(c, r);
    assert x in In(c.members, r);
    assert Candidates(Without(c, m).members, r) == {};
    HostLeaves(c, m);
    Succession(c, m);
  }

  /**
   Such a room exists: its host connects and leaves while its only guest is offline.  From then on it has no
   live host, and by HostlessForever never again.
   */
  lemma AbandonedRun(r: Id, m: Id, x: Id, access: Access, token: Digest) returns (run: seq<Event>)
    requires r != m && r != x && m != x
    ensures IsRun(run) && r in After(run).core.rooms && x in After(run).core.members
    ensures After(run).core.members[x].room == r && Hostless(After(run), r)
  {
    var begin, c := GuestJoins(r, m, x, access, token);
    run := Connects(begin, c, m);
    RunInv(run);
    HostAbandons(Online(c, m), m, x);
    Extend(run, Leave(m));
    run := run + [Leave(m)];
  }
}
