/** Which step of a run takes a member or a host away, and what is promised to those it leaves. */
module RoomDepartures {
  import opened Collections
  import opened RoomState
  import opened RoomInvariant
  import opened RoomMachine
  import opened HandlerOutcomes

  /**
   The steps that take member m away: its own leave, the end of its room, and a sweep after the room's empty
   deadline, after m's own deadline if it is an offline guest, or after the host deadline with somebody
   online if it is the host.
   */
  predicate Departs(c: Core, e: Event, m: Id) {
    && m in c.members && c.members[m].room in c.rooms
    && var member, room := c.members[m], c.rooms[c.members[m].room];
       || (e.Leave? && e.m == m)
       || (e.End? && e.r == member.room)
       || (e.Sweep? && room.emptyDeadline.Some? && e.now > room.emptyDeadline.value)
       || (e.Sweep? && room.host != m && !member.connected && member.deadline.Some? && e.now > member.deadline.value)
       || (e.Sweep? && room.host == m && HostOverdue(c, member.room, e.now))
  }

  lemma LeaveDeparts(c: Core, leaver: Id, m: Id)
    requires Inv(c) && leaver in c.members && m in c.members
    ensures m !in Left(c, leaver).members <==> m == leaver
  {
    var r := c.members[leaver].room;
    assert MemberOk(c, leaver);
    if c.rooms[r].host != leaver {
      GuestLeaveOutcome(c, leaver);
    } else if OthersOnline(c.members, r, leaver) {
      NobodyLeft(c.members, r, leaver);
      var next := Successor(c.members - {leaver}, r);
      FirstOfOthers(c, r, leaver);
      HostLeaveOutcome(c, leaver, next);
    } else {
      LoneHostLeaveOutcome(c, leaver);
    }
  }

  lemma FirstOfOthers(c: Core, r: Id, m: Id)
    requires OthersOnline(c.members, r, m)
    ensures Candidates(c.members - {m}, r) != {}
    ensures FirstOnline(c.members, r, m, Successor(c.members - {m}, r))
  {
    NobodyLeft(c.members, r, m);
    var others := c.members - {m};
    var next := Successor(others, r);
    assert next in Candidates(others, r);
    forall x | x in c.members && x != m && c.members[x].room == r && c.members[x].connected
      ensures c.members[next].order <= c.members[x].order
    {
      assert x in Candidates(others, r);
    }
  }

  lemma SweepDeparts(c: Core, e: Event, m: Id)
    requires Inv(c) && e.Sweep? && m in c.members
    ensures m !in Swept(c, e.now).members <==> Departs(c, e, m)
  {
    assert MemberOk(c, m);
    SweepMembersIff(c, e.now, m);
    var r := c.members[m].room;
    if HostOverdue(c, r, e.now) {
      assert DeadlinesOk(c, r);
    }
  }

  /** Nothing else takes a member away. */
  lemma DepartsIff(s: State, e: Event, m: Id)
    requires Inv(s.core) && Possible(s, e) && m in s.core.members
    ensures m !in CoreAfter(s, e).members <==> Departs(s.core, e, m)
  {
    assert MemberOk(s.core, m);
    if e.Leave? {
      LeaveDeparts(s.core, e.m, m);
    } else if e.Sweep? {
      SweepDeparts(s.core, e, m);
    } else if e.MarkOn? || e.MarkOff? {
      var x := s.handlers[e.h].member;
      MarkShape(s.core, x, e.MarkOn?, Channels(s, x) != {}, if e.MarkOff? then e.now else 0);
    } else {
      OthersKeepMembers(s, e, m);
    }
  }

  lemma OthersKeepMembers(s: State, e: Event, m: Id)
    requires Inv(s.core) && Possible(s, e) && m in s.core.members
    requires !e.Leave? && !e.Sweep? && !e.MarkOn? && !e.MarkOff?
    ensures m !in CoreAfter(s, e).members <==> e.End? && s.core.members[m].room == e.r
  {
  }

  /** A member who was there and is gone went by one of these steps. */
  lemma {:induction false} DepartedBy(run: seq<Event>, n: nat, m: Id)
    requires IsRun(run) && n <= |run| && IsRun(run[..n]) && m in After(run[..n]).core.members
    requires m !in After(run).core.members
    ensures exists i: nat :: n <= i < |run| && DepartsAt(run, i, m)
  {
    assert run[..|run|] == run;
    if n < |run| {
      var last := |run| - 1;
      var shorter := run[..last];
      assert shorter[..n] == run[..n];
      if m in After(shorter).core.members {
        LastDeparts(run, m);
      } else {
        DepartedBy(shorter, n, m);
        var i: nat :| n <= i < |shorter| && DepartsAt(shorter, i, m);
        DepartsInLonger(run, i, m);
      }
    }
  }

  lemma DepartsInLonger(run: seq<Event>, i: nat, m: Id)
    requires run != [] && i < |run| - 1 && DepartsAt(run[..|run| - 1], i, m)
    ensures DepartsAt(run, i, m)
  {
    assert run[..|run| - 1][..i] == run[..i];
  }

  lemma LastDeparts(run: seq<Event>, m: Id)
    requires IsRun(run) && run != [] && m in After(run[..|run| - 1]).core.members && m !in After(run).core.members
    ensures DepartsAt(run, |run| - 1, m)
  {
    var before, e := After(run[..|run| - 1]), run[|run| - 1];
    RunInv(run[..|run| - 1]);
    DepartsIff(before, e, m);
  }

  /** Event i of the run takes m away. */
  ghost predicate DepartsAt(run: seq<Event>, i: nat, m: Id) {
    i < |run| && IsRun(run[..i]) && Departs(After(run[..i]).core, run[i], m)
  }
}
