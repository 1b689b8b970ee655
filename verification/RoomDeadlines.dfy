/** What the deadlines are for: reservations that resuming cannot extend, and timeouts the sweep acts on. */
module RoomDeadlines {
  import opened Collections
  import opened RoomState
  import opened RoomInvariant
  import opened RoomMachine
  import opened HandlerOutcomes
  import opened RoomDepartures
  import RoomSweep

  // ---- connecting and disconnecting ----

  /**
   When a connected member drops, its reservation starts; the room's own clock starts exactly if
   it was the last one online, and the host's clock exactly if it was the host.
   */
  lemma DropStartsClocks(c: Core, m: Id, now: int)
    requires Inv(c) && m in c.members && c.members[m].connected
    ensures c.members[m].room in c.rooms
    ensures var r, d := c.members[m].room, Offline(c, m, now);
            && d.members[m].deadline == Some(now + 1_800_000)
            && d.rooms[r].emptyDeadline == (if AnyOnline(d.members, r) then None else Some(now + 1_800_000))
            && d.rooms[r].hostDeadline == (if c.rooms[r].host == m then Some(now + 60_000 * c.rooms[r].hostTimeout)
                                           else c.rooms[r].hostDeadline)
  {
    var r := c.members[m].room;
    assert MemberOk(c, m) && DeadlinesOk(c, r);
    assert AnyOnline(c.members, r);
  }

  /** A drop and a return leave no trace: coming back gives the state of having stayed. */
  lemma ReturnForgetsDrop(c: Core, m: Id, now: int)
    requires m in c.members && c.members[m].room in c.rooms
    ensures Online(Offline(c, m, now), m) == Online(c, m)
  {
    var r, d := c.members[m].room, Offline(c, m, now);
    assert Online(d, m).rooms == Online(c, m).rooms;
    assert Online(d, m).members == Online(c, m).members;
  }

  // ---- resuming ----

  /** Resuming again only replaces the token: the deadlines are those of the first time. */
  lemma ResumeCannotExtend(c: Core, m: Id, first: Digest, second: Digest, now: int, later: int)
    requires m in c.members && c.members[m].room in c.rooms
    ensures var d := Resumed(c, m, first, now);
            m in d.members && d.members[m].room in d.rooms && Resumed(d, m, second, later) == Resumed(c, m, second, now)
  {
    var d := Resumed(c, m, first, now);
    assert Resumed(d, m, second, later).rooms == Resumed(c, m, second, now).rooms;
    assert Resumed(d, m, second, later).members == Resumed(c, m, second, now).members;
  }

  // ---- tokens over runs ----

  /** The token is not m's current one. */
  predicate Spent(s: State, m: Id, token: Digest) {
    m in s.used && (m in s.core.members ==> s.core.members[m].resumeToken != token)
  }

  /** The event gives m this token; tokens are random, so an old one is not given again. */
  predicate Issues(e: Event, m: Id, token: Digest) {
    (e.Resume? && e.m == m && e.token == token) || (e.Rejoin? && e.m == m && e.token == token)
  }

  /** Exchanging a token spends it. */
  lemma ExchangeSpends(s: State, e: Event)
    requires Known(s) && Possible(s, e) && e.Resume? && e.previous != e.token
    ensures Spent(Next(s, e), e.m, e.previous)
  {
  }

  lemma EditKeepsToken(s: State, e: Event, m: Id, token: Digest)
    requires Inv(s.core) && Known(s) && Possible(s, e) && Spent(s, m, token) && !Issues(e, m, token)
    requires !e.Leave? && !e.Sweep? && !e.MarkOn? && !e.MarkOff? && !e.Restart?
    ensures m in CoreAfter(s, e).members ==> CoreAfter(s, e).members[m].resumeToken != token
  {
  }

  lemma MarkKeepsToken(s: State, e: Event, m: Id, token: Digest)
    requires Inv(s.core) && Possible(s, e) && Spent(s, m, token) && (e.MarkOn? || e.MarkOff?)
    ensures m in CoreAfter(s, e).members ==> CoreAfter(s, e).members[m].resumeToken != token
  {
  }

  lemma AssignedKeepsToken(c: Core, r: Id, m: Id)
    requires r in c.rooms
    ensures m in Assigned(c, r).members ==>
      m in c.members && Assigned(c, r).members[m].resumeToken == c.members[m].resumeToken
  {
  }

  lemma LeaveKeepsToken(c: Core, leaver: Id, m: Id)
    requires leaver in c.members
    ensures m in Left(c, leaver).members ==>
      m in c.members && Left(c, leaver).members[m].resumeToken == c.members[m].resumeToken
  {
    var r := c.members[leaver].room;
    if r in c.rooms {
      AssignedKeepsToken(c.(members := c.members - {leaver}), r, m);
    }
  }

  lemma SpentStep(s: State, e: Event, m: Id, token: Digest)
    requires Inv(s.core) && Known(s) && Possible(s, e) && Spent(s, m, token) && !Issues(e, m, token)
    ensures Spent(Next(s, e), m, token)
  {
    UsedGrows(s, e);
    assert Next(s, e).core == CoreAfter(s, e);
    if e.Leave? {
      LeaveKeepsToken(s.core, e.m, m);
    } else if e.MarkOn? || e.MarkOff? {
      MarkKeepsToken(s, e, m, token);
    } else if !e.Sweep? && !e.Restart? {
      EditKeepsToken(s, e, m, token);
    }
  }

  /** A token is good once: along any run from its exchange on, unless it is issued again, it does not resume m. */
  lemma {:induction false} SpentForever(run: seq<Event>, n: nat, m: Id, token: Digest, r: Id, now: int)
    requires IsRun(run) && n <= |run| && IsRun(run[..n]) && Spent(After(run[..n]), m, token)
    requires forall i :: n <= i < |run| ==> !Issues(run[i], m, token)
    ensures Spent(After(run), m, token) && !MayResume(After(run).core, m, r, token, now)
  {
    if n == |run| {
      assert run[..n] == run;
    } else {
      var shorter := run[..|run| - 1];
      assert shorter[..n] == run[..n];
      SpentForever(shorter, n, m, token, r, now);
      RunInv(shorter);
      SpentStep(After(shorter), run[|run| - 1], m, token);
    }
  }

  // ---- reservations over runs ----

  /** An offline member's place is kept until d. */
  predicate Reserved(s: State, m: Id, d: int) {
    m in s.core.members && !s.core.members[m].connected && s.core.members[m].deadline == Some(d)
  }

  /**
   The steps that renew a reservation: a rejoin, a connection of the member's, and a late close:
   one of its handlers that found no other channel when it looked, and finds none when it marks.
   */
  predicate Renews(s: State, e: Event, m: Id) {
    match e
    case Rejoin(x, _, _, _, _, _, _, _) => x == m
    case MarkOn(h) => h in s.handlers && s.handlers[h].member == m
    case MarkOff(h, _) => h in s.handlers && s.handlers[h].member == m && Channels(s, m) == {}
    case _ => false
  }

  /** And they do: each of them reconnects the member or starts its half hour again. */
  lemma RenewsIndeed(s: State, e: Event, m: Id, d: int)
    requires Inv(s.core) && Possible(s, e) && Reserved(s, m, d) && Renews(s, e, m)
    ensures m in Next(s, e).core.members
    ensures e.MarkOn? ==> Next(s, e).core.members[m].connected
    ensures e.Rejoin? || e.MarkOff? ==> Reserved(Next(s, e), m, e.now + RETENTION)
  {
    assert MemberOk(s.core, m);
  }

  /** Members keep their deadlines, or go. */
  predicate KeepsDeadline(c: Core, d: Core, m: Id)
    requires m in c.members
  {
    m in d.members ==>
      d.members[m].connected == c.members[m].connected
        && (c.members[m].deadline.Some? ==> d.members[m].deadline == c.members[m].deadline)
  }

  lemma AssignedKeepsDeadline(c: Core, r: Id, m: Id)
    requires r in c.rooms && m in c.members
    ensures KeepsDeadline(c, Assigned(c, r), m)
  {
    if Candidates(c.members, r) != {} {
      RerolledIdentity(c.members, c.rooms[r].host, Successor(c.members, r));
    }
  }

  lemma LeftKeepsDeadline(c: Core, leaver: Id, m: Id)
    requires m in c.members && leaver in c.members
    ensures KeepsDeadline(c, Left(c, leaver), m)
  {
    var r := c.members[leaver].room;
    var without := c.(members := c.members - {leaver});
    if r in c.rooms && m != leaver {
      AssignedKeepsDeadline(without, r, m);
    }
  }

  lemma EditKeepsDeadline(s: State, e: Event, m: Id)
    requires Possible(s, e) && m in s.core.members && !s.core.members[m].connected && !Renews(s, e, m)
    requires e.Rejoin? || e.Resume? || e.Mute? || e.Handover? || e.Configure? || e.End?
    ensures KeepsDeadline(s.core, CoreAfter(s, e), m)
  {
  }

  lemma MarkKeepsReservation(s: State, e: Event, m: Id, d: int)
    requires Inv(s.core) && Possible(s, e) && (e.MarkOn? || e.MarkOff?) && Reserved(s, m, d) && !Renews(s, e, m)
    ensures Reserved(Next(s, e), m, d)
  {
    var x := s.handlers[e.h].member;
    if x != m {
      MarkShape(s.core, x, e.MarkOn?, Channels(s, x) != {}, if e.MarkOff? then e.now else 0);
    }
  }

  lemma ReservationStep(s: State, e: Event, m: Id, d: int)
    requires Inv(s.core) && Known(s) && Possible(s, e) && Reserved(s, m, d) && !Renews(s, e, m)
    ensures m !in Next(s, e).core.members || Reserved(Next(s, e), m, d)
  {
    assert Next(s, e).core == CoreAfter(s, e);
    if e.Leave? {
      LeftKeepsDeadline(s.core, e.m, m);
    } else if e.MarkOn? || e.MarkOff? {
      MarkKeepsReservation(s, e, m, d);
    } else if e.Rejoin? || e.Resume? || e.Mute? || e.Handover? || e.Configure? || e.End? {
      EditKeepsDeadline(s, e, m);
    }
  }

  /** An ID that left the state never comes back. */
  lemma GoneStep(s: State, e: Event, m: Id)
    requires Inv(s.core) && Known(s) && Possible(s, e) && m in s.used && m !in s.core.members
    ensures m in Next(s, e).used && m !in Next(s, e).core.members
  {
    if e.MarkOn? {
      MarkShape(s.core, s.handlers[e.h].member, true, Channels(s, s.handlers[e.h].member) != {}, 0);
    } else if e.MarkOff? {
      MarkShape(s.core, s.handlers[e.h].member, false, Channels(s, s.handlers[e.h].member) != {}, e.now);
    } else if Quiet(e) && !e.Create? && !e.Join? {
      QuietShape(s, e);
    }
  }

  /** A reservation stays what it was, or the member is gone for good. */
  lemma {:induction false} ReservedOrGone(run: seq<Event>, n: nat, m: Id, d: int)
    requires IsRun(run) && n <= |run| && IsRun(run[..n]) && Reserved(After(run[..n]), m, d)
    requires forall i :: n <= i < |run| ==> IsRun(run[..i]) && !Renews(After(run[..i]), run[i], m)
    ensures m in After(run).used && (m !in After(run).core.members || Reserved(After(run), m, d))
  {
    if n == |run| {
      assert run[..n] == run;
      RunInv(run);
    } else {
      var shorter := run[..|run| - 1];
      assert shorter[..n] == run[..n];
      forall i | n <= i < |shorter|
        ensures IsRun(shorter[..i]) && !Renews(After(shorter[..i]), shorter[i], m)
      {
        assert shorter[..i] == run[..i];
      }
      ReservedOrGone(shorter, n, m, d);
      RunInv(shorter);
      assert IsRun(run[..|run| - 1]) && !Renews(After(shorter), run[|run| - 1], m);
      if m in After(shorter).core.members {
        ReservationStep(After(shorter), run[|run| - 1], m, d);
        UsedGrows(After(shorter), run[|run| - 1]);
      } else {
        GoneStep(After(shorter), run[|run| - 1], m);
      }
    }
  }

  /** The steps that can take a place reserved until d. */
  predicate LosesPlace(c: Core, e: Event, m: Id, d: int) {
    && m in c.members && c.members[m].room in c.rooms
    && var room := c.rooms[c.members[m].room];
       || (e.Leave? && e.m == m)
       || (e.End? && e.r == c.members[m].room)
       || (e.Sweep? && room.emptyDeadline.Some? && e.now > room.emptyDeadline.value)
       || (e.Sweep? && room.host == m && HostOverdue(c, c.members[m].room, e.now))
       || (e.Sweep? && room.host != m && e.now > d)
  }

  ghost predicate LosesPlaceAt(run: seq<Event>, i: nat, m: Id, d: int) {
    i < |run| && IsRun(run[..i]) && LosesPlace(After(run[..i]).core, run[i], m, d)
  }

  /**
   Along any stretch of a run in which the member neither reconnects nor rejoins, and none of its
   connections closes late, its reservation stays what it was, restarts included.  It is lost only by the
   member's own leave, by the end of its room, by a sweep that removes the room or replaces the member as
   an overdue host, and otherwise by a sweep after d: never by one up to d.
   */
  lemma ReservationStands(run: seq<Event>, n: nat, m: Id, d: int)
    requires IsRun(run) && n <= |run| && IsRun(run[..n]) && Reserved(After(run[..n]), m, d)
    requires forall i :: n <= i < |run| ==> IsRun(run[..i]) && !Renews(After(run[..i]), run[i], m)
    ensures m in After(run).used && (m in After(run).core.members ==> Reserved(After(run), m, d))
    ensures m !in After(run).core.members ==> exists i: nat :: n <= i < |run| && LosesPlaceAt(run, i, m, d)
  {
    ReservedOrGone(run, n, m, d);
    if m !in After(run).core.members {
      DepartedBy(run, n, m);
      var i: nat :| n <= i < |run| && DepartsAt(run, i, m);
      ReservedUntil(run, n, i, m, d);
      PlaceLost(After(run[..i]), run[i], m, d);
      assert LosesPlaceAt(run, i, m, d);
    }
  }

  lemma ReservedUntil(run: seq<Event>, n: nat, i: nat, m: Id, d: int)
    requires n <= i <= |run| && IsRun(run[..n]) && IsRun(run[..i]) && Reserved(After(run[..n]), m, d)
    requires forall j :: n <= j < |run| ==> IsRun(run[..j]) && !Renews(After(run[..j]), run[j], m)
    ensures m !in After(run[..i]).core.members || Reserved(After(run[..i]), m, d)
  {
    var before := run[..i];
    assert before[..n] == run[..n];
    forall j | n <= j < |before|
      ensures IsRun(before[..j]) && !Renews(After(before[..j]), before[j], m)
    {
      assert before[..j] == run[..j];
    }
    ReservedOrGone(before, n, m, d);
  }

  lemma PlaceLost(s: State, e: Event, m: Id, d: int)
    requires Departs(s.core, e, m) && Reserved(s, m, d)
    ensures LosesPlace(s.core, e, m, d)
  {
  }

  /**
   So the place is kept, and up to and including d the member's token is accepted: if it has not left and its
   room has not ended, and the sweeps meanwhile came no later than d and the room's own deadlines.
   */
  lemma PlaceKept(run: seq<Event>, n: nat, m: Id, d: int, now: int)
    requires IsRun(run) && n <= |run| && IsRun(run[..n]) && Reserved(After(run[..n]), m, d)
    requires forall i :: n <= i < |run| ==> IsRun(run[..i]) && !Renews(After(run[..i]), run[i], m)
    requires forall i: nat {:trigger LosesPlaceAt(run, i, m, d)} :: n <= i < |run| ==> !LosesPlaceAt(run, i, m, d)
    requires now <= d
    ensures m in After(run).core.members && After(run).core.members[m].deadline == Some(d)
    ensures var c := After(run).core;
            var r := c.members[m].room;
            r in c.rooms && (c.rooms[r].host != m || c.rooms[r].hostDeadline.None? ==>
              MayResume(c, m, r, c.members[m].resumeToken, now))
  {
    ReservationStands(run, n, m, d);
    RunInv(run);
    assert MemberOk(After(run).core, m);
    ResumeAllowedIff(After(run).core, m, After(run).core.members[m].room, After(run).core.members[m].resumeToken, now);
  }

  lemma UsedGrows(s: State, e: Event)
    requires Possible(s, e)
    ensures s.used <= Next(s, e).used
  {
  }

  /**
   So nobody resumes on a reservation that has run out, however often it was resumed before, unless
   it is the host and the host's own deadline applies; and a sweep then removes every other member.
   */
  lemma NoLateResume(run: seq<Event>, n: nat, m: Id, d: int, r: Id, token: Digest, now: int)
    requires IsRun(run) && n <= |run| && IsRun(run[..n]) && Reserved(After(run[..n]), m, d)
    requires forall i :: n <= i < |run| ==> IsRun(run[..i]) && !Renews(After(run[..i]), run[i], m)
    requires now > d && m in After(run).core.members
    ensures MayResume(After(run).core, m, r, token, now) ==>
      After(run).core.rooms[r].host == m && After(run).core.rooms[r].hostDeadline.Some?
    ensures !After(run).core.members[m].isHost ==> m !in Swept(After(run).core, now).members
  {
    ReservationStands(run, n, m, d);
    RunInv(run);
    assert MemberOk(After(run).core, m);
  }

  // ---- the host's reservation over runs ----

  /** The room is kept for its absent host until d: for as long as it is the host, if it is still there. */
  predicate HostReserved(s: State, r: Id, m: Id, d: int) {
    && r in s.used && m in s.used
    && (m in s.core.members ==> !s.core.members[m].connected)
    && (r in s.core.rooms && s.core.rooms[r].host == m ==> s.core.rooms[r].hostDeadline == Some(d))
  }

  predicate Reconnects(s: State, e: Event, m: Id) {
    e.MarkOn? && e.h in s.handlers && s.handlers[e.h].member == m
  }

  /** A room that has m for its host had it before, with the same deadline. */
  predicate KeepsHostDeadline(c: Core, d: Core, r: Id, m: Id) {
    r in d.rooms && d.rooms[r].host == m ==>
      r in c.rooms && c.rooms[r].host == m
        && (c.rooms[r].hostDeadline.Some? ==> d.rooms[r].hostDeadline == c.rooms[r].hostDeadline)
  }

  lemma AssignedKeepsHost(c: Core, x: Id, r: Id, m: Id)
    requires x in c.rooms && (m in c.members ==> !c.members[m].connected)
    ensures KeepsHostDeadline(c, Assigned(c, x), r, m)
  {
  }

  lemma LeftKeepsHost(c: Core, leaver: Id, r: Id, m: Id)
    requires leaver in c.members && (m in c.members ==> !c.members[m].connected)
    ensures KeepsHostDeadline(c, Left(c, leaver), r, m)
  {
    var x := c.members[leaver].room;
    if x in c.rooms {
      AssignedKeepsHost(c.(members := c.members - {leaver}), x, r, m);
    }
  }

  lemma EditKeepsHost(s: State, e: Event, r: Id, m: Id)
    requires Possible(s, e) && (m in s.core.members ==> !s.core.members[m].connected)
    requires e.Rejoin? || e.Resume? || e.Mute? || e.Handover? || e.Configure? || e.End? || e.Restart?
    ensures KeepsHostDeadline(s.core, CoreAfter(s, e), r, m)
  {
  }

  lemma MarkKeepsHost(c: Core, x: Id, connected: bool, busy: bool, now: int, r: Id, m: Id)
    requires Inv(c) && (connected ==> x != m)
    ensures KeepsHostDeadline(c, Marked(c, x, connected, busy, now), r, m)
  {
    if x in c.members {
      assert MemberOk(c, x);
    }
  }

  lemma SweptKeepsHost(c: Core, now: int, r: Id, m: Id)
    requires m in c.members ==> !c.members[m].connected
    ensures KeepsHostDeadline(c, Swept(c, now), r, m)
  {
  }

  lemma StepKeepsHost(s: State, e: Event, r: Id, m: Id)
    requires Inv(s.core) && Possible(s, e) && !Reconnects(s, e, m) && r in s.used
    requires m in s.core.members ==> !s.core.members[m].connected
    ensures KeepsHostDeadline(s.core, Next(s, e).core, r, m)
  {
    match e
    case Leave(x) => LeftKeepsHost(s.core, x, r, m);
    case Sweep(now) => SweptKeepsHost(s.core, now, r, m);
    case MarkOn(h) =>
      MarkKeepsHost(s.core, s.handlers[h].member, true, Channels(s, s.handlers[h].member) != {}, 0, r, m);
    case MarkOff(h, now) =>
      MarkKeepsHost(s.core, s.handlers[h].member, false, Channels(s, s.handlers[h].member) != {}, now, r, m);
    case Rejoin(_, _, _, _, _, _, _, _) => EditKeepsHost(s, e, r, m);
    case Resume(_, _, _, _, _) => EditKeepsHost(s, e, r, m);
    case Mute(_, _, _) => EditKeepsHost(s, e, r, m);
    case Handover(_, _, _) => EditKeepsHost(s, e, r, m);
    case Configure(_, _, _, _) => EditKeepsHost(s, e, r, m);
    case End(_) => EditKeepsHost(s, e, r, m);
    case Restart(_) => EditKeepsHost(s, e, r, m);
    case _ =>
  }

  /** Marking keeps a member offline unless it is that member's own connection. */
  lemma MarkStaysOffline(s: State, e: Event, m: Id)
    requires Inv(s.core) && Possible(s, e) && (e.MarkOn? || e.MarkOff?) && !Reconnects(s, e, m)
    requires m in s.core.members && !s.core.members[m].connected
    ensures m in CoreAfter(s, e).members && !CoreAfter(s, e).members[m].connected
  {
    var x := s.handlers[e.h].member;
    MarkShape(s.core, x, e.MarkOn?, Channels(s, x) != {}, if e.MarkOff? then e.now else 0);
  }

  /** No step but its own connection brings a member online. */
  lemma StaysOffline(s: State, e: Event, m: Id)
    requires Inv(s.core) && Known(s) && Possible(s, e) && !Reconnects(s, e, m) && m in s.used
    requires m in s.core.members ==> !s.core.members[m].connected
    ensures m in Next(s, e).core.members ==> !Next(s, e).core.members[m].connected
  {
    assert Next(s, e).core == CoreAfter(s, e);
    if m !in s.core.members {
      GoneStep(s, e, m);
    } else if e.MarkOn? || e.MarkOff? {
      MarkStaysOffline(s, e, m);
    } else if Quiet(e) && !e.Create? && !e.Join? {
      QuietShape(s, e);
    }
  }

  lemma HostReservationStep(s: State, e: Event, r: Id, m: Id, d: int)
    requires Inv(s.core) && Known(s) && Possible(s, e) && HostReserved(s, r, m, d) && !Reconnects(s, e, m)
    ensures HostReserved(Next(s, e), r, m, d)
  {
    UsedGrows(s, e);
    StaysOffline(s, e, m);
    StepKeepsHost(s, e, r, m);
  }

  /**
   Along any stretch of a run in which an absent host does not reconnect, its deadline stays what it
   was for as long as it is the host: rejoins, late closes, resumes, other members and restarts
   do not move it.
   */
  lemma {:induction false} HostReservationStands(run: seq<Event>, n: nat, r: Id, m: Id, d: int)
    requires IsRun(run) && n <= |run| && IsRun(run[..n]) && HostReserved(After(run[..n]), r, m, d)
    requires forall i :: n <= i < |run| ==> IsRun(run[..i]) && !Reconnects(After(run[..i]), run[i], m)
    ensures HostReserved(After(run), r, m, d)
  {
    if n == |run| {
      assert run[..n] == run;
    } else {
      var shorter := run[..|run| - 1];
      assert shorter[..n] == run[..n];
      forall i | n <= i < |shorter|
        ensures IsRun(shorter[..i]) && !Reconnects(After(shorter[..i]), shorter[i], m)
      {
        assert shorter[..i] == run[..i];
      }
      HostReservationStands(shorter, n, r, m, d);
      RunInv(shorter);
      assert IsRun(run[..|run| - 1]) && !Reconnects(After(shorter), run[|run| - 1], m);
      HostReservationStep(After(shorter), run[|run| - 1], r, m, d);
    }
  }

  /** The steps that can take the place of a host that has until d. */
  predicate LosesHostPlace(c: Core, e: Event, r: Id, m: Id, d: int) {
    && Departs(c, e, m)
    && (e.Sweep? && r in c.rooms && c.rooms[r].host == m ==>
        e.now > d || (c.rooms[r].emptyDeadline.Some? && e.now > c.rooms[r].emptyDeadline.value))
  }

  ghost predicate LosesHostPlaceAt(run: seq<Event>, i: nat, r: Id, m: Id, d: int) {
    i < |run| && IsRun(run[..i]) && LosesHostPlace(After(run[..i]).core, run[i], r, m, d)
  }

  /**
   And while it is the host it is lost only by its own leave, the end of its room, a sweep that ends the
   room, or a sweep after d: never by one up to d.
   */
  lemma HostPlaceLost(run: seq<Event>, n: nat, r: Id, m: Id, d: int)
    requires IsRun(run) && n <= |run| && IsRun(run[..n]) && HostReserved(After(run[..n]), r, m, d)
    requires m in After(run[..n]).core.members && m !in After(run).core.members
    requires forall i :: n <= i < |run| ==> IsRun(run[..i]) && !Reconnects(After(run[..i]), run[i], m)
    ensures exists i: nat :: n <= i < |run| && LosesHostPlaceAt(run, i, r, m, d)
  {
    DepartedBy(run, n, m);
    var i: nat :| n <= i < |run| && DepartsAt(run, i, m);
    HostReservedUntil(run, n, i, r, m, d);
    RunInv(run[..i]);
    HostSwept(After(run[..i]), run[i], r, m, d);
    assert LosesHostPlaceAt(run, i, r, m, d);
  }

  lemma HostSwept(s: State, e: Event, r: Id, m: Id, d: int)
    requires Inv(s.core) && Departs(s.core, e, m) && HostReserved(s, r, m, d)
    ensures LosesHostPlace(s.core, e, r, m, d)
  {
    assert MemberOk(s.core, m);
    if r in s.core.rooms {
      assert DeadlinesOk(s.core, r);
    }
  }

  lemma HostReservedUntil(run: seq<Event>, n: nat, i: nat, r: Id, m: Id, d: int)
    requires n <= i <= |run| && IsRun(run[..n]) && IsRun(run[..i]) && HostReserved(After(run[..n]), r, m, d)
    requires forall j :: n <= j < |run| ==> IsRun(run[..j]) && !Reconnects(After(run[..j]), run[j], m)
    ensures HostReserved(After(run[..i]), r, m, d)
  {
    var before := run[..i];
    assert before[..n] == run[..n];
    forall j | n <= j < |before|
      ensures IsRun(before[..j]) && !Reconnects(After(before[..j]), before[j], m)
    {
      assert before[..j] == run[..j];
    }
    HostReservationStands(before, n, r, m, d);
  }

  /** So once the host's time is up no token resumes the host, and a sweep with somebody online replaces it. */
  lemma NoLateHostResume(run: seq<Event>, n: nat, r: Id, m: Id, d: int, token: Digest, now: int)
    requires IsRun(run) && n <= |run| && IsRun(run[..n]) && HostReserved(After(run[..n]), r, m, d)
    requires forall i :: n <= i < |run| ==> IsRun(run[..i]) && !Reconnects(After(run[..i]), run[i], m)
    requires now > d && r in After(run).core.rooms && After(run).core.rooms[r].host == m
    ensures !MayResume(After(run).core, m, r, token, now)
    ensures Candidates(After(run).core.members, r) != {} ==>
      var swept := Swept(After(run).core, now);
      m !in swept.members && r in swept.rooms && swept.rooms[r].host != m
  {
    var c := After(run).core;
    HostReservationStands(run, n, r, m, d);
    RunInv(run);
    if m in c.members {
      assert MemberOk(c, m);
    }
    if Candidates(c.members, r) != {} {
      TimedOutHostReplaced(c, r, now);
    }
  }

  // ---- a late close ----

  /** Member m has the two connections 0 and 1, at these points, with these channels registered. */
  ghost predicate Pair(run: seq<Event>, c: Core, m: Id, channels: set<nat>, points: seq<Point>)
    requires |points| == 2
  {
    && IsRun(run) && After(run).core == c && Channels(After(run), m) == channels
    && After(run).handlers == map h: nat | 0 <= h < 2 :: Handler(m, points[h])
  }

  lemma PairAdds(run: seq<Event>, c: Core, m: Id, channels: set<nat>, points: seq<Point>, h: nat)
    requires |points| == 2 && h < 2 && Pair(run, c, m, channels, points) && points[h] == Arrived
    ensures Pair(run + [Add(h)], c, m, channels + {h}, points[h := Added])
  {
    Extend(run, Add(h));
  }

  lemma PairRemoves(run: seq<Event>, c: Core, m: Id, channels: set<nat>, points: seq<Point>, h: nat)
    requires |points| == 2 && h < 2 && Pair(run, c, m, channels, points) && points[h] == Live
    ensures Pair(run + [Remove(h)], c, m, channels - {h}, points[h := Removed])
  {
    Extend(run, Remove(h));
  }

  lemma PairChecks(run: seq<Event>, c: Core, m: Id, points: seq<Point>, h: nat)
    requires |points| == 2 && h < 2 && Pair(run, c, m, {}, points) && points[h] == Removed
    ensures Pair(run + [Check(h)], c, m, {}, points[h := Closing])
  {
    Extend(run, Check(h));
  }

  lemma PairMarksOn(run: seq<Event>, c: Core, m: Id, channels: set<nat>, points: seq<Point>, h: nat)
    requires |points| == 2 && h < 2 && Pair(run, c, m, channels, points) && points[h] == Added
    requires m in c.members && c.members[m].room in c.rooms
    ensures Pair(run + [MarkOn(h)], Online(c, m), m, channels, points[h := Live])
  {
    Extend(run, MarkOn(h));
  }

  lemma PairMarksOff(run: seq<Event>, c: Core, m: Id, points: seq<Point>, h: nat, now: int)
    requires |points| == 2 && h < 2 && Pair(run, c, m, {}, points) && points[h] == Closing
    requires m in c.members && c.members[m].room in c.rooms
    ensures Pair(run + [MarkOff(h, now)], Offline(c, m, now), m, {}, points[h := Done])
  {
    Extend(run, MarkOff(h, now));
  }

  /** A room is created, and its host opens two connections. */
  lemma TwoArrive(r: Id, m: Id, room: Room, access: Access, token: Digest) returns (run: seq<Event>)
    requires r != m && room == NewRoom(m, "", "", 2, 5, 0, access, None)
    ensures Pair(run, Core(map[r := room], map[m := Creator(r, "", "", None, token)]), m, {}, [Arrived, Arrived])
  {
    var create := Create(r, m, "", "", 2, 5, access, None, "", None, token, 0);
    run := [];
    Extend(run, create);
    run := run + [create];
    Extend(run, Find(0, m));
    run := run + [Find(0, m)];
    Extend(run, Find(1, m));
    run := run + [Find(1, m)];
  }

  lemma TwoConnect(begin: seq<Event>, c: Core, m: Id) returns (run: seq<Event>)
    requires Pair(begin, c, m, {}, [Arrived, Arrived]) && m in c.members && c.members[m].room in c.rooms
    ensures Pair(run, Online(c, m), m, {0, 1}, [Live, Live])
  {
    PairAdds(begin, c, m, {}, [Arrived, Arrived], 0);
    run := begin + [Add(0)];
    assert [Arrived, Arrived][0 := Added] == [Added, Arrived] && [Added, Arrived][1 := Added] == [Added, Added];
    PairAdds(run, c, m, {0}, [Added, Arrived], 1);
    run := run + [Add(1)];
    assert {0} + {1 as nat} == {0, 1};
    PairMarksOn(run, c, m, {0, 1}, [Added, Added], 0);
    run := run + [MarkOn(0)];
    assert [Added, Added][0 := Live] == [Live, Added] && [Live, Added][1 := Live] == [Live, Live];
    PairMarksOn(run, Online(c, m), m, {0, 1}, [Live, Added], 1);
    run := run + [MarkOn(1)];
    OnlineTwice(c, m);
  }

  lemma OnlineTwice(c: Core, m: Id)
    requires m in c.members && c.members[m].room in c.rooms
    ensures Online(Online(c, m), m) == Online(c, m)
  {
    var d := Online(c, m);
    assert Online(d, m).rooms == d.rooms && Online(d, m).members == d.members;
  }

  /** Both are removed before either handler looks. */
  lemma TwoClose(begin: seq<Event>, c: Core, m: Id) returns (run: seq<Event>)
    requires Pair(begin, c, m, {0, 1}, [Live, Live])
    ensures Pair(run, c, m, {}, [Closing, Closing])
  {
    assert {0, 1} - {0} == {1 as nat} && {1 as nat} - {1} == {};
    assert [Live, Live][0 := Removed] == [Removed, Live] && [Removed, Live][1 := Removed] == [Removed, Removed];
    assert [Removed, Removed][0 := Closing] == [Closing, Removed]
      && [Closing, Removed][1 := Closing] == [Closing, Closing];
    PairRemoves(begin, c, m, {0, 1}, [Live, Live], 0);
    run := begin + [Remove(0)];
    PairRemoves(run, c, m, {1}, [Removed, Live], 1);
    run := run + [Remove(1)];
    PairChecks(run, c, m, [Removed, Removed], 0);
    run := run + [Check(0)];
    PairChecks(run, c, m, [Closing, Removed], 1);
    run := run + [Check(1)];
  }

  /**
   Two connections of one member that both saw no other channel mark it offline twice: the second
   time starts the member's and the room's half hour again, though nobody came back in between.
   */
  lemma LateCloseRenews(r: Id, m: Id, access: Access, token: Digest, first: int, second: int)
    returns (run: seq<Event>, later: seq<Event>)
    requires r != m
    ensures IsRun(run) && Reserved(After(run), m, first + RETENTION)
    ensures r in After(run).core.rooms && After(run).core.rooms[r].emptyDeadline == Some(first + RETENTION)
    ensures later == run + [MarkOff(1, second)] && IsRun(later) && Reserved(After(later), m, second + RETENTION)
    ensures r in After(later).core.rooms && After(later).core.rooms[r].emptyDeadline == Some(second + RETENTION)
  {
    var room := NewRoom(m, "", "", 2, 5, 0, access, None);
    var c := Core(map[r := room], map[m := Creator(r, "", "", None, token)]);
    var start := TwoArrive(r, m, room, access, token);
    start := TwoConnect(start, c, m);
    start := TwoClose(start, Online(c, m), m);
    var d := Offline(Online(c, m), m, first);
    PairMarksOff(start, Online(c, m), m, [Closing, Closing], 0, first);
    run := start + [MarkOff(0, first)];
    assert [Closing, Closing][0 := Done] == [Done, Closing];
    PairMarksOff(run, d, m, [Done, Closing], 1, second);
    later := run + [MarkOff(1, second)];
  }

  // ---- timeouts ----

  /** After a sweep no surviving room with somebody online waits for a host whose time is up. */
  lemma TimedOutHostReplaced(c: Core, r: Id, now: int)
    requires Inv(c) && r in c.rooms && Passed(c.rooms[r].hostDeadline, now) && Candidates(c.members, r) != {}
    ensures var d := Swept(c, now);
            && r in d.rooms && d.rooms[r].host in d.members && d.members[d.rooms[r].host].connected
            && d.rooms[r].host != c.rooms[r].host && c.rooms[r].host !in d.members && d.rooms[r].hostDeadline.None?
            && (forall m :: m in Candidates(c.members, r) ==> c.members[d.rooms[r].host].order <= c.members[m].order)
  {
    assert DeadlinesOk(c, r);
    assert !Dead(c, r, now) by {
      var m :| m in Candidates(c.members, r);
      assert AnyOnline(c.members, r);
    }
    RoomSweep.ReplacedHostOffline(c, r, now);
    OldHostGone(c, r, now);
  }

  lemma OldHostGone(c: Core, r: Id, now: int)
    requires Inv(c) && Replaces(c, r, now)
    ensures c.rooms[r].host !in Swept(c, now).members
  {
    if c.rooms[r].host in c.members {
      RoomSweep.ReplacedHostOffline(c, r, now);
    }
  }
}
