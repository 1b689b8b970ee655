/**
 What every handler leaves behind, record by record and in milliseconds, and what it answers: stated on
 the members and rooms themselves.
 */
module HandlerOutcomes {
  import opened Collections
  import opened RoomState
  import opened RoomInvariant
  import RoomSweep

  // ---- frames ----

  /** Nothing but room r and member m is different. */
  predicate OnlyAt(c: Core, d: Core, r: Id, m: Id) {
    && (forall x :: x in c.rooms && x != r ==> x in d.rooms && d.rooms[x] == c.rooms[x])
    && (forall x :: x in d.rooms && x != r ==> x in c.rooms)
    && (forall x :: x in c.members && x != m ==> x in d.members && d.members[x] == c.members[x])
    && (forall x :: x in d.members && x != m ==> x in c.members)
  }

  /** Somebody other than m is connected to room r. */
  predicate OthersOnline(ms: Members, r: Id, m: Id) {
    exists x :: x in ms && x != m && ms[x].room == r && ms[x].connected
  }

  // ---- presence ----

  /** A stale close and an unknown identity change nothing. */
  lemma MarkIgnored(c: Core, m: Id, connected: bool, busy: bool, now: int)
    requires m !in c.members || (!connected && busy)
    ensures Marked(c, m, connected, busy, now) == c
  {
  }

  /** Connecting puts the member online and stops its clock, the empty room's, and the host's if it is the host. */
  lemma MarkOnline(c: Core, m: Id, busy: bool, now: int)
    requires Inv(c) && m in c.members
    ensures var r, d := c.members[m].room, Marked(c, m, true, busy, now);
            && r in c.rooms && OnlyAt(c, d, r, m) && m in d.members && r in d.rooms
            && d.members[m] == c.members[m].(connected := true, deadline := None)
            && d.rooms[r] == c.rooms[r].(emptyDeadline := None,
                                         hostDeadline := if c.rooms[r].host == m then None else c.rooms[r].hostDeadline)
  {
    assert MemberOk(c, m);
  }

  /**
   A last close puts it offline for half an hour; the host's clock starts if it was the host and no clock
   was running, at as many minutes as the room says; the room's half hour starts if nobody else is online.
   */
  lemma MarkOffline(c: Core, m: Id, now: int)
    requires Inv(c) && m in c.members
    ensures var r, d := c.members[m].room, Marked(c, m, false, false, now);
            && r in c.rooms && OnlyAt(c, d, r, m) && m in d.members && r in d.rooms
            && d.members[m] == c.members[m].(connected := false, deadline := Some(now + 1_800_000))
            && d.rooms[r] == c.rooms[r].(
                 hostDeadline := if c.rooms[r].host == m && c.rooms[r].hostDeadline.None?
                                 then Some(now + 60_000 * c.rooms[r].hostTimeout) else c.rooms[r].hostDeadline,
                 emptyDeadline := if OthersOnline(c.members, r, m) then c.rooms[r].emptyDeadline
                                  else Some(now + 1_800_000))
  {
    var r := c.members[m].room;
    assert MemberOk(c, m);
    OnlineWithout(c, m, now);
  }

  lemma OnlineWithout(c: Core, m: Id, now: int)
    requires m in c.members
    ensures AnyOnline(c.members[m := c.members[m].(connected := false, deadline := Some(now + RETENTION))],
                      c.members[m].room)
            <==> OthersOnline(c.members, c.members[m].room, m)
  {
    var r, d := c.members[m].room, c.members[m := c.members[m].(connected := false, deadline := Some(now + RETENTION))];
    if AnyOnline(d, r) {
      var x :| x in d && d[x].room == r && d[x].connected;
      assert x in c.members && x != m;
    }
    if OthersOnline(c.members, r, m) {
      var x :| x in c.members && x != m && c.members[x].room == r && c.members[x].connected;
      assert x in d && d[x].room == r && d[x].connected;
    }
  }

  // ---- resuming ----

  /**
   The token's holder may resume up to and including its deadline: the host deadline for a host that has
   one, the member's own otherwise, and without any deadline at any time.
   */
  lemma ResumeAllowedIff(c: Core, m: Id, r: Id, token: Digest, now: int)
    requires Inv(c)
    ensures MayResume(c, m, r, token, now) <==>
            && m in c.members && r in c.rooms && c.members[m].room == r && c.members[m].resumeToken == token
            && var deadline := if c.rooms[r].host == m && c.rooms[r].hostDeadline.Some?
                               then c.rooms[r].hostDeadline else c.members[m].deadline;
               deadline.None? || now <= deadline.value
  {
    if m in c.members {
      assert MemberOk(c, m);
    }
  }

  /** Resuming replaces the token; the deadlines an offline member or host lacks are filled in, none is moved. */
  lemma ResumeOutcome(c: Core, m: Id, token: Digest, now: int)
    requires Inv(c) && m in c.members && c.members[m].room in c.rooms
    ensures var r, d := c.members[m].room, Resumed(c, m, token, now);
            var offline := !c.members[m].connected;
            && OnlyAt(c, d, r, m) && m in d.members && r in d.rooms
            && d.members[m] == c.members[m].(
                 resumeToken := token,
                 deadline := if offline && c.members[m].deadline.None? then Some(now + 1_800_000)
                             else c.members[m].deadline)
            && d.rooms[r] == c.rooms[r].(
                 hostDeadline := if offline && c.rooms[r].host == m && c.rooms[r].hostDeadline.None?
                                 then Some(now + 60_000 * c.rooms[r].hostTimeout) else c.rooms[r].hostDeadline)
  {
    assert MemberOk(c, m);
  }

  // ---- creating, joining, rejoining ----

  /** A new room has its creator for host, no clock running and no setting on; the creator comes first, offline. */
  lemma CreateOutcome(c: Core, r: Id, m: Id, name: string, nickname: string, capacity: int, hostTimeout: int, now: int,
                      access: Access, key: Option<string>, device: string, proof: Option<Digest>, token: Digest)
    ensures var d := Created(c, r, NewRoom(m, name, nickname, capacity, hostTimeout, now, access, key), m,
                             Creator(r, nickname, device, proof, token));
            && OnlyAt(c, d, r, m) && r in d.rooms && m in d.members
            && var room, member := d.rooms[r], d.members[m];
               && room.name == name && room.host == m && room.hostNickname == nickname && room.capacity == capacity
               && room.hostTimeout == hostTimeout && room.createdAt == now && room.access == Some(access)
               && room.monitoringKey == key && room.hostDeadline == None && room.emptyDeadline == None
               && !room.hybridAudio && !room.announcements
               && member.room == r && member.nickname == nickname && member.device == device && member.proof == proof
               && member.resumeToken == token && member.order == 1 && member.isHost && member.canSpeak
               && !member.connected && member.deadline == None
  {
  }

  /** A newcomer may speak, is offline for up to half an hour, and comes after everybody in the room. */
  lemma JoinOutcomeOf(c: Core, m: Id, r: Id, nickname: string, device: string, proof: Option<Digest>, token: Digest,
                      order: int, now: int)
    requires m !in c.members && IsNextOrder(c.members, r, order)
    ensures var d := Joined(c, m, r, nickname, device, proof, token, order, now);
            && OnlyAt(c, d, r, m) && d.rooms == c.rooms && m in d.members
            && var member := d.members[m];
               && member.room == r && member.nickname == nickname && member.device == device && member.proof == proof
               && member.resumeToken == token && member.canSpeak && !member.isHost && !member.connected
               && member.deadline == Some(now + 1_800_000) && member.order >= 1
               && (forall x :: x in c.members && c.members[x].room == r ==> c.members[x].order < member.order)
               && (member.order == 1
                   || exists x :: x in c.members && c.members[x].room == r && c.members[x].order == member.order - 1)
  {
  }

  /** Rejoining renews name, token and half hour, and nothing else. */
  lemma RejoinOutcome(c: Core, m: Id, nickname: string, token: Digest, now: int)
    requires m in c.members
    ensures var d := Rejoined(c, m, nickname, token, now);
            && d.rooms == c.rooms && OnlyAt(c, d, c.members[m].room, m) && m in d.members
            && d.members[m].nickname == nickname && d.members[m].resumeToken == token
            && d.members[m].deadline == Some(now + 1_800_000)
            && c.members[m] == d.members[m].(nickname := c.members[m].nickname, resumeToken := c.members[m].resumeToken,
                                             deadline := c.members[m].deadline)
  {
  }

  // ---- policy and role ----

  /** A host may set the policy of every member of its room but its own, and only that changes. */
  lemma MuteOutcome(c: Core, r: Id, target: Id, canSpeak: bool)
    requires Inv(c)
    ensures MayMute(c, r, target) <==>
            target in c.members && r in c.rooms && c.members[target].room == r && c.rooms[r].host != target
    ensures target in c.members ==>
      var d := Muted(c, target, canSpeak);
      && d.rooms == c.rooms && OnlyAt(c, d, c.members[target].room, target) && target in d.members
      && d.members[target].canSpeak == canSpeak
      && c.members[target] == d.members[target].(canSpeak := c.members[target].canSpeak)
  {
    if target in c.members {
      assert MemberOk(c, target);
    }
  }

  /**
   The role goes from the host to a connected member of its room: the one flag goes off and the other on, the
   receiver may speak, the room names it and waits for no host; nobody else and no other room is touched.
   */
  lemma HandoverOutcome(c: Core, caller: Id, r: Id, target: Id)
    requires Inv(c)
    ensures ActsAsHost(c, caller, r) && MayReceiveRoom(c, caller, r, target) <==>
            && r in c.rooms && c.rooms[r].host == caller && caller in c.members
            && target in c.members && target != caller && c.members[target].room == r && c.members[target].connected
    ensures ActsAsHost(c, caller, r) && MayReceiveRoom(c, caller, r, target) ==>
      var d := HandedOver(c, caller, target);
      && d.rooms == c.rooms[r := c.rooms[r].(host := target, hostNickname := c.members[target].nickname,
                                             hostDeadline := None)]
      && d.members.Keys == c.members.Keys
      && d.members[caller] == c.members[caller].(isHost := false)
      && d.members[target] == c.members[target].(isHost := true, canSpeak := true)
      && (forall x :: x in c.members && x != caller && x != target ==> d.members[x] == c.members[x])
  {
    if r in c.rooms {
      assert DeadlinesOk(c, r);
    }
    if caller in c.members {
      assert MemberOk(c, caller);
    }
  }

  // ---- leaving ----

  /** next is the connected member of the room that joined first, m left out. */
  predicate FirstOnline(ms: Members, r: Id, m: Id, next: Id) {
    && next in ms && next != m && ms[next].room == r && ms[next].connected
    && forall x :: x in ms && x != m && ms[x].room == r && ms[x].connected ==> ms[next].order <= ms[x].order
  }

  /** Join orders differ, so there is one. */
  lemma FirstOnlineUnique(c: Core, r: Id, m: Id, a: Id, b: Id)
    requires Inv(c) && FirstOnline(c.members, r, m, a) && FirstOnline(c.members, r, m, b)
    ensures a == b
  {
    assert PairOk(c.members, a, b);
  }

  /** A guest who leaves takes its record along. */
  lemma GuestLeaveOutcome(c: Core, m: Id)
    requires Inv(c) && m in c.members && c.members[m].room in c.rooms && c.rooms[c.members[m].room].host != m
    ensures Left(c, m) == Core(c.rooms, c.members - {m})
  {
    assert MemberOk(c, m);
  }

  /** A host who leaves others online is succeeded by the one of them that joined first. */
  lemma HostLeaveOutcome(c: Core, m: Id, next: Id)
    requires Inv(c) && m in c.members && c.members[m].room in c.rooms && c.rooms[c.members[m].room].host == m
    requires FirstOnline(c.members, c.members[m].room, m, next)
    ensures var r := c.members[m].room;
            Left(c, m)
            == Core(c.rooms[r := c.rooms[r].(host := next, hostNickname := c.members[next].nickname,
                                             hostDeadline := None)],
                    (c.members - {m})[next := c.members[next].(isHost := true, canSpeak := true)])
  {
    var r, without := c.members[m].room, c.(members := c.members - {m});
    assert MemberOk(c, m);
    assert next in Candidates(without.members, r);
    var least := Successor(without.members, r);
    assert least in Candidates(without.members, r);
    assert FirstOnline(c.members, r, m, least);
    FirstOnlineUnique(c, r, m, least, next);
    var handed := Promoted(without, r, next);
    assert next in In(handed.members, r);
    assert handed.members == without.members[next := c.members[next].(isHost := true, canSpeak := true)];
  }

  /** A host who leaves nobody online leaves the room to the members still in it, or ends it as the last. */
  lemma LoneHostLeaveOutcome(c: Core, m: Id)
    requires Inv(c) && m in c.members && c.members[m].room in c.rooms && c.rooms[c.members[m].room].host == m
    requires !OthersOnline(c.members, c.members[m].room, m)
    ensures var r := c.members[m].room;
            Left(c, m) == if exists x :: x in c.members && x != m && c.members[x].room == r
                          then Core(c.rooms, c.members - {m}) else Core(c.rooms - {r}, c.members - {m})
  {
    var r, without := c.members[m].room, c.(members := c.members - {m});
    assert MemberOk(c, m);
    NobodyLeft(c.members, r, m);
    if x :| x in c.members && x != m && c.members[x].room == r {
      assert x in In(without.members, r);
    } else {
      assert Deleted(without, r).members == without.members;
    }
  }

  lemma NobodyLeft(ms: Members, r: Id, m: Id)
    ensures Candidates(ms - {m}, r) == {} <==> !OthersOnline(ms, r, m)
  {
    if x :| x in Candidates(ms - {m}, r) {
      assert x in ms && x != m && ms[x].room == r && ms[x].connected;
    }
    if x :| x in ms && x != m && ms[x].room == r && ms[x].connected {
      assert x in Candidates(ms - {m}, r);
    }
  }

  /** Ending a room removes it and exactly its members. */
  lemma EndOutcome(c: Core, r: Id)
    ensures var d := Deleted(c, r);
            && (forall x :: x in d.rooms <==> x in c.rooms && x != r)
            && (forall x :: x in d.rooms ==> d.rooms[x] == c.rooms[x])
            && (forall x :: x in d.members <==> x in c.members && c.members[x].room != r)
            && (forall x :: x in d.members ==> d.members[x] == c.members[x])
  {
  }

  // ---- restart ----

  /**
   A restart keeps every room and member, puts everybody offline, and starts the clocks that are not
   running: half an hour for members and rooms, the room's own minutes for a host that is still there.
   */
  lemma RestartOutcome(c: Core, now: int)
    ensures var d := Restarted(c, now);
            && d.rooms.Keys == c.rooms.Keys && d.members.Keys == c.members.Keys
            && (forall m :: m in c.members ==>
                d.members[m] == c.members[m].(
                  connected := false,
                  deadline := if c.members[m].deadline.Some? then c.members[m].deadline else Some(now + 1_800_000)))
            && (forall r :: r in c.rooms ==>
                d.rooms[r] == c.rooms[r].(
                  emptyDeadline := if c.rooms[r].emptyDeadline.Some? then c.rooms[r].emptyDeadline
                                   else Some(now + 1_800_000),
                  hostDeadline := if c.rooms[r].hostDeadline.None? && c.rooms[r].host in c.members
                                  then Some(now + 60_000 * c.rooms[r].hostTimeout) else c.rooms[r].hostDeadline))
  {
  }

  // ---- sweeping ----

  /** The room has no empty deadline, or it has not passed. */
  predicate RoomStays(c: Core, r: Id, now: int) {
    r in c.rooms && (c.rooms[r].emptyDeadline.None? || now <= c.rooms[r].emptyDeadline.value)
  }

  /** The host deadline has passed and somebody is online. */
  predicate HostOverdue(c: Core, r: Id, now: int) {
    && r in c.rooms && c.rooms[r].hostDeadline.Some? && now > c.rooms[r].hostDeadline.value
    && exists x :: x in c.members && c.members[x].room == r && c.members[x].connected
  }

  lemma HostOverdueReplaces(c: Core, r: Id, now: int)
    requires Inv(c)
    ensures Replaces(c, r, now) <==> HostOverdue(c, r, now)
  {
    if HostOverdue(c, r, now) {
      var x :| x in c.members && c.members[x].room == r && c.members[x].connected;
      assert x in Candidates(c.members, r);
      assert DeadlinesOk(c, r);
    }
    if Replaces(c, r, now) {
      var x :| x in Candidates(c.members, r);
      assert c.members[x].room == r && c.members[x].connected;
    }
  }

  /** A sweep removes a room exactly after its empty deadline. */
  lemma SweepRoomsIff(c: Core, now: int, r: Id)
    ensures r in Swept(c, now).rooms <==>
            r in c.rooms && (c.rooms[r].emptyDeadline.None? || now <= c.rooms[r].emptyDeadline.value)
  {
  }

  /**
   It removes a member exactly with its room, or as an offline guest after its own deadline, or as a host
   that is overdue while somebody is online.
   */
  lemma SweepMembersIff(c: Core, now: int, m: Id)
    requires Inv(c)
    ensures m in Swept(c, now).members <==>
            && m in c.members && RoomStays(c, c.members[m].room, now)
            && if c.rooms[c.members[m].room].host == m then !HostOverdue(c, c.members[m].room, now)
               else c.members[m].connected || c.members[m].deadline.None? || now <= c.members[m].deadline.value
  {
    if m in c.members {
      assert MemberOk(c, m);
      HostOverdueReplaces(c, c.members[m].room, now);
    }
  }

  /** So up to and including its deadline an absent guest keeps its place, while its room stays. */
  lemma WhoMustStay(c: Core, now: int, m: Id, d: int)
    requires Inv(c) && m in c.members && !c.members[m].isHost && c.members[m].deadline == Some(d) && now <= d
    requires c.members[m].room in c.rooms
    requires c.rooms[c.members[m].room].emptyDeadline.None?
      || now <= c.rooms[c.members[m].room].emptyDeadline.value
    ensures m in Swept(c, now).members && Swept(c, now).members[m].room == c.members[m].room
  {
    assert MemberOk(c, m);
    SweepMembersIff(c, now, m);
  }

  /** And up to and including the host deadline the host, there or not, stays the host. */
  lemma HostMustStay(c: Core, now: int, r: Id, d: int)
    requires Inv(c) && r in c.rooms && c.rooms[r].hostDeadline == Some(d) && now <= d
    requires c.rooms[r].emptyDeadline.None? || now <= c.rooms[r].emptyDeadline.value
    ensures r in Swept(c, now).rooms && Swept(c, now).rooms[r] == c.rooms[r]
    ensures c.rooms[r].host in c.members ==>
      c.rooms[r].host in Swept(c, now).members
      && Swept(c, now).members[c.rooms[r].host] == c.members[c.rooms[r].host]
  {
    SweepRoomOutcome(c, now, r);
    if c.rooms[r].host in c.members {
      assert MemberOk(c, c.rooms[r].host) && DeadlinesOk(c, r);
      SweepMembersIff(c, now, c.rooms[r].host);
      SweepMemberOutcome(c, now, c.rooms[r].host);
    }
  }

  /** A room that stays is as it was, unless its host is overdue: then the first online member takes over. */
  lemma SweepRoomOutcome(c: Core, now: int, r: Id)
    requires Inv(c) && RoomStays(c, r, now)
    ensures r in Swept(c, now).rooms
    ensures !HostOverdue(c, r, now) ==> Swept(c, now).rooms[r] == c.rooms[r]
    ensures HostOverdue(c, r, now) ==>
      exists next :: FirstOnline(c.members, r, c.rooms[r].host, next)
                     && Swept(c, now).rooms[r] == c.rooms[r].(host := next, hostNickname := c.members[next].nickname,
                                                              hostDeadline := None)
  {
    HostOverdueReplaces(c, r, now);
    if Replaces(c, r, now) {
      RoomSweep.ReplacedHostOffline(c, r, now);
      assert FirstOnline(c.members, r, c.rooms[r].host, Successor(c.members, r));
    }
  }

  /** A member that stays is as it was, unless it takes over: then it is the host and may speak. */
  lemma SweepMemberOutcome(c: Core, now: int, m: Id)
    requires Inv(c) && m in Swept(c, now).members
    ensures m in c.members && c.members[m].room in c.rooms
    ensures Swept(c, now).members[m]
         == if HostOverdue(c, c.members[m].room, now)
               && FirstOnline(c.members, c.members[m].room, c.rooms[c.members[m].room].host, m)
            then c.members[m].(isHost := true, canSpeak := true) else c.members[m]
  {
    var r := c.members[m].room;
    assert MemberOk(c, m);
    HostOverdueReplaces(c, r, now);
    if Replaces(c, r, now) {
      RoomSweep.ReplacedHostOffline(c, r, now);
      var next := Successor(c.members, r);
      assert FirstOnline(c.members, r, c.rooms[r].host, next);
      if FirstOnline(c.members, r, c.rooms[r].host, m) {
        FirstOnlineUnique(c, r, c.rooms[r].host, m, next);
      }
    }
  }
}
