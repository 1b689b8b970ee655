/** Every handler keeps the room invariant. */
module RoomInvariant {
  import opened Collections
  import opened RoomState

  // ---- uniqueness ----

  /** With distinct orders the least candidate is unique, so map order cannot matter. */
  lemma SuccessorUnique(c: Core, r: Id, next: Id)
    requires Inv(c) && IsLeast(c.members, Candidates(c.members, r), next)
    ensures Successor(c.members, r) == next
  {
    var s := Successor(c.members, r);
    assert PairOk(c.members, s, next);
  }

  // ---- changes that touch one member or one room ----

  /** A member record may change in everything but room, device, proof and order. */
  predicate SameIdentity(a: Member, b: Member) {
    a.room == b.room && a.device == b.device && a.proof == b.proof && a.order == b.order
  }

  /** Pairs and capacities depend on identities only. */
  lemma IdentityKept(c: Core, d: Core)
    requires Inv(c) && d.members.Keys <= c.members.Keys && d.rooms.Keys <= c.rooms.Keys
    requires forall m :: m in d.members ==> SameIdentity(c.members[m], d.members[m])
    requires forall r :: r in d.rooms ==> d.rooms[r].capacity == c.rooms[r].capacity
    ensures forall r :: r in d.rooms ==> CapacityOk(d, r)
    ensures forall a, b :: a in d.members && b in d.members ==> PairOk(d.members, a, b)
  {
    forall r | r in d.rooms
      ensures CapacityOk(d, r)
    {
      assert CapacityOk(c, r);
      SubsetSize(In(d.members, r), In(c.members, r));
    }
    forall a, b | a in d.members && b in d.members
      ensures PairOk(d.members, a, b)
    {
      assert PairOk(c.members, a, b);
    }
  }

  /** A change within one room: what has to be checked is that room alone. */
  lemma OneRoom(c: Core, d: Core, r: Id)
    requires Inv(c) && d.rooms.Keys == c.rooms.Keys && d.members.Keys <= c.members.Keys
    requires forall x :: x in c.rooms && x != r ==> d.rooms[x] == c.rooms[x]
    requires forall m :: m in d.members ==> SameIdentity(c.members[m], d.members[m])
    requires forall m :: m in d.members && c.members[m].room != r ==> d.members[m] == c.members[m]
    requires r in c.rooms ==> d.rooms[r].capacity == c.rooms[r].capacity && DeadlinesOk(d, r)
    requires forall m :: m in d.members && d.members[m].room == r ==> MemberOk(d, m)
    ensures Inv(d)
  {
    IdentityKept(c, d);
    forall m | m in d.members && d.members[m].room != r
      ensures MemberOk(d, m)
    {
      assert MemberOk(c, m);
    }
    forall x | x in d.rooms && x != r
      ensures DeadlinesOk(d, x)
    {
      assert DeadlinesOk(c, x);
    }
  }

  // ---- presence ----

  lemma OnlineKeeps(c: Core, m: Id)
    requires Inv(c) && m in c.members && c.members[m].room in c.rooms
    ensures Inv(Online(c, m))
  {
    var r := c.members[m].room;
    assert DeadlinesOk(c, r) && MemberOk(c, m);
    OneRoomMember(c, Online(c, m), m);
  }

  /** The special case where one member's record and its room's change. */
  lemma OneRoomMember(c: Core, d: Core, m: Id)
    requires Inv(c) && m in c.members && c.members[m].room in c.rooms && m in d.members
    requires SameIdentity(c.members[m], d.members[m]) && d.members == c.members[m := d.members[m]]
    requires var r := c.members[m].room;
             && r in d.rooms && d.rooms == c.rooms[r := d.rooms[r]]
             && d.rooms[r].capacity == c.rooms[r].capacity && d.rooms[r].host == c.rooms[r].host
             && DeadlinesOk(d, r)
    requires d.members[m].isHost == c.members[m].isHost && (d.members[m].isHost ==> d.members[m].canSpeak)
    ensures Inv(d)
  {
    var r := c.members[m].room;
    forall x | x in d.members && d.members[x].room == r
      ensures MemberOk(d, x)
    {
      assert MemberOk(c, x);
    }
    OneRoom(c, d, r);
  }

  lemma OfflineKeeps(c: Core, m: Id, now: int)
    requires Inv(c) && m in c.members && c.members[m].room in c.rooms
    ensures Inv(Offline(c, m, now))
  {
    var r, d := c.members[m].room, Offline(c, m, now);
    assert DeadlinesOk(c, r) && MemberOk(c, m);
    assert AnyOnline(d.members, r) ==> AnyOnline(c.members, r) by {
      if x :| x in d.members && d.members[x].room == r && d.members[x].connected {
        assert x in c.members && c.members[x].connected;
      }
    }
    OneRoomMember(c, d, m);
  }

  lemma MarkedKeeps(c: Core, m: Id, connected: bool, busy: bool, now: int)
    requires Inv(c)
    ensures Inv(Marked(c, m, connected, busy, now))
  {
    if !((!connected && busy) || m !in c.members || c.members[m].room !in c.rooms) {
      if connected {
        OnlineKeeps(c, m);
      } else {
        OfflineKeeps(c, m, now);
      }
    }
  }

  lemma ResumedKeeps(c: Core, m: Id, token: Digest, now: int)
    requires Inv(c) && m in c.members && c.members[m].room in c.rooms
    ensures Inv(Resumed(c, m, token, now))
  {
    var r, d := c.members[m].room, Resumed(c, m, token, now);
    assert DeadlinesOk(c, r) && MemberOk(c, m);
    OnlineSame(c, d, r);
    if c.members[m].connected || !c.members[m].isHost {
      assert d.rooms == c.rooms[r := c.rooms[r]];
    }
    OneRoomMember(c, d, m);
  }

  /** Who is online depends on the connected flags only. */
  lemma OnlineSame(c: Core, d: Core, r: Id)
    requires d.members.Keys == c.members.Keys
    requires forall m :: m in c.members ==>
      d.members[m].room == c.members[m].room && d.members[m].connected == c.members[m].connected
    ensures AnyOnline(d.members, r) <==> AnyOnline(c.members, r)
  {
  }

  // ---- host and policy ----

  lemma MutedKeeps(c: Core, r: Id, target: Id, canSpeak: bool)
    requires Inv(c) && MayMute(c, r, target)
    ensures Inv(Muted(c, target, canSpeak))
  {
    var d := Muted(c, target, canSpeak);
    assert DeadlinesOk(c, r) && MemberOk(c, target);
    OnlineSame(c, d, r);
    assert d.rooms == c.rooms[r := c.rooms[r]];
    OneRoomMember(c, d, target);
  }

  /** After the role moved exactly the new host carries the flag, and may speak. */
  lemma RerolledFlags(c: Core, r: Id, next: Id)
    requires Inv(c) && r in c.rooms && next in c.members && c.members[next].room == r
    ensures var d := RoleMoved(c, r, c.rooms[r].host, next);
            forall m :: m in d.members && d.members[m].room == r ==> MemberOk(d, m)
  {
    var d := RoleMoved(c, r, c.rooms[r].host, next);
    forall m | m in d.members && d.members[m].room == r
      ensures MemberOk(d, m)
    {
      assert MemberOk(c, m);
    }
  }

  lemma RerolledIdentity(ms: Members, prior: Id, next: Id)
    requires next in ms
    ensures Rerolled(ms, prior, next).Keys == ms.Keys
    ensures forall m :: m in ms ==> SameIdentity(ms[m], Rerolled(ms, prior, next)[m])
    ensures forall m :: m in ms ==> Rerolled(ms, prior, next)[m].connected == ms[m].connected
    ensures forall m :: m in ms && m != prior && m != next ==> Rerolled(ms, prior, next)[m] == ms[m]
  {
  }

  /** Moving the role to a connected member keeps the invariant, whoever held it. */
  lemma RoleMovedKeeps(c: Core, r: Id, next: Id)
    requires Inv(c) && r in c.rooms && next in Candidates(c.members, r)
    ensures Inv(RoleMoved(c, r, c.rooms[r].host, next))
  {
    var prior := c.rooms[r].host;
    var d := RoleMoved(c, r, prior, next);
    assert DeadlinesOk(c, r);
    RerolledIdentity(c.members, prior, next);
    RerolledFlags(c, r, next);
    OnlineSame(c, d, r);
    OneRoom(c, d, r);
  }

  lemma HandedOverKeeps(c: Core, caller: Id, r: Id, target: Id)
    requires Inv(c) && ActsAsHost(c, caller, r) && MayReceiveRoom(c, caller, r, target)
    ensures Inv(HandedOver(c, caller, target))
  {
    RoleMovedKeeps(c, r, target);
  }

  /** Dropping the offline predecessor afterwards as well. */
  lemma PromotedKeeps(c: Core, r: Id, next: Id)
    requires Inv(c) && r in c.rooms && next in Candidates(c.members, r)
    ensures Inv(Promoted(c, r, next))
  {
    var prior := c.rooms[r].host;
    RoleMovedKeeps(c, r, next);
    RerolledIdentity(c.members, prior, next);
    if prior in c.members {
      RemovedKeeps(RoleMoved(c, r, prior, next), prior);
    }
  }

  lemma AssignedKeeps(c: Core, r: Id)
    requires Inv(c) && r in c.rooms
    ensures Inv(Assigned(c, r))
  {
    if Candidates(c.members, r) != {} {
      PromotedKeeps(c, r, Successor(c.members, r));
    }
  }

  // ---- leaving and deleting ----

  lemma RemovedKeeps(c: Core, m: Id)
    requires Inv(c) && m in c.members
    ensures Inv(c.(members := c.members - {m}))
  {
    var d := c.(members := c.members - {m});
    var r := c.members[m].room;
    assert MemberOk(c, m) && DeadlinesOk(c, r);
    forall x | x in d.members && d.members[x].room == r
      ensures MemberOk(d, x)
    {
      assert MemberOk(c, x);
    }
    OneRoom(c, d, r);
  }

  lemma DeletedKeeps(c: Core, r: Id)
    requires Inv(c)
    ensures Inv(Deleted(c, r))
  {
    var d := Deleted(c, r);
    IdentityKept(c, d);
    forall m | m in d.members
      ensures MemberOk(d, m)
    {
      assert MemberOk(c, m);
    }
    forall x | x in d.rooms
      ensures DeadlinesOk(d, x)
    {
      assert DeadlinesOk(c, x);
    }
  }

  lemma LeftKeeps(c: Core, m: Id)
    requires Inv(c) && m in c.members
    ensures Inv(Left(c, m))
  {
    var r := c.members[m].room;
    var without := c.(members := c.members - {m});
    RemovedKeeps(c, m);
    if c.members[m].isHost && r in c.rooms {
      AssignedKeeps(without, r);
    }
    DeletedKeeps(if c.members[m].isHost && r in c.rooms then Assigned(without, r) else without, r);
  }

  lemma WithRoomKeeps(c: Core, r: Id, room: Room)
    requires Inv(c) && r in c.rooms
    requires room.host == c.rooms[r].host && room.capacity == c.rooms[r].capacity
    requires room.hostDeadline == c.rooms[r].hostDeadline && room.emptyDeadline == c.rooms[r].emptyDeadline
    ensures Inv(WithRoom(c, r, room))
  {
    assert DeadlinesOk(c, r);
    forall m | m in c.members && c.members[m].room == r
      ensures MemberOk(WithRoom(c, r, room), m)
    {
      assert MemberOk(c, m);
    }
    OneRoom(c, WithRoom(c, r, room), r);
  }

  // ---- joining ----

  lemma RejoinedKeeps(c: Core, m: Id, nickname: string, token: Digest, now: int)
    requires Inv(c) && m in c.members
    ensures Inv(Rejoined(c, m, nickname, token, now))
  {
    var d := Rejoined(c, m, nickname, token, now);
    var r := c.members[m].room;
    assert MemberOk(c, m) && DeadlinesOk(c, r);
    OnlineSame(c, d, r);
    assert d.rooms == c.rooms[r := c.rooms[r]];
    OneRoomMember(c, d, m);
  }

  /** An admitted newcomer: a fresh ID, room for one more, an unused device, and the next order. */
  lemma JoinedKeeps(c: Core, m: Id, r: Id, nickname: string, device: string, proof: Option<Digest>, token: Digest,
                    order: int, now: int)
    requires Inv(c) && m !in c.members && r in c.rooms && (forall x :: x in c.rooms ==> c.rooms[x].host != m)
    requires |In(c.members, r)| < c.rooms[r].capacity && IsNextOrder(c.members, r, order)
    requires forall x :: x in c.members && c.members[x].room == r && c.members[x].device == device ==>
      c.members[x].proof.None? && proof.None?
    ensures Inv(Joined(c, m, r, nickname, device, proof, token, order, now))
  {
    var d := Joined(c, m, r, nickname, device, proof, token, order, now);
    AddedKeeps(c, m, d.members[m]);
  }

  /** A disconnected newcomer without the host flag. */
  lemma AddedKeeps(c: Core, m: Id, member: Member)
    requires Inv(c) && m !in c.members && member.room in c.rooms && (forall x :: x in c.rooms ==> c.rooms[x].host != m)
    requires !member.isHost && !member.connected && |In(c.members, member.room)| < c.rooms[member.room].capacity
    requires forall x :: x in c.members && c.members[x].room == member.room ==> c.members[x].order < member.order
    requires forall x :: x in c.members && c.members[x].room == member.room && c.members[x].device == member.device ==>
      c.members[x].proof.None? && member.proof.None?
    ensures Inv(c.(members := c.members[m := member]))
  {
    var d := c.(members := c.members[m := member]);
    forall x | x in d.members
      ensures MemberOk(d, x)
    {
      if x != m {
        assert MemberOk(c, x);
      }
    }
    forall x | x in d.rooms
      ensures DeadlinesOk(d, x) && CapacityOk(d, x)
    {
      AddedRoom(c, m, member, x);
    }
    forall a, b | a in d.members && b in d.members
      ensures PairOk(d.members, a, b)
    {
      if a != m && b != m {
        assert PairOk(c.members, a, b);
      }
    }
  }

  lemma AddedRoom(c: Core, m: Id, member: Member, x: Id)
    requires x in c.rooms && DeadlinesOk(c, x) && CapacityOk(c, x)
    requires m !in c.members && c.rooms[x].host != m && !member.connected
    requires x == member.room ==> |In(c.members, x)| < c.rooms[x].capacity
    ensures var d := c.(members := c.members[m := member]);
            DeadlinesOk(d, x) && CapacityOk(d, x)
  {
    var d := c.(members := c.members[m := member]);
    assert In(d.members, x) == In(c.members, x) + if x == member.room then {m} else {};
    if AnyOnline(d.members, x) {
      var y :| y in d.members && d.members[y].room == x && d.members[y].connected;
      assert y in c.members && c.members[y].connected;
    }
  }

  /** A new room and its creator, under IDs used by nothing so far. */
  lemma CreatedKeeps(c: Core, r: Id, room: Room, m: Id, member: Member)
    requires Inv(c) && r !in c.rooms && m !in c.members && (forall x :: x in c.rooms ==> c.rooms[x].host != m)
    requires room.host == m && room.capacity >= 2 && room.hostDeadline.None? && room.emptyDeadline.None?
    requires member.room == r && member.isHost && member.canSpeak
    ensures Inv(Created(c, r, room, m, member))
  {
    var d := Created(c, r, room, m, member);
    forall x | x in d.members
      ensures MemberOk(d, x) && (x != m ==> d.members[x].room != r)
    {
      if x != m {
        assert MemberOk(c, x);
      }
    }
    forall x | x in d.rooms
      ensures DeadlinesOk(d, x) && CapacityOk(d, x)
    {
      if x == r {
        assert In(d.members, r) == {m};
      } else {
        assert DeadlinesOk(c, x) && CapacityOk(c, x);
        assert In(d.members, x) == In(c.members, x);
        if AnyOnline(d.members, x) {
          var y :| y in d.members && d.members[y].room == x && d.members[y].connected;
          assert y in c.members && c.members[y].connected;
        }
      }
    }
    forall a, b | a in d.members && b in d.members
      ensures PairOk(d.members, a, b)
    {
      if a != m && b != m {
        assert PairOk(c.members, a, b);
      }
    }
  }

  // ---- restart ----

  /** Everyone is offline after a restart, so every room has an empty deadline, and the invariant holds. */
  lemma RestartedKeeps(c: Core, now: int)
    requires Inv(c)
    ensures Inv(Restarted(c, now))
    ensures forall r :: r in c.rooms ==> Restarted(c, now).rooms[r].emptyDeadline.Some?
    ensures forall m :: m in c.members ==>
      !Restarted(c, now).members[m].connected && Restarted(c, now).members[m].deadline.Some?
  {
    var d := Restarted(c, now);
    IdentityKept(c, d);
    forall m | m in d.members
      ensures MemberOk(d, m)
    {
      assert MemberOk(c, m);
    }
    forall r | r in d.rooms
      ensures DeadlinesOk(d, r)
    {
      assert DeadlinesOk(c, r);
    }
  }

  /** Presence is the only thing a restart forgets. */
  lemma RestartForgetsPresence(c: Core, now: int)
    ensures Restarted(Durable(c), now) == Restarted(c, now)
  {
  }
}
