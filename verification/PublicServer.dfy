/** The server object: live rooms and members changed in place, the database behind them, and the handlers. */
module PublicServer {
  import opened Collections
  import opened RoomState
  import opened RoomInvariant
  import opened RoomStore
  import opened RoomWrites
  import opened RoomRollback
  import opened RateLimiter
  import opened Admission
  import opened RoomSweep
  import opened LiveObjects
  import opened HandlerSpecs

  class Server {
    const store: Store
    const maximumRooms: int
    const maximumParticipants: int
    var rooms: map<Id, LiveRoom>
    var members: map<Id, LiveMember>
    var sockets: map<Id, set<nat>>
    var eventStreams: map<Id, set<nat>>
    var attempts: Log
    ghost var history: Log
    ghost var clock: int

    ghost function View(): Core
      reads this`rooms, this`members, rooms.Values, members.Values
    {
      Core(map r | r in rooms :: rooms[r].View(), map m | m in members :: members[m].View())
    }

    /** Objects sit under their own IDs, so no two keys share one. */
    ghost predicate Keyed()
      reads this`rooms, this`members
    {
      (forall r :: r in rooms ==> rooms[r].id == r) && (forall m :: m in members ==> members[m].id == m)
    }

    ghost predicate Valid()
      reads this`rooms, this`members, store, rooms.Values, members.Values
    {
      Keyed() && Good(View(), store.tables)
    }

    /** The attempt lists answer for the full call history. */
    ghost predicate Limits()
      reads this`attempts, this`history, this`clock
    {
      Consistent(attempts, history, clock)
    }

    // ---- what one change in place means for the state as a whole ----

    lemma ViewIs(c: Core)
      requires forall r :: r in rooms <==> r in c.rooms
      requires forall m :: m in members <==> m in c.members
      requires forall r :: r in rooms ==> rooms[r].View() == c.rooms[r]
      requires forall m :: m in members ==> members[m].View() == c.members[m]
      ensures View() == c
    {
    }

    twostate lemma MemberEdited(m: Id)
      requires rooms == old(rooms) && members == old(members) && m in members
      requires forall x :: x in members && x != m ==> members[x].View() == old(members[x].View())
      requires forall r :: r in rooms ==> rooms[r].View() == old(rooms[r].View())
      ensures View() == old(View()).(members := old(View()).members[m := members[m].View()])
    {
      ViewIs(old(View()).(members := old(View()).members[m := members[m].View()]));
    }

    twostate lemma RoomEdited(r: Id)
      requires rooms == old(rooms) && members == old(members) && r in rooms
      requires forall x :: x in rooms && x != r ==> rooms[x].View() == old(rooms[x].View())
      requires forall m :: m in members ==> members[m].View() == old(members[m].View())
      ensures View() == WithRoom(old(View()), r, rooms[r].View())
    {
      ViewIs(WithRoom(old(View()), r, rooms[r].View()));
    }

    /** A new object sits under this room ID. */
    twostate lemma RoomInstalled(r: Id)
      requires r in rooms && rooms == old(rooms)[r := rooms[r]] && members == old(members)
      requires forall x :: x in rooms && x != r ==> rooms[x].View() == old(rooms[x].View())
      requires forall m :: m in members ==> members[m].View() == old(members[m].View())
      ensures View() == WithRoom(old(View()), r, rooms[r].View())
    {
      ViewIs(WithRoom(old(View()), r, rooms[r].View()));
    }

    twostate lemma MemberInstalled(m: Id)
      requires m in members && members == old(members)[m := members[m]] && rooms == old(rooms)
      requires forall x :: x in members && x != m ==> members[x].View() == old(members[x].View())
      requires forall r :: r in rooms ==> rooms[r].View() == old(rooms[r].View())
      ensures View() == old(View()).(members := old(View()).members[m := members[m].View()])
    {
      ViewIs(old(View()).(members := old(View()).members[m := members[m].View()]));
    }

    method SetCanSpeak(m: Id, canSpeak: bool)
      requires Keyed() && m in members
      modifies members[m]
      ensures View() == Muted(old(View()), m, canSpeak)
    {
      members[m].canSpeak := canSpeak;
      MemberEdited(m);
    }

    method SetToken(m: Id, token: Digest, deadline: Option<int>)
      requires Keyed() && m in members
      modifies members[m]
      ensures var c := old(View());
              View() == c.(members := c.members[m := c.members[m].(resumeToken := token, deadline := deadline)])
    {
      members[m].resumeToken := token;
      members[m].deadline := deadline;
      MemberEdited(m);
    }

    method SetPresence(m: Id, connected: bool, deadline: Option<int>)
      requires Keyed() && m in members
      modifies members[m]
      ensures var c := old(View());
              View() == c.(members := c.members[m := c.members[m].(connected := connected, deadline := deadline)])
    {
      members[m].connected := connected;
      members[m].deadline := deadline;
      MemberEdited(m);
    }

    method TakeRole(m: Id)
      requires Keyed() && m in members
      modifies members[m]
      ensures var c := old(View()); View() == RoleTaken(c, m)
    {
      members[m].isHost := false;
      MemberEdited(m);
    }

    method GiveRole(m: Id)
      requires Keyed() && m in members
      modifies members[m]
      ensures var c := old(View());
              View() == c.(members := c.members[m := c.members[m].(isHost := true, canSpeak := true)])
    {
      members[m].isHost := true;
      members[m].canSpeak := true;
      MemberEdited(m);
    }

    method SetHost(r: Id, m: Id)
      requires Keyed() && r in rooms && m in members
      modifies rooms[r]
      ensures var c := old(View());
              View() == WithRoom(c, r, c.rooms[r].(host := m, hostNickname := c.members[m].nickname,
                                                   hostDeadline := None))
    {
      rooms[r].host := m;
      rooms[r].hostNickname := members[m].nickname;
      rooms[r].hostDeadline := None;
      RoomEdited(r);
    }

    method SetDeadlines(r: Id, hostDeadline: Option<int>, emptyDeadline: Option<int>)
      requires Keyed() && r in rooms
      modifies rooms[r]
      ensures var c := old(View());
              View() == WithRoom(c, r, c.rooms[r].(hostDeadline := hostDeadline, emptyDeadline := emptyDeadline))
    {
      rooms[r].hostDeadline := hostDeadline;
      rooms[r].emptyDeadline := emptyDeadline;
      RoomEdited(r);
    }

    method SetName(r: Id, name: string)
      requires Keyed() && r in rooms
      modifies rooms[r]
      ensures var c := old(View()); View() == WithRoom(c, r, c.rooms[r].(name := name))
    {
      rooms[r].name := name;
      RoomEdited(r);
    }

    method SetSettings(r: Id, hybridAudio: bool, announcements: bool)
      requires Keyed() && r in rooms
      modifies rooms[r]
      ensures var c := old(View());
              View() == WithRoom(c, r, c.rooms[r].(hybridAudio := hybridAudio, announcements := announcements))
    {
      rooms[r].hybridAudio := hybridAudio;
      rooms[r].announcements := announcements;
      RoomEdited(r);
    }

    method SaveMember(m: Id, accepts: bool) returns (ok: bool)
      requires Keyed() && m in members
      modifies store
      ensures View() == old(View())
      ensures ok <==> accepts && MaySaveMember(old(store.tables), m, View().members[m])
      ensures store.tables == if ok then MemberSaved(old(store.tables), m, View().members[m]) else old(store.tables)
    {
      ok := store.SaveMember(m, members[m].View(), accepts);
    }

    method SaveRoom(r: Id, accepts: bool) returns (ok: bool)
      requires Keyed() && r in rooms
      modifies store
      ensures View() == old(View())
      ensures ok == accepts
      ensures store.tables == if ok then RoomSaved(old(store.tables), r, View().rooms[r]) else old(store.tables)
    {
      ok := store.SaveRoom(r, rooms[r].View(), accepts);
    }

    // ---- host and administrator ----

    method ChecksMute(r: Id, m: Id) returns (ok: bool)
      requires Keyed()
      ensures ok <==> MayMute(View(), r, m)
    {
      ok := r in rooms && m in members && members[m].room == r && rooms[r].host != m;
    }

    /** The test on the member's own flag, made before the lock. */
    method ChecksFlag(caller: Id, r: Id) returns (ok: bool)
      requires Valid() && caller in members
      ensures ok <==> ActsAsHost(View(), caller, r)
    {
      HostAgrees(caller);
      ok := members[caller].room == r && members[caller].isHost;
    }

    /** The test on the room's record, made under the lock. */
    method ChecksRecord(caller: Id, r: Id) returns (ok: bool)
      requires Valid() && caller in members
      ensures ok <==> ActsAsHost(View(), caller, r)
    {
      HostAgrees(caller);
      ok := r in rooms && members[caller].room == r && rooms[r].host == caller;
    }

    /** A permitted change of CanSpeak; a failed save puts the old value back. */
    method Mute(r: Id, m: Id, canSpeak: bool, accepts: bool) returns (saved: bool)
      requires Valid() && MayMute(View(), r, m)
      modifies store, members.Values
      ensures Valid() && saved == accepts
      ensures View() == if saved then Muted(old(View()), m, canSpeak) else old(View())
    {
      ghost var c := View();
      MutedGood(c, store.tables, r, m, canSpeak);
      var previous := members[m].canSpeak;
      SetCanSpeak(m, canSpeak);
      saved := SaveMember(m, accepts);
      if !saved {
        SetCanSpeak(m, previous);
        MutedBack(c, m, canSpeak);
      }
    }

    /** The tests of voicePolicy under the lock; the caller's flag has been seen. */
    method ChecksPolicy(caller: Id, r: Id, m: Id) returns (ok: bool)
      requires Valid() && caller in members && ActsAsHost(View(), caller, r)
      ensures ok <==> MayMute(View(), r, m)
    {
      var current := ChecksRecord(caller, r);
      ok := ChecksMute(r, m);
      ok := current && ok;
    }

    /** The tests of handover under the lock. */
    method ChecksReceiver(caller: Id, r: Id, m: Id) returns (ok: bool)
      requires Valid() && caller in members && ActsAsHost(View(), caller, r)
      ensures ok <==> MayReceiveRoom(View(), caller, r, m)
    {
      var current := ChecksRecord(caller, r);
      ok := ChecksTarget(caller, r, m);
      ok := current && ok;
    }

    /** adminVoicePolicy. */
    method AdminVoicePolicy(r: Id, m: Id, canSpeak: bool, accepts: bool) returns (status: Status)
      requires Valid()
      modifies store, members.Values
      ensures Valid()
      ensures status == if !MayMute(old(View()), r, m) then BadRequest else if !accepts then Failed else Done
      ensures View() == if status == Done then Muted(old(View()), m, canSpeak) else old(View())
    {
      ghost var c := View();
      var ok := ChecksMute(r, m);
      if !ok {
        return BadRequest;
      }
      var saved := Mute(r, m, canSpeak, accepts);
      assert View() == if saved then Muted(c, m, canSpeak) else c;
      return if saved then Done else Failed;
    }

    /** voicePolicy. */
    method VoicePolicy(caller: Id, r: Id, m: Id, canSpeak: bool) returns (status: Status)
      requires Valid() && caller in members
      modifies store, members.Values
      ensures Valid()
      ensures status == if !ActsAsHost(old(View()), caller, r) then Forbidden
                        else if !MayMute(old(View()), r, m) then BadRequest else Done
      ensures View() == if status == Done then Muted(old(View()), m, canSpeak) else old(View())
    {
      ghost var c := View();
      var isHost := ChecksFlag(caller, r);
      if !isHost {
        return Forbidden;
      }
      var ok := ChecksPolicy(caller, r, m);
      if !ok {
        return BadRequest;
      }
      var _ := Mute(r, m, canSpeak, true);
      assert View() == Muted(c, m, canSpeak);
      return Done;
    }

    /** In a valid state the flag already says what the room says. */
    lemma HostAgrees(m: Id)
      requires Valid() && m in members
      ensures members[m].room in rooms && (members[m].isHost <==> rooms[members[m].room].host == m)
    {
      assert MemberOk(View(), m);
    }

    method MoveFlag(prior: Id, next: Id)
      requires Keyed() && next in members
      modifies members.Values
      ensures var c := old(View()); View() == c.(members := Rerolled(c.members, prior, next))
    {
      if prior in members {
        TakeRole(prior);
      }
      GiveRole(next);
    }

    /** The role moves in memory, and the new host's row is saved. */
    method MoveRole(r: Id, prior: Id, next: Id)
      requires Keyed() && r in rooms && next in members
      requires MaySaveMember(store.tables, next, RoleMoved(View(), r, prior, next).members[next])
      modifies store, rooms.Values, members.Values
      ensures View() == RoleMoved(old(View()), r, prior, next)
      ensures store.tables == MemberSaved(old(store.tables), next, View().members[next])
    {
      ghost var c := View();
      RerolledNickname(c.members, prior, next);
      MoveFlag(prior, next);
      var _ := SaveMember(next, true);
      SetHost(r, next);
    }

    /** A permitted handover. */
    method MoveHost(caller: Id, r: Id, m: Id)
      requires Valid() && ActsAsHost(View(), caller, r) && MayReceiveRoom(View(), caller, r, m)
      modifies store, rooms.Values, members.Values
      ensures Valid() && View() == HandedOver(old(View()), caller, m)
    {
      HandedOverGood(View(), store.tables, caller, r, m);
      MoveRole(r, caller, m);
      var _ := SaveRoom(r, true);
    }

    /** handover. */
    method Handover(caller: Id, r: Id, m: Id) returns (status: Status)
      requires Valid() && caller in members
      modifies store, rooms.Values, members.Values
      ensures Valid()
      ensures status == if !ActsAsHost(old(View()), caller, r) then Forbidden
                        else if !MayReceiveRoom(old(View()), caller, r, m) then BadRequest else Done
      ensures View() == if status == Done then HandedOver(old(View()), caller, m) else old(View())
    {
      ghost var c := View();
      var isHost := ChecksFlag(caller, r);
      if !isHost {
        return Forbidden;
      }
      var ok := ChecksReceiver(caller, r, m);
      if !ok {
        return BadRequest;
      }
      MoveHost(caller, r, m);
      assert View() == HandedOver(c, caller, m);
      return Done;
    }

    method ChecksTarget(caller: Id, r: Id, m: Id) returns (ok: bool)
      requires Keyed()
      ensures ok <==> MayReceiveRoom(View(), caller, r, m)
    {
      ok := m in members && m != caller && members[m].room == r && members[m].connected;
    }

    // ---- succession, leaving, ending ----

    /** The connected member of least join order: the first of the candidates once sorted. */
    method FirstCandidate(r: Id) returns (next: Option<Id>)
      requires Keyed()
      ensures next.None? <==> Candidates(View().members, r) == {}
      ensures next.Some? ==> IsLeast(View().members, Candidates(View().members, r), next.value)
    {
      ghost var s := Candidates(View().members, r);
      next := None;
      var todo := members.Keys;
      while todo != {}
        invariant todo <= members.Keys
        invariant next.None? ==> forall m :: m in s ==> m in todo
        invariant next.Some? ==> next.value in s
        invariant next.Some? ==> forall m :: m in s && m !in todo ==> members[next.value].order <= members[m].order
        decreases todo
      {
        var m :| m in todo;
        todo := todo - {m};
        if members[m].room == r && members[m].connected
          && (next.None? || members[m].order < members[next.value].order) {
          next := Some(m);
        }
      }
    }

    method DropMember(m: Id)
      requires Keyed()
      modifies this`members
      ensures Keyed() && members == old(members) - {m}
      ensures var c := old(View()); View() == c.(members := c.members - {m})
    {
      members := members - {m};
    }

    method DropIfOffline(m: Id)
      requires Keyed()
      modifies this`members, store
      ensures Keyed() && Shrunk(members, old(members))
      ensures var c, gone := old(View()), m in old(View()).members && !old(View()).members[m].connected;
              && View() == (if gone then c.(members := c.members - {m}) else c)
              && store.tables == if gone then MemberDeleted(old(store.tables), m) else old(store.tables)
    {
      if m in members && !members[m].connected {
        DropMember(m);
        store.DeleteMember(m);
      }
    }

    /** The rest of assignHostLocked: an offline predecessor goes, and the room's row is saved. */
    method DropAndSave(r: Id, prior: Id)
      requires Keyed() && r in rooms
      modifies this`members, store
      ensures Keyed() && Shrunk(members, old(members))
      ensures View() == PredecessorGone(old(View()), prior)
      ensures r in View().rooms && store.tables == RoomSaved(PredecessorDeleted(old(View()), old(store.tables), prior),
                                                             r, View().rooms[r])
    {
      DropIfOffline(prior);
      var _ := SaveRoom(r, true);
    }

    /** The successor is known. */
    method PromoteTo(r: Id, next: Id)
      requires Keyed() && r in rooms && next in members
      requires MaySaveMember(store.tables, next, RoleMoved(View(), r, rooms[r].host, next).members[next])
      modifies this`members, store, rooms.Values, members.Values
      ensures Keyed() && Shrunk(members, old(members))
      ensures View() == Promoted(old(View()), r, next)
      ensures store.tables == PromoteWrites(old(View()), old(store.tables), r, next)
    {
      var prior := rooms[r].host;
      PromotedParts(View(), store.tables, r, next);
      MoveRole(r, prior, next);
      DropAndSave(r, prior);
    }

    /** assignHostLocked. */
    method AssignHost(r: Id)
      requires Valid() && r in rooms
      modifies this`members, store, rooms.Values, members.Values
      ensures Valid() && Shrunk(members, old(members))
      ensures View() == Assigned(old(View()), r)
    {
      var next := FirstCandidate(r);
      if next.None? {
        return;
      }
      SuccessorUnique(View(), r, next.value);
      PromotedGood(View(), store.tables, r, next.value);
      PromoteTo(r, next.value);
    }

    /** memberCount. */
    method CountMembers(r: Id) returns (count: nat)
      requires Keyed()
      ensures count == |In(View().members, r)|
    {
      ghost var ms := View().members;
      count := 0;
      var todo := members.Keys;
      ghost var seen: set<Id> := {};
      while todo != {}
        invariant todo <= members.Keys && count == |seen|
        invariant forall m :: m in seen <==> m in ms && m !in todo && ms[m].room == r
        decreases todo
      {
        var m :| m in todo;
        todo := todo - {m};
        assert ms[m] == members[m].View();
        if members[m].room == r {
          count := count + 1;
          seen := seen + {m};
        }
      }
      assert seen == In(ms, r);
    }

    /** The loop of deleteRoom over the members. */
    method DropMembersOf(r: Id)
      requires Keyed()
      modifies this`members
      ensures Keyed() && members == map m | m in old(members) && old(members)[m].room != r :: old(members)[m]
    {
      var todo := members.Keys;
      while todo != {}
        invariant todo <= members.Keys
        invariant members == map m | m in old(members) && (m in todo || old(members)[m].room != r) :: old(members)[m]
        decreases todo
      {
        var m :| m in todo;
        todo := todo - {m};
        if members[m].room == r {
          members := members - {m};
        }
      }
    }

    /** The in-memory part of deleteRoom. */
    method ForgetRoom(r: Id)
      requires Keyed()
      modifies this`rooms, this`members
      ensures Keyed() && rooms == old(rooms) - {r} && Shrunk(members, old(members))
      ensures View() == Deleted(old(View()), r)
    {
      ghost var c := View();
      rooms := rooms - {r};
      DropMembersOf(r);
      ViewIs(Deleted(c, r));
    }

    /** deleteRoom. */
    method DeleteRoom(r: Id)
      requires Valid()
      modifies this`rooms, this`members, store
      ensures Valid() && rooms == old(rooms) - {r} && Shrunk(members, old(members))
      ensures View() == Deleted(old(View()), r)
    {
      if r !in rooms {
        AbsentRoom(View(), r);
        return;
      }
      ghost var d := Deleted(View(), r);
      DeletedGood(View(), store.tables, r);
      ForgetRoom(r);
      DropRows(r, d);
    }

    /** The cascade in the database. */
    method DropRows(r: Id, ghost d: Core)
      requires Keyed() && View() == d && Good(d, RoomDeleted(store.tables, r))
      modifies store
      ensures Valid() && View() == d
    {
      store.DeleteRoom(r, true);
    }

    /** endRoom. */
    method EndRoom(caller: Id, r: Id) returns (status: Status)
      requires Valid() && caller in members
      modifies this`rooms, this`members, store
      ensures Valid()
      ensures status == if ActsAsHost(old(View()), caller, r) then Done else Forbidden
      ensures View() == if status == Done then Deleted(old(View()), r) else old(View())
    {
      ghost var c := View();
      var isHost := ChecksFlag(caller, r);
      if isHost {
        DeleteRoom(r);
        assert View() == Deleted(c, r);
      }
      status := if isHost then Done else Forbidden;
    }

    /** adminEndRoom. */
    method AdminEndRoom(r: Id) returns (status: Status)
      requires Valid()
      modifies this`rooms, this`members, store
      ensures Valid()
      ensures status == if r in old(View()).rooms then Done else NotFound
      ensures View() == if status == Done then Deleted(old(View()), r) else old(View())
    {
      if r !in rooms {
        return NotFound;
      }
      DeleteRoom(r);
      return Done;
    }

    /** A member goes, from memory and from the database. */
    method RemoveMember(m: Id)
      requires Valid() && m in members
      modifies this`members, store
      ensures Valid() && members == old(members) - {m}
      ensures var c := old(View()); View() == c.(members := c.members - {m})
    {
      RemovedGood(View(), store.tables, m);
      DropMember(m);
      store.DeleteMember(m);
    }

    /** The end of leaveMember: the last one out, if it was the host, ends the room. */
    method EndIfEmpty(r: Id, wasHost: bool)
      requires Valid()
      modifies this`rooms, this`members, store
      ensures Valid()
      ensures View() == if wasHost && In(old(View()).members, r) == {} then Deleted(old(View()), r) else old(View())
    {
      var count := CountMembers(r);
      if wasHost && count == 0 {
        DeleteRoom(r);
      }
    }

    /** A member goes, and if it was the host somebody connected takes over. */
    method RemoveAndReplace(m: Id, r: Id, wasHost: bool)
      requires Valid() && m in members
      modifies this`members, store, rooms.Values, members.Values
      ensures Valid()
      ensures var without := old(View()).(members := old(View()).members - {m});
              View() == if r in old(View()).rooms && wasHost then Assigned(without, r) else without
    {
      RemoveMember(m);
      if r in rooms && wasHost {
        ShrunkValues(members, old(members));
        AssignHost(r);
      }
    }

    /** leaveMember. */
    method LeaveMember(caller: Id, r: Id, m: Id) returns (status: Status)
      requires Valid() && caller in members
      modifies this`rooms, this`members, store, rooms.Values, members.Values
      ensures Valid()
      ensures status == if caller == m && old(View()).members[caller].room == r then Done else Forbidden
      ensures View() == if status == Done then Left(old(View()), caller) else old(View())
    {
      if caller != m || members[caller].room != r {
        return Forbidden;
      }
      var wasHost := members[caller].isHost;
      RemoveAndReplace(caller, r, wasHost);
      EndIfEmpty(r, wasHost);
      return Done;
    }

    // ---- settings ----

    /** A change of name; a failed save puts the old one back. */
    method Rename(r: Id, name: string, accepts: bool) returns (saved: bool)
      requires Valid() && r in rooms
      modifies store, rooms.Values
      ensures Valid() && saved == accepts
      ensures View() == if saved then Renamed(old(View()), r, name) else old(View())
    {
      ghost var c := View();
      RenamedGood(c, store.tables, r, name);
      var previous := rooms[r].name;
      SetName(r, name);
      saved := SaveRoom(r, accepts);
      if !saved {
        SetName(r, previous);
        RenamedBack(c, r, name);
      }
    }

    /** renameRoom; the name is trimmed already. */
    method RenameRoom(caller: Id, r: Id, name: string) returns (status: Status)
      requires Valid() && caller in members
      modifies store, rooms.Values
      ensures Valid()
      ensures status == if !ActsAsHost(old(View()), caller, r) then Forbidden
                        else if !IsRoomName(name) then BadRequest else Done
      ensures View() == if status == Done then Renamed(old(View()), r, name) else old(View())
    {
      ghost var c := View();
      var isHost := ChecksFlag(caller, r);
      if !isHost {
        return Forbidden;
      }
      if !IsRoomName(name) {
        return BadRequest;
      }
      var _ := Rename(r, name, true);
      assert View() == Renamed(c, r, name);
      return Done;
    }

    /** adminRenameRoom. */
    method AdminRenameRoom(r: Id, name: string, accepts: bool) returns (status: Status)
      requires Valid()
      modifies store, rooms.Values
      ensures Valid()
      ensures status == if !IsRoomName(name) then BadRequest else if r !in old(View()).rooms then NotFound
                        else if !accepts then Failed else Done
      ensures View() == if status == Done then Renamed(old(View()), r, name) else old(View())
    {
      if !IsRoomName(name) {
        return BadRequest;
      }
      if r !in rooms {
        return NotFound;
      }
      var saved := Rename(r, name, accepts);
      return if saved then Done else Failed;
    }

    method StoreHybrid(r: Id, enabled: bool, accepts: bool) returns (saved: bool)
      requires Valid() && r in rooms
      modifies store, rooms.Values
      ensures Valid() && saved == accepts
      ensures View() == if saved then WithRoom(old(View()), r, old(View()).rooms[r].(hybridAudio := enabled))
        else old(View())
    {
      ghost var c := View();
      HybridGood(c, store.tables, r, enabled);
      saved := store.SaveHybrid(r, enabled, accepts);
      assert View() == c;
      if saved {
        SetSettings(r, enabled, rooms[r].announcements);
      }
    }

    /** setHybridAudio; offered says whether the feature is on. */
    method SetHybridAudio(caller: Id, r: Id, enabled: bool, offered: bool, accepts: bool) returns (status: Status)
      requires Valid() && caller in members
      modifies store, rooms.Values
      ensures Valid()
      ensures status == if enabled && !offered then Conflict else if !ActsAsHost(old(View()), caller, r) then Forbidden
                        else if !accepts then Failed else Done
      ensures View() == if status == Done then WithRoom(old(View()), r, old(View()).rooms[r].(hybridAudio := enabled))
        else old(View())
    {
      if enabled && !offered {
        return Conflict;
      }
      ghost var c := View();
      var isHost := ChecksRecord(caller, r);
      if !isHost {
        return Forbidden;
      }
      var saved := StoreHybrid(r, enabled, accepts);
      assert View() == if saved then WithRoom(c, r, c.rooms[r].(hybridAudio := enabled)) else c;
      return if saved then Done else Failed;
    }

    method StoreAnnouncements(r: Id, enabled: bool, accepts: bool) returns (saved: bool)
      requires Valid() && r in rooms
      modifies store, rooms.Values
      ensures Valid() && saved == accepts
      ensures View() == if saved then WithRoom(old(View()), r, old(View()).rooms[r].(announcements := enabled))
        else old(View())
    {
      ghost var c := View();
      AnnouncementsGood(c, store.tables, r, enabled);
      saved := store.SaveAnnouncements(r, enabled, accepts);
      assert View() == c;
      if saved {
        SetSettings(r, rooms[r].hybridAudio, enabled);
      }
    }

    /** setPresenceAnnouncements. */
    method SetPresenceAnnouncements(caller: Id, r: Id, enabled: bool, accepts: bool) returns (status: Status)
      requires Valid() && caller in members
      modifies store, rooms.Values
      ensures Valid()
      ensures status == if !ActsAsHost(old(View()), caller, r) then Forbidden else if !accepts then Failed else Done
      ensures View() == if status == Done then WithRoom(old(View()), r, old(View()).rooms[r].(announcements := enabled))
        else old(View())
    {
      ghost var c := View();
      var isHost := ChecksRecord(caller, r);
      if !isHost {
        return Forbidden;
      }
      var saved := StoreAnnouncements(r, enabled, accepts);
      assert View() == if saved then WithRoom(c, r, c.rooms[r].(announcements := enabled)) else c;
      return if saved then Done else Failed;
    }

    // ---- rate limits ----

    /** allowAttemptLocked: the call counts, allowed or not. */
    method Allow(key: string, limit: int, now: int) returns (allowed: bool)
      requires Limits() && clock <= now
      modifies this`attempts, this`history, this`clock
      ensures Limits() && clock == now
      ensures history == old(history)[key := Of(old(history), key) + [now]]
      ensures attempts == old(attempts)[key := Recent(Of(history, key), now - WINDOW)]
      ensures allowed <==> |Recent(Of(history, key), now - WINDOW)| <= limit
    {
      var cutoff := now - WINDOW;
      var values := Of(attempts, key);
      ghost var calls := Of(history, key);
      var first := 0;
      assert Represents(values, calls, clock);
      while first < |values| && values[first] < cutoff
        invariant 0 <= first <= |values|
        invariant forall i :: 0 <= i < first ==> values[i] < cutoff
      {
        first := first + 1;
      }
      RecentIsSuffix(values, cutoff, first);
      ConsistentCall(attempts, history, clock, now, key);
      values := values[first..] + [now];
      attempts := attempts[key := values];
      history := history[key := calls + [now]];
      clock := now;
      allowed := |values| <= limit;
    }

    /** The chain of allowAttemptLocked calls of a handler, which stops at the first refusal. */
    method AllowAll(checks: seq<Check>, now: int) returns (allowed: bool)
      requires Limits() && clock <= now
      modifies this`attempts, this`history, this`clock
      ensures Limits() && clock <= now
      ensures history == Attempted(old(history), checks, now)
      ensures allowed <==> Passes(old(history), checks, now)
    {
      allowed := true;
      var i := 0;
      while allowed && i < |checks|
        invariant 0 <= i <= |checks| && Limits() && clock <= now
        invariant Attempted(old(history), checks, now) == if allowed then Attempted(history, checks[i..], now)
          else history
        invariant Passes(old(history), checks, now) <==> allowed && Passes(history, checks[i..], now)
      {
        assert checks[i..][0] == checks[i] && checks[i..][1..] == checks[i + 1..];
        allowed := Allow(checks[i].key, checks[i].limit, now);
        i := i + 1;
      }
    }

    /** The limits of a handler touch no room or member. */
    method TryLimits(checks: seq<Check>, now: int) returns (allowed: bool)
      requires Keyed() && Limits() && clock <= now
      modifies this`attempts, this`history, this`clock
      ensures View() == old(View()) && Limits() && clock <= now
      ensures history == Attempted(old(history), checks, now)
      ensures allowed <==> Passes(old(history), checks, now)
    {
      allowed := AllowAll(checks, now);
    }

    /**
     The sweeper's loop over the attempts, in any order: the idle keys go, and no later answer changes.
     The tick was read before the lock, so it may precede the last call.
     */
    method SweepIdle(now: int)
      requires Limits()
      modifies this`attempts, this`history, this`clock
      ensures Limits() && clock == Later(old(clock), now) && history == old(history)
      ensures attempts == map key | key in old(attempts) && !Idle(old(attempts)[key], now) :: old(attempts)[key]
    {
      ConsistentLater(attempts, history, clock, Later(clock, now));
      clock := Later(clock, now);
      var todo := attempts.Keys;
      while todo != {}
        invariant Limits() && clock == Later(old(clock), now) && history == old(history)
        invariant todo <= old(attempts).Keys
        invariant attempts == map key | key in old(attempts)
          && (key in todo || !Idle(old(attempts)[key], now)) :: old(attempts)[key]
        decreases todo
      {
        var key :| key in todo;
        todo := todo - {key};
        if Idle(attempts[key], now) {
          ConsistentForget(attempts, history, clock, key);
          attempts := attempts - {key};
        }
      }
    }

    // ---- connections and presence ----

    /** The live channels of an identity, of either kind. */
    predicate Busy(id: Id)
      reads this
    {
      ChannelsOf(sockets, id) != {} || ChannelsOf(eventStreams, id) != {}
    }

    method AddSocket(id: Id, conn: nat)
      modifies this`sockets
      ensures ChannelsOf(sockets, id) == ChannelsOf(old(sockets), id) + {conn}
      ensures forall x :: x != id ==> ChannelsOf(sockets, x) == ChannelsOf(old(sockets), x)
    {
      sockets := sockets[id := ChannelsOf(sockets, id) + {conn}];
    }

    method RemoveSocket(id: Id, conn: nat)
      modifies this`sockets
      ensures ChannelsOf(sockets, id) == ChannelsOf(old(sockets), id) - {conn}
      ensures forall x :: x != id ==> ChannelsOf(sockets, x) == ChannelsOf(old(sockets), x)
      ensures id in sockets ==> sockets[id] != {}
    {
      sockets := sockets[id := ChannelsOf(sockets, id) - {conn}];
      if sockets[id] == {} {
        sockets := sockets - {id};
      }
    }

    method AddEventStream(id: Id, stream: nat)
      modifies this`eventStreams
      ensures ChannelsOf(eventStreams, id) == ChannelsOf(old(eventStreams), id) + {stream}
      ensures forall x :: x != id ==> ChannelsOf(eventStreams, x) == ChannelsOf(old(eventStreams), x)
    {
      eventStreams := eventStreams[id := ChannelsOf(eventStreams, id) + {stream}];
    }

    method RemoveEventStream(id: Id, stream: nat)
      modifies this`eventStreams
      ensures ChannelsOf(eventStreams, id) == ChannelsOf(old(eventStreams), id) - {stream}
      ensures forall x :: x != id ==> ChannelsOf(eventStreams, x) == ChannelsOf(old(eventStreams), x)
      ensures id in eventStreams ==> eventStreams[id] != {}
    {
      eventStreams := eventStreams[id := ChannelsOf(eventStreams, id) - {stream}];
      if eventStreams[id] == {} {
        eventStreams := eventStreams - {id};
      }
    }

    /** hasSocket. */
    method HasSocket(id: Id) returns (busy: bool)
      ensures busy <==> Busy(id)
    {
      busy := ChannelsOf(sockets, id) != {} || ChannelsOf(eventStreams, id) != {};
    }

    /** eventPrincipal: a member with this token, if there is one. */
    method EventPrincipal(token: Digest) returns (found: Option<Id>)
      requires Keyed()
      ensures found.Some? ==> found.value in View().members && View().members[found.value].resumeToken == token
      ensures found.None? ==> forall m :: m in View().members ==> View().members[m].resumeToken != token
    {
      ghost var ms := View().members;
      var todo := members.Keys;
      while todo != {}
        invariant todo <= members.Keys
        invariant forall m :: m in ms && m !in todo ==> ms[m].resumeToken != token
        decreases todo
      {
        var m :| m in todo;
        todo := todo - {m};
        assert ms[m] == members[m].View();
        if members[m].resumeToken == token {
          return Some(m);
        }
      }
      return None;
    }

    /** anyOnline. */
    method SomeoneOnline(r: Id) returns (online: bool)
      requires Keyed()
      ensures online <==> AnyOnline(View().members, r)
    {
      var todo := members.Keys;
      while todo != {}
        invariant todo <= members.Keys
        invariant forall m :: m in members && m !in todo ==> !(members[m].room == r && members[m].connected)
        decreases todo
      {
        var m :| m in todo;
        todo := todo - {m};
        if members[m].room == r && members[m].connected {
          assert View().members[m].room == r && View().members[m].connected;
          return true;
        }
      }
      return false;
    }

    /** markConnected in memory, the member's half done. */
    method SettleRoom(r: Id, isHost: bool, now: int)
      requires Keyed() && r in rooms
      modifies rooms[r]
      ensures var c, room := old(View()), old(View()).rooms[r];
              View() == WithRoom(c, r, room.(
                hostDeadline := if isHost then OrElse(room.hostDeadline, HostWindow(room, now)) else room.hostDeadline,
                emptyDeadline := if AnyOnline(c.members, r) then room.emptyDeadline else Some(now + RETENTION)))
    {
      var online := SomeoneOnline(r);
      var room := rooms[r].View();
      SetDeadlines(r, if isHost then OrElse(room.hostDeadline, HostWindow(room, now)) else room.hostDeadline,
                   if online then room.emptyDeadline else Some(now + RETENTION));
    }

    /** markConnected, in memory. */
    method SetConnected(m: Id, connected: bool, now: int)
      requires Keyed() && m in members && members[m].room in rooms
      modifies rooms.Values, members.Values
      ensures View() == if connected then Online(old(View()), m) else Offline(old(View()), m, now)
    {
      var r, isHost := members[m].room, members[m].isHost;
      if connected {
        SetPresence(m, true, None);
        SetDeadlines(r, if isHost then None else rooms[r].hostDeadline, None);
      } else {
        SetPresence(m, false, Some(now + RETENTION));
        SettleRoom(r, isHost, now);
      }
    }

    /** markConnected past its checks. */
    method Mark(m: Id, connected: bool, now: int)
      requires Valid() && m in members && members[m].room in rooms
      modifies store, rooms.Values, members.Values
      ensures Valid() && View() == if connected then Online(old(View()), m) else Offline(old(View()), m, now)
    {
      ghost var d := if connected then Online(View(), m) else Offline(View(), m, now);
      MarkedGood(View(), store.tables, m, connected, now);
      SetConnected(m, connected, now);
      SavePair(m, members[m].room, d);
    }

    /** markConnected. */
    method MarkConnected(id: Id, connected: bool, now: int)
      requires Valid()
      modifies store, rooms.Values, members.Values
      ensures Valid()
      ensures View() == Marked(old(View()), id, connected, Busy(id), now)
    {
      if !connected && Busy(id) {
        return;
      }
      if id !in members || members[id].room !in rooms {
        return;
      }
      Mark(id, connected, now);
    }

    /** The rows of a changed member and of its room, which bring the tables to the changed state. */
    method SavePair(m: Id, r: Id, ghost d: Core)
      requires Keyed() && View() == d && PairOf(d, m, r) && MaySaveMember(store.tables, m, d.members[m])
      requires Good(d, PairWritten(store.tables, d, m, r))
      modifies store
      ensures Valid() && View() == d
    {
      var _ := SaveMember(m, true);
      var _ := SaveRoom(r, true);
    }

    // ---- resuming ----

    /** The new token and, for an offline member, the missing deadlines. */
    method Refresh(m: Id, token: Digest, now: int)
      requires Keyed() && m in members && members[m].room in rooms
      modifies rooms.Values, members.Values
      ensures View() == Resumed(old(View()), m, token, now)
    {
      var r := members[m].room;
      var member, room := members[m].View(), rooms[r].View();
      SetToken(m, token, if member.connected then member.deadline else OrElse(member.deadline, now + RETENTION));
      if !member.connected {
        SetDeadlines(r, if member.isHost then OrElse(room.hostDeadline, HostWindow(room, now)) else room.hostDeadline,
                     room.emptyDeadline);
      }
    }

    /** The checks of resume before the limit: Done means the token may be exchanged. */
    method ChecksResume(r: Id, m: Id, previous: Digest, now: int) returns (status: Status)
      requires Keyed()
      ensures status == if !Presents(View(), m, r, previous) then Unauthorized
                        else if !MayResume(View(), m, r, previous, now) then Gone else Done
    {
      if m !in members || r !in rooms || members[m].room != r || members[m].resumeToken != previous {
        return Unauthorized;
      }
      return if Passed(ResumeDeadline(rooms[r].View(), members[m].View()), now) then Gone else Done;
    }

    method Renew(r: Id, m: Id, token: Digest, now: int)
      requires Valid() && m in members && members[m].room == r && r in rooms
      modifies store, rooms.Values, members.Values
      ensures Valid() && View() == Resumed(old(View()), m, token, now)
    {
      ghost var d := Resumed(View(), m, token, now);
      ResumedGood(View(), store.tables, m, token, now);
      Refresh(m, token, now);
      SavePair(m, r, d);
    }

    /** Exchanging the token, limit included. */
    method TryRenew(r: Id, m: Id, token: Digest, now: int) returns (allowed: bool)
      requires Valid() && Limits() && clock <= now && m in members && members[m].room == r && r in rooms
      modifies this`attempts, this`history, this`clock, store, rooms.Values, members.Values
      ensures Valid() && Limits() && clock <= now && history == Attempted(old(history), ResumeChecks(m), now)
      ensures allowed <==> Passes(old(history), ResumeChecks(m), now)
      ensures View() == if allowed then Resumed(old(View()), m, token, now) else old(View())
    {
      allowed := TryLimits(ResumeChecks(m), now);
      if allowed {
        Renew(r, m, token, now);
      }
    }

    /** resume; grants says whether the media token can be issued, which is tried last. */
    method Resume(r: Id, m: Id, previous: Digest, token: Digest, now: int, grants: bool) returns (status: Status)
      requires Valid() && Limits() && clock <= now
      modifies this`attempts, this`history, this`clock, store, rooms.Values, members.Values
      ensures Valid() && Limits() && clock <= now
      ensures status == ResumeStatus(old(View()), old(history), m, r, previous, now, grants)
      ensures View() == if status == Done || status == Failed then Resumed(old(View()), m, token, now) else old(View())
      ensures history == if MayResume(old(View()), m, r, previous, now)
                         then Attempted(old(history), ResumeChecks(m), now) else old(history)
    {
      status := ChecksResume(r, m, previous, now);
      if status == Done {
        var allowed := TryRenew(r, m, token, now);
        status := if !allowed then TooMany else if grants then Done else Failed;
      }
    }

    // ---- joining ----

    /** The admission loop, which stops at the first member that settles the matter. */
    method FindPrevious(r: Id, device: string, proof: Option<Digest>, ghost c: Core) returns (found: RoomState.Lookup)
      requires Valid() && View() == c
      ensures found == LookupOf(c.members, r, device, proof)
    {
      var todo := members.Keys;
      while todo != {}
        invariant todo <= members.Keys
        invariant forall m :: m in members && m !in todo ==> !StopsAt(c.members, m, r, device, proof)
        decreases todo
      {
        var m :| m in todo;
        todo := todo - {m};
        var member := members[m].View();
        assert member == c.members[m];
        if member.room == r && member.device == device && member.proof.None? && proof.Some? {
          VerdictUnique(c, r, device, proof, m);
          return Unbound;
        }
        if member.room == r && member.device == device && member.proof.Some? {
          VerdictUnique(c, r, device, proof, m);
          return if member.proof == proof then Found(m) else Mismatch;
        }
      }
      return Fresh;
    }

    /** The loop that finds the next join order. */
    method NextOrder(r: Id) returns (order: int)
      requires Keyed()
      ensures IsNextOrder(View().members, r, order)
    {
      ghost var ms := View().members;
      order := 1;
      var todo := members.Keys;
      while todo != {}
        invariant todo <= members.Keys && order >= 1
        invariant forall m :: m in ms && m !in todo && ms[m].room == r ==> ms[m].order < order
        invariant order > 1 ==> exists m :: m in ms && ms[m].room == r && ms[m].order == order - 1
        decreases todo
      {
        var m :| m in todo;
        todo := todo - {m};
        assert ms[m] == members[m].View();
        if members[m].room == r && members[m].order >= order {
          order := members[m].order + 1;
        }
      }
    }

    method ConcludeJoin(r: Id, device: string, proof: Option<Digest>, ghost c: Core) returns (decision: Decision)
      requires Valid() && View() == c && r in c.rooms
      ensures decision == Conclude(LookupOf(c.members, r, device, proof), |In(c.members, r)| >= c.rooms[r].capacity)
    {
      var found := FindPrevious(r, device, proof, c);
      var full := false;
      if found.Fresh? {
        full := RoomIsFull(r, c);
      }
      return Conclude(found, full);
    }

    method RoomIsFull(r: Id, ghost c: Core) returns (full: bool)
      requires Keyed() && View() == c && r in c.rooms
      ensures full <==> |In(c.members, r)| >= c.rooms[r].capacity
    {
      var count := CountMembers(r);
      full := count >= rooms[r].capacity;
    }

    /** Everything joinRoom looks at after the limits. */
    method DecideJoin(r: Id, credential: Digest, device: string, proof: Option<Digest>) returns (decision: Decision)
      requires Valid()
      ensures decision == Decide(View(), r, credential, device, proof)
    {
      if r !in rooms {
        return NoRoom;
      }
      var access := rooms[r].access;
      if access.None? {
        return Outdated;
      }
      if access.value.credential != credential {
        return WrongCode;
      }
      decision := ConcludeJoin(r, device, proof, View());
    }

    /** A new or replacing object under this ID. */
    method Install(m: Id, member: Member)
      requires Keyed()
      modifies this`members
      ensures Keyed() && m in members && fresh(members[m]) && members == old(members)[m := members[m]]
      ensures var c := old(View()); View() == c.(members := c.members[m := member])
    {
      var live := new LiveMember(m, member);
      members := members[m := live];
      MemberInstalled(m);
    }

    /** saveMember, then the entry in memory. */
    method SaveAndInstall(m: Id, member: Member, accepts: bool) returns (saved: bool)
      requires Keyed()
      modifies this`members, store
      ensures Keyed() && (saved <==> accepts && MaySaveMember(old(store.tables), m, member))
      ensures saved ==> m in members && fresh(members[m]) && members == old(members)[m := members[m]]
      ensures !saved ==> members == old(members)
      ensures var c := old(View()); View() == if saved then c.(members := c.members[m := member]) else c
      ensures store.tables == if saved then MemberSaved(old(store.tables), m, member) else old(store.tables)
    {
      saved := store.SaveMember(m, member, accepts);
      if saved {
        Install(m, member);
      }
    }

    method AdmitNew(m: Id, r: Id, ghost credential: Digest, nickname: string, device: string, proof: Option<Digest>,
                    token: Digest, now: int, accepts: bool) returns (saved: bool, order: int)
      requires Valid() && m !in members && (forall x :: x in View().rooms ==> View().rooms[x].host != m)
      requires Decide(View(), r, credential, device, proof) == Admit
      modifies this`members, store
      ensures Valid() && saved == accepts && IsNextOrder(old(View()).members, r, order)
      ensures View() == if saved then Joined(old(View()), m, r, nickname, device, proof, token, order, now)
        else old(View())
      ensures saved ==> m in members && fresh(members[m]) && members == old(members)[m := members[m]]
      ensures !saved ==> members == old(members)
    {
      order := NextOrder(r);
      JoinedGood(View(), store.tables, m, r, credential, nickname, device, proof, token, order, now);
      saved := SaveAndInstall(m, Newcomer(r, nickname, device, proof, token, order, now), accepts);
    }

    /** The new object starts as a copy of the one it replaces. */
    method ReadmitAs(m: Id, nickname: string, token: Digest, now: int, accepts: bool) returns (saved: bool)
      requires Valid() && m in members
      modifies this`members, store
      ensures Valid() && saved == accepts
      ensures View() == if saved then Rejoined(old(View()), m, nickname, token, now) else old(View())
      ensures saved ==> m in members && fresh(members[m]) && members == old(members)[m := members[m]]
      ensures !saved ==> members == old(members)
    {
      RejoinedGood(View(), store.tables, m, nickname, token, now);
      var copy := members[m].View().(nickname := nickname, resumeToken := token, deadline := Some(now + RETENTION));
      saved := SaveAndInstall(m, copy, accepts);
    }

    /** A decision to let somebody in, carried out; nothing changes if the save fails. */
    method CarryOut(decision: Decision, m: Id, r: Id, ghost credential: Digest, nickname: string, device: string,
                    proof: Option<Digest>, token: Digest, now: int, accepts: bool)
      returns (saved: bool, joined: Id, ghost order: int)
      requires Valid() && m !in members && (forall x :: x in View().rooms ==> View().rooms[x].host != m)
      requires decision == Decide(View(), r, credential, device, proof) && (decision.Admit? || decision.Readmit?)
      modifies this`members, store
      ensures Valid() && saved == accepts && joined == (if decision.Readmit? then decision.member else m)
      ensures decision.Readmit? ==> joined in old(View()).members
      ensures decision.Admit? ==> IsNextOrder(old(View()).members, r, order)
      ensures View() == if !saved then old(View())
                        else if decision.Readmit? then Rejoined(old(View()), joined, nickname, token, now)
                        else Joined(old(View()), m, r, nickname, device, proof, token, order, now)
    {
      order := 0;
      if decision.Admit? {
        joined := m;
        saved, order := AdmitNew(m, r, credential, nickname, device, proof, token, now, accepts);
      } else {
        joined := decision.member;
        ReadmitIff(View(), r, credential, device, proof, joined);
        saved := ReadmitAs(joined, nickname, token, now, accepts);
      }
    }

    /** joinRoom after the limits. */
    method TryJoin(r: Id, credential: Digest, nickname: string, device: string, proof: Option<Digest>, m: Id,
                   token: Digest, now: int, grants: bool, accepts: bool)
      returns (status: Status, joined: Id, ghost order: int)
      requires Valid() && m !in members && (forall x :: x in View().rooms ==> View().rooms[x].host != m)
      modifies this`members, store
      ensures Valid()
      ensures var decision := Decide(old(View()), r, credential, device, proof);
              status == if !decision.Admit? && !decision.Readmit? then Refusal(decision)
                        else if grants && accepts then Done else Failed
      ensures JoinOutcome(old(View()), View(), Decide(old(View()), r, credential, device, proof), status == Done,
                          m, r, nickname, device, proof, token, now, joined, order)
    {
      joined, order := m, 0;
      var decision := DecideJoin(r, credential, device, proof);
      if !decision.Admit? && !decision.Readmit? {
        return Refusal(decision), m, 0;
      }
      if !grants {
        return Failed, m, 0;
      }
      var saved;
      saved, joined, order := CarryOut(decision, m, r, credential, nickname, device, proof, token, now, accepts);
      status := if saved then Done else Failed;
    }

    /** joinRoom.  m and token are random, so new; grants says whether the media token can be issued. */
    method JoinRoom(ip: string, r: Id, credential: Digest, nickname: string, device: string, proof: Option<Digest>,
                    m: Id, token: Digest, now: int, grants: bool, accepts: bool)
      returns (status: Status, joined: Id, ghost order: int)
      requires Valid() && Limits() && clock <= now
      requires m !in members && (forall x :: x in View().rooms ==> View().rooms[x].host != m)
      modifies this`attempts, this`history, this`clock, this`members, store
      ensures Valid() && Limits() && clock <= now && history == Attempted(old(history), JoinChecks(ip, device, r), now)
      ensures status == JoinStatus(old(View()), old(history), ip, r, credential, device, proof, now, grants && accepts)
      ensures JoinOutcome(old(View()), View(), Decide(old(View()), r, credential, device, proof), status == Done,
                          m, r, nickname, device, proof, token, now, joined, order)
    {
      joined, order := m, 0;
      var allowed := TryLimits(JoinChecks(ip, device, r), now);
      if !allowed {
        return TooMany, m, 0;
      }
      status, joined, order := TryJoin(r, credential, nickname, device, proof, m, token, now, grants, accepts);
    }

    // ---- creating ----

    /** How many rooms a device hosts. */
    method CountHosted(device: string) returns (count: nat)
      requires Keyed()
      ensures count == |Hosted(View().members, device)|
    {
      ghost var ms := View().members;
      count := 0;
      var todo := members.Keys;
      ghost var seen: set<Id> := {};
      while todo != {}
        invariant todo <= members.Keys && count == |seen|
        invariant forall m :: m in seen <==> m in ms && m !in todo && ms[m].device == device && ms[m].isHost
        decreases todo
      {
        var m :| m in todo;
        todo := todo - {m};
        assert ms[m] == members[m].View();
        if members[m].device == device && members[m].isHost {
          count := count + 1;
          seen := seen + {m};
        }
      }
      assert seen == Hosted(ms, device);
    }

    method InstallRoom(r: Id, room: Room)
      requires Keyed()
      modifies this`rooms
      ensures Keyed() && r in rooms && fresh(rooms[r]) && rooms == old(rooms)[r := rooms[r]]
      ensures View() == WithRoom(old(View()), r, room)
    {
      var live := new LiveRoom(r, room);
      rooms := rooms[r := live];
      RoomInstalled(r);
    }

    method DropRoom(r: Id)
      requires Keyed()
      modifies this`rooms
      ensures Keyed() && rooms == old(rooms) - {r}
      ensures var c := old(View()); View() == c.(rooms := c.rooms - {r})
    {
      rooms := rooms - {r};
    }

    /** The four writes of createRoom; each runs whether or not the ones before were accepted. */
    method WriteCreation(r: Id, room: Room, m: Id, member: Member, ok1: bool, ok2: bool, ok3: bool, ok4: bool)
      returns (ok: bool)
      requires room.access.Some?
      modifies store
      ensures store.tables == CreateWrites(old(store.tables), r, room, m, member, ok1, ok2, ok3, ok4)
      ensures ok ==> AllAccepted(room, ok1, ok2, ok3, ok4)
      ensures (AllAccepted(room, ok1, ok2, ok3, ok4) && MaySaveMember(RoomSaved(old(store.tables), r, room), m, member)
               && MaySaveAccess(MemberSaved(RoomSaved(old(store.tables), r, room), m, member), r)) ==> ok
    {
      var saved1 := store.SaveRoom(r, room, ok1);
      var saved2 := store.SaveMember(m, member, ok2);
      var saved3 := true;
      if room.monitoringKey.Some? {
        saved3 := store.SaveMonitoringKey(r, room.monitoringKey.value, ok3);
      }
      var saved4 := store.SaveAccess(r, room.access.value, ok4);
      ok := saved1 && saved2 && saved3 && saved4;
    }

    /** The new records in memory, then in the database. */
    method InstallAndWrite(r: Id, room: Room, m: Id, member: Member, ok1: bool, ok2: bool, ok3: bool, ok4: bool)
      returns (ok: bool)
      requires Keyed() && r !in rooms && m !in members && room.access.Some?
      requires MaySaveMember(RoomSaved(store.tables, r, room), m, member)
      requires MaySaveAccess(MemberSaved(RoomSaved(store.tables, r, room), m, member), r)
      modifies this`rooms, this`members, store
      ensures Keyed() && View() == Created(old(View()), r, room, m, member)
      ensures store.tables == CreateWrites(old(store.tables), r, room, m, member, ok1, ok2, ok3, ok4)
      ensures ok <==> AllAccepted(room, ok1, ok2, ok3, ok4)
    {
      InstallRoom(r, room);
      Install(m, member);
      ok := WriteCreation(r, room, m, member, ok1, ok2, ok3, ok4);
    }

    /** The rollback: the new entries go, and whatever was written with them, if the database accepts that. */
    method TakeBack(r: Id, m: Id, undone: bool)
      requires Keyed()
      modifies this`rooms, this`members, store
      ensures Keyed()
      ensures store.tables == if undone then RoomDeleted(old(store.tables), r) else old(store.tables)
      ensures var c := old(View()); View() == Core(c.rooms - {r}, c.members - {m})
    {
      DropRoom(r);
      DropMember(m);
      store.DeleteRoom(r, undone);
    }

    /**
     createRoom past its checks: a refused write or a failed grant takes everything back from memory, and from
     the tables unless saveRoom was accepted and the deletion refused; then they hold what Leftover says.
     */
    method Establish(r: Id, room: Room, m: Id, member: Member, ok1: bool, ok2: bool, ok3: bool, ok4: bool, undone: bool,
                     grants: bool) returns (created: bool)
      requires Valid() && Creatable(View(), r, room, m, member)
      modifies this`rooms, this`members, store
      ensures Keyed() && (created <==> grants && AllAccepted(room, ok1, ok2, ok3, ok4))
      ensures View() == if created then Created(old(View()), r, room, m, member) else old(View())
      ensures Valid() <==> created || undone || !ok1
      ensures !created ==> (store.tables == old(store.tables) <==> undone || !ok1)
      ensures Valid() || Good(Leftover(old(View()), r, room, m, member, ok2, ok3, ok4), store.tables)
    {
      ghost var c, t := View(), store.tables;
      EstablishedGood(c, t, r, room, m, member, ok1, ok2, ok3, ok4);
      RefusedRollback(c, t, r, room, m, member, ok1, ok2, ok3, ok4);
      var saved := InstallAndWrite(r, room, m, member, ok1, ok2, ok3, ok4);
      created := saved && grants;
      if !created {
        TakeBack(r, m, undone);
      }
    }

    /**
     createRoom.  r, m and token are random, so new; createdAt is read before the lock and now under it; lengths
     of the texts other than the name are checked before; monitoring says whether administrator listening is on.
     */
    method CreateRoom(ip: string, device: string, name: string, nickname: string, capacity: int, hostTimeout: int,
                      access: Access, monitoringKey: Option<string>, monitoring: bool, proof: Option<Digest>, r: Id,
                      m: Id, token: Digest, createdAt: int, now: int, ok1: bool, ok2: bool, ok3: bool, ok4: bool,
                      undone: bool, grants: bool)
      returns (status: Status)
      requires Valid() && Limits() && clock <= now
      requires r !in rooms && m !in members && (forall x :: x in View().rooms ==> View().rooms[x].host != m)
      modifies this`attempts, this`history, this`clock, this`rooms, this`members, store
      ensures Keyed() && Limits() && clock <= now
      ensures Valid() <==> !(status == Failed && ok1 && !undone)
      ensures status != Done ==> (store.tables == old(store.tables) <==> !(status == Failed && ok1 && !undone))
      ensures var room := NewRoom(m, name, nickname, capacity, hostTimeout, createdAt, access, monitoringKey);
              var creator := Creator(r, nickname, device, proof, token);
              && status == CreateStatus(old(View()), old(history),
                                        RoomParameters(name, capacity, maximumParticipants, hostTimeout)
                                        && (monitoringKey.Some? ==> monitoring), maximumRooms, ip, device, now,
                                        grants && AllAccepted(room, ok1, ok2, ok3, ok4))
              && View() == (if status == Done then Created(old(View()), r, room, m, creator) else old(View()))
              && (Valid() || Good(Leftover(old(View()), r, room, m, creator, ok2, ok3, ok4), store.tables))
      ensures history == if RoomParameters(name, capacity, maximumParticipants, hostTimeout)
                            && (monitoringKey.Some? ==> monitoring) && |old(View()).rooms| < maximumRooms
                         then Attempted(old(history), CreateChecks(ip, device), now) else old(history)
    {
      if !RoomParameters(name, capacity, maximumParticipants, hostTimeout) || (monitoringKey.Some? && !monitoring) {
        return BadRequest;
      }
      var allowed := ChecksCreate(ip, device, now);
      if !allowed {
        return TooMany;
      }
      var room := NewRoom(m, name, nickname, capacity, hostTimeout, createdAt, access, monitoringKey);
      var creator := Creator(r, nickname, device, proof, token);
      var created := Establish(r, room, m, creator, ok1, ok2, ok3, ok4, undone, grants);
      return if created then Done else Failed;
    }

    /** A full server is refused before the limits are tried, the third hosted room after. */
    method ChecksCreate(ip: string, device: string, now: int) returns (allowed: bool)
      requires Keyed() && Limits() && clock <= now
      modifies this`attempts, this`history, this`clock
      ensures View() == old(View()) && Limits() && clock <= now
      ensures allowed <==> MayCreate(View(), old(history), maximumRooms, ip, device, now)
      ensures history == if |old(View()).rooms| < maximumRooms
                         then Attempted(old(history), CreateChecks(ip, device), now) else old(history)
    {
      var full := IsFull();
      if full {
        return false;
      }
      allowed := ChecksDevice(ip, device, now);
    }

    method ChecksDevice(ip: string, device: string, now: int) returns (allowed: bool)
      requires Keyed() && Limits() && clock <= now
      modifies this`attempts, this`history, this`clock
      ensures View() == old(View()) && Limits() && clock <= now
      ensures history == Attempted(old(history), CreateChecks(ip, device), now)
      ensures allowed <==>
        Passes(old(history), CreateChecks(ip, device), now) && |Hosted(old(View()).members, device)| < 3
    {
      allowed := TryLimits(CreateChecks(ip, device), now);
      if allowed {
        allowed := ChecksHosted(device);
      }
    }

    method IsFull() returns (full: bool)
      requires Keyed()
      ensures full <==> |View().rooms| >= maximumRooms
    {
      SameSize();
      full := |rooms| >= maximumRooms;
    }

    method ChecksHosted(device: string) returns (allowed: bool)
      requires Keyed()
      ensures allowed <==> |Hosted(View().members, device)| < 3
    {
      var count := CountHosted(device);
      allowed := count < 3;
    }

    lemma SameSize()
      ensures |View().rooms| == |rooms|
    {
      assert View().rooms.Keys == rooms.Keys;
      KeysCount(rooms);
      KeysCount(View().rooms);
    }

    // ---- sweeping ----

    /** One turn of the first loop. */
    method SweepHost(r: Id, now: int, ghost c: Core, ghost done: set<Id>, ghost start: map<Id, LiveMember>,
                     doomed: set<Id>)
      returns (noted: set<Id>)
      requires Valid() && Inv(c) && r in c.rooms && r !in done && View() == HostsDone(c, done, now)
      requires Shrunk(members, start) && doomed == DeadAmong(c, done, now)
      modifies this`members, store, rooms.Values, members.Values
      ensures Valid() && Shrunk(members, start) && noted == DeadAmong(c, done + {r}, now)
      ensures View() == HostsDone(c, done + {r}, now)
    {
      VisitRoom(c, done, r, now);
      NoteRoom(c, done, r, now);
      var dead := VisitOne(r, now, View());
      noted := if dead then doomed + {r} else doomed;
    }

    /** A room past its deadline is noted, and otherwise a host past its own is replaced. */
    method VisitOne(r: Id, now: int, ghost d: Core) returns (dead: bool)
      requires Valid() && View() == d && r in d.rooms
      modifies this`members, store, rooms.Values, members.Values
      ensures Valid() && Shrunk(members, old(members)) && (dead <==> Passed(d.rooms[r].emptyDeadline, now))
      ensures View() == if !dead && Passed(d.rooms[r].hostDeadline, now) then Assigned(d, r) else d
    {
      var room := rooms[r].View();
      dead := Passed(room.emptyDeadline, now);
      if !dead && Passed(room.hostDeadline, now) {
        AssignHost(r);
      }
    }

    /** The first loop: rooms past their deadline are noted, and timed-out hosts of the others replaced. */
    method SweepHosts(now: int, ghost c: Core) returns (doomed: set<Id>)
      requires Valid() && View() == c
      modifies this`members, store, rooms.Values, members.Values
      ensures Valid() && Shrunk(members, old(members))
      ensures doomed == DeadRooms(c, now)
      ensures View() == HostsDone(c, c.rooms.Keys, now)
    {
      NoHostVisited(c, now);
      assert Good(c, store.tables);
      ghost var start := members;
      doomed := {};
      var todo := rooms.Keys;
      ghost var done: set<Id> := {};
      while todo != {}
        invariant Valid() && View() == HostsDone(c, done, now)
        invariant Shrunk(members, start) && doomed == DeadAmong(c, done, now)
        invariant Partition(done, todo, c.rooms.Keys)
        decreases todo
      {
        var r :| r in todo;
        PartitionStep(done, todo, c.rooms.Keys, r);
        todo := todo - {r};
        ShrunkValues(members, start);
        doomed := SweepHost(r, now, c, done, start, doomed);
        done := done + {r};
      }
      PartitionDone(done, c.rooms.Keys);
    }

    /** One turn of the second loop. */
    method SweepMember(m: Id, now: int, ghost c: Core, ghost done: set<Id>, ghost start: map<Id, LiveMember>)
      requires Valid() && m in members && View() == MembersDone(c, done, now) && Shrunk(members, start)
      modifies this`members, store
      ensures Valid() && View() == MembersDone(c, done + {m}, now) && Shrunk(members, start)
      ensures old(members).Keys - {m} <= members.Keys
    {
      VisitMember(c, done, m, now);
      if Expired(members[m].View(), now) {
        RemoveMember(m);
      }
    }

    /** The second loop: expired offline members who are not hosts go. */
    method SweepMembers(now: int, ghost c: Core)
      requires Valid() && View() == HostsDone(c, c.rooms.Keys, now)
      modifies this`members, store
      ensures Valid() && Shrunk(members, old(members))
      ensures View() == MembersDone(c, c.members.Keys, now)
    {
      NoMemberVisited(c, now);
      ghost var start := members;
      var todo := members.Keys;
      ghost var done: set<Id> := {};
      while todo != {}
        invariant Valid() && View() == MembersDone(c, done, now)
        invariant Shrunk(members, start) && todo <= members.Keys
        invariant start.Keys <= done + todo
        decreases todo
      {
        var m :| m in todo;
        todo := todo - {m};
        SweepMember(m, now, c, done, start);
        done := done + {m};
      }
      AllMembersVisited(c, done, now);
    }

    /** The last loop: the noted rooms are deleted. */
    method SweepRooms(doomed: set<Id>, now: int, ghost c: Core)
      requires Valid() && View() == MembersDone(c, c.members.Keys, now)
      modifies this`rooms, this`members, store
      ensures Valid() && View() == RoomsDone(c, doomed, now)
    {
      NoneDeleted(c, now);
      var todo := doomed;
      ghost var done: set<Id> := {};
      while todo != {}
        invariant Valid() && done + todo == doomed
        invariant View() == RoomsDone(c, done, now)
        decreases todo
      {
        var r :| r in todo;
        todo := todo - {r};
        VisitDead(c, done, r, now);
        done := done + {r};
        DeleteRoom(r);
      }
      assert done == doomed;
    }

    /** The loops over rooms and members: whatever order they visit things in, the result is the closed form. */
    method SweepState(now: int)
      requires Valid()
      modifies this`rooms, this`members, store, rooms.Values, members.Values
      ensures Valid() && View() == Swept(old(View()), now)
    {
      ghost var c := View();
      LoopsAreSwept(c, now);
      var doomed := SweepHosts(now, c);
      SweepMembers(now, c);
      SweepRooms(doomed, now, c);
    }

    /** The clean-up of the limits touches nothing else. */
    method SweepAttempts(now: int)
      requires Valid() && Limits()
      modifies this`attempts, this`history, this`clock
      ensures Valid() && Limits() && clock == Later(old(clock), now)
      ensures history == old(history) && View() == old(View())
    {
      SweepIdle(now);
    }

    /** sweep. */
    method Sweep(now: int)
      requires Valid() && Limits()
      modifies this`attempts, this`history, this`clock, this`rooms, this`members, store, rooms.Values, members.Values
      ensures Valid() && Limits() && clock == Later(old(clock), now) && history == old(history)
      ensures View() == Swept(old(View()), now)
    {
      SweepAttempts(now);
      SweepState(now);
    }

    // ---- starting ----

    /** The rows of rooms as objects. */
    static method LoadRooms(t: Tables) returns (rooms: map<Id, LiveRoom>)
      ensures forall r :: r in rooms <==> r in t.rooms
      ensures forall r :: r in rooms ==> fresh(rooms[r]) && rooms[r].id == r && rooms[r].View() == LoadedRoom(t, r)
    {
      rooms := map[];
      var todo := t.rooms.Keys;
      while todo != {}
        invariant todo <= t.rooms.Keys && forall r :: r in rooms <==> r in t.rooms && r !in todo
        invariant forall r :: r in rooms ==> fresh(rooms[r]) && rooms[r].id == r && rooms[r].View() == LoadedRoom(t, r)
        decreases todo
      {
        var r :| r in todo;
        todo := todo - {r};
        var live := new LiveRoom(r, LoadedRoom(t, r));
        rooms := rooms[r := live];
      }
    }

    /** The rows of members as objects, with the host flag recomputed. */
    static method LoadMembers(t: Tables) returns (members: map<Id, LiveMember>)
      ensures forall m :: m in members <==> m in t.members
      ensures forall m :: m in members ==>
        fresh(members[m]) && members[m].id == m && members[m].View() == LoadedMember(t, m)
    {
      members := map[];
      var todo := t.members.Keys;
      while todo != {}
        invariant todo <= t.members.Keys && forall m :: m in members <==> m in t.members && m !in todo
        invariant forall m :: m in members ==>
          fresh(members[m]) && members[m].id == m && members[m].View() == LoadedMember(t, m)
        decreases todo
      {
        var m :| m in todo;
        todo := todo - {m};
        var live := new LiveMember(m, LoadedMember(t, m));
        members := members[m := live];
      }
    }

    /** New: load, then repair every room and every member.  c is the state before the restart. */
    constructor (store: Store, maximumRooms: int, maximumParticipants: int, now: int, ghost c: Core)
      requires Good(c, store.tables)
      modifies store
      ensures this.store == store && this.maximumRooms == maximumRooms
        && this.maximumParticipants == maximumParticipants
      ensures Valid() && View() == Restarted(c, now)
      ensures Limits() && history == map[] && sockets == map[] && eventStreams == map[]
    {
      this.store, this.maximumRooms, this.maximumParticipants := store, maximumRooms, maximumParticipants;
      rooms, members, sockets, eventStreams := map[], map[], map[], map[];
      attempts, history, clock := map[], map[], now;
      new;
      NoCalls(now);
      Start(now, c);
    }

    /** load, then the loops of New. */
    method Start(now: int, ghost c: Core)
      requires Good(c, store.tables)
      modifies store, this`rooms, this`members
      ensures Valid() && View() == Restarted(c, now)
    {
      LoadedGood(c, store.tables, now);
      Reload();
      Repair(now);
    }

    /** The two loops of New. */
    method Repair(now: int)
      requires Keyed() && Synced(store.tables, View())
      modifies store, rooms.Values, members.Values
      ensures Keyed() && Synced(store.tables, View())
      ensures View() == MembersRepaired(old(View()), old(View()).members.Keys, now)
    {
      ghost var d := View();
      RepairRooms(now, d);
      RepairMembers(now, d);
    }

    method Reload()
      modifies this`rooms, this`members
      ensures Keyed() && View() == Load(store.tables)
      ensures (forall r :: r in rooms ==> fresh(rooms[r])) && (forall m :: m in members ==> fresh(members[m]))
    {
      rooms := LoadRooms(store.tables);
      members := LoadMembers(store.tables);
      ViewIs(Load(store.tables));
    }

    /** The first loop of New. */
    method RepairRooms(now: int, ghost d: Core)
      requires Keyed() && Synced(store.tables, View()) && View() == d
      modifies store, rooms.Values
      ensures Keyed() && Synced(store.tables, View()) && View() == RoomsRepaired(d, d.rooms.Keys, now)
    {
      NoRoomRepaired(d, now);
      var todo := rooms.Keys;
      ghost var done: set<Id> := {};
      while todo != {}
        invariant View() == RoomsRepaired(d, done, now) && Synced(store.tables, View())
        invariant Partition(done, todo, d.rooms.Keys)
        decreases todo
      {
        var r :| r in todo;
        PartitionStep(done, todo, d.rooms.Keys, r);
        todo := todo - {r};
        RepairRoom(r, now, d, done);
        done := done + {r};
      }
      PartitionDone(done, d.rooms.Keys);
    }

    method RepairRoom(r: Id, now: int, ghost d: Core, ghost done: set<Id>)
      requires Keyed() && r in d.rooms && r !in done && View() == RoomsRepaired(d, done, now)
        && Synced(store.tables, View())
      modifies store, rooms.Values
      ensures View() == RoomsRepaired(d, done + {r}, now) && Synced(store.tables, View())
    {
      RepairRoomStep(d, store.tables, done, r, now);
      assert r in View().rooms;
      var room := rooms[r].View();
      SetDeadlines(r, if room.host in members then OrElse(room.hostDeadline, HostWindow(room, now))
                   else room.hostDeadline,
                   OrElse(room.emptyDeadline, now + RETENTION));
      var _ := SaveRoom(r, true);
    }

    /** The second loop of New. */
    method RepairMembers(now: int, ghost d: Core)
      requires Keyed() && Synced(store.tables, View()) && View() == RoomsRepaired(d, d.rooms.Keys, now)
      modifies store, members.Values
      ensures Keyed() && Synced(store.tables, View()) && View() == MembersRepaired(d, d.members.Keys, now)
    {
      NoMemberRepaired(d, now);
      var todo := members.Keys;
      ghost var done: set<Id> := {};
      while todo != {}
        invariant View() == MembersRepaired(d, done, now) && Synced(store.tables, View())
        invariant Partition(done, todo, d.members.Keys)
        decreases todo
      {
        var m :| m in todo;
        PartitionStep(done, todo, d.members.Keys, m);
        todo := todo - {m};
        RepairMember(m, now, d, done);
        done := done + {m};
      }
      PartitionDone(done, d.members.Keys);
    }

    method RepairMember(m: Id, now: int, ghost d: Core, ghost done: set<Id>)
      requires Keyed() && m in d.members && m !in done && View() == MembersRepaired(d, done, now)
        && Synced(store.tables, View())
      modifies store, members.Values
      ensures View() == MembersRepaired(d, done + {m}, now) && Synced(store.tables, View())
    {
      RepairMemberStep(d, store.tables, done, m, now);
      assert m in View().members;
      SetPresence(m, false, OrElse(members[m].deadline, now + RETENTION));
      var _ := SaveMember(m, true);
    }
  }
}
