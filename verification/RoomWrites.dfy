/** What each handler writes, and that memory and database still agree afterwards. */
module RoomWrites {
  import opened Collections
  import opened RoomState
  import opened RoomInvariant
  import opened RoomStore
  import Admission

  /** What holds between any two handlers. */
  ghost predicate Good(c: Core, t: Tables) {
    Inv(c) && Synced(t, c)
  }

  /** A change of one member's record and one room's, saved in that order. */
  lemma PairSyncs(c: Core, t: Tables, m: Id, member: Member, r: Id, room: Room)
    requires Synced(t, c) && m in c.members && SameIdentity(c.members[m], member)
    requires r in c.rooms && SameSettings(c.rooms[r], room)
    ensures MaySaveMember(t, m, member)
    ensures Synced(RoomSaved(MemberSaved(t, m, member), r, room), Core(c.rooms[r := room], c.members[m := member]))
  {
    SaveMemberSyncs(t, c, m, member);
    SaveRoomSyncs(MemberSaved(t, m, member), c.(members := c.members[m := member]), r, room);
  }

  /** The columns and satellite rows saveRoom does not touch. */
  predicate SameSettings(a: Room, b: Room) {
    && b.createdAt == a.createdAt && b.hybridAudio == a.hybridAudio && b.announcements == a.announcements
    && b.access == a.access && b.monitoringKey == a.monitoringKey
  }

  /** The records of the caller's member and room after a change of both. */
  predicate PairOf(d: Core, m: Id, r: Id) {
    m in d.members && r in d.rooms
  }

  function PairWritten(t: Tables, d: Core, m: Id, r: Id): Tables
    requires PairOf(d, m, r)
  {
    RoomSaved(MemberSaved(t, m, d.members[m]), r, d.rooms[r])
  }

  lemma MarkedGood(c: Core, t: Tables, m: Id, connected: bool, now: int)
    requires Good(c, t) && m in c.members
    ensures c.members[m].room in c.rooms
    ensures var d := if connected then Online(c, m) else Offline(c, m, now);
            && PairOf(d, m, c.members[m].room) && MaySaveMember(t, m, d.members[m])
            && Good(d, PairWritten(t, d, m, c.members[m].room))
  {
    assert MemberOk(c, m);
    var r := c.members[m].room;
    if connected {
      OnlineKeeps(c, m);
      var d := Online(c, m);
      PairSyncs(c, t, m, d.members[m], r, d.rooms[r]);
    } else {
      OfflineKeeps(c, m, now);
      var d := Offline(c, m, now);
      PairSyncs(c, t, m, d.members[m], r, d.rooms[r]);
    }
  }

  /** resume saves the room's row whether or not it changed. */
  lemma ResumedGood(c: Core, t: Tables, m: Id, token: Digest, now: int)
    requires Good(c, t) && m in c.members && c.members[m].room in c.rooms
    ensures var d := Resumed(c, m, token, now);
            && PairOf(d, m, c.members[m].room) && MaySaveMember(t, m, d.members[m])
            && Good(d, PairWritten(t, d, m, c.members[m].room))
  {
    var r, d := c.members[m].room, Resumed(c, m, token, now);
    ResumedKeeps(c, m, token, now);
    ResumedPair(c, m, token, now);
    PairSyncs(c, t, m, d.members[m], r, d.rooms[r]);
  }

  lemma ResumedPair(c: Core, m: Id, token: Digest, now: int)
    requires m in c.members && c.members[m].room in c.rooms
    ensures var d, r := Resumed(c, m, token, now), c.members[m].room;
            && PairOf(d, m, r) && d == Core(c.rooms[r := d.rooms[r]], c.members[m := d.members[m]])
            && SameIdentity(c.members[m], d.members[m]) && SameSettings(c.rooms[r], d.rooms[r])
  {
  }

  lemma MutedGood(c: Core, t: Tables, r: Id, m: Id, canSpeak: bool)
    requires Good(c, t) && MayMute(c, r, m)
    ensures var d := Muted(c, m, canSpeak);
            MaySaveMember(t, m, d.members[m]) && Good(d, MemberSaved(t, m, d.members[m]))
  {
    MutedKeeps(c, r, m, canSpeak);
    SaveMemberSyncs(t, c, m, Muted(c, m, canSpeak).members[m]);
  }

  lemma RejoinedGood(c: Core, t: Tables, m: Id, nickname: string, token: Digest, now: int)
    requires Good(c, t) && m in c.members
    ensures var d := Rejoined(c, m, nickname, token, now);
            MaySaveMember(t, m, d.members[m]) && Good(d, MemberSaved(t, m, d.members[m]))
  {
    RejoinedKeeps(c, m, nickname, token, now);
    SaveMemberSyncs(t, c, m, Rejoined(c, m, nickname, token, now).members[m]);
  }

  lemma JoinedGood(c: Core, t: Tables, m: Id, r: Id, credential: Digest, nickname: string, device: string,
                   proof: Option<Digest>, token: Digest, order: int, now: int)
    requires Good(c, t) && m !in c.members && (forall x :: x in c.rooms ==> c.rooms[x].host != m)
    requires Admission.Decide(c, r, credential, device, proof) == Admission.Admit && IsNextOrder(c.members, r, order)
    ensures var d := Joined(c, m, r, nickname, device, proof, token, order, now);
            MaySaveMember(t, m, d.members[m]) && Good(d, MemberSaved(t, m, d.members[m]))
  {
    var d := Joined(c, m, r, nickname, device, proof, token, order, now);
    Admission.AdmittedKeeps(c, m, r, credential, nickname, device, proof, token, order, now);
    InsertMemberSyncs(t, c, m, d.members[m]);
  }

  lemma RenamedGood(c: Core, t: Tables, r: Id, name: string)
    requires Good(c, t) && r in c.rooms
    ensures var d := WithRoom(c, r, c.rooms[r].(name := name));
            Good(d, RoomSaved(t, r, d.rooms[r]))
  {
    var room := c.rooms[r].(name := name);
    WithRoomKeeps(c, r, room);
    SaveRoomSyncs(t, c, r, room);
  }

  lemma HybridGood(c: Core, t: Tables, r: Id, enabled: bool)
    requires Good(c, t) && r in c.rooms
    ensures r in t.rooms && Good(WithRoom(c, r, c.rooms[r].(hybridAudio := enabled)), HybridSaved(t, r, enabled))
  {
    KeysAgree(t, c);
    WithRoomKeeps(c, r, c.rooms[r].(hybridAudio := enabled));
    HybridSyncs(t, c, r, enabled);
  }

  lemma AnnouncementsGood(c: Core, t: Tables, r: Id, enabled: bool)
    requires Good(c, t) && r in c.rooms
    ensures r in t.rooms && Good(WithRoom(c, r, c.rooms[r].(announcements := enabled)),
                                 AnnouncementsSaved(t, r, enabled))
  {
    KeysAgree(t, c);
    WithRoomKeeps(c, r, c.rooms[r].(announcements := enabled));
    AnnouncementsSync(t, c, r, enabled);
  }

  lemma DeletedGood(c: Core, t: Tables, r: Id)
    requires Good(c, t)
    ensures Good(Deleted(c, r), RoomDeleted(t, r))
  {
    DeletedKeeps(c, r);
    DeleteRoomSyncs(t, c, r);
  }

  lemma RemovedGood(c: Core, t: Tables, m: Id)
    requires Good(c, t) && m in c.members
    ensures Good(c.(members := c.members - {m}), MemberDeleted(t, m))
  {
    RemovedKeeps(c, m);
    DeleteMemberSyncs(t, c, m);
  }

  /** The demoted host is not saved: its row does not hold the flag. */
  lemma RoleMovedSyncs(c: Core, t: Tables, r: Id, prior: Id, next: Id)
    requires Synced(t, c) && r in c.rooms && next in c.members
    ensures var d := RoleMoved(c, r, prior, next);
            && PairOf(d, next, r) && MaySaveMember(t, next, d.members[next]) && Synced(PairWritten(t, d, next, r), d)
  {
    var d := RoleMoved(c, r, prior, next);
    var demoted := RoleTaken(c, prior);
    FlagsUnstored(t, c, demoted);
    RoleMovedPair(c, r, prior, next);
    PairSyncs(demoted, t, next, d.members[next], r, d.rooms[r]);
  }

  function RoleTaken(c: Core, prior: Id): Core {
    if prior in c.members then c.(members := c.members[prior := c.members[prior].(isHost := false)]) else c
  }

  lemma RoleMovedPair(c: Core, r: Id, prior: Id, next: Id)
    requires r in c.rooms && next in c.members
    ensures var d, e := RoleMoved(c, r, prior, next), RoleTaken(c, prior);
            && PairOf(d, next, r) && PairOf(e, next, r)
            && d == Core(e.rooms[r := d.rooms[r]], e.members[next := d.members[next]])
            && SameIdentity(e.members[next], d.members[next]) && SameSettings(e.rooms[r], d.rooms[r])
  {
  }

  lemma HandedOverGood(c: Core, t: Tables, caller: Id, r: Id, target: Id)
    requires Good(c, t) && ActsAsHost(c, caller, r) && MayReceiveRoom(c, caller, r, target)
    ensures var d := HandedOver(c, caller, target);
            && PairOf(d, target, r) && MaySaveMember(t, target, d.members[target])
            && Good(d, PairWritten(t, d, target, r))
  {
    HandedOverKeeps(c, caller, r, target);
    RoleMovedSyncs(c, t, r, caller, target);
  }

  /** assignHostLocked saves the new host, deletes an offline predecessor, saves the room. */
  function PromoteWrites(c: Core, t: Tables, r: Id, next: Id): Tables
    requires r in c.rooms && next in c.members
  {
    var prior := c.rooms[r].host;
    var d := RoleMoved(c, r, prior, next);
    var saved := MemberSaved(t, next, d.members[next]);
    RoomSaved(if prior in c.members && !c.members[prior].connected then MemberDeleted(saved, prior) else saved,
              r, d.rooms[r])
  }

  lemma PromotedGood(c: Core, t: Tables, r: Id, next: Id)
    requires Good(c, t) && r in c.rooms && next in Candidates(c.members, r)
    ensures MaySaveMember(t, next, RoleMoved(c, r, c.rooms[r].host, next).members[next])
    ensures Good(Promoted(c, r, next), PromoteWrites(c, t, r, next))
  {
    PromotedKeeps(c, r, next);
    PromotedSyncs(c, t, r, next);
  }

  lemma PromotedSyncs(c: Core, t: Tables, r: Id, next: Id)
    requires Synced(t, c) && r in c.rooms && next in c.members
    ensures MaySaveMember(t, next, RoleMoved(c, r, c.rooms[r].host, next).members[next])
    ensures Synced(PromoteWrites(c, t, r, next), Promoted(c, r, next))
  {
    var prior := c.rooms[r].host;
    var d := RoleMoved(c, r, prior, next);
    RoleMovedSyncs(c, t, r, prior, next);
    if prior in c.members && !c.members[prior].connected {
      DeleteMemberSyncs(PairWritten(t, d, next, r), d, prior);
      assert MemberDeleted(PairWritten(t, d, next, r), prior) == PromoteWrites(c, t, r, next);
    }
  }

  lemma CreatedGood(c: Core, t: Tables, r: Id, room: Room, m: Id, member: Member)
    requires Good(c, t) && r !in c.rooms && m !in c.members && (forall x :: x in c.rooms ==> c.rooms[x].host != m)
    requires room.host == m && room.capacity >= 2 && room.hostDeadline.None? && room.emptyDeadline.None?
    requires room.access.Some? && !room.hybridAudio && !room.announcements
    requires member.room == r && member.isHost && member.canSpeak
    ensures MaySaveMember(RoomSaved(t, r, room), m, member)
    ensures Good(Created(c, r, room, m, member), CreateWrites(t, r, room, m, member, true, true, true, true))
  {
    CreatedKeeps(c, r, room, m, member);
    CreateSyncs(t, c, r, room, m, member);
  }

  /** With fresh IDs none of the four writes runs into a constraint. */
  lemma CreateAccepted(c: Core, t: Tables, r: Id, room: Room, m: Id, member: Member)
    requires Good(c, t) && r !in c.rooms && m !in c.members && member.room == r
    ensures r !in t.rooms && r !in t.access && m !in t.members
    ensures MaySaveMember(RoomSaved(t, r, room), m, member)
    ensures MaySaveAccess(MemberSaved(RoomSaved(t, r, room), m, member), r)
  {
    KeysAgree(t, c);
  }

  /** A refused creation, undone. */
  lemma CreateUndone(c: Core, t: Tables, r: Id, room: Room, m: Id, member: Member, ok1: bool, ok2: bool, ok3: bool,
                     ok4: bool)
    requires Good(c, t) && r !in c.rooms && m !in c.members && member.room == r && room.access.Some?
    ensures RoomDeleted(CreateWrites(t, r, room, m, member, ok1, ok2, ok3, ok4), r) == t
  {
    CreateRollsBack(t, c, r, room, m, member, ok1, ok2, ok3, ok4);
  }

  // ---- restart, one record at a time ----

  /** New fills in a room's missing deadlines; a host that is gone gets none. */
  function RepairedRoom(d: Core, r: Id, now: int): Room
    requires r in d.rooms
  {
    var room := d.rooms[r];
    room.(emptyDeadline := OrElse(room.emptyDeadline, now + RETENTION),
          hostDeadline := if room.host in d.members then OrElse(room.hostDeadline, HostWindow(room, now))
                          else room.hostDeadline)
  }

  function RepairedMember(m: Member, now: int): Member {
    m.(connected := false, deadline := OrElse(m.deadline, now + RETENTION))
  }

  /** The state when these rooms have been repaired. */
  function RoomsRepaired(d: Core, done: set<Id>, now: int): Core {
    d.(rooms := map r | r in d.rooms :: if r in done then RepairedRoom(d, r, now) else d.rooms[r])
  }

  /** The state when all rooms and these members have been repaired. */
  function MembersRepaired(d: Core, done: set<Id>, now: int): Core {
    Core(RoomsRepaired(d, d.rooms.Keys, now).rooms,
         map m | m in d.members :: if m in done then RepairedMember(d.members[m], now) else d.members[m])
  }

  lemma NoRoomRepaired(d: Core, now: int)
    ensures RoomsRepaired(d, {}, now) == d
  {
  }

  lemma NoMemberRepaired(d: Core, now: int)
    ensures MembersRepaired(d, {}, now) == RoomsRepaired(d, d.rooms.Keys, now)
  {
  }

  lemma AllRepaired(d: Core, now: int)
    ensures MembersRepaired(d, d.members.Keys, now) == Restarted(d, now)
  {
  }

  lemma RepairRoomStep(d: Core, t: Tables, done: set<Id>, r: Id, now: int)
    requires r in d.rooms && r !in done && Synced(t, RoomsRepaired(d, done, now))
    ensures r in RoomsRepaired(d, done, now).rooms && RoomsRepaired(d, done, now).rooms[r] == d.rooms[r]
    ensures RoomsRepaired(d, done + {r}, now) == WithRoom(RoomsRepaired(d, done, now), r, RepairedRoom(d, r, now))
    ensures Synced(RoomSaved(t, r, RepairedRoom(d, r, now)), RoomsRepaired(d, done + {r}, now))
  {
    var e := RoomsRepaired(d, done, now);
    assert RoomsRepaired(d, done + {r}, now).rooms == e.rooms[r := RepairedRoom(d, r, now)];
    SaveRoomSyncs(t, e, r, RepairedRoom(d, r, now));
  }

  lemma RepairMemberStep(d: Core, t: Tables, done: set<Id>, m: Id, now: int)
    requires m in d.members && m !in done && Synced(t, MembersRepaired(d, done, now))
    ensures var e, repaired := MembersRepaired(d, done, now), RepairedMember(d.members[m], now);
            && m in e.members && e.members[m] == d.members[m]
            && MembersRepaired(d, done + {m}, now) == e.(members := e.members[m := repaired])
            && MaySaveMember(t, m, repaired)
            && Synced(MemberSaved(t, m, repaired), MembersRepaired(d, done + {m}, now))
  {
    var e := MembersRepaired(d, done, now);
    assert MembersRepaired(d, done + {m}, now).members == e.members[m := RepairedMember(d.members[m], now)];
    SaveMemberSyncs(t, e, m, RepairedMember(d.members[m], now));
  }

  /** What load gives is in step with the tables, and repairing all of it gives the state a restart promises. */
  lemma LoadedGood(c: Core, t: Tables, now: int)
    requires Good(c, t)
    ensures Load(t) == Durable(c) && Synced(t, Load(t))
    ensures MembersRepaired(Load(t), Load(t).members.Keys, now) == Restarted(c, now) && Inv(Restarted(c, now))
  {
    AllRepaired(Load(t), now);
    LoadRestores(t, c);
    FlagsUnstored(t, c, Durable(c));
    RestartSimulates(t, c, now);
  }
}
