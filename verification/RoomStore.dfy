/** The database behind rooms and members: its tables, the writes the handlers make, and load. */
module RoomStore {
  import opened Collections
  import opened RoomState
  import opened RoomInvariant

  datatype RoomRow = RoomRow(
    name: string, host: Id, hostNickname: string, capacity: int, hostTimeout: int, createdAt: int,
    hostDeadline: Option<int>, emptyDeadline: Option<int>)

  datatype MemberRow = MemberRow(
    room: Id, nickname: string, device: string, resumeToken: Digest, canSpeak: bool, order: int, deadline: Option<int>)

  /** One map per table, from its primary key; a time column is NULL or milliseconds. */
  datatype Tables = Tables(
    rooms: map<Id, RoomRow>, members: map<Id, MemberRow>, proofs: map<Id, Digest>, access: map<Id, Access>,
    hybrid: map<Id, bool>, announcements: map<Id, bool>, monitoringKeys: map<Id, string>)

  const EMPTY := Tables(map[], map[], map[], map[], map[], map[], map[])

  // ---- the statements ----

  function RowOf(r: Room): RoomRow {
    RoomRow(r.name, r.host, r.hostNickname, r.capacity, r.hostTimeout, r.createdAt, r.hostDeadline, r.emptyDeadline)
  }

  function MemberRowOf(m: Member): MemberRow {
    MemberRow(m.room, m.nickname, m.device, m.resumeToken, m.canSpeak, m.order, m.deadline)
  }

  /** The upsert of saveRoom: created_at is not among the updated columns. */
  function RoomSaved(t: Tables, id: Id, r: Room): Tables {
    t.(rooms := t.rooms[id := if id in t.rooms then RowOf(r).(createdAt := t.rooms[id].createdAt) else RowOf(r)])
  }

  /** A foreign key refuses members of unknown rooms. */
  predicate MaySaveMember(t: Tables, id: Id, m: Member) {
    id in t.members || m.room in t.rooms
  }

  /** The upsert of saveMember: room and device are not updated, and a proof is written only if there is one. */
  function MemberSaved(t: Tables, id: Id, m: Member): Tables {
    var row := MemberRowOf(m);
    t.(members := t.members[id := if id in t.members
                                  then row.(room := t.members[id].room, device := t.members[id].device)
                                  else row],
       proofs := if m.proof.Some? then t.proofs[id := m.proof.value] else t.proofs)
  }

  /** saveJoinCredentials is a plain insert: it fails on a second row. */
  predicate MaySaveAccess(t: Tables, id: Id) {
    id in t.rooms && id !in t.access
  }

  function AccessSaved(t: Tables, id: Id, access: Access): Tables {
    t.(access := t.access[id := access])
  }

  function HybridSaved(t: Tables, id: Id, enabled: bool): Tables {
    t.(hybrid := t.hybrid[id := enabled])
  }

  function AnnouncementsSaved(t: Tables, id: Id, enabled: bool): Tables {
    t.(announcements := t.announcements[id := enabled])
  }

  function MonitoringKeySaved(t: Tables, id: Id, key: string): Tables {
    t.(monitoringKeys := t.monitoringKeys[id := key])
  }

  /** The cascade removes the proof. */
  function MemberDeleted(t: Tables, id: Id): Tables {
    t.(members := t.members - {id}, proofs := t.proofs - {id})
  }

  function RoomMembers(t: Tables, id: Id): set<Id> {
    set m | m in t.members && t.members[m].room == id
  }

  /** The cascade removes the room's members, their proofs, and every setting. */
  function RoomDeleted(t: Tables, id: Id): Tables {
    var gone := RoomMembers(t, id);
    Tables(t.rooms - {id}, t.members - gone, t.proofs - gone, t.access - {id}, t.hybrid - {id}, t.announcements - {id},
           t.monitoringKeys - {id})
  }

  // ---- load ----

  function Lookup<T>(m: map<Id, T>, id: Id): Option<T> {
    if id in m then Some(m[id]) else None
  }

  function LoadedRoom(t: Tables, id: Id): Room
    requires id in t.rooms
  {
    var r := t.rooms[id];
    Room(r.name, r.host, r.hostNickname, r.capacity, r.hostTimeout, r.createdAt, r.hostDeadline, r.emptyDeadline,
         id in t.hybrid && t.hybrid[id], id in t.announcements && t.announcements[id],
         Lookup(t.access, id), Lookup(t.monitoringKeys, id))
  }

  /** The host flag is recomputed from the room, and a host may always speak. */
  function LoadedMember(t: Tables, id: Id): Member
    requires id in t.members
  {
    var m := t.members[id];
    var isHost := m.room in t.rooms && t.rooms[m.room].host == id;
    Member(m.room, m.nickname, m.device, Lookup(t.proofs, id), m.resumeToken, m.canSpeak || isHost, m.order, false,
           m.deadline, isHost)
  }

  function Load(t: Tables): Core {
    Core(map r | r in t.rooms :: LoadedRoom(t, r), map m | m in t.members :: LoadedMember(t, m))
  }

  // ---- memory and tables agree ----

  predicate RoomSynced(t: Tables, r: Id, room: Room)
  {
    && r in t.rooms && t.rooms[r] == RowOf(room)
    && (if r in t.hybrid then t.hybrid[r] == room.hybridAudio else !room.hybridAudio)
    && (if r in t.announcements then t.announcements[r] == room.announcements else !room.announcements)
    && Lookup(t.access, r) == room.access
    && Lookup(t.monitoringKeys, r) == room.monitoringKey
  }

  predicate MemberSynced(t: Tables, m: Id, member: Member) {
    m in t.members && t.members[m] == MemberRowOf(member) && Lookup(t.proofs, m) == member.proof
  }

  /** Rows under this key belong to the state, and no satellite row is an orphan. */
  predicate NoOrphanAt(t: Tables, c: Core, x: Id) {
    && (x in t.rooms <==> x in c.rooms) && (x in t.members <==> x in c.members) && (x in t.proofs ==> x in c.members)
    && (x in t.access || x in t.hybrid || x in t.announcements || x in t.monitoringKeys ==> x in c.rooms)
  }

  ghost predicate NoOrphans(t: Tables, c: Core) {
    forall x {:trigger NoOrphanAt(t, c, x)} :: NoOrphanAt(t, c, x)
  }

  lemma KeysAgree(t: Tables, c: Core)
    requires NoOrphans(t, c)
    ensures t.rooms.Keys == c.rooms.Keys && t.members.Keys == c.members.Keys && t.proofs.Keys <= c.members.Keys
    ensures t.access.Keys <= c.rooms.Keys && t.hybrid.Keys <= c.rooms.Keys && t.announcements.Keys <= c.rooms.Keys
    ensures t.monitoringKeys.Keys <= c.rooms.Keys
  {
    forall x: Id
      ensures (x in t.rooms <==> x in c.rooms) && (x in t.members <==> x in c.members)
        && (x in t.proofs ==> x in c.members)
      ensures x in t.access || x in t.hybrid || x in t.announcements || x in t.monitoringKeys ==> x in c.rooms
    {
      assert NoOrphanAt(t, c, x);
    }
  }

  ghost predicate Synced(t: Tables, c: Core) {
    && NoOrphans(t, c)
    && (forall r {:trigger RoomSynced(t, r, c.rooms[r])} :: r in c.rooms ==> RoomSynced(t, r, c.rooms[r]))
    && (forall m {:trigger MemberSynced(t, m, c.members[m])} :: m in c.members ==> MemberSynced(t, m, c.members[m]))
  }

  /** Loading restores every persisted field, and recomputes the host flag to the same value. */
  lemma LoadRestores(t: Tables, c: Core)
    requires Inv(c) && Synced(t, c)
    ensures Load(t) == Durable(c)
  {
    KeysAgree(t, c);
    forall m | m in c.members
      ensures LoadedMember(t, m) == c.members[m].(connected := false)
    {
      LoadRestoresMember(t, c, m);
    }
    forall r | r in c.rooms
      ensures LoadedRoom(t, r) == c.rooms[r]
    {
      LoadRestoresRoom(t, r, c.rooms[r]);
    }
  }

  lemma LoadRestoresRoom(t: Tables, r: Id, room: Room)
    requires RoomSynced(t, r, room)
    ensures LoadedRoom(t, r) == room
  {
  }

  lemma LoadRestoresMember(t: Tables, c: Core, m: Id)
    requires Inv(c) && Synced(t, c) && m in c.members && m in t.members
    ensures LoadedMember(t, m) == c.members[m].(connected := false)
  {
    var member := c.members[m];
    assert MemberSynced(t, m, member) && MemberOk(c, m) && RoomSynced(t, member.room, c.rooms[member.room]);
    assert t.rooms[member.room].host == c.rooms[member.room].host;
  }

  /** A restart after any completed handler continues with the same state, everyone offline. */
  lemma RestartSimulates(t: Tables, c: Core, now: int)
    requires Inv(c) && Synced(t, c)
    ensures Restarted(Load(t), now) == Restarted(c, now) && Inv(Restarted(Load(t), now))
  {
    LoadRestores(t, c);
    RestartForgetsPresence(c, now);
    RestartedKeeps(c, now);
  }

  // ---- each write keeps the agreement for its change of the state ----

  /** Two databases hold the same about a room. */
  predicate AgreeAt(t: Tables, u: Tables, r: Id) {
    && Lookup(t.rooms, r) == Lookup(u.rooms, r) && Lookup(t.access, r) == Lookup(u.access, r)
    && Lookup(t.hybrid, r) == Lookup(u.hybrid, r) && Lookup(t.announcements, r) == Lookup(u.announcements, r)
    && Lookup(t.monitoringKeys, r) == Lookup(u.monitoringKeys, r)
  }

  lemma RoomFrame(t: Tables, u: Tables, r: Id, room: Room)
    requires AgreeAt(t, u, r) && RoomSynced(t, r, room)
    ensures RoomSynced(u, r, room)
  {
  }

  lemma MemberFrame(t: Tables, u: Tables, m: Id, member: Member)
    requires Lookup(t.members, m) == Lookup(u.members, m) && Lookup(t.proofs, m) == Lookup(u.proofs, m)
    requires MemberSynced(t, m, member)
    ensures MemberSynced(u, m, member)
  {
  }

  /** A write about one room. */
  lemma OneRoomWritten(t: Tables, u: Tables, c: Core, r: Id, room: Room)
    requires Synced(t, c) && r in c.rooms && u.members == t.members && u.proofs == t.proofs
    requires RoomSynced(u, r, room) && NoOrphans(u, WithRoom(c, r, room))
    requires forall x :: x != r ==> AgreeAt(t, u, x)
    ensures Synced(u, WithRoom(c, r, room))
  {
    forall x | x in c.rooms && x != r
      ensures RoomSynced(u, x, c.rooms[x])
    {
      assert AgreeAt(t, u, x);
      RoomFrame(t, u, x, c.rooms[x]);
    }
    forall m | m in c.members
      ensures MemberSynced(u, m, c.members[m])
    {
      MemberFrame(t, u, m, c.members[m]);
    }
  }

  /** saveRoom after a change to the columns of an existing room. */
  lemma SaveRoomSyncs(t: Tables, c: Core, r: Id, room: Room)
    requires Synced(t, c) && r in c.rooms
    requires room.createdAt == c.rooms[r].createdAt && room.hybridAudio == c.rooms[r].hybridAudio
    requires room.announcements == c.rooms[r].announcements && room.access == c.rooms[r].access
    requires room.monitoringKey == c.rooms[r].monitoringKey
    ensures Synced(RoomSaved(t, r, room), WithRoom(c, r, room))
  {
    KeysAgree(t, c);
    assert RoomSynced(t, r, c.rooms[r]);
    assert RowOf(room).(createdAt := t.rooms[r].createdAt) == RowOf(room);
    OneRoomWritten(t, RoomSaved(t, r, room), c, r, room);
  }

  lemma HybridSyncs(t: Tables, c: Core, r: Id, enabled: bool)
    requires Synced(t, c) && r in c.rooms
    ensures Synced(HybridSaved(t, r, enabled), WithRoom(c, r, c.rooms[r].(hybridAudio := enabled)))
  {
    KeysAgree(t, c);
    var u := HybridSaved(t, r, enabled);
    HybridRow(t, r, c.rooms[r], enabled);
    forall x | x != r
      ensures AgreeAt(t, u, x)
    {
    }
    OneRoomWritten(t, u, c, r, c.rooms[r].(hybridAudio := enabled));
  }

  lemma HybridRow(t: Tables, r: Id, room: Room, enabled: bool)
    requires RoomSynced(t, r, room)
    ensures RoomSynced(HybridSaved(t, r, enabled), r, room.(hybridAudio := enabled))
  {
  }

  lemma AnnouncementsSync(t: Tables, c: Core, r: Id, enabled: bool)
    requires Synced(t, c) && r in c.rooms
    ensures Synced(AnnouncementsSaved(t, r, enabled), WithRoom(c, r, c.rooms[r].(announcements := enabled)))
  {
    KeysAgree(t, c);
    var u := AnnouncementsSaved(t, r, enabled);
    AnnouncementsRow(t, r, c.rooms[r], enabled);
    forall x | x != r
      ensures AgreeAt(t, u, x)
    {
    }
    OneRoomWritten(t, u, c, r, c.rooms[r].(announcements := enabled));
  }

  lemma AnnouncementsRow(t: Tables, r: Id, room: Room, enabled: bool)
    requires RoomSynced(t, r, room)
    ensures RoomSynced(AnnouncementsSaved(t, r, enabled), r, room.(announcements := enabled))
  {
  }

  /** saveMember after a change that keeps room, device and proof. */
  lemma SaveMemberSyncs(t: Tables, c: Core, m: Id, member: Member)
    requires Synced(t, c) && m in c.members && SameIdentity(c.members[m], member)
    ensures MaySaveMember(t, m, member)
    ensures Synced(MemberSaved(t, m, member), c.(members := c.members[m := member]))
  {
    assert MemberSynced(t, m, c.members[m]);
    SaveMemberFrames(t, c, m, member);
  }

  lemma SaveMemberFrames(t: Tables, c: Core, m: Id, member: Member)
    requires Synced(t, c) && MemberSynced(MemberSaved(t, m, member), m, member)
    ensures Synced(MemberSaved(t, m, member), c.(members := c.members[m := member]))
  {
    KeysAgree(t, c);
    var u := MemberSaved(t, m, member);
    forall x | x in c.rooms
      ensures RoomSynced(u, x, c.rooms[x])
    {
      RoomFrame(t, u, x, c.rooms[x]);
    }
    forall x | x in c.members && x != m
      ensures MemberSynced(u, x, c.members[x])
    {
      MemberFrame(t, u, x, c.members[x]);
    }
  }

  /** saveMember of a newcomer to an existing room. */
  lemma InsertMemberSyncs(t: Tables, c: Core, m: Id, member: Member)
    requires Synced(t, c) && m !in c.members && member.room in c.rooms
    ensures MaySaveMember(t, m, member)
    ensures Synced(MemberSaved(t, m, member), c.(members := c.members[m := member]))
  {
    KeysAgree(t, c);
    assert RoomSynced(t, member.room, c.rooms[member.room]);
    SaveMemberFrames(t, c, m, member);
  }

  lemma DeleteMemberSyncs(t: Tables, c: Core, m: Id)
    requires Synced(t, c)
    ensures Synced(MemberDeleted(t, m), c.(members := c.members - {m}))
  {
    KeysAgree(t, c);
    var u := MemberDeleted(t, m);
    forall x | x in c.rooms
      ensures RoomSynced(u, x, c.rooms[x])
    {
      RoomFrame(t, u, x, c.rooms[x]);
    }
    forall x | x in c.members && x != m
      ensures MemberSynced(u, x, c.members[x])
    {
      MemberFrame(t, u, x, c.members[x]);
    }
  }

  /** The cascade removes exactly the members of the room. */
  lemma DeleteRoomSyncs(t: Tables, c: Core, r: Id)
    requires Synced(t, c)
    ensures Synced(RoomDeleted(t, r), Deleted(c, r))
  {
    GoneMembers(t, c, r);
    CascadeLeavesNoOrphans(t, c, r);
    CascadeRooms(t, c, r);
    CascadeMembers(t, c, r);
  }

  lemma CascadeRooms(t: Tables, c: Core, r: Id)
    requires Synced(t, c)
    ensures forall x :: x in c.rooms && x != r ==> RoomSynced(RoomDeleted(t, r), x, c.rooms[x])
  {
    forall x | x in c.rooms && x != r
      ensures RoomSynced(RoomDeleted(t, r), x, c.rooms[x])
    {
      assert RoomSynced(t, x, c.rooms[x]);
      RoomFrame(t, RoomDeleted(t, r), x, c.rooms[x]);
    }
  }

  lemma CascadeMembers(t: Tables, c: Core, r: Id)
    requires Synced(t, c)
    requires forall m :: m in c.members ==> (m in RoomMembers(t, r) <==> c.members[m].room == r)
    ensures forall m :: m in c.members && c.members[m].room != r ==> MemberSynced(RoomDeleted(t, r), m, c.members[m])
  {
    forall m | m in c.members && c.members[m].room != r
      ensures MemberSynced(RoomDeleted(t, r), m, c.members[m])
    {
      assert MemberSynced(t, m, c.members[m]) && m !in RoomMembers(t, r);
      CascadeMember(t, r, m, c.members[m]);
    }
  }

  lemma CascadeMember(t: Tables, r: Id, m: Id, member: Member)
    requires m !in RoomMembers(t, r) && MemberSynced(t, m, member)
    ensures MemberSynced(RoomDeleted(t, r), m, member)
  {
  }

  lemma GoneMembers(t: Tables, c: Core, r: Id)
    requires Synced(t, c)
    ensures forall m :: m in c.members ==> (m in RoomMembers(t, r) <==> c.members[m].room == r)
  {
    forall m | m in c.members
      ensures m in RoomMembers(t, r) <==> c.members[m].room == r
    {
      assert MemberSynced(t, m, c.members[m]);
    }
  }

  lemma CascadeLeavesNoOrphans(t: Tables, c: Core, r: Id)
    requires NoOrphans(t, c)
    requires forall m :: m in c.members ==> (m in RoomMembers(t, r) <==> c.members[m].room == r)
    ensures NoOrphans(RoomDeleted(t, r), Deleted(c, r))
  {
    KeysAgree(t, c);
    var u, d := RoomDeleted(t, r), Deleted(c, r);
    assert u.members.Keys == t.members.Keys - RoomMembers(t, r) == d.members.Keys;
    assert u.proofs.Keys == t.proofs.Keys - RoomMembers(t, r);
  }

  /** Presence is not stored. */
  lemma FlagsUnstored(t: Tables, c: Core, d: Core)
    requires Synced(t, c) && d.rooms == c.rooms && d.members.Keys == c.members.Keys
    requires forall m :: m in c.members ==>
      d.members[m] == c.members[m].(isHost := d.members[m].isHost, connected := d.members[m].connected)
    ensures Synced(t, d)
  {
    KeysAgree(t, c);
    forall m | m in d.members
      ensures MemberSynced(t, m, d.members[m])
    {
      assert MemberSynced(t, m, c.members[m]);
    }
    forall x | x in d.rooms
      ensures RoomSynced(t, x, d.rooms[x])
    {
      assert RoomSynced(t, x, c.rooms[x]);
    }
  }

  // ---- creating a room ----

  /** The writes of createRoom, in order; each flag says whether the database accepts that write. */
  function CreateWrites(t: Tables, r: Id, room: Room, m: Id, member: Member, ok1: bool, ok2: bool, ok3: bool,
                        ok4: bool): Tables
    requires room.access.Some?
  {
    var t1 := if ok1 then RoomSaved(t, r, room) else t;
    var t2 := if ok2 && MaySaveMember(t1, m, member) then MemberSaved(t1, m, member) else t1;
    var t3 := if room.monitoringKey.Some? && ok3 && r in t2.rooms
              then MonitoringKeySaved(t2, r, room.monitoringKey.value) else t2;
    if ok4 && MaySaveAccess(t3, r) then AccessSaved(t3, r, room.access.value) else t3
  }

  /** All four accepted: the new room is stored. */
  lemma CreateSyncs(t: Tables, c: Core, r: Id, room: Room, m: Id, member: Member)
    requires Synced(t, c) && r !in c.rooms && m !in c.members && member.room == r
    requires room.access.Some? && !room.hybridAudio && !room.announcements
    ensures MaySaveMember(RoomSaved(t, r, room), m, member)
    ensures Synced(CreateWrites(t, r, room, m, member, true, true, true, true), Created(c, r, room, m, member))
  {
    KeysAgree(t, c);
    var u := Inserted(t, r, room, m, member);
    CreateTables(t, c, r, room, m, member);
    CreatedRow(u, r, room, m, member);
    InsertedAgrees(t, r, room, m, member);
    CreateKeepsRows(t, u, c, r, m);
    InsertedLeavesNoOrphans(t, c, r, room, m, member);
    SyncedAfterCreate(u, c, r, room, m, member);
  }

  lemma SyncedAfterCreate(u: Tables, c: Core, r: Id, room: Room, m: Id, member: Member)
    requires NoOrphans(u, Created(c, r, room, m, member)) && RoomSynced(u, r, room) && MemberSynced(u, m, member)
    requires forall x :: x in c.rooms ==> RoomSynced(u, x, c.rooms[x])
    requires forall x :: x in c.members ==> MemberSynced(u, x, c.members[x])
    ensures Synced(u, Created(c, r, room, m, member))
  {
  }

  /** The tables with the new rows added. */
  function Inserted(t: Tables, r: Id, room: Room, m: Id, member: Member): Tables
    requires room.access.Some?
  {
    Tables(t.rooms[r := RowOf(room)], t.members[m := MemberRowOf(member)],
           if member.proof.Some? then t.proofs[m := member.proof.value] else t.proofs,
           t.access[r := room.access.value], t.hybrid, t.announcements,
           if room.monitoringKey.Some? then t.monitoringKeys[r := room.monitoringKey.value] else t.monitoringKeys)
  }

  lemma InsertedAgrees(t: Tables, r: Id, room: Room, m: Id, member: Member)
    requires room.access.Some?
    ensures var u := Inserted(t, r, room, m, member);
            && (forall x :: x != r ==> AgreeAt(t, u, x))
            && (forall x :: x != m ==>
                  Lookup(t.members, x) == Lookup(u.members, x) && Lookup(t.proofs, x) == Lookup(u.proofs, x))
  {
  }

  lemma InsertedLeavesNoOrphans(t: Tables, c: Core, r: Id, room: Room, m: Id, member: Member)
    requires NoOrphans(t, c) && room.access.Some?
    ensures NoOrphans(Inserted(t, r, room, m, member), Created(c, r, room, m, member))
  {
    KeysAgree(t, c);
  }

  /** Rows of others are the same afterwards. */
  lemma CreateKeepsRows(t: Tables, u: Tables, c: Core, r: Id, m: Id)
    requires Synced(t, c) && r !in c.rooms && m !in c.members
    requires forall x :: x != r ==> AgreeAt(t, u, x)
    requires forall x :: x != m ==>
      Lookup(t.members, x) == Lookup(u.members, x) && Lookup(t.proofs, x) == Lookup(u.proofs, x)
    ensures forall x :: x in c.rooms ==> RoomSynced(u, x, c.rooms[x])
    ensures forall x :: x in c.members ==> MemberSynced(u, x, c.members[x])
  {
    forall x | x in c.rooms
      ensures RoomSynced(u, x, c.rooms[x])
    {
      assert RoomSynced(t, x, c.rooms[x]) && AgreeAt(t, u, x);
      RoomFrame(t, u, x, c.rooms[x]);
    }
    forall x | x in c.members
      ensures MemberSynced(u, x, c.members[x])
    {
      assert MemberSynced(t, x, c.members[x]);
      MemberFrame(t, u, x, c.members[x]);
    }
  }

  /** The tables after the four writes. */
  lemma CreateTables(t: Tables, c: Core, r: Id, room: Room, m: Id, member: Member)
    requires NoOrphans(t, c) && r !in c.rooms && m !in c.members && member.room == r && room.access.Some?
    ensures CreateWrites(t, r, room, m, member, true, true, true, true) == Inserted(t, r, room, m, member)
  {
    KeysAgree(t, c);
    var t1 := RoomSaved(t, r, room);
    assert t1 == t.(rooms := t.rooms[r := RowOf(room)]);
    var t2 := MemberSaved(t1, m, member);
    assert MaySaveMember(t1, m, member);
    assert t2.members == t.members[m := MemberRowOf(member)];
    var t3 := if room.monitoringKey.Some? then MonitoringKeySaved(t2, r, room.monitoringKey.value) else t2;
    assert MaySaveAccess(t3, r);
  }

  lemma CreatedRow(u: Tables, r: Id, room: Room, m: Id, member: Member)
    requires !room.hybridAudio && !room.announcements && r !in u.hybrid && r !in u.announcements
    requires r in u.rooms && u.rooms[r] == RowOf(room) && Lookup(u.access, r) == room.access
    requires Lookup(u.monitoringKeys, r) == room.monitoringKey
    requires m in u.members && u.members[m] == MemberRowOf(member) && Lookup(u.proofs, m) == member.proof
    ensures RoomSynced(u, r, room) && MemberSynced(u, m, member)
  {
  }

  /** The tables of u are those of t, but for rows about room r and member m of it. */
  predicate AddsOnly(t: Tables, u: Tables, r: Id, m: Id) {
    && u.rooms - {r} == t.rooms && u.access - {r} == t.access && u.hybrid == t.hybrid
    && u.announcements == t.announcements
    && u.monitoringKeys - {r} == t.monitoringKeys
    && u.members - {m} == t.members && u.proofs - {m} == t.proofs
    && (m in u.members ==> u.members[m].room == r) && (m in u.proofs ==> m in u.members)
  }

  lemma CreateAddsOnly(t: Tables, c: Core, r: Id, room: Room, m: Id, member: Member, ok1: bool, ok2: bool, ok3: bool,
                       ok4: bool)
    requires NoOrphans(t, c) && r !in c.rooms && m !in c.members && member.room == r && room.access.Some?
    ensures AddsOnly(t, CreateWrites(t, r, room, m, member, ok1, ok2, ok3, ok4), r, m)
  {
    KeysAgree(t, c);
    StartAddsOnly(t, r, m);
    WritesAddOnly(t, r, room, m, member, ok1, ok2, ok3, ok4);
  }

  lemma WritesAddOnly(t: Tables, r: Id, room: Room, m: Id, member: Member, ok1: bool, ok2: bool, ok3: bool, ok4: bool)
    requires AddsOnly(t, t, r, m) && member.room == r && room.access.Some?
    ensures AddsOnly(t, CreateWrites(t, r, room, m, member, ok1, ok2, ok3, ok4), r, m)
  {
    var t1 := if ok1 then RoomSaved(t, r, room) else t;
    var t2 := if ok2 && MaySaveMember(t1, m, member) then MemberSaved(t1, m, member) else t1;
    RoomAddsOnly(t, t, r, room, m);
    MemberAddsOnly(t, t1, r, m, member);
    LastWritesAddOnly(t, t2, r, room, m, ok3, ok4);
  }

  lemma LastWritesAddOnly(t: Tables, t2: Tables, r: Id, room: Room, m: Id, ok3: bool, ok4: bool)
    requires AddsOnly(t, t2, r, m) && room.access.Some?
    ensures var t3 := if room.monitoringKey.Some? && ok3 && r in t2.rooms
                      then MonitoringKeySaved(t2, r, room.monitoringKey.value) else t2;
            AddsOnly(t, if ok4 && MaySaveAccess(t3, r) then AccessSaved(t3, r, room.access.value) else t3, r, m)
  {
    var t3 := if room.monitoringKey.Some? && ok3 && r in t2.rooms
              then MonitoringKeySaved(t2, r, room.monitoringKey.value) else t2;
    KeyAddsOnly(t, t2, r, m, if room.monitoringKey.Some? then room.monitoringKey.value else "");
    AccessAddsOnly(t, t3, r, m, room.access.value);
  }

  lemma KeyAddsOnly(t: Tables, u: Tables, r: Id, m: Id, key: string)
    requires AddsOnly(t, u, r, m)
    ensures AddsOnly(t, MonitoringKeySaved(u, r, key), r, m)
  {
  }

  lemma AccessAddsOnly(t: Tables, u: Tables, r: Id, m: Id, access: Access)
    requires AddsOnly(t, u, r, m)
    ensures AddsOnly(t, AccessSaved(u, r, access), r, m)
  {
  }

  lemma StartAddsOnly(t: Tables, r: Id, m: Id)
    requires r !in t.rooms && r !in t.access && r !in t.monitoringKeys && m !in t.members && m !in t.proofs
    ensures AddsOnly(t, t, r, m)
  {
  }

  lemma RoomAddsOnly(t: Tables, u: Tables, r: Id, room: Room, m: Id)
    requires AddsOnly(t, u, r, m)
    ensures AddsOnly(t, RoomSaved(u, r, room), r, m)
  {
  }

  lemma MemberAddsOnly(t: Tables, u: Tables, r: Id, m: Id, member: Member)
    requires AddsOnly(t, u, r, m) && member.room == r
    ensures AddsOnly(t, MemberSaved(u, m, member), r, m)
  {
  }

  /** Whatever was refused, deleting the room afterwards leaves the tables as they were. */
  lemma CreateRollsBack(t: Tables, c: Core, r: Id, room: Room, m: Id, member: Member, ok1: bool, ok2: bool, ok3: bool,
                        ok4: bool)
    requires Inv(c) && Synced(t, c) && r !in c.rooms && m !in c.members && member.room == r && room.access.Some?
    ensures RoomDeleted(CreateWrites(t, r, room, m, member, ok1, ok2, ok3, ok4), r) == t
  {
    KeysAgree(t, c);
    var u := CreateWrites(t, r, room, m, member, ok1, ok2, ok3, ok4);
    CreateAddsOnly(t, c, r, room, m, member, ok1, ok2, ok3, ok4);
    forall x | x in t.members
      ensures t.members[x].room != r
    {
      assert MemberSynced(t, x, c.members[x]) && MemberOk(c, x);
    }
    UndoAdds(t, u, r, m);
  }

  lemma UndoAdds(t: Tables, u: Tables, r: Id, m: Id)
    requires AddsOnly(t, u, r, m) && r !in t.hybrid && r !in t.announcements
    requires forall x :: x in t.members ==> t.members[x].room != r
    requires t.proofs.Keys <= t.members.Keys
    ensures RoomDeleted(u, r) == t
  {
  }

  // ---- the object ----

  class Store {
    var tables: Tables

    constructor ()
      ensures tables == EMPTY
    {
      tables := EMPTY;
    }

    method SaveRoom(id: Id, r: Room, accepts: bool) returns (ok: bool)
      modifies this
      ensures ok == accepts && tables == if ok then RoomSaved(old(tables), id, r) else old(tables)
    {
      ok := accepts;
      if ok {
        tables := RoomSaved(tables, id, r);
      }
    }

    /** One transaction: the member row and the proof row, or neither. */
    method SaveMember(id: Id, m: Member, accepts: bool) returns (ok: bool)
      modifies this
      ensures ok <==> accepts && MaySaveMember(old(tables), id, m)
      ensures tables == if ok then MemberSaved(old(tables), id, m) else old(tables)
    {
      ok := accepts && MaySaveMember(tables, id, m);
      if ok {
        tables := MemberSaved(tables, id, m);
      }
    }

    method SaveAccess(id: Id, access: Access, accepts: bool) returns (ok: bool)
      modifies this
      ensures ok <==> accepts && MaySaveAccess(old(tables), id)
      ensures tables == if ok then AccessSaved(old(tables), id, access) else old(tables)
    {
      ok := accepts && MaySaveAccess(tables, id);
      if ok {
        tables := AccessSaved(tables, id, access);
      }
    }

    method SaveMonitoringKey(id: Id, key: string, accepts: bool) returns (ok: bool)
      modifies this
      ensures ok <==> accepts && id in old(tables).rooms
      ensures tables == if ok then MonitoringKeySaved(old(tables), id, key) else old(tables)
    {
      ok := accepts && id in tables.rooms;
      if ok {
        tables := MonitoringKeySaved(tables, id, key);
      }
    }

    method SaveHybrid(id: Id, enabled: bool, accepts: bool) returns (ok: bool)
      modifies this
      ensures ok <==> accepts && id in old(tables).rooms
      ensures tables == if ok then HybridSaved(old(tables), id, enabled) else old(tables)
    {
      ok := accepts && id in tables.rooms;
      if ok {
        tables := HybridSaved(tables, id, enabled);
      }
    }

    method SaveAnnouncements(id: Id, enabled: bool, accepts: bool) returns (ok: bool)
      modifies this
      ensures ok <==> accepts && id in old(tables).rooms
      ensures tables == if ok then AnnouncementsSaved(old(tables), id, enabled) else old(tables)
    {
      ok := accepts && id in tables.rooms;
      if ok {
        tables := AnnouncementsSaved(tables, id, enabled);
      }
    }

    method DeleteMember(id: Id)
      modifies this
      ensures tables == MemberDeleted(old(tables), id)
    {
      tables := MemberDeleted(tables, id);
    }

    method DeleteRoom(id: Id, accepts: bool)
      modifies this
      ensures tables == if accepts then RoomDeleted(old(tables), id) else old(tables)
    {
      if accepts {
        tables := RoomDeleted(tables, id);
      }
    }
  }
}
