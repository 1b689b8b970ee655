/**
 A creation that failed and whose rollback the database refused as well: which rows stay, and what the
 next start makes of them.
 */
module RoomRollback {
  import opened Collections
  import opened RoomState
  import opened RoomInvariant
  import opened RoomStore
  import opened RoomWrites

  /** The room as far as its rows were accepted. */
  function Kept(room: Room, ok3: bool, ok4: bool): Room {
    room.(access := if ok4 then room.access else None, monitoringKey := if ok3 then room.monitoringKey else None)
  }

  /** The state with that room, and its creator if that row was accepted. */
  function Leftover(c: Core, r: Id, room: Room, m: Id, member: Member, ok2: bool, ok3: bool, ok4: bool): Core {
    Core(c.rooms[r := Kept(room, ok3, ok4)], if ok2 then c.members[m := member] else c.members)
  }

  /** The accepted rows, added to the tables. */
  function Rows(t: Tables, r: Id, room: Room, m: Id, member: Member, ok2: bool, ok3: bool, ok4: bool): Tables
    requires room.access.Some?
  {
    Tables(t.rooms[r := RowOf(room)], if ok2 then t.members[m := MemberRowOf(member)] else t.members,
           if ok2 && member.proof.Some? then t.proofs[m := member.proof.value] else t.proofs,
           if ok4 then t.access[r := room.access.value] else t.access, t.hybrid, t.announcements,
           if ok3 && room.monitoringKey.Some? then t.monitoringKeys[r := room.monitoringKey.value]
           else t.monitoringKeys)
  }

  /** Without the room's row every later write is refused by a foreign key; with it, each stands for itself. */
  lemma WritesAreRows(t: Tables, r: Id, room: Room, m: Id, member: Member, ok1: bool, ok2: bool, ok3: bool, ok4: bool)
    requires r !in t.rooms && r !in t.access && m !in t.members && member.room == r && room.access.Some?
    ensures CreateWrites(t, r, room, m, member, ok1, ok2, ok3, ok4)
            == if ok1 then Rows(t, r, room, m, member, ok2, ok3, ok4) else t
  {
    var t1 := if ok1 then RoomSaved(t, r, room) else t;
    var t2 := if ok2 && MaySaveMember(t1, m, member) then MemberSaved(t1, m, member) else t1;
    assert ok1 ==> t1 == t.(rooms := t.rooms[r := RowOf(room)]);
    assert MaySaveMember(t1, m, member) <==> ok1;
    assert t2.rooms == t1.rooms && t2.access == t.access;
  }

  lemma RowsAgree(t: Tables, r: Id, room: Room, m: Id, member: Member, ok2: bool, ok3: bool, ok4: bool)
    requires room.access.Some?
    ensures var u := Rows(t, r, room, m, member, ok2, ok3, ok4);
            && (forall x :: x != r ==> AgreeAt(t, u, x))
            && (forall x :: x != m ==>
                  RoomStore.Lookup(t.members, x) == RoomStore.Lookup(u.members, x)
                  && RoomStore.Lookup(t.proofs, x) == RoomStore.Lookup(u.proofs, x))
  {
  }

  lemma RowsLeaveNoOrphans(t: Tables, c: Core, r: Id, room: Room, m: Id, member: Member, ok2: bool, ok3: bool,
                           ok4: bool)
    requires NoOrphans(t, c) && room.access.Some?
    ensures NoOrphans(Rows(t, r, room, m, member, ok2, ok3, ok4), Leftover(c, r, room, m, member, ok2, ok3, ok4))
  {
    var u, d := Rows(t, r, room, m, member, ok2, ok3, ok4), Leftover(c, r, room, m, member, ok2, ok3, ok4);
    forall x
      ensures NoOrphanAt(u, d, x)
    {
      assert NoOrphanAt(t, c, x);
    }
  }

  lemma NewRowsSync(t: Tables, c: Core, r: Id, room: Room, m: Id, member: Member, ok2: bool, ok3: bool, ok4: bool)
    requires NoOrphans(t, c) && r !in c.rooms && m !in c.members
    requires room.access.Some? && !room.hybridAudio && !room.announcements
    ensures var u := Rows(t, r, room, m, member, ok2, ok3, ok4);
            RoomSynced(u, r, Kept(room, ok3, ok4)) && (ok2 ==> MemberSynced(u, m, member))
  {
    KeysAgree(t, c);
  }

  lemma LeftoverSynced(t: Tables, c: Core, r: Id, room: Room, m: Id, member: Member, ok2: bool, ok3: bool, ok4: bool)
    requires Synced(t, c) && r !in c.rooms && m !in c.members
    requires room.access.Some? && !room.hybridAudio && !room.announcements
    ensures Synced(Rows(t, r, room, m, member, ok2, ok3, ok4), Leftover(c, r, room, m, member, ok2, ok3, ok4))
  {
    var u, d := Rows(t, r, room, m, member, ok2, ok3, ok4), Leftover(c, r, room, m, member, ok2, ok3, ok4);
    RowsAgree(t, r, room, m, member, ok2, ok3, ok4);
    RowsLeaveNoOrphans(t, c, r, room, m, member, ok2, ok3, ok4);
    NewRowsSync(t, c, r, room, m, member, ok2, ok3, ok4);
    CreateKeepsRows(t, u, c, r, m);
    forall x | x in d.rooms
      ensures RoomSynced(u, x, d.rooms[x])
    {
    }
    forall x | x in d.members
      ensures MemberSynced(u, x, d.members[x])
    {
    }
  }

  lemma LeftoverKeeps(c: Core, r: Id, room: Room, m: Id, member: Member, ok2: bool, ok3: bool, ok4: bool)
    requires Inv(c) && r !in c.rooms && m !in c.members && (forall x :: x in c.rooms ==> c.rooms[x].host != m)
    requires room.host == m && room.capacity >= 2 && room.hostDeadline.None? && room.emptyDeadline.None?
    requires member.room == r && member.isHost && member.canSpeak
    ensures Inv(Leftover(c, r, room, m, member, ok2, ok3, ok4))
  {
    var d := Leftover(c, r, room, m, member, ok2, ok3, ok4);
    if ok2 {
      CreatedKeeps(c, r, Kept(room, ok3, ok4), m, member);
      assert d == Created(c, r, Kept(room, ok3, ok4), m, member);
    } else {
      EmptyRoomKeeps(c, r, Kept(room, ok3, ok4));
    }
  }

  /** A room without members. */
  lemma EmptyRoomKeeps(c: Core, r: Id, room: Room)
    requires Inv(c) && r !in c.rooms && room.host !in c.members
    requires room.capacity >= 2 && room.emptyDeadline.None?
    ensures Inv(WithRoom(c, r, room))
  {
    var d := WithRoom(c, r, room);
    forall m | m in d.members
      ensures MemberOk(d, m) && d.members[m].room != r
    {
      assert MemberOk(c, m);
    }
    forall x | x in d.rooms
      ensures DeadlinesOk(d, x) && CapacityOk(d, x)
    {
      if x != r {
        assert DeadlinesOk(c, x) && CapacityOk(c, x);
      } else {
        assert In(d.members, r) == {};
      }
    }
    forall a, b | a in d.members && b in d.members
      ensures PairOk(d.members, a, b)
    {
      assert PairOk(c.members, a, b);
    }
  }

  /**
   The tables are as before exactly when saveRoom was refused; only then are they in step with the memory
   that was taken back.  Otherwise they are in step with the state that has the room, so that a start on
   them brings the room back, with its creator if that row was accepted.
   */
  lemma RefusedRollback(c: Core, t: Tables, r: Id, room: Room, m: Id, member: Member, ok1: bool, ok2: bool, ok3: bool,
                        ok4: bool)
    requires Good(c, t) && r !in c.rooms && m !in c.members && (forall x :: x in c.rooms ==> c.rooms[x].host != m)
    requires room.host == m && room.capacity >= 2 && room.hostDeadline.None? && room.emptyDeadline.None?
    requires room.access.Some? && !room.hybridAudio && !room.announcements
    requires member.room == r && member.isHost && member.canSpeak
    ensures var u := CreateWrites(t, r, room, m, member, ok1, ok2, ok3, ok4);
            && (u == t <==> !ok1) && (Synced(u, c) <==> !ok1)
            && (ok1 ==> Good(Leftover(c, r, room, m, member, ok2, ok3, ok4), u))
  {
    KeysAgree(t, c);
    WritesAreRows(t, r, room, m, member, ok1, ok2, ok3, ok4);
    if ok1 {
      LeftoverKeeps(c, r, room, m, member, ok2, ok3, ok4);
      LeftoverSynced(t, c, r, room, m, member, ok2, ok3, ok4);
      NotSynced(Rows(t, r, room, m, member, ok2, ok3, ok4), c, r);
    }
  }

  lemma NotSynced(u: Tables, c: Core, r: Id)
    requires r in u.rooms && r !in c.rooms
    ensures !Synced(u, c)
  {
    assert !NoOrphanAt(u, c, r);
  }
}
