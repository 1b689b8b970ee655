/** Rooms and members of the public server, and what each handler does to them.  Times are milliseconds. */
module RoomState {
  import opened Collections

  const MINUTE := 60_000
  const RETENTION := 30 * MINUTE

  type Id = string

  /** A SHA-256 digest, by what was hashed: a free constructor, so comparing digests compares preimages. */
  datatype Digest = Sha256(of: string)

  datatype Access = Access(salt: string, credential: Digest, wrappedKey: string)

  datatype Room = Room(
    name: string, host: Id, hostNickname: string, capacity: int, hostTimeout: int, createdAt: int,
    hostDeadline: Option<int>, emptyDeadline: Option<int>, hybridAudio: bool, announcements: bool,
    access: Option<Access>, monitoringKey: Option<string>)

  datatype Member = Member(
    room: Id, nickname: string, device: string, proof: Option<Digest>, resumeToken: Digest,
    canSpeak: bool, order: int, connected: bool, deadline: Option<int>, isHost: bool)

  type Rooms = map<Id, Room>
  type Members = map<Id, Member>

  datatype Core = Core(rooms: Rooms, members: Members)

  predicate Passed(deadline: Option<int>, now: int) {
    deadline.Some? && now > deadline.value
  }

  function OrElse(deadline: Option<int>, fallback: int): Option<int> {
    if deadline.None? then Some(fallback) else deadline
  }

  function HostWindow(r: Room, now: int): int {
    now + r.hostTimeout * MINUTE
  }

  function In(ms: Members, room: Id): set<Id> {
    set m | m in ms && ms[m].room == room
  }

  predicate AnyOnline(ms: Members, room: Id) {
    exists m :: m in ms && ms[m].room == room && ms[m].connected
  }

  /** The channels registered for an identity. */
  function ChannelsOf(channels: map<Id, set<nat>>, id: Id): set<nat> {
    if id in channels then channels[id] else {}
  }

  // ---- invariant ----

  predicate HostFlag(c: Core, m: Id)
    requires m in c.members
  {
    c.members[m].room in c.rooms && (c.members[m].isHost <==> c.rooms[c.members[m].room].host == m)
  }

  predicate MemberOk(c: Core, m: Id)
    requires m in c.members
  {
    HostFlag(c, m) && (c.members[m].isHost ==> c.members[m].canSpeak)
  }

  predicate DeadlinesOk(c: Core, r: Id)
    requires r in c.rooms
  {
    var room := c.rooms[r];
    && (room.host in c.members ==> c.members[room.host].room == r)
    && (room.hostDeadline.Some? && room.host in c.members ==> !c.members[room.host].connected)
    && (room.emptyDeadline.Some? ==> !AnyOnline(c.members, r))
  }

  predicate CapacityOk(c: Core, r: Id)
    requires r in c.rooms
  {
    c.rooms[r].capacity >= 2 && |In(c.members, r)| <= c.rooms[r].capacity
  }

  /** Two members of a room have different join orders, and share a device only if neither has a proof. */
  predicate PairOk(ms: Members, a: Id, b: Id)
    requires a in ms && b in ms
  {
    a != b && ms[a].room == ms[b].room ==>
      ms[a].order != ms[b].order && (ms[a].device == ms[b].device ==> ms[a].proof.None? && ms[b].proof.None?)
  }

  /** What every run keeps. */
  ghost predicate Inv(c: Core) {
    && (forall m {:trigger MemberOk(c, m)} :: m in c.members ==> MemberOk(c, m))
    && (forall r {:trigger DeadlinesOk(c, r)} :: r in c.rooms ==> DeadlinesOk(c, r))
    && (forall r {:trigger CapacityOk(c, r)} :: r in c.rooms ==> CapacityOk(c, r))
    && (forall a, b {:trigger PairOk(c.members, a, b)} :: a in c.members && b in c.members ==> PairOk(c.members, a, b))
  }

  // ---- creating and joining ----

  function NewRoom(host: Id, name: string, nickname: string, capacity: int, hostTimeout: int, now: int,
                   access: Access, monitoringKey: Option<string>): Room {
    Room(name, host, nickname, capacity, hostTimeout, now, None, None, false, false, Some(access), monitoringKey)
  }

  function Creator(r: Id, nickname: string, device: string, proof: Option<Digest>, token: Digest): Member {
    Member(r, nickname, device, proof, token, true, 1, false, None, true)
  }

  function Created(c: Core, r: Id, room: Room, m: Id, member: Member): Core {
    Core(c.rooms[r := room], c.members[m := member])
  }

  datatype Lookup = Fresh | Unbound | Mismatch | Found(member: Id)

  /** What the admission loop concludes when it stops at member m. */
  function Verdict(ms: Members, m: Id, proof: Option<Digest>): Lookup
    requires m in ms
  {
    if ms[m].proof.None? then Unbound else if ms[m].proof == proof then Found(m) else Mismatch
  }

  /** The loop stops at members of the room with this device, unless neither side has a proof. */
  predicate Stops(ms: Members, m: Id, r: Id, device: string, proof: Option<Digest>)
    requires m in ms
  {
    ms[m].room == r && ms[m].device == device && (ms[m].proof.Some? || proof.Some?)
  }

  /** One more than the largest join order of the room, starting at one. */
  predicate IsNextOrder(ms: Members, r: Id, order: int) {
    && order >= 1
    && (forall m :: m in ms && ms[m].room == r ==> ms[m].order < order)
    && (order > 1 ==> exists m :: m in ms && ms[m].room == r && ms[m].order == order - 1)
  }

  function Joined(c: Core, m: Id, r: Id, nickname: string, device: string, proof: Option<Digest>, token: Digest,
                  order: int, now: int): Core {
    c.(members :=
         c.members[m := Member(r, nickname, device, proof, token, true, order, false, Some(now + RETENTION), false)])
  }

  function Rejoined(c: Core, m: Id, nickname: string, token: Digest, now: int): Core
    requires m in c.members
  {
    c.(members := c.members[m := c.members[m].(nickname := nickname, resumeToken := token,
                                               deadline := Some(now + RETENTION))])
  }

  // ---- resuming and presence ----

  function ResumeDeadline(room: Room, member: Member): Option<int> {
    if member.isHost && room.hostDeadline.Some? then room.hostDeadline else member.deadline
  }

  predicate MayResume(c: Core, m: Id, r: Id, token: Digest, now: int) {
    && m in c.members && r in c.rooms && c.members[m].room == r && c.members[m].resumeToken == token
    && !Passed(ResumeDeadline(c.rooms[r], c.members[m]), now)
  }

  function Resumed(c: Core, m: Id, token: Digest, now: int): Core
    requires m in c.members && c.members[m].room in c.rooms
  {
    var r := c.members[m].room;
    var member, room := c.members[m].(resumeToken := token), c.rooms[r];
    if member.connected then c.(members := c.members[m := member])
    else Core(c.rooms[r := room.(hostDeadline := if member.isHost then OrElse(room.hostDeadline, HostWindow(room, now))
                                                 else room.hostDeadline)],
              c.members[m := member.(deadline := OrElse(member.deadline, now + RETENTION))])
  }

  function Online(c: Core, m: Id): Core
    requires m in c.members && c.members[m].room in c.rooms
  {
    var member := c.members[m];
    var room := c.rooms[member.room];
    Core(c.rooms[member.room := room.(hostDeadline := if member.isHost then None else room.hostDeadline,
                                      emptyDeadline := None)],
         c.members[m := member.(connected := true, deadline := None)])
  }

  function Offline(c: Core, m: Id, now: int): Core
    requires m in c.members && c.members[m].room in c.rooms
  {
    var member := c.members[m];
    var room := c.rooms[member.room];
    var members := c.members[m := member.(connected := false, deadline := Some(now + RETENTION))];
    Core(c.rooms[member.room := room.(
           hostDeadline := if member.isHost then OrElse(room.hostDeadline, HostWindow(room, now))
                           else room.hostDeadline,
           emptyDeadline := if AnyOnline(members, member.room) then room.emptyDeadline else Some(now + RETENTION))],
         members)
  }

  /** markConnected; busy says whether the identity still has a live channel. */
  function Marked(c: Core, m: Id, connected: bool, busy: bool, now: int): Core {
    if (!connected && busy) || m !in c.members || c.members[m].room !in c.rooms then c
    else if connected then Online(c, m)
    else Offline(c, m, now)
  }

  // ---- host and policy ----

  predicate ActsAsHost(c: Core, caller: Id, r: Id) {
    caller in c.members && c.members[caller].room == r && c.members[caller].isHost && r in c.rooms
      && c.rooms[r].host == caller
  }

  predicate MayMute(c: Core, r: Id, target: Id) {
    r in c.rooms && target in c.members && c.members[target].room == r && c.rooms[r].host != target
  }

  function Muted(c: Core, target: Id, canSpeak: bool): Core
    requires target in c.members
  {
    c.(members := c.members[target := c.members[target].(canSpeak := canSpeak)])
  }

  predicate MayReceiveRoom(c: Core, caller: Id, r: Id, target: Id) {
    target in c.members && target != caller && c.members[target].room == r && c.members[target].connected
  }

  /** The members after the role moved from prior, if there is one, to next. */
  function Rerolled(ms: Members, prior: Id, next: Id): Members
    requires next in ms
  {
    var demoted := if prior in ms then ms[prior := ms[prior].(isHost := false)] else ms;
    demoted[next := demoted[next].(isHost := true, canSpeak := true)]
  }

  function RoleMoved(c: Core, r: Id, prior: Id, next: Id): Core
    requires r in c.rooms && next in c.members
  {
    Core(c.rooms[r := c.rooms[r].(host := next, hostNickname := c.members[next].nickname, hostDeadline := None)],
         Rerolled(c.members, prior, next))
  }

  function HandedOver(c: Core, caller: Id, target: Id): Core
    requires caller in c.members && target in c.members && c.members[caller].room in c.rooms
  {
    RoleMoved(c, c.members[caller].room, caller, target)
  }

  /** Connected members of a room. */
  function Candidates(ms: Members, r: Id): set<Id> {
    set m | m in ms && ms[m].room == r && ms[m].connected
  }

  predicate IsLeast(ms: Members, s: set<Id>, next: Id)
    requires s <= ms.Keys
  {
    next in s && forall m :: m in s ==> ms[next].order <= ms[m].order
  }

  lemma {:induction false} LeastExists(ms: Members, s: set<Id>)
    requires s != {} && s <= ms.Keys
    ensures exists next :: IsLeast(ms, s, next)
  {
    var some :| some in s;
    var rest := s - {some};
    if rest == {} {
      assert s == {some};
      assert IsLeast(ms, s, some);
    } else {
      LeastExists(ms, rest);
      var other :| IsLeast(ms, rest, other);
      assert IsLeast(ms, s, if ms[other].order < ms[some].order then other else some);
    }
  }

  /** The connected member of least join order. */
  ghost function Successor(ms: Members, r: Id): (next: Id)
    requires Candidates(ms, r) != {}
    ensures IsLeast(ms, Candidates(ms, r), next)
  {
    LeastExists(ms, Candidates(ms, r));
    var next :| IsLeast(ms, Candidates(ms, r), next);
    next
  }

  /** The role moves from the room's host, who is dropped if offline, to next. */
  function Promoted(c: Core, r: Id, next: Id): Core
    requires r in c.rooms && next in c.members
  {
    var prior := c.rooms[r].host;
    var moved := RoleMoved(c, r, prior, next);
    if prior in c.members && !c.members[prior].connected then moved.(members := moved.members - {prior}) else moved
  }

  /** assignHostLocked. */
  ghost function Assigned(c: Core, r: Id): Core
    requires r in c.rooms
  {
    if Candidates(c.members, r) == {} then c else Promoted(c, r, Successor(c.members, r))
  }

  // ---- leaving and deleting ----

  function Deleted(c: Core, r: Id): Core {
    Core(c.rooms - {r}, map m | m in c.members && c.members[m].room != r :: c.members[m])
  }

  /** leaveMember: a leaving host is replaced if anyone is connected, and ends the room if it is the last one out. */
  ghost function Left(c: Core, m: Id): Core
    requires m in c.members
  {
    var r, wasHost := c.members[m].room, c.members[m].isHost;
    var without := c.(members := c.members - {m});
    var handed := if wasHost && r in c.rooms then Assigned(without, r) else without;
    if wasHost && In(handed.members, r) == {} then Deleted(handed, r) else handed
  }

  // ---- settings ----

  function WithRoom(c: Core, r: Id, room: Room): Core {
    c.(rooms := c.rooms[r := room])
  }

  // ---- restart ----

  /** What the database keeps of the state: everything but presence. */
  function Durable(c: Core): Core {
    c.(members := map m | m in c.members :: c.members[m].(connected := false))
  }

  /** New after load: everyone offline, deadlines filled in. */
  function Restarted(c: Core, now: int): Core {
    Core(map r | r in c.rooms ::
           c.rooms[r].(emptyDeadline := OrElse(c.rooms[r].emptyDeadline, now + RETENTION),
                       hostDeadline := if c.rooms[r].host in c.members
                                       then OrElse(c.rooms[r].hostDeadline, HostWindow(c.rooms[r], now))
                                       else c.rooms[r].hostDeadline),
         map m | m in c.members ::
           c.members[m].(connected := false, deadline := OrElse(c.members[m].deadline, now + RETENTION)))
  }

  // ---- sweeping, in closed form ----

  predicate Dead(c: Core, r: Id, now: int) {
    r in c.rooms && Passed(c.rooms[r].emptyDeadline, now)
  }

  /** A surviving room whose host timed out while somebody is online. */
  predicate Replaces(c: Core, r: Id, now: int) {
    r in c.rooms && !Dead(c, r, now) && Passed(c.rooms[r].hostDeadline, now) && Candidates(c.members, r) != {}
  }

  predicate Expired(m: Member, now: int) {
    !m.isHost && !m.connected && Passed(m.deadline, now)
  }

  /** Exactly the members a sweep removes. */
  predicate SweptAway(c: Core, m: Id, now: int)
    requires m in c.members
  {
    var member := c.members[m];
    Dead(c, member.room, now) || (Replaces(c, member.room, now) && c.rooms[member.room].host == m)
      || Expired(member, now)
  }

  ghost predicate Rises(c: Core, m: Id, now: int)
    requires m in c.members
  {
    Replaces(c, c.members[m].room, now) && Successor(c.members, c.members[m].room) == m
  }

  ghost function SweptRoom(c: Core, r: Id, now: int): Room
    requires r in c.rooms
  {
    if Replaces(c, r, now) then
      var next := Successor(c.members, r);
      c.rooms[r].(host := next, hostNickname := c.members[next].nickname, hostDeadline := None)
    else c.rooms[r]
  }

  ghost function SweptMember(c: Core, m: Id, now: int): Member
    requires m in c.members
  {
    if Rises(c, m, now) then c.members[m].(isHost := true, canSpeak := true) else c.members[m]
  }

  ghost function Swept(c: Core, now: int): Core {
    Core(map r | r in c.rooms && !Dead(c, r, now) :: SweptRoom(c, r, now),
         map m | m in c.members && !SweptAway(c, m, now) :: SweptMember(c, m, now))
  }
}
