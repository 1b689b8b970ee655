/** What the handlers answer and change, as functions and predicates of the state, and facts about their loops. */
module HandlerSpecs {
  import opened Collections
  import opened RoomState
  import opened RoomInvariant
  import opened RoomStore
  import opened RoomWrites
  import opened RateLimiter
  import opened Admission
  import opened LiveObjects

  /** What a handler answers; TooMany is 429, Failed 500. */
  datatype Status = Done | BadRequest | Unauthorized | Forbidden | NotFound | Conflict | Gone | TooMany | Failed

  lemma NoCalls(now: int)
    ensures Consistent(map[], map[], now)
  {
  }

  lemma PartitionDone(done: set<Id>, keys: set<Id>)
    requires Partition(done, {}, keys)
    ensures done == keys
  {
  }

  lemma PartitionStep(done: set<Id>, todo: set<Id>, keys: set<Id>, x: Id)
    requires Partition(done, todo, keys) && x in todo
    ensures Partition(done + {x}, todo - {x}, keys) && x in keys && x !in done
  {
  }

  /** A loop's keys: visited, and still to visit. */
  ghost predicate Partition(done: set<Id>, todo: set<Id>, keys: set<Id>) {
    forall x :: (x in keys <==> x in done || x in todo) && (x in todo ==> x !in done)
  }

  /** Entries went, none came or changed hands. */
  predicate Shrunk(now: map<Id, LiveMember>, before: map<Id, LiveMember>) {
    forall m :: m in now ==> m in before && now[m] == before[m]
  }

  lemma ShrunkValues(now: map<Id, LiveMember>, before: map<Id, LiveMember>)
    requires Shrunk(now, before)
    ensures now.Values <= before.Values
  {
  }

  /** A new room with its creator, under unused IDs. */
  ghost predicate Creatable(c: Core, r: Id, room: Room, m: Id, member: Member) {
    && r !in c.rooms && m !in c.members && (forall x :: x in c.rooms ==> c.rooms[x].host != m)
    && room.host == m && room.capacity >= 2 && room.hostDeadline.None? && room.emptyDeadline.None?
    && room.access.Some? && !room.hybridAudio && !room.announcements
    && member.room == r && member.isHost && member.canSpeak
  }

  lemma EstablishedGood(c: Core, t: Tables, r: Id, room: Room, m: Id, member: Member, ok1: bool, ok2: bool, ok3: bool,
                        ok4: bool)
    requires Good(c, t) && Creatable(c, r, room, m, member)
    ensures MaySaveMember(RoomSaved(t, r, room), m, member)
    ensures MaySaveAccess(MemberSaved(RoomSaved(t, r, room), m, member), r)
    ensures var u := CreateWrites(t, r, room, m, member, ok1, ok2, ok3, ok4);
            && (AllAccepted(room, ok1, ok2, ok3, ok4) ==> Good(Created(c, r, room, m, member), u))
            && RoomDeleted(u, r) == t
    ensures var d := Created(c, r, room, m, member); Core(d.rooms - {r}, d.members - {m}) == c
  {
    CreatedGood(c, t, r, room, m, member);
    CreateAccepted(c, t, r, room, m, member);
    CreateUndone(c, t, r, room, m, member, ok1, ok2, ok3, ok4);
    CreatedRemoved(c, r, room, m, member);
    if AllAccepted(room, ok1, ok2, ok3, ok4) {
      assert CreateWrites(t, r, room, m, member, ok1, ok2, ok3, ok4)
             == CreateWrites(t, r, room, m, member, true, true, true, true);
    }
  }

  lemma CreatedRemoved(c: Core, r: Id, room: Room, m: Id, member: Member)
    requires r !in c.rooms && m !in c.members
    ensures c.rooms[r := room] - {r} == c.rooms && c.members[m := member] - {m} == c.members
  {
  }

  lemma KeysCount<T>(m: map<Id, T>)
    ensures |m| == |m.Keys|
  {
  }

  predicate AllAccepted(room: Room, ok1: bool, ok2: bool, ok3: bool, ok4: bool) {
    ok1 && ok2 && (room.monitoringKey.Some? ==> ok3) && ok4
  }

  predicate RoomParameters(name: string, capacity: int, maximumParticipants: int, hostTimeout: int) {
    IsRoomName(name) && 2 <= capacity <= maximumParticipants && 1 <= hostTimeout <= 60
  }

  function Hosted(ms: Members, device: string): set<Id> {
    set m | m in ms && ms[m].device == device && ms[m].isHost
  }

  function CreateChecks(ip: string, device: string): seq<Check> {
    [Check("create:ip:" + ip, 10), Check("create:device:" + device, 3)]
  }

  ghost predicate MayCreate(c: Core, history: Log, maximumRooms: int, ip: string, device: string, now: int) {
    |c.rooms| < maximumRooms && Passes(history, CreateChecks(ip, device), now) && |Hosted(c.members, device)| < 3
  }

  ghost function CreateStatus(c: Core, history: Log, wellFormed: bool, maximumRooms: int, ip: string, device: string,
                              now: int, saved: bool): Status {
    if !wellFormed then BadRequest
    else if !MayCreate(c, history, maximumRooms, ip, device, now) then TooMany
    else if saved then Done else Failed
  }

  /** What joining changed: nothing, the record of the member the decision names, or one new record. */
  ghost predicate JoinOutcome(c: Core, d: Core, decision: Decision, joins: bool, m: Id, r: Id, nickname: string,
                              device: string, proof: Option<Digest>, token: Digest, now: int, joined: Id, order: int) {
    if !joins then d == c
    else if decision.Readmit? then
      joined == decision.member && joined in c.members && d == Rejoined(c, joined, nickname, token, now)
    else
      decision.Admit? && joined == m && IsNextOrder(c.members, r, order)
      && d == Joined(c, m, r, nickname, device, proof, token, order, now)
  }

  function JoinChecks(ip: string, device: string, r: Id): seq<Check> {
    [Check("join:ip:" + ip, 20), Check("join:device:" + device, 10), Check("join:room:" + r, 30)]
  }

  function Refusal(decision: Decision): Status {
    match decision
    case NoRoom => NotFound
    case WrongCode => Forbidden
    case ForeignDevice => Forbidden
    case _ => Conflict
  }

  /** The limits first, then the decision, then whether the record was installed. */
  ghost function JoinStatus(c: Core, history: Log, ip: string, r: Id, credential: Digest, device: string,
                            proof: Option<Digest>, now: int, installed: bool): Status {
    var decision := Decide(c, r, credential, device, proof);
    if !Passes(history, JoinChecks(ip, device, r), now) then TooMany
    else if !decision.Admit? && !decision.Readmit? then Refusal(decision)
    else if installed then Done else Failed
  }

  function Newcomer(r: Id, nickname: string, device: string, proof: Option<Digest>, token: Digest, order: int,
                    now: int): Member {
    Member(r, nickname, device, proof, token, true, order, false, Some(now + RETENTION), false)
  }

  /** Between one and eighty characters. */
  predicate IsRoomName(name: string) {
    0 < |name| <= 80
  }

  function Renamed(c: Core, r: Id, name: string): Core
    requires r in c.rooms
  {
    WithRoom(c, r, c.rooms[r].(name := name))
  }

  lemma RenamedBack(c: Core, r: Id, name: string)
    requires r in c.rooms
    ensures Renamed(Renamed(c, r, name), r, c.rooms[r].name) == c
  {
  }

  /** The caller names a member of the room and its current token. */
  predicate Presents(c: Core, m: Id, r: Id, token: Digest) {
    m in c.members && r in c.rooms && c.members[m].room == r && c.members[m].resumeToken == token
  }

  function ResumeChecks(m: Id): seq<Check> {
    [Check("resume:" + m, 20)]
  }

  function ResumeStatus(c: Core, history: Log, m: Id, r: Id, previous: Digest, now: int, grants: bool): Status {
    if !Presents(c, m, r, previous) then Unauthorized
    else if !MayResume(c, m, r, previous, now) then Gone
    else if !Passes(history, ResumeChecks(m), now) then TooMany
    else if grants then Done else Failed
  }

  lemma AbsentRoom(c: Core, r: Id)
    requires Inv(c) && r !in c.rooms
    ensures Deleted(c, r) == c
  {
    forall m | m in c.members
      ensures c.members[m].room != r
    {
      assert MemberOk(c, m);
    }
  }

  function PredecessorGone(d: Core, prior: Id): Core {
    if prior in d.members && !d.members[prior].connected then d.(members := d.members - {prior}) else d
  }

  function PredecessorDeleted(d: Core, t: Tables, prior: Id): Tables {
    if prior in d.members && !d.members[prior].connected then MemberDeleted(t, prior) else t
  }

  /** Moving the flag changes nobody's presence, so the offline test may come before or after. */
  lemma PromotedParts(c: Core, t: Tables, r: Id, next: Id)
    requires r in c.rooms && next in c.members
    ensures var d, prior := RoleMoved(c, r, c.rooms[r].host, next), c.rooms[r].host;
            && Promoted(c, r, next) == PredecessorGone(d, prior) && r in PredecessorGone(d, prior).rooms
            && PromoteWrites(c, t, r, next)
               == RoomSaved(PredecessorDeleted(d, MemberSaved(t, next, d.members[next]), prior), r,
                            PredecessorGone(d, prior).rooms[r])
  {
  }

  lemma RerolledNickname(ms: Members, prior: Id, next: Id)
    requires next in ms
    ensures next in Rerolled(ms, prior, next) && Rerolled(ms, prior, next)[next].nickname == ms[next].nickname
  {
  }

  lemma MutedBack(c: Core, m: Id, canSpeak: bool)
    requires m in c.members
    ensures Muted(Muted(c, m, canSpeak), m, c.members[m].canSpeak) == c
  {
  }
}
