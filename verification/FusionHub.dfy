/** The fusion directory: signed snapshots with monotone revisions, tombstones and pruning by time (milliseconds). */
module FusionHub {
  import opened Collections
  import opened Bytes
  import FusionRelay
  import FusionRoster

  const LEASE := 1_800_000
  const MAX_ROOMS := 256
  const AHEAD := 60_000
  const DYING := 3_000
  const BEHIND := 90_000

  type RoomId = seq<byte>

  /** An accepted snapshot: the signed bytes decide equality, the rest was parsed from them. */
  datatype Upload = Upload(id: RoomId, manifest: seq<byte>, state: seq<byte>, revision: nat, ended: bool, parsedAt: int)

  /** The directory's record of a room; relay is what an uploaded replacement inherits. */
  datatype Record = Record(manifest: seq<byte>, state: seq<byte>, revision: nat, ended: bool, updated: int,
                           relay: FusionRelay.Relay)

  type Rooms = map<RoomId, Record>

  datatype Verdict = Accepted | Conflict | Full

  function Pruned(rooms: Rooms, now: int): Rooms {
    map id | id in rooms && now - rooms[id].updated <= LEASE :: rooms[id]
  }

  function Judge(rooms: Rooms, u: Upload): Verdict {
    if u.id in rooms then
      var prior := rooms[u.id];
      if prior.ended || prior.manifest != u.manifest || u.revision < prior.revision
         || (u.revision == prior.revision && prior.state != u.state) then Conflict
      else Accepted
    else if |rooms| >= MAX_ROOMS then Full
    else Accepted
  }

  function Replacement(rooms: Rooms, u: Upload): Record {
    Record(u.manifest, u.state, u.revision, u.ended, u.parsedAt,
           if u.id in rooms then rooms[u.id].relay else FusionRelay.EMPTY)
  }

  /** syncFusion from the moment it holds the lock. */
  function Synced(rooms: Rooms, u: Upload, now: int): Rooms {
    var live := Pruned(rooms, now);
    if Judge(live, u) == Accepted then live[u.id := Replacement(live, u)] else live
  }

  /** A packet of an authenticated peer renews the lease of a room that has not ended. */
  function Renewed(rooms: Rooms, id: RoomId, readAt: int): Rooms {
    if id in rooms && !rooms[id].ended then rooms[id := rooms[id].(updated := readAt)] else rooms
  }

  /**
   A packet whose reader read the clock at readAt and held the lock at time at: an unknown room and one dissolved
   for more than three seconds end the connection, any other one relays, and authenticated packets renew the lease.
   */
  function Handled(rooms: Rooms, id: RoomId, authenticated: bool, sender: FusionRelay.PeerId,
                   packet: FusionRelay.Packet, readAt: int, at: int): Rooms {
    if id !in rooms || (rooms[id].ended && readAt - rooms[id].updated > DYING) then rooms
    else
      var live := if authenticated then Renewed(rooms, id, readAt) else rooms;
      live[id := live[id].(relay := FusionRelay.Relayed(live[id].relay, sender, packet, readAt, at))]
  }

  // ---- runs ----

  datatype Accept = Accept(id: RoomId, revision: nat, ended: bool)

  datatype Hub = Hub(rooms: Rooms, accepted: seq<Accept>, clock: int)

  const START := Hub(map[], [], 0)

  datatype Event =
    | Sync(upload: Upload, at: int)              // an upload obtains the lock at this time
    | List(at: int)                              // a listing prunes
    // a packet of a connection's reader obtains the lock
    | Packet(id: RoomId, authenticated: bool, sender: FusionRelay.PeerId, packet: FusionRelay.Packet, readAt: int,
             at: int)
    | Connection(id: RoomId, move: FusionRelay.Event) // a connection comes, goes, is cancelled, or its writer moves

  /** An upload is what parseFusion accepted, at the time it read the clock. */
  predicate Accepts(o: FusionRoster.Oracles, u: Upload) {
    var parsed := FusionRoster.Parsed(o, u.id, u.manifest, u.state, u.parsedAt);
    parsed.Ok? && parsed.value.revision == u.revision && parsed.value.ended == u.ended
  }

  /**
   uploadWait and packetWait bound the time between reading the clock and holding the lock.
   The clock is between 1970 and the end of Go's unsigned milliseconds.
   */
  predicate Possible(o: FusionRoster.Oracles, uploadWait: nat, packetWait: nat, h: Hub, e: Event) {
    match e
    case Sync(u, at) =>
      && h.clock <= at && at - uploadWait <= u.parsedAt <= at
      && BEHIND <= u.parsedAt && u.parsedAt + AHEAD < 0x1_0000_0000_0000_0000
      && Accepts(o, u)
    case List(at) => h.clock <= at
    case Packet(_, _, _, _, readAt, at) => h.clock <= at && at - packetWait <= readAt <= at
    case Connection(id, move) =>
      && id in h.rooms && !move.Broadcast? && (move.Join? ==> !h.rooms[id].ended)
      && FusionRelay.Possible(0, h.rooms[id].relay, move)
  }

  function Next(h: Hub, e: Event): Hub {
    match e
    case Sync(u, at) =>
      Hub(Synced(h.rooms, u, at),
          if Judge(Pruned(h.rooms, at), u) == Accepted then h.accepted + [Accept(u.id, u.revision, u.ended)]
          else h.accepted,
          at)
    case List(at) => h.(rooms := Pruned(h.rooms, at), clock := at)
    case Packet(id, authenticated, sender, packet, readAt, at) =>
      h.(rooms := Handled(h.rooms, id, authenticated, sender, packet, readAt, at), clock := at)
    case Connection(id, move) =>
      if id in h.rooms && FusionRelay.Possible(0, h.rooms[id].relay, move) then
        h.(rooms := h.rooms[id := h.rooms[id].(relay := FusionRelay.Next(0, h.rooms[id].relay, move))])
      else h
  }

  predicate IsRun(o: FusionRoster.Oracles, uploadWait: nat, packetWait: nat, run: seq<Event>) {
    run == [] ||
    (IsRun(o, uploadWait, packetWait, run[..|run| - 1])
     && Possible(o, uploadWait, packetWait, After(run[..|run| - 1]), run[|run| - 1]))
  }

  function After(run: seq<Event>): Hub {
    if run == [] then START else Next(After(run[..|run| - 1]), run[|run| - 1])
  }

  /** In the order of acceptance no room's revision falls, and after a dissolution it rises. */
  ghost predicate Monotone(log: seq<Accept>) {
    forall i, j :: 0 <= i < j < |log| && log[i].id == log[j].id ==>
      log[i].revision <= log[j].revision && (log[i].ended ==> log[i].revision < log[j].revision)
  }

  /** The last acceptance of a room in the log. */
  function LastOf(log: seq<Accept>, id: RoomId): (i: int)
    ensures -1 <= i < |log|
    ensures i >= 0 ==> log[i].id == id
    ensures forall j :: i < j < |log| ==> log[j].id != id
  {
    if log == [] then -1
    else if log[|log| - 1].id == id then |log| - 1
    else LastOf(log[..|log| - 1], id)
  }

  /** How far a record's lease may lag behind the snapshot it was given for. */
  function Lag(packetWait: nat, ended: bool): nat {
    if ended then 0 else packetWait
  }

  /**
   A present record is its room's last acceptance, not much older than its lease; an absent one was accepted long ago.
   */
  predicate Dated(packetWait: nat, h: Hub, id: RoomId) {
    var i := LastOf(h.accepted, id);
    if id in h.rooms then
      var r := h.rooms[id];
      i >= 0 && h.accepted[i] == Accept(id, r.revision, r.ended)
      && r.revision <= r.updated + AHEAD + Lag(packetWait, r.ended)
      && r.revision <= h.clock + AHEAD
    else
      i >= 0 ==> h.accepted[i].revision < h.clock - LEASE + AHEAD + Lag(packetWait, h.accepted[i].ended)
  }

  ghost predicate AllDated(packetWait: nat, h: Hub) {
    forall id :: Dated(packetWait, h, id)
  }

  /** The waits under which revisions are monotone: upload and packet wait together at most 27.5 minutes. */
  predicate ShortWaits(uploadWait: nat, packetWait: nat) {
    uploadWait + packetWait <= LEASE - AHEAD - BEHIND + 1 && uploadWait <= LEASE - AHEAD - BEHIND
  }

  lemma TimelyBounds(revision: nat, parsedAt: int)
    requires BEHIND <= parsedAt && parsedAt + AHEAD < 0x1_0000_0000_0000_0000
    ensures FusionRoster.Timely(revision, parsedAt) <==> parsedAt - 90_000 <= revision <= parsedAt + 60_000
  {
  }

  lemma AcceptedIsTimely(o: FusionRoster.Oracles, u: Upload)
    requires Accepts(o, u)
    ensures FusionRoster.Timely(u.revision, u.parsedAt)
  {
    FusionRoster.AcceptedIsEncoding(o, u.id, u.manifest, u.state, u.parsedAt);
  }

  lemma PruneDated(packetWait: nat, h: Hub, at: int)
    requires AllDated(packetWait, h) && h.clock <= at
    ensures AllDated(packetWait, h.(rooms := Pruned(h.rooms, at), clock := at))
  {
    var g := h.(rooms := Pruned(h.rooms, at), clock := at);
    forall id
      ensures Dated(packetWait, g, id)
    {
      assert Dated(packetWait, h, id);
    }
  }

  lemma LastOfAppend(log: seq<Accept>, a: Accept, id: RoomId)
    ensures LastOf(log + [a], id) == if a.id == id then |log| else LastOf(log, id)
  {
  }

  /** An accepted upload is at or above its room's last acceptance, and above a dissolution. */
  lemma AcceptIsAbove(o: FusionRoster.Oracles, uploadWait: nat, packetWait: nat, h: Hub, u: Upload, at: int)
    requires ShortWaits(uploadWait, packetWait) && AllDated(packetWait, h)
      && Possible(o, uploadWait, packetWait, h, Sync(u, at))
    requires Judge(Pruned(h.rooms, at), u) == Accepted && LastOf(h.accepted, u.id) >= 0
    ensures var last := h.accepted[LastOf(h.accepted, u.id)];
            last.revision <= u.revision && (last.ended ==> last.revision < u.revision)
  {
    AcceptedIsTimely(o, u);
    TimelyBounds(u.revision, u.parsedAt);
    PruneDated(packetWait, h, at);
    assert Dated(packetWait, h.(rooms := Pruned(h.rooms, at), clock := at), u.id);
  }

  lemma MonotoneAppend(log: seq<Accept>, a: Accept)
    requires Monotone(log)
    requires LastOf(log, a.id) >= 0 ==>
      var last := log[LastOf(log, a.id)];
      last.revision <= a.revision && (last.ended ==> last.revision < a.revision)
    ensures Monotone(log + [a])
  {
  }

  lemma SyncDated(o: FusionRoster.Oracles, uploadWait: nat, packetWait: nat, h: Hub, u: Upload, at: int)
    requires AllDated(packetWait, h) && Possible(o, uploadWait, packetWait, h, Sync(u, at))
    ensures AllDated(packetWait, Next(h, Sync(u, at)))
  {
    var g := Next(h, Sync(u, at));
    AcceptedIsTimely(o, u);
    TimelyBounds(u.revision, u.parsedAt);
    PruneDated(packetWait, h, at);
    var p := h.(rooms := Pruned(h.rooms, at), clock := at);
    forall id
      ensures Dated(packetWait, g, id)
    {
      assert Dated(packetWait, p, id);
      LastOfAppend(h.accepted, Accept(u.id, u.revision, u.ended), id);
    }
  }

  lemma PacketDated(o: FusionRoster.Oracles, packetWait: nat, uploadWait: nat, h: Hub, e: Event)
    requires AllDated(packetWait, h) && e.Packet? && Possible(o, uploadWait, packetWait, h, e)
    ensures AllDated(packetWait, Next(h, e))
  {
    forall id
      ensures Dated(packetWait, Next(h, e), id)
    {
      assert Dated(packetWait, h, id);
    }
  }

  lemma ConnectionDated(packetWait: nat, h: Hub, e: Event)
    requires AllDated(packetWait, h) && e.Connection?
    ensures AllDated(packetWait, Next(h, e))
  {
    forall id
      ensures Dated(packetWait, Next(h, e), id)
    {
      assert Dated(packetWait, h, id);
    }
  }

  lemma {:induction false} RunMonotone(o: FusionRoster.Oracles, uploadWait: nat, packetWait: nat, run: seq<Event>)
    requires ShortWaits(uploadWait, packetWait) && IsRun(o, uploadWait, packetWait, run)
    ensures Monotone(After(run).accepted) && AllDated(packetWait, After(run))
  {
    if run != [] {
      var h, e := After(run[..|run| - 1]), run[|run| - 1];
      RunMonotone(o, uploadWait, packetWait, run[..|run| - 1]);
      match e
      case Sync(u, at) =>
        SyncDated(o, uploadWait, packetWait, h, u, at);
        if Judge(Pruned(h.rooms, at), u) == Accepted {
          if LastOf(h.accepted, u.id) >= 0 {
            AcceptIsAbove(o, uploadWait, packetWait, h, u, at);
          }
          MonotoneAppend(h.accepted, Accept(u.id, u.revision, u.ended));
        }
      case List(at) => PruneDated(packetWait, h, at);
      case Packet(_, _, _, _, _, _) => PacketDated(o, packetWait, uploadWait, h, e);
      case Connection(_, _) => ConnectionDated(packetWait, h, e);
    }
  }

  /**
   With waits that short, in every run: the accepted revisions of a room never decrease,
   across pruning and re-creation too, and after a dissolution they are strictly higher.
   */
  lemma RevisionsNeverFall(o: FusionRoster.Oracles, uploadWait: nat, packetWait: nat, run: seq<Event>, i: nat, j: nat)
    requires ShortWaits(uploadWait, packetWait) && IsRun(o, uploadWait, packetWait, run)
    requires i < j < |After(run).accepted| && After(run).accepted[i].id == After(run).accepted[j].id
    ensures After(run).accepted[i].revision <= After(run).accepted[j].revision
    ensures After(run).accepted[i].ended ==> After(run).accepted[i].revision < After(run).accepted[j].revision
  {
    RunMonotone(o, uploadWait, packetWait, run);
  }

  // ---- longer waits break it ----

  /** A run of one event, and a run with one event more. */
  lemma RunExtend(o: FusionRoster.Oracles, uploadWait: nat, packetWait: nat, run: seq<Event>, e: Event)
    requires IsRun(o, uploadWait, packetWait, run) && Possible(o, uploadWait, packetWait, After(run), e)
    ensures IsRun(o, uploadWait, packetWait, run + [e]) && After(run + [e]) == Next(After(run), e)
  {
  }

  type Signer = seq<byte> -> seq<byte>

  /** The creator of a room can sign whatever it likes; the empty string is UTF-8. */
  ghost predicate CanSign(o: FusionRoster.Oracles, sign: Signer, id: RoomId) {
    && |id| == 32 && o.utf8([])
    && forall message: seq<byte> {:trigger sign(message)} ::
         |sign(message)| == FusionRoster.SIGNATURE && o.verify(id, message, sign(message))
  }

  /** Such oracles exist, so the runs below do. */
  lemma SomeoneCanSign(id: RoomId) returns (o: FusionRoster.Oracles, sign: Signer)
    requires |id| == 32
    ensures CanSign(o, sign, id)
  {
    o := FusionRoster.Oracles((key, message, signature) => |signature| == FusionRoster.SIGNATURE, text => true);
    sign := message => seq(FusionRoster.SIGNATURE, i => 0);
  }

  /** An unnamed room whose only member is its creator. */
  function Roster(id: RoomId, revision: nat, ended: bool): FusionRoster.Snapshot {
    FusionRoster.Snapshot(id, seq(32, i => 0), [], revision, ended, [FusionRoster.Entry(1, seq(16, i => 0), [])])
  }

  /** The signed upload of a snapshot. */
  function Signed(sign: Signer, s: FusionRoster.Snapshot, parsedAt: int): Upload
    requires s.revision < Pow256(8) && |s.members| < 256
    requires forall i :: 0 <= i < |s.members| ==> 0 <= s.members[i].id < 256 && |s.members[i].nickname| < 256
  {
    var manifest, state := FusionRoster.EncodeManifest(s), FusionRoster.EncodeState(s);
    Upload(s.key, manifest + sign(manifest), state + sign([2] + s.key + state), s.revision, s.ended, parsedAt)
  }

  lemma EightBytes()
    ensures Pow256(8) == 0x1_0000_0000_0000_0000
  {
  }

  lemma RosterOk(o: FusionRoster.Oracles, id: RoomId, revision: nat, ended: bool)
    requires |id| == 32 && o.utf8([]) && revision < Pow256(8)
    ensures FusionRoster.WellFormed(o, Roster(id, revision, ended))
  {
    var s := Roster(id, revision, ended);
    assert s.members[0] in s.members && s.members[1..] == [];
    assert FusionRoster.EntriesOk(o, s.members, {}, {});
  }

  /** Within the window there is such an upload, and it is accepted. */
  lemma SignedIsAccepted(o: FusionRoster.Oracles, sign: Signer, id: RoomId, revision: nat, ended: bool, parsedAt: int)
    returns (u: Upload)
    requires CanSign(o, sign, id) && BEHIND <= parsedAt && parsedAt + AHEAD < 0x1_0000_0000_0000_0000
    requires parsedAt - BEHIND <= revision <= parsedAt + AHEAD
    ensures Accepts(o, u) && u.id == id && u.revision == revision && u.ended == ended && u.parsedAt == parsedAt
  {
    EightBytes();
    TimelyBounds(revision, parsedAt);
    RosterOk(o, id, revision, ended);
    var s := Roster(id, revision, ended);
    u := Signed(sign, s, parsedAt);
    var manifest, state := FusionRoster.EncodeManifest(s), FusionRoster.EncodeState(s);
    FusionRoster.RoundTrip(o, s, sign(manifest), sign([2] + id + state), parsedAt);
  }

  /** A first upload enters an empty directory. */
  lemma FirstSync(u: Upload, t: int)
    ensures var r := Record(u.manifest, u.state, u.revision, u.ended, u.parsedAt, FusionRelay.EMPTY);
            Next(START, Sync(u, t)) == Hub(map[u.id := r], [Accept(u.id, u.revision, u.ended)], t)
  {
    assert Pruned(map[], t) == map[];
  }

  /** An upload that finds the only record's lease expired is accepted whatever that record said. */
  lemma LateSync(h: Hub, r: Record, u: Upload, at: int)
    requires h.rooms == map[u.id := r] && at - r.updated > LEASE
    ensures Next(h, Sync(u, at)).accepted == h.accepted + [Accept(u.id, u.revision, u.ended)]
  {
    assert Pruned(h.rooms, at) == map[];
  }

  /** After a first upload at time t. */
  lemma FirstUpload(o: FusionRoster.Oracles, sign: Signer, uploadWait: nat, packetWait: nat, id: RoomId, ended: bool,
                    t: int)
    returns (run: seq<Event>, r: Record)
    requires CanSign(o, sign, id) && t >= BEHIND && t + AHEAD < 0x1_0000_0000_0000_0000
    ensures IsRun(o, uploadWait, packetWait, run) && r.updated == t
    ensures After(run) == Hub(map[id := r], [Accept(id, t + AHEAD, ended)], t) && r.ended == ended
  {
    var u := SignedIsAccepted(o, sign, id, t + AHEAD, ended, t);
    FirstSync(u, t);
    RunExtend(o, uploadWait, packetWait, [], Sync(u, t));
    run := [] + [Sync(u, t)];
    r := Record(u.manifest, u.state, u.revision, u.ended, t, FusionRelay.EMPTY);
  }

  /** A second upload, parsed wait before it obtains the lock, after the only record's lease ran out. */
  lemma LateUpload(o: FusionRoster.Oracles, sign: Signer, uploadWait: nat, packetWait: nat, run: seq<Event>, r: Record,
                   id: RoomId, wait: nat, at: int)
    returns (longer: seq<Event>)
    requires CanSign(o, sign, id) && IsRun(o, uploadWait, packetWait, run) && After(run).rooms == map[id := r]
    requires wait <= uploadWait && After(run).clock <= at && at - r.updated > LEASE
    requires at - wait >= BEHIND && at + AHEAD < 0x1_0000_0000_0000_0000
    ensures IsRun(o, uploadWait, packetWait, longer)
    ensures After(longer).accepted == After(run).accepted + [Accept(id, at - wait - BEHIND, false)]
  {
    var u := SignedIsAccepted(o, sign, id, at - wait - BEHIND, false, at - wait);
    LateSync(After(run), r, u, at);
    RunExtend(o, uploadWait, packetWait, run, Sync(u, at));
    longer := run + [Sync(u, at)];
  }

  /**
   Whenever the waits are longer, some run of properly signed uploads accepts a revision that falls,
   or does not rise after a dissolution.
   */
  lemma LongWaitsRegress(o: FusionRoster.Oracles, sign: Signer, uploadWait: nat, packetWait: nat, id: RoomId)
    returns (run: seq<Event>)
    requires CanSign(o, sign, id) && !ShortWaits(uploadWait, packetWait)
    ensures IsRun(o, uploadWait, packetWait, run) && !Monotone(After(run).accepted)
  {
    if uploadWait > LEASE - AHEAD - BEHIND {
      run := LongUploadRegresses(o, sign, uploadWait, packetWait, id);
    } else {
      run := LongPacketRegresses(o, sign, uploadWait, packetWait, id);
    }
  }

  /** An upload that waited longer than 27.5 minutes follows a dissolution it does not rise above. */
  lemma LongUploadRegresses(o: FusionRoster.Oracles, sign: Signer, uploadWait: nat, packetWait: nat, id: RoomId)
    returns (run: seq<Event>)
    requires CanSign(o, sign, id) && uploadWait > LEASE - AHEAD - BEHIND
    ensures IsRun(o, uploadWait, packetWait, run) && !Monotone(After(run).accepted)
  {
    var t, wait := 10 * LEASE, LEASE - AHEAD - BEHIND + 1;
    var first, r := FirstUpload(o, sign, uploadWait, packetWait, id, true, t);
    run := LateUpload(o, sign, uploadWait, packetWait, first, r, id, wait, t + LEASE + 1);
    assert After(run).accepted == [Accept(id, t + AHEAD, true), Accept(id, t + LEASE + 1 - wait - BEHIND, false)];
    assert After(run).accepted[0].id == After(run).accepted[1].id;
  }

  /** A packet that waited moves the lease back by as much, and the room is pruned that much earlier. */
  lemma LongPacketRegresses(o: FusionRoster.Oracles, sign: Signer, uploadWait: nat, packetWait: nat, id: RoomId)
    returns (run: seq<Event>)
    requires CanSign(o, sign, id) && uploadWait <= LEASE - AHEAD - BEHIND && !ShortWaits(uploadWait, packetWait)
    ensures IsRun(o, uploadWait, packetWait, run) && !Monotone(After(run).accepted)
  {
    var t, lag := 10 * LEASE, LEASE - AHEAD - BEHIND + 2 - uploadWait;
    var first, accepted := FirstUpload(o, sign, uploadWait, packetWait, id, false, t);
    var packet := Packet(id, true, 0, [], t - lag, t);
    RunExtend(o, uploadWait, packetWait, first, packet);
    var renewed := first + [packet];
    var r := accepted.(updated := t - lag, relay := FusionRelay.Relayed(accepted.relay, 0, [], t - lag, t));
    assert After(renewed).rooms == map[id := r];
    run := LateUpload(o, sign, uploadWait, packetWait, renewed, r, id, uploadWait, t - lag + LEASE + 1);
    assert After(run).accepted == [Accept(id, t + AHEAD, false),
                                   Accept(id, t - lag + LEASE + 1 - uploadWait - BEHIND, false)];
    assert After(run).accepted[0].id == After(run).accepted[1].id;
  }

  // ---- leases over runs ----

  /** A record goes only by pruning, half an hour after its upload or its last authenticated packet. */
  lemma RecordGoes(o: FusionRoster.Oracles, uploadWait: nat, packetWait: nat, h: Hub, e: Event, id: RoomId)
    requires Possible(o, uploadWait, packetWait, h, e) && id in h.rooms && id !in Next(h, e).rooms
    ensures (e.Sync? || e.List?) && e.at - h.rooms[id].updated > LEASE
  {
  }

  /** The room is in the directory after i events. */
  predicate Listed(run: seq<Event>, i: nat, id: RoomId) {
    i <= |run| && id in After(run[..i]).rooms
  }

  /** The event that removed a record by then. */
  ghost predicate Expires(run: seq<Event>, i: nat, id: RoomId)
    requires i < |run|
  {
    var h := After(run[..i]);
    (run[i].Sync? || run[i].List?) && id in h.rooms && run[i].at - h.rooms[id].updated > LEASE
  }

  /** Every event of a run was possible where it happened. */
  lemma {:induction false} RunStep(o: FusionRoster.Oracles, uploadWait: nat, packetWait: nat, run: seq<Event>, i: nat)
    requires IsRun(o, uploadWait, packetWait, run) && i < |run|
    ensures Possible(o, uploadWait, packetWait, After(run[..i]), run[i])
    ensures After(run[..i + 1]) == Next(After(run[..i]), run[i])
  {
    var shorter := run[..|run| - 1];
    assert run[..i + 1][..i] == run[..i];
    if i < |run| - 1 {
      RunStep(o, uploadWait, packetWait, shorter, i);
      assert shorter[..i] == run[..i] && shorter[..i + 1] == run[..i + 1];
    }
  }

  lemma ExpiresAt(o: FusionRoster.Oracles, uploadWait: nat, packetWait: nat, run: seq<Event>, i: nat, id: RoomId)
    requires IsRun(o, uploadWait, packetWait, run) && i < |run|
    requires Listed(run, i, id) && !Listed(run, i + 1, id)
    ensures Expires(run, i, id)
  {
    RunStep(o, uploadWait, packetWait, run, i);
    RecordGoes(o, uploadWait, packetWait, After(run[..i]), run[i], id);
  }

  /** In every run a room that was there and is not any more was silent for half an hour in between. */
  lemma GoesOnlySilent(o: FusionRoster.Oracles, uploadWait: nat, packetWait: nat, run: seq<Event>, n: nat, k: nat,
                       id: RoomId) returns (i: nat)
    requires IsRun(o, uploadWait, packetWait, run) && n < k <= |run|
    requires Listed(run, n, id) && !Listed(run, k, id)
    ensures n <= i < k && Expires(run, i, id)
  {
    i := LastTime((j: nat) => Listed(run, j, id), n, k);
    ExpiresAt(o, uploadWait, packetWait, run, i, id);
  }

  // ---- dissolution ----

  /** The record of a dissolved room; connections may still go. */
  predicate Tombstone(h: Hub, id: RoomId, r: Record) {
    r.ended && id in h.rooms && h.rooms[id].(relay := r.relay) == r
  }

  /** Within its half hour a tombstone survives every step: no upload replaces it and no packet prolongs it. */
  lemma TombstoneStep(o: FusionRoster.Oracles, uploadWait: nat, packetWait: nat, h: Hub, e: Event, id: RoomId,
                      r: Record)
    requires Possible(o, uploadWait, packetWait, h, e) && Tombstone(h, id, r)
    requires Next(h, e).clock - r.updated <= LEASE
    ensures Tombstone(Next(h, e), id, r)
  {
    if e.Sync? {
      assert id in Pruned(h.rooms, e.at);
    } else if e.List? {
      assert id in Pruned(h.rooms, e.at);
    }
  }

  /**
   In every run, from a dissolution on and for half an hour after its upload: the room stays dissolved,
   with the same manifest, state and revision, whatever uploads, packets and listings come.
   */
  lemma {:induction false} DissolutionStands(o: FusionRoster.Oracles, uploadWait: nat, packetWait: nat, run: seq<Event>,
                                             n: nat, id: RoomId, r: Record)
    requires IsRun(o, uploadWait, packetWait, run) && n <= |run| && Tombstone(After(run[..n]), id, r)
    requires After(run).clock - r.updated <= LEASE
    ensures Tombstone(After(run), id, r)
  {
    if n == |run| {
      assert run[..n] == run;
    } else {
      var shorter := run[..|run| - 1];
      assert shorter[..n] == run[..n];
      ClockStep(After(shorter), run[|run| - 1], o, uploadWait, packetWait);
      DissolutionStands(o, uploadWait, packetWait, shorter, n, id, r);
      TombstoneStep(o, uploadWait, packetWait, After(shorter), run[|run| - 1], id, r);
    }
  }

  lemma ClockStep(h: Hub, e: Event, o: FusionRoster.Oracles, uploadWait: nat, packetWait: nat)
    requires Possible(o, uploadWait, packetWait, h, e)
    ensures h.clock <= Next(h, e).clock
  {
  }

  // ---- the relay of every record ----

  /** What FusionRelay proves of a lone relay. */
  ghost predicate Sound(packetWait: nat, r: FusionRelay.Relay, clock: int) {
    && FusionRelay.AllInOrder(r) && FusionRelay.Bounded(r) && r.clock <= clock
    && FusionRelay.AllRemembered(packetWait, r) && FusionRelay.Spaced(packetWait, r.log)
  }

  ghost predicate AllSound(packetWait: nat, h: Hub) {
    h.clock >= 0 && forall id {:trigger h.rooms[id]} :: id in h.rooms ==> Sound(packetWait, h.rooms[id].relay, h.clock)
  }

  lemma MoveSound(packetWait: nat, r: FusionRelay.Relay, move: FusionRelay.Event, clock: int)
    requires Sound(packetWait, r, clock) && !move.Broadcast? && FusionRelay.Possible(0, r, move)
    ensures Sound(packetWait, FusionRelay.Next(0, r, move), clock)
  {
    FusionRelay.StepInOrder(0, r, move);
    FusionRelay.StepBounded(0, r, move);
    assert FusionRelay.Possible(packetWait, r, move)
           && FusionRelay.Next(packetWait, r, move) == FusionRelay.Next(0, r, move);
    FusionRelay.StepSpaced(packetWait, r, move);
  }

  lemma BroadcastSound(packetWait: nat, r: FusionRelay.Relay, sender: FusionRelay.PeerId, packet: FusionRelay.Packet,
                       readAt: int, at: int, clock: int)
    requires Sound(packetWait, r, clock) && clock <= at && at - packetWait <= readAt <= at
    ensures Sound(packetWait, FusionRelay.Relayed(r, sender, packet, readAt, at), at)
  {
    var e := FusionRelay.Broadcast(sender, packet, readAt, at);
    FusionRelay.StepInOrder(packetWait, r, e);
    FusionRelay.StepBounded(packetWait, r, e);
    FusionRelay.StepSpaced(packetWait, r, e);
    assert FusionRelay.Next(packetWait, r, e) == FusionRelay.Relayed(r, sender, packet, readAt, at);
  }

  lemma EmptySound(packetWait: nat, clock: int)
    requires clock >= 0
    ensures Sound(packetWait, FusionRelay.EMPTY, clock)
  {
  }

  lemma LaterSound(packetWait: nat, r: FusionRelay.Relay, clock: int, later: int)
    requires Sound(packetWait, r, clock) && clock <= later
    ensures Sound(packetWait, r, later)
  {
  }

  lemma StepSound(o: FusionRoster.Oracles, uploadWait: nat, packetWait: nat, h: Hub, e: Event)
    requires AllSound(packetWait, h) && Possible(o, uploadWait, packetWait, h, e)
    ensures AllSound(packetWait, Next(h, e))
  {
    ClockStep(h, e, o, uploadWait, packetWait);
    var g := Next(h, e);
    forall id | id in g.rooms
      ensures Sound(packetWait, g.rooms[id].relay, g.clock)
    {
      RecordSound(o, uploadWait, packetWait, h, e, id);
    }
  }

  /** A record that was replaced keeps its relay; a new one starts without connections. */
  lemma RecordSound(o: FusionRoster.Oracles, uploadWait: nat, packetWait: nat, h: Hub, e: Event, id: RoomId)
    requires AllSound(packetWait, h) && Possible(o, uploadWait, packetWait, h, e) && id in Next(h, e).rooms
    requires h.clock <= Next(h, e).clock
    ensures Sound(packetWait, Next(h, e).rooms[id].relay, Next(h, e).clock)
  {
    var clock := Next(h, e).clock;
    if e.Packet? && e.id == id {
      BroadcastSound(packetWait, h.rooms[id].relay, e.sender, e.packet, e.readAt, e.at, h.clock);
      LaterSound(packetWait, h.rooms[id].relay, h.clock, clock);
    } else if e.Connection? && e.id == id {
      MoveSound(packetWait, h.rooms[id].relay, e.move, clock);
    } else {
      RelayKept(h, e, id);
      EmptySound(packetWait, clock);
      if id in h.rooms {
        LaterSound(packetWait, h.rooms[id].relay, h.clock, clock);
      }
    }
  }

  /** Nothing else touches a record's connections and history: only a new record, or one for a dead room, is empty. */
  lemma RelayKept(h: Hub, e: Event, id: RoomId)
    requires id in Next(h, e).rooms && !(e.Packet? && e.id == id) && !(e.Connection? && e.id == id)
    ensures var r := Next(h, e).rooms[id].relay;
            if id in h.rooms && ((e.Sync? || e.List?) ==> e.at - h.rooms[id].updated <= LEASE)
            then r == h.rooms[id].relay
            else r == FusionRelay.EMPTY && e.Sync? && e.upload.id == id
  {
  }

  lemma {:induction false} RunSound(o: FusionRoster.Oracles, uploadWait: nat, packetWait: nat, run: seq<Event>)
    requires IsRun(o, uploadWait, packetWait, run)
    ensures AllSound(packetWait, After(run))
  {
    if run != [] {
      RunSound(o, uploadWait, packetWait, run[..|run| - 1]);
      StepSound(o, uploadWait, packetWait, After(run[..|run| - 1]), run[|run| - 1]);
    }
  }

  /**
   In every run of the directory, for every connection of every record, replaced or not: delivered, in flight and
   queued are the broadcasts of the others since it came, in the common order and without gaps.
   */
  lemma DirectoryOrder(o: FusionRoster.Oracles, uploadWait: nat, packetWait: nat, run: seq<Event>, id: RoomId,
                       peer: FusionRelay.PeerId)
    requires IsRun(o, uploadWait, packetWait, run)
    requires id in After(run).rooms && peer in After(run).rooms[id].relay.peers
    ensures var r := After(run).rooms[id].relay; FusionRelay.InOrder(r.log, peer, r.peers[peer])
    ensures |After(run).rooms[id].relay.peers| <= FusionRelay.MAX_PEERS
    ensures |After(run).rooms[id].relay.seen| <= FusionRelay.CACHE
  {
    RunSound(o, uploadWait, packetWait, run);
  }

  /** And no record broadcasts a packet twice within 15 s less the longest wait, across replacements too. */
  lemma DirectoryNoEarlyDuplicate(o: FusionRoster.Oracles, uploadWait: nat, packetWait: nat, run: seq<Event>,
                                  id: RoomId, i: nat, j: nat)
    requires IsRun(o, uploadWait, packetWait, run) && id in After(run).rooms
    requires i < j < |After(run).rooms[id].relay.log|
    requires After(run).rooms[id].relay.log[i].packet == After(run).rooms[id].relay.log[j].packet
    ensures var log := After(run).rooms[id].relay.log;
            log[j].lockedAt - log[i].lockedAt > FusionRelay.REMEMBER - packetWait
  {
    RunSound(o, uploadWait, packetWait, run);
  }

  lemma SameRooms(h: Hub, e: Event)
    requires e.Packet? || e.Connection?
    ensures |Next(h, e).rooms| <= |h.rooms|
  {
    KeysBound(Next(h, e).rooms, h.rooms);
  }

  /** The directory never holds more than 256 rooms. */
  lemma {:induction false} DirectoryBounded(run: seq<Event>)
    ensures |After(run).rooms| <= MAX_ROOMS
  {
    if run != [] {
      var h, e := After(run[..|run| - 1]), run[|run| - 1];
      DirectoryBounded(run[..|run| - 1]);
      match e
      case Sync(u, at) =>
        var live := Pruned(h.rooms, at);
        KeysBound(live, h.rooms);
        assert live[u.id := Replacement(live, u)].Keys == live.Keys + {u.id};
      case List(at) => KeysBound(Pruned(h.rooms, at), h.rooms);
      case Packet(_, _, _, _, _, _) => SameRooms(h, e);
      case Connection(_, _) => SameRooms(h, e);
    }
  }

  // ---- the locked sections as code ----

  class Directory {
    var rooms: Rooms

    constructor ()
      ensures rooms == map[]
    {
      rooms := map[];
    }

    /** The pruning loop, in any order. */
    method Prune(now: int)
      modifies this
      ensures rooms == Pruned(old(rooms), now)
    {
      var todo := rooms.Keys;
      while todo != {}
        invariant todo <= old(rooms).Keys
        invariant rooms == map id | id in old(rooms)
          && (id in todo || now - old(rooms)[id].updated <= LEASE) :: old(rooms)[id]
        decreases todo
      {
        var id :| id in todo;
        todo := todo - {id};
        if now - rooms[id].updated > LEASE {
          rooms := rooms - {id};
        }
      }
    }

    /** syncFusion after parsing and authentication. */
    method SyncFusion(u: Upload, now: int) returns (verdict: Verdict)
      modifies this
      ensures verdict == Judge(Pruned(old(rooms), now), u)
      ensures rooms == Synced(old(rooms), u, now)
    {
      Prune(now);
      var relay := FusionRelay.EMPTY;
      if u.id in rooms {
        var prior := rooms[u.id];
        if prior.ended || prior.manifest != u.manifest || u.revision < prior.revision {
          return Conflict;
        }
        if u.revision == prior.revision && prior.state != u.state {
          return Conflict;
        }
        relay := prior.relay;
      } else if |rooms| >= MAX_ROOMS {
        return Full;
      }
      rooms := rooms[u.id := Record(u.manifest, u.state, u.revision, u.ended, u.parsedAt, relay)];
      return Accepted;
    }

    /** The locked section of relayFusion; false ends the connection.  RelayRoom.RelayPacket has its loops. */
    method RelayFusion(id: RoomId, authenticated: bool, sender: FusionRelay.PeerId, packet: FusionRelay.Packet,
                       now: int, at: int) returns (goesOn: bool)
      modifies this
      ensures goesOn <==> id in old(rooms) && !(old(rooms)[id].ended && now - old(rooms)[id].updated > DYING)
      ensures rooms == Handled(old(rooms), id, authenticated, sender, packet, now, at)
    {
      if id !in rooms || (rooms[id].ended && now - rooms[id].updated > DYING) {
        return false;
      }
      if authenticated {
        RenewLease(id, now);
      }
      rooms := rooms[id := rooms[id].(relay := FusionRelay.Relayed(rooms[id].relay, sender, packet, now, at))];
      return true;
    }

    /** The lease renewal of relayFusion: a live room's lease moves, everything else stays. */
    method RenewLease(id: RoomId, readAt: int)
      modifies this
      ensures rooms.Keys == old(rooms).Keys
      ensures forall x :: x in rooms && (x != id || rooms[x].ended) ==> rooms[x] == old(rooms)[x]
      ensures id in rooms && !rooms[id].ended ==> rooms[id] == old(rooms)[id].(updated := readAt)
      ensures rooms == Renewed(old(rooms), id, readAt)
    {
      if id in rooms && !rooms[id].ended {
        rooms := rooms[id := rooms[id].(updated := readAt)];
      }
    }
  }
}
