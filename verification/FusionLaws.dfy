/** What an upload, a packet and a connection change in the fusion directory, and what of it lasts, in plain numbers. */
module FusionLaws {
  import opened Collections
  import opened Bytes
  import opened FusionHub
  import FusionRelay
  import FusionRoster

  // ---- snapshots ----

  /** At most sixteen members with numbers from 1 to 16, sixteen-byte devices and names of forty bytes, all distinct. */
  ghost predicate RosterRules(o: FusionRoster.Oracles, s: FusionRoster.Snapshot) {
    && |s.key| == 32 && |s.secretHash| == 32 && |s.name| <= 64 && o.utf8(s.name)
    && s.revision < Pow256(8) && |s.members| <= 16
    && (forall i :: 0 <= i < |s.members| ==>
        1 <= s.members[i].id <= 16 && |s.members[i].device| == 16 && |s.members[i].nickname| <= 40
        && o.utf8(s.members[i].nickname))
    && (forall i, j :: 0 <= i < j < |s.members| ==>
        s.members[i].id != s.members[j].id && s.members[i].device != s.members[j].device)
    && (s.ended || exists i :: 0 <= i < |s.members| && s.members[i].id == 1)
  }

  lemma RulesAreWellFormed(o: FusionRoster.Oracles, s: FusionRoster.Snapshot)
    ensures RosterRules(o, s) <==> FusionRoster.WellFormed(o, s)
  {
    FusionRoster.EntriesOkIff(o, s.members, {}, {});
    if FusionRoster.HasId(s.members, 1) {
      var e :| e in s.members && e.id == 1;
    }
    if i :| 0 <= i < |s.members| && s.members[i].id == 1 {
      assert s.members[i] in s.members;
    }
  }

  /**
   parseFusion accepts exactly the signed encodings of snapshots that keep these rules, of this room, and from
   ninety seconds behind the clock to a minute ahead of it; and it returns the snapshot encoded.
   */
  lemma ParsedIff(o: FusionRoster.Oracles, id: seq<byte>, manifest: seq<byte>, state: seq<byte>, now: int,
                  s: FusionRoster.Snapshot)
    requires 90_000 <= now && now + 60_000 < 0x1_0000_0000_0000_0000
    ensures FusionRoster.Parsed(o, id, manifest, state, now) == Ok(s) <==>
            && s.key == id && RosterRules(o, s) && now - 90_000 <= s.revision <= now + 60_000
            && |manifest| >= 64 && |state| >= 64
            && manifest == FusionRoster.EncodeManifest(s) + manifest[|manifest| - 64..]
            && state == FusionRoster.EncodeState(s) + state[|state| - 64..]
            && o.verify(id, FusionRoster.EncodeManifest(s), manifest[|manifest| - 64..])
            && o.verify(id, [2] + id + FusionRoster.EncodeState(s), state[|state| - 64..])
  {
    RulesAreWellFormed(o, s);
    TimelyBounds(s.revision, now);
    if FusionRoster.Parsed(o, id, manifest, state, now) == Ok(s) {
      FusionRoster.AcceptedIsEncoding(o, id, manifest, state, now);
    } else if s.key == id && RosterRules(o, s) && FusionRoster.Timely(s.revision, now)
              && |manifest| >= 64 && |state| >= 64
              && o.verify(id, FusionRoster.EncodeManifest(s), manifest[|manifest| - 64..]) {
      FusionRoster.RoundTrip(o, s, manifest[|manifest| - 64..], state[|state| - 64..], now);
    }
  }

  // ---- uploads ----

  /** A record that was renewed within the last half hour. */
  predicate Alive(rooms: Rooms, id: RoomId, now: int) {
    id in rooms && now - rooms[id].updated <= 1_800_000
  }

  lemma PrunedIsAlive(rooms: Rooms, now: int)
    ensures forall id :: id in Pruned(rooms, now) <==> Alive(rooms, id, now)
    ensures forall id :: id in Pruned(rooms, now) ==> Pruned(rooms, now)[id] == rooms[id]
    ensures |Pruned(rooms, now)| == |set id | id in rooms && now - rooms[id].updated <= 1_800_000|
  {
    var live := set id | id in rooms && now - rooms[id].updated <= 1_800_000;
    assert Pruned(rooms, now).Keys == live;
  }

  /**
   An upload for a living room is a conflict exactly if the room is dissolved, the manifest differs, the revision
   is lower, or the state differs at the same revision; one for a new room fails exactly at 256 living rooms.
   */
  lemma UploadVerdict(rooms: Rooms, u: Upload, now: int)
    ensures var verdict := Judge(Pruned(rooms, now), u);
            && (verdict == Conflict <==>
                Alive(rooms, u.id, now)
                && (rooms[u.id].ended || rooms[u.id].manifest != u.manifest || u.revision < rooms[u.id].revision
                    || (u.revision == rooms[u.id].revision && rooms[u.id].state != u.state)))
            && (verdict == Full <==>
                !Alive(rooms, u.id, now)
                && |set id | id in rooms && now - rooms[id].updated <= 1_800_000| >= 256)
  {
    PrunedIsAlive(rooms, now);
  }

  /**
   Afterwards the dead rooms are gone and the living ones are as they were, except that an accepted upload
   gives its room what it says: with the connections and the history of a living room, and none otherwise.
   */
  lemma UploadOutcome(rooms: Rooms, u: Upload, now: int)
    ensures var d, accepted := Synced(rooms, u, now), Judge(Pruned(rooms, now), u) == Accepted;
            && (forall id :: id in d <==> Alive(rooms, id, now) || (accepted && id == u.id))
            && (forall id :: id in d && !(accepted && id == u.id) ==> d[id] == rooms[id])
            && (accepted ==>
                var r := d[u.id];
                && r.manifest == u.manifest && r.state == u.state && r.revision == u.revision && r.ended == u.ended
                && r.updated == u.parsedAt
                && (Alive(rooms, u.id, now) ==> r.relay == rooms[u.id].relay)
                && (!Alive(rooms, u.id, now) ==>
                    r.relay.peers == map[] && r.relay.seen == map[] && r.relay.log == [] && r.relay.lastPruned == None))
  {
    PrunedIsAlive(rooms, now);
  }

  /** So no upload throws away the connections or the history of a living room. */
  lemma RelaySurvives(rooms: Rooms, u: Upload, now: int, id: RoomId)
    requires id in rooms && now - rooms[id].updated <= 1_800_000
    ensures id in Synced(rooms, u, now) && Synced(rooms, u, now)[id].relay == rooms[id].relay
  {
    UploadOutcome(rooms, u, now);
  }

  // ---- packets ----

  /** The clean-up is due: never made, or more than a second ago. */
  predicate CleansUp(r: FusionRelay.Relay, now: int) {
    r.lastPruned == None || now - r.lastPruned.value > 1_000
  }

  /** The packet was seen, and if a clean-up is due, within the last fifteen seconds. */
  predicate StillSeen(r: FusionRelay.Relay, packet: FusionRelay.Packet, now: int) {
    packet in r.seen && (CleansUp(r, now) ==> now - r.seen[packet] <= 15_000)
  }

  /** It is broadcast: not seen, and fewer than 16384 are remembered. */
  predicate Broadcasts(r: FusionRelay.Relay, packet: FusionRelay.Packet, now: int) {
    !StillSeen(r, packet, now) && |set x | x in r.seen && StillSeen(r, x, now)| < 16_384
  }

  /**
   A broadcast packet enters the log and the memory, and every connection but the sender's: at the end of its
   queue, or as its cancellation when 128 packets wait there.  Any other packet reaches nobody.
   */
  lemma PacketOutcome(r: FusionRelay.Relay, sender: FusionRelay.PeerId, packet: FusionRelay.Packet, now: int, at: int)
    ensures var d, broadcast := FusionRelay.Relayed(r, sender, packet, now, at), Broadcasts(r, packet, now);
            && (forall x :: x in d.seen <==> StillSeen(r, x, now) || (broadcast && x == packet))
            && (forall x :: x in d.seen ==> d.seen[x] == if broadcast && x == packet then now else r.seen[x])
            && d.lastPruned == (if CleansUp(r, now) then Some(now) else r.lastPruned)
            && d.log == r.log + (if broadcast then [FusionRelay.Entry(sender, packet, now, at)] else [])
            && d.issued == r.issued && d.clock == at && d.peers.Keys == r.peers.Keys
            && (forall p :: p in r.peers && (p == sender || !broadcast) ==> d.peers[p] == r.peers[p])
            && (forall p :: p in r.peers && p != sender && broadcast ==>
                d.peers[p] == if |r.peers[p].queue| < 128 then r.peers[p].(queue := r.peers[p].queue + [packet])
                              else r.peers[p].(cancelled := true))
  {
    CleanedIsSeen(r, now);
  }

  lemma CleanedIsSeen(r: FusionRelay.Relay, now: int)
    ensures var c := FusionRelay.Cleaned(r, now);
            && (forall x :: x in c.seen <==> StillSeen(r, x, now))
            && (forall x :: x in c.seen ==> c.seen[x] == r.seen[x])
            && |c.seen| == |set x | x in r.seen && StillSeen(r, x, now)|
  {
    var c := FusionRelay.Cleaned(r, now);
    var still := set x | x in r.seen && StillSeen(r, x, now);
    assert c.seen.Keys == still;
  }

  /**
   In the directory a packet for an unknown room, or one dissolved for more than three seconds, changes nothing;
   otherwise it is relayed in its room, whose lease an authenticated packet renews unless the room has ended.
   */
  lemma HandledOutcome(rooms: Rooms, id: RoomId, authenticated: bool, sender: FusionRelay.PeerId,
                       packet: FusionRelay.Packet, now: int, at: int)
    ensures var d := Handled(rooms, id, authenticated, sender, packet, now, at);
            var goesOn := id in rooms && !(rooms[id].ended && now - rooms[id].updated > 3_000);
            && d.Keys == rooms.Keys
            && (forall x :: x in rooms && !(goesOn && x == id) ==> d[x] == rooms[x])
            && (goesOn ==>
                d[id] == rooms[id].(updated := if authenticated && !rooms[id].ended then now else rooms[id].updated,
                                    relay := FusionRelay.Relayed(rooms[id].relay, sender, packet, now, at)))
  {
  }

  // ---- connections ----

  /** A connection is taken in below twenty, under a number not used before, with nothing to deliver. */
  lemma JoinOutcome(wait: nat, r: FusionRelay.Relay)
    ensures var d := FusionRelay.Next(wait, r, FusionRelay.Join);
            if |r.peers| >= 20 then d == r
            else d == r.(peers := r.peers[r.issued := FusionRelay.Peer(|r.log|, [], None, [], false, false)],
                         issued := r.issued + 1)
  {
  }

  // ---- what lasts ----

  /** The event finds the record silent for more than half an hour and removes it. */
  predicate RemovesRecord(h: Hub, e: Event, id: RoomId) {
    (e.Sync? || e.List?) && id in h.rooms && e.at - h.rooms[id].updated > 1_800_000
  }

  /** A living record stays; its log only grows, and a connection goes only by its own leave. */
  lemma StepKeeps(o: FusionRoster.Oracles, uploadWait: nat, packetWait: nat, h: Hub, e: Event, id: RoomId,
                  peer: FusionRelay.PeerId)
    requires Possible(o, uploadWait, packetWait, h, e) && id in h.rooms && !RemovesRecord(h, e, id)
    ensures id in Next(h, e).rooms && h.rooms[id].relay.log <= Next(h, e).rooms[id].relay.log
    ensures peer in h.rooms[id].relay.peers && e != Connection(id, FusionRelay.Leave(peer)) ==>
      peer in Next(h, e).rooms[id].relay.peers
  {
    if e.Sync? {
      RelaySurvives(h.rooms, e.upload, e.at, id);
    } else if e.List? {
      PrunedIsAlive(h.rooms, e.at);
    } else if e.Packet? && e.id == id {
      PacketOutcome(h.rooms[id].relay, e.sender, e.packet, e.readAt, e.at);
    } else if e.Connection? && e.id == id {
      MoveKeeps(h.rooms[id].relay, e.move, peer);
    }
  }

  lemma MoveKeeps(r: FusionRelay.Relay, move: FusionRelay.Event, peer: FusionRelay.PeerId)
    requires FusionRelay.Possible(0, r, move) && !move.Broadcast?
    ensures FusionRelay.Next(0, r, move).log == r.log
    ensures peer in r.peers && move != FusionRelay.Leave(peer) ==> peer in FusionRelay.Next(0, r, move).peers
  {
  }

  ghost predicate RemovesAt(run: seq<Event>, i: nat, id: RoomId) {
    i < |run| && RemovesRecord(After(run[..i]), run[i], id)
  }

  ghost predicate LeavesAt(run: seq<Event>, i: nat, id: RoomId, peer: FusionRelay.PeerId) {
    i < |run| && run[i] == Connection(id, FusionRelay.Leave(peer))
  }

  /** The connection is registered with the room after i events. */
  predicate Connected(run: seq<Event>, i: nat, id: RoomId, peer: FusionRelay.PeerId) {
    Listed(run, i, id) && peer in After(run[..i]).rooms[id].relay.peers
  }

  /** The log of n events is the beginning of the log of i events. */
  predicate Continues(run: seq<Event>, n: nat, i: nat, id: RoomId) {
    Listed(run, n, id) && Listed(run, i, id)
    && After(run[..n]).rooms[id].relay.log <= After(run[..i]).rooms[id].relay.log
  }

  /** Whatever is uploaded: unless its record is removed, a room's log only grows. */
  lemma LogBreaks(o: FusionRoster.Oracles, uploadWait: nat, packetWait: nat, run: seq<Event>, n: nat, k: nat,
                  id: RoomId) returns (i: nat)
    requires IsRun(o, uploadWait, packetWait, run) && n < k <= |run|
    requires Listed(run, n, id) && !Continues(run, n, k, id)
    ensures n <= i < k && RemovesAt(run, i, id)
  {
    i := LastTime((j: nat) => Continues(run, n, j, id), n, k);
    LogStep(o, uploadWait, packetWait, run, n, i, id);
  }

  lemma LogStep(o: FusionRoster.Oracles, uploadWait: nat, packetWait: nat, run: seq<Event>, n: nat, i: nat, id: RoomId)
    requires IsRun(o, uploadWait, packetWait, run) && i < |run| && Continues(run, n, i, id)
    ensures RemovesAt(run, i, id) || Continues(run, n, i + 1, id)
  {
    if !RemovesAt(run, i, id) {
      LivingStep(o, uploadWait, packetWait, run, i, id, 0);
    }
  }

  /** And a connection goes only with its record, or by itself. */
  lemma ConnectionGoes(o: FusionRoster.Oracles, uploadWait: nat, packetWait: nat, run: seq<Event>, n: nat, k: nat,
                       id: RoomId, peer: FusionRelay.PeerId) returns (i: nat)
    requires IsRun(o, uploadWait, packetWait, run) && n < k <= |run|
    requires Connected(run, n, id, peer) && !Connected(run, k, id, peer)
    ensures n <= i < k && (RemovesAt(run, i, id) || LeavesAt(run, i, id, peer))
  {
    i := LastTime((j: nat) => Connected(run, j, id, peer), n, k);
    ConnectionStep(o, uploadWait, packetWait, run, i, id, peer);
  }

  lemma ConnectionStep(o: FusionRoster.Oracles, uploadWait: nat, packetWait: nat, run: seq<Event>, i: nat, id: RoomId,
                       peer: FusionRelay.PeerId)
    requires IsRun(o, uploadWait, packetWait, run) && i < |run| && Connected(run, i, id, peer)
    ensures RemovesAt(run, i, id) || LeavesAt(run, i, id, peer) || Connected(run, i + 1, id, peer)
  {
    if !RemovesAt(run, i, id) {
      LivingStep(o, uploadWait, packetWait, run, i, id, peer);
    }
  }

  lemma LivingStep(o: FusionRoster.Oracles, uploadWait: nat, packetWait: nat, run: seq<Event>, i: nat, id: RoomId,
                   peer: FusionRelay.PeerId)
    requires IsRun(o, uploadWait, packetWait, run) && i < |run| && Listed(run, i, id) && !RemovesAt(run, i, id)
    ensures Listed(run, i + 1, id)
    ensures Continues(run, i, i + 1, id)
    ensures Connected(run, i, id, peer) && !LeavesAt(run, i, id, peer) ==> Connected(run, i + 1, id, peer)
  {
    RunStep(o, uploadWait, packetWait, run, i);
    StepKeeps(o, uploadWait, packetWait, After(run[..i]), run[i], id, peer);
  }
}
