/** The deduplicating broadcast relay of one fusion room record.  Times are milliseconds. */
module FusionRelay {
  import opened Collections

  const MAX_PEERS := 20
  const QUEUE := 128
  const CACHE := 16384
  const REMEMBER := 15_000
  const PRUNE_EVERY := 1_000

  type PeerId = nat
  type Packet = seq<int>

  /**
   A connection: the packets its writer delivered, the one being written, and its bounded channel.
   A cancelled writer may still take a packet before it notices; late says that the one being
   written was taken so.
   */
  datatype Peer = Peer(joined: nat, delivered: seq<Packet>, inFlight: Option<Packet>, queue: seq<Packet>,
                       cancelled: bool, late: bool)

  /** A packet that was broadcast: its sender, when its reader read the clock, and when it held the lock. */
  datatype Entry = Entry(sender: PeerId, packet: Packet, readAt: int, lockedAt: int)

  /** seen maps a packet (standing for its SHA-256 digest) to the time recorded for it. */
  datatype Relay = Relay(peers: map<PeerId, Peer>, issued: nat, seen: map<Packet, int>, lastPruned: Option<int>,
                         log: seq<Entry>, clock: int)

  const EMPTY := Relay(map[], 0, map[], None, [], 0)

  datatype Event =
    | Join                                                          // a connection registers
    | Broadcast(sender: PeerId, packet: Packet, readAt: int, at: int) // a packet passes the checks under the lock
    | Take(peer: PeerId)                                            // the writer takes the next queued packet
    | Written(peer: PeerId)                                         // its write succeeds
    | WriteFailed(peer: PeerId)                                     // its write fails
    | Cancel(peer: PeerId)                                          // deadline, read error, prune or shutdown
    | Leave(peer: PeerId)                                           // the handler's deferred removal

  /**
   The wait between reading the clock and holding the lock is at most wait.  A write that
   starts under a cancelled context fails.
   */
  predicate Possible(wait: nat, r: Relay, e: Event) {
    match e
    case Join => true
    case Broadcast(_, _, readAt, at) => r.clock <= at && at - wait <= readAt <= at
    case Take(p) => p in r.peers && r.peers[p].inFlight == None && r.peers[p].queue != []
    case Written(p) => p in r.peers && r.peers[p].inFlight.Some? && !r.peers[p].late
    case WriteFailed(p) => p in r.peers && r.peers[p].inFlight.Some?
    case Cancel(p) => p in r.peers
    case Leave(p) => p in r.peers && r.peers[p].cancelled
  }

  /** The entries that survive the occasional clean-up. */
  function Cleaned(r: Relay, now: int): Relay {
    if r.lastPruned == None || now - r.lastPruned.value > PRUNE_EVERY then
      r.(seen := map x | x in r.seen && now - r.seen[x] <= REMEMBER :: r.seen[x], lastPruned := Some(now))
    else r
  }

  /** A non-blocking send: a full channel cancels its peer. */
  function Offer(p: Peer, packet: Packet): Peer {
    if |p.queue| < QUEUE then p.(queue := p.queue + [packet]) else p.(cancelled := true)
  }

  function Taken(p: Peer): Peer
    requires p.queue != []
  {
    p.(inFlight := Some(p.queue[0]), queue := p.queue[1..], late := p.cancelled)
  }

  function FanOut(peers: map<PeerId, Peer>, sender: PeerId, packet: Packet): map<PeerId, Peer> {
    map p | p in peers :: if p == sender then peers[p] else Offer(peers[p], packet)
  }

  /** The locked section of relayFusion after the room checks. */
  function Relayed(r: Relay, sender: PeerId, packet: Packet, readAt: int, at: int): Relay {
    var c := Cleaned(r, readAt).(clock := at);
    if packet !in c.seen && |c.seen| < CACHE then
      c.(seen := c.seen[packet := readAt],
         peers := FanOut(c.peers, sender, packet),
         log := c.log + [Entry(sender, packet, readAt, at)])
    else c
  }

  function Next(wait: nat, r: Relay, e: Event): Relay
    requires Possible(wait, r, e)
  {
    match e
    case Join =>
      if |r.peers| >= MAX_PEERS then r
      else r.(peers := r.peers[r.issued := Peer(|r.log|, [], None, [], false, false)], issued := r.issued + 1)
    case Broadcast(sender, packet, readAt, at) => Relayed(r, sender, packet, readAt, at)
    case Take(p) => r.(peers := r.peers[p := Taken(r.peers[p])])
    case Written(p) =>
      r.(peers := r.peers[p := r.peers[p].(delivered := r.peers[p].delivered + [r.peers[p].inFlight.value],
                                           inFlight := None)])
    case WriteFailed(p) => r.(peers := r.peers[p := r.peers[p].(cancelled := true, inFlight := None, late := false)])
    case Cancel(p) => r.(peers := r.peers[p := r.peers[p].(cancelled := true)])
    case Leave(p) => r.(peers := r.peers - {p})
  }

  predicate IsRun(wait: nat, run: seq<Event>)
    decreases |run|, 0
  {
    run == [] || (IsRun(wait, run[..|run| - 1]) && Possible(wait, After(wait, run[..|run| - 1]), run[|run| - 1]))
  }

  function After(wait: nat, run: seq<Event>): Relay
    requires IsRun(wait, run)
    decreases |run|, 1
  {
    if run == [] then EMPTY else Next(wait, After(wait, run[..|run| - 1]), run[|run| - 1])
  }

  // ---- order ----

  /** The broadcasts of others, in log order. */
  function Others(log: seq<Entry>, p: PeerId): seq<Packet> {
    if log == [] then []
    else
      var last := log[|log| - 1];
      Others(log[..|log| - 1], p) + if last.sender == p then [] else [last.packet]
  }

  function Pending(p: Peer): seq<Packet> {
    p.delivered + if p.inFlight.Some? then [p.inFlight.value] else []
  }

  /** A peer meant to get these packets has received, has in flight or has queued them, or the first of them. */
  predicate Serves(p: Peer, packets: seq<Packet>) {
    && |p.queue| <= QUEUE
    && (p.late ==> p.cancelled)
    && (if p.late then p.delivered else Pending(p)) <= packets
    && (!p.cancelled ==> Pending(p) + p.queue == packets)
  }

  /** What peer id must have received, have in flight or have queued. */
  predicate InOrder(log: seq<Entry>, id: PeerId, p: Peer) {
    p.joined <= |log| && Serves(p, Others(log[p.joined..], id))
  }

  ghost predicate AllInOrder(r: Relay) {
    forall id :: id in r.peers ==> InOrder(r.log, id, r.peers[id])
  }

  lemma OthersAppend(log: seq<Entry>, e: Entry, from: nat, id: PeerId)
    requires from <= |log|
    ensures Others((log + [e])[from..], id) == Others(log[from..], id) + if e.sender == id then [] else [e.packet]
  {
    var s := (log + [e])[from..];
    assert s[..|s| - 1] == log[from..];
  }

  lemma OfferInOrder(log: seq<Entry>, e: Entry, id: PeerId, p: Peer)
    requires InOrder(log, id, p)
    ensures InOrder(log + [e], id, if id == e.sender then p else Offer(p, e.packet))
  {
    OthersAppend(log, e, p.joined, id);
    assert (log + [e])[p.joined..] == log[p.joined..] + [e];
    if id == e.sender {
      assert Others(log[p.joined..], id) + [] == Others(log[p.joined..], id);
    } else {
      OfferServes(p, Others(log[p.joined..], id), e.packet);
    }
  }

  lemma OfferServes(p: Peer, packets: seq<Packet>, packet: Packet)
    requires Serves(p, packets)
    ensures Serves(Offer(p, packet), packets + [packet])
  {
    if |p.queue| < QUEUE {
      assert Pending(p) + (p.queue + [packet]) == Pending(p) + p.queue + [packet];
    }
  }

  lemma FanOutInOrder(r: Relay, e: Entry)
    requires AllInOrder(r)
    ensures AllInOrder(r.(peers := FanOut(r.peers, e.sender, e.packet), log := r.log + [e]))
  {
    forall id | id in r.peers
      ensures InOrder(r.log + [e], id, FanOut(r.peers, e.sender, e.packet)[id])
    {
      OfferInOrder(r.log, e, id, r.peers[id]);
    }
  }

  lemma UpdateInOrder(r: Relay, id: PeerId, p: Peer)
    requires AllInOrder(r) && InOrder(r.log, id, p)
    ensures AllInOrder(r.(peers := r.peers[id := p]))
  {
  }

  /** The writer's two moves shift one packet along. */
  lemma TakeInOrder(log: seq<Entry>, id: PeerId, p: Peer)
    requires InOrder(log, id, p) && p.inFlight == None && p.queue != []
    ensures InOrder(log, id, Taken(p))
  {
  }

  lemma WrittenInOrder(log: seq<Entry>, id: PeerId, p: Peer)
    requires InOrder(log, id, p) && p.inFlight.Some? && !p.late
    ensures InOrder(log, id, p.(delivered := p.delivered + [p.inFlight.value], inFlight := None))
  {
    var q := p.(delivered := p.delivered + [p.inFlight.value], inFlight := None);
    assert Pending(q) == Pending(p);
  }

  /** What was delivered is a prefix also without the packet in flight. */
  lemma DeliveredIsPrefix(log: seq<Entry>, id: PeerId, p: Peer)
    requires InOrder(log, id, p)
    ensures p.delivered <= Others(log[p.joined..], id)
  {
    assert p.delivered <= Pending(p);
  }

  lemma FailedInOrder(log: seq<Entry>, id: PeerId, p: Peer)
    requires InOrder(log, id, p)
    ensures InOrder(log, id, p.(cancelled := true, inFlight := None, late := false))
  {
    DeliveredIsPrefix(log, id, p);
    assert Pending(p.(cancelled := true, inFlight := None, late := false)) == p.delivered;
  }

  lemma CancelledInOrder(log: seq<Entry>, id: PeerId, p: Peer)
    requires InOrder(log, id, p)
    ensures InOrder(log, id, p.(cancelled := true))
  {
  }

  /** Every step keeps every peer's order. */
  lemma StepInOrder(wait: nat, r: Relay, e: Event)
    requires AllInOrder(r) && Possible(wait, r, e)
    ensures AllInOrder(Next(wait, r, e))
  {
    match e
    case Broadcast(sender, packet, readAt, at) =>
      FanOutInOrder(Cleaned(r, readAt).(clock := at), Entry(sender, packet, readAt, at));
    case Join =>
      if |r.peers| < MAX_PEERS {
        assert r.log[|r.log|..] == [];
        UpdateInOrder(r, r.issued, Peer(|r.log|, [], None, [], false, false));
      }
    case Leave(p) =>
    case Take(p) =>
      TakeInOrder(r.log, p, r.peers[p]);
      UpdateInOrder(r, p, Next(wait, r, e).peers[p]);
    case Written(p) =>
      WrittenInOrder(r.log, p, r.peers[p]);
      UpdateInOrder(r, p, Next(wait, r, e).peers[p]);
    case WriteFailed(p) =>
      FailedInOrder(r.log, p, r.peers[p]);
      UpdateInOrder(r, p, Next(wait, r, e).peers[p]);
    case Cancel(p) =>
      CancelledInOrder(r.log, p, r.peers[p]);
      UpdateInOrder(r, p, Next(wait, r, e).peers[p]);
  }

  /**
   For every connected peer, in every run: what was delivered, and what is being written unless
   it was taken after cancellation, is a prefix of the broadcasts of the others since it joined;
   and unless the peer was cancelled, together with its queue it is all of them.
   */
  lemma {:induction false} RelayOrder(wait: nat, run: seq<Event>, id: PeerId)
    requires IsRun(wait, run) && id in After(wait, run).peers
    ensures InOrder(After(wait, run).log, id, After(wait, run).peers[id])
  {
    RunInOrder(wait, run);
  }

  lemma {:induction false} RunInOrder(wait: nat, run: seq<Event>)
    requires IsRun(wait, run)
    ensures AllInOrder(After(wait, run))
  {
    if run != [] {
      RunInOrder(wait, run[..|run| - 1]);
      StepInOrder(wait, After(wait, run[..|run| - 1]), run[|run| - 1]);
    }
  }

  // ---- bounds ----

  ghost predicate Bounded(r: Relay) {
    |r.peers| <= MAX_PEERS && |r.seen| <= CACHE && forall id :: id in r.peers ==> id < r.issued
  }

  lemma StepBounded(wait: nat, r: Relay, e: Event)
    requires Bounded(r) && Possible(wait, r, e)
    ensures Bounded(Next(wait, r, e))
  {
    match e
    case Join => JoinBounded(r);
    case Broadcast(sender, packet, readAt, at) => BroadcastBounded(r, sender, packet, readAt, at);
    case Leave(p) => KeysBound(r.peers - {p}, r.peers);
    case Take(p) => ReplaceBounded(r, p, Taken(r.peers[p]));
    case Written(p) =>
      ReplaceBounded(r, p, r.peers[p].(delivered := r.peers[p].delivered + [r.peers[p].inFlight.value],
                                       inFlight := None));
    case WriteFailed(p) => ReplaceBounded(r, p, r.peers[p].(cancelled := true, inFlight := None, late := false));
    case Cancel(p) => ReplaceBounded(r, p, r.peers[p].(cancelled := true));
  }

  lemma JoinBounded(r: Relay)
    requires Bounded(r)
    ensures |r.peers| < MAX_PEERS ==>
      Bounded(r.(peers := r.peers[r.issued := Peer(|r.log|, [], None, [], false, false)], issued := r.issued + 1))
  {
    AddOne(r.peers, r.issued, Peer(|r.log|, [], None, [], false, false));
  }

  lemma ReplaceBounded(r: Relay, id: PeerId, p: Peer)
    requires Bounded(r) && id in r.peers
    ensures Bounded(r.(peers := r.peers[id := p]))
  {
  }

  lemma BroadcastBounded(r: Relay, sender: PeerId, packet: Packet, readAt: int, at: int)
    requires Bounded(r)
    ensures Bounded(Relayed(r, sender, packet, readAt, at))
  {
    var c, s := Cleaned(r, readAt), Relayed(r, sender, packet, readAt, at);
    KeysBound(c.seen, r.seen);
    assert s.peers.Keys == r.peers.Keys;
    KeysBound(s.peers, r.peers);
    assert s.seen.Keys <= c.seen.Keys + {packet};
    SubsetSize(s.seen.Keys, c.seen.Keys + {packet});
    if s.seen != c.seen {
      assert |c.seen.Keys + {packet}| <= |c.seen.Keys| + 1;
    }
  }

  /** At most 20 peers and 16384 remembered packets, always. */
  lemma {:induction false} RelayBounds(wait: nat, run: seq<Event>)
    requires IsRun(wait, run)
    ensures Bounded(After(wait, run))
  {
    if run != [] {
      RelayBounds(wait, run[..|run| - 1]);
      StepBounded(wait, After(wait, run[..|run| - 1]), run[|run| - 1]);
    }
  }

  // ---- duplicates ----

  /** A broadcast packet is still remembered, or it was read more than 15 s ago. */
  predicate Remembered(r: Relay, e: Entry) {
    (e.packet in r.seen && r.seen[e.packet] == e.readAt) || r.clock - e.readAt > REMEMBER
  }

  ghost predicate AllRemembered(wait: nat, r: Relay) {
    forall i :: 0 <= i < |r.log| ==>
      Remembered(r, r.log[i]) && r.log[i].lockedAt - wait <= r.log[i].readAt <= r.log[i].lockedAt
  }

  /** Two entries of one packet are further apart than 15 s less the lock wait. */
  ghost predicate Spaced(wait: nat, log: seq<Entry>) {
    forall i, j :: 0 <= i < j < |log| && log[i].packet == log[j].packet ==>
      log[j].lockedAt - log[i].lockedAt > REMEMBER - wait
  }

  lemma StepSpaced(wait: nat, r: Relay, e: Event)
    requires AllRemembered(wait, r) && Spaced(wait, r.log) && Possible(wait, r, e)
    ensures AllRemembered(wait, Next(wait, r, e)) && Spaced(wait, Next(wait, r, e).log)
  {
    if e.Broadcast? {
      var c := Cleaned(r, e.readAt).(clock := e.at);
      var s := Next(wait, r, e);
      forall i | 0 <= i < |r.log|
        ensures Remembered(c, r.log[i])
      {
        assert Remembered(r, r.log[i]);
      }
      if e.packet !in c.seen && |c.seen| < CACHE {
        forall i | 0 <= i < |r.log|
          ensures Remembered(s, r.log[i])
          ensures r.log[i].packet == e.packet ==> e.at - r.log[i].lockedAt > REMEMBER - wait
        {
          assert Remembered(c, r.log[i]);
        }
      }
    }
  }

  lemma {:induction false} RunSpaced(wait: nat, run: seq<Event>)
    requires IsRun(wait, run)
    ensures AllRemembered(wait, After(wait, run)) && Spaced(wait, After(wait, run).log)
  {
    if run != [] {
      RunSpaced(wait, run[..|run| - 1]);
      StepSpaced(wait, After(wait, run[..|run| - 1]), run[|run| - 1]);
    }
  }

  /** While a record lives, no packet is broadcast twice within 15 s less the longest wait for the lock. */
  lemma NoEarlyDuplicate(wait: nat, run: seq<Event>, i: nat, j: nat)
    requires IsRun(wait, run)
    requires i < j < |After(wait, run).log| && After(wait, run).log[i].packet == After(wait, run).log[j].packet
    ensures After(wait, run).log[j].lockedAt - After(wait, run).log[i].lockedAt > REMEMBER - wait
  {
    RunSpaced(wait, run);
  }

  /** The wait cannot be left out: a registered peer whose reader waits for the lock shortens the gap by as much. */
  lemma WaitShortensGap(wait: nat, packet: Packet) returns (run: seq<Event>)
    requires 0 < wait <= REMEMBER
    ensures IsRun(wait, run) && |After(wait, run).log| == 2
    ensures forall i :: 0 <= i < 2 ==> After(wait, run).log[i].sender in After(wait, run).peers
    ensures After(wait, run).log[0].packet == After(wait, run).log[1].packet
    ensures After(wait, run).log[1].lockedAt - After(wait, run).log[0].lockedAt == REMEMBER + 1 - wait
  {
    var first := Broadcast(0, packet, 0, wait);
    var second := Broadcast(0, packet, REMEMBER + 1, REMEMBER + 1);
    var peer := Peer(0, [], None, [], false, false);
    assert [Join][..0] == [];
    assert After(wait, []) == EMPTY && IsRun(wait, [Join]);
    assert After(wait, [Join]) == EMPTY.(peers := map[0 := peer], issued := 1);
    assert [Join, first][..1] == [Join] && IsRun(wait, [Join, first]);
    FirstBroadcast(wait, packet, peer);
    assert After(wait, [Join, first])
        == Relay(map[0 := peer], 1, map[packet := 0], Some(0), [Entry(0, packet, 0, wait)], wait);
    assert [Join, first, second][..2] == [Join, first];
    assert IsRun(wait, [Join, first, second]);
    run := [Join, first, second];
  }

  /** The first packet of a lone peer reaches the log and no queue. */
  lemma FirstBroadcast(wait: nat, packet: Packet, peer: Peer)
    ensures Relayed(EMPTY.(peers := map[0 := peer], issued := 1), 0, packet, 0, wait)
         == Relay(map[0 := peer], 1, map[packet := 0], Some(0), [Entry(0, packet, 0, wait)], wait)
  {
    assert FanOut(map[0 := peer], 0, packet) == map[0 := peer];
  }

  // ---- the locked section as code ----

  class RelayRoom {
    var peers: map<PeerId, Peer>
    var seen: map<Packet, int>
    var lastPruned: Option<int>
    ghost var issued: nat
    ghost var log: seq<Entry>
    ghost var clock: int

    ghost function View(): Relay
      reads this
    {
      Relay(peers, issued, seen, lastPruned, log, clock)
    }

    constructor ()
      ensures View() == EMPTY
    {
      peers, seen, lastPruned, issued, log, clock := map[], map[], None, 0, [], 0;
    }

    /** The clean-up loop over seen and the fan-out loop over the peers, each in any order. */
    method RelayPacket(sender: PeerId, packet: Packet, now: int, ghost at: int)
      modifies this
      ensures View() == Relayed(old(View()), sender, packet, now, at)
    {
      if lastPruned == None || now - lastPruned.value > PRUNE_EVERY {
        CleanUp(now);
      }
      clock := at;
      if packet !in seen && |seen| < CACHE {
        seen := seen[packet := now];
        Send(sender, packet);
        log := log + [Entry(sender, packet, now, at)];
      }
    }

    method CleanUp(now: int)
      modifies this`seen, this`lastPruned
      ensures seen == map x | x in old(seen) && now - old(seen)[x] <= REMEMBER :: old(seen)[x]
      ensures lastPruned == Some(now)
    {
      var todo := seen.Keys;
      while todo != {}
        invariant todo <= old(seen).Keys
        invariant seen == map x | x in old(seen) && (x in todo || now - old(seen)[x] <= REMEMBER) :: old(seen)[x]
        decreases todo
      {
        var key :| key in todo;
        todo := todo - {key};
        if now - seen[key] > REMEMBER {
          seen := seen - {key};
        }
      }
      lastPruned := Some(now);
    }

    method Send(sender: PeerId, packet: Packet)
      modifies this`peers
      ensures peers == FanOut(old(peers), sender, packet)
    {
      var todo := peers.Keys;
      while todo != {}
        invariant todo <= old(peers).Keys
        invariant peers == map p | p in old(peers) ::
          if p in todo || p == sender then old(peers)[p] else Offer(old(peers)[p], packet)
        decreases todo
      {
        var peer :| peer in todo;
        todo := todo - {peer};
        if peer != sender {
          var p := peers[peer];
          if |p.queue| < QUEUE {
            peers := peers[peer := p.(queue := p.queue + [packet])];
          } else {
            peers := peers[peer := p.(cancelled := true)];
          }
        }
      }
    }
  }
}
