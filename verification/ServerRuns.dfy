/**
 The server object along its runs: each lock section of each handler, carried out on the live objects,
 is a step of the room machine, and starting the process is its restart.  The history is ghost.
 */
module ServerRuns {
  import opened Collections
  import opened RoomState
  import opened RoomMachine
  import HandlerSpecs
  import PublicServer
  import RoomStore
  import RoomWrites

  /** The two tables of channels split the machine's channels by their kind. */
  ghost predicate Split(s: State, sockets: map<Id, set<nat>>, eventStreams: map<Id, set<nat>>, streams: set<nat>) {
    forall m :: ChannelsOf(sockets, m) == Channels(s, m) - streams
      && ChannelsOf(eventStreams, m) == Channels(s, m) * streams
  }

  /** The run is possible and ends in this state.  The quantifier spares the handlers' proofs the definition of runs. */
  ghost predicate Recorded(run: seq<Event>, s: State) {
    forall h {:trigger IsRun(h)} :: h == run ==> IsRun(h) && After(h) == s
  }

  lemma IsRecorded(run: seq<Event>, s: State)
    ensures Recorded(run, s) <==> IsRun(run) && After(run) == s
  {
  }

  lemma RecordStep(run: seq<Event>, s: State, e: Event)
    requires Recorded(run, s) && Possible(s, e)
    ensures Recorded(run + [e], Next(s, e))
  {
    IsRecorded(run, s);
    Extend(run, e);
    IsRecorded(run + [e], Next(s, e));
  }

  /** The history of a server with this state and these channels. */
  datatype Trace = Trace(run: seq<Event>, state: State, streams: set<nat>)

  ghost predicate Follows(t: Trace, c: Core, sockets: map<Id, set<nat>>, eventStreams: map<Id, set<nat>>) {
    t.state.core == c && Recorded(t.run, t.state) && Split(t.state, sockets, eventStreams, t.streams)
  }

  ghost function Then(t: Trace, e: Event): Trace
    requires Possible(t.state, e)
  {
    t.(run := t.run + [e], state := Next(t.state, e))
  }

  /** A step that touches rooms and members only. */
  lemma QuietFollows(t: Trace, c: Core, sockets: map<Id, set<nat>>, eventStreams: map<Id, set<nat>>, e: Event, d: Core)
    requires Follows(t, c, sockets, eventStreams) && Possible(t.state, e) && Quiet(e) && CoreAfter(t.state, e) == d
    ensures Follows(Then(t, e), d, sockets, eventStreams)
  {
    RecordStep(t.run, t.state, e);
    assert Then(t, e).state.channels == t.state.channels;
  }

  /** The first process starts on the empty tables, after the run without steps. */
  lemma FirstStart()
    ensures Recorded([], START) && RoomWrites.Good(START.core, RoomStore.EMPTY)
  {
    IsRecorded([], START);
  }

  /** A restart, whatever the handlers were doing. */
  lemma Restarts(before: Trace, now: int) returns (t: Trace)
    requires Recorded(before.run, before.state)
    ensures t.run == before.run + [Restart(now)] && Follows(t, Restarted(before.state.core, now), map[], map[])
  {
    RecordStep(before.run, before.state, Restart(now));
    t := Then(before, Restart(now)).(streams := {});
  }

  /** IDs never handed out are not in the state. */
  lemma Unused(t: Trace, c: Core, x: Id)
    requires Recorded(t.run, t.state) && t.state.core == c && x !in t.state.used
    ensures x !in c.rooms && x !in c.members && forall r :: r in c.rooms ==> c.rooms[r].host != x
  {
    IsRecorded(t.run, t.state);
    RunInv(t.run);
  }

  /** A change of one setting of a room; of a room that is not there, nothing is asked. */
  function Named(c: Core, r: Id, name: string): Event {
    if r in c.rooms then Configure(r, name, c.rooms[r].hybridAudio, c.rooms[r].announcements)
    else Configure(r, name, false, false)
  }

  function Hybrid(c: Core, r: Id, enabled: bool): Event {
    if r in c.rooms then Configure(r, c.rooms[r].name, enabled, c.rooms[r].announcements)
    else Configure(r, "", enabled, false)
  }

  function Announcing(c: Core, r: Id, enabled: bool): Event {
    if r in c.rooms then Configure(r, c.rooms[r].name, c.rooms[r].hybridAudio, enabled)
    else Configure(r, "", false, enabled)
  }

  lemma BusyIsChannels(s: State, sockets: map<Id, set<nat>>, eventStreams: map<Id, set<nat>>, streams: set<nat>, m: Id)
    requires Split(s, sockets, eventStreams, streams)
    ensures Channels(s, m) == ChannelsOf(sockets, m) + ChannelsOf(eventStreams, m)
  {
    assert ChannelsOf(sockets, m) == Channels(s, m) - streams
      && ChannelsOf(eventStreams, m) == Channels(s, m) * streams;
  }

  /** A new handler's connection is nobody's channel yet, so its kind can be chosen. */
  lemma FindFollows(t: Trace, c: Core, sockets: map<Id, set<nat>>, eventStreams: map<Id, set<nat>>, h: nat, m: Id,
                    stream: bool)
    requires Follows(t, c, sockets, eventStreams) && Possible(t.state, Find(h, m))
    ensures var u := Then(t, Find(h, m)).(streams := if stream then t.streams + {h} else t.streams - {h});
            Follows(u, c, sockets, eventStreams)
  {
    RecordStep(t.run, t.state, Find(h, m));
    IsRecorded(t.run, t.state);
    RunPresence(t.run);
    var u := Then(t, Find(h, m));
    forall x
      ensures h !in Channels(t.state, x) && Channels(u.state, x) == Channels(t.state, x)
    {
      assert Owned(t.state, x);
    }
  }

  /** One table gets the channel, according to its kind. */
  lemma AddFollows(t: Trace, c: Core, sockets: map<Id, set<nat>>, eventStreams: map<Id, set<nat>>, h: nat, m: Id,
                   sockets': map<Id, set<nat>>, eventStreams': map<Id, set<nat>>)
    requires Follows(t, c, sockets, eventStreams) && At(t.state, h, Arrived) && t.state.handlers[h].member == m
    requires forall x :: x != m ==> ChannelsOf(sockets', x) == ChannelsOf(sockets, x)
    requires forall x :: x != m ==> ChannelsOf(eventStreams', x) == ChannelsOf(eventStreams, x)
    requires ChannelsOf(sockets', m) == ChannelsOf(sockets, m) + if h in t.streams then {} else {h}
    requires ChannelsOf(eventStreams', m) == ChannelsOf(eventStreams, m) + if h in t.streams then {h} else {}
    ensures Follows(Then(t, Add(h)), c, sockets', eventStreams')
  {
    RecordStep(t.run, t.state, Add(h));
    SplitMoves(t.state, sockets, eventStreams, t.streams, m, Then(t, Add(h)).state, sockets', eventStreams');
  }

  lemma RemoveFollows(t: Trace, c: Core, sockets: map<Id, set<nat>>, eventStreams: map<Id, set<nat>>, h: nat, m: Id,
                      sockets': map<Id, set<nat>>, eventStreams': map<Id, set<nat>>)
    requires Follows(t, c, sockets, eventStreams) && (At(t.state, h, Live) || At(t.state, h, Added))
      && t.state.handlers[h].member == m
    requires forall x :: x != m ==> ChannelsOf(sockets', x) == ChannelsOf(sockets, x)
    requires forall x :: x != m ==> ChannelsOf(eventStreams', x) == ChannelsOf(eventStreams, x)
    requires ChannelsOf(sockets', m) == ChannelsOf(sockets, m) - if h in t.streams then {} else {h}
    requires ChannelsOf(eventStreams', m) == ChannelsOf(eventStreams, m) - if h in t.streams then {h} else {}
    ensures Follows(Then(t, Remove(h)), c, sockets', eventStreams')
  {
    RecordStep(t.run, t.state, Remove(h));
    SplitMoves(t.state, sockets, eventStreams, t.streams, m, Then(t, Remove(h)).state, sockets', eventStreams');
  }

  /** Only the channels of m change, and of m the tables agree. */
  lemma SplitMoves(s: State, sockets: map<Id, set<nat>>, eventStreams: map<Id, set<nat>>, streams: set<nat>, m: Id,
                   s': State, sockets': map<Id, set<nat>>, eventStreams': map<Id, set<nat>>)
    requires Split(s, sockets, eventStreams, streams)
    requires forall x :: x != m ==>
      Channels(s', x) == Channels(s, x) && ChannelsOf(sockets', x) == ChannelsOf(sockets, x)
      && ChannelsOf(eventStreams', x) == ChannelsOf(eventStreams, x)
    requires ChannelsOf(sockets', m) == Channels(s', m) - streams
      && ChannelsOf(eventStreams', m) == Channels(s', m) * streams
    ensures Split(s', sockets', eventStreams', streams)
  {
  }

  /** Marking, with the channels of either kind seen. */
  lemma MarkFollows(t: Trace, c: Core, sockets: map<Id, set<nat>>, eventStreams: map<Id, set<nat>>, e: Event, now: int)
    requires Follows(t, c, sockets, eventStreams) && Possible(t.state, e) && (e.MarkOn? || (e.MarkOff? && e.now == now))
    ensures var m := t.state.handlers[e.h].member;
            var busy := ChannelsOf(sockets, m) != {} || ChannelsOf(eventStreams, m) != {};
            Follows(Then(t, e), Marked(c, m, e.MarkOn?, busy, now), sockets, eventStreams)
  {
    RecordStep(t.run, t.state, e);
    BusyIsChannels(t.state, sockets, eventStreams, t.streams, t.state.handlers[e.h].member);
    assert Then(t, e).state.channels == t.state.channels;
  }

  lemma LookFollows(t: Trace, c: Core, sockets: map<Id, set<nat>>, eventStreams: map<Id, set<nat>>, h: nat)
    requires Follows(t, c, sockets, eventStreams) && At(t.state, h, Removed)
    ensures var m := t.state.handlers[h].member;
            && Follows(Then(t, Check(h)), c, sockets, eventStreams)
            && Then(t, Check(h)).state.handlers[h]
               == Handler(m, if ChannelsOf(sockets, m) != {} || ChannelsOf(eventStreams, m) != {} then Done
                          else Closing)
  {
    RecordStep(t.run, t.state, Check(h));
    BusyIsChannels(t.state, sockets, eventStreams, t.streams, t.state.handlers[h].member);
    assert Then(t, Check(h)).state.channels == t.state.channels;
  }

  class Service {
    const server: PublicServer.Server
    ghost var trace: Trace

    ghost predicate Valid()
      reads this, server, server.store, server.rooms.Values, server.members.Values
    {
      server.Valid() && server.Limits() && Follows(trace, server.View(), server.sockets, server.eventStreams)
    }

    ghost method Adopt(t: Trace)
      requires server.Valid() && server.Limits() && Follows(t, server.View(), server.sockets, server.eventStreams)
      modifies this
      ensures Valid() && trace == t
    {
      trace := t;
    }

    /** The server has carried out a step that touches rooms and members only. */
    ghost method Record(e: Event, c: Core)
      requires server.Valid() && server.Limits() && Follows(trace, c, server.sockets, server.eventStreams)
      requires Possible(trace.state, e) && Quiet(e) && CoreAfter(trace.state, e) == server.View()
      modifies this
      ensures Valid() && trace == Then(old(trace), e)
    {
      QuietFollows(trace, c, server.sockets, server.eventStreams, e, server.View());
      Adopt(Then(trace, e));
    }

    /** The process starts on the tables that an earlier run left behind. */
    constructor (store: RoomStore.Store, maximumRooms: int, maximumParticipants: int, now: int, ghost before: Trace)
      requires Recorded(before.run, before.state) && RoomWrites.Good(before.state.core, store.tables)
      modifies store
      ensures Valid() && server.store == store && trace.run == before.run + [Restart(now)]
    {
      ghost var t := Restarts(before, now);
      trace := t;
      server := new PublicServer.Server(store, maximumRooms, maximumParticipants, now, before.state.core);
    }

    // ---- rooms ----

    method CreateRoom(ip: string, device: string, name: string, nickname: string, capacity: int, hostTimeout: int,
                      access: Access, monitoringKey: Option<string>, monitoring: bool, proof: Option<Digest>, r: Id,
                      m: Id, token: Digest, createdAt: int, now: int, ok1: bool, ok2: bool, ok3: bool, ok4: bool,
                      undone: bool, grants: bool)
      returns (status: HandlerSpecs.Status)
      requires Valid() && server.clock <= now && r != m && r !in trace.state.used && m !in trace.state.used
      modifies this, server, server.store
      ensures server.clock <= now && (Valid() <==> !(status.Failed? && ok1 && !undone))
      ensures Follows(trace, server.View(), server.sockets, server.eventStreams)
      ensures trace.run == old(trace.run) + if status.Done?
        then [Create(r, m, name, nickname, capacity, hostTimeout, access, monitoringKey, device, proof, token,
                     createdAt)]
        else []
    {
      ghost var c := server.View();
      Unused(trace, c, r);
      Unused(trace, c, m);
      status := server.CreateRoom(ip, device, name, nickname, capacity, hostTimeout, access, monitoringKey, monitoring,
                                  proof, r, m, token, createdAt, now, ok1, ok2, ok3, ok4, undone, grants);
      assert Follows(trace, c, server.sockets, server.eventStreams) || status.Done?;
      if status.Done? {
        Record(Create(r, m, name, nickname, capacity, hostTimeout, access, monitoringKey, device, proof, token,
                      createdAt), c);
      }
    }

    method JoinRoom(ip: string, r: Id, credential: Digest, nickname: string, device: string, proof: Option<Digest>,
                    m: Id, token: Digest, now: int, grants: bool, accepts: bool)
      returns (status: HandlerSpecs.Status, joined: Id, ghost order: int)
      requires Valid() && server.clock <= now && m !in trace.state.used
      modifies this, server, server.store
      ensures Valid() && server.clock <= now
      ensures trace.run == old(trace.run) + if !status.Done? then [] else if joined == m
        then [Join(m, r, credential, nickname, device, proof, token, order, now)]
        else [Rejoin(joined, r, credential, nickname, device, proof, token, now)]
    {
      ghost var c := server.View();
      Unused(trace, c, m);
      status, joined, order := server.JoinRoom(ip, r, credential, nickname, device, proof, m, token, now, grants,
                                               accepts);
      if status.Done? {
        Record(if joined == m then Join(m, r, credential, nickname, device, proof, token, order, now)
               else Rejoin(joined, r, credential, nickname, device, proof, token, now), c);
      }
    }

    method Resume(r: Id, m: Id, previous: Digest, token: Digest, now: int, grants: bool)
      returns (status: HandlerSpecs.Status)
      requires Valid() && server.clock <= now
      modifies this, server, server.store, server.rooms.Values, server.members.Values
      ensures Valid() && server.clock <= now
      ensures trace.run == old(trace.run) + if status.Done? || status.Failed?
        then [RoomMachine.Resume(m, r, previous, token, now)] else []
    {
      ghost var c := server.View();
      status := server.Resume(r, m, previous, token, now, grants);
      if status.Done? || status.Failed? {
        Record(RoomMachine.Resume(m, r, previous, token, now), c);
      }
    }

    method VoicePolicy(caller: Id, r: Id, m: Id, canSpeak: bool) returns (status: HandlerSpecs.Status)
      requires Valid() && caller in server.members
      modifies this, server.store, server.members.Values
      ensures Valid()
      ensures trace.run == old(trace.run) + if status.Done? then [Mute(r, m, canSpeak)] else []
    {
      ghost var c := server.View();
      status := server.VoicePolicy(caller, r, m, canSpeak);
      if status.Done? {
        Record(Mute(r, m, canSpeak), c);
      }
    }

    method AdminVoicePolicy(r: Id, m: Id, canSpeak: bool, accepts: bool) returns (status: HandlerSpecs.Status)
      requires Valid()
      modifies this, server.store, server.members.Values
      ensures Valid()
      ensures trace.run == old(trace.run) + if status.Done? then [Mute(r, m, canSpeak)] else []
    {
      ghost var c := server.View();
      status := server.AdminVoicePolicy(r, m, canSpeak, accepts);
      if status.Done? {
        Record(Mute(r, m, canSpeak), c);
      }
    }

    method Handover(caller: Id, r: Id, m: Id) returns (status: HandlerSpecs.Status)
      requires Valid() && caller in server.members
      modifies this, server.store, server.rooms.Values, server.members.Values
      ensures Valid()
      ensures trace.run == old(trace.run) + if status.Done? then [RoomMachine.Handover(caller, r, m)] else []
    {
      ghost var c := server.View();
      status := server.Handover(caller, r, m);
      if status.Done? {
        Record(RoomMachine.Handover(caller, r, m), c);
      }
    }

    method LeaveMember(caller: Id, r: Id, m: Id) returns (status: HandlerSpecs.Status)
      requires Valid() && caller in server.members
      modifies this, server, server.store, server.rooms.Values, server.members.Values
      ensures Valid()
      ensures trace.run == old(trace.run) + if status.Done? then [Leave(caller)] else []
    {
      ghost var c := server.View();
      status := server.LeaveMember(caller, r, m);
      assert Follows(trace, c, server.sockets, server.eventStreams);
      if status.Done? {
        Record(Leave(caller), c);
      }
    }

    method RenameRoom(caller: Id, r: Id, name: string) returns (status: HandlerSpecs.Status)
      requires Valid() && caller in server.members
      modifies this, server.store, server.rooms.Values
      ensures Valid()
      ensures trace.run == old(trace.run) + if status.Done? then [Named(old(trace.state.core), r, name)] else []
    {
      ghost var c := server.View();
      status := server.RenameRoom(caller, r, name);
      if status.Done? {
        Record(Named(c, r, name), c);
      }
    }

    method AdminRenameRoom(r: Id, name: string, accepts: bool) returns (status: HandlerSpecs.Status)
      requires Valid()
      modifies this, server.store, server.rooms.Values
      ensures Valid()
      ensures trace.run == old(trace.run) + if status.Done? then [Named(old(trace.state.core), r, name)] else []
    {
      ghost var c := server.View();
      status := server.AdminRenameRoom(r, name, accepts);
      if status.Done? {
        Record(Named(c, r, name), c);
      }
    }

    method SetHybridAudio(caller: Id, r: Id, enabled: bool, offered: bool, accepts: bool)
      returns (status: HandlerSpecs.Status)
      requires Valid() && caller in server.members
      modifies this, server.store, server.rooms.Values
      ensures Valid()
      ensures trace.run == old(trace.run) + if status.Done? then [Hybrid(old(trace.state.core), r, enabled)] else []
    {
      ghost var c := server.View();
      status := server.SetHybridAudio(caller, r, enabled, offered, accepts);
      if status.Done? {
        Record(Hybrid(c, r, enabled), c);
      }
    }

    method SetPresenceAnnouncements(caller: Id, r: Id, enabled: bool, accepts: bool)
      returns (status: HandlerSpecs.Status)
      requires Valid() && caller in server.members
      modifies this, server.store, server.rooms.Values
      ensures Valid()
      ensures trace.run == old(trace.run) + if status.Done? then [Announcing(old(trace.state.core), r, enabled)] else []
    {
      ghost var c := server.View();
      status := server.SetPresenceAnnouncements(caller, r, enabled, accepts);
      if status.Done? {
        Record(Announcing(c, r, enabled), c);
      }
    }

    method EndRoom(caller: Id, r: Id) returns (status: HandlerSpecs.Status)
      requires Valid() && caller in server.members
      modifies this, server, server.store
      ensures Valid()
      ensures trace.run == old(trace.run) + if status.Done? then [End(r)] else []
    {
      ghost var c := server.View();
      status := server.EndRoom(caller, r);
      assert Follows(trace, c, server.sockets, server.eventStreams);
      if status.Done? {
        Record(End(r), c);
      }
    }

    method AdminEndRoom(r: Id) returns (status: HandlerSpecs.Status)
      requires Valid()
      modifies this, server, server.store
      ensures Valid()
      ensures trace.run == old(trace.run) + if status.Done? then [End(r)] else []
    {
      ghost var c := server.View();
      status := server.AdminEndRoom(r);
      if status.Done? {
        Record(End(r), c);
      }
    }

    method Sweep(now: int)
      requires Valid()
      modifies this, server, server.store, server.rooms.Values, server.members.Values
      ensures Valid() && trace.run == old(trace.run) + [RoomMachine.Sweep(now)]
    {
      ghost var c := server.View();
      server.Sweep(now);
      Record(RoomMachine.Sweep(now), c);
    }

    // ---- connections: the lock sections of events and eventHTTPStream, in the order each handler takes them ----

    /** eventPrincipal, for connection h of a new handler. */
    method Find(token: Digest, h: nat, stream: bool) returns (found: Option<Id>)
      requires Valid() && h !in trace.state.handlers
      modifies this
      ensures Valid()
      ensures found.None? ==> trace == old(trace)
      ensures found.Some? ==> trace.run == old(trace.run) + [RoomMachine.Find(h, found.value)]
      ensures found.Some? ==> Stands(h, found.value, Arrived) && (h in trace.streams <==> stream)
    {
      found := server.EventPrincipal(token);
      if found.Some? {
        FindFollows(trace, server.View(), server.sockets, server.eventStreams, h, found.value, stream);
        trace := Then(trace, RoomMachine.Find(h, found.value)).(
          streams := if stream then trace.streams + {h} else trace.streams - {h});
      }
    }

    /** The handler of connection h has found m and stands at this point. */
    ghost predicate Stands(h: nat, m: Id, p: Point)
      reads this
    {
      h in trace.state.handlers && trace.state.handlers[h] == Handler(m, p)
    }

    /** The tables of channels are all that changes. */
    twostate predicate ChannelsOnly()
      reads server, server.store, server.rooms.Values, server.members.Values
    {
      server.Valid() && server.Limits() && server.View() == old(server.View())
    }

    method AddChannel(h: nat, m: Id, stream: bool)
      requires server.Valid() && server.Limits()
      modifies server`sockets, server`eventStreams
      ensures ChannelsOnly()
      ensures forall x :: x != m ==> ChannelsOf(server.sockets, x) == ChannelsOf(old(server.sockets), x)
      ensures forall x :: x != m ==> ChannelsOf(server.eventStreams, x) == ChannelsOf(old(server.eventStreams), x)
      ensures ChannelsOf(server.sockets, m) == ChannelsOf(old(server.sockets), m) + if stream then {} else {h}
      ensures ChannelsOf(server.eventStreams, m) == ChannelsOf(old(server.eventStreams), m) + if stream then {h} else {}
    {
      if stream {
        server.AddEventStream(m, h);
      } else {
        server.AddSocket(m, h);
      }
    }

    method RemoveChannel(h: nat, m: Id, stream: bool)
      requires server.Valid() && server.Limits()
      modifies server`sockets, server`eventStreams
      ensures ChannelsOnly()
      ensures forall x :: x != m ==> ChannelsOf(server.sockets, x) == ChannelsOf(old(server.sockets), x)
      ensures forall x :: x != m ==> ChannelsOf(server.eventStreams, x) == ChannelsOf(old(server.eventStreams), x)
      ensures ChannelsOf(server.sockets, m) == ChannelsOf(old(server.sockets), m) - if stream then {} else {h}
      ensures ChannelsOf(server.eventStreams, m) == ChannelsOf(old(server.eventStreams), m) - if stream then {h} else {}
    {
      if stream {
        server.RemoveEventStream(m, h);
      } else {
        server.RemoveSocket(m, h);
      }
    }

    /** addSocket or addEventStream. */
    method Register(h: nat, m: Id, stream: bool)
      requires Valid() && Stands(h, m, Arrived) && (stream <==> h in trace.streams)
      modifies this, server
      ensures Valid() && trace == Then(old(trace), Add(h))
    {
      ghost var c, sockets, eventStreams := server.View(), server.sockets, server.eventStreams;
      AddChannel(h, m, stream);
      AddFollows(trace, c, sockets, eventStreams, h, m, server.sockets, server.eventStreams);
      Adopt(Then(trace, Add(h)));
    }

    /** removeSocket or removeEventStream. */
    method Unregister(h: nat, m: Id, stream: bool)
      requires Valid() && (Stands(h, m, Live) || Stands(h, m, Added)) && (stream <==> h in trace.streams)
      modifies this, server
      ensures Valid() && trace == Then(old(trace), Remove(h))
    {
      ghost var c, sockets, eventStreams := server.View(), server.sockets, server.eventStreams;
      RemoveChannel(h, m, stream);
      RemoveFollows(trace, c, sockets, eventStreams, h, m, server.sockets, server.eventStreams);
      Adopt(Then(trace, Remove(h)));
    }

    /** markConnected(m, true). */
    method Connect(h: nat, m: Id, now: int)
      requires Valid() && Stands(h, m, Added)
      modifies this, server.store, server.rooms.Values, server.members.Values
      ensures Valid() && trace == Then(old(trace), MarkOn(h))
    {
      ghost var c := server.View();
      MarkFollows(trace, c, server.sockets, server.eventStreams, MarkOn(h), now);
      server.MarkConnected(m, true, now);
      Adopt(Then(trace, MarkOn(h)));
    }

    /** hasSocket: the handler goes on to markConnected only if nobody else is there. */
    method Look(h: nat, m: Id) returns (busy: bool)
      requires Valid() && Stands(h, m, Removed)
      modifies this
      ensures Valid() && trace == Then(old(trace), Check(h)) && Stands(h, m, if busy then Done else Closing)
    {
      busy := server.HasSocket(m);
      LookFollows(trace, server.View(), server.sockets, server.eventStreams, h);
      Adopt(Then(trace, Check(h)));
    }

    /** markConnected(m, false). */
    method Disconnect(h: nat, m: Id, now: int)
      requires Valid() && Stands(h, m, Closing)
      modifies this, server.store, server.rooms.Values, server.members.Values
      ensures Valid() && trace == Then(old(trace), MarkOff(h, now))
    {
      ghost var c := server.View();
      MarkFollows(trace, c, server.sockets, server.eventStreams, MarkOff(h, now), now);
      server.MarkConnected(m, false, now);
      Adopt(Then(trace, MarkOff(h, now)));
    }

    // ---- what holds of the live objects ----

    /** A live member none of whose handlers is about to mark it is online exactly when a channel of its is open. */
    lemma OnlineIffBusy(m: Id)
      requires Valid() && m in server.members && Quiescent(trace.state, m)
      ensures server.members[m].connected <==> server.Busy(m)
    {
      IsRecorded(trace.run, trace.state);
      assert m in server.View().members;
      PresenceFollowsChannels(trace.run, m);
      BusyIsChannels(trace.state, server.sockets, server.eventStreams, trace.streams, m);
    }

    /** While a handler stands at its established stream, its member's object is online and its room is not ending. */
    lemma EstablishedStaysOnline(h: nat, m: Id)
      requires Valid() && Stands(h, m, Live) && m in server.members
      ensures server.members[m].connected
      ensures server.members[m].room in server.rooms && server.rooms[server.members[m].room].emptyDeadline.None?
    {
      IsRecorded(trace.run, trace.state);
      assert m in server.View().members;
      LiveStaysOnline(trace.run, h);
      assert server.members[m].room in server.View().rooms;
    }
  }
}
