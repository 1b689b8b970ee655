/**
 Every run of the public server: handlers, sweeps and restarts, interleaved with any number of
 event connections (WebSockets and HTTP streams).  Each step is one section under the state lock.
 */
module RoomMachine {
  import opened Collections
  import opened RoomState
  import opened RoomInvariant
  import RoomSweep
  import Admission

  /**
   Where a connection's handler stands between two lock sections: it found its member, registered
   its channel, marked the member online, unregistered the channel, saw no other channel, finished.
   */
  datatype Point = Arrived | Added | Live | Removed | Closing | Done

  datatype Handler = Handler(member: Id, at: Point)

  /** used holds every room and member ID handed out so far; IDs are random and never repeat. */
  datatype State = State(core: Core, channels: map<Id, set<nat>>, handlers: map<nat, Handler>, used: set<Id>)

  const START := State(Core(map[], map[]), map[], map[], {})

  function Channels(s: State, m: Id): set<nat> {
    ChannelsOf(s.channels, m)
  }

  datatype Event =
    | Create(r: Id, m: Id, name: string, nickname: string, capacity: int, hostTimeout: int, access: Access,
             monitoringKey: Option<string>, device: string, proof: Option<Digest>, token: Digest, now: int)
    | Join(m: Id, r: Id, credential: Digest, nickname: string, device: string, proof: Option<Digest>, token: Digest,
           order: int, now: int)
    | Rejoin(m: Id, r: Id, credential: Digest, nickname: string, device: string, proof: Option<Digest>, token: Digest,
             now: int)
    | Resume(m: Id, r: Id, previous: Digest, token: Digest, now: int)
    | Mute(r: Id, m: Id, canSpeak: bool)
    | Handover(caller: Id, r: Id, m: Id)
    | Leave(m: Id)
    | Configure(r: Id, name: string, hybridAudio: bool, announcements: bool)
    | End(r: Id)
    | Sweep(now: int)
    | Restart(now: int)
    | Find(h: nat, m: Id)     // eventPrincipal
    | Add(h: nat)             // addSocket, addEventStream
    | MarkOn(h: nat)          // markConnected(id, true)
    | Remove(h: nat)          // removeSocket, removeEventStream
    | Check(h: nat)           // hasSocket
    | MarkOff(h: nat, now: int) // markConnected(id, false)

  predicate At(s: State, h: nat, p: Point) {
    h in s.handlers && s.handlers[h].at == p
  }

  ghost predicate Possible(s: State, e: Event) {
    match e
    case Create(r, m, _, _, capacity, _, _, _, _, _, _, _) => r !in s.used && m !in s.used && r != m && capacity >= 2
    case Join(m, r, credential, _, device, proof, _, order, _) =>
      m !in s.used && Admission.Decide(s.core, r, credential, device, proof) == Admission.Admit
        && IsNextOrder(s.core.members, r, order)
    case Rejoin(m, r, credential, _, device, proof, _, _) =>
      m in s.core.members && Admission.Decide(s.core, r, credential, device, proof) == Admission.Readmit(m)
    case Resume(m, r, previous, _, now) => MayResume(s.core, m, r, previous, now)
    case Mute(r, m, _) => MayMute(s.core, r, m)
    case Handover(caller, r, m) => ActsAsHost(s.core, caller, r) && MayReceiveRoom(s.core, caller, r, m)
    case Leave(m) => m in s.core.members
    case Configure(r, _, _, _) => r in s.core.rooms
    case End(r) => r in s.core.rooms
    case Sweep(_) => true
    case Restart(_) => true
    case Find(h, m) => h !in s.handlers && m in s.core.members
    case Add(h) => At(s, h, Arrived)
    case MarkOn(h) => At(s, h, Added)
    case Remove(h) => At(s, h, Live) || At(s, h, Added)
    case Check(h) => At(s, h, Removed)
    case MarkOff(h, _) => At(s, h, Closing)
  }

  function To(s: State, h: nat, p: Point): State
    requires h in s.handlers
  {
    s.(handlers := s.handlers[h := s.handlers[h].(at := p)])
  }

  /** The handlers that touch rooms and members only. */
  ghost function CoreAfter(s: State, e: Event): Core
    requires Possible(s, e)
  {
    var c := s.core;
    match e
    case Create(r, m, name, nickname, capacity, hostTimeout, access, key, device, proof, token, now) =>
      Created(c, r, NewRoom(m, name, nickname, capacity, hostTimeout, now, access, key), m,
              Creator(r, nickname, device, proof, token))
    case Join(m, r, _, nickname, device, proof, token, order, now) =>
      Joined(c, m, r, nickname, device, proof, token, order, now)
    case Rejoin(m, _, _, nickname, _, _, token, now) => Rejoined(c, m, nickname, token, now)
    case Resume(m, _, _, token, now) => Resumed(c, m, token, now)
    case Mute(_, m, canSpeak) => Muted(c, m, canSpeak)
    case Handover(caller, _, m) => HandedOver(c, caller, m)
    case Leave(m) => Left(c, m)
    case Configure(r, name, hybrid, announcements) =>
      WithRoom(c, r, c.rooms[r].(name := name, hybridAudio := hybrid, announcements := announcements))
    case End(r) => Deleted(c, r)
    case Sweep(now) => Swept(c, now)
    case Restart(now) => Restarted(c, now)
    case MarkOn(h) => Marked(c, s.handlers[h].member, true, Channels(s, s.handlers[h].member) != {}, 0)
    case MarkOff(h, now) => Marked(c, s.handlers[h].member, false, Channels(s, s.handlers[h].member) != {}, now)
    case _ => c
  }

  ghost function Next(s: State, e: Event): State
    requires Possible(s, e)
  {
    var t := s.(core := CoreAfter(s, e));
    match e
    case Create(r, m, _, _, _, _, _, _, _, _, _, _) => t.(used := s.used + {r, m})
    case Join(m, _, _, _, _, _, _, _, _) => t.(used := s.used + {m})
    case Restart(_) => t.(channels := map[], handlers := map[])
    case Find(h, m) => t.(handlers := s.handlers[h := Handler(m, Arrived)])
    case Add(h) =>
      var m := s.handlers[h].member;
      To(t, h, Added).(channels := s.channels[m := Channels(s, m) + {h}])
    case MarkOn(h) => To(t, h, Live)
    case Remove(h) =>
      var m := s.handlers[h].member;
      To(t, h, Removed).(channels := s.channels[m := Channels(s, m) - {h}])
    case Check(h) => To(t, h, if Channels(s, s.handlers[h].member) != {} then Done else Closing)
    case MarkOff(h, _) => To(t, h, Done)
    case _ => t
  }

  ghost predicate IsRun(run: seq<Event>)
    decreases |run|, 0
  {
    run == [] || (IsRun(run[..|run| - 1]) && Possible(After(run[..|run| - 1]), run[|run| - 1]))
  }

  ghost function After(run: seq<Event>): State
    requires IsRun(run)
    decreases |run|, 1
  {
    if run == [] then START else Next(After(run[..|run| - 1]), run[|run| - 1])
  }

  lemma Extend(run: seq<Event>, e: Event)
    requires IsRun(run) && Possible(After(run), e)
    ensures IsRun(run + [e]) && After(run + [e]) == Next(After(run), e)
  {
    assert (run + [e])[..|run|] == run;
  }

  // ---- the room invariant ----

  /** IDs in the state have been handed out. */
  ghost predicate Known(s: State) {
    && s.core.rooms.Keys + s.core.members.Keys <= s.used
    && (forall r :: r in s.core.rooms ==> s.core.rooms[r].host in s.used)
    && (forall h :: h in s.handlers ==> s.handlers[h].member in s.used)
  }

  /** No handler that removes or keeps members adds a member, a room, or an unknown host. */
  predicate Shrinks(c: Core, d: Core) {
    && d.members.Keys <= c.members.Keys && d.rooms.Keys <= c.rooms.Keys
    && (forall m :: m in d.members ==>
        SameIdentity(c.members[m], d.members[m]) && d.members[m].connected == c.members[m].connected)
    && (forall r :: r in d.rooms ==> d.rooms[r].host == c.rooms[r].host || d.rooms[r].host in c.members)
  }

  lemma AssignedShape(c: Core, r: Id)
    requires r in c.rooms
    ensures Shrinks(c, Assigned(c, r))
  {
    if Candidates(c.members, r) != {} {
      RerolledIdentity(c.members, c.rooms[r].host, Successor(c.members, r));
    }
  }

  lemma LeftShape(c: Core, m: Id)
    requires m in c.members
    ensures Shrinks(c, Left(c, m))
  {
    var r := c.members[m].room;
    if r in c.rooms {
      AssignedShape(c.(members := c.members - {m}), r);
    }
  }

  lemma SweptShape(c: Core, now: int)
    requires Inv(c)
    ensures Shrinks(c, Swept(c, now))
  {
  }

  lemma RestartedShape(c: Core, now: int)
    ensures var d := Restarted(c, now);
            && d.members.Keys == c.members.Keys && d.rooms.Keys == c.rooms.Keys
            && (forall r :: r in d.rooms ==> d.rooms[r].host == c.rooms[r].host)
  {
  }

  /** The handlers that only edit records. */
  lemma EditShape(s: State, e: Event)
    requires Inv(s.core) && Possible(s, e) && (e.Rejoin? || e.Resume? || e.Mute? || e.Configure? || e.End?)
    ensures Shrinks(s.core, CoreAfter(s, e))
  {
  }

  lemma MarkShape(c: Core, m: Id, connected: bool, busy: bool, now: int)
    requires Inv(c)
    ensures var d := Marked(c, m, connected, busy, now);
            && d.members.Keys == c.members.Keys && d.rooms.Keys == c.rooms.Keys
            && (forall r :: r in d.rooms ==> d.rooms[r].host == c.rooms[r].host)
            && (forall x :: x in d.members && x != m ==> d.members[x] == c.members[x])
            && (m in d.members ==> d.members[m].connected == if connected then true else busy && c.members[m].connected)
  {
    if m in c.members {
      assert MemberOk(c, m);
    }
  }

  /** Every quiet handler but the two that add somebody. */
  lemma QuietShape(s: State, e: Event)
    requires Inv(s.core) && Possible(s, e) && Quiet(e) && !e.Create? && !e.Join?
    ensures Shrinks(s.core, CoreAfter(s, e))
  {
    if e.Leave? {
      LeftShape(s.core, e.m);
    } else if e.Sweep? {
      SweptShape(s.core, e.now);
    } else if e.Handover? {
      RerolledIdentity(s.core.members, e.caller, e.m);
    } else {
      EditShape(s, e);
    }
  }

  lemma KnownAfter(s: State, d: Core)
    requires Known(s) && d.members.Keys <= s.core.members.Keys && d.rooms.Keys <= s.core.rooms.Keys
    requires forall r :: r in d.rooms ==> d.rooms[r].host == s.core.rooms[r].host || d.rooms[r].host in s.core.members
    ensures d.rooms.Keys + d.members.Keys <= s.used && forall r :: r in d.rooms ==> d.rooms[r].host in s.used
  {
  }

  lemma AdditionKnown(s: State, e: Event)
    requires Known(s) && Possible(s, e) && (e.Create? || e.Join?)
    ensures Known(Next(s, e))
  {
  }

  lemma StepKnown(s: State, e: Event)
    requires Inv(s.core) && Known(s) && Possible(s, e)
    ensures Known(Next(s, e))
  {
    if e.Create? || e.Join? {
      AdditionKnown(s, e);
    } else {
      StepKnownOther(s, e);
    }
  }

  lemma StepKnownOther(s: State, e: Event)
    requires Inv(s.core) && Known(s) && Possible(s, e) && !e.Create? && !e.Join?
    ensures Known(Next(s, e))
  {
    var t := Next(s, e);
    CoreKnown(s, e);
    assert t.core == CoreAfter(s, e) && t.used == s.used;
    assert forall h :: h in t.handlers ==> t.handlers[h].member in s.used;
  }

  lemma CoreKnown(s: State, e: Event)
    requires Inv(s.core) && Known(s) && Possible(s, e) && !e.Create? && !e.Join?
    ensures var d := CoreAfter(s, e);
            d.rooms.Keys + d.members.Keys <= s.used && forall r :: r in d.rooms ==> d.rooms[r].host in s.used
  {
    var d := CoreAfter(s, e);
    if e.MarkOn? {
      MarkShape(s.core, s.handlers[e.h].member, true, Channels(s, s.handlers[e.h].member) != {}, 0);
    } else if e.MarkOff? {
      MarkShape(s.core, s.handlers[e.h].member, false, Channels(s, s.handlers[e.h].member) != {}, e.now);
    } else if e.Restart? {
      RestartedShape(s.core, e.now);
    } else if Quiet(e) {
      QuietShape(s, e);
    }
    KnownAfter(s, d);
  }

  lemma StepInv(s: State, e: Event)
    requires Inv(s.core) && Known(s) && Possible(s, e)
    ensures Inv(Next(s, e).core)
  {
    var c := s.core;
    match e
    case Create(r, m, name, nickname, capacity, hostTimeout, access, key, device, proof, token, now) =>
      CreatedKeeps(c, r, NewRoom(m, name, nickname, capacity, hostTimeout, now, access, key), m,
                   Creator(r, nickname, device, proof, token));
    case Join(m, r, credential, nickname, device, proof, token, order, now) =>
      Admission.AdmittedKeeps(c, m, r, credential, nickname, device, proof, token, order, now);
    case Rejoin(m, _, _, nickname, _, _, token, now) => RejoinedKeeps(c, m, nickname, token, now);
    case Resume(m, _, _, token, now) => ResumedKeeps(c, m, token, now);
    case Mute(r, m, canSpeak) => MutedKeeps(c, r, m, canSpeak);
    case Handover(caller, r, m) => HandedOverKeeps(c, caller, r, m);
    case Leave(m) => LeftKeeps(c, m);
    case Configure(r, name, hybrid, announcements) =>
      WithRoomKeeps(c, r, c.rooms[r].(name := name, hybridAudio := hybrid, announcements := announcements));
    case End(r) => DeletedKeeps(c, r);
    case Sweep(now) => RoomSweep.SweptKeeps(c, now);
    case Restart(now) => RestartedKeeps(c, now);
    case MarkOn(h) => MarkedKeeps(c, s.handlers[h].member, true, Channels(s, s.handlers[h].member) != {}, 0);
    case MarkOff(h, now) => MarkedKeeps(c, s.handlers[h].member, false, Channels(s, s.handlers[h].member) != {}, now);
    case _ =>
  }

  /** The room invariant holds after every run. */
  lemma {:induction false} RunInv(run: seq<Event>)
    requires IsRun(run)
    ensures Inv(After(run).core) && Known(After(run))
  {
    if run != [] {
      RunInv(run[..|run| - 1]);
      StepInv(After(run[..|run| - 1]), run[|run| - 1]);
      StepKnown(After(run[..|run| - 1]), run[|run| - 1]);
    }
  }

  // ---- presence ----

  /** A handler's channel is registered exactly from Added to Removed. */
  predicate Registered(s: State, h: nat)
    requires h in s.handlers
  {
    h in Channels(s, s.handlers[h].member) <==> s.handlers[h].at == Added || s.handlers[h].at == Live
  }

  predicate Owned(s: State, m: Id) {
    forall h :: h in Channels(s, m) ==> h in s.handlers && s.handlers[h].member == m
  }

  /** A handler of m still has to look whether it was the last. */
  predicate ClosingSoon(s: State, m: Id) {
    exists h :: h in s.handlers && s.handlers[h].member == m
      && (s.handlers[h].at == Removed || s.handlers[h].at == Closing)
  }

  predicate OpeningSoon(s: State, m: Id) {
    exists h :: h in s.handlers && s.handlers[h].member == m && s.handlers[h].at == Added
  }

  predicate OnlineIsExplained(s: State, m: Id)
    requires m in s.core.members
  {
    s.core.members[m].connected && Channels(s, m) == {} ==> ClosingSoon(s, m)
  }

  predicate LiveIsOnline(s: State, h: nat)
    requires h in s.handlers
  {
    s.handlers[h].at == Live && s.handlers[h].member in s.core.members ==>
      s.core.members[s.handlers[h].member].connected
  }

  ghost predicate Presence(s: State) {
    && (forall h :: h in s.handlers ==> Registered(s, h))
    && (forall h :: h in s.handlers ==> LiveIsOnline(s, h))
    && (forall m :: Owned(s, m))
    && (forall m :: m in s.core.members ==> OnlineIsExplained(s, m))
  }

  /** Steps that leave connections alone, and presence of the members that remain. */
  lemma OtherStep(s: State, t: State)
    requires Presence(s) && Known(s) && t.channels == s.channels && t.handlers == s.handlers
    requires forall m :: m in t.core.members && m in s.core.members ==>
      t.core.members[m].connected == s.core.members[m].connected
    requires forall m :: m in t.core.members && m !in s.core.members ==> m !in s.used && !t.core.members[m].connected
    ensures Presence(t)
  {
    forall h | h in t.handlers
      ensures Registered(t, h) && LiveIsOnline(t, h)
    {
      assert Registered(s, h) && LiveIsOnline(s, h);
    }
    forall m
      ensures Owned(t, m)
    {
      assert Owned(s, m);
    }
    forall m | m in t.core.members
      ensures OnlineIsExplained(t, m)
    {
      if t.core.members[m].connected {
        assert OnlineIsExplained(s, m);
        assert ClosingSoon(s, m) ==> ClosingSoon(t, m);
      }
    }
  }

  predicate Quiet(e: Event) {
    !e.Restart? && !e.Find? && !e.Add? && !e.MarkOn? && !e.Remove? && !e.Check? && !e.MarkOff?
  }

  lemma QuietStep(s: State, e: Event)
    requires Inv(s.core) && Known(s) && Presence(s) && Possible(s, e) && Quiet(e)
    ensures Presence(Next(s, e))
  {
    if e.Create? || e.Join? {
      OtherStep(s, Next(s, e));
    } else {
      QuietShape(s, e);
      OtherStep(s, s.(core := CoreAfter(s, e)));
    }
  }

  /** Everything a step of handler h leaves as it was about other handlers. */
  lemma OtherHandlers(s: State, t: State, h: nat, m: Id)
    requires Presence(s) && h in t.handlers && t.handlers[h].member == m && t.handlers == s.handlers[h := t.handlers[h]]
    requires h in s.handlers ==> s.handlers[h].member == m
    requires forall x :: x != m ==> Channels(t, x) == Channels(s, x)
    requires forall k :: k != h ==> (k in Channels(t, m) <==> k in Channels(s, m))
    ensures forall k :: k in t.handlers && k != h ==> Registered(t, k)
    ensures forall x :: x != m ==> Owned(t, x)
    ensures forall k :: k in Channels(t, m) && k != h ==> k in t.handlers && t.handlers[k].member == m
  {
    forall k | k in t.handlers && k != h
      ensures Registered(t, k)
    {
      assert Registered(s, k);
    }
    forall x | x != m
      ensures Owned(t, x)
    {
      assert Owned(s, x);
      assert h !in Channels(s, x);
    }
    assert Owned(s, m);
  }

  /** A step of handler h of member m: what is left to check is m itself. */
  lemma HandlerStep(s: State, t: State, h: nat, m: Id)
    requires Presence(s) && h in t.handlers && t.handlers[h].member == m && t.handlers == s.handlers[h := t.handlers[h]]
    requires h in s.handlers ==> s.handlers[h].member == m
    requires forall x :: x != m ==> Channels(t, x) == Channels(s, x)
    requires forall k :: k != h ==> (k in Channels(t, m) <==> k in Channels(s, m))
    requires t.core.members.Keys == s.core.members.Keys
    requires forall x :: x in s.core.members && x != m ==> t.core.members[x].connected == s.core.members[x].connected
    requires Registered(t, h)
    requires m in t.core.members ==> OnlineIsExplained(t, m)
    requires forall k :: k in t.handlers && t.handlers[k].member == m ==> LiveIsOnline(t, k)
    ensures Presence(t)
  {
    OtherHandlers(s, t, h, m);
    forall k | k in t.handlers && t.handlers[k].member != m
      ensures LiveIsOnline(t, k)
    {
      assert LiveIsOnline(s, k);
    }
    forall x | x in t.core.members && x != m
      ensures OnlineIsExplained(t, x)
    {
      assert OnlineIsExplained(s, x);
      if ClosingSoon(s, x) {
        StillClosing(s, t, h, x);
      }
    }
  }

  lemma StillClosing(s: State, t: State, h: nat, x: Id)
    requires h in t.handlers && t.handlers == s.handlers[h := t.handlers[h]] && ClosingSoon(s, x)
    requires
      h in s.handlers && s.handlers[h].member == x && (s.handlers[h].at == Removed || s.handlers[h].at == Closing) ==>
      t.handlers[h] == s.handlers[h]
    ensures ClosingSoon(t, x)
  {
    var k :| k in s.handlers && s.handlers[k].member == x
      && (s.handlers[k].at == Removed || s.handlers[k].at == Closing);
    assert t.handlers[k] == s.handlers[k];
  }

  /** Finding a member and registering a channel change neither flag. */
  lemma OpenStep(s: State, e: Event)
    requires Presence(s) && Possible(s, e) && (e.Find? || e.Add?)
    ensures Presence(Next(s, e))
  {
    var t := Next(s, e);
    var m := t.handlers[e.h].member;
    assert Owned(s, m);
    forall k | k in t.handlers && t.handlers[k].member == m
      ensures LiveIsOnline(t, k)
    {
      assert k != e.h ==> LiveIsOnline(s, k);
    }
    if e.Find? && m in s.core.members && s.core.members[m].connected && Channels(s, m) == {} {
      assert OnlineIsExplained(s, m);
      StillClosing(s, t, e.h, m);
    }
    HandlerStep(s, t, e.h, m);
  }

  /** Marking online: the handler's own channel is registered. */
  lemma MarkOnStep(s: State, e: Event)
    requires Inv(s.core) && Presence(s) && Possible(s, e) && e.MarkOn?
    ensures Presence(Next(s, e))
  {
    var t := Next(s, e);
    var m := t.handlers[e.h].member;
    assert Registered(s, e.h);
    assert e.h in Channels(t, m);
    if m in s.core.members {
      assert MemberOk(s.core, m);
      assert t.core.members[m].connected;
    }
    HandlerStep(s, t, e.h, m);
  }

  /** Unregistering: if that was the last channel, this very handler is about to look. */
  lemma RemoveStep(s: State, e: Event)
    requires Presence(s) && Possible(s, e) && e.Remove?
    ensures Presence(Next(s, e))
  {
    var t := Next(s, e);
    var m := t.handlers[e.h].member;
    assert t.handlers[e.h].at == Removed && ClosingSoon(t, m);
    forall k | k in t.handlers && t.handlers[k].member == m
      ensures LiveIsOnline(t, k)
    {
      assert LiveIsOnline(s, k);
    }
    HandlerStep(s, t, e.h, m);
  }

  /** Looking: the handler gives up only when another channel is registered. */
  lemma CheckStep(s: State, e: Event)
    requires Presence(s) && Possible(s, e) && e.Check?
    ensures Presence(Next(s, e))
  {
    var t := Next(s, e);
    var m := t.handlers[e.h].member;
    assert Registered(s, e.h);
    assert Channels(s, m) == {} ==> t.handlers[e.h].at == Closing && ClosingSoon(t, m);
    forall k | k in t.handlers && t.handlers[k].member == m
      ensures LiveIsOnline(t, k)
    {
      assert LiveIsOnline(s, k);
    }
    HandlerStep(s, t, e.h, m);
  }

  /** Marking offline looks at the channels again under the lock, so it never outruns a new connection. */
  lemma MarkOffStep(s: State, e: Event)
    requires Inv(s.core) && Presence(s) && Possible(s, e) && e.MarkOff?
    ensures Presence(Next(s, e))
  {
    var t := Next(s, e);
    var m := t.handlers[e.h].member;
    assert Registered(s, e.h);
    if m in s.core.members {
      assert MemberOk(s.core, m);
    }
    forall k | k in t.handlers && t.handlers[k].member == m
      ensures LiveIsOnline(t, k)
    {
      assert LiveIsOnline(s, k) && Registered(s, k);
    }
    HandlerStep(s, t, e.h, m);
  }

  /**
   The lifecycle: found, registered, online, unregistered; then closing if nothing else is registered for the
   member and done otherwise; closing ends as done.  Only registering and unregistering touch the channels, by
   the handler's own, and no step touches another handler.
   */
  lemma HandlerMoves(s: State, e: Event, x: Id, k: nat)
    requires Possible(s, e) && !Quiet(e) && !e.Restart?
    ensures e.h in Next(s, e).handlers
    ensures var t, m := Next(s, e), Next(s, e).handlers[e.h].member;
            && (e.Find? ==> m == e.m && e.h !in s.handlers)
            && (!e.Find? ==> e.h in s.handlers && m == s.handlers[e.h].member)
            && t.handlers[e.h].at == (if e.Find? then Arrived
                                      else if e.Add? then Added
                                      else if e.MarkOn? then Live
                                      else if e.Remove? then Removed
                                      else if e.Check? && Channels(s, m) == {} then Closing
                                      else Done)
            && Channels(t, x) == (if e.Add? && x == m then Channels(s, x) + {e.h}
                                  else if e.Remove? && x == m then Channels(s, x) - {e.h}
                                  else Channels(s, x))
            && (k != e.h ==> (k in t.handlers <==> k in s.handlers))
            && (k != e.h && k in s.handlers ==> t.handlers[k] == s.handlers[k])
  {
  }

  /** A restart closes every connection and takes everybody offline. */
  lemma RestartStep(s: State, e: Event)
    requires Possible(s, e) && e.Restart?
    ensures Presence(Next(s, e))
  {
  }

  lemma StepPresence(s: State, e: Event)
    requires Inv(s.core) && Known(s) && Presence(s) && Possible(s, e)
    ensures Presence(Next(s, e))
  {
    if e.Restart? {
      RestartStep(s, e);
    } else if Quiet(e) {
      QuietStep(s, e);
    } else if e.Find? || e.Add? {
      OpenStep(s, e);
    } else if e.MarkOn? {
      MarkOnStep(s, e);
    } else if e.MarkOff? {
      MarkOffStep(s, e);
    } else if e.Remove? {
      RemoveStep(s, e);
    } else {
      CheckStep(s, e);
    }
  }

  lemma {:induction false} RunPresence(run: seq<Event>)
    requires IsRun(run)
    ensures Presence(After(run))
  {
    if run != [] {
      RunPresence(run[..|run| - 1]);
      RunInv(run[..|run| - 1]);
      StepPresence(After(run[..|run| - 1]), run[|run| - 1]);
    }
  }

  /** No handler of m is between two of its lock sections that change or look at presence. */
  predicate Quiescent(s: State, m: Id) {
    !ClosingSoon(s, m) && !OpeningSoon(s, m)
  }

  /**
   In every interleaving: an online member without a channel has a handler between removal and
   mark-offline, an offline member with a channel has one between registration and mark-online,
   and a member none of whose handlers is there is online exactly when it has a channel.
   */
  lemma PresenceFollowsChannels(run: seq<Event>, m: Id)
    requires IsRun(run) && m in After(run).core.members
    ensures var s := After(run);
            && (s.core.members[m].connected && Channels(s, m) == {} ==> ClosingSoon(s, m))
            && (!s.core.members[m].connected && Channels(s, m) != {} ==> OpeningSoon(s, m))
            && (Quiescent(s, m) ==> (s.core.members[m].connected <==> Channels(s, m) != {}))
  {
    var s := After(run);
    RunPresence(run);
    assert OnlineIsExplained(s, m) && Owned(s, m);
    if h :| h in Channels(s, m) {
      assert Registered(s, h) && LiveIsOnline(s, h);
    }
  }

  /** While a handler's stream is established and its member exists, no late close of another one takes it offline. */
  lemma LiveStaysOnline(run: seq<Event>, h: nat)
    requires IsRun(run) && At(After(run), h, Live) && After(run).handlers[h].member in After(run).core.members
    ensures After(run).core.members[After(run).handlers[h].member].connected
    ensures After(run).core.members[After(run).handlers[h].member].room in After(run).core.rooms
    ensures After(run).core.rooms[After(run).core.members[After(run).handlers[h].member].room].emptyDeadline.None?
  {
    var s := After(run);
    RunPresence(run);
    RunInv(run);
    var m := s.handlers[h].member;
    assert LiveIsOnline(s, h) && MemberOk(s.core, m) && DeadlinesOk(s.core, s.core.members[m].room);
  }
}
