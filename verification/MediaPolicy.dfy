/**
 Convergence of microphone permissions on the media server.  Calls of syncMediaPolicy run
 concurrently with each other and with policy changes; a striped lock serializes the calls
 of one member, and the policy is read again after every external update.
 */
module MediaPolicy {
  import opened Collections

  type MemberId = nat
  type CallId = nat

  const ATTEMPTS := 3

  datatype Outcome = Success | MemberGone | GaveUp | ContextDone

  /** Where a call is suspended; every external step happens between two of these. */
  datatype Phase =
    | Waiting                                     // for its stripe lock
    | Locked(attempt: nat)                        // about to read the policy
    | Updating(attempt: nat, allowed: bool, read: nat, applied: bool) // setCanPublish has been sent
    | Replied(attempt: nat, allowed: bool, ok: bool) // it has returned, about to read again
    | Pausing(attempt: nat)                       // between attempts
    | Leaving(outcome: Outcome, recheck: nat)     // result decided, lock still held
    | Returned(outcome: Outcome, recheck: nat)

  /**
   read, recheck and locked are the member's change count when the policy was read, when the
   result was decided, and when the lock was acquired.
   */
  datatype Call = Call(member: MemberId, phase: Phase, locked: nat)

  /**
   policy is "host or CanSpeak" of every present member; changes counts how often it changed,
   presence included; permission is what the media server last applied.
   */
  datatype State = State(policy: map<MemberId, bool>, changes: map<MemberId, nat>, permission: map<MemberId, bool>,
                         holder: map<nat, CallId>, calls: map<CallId, Call>)

  const START := State(map[], map[], map[], map[], map[])

  function Changes(s: State, m: MemberId): nat {
    if m in s.changes then s.changes[m] else 0
  }

  function Policy(s: State, m: MemberId): Option<bool> {
    if m in s.policy then Some(s.policy[m]) else None
  }

  function Permission(s: State, m: MemberId): Option<bool> {
    if m in s.permission then Some(s.permission[m]) else None
  }

  datatype Event =
    | Change(member: MemberId, policy: Option<bool>) // any handler: mute, handover, join, leave, sweep
    | Begin(call: CallId, member: MemberId)          // syncMediaPolicy is called
    | Acquire(call: CallId)
    | Read(call: CallId)                             // under the state lock
    | Apply(call: CallId)                            // the media server acts on the pending update
    | Reply(call: CallId, ok: bool)                  // setCanPublish returns
    | Recheck(call: CallId)                          // under the state lock
    | Resume(call: CallId, expired: bool)            // the pause ends, or the context does
    | Return(call: CallId)                           // the deferred unlock

  /** The media server acts on an update at most once, and before the call returns; success means it acted. */
  predicate Possible(stripe: MemberId -> nat, s: State, e: Event) {
    match e
    case Change(m, p) => p != Policy(s, m)
    case Begin(c, m) => c !in s.calls
    case Acquire(c) => c in s.calls && s.calls[c].phase == Waiting && stripe(s.calls[c].member) !in s.holder
    case Read(c) => c in s.calls && s.calls[c].phase.Locked?
    case Apply(c) => c in s.calls && s.calls[c].phase.Updating? && !s.calls[c].phase.applied
    case Reply(c, ok) => c in s.calls && s.calls[c].phase.Updating? && (ok ==> s.calls[c].phase.applied)
    case Recheck(c) => c in s.calls && s.calls[c].phase.Replied?
    case Resume(c, _) => c in s.calls && s.calls[c].phase.Pausing?
    case Return(c) => c in s.calls && s.calls[c].phase.Leaving?
  }

  function To(s: State, c: CallId, phase: Phase): State
    requires c in s.calls
  {
    s.(calls := s.calls[c := s.calls[c].(phase := phase)])
  }

  function Next(stripe: MemberId -> nat, s: State, e: Event): State
    requires Possible(stripe, s, e)
  {
    match e
    case Change(m, p) =>
      s.(policy := if p.Some? then s.policy[m := p.value] else s.policy - {m},
         changes := s.changes[m := Changes(s, m) + 1])
    case Begin(c, m) => s.(calls := s.calls[c := Call(m, Waiting, 0)])
    case Acquire(c) =>
      var call := s.calls[c];
      s.(holder := s.holder[stripe(call.member) := c],
         calls := s.calls[c := call.(phase := Locked(0), locked := Changes(s, call.member))])
    case Read(c) =>
      var call := s.calls[c];
      if call.member in s.policy then
        To(s, c, Updating(call.phase.attempt, s.policy[call.member], Changes(s, call.member), false))
      else To(s, c, Leaving(MemberGone, Changes(s, call.member)))
    case Apply(c) =>
      var call := s.calls[c];
      To(s, c, call.phase.(applied := true)).(permission := s.permission[call.member := call.phase.allowed])
    case Reply(c, ok) => To(s, c, Replied(s.calls[c].phase.attempt, s.calls[c].phase.allowed, ok))
    case Recheck(c) =>
      var call := s.calls[c];
      if call.phase.ok && Policy(s, call.member) == Some(call.phase.allowed) then
        To(s, c, Leaving(Success, Changes(s, call.member)))
      else To(s, c, Pausing(call.phase.attempt))
    case Resume(c, expired) =>
      var call := s.calls[c];
      if expired then To(s, c, Leaving(ContextDone, Changes(s, call.member)))
      else if call.phase.attempt + 1 < ATTEMPTS then To(s, c, Locked(call.phase.attempt + 1))
      else To(s, c, Leaving(GaveUp, Changes(s, call.member)))
    case Return(c) =>
      var call := s.calls[c];
      To(s, c, Returned(call.phase.outcome, call.phase.recheck)).(holder := s.holder - {stripe(call.member)})
  }

  predicate IsRun(stripe: MemberId -> nat, run: seq<Event>)
    decreases |run|, 0
  {
    run == [] || (IsRun(stripe, run[..|run| - 1]) && Possible(stripe, After(stripe, run[..|run| - 1]), run[|run| - 1]))
  }

  function After(stripe: MemberId -> nat, run: seq<Event>): State
    requires IsRun(stripe, run)
    decreases |run|, 1
  {
    if run == [] then START else Next(stripe, After(stripe, run[..|run| - 1]), run[|run| - 1])
  }

  // ---- invariants ----

  predicate Holds(p: Phase) {
    !p.Waiting? && !p.Returned?
  }

  predicate Decided(p: Phase) {
    p.Leaving? || p.Returned?
  }

  /** A call past its wait holds its stripe. */
  predicate LockHeld(stripe: MemberId -> nat, s: State, c: CallId)
    requires c in s.calls
  {
    var call := s.calls[c];
    Holds(call.phase) ==> stripe(call.member) in s.holder && s.holder[stripe(call.member)] == c
  }

  /** What a call knows about its member's policy and permission. */
  predicate Knows(s: State, c: CallId)
    requires c in s.calls
  {
    var m, p := s.calls[c].member, s.calls[c].phase;
    && (!p.Waiting? ==> s.calls[c].locked <= Changes(s, m))
    && (p.Updating? ==> p.read <= Changes(s, m))
    && (p.Updating? && p.read == Changes(s, m) ==> Policy(s, m) == Some(p.allowed))
    && (p.Updating? && p.applied ==> Permission(s, m) == Some(p.allowed))
    && (p.Replied? && p.ok ==> Permission(s, m) == Some(p.allowed))
    && (Decided(p) ==> s.calls[c].locked <= p.recheck <= Changes(s, m))
    && (Decided(p) && p.outcome == Success && p.recheck == Changes(s, m) ==>
         Policy(s, m).Some? && Permission(s, m) == Policy(s, m))
  }

  /** An update in progress read the policy after every decision made for the same member. */
  predicate ReadAfter(s: State, c: CallId, d: CallId)
    requires c in s.calls && d in s.calls
  {
    s.calls[c].member == s.calls[d].member && Decided(s.calls[c].phase) && s.calls[d].phase.Updating? ==>
      s.calls[c].phase.recheck <= s.calls[d].phase.read
  }

  ghost predicate Inv(stripe: MemberId -> nat, s: State) {
    && (forall c :: c in s.calls ==> LockHeld(stripe, s, c))
    && (forall c :: c in s.calls ==> Knows(s, c))
    && (forall c, d :: c in s.calls && d in s.calls ==> ReadAfter(s, c, d))
  }

  /** Two calls of one member are never both past their wait. */
  lemma Exclusive(stripe: MemberId -> nat, s: State, c: CallId, d: CallId)
    requires Inv(stripe, s) && c in s.calls && d in s.calls && s.calls[c].member == s.calls[d].member
    requires Holds(s.calls[c].phase) && Holds(s.calls[d].phase)
    ensures c == d
  {
    assert LockHeld(stripe, s, c) && LockHeld(stripe, s, d);
  }

  /** A step leaves other calls alone, and who is called for stays. */
  lemma CallsFrame(stripe: MemberId -> nat, s: State, e: Event, c: CallId)
    requires Possible(stripe, s, e) && c in s.calls
    ensures var t := Next(stripe, s, e);
            && c in t.calls && t.calls[c].member == s.calls[c].member
            && (e.Change? || c != e.call ==> t.calls[c] == s.calls[c])
  {
    if !e.Change? && c != e.call {
      OtherCall(stripe, s, e, c);
    } else if !e.Change? {
      OwnCall(stripe, s, e);
    }
  }

  lemma OtherCall(stripe: MemberId -> nat, s: State, e: Event, c: CallId)
    requires Possible(stripe, s, e) && c in s.calls && !e.Change? && c != e.call
    ensures c in Next(stripe, s, e).calls && Next(stripe, s, e).calls[c] == s.calls[c]
  {
    match e
    case Begin(_, _) =>
    case Acquire(_) =>
    case Read(_) =>
    case Apply(_) =>
    case Reply(_, _) =>
    case Recheck(_) =>
    case Resume(_, _) =>
    case Return(_) =>
  }

  lemma OwnCall(stripe: MemberId -> nat, s: State, e: Event)
    requires Possible(stripe, s, e) && !e.Change? && e.call in s.calls
    ensures e.call in Next(stripe, s, e).calls && Next(stripe, s, e).calls[e.call].member == s.calls[e.call].member
  {
    match e
    case Begin(_, _) =>
    case Acquire(_) =>
    case Read(_) =>
    case Apply(_) =>
    case Reply(_, _) =>
    case Recheck(_) =>
    case Resume(_, _) =>
    case Return(_) =>
  }

  /** The lock table changes for the mover only. */
  lemma HolderFrame(stripe: MemberId -> nat, s: State, e: Event, c: CallId)
    requires Possible(stripe, s, e) && c in s.calls && LockHeld(stripe, s, c) && Holds(s.calls[c].phase)
    requires e.Change? || c != e.call
    requires !e.Change? && e.call in s.calls ==> LockHeld(stripe, s, e.call)
    ensures var k, t := stripe(s.calls[c].member), Next(stripe, s, e);
            k in t.holder && t.holder[k] == c
  {
  }

  lemma OwnLock(stripe: MemberId -> nat, s: State, e: Event)
    requires Possible(stripe, s, e) && !e.Change? && e.call in s.calls && LockHeld(stripe, s, e.call)
    ensures e.call in Next(stripe, s, e).calls && LockHeld(stripe, Next(stripe, s, e), e.call)
  {
    match e
    case Begin(_, _) =>
    case Acquire(_) =>
    case Read(_) =>
    case Apply(_) =>
    case Reply(_, _) =>
    case Recheck(_) =>
    case Resume(_, _) =>
    case Return(_) =>
  }

  lemma StepLocks(stripe: MemberId -> nat, s: State, e: Event)
    requires Inv(stripe, s) && Possible(stripe, s, e)
    ensures forall c :: c in Next(stripe, s, e).calls ==> LockHeld(stripe, Next(stripe, s, e), c)
  {
    var t := Next(stripe, s, e);
    NewCallWaits(stripe, s, e);
    forall c | c in t.calls && c in s.calls
      ensures LockHeld(stripe, t, c)
    {
      assert LockHeld(stripe, s, c);
      CallsFrame(stripe, s, e, c);
      if !e.Change? && c == e.call {
        OwnLock(stripe, s, e);
      } else if Holds(s.calls[c].phase) {
        HolderFrame(stripe, s, e, c);
      }
    }
  }

  /** Nothing a call knows depends on other calls. */
  lemma KnowsFrame(s: State, t: State, c: CallId)
    requires c in s.calls && c in t.calls && t.calls[c] == s.calls[c] && Knows(s, c)
    requires var m := s.calls[c].member;
             Changes(t, m) == Changes(s, m) && Policy(t, m) == Policy(s, m) && Permission(t, m) == Permission(s, m)
    ensures Knows(t, c)
  {
  }

  /** Of the member whose policy changed, only what was read at the new count must agree, and nothing was. */
  lemma KnowsOwnChange(stripe: MemberId -> nat, s: State, m: MemberId, p: Option<bool>, c: CallId)
    requires Possible(stripe, s, Change(m, p)) && c in s.calls && Knows(s, c) && s.calls[c].member == m
    ensures Knows(Next(stripe, s, Change(m, p)), c)
  {
  }

  lemma KnowsAfterChange(stripe: MemberId -> nat, s: State, m: MemberId, p: Option<bool>, c: CallId)
    requires Possible(stripe, s, Change(m, p)) && c in s.calls && Knows(s, c)
    ensures Knows(Next(stripe, s, Change(m, p)), c)
  {
    if s.calls[c].member != m {
      KnowsFrame(s, Next(stripe, s, Change(m, p)), c);
    } else {
      KnowsOwnChange(stripe, s, m, p, c);
    }
  }

  /** An applied update agrees with every decision that is still current, and no other call is updating. */
  lemma KnowsAfterApply(stripe: MemberId -> nat, s: State, d: CallId, c: CallId)
    requires Inv(stripe, s) && Possible(stripe, s, Apply(d)) && c in s.calls
    ensures Knows(Next(stripe, s, Apply(d)), c)
  {
    assert Knows(s, c) && Knows(s, d);
    var t := Next(stripe, s, Apply(d));
    if c != d {
      if s.calls[c].member == s.calls[d].member {
        assert LockHeld(stripe, s, c) && LockHeld(stripe, s, d) && ReadAfter(s, c, d);
      } else {
        KnowsFrame(s, t, c);
      }
    }
  }

  /** The moves at the end of an attempt. */
  lemma KnowsDecision(stripe: MemberId -> nat, s: State, e: Event)
    requires Possible(stripe, s, e) && (e.Recheck? || e.Resume? || e.Return?) && Knows(s, e.call)
    ensures Knows(Next(stripe, s, e), e.call)
  {
    match e
    case Recheck(_) =>
    case Resume(_, _) =>
    case Return(_) =>
  }

  /** A call's own move, other than applying its update. */
  lemma KnowsOwnMove(stripe: MemberId -> nat, s: State, e: Event)
    requires Possible(stripe, s, e) && !e.Change? && !e.Apply? && !e.Begin? && Knows(s, e.call)
    ensures Knows(Next(stripe, s, e), e.call)
  {
    PolicyFrame(stripe, s, e);
    if e.Recheck? || e.Resume? || e.Return? {
      KnowsDecision(stripe, s, e);
    }
  }

  lemma PolicyFrame(stripe: MemberId -> nat, s: State, e: Event)
    requires Possible(stripe, s, e) && !e.Change? && !e.Apply?
    ensures Next(stripe, s, e).policy == s.policy && Next(stripe, s, e).changes == s.changes
    ensures Next(stripe, s, e).permission == s.permission
  {
    match e
    case Begin(_, _) =>
    case Acquire(_) =>
    case Read(_) =>
    case Reply(_, _) =>
    case Recheck(_) =>
    case Resume(_, _) =>
    case Return(_) =>
  }

  lemma StepKnows(stripe: MemberId -> nat, s: State, e: Event)
    requires Inv(stripe, s) && Possible(stripe, s, e)
    ensures forall c :: c in Next(stripe, s, e).calls ==> Knows(Next(stripe, s, e), c)
  {
    var t := Next(stripe, s, e);
    NewCallWaits(stripe, s, e);
    forall c | c in t.calls && c in s.calls
      ensures Knows(t, c)
    {
      assert Knows(s, c);
      if e.Change? {
        KnowsAfterChange(stripe, s, e.member, e.policy, c);
      } else if e.Apply? {
        KnowsAfterApply(stripe, s, e.call, c);
      } else if c == e.call {
        KnowsOwnMove(stripe, s, e);
      } else {
        OtherCall(stripe, s, e, c);
        PolicyFrame(stripe, s, e);
        KnowsFrame(s, t, c);
      }
    }
  }

  /** While one call of a member updates, no other call of it can make a step. */
  lemma OnlyOneMoves(stripe: MemberId -> nat, s: State, e: Event, d: CallId)
    requires Possible(stripe, s, e) && !e.Change? && e.call in s.calls && d in s.calls && d != e.call
    requires LockHeld(stripe, s, e.call) && LockHeld(stripe, s, d) && s.calls[d].phase.Updating?
    ensures s.calls[e.call].member != s.calls[d].member
  {
  }

  /** A call that updates read just now, or has read before. */
  lemma ReadsNow(stripe: MemberId -> nat, s: State, e: Event)
    requires Possible(stripe, s, e) && !e.Change? && e.call in s.calls
    ensures var p, q := s.calls[e.call].phase, Next(stripe, s, e).calls[e.call].phase;
            q.Updating? ==> q.read == Changes(s, s.calls[e.call].member) || (p.Updating? && q.read == p.read)
    ensures var p, q := s.calls[e.call].phase, Next(stripe, s, e).calls[e.call].phase;
            Decided(p) ==> Decided(q) && q.recheck == p.recheck
  {
    match e
    case Begin(_, _) =>
    case Acquire(_) =>
    case Read(_) =>
    case Apply(_) =>
    case Reply(_, _) =>
    case Recheck(_) =>
    case Resume(_, _) =>
    case Return(_) =>
  }

  lemma PairReadAfter(stripe: MemberId -> nat, s: State, e: Event, c: CallId, d: CallId)
    requires Inv(stripe, s) && Possible(stripe, s, e) && c in s.calls && d in s.calls
    ensures c in Next(stripe, s, e).calls && d in Next(stripe, s, e).calls && ReadAfter(Next(stripe, s, e), c, d)
  {
    CallsFrame(stripe, s, e, c);
    CallsFrame(stripe, s, e, d);
    assert ReadAfter(s, c, d) && Knows(s, c) && LockHeld(stripe, s, c) && LockHeld(stripe, s, d);
    if !e.Change? && e.call in s.calls && c != d && s.calls[c].member == s.calls[d].member {
      ReadsNow(stripe, s, e);
      if c == e.call && s.calls[d].phase.Updating? {
        OnlyOneMoves(stripe, s, e, d);
      }
    }
  }

  lemma StepReadAfter(stripe: MemberId -> nat, s: State, e: Event)
    requires Inv(stripe, s) && Possible(stripe, s, e)
    ensures var t := Next(stripe, s, e);
            forall c, d :: c in t.calls && d in t.calls ==> ReadAfter(t, c, d)
  {
    var t := Next(stripe, s, e);
    forall c, d | c in t.calls && d in t.calls
      ensures ReadAfter(t, c, d)
    {
      if c in s.calls && d in s.calls {
        PairReadAfter(stripe, s, e, c, d);
      } else {
        NewCallWaits(stripe, s, e);
      }
    }
  }

  lemma NewCallWaits(stripe: MemberId -> nat, s: State, e: Event)
    requires Possible(stripe, s, e)
    ensures var t := Next(stripe, s, e);
            forall c :: c in t.calls && c !in s.calls ==> t.calls[c].phase == Waiting
  {
  }

  lemma {:induction false} RunInv(stripe: MemberId -> nat, run: seq<Event>)
    requires IsRun(stripe, run)
    ensures Inv(stripe, After(stripe, run))
  {
    if run != [] {
      var s, e := After(stripe, run[..|run| - 1]), run[|run| - 1];
      RunInv(stripe, run[..|run| - 1]);
      StepLocks(stripe, s, e);
      StepKnows(stripe, s, e);
      StepReadAfter(stripe, s, e);
    }
  }

  /**
   In every interleaving: if some call of a member took its lock after the member's last
   change and has returned without error, the media server's permission is the policy; so it
   stays, whatever older or newer calls are still running, until the next change.
   */
  lemma Converges(stripe: MemberId -> nat, run: seq<Event>, c: CallId)
    requires IsRun(stripe, run) && c in After(stripe, run).calls
    requires After(stripe, run).calls[c].phase.Returned? && After(stripe, run).calls[c].phase.outcome == Success
    requires After(stripe, run).calls[c].locked == Changes(After(stripe, run), After(stripe, run).calls[c].member)
    ensures var s := After(stripe, run);
            Policy(s, s.calls[c].member).Some? && Permission(s, s.calls[c].member) == Policy(s, s.calls[c].member)
  {
    RunInv(stripe, run);
    assert Knows(After(stripe, run), c);
  }

  /** The lock may even be older than the last change, as long as the final reading is not. */
  lemma ConvergesFromRecheck(stripe: MemberId -> nat, run: seq<Event>, c: CallId)
    requires IsRun(stripe, run) && c in After(stripe, run).calls
    requires Decided(After(stripe, run).calls[c].phase) && After(stripe, run).calls[c].phase.outcome == Success
    requires var s := After(stripe, run); s.calls[c].phase.recheck == Changes(s, s.calls[c].member)
    ensures var s := After(stripe, run);
            Policy(s, s.calls[c].member).Some? && Permission(s, s.calls[c].member) == Policy(s, s.calls[c].member)
  {
    RunInv(stripe, run);
    assert Knows(After(stripe, run), c);
  }
}
