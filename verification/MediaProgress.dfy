/** How a call of syncMediaPolicy ends: what each ending means, after how many attempts, and that it comes. */
module MediaProgress {
  import opened Collections
  import opened MediaPolicy

  // ---- attempts ----

  /** How often call c looked again in this run: once for every attempt it finished. */
  function Rechecks(run: seq<Event>, c: CallId): nat {
    if run == [] then 0
    else Rechecks(run[..|run| - 1], c) + if run[|run| - 1] == Recheck(c) then 1 else 0
  }

  /** The attempt a call is at is how often it has looked again; it ends at the third at the latest. */
  predicate Counted(p: Phase, rechecks: nat) {
    match p
    case Waiting => rechecks == 0
    case Locked(attempt) => attempt == rechecks < 3
    case Updating(attempt, _, _, _) => attempt == rechecks < 3
    case Replied(attempt, _, _) => attempt == rechecks < 3
    case Pausing(attempt) => attempt + 1 == rechecks <= 3
    case Leaving(outcome, _) => EndedAfter(outcome, rechecks)
    case Returned(outcome, _) => EndedAfter(outcome, rechecks)
  }

  /** Giving up takes exactly three attempts; success one to three; a member is found gone before the third ends. */
  predicate EndedAfter(outcome: Outcome, rechecks: nat) {
    match outcome
    case GaveUp => rechecks == 3
    case Success => 1 <= rechecks <= 3
    case MemberGone => rechecks < 3
    case ContextDone => 1 <= rechecks <= 3
  }

  lemma CountedStep(stripe: MemberId -> nat, s: State, e: Event, c: CallId, rechecks: nat)
    requires Possible(stripe, s, e) && c in s.calls && Counted(s.calls[c].phase, rechecks)
    ensures c in Next(stripe, s, e).calls
    ensures Counted(Next(stripe, s, e).calls[c].phase, rechecks + if e == Recheck(c) then 1 else 0)
  {
    if e.Change? || c != e.call {
      CallsFrame(stripe, s, e, c);
    } else {
      OwnCounted(stripe, s, e, rechecks);
    }
  }

  lemma OwnCounted(stripe: MemberId -> nat, s: State, e: Event, rechecks: nat)
    requires Possible(stripe, s, e) && !e.Change? && e.call in s.calls && Counted(s.calls[e.call].phase, rechecks)
    ensures e.call in Next(stripe, s, e).calls
    ensures Counted(Next(stripe, s, e).calls[e.call].phase, rechecks + if e.Recheck? then 1 else 0)
  {
    match e
    case Begin(_, _) =>
    case Acquire(_) =>
    case Read(_) =>
    case Apply(_) =>
    case Reply(_, _) =>
    case Recheck(_) =>
    case Resume(_, _) =>
    case Return(_) =>
  }

  /** In every run every call is at the attempt it has counted to, and ends as EndedAfter says. */
  lemma {:induction false} CallsCounted(stripe: MemberId -> nat, run: seq<Event>, c: CallId)
    requires IsRun(stripe, run)
    ensures if c in After(stripe, run).calls then Counted(After(stripe, run).calls[c].phase, Rechecks(run, c))
            else Rechecks(run, c) == 0
  {
    if run != [] {
      var before := run[..|run| - 1];
      CallsCounted(stripe, before, c);
      var s, e := After(stripe, before), run[|run| - 1];
      if c in s.calls {
        CountedStep(stripe, s, e, c, Rechecks(before, c));
      } else {
        NewCallWaits(stripe, s, e);
      }
    }
  }

  // ---- what the endings mean ----

  /** A call that decides for success has seen its update succeed and the policy it sent still in force. */
  lemma SuccessIff(stripe: MemberId -> nat, s: State, c: CallId)
    requires Possible(stripe, s, Recheck(c))
    ensures var call := s.calls[c];
            var after := Next(stripe, s, Recheck(c)).calls[c].phase;
            && ((call.phase.ok && call.member in s.policy && s.policy[call.member] == call.phase.allowed) <==>
                after.Leaving?)
            && (after.Leaving? ==> after.outcome == Success)
            && (!after.Leaving? ==> after.Pausing?)
  {
  }

  /** Reading finds the member gone exactly when it has no policy, and otherwise sends that policy. */
  lemma ReadDecides(stripe: MemberId -> nat, s: State, c: CallId)
    requires Possible(stripe, s, Read(c))
    ensures var m, after := s.calls[c].member, Next(stripe, s, Read(c)).calls[c].phase;
            && (m !in s.policy <==> after.Leaving?)
            && (after.Leaving? ==> after.outcome == MemberGone)
            && (m in s.policy ==> after.Updating? && after.allowed == s.policy[m] && !after.applied)
  {
  }

  /** The media server is told about the call's member what the call read, and about nobody else. */
  lemma ApplySets(stripe: MemberId -> nat, s: State, c: CallId)
    requires Possible(stripe, s, Apply(c))
    ensures Next(stripe, s, Apply(c)).permission == s.permission[s.calls[c].member := s.calls[c].phase.allowed]
  {
  }

  /** An attempt that nothing disturbs succeeds: the call returns, the permission is the policy, the lock is free. */
  lemma UndisturbedSucceeds(stripe: MemberId -> nat, s: State, c: CallId) returns (t: State)
    requires c in s.calls && s.calls[c].phase.Locked? && s.calls[c].member in s.policy
    ensures Possible(stripe, s, Read(c))
    ensures var s1 := Next(stripe, s, Read(c));
            && Possible(stripe, s1, Apply(c))
            && var s2 := Next(stripe, s1, Apply(c));
            && Possible(stripe, s2, Reply(c, true))
            && var s3 := Next(stripe, s2, Reply(c, true));
            && Possible(stripe, s3, Recheck(c))
            && var s4 := Next(stripe, s3, Recheck(c));
            && Possible(stripe, s4, Return(c)) && t == Next(stripe, s4, Return(c))
    ensures c in t.calls && t.calls[c].phase.Returned? && t.calls[c].phase.outcome == Success
    ensures t.policy == s.policy && t.permission == s.permission[s.calls[c].member := s.policy[s.calls[c].member]]
    ensures stripe(s.calls[c].member) !in t.holder
  {
    var s1 := Next(stripe, s, Read(c));
    var s2 := Next(stripe, s1, Apply(c));
    var s3 := Next(stripe, s2, Reply(c, true));
    var s4 := Next(stripe, s3, Recheck(c));
    t := Next(stripe, s4, Return(c));
  }

  // ---- every call ends ----

  /** How many steps of its own a call still makes at most. */
  function StepsLeft(p: Phase): int {
    match p
    case Waiting => 17
    case Locked(attempt) => 5 * (3 - attempt) + 1
    case Updating(attempt, _, _, applied) => 5 * (3 - attempt) - if applied then 1 else 0
    case Replied(attempt, _, _) => 5 * (3 - attempt) - 2
    case Pausing(attempt) => 5 * (3 - attempt) - 3
    case Leaving(_, _) => 1
    case Returned(_, _) => 0
  }

  /** Every step of its own brings a call nearer to its end, and no other step delays it. */
  lemma CallAdvances(stripe: MemberId -> nat, s: State, e: Event, c: CallId, rechecks: nat)
    requires Possible(stripe, s, e) && c in s.calls && Counted(s.calls[c].phase, rechecks)
    ensures c in Next(stripe, s, e).calls
    ensures var before, after := StepsLeft(s.calls[c].phase), StepsLeft(Next(stripe, s, e).calls[c].phase);
            0 <= after && if !e.Change? && e.call == c then after < before <= 17 else after == before
  {
    CountedStep(stripe, s, e, c, rechecks);
    if e.Change? || c != e.call {
      CallsFrame(stripe, s, e, c);
    } else {
      OwnAdvances(stripe, s, e, rechecks);
    }
  }

  lemma OwnAdvances(stripe: MemberId -> nat, s: State, e: Event, rechecks: nat)
    requires Possible(stripe, s, e) && !e.Change? && e.call in s.calls && Counted(s.calls[e.call].phase, rechecks)
    ensures e.call in Next(stripe, s, e).calls
    ensures 0 <= StepsLeft(Next(stripe, s, e).calls[e.call].phase) < StepsLeft(s.calls[e.call].phase) <= 17
  {
    match e
    case Begin(_, _) =>
    case Acquire(_) =>
    case Read(_) =>
    case Apply(_) =>
    case Reply(_, _) =>
    case Recheck(_) =>
    case Resume(_, _) =>
    case Return(_) =>
  }

  /** And until its end it can make one, unless it waits for a stripe that a call past its wait holds. */
  lemma CallCanAdvance(stripe: MemberId -> nat, s: State, c: CallId) returns (e: Event)
    requires c in s.calls && !s.calls[c].phase.Returned?
    requires s.calls[c].phase.Waiting? ==> stripe(s.calls[c].member) !in s.holder
    ensures Possible(stripe, s, e) && !e.Change? && e.call == c
  {
    match s.calls[c].phase
    case Waiting => e := Acquire(c);
    case Locked(_) => e := Read(c);
    case Updating(_, _, _, _) => e := Reply(c, false);
    case Replied(_, _, _) => e := Recheck(c);
    case Pausing(_) => e := Resume(c, false);
    case Leaving(_, _) => e := Return(c);
  }

  /** A held stripe is held by a call of it that is past its wait and has not returned. */
  predicate HeldByCall(stripe: MemberId -> nat, s: State, k: nat)
    requires k in s.holder
  {
    var c := s.holder[k];
    c in s.calls && stripe(s.calls[c].member) == k && Holds(s.calls[c].phase)
  }

  lemma HolderStep(stripe: MemberId -> nat, s: State, e: Event, k: nat)
    requires Inv(stripe, s) && Possible(stripe, s, e) && k in Next(stripe, s, e).holder
    requires k in s.holder ==> HeldByCall(stripe, s, k)
    ensures HeldByCall(stripe, Next(stripe, s, e), k)
  {
    if !e.Change? && e.call in s.calls {
      assert LockHeld(stripe, s, e.call);
      OwnHolder(stripe, s, e, k);
    }
  }

  lemma OwnHolder(stripe: MemberId -> nat, s: State, e: Event, k: nat)
    requires Possible(stripe, s, e) && !e.Change? && e.call in s.calls && LockHeld(stripe, s, e.call)
    requires k in Next(stripe, s, e).holder && (k in s.holder ==> HeldByCall(stripe, s, k))
    ensures HeldByCall(stripe, Next(stripe, s, e), k)
  {
    if e.Acquire? {
    } else if e.Return? {
    } else {
      OwnKeepsHolder(stripe, s, e);
      CallsFrame(stripe, s, e, s.holder[k]);
    }
  }

  lemma OwnKeepsHolder(stripe: MemberId -> nat, s: State, e: Event)
    requires Possible(stripe, s, e) && !e.Change? && e.call in s.calls && !e.Acquire? && !e.Return?
    ensures var t := Next(stripe, s, e);
            t.holder == s.holder && e.call in t.calls && Holds(t.calls[e.call].phase)
  {
  }

  lemma {:induction false} RunHolders(stripe: MemberId -> nat, run: seq<Event>, k: nat)
    requires IsRun(stripe, run) && k in After(stripe, run).holder
    ensures HeldByCall(stripe, After(stripe, run), k)
  {
    if run != [] {
      var before := run[..|run| - 1];
      RunInv(stripe, before);
      if k in After(stripe, before).holder {
        RunHolders(stripe, before, k);
      }
      HolderStep(stripe, After(stripe, before), run[|run| - 1], k);
    }
  }

  /** So no run deadlocks: while a call has not returned, it or the holder of its stripe can advance. */
  lemma NoDeadlock(stripe: MemberId -> nat, run: seq<Event>, c: CallId) returns (e: Event)
    requires IsRun(stripe, run) && c in After(stripe, run).calls && !After(stripe, run).calls[c].phase.Returned?
    ensures var s := After(stripe, run);
            && Possible(stripe, s, e) && !e.Change? && e.call in s.calls
            && (e.call == c || stripe(s.calls[e.call].member) == stripe(s.calls[c].member))
  {
    var s := After(stripe, run);
    var k := stripe(s.calls[c].member);
    if s.calls[c].phase.Waiting? && k in s.holder {
      RunHolders(stripe, run, k);
      e := CallCanAdvance(stripe, s, s.holder[k]);
    } else {
      e := CallCanAdvance(stripe, s, c);
    }
  }
}
