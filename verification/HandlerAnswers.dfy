/** What the rate limits count, and which answer a join, a resume and a creation get, stated on members and calls. */
module HandlerAnswers {
  import opened Collections
  import opened RoomState
  import opened RoomInvariant
  import opened RateLimiter
  import opened Admission
  import opened HandlerSpecs

  // ---- limits ----

  /** How many calls of the key were made in the sixty seconds up to now. */
  function Calls(history: Log, key: string, now: int): nat {
    |set i: nat | i < |Of(history, key)| && Of(history, key)[i] >= now - 60_000|
  }

  lemma {:induction false} RecentCounts(calls: seq<int>, from: int)
    ensures |Recent(calls, from)| == |set i: nat | i < |calls| && calls[i] >= from|
  {
    var recent := set i: nat | i < |calls| && calls[i] >= from;
    if calls == [] {
      assert recent == {};
    } else {
      var front := calls[..|calls| - 1];
      var before := set i: nat | i < |front| && front[i] >= from;
      RecentCounts(front, from);
      if calls[|calls| - 1] >= from {
        assert recent == before + {|front|};
      } else {
        assert recent == before;
      }
    }
  }

  lemma WithinIff(history: Log, key: string, limit: nat, now: int)
    ensures Within(history, Check(key, limit), now) <==> Calls(history, key, now) < limit
  {
    RecentCounts(Of(history, key), now - 60_000);
    RecentAppend(Of(history, key), now, now - WINDOW);
  }

  /** The sweeper forgets a key exactly when none of its calls is from the last minute. */
  lemma IdleIff(calls: seq<int>, now: int)
    requires Sorted(calls)
    ensures Idle(calls, now) <==> forall i :: 0 <= i < |calls| ==> calls[i] < now - 60_000
  {
  }

  /** A call under one key leaves the counts of the others. */
  lemma OtherCalls(history: Log, key: string, other: string, calls: seq<int>, now: int)
    requires key != other
    ensures Of(history[key := calls], other) == Of(history, other)
    ensures Calls(history[key := calls], other, now) == Calls(history, other, now)
  {
    var c := Of(history, other);
    assert Of(history[key := calls], other) == c;
    var recent := set i: nat | i < |c| && c[i] >= now - 60_000;
    assert Calls(history, other, now) == |recent|;
  }

  /** One check at a time. */
  lemma FirstCheck(history: Log, key: string, limit: nat, rest: seq<Check>, now: int)
    ensures var checks := [Check(key, limit)] + rest;
            var next := history[key := Of(history, key) + [now]];
            && (Passes(history, checks, now) <==> Calls(history, key, now) < limit && Passes(next, rest, now))
            && Attempted(history, checks, now) == if Calls(history, key, now) < limit then Attempted(next, rest, now)
                                                  else next
  {
    var checks := [Check(key, limit)] + rest;
    WithinIff(history, key, limit, now);
    assert checks[0] == Check(key, limit) && checks[1..] == rest;
  }

  lemma JoinKeysDiffer(ip: string, device: string, r: Id)
    ensures "join:ip:" + ip != "join:device:" + device && "join:ip:" + ip != "join:room:" + r
    ensures "join:device:" + device != "join:room:" + r
  {
    assert ("join:ip:" + ip)[5] == 'i' && ("join:device:" + device)[5] == 'd' && ("join:room:" + r)[5] == 'r';
  }

  lemma OneCheck(history: Log, key: string, limit: nat, now: int)
    ensures Passes(history, [Check(key, limit)], now) <==> Calls(history, key, now) < limit
    ensures Attempted(history, [Check(key, limit)], now) == history[key := Of(history, key) + [now]]
  {
    FirstCheck(history, key, limit, [], now);
    assert [Check(key, limit)] + [] == [Check(key, limit)];
  }

  lemma TwoChecks(history: Log, a: string, m: nat, b: string, n: nat, now: int)
    requires a != b
    ensures var checks := [Check(a, m), Check(b, n)];
            var h := Attempted(history, checks, now);
            && (Passes(history, checks, now) <==> Calls(history, a, now) < m && Calls(history, b, now) < n)
            && Of(h, a) == Of(history, a) + [now]
            && Of(h, b) == Of(history, b) + (if Calls(history, a, now) < m then [now] else [])
            && forall key :: key != a && key != b ==> Of(h, key) == Of(history, key)
  {
    var next := history[a := Of(history, a) + [now]];
    FirstCheck(history, a, m, [Check(b, n)], now);
    var checks := [Check(a, m), Check(b, n)];
    assert [Check(a, m)] + [Check(b, n)] == checks;
    OneCheck(next, b, n, now);
    OtherCalls(history, a, b, Of(history, a) + [now], now);
    Appended(history, a, now);
    Appended(next, b, now);
    var h := Attempted(history, checks, now);
    assert h == if Calls(history, a, now) < m then next[b := Of(next, b) + [now]] else next;
  }

  lemma Appended(history: Log, key: string, now: int)
    ensures var next := history[key := Of(history, key) + [now]];
            Of(next, key) == Of(history, key) + [now] && forall x :: x != key ==> Of(next, x) == Of(history, x)
  {
  }

  lemma ThreeChecks(history: Log, a: string, m: nat, b: string, n: nat, d: string, o: nat, now: int)
    requires a != b && a != d && b != d
    ensures var checks := [Check(a, m), Check(b, n), Check(d, o)];
            var h := Attempted(history, checks, now);
            && (Passes(history, checks, now) <==>
                Calls(history, a, now) < m && Calls(history, b, now) < n && Calls(history, d, now) < o)
            && Of(h, a) == Of(history, a) + [now]
            && Of(h, b) == Of(history, b) + (if Calls(history, a, now) < m then [now] else [])
            && Of(h, d) == Of(history, d)
                           + (if Calls(history, a, now) < m && Calls(history, b, now) < n then [now] else [])
            && forall key :: key != a && key != b && key != d ==> Of(h, key) == Of(history, key)
  {
    var next := history[a := Of(history, a) + [now]];
    FirstCheck(history, a, m, [Check(b, n), Check(d, o)], now);
    assert [Check(a, m)] + [Check(b, n), Check(d, o)] == [Check(a, m), Check(b, n), Check(d, o)];
    TwoChecks(next, b, n, d, o, now);
    OtherCalls(history, a, b, Of(history, a) + [now], now);
    OtherCalls(history, a, d, Of(history, a) + [now], now);
    var h := Attempted(history, [Check(a, m), Check(b, n), Check(d, o)], now);
    assert h == if Calls(history, a, now) < m then Attempted(next, [Check(b, n), Check(d, o)], now) else next;
    Appended(history, a, now);
    var passes := Calls(history, a, now) < m && Calls(next, b, now) < n;
    assert Of(h, d) == Of(next, d) + if passes then [now] else [];
  }

  /**
   Joining: twenty calls a minute of an address, ten of a device, thirty for a room, this one included.  The
   refused call counts under its own key, and the calls after it are not made.
   */
  lemma JoinLimits(history: Log, ip: string, device: string, r: Id, now: int)
    ensures var a, b, d := "join:ip:" + ip, "join:device:" + device, "join:room:" + r;
            var h := Attempted(history, JoinChecks(ip, device, r), now);
            && (Passes(history, JoinChecks(ip, device, r), now) <==>
                Calls(history, a, now) < 20 && Calls(history, b, now) < 10 && Calls(history, d, now) < 30)
            && Of(h, a) == Of(history, a) + [now]
            && Of(h, b) == Of(history, b) + (if Calls(history, a, now) < 20 then [now] else [])
            && Of(h, d) == Of(history, d)
                           + (if Calls(history, a, now) < 20 && Calls(history, b, now) < 10 then [now] else [])
            && forall key :: key != a && key != b && key != d ==> Of(h, key) == Of(history, key)
  {
    JoinKeysDiffer(ip, device, r);
    ThreeChecks(history, "join:ip:" + ip, 20, "join:device:" + device, 10, "join:room:" + r, 30, now);
  }

  /** Creating: ten a minute of an address, three of a device. */
  lemma CreateLimits(history: Log, ip: string, device: string, now: int)
    ensures var a, b := "create:ip:" + ip, "create:device:" + device;
            var h := Attempted(history, CreateChecks(ip, device), now);
            && (Passes(history, CreateChecks(ip, device), now) <==>
                Calls(history, a, now) < 10 && Calls(history, b, now) < 3)
            && Of(h, a) == Of(history, a) + [now]
            && Of(h, b) == Of(history, b) + (if Calls(history, a, now) < 10 then [now] else [])
            && forall key :: key != a && key != b ==> Of(h, key) == Of(history, key)
  {
    CreateKeysDiffer(ip, device);
    TwoChecks(history, "create:ip:" + ip, 10, "create:device:" + device, 3, now);
  }

  lemma CreateKeysDiffer(ip: string, device: string)
    ensures "create:ip:" + ip != "create:device:" + device
  {
    assert ("create:ip:" + ip)[7] == 'i' && ("create:device:" + device)[7] == 'd';
  }

  /** Resuming: twenty a minute of a member. */
  lemma ResumeLimit(history: Log, m: Id, now: int)
    ensures Passes(history, ResumeChecks(m), now) <==> Calls(history, "resume:" + m, now) < 20
    ensures Attempted(history, ResumeChecks(m), now)
         == history["resume:" + m := Of(history, "resume:" + m) + [now]]
  {
    OneCheck(history, "resume:" + m, 20, now);
  }

  // ---- answers ----

  /** Somebody in the room holds this device ID with a proof other than the one presented. */
  predicate HeldByOther(ms: Members, r: Id, device: string, proof: Option<Digest>) {
    exists m :: m in ms && ms[m].room == r && ms[m].device == device && ms[m].proof.Some? && ms[m].proof != proof
  }

  /** Somebody in the room holds it without a proof, and one is presented. */
  predicate HeldUnbound(ms: Members, r: Id, device: string, proof: Option<Digest>) {
    proof.Some? && exists m :: m in ms && ms[m].room == r && ms[m].device == device && ms[m].proof.None?
  }

  /** Somebody in the room holds it with the proof presented. */
  predicate HeldWithProof(ms: Members, r: Id, device: string, proof: Option<Digest>) {
    proof.Some? && exists m :: m in ms && ms[m].room == r && ms[m].device == device && ms[m].proof == proof
  }

  /** The three exclude one another, and each settles what the loop concludes. */
  lemma LookupCases(c: Core, r: Id, device: string, proof: Option<Digest>)
    requires Inv(c)
    ensures LookupOf(c.members, r, device, proof).Mismatch? <==> HeldByOther(c.members, r, device, proof)
    ensures LookupOf(c.members, r, device, proof).Unbound? <==> HeldUnbound(c.members, r, device, proof)
    ensures LookupOf(c.members, r, device, proof).Found? <==> HeldWithProof(c.members, r, device, proof)
  {
    var ms := c.members;
    if m :| m in ms && ms[m].room == r && ms[m].device == device && ms[m].proof.Some? && ms[m].proof != proof {
      assert StopsAt(ms, m, r, device, proof);
    }
    if m :| m in ms && ms[m].room == r && ms[m].device == device && ms[m].proof.None? && proof.Some? {
      assert StopsAt(ms, m, r, device, proof);
    }
    if m :| m in ms && ms[m].room == r && ms[m].device == device && ms[m].proof == proof && proof.Some? {
      assert StopsAt(ms, m, r, device, proof);
    }
    if m :| StopsAt(ms, m, r, device, proof) {
      StopDecides(c, r, device, proof, m);
    }
  }

  lemma StopDecides(c: Core, r: Id, device: string, proof: Option<Digest>, m: Id)
    requires Inv(c) && StopsAt(c.members, m, r, device, proof)
    ensures LookupOf(c.members, r, device, proof) == Verdict(c.members, m, proof)
    ensures HeldByOther(c.members, r, device, proof) <==>
            c.members[m].proof.Some? && c.members[m].proof != proof
    ensures HeldUnbound(c.members, r, device, proof) <==> c.members[m].proof.None? && proof.Some?
    ensures HeldWithProof(c.members, r, device, proof) <==> c.members[m].proof.Some? && c.members[m].proof == proof
  {
    VerdictUnique(c, r, device, proof, m);
    forall x | x in c.members && c.members[x].room == r && c.members[x].device == device
      ensures x == m || (c.members[x].proof.None? && c.members[m].proof.None?)
    {
      assert PairOk(c.members, x, m);
    }
  }

  /** What is decided once the limits are passed. */
  lemma DecisionCases(c: Core, r: Id, credential: Digest, device: string, proof: Option<Digest>)
    requires Inv(c)
    ensures var decision := Decide(c, r, credential, device, proof);
            var current := r in c.rooms && c.rooms[r].access.Some?;
            var code := current && c.rooms[r].access.value.credential == credential;
            var others := HeldByOther(c.members, r, device, proof);
            var unbound := HeldUnbound(c.members, r, device, proof);
            var holder := HeldWithProof(c.members, r, device, proof);
            var full := r in c.rooms && |In(c.members, r)| >= c.rooms[r].capacity;
            && (decision == NoRoom <==> r !in c.rooms)
            && (decision == Outdated <==> r in c.rooms && !current)
            && (decision == WrongCode <==> current && !code)
            && (decision == ForeignDevice <==> code && others)
            && (decision == NotBound <==> code && unbound)
            && (decision == Full <==> code && !others && !unbound && !holder && full)
            && (decision == Admit <==> code && !others && !unbound && !holder && !full)
            && (decision.Readmit? <==> code && holder)
  {
    LookupCases(c, r, device, proof);
    HeldOnce(c, r, device, proof);
  }

  lemma HeldOnce(c: Core, r: Id, device: string, proof: Option<Digest>)
    requires Inv(c)
    ensures var others, holder := HeldByOther(c.members, r, device, proof), HeldWithProof(c.members, r, device, proof);
            var unbound := HeldUnbound(c.members, r, device, proof);
            !(others && holder) && !(others && unbound) && !(unbound && holder)
  {
    LookupCases(c, r, device, proof);
  }

  /**
   A join is answered 429 exactly over a limit, then 404 without the room, 403 for a wrong code or somebody
   else's device, 409 for an outdated room, an unbound device or a full room, and 201 otherwise once installed.
   */
  lemma JoinAnswers(c: Core, history: Log, ip: string, r: Id, credential: Digest, device: string,
                    proof: Option<Digest>, now: int, installed: bool)
    requires Inv(c)
    ensures var status := JoinStatus(c, history, ip, r, credential, device, proof, now, installed);
            var limits := Calls(history, "join:ip:" + ip, now) < 20 && Calls(history, "join:device:" + device, now) < 10
                          && Calls(history, "join:room:" + r, now) < 30;
            var current := r in c.rooms && c.rooms[r].access.Some?;
            var code := current && c.rooms[r].access.value.credential == credential;
            var others := HeldByOther(c.members, r, device, proof);
            var unbound := HeldUnbound(c.members, r, device, proof);
            var holder := HeldWithProof(c.members, r, device, proof);
            var full := r in c.rooms && |set m | m in c.members && c.members[m].room == r| >= c.rooms[r].capacity;
            var admitted := code && !others && !unbound && (holder || !full);
            && (status == TooMany <==> !limits)
            && (status == NotFound <==> limits && r !in c.rooms)
            && (status == Forbidden <==> limits && current && (!code || others))
            && (status == Conflict <==>
                limits && r in c.rooms && (!current || (code && (unbound || (full && !holder && !others)))))
            && (status == Done <==> limits && admitted && installed)
            && (status == Failed <==> limits && admitted && !installed)
  {
    JoinLimits(history, ip, device, r, now);
    DecisionCases(c, r, credential, device, proof);
    HeldOnce(c, r, device, proof);
    assert In(c.members, r) == set m | m in c.members && c.members[m].room == r;
  }

  /**
   A resume is answered 401 unless a member of the room presents its token, 410 after its deadline, 429 over
   the limit, and otherwise 200 or 500.
   */
  lemma ResumeAnswers(c: Core, history: Log, m: Id, r: Id, token: Digest, now: int, grants: bool)
    requires Inv(c)
    ensures var status := ResumeStatus(c, history, m, r, token, now, grants);
            var presents := m in c.members && r in c.rooms && c.members[m].room == r
                            && c.members[m].resumeToken == token;
            var deadline := if !presents then None
                            else if c.rooms[r].host == m && c.rooms[r].hostDeadline.Some? then c.rooms[r].hostDeadline
                            else c.members[m].deadline;
            var late := deadline.Some? && now > deadline.value;
            && (status == Unauthorized <==> !presents)
            && (status == Gone <==> presents && late)
            && (status == TooMany <==> presents && !late && Calls(history, "resume:" + m, now) >= 20)
            && (status == Done <==> presents && !late && Calls(history, "resume:" + m, now) < 20 && grants)
            && (status == Failed <==> presents && !late && Calls(history, "resume:" + m, now) < 20 && !grants)
  {
    ResumeLimit(history, m, now);
    if m in c.members {
      assert MemberOk(c, m);
    }
  }

  /**
   A creation is answered 400 unless it is well formed, 429 on a full server, over a limit or for a device
   that hosts three rooms, and otherwise 201 or 500.
   */
  lemma CreateAnswers(c: Core, history: Log, name: string, capacity: int, maximumParticipants: int, hostTimeout: int,
                      monitorable: bool, maximumRooms: int, ip: string, device: string, now: int, saved: bool)
    ensures var formed := 0 < |name| <= 80 && 2 <= capacity <= maximumParticipants && 1 <= hostTimeout <= 60
                          && monitorable;
            var status := CreateStatus(c, history,
                                       RoomParameters(name, capacity, maximumParticipants, hostTimeout) && monitorable,
                                       maximumRooms, ip, device, now, saved);
            var room := |c.rooms| < maximumRooms
                        && Calls(history, "create:ip:" + ip, now) < 10
                        && Calls(history, "create:device:" + device, now) < 3
                        && |set m | m in c.members && c.members[m].device == device && c.members[m].isHost| < 3;
            && (status == BadRequest <==> !formed)
            && (status == TooMany <==> formed && !room)
            && (status == Done <==> formed && room && saved)
            && (status == Failed <==> formed && room && !saved)
  {
    CreateLimits(history, ip, device, now);
  }
}
