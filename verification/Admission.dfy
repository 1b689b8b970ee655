/** What joinRoom decides, as a function of the room's members rather than of the order they are visited in. */
module Admission {
  import opened Collections
  import opened RoomState
  import opened RoomInvariant

  datatype Decision = NoRoom | Outdated | WrongCode | NotBound | ForeignDevice | Full | Admit | Readmit(member: Id)

  predicate StopsAt(ms: Members, m: Id, r: Id, device: string, proof: Option<Digest>) {
    m in ms && Stops(ms, m, r, device, proof)
  }

  /** What the loop concludes, whichever member it stops at. */
  ghost function LookupOf(ms: Members, r: Id, device: string, proof: Option<Digest>): Lookup {
    if m :| StopsAt(ms, m, r, device, proof) then Verdict(ms, m, proof) else Fresh
  }

  /** What follows from the loop; a full room only stops newcomers. */
  function Conclude(found: Lookup, full: bool): Decision {
    match found
    case Unbound => NotBound
    case Mismatch => ForeignDevice
    case Found(m) => Readmit(m)
    case Fresh => if full then Full else Admit
  }

  /** The checks in the order the handler makes them. */
  ghost function Decide(c: Core, r: Id, credential: Digest, device: string, proof: Option<Digest>): Decision {
    if r !in c.rooms then NoRoom
    else if c.rooms[r].access.None? then Outdated
    else if c.rooms[r].access.value.credential != credential then WrongCode
    else Conclude(LookupOf(c.members, r, device, proof), |In(c.members, r)| >= c.rooms[r].capacity)
  }

  /** A device whose ID carries a proof belongs to exactly one member of the room. */
  lemma DeviceHasOneMember(c: Core, a: Id, b: Id)
    requires Inv(c) && a in c.members && b in c.members
    requires c.members[a].room == c.members[b].room && c.members[a].device == c.members[b].device
    requires c.members[a].proof.Some?
    ensures a == b
  {
    assert PairOk(c.members, a, b);
  }

  /** Two members the loop can stop at lead to the same conclusion. */
  lemma VerdictsAgree(ms: Members, r: Id, device: string, proof: Option<Digest>, a: Id, b: Id)
    requires StopsAt(ms, a, r, device, proof) && StopsAt(ms, b, r, device, proof) && PairOk(ms, a, b)
    ensures Verdict(ms, a, proof) == Verdict(ms, b, proof)
  {
  }

  lemma LookupStops(ms: Members, r: Id, device: string, proof: Option<Digest>)
    requires exists m :: StopsAt(ms, m, r, device, proof)
    ensures exists m :: StopsAt(ms, m, r, device, proof) && LookupOf(ms, r, device, proof) == Verdict(ms, m, proof)
  {
  }

  /** Wherever the loop can stop it concludes the same, so map order does not matter. */
  lemma VerdictUnique(c: Core, r: Id, device: string, proof: Option<Digest>, m: Id)
    requires Inv(c) && StopsAt(c.members, m, r, device, proof)
    ensures LookupOf(c.members, r, device, proof) == Verdict(c.members, m, proof)
  {
    LookupStops(c.members, r, device, proof);
    var other :| StopsAt(c.members, other, r, device, proof)
                 && LookupOf(c.members, r, device, proof) == Verdict(c.members, other, proof);
    VerdictsAgree(c.members, r, device, proof, m, other);
  }

  /** A newcomer is let in exactly when the code is right, no member claims the device, and there is a place. */
  lemma AdmitIff(c: Core, r: Id, credential: Digest, device: string, proof: Option<Digest>)
    requires Inv(c)
    ensures Decide(c, r, credential, device, proof) == Admit <==>
            && r in c.rooms && c.rooms[r].access.Some? && c.rooms[r].access.value.credential == credential
            && (forall m :: m in In(c.members, r) && c.members[m].device == device ==>
                c.members[m].proof.None? && proof.None?)
            && |In(c.members, r)| < c.rooms[r].capacity
  {
    if m :| StopsAt(c.members, m, r, device, proof) {
      VerdictUnique(c, r, device, proof, m);
      assert m in In(c.members, r);
    } else {
      forall m | m in In(c.members, r) && c.members[m].device == device
        ensures c.members[m].proof.None? && proof.None?
      {
        assert !StopsAt(c.members, m, r, device, proof);
      }
    }
  }

  /** The holder of a bound device with its proof is readmitted as itself, full room or not. */
  lemma ReadmitIff(c: Core, r: Id, credential: Digest, device: string, proof: Option<Digest>, m: Id)
    requires Inv(c)
    ensures Decide(c, r, credential, device, proof) == Readmit(m) <==>
            && r in c.rooms && c.rooms[r].access.Some? && c.rooms[r].access.value.credential == credential
            && m in In(c.members, r) && c.members[m].device == device && c.members[m].proof.Some?
            && c.members[m].proof == proof
  {
    if StopsAt(c.members, m, r, device, proof) {
      VerdictUnique(c, r, device, proof, m);
    }
    if other :| StopsAt(c.members, other, r, device, proof) {
      VerdictUnique(c, r, device, proof, other);
    }
  }

  /** A room has one next order, so visiting its members in another order gives a newcomer the same place. */
  lemma NextOrderUnique(ms: Members, r: Id, a: int, b: int)
    requires IsNextOrder(ms, r, a) && IsNextOrder(ms, r, b)
    ensures a == b
  {
  }

  /** Admission keeps the invariant: capacity, device identity and distinct orders among the rest. */
  lemma AdmittedKeeps(c: Core, m: Id, r: Id, credential: Digest, nickname: string, device: string,
                      proof: Option<Digest>, token: Digest, order: int, now: int)
    requires Inv(c) && m !in c.members && (forall x :: x in c.rooms ==> c.rooms[x].host != m)
    requires Decide(c, r, credential, device, proof) == Admit && IsNextOrder(c.members, r, order)
    ensures Inv(Joined(c, m, r, nickname, device, proof, token, order, now))
  {
    AdmitIff(c, r, credential, device, proof);
    forall x | x in c.members && c.members[x].room == r && c.members[x].device == device
      ensures c.members[x].proof.None? && proof.None?
    {
      assert x in In(c.members, r);
    }
    JoinedKeeps(c, m, r, nickname, device, proof, token, order, now);
  }

  /** A rejoin keeps who the member is, what it may do, and how many are in the room. */
  lemma RejoinPreserves(c: Core, r: Id, credential: Digest, device: string, proof: Option<Digest>, m: Id,
                        nickname: string, token: Digest, now: int)
    requires Inv(c) && Decide(c, r, credential, device, proof) == Readmit(m)
    ensures m in c.members && c.members[m].room == r
    ensures var d := Rejoined(c, m, nickname, token, now);
            && Inv(d) && d.rooms == c.rooms && In(d.members, r) == In(c.members, r)
            && m in d.members && SameIdentity(c.members[m], d.members[m])
            && d.members[m].canSpeak == c.members[m].canSpeak && d.members[m].isHost == c.members[m].isHost
            && (d.members[m].isHost <==> d.rooms[r].host == m)
            && (forall x :: x in c.members && x != m ==> x in d.members && d.members[x] == c.members[x])
  {
    ReadmitIff(c, r, credential, device, proof, m);
    RejoinedKeeps(c, m, nickname, token, now);
    var d := Rejoined(c, m, nickname, token, now);
    assert MemberOk(d, m);
    assert forall x :: x in In(d.members, r) <==> x in In(c.members, r);
  }

  /** The same device and proof are readmitted again afterwards, whatever else the rejoin changed. */
  lemma RejoinRepeats(c: Core, r: Id, credential: Digest, device: string, proof: Option<Digest>, m: Id,
                      nickname: string, token: Digest, now: int)
    requires Inv(c) && Decide(c, r, credential, device, proof) == Readmit(m)
    ensures m in c.members && Decide(Rejoined(c, m, nickname, token, now), r, credential, device, proof) == Readmit(m)
  {
    var d := Rejoined(c, m, nickname, token, now);
    RejoinPreserves(c, r, credential, device, proof, m, nickname, token, now);
    ReadmitIff(c, r, credential, device, proof, m);
    ReadmitIff(d, r, credential, device, proof, m);
  }

  /** A newcomer that brought a proof is recognised from then on. */
  lemma JoinThenRejoin(c: Core, m: Id, r: Id, credential: Digest, nickname: string, device: string,
                       proof: Option<Digest>, token: Digest, order: int, now: int)
    requires Inv(c) && m !in c.members && (forall x :: x in c.rooms ==> c.rooms[x].host != m)
    requires Decide(c, r, credential, device, proof) == Admit && IsNextOrder(c.members, r, order) && proof.Some?
    ensures var d := Joined(c, m, r, nickname, device, proof, token, order, now);
            Decide(d, r, credential, device, proof) == Readmit(m)
  {
    AdmitIff(c, r, credential, device, proof);
    AdmittedKeeps(c, m, r, credential, nickname, device, proof, token, order, now);
    var d := Joined(c, m, r, nickname, device, proof, token, order, now);
    assert m in In(d.members, r);
    ReadmitIff(d, r, credential, device, proof, m);
  }
}
