/** The signed room snapshot of the fusion directory: its byte layout and its parser. */
module FusionRoster {
  import opened Bytes

  const MAX_MEMBERS := 16
  const MAX_STATE := 74 + MAX_MEMBERS * (18 + 40)
  const SIGNATURE := 64

  /** Ed25519 verification of (key, message, signature), and UTF-8 validity. */
  datatype Oracles = Oracles(verify: (seq<byte>, seq<byte>, seq<byte>) -> bool, utf8: seq<byte> -> bool)

  /** A device is its sixteen raw bytes: the code's base64 names are in bijection with them. */
  datatype Entry = Entry(id: int, device: seq<byte>, nickname: seq<byte>)

  datatype Snapshot = Snapshot(key: seq<byte>, secretHash: seq<byte>, name: seq<byte>,
                               revision: nat, ended: bool, members: seq<Entry>)

  // ---- layout ----

  function EncodeEntry(e: Entry): seq<byte>
    requires 0 <= e.id < 256 && |e.nickname| < 256
  {
    [e.id] + e.device + [|e.nickname|] + e.nickname
  }

  function EncodeEntries(ms: seq<Entry>): seq<byte>
    requires forall i :: 0 <= i < |ms| ==> 0 <= ms[i].id < 256 && |ms[i].nickname| < 256
  {
    if ms == [] then [] else EncodeEntry(ms[0]) + EncodeEntries(ms[1..])
  }

  /** Version byte, creator key, capability hash, name; then the creator's signature of all that. */
  function EncodeManifest(s: Snapshot): seq<byte> {
    [1] + s.key + s.secretHash + s.name
  }

  function EncodeState(s: Snapshot): seq<byte>
    requires s.revision < Pow256(8) && |s.members| < 256
    requires forall i :: 0 <= i < |s.members| ==> 0 <= s.members[i].id < 256 && |s.members[i].nickname| < 256
  {
    ToBigEndian(s.revision, 8) + [if s.ended then 1 else 0] + [|s.members|] + EncodeEntries(s.members)
  }

  predicate EntryOk(o: Oracles, e: Entry) {
    1 <= e.id <= MAX_MEMBERS && |e.device| == 16 && |e.nickname| <= 40 && o.utf8(e.nickname)
  }

  /** Valid entries whose IDs and devices are new and pairwise distinct. */
  predicate EntriesOk(o: Oracles, ms: seq<Entry>, ids: set<int>, devices: set<seq<byte>>) {
    ms == [] ||
    (EntryOk(o, ms[0]) && ms[0].id !in ids && ms[0].device !in devices
     && EntriesOk(o, ms[1..], ids + {ms[0].id}, devices + {ms[0].device}))
  }

  predicate HasId(ms: seq<Entry>, id: int) {
    exists e :: e in ms && e.id == id
  }

  predicate WellFormed(o: Oracles, s: Snapshot) {
    && |s.key| == 32 && |s.secretHash| == 32 && |s.name| <= 64 && o.utf8(s.name)
    && s.revision < Pow256(8)
    && |s.members| <= MAX_MEMBERS && EntriesOk(o, s.members, {}, {})
    && (!s.ended ==> HasId(s.members, 1))
  }

  /** The same condition element by element. */
  lemma {:induction false} EntriesOkIff(o: Oracles, ms: seq<Entry>, ids: set<int>, devices: set<seq<byte>>)
    ensures EntriesOk(o, ms, ids, devices) <==>
      && (forall i :: 0 <= i < |ms| ==> EntryOk(o, ms[i]) && ms[i].id !in ids && ms[i].device !in devices)
      && (forall i, j :: 0 <= i < j < |ms| ==> ms[i].id != ms[j].id && ms[i].device != ms[j].device)
  {
    if ms != [] {
      EntriesOkIff(o, ms[1..], ids + {ms[0].id}, devices + {ms[0].device});
      assert forall i :: 1 <= i < |ms| ==> ms[i] == ms[1..][i - 1];
      assert forall i :: 0 <= i < |ms| - 1 ==> ms[1..][i] == ms[i + 1];
    }
  }

  // ---- the parser ----

  /** The loop over the member list: exactly count valid entries, and nothing after them. */
  function Entries(o: Oracles, region: seq<byte>, count: nat, ids: set<int>,
                   devices: set<seq<byte>>): Result<seq<Entry>> {
    if count == 0 then if region == [] then Ok([]) else Err
    else if |region| < 18 then Err
    else
      var id, length := region[0], region[17];
      if id < 1 || id > MAX_MEMBERS || id in ids || length > 40 || 18 + length > |region| then Err
      else
        var device, nickname := region[1..17], region[18..18 + length];
        if device in devices || !o.utf8(nickname) then Err
        else
          var rest := Entries(o, region[18 + length..], count - 1, ids + {id}, devices + {device});
          if rest.Err? then Err else Ok([Entry(id, device, nickname)] + rest.value)
  }

  /** Go's conversion of a signed millisecond count. */
  function Uint64(x: int): nat {
    x % 0x1_0000_0000_0000_0000
  }

  predicate Timely(revision: nat, now: int) {
    Uint64(now - 90_000) <= revision <= Uint64(now + 60_000)
  }

  predicate ManifestOk(o: Oracles, id: seq<byte>, manifest: seq<byte>) {
    && 129 <= |manifest| <= 193 && manifest[0] == 1
    && manifest[1..33] == id
    && o.verify(id, manifest[..|manifest| - SIGNATURE], manifest[|manifest| - SIGNATURE..])
    && o.utf8(manifest[65..|manifest| - SIGNATURE])
  }

  /** Everything parseFusion checks about the state before its loop; cap is the length limit. */
  predicate HeaderOk(o: Oracles, id: seq<byte>, state: seq<byte>, now: int, cap: int) {
    && 74 <= |state| <= cap && state[8] <= 1 && state[9] <= MAX_MEMBERS
    && o.verify(id, [2] + id + state[..|state| - SIGNATURE], state[|state| - SIGNATURE..])
    && Timely(FromBigEndian(state[..8]), now)
  }

  function ParseWithin(cap: int, o: Oracles, id: seq<byte>, manifest: seq<byte>, state: seq<byte>,
                       now: int): Result<Snapshot> {
    if !ManifestOk(o, id, manifest) || !HeaderOk(o, id, state, now, cap) then Err
    else
      var members := Entries(o, state[10..|state| - SIGNATURE], state[9], {}, {});
      if members.Err? || (state[8] != 1 && !HasId(members.value, 1)) then Err
      else
        Ok(Snapshot(id, manifest[33..65], manifest[65..|manifest| - SIGNATURE],
                    FromBigEndian(state[..8]), state[8] == 1, members.value))
  }

  /** What parseFusion returns. */
  function Parsed(o: Oracles, id: seq<byte>, manifest: seq<byte>, state: seq<byte>, now: int): Result<Snapshot> {
    ParseWithin(MAX_STATE, o, id, manifest, state, now)
  }

  /** The recursion unfolded once, when the entry's bounds are right. */
  lemma EntriesStep(o: Oracles, region: seq<byte>, count: nat, ids: set<int>, devices: set<seq<byte>>)
    requires count > 0 && |region| >= 18 && 1 <= region[0] <= MAX_MEMBERS && region[0] !in ids
    requires region[17] <= 40 && region[17] <= |region| - 18
    ensures var n: int := region[17];
            var e := Entry(region[0], region[1..17], region[18..18 + n]);
            Entries(o, region, count, ids, devices)
            == if e.device in devices || !o.utf8(e.nickname) then Err
               else Prepend([e], Entries(o, region[18 + n..], count - 1, ids + {e.id}, devices + {e.device}))
  {
  }

  /** One turn of the loop of parseFusion: the entry at offset, or a refusal. */
  method ReadEntry(o: Oracles, state: seq<byte>, offset: nat, end: nat, ids: set<int>, devices: set<seq<byte>>,
                   ghost left: nat)
    returns (r: Result<Entry>, next: nat, ghost rest: Result<seq<Entry>>)
    requires offset <= end <= |state| && left > 0
    ensures r.Err? ==> Entries(o, state[offset..end], left, ids, devices).Err?
    ensures r.Ok? ==> offset < next <= end
    ensures r.Ok? ==> rest == Entries(o, state[next..end], left - 1, ids + {r.value.id}, devices + {r.value.device})
    ensures r.Ok? ==> Entries(o, state[offset..end], left, ids, devices) == Prepend([r.value], rest)
  {
    rest := Err;
    if offset + 18 > end {
      return Err, offset, rest;
    }
    var memberID, length: int := state[offset], state[offset + 17];
    ghost var region := state[offset..end];
    assert region[0] == state[offset] && region[17] == state[offset + 17];
    if memberID < 1 || memberID > MAX_MEMBERS || memberID in ids || length > 40 || offset + 18 + length > end {
      return Err, offset, rest;
    }
    RegionFields(state, offset, end, length);
    var device, nickname := state[offset + 1..offset + 17], state[offset + 18..offset + 18 + length];
    EntriesStep(o, region, left, ids, devices);
    if device in devices || !o.utf8(nickname) {
      return Err, offset, rest;
    }
    next := offset + 18 + length;
    rest := Entries(o, state[next..end], left - 1, ids + {memberID}, devices + {device});
    return Ok(Entry(memberID, device, nickname)), next, rest;
  }

  /** One turn of the loop keeps what is still to come in step with what was collected. */
  lemma TurnKeeps(members: seq<Entry>, e: Entry, rest: Result<seq<Entry>>)
    ensures Prepend(members, Prepend([e], rest)) == Prepend(members + [e], rest)
    ensures HasId(members + [e], 1) <==> HasId(members, 1) || e.id == 1
  {
    if rest.Ok? {
      assert members + ([e] + rest.value) == members + [e] + rest.value;
    }
    assert e in members + [e];
    assert forall x :: x in members ==> x in members + [e];
  }

  /** The loop of parseFusion: an offset advancing over the state, with sets of what it has seen. */
  method ParseMembers(o: Oracles, state: seq<byte>, end: nat, count: nat) returns (r: Result<seq<Entry>>, hasOne: bool)
    requires 10 <= end <= |state|
    ensures r == Entries(o, state[10..end], count, {}, {})
    ensures r.Ok? ==> (hasOne <==> HasId(r.value, 1))
  {
    var offset := 10;
    var ids: set<int>, devices: set<seq<byte>>, members: seq<Entry> := {}, {}, [];
    ghost var whole := Entries(o, state[10..end], count, {}, {});
    ghost var rest := whole;
    PrependNothing(whole);
    for i := 0 to count
      invariant 10 <= offset <= end
      invariant rest == Entries(o, state[offset..end], count - i, ids, devices)
      invariant whole == Prepend(members, rest)
      invariant 1 in ids <==> HasId(members, 1)
    {
      var entry, next, tail := ReadEntry(o, state, offset, end, ids, devices, count - i);
      if entry.Err? {
        return Err, false;
      }
      var e := entry.value;
      TurnKeeps(members, e, tail);
      ids, devices, members, offset := ids + {e.id}, devices + {e.device}, members + [e], next;
      rest := tail;
    }
    LoopEnds(o, whole, members, state[offset..end], ids, devices);
    if offset != end {
      return Err, false;
    }
    return Ok(members), 1 in ids;
  }

  lemma LoopEnds(o: Oracles, whole: Result<seq<Entry>>, members: seq<Entry>, region: seq<byte>, ids: set<int>,
                 devices: set<seq<byte>>)
    requires whole == Prepend(members, Entries(o, region, 0, ids, devices))
    ensures whole == if region == [] then Ok(members) else Err
  {
    assert members + [] == members;
  }

  lemma PrependNothing(r: Result<seq<Entry>>)
    ensures Prepend([], r) == r && !HasId([], 1)
  {
    assert r.Ok? ==> [] + r.value == r.value;
  }

  /** The server's parseFusion. */
  method ParseFusion(o: Oracles, id: seq<byte>, manifest: seq<byte>, state: seq<byte>, now: int)
    returns (r: Result<Snapshot>)
    ensures r == Parsed(o, id, manifest, state, now)
  {
    if !ManifestOk(o, id, manifest) || !HeaderOk(o, id, state, now, MAX_STATE) {
      return Err;
    }
    var members, hasOne := ParseMembers(o, state, |state| - SIGNATURE, state[9]);
    if members.Err? || (state[8] != 1 && !hasOne) {
      return Err;
    }
    return Ok(Snapshot(id, manifest[33..65], manifest[65..|manifest| - SIGNATURE],
                       FromBigEndian(state[..8]), state[8] == 1, members.value));
  }

  /** The fields of an entry, addressed from the region's start or from the state's. */
  lemma RegionFields(state: seq<byte>, offset: nat, end: nat, length: nat)
    requires offset + 18 + length <= end <= |state|
    ensures var region := state[offset..end];
            && region[1..17] == state[offset + 1..offset + 17]
            && region[18..18 + length] == state[offset + 18..offset + 18 + length]
            && region[18 + length..] == state[offset + 18 + length..end]
            && region[0] == state[offset] && region[17] == state[offset + 17] && |region| == end - offset
  {
    SliceOfSlice(state, offset, end, 1, 17);
    SliceOfSlice(state, offset, end, 18, 18 + length);
    SliceOfSlice(state, offset, end, 18 + length, end - offset);
  }

  lemma SliceOfSlice(s: seq<byte>, a: nat, b: nat, c: nat, d: nat)
    requires a <= b <= |s| && c <= d <= b - a
    ensures s[a..b][c..d] == s[a + c..a + d]
  {
    var l, r := s[a..b][c..d], s[a + c..a + d];
    assert |l| == |r|;
    assert forall k :: 0 <= k < |l| ==> l[k] == s[a..b][c + k] == s[a + (c + k)] == r[k];
    assert l == r;
  }

  function Prepend(ms: seq<Entry>, r: Result<seq<Entry>>): Result<seq<Entry>> {
    if r.Err? then Err else Ok(ms + r.value)
  }

  // ---- parsing inverts the layout ----

  lemma {:induction false} EntriesRoundTrip(o: Oracles, ms: seq<Entry>, ids: set<int>, devices: set<seq<byte>>)
    requires EntriesOk(o, ms, ids, devices)
    ensures forall i :: 0 <= i < |ms| ==> 0 <= ms[i].id < 256 && |ms[i].nickname| < 256
    ensures Entries(o, EncodeEntries(ms), |ms|, ids, devices) == Ok(ms)
  {
    EntriesOkIff(o, ms, ids, devices);
    if ms != [] {
      var e, rest := ms[0], EncodeEntries(ms[1..]);
      EntriesRoundTrip(o, ms[1..], ids + {e.id}, devices + {e.device});
      EntryAt(e, rest);
      EntriesStep(o, EncodeEntry(e) + rest, |ms|, ids, devices);
      assert [e] + ms[1..] == ms;
    }
  }

  lemma EntryAt(e: Entry, rest: seq<byte>)
    requires 0 <= e.id < 256 && |e.nickname| < 256 && |e.device| == 16
    ensures var region, n := EncodeEntry(e) + rest, |e.nickname|;
            && |region| >= 18 + n && region[0] == e.id && region[17] == n
            && region[1..17] == e.device && region[18..18 + n] == e.nickname && region[18 + n..] == rest
  {
  }

  lemma {:induction false} EntriesUnique(o: Oracles, region: seq<byte>, count: nat, ids: set<int>,
                                         devices: set<seq<byte>>)
    requires Entries(o, region, count, ids, devices).Ok?
    ensures var ms := Entries(o, region, count, ids, devices).value;
            && |ms| == count && EntriesOk(o, ms, ids, devices)
            && (forall i :: 0 <= i < |ms| ==> 0 <= ms[i].id < 256 && |ms[i].nickname| < 256)
            && EncodeEntries(ms) == region
  {
    if count > 0 {
      var length := region[17];
      var e := Entry(region[0], region[1..17], region[18..18 + length]);
      EntriesUnique(o, region[18 + length..], count - 1, ids + {e.id}, devices + {e.device});
      var rest := Entries(o, region[18 + length..], count - 1, ids + {e.id}, devices + {e.device}).value;
      assert ([e] + rest)[1..] == rest;
      EntriesOkIff(o, [e] + rest, ids, devices);
      EntrySplit(region);
    }
  }

  lemma EntrySplit(region: seq<byte>)
    requires |region| >= 18 && |region| - 18 >= region[17]
    ensures var n: int := region[17];
            var e := Entry(region[0], region[1..17], region[18..18 + n]);
            |e.nickname| < 256 && EncodeEntry(e) + region[18 + n..] == region
  {
  }

  /** A well-formed, signed and timely snapshot parses back to itself. */
  lemma RoundTrip(o: Oracles, s: Snapshot, manifestSignature: seq<byte>, stateSignature: seq<byte>, now: int)
    requires WellFormed(o, s) && |manifestSignature| == SIGNATURE && |stateSignature| == SIGNATURE
    requires o.verify(s.key, EncodeManifest(s), manifestSignature)
    requires Timely(s.revision, now)
    ensures |s.members| < 256 && forall i :: 0 <= i < |s.members| ==>
      0 <= s.members[i].id < 256 && |s.members[i].nickname| < 256
    ensures o.verify(s.key, [2] + s.key + EncodeState(s), stateSignature) ==>
      Parsed(o, s.key, EncodeManifest(s) + manifestSignature, EncodeState(s) + stateSignature, now) == Ok(s)
  {
    LengthBound(o, s);
    if o.verify(s.key, [2] + s.key + EncodeState(s), stateSignature) {
      var m, t := EncodeManifest(s) + manifestSignature, EncodeState(s) + stateSignature;
      ManifestAccepted(o, s, manifestSignature);
      StateAccepted(o, s, stateSignature, now);
      ManifestAt(s, manifestSignature);
      StateAt(s, stateSignature);
      assert Parsed(o, s.key, m, t, now) == Ok(s);
    }
  }

  lemma ManifestAccepted(o: Oracles, s: Snapshot, signature: seq<byte>)
    requires WellFormed(o, s) && |signature| == SIGNATURE && o.verify(s.key, EncodeManifest(s), signature)
    ensures ManifestOk(o, s.key, EncodeManifest(s) + signature)
  {
  }

  lemma StateAccepted(o: Oracles, s: Snapshot, signature: seq<byte>, now: int)
    requires WellFormed(o, s) && |signature| == SIGNATURE && Timely(s.revision, now)
    requires forall i :: 0 <= i < |s.members| ==> 0 <= s.members[i].id < 256 && |s.members[i].nickname| < 256
    requires o.verify(s.key, [2] + s.key + EncodeState(s), signature)
    ensures var t := EncodeState(s) + signature;
            && HeaderOk(o, s.key, t, now, MAX_STATE)
            && Entries(o, t[10..|t| - SIGNATURE], t[9], {}, {}) == Ok(s.members)
  {
    LengthBound(o, s);
    StateAt(s, signature);
    EntriesRoundTrip(o, s.members, {}, {});
  }

  lemma ManifestAt(s: Snapshot, signature: seq<byte>)
    requires |s.key| == 32 && |s.secretHash| == 32 && |signature| == SIGNATURE
    ensures var m := EncodeManifest(s) + signature;
            && |m| == 129 + |s.name| && m[0] == 1 && m[1..33] == s.key && m[33..65] == s.secretHash
            && m[65..|m| - SIGNATURE] == s.name && m[..|m| - SIGNATURE] == EncodeManifest(s)
            && m[|m| - SIGNATURE..] == signature
  {
  }

  lemma StateAt(s: Snapshot, signature: seq<byte>)
    requires s.revision < Pow256(8) && |s.members| < 256 && |signature| == SIGNATURE
    requires forall i :: 0 <= i < |s.members| ==> 0 <= s.members[i].id < 256 && |s.members[i].nickname| < 256
    ensures var t := EncodeState(s) + signature;
            && |t| == 74 + |EncodeEntries(s.members)|
            && t[..8] == ToBigEndian(s.revision, 8) && t[8] == (if s.ended then 1 else 0) && t[9] == |s.members|
            && t[10..|t| - SIGNATURE] == EncodeEntries(s.members)
            && t[..|t| - SIGNATURE] == EncodeState(s) && t[|t| - SIGNATURE..] == signature
  {
  }

  /** What is accepted is well formed, and the accepted bytes are its only encoding with those signatures. */
  lemma AcceptedIsEncoding(o: Oracles, id: seq<byte>, manifest: seq<byte>, state: seq<byte>, now: int)
    requires Parsed(o, id, manifest, state, now).Ok?
    ensures var s := Parsed(o, id, manifest, state, now).value;
            && s.key == id && WellFormed(o, s) && Timely(s.revision, now)
            && (forall i :: 0 <= i < |s.members| ==> 0 <= s.members[i].id < 256 && |s.members[i].nickname| < 256)
            && manifest == EncodeManifest(s) + manifest[|manifest| - SIGNATURE..]
            && state == EncodeState(s) + state[|state| - SIGNATURE..]
            && o.verify(id, EncodeManifest(s), manifest[|manifest| - SIGNATURE..])
            && o.verify(id, [2] + id + EncodeState(s), state[|state| - SIGNATURE..])
  {
    var s := Parsed(o, id, manifest, state, now).value;
    ManifestReencodes(s, manifest);
    StateReencodes(o, s, state);
  }

  lemma ManifestReencodes(s: Snapshot, m: seq<byte>)
    requires |m| >= 129 && m[0] == 1
    requires s.key == m[1..33] && s.secretHash == m[33..65] && s.name == m[65..|m| - SIGNATURE]
    ensures EncodeManifest(s) == m[..|m| - SIGNATURE] && m == EncodeManifest(s) + m[|m| - SIGNATURE..]
  {
  }

  lemma StateReencodes(o: Oracles, s: Snapshot, t: seq<byte>)
    requires |t| >= 74 && t[8] <= 1 && Entries(o, t[10..|t| - SIGNATURE], t[9], {}, {}) == Ok(s.members)
    requires s.revision == FromBigEndian(t[..8]) && s.ended == (t[8] == 1)
    ensures s.revision < Pow256(8) && |s.members| == t[9] && EntriesOk(o, s.members, {}, {})
    ensures forall i :: 0 <= i < |s.members| ==> 0 <= s.members[i].id < 256 && |s.members[i].nickname| < 256
    ensures EncodeState(s) == t[..|t| - SIGNATURE] && t == EncodeState(s) + t[|t| - SIGNATURE..]
  {
    EntriesUnique(o, t[10..|t| - SIGNATURE], t[9], {}, {});
    RevisionBytes(t[..8]);
    StateSplit(t);
  }

  lemma RevisionBytes(b: seq<byte>)
    requires |b| == 8
    ensures FromBigEndian(b) < Pow256(8) && ToBigEndian(FromBigEndian(b), 8) == b
  {
    ToBigEndianOfValue(b);
  }

  lemma StateSplit(t: seq<byte>)
    requires |t| >= 74
    ensures t[..8] + [t[8]] + [t[9]] + t[10..|t| - SIGNATURE] == t[..|t| - SIGNATURE]
    ensures t[..|t| - SIGNATURE] + t[|t| - SIGNATURE..] == t
  {
  }

  /** The length of an encoded member list. */
  lemma {:induction false} EntriesLength(o: Oracles, ms: seq<Entry>, ids: set<int>, devices: set<seq<byte>>)
    requires EntriesOk(o, ms, ids, devices)
    ensures forall i :: 0 <= i < |ms| ==> 0 <= ms[i].id < 256 && |ms[i].nickname| < 256
    ensures |EncodeEntries(ms)| <= 58 * |ms|
    ensures (forall i :: 0 <= i < |ms| ==> |ms[i].nickname| == 40) ==> |EncodeEntries(ms)| == 58 * |ms|
  {
    EntriesOkIff(o, ms, ids, devices);
    if ms != [] {
      EntriesLength(o, ms[1..], ids + {ms[0].id}, devices + {ms[0].device});
    }
  }

  lemma LengthBound(o: Oracles, s: Snapshot)
    requires WellFormed(o, s)
    ensures forall i :: 0 <= i < |s.members| ==> 0 <= s.members[i].id < 256 && |s.members[i].nickname| < 256
    ensures |EncodeState(s)| + SIGNATURE <= MAX_STATE
  {
    EntriesLength(o, s.members, {}, {});
  }

  /** The cap rejects nothing that the field checks accept: any larger cap gives the same parser. */
  lemma CapRejectsNothing(cap: int, o: Oracles, id: seq<byte>, manifest: seq<byte>, state: seq<byte>, now: int)
    requires cap >= MAX_STATE
    ensures ParseWithin(cap, o, id, manifest, state, now) == Parsed(o, id, manifest, state, now)
  {
    if ParseWithin(cap, o, id, manifest, state, now).Ok? {
      EntriesUnique(o, state[10..|state| - SIGNATURE], state[9], {}, {});
      EntriesLength(o, Entries(o, state[10..|state| - SIGNATURE], state[9], {}, {}).value, {}, {});
    }
  }

  /** Sixteen members with a forty-byte name each. */
  function FullRoster(name: seq<byte>, n: nat): seq<Entry>
    requires n <= MAX_MEMBERS
  {
    seq(n, i requires 0 <= i < n => Entry(i + 1, seq(16, j => i), name))
  }

  /** The cap is attained. */
  lemma CapAttained(o: Oracles, s: Snapshot, name: seq<byte>)
    requires |name| == 40 && o.utf8(name)
    requires |s.key| == 32 && |s.secretHash| == 32 && |s.name| <= 64 && o.utf8(s.name) && s.revision < Pow256(8)
    requires s.members == FullRoster(name, MAX_MEMBERS)
    ensures WellFormed(o, s)
    ensures forall i :: 0 <= i < |s.members| ==> 0 <= s.members[i].id < 256 && |s.members[i].nickname| < 256
    ensures |EncodeState(s)| + SIGNATURE == MAX_STATE
  {
    var ms := s.members;
    assert ms[0].id == 1 && ms[0] in ms;
    forall i, j | 0 <= i < j < |ms|
      ensures ms[i].device != ms[j].device
    {
      assert ms[i].device[0] == i && ms[j].device[0] == j;
    }
    EntriesOkIff(o, ms, {}, {});
    EntriesLength(o, ms, {}, {});
  }
}
