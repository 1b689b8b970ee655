/** Nonces and replay protection of the web client's room chat. */
module ChatCipher {
  import opened Bytes

  const MAX_SENDERS := 128
  const COUNTERS := 0x1_0000_0000

  type Prefix = p: seq<byte> | |p| == 8 witness seq(8, i => 0)

  /** What a decrypt call carries once AES-GCM has accepted the packet. */
  datatype Packet = Packet(prefix: Prefix, counter: nat)

  datatype Verdict = Accepted | Replayed | TooManySenders

  /** The latest accepted counter of every sender prefix. */
  type Seen = map<Prefix, nat>

  function Judge(seen: Seen, p: Packet): Verdict {
    if p.prefix in seen && p.counter <= seen[p.prefix] then Replayed
    else if p.prefix !in seen && |seen| >= MAX_SENDERS then TooManySenders
    else Accepted
  }

  function Record(seen: Seen, p: Packet): Seen {
    if Judge(seen, p) == Accepted then seen[p.prefix := p.counter] else seen
  }

  /** The replay state after a run of completions, in the order they complete. */
  function After(run: seq<Packet>): Seen {
    if run == [] then map[] else Record(After(run[..|run| - 1]), run[|run| - 1])
  }

  /** The packets the run accepted, in order. */
  function Log(run: seq<Packet>): seq<Packet> {
    if run == [] then []
    else
      var front, p := run[..|run| - 1], run[|run| - 1];
      if Judge(After(front), p) == Accepted then Log(front) + [p] else Log(front)
  }

  // ---- the state says exactly what the run accepted ----

  /** A prefix is tracked exactly when one of its packets was accepted, with the latest accepted counter. */
  lemma {:induction false} SeenIsLatest(run: seq<Packet>)
    ensures forall p :: p in Log(run) ==> p.prefix in After(run) && p.counter <= After(run)[p.prefix]
    ensures forall x :: x in After(run) ==> Packet(x, After(run)[x]) in Log(run)
  {
    if run != [] {
      SeenIsLatest(run[..|run| - 1]);
    }
  }

  /** A prefix once tracked is tracked for good, and its counter never goes down. */
  lemma {:induction false} NeverEvicted(run: seq<Packet>, n: nat, prefix: Prefix)
    requires n <= |run| && prefix in After(run[..n])
    ensures prefix in After(run) && After(run[..n])[prefix] <= After(run)[prefix]
  {
    if n < |run| {
      var front := run[..|run| - 1];
      assert front[..n] == run[..n];
      NeverEvicted(front, n, prefix);
    } else {
      assert run[..n] == run;
    }
  }

  /** Accepted counters of one prefix strictly increase; so no packet is accepted twice. */
  lemma {:induction false} AcceptedIncrease(run: seq<Packet>, i: nat, j: nat)
    requires i < j < |Log(run)| && Log(run)[i].prefix == Log(run)[j].prefix
    ensures Log(run)[i].counter < Log(run)[j].counter
  {
    if run != [] {
      var front := run[..|run| - 1];
      SeenIsLatest(front);
      if j < |Log(front)| {
        AcceptedIncrease(front, i, j);
      } else {
        assert Log(front)[i] in Log(front);
      }
    }
  }

  /** At most 128 prefixes are tracked. */
  lemma {:induction false} SendersBounded(run: seq<Packet>)
    ensures |After(run)| <= 128
  {
    if run != [] {
      var front, p := After(run[..|run| - 1]), run[|run| - 1];
      SendersBounded(run[..|run| - 1]);
      if p.prefix in front {
        assert front[p.prefix := p.counter].Keys == front.Keys;
      } else {
        assert front[p.prefix := p.counter].Keys == front.Keys + {p.prefix};
      }
    }
  }

  /** The sender of p has had a packet accepted. */
  predicate Established(run: seq<Packet>, p: Packet) {
    exists q :: q in Log(run) && q.prefix == p.prefix
  }

  /** A packet of p's sender with p's counter or a higher one was accepted. */
  predicate Overtaken(run: seq<Packet>, p: Packet) {
    exists q :: q in Log(run) && q.prefix == p.prefix && p.counter <= q.counter
  }

  /**
   The verdict by the history alone: overtaken packets are replays, a new sender is refused
   when 128 others are established, and everything else is accepted; in particular an
   established sender's higher counter always is.
   */
  lemma VerdictFromHistory(run: seq<Packet>, p: Packet)
    ensures Judge(After(run), p) == Replayed <==> Overtaken(run, p)
    ensures Judge(After(run), p) == TooManySenders <==> |After(run)| == 128 && !Established(run, p)
    ensures Established(run, p) && !Overtaken(run, p) ==> Judge(After(run), p) == Accepted
  {
    SeenIsLatest(run);
    SendersBounded(run);
    if p.prefix in After(run) {
      var q := Packet(p.prefix, After(run)[p.prefix]);
      assert q in Log(run);
    }
  }

  // ---- the cipher object ----

  /** The nonce of one message. */
  function Nonce(prefix: Prefix, counter: nat): (n: seq<byte>)
    requires counter < COUNTERS
    ensures |n| == 12 && n[..8] == prefix && FromBigEndian(n[8..]) == counter
  {
    CountersFit();
    prefix + ToBigEndian(counter, 4)
  }

  lemma CountersFit()
    ensures Pow256(4) == COUNTERS
  {
  }

  /** Distinct counters give distinct nonces. */
  lemma NonceInjective(prefix: Prefix, i: nat, j: nat)
    requires i < COUNTERS && j < COUNTERS && Nonce(prefix, i) == Nonce(prefix, j)
    ensures i == j
  {
    CountersFit();
    assert Nonce(prefix, i)[8..] == ToBigEndian(i, 4) && Nonce(prefix, j)[8..] == ToBigEndian(j, 4);
  }

  class Cipher {
    const prefix: Prefix
    var counter: nat
    var seen: Seen
    ghost var nonces: seq<seq<byte>>
    ghost var run: seq<Packet>

    /** The nonces used so far are pairwise distinct, and the replay state is the run's. */
    ghost predicate Valid()
      reads this
    {
      && counter <= COUNTERS
      && |nonces| == counter
      && (forall i :: 0 <= i < |nonces| ==> nonces[i] == Nonce(prefix, i))
      && (forall i, j :: 0 <= i < j < |nonces| ==> nonces[i] != nonces[j])
      && seen == After(run)
      && |seen| <= MAX_SENDERS
    }

    constructor (prefix: Prefix)
      ensures Valid() && this.prefix == prefix && nonces == [] && run == []
    {
      this.prefix := prefix;
      counter, seen, nonces, run := 0, map[], [], [];
    }

    /** encrypt up to its first await: the nonce is fixed before the cipher can be used again. */
    method TakeNonce() returns (nonce: Result<seq<byte>>)
      requires Valid()
      modifies this`counter, this`nonces
      ensures Valid()
      ensures nonce.Err? <==> old(counter) == 0x1_0000_0000
      ensures nonce.Err? ==> nonces == old(nonces)
      ensures nonce.Ok? ==> nonces == old(nonces) + [nonce.value] && nonce.value !in old(nonces)
      ensures nonce.Ok? ==> counter == old(counter) + 1 && |nonce.value| == 12
      ensures nonce.Ok? ==> nonce.value[..8] == prefix && FromBigEndian(nonce.value[8..]) == old(counter)
    {
      if counter > 0xffff_ffff {
        return Err;
      }
      forall i | 0 <= i < |nonces|
        ensures nonces[i] != Nonce(prefix, counter)
      {
        assert nonces[i] == Nonce(prefix, i);
      }
      var n := Nonce(prefix, counter);
      nonces := nonces + [n];
      counter := counter + 1;
      return Ok(n);
    }

    /** decrypt after its last await: packet is what AES-GCM authenticated, in completion order. */
    method Complete(packet: Packet) returns (verdict: Verdict)
      requires Valid()
      modifies this`seen, this`run
      ensures Valid() && run == old(run) + [packet]
      ensures verdict == Judge(old(seen), packet) && seen == Record(old(seen), packet)
      ensures Log(run) == if verdict == Accepted then Log(old(run)) + [packet] else Log(old(run))
    {
      var known := packet.prefix in seen;
      var previous: int := if known then seen[packet.prefix] else -1;
      ghost var before := run;
      run := run + [packet];
      assert run[..|run| - 1] == before;
      SendersBounded(run);
      if packet.counter <= previous {
        return Replayed;
      }
      if !known && |seen| >= 128 {
        return TooManySenders;
      }
      seen := seen[packet.prefix := packet.counter];
      return Accepted;
    }
  }
}
