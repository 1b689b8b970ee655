/** The server's per-key attempt limiter and its clean-up by the sweeper.  Times are milliseconds. */
module RateLimiter {

  /** Every caller passes one minute. */
  const WINDOW := 60_000

  /** The calls not before a moment, in order. */
  function Recent(calls: seq<int>, from: int): seq<int> {
    if calls == [] then []
    else Recent(calls[..|calls| - 1], from) + if calls[|calls| - 1] >= from then [calls[|calls| - 1]] else []
  }

  predicate Sorted(calls: seq<int>) {
    forall i, j :: 0 <= i < j < |calls| ==> calls[i] <= calls[j]
  }

  lemma SuffixEnds(calls: seq<int>, first: nat)
    requires first < |calls|
    ensures calls[first..] == calls[..|calls| - 1][first..] + [calls[|calls| - 1]]
  {
    var front := calls[..|calls| - 1];
    assert front + [calls[|calls| - 1]] == calls;
  }

  /** In a sorted list the recent calls are those from the first recent one on. */
  lemma {:induction false} RecentIsSuffix(calls: seq<int>, from: int, first: nat)
    requires Sorted(calls) && first <= |calls|
    requires forall i :: 0 <= i < first ==> calls[i] < from
    requires first < |calls| ==> calls[first] >= from
    ensures Recent(calls, from) == calls[first..]
  {
    if calls != [] {
      var front := calls[..|calls| - 1];
      if first == |calls| {
        RecentIsSuffix(front, from, |front|);
      } else {
        RecentIsSuffix(front, from, first);
        SuffixEnds(calls, first);
      }
    }
  }

  lemma {:induction false} RecentOfRecent(calls: seq<int>, from: int, later: int)
    requires from <= later
    ensures Recent(Recent(calls, from), later) == Recent(calls, later)
  {
    if calls != [] {
      var front, last := calls[..|calls| - 1], calls[|calls| - 1];
      RecentOfRecent(front, from, later);
      if last >= from {
        assert Recent(calls, from)[..|Recent(calls, from)| - 1] == Recent(front, from);
      } else {
        assert Recent(calls, from) == Recent(front, from);
      }
    }
  }

  lemma RecentAppend(calls: seq<int>, t: int, from: int)
    ensures Recent(calls + [t], from) == Recent(calls, from) + if t >= from then [t] else []
  {
  }

  /** The kept list answers for the full history, now and at any later moment. */
  ghost predicate Represents(kept: seq<int>, history: seq<int>, now: int) {
    && Sorted(kept)
    && (forall i :: 0 <= i < |kept| ==> kept[i] <= now)
    && forall t: int :: t >= now ==> SameWindow(kept, history, t)
  }

  predicate SameWindow(kept: seq<int>, history: seq<int>, t: int) {
    Recent(kept, t - WINDOW) == Recent(history, t - WINDOW)
  }

  lemma CallKeepsMeaning(kept: seq<int>, history: seq<int>, then_: int, now: int)
    requires Represents(kept, history, then_) && then_ <= now
    ensures Represents(Recent(kept, now - WINDOW) + [now], history + [now], now)
  {
    RecentMembers(kept, now - WINDOW);
    var trimmed := Recent(kept, now - WINDOW);
    forall i | 0 <= i < |trimmed|
      ensures trimmed[i] <= now
    {
      assert trimmed[i] in trimmed;
      var j :| 0 <= j < |kept| && kept[j] == trimmed[i];
    }
    var next, full := trimmed + [now], history + [now];
    forall t: int | t >= now
      ensures SameWindow(next, full, t)
    {
      CallKeepsWindow(kept, history, now, t);
    }
  }

  lemma CallKeepsWindow(kept: seq<int>, history: seq<int>, now: int, t: int)
    requires t >= now && SameWindow(kept, history, t)
    ensures SameWindow(Recent(kept, now - WINDOW) + [now], history + [now], t)
  {
    RecentOfRecent(kept, now - WINDOW, t - WINDOW);
    RecentAppend(Recent(kept, now - WINDOW), now, t - WINDOW);
    RecentAppend(history, now, t - WINDOW);
  }

  lemma {:induction false} RecentMembers(calls: seq<int>, from: int)
    requires Sorted(calls)
    ensures Sorted(Recent(calls, from))
    ensures forall t :: t in Recent(calls, from) ==> t in calls && t >= from
  {
    if calls != [] {
      var front, last := calls[..|calls| - 1], calls[|calls| - 1];
      RecentMembers(front, from);
      forall i | 0 <= i < |Recent(front, from)|
        ensures Recent(front, from)[i] <= last
      {
        var t := Recent(front, from)[i];
        assert t in Recent(front, from);
        var j :| 0 <= j < |front| && front[j] == t;
      }
    }
  }

  /** Forgetting a key whose last call left every later window changes no later answer. */
  lemma ForgetKeepsMeaning(kept: seq<int>, history: seq<int>, then_: int, now: int)
    requires Represents(kept, history, then_) && then_ <= now
    requires kept == [] || now - kept[|kept| - 1] > WINDOW
    ensures Represents([], history, now)
  {
    forall t: int | t >= now
      ensures SameWindow([], history, t)
    {
      assert SameWindow(kept, history, t);
      RecentIsSuffix(kept, t - WINDOW, |kept|);
    }
  }

  type Log = map<string, seq<int>>

  function Of(log: Log, key: string): seq<int> {
    if key in log then log[key] else []
  }

  /** Every key's kept list answers for its history. */
  ghost predicate Consistent(attempts: Log, history: Log, now: int) {
    forall key {:trigger Represents(Of(attempts, key), Of(history, key), now)} ::
      Represents(Of(attempts, key), Of(history, key), now)
  }

  lemma ConsistentLater(attempts: Log, history: Log, then_: int, now: int)
    requires Consistent(attempts, history, then_) && then_ <= now
    ensures Consistent(attempts, history, now)
  {
    forall key
      ensures Represents(Of(attempts, key), Of(history, key), now)
    {
      assert Represents(Of(attempts, key), Of(history, key), then_);
    }
  }

  /** The kept list after a call is the full history's last window. */
  lemma CallTrims(kept: seq<int>, calls: seq<int>, then_: int, now: int)
    requires Represents(kept, calls, then_) && then_ <= now
    ensures Recent(kept, now - WINDOW) + [now] == Recent(calls + [now], now - WINDOW)
  {
    assert SameWindow(kept, calls, now);
    RecentAppend(calls, now, now - WINDOW);
  }

  /** Replacing one key's entries keeps the others'. */
  lemma ConsistentUpdate(attempts: Log, history: Log, now: int, key: string, kept: seq<int>, calls: seq<int>)
    requires Consistent(attempts, history, now) && Represents(kept, calls, now)
    ensures Consistent(attempts[key := kept], history[key := calls], now)
  {
    var a, h := attempts[key := kept], history[key := calls];
    forall other
      ensures Represents(Of(a, other), Of(h, other), now)
    {
      if other != key {
        assert Represents(Of(attempts, other), Of(history, other), now);
      }
    }
  }

  /** The two maps after a call, from the trimmed list. */
  lemma ConsistentCall(attempts: Log, history: Log, then_: int, now: int, key: string)
    requires Consistent(attempts, history, then_) && then_ <= now
    ensures var trimmed := Recent(Of(attempts, key), now - WINDOW) + [now];
            && trimmed == Recent(Of(history, key) + [now], now - WINDOW)
            && Consistent(attempts[key := trimmed], history[key := Of(history, key) + [now]], now)
  {
    var kept, calls := Of(attempts, key), Of(history, key);
    assert Represents(kept, calls, then_);
    CallTrims(kept, calls, then_, now);
    CallKeepsMeaning(kept, calls, then_, now);
    ConsistentLater(attempts, history, then_, now);
    ConsistentUpdate(attempts, history, now, key, Recent(kept, now - WINDOW) + [now], calls + [now]);
  }

  function Later(a: int, b: int): int {
    if a <= b then b else a
  }

  /** Removing an idle key. */
  lemma ConsistentForget(attempts: Log, history: Log, now: int, key: string)
    requires Consistent(attempts, history, now) && Idle(Of(attempts, key), now)
    ensures Consistent(attempts - {key}, history, now)
  {
    assert Represents(Of(attempts, key), Of(history, key), now);
    ForgetKeepsMeaning(Of(attempts, key), Of(history, key), now, now);
    var a := attempts - {key};
    forall other
      ensures Represents(Of(a, other), Of(history, other), now)
    {
      assert other != key ==> Of(a, other) == Of(attempts, other);
    }
  }

  // ---- several limits, tried in turn ----

  datatype Check = Check(key: string, limit: nat)

  predicate Within(history: Log, check: Check, now: int) {
    |Recent(Of(history, check.key) + [now], now - WINDOW)| <= check.limit
  }

  /** The first refusal ends the attempt; the call it refuses counts, later ones are not made. */
  function Attempted(history: Log, checks: seq<Check>, now: int): Log
    decreases |checks|
  {
    if checks == [] then history
    else
      var h := history[checks[0].key := Of(history, checks[0].key) + [now]];
      if Within(history, checks[0], now) then Attempted(h, checks[1..], now) else h
  }

  predicate Passes(history: Log, checks: seq<Check>, now: int)
    decreases |checks|
  {
    checks == []
    || (Within(history, checks[0], now)
        && Passes(history[checks[0].key := Of(history, checks[0].key) + [now]], checks[1..], now))
  }

  predicate Idle(values: seq<int>, now: int) {
    values == [] || now - values[|values| - 1] > WINDOW
  }

  // ---- what the limit means ----

  /** Call i of one key's history was allowed. */
  predicate Allowed(history: seq<int>, i: nat, limit: int)
    requires i < |history|
  {
    |Recent(history[..i + 1], history[i] - WINDOW)| <= limit
  }

  /** How many of the first n calls were allowed within one minute from s, both ends included. */
  function AllowedWithin(history: seq<int>, limit: int, n: nat, s: int): nat
    requires n <= |history|
  {
    if n == 0 then 0
    else
      AllowedWithin(history, limit, n - 1, s)
      + if Allowed(history, n - 1, limit) && s <= history[n - 1] <= s + WINDOW then 1 else 0
  }

  lemma {:induction false} AllowedAreRecent(history: seq<int>, limit: int, n: nat, s: int, from: int)
    requires n <= |history| && from <= s
    ensures AllowedWithin(history, limit, n, s) <= |Recent(history[..n], from)|
  {
    if n > 0 {
      AllowedAreRecent(history, limit, n - 1, s, from);
      assert history[..n][..n - 1] == history[..n - 1];
    }
  }

  /** No minute, wherever it starts, admits more than the limit. */
  lemma {:induction false} MinuteBounded(history: seq<int>, limit: nat, n: nat, s: int)
    requires n <= |history|
    ensures AllowedWithin(history, limit, n, s) <= limit
  {
    if n > 0 {
      if Allowed(history, n - 1, limit) && s <= history[n - 1] <= s + WINDOW {
        AllowedAreRecent(history, limit, n, s, history[n - 1] - WINDOW);
      } else {
        MinuteBounded(history, limit, n - 1, s);
      }
    }
  }
}
