/** The per-client rate limiter in front of every route. Each client (keyed
    by its IP address) keeps the arrival times of its recent requests; a
    request is let through while fewer than `limit` of them fall in the last
    minute, and refused with a Retry-After delay otherwise. A limit of zero
    or less switches the limiter off. The monotonic clock is read as an
    integer number of milliseconds: times are parameters. */
module Middleware {
  import opened Wrappers

  /** The window, one minute, in clock ticks (milliseconds). */
  const WindowTicks := 60000
  const TicksPerSecond := 1000

  datatype Decision = Allow | Reject(retryAfter: int)

  predicate Sorted(ts: seq<int>) {
    forall i, j :: 0 <= i < j < |ts| ==> ts[i] <= ts[j]
  }

  /** Whether `r` is `s` with some elements dropped, the rest kept in order. */
  ghost predicate Subsequence(r: seq<int>, s: seq<int>)
    decreases |s|
  {
    if r == [] then true
    else if s == [] then false
    else (r[0] == s[0] && Subsequence(r[1..], s[1..])) || Subsequence(r, s[1..])
  }

  /** The arrival times still inside the window that starts (exclusive) at
      `windowStart`: every such time as often as it occurs, in the original
      order, and nothing else. */
  function Prune(ts: seq<int>, windowStart: int): (r: seq<int>)
    ensures |r| <= |ts|
    ensures forall t :: t in r <==> t in ts && t > windowStart
    ensures forall t :: multiset(r)[t] == if t > windowStart then multiset(ts)[t] else 0
    ensures Subsequence(r, ts)
    ensures Sorted(ts) ==> Sorted(r)
    decreases |ts|
  {
    if ts == [] then []
    else
      var rest := Prune(ts[1..], windowStart);
      assert forall t :: t in ts[1..] ==> t in ts;
      assert ts == [ts[0]] + ts[1..];
      if ts[0] > windowStart then
        var r := [ts[0]] + rest;
        SortedTail(ts);
        assert r[0] == ts[0] && r[1..] == rest;
        SortedTail(r);
        r
      else rest
  }

  /** The tail of a sorted list is sorted and bounded below by its head. */
  lemma SortedTail(ts: seq<int>)
    requires |ts| > 0
    ensures Sorted(ts) ==> Sorted(ts[1..]) && forall t :: t in ts[1..] ==> ts[0] <= t
    ensures Sorted(ts[1..]) && (forall t :: t in ts[1..] ==> ts[0] <= t) ==> Sorted(ts)
  {
    if Sorted(ts) {
      forall t | t in ts[1..] ensures ts[0] <= t {
        var i :| 0 <= i < |ts[1..]| && ts[1..][i] == t;
        assert ts[i + 1] == t;
      }
    }
    if Sorted(ts[1..]) && (forall t :: t in ts[1..] ==> ts[0] <= t) {
      forall i, j | 0 <= i < j < |ts| ensures ts[i] <= ts[j] {
        assert ts[j] == ts[1..][j - 1];
        if i > 0 {
          assert ts[i] == ts[1..][i - 1];
        } else {
          assert ts[1..][j - 1] in ts[1..];
        }
      }
    }
  }

  /** On a sorted list the expired times are exactly a prefix: pruning keeps a suffix. */
  lemma {:induction false} PruneSortedSuffix(ts: seq<int>, windowStart: int)
    requires Sorted(ts)
    ensures exists j :: 0 <= j <= |ts| && Prune(ts, windowStart) == ts[j..]
    decreases |ts|
  {
    if ts == [] {
      assert Prune(ts, windowStart) == ts[0..];
    } else if ts[0] > windowStart {
      forall t | t in ts ensures t > windowStart {
        var i :| 0 <= i < |ts| && ts[i] == t;
        assert ts[0] <= ts[i];
      }
      PruneAllKept(ts, windowStart);
      assert Prune(ts, windowStart) == ts[0..];
    } else {
      PruneSortedSuffix(ts[1..], windowStart);
      var j :| 0 <= j <= |ts[1..]| && Prune(ts[1..], windowStart) == ts[1..][j..];
      assert ts[1..][j..] == ts[j + 1..];
    }
  }

  /** When nothing has expired, pruning changes nothing. */
  lemma {:induction false} PruneAllKept(ts: seq<int>, windowStart: int)
    requires forall t :: t in ts ==> t > windowStart
    ensures Prune(ts, windowStart) == ts
    decreases |ts|
  {
    if ts != [] {
      assert ts[0] in ts;
      assert forall t :: t in ts[1..] ==> t in ts;
      PruneAllKept(ts[1..], windowStart);
      assert [ts[0]] + ts[1..] == ts;
    }
  }

  /** `int(x)` of a Python number: truncation toward zero. */
  function TruncDiv(a: int, b: int): (q: int)
    requires b > 0
    ensures a >= 0 ==> q * b <= a < q * b + b
    ensures a < 0 ==> q * b - b < a <= q * b
  {
    if a >= 0 then a / b else -((-a) / b)
  }

  /** The Retry-After value, in whole seconds, for a client whose oldest
      request in the window arrived at `oldest`: the time left until that
      request expires, truncated to whole seconds (toward zero), plus one. */
  function RetryAfter(oldest: int, now: int): (r: int)
    ensures var left := WindowTicks - (now - oldest);
      left >= 0 ==> (r - 1) * TicksPerSecond <= left < r * TicksPerSecond
    ensures var left := WindowTicks - (now - oldest);
      left < 0 ==> (r - 2) * TicksPerSecond < left <= (r - 1) * TicksPerSecond
  {
    TruncDiv(WindowTicks - (now - oldest), TicksPerSecond) + 1
  }

  /** For a request still in the window the delay is positive, at most 61
      seconds, and waiting it out lets the oldest request expire. */
  lemma RetryAfterSound(oldest: int, now: int)
    requires oldest > now - WindowTicks
    ensures RetryAfter(oldest, now) >= 1
    ensures oldest <= now ==> RetryAfter(oldest, now) <= 61
    ensures oldest <= now + RetryAfter(oldest, now) * TicksPerSecond - WindowTicks
  {
    var a := WindowTicks - (now - oldest);
    var q := TruncDiv(a, TicksPerSecond);
    assert a > 0;
    assert q * TicksPerSecond <= a < q * TicksPerSecond + TicksPerSecond;
    assert RetryAfter(oldest, now) * TicksPerSecond == q * TicksPerSecond + TicksPerSecond;
  }

  /** The key a request is counted under: the client's host, or "unknown"
      when the connection does not name one. */
  function ClientKey(client: Option<string>): (k: string)
    ensures client.Some? ==> k == client.value
    ensures client.None? ==> k == "unknown"
  {
    client.GetOr("unknown")
  }

  /** The list a client has in the window map; a client never seen has none. */
  function Lookup(window: map<string, seq<int>>, key: string): seq<int> {
    if key in window then window[key] else []
  }

  /** One request: the decision and the new window map. */
  function Step(window: map<string, seq<int>>, limit: int, client: Option<string>, now: int)
    : (res: (Decision, map<string, seq<int>>))
    ensures limit > 0 ==> res.1.Keys == window.Keys + {ClientKey(client)}
  {
    if limit <= 0 then (Allow, window)
    else
      var key := ClientKey(client);
      var kept := Prune(Lookup(window, key), now - WindowTicks);
      if |kept| >= limit then (Reject(RetryAfter(kept[0], now)), window[key := kept])
      else (Allow, window[key := kept + [now]])
  }

  /** A request is let through exactly when the limiter is off or fewer than
      `limit` of the client's requests are inside the window; a refusal
      carries a positive delay. */
  lemma StepDecision(window: map<string, seq<int>>, limit: int, client: Option<string>, now: int)
    ensures var kept := Prune(Lookup(window, ClientKey(client)), now - WindowTicks);
      Step(window, limit, client, now).0 == Allow <==> limit <= 0 || |kept| < limit
    ensures Step(window, limit, client, now).0.Reject? ==> Step(window, limit, client, now).0.retryAfter >= 1
  {
    if limit > 0 {
      var kept := Prune(Lookup(window, ClientKey(client)), now - WindowTicks);
      if |kept| >= limit {
        assert kept[0] in kept;
        RetryAfterSound(kept[0], now);
      }
    }
  }

  /** With the limiter switched off every request goes through and the
      window map is left exactly as it was. */
  lemma LimiterOff(window: map<string, seq<int>>, limit: int, client: Option<string>, now: int)
    requires limit <= 0
    ensures Step(window, limit, client, now) == (Allow, window)
  {
  }

  /** Other clients' entries are untouched. */
  lemma StepKeepsOthers(window: map<string, seq<int>>, limit: int, client: Option<string>, now: int, other: string)
    requires other != ClientKey(client)
    ensures var w := Step(window, limit, client, now).1;
      (other in w <==> other in window) && (other in window ==> w[other] == window[other])
  {
  }

  /** With a fixed positive limit no client ever holds more than `limit` times. */
  lemma StepKeepsBound(window: map<string, seq<int>>, limit: int, client: Option<string>, now: int)
    requires limit > 0
    requires forall k :: k in window ==> |window[k]| <= limit
    ensures var w := Step(window, limit, client, now).1;
      forall k :: k in w ==> |w[k]| <= limit
  {
  }

  /** With a clock that never runs backwards each client's list stays
      sorted, and after a request the client's list holds only times in the
      last minute. */
  lemma StepKeepsOrder(window: map<string, seq<int>>, limit: int, client: Option<string>, now: int)
    requires limit > 0
    requires forall k :: k in window ==> Sorted(window[k]) && forall t :: t in window[k] ==> t <= now
    ensures var w := Step(window, limit, client, now).1;
      && (forall k :: k in w ==> Sorted(w[k]) && forall t :: t in w[k] ==> t <= now)
      && (forall t :: t in w[ClientKey(client)] ==> now - WindowTicks < t <= now)
  {
    var key := ClientKey(client);
    var kept := Prune(Lookup(window, key), now - WindowTicks);
    assert Sorted(Lookup(window, key));
    if |kept| < limit {
      var ext := kept + [now];
      forall i, j | 0 <= i < j < |ext| ensures ext[i] <= ext[j] {
        if j == |kept| {
          assert ext[i] in kept;
        }
      }
    }
  }

  /** The limiter's state: the recent arrival times of every client. */
  class RateLimitMiddleware {
    var window: map<string, seq<int>>

    constructor ()
      ensures window == map[]
    {
      window := map[];
    }

    /** Handles one request arriving at `now`, with the limit currently configured. */
    method Dispatch(limit: int, client: Option<string>, now: int) returns (d: Decision)
      modifies this
      ensures (d, window) == Step(old(window), limit, client, now)
    {
      if limit <= 0 {
        return Allow;
      }
      var key := ClientKey(client);
      var windowStart := now - WindowTicks;
      var timestamps := if key in window then window[key] else [];
      window := window[key := Prune(timestamps, windowStart)];
      timestamps := window[key];
      if |timestamps| >= limit {
        var retryAfter := RetryAfter(timestamps[0], now);
        return Reject(retryAfter);
      }
      window := window[key := timestamps + [now]];
      d := Allow;
      assert window == old(window)[key := timestamps + [now]];
    }
  }

  /** A client with fewer than `limit` requests left in the window after
      pruning is let through, and its entry becomes those requests followed
      by the new one; every other entry is kept. */
  lemma AdmitWithin(window: map<string, seq<int>>, limit: int, client: Option<string>, now: int)
    requires 0 < limit && |Prune(Lookup(window, ClientKey(client)), now - WindowTicks)| < limit
    ensures var kept := Prune(Lookup(window, ClientKey(client)), now - WindowTicks);
      Step(window, limit, client, now) == (Allow, window[ClientKey(client) := kept + [now]])
  {
  }

  /** A client's first request is let through under any positive limit and
      recorded alone, whoever else holds a window. */
  lemma AdmitFirst(window: map<string, seq<int>>, limit: int, key: string, now: int)
    requires 0 < limit && key !in window
    ensures Step(window, limit, Some(key), now) == (Allow, window[key := [now]])
  {
    assert ClientKey(Some(key)) == key && Lookup(window, key) == [];
    assert [] + [now] == [now];
  }

  /** A client with `limit` or more requests left in the window after pruning
      is refused: nothing is appended, its entry is the pruned list, and it is
      told to wait until the oldest of those expires. */
  lemma RefuseFull(window: map<string, seq<int>>, limit: int, client: Option<string>, now: int)
    requires 0 < limit && |Prune(Lookup(window, ClientKey(client)), now - WindowTicks)| >= limit
    ensures var kept := Prune(Lookup(window, ClientKey(client)), now - WindowTicks);
      Step(window, limit, client, now) == (Reject(RetryAfter(kept[0], now)), window[ClientKey(client) := kept])
  {
  }

  /** The first two requests of a burst from one client go through, each recorded. */
  lemma BurstFirstTwo(key: string, t: int)
    ensures Step(map[], 3, Some(key), t) == (Allow, map[key := [t]])
    ensures Step(map[key := [t]], 3, Some(key), t + 1) == (Allow, map[key := [t, t + 1]])
  {
    var empty: map<string, seq<int>> := map[];
    AdmitFirst(empty, 3, key, t);
    assert empty[key := [t]] == map[key := [t]];
    var w := map[key := [t]];
    assert ClientKey(Some(key)) == key && Lookup(w, key) == [t];
    PruneAllKept([t], t + 1 - WindowTicks);
    AdmitWithin(w, 3, Some(key), t + 1);
    assert [t] + [t + 1] == [t, t + 1];
    assert w[key := [t, t + 1]] == map[key := [t, t + 1]];
  }

  lemma BurstThird(key: string, t: int)
    ensures Step(map[key := [t, t + 1]], 3, Some(key), t + 2) == (Allow, map[key := [t, t + 1, t + 2]])
  {
    var w := map[key := [t, t + 1]];
    assert ClientKey(Some(key)) == key && Lookup(w, key) == [t, t + 1];
    PruneAllKept([t, t + 1], t + 2 - WindowTicks);
    AdmitWithin(w, 3, Some(key), t + 2);
    assert [t, t + 1] + [t + 2] == [t, t + 1, t + 2];
    assert w[key := [t, t + 1, t + 2]] == map[key := [t, t + 1, t + 2]];
  }

  lemma BurstFourth(key: string, t: int)
    ensures Step(map[key := [t, t + 1, t + 2]], 3, Some(key), t + 3)
      == (Reject(60), map[key := [t, t + 1, t + 2]])
  {
    var w := map[key := [t, t + 1, t + 2]];
    assert ClientKey(Some(key)) == key && Lookup(w, key) == [t, t + 1, t + 2];
    PruneAllKept([t, t + 1, t + 2], t + 3 - WindowTicks);
    RefuseFull(w, 3, Some(key), t + 3);
    assert RetryAfter(t, t + 3) == 60;
    assert w[key := [t, t + 1, t + 2]] == w;
  }

  /** With a limit of three, three requests from one client in a burst go
      through, each recorded, and the fourth is refused and told to wait a
      minute. */
  lemma BurstOfFour(key: string, t: int)
    ensures Step(map[], 3, Some(key), t) == (Allow, map[key := [t]])
    ensures Step(map[key := [t]], 3, Some(key), t + 1) == (Allow, map[key := [t, t + 1]])
    ensures Step(map[key := [t, t + 1]], 3, Some(key), t + 2) == (Allow, map[key := [t, t + 1, t + 2]])
    ensures Step(map[key := [t, t + 1, t + 2]], 3, Some(key), t + 3)
      == (Reject(60), map[key := [t, t + 1, t + 2]])
  {
    BurstFirstTwo(key, t);
    BurstThird(key, t);
    BurstFourth(key, t);
  }
}
