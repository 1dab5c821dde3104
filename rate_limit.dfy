/**
 * The per-user fixed-window request limiter guarding the assistant endpoints.
 * The clock (`Date.now()`) and the coin that decides whether a sweep runs
 * (`Math.random() < 0.1`) are parameters of each call.
 */
module RateLimit {
  import opened Outcomes

  /** Requests allowed per window. */
  const MaxRequests: int := 20
  /** Length of a window in milliseconds. */
  const WindowMs: int := 60000

  datatype Entry = Entry(count: int, resetTime: int)

  /** The guard's answer: let the request through, or answer 429 with a retry hint in seconds. */
  datatype Decision = Allowed | Rejected(retryAfter: int)

  type Table = map<string, Entry>

  /** `!request.user?.id`: no identity, or an empty id. */
  predicate NoUser(userId: Option<string>)
  {
    !Truthy(userId)
  }

  /** An entry whose window has passed; at `now == resetTime` the window still applies. */
  predicate Expired(e: Entry, now: int)
  {
    now > e.resetTime
  }

  /** Every stored count lies in 1..MaxRequests. */
  ghost predicate CountsInRange(m: Table)
  {
    forall k :: k in m ==> 1 <= m[k].count <= MaxRequests
  }

  /** Every stored window ends at most one window length after `now`. */
  ghost predicate WindowsBounded(m: Table, now: int)
  {
    forall k :: k in m ==> m[k].resetTime <= now + WindowMs
  }

  /** `Math.ceil(d / 1000)` for an integer number of milliseconds. */
  function CeilSeconds(d: int): (r: int)
    ensures 1000 * (r - 1) < d <= 1000 * r
  {
    -((-d) / 1000)
  }

  /** The table left by a sweep: the entries whose window has not passed. */
  function Sweep(m: Table, now: int): (r: Table)
    ensures r.Keys <= m.Keys
    ensures forall k :: k in m ==> (k in r <==> !Expired(m[k], now))
    ensures forall k :: k in r ==> r[k] == m[k]
  {
    map k | k in m && !Expired(m[k], now) :: m[k]
  }

  /**
   * One call of the guard on table `m`: the resulting table and decision.
   * The caller's entry is read before the optional sweep.
   */
  function Check(m: Table, userId: Option<string>, now: int, sweep: bool): (r: (Table, Decision))
    ensures r.1.Rejected? <==>
      !NoUser(userId) && userId.value in m && !Expired(m[userId.value], now) && m[userId.value].count >= MaxRequests
    ensures !NoUser(userId) ==> userId.value in r.0
  {
    if NoUser(userId) then (m, Allowed)
    else
      var id := userId.value;
      var swept := if sweep then Sweep(m, now) else m;
      if id !in m || Expired(m[id], now) then
        (swept[id := Entry(1, now + WindowMs)], Allowed)
      else if m[id].count + 1 > MaxRequests then
        (swept, Rejected(CeilSeconds(m[id].resetTime - now)))
      else
        (swept[id := Entry(m[id].count + 1, m[id].resetTime)], Allowed)
  }

  class RateLimitGuard {
    var rateLimits: Table

    ghost predicate Valid()
      reads this
    {
      CountsInRange(rateLimits)
    }

    constructor ()
      ensures Valid() && rateLimits == map[]
    {
      rateLimits := map[];
    }

    /** canActivate: count the request of `userId` at time `now`; `sweep` is the outcome of the coin. */
    method CanActivate(userId: Option<string>, now: int, sweep: bool) returns (d: Decision)
      requires Valid()
      modifies this
      ensures Valid()
      ensures (rateLimits, d) == Check(old(rateLimits), userId, now, sweep)
    {
      if NoUser(userId) {
        return Allowed;
      }
      var id := userId.value;
      var userLimit := if id in rateLimits then Some(rateLimits[id]) else None;
      if sweep {
        CleanupExpiredEntries(now);
      }
      if userLimit.None? || now > userLimit.value.resetTime {
        rateLimits := rateLimits[id := Entry(1, now + WindowMs)];
        return Allowed;
      }
      // the stored entry is updated in place: increment, then undo on rejection
      var entry := userLimit.value;
      entry := entry.(count := entry.count + 1);
      rateLimits := rateLimits[id := entry];
      if entry.count > MaxRequests {
        entry := entry.(count := entry.count - 1);
        rateLimits := rateLimits[id := entry];
        assert entry == userLimit.value;
        assert rateLimits == Check(old(rateLimits), userId, now, sweep).0;
        return Rejected(CeilSeconds(entry.resetTime - now));
      }
      return Allowed;
    }

    /** cleanupExpiredEntries: delete, one by one, every entry whose window has passed. */
    method CleanupExpiredEntries(now: int)
      modifies this
      ensures rateLimits == Sweep(old(rateLimits), now)
    {
      ghost var start := rateLimits;
      var pending := rateLimits.Keys;
      while pending != {}
        invariant pending <= start.Keys
        invariant rateLimits.Keys <= start.Keys
        invariant forall k :: k in pending ==> k in rateLimits
        invariant forall k :: k in rateLimits ==> rateLimits[k] == start[k]
        invariant forall k :: k in start && k !in pending ==> (k in rateLimits <==> !Expired(start[k], now))
        decreases pending
      {
        var k :| k in pending;
        if now > rateLimits[k].resetTime {
          rateLimits := rateLimits - {k};
        }
        pending := pending - {k};
      }
      assert rateLimits.Keys == Sweep(start, now).Keys;
    }
  }

  // ----- properties of one call -----

  /** A request without a user id is allowed and leaves the table untouched, sweep or not. */
  lemma NoUserLeavesTable(m: Table, userId: Option<string>, now: int, sweep: bool)
    requires NoUser(userId)
    ensures Check(m, userId, now, sweep) == (m, Allowed)
  {
  }

  /**
   * A missing or expired entry starts a fresh window of count 1 and the request
   * is allowed; otherwise the old window is kept, also at `now == resetTime`.
   */
  lemma FreshWindow(m: Table, id: string, now: int, sweep: bool)
    requires id != ""
    ensures var (r, d) := Check(m, Some(id), now, sweep);
      && id in r
      && ((id !in m || now > m[id].resetTime) ==> d == Allowed && r[id] == Entry(1, now + WindowMs))
      && ((id in m && now <= m[id].resetTime) ==> r[id].resetTime == m[id].resetTime)
  {
  }

  /**
   * Inside a window the count goes up by one while it stays within the quota;
   * beyond it the request is rejected, the stored entry keeps its value and the
   * retry hint is the rounded-up number of seconds left.
   */
  lemma WithinWindow(m: Table, id: string, now: int, sweep: bool)
    requires id != "" && id in m && !Expired(m[id], now)
    ensures var (r, d) := Check(m, Some(id), now, sweep);
      && id in r
      && (m[id].count < MaxRequests ==> d == Allowed && r[id] == m[id].(count := m[id].count + 1))
      && (m[id].count >= MaxRequests ==>
            d == Rejected(CeilSeconds(m[id].resetTime - now)) && r[id] == m[id])
  {
  }

  /** The stored counts stay within 1..MaxRequests. */
  lemma CheckKeepsCountsInRange(m: Table, userId: Option<string>, now: int, sweep: bool)
    requires CountsInRange(m)
    ensures CountsInRange(Check(m, userId, now, sweep).0)
  {
  }

  /** Apart from the sweep, a call touches only the caller's entry. */
  lemma CheckTouchesOnlyCaller(m: Table, id: string, now: int)
    ensures var r := Check(m, Some(id), now, false).0;
      forall k :: k != id ==> (k in r <==> k in m) && (k in m ==> r[k] == m[k])
  {
  }

  /**
   * Running the sweep changes neither the decision nor the caller's entry:
   * the table after a sweeping call is exactly the swept table of a non-sweeping one.
   */
  lemma SweepIsInvisible(m: Table, userId: Option<string>, now: int)
    requires !NoUser(userId)
    ensures Check(m, userId, now, true).1 == Check(m, userId, now, false).1
    ensures Check(m, userId, now, true).0 == Sweep(Check(m, userId, now, false).0, now)
  {
    var id := userId.value;
    var with := Check(m, userId, now, true).0;
    var without := Sweep(Check(m, userId, now, false).0, now);
    assert with.Keys == without.Keys by {
      forall k | k in with ensures k in without {
        if k != id {
          assert k in m && !Expired(m[k], now);
        }
      }
    }
  }

  /** With a clock that does not go backwards, every window ends at most 60 seconds ahead. */
  lemma CheckKeepsWindowsBounded(m: Table, userId: Option<string>, now: int, later: int, sweep: bool)
    requires WindowsBounded(m, now) && now <= later
    ensures WindowsBounded(Check(m, userId, now, sweep).0, later)
  {
  }

  /** Under that clock bound, a rejection asks the caller to wait between 0 and 60 seconds. */
  lemma RetryAfterInRange(m: Table, userId: Option<string>, now: int, sweep: bool)
    requires WindowsBounded(m, now)
    ensures var d := Check(m, userId, now, sweep).1;
      d.Rejected? ==> 0 <= d.retryAfter <= WindowMs / 1000
  {
    var d := Check(m, userId, now, sweep).1;
    if d.Rejected? {
      var id := userId.value;
      var left := m[id].resetTime - now;
      assert 0 <= left <= WindowMs;
      assert d.retryAfter == CeilSeconds(left);
    }
  }

  // ----- a sequence of calls by one user -----

  /** The decisions of successive calls by `id`, each a pair of time and sweep coin. */
  function Run(m: Table, id: string, calls: seq<(int, bool)>): (Table, seq<Decision>)
    decreases |calls|
  {
    if calls == [] then (m, [])
    else
      var (m1, d) := Check(m, Some(id), calls[0].0, calls[0].1);
      var (m2, ds) := Run(m1, id, calls[1..]);
      (m2, [d] + ds)
  }

  /** Decision `i` of a run inside the window of an entry that already holds `c` requests. */
  function Expected(c: int, i: int, resetTime: int, now: int): Decision
  {
    if c + i + 1 <= MaxRequests then Allowed else Rejected(CeilSeconds(resetTime - now))
  }

  /**
   * Inside one window, calls keep counting up from the stored count until the
   * quota is reached, and every call after that is rejected.
   */
  lemma {:induction false} RunWithinWindow(m: Table, id: string, c: int, resetTime: int, calls: seq<(int, bool)>)
    requires id != "" && id in m && m[id] == Entry(c, resetTime) && 1 <= c <= MaxRequests
    requires forall i :: 0 <= i < |calls| ==> calls[i].0 <= resetTime
    decreases |calls|
    ensures var (r, ds) := Run(m, id, calls);
      && |ds| == |calls|
      && (forall i :: 0 <= i < |calls| ==> ds[i] == Expected(c, i, resetTime, calls[i].0))
      && id in r && r[id] == Entry(if c + |calls| <= MaxRequests then c + |calls| else MaxRequests, resetTime)
  {
    if calls != [] {
      var (m1, d) := Check(m, Some(id), calls[0].0, calls[0].1);
      WithinWindow(m, id, calls[0].0, calls[0].1);
      var c1 := if c < MaxRequests then c + 1 else c;
      assert m1[id] == Entry(c1, resetTime);
      RunWithinWindow(m1, id, c1, resetTime, calls[1..]);
      var (r, ds) := Run(m, id, calls);
      var (_, rest) := Run(m1, id, calls[1..]);
      assert ds == [d] + rest;
      forall i | 0 <= i < |calls|
        ensures ds[i] == Expected(c, i, resetTime, calls[i].0)
      {
        if i > 0 {
          assert ds[i] == rest[i - 1];
          assert calls[1..][i - 1] == calls[i];
        }
      }
    }
  }

  /**
   * From a missing or expired entry, 21 calls inside one window: the first 20
   * are allowed and the 21st is rejected with a retry hint of at most 60 seconds.
   */
  lemma TwentyAllowedThenRejected(m: Table, id: string, calls: seq<(int, bool)>)
    requires id != "" && |calls| == MaxRequests + 1
    requires id !in m || Expired(m[id], calls[0].0)
    requires forall i :: 0 <= i < |calls| ==> calls[0].0 <= calls[i].0 <= calls[0].0 + WindowMs
    ensures var ds := Run(m, id, calls).1;
      && |ds| == |calls|
      && (forall i :: 0 <= i < MaxRequests ==> ds[i] == Allowed)
      && ds[MaxRequests].Rejected?
      && 0 <= ds[MaxRequests].retryAfter <= WindowMs / 1000
  {
    var t0 := calls[0].0;
    var (m1, d0) := Check(m, Some(id), t0, calls[0].1);
    assert d0 == Allowed && m1[id] == Entry(1, t0 + WindowMs);
    var rest := calls[1..];
    forall i | 0 <= i < |rest| ensures rest[i].0 <= t0 + WindowMs {
      assert rest[i] == calls[i + 1];
    }
    RunWithinWindow(m1, id, 1, t0 + WindowMs, rest);
    var ds := Run(m, id, calls).1;
    var tail := Run(m1, id, rest).1;
    assert ds == [d0] + tail;
    forall i | 0 <= i < MaxRequests ensures ds[i] == Allowed {
      if i > 0 {
        assert ds[i] == tail[i - 1];
      }
    }
    assert ds[MaxRequests] == tail[MaxRequests - 1];
    assert rest[MaxRequests - 1] == calls[MaxRequests];
  }
}
