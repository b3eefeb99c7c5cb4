/** The server's fixed-window rate limiter: per client IP a request count and
    the start of its current window. A window lasts one second; visitors not
    seen for ten minutes are dropped by a periodic pass. Times are integers in
    nanoseconds. */
module RateLimiter {
  /** One second in nanoseconds. */
  const Second: int := 1000 * 1000 * 1000

  /** How old a window must be before the cleanup pass drops its visitor. */
  const CleanupAge: int := 10 * 60 * Second

  datatype Visitor = Visitor(count: int, lastReset: int)

  type Visitors = map<string, Visitor>

  datatype Decision = Decision(allowed: bool, visitors: Visitors)

  /** Whether `ip` may make a request at `now` with at most `limit` requests
      per window. A new visitor, or one whose window began more than a second
      ago, starts a fresh window with this request; within the window a
      request is refused once the count has reached the limit. */
  function Allow(vs: Visitors, ip: string, limit: int, now: int): (r: Decision)
    ensures ip !in vs || now - vs[ip].lastReset > Second ==>
              r.allowed && r.visitors == vs[ip := Visitor(1, now)]
    ensures ip in vs && now - vs[ip].lastReset <= Second ==>
              (r.allowed <==> vs[ip].count < limit)
    ensures ip in vs && now - vs[ip].lastReset <= Second && vs[ip].count >= limit ==> r.visitors == vs
    ensures ip in vs && now - vs[ip].lastReset <= Second && vs[ip].count < limit ==>
              r.visitors == vs[ip := Visitor(vs[ip].count + 1, vs[ip].lastReset)]
    ensures forall other :: other != ip ==> (other in r.visitors <==> other in vs)
    ensures forall other :: other != ip && other in vs ==> r.visitors[other] == vs[other]
  {
    if ip !in vs then Decision(true, vs[ip := Visitor(1, now)])
    else
      var v := vs[ip];
      if now - v.lastReset > Second then Decision(true, vs[ip := Visitor(1, now)])
      else if v.count >= limit then Decision(false, vs)
      else Decision(true, vs[ip := v.(count := v.count + 1)])
  }

  /** Requests from one IP at the given times, in order: the visitors left
      behind and how many requests were let through. */
  datatype Tally = Tally(visitors: Visitors, allowed: nat)

  function AllowAll(vs: Visitors, ip: string, limit: int, times: seq<int>): (r: Tally)
    ensures r.allowed <= |times|
    decreases |times|
  {
    if |times| == 0 then Tally(vs, 0)
    else
      var d := Allow(vs, ip, limit, times[0]);
      var rest := AllowAll(d.visitors, ip, limit, times[1..]);
      Tally(rest.visitors, rest.allowed + if d.allowed then 1 else 0)
  }

  function Min(a: int, b: int): int { if a <= b then a else b }

  function Max(a: int, b: int): int { if a >= b then a else b }

  /** Inside a running window that has counted `c` requests, exactly the next
      limit − c requests (or all of them, if fewer) are let through, and the
      window start does not move. */
  lemma {:induction false} WithinWindow(vs: Visitors, ip: string, limit: int, times: seq<int>)
    requires ip in vs
    requires forall k :: 0 <= k < |times| ==> times[k] - vs[ip].lastReset <= Second
    ensures AllowAll(vs, ip, limit, times).allowed == Min(|times|, Max(0, limit - vs[ip].count))
    ensures var after := AllowAll(vs, ip, limit, times).visitors;
            ip in after
            && after[ip] == Visitor(vs[ip].count + AllowAll(vs, ip, limit, times).allowed, vs[ip].lastReset)
    decreases |times|
  {
    if |times| > 0 {
      var d := Allow(vs, ip, limit, times[0]);
      WithinWindow(d.visitors, ip, limit, times[1..]);
    } else {
      assert vs[ip] == Visitor(vs[ip].count + 0, vs[ip].lastReset);
    }
  }

  /** A new visitor whose requests all fall within one second of the first
      gets exactly max(1, limit) of them through (or all, if fewer). */
  lemma FreshWindow(vs: Visitors, ip: string, limit: int, times: seq<int>)
    requires ip !in vs && |times| > 0
    requires forall k :: 0 <= k < |times| ==> times[k] - times[0] <= Second
    ensures AllowAll(vs, ip, limit, times).allowed == Min(|times|, Max(1, limit))
  {
    var d := Allow(vs, ip, limit, times[0]);
    assert d.visitors[ip] == Visitor(1, times[0]);
    WithinWindow(d.visitors, ip, limit, times[1..]);
  }

  /** One pass of the cleanup loop at `now`: visitors whose window began more
      than ten minutes ago are dropped, the others kept as they are. */
  function Cleanup(vs: Visitors, now: int): (r: Visitors)
    ensures forall ip :: ip in r <==> ip in vs && now - vs[ip].lastReset <= CleanupAge
    ensures forall ip :: ip in r ==> r[ip] == vs[ip]
  {
    map ip | ip in vs && !(now - vs[ip].lastReset > CleanupAge) :: vs[ip]
  }

  /** Cleaning up never changes a later decision: a dropped visitor would
      have started a fresh window anyway. */
  lemma CleanupKeepsDecisions(vs: Visitors, ip: string, limit: int, now: int, t: int)
    requires now <= t
    ensures Allow(Cleanup(vs, now), ip, limit, t).allowed == Allow(vs, ip, limit, t).allowed
    ensures ip in Allow(Cleanup(vs, now), ip, limit, t).visitors
    ensures Allow(Cleanup(vs, now), ip, limit, t).visitors[ip] == Allow(vs, ip, limit, t).visitors[ip]
  {
  }
}
