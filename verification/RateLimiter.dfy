/** The per-IP rate limiter, and the number of requests any trace can get through. */
module RateLimiter {

  type Ip = nat
  type Time = nat

  datatype Window = Window(start: Time, count: nat)
  datatype Limits = Limits(maxRequests: nat, windowDuration: nat)
  datatype Request = Request(ip: Ip, time: Time)

  /** The window a request at `now` is counted in, after counting it. */
  function Counted(l: Limits, windows: map<Ip, Window>, ip: Ip, now: Time): Window {
    var w := if ip in windows then windows[ip] else Window(now, 0);
    if now > w.start + l.windowDuration then Window(now, 1) else Window(w.start, w.count + 1)
  }

  // ---------- traces ----------

  /** The limiter's state after a trace of checks. */
  function After(l: Limits, trace: seq<Request>): map<Ip, Window> {
    if trace == [] then map[]
    else
      var w, r := After(l, trace[..|trace| - 1]), trace[|trace| - 1];
      w[r.ip := Counted(l, w, r.ip, r.time)]
  }

  /** Whether the last request of a trace is granted. */
  predicate LastGranted(l: Limits, trace: seq<Request>)
    requires trace != []
  {
    var r := trace[|trace| - 1];
    Counted(l, After(l, trace[..|trace| - 1]), r.ip, r.time).count <= l.maxRequests
  }

  /** Requests of `ip` granted within [from, from + windowDuration]. */
  function GrantsIn(l: Limits, trace: seq<Request>, ip: Ip, from: Time): nat {
    if trace == [] then 0
    else
      var r := trace[|trace| - 1];
      GrantsIn(l, trace[..|trace| - 1], ip, from)
      + if r.ip == ip && from <= r.time <= from + l.windowDuration && LastGranted(l, trace) then 1 else 0
  }

  ghost predicate Monotone(trace: seq<Request>) {
    forall i, j :: 0 <= i < j < |trace| ==> trace[i].time <= trace[j].time
  }

  function LastTime(trace: seq<Request>): Time {
    if trace == [] then 0 else trace[|trace| - 1].time
  }

  // ---------- the limiter object ----------

  class Limiter {
    const limits: Limits
    var windows: map<Ip, Window>
    ghost var trace: seq<Request>   // every check so far

    ghost predicate Valid()
      reads this
    {
      windows == After(limits, trace)
    }

    constructor (maxRequests: nat, windowDuration: nat)
      ensures Valid() && limits == Limits(maxRequests, windowDuration) && trace == []
    {
      limits := Limits(maxRequests, windowDuration);
      windows, trace := map[], [];
    }

    method Check(ip: Ip, now: Time) returns (granted: bool)
      requires Valid()
      modifies this
      ensures Valid() && trace == old(trace) + [Request(ip, now)]
      ensures granted <==> LastGranted(limits, trace)
      ensures windows == old(windows)[ip :=
                if ip in old(windows) && now <= old(windows)[ip].start + limits.windowDuration
                then Window(old(windows)[ip].start, old(windows)[ip].count + 1) else Window(now, 1)]
      ensures granted <==> windows[ip].count <= limits.maxRequests
    {
      assert (trace + [Request(ip, now)])[..|trace|] == trace;
      trace := trace + [Request(ip, now)];
      var window := if ip in windows then windows[ip] else Window(now, 0);
      if now > window.start + limits.windowDuration {
        window := Window(now, 0);
      }
      window := window.(count := window.count + 1);
      windows := windows[ip := window];
      granted := window.count <= limits.maxRequests;
    }
  }

  // ---------- the bound ----------

  /** Grants in the interval, split into those of the current window and those before it. */
  datatype Split = Split(earlier: nat, current: nat)

  function SplitOf(l: Limits, trace: seq<Request>, ip: Ip, from: Time): Split {
    if trace == [] then Split(0, 0)
    else
      var r, init := trace[|trace| - 1], trace[..|trace| - 1];
      var s := SplitOf(l, init, ip, from);
      if r.ip != ip then s
      else
        var w := After(l, init);
        var hit := if from <= r.time <= from + l.windowDuration && LastGranted(l, trace) then 1 else 0;
        if ip in w && r.time > w[ip].start + l.windowDuration then Split(s.earlier + s.current, hit)
        else Split(s.earlier, s.current + hit)
  }

  lemma {:induction false} SplitAddsUp(l: Limits, trace: seq<Request>, ip: Ip, from: Time)
    ensures var s := SplitOf(l, trace, ip, from); GrantsIn(l, trace, ip, from) == s.earlier + s.current
    decreases |trace|
  {
    if trace != [] {
      SplitAddsUp(l, trace[..|trace| - 1], ip, from);
    }
  }

  function Min(a: nat, b: nat): nat {
    if a < b then a else b
  }

  /** Invariant of a trace. If the window began before the interval, its first request lies outside;
      a window that overlaps the interval can therefore follow only one that is short of a grant. */
  ghost predicate Bounded(l: Limits, w: Window, s: Split, from: Time) {
    var m, end := l.maxRequests, from + l.windowDuration;
    && w.count >= 1
    && s.current <= Min(w.count, m)
    && (w.start < from ==> s.earlier == 0 && s.current <= Min(w.count, m) - 1)
    && (from <= w.start <= end ==> s.earlier <= m - 1)
    && (w.start > end ==> s.current == 0)
    && s.earlier + s.current <= 2 * m - 1
  }

  lemma {:induction false} TraceBounded(l: Limits, trace: seq<Request>, ip: Ip, from: Time)
    requires l.maxRequests >= 1 && Monotone(trace)
    ensures var w, s := After(l, trace), SplitOf(l, trace, ip, from);
            && (if ip in w then Bounded(l, w[ip], s, from) && w[ip].start <= LastTime(trace) else s == Split(0, 0))
            && (LastTime(trace) < from ==> s == Split(0, 0))
    decreases |trace|
  {
    if trace != [] {
      var init := trace[..|trace| - 1];
      assert Monotone(init);
      TraceBounded(l, init, ip, from);
      assert init != [] ==> LastTime(init) <= LastTime(trace);
    }
  }

  /** For every monotone trace and every closed interval no longer than the window, one IP gets at
      most 2 * maxRequests - 1 requests through. */
  lemma RateBound(l: Limits, trace: seq<Request>, ip: Ip, from: Time)
    requires Monotone(trace)
    ensures GrantsIn(l, trace, ip, from) <= if l.maxRequests == 0 then 0 else 2 * l.maxRequests - 1
  {
    SplitAddsUp(l, trace, ip, from);
    if l.maxRequests == 0 {
      NoGrants(l, trace, ip, from);
    } else {
      TraceBounded(l, trace, ip, from);
    }
  }

  lemma {:induction false} NoGrants(l: Limits, trace: seq<Request>, ip: Ip, from: Time)
    requires l.maxRequests == 0
    ensures GrantsIn(l, trace, ip, from) == 0
    decreases |trace|
  {
    if trace != [] {
      NoGrants(l, trace[..|trace| - 1], ip, from);
    }
  }

  // ---------- the bound is reached ----------

  /** `trace` followed by `n` requests at one time. */
  function Burst(trace: seq<Request>, ip: Ip, time: Time, n: nat): seq<Request> {
    if n == 0 then trace else Burst(trace, ip, time, n - 1) + [Request(ip, time)]
  }

  /** A burst inside the current window, within its allowance and inside the interval. */
  lemma {:induction false} BurstCounts(l: Limits, trace: seq<Request>, ip: Ip, time: Time, n: nat, from: Time)
    requires ip in After(l, trace) && time <= After(l, trace)[ip].start + l.windowDuration
    requires After(l, trace)[ip].count + n <= l.maxRequests && from <= time <= from + l.windowDuration
    ensures var t := Burst(trace, ip, time, n);
            && ip in After(l, t)
            && After(l, t)[ip] == Window(After(l, trace)[ip].start, After(l, trace)[ip].count + n)
            && GrantsIn(l, t, ip, from) == GrantsIn(l, trace, ip, from) + n
  {
    if n > 0 {
      hide After, GrantsIn;
      var t := Burst(trace, ip, time, n - 1);
      assert Burst(trace, ip, time, n) == t + [Request(ip, time)];
      BurstCounts(l, trace, ip, time, n - 1, from);
      hide Burst;
      OneMore(l, Burst(trace, ip, time, n - 1), ip, time, from);
    }
  }

  /** One request within an open window that has room. */
  lemma OneMore(l: Limits, t: seq<Request>, ip: Ip, time: Time, from: Time)
    requires ip in After(l, t) && time <= After(l, t)[ip].start + l.windowDuration
    requires After(l, t)[ip].count < l.maxRequests && from <= time <= from + l.windowDuration
    ensures var t' := t + [Request(ip, time)];
            && ip in After(l, t')
            && After(l, t')[ip] == Window(After(l, t)[ip].start, After(l, t)[ip].count + 1)
            && GrantsIn(l, t', ip, from) == GrantsIn(l, t, ip, from) + 1
  {
    assert (t + [Request(ip, time)])[..|t|] == t;
  }

  /** One request that opens a window. */
  lemma OpensWindow(l: Limits, trace: seq<Request>, ip: Ip, time: Time, from: Time)
    requires l.maxRequests >= 1
    requires ip in After(l, trace) ==> time > After(l, trace)[ip].start + l.windowDuration
    ensures var t := trace + [Request(ip, time)];
            && ip in After(l, t) && After(l, t)[ip] == Window(time, 1)
            && GrantsIn(l, t, ip, from) ==
               GrantsIn(l, trace, ip, from) + if from <= time <= from + l.windowDuration then 1 else 0
  {
    assert (trace + [Request(ip, time)])[..|trace|] == trace;
  }

  /** One early request, the rest of that window's allowance at its very end, then a full new window. */
  function WorstTrace(l: Limits, ip: Ip): seq<Request>
    requires l.maxRequests >= 1
  {
    var d := l.windowDuration;
    Burst(Burst([Request(ip, 0)], ip, d, l.maxRequests - 1) + [Request(ip, d + 1)], ip, d + 1, l.maxRequests - 1)
  }

  lemma {:induction false} BurstMonotone(trace: seq<Request>, ip: Ip, time: Time, n: nat)
    requires Monotone(trace) && LastTime(trace) <= time
    ensures Monotone(Burst(trace, ip, time, n)) && LastTime(Burst(trace, ip, time, n)) <= time
  {
    if n > 0 {
      BurstMonotone(trace, ip, time, n - 1);
      MonotoneSnoc(Burst(trace, ip, time, n - 1), Request(ip, time));
    }
  }

  lemma FirstRequest(l: Limits, ip: Ip, d: Time)
    requires l.maxRequests >= 1 && d >= 1
    ensures var t := [Request(ip, 0)];
            && Monotone(t) && LastTime(t) <= d
            && ip in After(l, t) && After(l, t)[ip] == Window(0, 1) && GrantsIn(l, t, ip, d) == 0
  {
    OpensWindow(l, [], ip, 0, d);
    assert [] + [Request(ip, 0)] == [Request(ip, 0)] && GrantsIn(l, [], ip, d) == 0;
  }

  /** The first window: one request before the interval, all others of its allowance inside. */
  lemma FirstWindow(l: Limits, ip: Ip)
    requires l.maxRequests >= 1 && l.windowDuration >= 1
    ensures var t := Burst([Request(ip, 0)], ip, l.windowDuration, l.maxRequests - 1);
            && Monotone(t) && LastTime(t) <= l.windowDuration
            && ip in After(l, t) && After(l, t)[ip] == Window(0, l.maxRequests)
            && GrantsIn(l, t, ip, l.windowDuration) == l.maxRequests - 1
  {
    hide After, GrantsIn, Burst;
    var d := l.windowDuration;
    FirstRequest(l, ip, d);
    BurstCounts(l, [Request(ip, 0)], ip, d, l.maxRequests - 1, d);
    BurstMonotone([Request(ip, 0)], ip, d, l.maxRequests - 1);
  }

  lemma SecondWindow(l: Limits, t: seq<Request>, ip: Ip)
    requires l.maxRequests >= 1 && l.windowDuration >= 1 && Monotone(t) && LastTime(t) <= l.windowDuration
    requires ip in After(l, t) && After(l, t)[ip].start == 0
    ensures var d := l.windowDuration;
            var t' := Burst(t + [Request(ip, d + 1)], ip, d + 1, l.maxRequests - 1);
            && Monotone(t')
            && GrantsIn(l, t', ip, d) == GrantsIn(l, t, ip, d) + l.maxRequests
  {
    hide After, GrantsIn, Burst, Monotone;
    var d := l.windowDuration;
    OpensWindow(l, t, ip, d + 1, d);
    MonotoneSnoc(t, Request(ip, d + 1));
    BurstCounts(l, t + [Request(ip, d + 1)], ip, d + 1, l.maxRequests - 1, d);
    BurstMonotone(t + [Request(ip, d + 1)], ip, d + 1, l.maxRequests - 1);
  }

  /** The bound cannot be lowered. */
  lemma BoundIsReached(l: Limits, ip: Ip)
    requires l.maxRequests >= 1 && l.windowDuration >= 1
    ensures Monotone(WorstTrace(l, ip))
    ensures GrantsIn(l, WorstTrace(l, ip), ip, l.windowDuration) == 2 * l.maxRequests - 1
  {
    hide After, GrantsIn, Burst, Monotone;
    FirstWindow(l, ip);
    SecondWindow(l, Burst([Request(ip, 0)], ip, l.windowDuration, l.maxRequests - 1), ip);
  }

  /** With a window of length 0 the grants of an instant all fall into the window that starts there. */
  lemma {:induction false} InstantBounded(l: Limits, trace: seq<Request>, ip: Ip, from: Time)
    requires l.maxRequests >= 1 && l.windowDuration == 0 && Monotone(trace)
    ensures var w, n := After(l, trace), GrantsIn(l, trace, ip, from);
            && n <= l.maxRequests
            && (ip in w ==> w[ip].start <= LastTime(trace))
            && (ip !in w || w[ip].start < from ==> n == 0)
            && (ip in w && w[ip].start == from ==> n <= w[ip].count)
    decreases |trace|
  {
    if trace != [] {
      var init := trace[..|trace| - 1];
      assert Monotone(init);
      InstantBounded(l, init, ip, from);
      assert init != [] ==> LastTime(init) <= LastTime(trace);
    }
  }

  ghost predicate KeepsLimit(l: Limits) {
    forall trace, ip, from :: Monotone(trace) ==> GrantsIn(l, trace, ip, from) <= l.maxRequests
  }

  /** At most maxRequests grants in every interval as long as the window: this holds exactly for limits
      up to 1 and for windows of length 0. */
  lemma KeepsLimitIff(l: Limits)
    ensures KeepsLimit(l) <==> l.maxRequests <= 1 || l.windowDuration == 0
  {
    if l.maxRequests <= 1 || l.windowDuration == 0 {
      forall trace, ip, from | Monotone(trace) ensures GrantsIn(l, trace, ip, from) <= l.maxRequests {
        if l.maxRequests >= 1 && l.windowDuration == 0 {
          InstantBounded(l, trace, ip, from);
        } else {
          RateBound(l, trace, ip, from);
        }
      }
    } else {
      BoundIsReached(l, 0);
      assert GrantsIn(l, WorstTrace(l, 0), 0, l.windowDuration) > l.maxRequests;
    }
  }

  lemma MonotoneSnoc(trace: seq<Request>, r: Request)
    requires Monotone(trace) && LastTime(trace) <= r.time
    ensures Monotone(trace + [r])
  {
    forall i | 0 <= i < |trace| ensures trace[i].time <= r.time {
      assert i < |trace| - 1 ==> trace[i].time <= trace[|trace| - 1].time;
    }
  }

  // ---------- liveness and independence ----------

  /** A window starts at a request of its IP. */
  lemma {:induction false} StartIsRequest(l: Limits, trace: seq<Request>, ip: Ip)
    requires ip in After(l, trace)
    ensures exists i :: 0 <= i < |trace| && trace[i].ip == ip && trace[i].time == After(l, trace)[ip].start
    decreases |trace|
  {
    var k := |trace| - 1;
    if ip in After(l, trace[..k]) {
      StartIsRequest(l, trace[..k], ip);
      var i :| 0 <= i < k && trace[..k][i].ip == ip && trace[..k][i].time == After(l, trace[..k])[ip].start;
      assert trace[i] == trace[..k][i];
    }
    assert trace[k] in trace;
  }

  /** An IP that made no request for longer than the window is served next. */
  lemma IdleIsGranted(l: Limits, trace: seq<Request>, ip: Ip, now: Time)
    requires l.maxRequests >= 1
    requires forall i :: 0 <= i < |trace| && trace[i].ip == ip ==> now > trace[i].time + l.windowDuration
    ensures LastGranted(l, trace + [Request(ip, now)])
  {
    assert (trace + [Request(ip, now)])[..|trace|] == trace;
    if ip in After(l, trace) {
      StartIsRequest(l, trace, ip);
    }
  }

  function Only(trace: seq<Request>, ip: Ip): seq<Request> {
    if trace == [] then []
    else
      var r, rest := trace[|trace| - 1], Only(trace[..|trace| - 1], ip);
      if r.ip == ip then rest + [r] else rest
  }

  /** What one IP gets depends on its own requests alone. */
  lemma {:induction false} Independent(l: Limits, trace: seq<Request>, ip: Ip, from: Time)
    ensures ip in After(l, trace) <==> ip in After(l, Only(trace, ip))
    ensures ip in After(l, trace) ==> After(l, trace)[ip] == After(l, Only(trace, ip))[ip]
    ensures GrantsIn(l, trace, ip, from) == GrantsIn(l, Only(trace, ip), ip, from)
    decreases |trace|
  {
    if trace != [] {
      var init := trace[..|trace| - 1];
      Independent(l, init, ip, from);
      var o := Only(init, ip);
      assert (o + [trace[|trace| - 1]])[..|o|] == o;
    }
  }
}
