// The per-IP token bucket with idle eviction:
// internal/transport/middleware/ratelimit.go. Times are seconds, exact reals.
module RateLimit {
  import Collections
  import opened Text

  // ---- parseRate -----------------------------------------------------------

  predicate Blank(s: string) {
    forall i :: 0 <= i < |s| ==> IsSpace(s[i])
  }

  lemma {:induction false} TrimLeading(left: string, s: string)
    requires Blank(left)
    ensures TrimSpace(left + s) == TrimSpace(s)
  {
    hide IsSpace;
    var whole := left + s;
    if |left| == 0 {
      assert whole == s;
    } else {
      assert whole[0] == left[0] && whole[1..] == left[1..] + s;
      TrimLeading(left[1..], s);
    }
  }

  lemma {:induction false} TrimTrailing(s: string, right: string)
    requires Blank(right) && |s| > 0 && !IsSpace(s[0]) && !IsSpace(s[|s| - 1])
    ensures TrimSpace(s + right) == s
  {
    hide IsSpace;
    var whole := s + right;
    if |right| == 0 {
      assert whole == s;
    } else {
      assert whole[0] == s[0] && whole[|whole| - 1] == right[|right| - 1];
      assert whole[..|whole| - 1] == s + right[..|right| - 1];
      TrimTrailing(s, right[..|right| - 1]);
    }
  }

  lemma {:induction false} TrimSpaceDropsPadding(left: string, s: string, right: string)
    requires Blank(left) && Blank(right) && |s| > 0 && !IsSpace(s[0]) && !IsSpace(s[|s| - 1])
    ensures TrimSpace(left + s + right) == s
  {
    hide IsSpace, TrimSpace;
    assert left + s + right == left + (s + right);
    TrimLeading(left, s + right);
    TrimTrailing(s, right);
  }

  datatype Rate = Rate(count: int, window: int)

  function UnitWindow(unit: string): Option<int> {
    if unit == "s" then Some(1) else if unit == "m" then Some(60) else if unit == "h" then Some(3600) else None
  }

  function ParseRate(s: string): (r: Option<Rate>)
    ensures r.Some? ==> r.value.count > 0 && r.value.window in {1, 60, 3600}
  {
    var i := IndexOf(s, "/");
    if i == -1 then None
    else
      match (ParseInt(TrimSpace(s[..i])), UnitWindow(TrimSpace(s[i + 1..])))
      case (Some(n), Some(w)) => if n > 0 then Some(Rate(n, w)) else None
      case _ => None
  }

  predicate NoSlash(s: string) {
    forall i :: 0 <= i < |s| ==> s[i] != '/'
  }

  lemma {:induction false} SlashAt(left: string, right: string)
    requires NoSlash(left)
    ensures IndexOf(left + "/" + right, "/") == |left|
  {
    var s := left + "/" + right;
    assert OccursAt(s, "/", |left|) by { assert s[|left|..|left| + 1] == "/"; }
    forall j | 0 <= j < |left|
      ensures !OccursAt(s, "/", j)
    {
      assert s[j..j + 1] == [left[j]] && left[j] != '/';
    }
  }

  lemma {:induction false} DigitsArePlain(n: nat)
    ensures var d := Digits(n); !IsSpace(d[0]) && !IsSpace(d[|d| - 1]) && NoSlash(d)
  {
    var d := Digits(n);
    assert IsDigit(d[0]) && IsDigit(d[|d| - 1]);
  }

  // Every positive count with each unit, padded anyhow, is read back.
  lemma {:induction false} RateRoundTrip(n: int, unit: string, a: string, b: string, c: string, d: string)
    requires 0 < n <= MAX_INT64 && unit in {"s", "m", "h"} && Blank(a) && Blank(b) && Blank(c) && Blank(d)
    ensures ParseRate(a + FormatInt(n) + b + "/" + (c + unit + d)) ==
            Some(Rate(n, if unit == "s" then 1 else if unit == "m" then 60 else 3600))
  {
    var left, right := a + FormatInt(n) + b, c + unit + d;
    DigitsArePlain(n);
    assert NoSlash(a) && NoSlash(b);
    SlashAt(left, right);
    var s := left + "/" + right;
    assert s[..|left|] == left && s[|left| + 1..] == right;
    TrimSpaceDropsPadding(a, FormatInt(n), b);
    TrimSpaceDropsPadding(c, unit, d);
    ParseFormat(n);
    hide TrimSpace, FormatInt, ParseInt, Blank, NoSlash, IndexOf;
  }

  // ---- the bucket ------------------------------------------------------------

  datatype Bucket = Bucket(tokens: real, last: real)

  type Visitors = map<string, Bucket>

  const IDLE_CUTOFF: real := 900.0

  // capacity tokens, refilled over window seconds
  datatype Limits = Limits(capacity: real, window: real)
  {
    ghost predicate Valid() {
      capacity >= 1.0 && window > 0.0
    }
  }

  // The tokens that drip in during d seconds.
  function Earned(l: Limits, d: real): real
    requires l.window > 0.0
  {
    d * (l.capacity / l.window)
  }

  function Refilled(l: Limits, b: Bucket, now: real): real
    requires l.window > 0.0
  {
    var t := b.tokens + Earned(l, now - b.last);
    if t > l.capacity then l.capacity else t
  }

  function Admit(l: Limits, v: Visitors, ip: string, now: real): (r: (Visitors, bool))
    requires l.window > 0.0
  {
    if ip !in v then (v[ip := Bucket(l.capacity - 1.0, now)], true)
    else
      var t := Refilled(l, v[ip], now);
      if t < 1.0 then (v[ip := Bucket(t, now)], false) else (v[ip := Bucket(t - 1.0, now)], true)
  }

  predicate Idle(b: Bucket, now: real) {
    b.last < now - IDLE_CUTOFF
  }

  function Swept(v: Visitors, now: real): Visitors {
    map ip | ip in v && !Idle(v[ip], now) :: v[ip]
  }

  class Limiter {
    const limits: Limits
    var visitors: Visitors

    constructor (rate: Rate)
      requires rate.count > 0 && rate.window > 0
      ensures limits == Limits(rate.count as real, rate.window as real) && limits.Valid() && visitors == map[]
    {
      limits := Limits(rate.count as real, rate.window as real);
      visitors := map[];
    }

    method Allow(ip: string, now: real) returns (ok: bool)
      requires limits.Valid()
      modifies this
      ensures (visitors, ok) == Admit(limits, old(visitors), ip, now)
    {
      if ip !in visitors {
        visitors := visitors[ip := Bucket(limits.capacity - 1.0, now)];
        return true;
      }
      var b := visitors[ip];
      b := b.(tokens := b.tokens + Earned(limits, now - b.last));
      if b.tokens > limits.capacity {
        b := b.(tokens := limits.capacity);
      }
      b := b.(last := now);
      if b.tokens < 1.0 {
        visitors := visitors[ip := b];
        return false;
      }
      visitors := visitors[ip := b.(tokens := b.tokens - 1.0)];
      ok := true;
    }

    // One round of cleanupLoop.
    method Cleanup(now: real)
      modifies this
      ensures visitors == Swept(old(visitors), now)
    {
      var todo := visitors.Keys;
      while todo != {}
        invariant todo <= visitors.Keys <= old(visitors).Keys
        invariant forall ip :: ip in visitors ==> visitors[ip] == old(visitors)[ip] && (ip in todo || !Idle(visitors[ip], now))
        invariant forall ip :: ip in old(visitors) && !Idle(old(visitors)[ip], now) ==> ip in visitors
        decreases |todo|
      {
        var ip := Collections.Pick(todo);
        todo := todo - {ip};
        if visitors[ip].last < now - IDLE_CUTOFF {
          visitors := visitors - {ip};
        }
      }
    }
  }

  // ---- runs ------------------------------------------------------------------

  datatype Event = Call(ip: string, at: real) | Sweep(at: real)

  // The mutex serialises the events; time does not run backwards.
  ghost predicate Ordered(events: seq<Event>) {
    forall i, j :: 0 <= i < j < |events| ==> events[i].at <= events[j].at
  }

  // evicts: whether the limiter sweeps at all
  function Next(l: Limits, evicts: bool, v: Visitors, e: Event): Visitors
    requires l.window > 0.0
  {
    match e
    case Call(ip, at) => Admit(l, v, ip, at).0
    case Sweep(at) => if evicts then Swept(v, at) else v
  }

  function After(l: Limits, evicts: bool, v: Visitors, events: seq<Event>): Visitors
    requires l.window > 0.0
  {
    if |events| == 0 then v else Next(l, evicts, After(l, evicts, v, events[..|events| - 1]), events[|events| - 1])
  }

  // The answer a call gets.
  predicate Admitted(l: Limits, evicts: bool, v: Visitors, events: seq<Event>, i: nat)
    requires l.window > 0.0 && i < |events| && events[i].Call?
  {
    Admit(l, After(l, evicts, v, events[..i]), events[i].ip, events[i].at).1
  }

  // How many calls of ip are let through.
  function Admissions(l: Limits, evicts: bool, v: Visitors, events: seq<Event>, ip: string): nat
    requires l.window > 0.0
  {
    if |events| == 0 then 0
    else
      var i := |events| - 1;
      Admissions(l, evicts, v, events[..i], ip)
      + if events[i].Call? && events[i].ip == ip && Admitted(l, evicts, v, events, i) then 1 else 0
  }

  // Every bucket holds between 0 and capacity tokens and was last used by now.
  ghost predicate Sane(l: Limits, v: Visitors, now: real) {
    forall ip :: ip in v ==> 0.0 <= v[ip].tokens <= l.capacity && v[ip].last <= now
  }

  // The tokens ip could spend at time now; an unknown IP has a full bucket.
  function Level(l: Limits, v: Visitors, ip: string, now: real): real
    requires l.window > 0.0
  {
    if ip in v then Refilled(l, v[ip], now) else l.capacity
  }

  lemma {:induction false} EarnedBounds(l: Limits, d: real)
    requires l.Valid() && d >= 0.0
    ensures Earned(l, d) >= 0.0 && Earned(l, 0.0) == 0.0
    ensures d >= l.window <==> Earned(l, d) >= l.capacity
    ensures d >= l.window / l.capacity ==> Earned(l, d) >= 1.0
  {
    var r := l.capacity / l.window;
    assert r > 0.0 && r * l.window == l.capacity;
    if d >= l.window {
      assert (d - l.window) * r >= 0.0;
    } else {
      assert (l.window - d) * r > 0.0;
    }
    if d >= l.window / l.capacity {
      assert (d - l.window / l.capacity) * r >= 0.0;
      assert l.window / l.capacity * r == 1.0;
    }
  }

  lemma {:induction false} EarnedAdds(l: Limits, d: real, e: real)
    requires l.Valid()
    ensures Earned(l, d + e) == Earned(l, d) + Earned(l, e)
  {
  }

  lemma {:induction false} EarnedIs(l: Limits, d: real)
    requires l.Valid()
    ensures l.capacity + Earned(l, d) == Allowance(l, d)
  {
  }

  lemma {:induction false} LevelGrows(l: Limits, v: Visitors, ip: string, t: real, u: real)
    requires l.Valid() && Sane(l, v, t) && t <= u
    ensures 0.0 <= Level(l, v, ip, t) <= Level(l, v, ip, u) <= l.capacity
    ensures Level(l, v, ip, u) <= Level(l, v, ip, t) + Earned(l, u - t)
  {
    if ip in v {
      EarnedBounds(l, t - v[ip].last);
      EarnedBounds(l, u - t);
      EarnedAdds(l, t - v[ip].last, u - t);
      assert t - v[ip].last + (u - t) == u - v[ip].last;
      hide Earned;
    } else {
      EarnedBounds(l, u - t);
    }
  }

  lemma {:induction false} NextSane(l: Limits, evicts: bool, v: Visitors, e: Event, before: real)
    requires l.Valid() && Sane(l, v, before) && before <= e.at
    ensures Sane(l, Next(l, evicts, v, e), e.at)
  {
    hide Earned;
    if e.Call? && e.ip in v {
      EarnedBounds(l, e.at - v[e.ip].last);
    }
  }

  // What one event does to the tokens of ip, provided sweeps only drop full buckets.
  lemma {:induction false} LevelStep(l: Limits, evicts: bool, v: Visitors, e: Event, ip: string)
    requires l.Valid() && Sane(l, v, e.at) && (evicts ==> l.window <= IDLE_CUTOFF)
    ensures Level(l, Next(l, evicts, v, e), ip, e.at) ==
            Level(l, v, ip, e.at) - if e.Call? && e.ip == ip && Admit(l, v, ip, e.at).1 then 1.0 else 0.0
  {
    hide Earned;
    EarnedBounds(l, 0.0);
    if ip in v {
      EarnedBounds(l, e.at - v[ip].last);
    }
  }

  lemma {:induction false} AfterSane(l: Limits, evicts: bool, v: Visitors, events: seq<Event>, start: real)
    requires l.Valid() && Ordered(events) && Sane(l, v, start) && (|events| > 0 ==> start <= events[0].at)
    ensures Sane(l, After(l, evicts, v, events), if |events| > 0 then events[|events| - 1].at else start)
  {
    if |events| > 0 {
      var n := |events| - 1;
      AfterSane(l, evicts, v, events[..n], start);
      NextSane(l, evicts, After(l, evicts, v, events[..n]), events[n], if n > 0 then events[n - 1].at else start);
    }
  }

  // Admissions are paid for with tokens: what was there, and what dripped in since.
  lemma {:induction false} TokensBalance(l: Limits, evicts: bool, v: Visitors, events: seq<Event>, ip: string, start: real, end: real)
    requires l.Valid() && Ordered(events) && Sane(l, v, start) && start <= end && (evicts ==> l.window <= IDLE_CUTOFF)
    requires forall i :: 0 <= i < |events| ==> start <= events[i].at <= end
    ensures Sane(l, After(l, evicts, v, events), end)
    ensures Admissions(l, evicts, v, events, ip) as real + Level(l, After(l, evicts, v, events), ip, end)
            <= Level(l, v, ip, start) + Earned(l, end - start)
  {
    hide Earned, Next, Level, Admit;
    if |events| == 0 {
      LevelGrows(l, v, ip, start, end);
    } else {
      var n := |events| - 1;
      var e := events[n];
      var mid := After(l, evicts, v, events[..n]);
      TokensBalance(l, evicts, v, events[..n], ip, start, e.at);
      LevelStep(l, evicts, mid, e, ip);
      NextSane(l, evicts, mid, e, e.at);
      LevelGrows(l, Next(l, evicts, mid, e), ip, e.at, end);
      EarnedAdds(l, e.at - start, end - e.at);
      assert e.at - start + (end - e.at) == end - start;
    }
  }

  lemma {:induction false} SaneWhenSpanStarts(l: Limits, evicts: bool, past: seq<Event>, start: real)
    requires l.Valid() && Ordered(past)
    requires forall i :: 0 <= i < |past| ==> past[i].at <= start
    ensures Sane(l, After(l, evicts, map[], past), start)
  {
    AfterSane(l, evicts, map[], past, if |past| > 0 then past[0].at else start);
  }

  lemma {:induction false} SpanBalance(l: Limits, evicts: bool, past: seq<Event>, span: seq<Event>, ip: string, start: real, end: real)
    requires l.Valid() && Ordered(past) && Ordered(span) && start <= end && (evicts ==> l.window <= IDLE_CUTOFF)
    requires forall i :: 0 <= i < |past| ==> past[i].at <= start
    requires forall i :: 0 <= i < |span| ==> start <= span[i].at <= end
    ensures Admissions(l, evicts, After(l, evicts, map[], past), span, ip) as real <= l.capacity + Earned(l, end - start)
  {
    hide Earned, Level, After, Admissions;
    var v := After(l, evicts, map[], past);
    SaneWhenSpanStarts(l, evicts, past, start);
    TokensBalance(l, evicts, v, span, ip, start, end);
    LevelGrows(l, v, ip, start, start);
    LevelGrows(l, After(l, evicts, v, span), ip, end, end);
  }

  // N + N * T / window
  function Allowance(l: Limits, T: real): real
    requires l.window > 0.0
  {
    l.capacity + l.capacity * T / l.window
  }

  // In any span of T seconds of any run, at most N + N * T / window calls of an
  // IP are let through.
  lemma {:induction false} AdmissionsBounded(l: Limits, evicts: bool, past: seq<Event>, span: seq<Event>, ip: string, start: real, end: real)
    requires l.Valid() && Ordered(past + span) && start <= end && (evicts ==> l.window <= IDLE_CUTOFF)
    requires forall i :: 0 <= i < |past| ==> past[i].at <= start
    requires forall i :: 0 <= i < |span| ==> start <= span[i].at <= end
    ensures Admissions(l, evicts, After(l, evicts, map[], past), span, ip) as real <= Allowance(l, end - start)
  {
    hide Earned, Admissions, After, Allowance;
    assert forall i :: 0 <= i < |past| ==> past[i] == (past + span)[i];
    assert forall i :: 0 <= i < |span| ==> span[i] == (past + span)[|past| + i];
    SpanBalance(l, evicts, past, span, ip, start, end);
    EarnedIs(l, end - start);
  }

  // ---- spacing -----------------------------------------------------------------

  lemma {:induction false} LastIsACall(l: Limits, evicts: bool, events: seq<Event>, ip: string)
    requires l.window > 0.0 && ip in After(l, evicts, map[], events)
    ensures exists j :: 0 <= j < |events| && events[j] == Call(ip, After(l, evicts, map[], events)[ip].last)
  {
    var n := |events| - 1;
    var e := events[n];
    if !(e.Call? && e.ip == ip) {
      LastIsACall(l, evicts, events[..n], ip);
      var j :| 0 <= j < n && events[..n][j] == Call(ip, After(l, evicts, map[], events[..n])[ip].last);
      assert events[j] == events[..n][j];
    } else {
      assert events[n] == e;
    }
  }

  // A client that leaves window / N between its calls is never refused,
  // whatever the others and the sweeps do.
  lemma {:induction false} SpacedNeverRefused(l: Limits, evicts: bool, events: seq<Event>, i: nat)
    requires l.Valid() && Ordered(events) && i < |events| && events[i].Call?
    requires forall j :: 0 <= j < i && events[j].Call? && events[j].ip == events[i].ip ==>
                           events[j].at + l.window / l.capacity <= events[i].at
    ensures Admitted(l, evicts, map[], events, i)
  {
    hide Earned, After;
    var v, ip := After(l, evicts, map[], events[..i]), events[i].ip;
    if ip in v {
      LastIsACall(l, evicts, events[..i], ip);
      var j :| 0 <= j < i && events[..i][j] == Call(ip, v[ip].last);
      assert events[j] == events[..i][j];
      AfterSane(l, evicts, map[], events[..i], events[0].at);
      EarnedBounds(l, events[i].at - v[ip].last);
    }
  }

  // ---- eviction ------------------------------------------------------------------

  // The sweeping limiter has forgotten only buckets that are full again.
  ghost predicate Forgets(l: Limits, swept: Visitors, kept: Visitors, now: real) {
    && (forall ip :: ip in swept ==> ip in kept && swept[ip] == kept[ip])
    && (forall ip :: ip in kept && ip !in swept ==> kept[ip].last + l.window <= now)
  }

  lemma {:induction false} ForgetsStep(l: Limits, swept: Visitors, kept: Visitors, e: Event, now: real)
    requires l.Valid() && l.window <= IDLE_CUTOFF && now <= e.at
    requires Sane(l, kept, now) && Forgets(l, swept, kept, now)
    ensures Forgets(l, Next(l, true, swept, e), Next(l, false, kept, e), e.at)
    ensures e.Call? ==> Admit(l, swept, e.ip, e.at).1 == Admit(l, kept, e.ip, e.at).1
  {
    hide Earned;
    if e.Call? && e.ip in kept {
      EarnedBounds(l, e.at - kept[e.ip].last);
    }
  }

  lemma {:induction false} ForgetsAlways(l: Limits, events: seq<Event>)
    requires l.Valid() && l.window <= IDLE_CUTOFF && Ordered(events)
    ensures |events| > 0 ==> var now := events[|events| - 1].at;
                             && Forgets(l, After(l, true, map[], events), After(l, false, map[], events), now)
                             && Sane(l, After(l, false, map[], events), now)
  {
    if |events| > 0 {
      var n := |events| - 1;
      ForgetsAlways(l, events[..n]);
      AfterSane(l, false, map[], events, events[0].at);
      var now := if n > 0 then events[n - 1].at else events[n].at;
      ForgetsStep(l, After(l, true, map[], events[..n]), After(l, false, map[], events[..n]), events[n], now);
    }
  }

  ghost predicate SameAnswers(l: Limits, events: seq<Event>)
    requires l.window > 0.0
  {
    forall i :: 0 <= i < |events| && events[i].Call? ==>
                  Admitted(l, true, map[], events, i) == Admitted(l, false, map[], events, i)
  }

  // Below the idle cutoff nobody can tell that idle buckets are dropped.
  lemma {:induction false} EvictionInvisible(l: Limits, events: seq<Event>)
    requires l.Valid() && l.window <= IDLE_CUTOFF && Ordered(events)
    ensures SameAnswers(l, events)
  {
    forall i | 0 <= i < |events| && events[i].Call?
      ensures Admitted(l, true, map[], events, i) == Admitted(l, false, map[], events, i)
    {
      ForgetsAlways(l, events[..i]);
      var now := if i > 0 then events[i - 1].at else events[i].at;
      ForgetsStep(l, After(l, true, map[], events[..i]), After(l, false, map[], events[..i]), events[i], now);
    }
  }

  // ---- above the cutoff: a drained bucket is forgotten and comes back full ------

  function Burst(n: nat, ip: string, at: real): seq<Event> {
    seq(n, i => Call(ip, at))
  }

  // n calls, one sweep while the bucket is idle but not yet full, and n calls more.
  function DrainSweepDrain(n: nat, sweep: real): seq<Event> {
    Burst(n, "a", 0.0) + [Sweep(sweep)] + Burst(n, "a", sweep)
  }

  lemma {:induction false} CallDrains(l: Limits, v: Visitors, ip: string, at: real)
    requires l.Valid() && Sane(l, v, at) && 1.0 <= Level(l, v, ip, at)
    ensures Admit(l, v, ip, at) == (v[ip := Bucket(Level(l, v, ip, at) - 1.0, at)], true)
    ensures Sane(l, Admit(l, v, ip, at).0, at)
    ensures Level(l, Admit(l, v, ip, at).0, ip, at) == Level(l, v, ip, at) - 1.0
  {
    hide Earned;
    LevelGrows(l, v, ip, at, at);
    EarnedBounds(l, 0.0);
  }

  // k calls at one instant on a bucket with at least k tokens are all let through.
  lemma {:induction false} BurstDrains(l: Limits, evicts: bool, v: Visitors, k: nat, ip: string, at: real)
    requires l.Valid() && Sane(l, v, at) && k as real <= Level(l, v, ip, at)
    ensures var u := After(l, evicts, v, Burst(k, ip, at));
            && Sane(l, u, at)
            && Level(l, u, ip, at) == Level(l, v, ip, at) - k as real
            && (k > 0 ==> ip in u && u[ip] == Bucket(Level(l, v, ip, at) - k as real, at))
    ensures Admissions(l, evicts, v, Burst(k, ip, at), ip) == k
  {
    hide Level, Admit, Sane;
    if k > 0 {
      BurstDrains(l, evicts, v, k - 1, ip, at);
      assert Burst(k, ip, at)[..k - 1] == Burst(k - 1, ip, at);
      CallDrains(l, After(l, evicts, v, Burst(k - 1, ip, at)), ip, at);
    }
  }

  lemma {:induction false} AfterConcat(l: Limits, evicts: bool, v: Visitors, xs: seq<Event>, ys: seq<Event>)
    requires l.window > 0.0
    ensures After(l, evicts, v, xs + ys) == After(l, evicts, After(l, evicts, v, xs), ys)
  {
    if |ys| == 0 {
      assert xs + ys == xs;
    } else {
      AfterConcat(l, evicts, v, xs, ys[..|ys| - 1]);
      assert (xs + ys)[..|xs + ys| - 1] == xs + ys[..|ys| - 1];
    }
  }

  lemma {:induction false} SameAnswersSoFar(l: Limits, events: seq<Event>, n: nat)
    requires l.Valid() && n <= |events| && SameAnswers(l, events)
    ensures SameAnswers(l, events[..n])
  {
    var front := events[..n];
    forall i | 0 <= i < |front| && front[i].Call?
      ensures Admitted(l, true, map[], front, i) == Admitted(l, false, map[], front, i)
    {
      assert front[..i] == events[..i] && events[i].Call?;
      assert Admitted(l, true, map[], events, i) == Admitted(l, false, map[], events, i);
    }
  }

  lemma {:induction false} NoAdmissions(l: Limits, evicts: bool, v: Visitors, ip: string)
    requires l.window > 0.0
    ensures Admissions(l, evicts, v, [], ip) == 0
  {
  }

  // The number of calls of ip the limiter lets through when e is the event after past.
  function Admission(l: Limits, evicts: bool, past: seq<Event>, e: Event, ip: string): nat
    requires l.window > 0.0
  {
    if e.Call? && e.ip == ip && Admit(l, After(l, evicts, map[], past), e.ip, e.at).1 then 1 else 0
  }

  lemma {:induction false} AdmissionsNext(l: Limits, evicts: bool, past: seq<Event>, front: seq<Event>, e: Event, ip: string)
    requires l.window > 0.0
    ensures Admissions(l, evicts, After(l, evicts, map[], past), front + [e], ip) ==
            Admissions(l, evicts, After(l, evicts, map[], past), front, ip) + Admission(l, evicts, past + front, e, ip)
  {
    hide Next, Admit;
    AfterConcat(l, evicts, map[], past, front);
    assert (front + [e])[..|front|] == front;
  }

  lemma {:induction false} SameAdmission(l: Limits, before: seq<Event>, e: Event, ip: string)
    requires l.Valid() && SameAnswers(l, before + [e])
    ensures Admission(l, true, before, e, ip) == Admission(l, false, before, e, ip)
    ensures SameAnswers(l, before)
  {
    var events := before + [e];
    assert events[..|before|] == before;
    SameAnswersSoFar(l, events, |before|);
    hide After, Admit;
    assert events[|before|] == e;
    if e.Call? {
      assert Admitted(l, true, map[], events, |before|) == Admitted(l, false, map[], events, |before|);
    }
  }

  // The admissions of a suffix, read off the answers of the whole run.
  lemma {:induction false} AnswersFixAdmissions(l: Limits, past: seq<Event>, rest: seq<Event>, ip: string)
    requires l.Valid() && SameAnswers(l, past + rest)
    ensures Admissions(l, true, After(l, true, map[], past), rest, ip) == Admissions(l, false, After(l, false, map[], past), rest, ip)
  {
    hide Admissions, After, SameAnswers, Admission;
    if |rest| == 0 {
      assert rest == [];
      NoAdmissions(l, true, After(l, true, map[], past), ip);
      NoAdmissions(l, false, After(l, false, map[], past), ip);
    } else {
      var front, e := rest[..|rest| - 1], rest[|rest| - 1];
      assert rest == front + [e];
      assert past + rest == past + front + [e];
      SameAdmission(l, past + front, e, ip);
      AdmissionsNext(l, true, past, front, e, ip);
      AdmissionsNext(l, false, past, front, e, ip);
      AnswersFixAdmissions(l, past, front, ip);
    }
  }

  lemma {:induction false} DrainSweepDrainOrdered(n: nat, sweep: real)
    requires sweep >= 0.0
    ensures Ordered(DrainSweepDrain(n, sweep))
    ensures forall i :: 0 <= i < |DrainSweepDrain(n, sweep)| ==> 0.0 <= DrainSweepDrain(n, sweep)[i].at <= sweep
  {
  }

  lemma {:induction false} SpanFromStart(events: seq<Event>, end: real)
    requires Ordered(events) && end >= 0.0 && forall i :: 0 <= i < |events| ==> 0.0 <= events[i].at <= end
    ensures InSpan([], events, 0.0, end)
  {
    assert [] + events == events;
  }

  lemma {:induction false} AdmissionsConcat(l: Limits, evicts: bool, v: Visitors, xs: seq<Event>, ys: seq<Event>, ip: string)
    requires l.window > 0.0
    ensures Admissions(l, evicts, v, xs + ys, ip) == Admissions(l, evicts, v, xs, ip) + Admissions(l, evicts, After(l, evicts, v, xs), ys, ip)
  {
    hide After, Admit;
    if |ys| == 0 {
      assert xs + ys == xs;
    } else {
      var front := ys[..|ys| - 1];
      AdmissionsConcat(l, evicts, v, xs, front, ip);
      AfterConcat(l, evicts, v, xs, front);
      assert (xs + ys)[..|xs + ys| - 1] == xs + front;
    }
  }

  // The drained bucket is forgotten by the sweep and lets a second burst through:
  // within less than a window, twice the allowed number of calls.
  lemma {:induction false} BothBurstsAdmitted(n: nat, window: real, sweep: real)
    requires n > 0 && IDLE_CUTOFF < sweep < window
    ensures Admissions(Limits(n as real, window), true, map[], DrainSweepDrain(n, sweep), "a") == 2 * n
  {
    var l := Limits(n as real, window);
    var first, second := Burst(n, "a", 0.0), Burst(n, "a", sweep);
    BurstDrains(l, true, map[], n, "a", 0.0);
    var v := After(l, true, map[], first);
    var past := first + [Sweep(sweep)];
    assert past[..n] == first;
    var swept := After(l, true, map[], past);
    assert swept == Swept(v, sweep) && "a" !in swept && Sane(l, swept, sweep);
    assert Admissions(l, true, map[], past, "a") == n;
    BurstDrains(l, true, swept, n, "a", sweep);
    hide Admissions, After;
    AdmissionsConcat(l, true, map[], past, second, "a");
  }

  lemma {:induction false} LessThanTwice(n: nat, window: real, sweep: real)
    requires n > 0 && 0.0 <= sweep < window
    ensures Allowance(Limits(n as real, window), sweep) < (2 * n) as real
  {
    var c := n as real;
    assert c * sweep < c * window;
    assert c * sweep / window < c;
  }

  // Events of a span of time, after those of the past
  ghost predicate InSpan(past: seq<Event>, span: seq<Event>, start: real, end: real) {
    && Ordered(past + span) && start <= end
    && (forall i :: 0 <= i < |past| ==> past[i].at <= start)
    && (forall i :: 0 <= i < |span| ==> start <= span[i].at <= end)
  }

  ghost predicate WithinAllowance(l: Limits, past: seq<Event>, span: seq<Event>, ip: string, start: real, end: real)
    requires l.window > 0.0
  {
    Admissions(l, true, After(l, true, map[], past), span, ip) as real <= Allowance(l, end - start)
  }

  ghost predicate KeepsRate(l: Limits)
    requires l.window > 0.0
  {
    forall past, span, ip, start, end :: InSpan(past, span, start, end) ==> WithinAllowance(l, past, span, ip, start, end)
  }

  // The limiter with its sweeps keeps to the configured rate, for every caller
  // and over every span of every run, exactly when a window fits in the cutoff.
  lemma {:induction false} AdmissionsBoundedIff(n: nat, window: real)
    requires n > 0 && window > 0.0
    ensures KeepsRate(Limits(n as real, window)) <==> window <= 900.0
  {
    var l := Limits(n as real, window);
    hide Admissions, After, Allowance;
    if window <= IDLE_CUTOFF {
      forall past, span, ip, start, end | InSpan(past, span, start, end)
        ensures WithinAllowance(l, past, span, ip, start, end)
      {
        AdmissionsBounded(l, true, past, span, ip, start, end);
      }
    } else {
      var sweep := (window + IDLE_CUTOFF) / 2.0;
      EvictionVisible(n, window, sweep);
      DrainSweepDrainOrdered(n, sweep);
      hide DrainSweepDrain;
      SpanFromStart(DrainSweepDrain(n, sweep), sweep);
      NothingYet(l);
      assert !WithinAllowance(l, [], DrainSweepDrain(n, sweep), "a", 0.0, sweep);
    }
  }

  lemma {:induction false} NothingYet(l: Limits)
    requires l.window > 0.0
    ensures After(l, true, map[], []) == map[]
  {
  }

  // Above the cutoff a sweep lets calls through that the rate does not allow, and
  // that the limiter would have refused without it.
  lemma {:induction false} EvictionVisible(n: nat, window: real, sweep: real)
    requires n > 0 && IDLE_CUTOFF < sweep < window
    ensures Admissions(Limits(n as real, window), true, map[], DrainSweepDrain(n, sweep), "a") as real >
            Allowance(Limits(n as real, window), sweep)
    ensures !SameAnswers(Limits(n as real, window), DrainSweepDrain(n, sweep))
  {
    var l, events := Limits(n as real, window), DrainSweepDrain(n, sweep);
    BothBurstsAdmitted(n, window, sweep);
    LessThanTwice(n, window, sweep);
    DrainSweepDrainOrdered(n, sweep);
    hide *;
    SpanFromStart(events, sweep);
    BoundedFromStart(l, events, "a", sweep);
    SameFromStart(l, events, "a");
  }

  lemma {:induction false} BoundedFromStart(l: Limits, events: seq<Event>, ip: string, end: real)
    requires l.capacity >= 1.0 && l.window > 0.0 && InSpan([], events, 0.0, end)
    ensures Admissions(l, false, map[], events, ip) as real <= Allowance(l, end)
  {
    hide Admissions, Allowance;
    assert After(l, false, map[], []) == map[];
    AdmissionsBounded(l, false, [], events, ip, 0.0, end);
  }

  lemma {:induction false} SameFromStart(l: Limits, events: seq<Event>, ip: string)
    requires l.capacity >= 1.0 && l.window > 0.0
    ensures SameAnswers(l, events) ==> Admissions(l, true, map[], events, ip) == Admissions(l, false, map[], events, ip)
  {
    hide Admissions, SameAnswers;
    assert After(l, false, map[], []) == map[] == After(l, true, map[], []);
    assert [] + events == events;
    if SameAnswers(l, events) {
      AnswersFixAdmissions(l, [], events, ip);
    }
  }

  // Eviction is invisible to every client over every run exactly when a whole
  // window fits in the idle cutoff: for N/s and N/m, but not for N/h.
  lemma {:induction false} EvictionInvisibleIff(n: nat, window: real)
    requires n > 0 && window > 0.0
    ensures (forall events :: Ordered(events) ==> SameAnswers(Limits(n as real, window), events)) <==> window <= 900.0
  {
    var l := Limits(n as real, window);
    if window <= IDLE_CUTOFF {
      forall events | Ordered(events)
        ensures SameAnswers(l, events)
      {
        EvictionInvisible(l, events);
      }
    } else {
      var sweep := (window + IDLE_CUTOFF) / 2.0;
      DrainSweepDrainOrdered(n, sweep);
      EvictionVisible(n, window, sweep);
    }
  }
}
