/** The two window limiters: the sliding log per address (src/scripts/rate-limit.middleware.ts) and the fixed window
    per key (src/ratelimit/ratelimit.service.ts). Times come from one monotone clock. */
module WindowLimits {
  import opened Common

  // ---------- Counting admissions in an interval ----------

  ghost predicate Sorted(s: seq<real>) {
    forall i, j :: 0 <= i < j < |s| ==> s[i] <= s[j]
  }

  /** The times later than `after`, as `filter` keeps them. */
  function Later(s: seq<real>, after: real): seq<real> {
    if s == [] then []
    else if s[0] > after then [s[0]] + Later(s[1..], after)
    else Later(s[1..], after)
  }

  /** How many of the times lie in the interval from `from` (excluded) to `until` (included). */
  function Within(s: seq<real>, from: real, until: real): nat {
    if s == [] then 0 else (if from < s[0] <= until then 1 else 0) + Within(s[1..], from, until)
  }

  lemma {:induction false} LaterAppend(s: seq<real>, x: real, after: real)
    ensures Later(s + [x], after) == Later(s, after) + if x > after then [x] else []
  {
    if s != [] {
      assert (s + [x])[1..] == s[1..] + [x];
      LaterAppend(s[1..], x, after);
    }
  }

  /** Filtering with an older bound first changes nothing. */
  lemma {:induction false} LaterTwice(s: seq<real>, older: real, after: real)
    requires older <= after
    ensures Later(Later(s, older), after) == Later(s, after)
  {
    if s != [] {
      LaterTwice(s[1..], older, after);
      if s[0] > older {
        assert Later(s, older)[1..] == Later(s[1..], older);
      }
    }
  }

  lemma {:induction false} WithinAppend(s: seq<real>, x: real, from: real, until: real)
    ensures Within(s + [x], from, until) == Within(s, from, until) + if from < x <= until then 1 else 0
  {
    if s != [] {
      assert (s + [x])[1..] == s[1..] + [x];
      WithinAppend(s[1..], x, from, until);
    }
  }

  lemma {:induction false} WithinCountsLater(s: seq<real>, from: real, until: real)
    requires forall i :: 0 <= i < |s| ==> s[i] <= until
    ensures Within(s, from, until) == |Later(s, from)|
  {
    if s != [] {
      WithinCountsLater(s[1..], from, until);
    }
  }

  lemma {:induction false} WithinShrinks(s: seq<real>, from: real, from': real, until: real, until': real)
    requires from <= from'
    requires forall i :: 0 <= i < |s| ==> s[i] <= until
    ensures Within(s, from', until') <= Within(s, from, until)
  {
    if s != [] {
      WithinShrinks(s[1..], from, from', until, until');
    }
  }

  // ---------- The sliding log ----------

  /** The decision the middleware makes on the full history of admissions. */
  predicate SlidingAdmits(history: seq<real>, now: real, limit: nat, window: real) {
    |Later(history, now - window)| < limit
  }

  function SlidingStep(history: seq<real>, now: real, limit: nat, window: real): seq<real> {
    if SlidingAdmits(history, now, limit, window) then history + [now] else history
  }

  function SlidingRun(times: seq<real>, limit: nat, window: real): seq<real> {
    if times == [] then []
    else SlidingStep(SlidingRun(times[..|times| - 1], limit, window), times[|times| - 1], limit, window)
  }

  lemma {:induction false} SlidingRunBounded(times: seq<real>, limit: nat, window: real, last: real)
    requires forall i :: 0 <= i < |times| ==> times[i] <= last
    ensures forall i :: 0 <= i < |SlidingRun(times, limit, window)| ==> SlidingRun(times, limit, window)[i] <= last
  {
    if times != [] {
      SlidingRunBounded(times[..|times| - 1], limit, window, last);
    }
  }

  /** One more request keeps the bound on the window that ends at `t`. */
  lemma SlidingStepBound(h: seq<real>, x: real, limit: nat, window: real, t: real)
    requires (forall i :: 0 <= i < |h| ==> h[i] <= x) && Within(h, t - window, t) <= limit
    ensures Within(SlidingStep(h, x, limit, window), t - window, t) <= limit
  {
    WithinAppend(h, x, t - window, t);
    if t - window < x <= t {
      WithinCountsLater(h, x - window, x);
      WithinShrinks(h, x - window, t - window, x, t);
    }
  }

  /** In every window of the configured length, wherever it lies, at most `limit` requests were admitted. */
  lemma {:induction false} SlidingWindowBound(times: seq<real>, limit: nat, window: real, t: real)
    requires Sorted(times)
    ensures Within(SlidingRun(times, limit, window), t - window, t) <= limit
  {
    if times != [] {
      var before := times[..|times| - 1];
      var x := times[|times| - 1];
      SlidingWindowBound(before, limit, window, t);
      SlidingRunBounded(before, limit, window, x);
      SlidingStepBound(SlidingRun(before, limit, window), x, limit, window, t);
    }
  }

  predicate BoundedAt(h: seq<real>, limit: nat, window: real, t: real) { Within(h, t - window, t) <= limit }

  /** A history up to `last` that never exceeded the limit. */
  ghost predicate Bounded(h: seq<real>, limit: nat, window: real, last: real) {
    && (forall i :: 0 <= i < |h| ==> h[i] <= last)
    && forall t :: BoundedAt(h, limit, window, t)
  }

  lemma BoundedStep(h: seq<real>, limit: nat, window: real, last: real, now: real)
    requires Bounded(h, limit, window, last) && last <= now
    ensures Bounded(h, limit, window, now) && Bounded(SlidingStep(h, now, limit, window), limit, window, now)
  {
    forall t ensures BoundedAt(SlidingStep(h, now, limit, window), limit, window, t) {
      assert BoundedAt(h, limit, window, t);
      SlidingStepBound(h, now, limit, window, t);
    }
  }

  /** At time `t` the two records lead to the same decision. */
  predicate SameAt(a: seq<real>, b: seq<real>, t: real, window: real) {
    Later(a, t - window) == Later(b, t - window)
  }

  /** From `now` on the two records cannot be told apart. */
  ghost predicate Same(a: seq<real>, b: seq<real>, now: real, window: real) {
    forall t {:trigger SameAt(a, b, t, window)} :: now <= t ==> SameAt(a, b, t, window)
  }

  lemma SameWhenForgotten(a: seq<real>, b: seq<real>, since: real, now: real, window: real)
    requires Same(a, b, since, window) && since <= now
    ensures Same(a, b, now, window) && Same(Later(a, now - window), b, now, window)
  {
    var recent := Later(a, now - window);
    forall t | now <= t ensures SameAt(recent, b, t, window) {
      assert SameAt(a, b, t, window);
      LaterTwice(a, now - window, t - window);
    }
  }

  lemma SameWhenExtended(a: seq<real>, b: seq<real>, now: real, window: real)
    requires Same(a, b, now, window)
    ensures Same(a + [now], b + [now], now, window)
  {
    var a', b' := a + [now], b + [now];
    forall t | now <= t ensures SameAt(a', b', t, window) {
      assert SameAt(a, b, t, window);
      LaterAppend(a, now, t - window);
      LaterAppend(b, now, t - window);
    }
  }

  type Address = string

  function Times(m: map<Address, seq<real>>, ip: Address): seq<real> {
    if ip in m then m[ip] else []
  }

  /** From `now` on, table and history cannot be told apart for any address. */
  ghost predicate AllSame(table: map<Address, seq<real>>, history: map<Address, seq<real>>, now: real, window: real) {
    forall ip :: Same(Times(table, ip), Times(history, ip), now, window)
  }

  lemma AllSameLater(table: map<Address, seq<real>>, history: map<Address, seq<real>>, since: real, now: real, window: real)
    requires AllSame(table, history, since, window) && since <= now
    ensures AllSame(table, history, now, window)
  {
    forall ip ensures Same(Times(table, ip), Times(history, ip), now, window) {
      SameWhenForgotten(Times(table, ip), Times(history, ip), since, now, window);
    }
  }

  lemma AllSamePut(table: map<Address, seq<real>>, history: map<Address, seq<real>>, ip: Address, a: seq<real>, b: seq<real>, now: real, window: real)
    requires AllSame(table, history, now, window) && Same(a, b, now, window)
    ensures AllSame(table[ip := a], history[ip := b], now, window)
  {
    var table', history' := table[ip := a], history[ip := b];
    forall other ensures Same(Times(table', other), Times(history', other), now, window) {
      if other != ip {
        assert Times(table', other) == Times(table, other) && Times(history', other) == Times(history, other);
      }
    }
  }

  lemma AllSameForget(table: map<Address, seq<real>>, history: map<Address, seq<real>>, ip: Address, now: real, window: real)
    requires AllSame(table, history, now, window) && ip in table
    ensures AllSame(table[ip := Later(table[ip], now - window)], history, now, window)
    ensures Later(table[ip], now - window) == [] ==> AllSame(table - {ip}, history, now, window)
  {
    var recent := Later(table[ip], now - window);
    SameWhenForgotten(Times(table, ip), Times(history, ip), now, now, window);
    var kept, dropped := table[ip := recent], table - {ip};
    forall other ensures Same(Times(kept, other), Times(history, other), now, window) {
      if other != ip {
        assert Times(kept, other) == Times(table, other);
      }
    }
    if recent == [] {
      forall other ensures Same(Times(dropped, other), Times(history, other), now, window) {
        assert Times(dropped, other) == Times(kept, other);
      }
    }
  }

  predicate TrimmedAt(before: map<Address, seq<real>>, after: map<Address, seq<real>>, bound: real, ip: Address)
    requires ip in before
  {
    var active := Later(before[ip], bound);
    if active == [] then ip !in after else ip in after && after[ip] == active
  }

  /** Outside `rest` only the times later than `bound` are left, and no address is left without any. */
  ghost predicate Trimmed(before: map<Address, seq<real>>, after: map<Address, seq<real>>, bound: real, rest: set<Address>) {
    && after.Keys <= before.Keys
    && (forall ip :: ip in before && ip !in rest ==> TrimmedAt(before, after, bound, ip))
    && (forall ip :: ip in before && ip in rest ==> ip in after && after[ip] == before[ip])
  }

  lemma TrimOneMore(before: map<Address, seq<real>>, after: map<Address, seq<real>>, bound: real, rest: set<Address>, ip: Address)
    requires Trimmed(before, after, bound, rest) && ip in rest && ip in after
    ensures Later(after[ip], bound) == [] ==> Trimmed(before, after - {ip}, bound, rest - {ip})
    ensures Later(after[ip], bound) != [] ==> Trimmed(before, after[ip := Later(after[ip], bound)], bound, rest - {ip})
  {
    var gone, kept := after - {ip}, after[ip := Later(after[ip], bound)];
    forall other | other in before && other !in rest ensures TrimmedAt(before, gone, bound, other) && TrimmedAt(before, kept, bound, other) {
      assert TrimmedAt(before, after, bound, other);
    }
  }

  /** No address was ever admitted more than `limit` times in a window. */
  ghost predicate AllBounded(history: map<Address, seq<real>>, limit: nat, window: real, last: real) {
    forall ip :: Bounded(Times(history, ip), limit, window, last)
  }

  lemma AllBoundedLater(history: map<Address, seq<real>>, limit: nat, window: real, last: real, now: real)
    requires AllBounded(history, limit, window, last) && last <= now
    ensures AllBounded(history, limit, window, now)
  {
    forall ip ensures Bounded(Times(history, ip), limit, window, now) {
      BoundedStep(Times(history, ip), limit, window, last, now);
    }
  }

  /** A request is refused exactly when its window already holds `limit` admissions. */
  lemma SlidingRefusesIff(h: seq<real>, now: real, limit: nat, window: real)
    requires Bounded(h, limit, window, now)
    ensures SlidingAdmits(h, now, limit, window) <==> Within(h, now - window, now) < limit
    ensures !SlidingAdmits(h, now, limit, window) ==> Within(h, now - window, now) == limit
  {
    WithinCountsLater(h, now - window, now);
    assert BoundedAt(h, limit, window, now);
  }

  lemma AllBoundedPut(history: map<Address, seq<real>>, ip: Address, limit: nat, window: real, now: real)
    requires AllBounded(history, limit, window, now) && SlidingAdmits(Times(history, ip), now, limit, window)
    ensures AllBounded(history[ip := Times(history, ip) + [now]], limit, window, now)
  {
    var after := history[ip := Times(history, ip) + [now]];
    BoundedStep(Times(history, ip), limit, window, now, now);
    forall other ensures Bounded(Times(after, other), limit, window, now) {
      assert other != ip ==> Times(after, other) == Times(history, other);
    }
  }

  class RateLimitMiddleware {
    const limit: nat
    const window: real
    /** Size of the table above which a request cleans it up. */
    const crowd: nat
    var requests: map<Address, seq<real>>
    /** Every admission so far; nothing is ever removed from it. */
    ghost var history: map<Address, seq<real>>
    ghost var clock: real

    constructor (limit: nat, window: real, crowd: nat)
      ensures this.limit == limit && this.window == window
      ensures Valid() && history == map[]
    {
      this.limit, this.window, this.crowd := limit, window, crowd;
      requests, history, clock := map[], map[], 0.0;
    }

    ghost predicate Valid()
      reads this
    {
      AllSame(requests, history, clock, window) && AllBounded(history, limit, window, clock)
    }

    /** One request: it is decided on the full history, whatever was forgotten in between. */
    method Use(ip: Address, now: real) returns (admitted: bool)
      requires Valid() && clock <= now
      modifies this
      ensures Valid() && clock == now
      ensures admitted == SlidingAdmits(Times(old(history), ip), now, limit, window)
      ensures admitted <==> Within(Times(old(history), ip), now - window, now) < limit
      ensures !admitted ==> Within(Times(old(history), ip), now - window, now) == limit
      ensures Times(history, ip) == SlidingStep(Times(old(history), ip), now, limit, window)
      ensures forall other :: other != ip ==> Times(history, other) == Times(old(history), other)
    {
      AllSameLater(requests, history, clock, now, window);
      AllBoundedLater(history, limit, window, clock, now);
      clock := now;
      var timestamps := if ip in requests then requests[ip] else [];
      var active := Later(timestamps, now - window);
      ghost var past := Times(history, ip);
      SlidingRefusesIff(past, now, limit, window);
      assert Same(timestamps, past, now, window) by {
        assert Same(Times(requests, ip), past, now, window);
      }
      assert SameAt(timestamps, past, now, window);
      if |active| >= limit {
        return false;
      }
      SameWhenForgotten(timestamps, past, now, now, window);
      SameWhenExtended(active, past, now, window);
      AllSamePut(requests, history, ip, active + [now], past + [now], now, window);
      AllBoundedPut(history, ip, limit, window, now);
      history := history[ip := past + [now]];
      requests := requests[ip := active + [now]];
      if |requests| > crowd {
        Cleanup(now);
      }
      admitted := true;
    }

    /** Forgets exactly what is too old; no later decision changes. */
    method Cleanup(now: real)
      requires Valid() && clock == now
      modifies this`requests
      ensures Valid()
      ensures Trimmed(old(requests), requests, now - window, {})
    {
      var rest := requests.Keys;
      while rest != {}
        invariant rest <= requests.Keys
        invariant Valid() && Trimmed(old(requests), requests, now - window, rest)
        decreases rest
      {
        var ip :| ip in rest;
        TrimOneMore(old(requests), requests, now - window, rest, ip);
        AllSameForget(requests, history, ip, now, window);
        var active := Later(requests[ip], now - window);
        if |active| == 0 {
          requests := requests - {ip};
        } else {
          requests := requests[ip := active];
        }
        rest := rest - {ip};
      }
    }
  }

  // ---------- The fixed window ----------

  /** Requests of one key: `count` so far in the window that ends at `reset`. */
  datatype Record = Record(count: nat, reset: real)

  /** The record a request is counted in: a missing or ended one is replaced. */
  function Current(r: Option<Record>, now: real, window: real): Record {
    if r.None? || r.value.reset <= now then Record(0, now + window) else r.value
  }

  function Counted(r: Option<Record>, now: real, window: real): Record {
    var c := Current(r, now, window);
    c.(count := c.count + 1)
  }

  /** An admission, with the end of the window it was counted in. */
  datatype Admission = Admission(at: real, reset: real)

  function Extended(s: seq<Admission>, c: Record, at: real, limit: nat): seq<Admission> {
    if c.count <= limit then s + [Admission(at, c.reset)] else s
  }

  /** The admissions of one key and its record after requests at the given times. */
  function FixedRun(times: seq<real>, limit: nat, window: real): (seq<Admission>, Option<Record>) {
    if times == [] then ([], None)
    else
      var (past, r) := FixedRun(times[..|times| - 1], limit, window);
      var now := times[|times| - 1];
      var c := Counted(r, now, window);
      (Extended(past, c, now, limit), Some(c))
  }

  function InWindow(s: seq<Admission>, reset: real): nat {
    if s == [] then 0 else (if s[|s| - 1].reset == reset then 1 else 0) + InWindow(s[..|s| - 1], reset)
  }

  /** Admissions in the half-open interval of length `window` that starts at `from`. */
  function Between(s: seq<Admission>, from: real, until: real): nat {
    if s == [] then 0 else (if from <= s[|s| - 1].at < until then 1 else 0) + Between(s[..|s| - 1], from, until)
  }

  /** Every admission lies in its window, and windows do not overlap. */
  ghost predicate Windows(s: seq<Admission>, window: real) {
    && (forall i :: 0 <= i < |s| ==> s[i].reset - window <= s[i].at < s[i].reset)
    && (forall i, j :: 0 <= i < j < |s| ==> s[i].at <= s[j].at && (s[i].reset == s[j].reset || s[i].reset <= s[j].reset - window))
  }

  /** The record describes the latest window; earlier ones ended before it began. */
  ghost predicate Latest(s: seq<Admission>, r: Option<Record>, last: real, window: real) {
    && (r.Some? ==> last < r.value.reset <= last + window)
    && (forall i :: 0 <= i < |s| ==> s[i].at <= last && r.Some? && (s[i].reset == r.value.reset || s[i].reset <= r.value.reset - window))
  }

  function MinNat(a: nat, b: nat): nat { if a <= b then a else b }

  /** Each window admits at most the limit, and the latest one as many of its requests as the limit allows. */
  ghost predicate Quota(s: seq<Admission>, r: Option<Record>, limit: nat) {
    && (r.Some? ==> InWindow(s, r.value.reset) == MinNat(r.value.count, limit))
    && (forall reset :: InWindow(s, reset) <= limit)
  }

  ghost predicate FixedInv(s: seq<Admission>, r: Option<Record>, last: real, limit: nat, window: real) {
    Windows(s, window) && Latest(s, r, last, window) && Quota(s, r, limit)
  }

  lemma {:induction false} InWindowNone(s: seq<Admission>, reset: real)
    requires forall i :: 0 <= i < |s| ==> s[i].reset != reset
    ensures InWindow(s, reset) == 0
  {
    if s != [] {
      InWindowNone(s[..|s| - 1], reset);
    }
  }

  /** The window a request is counted in is the last one or starts after it. */
  lemma CurrentWindow(r: Option<Record>, last: real, now: real, window: real)
    requires window > 0.0 && last <= now
    requires r.Some? ==> last < r.value.reset <= last + window
    ensures
      var c := Counted(r, now, window);
      && now < c.reset <= now + window
      && (r.Some? ==> c == r.value.(count := r.value.count + 1) || (c.count == 1 && r.value.reset <= c.reset - window))
      && (r.None? ==> c.count == 1)
  {
  }

  lemma AdmitKeepsWindows(s: seq<Admission>, last: real, now: real, reset: real, window: real)
    requires Windows(s, window) && last <= now < reset <= now + window
    requires forall i :: 0 <= i < |s| ==> s[i].at <= last && (s[i].reset == reset || s[i].reset <= reset - window)
    ensures Windows(s + [Admission(now, reset)], window)
  {
  }

  lemma InWindowAppend(s: seq<Admission>, a: Admission, reset: real)
    ensures InWindow(s + [a], reset) == InWindow(s, reset) + if a.reset == reset then 1 else 0
  {
    assert (s + [a])[..|s|] == s;
  }

  lemma QuotaKept(s: seq<Admission>, r: Option<Record>, c: Record, at: real, limit: nat)
    requires Quota(s, r, limit) && c.count >= 1 && InWindow(s, c.reset) == MinNat(c.count - 1, limit)
    ensures Quota(Extended(s, c, at, limit), Some(c), limit)
  {
    var a := Admission(at, c.reset);
    forall reset ensures InWindow(s + [a], reset) == InWindow(s, reset) + if c.reset == reset then 1 else 0 {
      InWindowAppend(s, a, reset);
    }
  }

  lemma LatestKept(s: seq<Admission>, r: Option<Record>, c: Record, last: real, now: real, limit: nat, window: real)
    requires Latest(s, r, last, window) && last <= now < c.reset <= now + window
    requires r.Some? ==> r.value.reset == c.reset || r.value.reset <= c.reset - window
    requires window > 0.0
    ensures Latest(Extended(s, c, now, limit), Some(c), now, window)
  {
    var s' := Extended(s, c, now, limit);
    forall i | 0 <= i < |s'| ensures s'[i].at <= now && (s'[i].reset == c.reset || s'[i].reset <= c.reset - window) {
      if i < |s| {
        assert s'[i] == s[i];
      }
    }
  }

  lemma FixedStepKeepsInv(s: seq<Admission>, r: Option<Record>, last: real, now: real, limit: nat, window: real)
    requires window > 0.0 && last <= now && FixedInv(s, r, last, limit, window)
    ensures
      var c := Counted(r, now, window);
      FixedInv(Extended(s, c, now, limit), Some(c), now, limit, window)
  {
    var c := Counted(r, now, window);
    CurrentWindow(r, last, now, window);
    CountedBefore(s, r, last, now, limit, window);
    QuotaKept(s, r, c, now, limit);
    LatestKept(s, r, c, last, now, limit, window);
    if c.count <= limit {
      AdmitKeepsWindows(s, last, now, c.reset, window);
    }
  }

  lemma {:induction false} FixedRunKeepsInv(times: seq<real>, limit: nat, window: real)
    requires window > 0.0 && Sorted(times) && times != []
    ensures FixedInv(FixedRun(times, limit, window).0, FixedRun(times, limit, window).1, times[|times| - 1], limit, window)
  {
    var before := times[..|times| - 1];
    var now := times[|times| - 1];
    if before == [] {
      FixedStepKeepsInv([], None, now, now, limit, window);
    } else {
      FixedRunKeepsInv(before, limit, window);
      var (past, r) := FixedRun(before, limit, window);
      FixedStepKeepsInv(past, r, before[|before| - 1], now, limit, window);
    }
  }

  /** An interval no longer than a window meets at most two windows. */
  lemma {:induction false} BetweenTwoWindows(s: seq<Admission>, from: real, until: real, window: real, a: real, b: real)
    requires forall i :: 0 <= i < |s| && from <= s[i].at < until ==> s[i].reset == a || s[i].reset == b
    ensures Between(s, from, until) <= InWindow(s, a) + InWindow(s, b)
  {
    if s != [] {
      BetweenTwoWindows(s[..|s| - 1], from, until, window, a, b);
    }
  }

  /** The windows of the first and the last admission in the interval are the only ones it meets. */
  lemma MeetsTwoWindows(s: seq<Admission>, from: real, window: real) returns (a: real, b: real)
    requires Windows(s, window)
    ensures forall i :: 0 <= i < |s| && from <= s[i].at < from + window ==> s[i].reset == a || s[i].reset == b
  {
    a, b := 0.0, 0.0;
    if i :| 0 <= i < |s| && from <= s[i].at < from + window {
      a, b := s[i].reset, s[i].reset;
      if j :| 0 <= j < |s| && from <= s[j].at < from + window && s[j].reset != a {
        b := s[j].reset;
        forall k | 0 <= k < |s| && from <= s[k].at < from + window ensures s[k].reset == a || s[k].reset == b {
          if s[k].reset != a && s[k].reset != b {
            ThreeWindows(s, window, i, j, k);
          }
        }
      }
    }
  }

  /** Admissions of three different windows are more than a window apart. */
  lemma ThreeWindows(s: seq<Admission>, window: real, i: nat, j: nat, k: nat)
    requires Windows(s, window) && i < |s| && j < |s| && k < |s|
    requires s[i].reset != s[j].reset && s[j].reset != s[k].reset && s[i].reset != s[k].reset
    ensures exists x, y :: x in {i, j, k} && y in {i, j, k} && s[y].at - s[x].at >= window
  {
    var lo := if s[i].reset <= s[j].reset && s[i].reset <= s[k].reset then i else if s[j].reset <= s[k].reset then j else k;
    var hi := if s[i].reset >= s[j].reset && s[i].reset >= s[k].reset then i else if s[j].reset >= s[k].reset then j else k;
    assert s[hi].at - s[lo].at >= window;
  }

  /** The fixed window admits at most `limit` requests per window and at most twice that in any interval of that
      length. */
  lemma FixedWindowBound(times: seq<real>, limit: nat, window: real, from: real)
    requires window > 0.0 && Sorted(times)
    ensures forall reset :: InWindow(FixedRun(times, limit, window).0, reset) <= limit
    ensures Between(FixedRun(times, limit, window).0, from, from + window) <= 2 * limit
  {
    if times != [] {
      FixedRunKeepsInv(times, limit, window);
      var (s, r) := FixedRun(times, limit, window);
      FixedInvBound(s, r, times[|times| - 1], limit, window, from);
    }
  }

  /** A request is refused exactly when its window has already admitted the limit. */
  lemma FixedRefusesIff(times: seq<real>, limit: nat, window: real, now: real)
    requires window > 0.0 && Sorted(times + [now])
    ensures
      var (past, r) := FixedRun(times, limit, window);
      var c := Counted(r, now, window);
      c.count > limit <==> InWindow(past, c.reset) == limit
  {
    var (past, r) := FixedRun(times, limit, window);
    var c := Counted(r, now, window);
    if times != [] {
      assert (times + [now])[..|times|] == times;
      var last := times[|times| - 1];
      assert (times + [now])[|times| - 1] == last && (times + [now])[|times|] == now;
      SortedPrefix(times, now);
      FixedRunKeepsInv(times, limit, window);
      CountedBefore(past, r, last, now, limit, window);
    }
  }

  lemma SortedPrefix(times: seq<real>, now: real)
    requires Sorted(times + [now])
    ensures Sorted(times)
  {
    var s := times + [now];
    forall i, j | 0 <= i < j < |times| ensures times[i] <= times[j] {
      assert s[i] <= s[j];
    }
  }

  /** Before a request is counted, its window has admitted as many earlier ones as the limit allows. */
  lemma CountedBefore(s: seq<Admission>, r: Option<Record>, last: real, now: real, limit: nat, window: real)
    requires window > 0.0 && last <= now && FixedInv(s, r, last, limit, window)
    ensures
      var c := Counted(r, now, window);
      c.count >= 1 && InWindow(s, c.reset) == MinNat(c.count - 1, limit)
  {
    var c := Counted(r, now, window);
    CurrentWindow(r, last, now, window);
    if !(r.Some? && c.reset == r.value.reset) {
      InWindowNone(s, c.reset);
    }
  }

  function RecordOf(store: map<string, Record>, key: string): Option<Record> {
    if key in store then Some(store[key]) else None
  }

  /** What one key has been admitted, the record it was counted in, and when it last asked. */
  datatype Trace = Trace(past: seq<Admission>, record: Option<Record>, last: real)

  function TraceOf(traces: map<string, Trace>, key: string): Trace {
    if key in traces then traces[key] else Trace([], None, 0.0)
  }

  /** The stored record is the one of the trace, or it has ended and was cleaned up. */
  predicate Agrees(stored: Option<Record>, record: Option<Record>, clock: real) {
    stored == record || (stored.None? && record.Some? && record.value.reset <= clock)
  }

  ghost predicate TraceOk(t: Trace, stored: Option<Record>, limit: nat, window: real, clock: real) {
    FixedInv(t.past, t.record, t.last, limit, window) && (t.record.Some? ==> t.last <= clock) && Agrees(stored, t.record, clock)
  }

  function Cleaned(stored: Option<Record>, now: real): Option<Record> {
    if stored.Some? && stored.value.reset <= now then None else stored
  }

  lemma TraceLater(t: Trace, stored: Option<Record>, limit: nat, window: real, clock: real, now: real)
    requires TraceOk(t, stored, limit, window, clock) && clock <= now
    ensures TraceOk(t, Cleaned(stored, now), limit, window, now)
  {
  }

  lemma TraceStep(t: Trace, stored: Option<Record>, limit: nat, window: real, now: real)
    requires TraceOk(t, stored, limit, window, now) && window > 0.0
    ensures
      var c := Counted(stored, now, window);
      TraceOk(Trace(Extended(t.past, c, now, limit), Some(c), now), Some(c), limit, window, now)
  {
    assert Counted(stored, now, window) == Counted(t.record, now, window);
    FixedStepKeepsInv(t.past, t.record, if t.record.Some? then t.last else now, now, limit, window);
  }

  /** What the invariant says about admissions: the limit per window, twice the limit in any interval of that length. */
  lemma FixedInvBound(s: seq<Admission>, r: Option<Record>, last: real, limit: nat, window: real, from: real)
    requires FixedInv(s, r, last, limit, window)
    ensures (forall reset :: InWindow(s, reset) <= limit) && Between(s, from, from + window) <= 2 * limit
  {
    var a, b := MeetsTwoWindows(s, from, window);
    BetweenTwoWindows(s, from, from + window, window, a, b);
  }

  ghost predicate AllTraced(store: map<string, Record>, traces: map<string, Trace>, limitOf: string -> nat,
                            windowOf: string -> real, clock: real) {
    forall key :: windowOf(key) > 0.0 && TraceOk(TraceOf(traces, key), RecordOf(store, key), limitOf(key), windowOf(key), clock)
  }

  lemma AllTracedClean(store: map<string, Record>, cleaned: map<string, Record>, traces: map<string, Trace>,
                       limitOf: string -> nat, windowOf: string -> real, clock: real, now: real)
    requires AllTraced(store, traces, limitOf, windowOf, clock) && clock <= now
    requires forall key :: RecordOf(cleaned, key) == Cleaned(RecordOf(store, key), now)
    ensures AllTraced(cleaned, traces, limitOf, windowOf, now)
  {
    forall key ensures TraceOk(TraceOf(traces, key), RecordOf(cleaned, key), limitOf(key), windowOf(key), now) {
      TraceLater(TraceOf(traces, key), RecordOf(store, key), limitOf(key), windowOf(key), clock, now);
    }
  }

  lemma AllTracedPut(store: map<string, Record>, traces: map<string, Trace>, limitOf: string -> nat,
                     windowOf: string -> real, key: string, now: real)
    requires AllTraced(store, traces, limitOf, windowOf, now)
    ensures
      var c := Counted(RecordOf(store, key), now, windowOf(key));
      var t := Trace(Extended(TraceOf(traces, key).past, c, now, limitOf(key)), Some(c), now);
      AllTraced(store[key := c], traces[key := t], limitOf, windowOf, now)
  {
    var c := Counted(RecordOf(store, key), now, windowOf(key));
    var t := Trace(Extended(TraceOf(traces, key).past, c, now, limitOf(key)), Some(c), now);
    TraceStep(TraceOf(traces, key), RecordOf(store, key), limitOf(key), windowOf(key), now);
    var store', traces' := store[key := c], traces[key := t];
    forall k ensures TraceOk(TraceOf(traces', k), RecordOf(store', k), limitOf(k), windowOf(k), now) {
      assert k != key ==> TraceOf(traces', k) == TraceOf(traces, k) && RecordOf(store', k) == RecordOf(store, k);
    }
  }

  predicate SameLater(a: Option<Record>, b: Option<Record>, t: real, w: real) { Current(a, t, w) == Current(b, t, w) }

  /** Every later request of another key is counted in the same record. */
  ghost predicate OthersUnaffected(before: map<string, Record>, after: map<string, Record>, key: string, now: real) {
    forall other, t, w :: other != key && now <= t ==> SameLater(RecordOf(after, other), RecordOf(before, other), t, w)
  }

  /** A cleanup and a request of `key` go unnoticed by the others, and the cleanup by `key` too. */
  lemma CleanupUnnoticed(before: map<string, Record>, cleaned: map<string, Record>, key: string, now: real, window: real)
    requires forall k :: RecordOf(cleaned, k) == Cleaned(RecordOf(before, k), now)
    ensures Counted(RecordOf(cleaned, key), now, window) == Counted(RecordOf(before, key), now, window)
    ensures OthersUnaffected(before, cleaned[key := Counted(RecordOf(before, key), now, window)], key, now)
  {
    var after := cleaned[key := Counted(RecordOf(before, key), now, window)];
    forall other, t, w | other != key && now <= t ensures SameLater(RecordOf(after, other), RecordOf(before, other), t, w) {
      assert RecordOf(after, other) == RecordOf(cleaned, other);
    }
  }

  class RateLimitService {
    /** The limit and the window of a key: its endpoint's configuration, times the multiplier of its role. */
    const limitOf: string -> nat
    const windowOf: string -> real
    var store: map<string, Record>
    ghost var traces: map<string, Trace>
    ghost var clock: real

    constructor (limitOf: string -> nat, windowOf: string -> real)
      requires forall key :: windowOf(key) > 0.0
      ensures this.limitOf == limitOf && this.windowOf == windowOf
      ensures Valid() && store == map[] && traces == map[]
    {
      this.limitOf, this.windowOf := limitOf, windowOf;
      store, traces, clock := map[], map[], 0.0;
    }

    ghost predicate Valid()
      reads this
    {
      AllTraced(store, traces, limitOf, windowOf, clock)
    }

    /** Counts one request of `key` in the window it falls into, and admits it within the limit. Cleaning up first does
        not change which record it is counted in, and changes no later request of any other key. */
    method CheckRateLimit(key: string, now: real) returns (allowed: bool)
      requires Valid() && clock <= now
      modifies this
      ensures Valid() && clock == now
      ensures key in store && store[key] == Counted(RecordOf(old(store), key), now, windowOf(key))
      ensures store[key] ==
        if key in old(store) && now < old(store)[key].reset then Record(old(store)[key].count + 1, old(store)[key].reset)
        else Record(1, now + windowOf(key))
      ensures allowed <==> store[key].count <= limitOf(key)
      ensures traces == old(traces)[key := TraceOf(traces, key)]
      ensures TraceOf(traces, key).past ==
        TraceOf(old(traces), key).past + if allowed then [Admission(now, store[key].reset)] else []
      ensures OthersUnaffected(old(store), store, key, now)
    {
      CleanupExpiredRecords(now);
      AllTracedClean(old(store), store, traces, limitOf, windowOf, clock, now);
      AllTracedPut(store, traces, limitOf, windowOf, key, now);
      CleanupUnnoticed(old(store), store, key, now, windowOf(key));
      ghost var past := TraceOf(traces, key).past;
      var record := CountRequest(key, now);
      allowed := record.count <= limitOf(key);
      traces := traces[key := Trace(Extended(past, record, now, limitOf(key)), Some(record), now)];
      clock := now;
    }

    /** Counts the request in a current record, or in a new one. */
    method CountRequest(key: string, now: real) returns (record: Record)
      modifies this`store
      ensures record == Counted(RecordOf(old(store), key), now, windowOf(key))
      ensures store == old(store)[key := record]
    {
      record := Record(0, now + windowOf(key));
      if key in store && store[key].reset > now {
        record := store[key];
      }
      record := record.(count := record.count + 1);
      store := store[key := record];
    }

    /** At any moment every key has been admitted at most its limit per window, and at most twice that in any interval of
        that length. */
    lemma AdmissionsBounded(key: string, from: real)
      requires Valid()
      ensures
        var past := TraceOf(traces, key).past;
        && (forall reset :: InWindow(past, reset) <= limitOf(key))
        && Between(past, from, from + windowOf(key)) <= 2 * limitOf(key)
    {
      var t := TraceOf(traces, key);
      assert TraceOk(t, RecordOf(store, key), limitOf(key), windowOf(key), clock);
      FixedInvBound(t.past, t.record, t.last, limitOf(key), windowOf(key), from);
    }

    /** Drops exactly the records whose window has ended. */
    method CleanupExpiredRecords(now: real)
      modifies this`store
      ensures forall key :: RecordOf(store, key) == Cleaned(RecordOf(old(store), key), now)
    {
      var rest := store.Keys;
      while rest != {}
        invariant rest <= store.Keys <= old(store).Keys
        invariant forall key :: key in store ==> store[key] == old(store)[key]
        invariant forall key :: key in old(store) && key !in rest ==> (key in store <==> old(store)[key].reset > now)
        decreases rest
      {
        var key :| key in rest;
        if store[key].reset <= now {
          store := store - {key};
        }
        rest := rest - {key};
      }
    }
  }
}
