/** The two token buckets: the Redis script with its expiring key (src/ratelimit/rate-limit.service.ts) and the
    in-process one (src/ratelimit/deterministic-rate-limit.service.ts). Times are milliseconds of one monotone
    clock; tokens are real numbers. */
module TokenBucket {
  import opened Common

  datatype Config = Config(capacity: real, rate: real) {
    /** What both services are configured with. */
    predicate Valid() { capacity >= 0.0 && rate > 0.0 }
  }

  datatype Bucket = Bucket(tokens: real, last: real)

  /** One request: when, and how many tokens it wants. */
  datatype Request = Request(at: real, wanted: real)

  datatype Reply = Reply(allowed: bool, remaining: real, reset: int)

  function Min(a: real, b: real): real { if a <= b then a else b }

  function Max(a: real, b: real): real { if a >= b then a else b }

  /** The least integer not below `x`. */
  function Ceil(x: real): (n: int)
    ensures n as real - 1.0 < x <= n as real
  {
    if x == x.Floor as real then x.Floor else x.Floor + 1
  }

  /** The tokens a request finds: a missing bucket is full, an existing one has refilled since its last use. */
  function Refilled(c: Config, b: Option<Bucket>, now: real): real {
    if b.None? then c.capacity
    else Min(c.capacity, b.value.tokens + Max(0.0, now - b.value.last) * c.rate)
  }

  predicate Allowed(c: Config, b: Option<Bucket>, r: Request) {
    Refilled(c, b, r.at) >= r.wanted
  }

  function GrantOf(c: Config, b: Option<Bucket>, r: Request): real {
    if Allowed(c, b, r) then r.wanted else 0.0
  }

  function Left(c: Config, b: Option<Bucket>, r: Request): real {
    Refilled(c, b, r.at) - GrantOf(c, b, r)
  }

  function Decide(c: Config, b: Option<Bucket>, r: Request): Reply
    requires c.Valid()
  {
    Reply(Allowed(c, b, r), Left(c, b, r),
          if Allowed(c, b, r) then 0 else Ceil((r.wanted - Refilled(c, b, r.at)) / c.rate / 1000.0))
  }

  /** Either way the script stores the tokens it left and the time. */
  function Use(c: Config, b: Option<Bucket>, r: Request): Bucket {
    Bucket(Left(c, b, r), r.at)
  }

  // ---------- The expiring key ----------

  /** A stored bucket with the moment at which Redis forgets it. */
  datatype Key = Key(bucket: Bucket, expires: real)

  function TimeToLive(c: Config): int
    requires c.Valid()
  {
    Ceil(c.capacity / c.rate * 2.0)
  }

  function Lookup(k: Option<Key>, now: real): Option<Bucket> {
    if k.Some? && now < k.value.expires then Some(k.value.bucket) else None
  }

  function Store(c: Config, k: Option<Key>, r: Request): Key
    requires c.Valid()
  {
    Key(Use(c, Lookup(k, r.at), r), r.at + TimeToLive(c) as real)
  }

  ghost predicate Monotone(rs: seq<Request>) {
    forall i, j :: 0 <= i < j < |rs| ==> rs[i].at <= rs[j].at
  }

  /** The replies of the script that lets its key expire. */
  function RunExpiring(c: Config, k: Option<Key>, rs: seq<Request>): seq<Reply>
    requires c.Valid()
    decreases |rs|
  {
    if rs == [] then []
    else [Decide(c, Lookup(k, rs[0].at), rs[0])] + RunExpiring(c, Some(Store(c, k, rs[0])), rs[1..])
  }

  /** The replies of a bucket that is never forgotten. */
  function RunForever(c: Config, b: Option<Bucket>, rs: seq<Request>): seq<Reply>
    requires c.Valid()
    decreases |rs|
  {
    if rs == [] then [] else [Decide(c, b, rs[0])] + RunForever(c, Some(Use(c, b, rs[0])), rs[1..])
  }

  predicate Sane(c: Config, b: Bucket) { 0.0 <= b.tokens <= c.capacity }

  /** The key is either the bucket itself, or will expire no earlier than the bucket is full again. */
  predicate Faithful(c: Config, k: Option<Key>, b: Option<Bucket>)
    requires c.Valid()
  {
    && (b.None? ==> k.None?)
    && (b.Some? ==> k.Some? && k.value.bucket == b.value && Sane(c, b.value)
                    && k.value.expires == b.value.last + TimeToLive(c) as real)
  }

  /** By the time the key is gone the bucket has refilled completely. */
  lemma ExpiredIsFull(c: Config, b: Bucket, now: real)
    requires c.Valid() && Sane(c, b) && b.last + TimeToLive(c) as real <= now
    ensures Refilled(c, Some(b), now) == c.capacity
  {
    var gone := now - b.last;
    var fill := c.capacity / c.rate;
    assert fill >= 0.0;
    assert fill <= fill * 2.0 <= gone;
    RateTimes(c.capacity, gone, c.rate);
    assert Max(0.0, now - b.last) == gone;
    assert Refilled(c, Some(b), now) == Min(c.capacity, b.tokens + gone * c.rate);
  }

  lemma Scale(a: real, b: real, r: real)
    requires a <= b && r >= 0.0
    ensures a * r <= b * r
  {
  }

  lemma UseStaysSane(c: Config, b: Option<Bucket>, r: Request)
    requires c.Valid() && r.wanted >= 0.0
    requires b.Some? ==> Sane(c, b.value)
    ensures Sane(c, Use(c, b, r))
  {
    if b.Some? {
      Scale(0.0, Max(0.0, r.at - b.value.last), c.rate);
    }
  }

  /** Expiry is unobservable: on every sequence of requests the expiring script replies exactly like a bucket that
      is kept forever. */
  lemma {:induction false} ExpiryUnobservable(c: Config, k: Option<Key>, b: Option<Bucket>, rs: seq<Request>)
    requires c.Valid() && Faithful(c, k, b)
    requires forall i :: 0 <= i < |rs| ==> rs[i].wanted >= 0.0
    ensures RunExpiring(c, k, rs) == RunForever(c, b, rs)
    decreases |rs|
  {
    if rs != [] {
      var r := rs[0];
      if b.Some? && k.value.expires <= r.at {
        ExpiredIsFull(c, b.value, r.at);
      }
      assert Refilled(c, Lookup(k, r.at), r.at) == Refilled(c, b, r.at);
      assert Decide(c, Lookup(k, r.at), r) == Decide(c, b, r);
      UseStaysSane(c, b, r);
      ExpiryUnobservable(c, Some(Store(c, k, r)), Some(Use(c, b, r)), rs[1..]);
    }
  }

  /** After a refusal, a request of the same size is admitted once `reset` seconds have passed without another
      call, exactly when its size fits the capacity at all. */
  lemma ResetSuffices(c: Config, b: Option<Bucket>, r: Request, again: Request)
    requires c.Valid() && (b.Some? ==> Sane(c, b.value)) && r.wanted >= 0.0
    requires !Decide(c, b, r).allowed
    requires again.wanted == r.wanted && again.at >= r.at + Decide(c, b, r).reset as real * 1000.0
    ensures Decide(c, Some(Use(c, b, r)), again).allowed <==> r.wanted <= c.capacity
  {
    var tokens := Refilled(c, b, r.at);
    var missing := r.wanted - tokens;
    var reset := Decide(c, b, r).reset;
    var waited := again.at - r.at;
    assert missing / c.rate / 1000.0 <= reset as real;
    assert missing / c.rate <= reset as real * 1000.0 <= waited;
    RateTimes(missing, waited, c.rate);
    assert Use(c, b, r) == Bucket(tokens, r.at);
    var found := Refilled(c, Some(Use(c, b, r)), again.at);
    assert found == Min(c.capacity, tokens + waited * c.rate);
    assert tokens + waited * c.rate >= r.wanted;
  }

  lemma RateTimes(missing: real, waited: real, rate: real)
    requires rate > 0.0 && missing / rate <= waited
    ensures missing <= waited * rate
  {
    Scale(missing / rate, waited, rate);
    assert missing / rate * rate == missing;
  }

  /** And `reset` is the least whole number of seconds: as long as a second less has not passed, it is refused again. */
  lemma ResetIsLeast(c: Config, b: Option<Bucket>, r: Request, again: Request)
    requires c.Valid() && (b.Some? ==> Sane(c, b.value)) && r.wanted >= 0.0
    requires !Decide(c, b, r).allowed
    requires again.wanted == r.wanted && r.at <= again.at <= r.at + (Decide(c, b, r).reset - 1) as real * 1000.0
    ensures !Decide(c, Some(Use(c, b, r)), again).allowed
  {
    var missing := r.wanted - Refilled(c, b, r.at);
    var waited := again.at - r.at;
    assert waited < missing / c.rate;
    TooEarly(missing, waited, c.rate);
    assert Refilled(c, Some(Use(c, b, r)), again.at) <= Refilled(c, b, r.at) + waited * c.rate;
  }

  lemma TooEarly(missing: real, waited: real, rate: real)
    requires rate > 0.0 && waited < missing / rate
    ensures waited * rate < missing
  {
    var wait := missing / rate;
    assert wait * rate == missing;
    assert (wait - waited) * rate > 0.0;
  }

  /** What flows into a bucket that is not full. */
  function Inflow(c: Config, from: real, until: real): real {
    (until - from) * c.rate
  }

  lemma Inflows(c: Config, t0: real, t1: real, t2: real)
    ensures Inflow(c, t0, t2) == Inflow(c, t0, t1) + Inflow(c, t1, t2)
  {
  }

  lemma InflowGrows(c: Config, t0: real, t1: real, t2: real)
    requires c.Valid() && t0 <= t1 <= t2
    ensures 0.0 <= Inflow(c, t1, t2) <= Inflow(c, t0, t2)
  {
    Scale(0.0, t2 - t1, c.rate);
    Scale(t2 - t1, t2 - t0, c.rate);
  }

  // ---------- How much a bucket admits ----------

  /** The tokens granted by a sequence of requests. */
  function Granted(c: Config, b: Option<Bucket>, rs: seq<Request>): real
    decreases |rs|
  {
    if rs == [] then 0.0
    else GrantOf(c, b, rs[0]) + Granted(c, Some(Use(c, b, rs[0])), rs[1..])
  }

  predicate During(rs: seq<Request>, from: real, until: real) {
    forall i :: 0 <= i < |rs| ==> rs[i].wanted >= 0.0 && from <= rs[i].at <= until
  }

  /** One request is paid from the tokens it finds. */
  lemma UsePays(c: Config, b: Option<Bucket>, r: Request)
    requires c.Valid()
    ensures GrantOf(c, b, r) + Use(c, b, r).tokens <= c.capacity
    ensures b.Some? && b.value.last <= r.at ==>
      GrantOf(c, b, r) + Use(c, b, r).tokens <= b.value.tokens + Inflow(c, b.value.last, r.at)
  {
  }

  /** Grants are paid from what the bucket held and what flowed in. */
  lemma {:induction false} GrantsArePaid(c: Config, b: Bucket, rs: seq<Request>, until: real)
    requires c.Valid() && Sane(c, b) && Monotone(rs) && During(rs, b.last, until) && b.last <= until
    ensures Granted(c, Some(b), rs) <= b.tokens + Inflow(c, b.last, until)
    decreases |rs|
  {
    if rs == [] {
      InflowGrows(c, b.last, b.last, until);
    } else {
      var next := Use(c, Some(b), rs[0]);
      UseStaysSane(c, Some(b), rs[0]);
      UsePays(c, Some(b), rs[0]);
      GrantsArePaid(c, next, rs[1..], until);
      GrantedSplits(c, Some(b), rs);
      Inflows(c, b.last, next.last, until);
    }
  }

  lemma GrantedSplits(c: Config, b: Option<Bucket>, rs: seq<Request>)
    requires c.Valid() && rs != []
    ensures Granted(c, b, rs) == GrantOf(c, b, rs[0]) + Granted(c, Some(Use(c, b, rs[0])), rs[1..])
  {
  }

  /** The tokens granted in any stretch of requests between `from` and `until` are at most the capacity plus what
      refills in that time, whatever the bucket's history before. */
  lemma GrantsBounded(c: Config, b: Option<Bucket>, rs: seq<Request>, from: real, until: real)
    requires c.Valid() && (b.Some? ==> Sane(c, b.value)) && Monotone(rs) && from <= until && During(rs, from, until)
    ensures Granted(c, b, rs) <= c.capacity + Inflow(c, from, until)
  {
    if rs == [] {
      InflowGrows(c, from, from, until);
    } else {
      var next := Use(c, b, rs[0]);
      UseStaysSane(c, b, rs[0]);
      UsePays(c, b, rs[0]);
      GrantsArePaid(c, next, rs[1..], until);
      InflowGrows(c, from, next.last, until);
      GrantedSplits(c, b, rs);
    }
  }

  // ---------- Exactly what a bucket admits ----------

  function Demand(rs: seq<Request>): real {
    if rs == [] then 0.0 else rs[0].wanted + Demand(rs[1..])
  }

  /** The requests up to position `j` fit what there is and what flows in until then. */
  predicate FitsUpTo(c: Config, tokens: real, since: real, rs: seq<Request>, j: nat)
    requires j < |rs|
  {
    Demand(rs[..j + 1]) <= tokens + Inflow(c, since, rs[j].at)
  }

  /** Every stretch of the requests asks for no more than the capacity and what flows in meanwhile. */
  ghost predicate Fits(c: Config, rs: seq<Request>) {
    forall i, j :: 0 <= i <= j < |rs| ==> StretchFits(c, rs, i, j)
  }

  predicate StretchFits(c: Config, rs: seq<Request>, i: nat, j: nat)
    requires i <= j < |rs|
  {
    Demand(rs[i..j + 1]) <= c.capacity + Inflow(c, rs[i].at, rs[j].at)
  }

  ghost predicate AllAllowed(replies: seq<Reply>) {
    forall i :: 0 <= i < |replies| ==> replies[i].allowed
  }

  lemma FitsSplits(c: Config, rs: seq<Request>)
    requires rs != []
    ensures Fits(c, rs) <==> Fits(c, rs[1..]) && forall j: nat :: j < |rs| ==> FitsUpTo(c, c.capacity, rs[0].at, rs, j)
  {
    var rest := rs[1..];
    forall i, j | 0 <= i <= j < |rest| ensures StretchFits(c, rest, i, j) <==> StretchFits(c, rs, i + 1, j + 1) {
      assert rest[i..j + 1] == rs[i + 1..j + 2];
    }
    forall j: nat | j < |rs| ensures StretchFits(c, rs, 0, j) <==> FitsUpTo(c, c.capacity, rs[0].at, rs, j) {
      assert rs[0..j + 1] == rs[..j + 1];
    }
    if Fits(c, rs) {
      forall i, j | 0 <= i <= j < |rest| ensures StretchFits(c, rest, i, j) {
        assert StretchFits(c, rs, i + 1, j + 1);
      }
    }
    if Fits(c, rest) && forall j: nat :: j < |rs| ==> FitsUpTo(c, c.capacity, rs[0].at, rs, j) {
      forall i, j | 0 <= i <= j < |rs| ensures StretchFits(c, rs, i, j) {
        if i > 0 {
          assert StretchFits(c, rest, i - 1, j - 1);
        } else {
          assert FitsUpTo(c, c.capacity, rs[0].at, rs, j);
        }
      }
    }
  }

  /** One request moves the budget on: later requests fit what it leaves exactly when, with it, they fit both what was
      there before and the capacity. */
  lemma BudgetMovesOn(c: Config, tokens: real, since: real, rs: seq<Request>, found: real, j: nat)
    requires rs != [] && j < |rs| - 1 && found == Min(c.capacity, tokens + Inflow(c, since, rs[0].at))
    ensures FitsUpTo(c, found - rs[0].wanted, rs[0].at, rs[1..], j) <==>
      FitsUpTo(c, c.capacity, rs[0].at, rs, j + 1) && FitsUpTo(c, tokens, since, rs, j + 1)
  {
    var rest := rs[1..];
    assert rs[..j + 2][1..] == rest[..j + 1];
    Inflows(c, since, rs[0].at, rs[j + 1].at);
  }

  lemma FirstFits(c: Config, tokens: real, since: real, rs: seq<Request>)
    requires rs != []
    ensures FitsUpTo(c, tokens, since, rs, 0) <==> rs[0].wanted <= tokens + Inflow(c, since, rs[0].at)
  {
    assert rs[..0 + 1] == [rs[0]] && [rs[0]][1..] == [];
    assert Demand([rs[0]]) == rs[0].wanted + Demand([]);
  }

  lemma NothingFlowsAtOnce(c: Config, t: real)
    ensures Inflow(c, t, t) == 0.0
  {
  }

  /** What an existing bucket admits completely. */
  lemma {:induction false} BucketAdmitsIff(c: Config, b: Bucket, rs: seq<Request>)
    requires c.Valid() && Sane(c, b) && Monotone(rs)
    requires forall i :: 0 <= i < |rs| ==> rs[i].wanted >= 0.0 && b.last <= rs[i].at
    ensures AllAllowed(RunForever(c, Some(b), rs)) <==>
      Fits(c, rs) && forall j: nat :: j < |rs| ==> FitsUpTo(c, b.tokens, b.last, rs, j)
    decreases |rs|
  {
    if rs != [] {
      var r, rest, next := rs[0], rs[1..], Use(c, Some(b), rs[0]);
      var found := Refilled(c, Some(b), r.at);
      assert found == Min(c.capacity, b.tokens + Inflow(c, b.last, r.at));
      UseStaysSane(c, Some(b), r);
      BucketAdmitsIff(c, next, rest);
      FitsSplits(c, rs);
      FirstFits(c, b.tokens, b.last, rs);
      FirstFits(c, c.capacity, r.at, rs);
      NothingFlowsAtOnce(c, r.at);
      FirstReply(c, Some(b), rs);
      if r.wanted <= found {
        assert next == Bucket(found - r.wanted, r.at);
        forall j: nat | j < |rest| ensures
          FitsUpTo(c, next.tokens, next.last, rest, j) <==>
            FitsUpTo(c, c.capacity, r.at, rs, j + 1) && FitsUpTo(c, b.tokens, b.last, rs, j + 1)
        {
          BudgetMovesOn(c, b.tokens, b.last, rs, found, j);
        }
        AllFromFirst(c, b, rs, next);
      }
    }
  }

  lemma FirstReply(c: Config, b: Option<Bucket>, rs: seq<Request>)
    requires c.Valid() && rs != []
    ensures AllAllowed(RunForever(c, b, rs)) <==>
      Refilled(c, b, rs[0].at) >= rs[0].wanted && AllAllowed(RunForever(c, Some(Use(c, b, rs[0])), rs[1..]))
  {
    var all, rest := RunForever(c, b, rs), RunForever(c, Some(Use(c, b, rs[0])), rs[1..]);
    assert all == [Decide(c, b, rs[0])] + rest;
    if AllAllowed(rest) && all[0].allowed {
      forall i | 0 <= i < |all| ensures all[i].allowed {
        assert i > 0 ==> all[i] == rest[i - 1];
      }
    }
    if AllAllowed(all) {
      forall i | 0 <= i < |rest| ensures rest[i].allowed {
        assert rest[i] == all[i + 1];
      }
    }
  }

  lemma AllFromFirst(c: Config, b: Bucket, rs: seq<Request>, next: Bucket)
    requires rs != []
    requires FitsUpTo(c, b.tokens, b.last, rs, 0) && FitsUpTo(c, c.capacity, rs[0].at, rs, 0)
    requires forall j: nat :: j < |rs[1..]| ==>
      (FitsUpTo(c, next.tokens, next.last, rs[1..], j) <==>
        FitsUpTo(c, c.capacity, rs[0].at, rs, j + 1) && FitsUpTo(c, b.tokens, b.last, rs, j + 1))
    ensures (forall j: nat :: j < |rs[1..]| ==> FitsUpTo(c, next.tokens, next.last, rs[1..], j)) <==>
      (forall j: nat :: j < |rs| ==> FitsUpTo(c, c.capacity, rs[0].at, rs, j)) &&
      (forall j: nat :: j < |rs| ==> FitsUpTo(c, b.tokens, b.last, rs, j))
  {
    if forall j: nat :: j < |rs[1..]| ==> FitsUpTo(c, next.tokens, next.last, rs[1..], j) {
      forall j: nat | j < |rs| ensures FitsUpTo(c, c.capacity, rs[0].at, rs, j) && FitsUpTo(c, b.tokens, b.last, rs, j) {
        if j > 0 {
          assert FitsUpTo(c, next.tokens, next.last, rs[1..], j - 1);
        }
      }
    }
  }

  /** A fresh bucket, with its key expiring or not, admits a whole sequence of requests exactly when every stretch of it
      asks for no more than the capacity plus what refills during the stretch. */
  lemma FreshAdmitsIff(c: Config, rs: seq<Request>)
    requires c.Valid() && Monotone(rs)
    requires forall i :: 0 <= i < |rs| ==> rs[i].wanted >= 0.0
    ensures AllAllowed(RunExpiring(c, None, rs)) <==> Fits(c, rs)
  {
    ExpiryUnobservable(c, None, None, rs);
    if rs != [] {
      var full := Bucket(c.capacity, rs[0].at);
      NothingFlowsAtOnce(c, rs[0].at);
      assert Refilled(c, Some(full), rs[0].at) == c.capacity;
      FirstReply(c, None, rs);
      FirstReply(c, Some(full), rs);
      assert Use(c, None, rs[0]) == Use(c, Some(full), rs[0]);
      BucketAdmitsIff(c, full, rs);
      FitsSplits(c, rs);
    }
  }

  // ---------- Clearing a caller's buckets ----------

  predicate OccursAt(s: string, part: string, p: nat) {
    p + |part| <= |s| && s[p..p + |part|] == part
  }

  ghost predicate Occurs(s: string, part: string) {
    exists p: nat :: OccursAt(s, part, p)
  }

  function BucketKey(endpoint: string, key: string): string { endpoint + "::" + key }

  /** `String.includes`. */
  method Includes(s: string, part: string) returns (found: bool)
    ensures found <==> Occurs(s, part)
  {
    found := false;
    var p := 0;
    while p + |part| <= |s| && !found
      invariant found ==> Occurs(s, part)
      invariant !found ==> forall q: nat :: q < p ==> !OccursAt(s, part, q)
      decreases |s| - p, !found
    {
      if s[p..p + |part|] == part {
        assert OccursAt(s, part, p);
        found := true;
      } else {
        p := p + 1;
      }
    }
  }

  /** `key` starts right after some "::" of `t`. */
  ghost predicate FollowsMarker(t: string, key: string) {
    exists p: nat :: MarkedAt(t, key, p)
  }

  predicate MarkedAt(t: string, key: string, p: nat) {
    p + 2 <= |t| && t[p] == ':' && t[p + 1] == ':' && key <= t[p + 2..]
  }

  lemma MarkedIffOccurs(t: string, key: string, p: nat)
    ensures MarkedAt(t, key, p) <==> OccursAt(t, "::" + key, p)
  {
    var part := "::" + key;
    if OccursAt(t, part, p) {
      var found := t[p..p + |part|];
      assert found[0] == t[p] && found[1] == t[p + 1];
      assert found[2..] == key && found[2..] == t[p + 2..][..|key|];
    }
    if MarkedAt(t, key, p) {
      assert t[p..p + |part|] == t[p..p + 2] + t[p + 2..][..|key|];
    }
  }

  /** In front of the marker there is nothing that `clearKey` could find. */
  lemma EndpointHidesNothing(endpoint: string, other: string, key: string, p: nat)
    requires ':' !in endpoint
    ensures MarkedAt(BucketKey(endpoint, other), key, p) <==> p >= |endpoint| && MarkedAt("::" + other, key, p - |endpoint|)
  {
    var s, t, e := BucketKey(endpoint, other), "::" + other, |endpoint|;
    assert s == endpoint + t;
    if p < e {
      assert p < |s| ==> s[p] == endpoint[p];
    } else if p + 2 <= |s| {
      assert s[p] == t[p - e] && s[p + 1] == t[p + 1 - e];
      assert s[p + 2..] == t[p + 2 - e..];
    }
  }

  /** Clearing is meant for the buckets of one caller, but it reaches the bucket of `other` exactly when the key starts
      right after some "::" of `::other`: at the very front, or inside, as in an IPv6 address. */
  lemma ClearReachesIff(endpoint: string, other: string, key: string)
    requires ':' !in endpoint
    ensures Occurs(BucketKey(endpoint, other), "::" + key) <==> FollowsMarker("::" + other, key)
  {
    var s, t, e := BucketKey(endpoint, other), "::" + other, |endpoint|;
    forall p: nat | OccursAt(s, "::" + key, p) ensures FollowsMarker(t, key) {
      MarkedIffOccurs(s, key, p);
      EndpointHidesNothing(endpoint, other, key, p);
      assert MarkedAt(t, key, p - e);
    }
    forall p: nat | MarkedAt(t, key, p) ensures Occurs(s, "::" + key) {
      EndpointHidesNothing(endpoint, other, key, p + e);
      MarkedIffOccurs(s, key, p + e);
    }
  }

  lemma MarkerInFront(other: string, key: string, p: nat)
    requires ':' !in other && MarkedAt("::" + other, key, p)
    ensures p == 0
  {
    var t := "::" + other;
    assert forall i :: 2 <= i < |t| ==> t[i] == other[i - 2];
  }

  /** For a caller without colons that means: exactly when the caller starts with the key. */
  lemma ClearReachesPrefixes(endpoint: string, other: string, key: string)
    requires ':' !in endpoint && ':' !in other
    ensures Occurs(BucketKey(endpoint, other), "::" + key) <==> key <= other
  {
    ClearReachesIff(endpoint, other, key);
    var t := "::" + other;
    assert t[2..] == other;
    if key <= other {
      assert MarkedAt(t, key, 0);
    }
    forall p: nat | MarkedAt(t, key, p) ensures key <= other {
      MarkerInFront(other, key, p);
    }
  }

  // ---------- The script and the in-process bucket as code ----------

  class RateLimitService {
    var keys: map<string, Key>

    constructor ()
      ensures keys == map[]
    {
      keys := map[];
    }

    ghost function Find(key: string): Option<Key>
      reads this
    {
      if key in keys then Some(keys[key]) else None
    }

    /** The script, run atomically by Redis on one key. */
    method RunTokenBucket(key: string, c: Config, r: Request) returns (reply: Reply)
      requires c.Valid()
      modifies this
      ensures reply == Decide(c, Lookup(old(Find(key)), r.at), r)
      ensures
        var found := Refilled(c, Lookup(old(Find(key)), r.at), r.at);
        && reply.allowed == (r.wanted <= found)
        && reply.remaining == (if reply.allowed then found - r.wanted else found)
        && key in keys && keys[key].bucket == Bucket(reply.remaining, r.at)
      ensures keys == old(keys)[key := Store(c, old(Find(key)), r)]
    {
      var tokens, last := c.capacity, r.at;
      if key in keys && r.at < keys[key].expires {
        tokens, last := keys[key].bucket.tokens, keys[key].bucket.last;
      }
      var delta := Max(0.0, r.at - last);
      tokens := Min(c.capacity, tokens + delta * c.rate);
      assert tokens == Refilled(c, Lookup(old(Find(key)), r.at), r.at);
      var ttl := Ceil(c.capacity / c.rate * 2.0);
      if tokens >= r.wanted {
        tokens := tokens - r.wanted;
        keys := keys[key := Key(Bucket(tokens, r.at), r.at + ttl as real)];
        reply := Reply(true, tokens, 0);
      } else {
        var reset := Ceil((r.wanted - tokens) / c.rate / 1000.0);
        keys := keys[key := Key(Bucket(tokens, r.at), r.at + ttl as real)];
        reply := Reply(false, tokens, reset);
      }
    }
  }

  class DeterministicRateLimitService {
    var buckets: map<string, Bucket>

    constructor ()
      ensures buckets == map[]
    {
      buckets := map[];
    }

    ghost function Find(key: string): Option<Bucket>
      reads this
    {
      if key in buckets then Some(buckets[key]) else None
    }

    /** One unit request against the bucket `endpoint::key`; it decides like the script does, and leaves every other
        bucket alone. */
    method IsAllowed(key: string, endpoint: string, c: Config, now: real) returns (allowed: bool)
      requires c.Valid()
      requires forall k :: k in buckets ==> buckets[k].last <= now
      modifies this
      ensures allowed == Decide(c, old(Find(BucketKey(endpoint, key))), Request(now, 1.0)).allowed
      ensures
        var found := Refilled(c, old(Find(BucketKey(endpoint, key))), now);
        && allowed == (1.0 <= found)
        && BucketKey(endpoint, key) in buckets
        && buckets[BucketKey(endpoint, key)] == Bucket(if allowed then found - 1.0 else found, now)
      ensures buckets == old(buckets)[BucketKey(endpoint, key) := Use(c, old(Find(BucketKey(endpoint, key))), Request(now, 1.0))]
    {
      var bucketKey := BucketKey(endpoint, key);
      if bucketKey !in buckets {
        buckets := buckets[bucketKey := Bucket(c.capacity, now)];
      }
      var bucket := buckets[bucketKey];
      var elapsed := now - bucket.last;
      bucket := Bucket(Min(c.capacity, bucket.tokens + elapsed * c.rate), now);
      assert elapsed == Max(0.0, elapsed);
      assert bucket.tokens == Refilled(c, old(Find(bucketKey)), now);
      assert buckets[bucketKey := bucket] == old(buckets)[bucketKey := bucket];
      if bucket.tokens < 1.0 {
        buckets := buckets[bucketKey := bucket];
        return false;
      }
      bucket := bucket.(tokens := bucket.tokens - 1.0);
      buckets := buckets[bucketKey := bucket];
      allowed := true;
    }

    /** Removes exactly the buckets whose name contains `::key`. */
    method ClearKey(key: string)
      modifies this
      ensures forall k :: k in buckets <==> k in old(buckets) && !Occurs(k, "::" + key)
      ensures forall k :: k in buckets ==> buckets[k] == old(buckets)[k]
    {
      var rest := buckets.Keys;
      while rest != {}
        invariant rest <= buckets.Keys <= old(buckets).Keys
        invariant forall k :: k in buckets ==> buckets[k] == old(buckets)[k]
        invariant forall k :: k in old(buckets) && k !in rest ==> (k in buckets <==> !Occurs(k, "::" + key))
        decreases rest
      {
        var bucketKey :| bucketKey in rest;
        var found := Includes(bucketKey, "::" + key);
        if found {
          buckets := buckets - {bucketKey};
        }
        rest := rest - {bucketKey};
      }
    }
  }
}
