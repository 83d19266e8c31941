/** The per-IP token bucket of pkg/security/security.go. Time is an explicit
    non-decreasing number of nanoseconds and tokens are counted in billionths, so
    that elapsed time times the refill rate is exact. */
module RateLimiter {
  import opened Prelude

  /** One whole token. */
  const UNIT := 1_000_000_000

  const SECOND := 1_000_000_000

  datatype Bucket = Bucket(tokens: int, last: int)

  datatype Rate = Rate(cap: int, refill: int)

  function RateOf(rps: int): Rate {
    Rate(2 * rps * UNIT, rps)
  }

  function Clamp(tokens: int, cap: int): int {
    if tokens > cap then cap else tokens
  }

  /** What Allow does to one bucket, which may not exist yet, and its answer. */
  function Draw(b: Option<Bucket>, now: int, rate: Rate): (Bucket, bool) {
    if b.None? then (Bucket(rate.cap - UNIT, now), true)
    else
      var tokens := Clamp(b.value.tokens + (now - b.value.last) * rate.refill, rate.cap);
      if tokens < UNIT then (Bucket(tokens, now), false) else (Bucket(tokens - UNIT, now), true)
  }

  function Lookup(m: map<string, Bucket>, ip: string): Option<Bucket> {
    if ip in m then Some(m[ip]) else None
  }

  function Swept(m: map<string, Bucket>, ttl: int, now: int): map<string, Bucket> {
    map ip | ip in m && m[ip].last >= now - ttl :: m[ip]
  }

  class Limiter {
    var buckets: map<string, Bucket>
    const rate: Rate

    constructor (rps: int)
      ensures buckets == map[] && rate == Rate(2 * rps * 1_000_000_000, rps) == RateOf(rps)
    {
      buckets := map[];
      rate := RateOf(rps);
    }

    method Allow(ip: string, now: int) returns (ok: bool)
      modifies this`buckets
      ensures ip !in old(buckets) ==> ok && buckets == old(buckets)[ip := Bucket(rate.cap - UNIT, now)]
      ensures ip in old(buckets) ==>
        var b := old(buckets)[ip];
        var filled := b.tokens + (now - b.last) * rate.refill;
        var tokens := if filled > rate.cap then rate.cap else filled;
        && ok == (tokens >= UNIT)
        && buckets == old(buckets)[ip := Bucket(if ok then tokens - UNIT else tokens, now)]
      ensures buckets == old(buckets)[ip := Draw(Lookup(old(buckets), ip), now, rate).0]
      ensures ok == Draw(Lookup(old(buckets), ip), now, rate).1
    {
      if ip !in buckets {
        buckets := buckets[ip := Bucket(rate.cap - UNIT, now)];
        return true;
      }
      var b := buckets[ip];
      var tokens := b.tokens + (now - b.last) * rate.refill;
      if tokens > rate.cap {
        tokens := rate.cap;
      }
      if tokens < UNIT {
        buckets := buckets[ip := Bucket(tokens, now)];
        return false;
      }
      buckets := buckets[ip := Bucket(tokens - UNIT, now)];
      return true;
    }

    method Sweep(ttl: int, now: int)
      modifies this`buckets
      ensures buckets == map ip | ip in old(buckets) && old(buckets)[ip].last >= now - ttl :: old(buckets)[ip]
      ensures buckets == Swept(old(buckets), ttl, now)
    {
      var cutoff := now - ttl;
      var todo := buckets.Keys;
      while todo != {}
        invariant todo <= buckets.Keys <= old(buckets).Keys
        invariant forall ip :: ip in buckets ==> buckets[ip] == old(buckets)[ip]
        invariant forall ip :: ip in old(buckets) && ip !in todo ==>
            (ip in buckets <==> old(buckets)[ip].last >= cutoff)
        decreases |todo|
      {
        var ip :| ip in todo;
        todo := todo - {ip};
        if buckets[ip].last < cutoff {
          buckets := buckets - {ip};
        }
      }
    }
  }

  // ----- Runs over any number of clients -----

  datatype Event = Request(ip: string, at: int) | Sweep(ttl: int, at: int)

  /** The clock never runs backwards. */
  ghost predicate Ordered(evs: seq<Event>, now: int)
    decreases |evs|
  {
    evs == [] || (now <= evs[0].at && Ordered(evs[1..], evs[0].at))
  }

  function Step(m: map<string, Bucket>, e: Event, rate: Rate): map<string, Bucket> {
    match e
    case Request(ip, at) => m[ip := Draw(Lookup(m, ip), at, rate).0]
    case Sweep(ttl, at) => Swept(m, ttl, at)
  }

  function Answer(m: map<string, Bucket>, e: Event, rate: Rate): seq<bool> {
    match e
    case Request(ip, at) => [Draw(Lookup(m, ip), at, rate).1]
    case Sweep(_, _) => []
  }

  /** The answers to all requests of a run, in order. */
  function Answers(m: map<string, Bucket>, evs: seq<Event>, rate: Rate): seq<bool>
    decreases |evs|
  {
    if evs == [] then [] else Answer(m, evs[0], rate) + Answers(Step(m, evs[0], rate), evs[1..], rate)
  }

  function TimeOf(e: Event, ip: string): seq<int> {
    if e.Request? && e.ip == ip then [e.at] else []
  }

  function AnswerTo(m: map<string, Bucket>, e: Event, ip: string, rate: Rate): seq<bool> {
    if e.Request? && e.ip == ip then Answer(m, e, rate) else []
  }

  /** The times of one client's requests, and the answers that client got. */
  function TimesOf(evs: seq<Event>, ip: string): seq<int>
    decreases |evs|
  {
    if evs == [] then [] else TimeOf(evs[0], ip) + TimesOf(evs[1..], ip)
  }

  function AnswersTo(m: map<string, Bucket>, evs: seq<Event>, ip: string, rate: Rate): seq<bool>
    decreases |evs|
  {
    if evs == [] then []
    else AnswerTo(m, evs[0], ip, rate) + AnswersTo(Step(m, evs[0], rate), evs[1..], ip, rate)
  }

  // ----- The declarative specification -----

  function Grants(gs: seq<bool>): nat {
    if gs == [] then 0 else Grants(gs[..|gs| - 1]) + if gs[|gs| - 1] then 1 else 0
  }

  /** What is left at time now of the budget of a window that opens at request j:
      a full bucket, plus the refill since, less the grants since. */
  function Left(ts: seq<int>, gs: seq<bool>, j: nat, now: int, rate: Rate): int
    requires j < |ts| && |gs| == |ts|
  {
    rate.cap + rate.refill * (now - ts[j]) - UNIT * Grants(gs[j..])
  }

  /** Request k is granted exactly when a full bucket holds a token and every window that
      opens at an earlier request still has a whole token of its budget left. */
  ghost predicate Declared(ts: seq<int>, gs: seq<bool>, rate: Rate)
  {
    && |gs| == |ts|
    && forall k :: 0 <= k < |ts| ==> (gs[k] <==> Affordable(ts[..k], gs[..k], ts[k], rate))
  }

  ghost predicate Affordable(ts: seq<int>, gs: seq<bool>, now: int, rate: Rate)
    requires |gs| == |ts|
  {
    rate.cap >= UNIT && AllAtLeast(Lefts(ts, gs, now, rate), UNIT)
  }

  function Lefts(ts: seq<int>, gs: seq<bool>, now: int, rate: Rate): (ls: seq<int>)
    requires |gs| == |ts|
    ensures |ls| == |ts|
  {
    seq(|ts|, j requires 0 <= j < |ts| => Left(ts, gs, j, now, rate))
  }

  predicate AllAtLeast(ls: seq<int>, x: int) {
    forall j :: 0 <= j < |ls| ==> ls[j] >= x
  }

  predicate IsLeast(x: int, ls: seq<int>) {
    AllAtLeast(ls, x) && x in ls
  }

  /** The bucket of one client agrees with its past requests and answers. A missing
      bucket stands for a full one. */
  ghost predicate Agrees(b: Option<Bucket>, ts: seq<int>, gs: seq<bool>, now: int, rate: Rate)
  {
    && |gs| == |ts|
    && match b
       case None => AllAtLeast(Lefts(ts, gs, now, rate), rate.cap)
       case Some(b) =>
         && 0 <= b.tokens <= rate.cap && b.last <= now
         && IsLeast(b.tokens, Lefts(ts, gs, b.last, rate))
  }

  /** Waiting raises every window's budget by the same refill. */
  lemma LeftsLater(ts: seq<int>, gs: seq<bool>, now: int, later: int, rate: Rate)
    requires |gs| == |ts|
    ensures forall j :: 0 <= j < |ts| ==>
      Lefts(ts, gs, later, rate)[j] == Lefts(ts, gs, now, rate)[j] + (later - now) * rate.refill
  {
    forall j | 0 <= j < |ts|
      ensures Left(ts, gs, j, later, rate) == Left(ts, gs, j, now, rate) + (later - now) * rate.refill
    {
      assert rate.refill * (later - ts[j]) == rate.refill * (now - ts[j]) + (later - now) * rate.refill;
    }
  }

  /** A grant lowers every window's budget by one token; a request opens a new window. */
  lemma LeftsAppend(ts: seq<int>, gs: seq<bool>, now: int, g: bool, rate: Rate)
    requires |gs| == |ts|
    ensures var after := Lefts(ts + [now], gs + [g], now, rate);
      var spent := if g then UNIT else 0;
      && (forall j :: 0 <= j < |ts| ==> after[j] == Lefts(ts, gs, now, rate)[j] - spent)
      && after[|ts|] == rate.cap - spent
  {
    forall j | 0 <= j < |ts|
      ensures Grants((gs + [g])[j..]) == Grants(gs[j..]) + if g then 1 else 0
    {
      assert (gs + [g])[j..] == gs[j..] + [g];
      assert (gs[j..] + [g])[..|gs[j..]|] == gs[j..];
    }
    assert (gs + [g])[|ts|..] == [g];
    assert Grants([g][..0]) == 0;
  }

  predicate Sound(rate: Rate) {
    rate.cap >= UNIT && rate.refill >= 0
  }

  /** The step from the lowest budget before a request to the lowest one after it. */
  lemma LeastStep(before: seq<int>, tokens: int, gain: int, at: seq<int>, after: seq<int>, cap: int, spent: int)
    requires |at| == |before| && |after| == |before| + 1
    requires IsLeast(tokens, before)
    requires forall j :: 0 <= j < |before| ==> at[j] == before[j] + gain
    requires forall j :: 0 <= j < |before| ==> after[j] == at[j] - spent
    requires after[|before|] == cap - spent
    ensures IsLeast(Clamp(tokens + gain, cap) - spent, after)
    ensures forall x :: x <= cap ==> (Clamp(tokens + gain, cap) >= x <==> AllAtLeast(at, x))
  {
    var j :| 0 <= j < |before| && before[j] == tokens;
    assert at[j] == tokens + gain && after[j] == tokens + gain - spent;
    assert after[|before|] in after && after[j] in after;
  }

  lemma FirstDrawAgrees(ts: seq<int>, gs: seq<bool>, now: int, rate: Rate)
    requires Sound(rate) && Agrees(None, ts, gs, now, rate)
    ensures Affordable(ts, gs, now, rate)
    ensures Agrees(Some(Bucket(rate.cap - UNIT, now)), ts + [now], gs + [true], now, rate)
  {
    LeftsAppend(ts, gs, now, true, rate);
    assert Lefts(ts + [now], gs + [true], now, rate)[|ts|] == rate.cap - UNIT;
  }

  lemma NextDrawAgrees(b: Bucket, ts: seq<int>, gs: seq<bool>, now: int, rate: Rate)
    requires Sound(rate) && Agrees(Some(b), ts, gs, now, rate)
    ensures var (c, g) := Draw(Some(b), now, rate);
      (g <==> Affordable(ts, gs, now, rate)) && Agrees(Some(c), ts + [now], gs + [g], now, rate)
  {
    hide Lefts, Left, Grants, IsLeast, AllAtLeast;
    var (c, g) := Draw(Some(b), now, rate);
    var gain := (now - b.last) * rate.refill;
    MulMonotone(rate.refill, 0, now - b.last);
    assert g == (Clamp(b.tokens + gain, rate.cap) >= UNIT);
    assert c.tokens == Clamp(b.tokens + gain, rate.cap) - if g then UNIT else 0;
    LeftsAppend(ts, gs, now, g, rate);
    LeftsLater(ts, gs, b.last, now, rate);
    LeastStep(Lefts(ts, gs, b.last, rate), b.tokens, gain, Lefts(ts, gs, now, rate),
              Lefts(ts + [now], gs + [g], now, rate), rate.cap, if g then UNIT else 0);
  }

  lemma DrawAgrees(b: Option<Bucket>, ts: seq<int>, gs: seq<bool>, earlier: int, now: int, rate: Rate)
    requires Sound(rate) && Agrees(b, ts, gs, earlier, rate) && earlier <= now
    ensures var (c, g) := Draw(b, now, rate);
      (g <==> Affordable(ts, gs, now, rate)) && Agrees(Some(c), ts + [now], gs + [g], now, rate)
  {
    WaitAgrees(b, ts, gs, earlier, now, rate);
    match b
    case None => FirstDrawAgrees(ts, gs, now, rate);
    case Some(bucket) => NextDrawAgrees(bucket, ts, gs, now, rate);
  }

  /** Time passing keeps the agreement. */
  lemma WaitAgrees(b: Option<Bucket>, ts: seq<int>, gs: seq<bool>, now: int, later: int, rate: Rate)
    requires Sound(rate) && Agrees(b, ts, gs, now, rate) && now <= later
    ensures Agrees(b, ts, gs, later, rate)
  {
    assert (later - now) * rate.refill >= 0;
    LeftsLater(ts, gs, now, later, rate);
  }

  /** Dropping a bucket keeps the agreement if the time since its last use refills it. */
  lemma DropAgrees(b: Bucket, ts: seq<int>, gs: seq<bool>, ttl: int, now: int, rate: Rate)
    requires Sound(rate) && Agrees(Some(b), ts, gs, now, rate)
    requires b.last < now - ttl && ttl * rate.refill >= rate.cap
    ensures Agrees(None, ts, gs, now, rate)
  {
    assert (now - b.last) * rate.refill >= ttl * rate.refill;
    LeftsLater(ts, gs, b.last, now, rate);
  }

  ghost predicate SweepsOnlyFull(evs: seq<Event>, rate: Rate) {
    forall e :: e in evs && e.Sweep? ==> e.ttl * rate.refill >= rate.cap
  }

  lemma DeclaredAppend(ts: seq<int>, gs: seq<bool>, t: int, g: bool, rate: Rate)
    requires Declared(ts, gs, rate) && (g <==> Affordable(ts, gs, t, rate))
    ensures Declared(ts + [t], gs + [g], rate)
  {
    forall k | 0 <= k < |ts| + 1
      ensures (gs + [g])[k] <==> Affordable((ts + [t])[..k], (gs + [g])[..k], (ts + [t])[k], rate)
    {
      assert (ts + [t])[..k] == ts[..k] && (gs + [g])[..k] == gs[..k];
      assert ts[..|ts|] == ts && gs[..|gs|] == gs;
    }
  }

  /** Everything said so far about one client: its answers were the declared ones and its
      bucket agrees with them. */
  ghost predicate Faithful(m: map<string, Bucket>, ip: string, ts: seq<int>, gs: seq<bool>, now: int, rate: Rate) {
    Declared(ts, gs, rate) && Agrees(Lookup(m, ip), ts, gs, now, rate)
  }

  lemma FaithfulStep(m: map<string, Bucket>, e: Event, ip: string, ts: seq<int>, gs: seq<bool>, now: int, rate: Rate)
    requires Sound(rate) && Faithful(m, ip, ts, gs, now, rate) && now <= e.at
    requires e.Sweep? ==> e.ttl * rate.refill >= rate.cap
    ensures Faithful(Step(m, e, rate), ip, ts + TimeOf(e, ip), gs + AnswerTo(m, e, ip, rate), e.at, rate)
  {
    if e.Request? && e.ip == ip {
      DrawAgrees(Lookup(m, ip), ts, gs, now, e.at, rate);
      DeclaredAppend(ts, gs, e.at, Draw(Lookup(m, ip), e.at, rate).1, rate);
    } else {
      assert ts + TimeOf(e, ip) == ts && gs + AnswerTo(m, e, ip, rate) == gs;
      WaitAgrees(Lookup(m, ip), ts, gs, now, e.at, rate);
      if ip in m && ip !in Step(m, e, rate) {
        DropAgrees(m[ip], ts, gs, e.ttl, e.at, rate);
      }
    }
  }

  /** The client's record after a run, extending the record before it. */
  function Record(m: map<string, Bucket>, evs: seq<Event>, ip: string, ts: seq<int>, gs: seq<bool>,
      rate: Rate): (seq<int>, seq<bool>)
    decreases |evs|
  {
    if evs == [] then (ts, gs)
    else Record(Step(m, evs[0], rate), evs[1..], ip, ts + TimeOf(evs[0], ip), gs + AnswerTo(m, evs[0], ip, rate), rate)
  }

  lemma {:induction false} RecordExtends(m: map<string, Bucket>, evs: seq<Event>, ip: string,
                                         ts: seq<int>, gs: seq<bool>, rate: Rate)
    ensures Record(m, evs, ip, ts, gs, rate) == (ts + TimesOf(evs, ip), gs + AnswersTo(m, evs, ip, rate))
    decreases |evs|
  {
    if evs == [] {
      assert ts + [] == ts && gs + [] == gs;
    } else {
      var ts', gs' := ts + TimeOf(evs[0], ip), gs + AnswerTo(m, evs[0], ip, rate);
      var m' := Step(m, evs[0], rate);
      RecordExtends(m', evs[1..], ip, ts', gs', rate);
      assert ts' + TimesOf(evs[1..], ip) == ts + TimesOf(evs, ip);
      assert gs' + AnswersTo(m', evs[1..], ip, rate) == gs + AnswersTo(m, evs, ip, rate);
    }
  }

  lemma {:induction false} FaithfulRun(m: map<string, Bucket>, evs: seq<Event>, ip: string,
                                       ts: seq<int>, gs: seq<bool>, now: int, rate: Rate)
    requires Sound(rate) && Ordered(evs, now) && SweepsOnlyFull(evs, rate)
    requires Faithful(m, ip, ts, gs, now, rate)
    ensures var (ts', gs') := Record(m, evs, ip, ts, gs, rate); Declared(ts', gs', rate)
    decreases |evs|
  {
    if evs == [] {
    } else {
      assert evs[0] in evs;
      FaithfulStep(m, evs[0], ip, ts, gs, now, rate);
      FaithfulRun(Step(m, evs[0], rate), evs[1..], ip,
                  ts + TimeOf(evs[0], ip), gs + AnswerTo(m, evs[0], ip, rate), evs[0].at, rate);
    }
  }

  predicate SweepsAreSlow(evs: seq<Event>) {
    forall e :: e in evs && e.Sweep? ==> e.ttl >= 2 * SECOND
  }

  lemma SlowSweepsOnlyFull(evs: seq<Event>, rps: int)
    requires rps >= 1 && SweepsAreSlow(evs)
    ensures SweepsOnlyFull(evs, RateOf(rps))
  {
    forall e | e in evs && e.Sweep? ensures e.ttl * RateOf(rps).refill >= RateOf(rps).cap {
      assert e.ttl * rps >= 2 * SECOND * rps;
    }
  }

  /** In every run over any number of clients, with sweeps whose ttl is at least two
      seconds anywhere in it, each client is answered as specified by that client's
      own request times alone. */
  lemma AllowMeetsSpec(evs: seq<Event>, ip: string, now: int, rps: int)
    requires rps >= 1 && Ordered(evs, now) && SweepsAreSlow(evs)
    ensures Declared(TimesOf(evs, ip), AnswersTo(map[], evs, ip, RateOf(rps)), Rate(2 * rps * UNIT, rps))
  {
    SlowSweepsOnlyFull(evs, rps);
    FaithfulRun(map[], evs, ip, [], [], now, RateOf(rps));
    RecordExtends(map[], evs, ip, [], [], RateOf(rps));
    assert [] + TimesOf(evs, ip) == TimesOf(evs, ip);
    assert [] + AnswersTo(map[], evs, ip, RateOf(rps)) == AnswersTo(map[], evs, ip, RateOf(rps));
  }

  /** Which, and how many, of the requests j to k - 1 were granted. */
  function GrantedAt(gs: seq<bool>, j: nat, k: nat): set<int>
    requires j <= k <= |gs|
  {
    set i | j <= i < k && gs[i]
  }

  function Granted(gs: seq<bool>, j: nat, k: nat): nat
    requires j <= k <= |gs|
  {
    |GrantedAt(gs, j, k)|
  }

  lemma GrantedNext(gs: seq<bool>, j: nat, k: nat)
    requires j < k <= |gs|
    ensures Granted(gs, j, k) == Granted(gs, j, k - 1) + if gs[k - 1] then 1 else 0
  {
    assert GrantedAt(gs, j, k) == GrantedAt(gs, j, k - 1) + if gs[k - 1] then {k - 1} else {};
  }

  lemma {:induction false} GrantsAreGranted(gs: seq<bool>, j: nat, k: nat)
    requires j <= k <= |gs|
    ensures Grants(gs[j..k]) == Granted(gs, j, k)
    decreases k
  {
    hide GrantedAt;
    if j == k {
      assert GrantedAt(gs, j, j) == {} by {
        NothingGranted(gs, j);
      }
    } else {
      GrantsAreGranted(gs, j, k - 1);
      GrantedNext(gs, j, k);
      assert gs[j..k][..k - j - 1] == gs[j..k - 1];
    }
  }

  lemma NothingGranted(gs: seq<bool>, j: nat)
    requires j <= |gs|
    ensures GrantedAt(gs, j, j) == {}
  {
  }

  /** Billionths of a token left at request k, counted from an earlier request j: twice the rate, plus the
      rate times the seconds since, less the grants since. */
  function LeftSince(ts: seq<int>, gs: seq<bool>, j: nat, k: nat, rps: int): int
    requires j < k < |ts| && |gs| == |ts|
  {
    2 * rps * 1_000_000_000 + rps * (ts[k] - ts[j]) - 1_000_000_000 * Granted(gs, j, k)
  }

  ghost predicate SpentSince(ts: seq<int>, gs: seq<bool>, k: nat, rps: int)
    requires k < |ts| && |gs| == |ts|
  {
    exists j :: 0 <= j < k && LeftSince(ts, gs, j, k, rps) < 1_000_000_000
  }

  /** The rate guarantee from both sides, in numbers: request k of a client is denied exactly when, counted from
      some earlier request of that client, less than one token is left. */
  lemma DeniedOnlyWhenSpent(evs: seq<Event>, ip: string, now: int, rps: int, k: nat)
    requires rps >= 1 && Ordered(evs, now) && SweepsAreSlow(evs) && k < |TimesOf(evs, ip)|
    ensures |AnswersTo(map[], evs, ip, RateOf(rps))| == |TimesOf(evs, ip)|
    ensures var (ts, gs) := (TimesOf(evs, ip), AnswersTo(map[], evs, ip, RateOf(rps)));
      !gs[k] <==> SpentSince(ts, gs, k, rps)
  {
    hide Ordered, SweepsAreSlow, TimesOf, AnswersTo, SpentSince;
    AllowMeetsSpec(evs, ip, now, rps);
    SpentExactly(TimesOf(evs, ip), AnswersTo(map[], evs, ip, RateOf(rps)), k, rps);
  }

  lemma LeftsAreLeft(ts: seq<int>, gs: seq<bool>, j: nat, k: nat, rps: int)
    requires j < k < |ts| && |gs| == |ts|
    ensures Lefts(ts[..k], gs[..k], ts[k], Rate(2 * rps * UNIT, rps))[j] == LeftSince(ts, gs, j, k, rps)
  {
    assert gs[..k][j..] == gs[j..k];
    GrantsAreGranted(gs, j, k);
  }

  lemma SpentExactly(ts: seq<int>, gs: seq<bool>, k: nat, rps: int)
    requires rps >= 1 && Declared(ts, gs, Rate(2 * rps * UNIT, rps)) && k < |ts|
    ensures !gs[k] <==> SpentSince(ts, gs, k, rps)
  {
    hide LeftSince, Lefts;
    var ls := Lefts(ts[..k], gs[..k], ts[k], Rate(2 * rps * UNIT, rps));
    assert gs[k] <==> AllAtLeast(ls, UNIT);
    forall j | 0 <= j < k ensures ls[j] == LeftSince(ts, gs, j, k, rps) {
      LeftsAreLeft(ts, gs, j, k, rps);
    }
    if !gs[k] {
      var j :| 0 <= j < |ls| && ls[j] < UNIT;
      assert LeftSince(ts, gs, j, k, rps) < UNIT;
    }
  }

  // ----- Which clients have a bucket -----

  function After(m: map<string, Bucket>, evs: seq<Event>, rate: Rate): map<string, Bucket>
    decreases |evs|
  {
    if evs == [] then m else After(Step(m, evs[0], rate), evs[1..], rate)
  }

  /** A client's last request, unless a sweep since then found it older than its ttl. */
  function LastSeen(seen: Option<int>, evs: seq<Event>, ip: string): Option<int>
    decreases |evs|
  {
    if evs == [] then seen
    else
      LastSeen(match evs[0]
               case Request(a, at) => if a == ip then Some(at) else seen
               case Sweep(ttl, at) => if seen.Some? && seen.value < at - ttl then None else seen,
               evs[1..], ip)
  }

  /** A client has a bucket exactly from a request until a sweep that finds it stale. */
  lemma {:induction false} BucketsFollowRequests(m: map<string, Bucket>, evs: seq<Event>, ip: string, rate: Rate)
    ensures var (seen, b) := (Lookup(m, ip), Lookup(After(m, evs, rate), ip));
      var last := LastSeen(if seen.Some? then Some(seen.value.last) else None, evs, ip);
      (b.Some? <==> last.Some?) && (b.Some? ==> b.value.last == last.value)
    decreases |evs|
  {
    if evs == [] {
    } else {
      BucketsFollowRequests(Step(m, evs[0], rate), evs[1..], ip, rate);
    }
  }

  lemma {:induction false} FirstIsGranted(m: map<string, Bucket>, evs: seq<Event>, ip: string, rate: Rate)
    requires ip !in m && TimesOf(evs, ip) != []
    ensures AnswersTo(m, evs, ip, rate) != [] && AnswersTo(m, evs, ip, rate)[0]
    decreases |evs|
  {
    if TimeOf(evs[0], ip) == [] {
      assert AnswerTo(m, evs[0], ip, rate) == [];
      FirstIsGranted(Step(m, evs[0], rate), evs[1..], ip, rate);
    }
  }

  /** The condition on the rate is exact. A client's first request is always granted, so with a rate
      below one every client that makes a request is answered otherwise than specified. */
  lemma SpecNeedsPositiveRate(evs: seq<Event>, ip: string, now: int, rps: int)
    requires Ordered(evs, now) && SweepsAreSlow(evs) && TimesOf(evs, ip) != []
    ensures Declared(TimesOf(evs, ip), AnswersTo(map[], evs, ip, RateOf(rps)), RateOf(rps)) <==> rps >= 1
  {
    var ts, gs := TimesOf(evs, ip), AnswersTo(map[], evs, ip, RateOf(rps));
    if rps >= 1 {
      AllowMeetsSpec(evs, ip, now, rps);
    } else {
      FirstIsGranted(map[], evs, ip, RateOf(rps));
      assert !Affordable(ts[..0], gs[..0], ts[0], RateOf(rps));
    }
  }

  /** The specification leaves no freedom. */
  lemma {:induction false} SpecIsUnique(ts: seq<int>, gs: seq<bool>, hs: seq<bool>, rate: Rate)
    requires Declared(ts, gs, rate) && Declared(ts, hs, rate)
    ensures gs == hs
  {
    if ts == [] {
    } else {
      var n := |ts| - 1;
      DeclaredPrefix(ts, gs, n, rate);
      DeclaredPrefix(ts, hs, n, rate);
      SpecIsUnique(ts[..n], gs[..n], hs[..n], rate);
      assert gs[n] == hs[n];
      assert gs == gs[..n] + [gs[n]] && hs == hs[..n] + [hs[n]];
    }
  }

  lemma DeclaredPrefix(ts: seq<int>, gs: seq<bool>, n: nat, rate: Rate)
    requires Declared(ts, gs, rate) && n <= |ts|
    ensures Declared(ts[..n], gs[..n], rate)
  {
    forall k | 0 <= k < n ensures gs[k] <==> Affordable(ts[..n][..k], gs[..n][..k], ts[k], rate) {
      assert ts[..n][..k] == ts[..k] && gs[..n][..k] == gs[..k];
    }
  }

  /** The budget of a window from request i to request k. */
  function Budget(ts: seq<int>, i: nat, k: nat, rate: Rate): int
    requires i < |ts| && k < |ts|
  {
    rate.cap + rate.refill * (ts[k] - ts[i])
  }

  ghost predicate Nondecreasing(ts: seq<int>) {
    forall a, b :: 0 <= a <= b < |ts| ==> ts[a] <= ts[b]
  }

  /** Every granted request finds a token left in the window that opened at i. */
  ghost predicate GrantsFit(ts: seq<int>, gs: seq<bool>, i: nat, rate: Rate)
    requires |gs| == |ts|
  {
    forall k :: i < k < |ts| && gs[k] ==> UNIT * Grants(gs[i..k]) + UNIT <= Budget(ts, i, k, rate)
  }

  lemma DeclaredFits(ts: seq<int>, gs: seq<bool>, i: nat, rate: Rate)
    requires Declared(ts, gs, rate)
    ensures GrantsFit(ts, gs, i, rate)
  {
    forall k | i < k < |ts| && gs[k] ensures UNIT * Grants(gs[i..k]) + UNIT <= Budget(ts, i, k, rate) {
      assert Affordable(ts[..k], gs[..k], ts[k], rate);
      assert Lefts(ts[..k], gs[..k], ts[k], rate)[i] >= UNIT;
      assert gs[..k][i..] == gs[i..k];
    }
  }

  lemma MulMonotone(r: int, a: int, b: int)
    requires r >= 0 && a <= b
    ensures r * a <= r * b
  {
  }

  lemma BudgetGrows(ts: seq<int>, i: nat, k: nat, rate: Rate)
    requires Nondecreasing(ts) && i < k < |ts| && rate.refill >= 0
    ensures Budget(ts, i, k - 1, rate) <= Budget(ts, i, k, rate)
  {
    MulMonotone(rate.refill, ts[k - 1] - ts[i], ts[k] - ts[i]);
  }

  lemma {:induction false} FitsBound(ts: seq<int>, gs: seq<bool>, i: nat, k: nat, rate: Rate)
    requires |gs| == |ts| && GrantsFit(ts, gs, i, rate) && Sound(rate) && i <= k < |ts| && Nondecreasing(ts)
    ensures UNIT * Grants(gs[i..k + 1]) <= Budget(ts, i, k, rate)
    decreases k
  {
    assert Grants(gs[i..k + 1]) == Grants(gs[i..k]) + if gs[k] then 1 else 0 by {
      assert gs[i..k + 1][..k - i] == gs[i..k];
    }
    if i == k {
      assert gs[i..k] == [];
      assert ts[k] - ts[i] == 0;
    } else if gs[k] {
    } else {
      FitsBound(ts, gs, i, k - 1, rate);
      BudgetGrows(ts, i, k, rate);
    }
  }

  /** The rate guarantee: requests i to k, over a time of ts[k] - ts[i], are granted at
      most a full bucket plus the refill over that time. */
  lemma WindowBound(ts: seq<int>, gs: seq<bool>, i: nat, k: nat, rate: Rate)
    requires Declared(ts, gs, rate) && Sound(rate) && i <= k < |ts| && Nondecreasing(ts)
    ensures UNIT * Grants(gs[i..k + 1]) <= rate.cap + rate.refill * (ts[k] - ts[i])
  {
    DeclaredFits(ts, gs, i, rate);
    FitsBound(ts, gs, i, k, rate);
  }

  /** Hence any time window of length d grants at most cap + refill * d. */
  lemma TimeWindowBound(evs: seq<Event>, ip: string, now: int, rps: int, i: nat, k: nat, from: int, d: int)
    requires rps >= 1 && Ordered(evs, now) && SweepsAreSlow(evs)
    requires i <= k < |TimesOf(evs, ip)| && from <= TimesOf(evs, ip)[i] && TimesOf(evs, ip)[k] <= from + d
    ensures |AnswersTo(map[], evs, ip, RateOf(rps))| == |TimesOf(evs, ip)|
    ensures 1_000_000_000 * Granted(AnswersTo(map[], evs, ip, RateOf(rps)), i, k + 1) <=
      2 * rps * 1_000_000_000 + rps * d
  {
    GrantedWithin(evs, ip, now, rps, i, k, from, d);
    GrantsAreGranted(AnswersTo(map[], evs, ip, RateOf(rps)), i, k + 1);
  }

  lemma GrantedWithin(evs: seq<Event>, ip: string, now: int, rps: int, i: nat, k: nat, from: int, d: int)
    requires rps >= 1 && Ordered(evs, now) && SweepsAreSlow(evs)
    requires i <= k < |TimesOf(evs, ip)| && from <= TimesOf(evs, ip)[i] && TimesOf(evs, ip)[k] <= from + d
    ensures |AnswersTo(map[], evs, ip, RateOf(rps))| == |TimesOf(evs, ip)|
    ensures UNIT * Grants(AnswersTo(map[], evs, ip, RateOf(rps))[i..k + 1]) <= 2 * rps * UNIT + rps * d
  {
    AllowMeetsSpec(evs, ip, now, rps);
    TimesOrdered(evs, ip, now);
    TimeWindow(TimesOf(evs, ip), AnswersTo(map[], evs, ip, RateOf(rps)), i, k, from, d, rps);
  }

  lemma TimeWindow(ts: seq<int>, gs: seq<bool>, i: nat, k: nat, from: int, d: int, rps: int)
    requires rps >= 1 && Declared(ts, gs, RateOf(rps)) && Nondecreasing(ts)
    requires i <= k < |ts| && from <= ts[i] && ts[k] <= from + d
    ensures UNIT * Grants(gs[i..k + 1]) <= 2 * rps * UNIT + rps * d
  {
    WindowBound(ts, gs, i, k, RateOf(rps));
    MulMonotone(rps, ts[k] - ts[i], d);
  }

  lemma {:induction false} TimesOrdered(evs: seq<Event>, ip: string, now: int)
    requires Ordered(evs, now)
    ensures forall k :: 0 <= k < |TimesOf(evs, ip)| ==> now <= TimesOf(evs, ip)[k]
    ensures Nondecreasing(TimesOf(evs, ip))
    decreases |evs|
  {
    if evs == [] {
    } else {
      TimesOrdered(evs[1..], ip, evs[0].at);
    }
  }

  // ----- Sweeps are invisible -----

  function NoSweeps(evs: seq<Event>): seq<Event> {
    if evs == [] then []
    else (if evs[0].Sweep? then [] else [evs[0]]) + NoSweeps(evs[1..])
  }

  /** A swept table and an unswept one: they agree where both have a bucket, and a bucket
      only the unswept one has would be full by now. */
  ghost predicate Indistinct(swept: map<string, Bucket>, full: map<string, Bucket>, now: int, rate: Rate) {
    && (forall ip :: ip in swept ==> ip in full && swept[ip] == full[ip])
    && (forall ip :: ip in full ==> 0 <= full[ip].tokens && full[ip].last <= now)
    && (forall ip :: ip in full && ip !in swept ==> Refilled(full[ip], now, rate))
  }

  ghost predicate Refilled(b: Bucket, now: int, rate: Rate) {
    b.tokens + (now - b.last) * rate.refill >= rate.cap
  }

  lemma StaysRefilled(b: Bucket, now: int, later: int, rate: Rate)
    requires Refilled(b, now, rate) && now <= later && rate.refill >= 0
    ensures Refilled(b, later, rate)
  {
    assert (later - b.last) * rate.refill == (now - b.last) * rate.refill + (later - now) * rate.refill;
  }

  lemma BecomesRefilled(b: Bucket, ttl: int, now: int, rate: Rate)
    requires b.last < now - ttl && ttl * rate.refill >= rate.cap && rate.refill >= 0 && 0 <= b.tokens
    ensures Refilled(b, now, rate)
  {
    assert (now - b.last) * rate.refill >= ttl * rate.refill;
  }

  lemma DrawNonNegative(b: Option<Bucket>, now: int, rate: Rate)
    requires Sound(rate) && (b.Some? ==> 0 <= b.value.tokens && b.value.last <= now)
    ensures Draw(b, now, rate).0.tokens >= 0 && Draw(b, now, rate).0.last == now
  {
    if b.Some? {
      assert (now - b.value.last) * rate.refill >= 0;
    }
  }

  lemma IndistinctStep(swept: map<string, Bucket>, full: map<string, Bucket>, e: Event, now: int, rate: Rate)
    requires Sound(rate) && Indistinct(swept, full, now, rate) && now <= e.at
    requires e.Sweep? ==> e.ttl * rate.refill >= rate.cap
    ensures Indistinct(Step(swept, e, rate), if e.Sweep? then full else Step(full, e, rate), e.at, rate)
    ensures e.Request? ==> Answer(swept, e, rate) == Answer(full, e, rate)
  {
    forall ip | ip in full && ip !in swept ensures Refilled(full[ip], e.at, rate) {
      StaysRefilled(full[ip], now, e.at, rate);
    }
    match e
    case Request(ip, at) =>
      DrawNonNegative(Lookup(full, ip), at, rate);
      assert Draw(Lookup(swept, ip), at, rate) == Draw(Lookup(full, ip), at, rate);
    case Sweep(ttl, at) =>
      forall ip | ip in swept && ip !in Swept(swept, ttl, at) ensures Refilled(full[ip], at, rate) {
        BecomesRefilled(swept[ip], ttl, at, rate);
      }
  }

  lemma {:induction false} SweepsInvisibleFrom(swept: map<string, Bucket>, full: map<string, Bucket>, evs: seq<Event>,
                                               now: int, rate: Rate)
    requires Sound(rate) && Indistinct(swept, full, now, rate) && Ordered(evs, now) && SweepsOnlyFull(evs, rate)
    ensures Answers(swept, evs, rate) == Answers(full, NoSweeps(evs), rate)
    decreases |evs|
  {
    if evs == [] {
    } else {
      var e := evs[0];
      assert e in evs;
      IndistinctStep(swept, full, e, now, rate);
      if e.Sweep? {
        SweepsInvisibleFrom(Step(swept, e, rate), full, evs[1..], e.at, rate);
        assert NoSweeps(evs) == NoSweeps(evs[1..]);
      } else {
        SweepsInvisibleFrom(Step(swept, e, rate), Step(full, e, rate), evs[1..], e.at, rate);
        assert NoSweeps(evs)[1..] == NoSweeps(evs[1..]);
      }
    }
  }

  /** A limiter that is swept anywhere, with a ttl of at least two seconds, answers every
      request exactly as one that is never swept. */
  lemma SweepsAreInvisible(evs: seq<Event>, now: int, rps: int)
    requires rps >= 1 && Ordered(evs, now) && SweepsAreSlow(evs)
    ensures Answers(map[], evs, RateOf(rps)) == Answers(map[], NoSweeps(evs), RateOf(rps))
  {
    SlowSweepsOnlyFull(evs, rps);
    SweepsInvisibleFrom(map[], map[], evs, now, RateOf(rps));
  }
}
