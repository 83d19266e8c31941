/** The failed-login lockout of pkg/auth/auth.go, over an explicit non-decreasing
    clock. The zero time.Time of lockedUntil, which lies before every clock
    reading, is None. */
module LoginTracker {
  import opened Prelude

  datatype Entry = Entry(count: int, lastFail: int, lockedUntil: Option<int>)

  datatype Policy = Policy(maxAttempts: int, lockout: int)

  // ----- What each call does to the entry of one address -----

  predicate BeforeLock(now: int, until: Option<int>) {
    until.Some? && now < until.value
  }

  predicate AfterLock(now: int, until: Option<int>) {
    until.None? || now > until.value
  }

  function Fail(e: Option<Entry>, now: int, p: Policy): Entry {
    var count := (if e.Some? then e.value.count else 0) + 1;
    var until := if e.Some? then e.value.lockedUntil else None;
    Entry(count, now, if count >= p.maxAttempts then Some(now + p.lockout) else until)
  }

  function Locked(e: Option<Entry>, now: int): bool {
    e.Some? && BeforeLock(now, e.value.lockedUntil)
  }

  /** IsLocked also resets the counter of an entry whose lockout has passed. */
  function Checked(e: Option<Entry>, now: int, p: Policy): Option<Entry> {
    if e.Some? && !Locked(e, now) && e.value.count >= p.maxAttempts && AfterLock(now, e.value.lockedUntil)
    then Some(e.value.(count := 0, lockedUntil := None))
    else e
  }

  predicate Stale(e: Entry, ttl: int, now: int) {
    e.lastFail < now - ttl
  }

  function Lookup(m: map<string, Entry>, ip: string): Option<Entry> {
    if ip in m then Some(m[ip]) else None
  }

  function Put(m: map<string, Entry>, ip: string, e: Option<Entry>): map<string, Entry> {
    if e.Some? then m[ip := e.value] else m - {ip}
  }

  function Swept(m: map<string, Entry>, ttl: int, now: int): map<string, Entry> {
    map ip | ip in m && !Stale(m[ip], ttl, now) :: m[ip]
  }

  class FailedLoginTracker {
    var attempts: map<string, Entry>
    const policy: Policy

    constructor (policy: Policy)
      ensures attempts == map[] && this.policy == policy
    {
      attempts := map[];
      this.policy := policy;
    }

    method RecordFailure(ip: string, now: int)
      modifies this`attempts
      ensures var ent := if ip in old(attempts) then old(attempts)[ip] else Entry(0, 0, None);
        var until := if ent.count + 1 >= policy.maxAttempts then Some(now + policy.lockout) else ent.lockedUntil;
        attempts == old(attempts)[ip := Entry(ent.count + 1, now, until)]
      ensures attempts == old(attempts)[ip := Fail(Lookup(old(attempts), ip), now, policy)]
    {
      var ent := if ip in attempts then attempts[ip] else Entry(0, 0, None);
      ent := ent.(count := ent.count + 1, lastFail := now);
      if ent.count >= policy.maxAttempts {
        ent := ent.(lockedUntil := Some(now + policy.lockout));
      }
      attempts := attempts[ip := ent];
    }

    method RecordSuccess(ip: string)
      modifies this`attempts
      ensures attempts == old(attempts) - {ip}
    {
      attempts := attempts - {ip};
    }

    method IsLocked(ip: string, now: int) returns (locked: bool)
      modifies this`attempts
      ensures locked <==>
        ip in old(attempts) && old(attempts)[ip].lockedUntil.Some? && now < old(attempts)[ip].lockedUntil.value
      ensures locked || ip !in old(attempts) ==> attempts == old(attempts)
      ensures !locked && ip in old(attempts) ==>
        var ent := old(attempts)[ip];
        var over := ent.count >= policy.maxAttempts && (ent.lockedUntil.Some? ==> now > ent.lockedUntil.value);
        attempts == old(attempts)[ip := if over then ent.(count := 0, lockedUntil := None) else ent]
      ensures locked == Locked(Lookup(old(attempts), ip), now)
      ensures attempts == Put(old(attempts), ip, Checked(Lookup(old(attempts), ip), now, policy))
    {
      if ip !in attempts {
        return false;
      }
      var ent := attempts[ip];
      if BeforeLock(now, ent.lockedUntil) {
        return true;
      }
      if ent.count >= policy.maxAttempts && AfterLock(now, ent.lockedUntil) {
        attempts := attempts[ip := ent.(count := 0, lockedUntil := None)];
      }
      return false;
    }

    method Sweep(ttl: int, now: int)
      modifies this`attempts
      ensures attempts == map ip | ip in old(attempts) && old(attempts)[ip].lastFail >= now - ttl :: old(attempts)[ip]
      ensures attempts == Swept(old(attempts), ttl, now)
    {
      var todo := attempts.Keys;
      while todo != {}
        invariant todo <= attempts.Keys <= old(attempts).Keys
        invariant forall ip :: ip in attempts ==> attempts[ip] == old(attempts)[ip]
        invariant forall ip :: ip in old(attempts) && ip !in todo ==>
            (ip in attempts <==> !Stale(old(attempts)[ip], ttl, now))
        decreases |todo|
      {
        var ip :| ip in todo;
        todo := todo - {ip};
        if Stale(attempts[ip], ttl, now) {
          attempts := attempts - {ip};
        }
      }
    }
  }

  // ----- Runs -----

  /** What the login handler does with one attempt: it asks IsLocked, and an attempt that is let through
      ends in a failure, in a success, or in neither, when the request is malformed. */
  datatype Event =
    | Check(ip: string, at: int)
    | Failure(ip: string, at: int)
    | Success(ip: string, at: int)
    | Abandon(ip: string, at: int)
    | Sweep(ttl: int, at: int)

  /** admitted counts, per address, the attempts that IsLocked has let through and that have not ended;
      fails lists each address's recorded failures since its last success. */
  datatype Sys = Sys(attempts: map<string, Entry>, admitted: multiset<string>, fails: map<string, seq<int>>, now: int)

  function FailsOf(s: Sys, ip: string): seq<int> {
    if ip in s.fails then s.fails[ip] else []
  }

  const INIT: Sys := Sys(map[], multiset{}, map[], 0)

  /** At most width attempts of one address are under way at a time, and sweeps use a ttl of at least
      the lockout. */
  predicate Enabled(s: Sys, e: Event, p: Policy, width: nat) {
    && s.now <= e.at
    && match e
       case Check(ip, at) => Locked(Lookup(s.attempts, ip), at) || s.admitted[ip] < width
       case Sweep(ttl, _) => ttl >= p.lockout
       case _ => e.ip in s.admitted
  }

  function Step(s: Sys, e: Event, p: Policy): Sys {
    match e
    case Check(ip, at) =>
      var entry := Lookup(s.attempts, ip);
      Sys(Put(s.attempts, ip, Checked(entry, at, p)),
          if Locked(entry, at) then s.admitted else s.admitted + multiset{ip}, s.fails, at)
    case Failure(ip, at) =>
      Sys(s.attempts[ip := Fail(Lookup(s.attempts, ip), at, p)], s.admitted - multiset{ip},
          s.fails[ip := FailsOf(s, ip) + [at]], at)
    case Success(ip, at) => Sys(s.attempts - {ip}, s.admitted - multiset{ip}, s.fails - {ip}, at)
    case Abandon(ip, at) => s.(admitted := s.admitted - multiset{ip}, now := at)
    case Sweep(ttl, at) => s.(attempts := Swept(s.attempts, ttl, at), now := at)
  }

  ghost predicate Legal(s: Sys, evs: seq<Event>, p: Policy, width: nat)
    decreases |evs|
  {
    evs == [] || (Enabled(s, evs[0], p, width) && Legal(Step(s, evs[0], p), evs[1..], p, width))
  }

  function Run(s: Sys, evs: seq<Event>, p: Policy): Sys
    decreases |evs|
  {
    if evs == [] then s else Run(Step(s, evs[0], p), evs[1..], p)
  }

  // ----- The bound -----

  /** A limit below one still lets every first failure through. */
  function Burst(p: Policy): nat {
    if p.maxAttempts < 1 then 1 else p.maxAttempts
  }

  /** Any failure lies at least a lockout after the one that many places before it. */
  ghost predicate Spaced(fs: seq<int>, places: nat, p: Policy) {
    forall i, j :: 0 <= i && j == i + places && j < |fs| ==> fs[j] >= fs[i] + p.lockout
  }

  ghost predicate Nondecreasing(fs: seq<int>) {
    forall a, b :: 0 <= a <= b < |fs| ==> fs[a] <= fs[b]
  }

  function Count(e: Option<Entry>): int {
    if e.Some? then e.value.count else 0
  }

  /** All but the last n failures lie at least a lockout in the past. */
  ghost predicate Past(fs: seq<int>, n: int, now: int, p: Policy) {
    0 <= n < |fs| ==> now >= fs[|fs| - 1 - n] + p.lockout
  }

  /** When a lock ends that count failures in a row have set, if any. */
  function LockAfter(count: int, last: int, p: Policy): Option<int> {
    if count >= Burst(p) then Some(last + p.lockout) else None
  }

  /** The entry of an address tells when its last failure was, whether the limit is reached, and that
      the failures it does not count are over. */
  ghost predicate Guarded(e: Option<Entry>, fs: seq<int>, now: int, p: Policy) {
    && Count(e) >= 0
    && (e.Some? ==> fs != [] && e.value.lastFail == fs[|fs| - 1])
    && (e.Some? ==> e.value.lockedUntil == LockAfter(e.value.count, fs[|fs| - 1], p))
    && Past(fs, Count(e), now, p)
  }

  /** Recent failures and attempts under way together stay below Burst + width. */
  ghost predicate AddressInv(e: Option<Entry>, admitted: nat, fs: seq<int>, now: int, p: Policy, width: nat) {
    && Nondecreasing(fs) && Spaced(fs, Burst(p) + width - 1, p)
    && (fs != [] ==> fs[|fs| - 1] <= now)
    && Guarded(e, fs, now, p)
    && admitted <= width && Past(fs, Burst(p) + width - 1 - admitted, now, p)
  }

  lemma SpacedAppend(fs: seq<int>, places: nat, n: int, at: int, p: Policy)
    requires Nondecreasing(fs) && Spaced(fs, places, p) && Past(fs, n, at, p) && 0 <= n < places
    ensures Spaced(fs + [at], places, p)
  {
    var i := |fs| - places;
    assert i >= 0 ==> fs[i] <= fs[|fs| - 1 - n];
  }

  lemma PastAppend(fs: seq<int>, n: int, now: int, at: int, p: Policy)
    requires Past(fs, n, now, p) && 0 <= n && now <= at
    ensures Past(fs + [at], n + 1, at, p) && Past(fs, n, at, p)
  {
    assert n < |fs| ==> (fs + [at])[|fs + [at]| - 1 - (n + 1)] == fs[|fs| - 1 - n];
  }

  lemma OrderedAppend(fs: seq<int>, at: int)
    requires Nondecreasing(fs) && (fs != [] ==> fs[|fs| - 1] <= at)
    ensures Nondecreasing(fs + [at])
  {
  }

  lemma FailureKeeps(e: Option<Entry>, admitted: nat, fs: seq<int>, now: int, at: int, p: Policy, width: nat)
    requires width > 0 && admitted > 0 && AddressInv(e, admitted, fs, now, p, width) && now <= at
    ensures AddressInv(Some(Fail(e, at, p)), admitted - 1, fs + [at], at, p, width)
  {
    hide Spaced, Past, Nondecreasing;
    var n := Burst(p) + width - 1 - admitted;
    OrderedAppend(fs, at);
    PastAppend(fs, n, now, at, p);
    PastAppend(fs, Count(e), now, at, p);
    SpacedAppend(fs, Burst(p) + width - 1, n, at, p);
  }

  /** An attempt is let through only when fewer than Burst failures are recent. */
  lemma CheckKeeps(e: Option<Entry>, admitted: nat, fs: seq<int>, now: int, at: int, p: Policy, width: nat)
    requires AddressInv(e, admitted, fs, now, p, width) && now <= at
    requires Locked(e, at) || admitted < width
    ensures AddressInv(Checked(e, at, p), if Locked(e, at) then admitted else admitted + 1, fs, at, p, width)
  {
    if !Locked(e, at) {
      var n := Burst(p) + width - 1 - (admitted + 1);
      if n < |fs| {
        assert fs[|fs| - 1 - n] <= fs[|fs| - 1];
        assert Count(e) <= n ==> fs[|fs| - 1 - n] <= fs[|fs| - 1 - Count(e)];
      }
    }
  }

  lemma SweepKeeps(e: Entry, admitted: nat, fs: seq<int>, now: int, at: int, ttl: int, p: Policy, width: nat)
    requires AddressInv(Some(e), admitted, fs, now, p, width) && now <= at && ttl >= p.lockout && Stale(e, ttl, at)
    ensures AddressInv(None, admitted, fs, at, p, width)
  {
  }

  lemma WaitKeeps(e: Option<Entry>, admitted: nat, fewer: nat, fs: seq<int>, now: int, at: int, p: Policy, width: nat)
    requires AddressInv(e, admitted, fs, now, p, width) && now <= at && fewer <= admitted
    ensures AddressInv(e, fewer, fs, at, p, width)
  {
    var n, m := Burst(p) + width - 1 - admitted, Burst(p) + width - 1 - fewer;
    assert m < |fs| ==> fs[|fs| - 1 - m] <= fs[|fs| - 1 - n];
  }

  lemma SuccessKeeps(admitted: nat, at: int, p: Policy, width: nat)
    requires admitted <= width
    ensures AddressInv(None, admitted, [], at, p, width)
  {
  }

  ghost predicate InvFor(s: Sys, ip: string, p: Policy, width: nat) {
    AddressInv(Lookup(s.attempts, ip), s.admitted[ip], FailsOf(s, ip), s.now, p, width)
  }

  ghost predicate Inv(s: Sys, p: Policy, width: nat) {
    forall ip: string :: InvFor(s, ip, p, width)
  }

  lemma StepInv(s: Sys, e: Event, p: Policy, width: nat)
    requires width > 0 && Inv(s, p, width) && Enabled(s, e, p, width)
    ensures Inv(Step(s, e, p), p, width)
  {
    hide InvFor, Step, Enabled;
    forall ip: string ensures InvFor(Step(s, e, p), ip, p, width) {
      StepKeeps(s, e, ip, p, width);
    }
  }

  /** A step on one address leaves the others as they are, apart from the time. */
  lemma OthersKeep(s: Sys, e: Event, ip: string, p: Policy)
    requires e.Sweep? || e.ip != ip
    requires e.Sweep? && ip in s.attempts ==> !Stale(s.attempts[ip], e.ttl, e.at)
    ensures var t := Step(s, e, p);
      Lookup(t.attempts, ip) == Lookup(s.attempts, ip) && t.admitted[ip] == s.admitted[ip]
      && FailsOf(t, ip) == FailsOf(s, ip) && t.now == e.at
  {
  }

  lemma AdmittedBound(e: Option<Entry>, admitted: nat, fs: seq<int>, now: int, p: Policy, width: nat)
    requires AddressInv(e, admitted, fs, now, p, width)
    ensures admitted <= width
  {
  }

  lemma StepKeeps(s: Sys, e: Event, ip: string, p: Policy, width: nat)
    requires width > 0 && Enabled(s, e, p, width) && InvFor(s, ip, p, width)
    ensures InvFor(Step(s, e, p), ip, p, width)
  {
    hide AddressInv, Fail, Checked;
    var entry, admitted, fs := Lookup(s.attempts, ip), s.admitted[ip], FailsOf(s, ip);
    AdmittedBound(entry, admitted, fs, s.now, p, width);
    if !e.Sweep? && e.ip == ip {
      match e
      case Check(_, at) => CheckKeeps(entry, admitted, fs, s.now, at, p, width);
      case Failure(_, at) => FailureKeeps(entry, admitted, fs, s.now, at, p, width);
      case Success(_, at) => SuccessKeeps(admitted - 1, at, p, width);
      case Abandon(_, at) => WaitKeeps(entry, admitted, admitted - 1, fs, s.now, at, p, width);
    } else if e.Sweep? && ip in s.attempts && Stale(s.attempts[ip], e.ttl, e.at) {
      SweepKeeps(s.attempts[ip], admitted, fs, s.now, e.at, e.ttl, p, width);
    } else {
      OthersKeep(s, e, ip, p);
      WaitKeeps(entry, admitted, admitted, fs, s.now, e.at, p, width);
    }
  }

  lemma {:induction false} RunInv(s: Sys, evs: seq<Event>, p: Policy, width: nat)
    requires width > 0 && Inv(s, p, width) && Legal(s, evs, p, width)
    ensures Inv(Run(s, evs, p), p, width)
    decreases |evs|
  {
    hide Inv, Step, Enabled;
    if evs == [] {
    } else {
      StepInv(s, evs[0], p, width);
      RunInv(Step(s, evs[0], p), evs[1..], p, width);
    }
  }

  lemma ReachableInv(evs: seq<Event>, ip: string, p: Policy, width: nat)
    requires width > 0 && Legal(INIT, evs, p, width)
    ensures InvFor(Run(INIT, evs, p), ip, p, width)
  {
    RunInv(INIT, evs, p, width);
  }

  /** In every run in which at most width attempts of one address are under way at a time, each let
      through by IsLocked, and sweeps use a ttl of at least the lockout, any half-open window as long as
      the lockout holds at most Burst + width - 1 failures of one address since its last success: failures
      i to k inside the window are at most that many. One attempt at a time makes it Burst. */
  lemma LockoutBound(evs: seq<Event>, ip: string, p: Policy, width: nat, from: int, i: nat, k: nat)
    requires width > 0 && Legal(INIT, evs, p, width)
    requires var fs := FailsOf(Run(INIT, evs, p), ip);
      i <= k < |fs| && from <= fs[i] && fs[k] < from + p.lockout
    ensures k - i + 1 <= Burst(p) + width - 1
  {
    ReachableInv(evs, ip, p, width);
    var fs := FailsOf(Run(INIT, evs, p), ip);
    var j := i + (Burst(p) + width - 1);
    assert j < |fs| ==> fs[j] >= fs[i] + p.lockout;
  }

  // ----- What the counter counts -----

  /** The failures of an address since its last success, passed lockout noticed by IsLocked, or sweep
      after a pause, told from the calls alone. */
  function Streak(st: seq<int>, evs: seq<Event>, ip: string, p: Policy): seq<int>
    decreases |evs|
  {
    if evs == [] then st else Streak(StreakStep(st, evs[0], ip, p), evs[1..], ip, p)
  }

  function StreakOf(evs: seq<Event>, ip: string, p: Policy): seq<int> {
    Streak([], evs, ip, p)
  }

  function StreakStep(st: seq<int>, e: Event, ip: string, p: Policy): seq<int> {
    match e
    case Failure(a, at) => if a == ip then st + [at] else st
    case Success(a, _) => if a == ip then [] else st
    case Check(a, at) => if a == ip && ReachesLimit(st, p) && at > st[|st| - 1] + p.lockout then [] else st
    case Abandon(_, _) => st
    case Sweep(ttl, at) => if st != [] && st[|st| - 1] < at - ttl then [] else st
  }

  predicate ReachesLimit(st: seq<int>, p: Policy) {
    |st| >= Burst(p)
  }

  predicate IsSuffix(st: seq<int>, fs: seq<int>) {
    |st| <= |fs| && fs[|fs| - |st|..] == st
  }

  ghost predicate Counts(e: Option<Entry>, st: seq<int>, p: Policy) {
    && Count(e) == |st|
    && (st != [] ==> e.value.lastFail == st[|st| - 1])
    && (e.Some? ==> e.value.lockedUntil == LockAfter(|st|, e.value.lastFail, p))
  }

  ghost predicate CountsIn(s: Sys, st: seq<int>, ip: string, p: Policy) {
    Counts(Lookup(s.attempts, ip), st, p) && IsSuffix(st, FailsOf(s, ip))
  }

  lemma SuffixGrows(st: seq<int>, fs: seq<int>, at: int)
    requires IsSuffix(st, fs)
    ensures IsSuffix(st + [at], fs + [at])
  {
  }

  lemma FailCounts(e: Option<Entry>, st: seq<int>, at: int, p: Policy)
    requires Counts(e, st, p)
    ensures Counts(Some(Fail(e, at, p)), st + [at], p)
  {
  }

  lemma CheckCounts(e: Option<Entry>, st: seq<int>, ip: string, at: int, p: Policy)
    requires Counts(e, st, p)
    ensures Counts(Checked(e, at, p), StreakStep(st, Check(ip, at), ip, p), p)
  {
  }

  lemma SweepCounts(s: Sys, st: seq<int>, ttl: int, at: int, ip: string, p: Policy)
    requires Counts(Lookup(s.attempts, ip), st, p)
    ensures Counts(Lookup(Swept(s.attempts, ttl, at), ip), StreakStep(st, Sweep(ttl, at), ip, p), p)
  {
  }

  lemma NothingCounts(p: Policy)
    ensures Counts(None, [], p)
  {
  }

  /** What a step does to its own address. */
  lemma OwnEffect(s: Sys, e: Event, p: Policy)
    requires !e.Sweep?
    ensures var (t, entry) := (Step(s, e, p), Lookup(s.attempts, e.ip));
      match e
      case Check(ip, at) => Lookup(t.attempts, ip) == Checked(entry, at, p) && FailsOf(t, ip) == FailsOf(s, ip)
      case Failure(ip, at) => Lookup(t.attempts, ip) == Some(Fail(entry, at, p))
          && FailsOf(t, ip) == FailsOf(s, ip) + [at]
      case Success(ip, _) => Lookup(t.attempts, ip) == None && FailsOf(t, ip) == []
      case _ => Lookup(t.attempts, e.ip) == entry && FailsOf(t, e.ip) == FailsOf(s, e.ip)
  {
  }

  lemma OwnCounts(s: Sys, st: seq<int>, e: Event, p: Policy)
    requires !e.Sweep? && CountsIn(s, st, e.ip, p)
    ensures CountsIn(Step(s, e, p), StreakStep(st, e, e.ip, p), e.ip, p)
  {
    hide IsSuffix, Fail, Checked, Counts, Step, Lookup, FailsOf, ReachesLimit;
    OwnEffect(s, e, p);
    NothingIsSuffix(FailsOf(s, e.ip));
    match e
    case Check(ip, at) => CheckCounts(Lookup(s.attempts, ip), st, ip, at, p);
    case Failure(ip, at) =>
      FailCounts(Lookup(s.attempts, ip), st, at, p);
      SuffixGrows(st, FailsOf(s, ip), at);
    case Success(_, _) =>
      NothingCounts(p);
      NothingIsSuffix([]);
    case _ =>
  }

  lemma StreakCounts(s: Sys, st: seq<int>, e: Event, ip: string, p: Policy)
    requires CountsIn(s, st, ip, p)
    ensures CountsIn(Step(s, e, p), StreakStep(st, e, ip, p), ip, p)
  {
    hide IsSuffix, Counts, Lookup, Swept;
    if e.Sweep? {
      SweepCounts(s, st, e.ttl, e.at, ip, p);
      NothingIsSuffix(FailsOf(s, ip));
    } else if e.ip != ip {
      OthersKeep(s, e, ip, p);
    } else {
      OwnCounts(s, st, e, p);
    }
  }

  lemma NothingIsSuffix(fs: seq<int>)
    ensures IsSuffix([], fs)
  {
  }

  lemma {:induction false} StreakRun(s: Sys, st: seq<int>, evs: seq<Event>, ip: string, p: Policy)
    requires CountsIn(s, st, ip, p)
    ensures CountsIn(Run(s, evs, p), Streak(st, evs, ip, p), ip, p)
    decreases |evs|
  {
    hide CountsIn, Step, StreakStep;
    if evs == [] {
    } else {
      StreakCounts(s, st, evs[0], ip, p);
      StreakRun(Step(s, evs[0], p), StreakStep(st, evs[0], ip, p), evs[1..], ip, p);
    }
  }

  lemma StreakCounted(evs: seq<Event>, ip: string, p: Policy)
    ensures CountsIn(Run(INIT, evs, p), StreakOf(evs, ip, p), ip, p)
  {
    hide Run, Streak;
    StreakRun(INIT, [], evs, ip, p);
  }

  lemma LockedBy(s: Sys, st: seq<int>, ip: string, p: Policy, at: int)
    requires CountsIn(s, st, ip, p)
    ensures Count(Lookup(s.attempts, ip)) == |st| && IsSuffix(st, FailsOf(s, ip))
    ensures Locked(Lookup(s.attempts, ip), at) <==> |st| >= Burst(p) && at < st[|st| - 1] + p.lockout
  {
  }

  /** When an address is locked, over every run: exactly while less than a lockout has passed since the
      last of at least Burst failures in a row. */
  lemma LockedExactly(evs: seq<Event>, ip: string, p: Policy, s: Sys, st: seq<int>, at: int)
    requires s == Run(INIT, evs, p) && st == StreakOf(evs, ip, p)
    ensures Count(Lookup(s.attempts, ip)) == |st| && IsSuffix(st, FailsOf(s, ip))
    ensures Locked(Lookup(s.attempts, ip), at) <==> |st| >= Burst(p) && at < st[|st| - 1] + p.lockout
  {
    hide *;
    StreakCounted(evs, ip, p);
    LockedBy(s, st, ip, p, at);
  }

  // ----- A lock holds -----

  /** The last failure locked the address, and no later one came before t. */
  ghost predicate LockedFrom(s: Sys, ip: string, t: int, p: Policy) {
    var fs := FailsOf(s, ip);
    && ip in s.attempts && s.attempts[ip].count >= p.maxAttempts && s.attempts[ip].count > 0
    && fs != [] && fs[|fs| - 1] >= t && s.attempts[ip].lastFail == fs[|fs| - 1]
    && s.attempts[ip].lockedUntil == Some(fs[|fs| - 1] + p.lockout)
  }

  lemma LockStays(s: Sys, e: Event, ip: string, t: int, p: Policy, width: nat)
    requires LockedFrom(s, ip, t, p) && Enabled(s, e, p, width)
    requires t <= e.at < t + p.lockout && (e.Success? ==> e.ip != ip)
    ensures LockedFrom(Step(s, e, p), ip, t, p) && Step(s, e, p).admitted[ip] <= s.admitted[ip]
  {
  }

  lemma {:induction false} LockStaysOn(s: Sys, evs: seq<Event>, ip: string, t: int, p: Policy, width: nat)
    requires LockedFrom(s, ip, t, p) && Legal(s, evs, p, width) && t <= s.now
    requires forall e :: e in evs ==> e.at < t + p.lockout && (e.Success? ==> e.ip != ip)
    ensures LockedFrom(Run(s, evs, p), ip, t, p) && Run(s, evs, p).admitted[ip] <= s.admitted[ip]
    decreases |evs|
  {
    hide LockedFrom;
    if evs == [] {
    } else {
      assert evs[0] in evs;
      LockStays(s, evs[0], ip, t, p, width);
      LockStaysOn(Step(s, evs[0], p), evs[1..], ip, t, p, width);
    }
  }

  /** A failure that locks the address at time t keeps it locked for the whole lockout: through any calls
      before t + lockout, on any addresses, sweeps included, short of a success of an attempt that was let
      through before. Meanwhile nobody new is let through, and only a further failure of such an attempt
      moves the end of the lockout. */
  lemma LockHolds(before: seq<Event>, ip: string, t: int, after: seq<Event>, p: Policy, width: nat, at: int)
    requires width > 0 && Legal(INIT, before, p, width) && Enabled(Run(INIT, before, p), Failure(ip, t), p, width)
    requires var s := Step(Run(INIT, before, p), Failure(ip, t), p);
      && Locked(Lookup(s.attempts, ip), t) && Legal(s, after, p, width)
      && forall e :: e in after ==> e.at < t + p.lockout && (e.Success? ==> e.ip != ip)
    ensures var s := Step(Run(INIT, before, p), Failure(ip, t), p);
      var r := Run(s, after, p);
      var fs := FailsOf(r, ip);
      && fs != [] && fs[|fs| - 1] >= t && r.admitted[ip] <= s.admitted[ip]
      && (Locked(Lookup(r.attempts, ip), at) <==> at < fs[|fs| - 1] + p.lockout)
  {
    ReachableInv(before, ip, p, width);
    var s := Step(Run(INIT, before, p), Failure(ip, t), p);
    StepKeeps(Run(INIT, before, p), Failure(ip, t), ip, p, width);
    assert LockedFrom(s, ip, t, p);
    LockStaysOn(s, after, ip, t, p, width);
  }

  // ----- What the documentation promises -----

  /** The last Burst failures lie within a lockout of each other. */
  predicate Close(fs: seq<int>, p: Policy) {
    |fs| >= Burst(p) && fs[|fs| - 1] - fs[|fs| - Burst(p)] <= p.lockout
  }

  /** An address is locked only after maxAttempts failures within lockoutDuration. */
  ghost predicate AsDocumented(p: Policy, width: nat) {
    forall evs: seq<Event>, ip: string, at: int ::
      Legal(INIT, evs, p, width) && Run(INIT, evs, p).now <= at && Locked(Lookup(Run(INIT, evs, p).attempts, ip), at)
      ==> Close(FailsOf(Run(INIT, evs, p), ip), p)
  }

  lemma {:induction false} Extend(s: Sys, evs: seq<Event>, e: Event, p: Policy, width: nat)
    requires Legal(s, evs, p, width) && Enabled(Run(s, evs, p), e, p, width)
    ensures Legal(s, evs + [e], p, width) && Run(s, evs + [e], p) == Step(Run(s, evs, p), e, p)
    decreases |evs|
  {
    hide Step, Enabled;
    if evs == [] {
      assert [e][1..] == [] && evs + [e] == [e];
    } else {
      assert (evs + [e])[1..] == evs[1..] + [e];
      Extend(Step(s, evs[0], p), evs[1..], e, p, width);
    }
  }

  /** One more attempt that is let through and fails. */
  lemma FailOnce(evs: seq<Event>, ip: string, at: int, p: Policy, width: nat) returns (more: seq<Event>)
    requires width > 0 && Legal(INIT, evs, p, width) && Run(INIT, evs, p).now <= at
    requires Run(INIT, evs, p).admitted == multiset{}
    requires Count(Lookup(Run(INIT, evs, p).attempts, ip)) < p.maxAttempts
    requires !Locked(Lookup(Run(INIT, evs, p).attempts, ip), at)
    ensures Legal(INIT, more, p, width)
    ensures var (s, t) := (Run(INIT, evs, p), Run(INIT, more, p));
      && t.now == at && t.admitted == multiset{}
      && t.attempts == s.attempts[ip := Fail(Lookup(s.attempts, ip), at, p)] && FailsOf(t, ip) == FailsOf(s, ip) + [at]
  {
    var s := Run(INIT, evs, p);
    Extend(INIT, evs, Check(ip, at), p, width);
    var t := Step(s, Check(ip, at), p);
    assert t.attempts == s.attempts;
    Extend(INIT, evs + [Check(ip, at)], Failure(ip, at), p, width);
    more := evs + [Check(ip, at)] + [Failure(ip, at)];
  }

  /** A run with k failures at time zero, short of the limit. */
  lemma {:induction false} FailAtZero(ip: string, k: nat, p: Policy, width: nat) returns (evs: seq<Event>)
    requires width > 0 && k < p.maxAttempts
    ensures Legal(INIT, evs, p, width)
    ensures var s := Run(INIT, evs, p);
      && s.now == 0 && s.admitted == multiset{} && FailsOf(s, ip) == seq(k, _ => 0)
      && Lookup(s.attempts, ip) == if k == 0 then None else Some(Entry(k, 0, None))
  {
    if k == 0 {
      evs := [];
    } else {
      var fewer := FailAtZero(ip, k - 1, p, width);
      evs := FailOnce(fewer, ip, 0, p, width);
    }
  }

  /** The counter does not look at the time between failures. So an address is locked only as documented
      exactly under the policies for which one failure is enough or no lock ever holds; under every other
      policy maxAttempts failures longer apart than the lockout lock it too. */
  lemma CounterIgnoresDistance(p: Policy, width: nat)
    requires width > 0
    ensures AsDocumented(p, width) <==> p.maxAttempts <= 1 || p.lockout <= 0
  {
    if p.maxAttempts <= 1 || p.lockout <= 0 {
      forall evs: seq<Event>, ip: string, at: int | Legal(INIT, evs, p, width) && Run(INIT, evs, p).now <= at
          && Locked(Lookup(Run(INIT, evs, p).attempts, ip), at)
        ensures Close(FailsOf(Run(INIT, evs, p), ip), p)
      {
        ReachableInv(evs, ip, p, width);
      }
    } else {
      var ip, far := "", p.lockout + 1;
      var evs := FailAtZero(ip, p.maxAttempts - 1, p, width);
      var more := FailOnce(evs, ip, far, p, width);
      var fs := FailsOf(Run(INIT, more, p), ip);
      assert fs[|fs| - Burst(p)] == 0 && fs[|fs| - 1] == far;
      assert Locked(Lookup(Run(INIT, more, p).attempts, ip), far) && !Close(fs, p);
    }
  }
}
