/** The in-memory session store of pkg/auth/auth.go, over an explicit
    non-decreasing clock. A fresh random identifier is an argument, None when the
    random source fails. */
module SessionStore {
  import opened Prelude

  datatype Role = Admin | Read

  datatype Session = Session(username: string, role: Role, created: int, expires: int, clientIP: string,
      userAgent: string)

  type Table = map<string, Session>

  // ----- The operations as functions of the table -----

  /** Get and GetWithRenew accept a session up to and including its expiry time. */
  predicate Usable(m: Table, sid: string, now: int) {
    sid in m && now <= m[sid].expires
  }

  function Renewed(m: Table, sid: string, now: int, later: int, ttl: int): Table {
    if Usable(m, sid, now) then m[sid := m[sid].(expires := later + ttl)] else m - {sid}
  }

  function WithoutUser(m: Table, user: string): Table {
    map sid | sid in m && m[sid].username != user :: m[sid]
  }

  function Swept(m: Table, now: int): Table {
    map sid | sid in m && now <= m[sid].expires :: m[sid]
  }

  /** All and CountByUser leave out a session at its expiry time already. */
  function Active(m: Table, now: int): Table {
    map sid | sid in m && now < m[sid].expires :: m[sid]
  }

  function ActiveOf(m: Table, user: string, now: int): set<string> {
    set sid | sid in m && m[sid].username == user && now < m[sid].expires
  }

  function New(user: string, role: Role, now: int, ttl: int, ip: string, agent: string): Session {
    Session(user, role, now, now + ttl, ip, agent)
  }

  class Store {
    var sessions: Table
    const ttl: int

    constructor (ttl: int)
      ensures sessions == map[] && this.ttl == ttl
    {
      sessions := map[];
      this.ttl := ttl;
    }

    method Create(user: string, role: Role, random: Option<string>, now: int) returns (sid: Option<string>)
      modifies this`sessions
      ensures sid == random
      ensures random.None? ==> sessions == old(sessions)
      ensures random.Some? ==> sessions == old(sessions)[random.value := Session(user, role, now, now + ttl, "", "")]
      ensures sessions == Step(old(sessions), Event(Call.Create(user, role, "", "", random), now, now), ttl)
    {
      if random.None? {
        return None;
      }
      sessions := sessions[random.value := New(user, role, now, ttl, "", "")];
      return random;
    }

    method CreateWithMetadata(user: string, role: Role, ip: string, agent: string, random: Option<string>, now: int)
      returns (sid: Option<string>)
      modifies this`sessions
      ensures var others: Table := map s | s in old(sessions) && old(sessions)[s].username != user :: old(sessions)[s];
        sessions == if random.None? then others
                    else others[random.value := Session(user, role, now, now + ttl, ip, agent)]
      ensures sessions == Step(old(sessions), Event(Call.CreateWithMetadata(user, role, ip, agent, random), now, now),
          ttl)
      ensures sid == random
      ensures forall s :: s in sessions && sessions[s].username == user ==> Some(s) == sid
    {
      var todo := sessions.Keys;
      while todo != {}
        invariant todo <= sessions.Keys <= old(sessions).Keys
        invariant forall s :: s in sessions ==> sessions[s] == old(sessions)[s]
        invariant forall s :: s in old(sessions) && s !in todo ==>
            (s in sessions <==> old(sessions)[s].username != user)
        decreases |todo|
      {
        var s :| s in todo;
        todo := todo - {s};
        if sessions[s].username == user {
          sessions := sessions - {s};
        }
      }
      assert sessions == WithoutUser(old(sessions), user);
      if random.None? {
        return None;
      }
      sessions := Insert(sessions, random, New(user, role, now, ttl, ip, agent));
      return random;
    }

    method Get(sid: string, now: int) returns (session: Option<Session>)
      ensures session == if sid in sessions && now <= sessions[sid].expires then Some(sessions[sid]) else None
      ensures Found(session) == Reply(sessions, Event(Call.Get(sid), now, now), ttl)
    {
      if sid !in sessions || now > sessions[sid].expires {
        return None;
      }
      return Some(sessions[sid]);
    }

    method GetWithRenew(sid: string, now: int, later: int) returns (session: Option<Session>)
      modifies this`sessions
      ensures session.Some? <==> sid in old(sessions) && now <= old(sessions)[sid].expires
      ensures session.Some? ==>
        session.value == old(sessions)[sid].(expires := later + ttl) && sessions == old(sessions)[sid := session.value]
      ensures session.None? ==> sessions == old(sessions) - {sid}
      ensures sessions == Step(old(sessions), Event(Call.GetWithRenew(sid), now, later), ttl)
      ensures Found(session) == Reply(old(sessions), Event(Call.GetWithRenew(sid), now, later), ttl)
    {
      if sid !in sessions || now > sessions[sid].expires {
        if sid in sessions {
          sessions := sessions - {sid};
        }
        return None;
      }
      sessions := sessions[sid := sessions[sid].(expires := later + ttl)];
      return Some(sessions[sid]);
    }

    method Delete(sid: string)
      modifies this`sessions
      ensures sessions == old(sessions) - {sid}
    {
      sessions := sessions - {sid};
    }

    method Sweep(now: int) returns (removed: nat)
      modifies this`sessions
      ensures sessions == map s | s in old(sessions) && now <= old(sessions)[s].expires :: old(sessions)[s]
      ensures sessions == Swept(old(sessions), now) && removed == |old(sessions)| - |sessions|
    {
      var todo := sessions.Keys;
      removed := 0;
      while todo != {}
        invariant todo <= sessions.Keys <= old(sessions).Keys
        invariant forall s :: s in sessions ==> sessions[s] == old(sessions)[s]
        invariant forall s :: s in old(sessions) && s !in todo ==> (s in sessions <==> now <= old(sessions)[s].expires)
        invariant removed == |old(sessions)| - |sessions|
        decreases |todo|
      {
        var s :| s in todo;
        todo := todo - {s};
        if now > sessions[s].expires {
          assert (sessions - {s}).Keys == sessions.Keys - {s};
          sessions := sessions - {s};
          removed := removed + 1;
        }
      }
    }

    method All(now: int) returns (out: Table)
      ensures out == map s | s in sessions && now < sessions[s].expires :: sessions[s]
      ensures out == Active(sessions, now)
    {
      out := map[];
      var todo := sessions.Keys;
      while todo != {}
        invariant todo <= sessions.Keys && out.Keys <= sessions.Keys
        invariant forall s :: s in sessions && s !in todo ==> (s in out <==> now < sessions[s].expires)
        invariant forall s :: s in out ==> out[s] == sessions[s] && s !in todo
        decreases |todo|
      {
        var s :| s in todo;
        todo := todo - {s};
        if now < sessions[s].expires {
          out := out[s := sessions[s]];
        }
      }
    }

    method CountByUser(user: string, now: int) returns (count: nat)
      ensures count == |set s | s in sessions && sessions[s].username == user && now < sessions[s].expires|
      ensures count == |ActiveOf(sessions, user, now)|
    {
      count := 0;
      var todo := sessions.Keys;
      ghost var seen: set<string> := {};
      while todo != {}
        invariant todo <= sessions.Keys && count == |seen|
        invariant seen == set s | s in ActiveOf(sessions, user, now) && s !in todo
        decreases |todo|
      {
        var s :| s in todo;
        todo := todo - {s};
        if sessions[s].username == user && now < sessions[s].expires {
          count := count + 1;
          seen := seen + {s};
        }
      }
      assert seen == ActiveOf(sessions, user, now);
    }

    method CreateWithLimit(user: string, role: Role, limit: int, random: Option<string>, now: int, later: int)
      returns (sid: Option<string>)
      modifies this`sessions
      ensures
        var active := set s | s in old(sessions) && old(sessions)[s].username == user && now < old(sessions)[s].expires;
        sid == if limit > 0 && |active| >= limit then None else random
      ensures sessions == if sid.None? then old(sessions)
                          else old(sessions)[sid.value := Session(user, role, later, later + ttl, "", "")]
      ensures sessions == Step(old(sessions), Event(Call.CreateWithLimit(user, role, limit, random), now, later), ttl)
      ensures Created(sid) == Reply(old(sessions), Event(Call.CreateWithLimit(user, role, limit, random), now, later),
          ttl)
    {
      if limit > 0 {
        var count := CountByUser(user, now);
        if count >= limit {
          return None;
        }
      }
      sid := Create(user, role, random, later);
    }

    method RevokeAllForUser(user: string) returns (removed: nat)
      modifies this`sessions
      ensures sessions == map s | s in old(sessions) && old(sessions)[s].username != user :: old(sessions)[s]
      ensures sessions == WithoutUser(old(sessions), user) && removed == |old(sessions)| - |sessions|
    {
      var todo := sessions.Keys;
      removed := 0;
      while todo != {}
        invariant todo <= sessions.Keys <= old(sessions).Keys
        invariant forall s :: s in sessions ==> sessions[s] == old(sessions)[s]
        invariant forall s :: s in old(sessions) && s !in todo ==>
            (s in sessions <==> old(sessions)[s].username != user)
        invariant removed == |old(sessions)| - |sessions|
        decreases |todo|
      {
        var s :| s in todo;
        todo := todo - {s};
        if sessions[s].username == user {
          assert (sessions - {s}).Keys == sessions.Keys - {s};
          sessions := sessions - {s};
          removed := removed + 1;
        }
      }
    }
  }

  // ----- Runs -----

  datatype Call =
    | Get(sid: string)
    | GetWithRenew(sid: string)
    | Delete(sid: string)
    | Sweep
    | All
    | CountByUser(user: string)
    | Create(user: string, role: Role, ip: string, agent: string, random: Option<string>)
    | CreateWithMetadata(user: string, role: Role, ip: string, agent: string, random: Option<string>)
    | CreateWithLimit(user: string, role: Role, limit: int, random: Option<string>)
    | RevokeAllForUser(user: string)

  /** A call, and the clock when it starts and ends: GetWithRenew and CreateWithLimit read the clock
      twice. CreateWithMetadata and CreateWithLimit take the lock twice; a run in which other calls come
      in between is one that has the halves as separate calls, RevokeAllForUser or CountByUser and then
      Create. */
  datatype Event = Event(call: Call, at: int, end: int)

  datatype Answer =
    | Silent
    | Found(session: Option<Session>)
    | Sessions(table: Table)
    | Number(n: nat)
    | Created(sid: Option<string>)

  function Insert(m: Table, sid: Option<string>, s: Session): Table {
    if sid.Some? then m[sid.value := s] else m
  }

  predicate Full(m: Table, user: string, limit: int, now: int) {
    limit > 0 && |ActiveOf(m, user, now)| >= limit
  }

  function Step(m: Table, e: Event, ttl: int): Table {
    match e.call
    case Get(_) => m
    case GetWithRenew(sid) => Renewed(m, sid, e.at, e.end, ttl)
    case Delete(sid) => m - {sid}
    case Sweep => Swept(m, e.at)
    case All => m
    case CountByUser(_) => m
    case Create(user, role, ip, agent, random) => Insert(m, random, New(user, role, e.at, ttl, ip, agent))
    case CreateWithMetadata(user, role, ip, agent, random) =>
      Insert(WithoutUser(m, user), random, New(user, role, e.at, ttl, ip, agent))
    case CreateWithLimit(user, role, limit, random) =>
      if Full(m, user, limit, e.at) then m else Insert(m, random, New(user, role, e.end, ttl, "", ""))
    case RevokeAllForUser(user) => WithoutUser(m, user)
  }

  /** The answers a client can see. The numbers of entries removed by Sweep and
      RevokeAllForUser are not among them: those do depend on when sweeps ran. */
  function Reply(m: Table, e: Event, ttl: int): Answer {
    match e.call
    case Get(sid) => Found(if Usable(m, sid, e.at) then Some(m[sid]) else None)
    case GetWithRenew(sid) => Found(if Usable(m, sid, e.at) then Some(Renewed(m, sid, e.at, e.end, ttl)[sid]) else None)
    case All => Sessions(Active(m, e.at))
    case CountByUser(user) => Number(|ActiveOf(m, user, e.at)|)
    case Create(_, _, _, _, random) => Created(random)
    case CreateWithMetadata(_, _, _, _, random) => Created(random)
    case CreateWithLimit(user, _, limit, random) => Created(if Full(m, user, limit, e.at) then None else random)
    case _ => Silent
  }

  function Replies(m: Table, evs: seq<Event>, ttl: int): seq<Answer>
    decreases |evs|
  {
    if evs == [] then []
    else (if evs[0].call.Sweep? then [] else [Reply(m, evs[0], ttl)]) + Replies(Step(m, evs[0], ttl), evs[1..], ttl)
  }

  function NoSweeps(evs: seq<Event>): seq<Event> {
    if evs == [] then []
    else (if evs[0].call.Sweep? then [] else [evs[0]]) + NoSweeps(evs[1..])
  }

  ghost predicate Ordered(evs: seq<Event>, now: int)
    decreases |evs|
  {
    evs == [] || (now <= evs[0].at <= evs[0].end && Ordered(evs[1..], evs[0].end))
  }

  /** Two tables that hold the same sessions, apart from expired ones. */
  ghost predicate Agree(a: Table, b: Table, now: int) {
    forall sid :: (Usable(a, sid, now) <==> Usable(b, sid, now)) && (Usable(a, sid, now) ==> a[sid] == b[sid])
  }

  lemma AgreeLater(a: Table, b: Table, now: int, later: int)
    requires Agree(a, b, now) && now <= later
    ensures Agree(a, b, later)
  {
    forall sid
      ensures (Usable(a, sid, later) <==> Usable(b, sid, later)) && (Usable(a, sid, later) ==> a[sid] == b[sid])
    {
      assert Usable(a, sid, later) ==> Usable(a, sid, now);
      assert Usable(b, sid, later) ==> Usable(b, sid, now);
    }
  }

  lemma AgreeOnActive(a: Table, b: Table, now: int)
    requires Agree(a, b, now)
    ensures Active(a, now) == Active(b, now)
    ensures forall user :: ActiveOf(a, user, now) == ActiveOf(b, user, now)
  {
    forall sid ensures sid in Active(a, now) <==> sid in Active(b, now) {
      assert sid in Active(a, now) ==> Usable(a, sid, now);
      assert sid in Active(b, now) ==> Usable(b, sid, now);
    }
    forall sid | sid in Active(a, now) ensures a[sid] == b[sid] {
      assert Usable(a, sid, now);
    }
    forall user ensures ActiveOf(a, user, now) == ActiveOf(b, user, now) {
      forall sid ensures sid in ActiveOf(a, user, now) <==> sid in ActiveOf(b, user, now) {
        assert sid in ActiveOf(a, user, now) ==> sid in Active(a, now);
        assert sid in ActiveOf(b, user, now) ==> sid in Active(b, now);
      }
    }
  }

  lemma SweepAgrees(a: Table, b: Table, now: int)
    requires Agree(a, b, now)
    ensures Agree(Swept(a, now), b, now)
  {
    forall sid ensures Usable(Swept(a, now), sid, now) <==> Usable(a, sid, now) {
    }
  }

  lemma InsertAgrees(a: Table, b: Table, sid: Option<string>, s: Session, now: int)
    requires Agree(a, b, now)
    ensures Agree(Insert(a, sid, s), Insert(b, sid, s), now)
  {
    var a', b' := Insert(a, sid, s), Insert(b, sid, s);
    forall x ensures (Usable(a', x, now) <==> Usable(b', x, now)) && (Usable(a', x, now) ==> a'[x] == b'[x]) {
      assert Usable(a, x, now) <==> Usable(b, x, now);
    }
  }

  lemma RemoveAgrees(a: Table, b: Table, user: string, sid: string, now: int)
    requires Agree(a, b, now)
    ensures Agree(WithoutUser(a, user), WithoutUser(b, user), now)
    ensures Agree(a - {sid}, b - {sid}, now)
  {
    forall x
      ensures Usable(WithoutUser(a, user), x, now) <==> Usable(WithoutUser(b, user), x, now)
      ensures Usable(WithoutUser(a, user), x, now) ==> a[x] == b[x]
      ensures Usable(a - {sid}, x, now) <==> Usable(b - {sid}, x, now)
      ensures Usable(a - {sid}, x, now) ==> a[x] == b[x]
    {
      assert Usable(a, x, now) <==> Usable(b, x, now);
    }
  }

  lemma ReplyAgrees(a: Table, b: Table, e: Event, ttl: int)
    requires Agree(a, b, e.at) && !e.call.Sweep?
    ensures Reply(a, e, ttl) == Reply(b, e, ttl)
  {
    match e.call
    case Get(sid) => assert Usable(a, sid, e.at) <==> Usable(b, sid, e.at);
    case GetWithRenew(sid) => assert Usable(a, sid, e.at) <==> Usable(b, sid, e.at);
    case All => AgreeOnActive(a, b, e.at);
    case CountByUser(user) => AgreeOnActive(a, b, e.at);
    case CreateWithLimit(user, _, _, _) => AgreeOnActive(a, b, e.at);
    case _ =>
  }

  lemma RenewAgrees(a: Table, b: Table, sid: string, now: int, later: int, ttl: int)
    requires Agree(a, b, now)
    ensures Agree(Renewed(a, sid, now, later, ttl), Renewed(b, sid, now, later, ttl), now)
  {
    assert Usable(a, sid, now) <==> Usable(b, sid, now);
    RemoveAgrees(a, b, "", sid, now);
    if Usable(a, sid, now) {
      InsertAgrees(a, b, Some(sid), a[sid].(expires := later + ttl), now);
    }
  }

  lemma LimitAgrees(a: Table, b: Table, user: string, limit: int, random: Option<string>, s: Session, now: int)
    requires Agree(a, b, now)
    ensures Full(a, user, limit, now) == Full(b, user, limit, now)
    ensures Agree(if Full(a, user, limit, now) then a else Insert(a, random, s),
                  if Full(b, user, limit, now) then b else Insert(b, random, s), now)
  {
    AgreeOnActive(a, b, now);
    assert ActiveOf(a, user, now) == ActiveOf(b, user, now);
    InsertAgrees(a, b, random, s, now);
  }

  lemma StepAgrees(a: Table, b: Table, e: Event, ttl: int)
    requires Agree(a, b, e.at) && !e.call.Sweep?
    ensures Agree(Step(a, e, ttl), Step(b, e, ttl), e.at)
  {
    match e.call
    case GetWithRenew(sid) => RenewAgrees(a, b, sid, e.at, e.end, ttl);
    case Delete(sid) => RemoveAgrees(a, b, "", sid, e.at);
    case Create(user, role, ip, agent, random) =>
      InsertAgrees(a, b, random, New(user, role, e.at, ttl, ip, agent), e.at);
    case CreateWithMetadata(user, role, ip, agent, random) =>
      RemoveAgrees(a, b, user, "", e.at);
      InsertAgrees(WithoutUser(a, user), WithoutUser(b, user), random, New(user, role, e.at, ttl, ip, agent), e.at);
    case CreateWithLimit(user, role, limit, random) =>
      LimitAgrees(a, b, user, limit, random, New(user, role, e.end, ttl, "", ""), e.at);
    case RevokeAllForUser(user) => RemoveAgrees(a, b, user, "", e.at);
    case _ =>
  }

  /** Two stores that agree on unexpired sessions answer every later sequence of calls alike, with
      sweeps inserted anywhere in one of them. */
  lemma {:induction false} SweepsAreInvisible(a: Table, b: Table, evs: seq<Event>, now: int, ttl: int)
    requires Agree(a, b, now) && Ordered(evs, now)
    ensures Replies(a, evs, ttl) == Replies(b, NoSweeps(evs), ttl)
    decreases |evs|
  {
    if evs == [] {
    } else {
      var e := evs[0];
      AgreeLater(a, b, now, e.at);
      if e.call.Sweep? {
        SweepAgrees(a, b, e.at);
        AgreeLater(Step(a, e, ttl), b, e.at, e.end);
        SweepsAreInvisible(Step(a, e, ttl), b, evs[1..], e.end, ttl);
        assert NoSweeps(evs) == NoSweeps(evs[1..]);
      } else {
        StepAgrees(a, b, e, ttl);
        ReplyAgrees(a, b, e, ttl);
        AgreeLater(Step(a, e, ttl), Step(b, e, ttl), e.at, e.end);
        SweepsAreInvisible(Step(a, e, ttl), Step(b, e, ttl), evs[1..], e.end, ttl);
        assert NoSweeps(evs)[1..] == NoSweeps(evs[1..]);
      }
    }
  }

  /** Hence two histories that differ only in their sweeps are told apart by no answer. */
  lemma SweepPlacementInvisible(m: Table, evs: seq<Event>, others: seq<Event>, now: int, ttl: int)
    requires Ordered(evs, now) && Ordered(others, now) && NoSweeps(evs) == NoSweeps(others)
    ensures Replies(m, evs, ttl) == Replies(m, others, ttl)
  {
    SweepsAreInvisible(m, m, evs, now, ttl);
    SweepsAreInvisible(m, m, others, now, ttl);
  }
}
