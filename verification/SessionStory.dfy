/** What each call on the session store answers, told from the calls before it alone. */
module SessionStory {
  import opened Prelude
  import opened SessionStore

  /** The table after a run, call by call. */
  function After(evs: seq<Event>, ttl: int): Table {
    if evs == [] then map[] else Step(After(evs[..|evs| - 1], ttl), evs[|evs| - 1], ttl)
  }

  /** A session as its calls tell it: who it was created for, when it was created, when its creation or its
      last renewal ended, and whether a sweep has taken it since it expired. */
  datatype Life = Life(user: string, role: Role, ip: string, agent: string, born: int, used: int, swept: bool)

  /** A session created at born and last used at used is good up to and including used + ttl. */
  function Told(l: Life, ttl: int): Session {
    Session(l.user, l.role, l.born, l.used + ttl, l.ip, l.agent)
  }

  /** One more call. The session begins with a creation that returned its identifier. It ends with its
      deletion, with the revocation or a new login of its user, and with a renewal that comes too late; a
      renewal that does not moves its expiry. */
  function Next(h: Option<Life>, e: Event, sid: string, refused: bool, ttl: int): Option<Life> {
    match e.call
    case Create(user, role, ip, agent, random) =>
      if random == Some(sid) then Some(Life(user, role, ip, agent, e.at, e.at, false)) else h
    case CreateWithMetadata(user, role, ip, agent, random) =>
      if random == Some(sid) then Some(Life(user, role, ip, agent, e.at, e.at, false))
      else if h.Some? && h.value.user == user then None
      else h
    case CreateWithLimit(user, role, _, random) =>
      if random == Some(sid) && !refused then Some(Life(user, role, "", "", e.end, e.end, false)) else h
    case GetWithRenew(id) =>
      if id != sid || h.None? then h
      else if e.at > h.value.used + ttl || h.value.swept then None
      else Some(h.value.(used := e.end))
    case Delete(id) => if id == sid then None else h
    case RevokeAllForUser(user) => if h.Some? && h.value.user == user then None else h
    case Sweep => if h.Some? && e.at > h.value.used + ttl then Some(h.value.(swept := true)) else h
    case _ => h
  }

  ghost function Story(evs: seq<Event>, sid: string, ttl: int): Option<Life>
    decreases |evs|, 2
  {
    if evs == [] then None
    else
      var past, e := evs[..|evs| - 1], evs[|evs| - 1];
      Next(Story(past, sid, ttl), e, sid, Refused(past, e, ttl), ttl)
  }

  /** A creation with a limit is refused when the user has that many sessions that have not reached their
      expiry time. */
  ghost predicate Refused(past: seq<Event>, e: Event, ttl: int)
    decreases |past|, 5
  {
    e.call.CreateWithLimit? && e.call.limit > 0 && |ActiveFor(past, e.call.user, e.at, ttl)| >= e.call.limit
  }

  ghost function ActiveFor(past: seq<Event>, user: string, now: int, ttl: int): set<string>
    decreases |past|, 4
  {
    set sid | sid in Minted(past) && IsActive(past, sid, now, ttl) && Story(past, sid, ttl).value.user == user
  }

  ghost predicate IsActive(past: seq<Event>, sid: string, now: int, ttl: int)
    decreases |past|, 3
  {
    var h := Story(past, sid, ttl);
    h.Some? && !h.value.swept && now < h.value.used + ttl
  }

  function MintedBy(e: Event): set<string> {
    match e.call
    case Create(_, _, _, _, random) => set sid | sid in OptSeq(random)
    case CreateWithMetadata(_, _, _, _, random) => set sid | sid in OptSeq(random)
    case CreateWithLimit(_, _, _, random) => set sid | sid in OptSeq(random)
    case _ => {}
  }

  /** The identifiers that calls have drawn. */
  function Minted(evs: seq<Event>): set<string> {
    if evs == [] then {} else Minted(evs[..|evs| - 1]) + MintedBy(evs[|evs| - 1])
  }

  // ----- The table is what the calls tell -----

  ghost predicate Agrees(m: Table, h: Option<Life>, sid: string, ttl: int) {
    if h.Some? && !h.value.swept then sid in m && m[sid] == Told(h.value, ttl) else sid !in m
  }

  lemma {:induction false} StoryMinted(evs: seq<Event>, sid: string, ttl: int)
    requires Story(evs, sid, ttl).Some?
    ensures sid in Minted(evs)
  {
    if evs == [] {
    } else if Story(evs[..|evs| - 1], sid, ttl).Some? {
      StoryMinted(evs[..|evs| - 1], sid, ttl);
    } else {
      var e := evs[|evs| - 1];
      assert sid in MintedBy(e);
    }
  }

  lemma NextAgrees(m: Table, h: Option<Life>, e: Event, sid: string, ttl: int)
    requires Agrees(m, h, sid, ttl) && !e.call.CreateWithLimit?
    ensures Agrees(Step(m, e, ttl), Next(h, e, sid, false, ttl), sid, ttl)
  {
  }

  lemma LimitAgreesNext(m: Table, h: Option<Life>, e: Event, sid: string, ttl: int)
    requires Agrees(m, h, sid, ttl) && e.call.CreateWithLimit?
    ensures Agrees(Step(m, e, ttl), Next(h, e, sid, Full(m, e.call.user, e.call.limit, e.at), ttl), sid, ttl)
  {
  }

  /** The table holds exactly the active sessions that the calls tell of. */
  lemma ActiveAgrees(evs: seq<Event>, user: string, now: int, ttl: int)
    requires forall sid :: Agrees(After(evs, ttl), Story(evs, sid, ttl), sid, ttl)
    ensures ActiveOf(After(evs, ttl), user, now) == ActiveFor(evs, user, now, ttl)
  {
    var m := After(evs, ttl);
    forall sid ensures sid in ActiveOf(m, user, now) <==> sid in ActiveFor(evs, user, now, ttl) {
      assert Agrees(m, Story(evs, sid, ttl), sid, ttl);
      if Story(evs, sid, ttl).Some? {
        StoryMinted(evs, sid, ttl);
      }
    }
  }

  lemma {:induction false} TableIsStory(evs: seq<Event>, ttl: int)
    ensures forall sid :: Agrees(After(evs, ttl), Story(evs, sid, ttl), sid, ttl)
    decreases |evs|
  {
    hide Agrees, Next, Step, ActiveOf, ActiveFor;
    if evs == [] {
      NothingAgrees(ttl);
    } else {
      var past, e := evs[..|evs| - 1], evs[|evs| - 1];
      TableIsStory(past, ttl);
      forall sid ensures Agrees(After(evs, ttl), Story(evs, sid, ttl), sid, ttl) {
        assert Agrees(After(past, ttl), Story(past, sid, ttl), sid, ttl);
        if e.call.CreateWithLimit? {
          ActiveAgrees(past, e.call.user, e.at, ttl);
          LimitAgreesNext(After(past, ttl), Story(past, sid, ttl), e, sid, ttl);
        } else {
          NextAgrees(After(past, ttl), Story(past, sid, ttl), e, sid, ttl);
        }
      }
    }
  }

  lemma NothingAgrees(ttl: int)
    ensures forall sid :: Agrees(map[], None, sid, ttl)
  {
  }

  // ----- The answers -----

  /** The session that an identifier stands for at a time: the one its story tells, unless it has expired. */
  ghost function Current(evs: seq<Event>, sid: string, now: int, ttl: int): Option<Session> {
    var h := Story(evs, sid, ttl);
    if h.Some? && now <= h.value.used + ttl then Some(Told(h.value, ttl)) else None
  }

  /** The end of the last event of a run. */
  function End(evs: seq<Event>, start: int): int {
    if evs == [] then start else evs[|evs| - 1].end
  }

  ghost predicate InOrder(evs: seq<Event>, start: int) {
    evs == [] ||
    var past, e := evs[..|evs| - 1], evs[|evs| - 1];
    InOrder(past, start) && End(past, start) <= e.at <= e.end
  }

  /** A swept session has expired for good. */
  lemma {:induction false} SweptIsExpired(evs: seq<Event>, sid: string, start: int, ttl: int)
    requires InOrder(evs, start)
    ensures var h := Story(evs, sid, ttl);
      h.Some? && h.value.swept ==> h.value.used + ttl < End(evs, start)
  {
    if evs == [] {
    } else {
      SweptIsExpired(evs[..|evs| - 1], sid, start, ttl);
    }
  }

  /** Every answer of the store, over every ordered run. Get returns the session its identifier stands for
      then, GetWithRenew that session with its expiry moved to a ttl after now, and nothing if there is none;
      CreateWithLimit refuses exactly when the user has that many active sessions; CountByUser counts them and
      All lists all of them. */
  lemma AnswersAsTold(evs: seq<Event>, e: Event, start: int, ttl: int)
    requires InOrder(evs, start) && End(evs, start) <= e.at <= e.end
    ensures match e.call
      case Get(sid) => Reply(After(evs, ttl), e, ttl) == Found(Current(evs, sid, e.at, ttl))
      case GetWithRenew(sid) =>
        var c := Current(evs, sid, e.at, ttl);
        Reply(After(evs, ttl), e, ttl) == Found(if c.Some? then Some(c.value.(expires := e.end + ttl)) else None)
      case CreateWithLimit(user, _, limit, random) =>
        Reply(After(evs, ttl), e, ttl) ==
          Created(if limit > 0 && |ActiveFor(evs, user, e.at, ttl)| >= limit then None else random)
      case CountByUser(user) => Reply(After(evs, ttl), e, ttl) == Number(|ActiveFor(evs, user, e.at, ttl)|)
      case All =>
        var r := Reply(After(evs, ttl), e, ttl);
        r.Sessions? && forall sid ::
          (sid in r.table <==> IsActive(evs, sid, e.at, ttl))
          && (sid in r.table ==> r.table[sid] == Told(Story(evs, sid, ttl).value, ttl))
      case _ => true
  {
    hide Story, After, ActiveFor, ActiveOf, InOrder;
    TableIsStory(evs, ttl);
    match e.call
    case Get(sid) => SweptIsExpired(evs, sid, start, ttl);
      assert Agrees(After(evs, ttl), Story(evs, sid, ttl), sid, ttl);
    case GetWithRenew(sid) => SweptIsExpired(evs, sid, start, ttl);
      assert Agrees(After(evs, ttl), Story(evs, sid, ttl), sid, ttl);
    case CreateWithLimit(user, _, _, _) => ActiveAgrees(evs, user, e.at, ttl);
    case CountByUser(user) => ActiveAgrees(evs, user, e.at, ttl);
    case All =>
      forall sid
        ensures sid in Active(After(evs, ttl), e.at) <==> IsActive(evs, sid, e.at, ttl)
        ensures sid in Active(After(evs, ttl), e.at) ==>
          Active(After(evs, ttl), e.at)[sid] == Told(Story(evs, sid, ttl).value, ttl)
      {
        assert Agrees(After(evs, ttl), Story(evs, sid, ttl), sid, ttl);
      }
    case _ =>
  }

  /** The answers of a run, in order, are those of its calls one after the other. */
  lemma {:induction false} RepliesAreAnswers(m: Table, evs: seq<Event>, e: Event, ttl: int)
    ensures Replies(m, evs + [e], ttl) ==
      Replies(m, evs, ttl) + (if e.call.Sweep? then [] else [Reply(AfterFrom(m, evs, ttl), e, ttl)])
    decreases |evs|
  {
    hide Step, Reply;
    if evs == [] {
      assert [e][1..] == [] && evs + [e] == [e];
    } else {
      assert (evs + [e])[1..] == evs[1..] + [e];
      RepliesAreAnswers(Step(m, evs[0], ttl), evs[1..], e, ttl);
      Regroup(if evs[0].call.Sweep? then [] else [Reply(m, evs[0], ttl)], Replies(Step(m, evs[0], ttl), evs[1..], ttl),
              if e.call.Sweep? then [] else [Reply(AfterFrom(m, evs, ttl), e, ttl)]);
    }
  }

  lemma Regroup(a: seq<Answer>, b: seq<Answer>, c: seq<Answer>)
    ensures a + (b + c) == a + b + c
  {
  }

  function AfterFrom(m: Table, evs: seq<Event>, ttl: int): Table
    decreases |evs|
  {
    if evs == [] then m else AfterFrom(Step(m, evs[0], ttl), evs[1..], ttl)
  }

  lemma {:induction false} AfterFromSnoc(m: Table, evs: seq<Event>, e: Event, ttl: int)
    ensures AfterFrom(m, evs + [e], ttl) == Step(AfterFrom(m, evs, ttl), e, ttl)
    decreases |evs|
  {
    hide Step;
    if evs == [] {
      assert [e][1..] == [] && evs + [e] == [e];
    } else {
      assert (evs + [e])[1..] == evs[1..] + [e];
      AfterFromSnoc(Step(m, evs[0], ttl), evs[1..], e, ttl);
    }
  }

  lemma {:induction false} AfterIsAfterFrom(evs: seq<Event>, ttl: int)
    ensures After(evs, ttl) == AfterFrom(map[], evs, ttl)
    decreases |evs|
  {
    hide Step;
    if evs == [] {
    } else {
      var past, e := evs[..|evs| - 1], evs[|evs| - 1];
      AfterIsAfterFrom(past, ttl);
      AfterFromSnoc(map[], past, e, ttl);
      assert past + [e] == evs;
    }
  }

  /** So the answer to the last call of a run is the one that the calls before it tell of. */
  lemma LastReply(evs: seq<Event>, e: Event, ttl: int)
    requires !e.call.Sweep?
    ensures var replies := Replies(map[], evs + [e], ttl);
      replies != [] && replies[|replies| - 1] == Reply(After(evs, ttl), e, ttl)
  {
    RepliesAreAnswers(map[], evs, e, ttl);
    AfterIsAfterFrom(evs, ttl);
  }
}
