/** The APK operation scheduler of pkg/apk/apk.go: one running slot, a bounded
    FIFO queue, a bounded history, and one worker goroutine per started
    operation, serialised by the global APK mutex.

    A section that holds queueMu takes no other lock, so each is one atomic step.
    Steps of any number of submitters and workers interleave freely. */
module ApkScheduler {
  import opened Prelude

  datatype OpState = Pending | Running | Completed | Failed

  /** The fields of Manager guarded by queueMu. */
  datatype Core<+O> = Core(running: Option<O>, queue: seq<O>, history: seq<O>)

  datatype Limits = Limits(maxQueue: int, maxHistory: nat)

  datatype Admission = Refused | Queued | Started

  // ----- The three queueMu sections, as functions of the guarded fields -----

  function Archive<O>(history: seq<O>, op: Option<O>, maxHistory: nat): seq<O> {
    if op.None? then history else LastN(history + [op.value], maxHistory)
  }

  function Decide<O>(c: Core<O>, lim: Limits): Admission {
    if c.running.None? then Started
    else if |c.queue| >= lim.maxQueue then Refused
    else Queued
  }

  function Admit<O>(c: Core<O>, op: O, lim: Limits): Core<O> {
    match Decide(c, lim)
    case Refused => c
    case Queued => c.(queue := c.queue + [op])
    case Started => c.(running := Some(op))
  }

  /** Archive whatever is in the running slot, then promote the queue's head. */
  function Retire<O>(c: Core<O>, lim: Limits): Core<O> {
    var history := Archive(c.history, c.running, lim.maxHistory);
    if |c.queue| > 0 then Core(Some(c.queue[0]), c.queue[1..], history)
    else Core(None, c.queue, history)
  }

  function Flush<O>(c: Core<O>): Core<O> {
    c.(queue := [])
  }

  // ----- The step system -----

  /** Where a worker is: waiting for mu, inside executeWithProgress, back from it,
      past its queueMu section but with the final State not yet written, or about
      to release mu. All but the first hold mu. */
  datatype Phase = Waiting | Executing | Executed(ok: bool) | Publishing(ok: bool) | Releasing

  /** workers maps an operation to its worker's phase. The last four fields only
      record the past: operations accepted and archived so far in order, those
      flushed, and what executeWithProgress returned. */
  datatype Sys = Sys(core: Core<nat>, mu: Option<nat>, workers: map<nat, Phase>, state: map<nat, OpState>,
                     accepted: seq<nat>, archived: seq<nat>, flushed: set<nat>, result: map<nat, bool>)

  datatype Event =
    | Submit(op: nat)
    | FlushQueue
    | Acquire(op: nat)
    | Return(op: nat, ok: bool)
    | Finish(op: nat)
    | Publish(op: nat)
    | Release(op: nat)

  const INIT: Sys := Sys(Core(None, [], []), None, map[], map[], [], [], {}, map[])

  predicate Enabled(s: Sys, e: Event) {
    match e
    case Submit(op) => op !in s.state
    case FlushQueue => true
    case Acquire(op) => op in s.workers && s.workers[op].Waiting? && s.mu.None?
    case Return(op, ok) => op in s.workers && s.workers[op].Executing?
    case Finish(op) => op in s.workers && s.workers[op].Executed?
    case Publish(op) => op in s.workers && s.workers[op].Publishing?
    case Release(op) => op in s.workers && s.workers[op].Releasing?
  }

  function DoSubmit(s: Sys, op: nat, lim: Limits): Sys {
    var t := s.(core := Admit(s.core, op, lim));
    match Decide(s.core, lim)
    case Refused => s
    case Queued => t.(state := s.state[op := Pending], accepted := s.accepted + [op])
    case Started =>
      t.(state := s.state[op := Running], accepted := s.accepted + [op], workers := s.workers[op := Waiting])
  }

  /** The worker of op archives m.running, which the code never compares with op. */
  function DoFinish(s: Sys, op: nat, lim: Limits): Sys
    requires op in s.workers && s.workers[op].Executed?
  {
    var core := Retire(s.core, lim);
    var workers := s.workers[op := Publishing(s.workers[op].ok)];
    var t := s.(core := core, archived := s.archived + OptSeq(s.core.running), workers := workers);
    if core.running.None? then t
    else t.(workers := workers[core.running.value := Waiting], state := s.state[core.running.value := Running])
  }

  function Step(s: Sys, e: Event, lim: Limits): Sys
    requires Enabled(s, e)
  {
    match e
    case Submit(op) => DoSubmit(s, op, lim)
    case FlushQueue => s.(core := Flush(s.core), flushed := s.flushed + set q | q in s.core.queue)
    case Acquire(op) => s.(mu := Some(op), workers := s.workers[op := Executing])
    case Return(op, ok) => s.(workers := s.workers[op := Executed(ok)], result := s.result[op := ok])
    case Finish(op) => DoFinish(s, op, lim)
    case Publish(op) =>
      s.(state := s.state[op := if s.workers[op].ok then Completed else Failed], workers := s.workers[op := Releasing])
    case Release(op) => s.(mu := None, workers := s.workers - {op})
  }

  ghost predicate Legal(s: Sys, evs: seq<Event>, lim: Limits)
    decreases |evs|
  {
    evs == [] || (Enabled(s, evs[0]) && Legal(Step(s, evs[0], lim), evs[1..], lim))
  }

  function Run(s: Sys, evs: seq<Event>, lim: Limits): Sys
    requires Legal(s, evs, lim)
    decreases |evs|
  {
    if evs == [] then s else Run(Step(s, evs[0], lim), evs[1..], lim)
  }

  // ----- The invariant -----

  /** A worker that has not reached its queueMu section. */
  predicate Unfinished(p: Phase) {
    p.Waiting? || p.Executing? || p.Executed?
  }

  predicate Final(st: OpState) {
    st.Completed? || st.Failed?
  }

  /** mu is held by exactly the worker that is past Waiting. */
  ghost predicate MuInv(s: Sys) {
    && (s.mu.Some? ==> s.mu.value in s.workers && !s.workers[s.mu.value].Waiting?)
    && (forall w :: w in s.workers && !s.workers[w].Waiting? ==> s.mu == Some(w))
  }

  /** The running slot names exactly the one unfinished worker. */
  ghost predicate SlotInv(s: Sys) {
    && (s.core.running.Some? ==> s.core.running.value in s.workers)
    && (forall w :: w in s.workers ==> (Unfinished(s.workers[w]) <==> s.core.running == Some(w)))
    && (s.core.queue != [] ==> s.core.running.Some?)
  }

  /** Archived, running and queued operations, in that order. */
  function Ledger(s: Sys): seq<nat> {
    s.archived + OptSeq(s.core.running) + s.core.queue
  }

  ghost predicate LedgerInv(s: Sys, lim: Limits) {
    && Ledger(s) == Without(s.accepted, s.flushed)
    && NoDup(Ledger(s))
    && (forall op :: op in s.accepted <==> op in s.state)
    && (forall op :: op in s.flushed ==> op in s.accepted && op !in Ledger(s))
    && (forall op :: op in Ledger(s) ==> op in s.accepted)
    && s.core.history == LastN(s.archived, lim.maxHistory)
    && |s.core.queue| <= Max(0, lim.maxQueue)
  }

  /** The state every accepted operation is in. An archived operation whose worker has
      not published yet still says Running. */
  ghost predicate StateInv(s: Sys) {
    && (forall op :: op in s.core.queue ==> op in s.state && s.state[op] == Pending && op !in s.workers)
    && (forall op :: op in s.flushed ==> op in s.state && s.state[op] == Pending)
    && (forall op :: op in s.workers && !s.workers[op].Releasing? ==> op in s.state && s.state[op] == Running)
    && (forall op :: op in s.workers && !Unfinished(s.workers[op]) ==> op in s.archived)
    && (forall op :: op in s.workers && (s.workers[op].Executed? || s.workers[op].Publishing?) ==>
          op in s.result && s.result[op] == s.workers[op].ok)
    && (forall op :: op in s.archived ==>
          || (op in s.workers && s.workers[op].Publishing?)
          || (op in s.state && op in s.result && s.state[op] == if s.result[op] then Completed else Failed))
  }

  ghost predicate Inv(s: Sys, lim: Limits) {
    MuInv(s) && SlotInv(s) && LedgerInv(s, lim) && StateInv(s)
  }

  lemma InitInv(lim: Limits)
    ensures Inv(INIT, lim)
  {
  }

  lemma LastNAppend<T>(s: seq<T>, x: T, n: nat)
    ensures LastN(LastN(s, n) + [x], n) == LastN(s + [x], n)
  {
  }

  lemma SubmitLedger(s: Sys, op: nat, lim: Limits)
    requires LedgerInv(s, lim) && Enabled(s, Submit(op)) && (s.core.queue != [] ==> s.core.running.Some?)
    ensures LedgerInv(DoSubmit(s, op, lim), lim)
  {
    var t := DoSubmit(s, op, lim);
    if Decide(s.core, lim) != Refused {
      assert Ledger(t) == Ledger(s) + [op];
      WithoutAppend(s.accepted, [op], s.flushed);
      assert op !in s.accepted && op !in Ledger(s) && op !in s.flushed;
      assert Without([op], s.flushed) == [op];
      assert t.accepted == s.accepted + [op];
    }
  }

  /** A new operation that waits in the queue. */
  lemma QueuedState(s: Sys, op: nat)
    requires StateInv(s) && op !in s.state && op !in s.archived && op !in s.workers
    ensures StateInv(s.(core := s.core.(queue := s.core.queue + [op]), state := s.state[op := Pending],
                        accepted := s.accepted + [op]))
  {
    assert forall q :: q in s.core.queue + [op] ==> q in s.core.queue || q == op;
  }

  /** A new operation that starts at once. */
  lemma StartedState(s: Sys, op: nat)
    requires StateInv(s) && op !in s.state && op !in s.archived
    ensures StateInv(s.(core := s.core.(running := Some(op)), state := s.state[op := Running],
                        accepted := s.accepted + [op], workers := s.workers[op := Waiting]))
  {
  }

  lemma SubmitState(s: Sys, op: nat, lim: Limits)
    requires StateInv(s) && Enabled(s, Submit(op)) && op !in s.workers
    requires forall a :: a in s.archived ==> a in s.state
    ensures StateInv(DoSubmit(s, op, lim))
  {
    hide StateInv;
    if Decide(s.core, lim) == Queued {
      QueuedState(s, op);
    } else if Decide(s.core, lim) == Started {
      StartedState(s, op);
    }
  }

  lemma SubmitSlot(s: Sys, op: nat, lim: Limits)
    requires MuInv(s) && SlotInv(s) && op !in s.workers
    ensures MuInv(DoSubmit(s, op, lim)) && SlotInv(DoSubmit(s, op, lim))
  {
  }

  lemma SubmitInv(s: Sys, op: nat, lim: Limits)
    requires Inv(s, lim) && Enabled(s, Submit(op))
    ensures Inv(DoSubmit(s, op, lim), lim)
  {
    forall a | a in s.archived ensures a in s.state {
      assert a in Ledger(s);
    }
    SubmitLedger(s, op, lim);
    SubmitState(s, op, lim);
    SubmitSlot(s, op, lim);
  }

  lemma FlushLedger(s: Sys, lim: Limits)
    requires LedgerInv(s, lim)
    ensures LedgerInv(Step(s, FlushQueue, lim), lim)
  {
    var t := Step(s, FlushQueue, lim);
    var q := set x | x in s.core.queue;
    var kept := s.archived + OptSeq(s.core.running);
    assert Ledger(t) == kept && Ledger(s) == kept + s.core.queue;
    KeptApart(kept, s.core.queue);
    WithoutTwice(s.accepted, s.flushed, q);
    WithoutAppend(kept, s.core.queue, q);
    WithoutDisjoint(kept, q);
    WithoutAll(s.core.queue, q);
  }

  /** The two halves of a duplicate-free sequence share no element. */
  lemma KeptApart<T>(a: seq<T>, b: seq<T>)
    requires NoDup(a + b)
    ensures NoDup(a) && NoDup(b)
    ensures forall x :: x in a ==> x !in b
  {
    forall i, j | 0 <= i < |a| && 0 <= j < |b| ensures a[i] != b[j] {
      assert (a + b)[i] == a[i] && (a + b)[|a| + j] == b[j];
    }
    forall i, j | 0 <= i < j < |a| ensures a[i] != a[j] {
      assert (a + b)[i] == a[i] && (a + b)[j] == a[j];
    }
    forall i, j | 0 <= i < j < |b| ensures b[i] != b[j] {
      assert (a + b)[|a| + i] == b[i] && (a + b)[|a| + j] == b[j];
    }
  }

  lemma FlushInv(s: Sys, lim: Limits)
    requires Inv(s, lim)
    ensures Inv(Step(s, FlushQueue, lim), lim)
  {
    FlushLedger(s, lim);
  }

  lemma FinishLedger(s: Sys, op: nat, lim: Limits)
    requires LedgerInv(s, lim) && Enabled(s, Finish(op)) && s.core.running == Some(op)
    ensures LedgerInv(DoFinish(s, op, lim), lim)
  {
    var t := DoFinish(s, op, lim);
    assert Ledger(t) == Ledger(s);
    LastNAppend(s.archived, op, lim.maxHistory);
    assert op in Ledger(s);
    if s.core.queue != [] {
      assert s.core.queue[0] in Ledger(s);
    }
    assert s.state.Keys == t.state.Keys;
  }

  /** The running operation and the queue's head occur nowhere else. */
  lemma SlotApart(s: Sys, op: nat)
    requires NoDup(Ledger(s)) && s.core.running == Some(op)
    ensures op !in s.core.queue && op !in s.archived
    ensures s.core.queue != [] ==> s.core.queue[0] !in s.core.queue[1..] && s.core.queue[0] !in s.archived
  {
    KeptApart(s.archived + OptSeq(s.core.running), s.core.queue);
    KeptApart(s.archived, OptSeq(s.core.running));
    assert s.archived + (OptSeq(s.core.running) + s.core.queue) == Ledger(s);
    KeptApart(s.archived, OptSeq(s.core.running) + s.core.queue);
    assert op in OptSeq(s.core.running);
    if s.core.queue != [] {
      assert (OptSeq(s.core.running) + s.core.queue)[1] == s.core.queue[0];
    }
  }

  lemma FinishQueue(s: Sys)
    requires forall f :: f in s.flushed ==> f !in Ledger(s)
    ensures s.core.queue != [] ==> s.core.queue[0] !in s.flushed
    ensures s.core.queue != [] ==> forall q :: q in s.core.queue <==> q == s.core.queue[0] || q in s.core.queue[1..]
  {
    if s.core.queue != [] {
      assert s.core.queue[0] in Ledger(s);
      assert s.core.queue == [s.core.queue[0]] + s.core.queue[1..];
    }
  }

  lemma FinishState(s: Sys, op: nat, lim: Limits)
    requires StateInv(s) && SlotInv(s) && NoDup(Ledger(s)) && Enabled(s, Finish(op))
    requires forall f :: f in s.flushed ==> f !in Ledger(s)
    ensures StateInv(DoFinish(s, op, lim))
  {
    SlotApart(s, op);
    FinishQueue(s);
    hide NoDup, Ledger;
  }

  lemma FinishOwns(s: Sys, op: nat)
    requires SlotInv(s) && Enabled(s, Finish(op))
    ensures s.core.running == Some(op)
  {
  }

  lemma LedgerApart(s: Sys, lim: Limits)
    requires LedgerInv(s, lim)
    ensures NoDup(Ledger(s)) && forall f :: f in s.flushed ==> f !in Ledger(s)
  {
  }

  lemma HeadIsIdle(s: Sys)
    requires StateInv(s)
    ensures s.core.queue != [] ==> s.core.queue[0] !in s.workers
  {
    assert s.core.queue != [] ==> s.core.queue[0] in s.core.queue;
  }

  lemma FinishSlot(s: Sys, op: nat, lim: Limits)
    requires MuInv(s) && SlotInv(s) && Enabled(s, Finish(op))
    requires s.core.queue != [] ==> s.core.queue[0] !in s.workers
    ensures MuInv(DoFinish(s, op, lim)) && SlotInv(DoFinish(s, op, lim))
  {
  }

  lemma FinishInv(s: Sys, op: nat, lim: Limits)
    requires Inv(s, lim) && Enabled(s, Finish(op))
    ensures Inv(DoFinish(s, op, lim), lim)
  {
    hide LedgerInv, StateInv, MuInv, SlotInv, DoFinish, Enabled, Ledger;
    FinishOwns(s, op);
    LedgerApart(s, lim);
    HeadIsIdle(s);
    FinishLedger(s, op, lim);
    FinishState(s, op, lim);
    FinishSlot(s, op, lim);
  }

  lemma ExecuteState(s: Sys, e: Event, lim: Limits)
    requires SlotInv(s) && StateInv(s) && Enabled(s, e) && (e.Acquire? || e.Return?)
    requires forall a :: a in s.archived ==> s.core.running != Some(a)
    ensures StateInv(Step(s, e, lim))
  {
    assert s.core.running == Some(e.op);
  }

  lemma PublishState(s: Sys, e: Event, lim: Limits)
    requires StateInv(s) && Enabled(s, e) && (e.Publish? || e.Release?)
    ensures StateInv(Step(s, e, lim))
  {
    assert e.op in s.archived && e.op !in s.core.queue;
  }

  lemma WorkerInv(s: Sys, e: Event, lim: Limits)
    requires Inv(s, lim) && Enabled(s, e)
    requires e.Acquire? || e.Return? || e.Publish? || e.Release?
    ensures Inv(Step(s, e, lim), lim)
  {
    hide LedgerInv, StateInv, MuInv, SlotInv, Step, Enabled, Ledger;
    LedgerApart(s, lim);
    if s.core.running.Some? {
      SlotApart(s, s.core.running.value);
    }
    if e.Acquire? || e.Return? {
      ExecuteState(s, e, lim);
    } else {
      PublishState(s, e, lim);
    }
    WorkerSlot(s, e, lim);
    WorkerLedger(s, e, lim);
  }

  lemma WorkerSlot(s: Sys, e: Event, lim: Limits)
    requires MuInv(s) && SlotInv(s) && Enabled(s, e)
    requires e.Acquire? || e.Return? || e.Publish? || e.Release?
    ensures MuInv(Step(s, e, lim)) && SlotInv(Step(s, e, lim))
  {
  }

  lemma WorkerLedger(s: Sys, e: Event, lim: Limits)
    requires LedgerInv(s, lim) && StateInv(s) && Enabled(s, e)
    requires e.Acquire? || e.Return? || e.Publish? || e.Release?
    ensures LedgerInv(Step(s, e, lim), lim)
  {
    var t := Step(s, e, lim);
    assert Ledger(t) == Ledger(s);
    assert t.state.Keys == s.state.Keys;
  }

  lemma StepInv(s: Sys, e: Event, lim: Limits)
    requires Inv(s, lim) && Enabled(s, e)
    ensures Inv(Step(s, e, lim), lim)
  {
    match e
    case Submit(op) => SubmitInv(s, op, lim);
    case FlushQueue => FlushInv(s, lim);
    case Finish(op) => FinishInv(s, op, lim);
    case _ => WorkerInv(s, e, lim);
  }

  lemma {:induction false} RunInv(s: Sys, evs: seq<Event>, lim: Limits)
    requires Inv(s, lim) && Legal(s, evs, lim)
    ensures Inv(Run(s, evs, lim), lim)
    decreases |evs|
  {
    if evs == [] {
    } else {
      StepInv(s, evs[0], lim);
      RunInv(Step(s, evs[0], lim), evs[1..], lim);
    }
  }

  // ----- Safety over every run -----

  /** At most one operation executes, it is the running one, and the running slot is
      occupied exactly while one (and only one) unfinished worker exists. */
  lemma OneExecutor(evs: seq<Event>, lim: Limits)
    requires Legal(INIT, evs, lim)
    ensures var s := Run(INIT, evs, lim);
      && (forall a :: a in s.workers && s.workers[a].Executing? ==> s.core.running == Some(a))
      && (forall a, b :: a in s.workers && b in s.workers && Unfinished(s.workers[a]) && Unfinished(s.workers[b]) ==>
            a == b)
      && (s.core.running.Some? <==> exists a :: a in s.workers && Unfinished(s.workers[a]))
      && (forall a, b :: a in s.workers && b in s.workers && !s.workers[a].Waiting? && !s.workers[b].Waiting? ==>
            a == b)
  {
    InitInv(lim);
    RunInv(INIT, evs, lim);
    var s := Run(INIT, evs, lim);
    if s.core.running.Some? {
      assert Unfinished(s.workers[s.core.running.value]);
    }
  }

  /** A worker that reaches its finish section archives its own operation, although the
      section only looks at the running slot. */
  lemma ArchivesItsOwn(evs: seq<Event>, op: nat, lim: Limits)
    requires Legal(INIT, evs, lim) && Enabled(Run(INIT, evs, lim), Finish(op))
    ensures var s := Run(INIT, evs, lim);
      var t := Step(s, Finish(op), lim);
      t.archived == s.archived + [op] && op !in s.archived && t.core.history == LastN(s.archived + [op], lim.maxHistory)
  {
    InitInv(lim);
    RunInv(INIT, evs, lim);
    var s := Run(INIT, evs, lim);
    FinishInv(s, op, lim);
    SlotApart(s, op);
  }

  /** Conservation and order: archived, then running, then queued operations are the
      accepted ones in acceptance order, less those flushed; history is the last
      maxHistory of the archived; the queue never outgrows its bound. */
  lemma Conservation(evs: seq<Event>, lim: Limits)
    requires Legal(INIT, evs, lim)
    ensures var s := Run(INIT, evs, lim);
      && s.archived + OptSeq(s.core.running) + s.core.queue == Without(s.accepted, s.flushed)
      && NoDup(s.archived + OptSeq(s.core.running) + s.core.queue)
      && |s.core.history| == (if |s.archived| < lim.maxHistory then |s.archived| else lim.maxHistory)
      && (forall i :: 0 <= i < |s.core.history| ==>
            s.core.history[i] == s.archived[|s.archived| - |s.core.history| + i])
      && |s.core.queue| <= Max(0, lim.maxQueue)
      && (s.core.queue != [] ==> s.core.running.Some?)
    ensures FlushQueue !in evs ==>
      var s := Run(INIT, evs, lim);
      s.archived + OptSeq(s.core.running) + s.core.queue == s.accepted
  {
    InitInv(lim);
    RunInv(INIT, evs, lim);
    if FlushQueue !in evs {
      NothingFlushed(INIT, evs, lim);
      WithoutDisjoint(Run(INIT, evs, lim).accepted, {});
    }
  }

  /** Admission. A submission is refused, and changes nothing, exactly when an operation runs and the queue is
      full. Otherwise it is accepted: it starts at once in an empty slot, with a worker of its own, and else
      waits as the last of the queue. */
  lemma AdmissionExactly(evs: seq<Event>, op: nat, lim: Limits)
    requires Legal(INIT, evs, lim) && Enabled(Run(INIT, evs, lim), Submit(op))
    ensures var s := Run(INIT, evs, lim);
      var t := Step(s, Submit(op), lim);
      && (t == s <==> s.core.running.Some? && |s.core.queue| >= lim.maxQueue)
      && (t != s ==> t.accepted == s.accepted + [op] && t.archived == s.archived && t.core.history == s.core.history)
      && (t != s && s.core.running.None? ==>
            && t.core.running == Some(op) && t.core.queue == [] == s.core.queue
            && t.state == s.state[op := Running] && t.workers == s.workers[op := Waiting])
      && (t != s && s.core.running.Some? ==>
            && t.core.running == s.core.running && t.core.queue == s.core.queue + [op]
            && t.state == s.state[op := Pending] && t.workers == s.workers)
  {
    InitInv(lim);
    RunInv(INIT, evs, lim);
    var s := Run(INIT, evs, lim);
    assert SlotInv(s);
    assert |s.accepted + [op]| > |s.accepted|;
  }

  /** A final state tells how the operation's execution returned. */
  lemma FinalAsReturned(evs: seq<Event>, op: nat, lim: Limits)
    requires Legal(INIT, evs, lim) && op in Run(INIT, evs, lim).state
    ensures Run(INIT, evs, lim).state[op] == Completed ==> Return(op, true) in evs
    ensures Run(INIT, evs, lim).state[op] == Failed ==> Return(op, false) in evs
  {
    InitInv(lim);
    RunInv(INIT, evs, lim);
    FinalIsResult(Run(INIT, evs, lim), lim);
    ResultsReturned(INIT, evs, op, lim);
  }

  lemma {:induction false} ResultsReturned(s: Sys, evs: seq<Event>, op: nat, lim: Limits)
    requires Legal(s, evs, lim)
    ensures var t := Run(s, evs, lim);
      op in t.result ==> Return(op, t.result[op]) in evs || (op in s.result && s.result[op] == t.result[op])
    decreases |evs|
  {
    if evs == [] {
    } else {
      ResultsReturned(Step(s, evs[0], lim), evs[1..], op, lim);
      assert evs[0] in evs && forall e :: e in evs[1..] ==> e in evs;
    }
  }

  lemma {:induction false} NothingFlushed(s: Sys, evs: seq<Event>, lim: Limits)
    requires Legal(s, evs, lim) && FlushQueue !in evs
    ensures Run(s, evs, lim).flushed == s.flushed
    decreases |evs|
  {
    if evs == [] {
    } else {
      assert evs[0] in evs;
      NothingFlushed(Step(s, evs[0], lim), evs[1..], lim);
    }
  }

  predicate MayMove(before: OpState, after: OpState) {
    before == after || (before.Pending? && after.Running?) || (before.Running? && Final(after))
  }

  /** An operation's state only moves from pending to running to completed or failed,
      and is written final by its own worker with the result of its own execution. */
  lemma StatesMoveForward(evs: seq<Event>, e: Event, lim: Limits)
    requires Legal(INIT, evs, lim) && Enabled(Run(INIT, evs, lim), e)
    ensures var s := Run(INIT, evs, lim);
      var t := Step(s, e, lim);
      forall op :: op in s.state ==>
        && op in t.state && MayMove(s.state[op], t.state[op])
        && (Final(t.state[op]) ==> op in t.result && t.state[op] == if t.result[op] then Completed else Failed)
        && (Final(t.state[op]) && !Final(s.state[op]) ==> e == Publish(op))
  {
    InitInv(lim);
    RunInv(INIT, evs, lim);
    var s := Run(INIT, evs, lim);
    var t := Step(s, e, lim);
    StepMoves(s, e, lim);
    StepInv(s, e, lim);
    FinalIsResult(t, lim);
  }

  lemma StepMoves(s: Sys, e: Event, lim: Limits)
    requires SlotInv(s) && StateInv(s) && Enabled(s, e)
    ensures var t := Step(s, e, lim);
      forall op :: op in s.state ==>
        && op in t.state && MayMove(s.state[op], t.state[op])
        && (Final(t.state[op]) && !Final(s.state[op]) ==> e == Publish(op))
  {
    if e.Finish? && s.core.queue != [] {
      assert s.core.queue[0] in s.core.queue;
    }
  }

  lemma FinalIsResult(s: Sys, lim: Limits)
    requires Inv(s, lim)
    ensures forall op :: op in s.state && Final(s.state[op]) ==>
      op in s.result && s.state[op] == if s.result[op] then Completed else Failed
  {
    forall op | op in s.state && Final(s.state[op])
      ensures op in s.result && s.state[op] == if s.result[op] then Completed else Failed
    {
      FinalIsArchived(s, op, lim);
    }
  }

  lemma FinalIsArchived(s: Sys, op: nat, lim: Limits)
    requires Inv(s, lim) && op in s.state && Final(s.state[op])
    ensures op in s.archived
  {
    assert op in s.accepted;
    if op !in s.flushed {
      StaysIn(s.accepted, s.flushed, op);
      assert op in Ledger(s);
      assert op !in s.core.queue;
      assert s.core.running != Some(op);
    }
  }

  lemma {:induction false} StaysIn<T>(s: seq<T>, drop: set<T>, x: T)
    requires x in s && x !in drop
    ensures x in Without(s, drop)
  {
    if s[0] == x {
    } else {
      StaysIn(s[1..], drop, x);
    }
  }

  /** In every reachable state, which archived operations, and so which ones in the history, do not have
      their final state yet: exactly those whose worker is between its finish section and its last write,
      and these still say running. */
  lemma ArchivedIsFinalUnlessPublishing(evs: seq<Event>, op: nat, lim: Limits)
    requires Legal(INIT, evs, lim) && op in Run(INIT, evs, lim).archived
    ensures var s := Run(INIT, evs, lim);
      && op in s.state
      && (!Final(s.state[op]) <==> op in s.workers && s.workers[op].Publishing?)
      && (!Final(s.state[op]) ==> s.state[op] == Running)
  {
    InitInv(lim);
    RunInv(INIT, evs, lim);
    assert op in Ledger(Run(INIT, evs, lim));
  }

  lemma HistoryIsArchived(evs: seq<Event>, op: nat, lim: Limits)
    requires Legal(INIT, evs, lim) && op in Run(INIT, evs, lim).core.history
    ensures op in Run(INIT, evs, lim).archived
  {
    InitInv(lim);
    RunInv(INIT, evs, lim);
  }

  /** A run after which an operation is in the history and still says running. */
  lemma ArchivedMayStillRun()
    ensures var lim := Limits(10, 32);
      var evs := [Submit(0), Acquire(0), Return(0, true), Finish(0)];
      && Legal(INIT, evs, lim)
      && Run(INIT, evs, lim).core.history == [0]
      && Run(INIT, evs, lim).state[0] == Running
  {
    var lim := Limits(10, 32);
    var s1 := Step(INIT, Submit(0), lim);
    var s2 := Step(s1, Acquire(0), lim);
    var s3 := Step(s2, Return(0, true), lim);
    var s4 := Step(s3, Finish(0), lim);
    var evs := [Submit(0), Acquire(0), Return(0, true), Finish(0)];
    assert evs[1..] == [Acquire(0), Return(0, true), Finish(0)];
    assert evs[1..][1..] == [Return(0, true), Finish(0)];
    assert evs[1..][1..][1..] == [Finish(0)];
    assert Legal(s4, [], lim);
    assert Legal(s3, [Finish(0)], lim) && Run(s3, [Finish(0)], lim) == s4;
    assert Legal(s2, evs[1..][1..], lim) && Run(s2, evs[1..][1..], lim) == s4;
  }

  // ----- Progress -----

  /** A step taken by a worker, as opposed to a new submission or a flush. */
  predicate ByWorker(e: Event) {
    !e.Submit? && !e.FlushQueue?
  }

  function Effort(p: Phase): nat {
    match p
    case Waiting => 5
    case Executing => 4
    case Executed(_) => 3
    case Publishing(_) => 2
    case Releasing => 1
  }

  /** Work left: six per queued operation, plus what the holder of mu and the running
      operation's waiting worker still have to do. */
  function Measure(s: Sys): nat {
    6 * |s.core.queue|
    + (if s.mu.Some? && s.mu.value in s.workers then Effort(s.workers[s.mu.value]) else 0)
    + (if s.core.running.Some? && s.core.running.value in s.workers && s.workers[s.core.running.value].Waiting?
       then 5 else 0)
  }

  lemma FinishLowersMeasure(s: Sys, op: nat, lim: Limits)
    requires MuInv(s) && SlotInv(s) && NoDup(Ledger(s)) && StateInv(s) && Enabled(s, Finish(op))
    ensures Measure(DoFinish(s, op, lim)) < Measure(s)
  {
    hide MuInv, SlotInv, StateInv, Ledger, NoDup;
    FinishOwns(s, op);
    MuHolder(s, op);
    SlotApart(s, op);
    HeadIsIdle(s);
  }

  lemma MuHolder(s: Sys, op: nat)
    requires MuInv(s) && op in s.workers && !s.workers[op].Waiting?
    ensures s.mu == Some(op)
  {
  }

  lemma WorkerStepLowersMeasure(s: Sys, e: Event, lim: Limits)
    requires Inv(s, lim) && Enabled(s, e) && ByWorker(e)
    ensures Measure(Step(s, e, lim)) < Measure(s)
  {
    hide LedgerInv, StateInv;
    LedgerApart(s, lim);
    if e.Finish? {
      hide *;
      FinishLowersMeasure(s, e.op, lim);
    }
  }

  /** Without new submissions or flushes, no schedule is longer than the measure. */
  lemma {:induction false} WorkerRunsAreBounded(s: Sys, evs: seq<Event>, lim: Limits)
    requires Inv(s, lim) && Legal(s, evs, lim) && (forall e :: e in evs ==> ByWorker(e))
    ensures |evs| + Measure(Run(s, evs, lim)) <= Measure(s)
    decreases |evs|
  {
    if evs == [] {
    } else {
      assert evs[0] in evs;
      WorkerStepLowersMeasure(s, evs[0], lim);
      StepInv(s, evs[0], lim);
      WorkerRunsAreBounded(Step(s, evs[0], lim), evs[1..], lim);
    }
  }

  /** No deadlock: as long as any worker exists, some worker can step. */
  lemma SomeWorkerCanStep(s: Sys, lim: Limits) returns (e: Event)
    requires Inv(s, lim) && |s.workers| > 0
    ensures ByWorker(e) && Enabled(s, e)
  {
    if s.mu.None? {
      var w :| w in s.workers;
      e := Acquire(w);
    } else {
      var w := s.mu.value;
      e := match s.workers[w]
           case Executing => Return(w, true)
           case Executed(_) => Finish(w)
           case Publishing(_) => Publish(w)
           case _ => Release(w);
    }
  }

  ghost predicate Stuck(s: Sys) {
    forall e :: ByWorker(e) ==> !Enabled(s, e)
  }

  /** A reachable state in which no worker can step has drained: nothing runs, nothing is
      queued, and every accepted operation that was not flushed has run to its final
      state, in acceptance order. */
  lemma StuckMeansDrained(evs: seq<Event>, lim: Limits)
    requires Legal(INIT, evs, lim) && Stuck(Run(INIT, evs, lim))
    ensures var s := Run(INIT, evs, lim);
      && s.core.running.None? && s.core.queue == [] && s.workers == map[] && s.mu.None?
      && s.archived == Without(s.accepted, s.flushed)
      && (forall op :: op in s.archived ==> op in s.state && Final(s.state[op]))
  {
    InitInv(lim);
    RunInv(INIT, evs, lim);
    var s := Run(INIT, evs, lim);
    if |s.workers| > 0 {
      var e := SomeWorkerCanStep(s, lim);
      assert false;
    }
    assert s.workers == map[];
    assert Ledger(s) == s.archived;
  }

  /** From every state of every run, the workers alone can drain the queue. */
  lemma {:induction false} Drain(s: Sys, lim: Limits) returns (evs: seq<Event>)
    requires Inv(s, lim)
    ensures Legal(s, evs, lim) && (forall e :: e in evs ==> ByWorker(e))
    ensures Run(s, evs, lim).workers == map[] && Run(s, evs, lim).core.queue == []
        && Run(s, evs, lim).core.running.None?
    decreases Measure(s)
  {
    if |s.workers| == 0 {
      evs := [];
      assert s.workers == map[];
    } else {
      var e := SomeWorkerCanStep(s, lim);
      WorkerStepLowersMeasure(s, e, lim);
      StepInv(s, e, lim);
      var rest := Drain(Step(s, e, lim), lim);
      evs := [e] + rest;
      assert evs[1..] == rest;
    }
  }
}
