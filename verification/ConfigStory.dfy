/** What the runs of ConfigTx mean, told from the calls alone: which bytes can become live, what becomes of
    a change that its validator rejects, and that an accepted one is published. */
module ConfigStory {
  import opened Prelude
  import opened ConfigFiles
  import opened ConfigTx

  // ----- Where live bytes come from -----

  predicate BegunAt(evs: seq<Event>, i: nat, id: nat, name: string) {
    i < |evs| && evs[i].Begin? && evs[i].id == id && evs[i].target.name == name
  }

  predicate StagedAt(evs: seq<Event>, j: nat, id: nat, bytes: Bytes) {
    j < |evs| && evs[j] == Stage(id, bytes, false)
  }

  predicate AcceptedAt(evs: seq<Event>, k: nat, id: nat) {
    k < |evs| && evs[k] == Validate(id, true)
  }

  ghost predicate Begun(evs: seq<Event>, id: nat, name: string) {
    exists i: nat :: BegunAt(evs, i, id, name)
  }

  ghost predicate WasStaged(evs: seq<Event>, id: nat, name: string, bytes: Bytes) {
    exists i: nat, j: nat :: BegunAt(evs, i, id, name) && i < j && StagedAt(evs, j, id, bytes)
  }

  /** Some transaction on the name was begun, then staged the bytes, then had its validator accept. */
  ghost predicate Vouched(evs: seq<Event>, name: string, bytes: Bytes) {
    exists id: nat, i: nat, j: nat, k: nat ::
      BegunAt(evs, i, id, name) && i < j && StagedAt(evs, j, id, bytes) && j < k && AcceptedAt(evs, k, id)
  }

  /** The calls so far account for every transaction, every staging file that awaits validation, and all
      that validators have accepted. */
  ghost predicate Evidence(s: Sys, past: seq<Event>) {
    && (forall id :: id in s.txs ==> Begun(past, id, s.txs[id].target.name))
    && (forall id :: id in s.txs && s.txs[id].status == Staged && s.txs[id].staged in s.fs ==>
          WasStaged(past, id, s.txs[id].target.name, s.fs[s.txs[id].staged]))
    && (forall name, bytes :: (name, bytes) in s.accepted ==> Vouched(past, name, bytes))
  }

  lemma BegunGrows(past: seq<Event>, e: Event, id: nat, name: string)
    requires Begun(past, id, name)
    ensures Begun(past + [e], id, name)
  {
    var i: nat :| BegunAt(past, i, id, name);
    assert BegunAt(past + [e], i, id, name);
  }

  lemma WasStagedGrows(past: seq<Event>, e: Event, id: nat, name: string, bytes: Bytes)
    requires WasStaged(past, id, name, bytes)
    ensures WasStaged(past + [e], id, name, bytes)
  {
    var i: nat, j: nat :| BegunAt(past, i, id, name) && i < j && StagedAt(past, j, id, bytes);
    assert BegunAt(past + [e], i, id, name) && StagedAt(past + [e], j, id, bytes);
  }

  lemma VouchedGrows(past: seq<Event>, e: Event, name: string, bytes: Bytes)
    requires Vouched(past, name, bytes)
    ensures Vouched(past + [e], name, bytes)
  {
    var id: nat, i: nat, j: nat, k: nat :|
      BegunAt(past, i, id, name) && i < j && StagedAt(past, j, id, bytes) && j < k && AcceptedAt(past, k, id);
    assert BegunAt(past + [e], i, id, name) && StagedAt(past + [e], j, id, bytes) && AcceptedAt(past + [e], k, id);
  }

  lemma StageIsEvidence(past: seq<Event>, id: nat, name: string, bytes: Bytes)
    requires Begun(past, id, name)
    ensures WasStaged(past + [Stage(id, bytes, false)], id, name, bytes)
  {
    var i: nat :| BegunAt(past, i, id, name);
    var evs := past + [Stage(id, bytes, false)];
    assert BegunAt(evs, i, id, name) && StagedAt(evs, |past|, id, bytes);
  }

  lemma AcceptanceIsEvidence(past: seq<Event>, id: nat, name: string, bytes: Bytes)
    requires WasStaged(past, id, name, bytes)
    ensures Vouched(past + [Validate(id, true)], name, bytes)
  {
    var i: nat, j: nat :| BegunAt(past, i, id, name) && i < j && StagedAt(past, j, id, bytes);
    var evs := past + [Validate(id, true)];
    assert BegunAt(evs, i, id, name) && StagedAt(evs, j, id, bytes) && AcceptedAt(evs, |past|, id);
  }

  /** If the transaction awaits validation after the step, then its Stage just wrote the file, or it did
      already, with the same file. */
  ghost predicate SinceStage(s: Sys, e: Event, t: Sys, id: nat)
    requires id in s.txs && id in t.txs
  {
    t.txs[id].status == Staged && s.txs[id].staged in t.fs ==>
      || e == Stage(id, t.fs[s.txs[id].staged], false)
      || (s.txs[id].status == Staged && s.txs[id].staged in s.fs && t.fs[s.txs[id].staged] == s.fs[s.txs[id].staged])
  }

  lemma StagedSince(s: Sys, e: Event, id: nat)
    requires PathsInv(s.txs) && JobsInv(s.txs, s.jobs, s.held) && Enabled(s, e) && id in s.txs
    ensures id in Step(s, e).txs && SinceStage(s, e, Step(s, e), id)
    ensures Step(s, e).txs[id].target == s.txs[id].target && Step(s, e).txs[id].staged == s.txs[id].staged
  {
    hide PathsInv, JobsInv, SinceStage;
    TxsKeepPaths(s, e, id);
    if e.Begin? || e.Rollback? || e.Cleanup? {
      BackupsSince(s, e, id);
    } else if OfCall(e) {
      CallsSince(s, e, id);
    } else if e.Apply? || e.Restore? {
      ReplacementsSince(s, e, id);
    } else if e.CommitNet? || e.OnConfirm? {
      StatusSince(s, e, id);
    } else {
      JobsSince(s, e, id);
    }
  }

  lemma BackupsSince(s: Sys, e: Event, id: nat)
    requires PathsInv(s.txs) && Enabled(s, e) && (e.Begin? || e.Rollback? || e.Cleanup?)
    requires id in s.txs && id in Step(s, e).txs
    ensures SinceStage(s, e, Step(s, e), id)
  {
  }

  lemma CallsSince(s: Sys, e: Event, id: nat)
    requires PathsInv(s.txs) && Enabled(s, e) && (e.Stage? || e.Validate? || e.Commit?)
    requires id in s.txs && id in Step(s, e).txs
    ensures SinceStage(s, e, Step(s, e), id)
  {
  }

  lemma ReplacementsSince(s: Sys, e: Event, id: nat)
    requires PathsInv(s.txs) && Enabled(s, e) && (e.Apply? || e.Restore?) && id in s.txs && id in Step(s, e).txs
    ensures SinceStage(s, e, Step(s, e), id)
  {
  }

  lemma JobsSince(s: Sys, e: Event, id: nat)
    requires Enabled(s, e) && !OfCall(e) && !e.Apply? && !e.Restore? && !e.CommitNet? && !e.OnConfirm?
    requires id in s.txs && id in Step(s, e).txs
    ensures SinceStage(s, e, Step(s, e), id)
  {
    assert Step(s, e).fs == s.fs && Step(s, e).txs == s.txs;
  }

  lemma StatusSince(s: Sys, e: Event, id: nat)
    requires Enabled(s, e) && (e.CommitNet? || e.OnConfirm?) && id in s.txs && id in Step(s, e).txs
    ensures SinceStage(s, e, Step(s, e), id)
  {
  }

  /** Only an accepting validator adds to what is accepted, and only the bytes it looked at. */
  lemma AcceptedSince(s: Sys, e: Event, name: string, bytes: Bytes)
    requires Enabled(s, e) && (name, bytes) in Step(s, e).accepted && (name, bytes) !in s.accepted
    ensures e.Validate? && e.verdict && e.id in s.txs && s.txs[e.id].status == Staged && s.txs[e.id].staged in s.fs
    ensures name == s.txs[e.id].target.name && bytes == s.fs[s.txs[e.id].staged]
  {
  }

  /** Transactions come into being by Begin. */
  lemma NewTxs(s: Sys, e: Event, id: nat)
    requires Enabled(s, e) && id in Step(s, e).txs && id !in s.txs
    ensures e.Begin? && e.id == id && Step(s, e).txs[id].target == e.target && Step(s, e).txs[id].status == Pending
  {
  }

  lemma EvidenceStep(s: Sys, e: Event, past: seq<Event>)
    requires PathsInv(s.txs) && JobsInv(s.txs, s.jobs, s.held) && Enabled(s, e) && Evidence(s, past)
    ensures Evidence(Step(s, e), past + [e])
  {
    hide Step, Enabled, PathsInv, JobsInv, Begun, WasStaged, Vouched;
    var t := Step(s, e);
    forall id | id in t.txs
      ensures Begun(past + [e], id, t.txs[id].target.name)
      ensures t.txs[id].status == Staged && t.txs[id].staged in t.fs ==>
        WasStaged(past + [e], id, t.txs[id].target.name, t.fs[t.txs[id].staged])
    {
      if id in s.txs {
        BegunGrows(past, e, id, s.txs[id].target.name);
        StagedSince(s, e, id);
        if t.txs[id].status == Staged && t.txs[id].staged in t.fs {
          var bytes := t.fs[t.txs[id].staged];
          if e == Stage(id, bytes, false) {
            StageIsEvidence(past, id, t.txs[id].target.name, bytes);
          } else {
            WasStagedGrows(past, e, id, t.txs[id].target.name, bytes);
          }
        }
      } else {
        NewTxs(s, e, id);
        BeginIsEvidence(past, e);
      }
    }
    forall name, bytes | (name, bytes) in t.accepted ensures Vouched(past + [e], name, bytes) {
      if (name, bytes) in s.accepted {
        VouchedGrows(past, e, name, bytes);
      } else {
        AcceptedSince(s, e, name, bytes);
        AcceptanceIsEvidence(past, e.id, name, bytes);
      }
    }
  }

  lemma BeginIsEvidence(past: seq<Event>, e: Event)
    requires e.Begin?
    ensures Begun(past + [e], e.id, e.target.name)
  {
    assert BegunAt(past + [e], |past|, e.id, e.target.name);
  }

  lemma {:induction false} EvidenceRun(base: Files, s: Sys, past: seq<Event>, evs: seq<Event>)
    requires Inv(base, s) && Evidence(s, past) && Legal(s, evs)
    ensures Evidence(Run(s, evs), past + evs)
    decreases |evs|
  {
    hide PathsInv, JobsInv, PendingInv, FilesAllowed, StagedAccepted, HeldInv, Evidence, Step, Enabled;
    if evs == [] {
      assert past + evs == past;
    } else {
      EvidenceStep(s, evs[0], past);
      StepInv(base, s, evs[0]);
      EvidenceRun(base, Step(s, evs[0]), past + [evs[0]], evs[1..]);
      assert past + [evs[0]] + evs[1..] == past + evs;
    }
  }

  /** In every run, over any mix of calls, confirmations and timeouts, a live file holds what the target's
      files held at the start, or bytes for which the run has a Begin on that target, a later Stage of exactly
      these bytes by the same transaction, and a later Validate of it whose verdict was to accept. */
  lemma LiveFileProvenance(base: Files, evs: seq<Event>, name: string)
    requires Legal(Init(base), evs) && LivePath(name) in Run(Init(base), evs).fs
    ensures var bytes := Run(Init(base), evs).fs[LivePath(name)];
      || (exists p :: p in base && !p.StagedPath? && p.name == name && base[p] == bytes)
      || (exists id: nat, i: nat, j: nat, k: nat ::
            && BegunAt(evs, i, id, name) && i < j && StagedAt(evs, j, id, bytes) && j < k && AcceptedAt(evs, k, id))
  {
    hide Inv, Step, Enabled, Run, BegunAt, StagedAt, AcceptedAt;
    ReachableInv(base, []);
    assert Legal(Init(base), []) && Run(Init(base), []) == Init(base) by {
      NoEvents(Init(base));
    }
    EvidenceRun(base, Init(base), [], evs);
    assert [] + evs == evs;
    LiveFileAllowed(base, evs, name);
    var s := Run(Init(base), evs);
    assert (name, s.fs[LivePath(name)]) in s.accepted ==> Vouched(evs, name, s.fs[LivePath(name)]);
  }

  lemma NoEvents(s: Sys)
    ensures Legal(s, []) && Run(s, []) == s
  {
  }

  // ----- A rejected change -----

  /** A job belongs to a transaction that has got past its validator. */
  ghost predicate JobsCommitted(s: Sys) {
    forall ch :: ch in s.jobs && s.jobs[ch].txid in s.txs ==>
      s.txs[s.jobs[ch].txid].status in {Committed, Confirmed, RolledBack}
  }

  /** How one step changes a status: the possible moves, each with the call that makes it. */
  lemma StatusMoves(s: Sys, e: Event, id: nat)
    requires JobsCommitted(s) && Enabled(s, e) && id in s.txs
    ensures var (a, b) := (s.txs[id].status, Step(s, e).txs[id].status);
      || a == b
      || (a == Pending && e.Stage? && e.id == id && b == if e.fault then Failed else Staged)
      || (a == Staged && e == Validate(id, b == Validated) && b in {Validated, Failed})
      || (a == Validated && e.Commit? && e.id == id && b in {Confirmed, Failed})
      || (a == Validated && e.CommitNet? && e.id == id && b == Committed)
      || (a in {Committed, RolledBack} && e.OnConfirm? && b == Confirmed)
      || (e.Rollback? && e.id == id && b == RolledBack)
  {
    if OfCall(e) || e.CommitNet? {
      CallMoves(s, e, id);
    } else {
      JobMoves(s, e, id);
    }
  }

  lemma CallMoves(s: Sys, e: Event, id: nat)
    requires Enabled(s, e) && (OfCall(e) || e.CommitNet?) && id in s.txs
    ensures id in Step(s, e).txs
    ensures var (a, b) := (s.txs[id].status, Step(s, e).txs[id].status);
      || a == b
      || (a == Pending && e.Stage? && e.id == id && b == if e.fault then Failed else Staged)
      || (a == Staged && e == Validate(id, b == Validated) && b in {Validated, Failed})
      || (a == Validated && e.Commit? && e.id == id && b in {Confirmed, Failed})
      || (a == Validated && e.CommitNet? && e.id == id && b == Committed)
      || (e.Rollback? && e.id == id && b == RolledBack)
  {
  }

  lemma JobMoves(s: Sys, e: Event, id: nat)
    requires JobsCommitted(s) && Enabled(s, e) && !OfCall(e) && !e.CommitNet? && id in s.txs
    ensures id in Step(s, e).txs
    ensures var (a, b) := (s.txs[id].status, Step(s, e).txs[id].status);
      a == b || (a in {Committed, RolledBack} && e.OnConfirm? && b == Confirmed)
  {
  }

  /** A job is made for a transaction that has just been committed, and keeps its transaction. */
  lemma JobsSinceStep(s: Sys, e: Event, ch: nat)
    requires Enabled(s, e) && ch in Step(s, e).jobs
    ensures var t := Step(s, e);
      if ch in s.jobs then t.jobs[ch].txid == s.jobs[ch].txid
      else e.CommitNet? && e.ch == ch && t.jobs[ch].txid == e.id && e.id in t.txs && t.txs[e.id].status == Committed
  {
  }

  lemma CommittedStep(s: Sys, e: Event)
    requires JobsInv(s.txs, s.jobs, s.held) && JobsCommitted(s) && Enabled(s, e)
    ensures JobsCommitted(Step(s, e))
  {
    hide Step, Enabled;
    var t := Step(s, e);
    forall ch | ch in t.jobs && t.jobs[ch].txid in t.txs
      ensures t.txs[t.jobs[ch].txid].status in {Committed, Confirmed, RolledBack}
    {
      JobsSinceStep(s, e, ch);
      if ch in s.jobs {
        StatusMoves(s, e, s.jobs[ch].txid);
      }
    }
  }

  lemma {:induction false} CommittedRun(base: Files, s: Sys, evs: seq<Event>)
    requires Inv(base, s) && JobsCommitted(s) && Legal(s, evs)
    ensures JobsCommitted(Run(s, evs))
    decreases |evs|
  {
    hide PathsInv, JobsInv, PendingInv, FilesAllowed, StagedAccepted, HeldInv, JobsCommitted, Step, Enabled;
    if evs == [] {
    } else {
      CommittedStep(s, evs[0]);
      StepInv(base, s, evs[0]);
      CommittedRun(base, Step(s, evs[0]), evs[1..]);
    }
  }

  lemma {:induction false} OutStays(base: Files, s: Sys, evs: seq<Event>, id: nat)
    requires Inv(base, s) && JobsCommitted(s) && Legal(s, evs) && id in s.txs && s.txs[id].status == Failed
    requires forall e :: e in evs && e.Rollback? ==> e.id != id
    ensures id in Run(s, evs).txs && Run(s, evs).txs[id].status == Failed
    decreases |evs|
  {
    hide PathsInv, JobsInv, PendingInv, FilesAllowed, StagedAccepted, HeldInv, JobsCommitted, Step, Enabled;
    if evs == [] {
    } else {
      assert evs[0] in evs;
      TxsKeepPaths(s, evs[0], id);
      StatusMoves(s, evs[0], id);
      CommittedStep(s, evs[0]);
      StepInv(base, s, evs[0]);
      OutStays(base, Step(s, evs[0]), evs[1..], id);
    }
  }

  /** A staged change that the validator rejects is Failed at once, no file changes, and it stays Failed
      through any continuation in which it is not rolled back: committing it, the ordinary way or as a
      network change, changes nothing. */
  lemma RejectedStaysOut(base: Files, before: seq<Event>, id: nat, evs: seq<Event>, e: Event)
    requires Legal(Init(base), before)
    requires var s := Run(Init(base), before);
      && Enabled(s, Validate(id, false)) && s.txs[id].status == Staged
      && Legal(Step(s, Validate(id, false)), evs) && (forall x :: x in evs && x.Rollback? ==> x.id != id)
      && (e.Commit? || e.CommitNet?) && e.id == id && Enabled(Run(Step(s, Validate(id, false)), evs), e)
    ensures var s := Run(Init(base), before);
      var f := Step(s, Validate(id, false));
      && f.fs == s.fs && id in f.txs && f.txs[id].status == Failed
      && id in Run(f, evs).txs && Run(f, evs).txs[id].status == Failed && Step(Run(f, evs), e) == Run(f, evs)
  {
    hide Inv, JobsCommitted, Step, Enabled, Run, Legal;
    ReachableInv(base, before);
    NoEvents(Init(base));
    NoJobs(base);
    ReachableInv(base, []);
    CommittedRun(base, Init(base), before);
    var s := Run(Init(base), before);
    Rejection(s, id);
    StepInv(base, s, Validate(id, false));
    InvJobs(base, s);
    CommittedStep(s, Validate(id, false));
    OutStays(base, Step(s, Validate(id, false)), evs, id);
    CommitRefused(Run(Step(s, Validate(id, false)), evs), e);
  }

  lemma NoJobs(base: Files)
    ensures JobsCommitted(Init(base))
  {
  }

  lemma InvJobs(base: Files, s: Sys)
    requires Inv(base, s)
    ensures JobsInv(s.txs, s.jobs, s.held) && PathsInv(s.txs)
  {
  }

  lemma Rejection(s: Sys, id: nat)
    requires Enabled(s, Validate(id, false)) && s.txs[id].status == Staged
    ensures var f := Step(s, Validate(id, false));
      f.fs == s.fs && id in f.txs && f.txs[id].status == Failed
  {
  }

  lemma CommitRefused(s: Sys, e: Event)
    requires (e.Commit? || e.CommitNet?) && Enabled(s, e) && e.id in s.txs && s.txs[e.id].status != Validated
    ensures Step(s, e) == s
  {
    assert s.txs[e.id := s.txs[e.id]] == s.txs;
  }

  // ----- An accepted change -----

  /** A step that is none of the transaction's own calls and does not clean its staging file up. */
  ghost predicate LeavesAlone(e: Event, id: nat, staged: Path) {
    && (e.Stage? || e.Validate? || e.Commit? || e.CommitNet? || e.Rollback? ==> e.id != id)
    && (e.Cleanup? ==> staged !in e.removed)
  }

  ghost predicate Holds(s: Sys, id: nat, tx: Tx, bytes: Bytes) {
    && id in s.txs && s.txs[id] == tx && tx.staged == StagedPath(tx.target.name, id)
    && tx.staged in s.fs && s.fs[tx.staged] == bytes && tx.status in {Staged, Validated}
  }

  lemma LeftAloneHolds(s: Sys, e: Event, id: nat, tx: Tx, bytes: Bytes)
    requires PathsInv(s.txs) && JobsCommitted(s) && Enabled(s, e)
    requires Holds(s, id, tx, bytes) && LeavesAlone(e, id, tx.staged)
    ensures Holds(Step(s, e), id, tx, bytes)
  {
    hide PathsInv, JobsCommitted;
    if e.Begin? || e.Rollback? || e.Cleanup? {
      BackupsLeaveAlone(s, e, id, tx, bytes);
    } else if OfCall(e) || e.CommitNet? {
      CallsLeaveAlone(s, e, id, tx, bytes);
    } else {
      JobsLeaveAlone(s, e, id, tx, bytes);
    }
  }

  lemma BackupsLeaveAlone(s: Sys, e: Event, id: nat, tx: Tx, bytes: Bytes)
    requires PathsInv(s.txs) && Enabled(s, e) && (e.Begin? || e.Rollback? || e.Cleanup?)
    requires Holds(s, id, tx, bytes) && LeavesAlone(e, id, tx.staged)
    ensures Holds(Step(s, e), id, tx, bytes)
  {
  }

  lemma CallsLeaveAlone(s: Sys, e: Event, id: nat, tx: Tx, bytes: Bytes)
    requires PathsInv(s.txs) && Enabled(s, e) && (e.Stage? || e.Validate? || e.Commit? || e.CommitNet?)
    requires Holds(s, id, tx, bytes) && LeavesAlone(e, id, tx.staged)
    ensures Holds(Step(s, e), id, tx, bytes)
  {
  }

  lemma JobsLeaveAlone(s: Sys, e: Event, id: nat, tx: Tx, bytes: Bytes)
    requires PathsInv(s.txs) && JobsCommitted(s) && Enabled(s, e) && !OfCall(e) && !e.CommitNet?
    requires Holds(s, id, tx, bytes)
    ensures Holds(Step(s, e), id, tx, bytes)
  {
    if e.Apply? || e.OnConfirm? || e.Restore? {
      assert s.jobs[e.ch].txid != id;
    }
  }

  lemma {:induction false} LeftAloneRun(base: Files, s: Sys, evs: seq<Event>, id: nat, tx: Tx, bytes: Bytes)
    requires Inv(base, s) && JobsCommitted(s) && Legal(s, evs) && Holds(s, id, tx, bytes)
    requires forall e :: e in evs ==> LeavesAlone(e, id, tx.staged)
    ensures Holds(Run(s, evs), id, tx, bytes)
    decreases |evs|
  {
    hide PathsInv, JobsInv, PendingInv, FilesAllowed, StagedAccepted, HeldInv, JobsCommitted, Step, Enabled, Holds,
      LeavesAlone;
    if evs == [] {
    } else {
      assert evs[0] in evs;
      LeftAloneHolds(s, evs[0], id, tx, bytes);
      CommittedStep(s, evs[0]);
      StepInv(base, s, evs[0]);
      LeftAloneRun(base, Step(s, evs[0]), evs[1..], id, tx, bytes);
    }
  }

  /** The way of a change from Stage to the point where it can be committed. */
  function Prepared(s: Sys, id: nat, bytes: Bytes, first: seq<Event>, second: seq<Event>): Sys
    requires Ready(s, id, bytes, first, second)
  {
    Run(Step(Run(Step(s, Stage(id, bytes, false)), first), Validate(id, true)), second)
  }

  ghost predicate Ready(s: Sys, id: nat, bytes: Bytes, first: seq<Event>, second: seq<Event>) {
    && Enabled(s, Stage(id, bytes, false)) && Legal(Step(s, Stage(id, bytes, false)), first)
    && var t := Run(Step(s, Stage(id, bytes, false)), first);
       Enabled(t, Validate(id, true)) && Legal(Step(t, Validate(id, true)), second)
  }

  lemma StageHolds(s: Sys, id: nat, bytes: Bytes)
    requires PathsInv(s.txs) && Enabled(s, Stage(id, bytes, false)) && id in s.txs && s.txs[id].status == Pending
    ensures Holds(Step(s, Stage(id, bytes, false)), id, s.txs[id].(status := Staged), bytes)
  {
  }

  lemma ValidateHolds(s: Sys, id: nat, tx: Tx, bytes: Bytes)
    requires Enabled(s, Validate(id, true)) && Holds(s, id, tx, bytes) && tx.status == Staged
    ensures Holds(Step(s, Validate(id, true)), id, tx.(status := Validated), bytes)
  {
  }

  lemma CommitHeld(t: Sys, id: nat, tx: Tx, bytes: Bytes, ch: nat)
    requires Holds(t, id, tx, bytes) && tx.status == Validated
    ensures Enabled(t, Commit(id, false)) ==>
      var u := Step(t, Commit(id, false));
      LiveContent(u, tx.target.name) == Some(bytes) && id in u.txs && u.txs[id].status == Confirmed
    ensures Enabled(t, CommitNet(id, ch)) && tx.target.name !in t.pending ==>
      var u := Step(t, CommitNet(id, ch));
      && Enabled(u, Apply(ch, false)) && tx.target.name in u.pending && u.pending[tx.target.name] == ch
      && LiveContent(Step(u, Apply(ch, false)), tx.target.name) == Some(bytes)
  {
    if Enabled(t, CommitNet(id, ch)) && tx.target.name !in t.pending {
      var u := Step(t, CommitNet(id, ch));
      assert u.txs[id] == tx.(status := Committed) && u.fs == t.fs;
      assert At(u, ch, Registered) && TxOf(u, ch) == u.txs[id];
    }
  }

  /** An accepted change is published. Stage, Validate with a verdict to accept, and Commit by a pending
      transaction, with anything by others in between that spares its staging file, put exactly the staged
      bytes live: at once for an ordinary target, and with the next step of StageCommit for a network target
      that has no change pending. */
  lemma AcceptedIsPublished(base: Files, before: seq<Event>, id: nat, bytes: Bytes, first: seq<Event>,
                            second: seq<Event>, ch: nat)
    requires Legal(Init(base), before)
    requires var s := Run(Init(base), before);
      && Ready(s, id, bytes, first, second) && id in s.txs && s.txs[id].status == Pending
      && (forall e :: e in first + second ==> LeavesAlone(e, id, s.txs[id].staged))
    ensures var s := Run(Init(base), before);
      var (name, t) := (s.txs[id].target.name, Prepared(s, id, bytes, first, second));
      && (Enabled(t, Commit(id, false)) ==>
            var u := Step(t, Commit(id, false));
            LiveContent(u, name) == Some(bytes) && id in u.txs && u.txs[id].status == Confirmed)
      && (Enabled(t, CommitNet(id, ch)) && name !in t.pending ==>
            var u := Step(t, CommitNet(id, ch));
            Enabled(u, Apply(ch, false)) && LiveContent(Step(u, Apply(ch, false)), name) == Some(bytes))
  {
    hide Inv, JobsCommitted, Step, Enabled, Run, Legal, Holds, LeavesAlone;
    ReachableInv(base, before);
    NoJobs(base);
    NoEvents(Init(base));
    ReachableInv(base, []);
    CommittedRun(base, Init(base), before);
    var s := Run(Init(base), before);
    var tx := s.txs[id];
    InvJobs(base, s);
    StageHolds(s, id, bytes);
    StepInv(base, s, Stage(id, bytes, false));
    CommittedStep(s, Stage(id, bytes, false));
    var a := Step(s, Stage(id, bytes, false));
    LeftAloneRun(base, a, first, id, tx.(status := Staged), bytes);
    RunInv(base, a, first);
    CommittedRun(base, a, first);
    var b := Run(a, first);
    InvJobs(base, b);
    ValidateHolds(b, id, tx.(status := Staged), bytes);
    StepInv(base, b, Validate(id, true));
    CommittedStep(b, Validate(id, true));
    LeftAloneRun(base, Step(b, Validate(id, true)), second, id, tx.(status := Validated), bytes);
    CommitHeld(Prepared(s, id, bytes, first, second), id, tx.(status := Validated), bytes, ch);
  }
}
