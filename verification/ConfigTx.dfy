/** Config transactions and the commit-confirm protocol of pkg/configtx as a step
    system: calls on any number of transactions interleave with the phases of
    StageCommit, with the awaiter goroutines, and with Confirm. */
module ConfigTx {
  import opened Prelude
  import opened ConfigFiles

  datatype Branch = ByConfirm | ByTimeout

  /** One execution of StageCommit and of the awaiter it starts, named by the channel it makes:
      the name is registered; the live file is replaced; the awaiter is started; it has read its
      channel; the select has taken a branch; the branch has run; the entry is deleted. */
  datatype Phase =
    | Registered
    | Applied
    | Started
    | Waiting(ch: nat)
    | Chosen(branch: Branch)
    | Settled(branch: Branch)
    | Gone(branch: Branch)
    | Aborted

  datatype Job = Job(txid: nat, name: string, phase: Phase)

  /** held: the transactions whose lock is held across the steps of a network Commit. pending is
      confirmCh; closed the channels closed; looked the channels that callers of Confirm have
      looked up and are about to close. accepted records (name, bytes) pairs that were staged and
      passed the target's validator. */
  datatype Sys = Sys(fs: Files, txs: map<nat, Tx>, held: set<nat>, pending: map<string, nat>, jobs: map<nat, Job>,
                     closed: set<nat>, looked: multiset<nat>, accepted: set<(string, Bytes)>)

  datatype Event =
    | Begin(id: nat, target: Target, stamp: nat, fault: bool)
    | Stage(id: nat, content: Bytes, fault: bool)
    | Validate(id: nat, verdict: bool)
    | Commit(id: nat, fault: bool)
    | CommitNet(id: nat, ch: nat)
    | Apply(ch: nat, fault: bool)
    | Start(ch: nat)
    | Attach(ch: nat)
    | Lookup(name: string)
    | CloseCh(ch: nat)
    | TakeConfirm(ch: nat)
    | TakeTimeout(ch: nat)
    | OnConfirm(ch: nat)
    | Restore(ch: nat, fault: bool)
    | Forget(ch: nat)
    | Rollback(id: nat, fault: bool)
    | Cleanup(removed: set<Path>)

  function Init(fs: Files): Sys {
    Sys(fs, map[], {}, map[], map[], {}, multiset{}, {})
  }

  predicate At(s: Sys, ch: nat, p: Phase) {
    ch in s.jobs && s.jobs[ch].phase == p && s.jobs[ch].txid in s.txs
  }

  predicate Awaits(s: Sys, ch: nat) {
    ch in s.jobs && s.jobs[ch].phase.Waiting? && s.jobs[ch].txid in s.txs
  }

  predicate Free(s: Sys, id: nat) {
    id in s.txs && id !in s.held
  }

  function TxOf(s: Sys, ch: nat): Tx
    requires ch in s.jobs && s.jobs[ch].txid in s.txs
  {
    s.txs[s.jobs[ch].txid]
  }

  /** Transaction identifiers are fresh, and so are channels. Commit and Rollback look a transaction
      up before they lock it, so they can still reach one that Cleanup has just dropped. Closing a
      closed channel is a crash of the program, not a step. */
  predicate Enabled(s: Sys, e: Event) {
    match e
    case Begin(id, _, _, _) => id !in s.txs
    case Stage(id, _, _) => Free(s, id)
    case Validate(id, _) => Free(s, id)
    case Commit(id, _) => Free(s, id) && !s.txs[id].target.isNetwork
    case CommitNet(id, ch) => Free(s, id) && s.txs[id].target.isNetwork && ch !in s.jobs
    case Apply(ch, _) => At(s, ch, Registered)
    case Start(ch) => At(s, ch, Applied)
    case Attach(ch) => At(s, ch, Started)
    case Lookup(name) => name in s.pending
    case CloseCh(ch) => ch in s.looked && ch !in s.closed
    case TakeConfirm(ch) => Awaits(s, ch) && s.jobs[ch].phase.ch in s.closed
    case TakeTimeout(ch) => Awaits(s, ch)
    case OnConfirm(ch) => At(s, ch, Chosen(ByConfirm)) && s.jobs[ch].txid !in s.held
    case Restore(ch, _) => At(s, ch, Chosen(ByTimeout))
    case Forget(ch) => At(s, ch, Settled(ByConfirm)) || At(s, ch, Settled(ByTimeout))
    case Rollback(id, _) => Free(s, id)
    case Cleanup(removed) => forall p :: p in removed ==> !p.LivePath?
  }

  function To(s: Sys, ch: nat, p: Phase): Sys
    requires ch in s.jobs
  {
    s.(jobs := s.jobs[ch := s.jobs[ch].(phase := p)])
  }

  function DoValidate(s: Sys, id: nat, verdict: bool): Sys
    requires id in s.txs
  {
    var tx := s.txs[id];
    var (after, ok) := ValidateTx(tx, verdict);
    var seen := if ok && tx.staged in s.fs then {(tx.target.name, s.fs[tx.staged])} else {};
    s.(txs := s.txs[id := after], accepted := s.accepted + seen)
  }

  /** Commit of a network target up to the point where StageCommit has registered the name. When the
      name is taken, Commit fails but leaves the status at Committed. */
  function DoCommitNet(s: Sys, id: nat, ch: nat): Sys
    requires id in s.txs
  {
    var tx := s.txs[id];
    if tx.status != Validated then s
    else
      var t := s.(txs := s.txs[id := tx.(status := Committed)]);
      if tx.target.name in s.pending then t
      else t.(pending := s.pending[tx.target.name := ch], jobs := s.jobs[ch := Job(id, tx.target.name, Registered)],
          held := s.held + {id})
  }

  function DoApply(s: Sys, ch: nat, fault: bool): Sys
    requires ch in s.jobs && s.jobs[ch].txid in s.txs
  {
    var tx := TxOf(s, ch);
    var renamed := Rename(s.fs, tx.staged, LiveOf(tx), fault);
    if renamed.Some? then To(s, ch, Applied).(fs := renamed.value)
    else To(s, ch, Aborted).(pending := s.pending - {s.jobs[ch].name}, held := s.held - {s.jobs[ch].txid})
  }

  function Step(s: Sys, e: Event): Sys
    requires Enabled(s, e)
  {
    match e
    case Begin(id, target, stamp, fault) =>
      var fs := BeginFiles(s.fs, target, stamp, fault);
      if fs.None? then s else s.(fs := fs.value, txs := s.txs[id := NewTx(target, stamp, id)])
    case Stage(id, content, fault) =>
      var (fs, tx, _) := StageTx(s.fs, s.txs[id], content, fault);
      s.(fs := fs, txs := s.txs[id := tx])
    case Validate(id, verdict) => DoValidate(s, id, verdict)
    case Commit(id, fault) =>
      var (fs, tx, _) := CommitTx(s.fs, s.txs[id], fault);
      s.(fs := fs, txs := s.txs[id := tx])
    case CommitNet(id, ch) => DoCommitNet(s, id, ch)
    case Apply(ch, fault) => DoApply(s, ch, fault)
    case Start(ch) => To(s, ch, Started).(held := s.held - {s.jobs[ch].txid})
    case Attach(ch) => To(s, ch, if s.jobs[ch].name in s.pending then Waiting(s.pending[s.jobs[ch].name]) else Aborted)
    case Lookup(name) => s.(looked := s.looked + multiset{s.pending[name]})
    case CloseCh(ch) => s.(looked := s.looked - multiset{ch}, closed := s.closed + {ch})
    case TakeConfirm(ch) => To(s, ch, Chosen(ByConfirm))
    case TakeTimeout(ch) => To(s, ch, Chosen(ByTimeout))
    case OnConfirm(ch) =>
      To(s, ch, Settled(ByConfirm)).(txs := s.txs[s.jobs[ch].txid := TxOf(s, ch).(status := Confirmed)])
    case Restore(ch, fault) =>
      To(s, ch, Settled(ByTimeout)).(fs := OrElse(Copy(s.fs, TxOf(s, ch).backup, LiveOf(TxOf(s, ch)), fault), s.fs))
    case Forget(ch) => To(s, ch, Gone(s.jobs[ch].phase.branch)).(pending := s.pending - {s.jobs[ch].name})
    case Rollback(id, fault) =>
      var (fs, tx, _) := RollbackTx(s.fs, s.txs[id], fault);
      s.(fs := fs, txs := s.txs[id := tx])
    case Cleanup(removed) => s.(fs := s.fs - removed)
  }

  ghost predicate Legal(s: Sys, evs: seq<Event>)
    decreases |evs|
  {
    evs == [] || (Enabled(s, evs[0]) && Legal(Step(s, evs[0]), evs[1..]))
  }

  function Run(s: Sys, evs: seq<Event>): Sys
    requires Legal(s, evs)
    decreases |evs|
  {
    if evs == [] then s else Run(Step(s, evs[0]), evs[1..])
  }

  // ----- The invariants -----

  predicate Active(p: Phase) {
    !p.Gone? && !p.Aborted?
  }

  predicate Committing(p: Phase) {
    p.Registered? || p.Applied?
  }

  /** Every transaction keeps its own paths. */
  ghost predicate PathsInv(txs: map<nat, Tx>) {
    forall id :: id in txs ==>
      && txs[id].backup.BackupPath? && txs[id].backup.name == txs[id].target.name
      && txs[id].staged == StagedPath(txs[id].target.name, id)
  }

  /** Every job belongs to a transaction on its name, whose lock and Committed status it keeps until
      the awaiter starts. */
  ghost predicate JobsInv(txs: map<nat, Tx>, jobs: map<nat, Job>, held: set<nat>) {
    forall ch :: ch in jobs ==>
      && jobs[ch].txid in txs && txs[jobs[ch].txid].target == Target(jobs[ch].name, true)
      && (Committing(jobs[ch].phase) ==> jobs[ch].txid in held && txs[jobs[ch].txid].status == Committed)
  }

  /** A name is registered exactly while one job for it is active, under that job's channel, and an
      awaiter waits on its own channel. */
  ghost predicate PendingInv(jobs: map<nat, Job>, pending: map<string, nat>) {
    && (forall ch :: ch in jobs && Active(jobs[ch].phase) ==> jobs[ch].name in pending && pending[jobs[ch].name] == ch)
    && (forall name :: name in pending ==>
          pending[name] in jobs && Active(jobs[pending[name]].phase) && jobs[pending[name]].name == name)
    && (forall ch :: ch in jobs && jobs[ch].phase.Waiting? ==> jobs[ch].phase.ch == ch)
  }

  /** The bytes a target's live file may hold: what its files held at the start, or something that was
      staged for it and accepted by its validator. */
  ghost predicate Allowed(base: Files, accepted: set<(string, Bytes)>, name: string, bytes: Bytes) {
    (name, bytes) in accepted || exists p :: p in base && !p.StagedPath? && p.name == name && base[p] == bytes
  }

  ghost predicate FilesAllowed(base: Files, fs: Files, accepted: set<(string, Bytes)>) {
    forall p :: p in fs && !p.StagedPath? ==> Allowed(base, accepted, p.name, fs[p])
  }

  /** What a validated or committed transaction would rename into place was accepted. */
  ghost predicate StagedAccepted(txs: map<nat, Tx>, fs: Files, accepted: set<(string, Bytes)>) {
    forall id :: id in txs && (txs[id].status.Validated? || txs[id].status.Committed?) && txs[id].staged in fs ==>
      (txs[id].target.name, fs[txs[id].staged]) in accepted
  }

  ghost predicate Inv(base: Files, s: Sys) {
    && PathsInv(s.txs) && JobsInv(s.txs, s.jobs, s.held) && HeldInv(s) && PendingInv(s.jobs, s.pending)
    && FilesAllowed(base, s.fs, s.accepted) && StagedAccepted(s.txs, s.fs, s.accepted)
  }

  // ----- Preservation -----

  lemma PathsKeep(txs: map<nat, Tx>, id: nat, tx: Tx)
    requires PathsInv(txs)
    requires if id in txs then tx == txs[id].(status := tx.status)
             else exists target, stamp :: tx == NewTx(target, stamp, id)
    ensures PathsInv(txs[id := tx])
  {
  }

  lemma PathsStep(s: Sys, e: Event)
    requires PathsInv(s.txs) && Enabled(s, e)
    ensures PathsInv(Step(s, e).txs)
  {
    hide PathsInv;
    var t := Step(s, e);
    match e
    case Begin(id, target, stamp, _) => PathsKeep(s.txs, id, NewTx(target, stamp, id));
    case Stage(id, _, _) => PathsKeep(s.txs, id, t.txs[id]);
    case Validate(id, _) => PathsKeep(s.txs, id, t.txs[id]);
    case Commit(id, _) => PathsKeep(s.txs, id, t.txs[id]);
    case CommitNet(id, _) =>
      PathsKeep(s.txs, id, s.txs[id].(status := Committed));
    case OnConfirm(ch) => PathsKeep(s.txs, s.jobs[ch].txid, t.txs[s.jobs[ch].txid]);
    case Rollback(id, _) => PathsKeep(s.txs, id, t.txs[id]);
    case _ =>
  }

  /** A step on one transaction whose lock is free, which keeps its target. */
  lemma JobsKeepTx(txs: map<nat, Tx>, jobs: map<nat, Job>, held: set<nat>, id: nat, tx: Tx)
    requires JobsInv(txs, jobs, held) && id !in held && (id in txs ==> tx.target == txs[id].target)
    ensures JobsInv(txs[id := tx], jobs, held)
  {
  }

  lemma JobsMove(s: Sys, ch: nat, p: Phase)
    requires JobsInv(s.txs, s.jobs, s.held) && ch in s.jobs && (Committing(p) ==> Committing(s.jobs[ch].phase))
    ensures JobsInv(s.txs, To(s, ch, p).jobs, s.held)
  {
  }

  lemma JobsRegister(s: Sys, id: nat, ch: nat)
    requires JobsInv(s.txs, s.jobs, s.held) && Enabled(s, CommitNet(id, ch))
    ensures JobsInv(DoCommitNet(s, id, ch).txs, DoCommitNet(s, id, ch).jobs, DoCommitNet(s, id, ch).held)
  {
  }

  /** The only job in the commit part of its transaction lets go of the lock. */
  lemma JobsRelease(s: Sys, ch: nat, p: Phase)
    requires JobsInv(s.txs, s.jobs, s.held) && PendingInv(s.jobs, s.pending)
    requires ch in s.jobs && Active(s.jobs[ch].phase) && !Committing(p)
    ensures JobsInv(s.txs, To(s, ch, p).jobs, s.held - {s.jobs[ch].txid})
  {
    forall c | c in s.jobs && Committing(s.jobs[c].phase) && s.jobs[c].txid == s.jobs[ch].txid ensures c == ch {
      assert s.jobs[c].name == s.jobs[ch].name;
    }
  }

  /** Locks are held by existing transactions only. */
  ghost predicate HeldInv(s: Sys) {
    forall id :: id in s.held ==> id in s.txs
  }

  /** Steps of a single call, as opposed to the phases of a job and of Confirm. */
  predicate OfCall(e: Event) {
    e.Begin? || e.Stage? || e.Validate? || e.Commit? || e.Rollback? || e.Cleanup?
  }

  lemma JobsCallStep(s: Sys, e: Event)
    requires JobsInv(s.txs, s.jobs, s.held) && HeldInv(s) && Enabled(s, e) && OfCall(e)
    ensures JobsInv(Step(s, e).txs, Step(s, e).jobs, Step(s, e).held) && HeldInv(Step(s, e))
  {
    hide JobsInv;
    var t := Step(s, e);
    if e.Begin? {
      JobsKeepTx(s.txs, s.jobs, s.held, e.id, NewTx(e.target, e.stamp, e.id));
    } else if !e.Cleanup? {
      JobsKeepTx(s.txs, s.jobs, s.held, e.id, t.txs[e.id]);
    }
  }

  lemma JobsStep(s: Sys, e: Event)
    requires JobsInv(s.txs, s.jobs, s.held) && PendingInv(s.jobs, s.pending) && HeldInv(s) && Enabled(s, e)
    ensures JobsInv(Step(s, e).txs, Step(s, e).jobs, Step(s, e).held) && HeldInv(Step(s, e))
  {
    hide JobsInv, PendingInv;
    var t := Step(s, e);
    if OfCall(e) {
      JobsCallStep(s, e);
    } else if e.CommitNet? {
      JobsRegister(s, e.id, e.ch);
    } else if e.Apply? {
      JobsMove(s, e.ch, Applied);
      JobsRelease(s, e.ch, Aborted);
    } else if e.Start? {
      JobsRelease(s, e.ch, Started);
    } else if !e.Lookup? && !e.CloseCh? {
      JobsMove(s, e.ch, t.jobs[e.ch].phase);
      if e.OnConfirm? {
        JobsKeepTx(s.txs, t.jobs, s.held, s.jobs[e.ch].txid, t.txs[s.jobs[e.ch].txid]);
      }
    }
  }

  lemma PendingMove(s: Sys, ch: nat, p: Phase)
    requires PendingInv(s.jobs, s.pending) && ch in s.jobs && Active(s.jobs[ch].phase) && Active(p)
    requires p.Waiting? ==> p.ch == ch
    ensures PendingInv(To(s, ch, p).jobs, s.pending)
  {
  }

  lemma PendingDrop(s: Sys, ch: nat, p: Phase)
    requires PendingInv(s.jobs, s.pending) && ch in s.jobs && Active(s.jobs[ch].phase) && !Active(p)
    ensures PendingInv(To(s, ch, p).jobs, s.pending - {s.jobs[ch].name})
  {
  }

  lemma PendingRegister(s: Sys, id: nat, ch: nat)
    requires PendingInv(s.jobs, s.pending) && Enabled(s, CommitNet(id, ch))
    ensures PendingInv(DoCommitNet(s, id, ch).jobs, DoCommitNet(s, id, ch).pending)
  {
  }

  lemma OwnChannel(s: Sys, ch: nat)
    requires PendingInv(s.jobs, s.pending) && ch in s.jobs && Active(s.jobs[ch].phase)
    ensures s.jobs[ch].name in s.pending && s.pending[s.jobs[ch].name] == ch
  {
  }

  lemma PendingStep(s: Sys, e: Event)
    requires PendingInv(s.jobs, s.pending) && Enabled(s, e)
    ensures PendingInv(Step(s, e).jobs, Step(s, e).pending)
  {
    hide PendingInv;
    match e
    case CommitNet(id, ch) => PendingRegister(s, id, ch);
    case Apply(ch, _) =>
      PendingMove(s, ch, Applied);
      PendingDrop(s, ch, Aborted);
    case Start(ch) => PendingMove(s, ch, Started);
    case Attach(ch) =>
      OwnChannel(s, ch);
      PendingMove(s, ch, Waiting(ch));
    case TakeConfirm(ch) => PendingMove(s, ch, Chosen(ByConfirm));
    case TakeTimeout(ch) => PendingMove(s, ch, Chosen(ByTimeout));
    case OnConfirm(ch) => PendingMove(s, ch, Settled(ByConfirm));
    case Restore(ch, _) => PendingMove(s, ch, Settled(ByTimeout));
    case Forget(ch) => PendingDrop(s, ch, Gone(s.jobs[ch].phase.branch));
    case _ =>
  }

  lemma CopyAllowed(base: Files, fs: Files, accepted: set<(string, Bytes)>, src: Path, dst: Path, fault: bool)
    requires FilesAllowed(base, fs, accepted) && !src.StagedPath? && src.name == dst.name
    ensures FilesAllowed(base, OrElse(Copy(fs, src, dst, fault), fs), accepted)
  {
  }

  lemma WriteAllowed(base: Files, fs: Files, accepted: set<(string, Bytes)>, dst: Path, bytes: Bytes)
    requires FilesAllowed(base, fs, accepted) && (dst.StagedPath? || (dst.name, bytes) in accepted)
    ensures FilesAllowed(base, fs[dst := bytes], accepted)
  {
  }

  lemma RemoveAllowed(base: Files, fs: Files, accepted: set<(string, Bytes)>, removed: set<Path>)
    requires FilesAllowed(base, fs, accepted)
    ensures FilesAllowed(base, fs - removed, accepted)
  {
  }

  lemma AllowedGrows(base: Files, fs: Files, accepted: set<(string, Bytes)>, more: set<(string, Bytes)>)
    requires FilesAllowed(base, fs, accepted)
    ensures FilesAllowed(base, fs, accepted + more)
  {
    forall p | p in fs && !p.StagedPath? ensures Allowed(base, accepted + more, p.name, fs[p]) {
      assert Allowed(base, accepted, p.name, fs[p]);
    }
  }

  /** Replacing the live file by an accepted staging file, which goes away. */
  lemma RenameAllowed(base: Files, s: Sys, id: nat, fault: bool)
    requires FilesAllowed(base, s.fs, s.accepted) && StagedAccepted(s.txs, s.fs, s.accepted)
    requires id in s.txs && (s.txs[id].status.Validated? || s.txs[id].status.Committed?)
    ensures FilesAllowed(base, OrElse(Rename(s.fs, s.txs[id].staged, LiveOf(s.txs[id]), fault), s.fs), s.accepted)
  {
    var tx := s.txs[id];
    if tx.staged in s.fs && !fault {
      RemoveAllowed(base, s.fs, s.accepted, {tx.staged});
      WriteAllowed(base, s.fs - {tx.staged}, s.accepted, LiveOf(tx), s.fs[tx.staged]);
    }
  }

  lemma FilesCallStep(base: Files, s: Sys, e: Event)
    requires PathsInv(s.txs) && Enabled(s, e) && OfCall(e)
    requires FilesAllowed(base, s.fs, s.accepted) && StagedAccepted(s.txs, s.fs, s.accepted)
    ensures FilesAllowed(base, Step(s, e).fs, Step(s, e).accepted)
  {
    hide FilesAllowed, StagedAccepted;
    match e
    case Begin(_, target, stamp, fault) =>
      CopyAllowed(base, s.fs, s.accepted, LivePath(target.name), BackupPath(target.name, stamp), fault);
    case Stage(id, content, _) => WriteAllowed(base, s.fs, s.accepted, s.txs[id].staged, content);
    case Validate(id, _) =>
      AllowedGrows(base, s.fs, s.accepted, {});
      AllowedGrows(base, s.fs, s.accepted, Step(s, e).accepted - s.accepted);
      assert s.accepted + (Step(s, e).accepted - s.accepted) == Step(s, e).accepted;
    case Commit(id, fault) =>
      if s.txs[id].status == Validated {
        RenameAllowed(base, s, id, fault);
      }
    case Rollback(id, fault) =>
      var tx := s.txs[id];
      CopyAllowed(base, s.fs, s.accepted, tx.backup, LiveOf(tx), fault);
      RemoveAllowed(base, OrElse(Copy(s.fs, tx.backup, LiveOf(tx), fault), s.fs), s.accepted, {tx.staged});
    case Cleanup(removed) => RemoveAllowed(base, s.fs, s.accepted, removed);
  }

  lemma FilesStep(base: Files, s: Sys, e: Event)
    requires PathsInv(s.txs) && JobsInv(s.txs, s.jobs, s.held) && Enabled(s, e)
    requires FilesAllowed(base, s.fs, s.accepted) && StagedAccepted(s.txs, s.fs, s.accepted)
    ensures FilesAllowed(base, Step(s, e).fs, Step(s, e).accepted)
  {
    hide FilesAllowed, StagedAccepted;
    if OfCall(e) {
      FilesCallStep(base, s, e);
    } else if e.Apply? {
      RenameAllowed(base, s, s.jobs[e.ch].txid, e.fault);
    } else if e.Restore? {
      CopyAllowed(base, s.fs, s.accepted, TxOf(s, e.ch).backup, LiveOf(TxOf(s, e.ch)), e.fault);
    }
  }

  /** Files come and go elsewhere: no transaction's staging file gets new content. */
  lemma StagedKeepFiles(txs: map<nat, Tx>, fs: Files, fs': Files, accepted: set<(string, Bytes)>)
    requires PathsInv(txs) && StagedAccepted(txs, fs, accepted)
    requires forall p :: p in fs' && p.StagedPath? ==> p in fs && fs'[p] == fs[p]
    ensures StagedAccepted(txs, fs', accepted)
  {
  }

  /** One transaction changes to a status in which nothing more is renamed, or its staging file is
      written while it has not been validated. */
  lemma StagedKeepTx(txs: map<nat, Tx>, fs: Files, accepted: set<(string, Bytes)>, id: nat, tx: Tx)
    requires StagedAccepted(txs, fs, accepted)
    requires tx.status.Validated? || tx.status.Committed? ==>
        id in txs && tx == txs[id].(status := tx.status) && txs[id].status.Validated?
    ensures StagedAccepted(txs[id := tx], fs, accepted)
  {
  }

  lemma StagedWrite(txs: map<nat, Tx>, fs: Files, accepted: set<(string, Bytes)>, id: nat, content: Bytes)
    requires PathsInv(txs) && StagedAccepted(txs, fs, accepted) && id in txs && txs[id].status == Pending
    ensures StagedAccepted(txs[id := txs[id].(status := Staged)], fs[txs[id].staged := content], accepted)
  {
  }

  lemma StagedValidate(s: Sys, id: nat, verdict: bool)
    requires StagedAccepted(s.txs, s.fs, s.accepted) && id in s.txs
    ensures StagedAccepted(DoValidate(s, id, verdict).txs, s.fs, DoValidate(s, id, verdict).accepted)
  {
  }

  lemma StagedStage(s: Sys, id: nat, content: Bytes, fault: bool)
    requires PathsInv(s.txs) && StagedAccepted(s.txs, s.fs, s.accepted) && id in s.txs
    ensures var (fs, tx, _) := StageTx(s.fs, s.txs[id], content, fault);
      StagedAccepted(s.txs[id := tx], fs, s.accepted)
  {
    hide StagedAccepted;
    if s.txs[id].status == Pending && !fault {
      StagedWrite(s.txs, s.fs, s.accepted, id, content);
    } else {
      StagedKeepSame(s.txs, s.fs, s.accepted, id, StageTx(s.fs, s.txs[id], content, fault).1);
    }
  }

  lemma StagedBegin(s: Sys, id: nat, target: Target, stamp: nat, fault: bool)
    requires PathsInv(s.txs) && StagedAccepted(s.txs, s.fs, s.accepted) && id !in s.txs
    ensures var fs := OrElse(BeginFiles(s.fs, target, stamp, fault), s.fs);
      StagedAccepted(s.txs, fs, s.accepted) && StagedAccepted(s.txs[id := NewTx(target, stamp, id)], fs, s.accepted)
  {
    hide StagedAccepted;
    var fs := OrElse(BeginFiles(s.fs, target, stamp, fault), s.fs);
    StagedKeepFiles(s.txs, s.fs, fs, s.accepted);
    StagedKeepTx(s.txs, fs, s.accepted, id, NewTx(target, stamp, id));
  }

  lemma StagedCallStep(s: Sys, e: Event)
    requires PathsInv(s.txs) && StagedAccepted(s.txs, s.fs, s.accepted) && Enabled(s, e) && OfCall(e)
    ensures StagedAccepted(Step(s, e).txs, Step(s, e).fs, Step(s, e).accepted)
  {
    hide StagedAccepted;
    var t := Step(s, e);
    match e
    case Begin(id, target, stamp, fault) => StagedBegin(s, id, target, stamp, fault);
    case Stage(id, content, fault) => StagedStage(s, id, content, fault);
    case Validate(id, verdict) => StagedValidate(s, id, verdict);
    case Commit(id, _) =>
      StagedKeepFiles(s.txs, s.fs, t.fs, s.accepted);
      StagedKeepSame(s.txs, t.fs, s.accepted, id, t.txs[id]);
    case Rollback(id, _) =>
      StagedKeepFiles(s.txs, s.fs, t.fs, s.accepted);
      StagedKeepSame(s.txs, t.fs, s.accepted, id, t.txs[id]);
    case Cleanup(_) => StagedKeepFiles(s.txs, s.fs, t.fs, s.accepted);
  }

  lemma StagedStep(s: Sys, e: Event)
    requires PathsInv(s.txs) && StagedAccepted(s.txs, s.fs, s.accepted) && Enabled(s, e)
    ensures StagedAccepted(Step(s, e).txs, Step(s, e).fs, Step(s, e).accepted)
  {
    hide StagedAccepted;
    var t := Step(s, e);
    if OfCall(e) {
      StagedCallStep(s, e);
    } else if e.CommitNet? {
      StagedKeepSame(s.txs, s.fs, s.accepted, e.id, t.txs[e.id]);
    } else if e.OnConfirm? {
      StagedKeepTx(s.txs, s.fs, s.accepted, s.jobs[e.ch].txid, t.txs[s.jobs[e.ch].txid]);
    } else if e.Apply? || e.Restore? {
      StagedKeepFiles(s.txs, s.fs, t.fs, s.accepted);
    }
  }

  lemma StagedKeepSame(txs: map<nat, Tx>, fs: Files, accepted: set<(string, Bytes)>, id: nat, tx: Tx)
    requires StagedAccepted(txs, fs, accepted) && id in txs
    requires tx == txs[id] || tx.status.Failed? || tx.status.Confirmed? || tx.status.RolledBack? ||
      (txs[id].status.Validated? && tx == txs[id].(status := Committed))
    ensures StagedAccepted(txs[id := tx], fs, accepted)
  {
    if tx != txs[id] {
      StagedKeepTx(txs, fs, accepted, id, tx);
    } else {
      assert txs[id := tx] == txs;
    }
  }

  lemma StepInv(base: Files, s: Sys, e: Event)
    requires Inv(base, s) && Enabled(s, e)
    ensures Inv(base, Step(s, e))
  {
    hide PathsInv, JobsInv, PendingInv, FilesAllowed, StagedAccepted, HeldInv, Step, Enabled;
    PathsStep(s, e);
    JobsStep(s, e);
    PendingStep(s, e);
    FilesStep(base, s, e);
    StagedStep(s, e);
  }

  lemma {:induction false} RunInv(base: Files, s: Sys, evs: seq<Event>)
    requires Inv(base, s) && Legal(s, evs)
    ensures Inv(base, Run(s, evs))
    decreases |evs|
  {
    hide Inv, Step, Enabled;
    if evs == [] {
    } else {
      StepInv(base, s, evs[0]);
      RunInv(base, Step(s, evs[0]), evs[1..]);
    }
  }

  lemma ReachableInv(base: Files, evs: seq<Event>)
    requires Legal(Init(base), evs)
    ensures Inv(base, Run(Init(base), evs))
  {
    forall p | p in base && !p.StagedPath? ensures Allowed(base, {}, p.name, base[p]) {
      assert p in base && !p.StagedPath?;
    }
    assert Inv(base, Init(base));
    RunInv(base, Init(base), evs);
  }

  // ----- Provenance -----

  /** In every reachable state, over any mix of calls, confirmations and timeouts, a live file holds
      what the target's files held at the start, or bytes that were staged for that target and accepted
      by its validator. */
  lemma LiveFileAllowed(base: Files, evs: seq<Event>, name: string)
    requires Legal(Init(base), evs)
    ensures var s := Run(Init(base), evs);
      LivePath(name) in s.fs ==> Allowed(base, s.accepted, name, s.fs[LivePath(name)])
  {
    ReachableInv(base, evs);
  }

  // ----- Commit-confirm -----

  /** A name is pending exactly while one StageCommit or its awaiter is in flight, and only one is; an
      awaiter waits on the channel of its own StageCommit. */
  lemma PendingMeansOneInFlight(base: Files, evs: seq<Event>)
    requires Legal(Init(base), evs)
    ensures var s := Run(Init(base), evs);
      && (forall name :: name in s.pending <==> exists ch ::
            ch in s.jobs && Active(s.jobs[ch].phase) && s.jobs[ch].name == name)
      && (forall a, b :: (a in s.jobs && b in s.jobs && Active(s.jobs[a].phase) && Active(s.jobs[b].phase)
                          && s.jobs[a].name == s.jobs[b].name) ==>
            a == b)
      && (forall ch :: ch in s.jobs && s.jobs[ch].phase.Waiting? ==> s.jobs[ch].phase.ch == ch)
  {
    ReachableInv(base, evs);
  }

  /** While one is in flight, a second network Commit for the name is refused: no file, job or entry
      changes; only the refused transaction's status has moved to Committed. */
  lemma SecondCommitRefused(base: Files, evs: seq<Event>, ch: nat, id: nat, other: nat)
    requires Legal(Init(base), evs)
    requires var s := Run(Init(base), evs);
      && ch in s.jobs && Active(s.jobs[ch].phase)
      && Enabled(s, CommitNet(id, other)) && s.txs[id].target.name == s.jobs[ch].name
    ensures var s := Run(Init(base), evs);
      var t := Step(s, CommitNet(id, other));
      && t.fs == s.fs && t.jobs == s.jobs && t.pending == s.pending && t.held == s.held
      && (s.txs[id].status == Validated ==> t.txs[id].status == Committed)
  {
    ReachableInv(base, evs);
  }

  /** Nothing replaces or removes the backup. */
  ghost predicate Spares(e: Event, backup: Path) {
    match e
    case Begin(_, target, stamp, _) => BackupPath(target.name, stamp) != backup
    case Cleanup(removed) => backup !in removed
    case _ => true
  }

  lemma CallSparesBackup(s: Sys, e: Event, backup: Path)
    requires PathsInv(s.txs) && Enabled(s, e) && OfCall(e) && Spares(e, backup) && backup.BackupPath?
    ensures var t := Step(s, e);
      (backup in t.fs <==> backup in s.fs) && (backup in s.fs ==> t.fs[backup] == s.fs[backup])
  {
  }

  lemma SparedBackup(s: Sys, e: Event, backup: Path)
    requires PathsInv(s.txs) && JobsInv(s.txs, s.jobs, s.held) && Enabled(s, e) && Spares(e, backup)
        && backup.BackupPath?
    ensures var t := Step(s, e);
      (backup in t.fs <==> backup in s.fs) && (backup in s.fs ==> t.fs[backup] == s.fs[backup])
  {
    hide PathsInv, JobsInv;
    if OfCall(e) {
      CallSparesBackup(s, e, backup);
    } else if e.Apply? || e.Restore? {
      JobSparesBackup(s, e, backup);
    } else {
      assert Step(s, e).fs == s.fs;
    }
  }

  lemma JobSparesBackup(s: Sys, e: Event, backup: Path)
    requires PathsInv(s.txs) && Enabled(s, e) && (e.Apply? || e.Restore?) && backup.BackupPath?
    ensures var t := Step(s, e);
      (backup in t.fs <==> backup in s.fs) && (backup in s.fs ==> t.fs[backup] == s.fs[backup])
  {
    assert TxOf(s, e.ch).staged.StagedPath?;
  }

  /** Steps that leave the outcome of the pending change to its own awaiter: no roll-back and no plain
      commit for the name, and nothing that replaces or removes the backup. */
  ghost predicate Quiet(s: Sys, e: Event, ch: nat, name: string, backup: Path) {
    && Spares(e, backup)
    && match e
       case Commit(id, _) => id in s.txs ==> s.txs[id].target.name != name
       case Rollback(id, _) => id in s.txs ==> s.txs[id].target.name != name
       case Restore(c, fault) => c == ch ==> !fault
       case _ => true
  }

  ghost predicate QuietRun(s: Sys, evs: seq<Event>, ch: nat, name: string, backup: Path)
    decreases |evs|
  {
    evs == [] || (Enabled(s, evs[0]) && Quiet(s, evs[0], ch, name, backup)
        && QuietRun(Step(s, evs[0]), evs[1..], ch, name, backup))
  }

  function QuietEnd(s: Sys, evs: seq<Event>, ch: nat, name: string, backup: Path): Sys
    requires QuietRun(s, evs, ch, name, backup)
    decreases |evs|
  {
    if evs == [] then s else QuietEnd(Step(s, evs[0]), evs[1..], ch, name, backup)
  }

  /** As long as the job is active: the live file holds the staged bytes until the timeout branch has
      run, and the backup's bytes from then on. */
  ghost predicate Undisturbed(s: Sys, ch: nat, name: string, backup: Path, proposed: Bytes, saved: Bytes) {
    && backup in s.fs && s.fs[backup] == saved && backup.BackupPath?
    && ch in s.jobs && s.jobs[ch].name == name && s.jobs[ch].txid in s.txs && TxOf(s, ch).backup == backup
    && !s.jobs[ch].phase.Registered?
    && (Active(s.jobs[ch].phase) ==>
          && LivePath(name) in s.fs
          && s.fs[LivePath(name)] == if s.jobs[ch].phase == Settled(ByTimeout) then saved else proposed)
  }

  /** The steps of one StageCommit and its awaiter. */
  predicate OfJob(e: Event, ch: nat) {
    (e.Apply? || e.Start? || e.Attach? || e.TakeConfirm? || e.TakeTimeout? || e.OnConfirm? || e.Restore? || e.Forget?)
        && e.ch == ch
  }

  /** No quiet step other than the job's own touches the live file or the backup while the job is
      active: another job that could is on another name. */
  lemma OthersKeepFiles(s: Sys, e: Event, ch: nat, name: string, backup: Path)
    requires PathsInv(s.txs) && JobsInv(s.txs, s.jobs, s.held) && PendingInv(s.jobs, s.pending)
    requires Enabled(s, e) && Quiet(s, e, ch, name, backup) && !OfJob(e, ch)
    requires ch in s.jobs && s.jobs[ch].name == name && Active(s.jobs[ch].phase) && LivePath(name) in s.fs
    ensures LivePath(name) in Step(s, e).fs && Step(s, e).fs[LivePath(name)] == s.fs[LivePath(name)]
  {
    hide PathsInv, JobsInv, PendingInv;
    if OfCall(e) {
      QuietCallsKeepFiles(s, e, ch, name, backup);
    } else if e.Apply? || e.Restore? {
      OtherJobsKeepFiles(s, e, ch, name);
    } else {
      assert Step(s, e).fs == s.fs;
    }
  }

  lemma QuietCallsKeepFiles(s: Sys, e: Event, ch: nat, name: string, backup: Path)
    requires PathsInv(s.txs) && Enabled(s, e) && OfCall(e) && Quiet(s, e, ch, name, backup) && LivePath(name) in s.fs
    ensures LivePath(name) in Step(s, e).fs && Step(s, e).fs[LivePath(name)] == s.fs[LivePath(name)]
  {
  }

  lemma OtherJobsKeepFiles(s: Sys, e: Event, ch: nat, name: string)
    requires PathsInv(s.txs) && JobsInv(s.txs, s.jobs, s.held) && PendingInv(s.jobs, s.pending)
    requires Enabled(s, e) && (e.Apply? || e.Restore?) && !OfJob(e, ch)
    requires ch in s.jobs && s.jobs[ch].name == name && Active(s.jobs[ch].phase) && LivePath(name) in s.fs
    ensures LivePath(name) in Step(s, e).fs && Step(s, e).fs[LivePath(name)] == s.fs[LivePath(name)]
  {
    assert s.jobs[e.ch].name != name;
    assert TxOf(s, e.ch).target.name == s.jobs[e.ch].name;
  }

  lemma OthersKeepJob(s: Sys, e: Event, ch: nat)
    requires Enabled(s, e) && !OfJob(e, ch) && ch in s.jobs
    ensures ch in Step(s, e).jobs && Step(s, e).jobs[ch] == s.jobs[ch]
  {
  }

  /** No step changes a transaction's target or paths. */
  lemma TxsKeepPaths(s: Sys, e: Event, id: nat)
    requires Enabled(s, e) && id in s.txs
    ensures id in Step(s, e).txs && Step(s, e).txs[id] == s.txs[id].(status := Step(s, e).txs[id].status)
  {
  }

  lemma OwnStep(s: Sys, e: Event, ch: nat, name: string, backup: Path, proposed: Bytes, saved: Bytes)
    requires JobsInv(s.txs, s.jobs, s.held) && PendingInv(s.jobs, s.pending) && Enabled(s, e)
    requires OfJob(e, ch) && Quiet(s, e, ch, name, backup)
    requires Undisturbed(s, ch, name, backup, proposed, saved)
    ensures Undisturbed(Step(s, e), ch, name, backup, proposed, saved)
  {
  }

  lemma UndisturbedStep(base: Files, s: Sys, e: Event, ch: nat, name: string, backup: Path, proposed: Bytes,
      saved: Bytes)
    requires Inv(base, s) && Enabled(s, e) && Quiet(s, e, ch, name, backup)
    requires Undisturbed(s, ch, name, backup, proposed, saved)
    ensures Undisturbed(Step(s, e), ch, name, backup, proposed, saved)
  {
    hide PathsInv, JobsInv, PendingInv, FilesAllowed, StagedAccepted, HeldInv, Step, Enabled, Spares;
    if OfJob(e, ch) {
      OwnStep(s, e, ch, name, backup, proposed, saved);
    } else {
      OthersKeepJob(s, e, ch);
      TxsKeepPaths(s, e, s.jobs[ch].txid);
      SparedBackup(s, e, backup);
      if Active(s.jobs[ch].phase) {
        OthersKeepFiles(s, e, ch, name, backup);
      }
    }
  }

  lemma {:induction false} UndisturbedRun(base: Files, s: Sys, evs: seq<Event>, ch: nat, name: string, backup: Path,
                                          proposed: Bytes, saved: Bytes)
    requires Inv(base, s) && QuietRun(s, evs, ch, name, backup) && Undisturbed(s, ch, name, backup, proposed, saved)
    ensures Undisturbed(QuietEnd(s, evs, ch, name, backup), ch, name, backup, proposed, saved)
    decreases |evs|
  {
    hide Inv, Step, Enabled, Quiet, Undisturbed;
    if evs == [] {
    } else {
      StepInv(base, s, evs[0]);
      UndisturbedStep(base, s, evs[0], ch, name, backup, proposed, saved);
      UndisturbedRun(base, Step(s, evs[0]), evs[1..], ch, name, backup, proposed, saved);
    }
  }

  lemma ApplyUndisturbed(base: Files, s: Sys, ch: nat)
    requires Inv(base, s) && At(s, ch, Registered) && TxOf(s, ch).staged in s.fs && TxOf(s, ch).backup in s.fs
    ensures Undisturbed(Step(s, Apply(ch, false)), ch, s.jobs[ch].name, TxOf(s, ch).backup,
                        s.fs[TxOf(s, ch).staged], s.fs[TxOf(s, ch).backup])
  {
  }

  /** The outcome of commit-confirm. From the moment the staged file replaces the live one, through any
      quiet steps of everything else, to the moment the entry is deleted: then the live file holds the
      staged bytes if the confirm branch ran, and the backup's bytes if the timeout branch ran. */
  lemma CommitConfirmOutcome(base: Files, before: seq<Event>, ch: nat, evs: seq<Event>)
    requires Legal(Init(base), before)
    requires var s := Run(Init(base), before);
      && At(s, ch, Registered) && TxOf(s, ch).staged in s.fs && TxOf(s, ch).backup in s.fs
      && var applied := Step(s, Apply(ch, false));
      && QuietRun(applied, evs, ch, s.jobs[ch].name, TxOf(s, ch).backup)
      && Enabled(QuietEnd(applied, evs, ch, s.jobs[ch].name, TxOf(s, ch).backup), Forget(ch))
    ensures var s := Run(Init(base), before);
      var settled := QuietEnd(Step(s, Apply(ch, false)), evs, ch, s.jobs[ch].name, TxOf(s, ch).backup);
      var t := Step(settled, Forget(ch));
      && s.jobs[ch].name !in t.pending
      && LivePath(s.jobs[ch].name) in t.fs
      && t.fs[LivePath(s.jobs[ch].name)] ==
           s.fs[if settled.jobs[ch].phase == Settled(ByConfirm) then TxOf(s, ch).staged else TxOf(s, ch).backup]
  {
    hide Inv, Step, Quiet, Undisturbed;
    ReachableInv(base, before);
    var s := Run(Init(base), before);
    var name, backup := s.jobs[ch].name, TxOf(s, ch).backup;
    ApplyUndisturbed(base, s, ch);
    StepInv(base, s, Apply(ch, false));
    UndisturbedRun(base, Step(s, Apply(ch, false)), evs, ch, name, backup, s.fs[TxOf(s, ch).staged], s.fs[backup]);
    ForgetEnds(QuietEnd(Step(s, Apply(ch, false)), evs, ch, name, backup), ch, name, backup, s.fs[TxOf(s, ch).staged],
        s.fs[backup]);
  }

  lemma ForgetEnds(s: Sys, ch: nat, name: string, backup: Path, proposed: Bytes, saved: Bytes)
    requires Undisturbed(s, ch, name, backup, proposed, saved) && Enabled(s, Forget(ch))
    ensures var t := Step(s, Forget(ch));
      && name !in t.pending && LivePath(name) in t.fs
      && t.fs[LivePath(name)] == if s.jobs[ch].phase == Settled(ByConfirm) then proposed else saved
  {
  }

  // ----- Rolling back -----

  function Content(fs: Files, p: Path): Option<Bytes> {
    if p in fs then Some(fs[p]) else None
  }

  function LiveContent(s: Sys, name: string): Option<Bytes> {
    Content(s.fs, LivePath(name))
  }

  /** What a backup file holds, told from the calls: the live content at the last Begin that backed up to
      it, unless a Cleanup has removed it since. */
  function SavedBy(s: Sys, e: Event, backup: Path, saved: Option<Bytes>): Option<Bytes> {
    match e
    case Begin(_, target, stamp, fault) =>
      if BackupPath(target.name, stamp) == backup && LiveContent(s, target.name).Some? && !fault
      then LiveContent(s, target.name)
      else saved
    case Cleanup(removed) => if backup in removed then None else saved
    case _ => saved
  }

  function LastSaved(s: Sys, evs: seq<Event>, backup: Path, saved: Option<Bytes>): Option<Bytes>
    requires Legal(s, evs)
    decreases |evs|
  {
    if evs == [] then saved else LastSaved(Step(s, evs[0]), evs[1..], backup, SavedBy(s, evs[0], backup, saved))
  }

  lemma SavedStep(s: Sys, e: Event, backup: Path)
    requires PathsInv(s.txs) && JobsInv(s.txs, s.jobs, s.held) && Enabled(s, e) && backup.BackupPath?
    ensures Content(Step(s, e).fs, backup) == SavedBy(s, e, backup, Content(s.fs, backup))
  {
    hide PathsInv, JobsInv;
    if Spares(e, backup) {
      SparedBackup(s, e, backup);
    }
  }

  lemma {:induction false} SavedRun(base: Files, s: Sys, evs: seq<Event>, backup: Path)
    requires Inv(base, s) && Legal(s, evs) && backup.BackupPath?
    ensures Content(Run(s, evs).fs, backup) == LastSaved(s, evs, backup, Content(s.fs, backup))
    decreases |evs|
  {
    hide PathsInv, JobsInv, PendingInv, FilesAllowed, StagedAccepted, HeldInv, Step, Enabled, SavedBy, Content;
    if evs == [] {
    } else {
      SavedStep(s, evs[0], backup);
      StepInv(base, s, evs[0]);
      SavedRun(base, Step(s, evs[0]), evs[1..], backup);
    }
  }

  lemma {:induction false} TxRun(s: Sys, evs: seq<Event>, id: nat)
    requires Legal(s, evs) && id in s.txs
    ensures id in Run(s, evs).txs && Run(s, evs).txs[id] == s.txs[id].(status := Run(s, evs).txs[id].status)
    decreases |evs|
  {
    hide Step, Enabled;
    if evs == [] {
    } else {
      TxsKeepPaths(s, evs[0], id);
      TxRun(Step(s, evs[0]), evs[1..], id);
    }
  }

  ghost predicate NoCleanupOf(evs: seq<Event>, backup: Path) {
    forall e :: e in evs && e.Cleanup? ==> backup !in e.removed
  }

  lemma {:induction false} SavedStays(s: Sys, evs: seq<Event>, backup: Path, saved: Option<Bytes>)
    requires Legal(s, evs) && NoCleanupOf(evs, backup) && saved.Some?
    ensures LastSaved(s, evs, backup, saved).Some?
    decreases |evs|
  {
    hide Step, Enabled;
    if evs == [] {
    } else {
      assert evs[0] in evs;
      SavedStays(Step(s, evs[0]), evs[1..], backup, SavedBy(s, evs[0], backup, saved));
    }
  }

  lemma RollbackFiles(t: Sys, id: nat)
    requires PathsInv(t.txs) && Enabled(t, Rollback(id, false))
    ensures var (name, saved) := (t.txs[id].target.name, Content(t.fs, t.txs[id].backup));
      LiveContent(Step(t, Rollback(id, false)), name) == if saved.Some? then saved else LiveContent(t, name)
  {
  }

  lemma RollbackEnds(t: Sys, id: nat)
    requires Enabled(t, Rollback(id, false))
    ensures id in Step(t, Rollback(id, false)).txs && Step(t, Rollback(id, false)).txs[id].status == RolledBack
  {
  }

  lemma BeginSaves(base: Files, s: Sys, id: nat, target: Target, stamp: nat)
    requires Enabled(s, Begin(id, target, stamp, false))
    ensures var b := Step(s, Begin(id, target, stamp, false));
      && id in b.txs && b.txs[id] == NewTx(target, stamp, id)
      && Content(b.fs, BackupPath(target.name, stamp)) ==
           if LiveContent(s, target.name).Some? then LiveContent(s, target.name)
           else Content(s.fs, BackupPath(target.name, stamp))
  {
  }

  /** Begin, then anything by anyone, then a successful Rollback: the live file gets the content that the
      last Begin on the same target in the same second found, which need not be the own one; when a Cleanup
      has removed the backup since, or there never was one, it stays as it is. */
  lemma RollbackRestoresLastSaved(base: Files, s: Sys, id: nat, target: Target, stamp: nat, evs: seq<Event>)
    requires Inv(base, s) && Enabled(s, Begin(id, target, stamp, false))
    requires var b := Step(s, Begin(id, target, stamp, false));
      Legal(b, evs) && Enabled(Run(b, evs), Rollback(id, false))
    ensures var b, backup := Step(s, Begin(id, target, stamp, false)), BackupPath(target.name, stamp);
      var t, saved := Run(b, evs), LastSaved(b, evs, backup, Content(b.fs, backup));
      var r := Step(t, Rollback(id, false));
      && LiveContent(r, target.name) == (if saved.Some? then saved else LiveContent(t, target.name))
      && (LiveContent(s, target.name).Some? && NoCleanupOf(evs, backup) ==>
            (LiveContent(r, target.name) == LiveContent(s, target.name) <==> saved == LiveContent(s, target.name)))
  {
    hide PathsInv, JobsInv, PendingInv, FilesAllowed, StagedAccepted, HeldInv, Step, Enabled;
    var b, backup := Step(s, Begin(id, target, stamp, false)), BackupPath(target.name, stamp);
    StepInv(base, s, Begin(id, target, stamp, false));
    BeginSaves(base, s, id, target, stamp);
    SavedRun(base, b, evs, backup);
    TxRun(b, evs, id);
    RunInv(base, b, evs);
    RollbackFiles(Run(b, evs), id);
    if Content(b.fs, backup).Some? && NoCleanupOf(evs, backup) {
      SavedStays(b, evs, backup, Content(b.fs, backup));
    }
  }

  ghost predicate SparesAll(evs: seq<Event>, backup: Path) {
    forall e :: e in evs ==> Spares(e, backup)
  }

  lemma {:induction false} SparedSaves(s: Sys, evs: seq<Event>, backup: Path, saved: Option<Bytes>)
    requires Legal(s, evs) && SparesAll(evs, backup)
    ensures LastSaved(s, evs, backup, saved) == saved && NoCleanupOf(evs, backup)
    decreases |evs|
  {
    hide Step, Enabled;
    if evs == [] {
    } else {
      assert Spares(evs[0], backup);
      SparedSaves(Step(s, evs[0]), evs[1..], backup, saved);
    }
  }

  /** Begin, then anything by anyone that spares the backup, then a successful Rollback. The target's live
      content is what it was at Begin if there was a live file then; otherwise, provided no earlier backup
      carries the same stamp, it is restored exactly when there is still none: Rollback removes nothing it
      did not back up. */
  lemma RollbackRestoresBegin(base: Files, before: seq<Event>, id: nat, target: Target, stamp: nat, evs: seq<Event>)
    requires Legal(Init(base), before) && SparesAll(evs, BackupPath(target.name, stamp))
    requires Enabled(Run(Init(base), before), Begin(id, target, stamp, false))
    requires var b := Step(Run(Init(base), before), Begin(id, target, stamp, false));
      Legal(b, evs) && Enabled(Run(b, evs), Rollback(id, false))
    ensures var s := Run(Init(base), before);
      var t := Run(Step(s, Begin(id, target, stamp, false)), evs);
      var r := Step(t, Rollback(id, false));
      && r.txs[id].status == RolledBack
      && (LiveContent(s, target.name).Some? ==> LiveContent(r, target.name) == LiveContent(s, target.name))
      && (LiveContent(s, target.name).None? && BackupPath(target.name, stamp) !in s.fs ==>
            (LiveContent(r, target.name) == LiveContent(s, target.name) <==> LiveContent(t, target.name).None?))
  {
    hide Inv, Step, Enabled, LastSaved, Legal, Run;
    ReachableInv(base, before);
    var s := Run(Init(base), before);
    var b := Step(s, Begin(id, target, stamp, false));
    BeginSaves(base, s, id, target, stamp);
    SparedSaves(b, evs, BackupPath(target.name, stamp), Content(b.fs, BackupPath(target.name, stamp)));
    RollbackRestoresLastSaved(base, s, id, target, stamp, evs);
    RollbackEnds(Run(b, evs), id);
  }

  // ----- Nested transactions -----

  /** A transaction with what is done after its Begin and before the next level begins. */
  datatype Level = Level(id: nat, stamp: nat, work: seq<Event>)

  /** Transactions on one target begun one inside the other and rolled back in reverse order. */
  function Nested(levels: seq<Level>, target: Target): seq<Event> {
    if levels == [] then []
    else
      var l := levels[0];
      [Begin(l.id, target, l.stamp, false)] + (l.work + Nested(levels[1..], target)) + [Rollback(l.id, false)]
  }

  /** Distinct stamps, and work that leaves the backups alone. */
  ghost predicate Separate(levels: seq<Level>, target: Target) {
    && (forall i, j :: 0 <= i < j < |levels| ==> levels[i].stamp != levels[j].stamp)
    && (forall i, j :: 0 <= i <= j < |levels| ==> SparesAll(levels[j].work, BackupPath(target.name, levels[i].stamp)))
  }

  lemma {:induction false} NestedSpares(levels: seq<Level>, target: Target, stamp: nat)
    requires forall l :: l in levels ==> l.stamp != stamp && SparesAll(l.work, BackupPath(target.name, stamp))
    ensures SparesAll(Nested(levels, target), BackupPath(target.name, stamp))
  {
    if levels == [] {
    } else {
      assert levels[0] in levels;
      NestedSpares(levels[1..], target, stamp);
    }
  }

  lemma {:induction false} RunConcat(s: Sys, a: seq<Event>, b: seq<Event>)
    requires Legal(s, a + b)
    ensures Legal(s, a) && Legal(Run(s, a), b) && Run(s, a + b) == Run(Run(s, a), b)
    decreases |a|
  {
    hide Step, Enabled;
    if a == [] {
      assert a + b == b;
    } else {
      assert (a + b)[1..] == a[1..] + b;
      RunConcat(Step(s, a[0]), a[1..], b);
    }
  }

  lemma LiveStays(s: Sys, e: Event, name: string)
    requires PathsInv(s.txs) && JobsInv(s.txs, s.jobs, s.held) && Enabled(s, e) && LiveContent(s, name).Some?
    ensures LiveContent(Step(s, e), name).Some?
  {
    hide PathsInv, JobsInv;
    if OfCall(e) {
      CallsKeepLive(s, e, name);
    } else {
      JobsKeepLive(s, e, name);
    }
  }

  lemma CallsKeepLive(s: Sys, e: Event, name: string)
    requires PathsInv(s.txs) && Enabled(s, e) && OfCall(e) && LiveContent(s, name).Some?
    ensures LiveContent(Step(s, e), name).Some?
  {
  }

  lemma JobsKeepLive(s: Sys, e: Event, name: string)
    requires PathsInv(s.txs) && JobsInv(s.txs, s.jobs, s.held)
    requires Enabled(s, e) && !OfCall(e) && LiveContent(s, name).Some?
    ensures LiveContent(Step(s, e), name).Some?
  {
    if e.Apply? {
      assert TxOf(s, e.ch).staged.StagedPath?;
    }
  }

  lemma {:induction false} LiveStaysOn(base: Files, s: Sys, evs: seq<Event>, name: string)
    requires Inv(base, s) && Legal(s, evs) && LiveContent(s, name).Some?
    ensures LiveContent(Run(s, evs), name).Some?
    decreases |evs|
  {
    hide PathsInv, JobsInv, PendingInv, FilesAllowed, StagedAccepted, HeldInv, Step, Enabled, LiveContent;
    if evs == [] {
    } else {
      LiveStays(s, evs[0], name);
      StepInv(base, s, evs[0]);
      LiveStaysOn(base, Step(s, evs[0]), evs[1..], name);
    }
  }

  /** The state in which the next level begins. */
  function Entered(s: Sys, levels: seq<Level>, target: Target): Sys
    requires levels != [] && Legal(s, [Begin(levels[0].id, target, levels[0].stamp, false)] + levels[0].work)
  {
    Run(s, [Begin(levels[0].id, target, levels[0].stamp, false)] + levels[0].work)
  }

  /** Every level's Rollback brings back the live content that its Begin found. */
  ghost predicate EachUndone(s: Sys, levels: seq<Level>, target: Target)
    decreases |levels|
  {
    levels == [] ||
    (&& Legal(s, Nested(levels, target))
     && LiveContent(Run(s, Nested(levels, target)), target.name) == LiveContent(s, target.name)
     && Legal(s, [Begin(levels[0].id, target, levels[0].stamp, false)] + levels[0].work)
     && EachUndone(Entered(s, levels, target), levels[1..], target))
  }

  lemma {:induction false} OuterUndone(base: Files, s: Sys, levels: seq<Level>, target: Target)
    requires levels != [] && Inv(base, s) && Legal(s, Nested(levels, target)) && LiveContent(s, target.name).Some?
    requires SparesAll(levels[0].work + Nested(levels[1..], target), BackupPath(target.name, levels[0].stamp))
    ensures LiveContent(Run(s, Nested(levels, target)), target.name) == LiveContent(s, target.name)
  {
    hide Inv, Step, Enabled;
    var l, inside := levels[0], levels[0].work + Nested(levels[1..], target);
    var begin, rollback := Begin(l.id, target, l.stamp, false), Rollback(l.id, false);
    var backup := BackupPath(target.name, l.stamp);
    RunConcat(s, [begin] + inside, [rollback]);
    RunConcat(s, [begin], inside);
    assert [begin][1..] == [] && [rollback][1..] == [];
    var b := Step(s, begin);
    assert Run(s, [begin]) == Run(b, []) == b;
    RollbackRestoresLastSaved(base, s, l.id, target, l.stamp, inside);
    BeginSaves(base, s, l.id, target, l.stamp);
    SparedSaves(b, inside, backup, Content(b.fs, backup));
    assert Run(Run(b, inside), [rollback]) == Step(Run(b, inside), rollback);
  }

  /** Rolling transactions back in reverse order of their Begins undoes nested changes, level by level. */
  lemma {:induction false} NestedRollbacksUndo(base: Files, s: Sys, levels: seq<Level>, target: Target)
    requires Inv(base, s) && Legal(s, Nested(levels, target)) && LiveContent(s, target.name).Some?
    requires Separate(levels, target)
    ensures EachUndone(s, levels, target)
    decreases |levels|
  {
    hide Inv, Step, Enabled, LiveContent;
    if levels == [] {
    } else {
      var l, rest := levels[0], levels[1..];
      var start, last := [Begin(l.id, target, l.stamp, false)] + l.work, [Rollback(l.id, false)];
      NestedSpares(rest, target, l.stamp);
      assert SparesAll(l.work, BackupPath(target.name, l.stamp));
      OuterUndone(base, s, levels, target);
      assert Nested(levels, target) == start + Nested(rest, target) + last;
      RunConcat(s, start + Nested(rest, target), last);
      RunConcat(s, start, Nested(rest, target));
      RunInv(base, s, start);
      LiveStaysOn(base, s, start, target.name);
      NestedRollbacksUndo(base, Entered(s, levels, target), rest, target);
    }
  }

  /** A rolled-back transaction changes exactly by a confirmation that was already under way, and so
      never when its target is not a network target. */
  lemma RolledBackIsFinal(base: Files, before: seq<Event>, e: Event, id: nat)
    requires Legal(Init(base), before)
    requires var s := Run(Init(base), before);
      Enabled(s, e) && id in s.txs && s.txs[id].status == RolledBack
    ensures var s := Run(Init(base), before);
      && id in Step(s, e).txs
      && (Step(s, e).txs[id] == s.txs[id] <==> !(e.OnConfirm? && s.jobs[e.ch].txid == id))
      && (!s.txs[id].target.isNetwork ==> Step(s, e).txs[id] == s.txs[id])
  {
    hide PathsInv, PendingInv, FilesAllowed, StagedAccepted, HeldInv, Step, Enabled, Legal, Run;
    ReachableInv(base, before);
    var s := Run(Init(base), before);
    TxsKeepPaths(s, e, id);
    if OfCall(e) || e.CommitNet? {
      CallsKeepRolledBack(s, e, id);
    } else {
      JobsTouchOwnTx(s, e, id);
    }
  }

  lemma CallsKeepRolledBack(s: Sys, e: Event, id: nat)
    requires Enabled(s, e) && (OfCall(e) || e.CommitNet?) && id in s.txs && s.txs[id].status == RolledBack
    ensures id in Step(s, e).txs && Step(s, e).txs[id] == s.txs[id]
  {
  }

  lemma JobsTouchOwnTx(s: Sys, e: Event, id: nat)
    requires Enabled(s, e) && !OfCall(e) && !e.CommitNet? && id in s.txs && s.txs[id].status == RolledBack
    ensures id in Step(s, e).txs
    ensures e.OnConfirm? ==> e.ch in s.jobs
    ensures Step(s, e).txs[id] == s.txs[id] <==> !(e.OnConfirm? && s.jobs[e.ch].txid == id)
  {
  }

  // ----- Runs in which a promise fails -----

  lemma {:induction false} Extend(s: Sys, evs: seq<Event>, e: Event)
    requires Legal(s, evs) && Enabled(Run(s, evs), e)
    ensures Legal(s, evs + [e]) && Run(s, evs + [e]) == Step(Run(s, evs), e)
    decreases |evs|
  {
    hide Step, Enabled;
    if evs == [] {
      assert [e][1..] == [];
      assert evs + [e] == [e];
    } else {
      assert (evs + [e])[1..] == evs[1..] + [e];
      Extend(Step(s, evs[0]), evs[1..], e);
    }
  }

  lemma Then(base: Files, evs: seq<Event>, s: Sys, e: Event) returns (evs': seq<Event>, s': Sys)
    requires Legal(Init(base), evs) && s == Run(Init(base), evs) && Enabled(s, e)
    ensures evs' == evs + [e] && Legal(Init(base), evs') && s' == Run(Init(base), evs') == Step(s, e)
  {
    Extend(Init(base), evs, e);
    evs', s' := evs + [e], Step(s, e);
  }

  /** A target whose live file holds "original". */
  function Original(name: string): Files {
    map[LivePath(name) := "original"]
  }

  /** A change to it, staged and validated. */
  lemma ValidatedChange(target: Target, stamp: nat) returns (evs: seq<Event>, s: Sys)
    ensures Legal(Init(Original(target.name)), evs) && s == Run(Init(Original(target.name)), evs)
    ensures s.txs == map[0 := NewTx(target, stamp, 0).(status := Validated)]
    ensures s.fs ==
      Original(target.name)[BackupPath(target.name, stamp) := "original"][StagedPath(target.name, 0) := "changed"]
    ensures s.(fs := map[], txs := map[], accepted := {}) == Init(map[])
  {
    var base := Original(target.name);
    s, evs := Init(base), [];
    evs, s := Then(base, evs, s, Begin(0, target, stamp, false));
    evs, s := Then(base, evs, s, Stage(0, "changed", false));
    evs, s := Then(base, evs, s, Validate(0, true));
  }

  /** Two transactions begun in the same second on one target share a backup file: the second Begin
      overwrites the first one's backup, and rolling the first back keeps its own change. */
  lemma SameSecondBackupsCollide(name: string, stamp: nat) returns (evs: seq<Event>)
    ensures var base := Original(name);
      && Legal(Init(base), evs) && evs != [] && evs[|evs| - 1] == Rollback(0, false)
      && 0 in Run(Init(base), evs).txs && Run(Init(base), evs).txs[0].status == RolledBack
      && LiveContent(Run(Init(base), evs), name) == Some("changed")
  {
    var base, target, s := Original(name), Target(name, false), Init(map[]);
    evs, s := ValidatedChange(target, stamp);
    evs, s := Then(base, evs, s, Commit(0, false));
    evs, s := Then(base, evs, s, Begin(1, target, stamp, false));
    assert s.fs[BackupPath(name, stamp)] == "changed";
    evs, s := Then(base, evs, s, Rollback(0, false));
  }

  /** A network change brought up to the point where its awaiter waits on channel 0. */
  lemma WaitingChange(name: string, stamp: nat) returns (evs: seq<Event>, s: Sys)
    ensures Legal(Init(Original(name)), evs) && s == Run(Init(Original(name)), evs)
    ensures s.jobs == map[0 := Job(0, name, Waiting(0))] && s.pending == map[name := 0] && s.held == {}
    ensures s.looked == multiset{} && s.closed == {}
    ensures s.txs == map[0 := NewTx(Target(name, true), stamp, 0).(status := Committed)]
  {
    var base := Original(name);
    evs, s := ValidatedChange(Target(name, true), stamp);
    evs, s := Then(base, evs, s, CommitNet(0, 0));
    evs, s := Then(base, evs, s, Apply(0, false));
    assert s.jobs == map[0 := Job(0, name, Applied)];
    evs, s := Then(base, evs, s, Start(0));
    evs, s := Then(base, evs, s, Attach(0));
    assert s.pending == map[name := 0];
  }

  /** How often callers of Confirm have looked up a channel. */
  function Lookups(s: Sys, evs: seq<Event>, ch: nat): nat
    requires Legal(s, evs)
    decreases |evs|
  {
    if evs == [] then 0
    else
      (if evs[0].Lookup? && s.pending[evs[0].name] == ch then 1 else 0) + Lookups(Step(s, evs[0]), evs[1..], ch)
  }

  /** Lookups that have led to a close or are about to. */
  function Closes(s: Sys, ch: nat): nat {
    s.looked[ch] + if ch in s.closed then 1 else 0
  }

  lemma {:induction false} LookupsLeadToCloses(s: Sys, evs: seq<Event>, ch: nat)
    requires Legal(s, evs)
    ensures Closes(Run(s, evs), ch) == Closes(s, ch) + Lookups(s, evs, ch)
    decreases |evs|
  {
    hide Closes, Step, Enabled;
    if evs == [] {
    } else {
      OneLookup(s, evs[0], ch);
      LookupsLeadToCloses(Step(s, evs[0]), evs[1..], ch);
    }
  }

  lemma OthersLookUpNothing(s: Sys, e: Event)
    requires Enabled(s, e) && !e.Lookup? && !e.CloseCh?
    ensures Step(s, e).looked == s.looked && Step(s, e).closed == s.closed
  {
  }

  lemma LookupCounts(s: Sys, e: Event, ch: nat)
    requires Enabled(s, e) && (e.Lookup? || e.CloseCh?)
    ensures Closes(Step(s, e), ch) == Closes(s, ch) + if e.Lookup? && s.pending[e.name] == ch then 1 else 0
  {
  }

  lemma OneLookup(s: Sys, e: Event, ch: nat)
    requires Enabled(s, e)
    ensures e.Lookup? ==> e.name in s.pending
    ensures Closes(Step(s, e), ch) == Closes(s, ch) + if e.Lookup? && s.pending[e.name] == ch then 1 else 0
  {
    hide Step;
    if e.Lookup? || e.CloseCh? {
      LookupCounts(s, e, ch);
    } else {
      OthersLookUpNothing(s, e);
    }
  }

  /** A caller of Confirm is about to close a channel that is closed already, which is a run-time panic. */
  predicate Panics(s: Sys, ch: nat) {
    ch in s.looked && ch in s.closed
  }

  /** A panic is at hand, or one close away, exactly when Confirm has found the channel at least twice; it is
      at hand exactly when besides the channel is closed. One Confirm per pending change never panics. */
  lemma ConfirmPanicsExactly(base: Files, evs: seq<Event>, ch: nat)
    requires Legal(Init(base), evs)
    ensures var (s, n) := (Run(Init(base), evs), Lookups(Init(base), evs, ch));
      && (Panics(s, ch) <==> ch in s.closed && n >= 2)
      && (Panics(s, ch) || (Enabled(s, CloseCh(ch)) && Panics(Step(s, CloseCh(ch)), ch)) <==> n >= 2)
  {
    LookupsLeadToCloses(Init(base), evs, ch);
  }

  /** Confirm finds the channel of a pending change exactly under its target's name. Its parameter is called
      txid, but a transaction's identifier finds the change only when it happens to be that name. */
  lemma ConfirmFindsByName(base: Files, evs: seq<Event>, ch: nat, text: string)
    requires Legal(Init(base), evs)
    requires ch in Run(Init(base), evs).jobs && Active(Run(Init(base), evs).jobs[ch].phase)
    ensures var s := Run(Init(base), evs);
      text in s.pending && s.pending[text] == ch <==> text == s.jobs[ch].name
  {
    ReachableInv(base, evs);
  }

  /** Confirming a change again after a first Confirm has returned, before its awaiter forgets it, is such a
      panic. */
  lemma SecondConfirmPanics(name: string, stamp: nat) returns (evs: seq<Event>)
    ensures Legal(Init(Original(name)), evs) && Panics(Run(Init(Original(name)), evs), 0)
  {
    var s;
    evs, s := WaitingChange(name, stamp);
    evs, s := Then(Original(name), evs, s, Lookup(name));
    evs, s := Then(Original(name), evs, s, CloseCh(0));
    evs, s := Then(Original(name), evs, s, Lookup(name));
  }

  /** So is confirming it from two callers at once. */
  lemma ConfirmTwiceCrashes(name: string, stamp: nat) returns (evs: seq<Event>)
    ensures Legal(Init(Original(name)), evs) && Panics(Run(Init(Original(name)), evs), 0)
  {
    var s;
    evs, s := WaitingChange(name, stamp);
    evs, s := Then(Original(name), evs, s, Lookup(name));
    evs, s := Then(Original(name), evs, s, Lookup(name));
    evs, s := Then(Original(name), evs, s, CloseCh(0));
  }

  /** The change confirmed, with its awaiter about to say so. */
  lemma ChosenChange(name: string, stamp: nat) returns (evs: seq<Event>, s: Sys)
    ensures Legal(Init(Original(name)), evs) && s == Run(Init(Original(name)), evs)
    ensures At(s, 0, Chosen(ByConfirm)) && s.jobs[0].txid == 0 && s.held == {}
    ensures s.txs == map[0 := NewTx(Target(name, true), stamp, 0).(status := Committed)]
  {
    evs, s := WaitingChange(name, stamp);
    evs, s := Then(Original(name), evs, s, Lookup(name));
    evs, s := Then(Original(name), evs, s, CloseCh(0));
    evs, s := Then(Original(name), evs, s, TakeConfirm(0));
  }

  /** A network transaction rolled back while its confirmation is under way ends up Confirmed. */
  lemma RolledBackNetworkChangeConfirmed(name: string, stamp: nat) returns (evs: seq<Event>)
    ensures Legal(Init(Original(name)), evs) && Enabled(Run(Init(Original(name)), evs), OnConfirm(0))
    ensures var s := Run(Init(Original(name)), evs);
      var t := Step(s, OnConfirm(0));
      0 in s.txs && s.txs[0].status == RolledBack && 0 in t.txs && t.txs[0].status == Confirmed
  {
    var s;
    evs, s := ChosenChange(name, stamp);
    evs, s := Then(Original(name), evs, s, Rollback(0, false));
  }
}
