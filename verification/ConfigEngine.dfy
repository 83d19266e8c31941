/** The methods of pkg/configtx/transaction.go and pkg/configtx/network.go over mutable
    state, proved against the functions of ConfigFiles that the step system uses.
    Whether an external operation fails is an argument. */
module ConfigEngine {
  import opened Prelude
  import opened ConfigFiles
  import opened ConfigBackups
  import ConfigTx

  const SECOND := 1_000_000_000

  class Disk {
    var files: Files

    constructor (files: Files)
      ensures this.files == files
    {
      this.files := files;
    }

    method CopyFile(src: Path, dst: Path, fault: bool) returns (ok: bool)
      modifies this
      ensures ok == (src in old(files) && !fault)
      ensures files == if ok then old(files)[dst := old(files)[src]] else old(files)
      ensures files == OrElse(Copy(old(files), src, dst, fault), old(files))
    {
      if src !in files || fault {
        return false;
      }
      files := files[dst := files[src]];
      return true;
    }

    method Move(src: Path, dst: Path, fault: bool) returns (ok: bool)
      modifies this
      ensures ok == (src in old(files) && !fault)
      ensures files == if ok then (old(files) - {src})[dst := old(files)[src]] else old(files)
      ensures files == OrElse(Rename(old(files), src, dst, fault), old(files))
    {
      if src !in files || fault {
        return false;
      }
      var content := files[src];
      files := files - {src};
      files := files[dst := content];
      return true;
    }

    /** os.ReadDir of a target's backup directory. */
    method ReadDir(name: string, cut: nat -> nat) returns (l: seq<Path>)
      requires Monotone(cut)
      ensures IsListing(l, Dir(files, name), cut)
    {
      l := [];
      var todo := Dir(files, name);
      while todo != {}
        invariant todo <= Dir(files, name)
        invariant IsListing(l, Dir(files, name) - todo, cut)
        decreases |todo|
      {
        var p :| p in todo;
        InsertLists(p, l, Dir(files, name) - todo, name, cut);
        assert Dir(files, name) - todo + {p} == Dir(files, name) - (todo - {p});
        l := Insert(p, l, cut);
        todo := todo - {p};
      }
    }

    method Remove(p: Path)
      modifies this
      ensures files == old(files) - {p}
    {
      files := files - {p};
    }
  }

  class Transaction {
    const id: nat
    const target: Target
    const backup: Path
    const staged: Path
    const created: int
    var status: Status

    constructor (id: nat, target: Target, backup: Path, staged: Path, created: int)
      ensures this.id == id && this.created == created && View() == Tx(target, backup, staged, Pending)
    {
      this.id, this.target, this.backup, this.staged, this.created := id, target, backup, staged, created;
      status := Pending;
    }

    ghost function View(): Tx
      reads this
    {
      Tx(target, backup, staged, status)
    }

    method Stage(disk: Disk, content: Bytes, fault: bool) returns (ok: bool)
      modifies this, disk
      ensures ok == (old(status) == Pending && !fault)
      ensures status == if ok then Staged else if old(status) == Pending then Failed else old(status)
      ensures disk.files == if ok then old(disk.files)[staged := content] else old(disk.files)
      ensures (disk.files, View(), ok) == StageTx(old(disk.files), old(View()), content, fault)
    {
      if status != Status.Pending {
        return false;
      }
      if fault {
        status := Failed;
        return false;
      }
      disk.files := disk.files[staged := content];
      status := Staged;
      return true;
    }

    /** The verdict is what the target's validator says of the staged file; a target without a
        validator accepts everything. */
    method Validate(verdict: bool) returns (ok: bool)
      modifies this
      ensures ok == (old(status) == Staged && verdict)
      ensures status == if ok then Validated else if old(status) == Staged then Failed else old(status)
      ensures (View(), ok) == ValidateTx(old(View()), verdict)
    {
      if status != Staged {
        return false;
      }
      if !verdict {
        status := Failed;
        return false;
      }
      status := Validated;
      return true;
    }
  }

  datatype ConfirmOutcome = NotPending | Signalled | Panicked

  /** Confirm panics exactly on a pending change that has been confirmed already. */
  function Confirmation(pending: map<string, nat>, closed: set<nat>, name: string): ConfirmOutcome {
    if name !in pending then NotPending else if pending[name] in closed then Panicked else Signalled
  }

  /** In every reachable state of the step system in which no other call of Confirm is under way, a call meets
      the outcome of the method: it finds the name or not, and then closes its channel or panics. */
  lemma ConfirmationAgrees(base: Files, evs: seq<ConfigTx.Event>, name: string)
    requires ConfigTx.Legal(ConfigTx.Init(base), evs) && ConfigTx.Run(ConfigTx.Init(base), evs).looked == multiset{}
    ensures var s := ConfigTx.Run(ConfigTx.Init(base), evs);
      var outcome := Confirmation(s.pending, s.closed, name);
      && (outcome.NotPending? <==> !ConfigTx.Enabled(s, ConfigTx.Lookup(name)))
      && (!outcome.NotPending? ==>
            var (t, ch) := (ConfigTx.Step(s, ConfigTx.Lookup(name)), s.pending[name]);
            && (outcome.Signalled? <==> ConfigTx.Enabled(t, ConfigTx.CloseCh(ch)))
            && (outcome.Panicked? <==> ConfigTx.Panics(t, ch)))
  {
  }

  class NetworkSafety {
    var confirmCh: map<string, nat>
    var closed: set<nat>
    var made: nat

    constructor ()
      ensures confirmCh == map[] && closed == {} && Valid()
    {
      confirmCh, closed, made := map[], {}, 0;
    }

    /** Every channel there is has been made. */
    ghost predicate Valid()
      reads this
    {
      && (forall name :: name in confirmCh ==> confirmCh[name] < made)
      && (forall ch :: ch in closed ==> ch < made)
    }

    method IsPending(name: string) returns (pending: bool)
      ensures pending == (name in confirmCh)
    {
      return name in confirmCh;
    }

    /** Some is the channel of the awaiter that has been started; None is an error, after which
        everything is as before. */
    method StageCommit(disk: Disk, tx: Transaction, fault: bool) returns (ch: Option<nat>)
      requires Valid()
      modifies this, disk
      ensures Valid() && closed == old(closed)
      ensures ch.Some? <==> tx.target.name !in old(confirmCh) && tx.staged in old(disk.files) && !fault
      ensures ch.None? ==> confirmCh == old(confirmCh) && disk.files == old(disk.files)
      ensures ch.Some? ==> ch.value !in closed && ch.value !in old(confirmCh).Values
      ensures ch.Some? ==> confirmCh == old(confirmCh)[tx.target.name := ch.value]
      ensures ch.Some? ==>
        disk.files == (old(disk.files) - {tx.staged})[LivePath(tx.target.name) := old(disk.files)[tx.staged]]
    {
      if tx.target.name in confirmCh {
        return None;
      }
      var c := made;
      made := made + 1;
      confirmCh := confirmCh[tx.target.name := c];
      var ok := disk.Move(tx.staged, LivePath(tx.target.name), fault);
      if !ok {
        Forget(tx.target.name);
        return None;
      }
      return Some(c);
    }

    /** Closing the channel a second time, before the awaiter has forgotten the name, is a panic. */
    method Confirm(name: string) returns (outcome: ConfirmOutcome)
      modifies this`closed
      ensures outcome.NotPending? <==> name !in confirmCh
      ensures outcome.Panicked? <==> name in confirmCh && confirmCh[name] in old(closed)
      ensures outcome.Signalled? <==> name in confirmCh && confirmCh[name] !in old(closed)
      ensures closed == if name in confirmCh then old(closed) + {confirmCh[name]} else old(closed)
      ensures outcome == Confirmation(confirmCh, old(closed), name)
      ensures old(Valid()) ==> Valid()
    {
      if name !in confirmCh {
        return NotPending;
      }
      var ch := confirmCh[name];
      if ch in closed {
        return Panicked;
      }
      closed := closed + {ch};
      return Signalled;
    }

    /** The awaiter. When the channel is closed and the timer has run out, the select may take either
        branch: late says that it takes the timeout. */
    method AwaitConfirm(disk: Disk, tx: Transaction, late: bool, fault: bool)
      modifies this`confirmCh, disk, tx
      ensures confirmCh == old(confirmCh) - {tx.target.name}
      ensures tx.target.name !in old(confirmCh) ==> disk.files == old(disk.files) && tx.status == old(tx.status)
      ensures tx.target.name in old(confirmCh) ==>
        if old(confirmCh)[tx.target.name] in closed && !late
        then disk.files == old(disk.files) && tx.status == Confirmed
        else
          && tx.status == old(tx.status)
          && disk.files == if tx.backup in old(disk.files) && !fault
                           then old(disk.files)[LivePath(tx.target.name) := old(disk.files)[tx.backup]]
                           else old(disk.files)
      ensures old(Valid()) ==> Valid()
    {
      if tx.target.name !in confirmCh {
        return;
      }
      if confirmCh[tx.target.name] in closed && !late {
        tx.status := Confirmed;
      } else {
        var ok := disk.CopyFile(tx.backup, LivePath(tx.target.name), fault);
      }
      Forget(tx.target.name);
    }

    method Forget(name: string)
      modifies this`confirmCh
      ensures confirmCh == old(confirmCh) - {name}
    {
      confirmCh := confirmCh - {name};
    }
  }

  /** The transactions that are not older than the cutoff, and the staging files of those that are. */
  function Recent(txs: map<nat, Transaction>, cutoff: int): map<nat, Transaction> {
    map id | id in txs && txs[id].created >= cutoff :: txs[id]
  }

  function StagedOfOld(txs: map<nat, Transaction>, cutoff: int): set<Path> {
    set id | id in txs && txs[id].created < cutoff :: txs[id].staged
  }

  /** The transactions when those in todo are still to be looked at. */
  function RecentBut(txs: map<nat, Transaction>, todo: set<nat>, cutoff: int): map<nat, Transaction> {
    map id | id in txs && (id in todo || txs[id].created >= cutoff) :: txs[id]
  }

  lemma DropNext(txs: map<nat, Transaction>, todo: set<nat>, id: nat, cutoff: int)
    requires id in todo && todo <= txs.Keys
    ensures StagedOfOld(txs - (todo - {id}), cutoff) ==
      StagedOfOld(txs - todo, cutoff) + if txs[id].created < cutoff then {txs[id].staged} else {}
    ensures id in RecentBut(txs, todo, cutoff) && RecentBut(txs, todo, cutoff)[id] == txs[id]
    ensures RecentBut(txs, todo - {id}, cutoff) ==
      if txs[id].created < cutoff then RecentBut(txs, todo, cutoff) - {id} else RecentBut(txs, todo, cutoff)
  {
    var more, fewer := txs - (todo - {id}), txs - todo;
    assert forall i :: i in more <==> i in fewer || i == id;
  }

  lemma DroppedExactly(txs: map<nat, Transaction>, cutoff: int)
    ensures forall id :: id in Recent(txs, cutoff) <==> id in txs && txs[id].created >= cutoff
    ensures StagedOfOld(txs, cutoff) == set id | id in txs && txs[id].created < cutoff :: txs[id].staged
  {
  }

  lemma DropStart(txs: map<nat, Transaction>, cutoff: int)
    ensures RecentBut(txs, txs.Keys, cutoff) == txs && StagedOfOld(txs - txs.Keys, cutoff) == {}
    ensures RecentBut(txs, {}, cutoff) == Recent(txs, cutoff) && txs - {} == txs
    ensures Recent(txs, cutoff).Keys <= txs.Keys
    ensures forall id :: id in Recent(txs, cutoff) ==> Recent(txs, cutoff)[id] == txs[id]
  {
  }

  lemma PartlyStart(before: Files, todo: set<string>, retain: nat, cut: nat -> nat)
    requires forall p :: p in before && !p.LivePath? ==> p.name in todo
    ensures Partly(before, todo, retain, cut) == before
  {
  }

  /** The files when the directories named in todo are still to be pruned. */
  function Partly(before: Files, todo: set<string>, retain: nat, cut: nat -> nat): Files {
    map p | p in before && (p.LivePath? || p.name in todo || Survives(before, p, retain, cut)) :: before[p]
  }

  function PrunedDir(fs: Files, name: string, retain: nat, cut: nat -> nat): Files {
    map p | p in fs && (InDir(p, name) ==> Survives(fs, p, retain, cut)) :: fs[p]
  }

  lemma DirUntouched(before: Files, todo: set<string>, name: string, retain: nat, cut: nat -> nat)
    requires name in todo
    ensures Dir(Partly(before, todo, retain, cut), name) == Dir(before, name)
  {
  }

  lemma PartlyNext(before: Files, todo: set<string>, name: string, retain: nat, cut: nat -> nat)
    requires name !in todo
    requires Dir(Partly(before, todo + {name}, retain, cut), name) == Dir(before, name)
    ensures PrunedDir(Partly(before, todo + {name}, retain, cut), name, retain, cut) ==
        Partly(before, todo, retain, cut)
  {
    var fs := Partly(before, todo + {name}, retain, cut);
    forall p | p in fs && InDir(p, name) ensures Survives(fs, p, retain, cut) <==> Survives(before, p, retain, cut) {
    }
  }

  /** Removing all but the last retain files of a listing leaves those that survive. */
  lemma PruneRemovesOldest(fs: Files, name: string, l: seq<Path>, retain: nat, cut: nat -> nat)
    requires Monotone(cut) && IsListing(l, Dir(fs, name), cut)
    ensures fs - (if |l| > retain then Elements(l[..|l| - retain]) else {}) == PrunedDir(fs, name, retain, cut)
  {
    var gone := if |l| > retain then l[..|l| - retain] else [];
    forall p | p in fs ensures p in Elements(gone) <==> InDir(p, name) && !Survives(fs, p, retain, cut) {
      if p in l {
        var i :| 0 <= i < |l| && l[i] == p;
        LastSurvive(fs, name, l, i, retain, cut);
        assert i < |gone| ==> gone[i] == p;
      }
    }
  }

  class Engine {
    const disk: Disk
    const net: NetworkSafety
    var transactions: map<nat, Transaction>

    constructor (disk: Disk)
      ensures this.disk == disk && fresh(net) && net.Valid() && transactions == map[]
    {
      this.disk := disk;
      net := new NetworkSafety();
      transactions := map[];
    }

    /** The transaction found under an identifier carries that identifier. */
    ghost predicate Valid()
      reads this
    {
      forall id :: id in transactions ==> transactions[id].id == id
    }

    /** A null result is the error of a failed backup. */
    method Begin(id: nat, target: Target, now: nat, fault: bool) returns (tx: Transaction?)
      requires Valid() && id !in transactions
      modifies this, disk
      ensures Valid()
      ensures tx == null <==> LivePath(target.name) in old(disk.files) && fault
      ensures tx == null ==> transactions == old(transactions) && disk.files == old(disk.files)
      ensures tx != null ==> fresh(tx) && tx.View() == NewTx(target, now / SECOND, id) && tx.created == now
      ensures tx != null ==> transactions == old(transactions)[id := tx]
      ensures tx != null ==> tx.target == target && tx.status == Pending
      ensures tx != null ==> tx.backup == BackupPath(target.name, now / 1_000_000_000)
      ensures tx != null ==> tx.staged == StagedPath(target.name, id)
      ensures tx != null ==>
        disk.files == if LivePath(target.name) in old(disk.files)
                      then old(disk.files)[tx.backup := old(disk.files)[LivePath(target.name)]]
                      else old(disk.files)
      ensures disk.files == OrElse(BeginFiles(old(disk.files), target, now / SECOND, fault), old(disk.files))
    {
      var backup := BackupPath(target.name, now / SECOND);
      if LivePath(target.name) in disk.files {
        var ok := disk.CopyFile(LivePath(target.name), backup, fault);
        if !ok {
          return null;
        }
      }
      tx := new Transaction(id, target, backup, StagedPath(target.name, id), now);
      transactions := transactions[id := tx];
    }

    /** Commit of an unknown transaction and of one that is not validated changes nothing. A network
        transaction whose StageCommit fails is left Committed. */
    method Commit(id: nat, fault: bool) returns (ok: bool)
      requires Valid() && net.Valid()
      modifies disk, net, if id in transactions then {transactions[id]} else {}
      ensures net.Valid() && net.closed == old(net.closed)
      ensures id !in transactions ==> !ok && disk.files == old(disk.files) && net.confirmCh == old(net.confirmCh)
      ensures id in transactions ==>
        var (tx, name) := (transactions[id], transactions[id].target.name);
        && ok == (old(tx.status) == Validated && tx.staged in old(disk.files) && !fault
                  && (tx.target.isNetwork ==> name !in old(net.confirmCh)))
        && disk.files == (if ok then (old(disk.files) - {tx.staged})[LivePath(name) := old(disk.files)[tx.staged]]
                          else old(disk.files))
        && tx.status == (if old(tx.status) != Validated then old(tx.status)
                         else if tx.target.isNetwork then Committed
                         else if ok then Confirmed
                         else Failed)
        && (if ok && tx.target.isNetwork
            then name in net.confirmCh && net.confirmCh[name] !in net.closed
                 && net.confirmCh - {name} == old(net.confirmCh)
            else net.confirmCh == old(net.confirmCh))
      ensures id in transactions && !transactions[id].target.isNetwork ==>
        (disk.files, transactions[id].View(), ok) == CommitTx(old(disk.files), old(transactions[id].View()), fault)
    {
      if id !in transactions {
        return false;
      }
      var tx := transactions[id];
      if tx.status != Validated {
        return false;
      }
      if tx.target.isNetwork {
        tx.status := Committed;
        var ch := net.StageCommit(disk, tx, fault);
        return ch.Some?;
      }
      ok := disk.Move(tx.staged, LivePath(tx.target.name), fault);
      if !ok {
        tx.status := Failed;
        return false;
      }
      tx.status := Committed;
      tx.status := Confirmed;
      return true;
    }

    method Rollback(id: nat, fault: bool) returns (ok: bool)
      requires Valid()
      modifies disk, if id in transactions then {transactions[id]} else {}
      ensures id !in transactions ==> !ok && disk.files == old(disk.files)
      ensures id in transactions ==>
        var tx := transactions[id];
        var copied := tx.backup in old(disk.files);
        && ok == !(copied && fault)
        && tx.status == (if ok then RolledBack else old(tx.status))
        && disk.files ==
             (if !ok then old(disk.files)
              else if copied then old(disk.files)[LivePath(tx.target.name) := old(disk.files)[tx.backup]] - {tx.staged}
              else old(disk.files) - {tx.staged})
      ensures id in transactions ==>
        (disk.files, transactions[id].View(), ok) == RollbackTx(old(disk.files), old(transactions[id].View()), fault)
    {
      if id !in transactions {
        return false;
      }
      var tx := transactions[id];
      if tx.backup in disk.files {
        ok := disk.CopyFile(tx.backup, LivePath(tx.target.name), fault);
        if !ok {
          return false;
        }
      }
      disk.Remove(tx.staged);
      tx.status := RolledBack;
      return true;
    }

    /** Confirm takes what it calls a transaction's identifier for a target's name. */
    method Confirm(txid: string) returns (outcome: ConfirmOutcome)
      modifies net`closed
      ensures outcome.NotPending? <==> txid !in net.confirmCh
      ensures outcome.Panicked? <==> txid in net.confirmCh && net.confirmCh[txid] in old(net.closed)
      ensures net.closed == if txid in net.confirmCh then old(net.closed) + {net.confirmCh[txid]} else old(net.closed)
    {
      outcome := net.Confirm(txid);
    }

    /** Drops the transactions older than ttl with their staging files; then, in every backup directory,
        removes all but the last retain files by name. */
    method Cleanup(ttl: int, retain: nat, now: int, cut: nat -> nat)
      requires Valid() && Monotone(cut)
      modifies this, disk
      ensures Valid() && transactions == Recent(old(transactions), now - ttl)
      ensures forall id :: id in transactions <==> id in old(transactions) && old(transactions)[id].created >= now - ttl
      ensures forall id :: id in old(transactions) && old(transactions)[id].created < now - ttl ==>
        old(transactions)[id].staged !in disk.files
      ensures disk.files == Retained(old(disk.files) - StagedOfOld(old(transactions), now - ttl), retain, cut)
    {
      DropOld(now - ttl);
      PruneAll(retain, cut);
    }

    method PruneAll(retain: nat, cut: nat -> nat)
      requires Monotone(cut)
      modifies disk
      ensures disk.files == Retained(old(disk.files), retain, cut)
    {
      ghost var before := disk.files;
      var todo := set p | p in disk.files && !p.LivePath? :: p.name;
      PartlyStart(before, todo, retain, cut);
      while todo != {}
        invariant disk.files == Partly(before, todo, retain, cut)
        decreases |todo|
      {
        var name :| name in todo;
        DirUntouched(before, todo, name, retain, cut);
        assert todo - {name} + {name} == todo;
        todo := todo - {name};
        Prune(name, retain, cut);
        PartlyNext(before, todo, name, retain, cut);
      }
    }

    /** One backup directory. */
    method Prune(name: string, retain: nat, cut: nat -> nat)
      requires Monotone(cut)
      modifies disk
      ensures disk.files == PrunedDir(old(disk.files), name, retain, cut)
    {
      ghost var before := disk.files;
      var l := disk.ReadDir(name, cut);
      if |l| > retain {
        for j := 0 to |l| - retain
          invariant disk.files == before - Elements(l[..j])
        {
          disk.Remove(l[j]);
          assert l[..j + 1] == l[..j] + [l[j]];
        }
      }
      PruneRemovesOldest(before, name, l, retain, cut);
    }

    method DropOld(cutoff: int)
      requires Valid()
      modifies this, disk
      ensures Valid() && transactions == Recent(old(transactions), cutoff)
      ensures forall id :: id in transactions <==> id in old(transactions) && old(transactions)[id].created >= cutoff
      ensures disk.files == old(disk.files) -
        set id | id in old(transactions) && old(transactions)[id].created < cutoff :: old(transactions)[id].staged
      ensures disk.files == old(disk.files) - StagedOfOld(old(transactions), cutoff)
    {
      hide StagedOfOld, RecentBut, Recent;
      ghost var txs, before := transactions, disk.files;
      DropStart(txs, cutoff);
      DroppedExactly(txs, cutoff);
      var todo := transactions.Keys;
      while todo != {}
        invariant todo <= txs.Keys && transactions == RecentBut(txs, todo, cutoff)
        invariant disk.files == before - StagedOfOld(txs - todo, cutoff)
        decreases |todo|
      {
        var id :| id in todo;
        DropNext(txs, todo, id, cutoff);
        todo := todo - {id};
        var tx := transactions[id];
        if tx.created < cutoff {
          disk.Remove(tx.staged);
          transactions := transactions - {id};
        }
      }
    }
  }
}
