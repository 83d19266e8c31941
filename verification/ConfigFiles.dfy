/** The files and transactions of pkg/configtx as values: what each operation of
    transaction.go does to the file system and to one transaction. */
module ConfigFiles {
  import opened Prelude

  type Bytes = string

  /** The live file of a target, a backup of it stamped with a second, and a transaction's staging
      file. A target's name determines its paths, and paths of different kinds never coincide. */
  datatype Path = LivePath(name: string) | BackupPath(name: string, stamp: nat) | StagedPath(name: string, txid: nat)

  type Files = map<Path, Bytes>

  datatype Status = Pending | Staged | Validated | Committed | Confirmed | RolledBack | Failed

  datatype Target = Target(name: string, isNetwork: bool)

  datatype Tx = Tx(target: Target, backup: Path, staged: Path, status: Status)

  function LiveOf(tx: Tx): Path {
    LivePath(tx.target.name)
  }

  /** os.Rename and copyFile; None is an error, which leaves the files alone. */
  function Rename(fs: Files, src: Path, dst: Path, fault: bool): Option<Files> {
    if src in fs && !fault then Some((fs - {src})[dst := fs[src]]) else None
  }

  function Copy(fs: Files, src: Path, dst: Path, fault: bool): Option<Files> {
    if src in fs && !fault then Some(fs[dst := fs[src]]) else None
  }

  function OrElse(fs: Option<Files>, otherwise: Files): Files {
    if fs.Some? then fs.value else otherwise
  }

  function NewTx(target: Target, stamp: nat, id: nat): Tx {
    Tx(target, BackupPath(target.name, stamp), StagedPath(target.name, id), Pending)
  }

  /** Begin backs the live file up if there is one; None when that fails. */
  function BeginFiles(fs: Files, target: Target, stamp: nat, fault: bool): Option<Files> {
    if LivePath(target.name) !in fs then Some(fs)
    else Copy(fs, LivePath(target.name), BackupPath(target.name, stamp), fault)
  }

  function StageTx(fs: Files, tx: Tx, content: Bytes, fault: bool): (Files, Tx, bool) {
    if tx.status != Pending then (fs, tx, false)
    else if fault then (fs, tx.(status := Failed), false)
    else (fs[tx.staged := content], tx.(status := Staged), true)
  }

  function ValidateTx(tx: Tx, verdict: bool): (Tx, bool) {
    if tx.status != Staged then (tx, false)
    else if !verdict then (tx.(status := Failed), false)
    else (tx.(status := Validated), true)
  }

  /** Commit of a target that is not a network target. */
  function CommitTx(fs: Files, tx: Tx, fault: bool): (Files, Tx, bool) {
    if tx.status != Validated then (fs, tx, false)
    else
      var renamed := Rename(fs, tx.staged, LiveOf(tx), fault);
      if renamed.None? then (fs, tx.(status := Failed), false)
      else (renamed.value, tx.(status := Confirmed), true)
  }

  function RollbackTx(fs: Files, tx: Tx, fault: bool): (Files, Tx, bool) {
    if tx.backup in fs && fault then (fs, tx, false)
    else (OrElse(Copy(fs, tx.backup, LiveOf(tx), fault), fs) - {tx.staged}, tx.(status := RolledBack), true)
  }
}
