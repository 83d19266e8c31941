/** Which files of a target's backup directory Cleanup of pkg/configtx/transaction.go keeps. The
    directory holds the target's backups and its transactions' staging files, and is listed by name. */
module ConfigBackups {
  import opened Prelude
  import opened ConfigFiles

  /** Backups sort by their time stamp and staging files by their hexadecimal identifier. Where the name of
      a staging file falls among those of the backups depends on the identifier alone: before the backups
      stamped cut(txid) or later. */
  predicate Before(a: Path, b: Path, cut: nat -> nat) {
    match (a, b)
    case (BackupPath(_, s), BackupPath(_, t)) => s < t
    case (StagedPath(_, i), StagedPath(_, j)) => i < j
    case (StagedPath(_, i), BackupPath(_, t)) => cut(i) <= t
    case (BackupPath(_, s), StagedPath(_, j)) => s < cut(j)
    case _ => false
  }

  ghost predicate Monotone(cut: nat -> nat) {
    forall i, j :: i <= j ==> cut(i) <= cut(j)
  }

  predicate InDir(p: Path, name: string) {
    !p.LivePath? && p.name == name
  }

  function Dir(fs: Files, name: string): set<Path> {
    set p | p in fs && InDir(p, name)
  }

  function After(dir: set<Path>, p: Path, cut: nat -> nat): set<Path> {
    set q | q in dir && Before(p, q, cut)
  }

  /** A live file stays; any other file stays when fewer than retain files of its directory follow it. */
  predicate Survives(fs: Files, p: Path, retain: nat, cut: nat -> nat) {
    p.LivePath? || |After(Dir(fs, p.name), p, cut)| < retain
  }

  function Retained(fs: Files, retain: nat, cut: nat -> nat): Files {
    map p | p in fs && Survives(fs, p, retain, cut) :: fs[p]
  }

  // ----- Listings -----

  ghost predicate Sorted(l: seq<Path>, cut: nat -> nat) {
    forall i, j :: 0 <= i < j < |l| ==> Before(l[i], l[j], cut)
  }

  ghost predicate SameElements(l: seq<Path>, dir: set<Path>) {
    forall p :: p in l <==> p in dir
  }

  /** What os.ReadDir returns. */
  ghost predicate IsListing(l: seq<Path>, dir: set<Path>, cut: nat -> nat) {
    Sorted(l, cut) && SameElements(l, dir)
  }

  function Insert(p: Path, l: seq<Path>, cut: nat -> nat): seq<Path> {
    if l == [] || Before(p, l[0], cut) then [p] + l else [l[0]] + Insert(p, l[1..], cut)
  }

  lemma BeforeIsOrder(a: Path, b: Path, c: Path, name: string, cut: nat -> nat)
    requires Monotone(cut) && InDir(a, name) && InDir(b, name) && InDir(c, name)
    ensures !Before(a, a, cut)
    ensures a != b ==> (Before(a, b, cut) <==> !Before(b, a, cut))
    ensures Before(a, b, cut) && Before(b, c, cut) ==> Before(a, c, cut)
  {
    if a.StagedPath? && c.StagedPath? && c.txid < a.txid {
      assert cut(c.txid) <= cut(a.txid);
    } else if a.StagedPath? && b.StagedPath? && a.txid <= b.txid {
      assert cut(a.txid) <= cut(b.txid);
    } else if b.StagedPath? && c.StagedPath? && b.txid <= c.txid {
      assert cut(b.txid) <= cut(c.txid);
    }
  }

  lemma {:induction false} InsertElements(p: Path, l: seq<Path>, cut: nat -> nat)
    ensures forall q :: q in Insert(p, l, cut) <==> q == p || q in l
  {
    if l == [] || Before(p, l[0], cut) {
    } else {
      InsertElements(p, l[1..], cut);
    }
  }

  lemma {:induction false} InsertSorted(p: Path, l: seq<Path>, name: string, cut: nat -> nat)
    requires Monotone(cut) && Sorted(l, cut) && p !in l && InDir(p, name) && forall q :: q in l ==> InDir(q, name)
    ensures Sorted(Insert(p, l, cut), cut)
  {
    hide Before, Monotone, InDir;
    if l == [] {
    } else if Before(p, l[0], cut) {
      forall j | 0 <= j < |l| ensures Before(p, l[j], cut) {
        assert l[0] in l && l[j] in l;
        BeforeIsOrder(p, l[0], l[j], name, cut);
      }
    } else {
      assert l[0] in l;
      InsertSorted(p, l[1..], name, cut);
      InsertElements(p, l[1..], cut);
      var r := Insert(p, l[1..], cut);
      forall j | 0 <= j < |r| ensures Before(l[0], r[j], cut) {
        assert r[j] in r;
        BeforeIsOrder(p, l[0], p, name, cut);
      }
    }
  }

  /** A sorted listing goes on being one with one more file. */
  lemma InsertLists(p: Path, l: seq<Path>, dir: set<Path>, name: string, cut: nat -> nat)
    requires Monotone(cut) && IsListing(l, dir, cut) && p !in dir && InDir(p, name)
    requires forall q :: q in dir ==> InDir(q, name)
    ensures IsListing(Insert(p, l, cut), dir + {p}, cut)
  {
    InsertSorted(p, l, name, cut);
    InsertElements(p, l, cut);
  }

  lemma {:induction false} ListingExists(dir: set<Path>, name: string, cut: nat -> nat) returns (l: seq<Path>)
    requires Monotone(cut) && forall q :: q in dir ==> InDir(q, name)
    ensures IsListing(l, dir, cut)
    decreases |dir|
  {
    if dir == {} {
      l := [];
    } else {
      var p :| p in dir;
      l := ListingExists(dir - {p}, name, cut);
      InsertLists(p, l, dir - {p}, name, cut);
      assert dir - {p} + {p} == dir;
      l := Insert(p, l, cut);
    }
  }

  function Elements(l: seq<Path>): set<Path> {
    set p | p in l
  }

  lemma {:induction false} ElementsCount(l: seq<Path>)
    requires NoDup(l)
    ensures |Elements(l)| == |l|
  {
    if l == [] {
    } else {
      ElementsCount(l[1..]);
      assert Elements(l) == Elements(l[1..]) + {l[0]};
      assert l[0] !in l[1..];
    }
  }

  lemma ListingNoDup(l: seq<Path>, dir: set<Path>, name: string, cut: nat -> nat)
    requires Monotone(cut) && IsListing(l, dir, cut) && forall q :: q in dir ==> InDir(q, name)
    ensures NoDup(l)
  {
    hide Before, Monotone, InDir;
    forall i, j | 0 <= i < j < |l| ensures l[i] != l[j] {
      assert l[i] in l;
      BeforeIsOrder(l[i], l[i], l[i], name, cut);
    }
  }

  /** The files after one of a listing are those listed after it. */
  lemma AfterInListing(l: seq<Path>, dir: set<Path>, i: nat, name: string, cut: nat -> nat)
    requires Monotone(cut) && IsListing(l, dir, cut) && i < |l| && forall q :: q in dir ==> InDir(q, name)
    ensures After(dir, l[i], cut) == Elements(l[i + 1..]) && |After(dir, l[i], cut)| == |l| - 1 - i
  {
    hide Before, Monotone, InDir;
    ListingNoDup(l, dir, name, cut);
    forall q ensures q in After(dir, l[i], cut) <==> q in l[i + 1..] {
      if q in After(dir, l[i], cut) {
        var j :| 0 <= j < |l| && l[j] == q;
        assert l[i] in l && l[j] in l;
        BeforeIsOrder(l[i], l[j], l[i], name, cut);
        assert j > i;
        assert l[i + 1..][j - i - 1] == q;
      }
    }
    ElementsCount(l[i + 1..]);
  }

  /** Of a listing, exactly the last retain files survive. */
  lemma LastSurvive(fs: Files, name: string, l: seq<Path>, i: nat, retain: nat, cut: nat -> nat)
    requires Monotone(cut) && IsListing(l, Dir(fs, name), cut) && i < |l|
    ensures Survives(fs, l[i], retain, cut) <==> i >= |l| - retain
  {
    assert l[i] in l;
    AfterInListing(l, Dir(fs, name), i, name, cut);
  }

  // ----- Do the newest backups survive? -----

  /** The backups of the same target with a later time stamp. */
  function NewerBackups(fs: Files, p: Path, name: string): set<Path>
    requires p.BackupPath?
  {
    set q | q in fs && q.BackupPath? && q.name == name && q.stamp > p.stamp
  }

  /** Among the files listed after a backup, the backups are those with a later stamp. */
  lemma NewerAreAfter(fs: Files, p: Path, name: string, cut: nat -> nat)
    requires p.BackupPath?
    ensures forall q :: q in NewerBackups(fs, p, name) <==> q in After(Dir(fs, name), p, cut) && q.BackupPath?
  {
  }

  /** What the comment in Cleanup promises: of each target the retain most recent backups are kept, or all
      of them if there are fewer. */
  ghost predicate NewestSurvive(fs: Files, name: string, retain: nat, cut: nat -> nat) {
    forall p :: p in Dir(fs, name) && p.BackupPath? && |NewerBackups(fs, p, name)| < retain ==>
      Survives(fs, p, retain, cut)
  }

  /** A staging file takes a place among the last retain names while a backup is pushed out. */
  ghost predicate StagingInTheWay(fs: Files, name: string, retain: nat, cut: nat -> nat) {
    exists q, p ::
      && q in Dir(fs, name) && q.StagedPath? && Survives(fs, q, retain, cut)
      && p in Dir(fs, name) && p.BackupPath? && !Survives(fs, p, retain, cut)
  }

  /** The most recent backup that does not survive. */
  lemma {:induction false} LastBackup(l: seq<Path>, k: nat) returns (i: nat)
    requires k <= |l| && exists j :: 0 <= j < k && l[j].BackupPath?
    ensures i < k && l[i].BackupPath? && forall j :: i < j < k ==> !l[j].BackupPath?
  {
    if l[k - 1].BackupPath? {
      i := k - 1;
    } else {
      i := LastBackup(l, k - 1);
    }
  }

  /** When the files between positions m and k are no backups, the newer backups stand from k on. */
  lemma NewerFrom(fs: Files, name: string, l: seq<Path>, m: nat, k: nat, cut: nat -> nat)
    requires Monotone(cut) && IsListing(l, Dir(fs, name), cut)
    requires m < k <= |l| && l[m].BackupPath? && forall j :: m < j < k ==> !l[j].BackupPath?
    ensures forall q :: q in NewerBackups(fs, l[m], name) ==> q in l[k..]
  {
    hide Monotone, Sorted;
    AfterInListing(l, Dir(fs, name), m, name, cut);
    NewerAreAfter(fs, l[m], name, cut);
    forall q | q in NewerBackups(fs, l[m], name) ensures q in l[k..] {
      assert q in l[m + 1..];
      var x :| 0 <= x < |l| - (m + 1) && l[m + 1..][x] == q;
      assert l[m + 1 + x] == q && m + 1 + x >= k;
      assert l[k..][m + 1 + x - k] == q;
    }
  }

  lemma InTheWayLosesNewest(fs: Files, name: string, l: seq<Path>, i: nat, j: nat, retain: nat, cut: nat -> nat)
    requires Monotone(cut) && IsListing(l, Dir(fs, name), cut)
    requires i < |l| - retain <= j < |l| && l[i].BackupPath? && l[j].StagedPath?
    ensures !NewestSurvive(fs, name, retain, cut)
  {
    hide Monotone, Sorted, NoDup, Before, After, Survives;
    var k := |l| - retain;
    var m := LastBackup(l, k);
    NewerFrom(fs, name, l, m, k, cut);
    ListingNoDup(l, Dir(fs, name), name, cut);
    TailNoDup(l, k);
    ElementsCount(l[k..]);
    assert l[j] in l[k..] by {
      assert l[k..][j - k] == l[j];
    }
    SubsetCount(NewerBackups(fs, l[m], name), Elements(l[k..]) - {l[j]});
    assert l[m] in l;
    LastSurvive(fs, name, l, m, retain, cut);
  }

  lemma TailNoDup(l: seq<Path>, k: nat)
    requires NoDup(l) && k <= |l|
    ensures NoDup(l[k..])
  {
  }

  lemma SubsetCount(a: set<Path>, b: set<Path>)
    requires a <= b
    ensures |a| <= |b|
  {
    assert |b| == |a| + |b - a| by {
      assert a + (b - a) == b;
    }
  }

  lemma ClearWayKeepsNewest(fs: Files, name: string, l: seq<Path>, i: nat, retain: nat, cut: nat -> nat)
    requires Monotone(cut) && IsListing(l, Dir(fs, name), cut) && i < |l| - retain && l[i].BackupPath?
    requires forall j :: |l| - retain <= j < |l| ==> l[j].BackupPath?
    ensures |NewerBackups(fs, l[i], name)| >= retain
  {
    var k := |l| - retain;
    AfterInListing(l, Dir(fs, name), i, name, cut);
    NewerAreAfter(fs, l[i], name, cut);
    ListingNoDup(l, Dir(fs, name), name, cut);
    ElementsCount(l[k..]);
    forall q | q in Elements(l[k..]) ensures q in NewerBackups(fs, l[i], name) {
      var x :| 0 <= x < retain && l[k..][x] == q;
      assert q == l[k + x] == l[i + 1..][k + x - i - 1];
    }
    SubsetCount(Elements(l[k..]), NewerBackups(fs, l[i], name));
  }

  /** Cleanup counts staging files as backups. It keeps the newest backups exactly when no staging file is in
      the way. */
  lemma NewestSurviveExactly(fs: Files, name: string, retain: nat, cut: nat -> nat)
    requires Monotone(cut)
    ensures NewestSurvive(fs, name, retain, cut) <==> !StagingInTheWay(fs, name, retain, cut)
  {
    hide Before, Monotone, Survives, NewerBackups, Sorted;
    var l := ListingExists(Dir(fs, name), name, cut);
    assert SameElements(l, Dir(fs, name));
    if StagingInTheWay(fs, name, retain, cut) {
      var q, p :| q in Dir(fs, name) && q.StagedPath? && Survives(fs, q, retain, cut)
        && p in Dir(fs, name) && p.BackupPath? && !Survives(fs, p, retain, cut);
      assert q in l && p in l;
      var j :| 0 <= j < |l| && l[j] == q;
      var i :| 0 <= i < |l| && l[i] == p;
      LastSurvive(fs, name, l, j, retain, cut);
      LastSurvive(fs, name, l, i, retain, cut);
      InTheWayLosesNewest(fs, name, l, i, j, retain, cut);
    } else {
      forall p | p in Dir(fs, name) && p.BackupPath? && |NewerBackups(fs, p, name)| < retain
        ensures Survives(fs, p, retain, cut)
      {
        assert p in l;
        var i :| 0 <= i < |l| && l[i] == p;
        LastSurvive(fs, name, l, i, retain, cut);
        if !Survives(fs, p, retain, cut) {
          forall j | |l| - retain <= j < |l| ensures l[j].BackupPath? {
            assert l[j] in l;
            LastSurvive(fs, name, l, j, retain, cut);
          }
          ClearWayKeepsNewest(fs, name, l, i, retain, cut);
          assert false;
        }
      }
    }
  }

  /** A staging file whose name sorts last pushes the only backup out. */
  lemma StagingPushesBackupOut(name: string, stamp: nat, txid: nat, saved: Bytes, proposed: Bytes, cut: nat -> nat)
    requires Monotone(cut) && stamp < cut(txid)
    ensures var fs: Files := map[BackupPath(name, stamp) := saved, StagedPath(name, txid) := proposed];
      Retained(fs, 1, cut) == map[StagedPath(name, txid) := proposed]
  {
    var b, s := BackupPath(name, stamp), StagedPath(name, txid);
    var fs: Files := map[b := saved, s := proposed];
    assert Dir(fs, name) == {b, s};
    assert After({b, s}, b, cut) == {s} && After({b, s}, s, cut) == {};
  }
}
