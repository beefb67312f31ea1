/** The file system's transactions in the log: a run of the log whose operations log what the
    transactions of Fs and FsOps do never finds its log full. */
module FsLog {
  import opened Params
  import opened Collections
  import opened LogMachine
  import opened LogSpace
  import Fs

  // ---------------------------------------------------------------- transactions that fit

  /** With one bitmap block, each transaction logs at most MAXOPBLOCKS - 1 distinct blocks. */
  ghost predicate AllFit(fs: Fs.FileSystem, ops: seq<Fs.Transaction>) {
    forall x {:trigger x in ops} :: x in ops ==> fs.Fits(x, MAXOPBLOCKS - 1)
  }

  /** What CreateOp, LinkOp, UnlinkOp, FailOp and CloseOp add fits, as long as their path lookups
      free few enough inodes. */
  lemma OneFits(fs: Fs.FileSystem, ops: seq<Fs.Transaction>, x: Fs.Transaction, limit: int)
    requires AllFit(fs, ops) && fs.Fits(x, limit) && limit <= MAXOPBLOCKS - 1
    ensures AllFit(fs, ops + [x])
  {}

  /** What Filewrite adds fits. */
  lemma ChunksFit(fs: Fs.FileSystem, before: seq<Fs.Transaction>, after: seq<Fs.Transaction>, s: Fs.Snap, t: Fs.Snap,
                  n: int)
    requires AllFit(fs, before) && fs.Transacted(before, after, s, t, n, 7)
    ensures AllFit(fs, after)
  {
    forall x | x in after
      ensures fs.Fits(x, MAXOPBLOCKS - 1)
    {
      var k :| 0 <= k < |after| && after[k] == x;
      assert k < |before| ==> x == before[k] && x in before;
    }
  }

  // ---------------------------------------------------------------- runs that log them

  /** Where process p began its operation, as of the n-th action; -1 for nowhere. */
  ghost function Began(acts: seq<Action>, n: nat, p: Pid): int
    requires n <= |acts|
  {
    if n == 0 then -1 else if acts[n - 1] == BeginOp(p) then n - 1 else Began(acts, n - 1, p)
  }

  lemma {:induction false} BeganPrefix(acts: seq<Action>, k: nat, n: nat, p: Pid)
    requires n <= k <= |acts|
    ensures Began(acts[..k], n, p) == Began(acts, n, p)
    decreases n
  {
    if n > 0 {
      BeganPrefix(acts, k, n - 1, p);
    }
  }

  /** Each block an operation logs is one that its transaction tx[b] logs, where b is the
      operation's first action. */
  ghost predicate Follows(acts: seq<Action>, tx: map<int, Fs.Transaction>) {
    forall n {:trigger acts[n]} :: 0 <= n < |acts| && acts[n].LogWrite? ==>
      Began(acts, n, acts[n].p) in tx && acts[n].b in tx[Began(acts, n, acts[n].p)].logged
  }

  lemma FollowsPrefix(acts: seq<Action>, tx: map<int, Fs.Transaction>, k: nat)
    requires Follows(acts, tx) && k <= |acts|
    ensures Follows(acts[..k], tx)
  {
    forall n | 0 <= n < k && acts[..k][n].LogWrite?
      ensures Began(acts[..k], n, acts[..k][n].p) in tx
      ensures acts[..k][n].b in tx[Began(acts[..k], n, acts[..k][n].p)].logged
    {
      assert acts[..k][n] == acts[n];
      BeganPrefix(acts, k, n, acts[n].p);
    }
  }

  ghost predicate WroteIn(acts: seq<Action>, tx: map<int, Fs.Transaction>, w: map<Pid, set<int>>) {
    forall p {:trigger p in w} :: p in w ==>
      w[p] == {} || (Began(acts, |acts|, p) in tx && w[p] <= tx[Began(acts, |acts|, p)].logged)
  }

  lemma WroteStep(s: State, pre: seq<Action>, a: Action, tx: map<int, Fs.Transaction>)
    requires Enabled(s, a) && WroteIn(pre, tx, s.wrote) && Follows(pre + [a], tx)
    ensures WroteIn(pre + [a], tx, Exec(s, a).wrote)
  {
    var acts, t := pre + [a], Exec(s, a);
    forall p | p in t.wrote
      ensures t.wrote[p] == {} || (Began(acts, |acts|, p) in tx && t.wrote[p] <= tx[Began(acts, |acts|, p)].logged)
    {
      assert acts[|pre|] == a && acts[..|pre|] == pre;
      BeganPrefix(acts, |pre|, |pre|, p);
      if a != BeginOp(p) {
        assert p in s.wrote;
      }
    }
  }

  lemma {:induction false} WroteHolds(i: State, acts: seq<Action>, tx: map<int, Fs.Transaction>)
    requires Runs(i, acts) && Follows(acts, tx) && i.wrote == map[]
    ensures WroteIn(acts, tx, After(i, acts).wrote)
    decreases |acts|
  {
    hide Exec, Enabled, Follows, WroteIn;
    if acts == [] {
      NoneWrote(tx);
    } else {
      var pre := acts[..|acts| - 1];
      FollowsPrefix(acts, tx, |acts| - 1);
      WroteHolds(i, pre, tx);
      assert pre + [acts[|acts| - 1]] == acts;
      WroteStep(After(i, pre), pre, acts[|acts| - 1], tx);
    }
  }

  lemma NoneWrote(tx: map<int, Fs.Transaction>)
    ensures WroteIn([], tx, map[])
  {}

  lemma WroteFew(fs: Fs.FileSystem, ops: seq<Fs.Transaction>, s: State, acts: seq<Action>, tx: map<int, Fs.Transaction>)
    requires AllFit(fs, ops) && fs.OneBitmapBlock() && (forall b :: b in tx ==> tx[b] in ops)
    requires WroteIn(acts, tx, s.wrote)
    ensures Within(s, MAXOPBLOCKS - 1)
  {
    forall p | p in s.wrote
      ensures |s.wrote[p]| <= MAXOPBLOCKS - 1
    {
      if s.wrote[p] != {} {
        var x := tx[Began(acts, |acts|, p)];
        assert x in ops && fs.Fits(x, MAXOPBLOCKS - 1);
        SubsetSize(s.wrote[p], x.logged);
      }
    }
  }

  lemma {:induction false} TransactionsDiscipline(fs: Fs.FileSystem, ops: seq<Fs.Transaction>, i: State,
                                                  acts: seq<Action>, tx: map<int, Fs.Transaction>)
    requires AllFit(fs, ops) && fs.OneBitmapBlock() && (forall b :: b in tx ==> tx[b] in ops)
    requires Runs(i, acts) && Follows(acts, tx) && i.wrote == map[]
    ensures Disciplined(i, acts, MAXOPBLOCKS - 1)
    decreases |acts|
  {
    hide Exec, Enabled, Follows, WroteIn, AllFit, Within;
    WroteHolds(i, acts, tx);
    WroteFew(fs, ops, After(i, acts), acts, tx);
    if acts != [] {
      FollowsPrefix(acts, tx, |acts| - 1);
      TransactionsDiscipline(fs, ops, i, acts[..|acts| - 1], tx);
    }
  }

  /** Whatever the interleaving, the crashes and the order, as long as each operation of the run
      logs only what some transaction in the file system's history logs, log_write never panics. */
  lemma NeverTooBig(fs: Fs.FileSystem, start: nat, disk: seq<Block>, acts: seq<Action>, tx: map<int, Fs.Transaction>)
    requires AllFit(fs, fs.ops) && fs.OneBitmapBlock() && (forall b :: b in tx ==> tx[b] in fs.ops)
    requires DiskShape(start, disk) && Runs(Init(start, disk), acts) && Follows(acts, tx)
    ensures var s := After(Init(start, disk), acts); !s.phase.Recover? ==> !s.TooBig()
  {
    TransactionsDiscipline(fs, fs.ops, Init(start, disk), acts, tx);
    LogNeverFull(start, disk, acts);
  }
}
