/** The admission rule of begin_op and the size of the log (log.c:126-141, 213-233): how
    many distinct blocks one operation may write so that log_write never panics. */
module LogSpace {
  import opened Params
  import opened Collections
  import opened LogMachine
  import opened LogSafety
  import Bio

  const MAXLOGGED: nat := LOGSIZE - 2

  /** No operation in progress has written more than `limit` distinct blocks. */
  ghost predicate Within(s: State, limit: nat) {
    forall p :: p in s.wrote ==> |s.wrote[p]| <= limit
  }

  ghost predicate Disciplined(s: State, acts: seq<Action>, limit: nat)
    requires Runs(s, acts)
    decreases |acts|
  {
    Within(After(s, acts), limit) &&
    (acts == [] || Disciplined(s, acts[..|acts| - 1], limit))
  }

  /** An operation that may still write another block would make log_write panic. */
  ghost predicate WouldPanic(s: State, limit: nat) {
    s.phase == Running && s.TooBig() && exists p :: p in s.wrote && |s.wrote[p]| < limit
  }

  // ---------------------------------------------------------------- the bound

  /** What the operations in progress may still add, at 9 blocks each. */
  ghost function Slack(w: map<Pid, set<int>>): int
    decreases w.Keys
  {
    if w == map[] then 0
    else
      var p :| p in w;
      MAXOPBLOCKS - 1 - |w[p]| + Slack(w - {p})
  }

  lemma {:induction false} SlackRemove(w: map<Pid, set<int>>, p: Pid)
    requires p in w
    ensures Slack(w) == MAXOPBLOCKS - 1 - |w[p]| + Slack(w - {p})
    decreases w.Keys
  {
    var q :| q in w && Slack(w) == MAXOPBLOCKS - 1 - |w[q]| + Slack(w - {q});
    if p != q {
      SlackRemove(w - {q}, p);
      SlackRemove(w - {p}, q);
      assert w - {q} - {p} == w - {p} - {q};
    }
  }

  lemma SlackPut(w: map<Pid, set<int>>, p: Pid, bs: set<int>)
    ensures Slack(w[p := bs]) == MAXOPBLOCKS - 1 - |bs| + Slack(w - {p})
  {
    SlackRemove(w[p := bs], p);
    assert w[p := bs] - {p} == w - {p};
  }

  lemma {:induction false} SlackBounds(w: map<Pid, set<int>>)
    requires forall p :: p in w ==> |w[p]| <= MAXOPBLOCKS - 1
    ensures 0 <= Slack(w) <= |w| * (MAXOPBLOCKS - 1)
    decreases w.Keys
  {
    if w != map[] {
      var p :| p in w;
      SlackRemove(w, p);
      assert (w - {p}).Keys == w.Keys - {p};
      SlackBounds(w - {p});
    }
  }

  ghost predicate Roomy(s: State) {
    && (s.phase.Recover? || |s.lh| + Slack(s.wrote) <= MAXLOGGED)
    && (forall p, b {:trigger b in s.wrote[p]} :: p in s.wrote && b in s.wrote[p] ==> b in s.lh)
  }

  lemma BeginRoomy(s: State, p: Pid)
    requires CountersOk(s) && Enabled(s, BeginOp(p)) && Roomy(s) && Within(s, MAXOPBLOCKS - 1)
    ensures Roomy(Exec(s, BeginOp(p)))
  {
    hide Ops, Slack;
    SlackPut(s.wrote, p, {});
    assert s.wrote - {p} == s.wrote;
    SlackBounds(s.wrote);
    assert s.outstanding == 0 ==> s.wrote == map[];
    NoSlack();
  }

  lemma NoSlack()
    ensures Slack(map[]) == 0
  {}

  lemma WriteRoomy(s: State, p: Pid, b: int, v: Block)
    requires Enabled(s, LogWrite(p, b, v)) && Roomy(s)
    ensures Roomy(Exec(s, LogWrite(p, b, v)))
  {
    var mine := s.wrote[p];
    SlackPut(s.wrote, p, mine + {b});
    SlackRemove(s.wrote, p);
    if b in mine {
      assert mine + {b} == mine;
      assert b in s.lh;
    } else {
      assert |mine + {b}| == |mine| + 1;
    }
  }

  lemma EndRoomy(s: State, p: Pid)
    requires Enabled(s, EndOp(p)) && Roomy(s) && Within(s, MAXOPBLOCKS - 1)
    ensures Roomy(Exec(s, EndOp(p)))
  {
    SlackRemove(s.wrote, p);
    var t := Exec(s, EndOp(p));
    forall q, b | q in t.wrote && b in t.wrote[q] ensures b in t.lh {
      assert b in s.wrote[q];
    }
  }

  lemma StepRoomy(s: State, a: Action)
    requires CountersOk(s) && Enabled(s, a) && Roomy(s) && Within(s, MAXOPBLOCKS - 1)
    ensures Roomy(Exec(s, a))
  {
    match a
    case BeginOp(p) => BeginRoomy(s, p);
    case LogWrite(p, b, v) => WriteRoomy(s, p, b, v);
    case EndOp(p) => EndRoomy(s, p);
    case _ =>
  }

  lemma {:induction false} RoomyHolds(start: nat, disk: seq<Block>, acts: seq<Action>)
    requires DiskShape(start, disk) && Runs(Init(start, disk), acts)
    requires Disciplined(Init(start, disk), acts, MAXOPBLOCKS - 1)
    ensures Roomy(After(Init(start, disk), acts))
    decreases |acts|
  {
    if acts != [] {
      var pre := acts[..|acts| - 1];
      RoomyHolds(start, disk, pre);
      InvHolds(start, disk, pre);
      assert Within(After(Init(start, disk), pre), MAXOPBLOCKS - 1);
      StepRoomy(After(Init(start, disk), pre), acts[|acts| - 1]);
    }
  }

  /** If every operation writes at most MAXOPBLOCKS - 1 distinct blocks, a transaction never
      lists more than 28 blocks, so no call of log_write panics, not even an absorbed one. */
  lemma LogNeverFull(start: nat, disk: seq<Block>, acts: seq<Action>)
    requires DiskShape(start, disk) && Runs(Init(start, disk), acts)
    requires Disciplined(Init(start, disk), acts, MAXOPBLOCKS - 1)
    ensures var s := After(Init(start, disk), acts);
            !s.phase.Recover? ==> |s.lh| <= MAXLOGGED && !s.TooBig()
  {
    RoomyHolds(start, disk, acts);
    assert Within(After(Init(start, disk), acts), MAXOPBLOCKS - 1);
    SlackBounds(After(Init(start, disk), acts).wrote);
  }

  // ---------------------------------------------------------------- buffers pinned by the log

  lemma OnlyListed(s: State, base: seq<Block>)
    requires Inv(s, base)
    ensures s.dirty <= Members(s.lh) && (s.phase.Recover? ==> s.dirty == {})
  {
    hide DiskOk, ListOk, CountersOk, Reads, Replay, Decode;
    forall b | b in s.dirty
      ensures b in Members(s.lh)
    {
      assert b in s.cache && b in s.lh;
    }
  }

  lemma PinnedFew(s: State, base: seq<Block>)
    requires Inv(s, base)
    ensures |s.dirty| <= |s.lh| && (s.phase.Recover? ==> s.dirty == {})
  {
    hide Inv;
    OnlyListed(s, base);
    FewMembers(s.lh);
    SubsetSize(s.dirty, Members(s.lh));
  }

  /** A disciplined run never pins more than 28 buffers. With those pinned, bget is sure to find a
      buffer exactly when at most one clean buffer is held. */
  lemma BuffersSuffice(start: nat, disk: seq<Block>, acts: seq<Action>, h: nat)
    requires DiskShape(start, disk) && Runs(Init(start, disk), acts)
    requires Disciplined(Init(start, disk), acts, MAXOPBLOCKS - 1)
    ensures |After(Init(start, disk), acts).dirty| <= MAXLOGGED
    ensures (forall bufs :: Bio.AtMost(bufs, MAXLOGGED, h) ==> Bio.HasFree(bufs)) <==> h <= 1
  {
    InvHolds(start, disk, acts);
    LogNeverFull(start, disk, acts);
    var s := After(Init(start, disk), acts);
    PinnedFew(s, ReplayAll(Recovered(start, disk), s.committed));
    Bio.NoBuffersBound(MAXLOGGED, h);
  }

  lemma {:induction false} DisciplineWeakens(s: State, acts: seq<Action>, k: nat, m: nat)
    requires Runs(s, acts) && k <= m && Disciplined(s, acts, k)
    ensures Disciplined(s, acts, m)
    decreases |acts|
  {
    if acts != [] {
      DisciplineWeakens(s, acts[..|acts| - 1], k, m);
    }
  }

  // ---------------------------------------------------------------- the bound is exact

  /** Boot, then three operations admitted together. */
  function Opening(): seq<Action> {
    [ReadHead, EraseHead, BeginOp(0), BeginOp(1), BeginOp(2)]
  }

  /** Then the first n of 30 writes of distinct home blocks, ten by each operation. */
  function Heavy(first: nat, v: Block, n: nat): seq<Action> {
    if n == 0 then Opening() else Heavy(first, v, n - 1) + [LogWrite((n - 1) / MAXOPBLOCKS, first + n - 1, v)]
  }

  /** How many of the first n writes belong to operation q. */
  function Quota(n: nat, q: nat): nat {
    if n <= MAXOPBLOCKS * q then 0 else if n - MAXOPBLOCKS * q <= MAXOPBLOCKS then n - MAXOPBLOCKS * q else MAXOPBLOCKS
  }

  ghost predicate HeavyState(s: State, first: nat, n: nat) {
    && s.phase == Running && |s.lh| == n
    && (forall b :: b in s.lh ==> first <= b < first + n)
    && HeavyWrote(s.wrote, n)
  }

  ghost predicate HeavyWrote(w: map<Pid, set<int>>, n: nat) {
    && (forall q :: 0 <= q < 3 ==> q in w)
    && (forall q :: q in w ==> |w[q]| <= Quota(n, q))
  }

  lemma DisciplinedSnoc(s: State, acts: seq<Action>, a: Action, limit: nat)
    requires Runs(s, acts) && Disciplined(s, acts, limit) && Enabled(After(s, acts), a)
    requires Within(Exec(After(s, acts), a), limit)
    ensures Runs(s, acts + [a]) && After(s, acts + [a]) == Exec(After(s, acts), a)
    ensures Disciplined(s, acts + [a], limit)
  {
    assert (acts + [a])[..|acts|] == acts;
  }

  /** After the boot and k begin_ops, with nothing written. */
  ghost predicate Opened(start: nat, disk: seq<Block>, acts: seq<Action>, limit: nat, k: nat) {
    var i := Init(start, disk);
    && Runs(i, acts) && Disciplined(i, acts, limit)
    && var s := After(i, acts);
       && s.start == start && |s.disk| == |disk| && s.phase == Running && s.lh == []
       && !s.committing && s.outstanding == k
       && (forall q :: q in s.wrote <==> 0 <= q < k) && forall q :: q in s.wrote ==> s.wrote[q] == {}
  }

  lemma BootRuns(start: nat, disk: seq<Block>, limit: nat)
    requires DiskShape(start, disk) && Decode(disk[start]) == []
    ensures Opened(start, disk, [ReadHead, EraseHead], limit, 0)
  {
    hide Runs, Disciplined, DiskShape, Decode, Encode;
    var i := Init(start, disk);
    BootDisk(start, disk, limit);
    DisciplinedSnoc(i, [], ReadHead, limit);
    DisciplinedSnoc(i, [ReadHead], EraseHead, limit);
    assert [] + [ReadHead] == [ReadHead] && [ReadHead] + [EraseHead] == [ReadHead, EraseHead];
  }

  lemma BootDisk(start: nat, disk: seq<Block>, limit: nat)
    requires DiskShape(start, disk)
    ensures start + LOGSIZE <= |disk|
    ensures var i := Init(start, disk); Runs(i, []) && After(i, []) == i && Disciplined(i, [], limit)
  {}

  lemma BeginNext(start: nat, disk: seq<Block>, acts: seq<Action>, limit: nat, k: nat)
    requires Opened(start, disk, acts, limit, k) && start + LOGSIZE <= |disk| && k < 3
    ensures Opened(start, disk, acts + [BeginOp(k)], limit, k + 1)
  {
    hide Runs, Disciplined;
    DisciplinedSnoc(Init(start, disk), acts, BeginOp(k), limit);
  }

  lemma OpeningRuns(start: nat, disk: seq<Block>, limit: nat)
    requires DiskShape(start, disk) && Decode(disk[start]) == []
    ensures Opened(start, disk, Opening(), limit, 3)
  {
    hide Opened, DiskShape, Decode;
    BootDisk(start, disk, limit);
    BootRuns(start, disk, limit);
    BeginNext(start, disk, [ReadHead, EraseHead], limit, 0);
    BeginNext(start, disk, [ReadHead, EraseHead] + [BeginOp(0)], limit, 1);
    BeginNext(start, disk, [ReadHead, EraseHead] + [BeginOp(0)] + [BeginOp(1)], limit, 2);
    assert [ReadHead, EraseHead] + [BeginOp(0)] + [BeginOp(1)] + [BeginOp(2)] == Opening();
  }

  lemma HeavyWrites(w: map<Pid, set<int>>, p: Pid, b: int, n: nat)
    requires 0 < n < LOGSIZE && p == (n - 1) / MAXOPBLOCKS && HeavyWrote(w, n - 1)
    ensures p in w && HeavyWrote(w[p := w[p] + {b}], n)
  {
    assert |w[p] + {b}| <= |w[p]| + 1;
    assert Quota(n, p) == Quota(n - 1, p) + 1;
  }

  lemma HeavyStep(s: State, first: nat, n: nat, v: Block)
    requires 0 < n < LOGSIZE && HeavyState(s, first, n - 1)
    requires s.start + LOGSIZE == first && first + LOGSIZE <= |s.disk|
    ensures var a := LogWrite((n - 1) / MAXOPBLOCKS, first + n - 1, v);
            && Enabled(s, a)
            && var t := Exec(s, a);
               t.start == s.start && |t.disk| == |s.disk| && HeavyState(t, first, n) && Within(t, MAXOPBLOCKS)
  {
    assert first + n - 1 !in s.lh;
    HeavyWrites(s.wrote, (n - 1) / MAXOPBLOCKS, first + n - 1, n);
    assert forall q :: Quota(n, q) <= MAXOPBLOCKS;
  }

  ghost predicate HeavyReached(start: nat, disk: seq<Block>, v: Block, n: nat) {
    var i, acts := Init(start, disk), Heavy(start + LOGSIZE, v, n);
    && Runs(i, acts) && Disciplined(i, acts, MAXOPBLOCKS)
    && var s := After(i, acts);
       s.start == start && |s.disk| == |disk| && HeavyState(s, start + LOGSIZE, n)
  }

  lemma {:induction false} HeavyRuns(start: nat, disk: seq<Block>, v: Block, n: nat)
    requires DiskShape(start, disk) && Decode(disk[start]) == []
    requires start + 2 * LOGSIZE <= |disk| && n < LOGSIZE
    ensures HeavyReached(start, disk, v, n)
    decreases n
  {
    hide HeavyReached, DiskShape, Decode;
    if n == 0 {
      HeavyStarts(start, disk, v);
    } else {
      HeavyRuns(start, disk, v, n - 1);
      HeavyExtends(start, disk, v, n);
    }
  }

  lemma HeavyStarts(start: nat, disk: seq<Block>, v: Block)
    requires DiskShape(start, disk) && Decode(disk[start]) == []
    ensures HeavyReached(start, disk, v, 0)
  {
    hide Exec, Enabled, Disciplined;
    OpeningRuns(start, disk, MAXOPBLOCKS);
  }

  lemma HeavyExtends(start: nat, disk: seq<Block>, v: Block, n: nat)
    requires start + 2 * LOGSIZE <= |disk| && 0 < n < LOGSIZE && HeavyReached(start, disk, v, n - 1)
    ensures HeavyReached(start, disk, v, n)
  {
    hide Exec, Enabled, Decode, DiskShape, Runs, Disciplined, Within, Quota, HeavyState, HeavyWrote;
    var i, first := Init(start, disk), start + LOGSIZE;
    var pre := Heavy(first, v, n - 1);
    var s, a := After(i, pre), LogWrite((n - 1) / MAXOPBLOCKS, first + n - 1, v);
    HeavyStep(s, first, n, v);
    DisciplinedSnoc(i, pre, a, MAXOPBLOCKS);
    assert Heavy(first, v, n) == pre + [a];
  }

  /** The limit that makes log_write safe is exactly MAXOPBLOCKS - 1. The code's comment allows
      an operation MAXOPBLOCKS blocks, but the header takes one of the LOGSIZE log blocks: three
      operations admitted together can fill the log before the third is done. */
  lemma LimitIsExact(start: nat, disk: seq<Block>, limit: nat)
    requires DiskShape(start, disk) && Decode(disk[start]) == [] && start + 2 * LOGSIZE <= |disk|
    ensures (exists acts :: Runs(Init(start, disk), acts) && Disciplined(Init(start, disk), acts, limit) &&
                            WouldPanic(After(Init(start, disk), acts), limit))
            <==> limit > MAXOPBLOCKS - 1
  {
    var i := Init(start, disk);
    if limit <= MAXOPBLOCKS - 1 {
      forall acts | Runs(i, acts) && Disciplined(i, acts, limit) ensures !WouldPanic(After(i, acts), limit) {
        DisciplineWeakens(i, acts, limit, MAXOPBLOCKS - 1);
        LogNeverFull(start, disk, acts);
      }
    } else {
      var acts := Heavy(start + LOGSIZE, disk[start], LOGSIZE - 1);
      HeavyRuns(start, disk, disk[start], LOGSIZE - 1);
      DisciplineWeakens(i, acts, MAXOPBLOCKS, limit);
      assert 2 in After(i, acts).wrote;
      assert WouldPanic(After(i, acts), limit);
    }
  }
}
