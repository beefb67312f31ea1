/** The procedures of log.c over the buffer cache and the disk. Every block that reaches the
    disk is one action of LogMachine, recorded in `acts`, so the theorems of LogSafety and
    LogSpace about all runs hold of these procedures with a crash at any of their writes. */
module Log {
  import opened Params
  import opened LogMachine
  import opened LogSafety
  import LogAdmission

  datatype LogResult = Logged | TooBigTransaction | OutsideTransaction

  /** What a reachable state owes the procedures below. */
  ghost predicate Sound(s: State) {
    && s.start + LOGSIZE <= |s.disk| && ListOk(s.start, |s.disk|, s.lh)
    && (forall b :: b in s.dirty ==> s.IsHome(b))
    && s.outstanding == |s.wrote|
    && (s.committing <==> s.phase.CopyLog? || s.phase.Install? || s.phase == Finished)
    && (s.phase != Running ==> s.outstanding == 0)
  }

  lemma SoundHolds(start: nat, disk: seq<Block>, acts: seq<Action>, s: State)
    requires Reached(start, disk, acts, s)
    ensures s.start == start && Sound(s)
  {
    ReachedRuns(start, disk, acts, s);
    InvHolds(start, disk, acts);
    PinnedHome(s, ReplayAll(Recovered(start, disk), s.committed));
    assert s.wrote == map[] ==> |s.wrote| == 0;
  }

  lemma ReadBeforeCommit(s: State, base: seq<Block>)
    requires Inv(s, base) && s.phase == (if s.lh != [] then CopyLog(0) else Finished)
    ensures |base| == |s.disk|
    ensures var next := if s.lh != [] then Replay(base, s.group) else base;
            forall b {:trigger next[b]} :: s.IsHome(b) ==> s.View(b) == next[b]
  {
  }

  lemma FinishedDisk(t: State, next: seq<Block>)
    requires Inv(t, next) && t.phase == Finished
    ensures t.start < |t.disk| == |next| && t.lh == [] && t.dirty == {} && Decode(t.disk[t.start]) == []
    ensures forall b {:trigger next[b]} :: t.IsHome(b) ==> t.disk[b] == next[b]
  {
  }

  /** The state the invariant describes, without the runs that lead there. */
  ghost function BaseOf(start: nat, boot: seq<Block>, s: State): seq<Block>
    requires DiskShape(start, boot)
  {
    ReplayAll(Recovered(start, boot), s.committed)
  }

  lemma ReachedInv(start: nat, boot: seq<Block>, acts: seq<Action>, s: State)
    requires Reached(start, boot, acts, s)
    ensures s.start == start && DiskShape(start, boot) && Inv(s, BaseOf(start, boot, s))
  {
    ReachedRuns(start, boot, acts, s);
    InvHolds(start, boot, acts);
  }

  /** Between the start of a commit and its end, readers' view of the home blocks reaches the disk. */
  lemma CommitEffect(start: nat, boot: seq<Block>, acts0: seq<Action>, s: State, acts: seq<Action>, t: State)
    requires Reached(start, boot, acts0, s) && Reached(start, boot, acts, t)
    requires s.phase == (if s.lh != [] then CopyLog(0) else Finished) && t.phase == Finished
    requires t.committed == s.committed + (if s.lh != [] then [s.group] else [])
    ensures |t.disk| == |s.disk| && t.start == s.start == start && start < |t.disk|
    ensures t.lh == [] && t.dirty == {} && Decode(t.disk[start]) == []
    ensures forall b :: s.IsHome(b) ==> t.disk[b] == s.View(b)
  {
    ReachedInv(start, boot, acts0, s);
    ReachedInv(start, boot, acts, t);
    var base, next := BaseOf(start, boot, s), BaseOf(start, boot, t);
    assert next == if s.lh != [] then Replay(base, s.group) else base by {
      assert (s.committed + [s.group])[..|s.committed|] == s.committed;
      assert s.lh == [] ==> t.committed == s.committed;
    }
    ReadBeforeCommit(s, base);
    FinishedDisk(t, next);
    forall b | s.IsHome(b) ensures t.disk[b] == s.View(b) {
      assert t.disk[b] == next[b];
    }
  }

  /** Recovery leaves on disk what the disk stood for before it. */
  lemma RecoveryEffect(start: nat, boot: seq<Block>, acts0: seq<Action>, s: State, acts: seq<Action>, t: State)
    requires Reached(start, boot, acts0, s) && Reached(start, boot, acts, t)
    requires t.phase == Running && t.outstanding == 0 && t.committed == s.committed
    ensures t.start == s.start == start && DiskShape(start, s.disk) && |t.disk| == |s.disk|
    ensures t.lh == [] && Decode(t.disk[start]) == []
    ensures forall b :: t.IsHome(b) ==> t.disk[b] == Recovered(start, s.disk)[b]
  {
    ReachedRuns(start, boot, acts0, s);
    ReachedRuns(start, boot, acts, t);
    RecoveryEffectOf(start, boot, acts0, acts);
  }

  lemma RecoveryEffectOf(start: nat, boot: seq<Block>, acts0: seq<Action>, acts: seq<Action>)
    requires DiskShape(start, boot) && Runs(Init(start, boot), acts0) && Runs(Init(start, boot), acts)
    requires var t := After(Init(start, boot), acts);
             t.phase == Running && t.outstanding == 0 &&
             t.committed == After(Init(start, boot), acts0).committed
    ensures var s, t := After(Init(start, boot), acts0), After(Init(start, boot), acts);
            && t.start == s.start == start && DiskShape(start, s.disk) && |t.disk| == |s.disk|
            && t.lh == [] && Decode(t.disk[start]) == []
            && (forall b :: t.IsHome(b) ==> t.disk[b] == Recovered(start, s.disk)[b])
  {
    CrashSafety(start, boot, acts0);
    QuiescentDisk(start, boot, acts);
    var s, t := After(Init(start, boot), acts0), After(Init(start, boot), acts);
    var home := BaseOf(start, boot, t);
    forall b | t.IsHome(b) ensures t.disk[b] == Recovered(start, s.disk)[b] {
      assert t.disk[b] == home[b];
    }
  }

  class RedoLog {
    const start: nat
    var disk: seq<Block>
    var cache: map<int, Block>
    var dirty: set<int>
    var lh: seq<int>              // log.lh.block[0..log.lh.n]
    var outstanding: nat
    var committing: bool

    ghost const boot: seq<Block>  // the disk at power-up
    ghost var acts: seq<Action>   // the steps taken since
    ghost var now: State          // the machine state they lead to

    /** The fields are those of the machine state that the recorded steps lead to. */
    ghost predicate Valid()
      reads this
    {
      && Reached(start, boot, acts, now)
      && now.start == start && now.disk == disk && now.cache == cache && now.dirty == dirty && now.lh == lh
      && now.outstanding == outstanding && now.committing == committing
      && Sound(now)
    }

    predicate InDisk(b: int)
      reads this`disk
    {
      0 <= b < |disk|
    }

    predicate IsHome(b: int)
      reads this`disk
    {
      InDisk(b) && !(start <= b < start + LOGSIZE)
    }

    function View(b: int): Block
      requires InDisk(b)
      reads this`disk, this`cache
    {
      if b in cache then cache[b] else disk[b]
    }

    constructor (start: nat, contents: seq<Block>)
      requires DiskShape(start, contents)
      ensures Valid() && this.start == start && disk == contents && boot == contents && acts == []
    {
      this.start := start;
      disk, cache, dirty, lh, outstanding, committing := contents, map[], {}, [], 0, false;
      boot, acts, now := contents, [], Init(start, contents);
      new;
      assert IsTrail(start, boot, acts, [now]);
    }

    /** Records one action; the fields must then be brought to its result. */
    ghost method Record(a: Action)
      requires Reached(start, boot, acts, now) && Enabled(now, a)
      modifies this`acts, this`now
      ensures Reached(start, boot, acts, now) && acts == old(acts) + [a] && now == Exec(old(now), a)
      ensures Sound(now)
    {
      ReachedSnoc(start, boot, acts, now, a);
      acts, now := acts + [a], Exec(now, a);
      SoundHolds(start, boot, acts, now);
    }

    /** bread and brelse: the block's current contents; the buffer stays cached. */
    method Bread(b: int) returns (v: Block)
      requires Valid() && InDisk(b)
      modifies this`cache, this`acts, this`now
      ensures Valid() && v == old(View(b)) && b in cache
      ensures old(acts) <= acts && now == old(now).(cache := cache)
      ensures cache == old(cache)[b := v]
    {
      if b !in cache {
        Record(Fill(b));
        cache := cache[b := disk[b]];
      }
      v := cache[b];
    }

    /** bwrite: the buffer goes to the disk and is no longer dirty. */
    method Bwrite(b: int, v: Block)
      requires InDisk(b)
      modifies this`disk, this`cache, this`dirty
      ensures disk == old(disk)[b := v] && cache == old(cache)[b := v] && dirty == old(dirty) - {b}
    {
      cache, dirty := cache[b := v], dirty + {b};
      disk, dirty := disk[b := cache[b]], dirty - {b};
    }

    ghost method RecordCopy(k: nat, v: Block)
      requires Valid() && now.phase == CopyLog(k) && k < |lh| && v == View(lh[k])
      modifies this`acts, this`now
      ensures Reached(start, boot, acts, now) && Sound(now) && acts == old(acts) + [CopyBlock]
      ensures start + 1 + k !in dirty
      ensures var to := start + 1 + k;
              now == old(now).(disk := disk[to := v], cache := cache[to := v], phase := CopyLog(k + 1))
    {
      Record(CopyBlock);
    }

    /** One round of write_log: a cached block goes to the next log block. */
    method CopyOne(tail: nat)
      requires Valid() && now.phase == CopyLog(tail) && tail < |lh|
      modifies this`cache, this`acts, this`now, this`disk, this`dirty
      ensures Valid() && old(acts) <= acts
      ensures now.phase == CopyLog(tail + 1)
      ensures now.committed == old(now.committed) && now.group == old(now.group)
    {
      var to := start + tail + 1;
      var _ := Bread(to);
      var from := Bread(lh[tail]);
      RecordCopy(tail, from);
      Bwrite(to, from);
    }

    /** Copies the blocks of the transaction from the cache to the log area. */
    method WriteLog()
      requires Valid() && now.phase == CopyLog(0)
      modifies this`cache, this`acts, this`now, this`disk, this`dirty
      ensures Valid() && old(acts) <= acts && now.phase == CopyLog(|lh|)
      ensures now.committed == old(now.committed) && now.group == old(now.group)
    {
      var tail := 0;
      while tail < |lh|
        invariant 0 <= tail <= |lh| && Valid() && old(acts) <= acts
        invariant now.phase == CopyLog(tail)
        invariant now.committed == old(now.committed) && now.group == old(now.group)
      {
        CopyOne(tail);
        tail := tail + 1;
      }
    }

    ghost method RecordHead(v: Block)
      requires Valid() && v == Encode(View(start), lh)
      requires now.phase == CopyLog(|lh|)
      modifies this`acts, this`now
      ensures Reached(start, boot, acts, now) && Sound(now) && acts == old(acts) + [WriteHead]
      ensures now == old(now).(disk := disk[start := v], cache := cache[start := v], phase := Install(0),
                               committed := old(now.committed) + [old(now.group)], group := [])
    {
      Record(WriteHead);
    }

    /** write_head during commit: the write that commits the transaction. */
    method WriteHeadCommit()
      requires Valid() && now.phase == CopyLog(|lh|)
      modifies this`cache, this`acts, this`now, this`disk, this`dirty
      ensures Valid() && old(acts) <= acts && now.phase == Install(0)
      ensures now.committed == old(now.committed) + [old(now.group)]
    {
      var head := Bread(start);
      head := Encode(head, lh);
      RecordHead(head);
      Bwrite(start, head);
    }

    ghost method RecordErase(v: Block)
      requires Valid() && v == Encode(View(start), [])
      requires now.phase == Install(|lh|) || now.phase == Recover(|lh|)
      modifies this`acts, this`now
      ensures Reached(start, boot, acts, now) && Sound(now) && acts == old(acts) + [EraseHead]
      ensures now == old(now).(disk := disk[start := v], cache := cache[start := v], lh := [],
                               phase := if old(now.phase.Install?) then Finished else Running)
    {
      Record(EraseHead);
    }

    /** log.lh.n = 0 and write_head: the write that empties the log. */
    method WriteHeadErase()
      requires Valid() && (now.phase == Install(|lh|) || now.phase == Recover(|lh|))
      modifies this`cache, this`acts, this`now, this`disk, this`dirty, this`lh
      ensures Valid() && old(acts) <= acts && lh == []
      ensures now.phase == if old(now.phase.Install?) then Finished else Running
      ensures now.committed == old(now.committed)
    {
      var head := Bread(start);
      head := Encode(head, []);
      RecordErase(head);
      lh := [];
      Bwrite(start, head);
    }

    ghost method RecordWrite(p: Pid, b: int, v: Block)
      requires Valid() && IsHome(b) && now.phase == Running && p in now.wrote && |lh| < LOGSIZE - 1
      modifies this`acts, this`now
      ensures Reached(start, boot, acts, now) && Sound(now) && acts == old(acts) + [LogWrite(p, b, v)]
      ensures Enabled(old(now), LogWrite(p, b, v)) && now == Exec(old(now), LogWrite(p, b, v))
      ensures now == old(now).(lh := Absorb(lh, b), cache := cache[b := v], dirty := dirty + {b},
                               wrote := now.wrote, group := now.group)
    {
      Record(LogWrite(p, b, v));
    }

    ghost method RecordEnd(p: Pid)
      requires Valid() && now.phase == Running && p in now.wrote
      modifies this`acts, this`now
      ensures Reached(start, boot, acts, now) && Sound(now) && acts == old(acts) + [EndOp(p)]
      ensures Enabled(old(now), EndOp(p)) && now == Exec(old(now), EndOp(p))
      ensures now.start == start && now.disk == disk && now.cache == cache && now.dirty == dirty && now.lh == lh
      ensures !committing && now.outstanding == outstanding - 1 && now.committing == (outstanding == 1)
      ensures outstanding != 1 ==> now.phase == Running
      ensures outstanding == 1 && lh != [] ==>
                now.phase == CopyLog(0) && now.committed == old(now.committed)
                && now.group == old(now.group) + [Ended(p)]
      ensures outstanding == 1 && lh == [] ==>
                now.phase == Finished && now.committed == old(now.committed) + [old(now.group) + [Ended(p)]]
    {
      Record(EndOp(p));
    }

    ghost method RecordDone()
      requires Valid() && now.phase == Finished
      modifies this`acts, this`now
      ensures Reached(start, boot, acts, now) && Sound(now) && acts == old(acts) + [Done]
      ensures now == old(now).(committing := false, phase := Running)
    {
      Record(Done);
    }

    ghost method RecordInstall(k: nat, v: Block)
      requires Valid() && (now.phase == Install(k) || now.phase == Recover(k))
      requires k < |lh| && v == View(start + 1 + k)
      modifies this`acts, this`now
      ensures Reached(start, boot, acts, now) && Sound(now) && acts == old(acts) + [InstallBlock]
      ensures var to := lh[k];
              now == old(now).(disk := disk[to := v], cache := cache[to := v], dirty := dirty - {to},
                               phase := if old(now.phase.Install?) then Install(k + 1) else Recover(k + 1))
    {
      Record(InstallBlock);
    }

    /** One round of install_trans: a logged block goes home. */
    method InstallOne(tail: nat)
      requires Valid() && (now.phase == Install(tail) || now.phase == Recover(tail)) && tail < |lh|
      modifies this`cache, this`acts, this`now, this`disk, this`dirty
      ensures Valid() && old(acts) <= acts && now.committed == old(now.committed)
      ensures now.phase == if old(now.phase.Install?) then Install(tail + 1) else Recover(tail + 1)
    {
      var lbuf := Bread(start + tail + 1);
      var _ := Bread(lh[tail]);
      RecordInstall(tail, lbuf);
      Bwrite(lh[tail], lbuf);
    }

    /** Copies the logged blocks to their home locations. */
    method InstallTrans()
      requires Valid() && (now.phase == Install(0) || now.phase == Recover(0))
      modifies this`cache, this`acts, this`now, this`disk, this`dirty
      ensures Valid() && old(acts) <= acts && now.committed == old(now.committed)
      ensures now.phase == if old(now.phase.Install?) then Install(|lh|) else Recover(|lh|)
    {
      var tail := 0;
      while tail < |lh|
        invariant 0 <= tail <= |lh| && Valid() && old(acts) <= acts && now.committed == old(now.committed)
        invariant now.phase == if old(now.phase.Install?) then Install(tail) else Recover(tail)
      {
        InstallOne(tail);
        tail := tail + 1;
      }
    }

    /** Commits the open group. Every home block on disk then has the value readers saw before,
        and the log is empty; the group is the one added to the committed groups. */
    method Commit()
      requires Valid() && now.phase == if lh != [] then CopyLog(0) else Finished
      modifies this`cache, this`acts, this`now, this`disk, this`dirty, this`lh
      ensures Valid() && old(acts) <= acts && now.phase == Finished
      ensures now.committed == old(now.committed) + (if old(lh) != [] then [old(now.group)] else [])
      ensures |disk| == old(|disk|) && lh == [] && dirty == {} && Decode(disk[start]) == []
      ensures forall b :: IsHome(b) ==> disk[b] == old(View(b))
    {
      if |lh| > 0 {
        WriteLog();
        WriteHeadCommit();
        InstallTrans();
        WriteHeadErase();
      }
      CommitEffect(start, boot, old(acts), old(now), acts, now);
    }

    /** Power failure and reboot: memory is lost, the disk is not. */
    method PowerCycle()
      requires Valid()
      modifies this`cache, this`acts, this`now, this`dirty, this`lh, this`outstanding, this`committing
      ensures Valid() && old(acts) <= acts && now.phase == Boot && now.committed == old(now.committed)
    {
      Record(Crash);
      cache, dirty, lh, outstanding, committing := map[], {}, [], 0, false;
    }

    /** Reads the header of the disk's log into memory. */
    method ReadHeadFromDisk()
      requires Valid() && now.phase == Boot
      modifies this`cache, this`acts, this`now, this`lh
      ensures Valid() && old(acts) <= acts && now.phase == Recover(0) && now.committed == old(now.committed)
      ensures lh == old(Decode(View(start)))
    {
      var head := Bread(start);
      Record(ReadHead);
      lh := Decode(head);
    }

    /** Recovery at boot. It keeps exactly the groups committed before, and leaves their result
        in every home block on disk. */
    method RecoverFromLog()
      requires Valid() && now.phase == Boot
      modifies this`cache, this`acts, this`now, this`disk, this`dirty, this`lh
      ensures Valid() && old(acts) <= acts && now.phase == Running
      ensures now.committed == old(now.committed)
      ensures DiskShape(start, old(disk)) && |disk| == old(|disk|) && lh == [] && Decode(disk[start]) == []
      ensures forall b :: IsHome(b) ==> disk[b] == Recovered(start, old(disk))[b]
    {
      ReadHeadFromDisk();
      InstallTrans();
      WriteHeadErase();
      RecoveryEffect(start, boot, old(acts), old(now), acts, now);
    }

    /** One pass of begin_op's loop: the operation is admitted, or the caller must sleep. */
    method TryBeginOp(ghost p: Pid) returns (admitted: bool)
      requires Valid() && (now.phase == Running || committing) && p !in now.wrote
      modifies this`acts, this`now, this`outstanding
      ensures Valid() && old(acts) <= acts
      ensures admitted <==> !committing && |lh| + (old(outstanding) + 1) * MAXOPBLOCKS <= LOGSIZE
      ensures admitted <==> !LogAdmission.Refused(LogAdmission.Log(|lh|, old(outstanding), committing))
      ensures if admitted then outstanding == old(outstanding) + 1 && now == Exec(old(now), BeginOp(p))
              else outstanding == old(outstanding) && now == old(now)
    {
      if committing {
        admitted := false;
      } else if |lh| + (outstanding + 1) * MAXOPBLOCKS > LOGSIZE {
        admitted := false;
      } else {
        Record(BeginOp(p));
        outstanding := outstanding + 1;
        admitted := true;
      }
    }

    /** Ends an operation and commits the group if it was the last one in progress. */
    method FinishOp(ghost p: Pid)
      requires Valid() && now.phase == Running && p in now.wrote
      modifies this`cache, this`acts, this`now, this`disk, this`dirty, this`lh, this`outstanding, this`committing
      ensures Valid() && old(acts) <= acts && now.phase == Running && !committing
      ensures outstanding == old(outstanding) - 1
      ensures outstanding > 0 ==> Enabled(old(now), EndOp(p)) && now == Exec(old(now), EndOp(p))
      ensures outstanding == 0 ==>
                && now.committed == old(now.committed) + [old(now.group) + [Ended(p)]]
                && |disk| == old(|disk|) && lh == [] && dirty == {} && Decode(disk[start]) == []
                && (forall b :: IsHome(b) ==> disk[b] == old(View(b)))
    {
      hide Reached, Decode, Encode, Enabled, Exec, Sound;
      RecordEnd(p);
      outstanding := outstanding - 1;
      var doCommit := false;
      if outstanding == 0 {
        doCommit := true;
        committing := true;
      }
      if doCommit {
        Commit();
        RecordDone();
        committing := false;
      }
    }

    /** log_write: pins the modified block and lists it once. */
    method LogWriteBlock(ghost p: Pid, b: int, v: Block) returns (r: LogResult)
      requires Valid() && IsHome(b) && (outstanding >= 1 ==> now.phase == Running && p in now.wrote)
      modifies this`cache, this`acts, this`now, this`dirty, this`lh
      ensures Valid() && old(acts) <= acts
      ensures r.TooBigTransaction? <==> |old(lh)| >= LOGSIZE - 1
      ensures r.OutsideTransaction? <==> |old(lh)| < LOGSIZE - 1 && outstanding < 1
      ensures !r.Logged? ==> now == old(now)
      ensures r.Logged? ==> now == Exec(old(now), LogWrite(p, b, v))
    {
      hide Reached, Decode, Encode, Enabled, Exec, Sound;
      if |lh| >= LOGSIZE || |lh| >= LOGSIZE - 1 {
        return TooBigTransaction;
      }
      if outstanding < 1 {
        return OutsideTransaction;
      }
      var i := 0;
      while i < |lh|
        invariant 0 <= i <= |lh| && b !in lh[..i]
      {
        if lh[i] == b {
          break;
        }
        i := i + 1;
      }
      RecordWrite(p, b, v);
      if i == |lh| {
        lh := lh + [b];
      } else {
        lh := lh[i := b];
      }
      cache, dirty := cache[b := v], dirty + {b};
      r := Logged;
    }
  }
}
