/** Crash safety of the log: the invariant of LogMachine holds in every run, so whatever
    the interleaving and wherever the crash, recovery ends at a group-commit boundary. */
module LogSafety {
  import opened Params
  import opened LogMachine

  // ---------------------------------------------------------------- one step

  lemma BeginKeeps(s: State, p: Pid, base: seq<Block>)
    requires Inv(s, base) && Enabled(s, BeginOp(p))
    ensures Inv(Exec(s, BeginOp(p)), base)
  {
    var t := Exec(s, BeginOp(p));
    assert t.group[..|t.group| - 1] == s.group;
    assert t.wrote.Keys - {p} == s.wrote.Keys;
  }

  /** What a log_write does. */
  lemma WriteFields(s: State, p: Pid, b: int, v: Block)
    requires Enabled(s, LogWrite(p, b, v))
    ensures s.phase == Running && p in s.wrote && s.IsHome(b) && !s.TooBig() && s.start + LOGSIZE <= |s.disk|
    ensures var t := Exec(s, LogWrite(p, b, v));
            t == s.(lh := Absorb(s.lh, b), cache := s.cache[b := v], dirty := s.dirty + {b},
                    wrote := s.wrote[p := s.wrote[p] + {b}], group := s.group + [Wrote(p, b, v)])
  {}

  lemma WriteKeeps(s: State, p: Pid, b: int, v: Block, base: seq<Block>)
    requires Inv(s, base) && Enabled(s, LogWrite(p, b, v))
    ensures Inv(Exec(s, LogWrite(p, b, v)), base)
  {
    hide Exec, Enabled, Replay, Ops, Redo, DiskShape, ListOk, Decode, Absorb;
    WriteFields(s, p, b, v);
    WriteLists(s, p, b, v, base);
    WriteCounts(s, p, b, v);
    WriteReads(s, p, b, v, base);
  }

  lemma WriteLists(s: State, p: Pid, b: int, v: Block, base: seq<Block>)
    requires s.start + LOGSIZE <= |s.disk| && ListOk(s.start, |s.disk|, s.lh) && Pinned(s, 0) && CacheOk(s)
    requires Enabled(s, LogWrite(p, b, v))
    ensures var t := Exec(s, LogWrite(p, b, v)); ListOk(t.start, |t.disk|, t.lh) && Pinned(t, 0) && CacheOk(t)
  {
    hide Exec, Enabled;
    WriteFields(s, p, b, v);
  }

  lemma WriteCounts(s: State, p: Pid, b: int, v: Block)
    requires CountersOk(s) && Enabled(s, LogWrite(p, b, v))
    ensures CountersOk(Exec(s, LogWrite(p, b, v)))
  {
    hide Exec, Enabled;
    WriteFields(s, p, b, v);
    var t := Exec(s, LogWrite(p, b, v));
    assert t.group[..|t.group| - 1] == s.group;
    assert t.wrote.Keys == s.wrote.Keys;
    assert s.wrote != map[];
  }

  lemma WriteReads(s: State, p: Pid, b: int, v: Block, base: seq<Block>)
    requires Reads(s, Replay(base, s.group)) && Enabled(s, LogWrite(p, b, v))
    ensures var t := Exec(s, LogWrite(p, b, v)); Reads(t, Replay(base, t.group))
  {
    hide Exec, Enabled;
    WriteFields(s, p, b, v);
    var t := Exec(s, LogWrite(p, b, v));
    assert t.group[..|t.group| - 1] == s.group;
    var h, k := Replay(base, s.group), Replay(base, t.group);
    forall x | t.IsHome(x)
      ensures t.View(x) == k[x]
    {
      assert s.View(x) == h[x];
    }
  }

  /** What ending an operation does. */
  lemma EndFields(s: State, p: Pid)
    requires Enabled(s, EndOp(p))
    ensures s.phase == Running && !s.committing && p in s.wrote && s.outstanding >= 1 && s.start + LOGSIZE <= |s.disk|
    ensures var t, g := Exec(s, EndOp(p)), s.group + [Ended(p)];
            && t.start == s.start && t.disk == s.disk && t.cache == s.cache && t.dirty == s.dirty && t.lh == s.lh
            && t.wrote == s.wrote - {p} && t.outstanding == s.outstanding - 1 && t.committing == (s.outstanding == 1)
            && (s.outstanding > 1 || s.lh != [] ==> t.group == g && t.committed == s.committed)
            && (s.outstanding == 1 && s.lh == [] ==> t.group == [] && t.committed == s.committed + [g])
            && t.phase == if s.outstanding > 1 then Running else if s.lh != [] then CopyLog(0) else Finished
  {}

  /** Ending an operation, other than committing an empty log. */
  lemma EndKeepsOpen(s: State, p: Pid, base: seq<Block>)
    requires Inv(s, base) && Enabled(s, EndOp(p)) && !(s.outstanding == 1 && s.lh == [])
    ensures Inv(Exec(s, EndOp(p)), base)
  {
    hide Exec, Enabled, Replay, Ops, Redo, DiskShape, ListOk;
    var t := Exec(s, EndOp(p));
    EndFields(s, p);
    EndCounters(s, p);
    GroupEnds(s, p);
    assert Replay(base, t.group) == Replay(base, s.group);
    assert Pinned(t, 0);
  }

  lemma EndCounters(s: State, p: Pid)
    requires CountersOk(s) && Enabled(s, EndOp(p))
    ensures CountersOk(Exec(s, EndOp(p)))
  {
    hide Exec, Enabled, Ops;
    var t := Exec(s, EndOp(p));
    EndFields(s, p);
    GroupEnds(s, p);
    assert t.wrote.Keys + {p} == s.wrote.Keys;
    assert |t.wrote| == |t.wrote.Keys| == |s.wrote.Keys| - 1;
    assert s.outstanding == 1 ==> t.wrote.Keys == {};
    NoneActive(t.wrote);
  }

  lemma NoneActive(w: map<Pid, set<int>>)
    ensures w.Keys == {} ==> w == map[] && Ops([], w.Keys)
  {}

  lemma GroupEnds(s: State, p: Pid)
    requires p in s.wrote && Ops(s.group, s.wrote.Keys)
    ensures var g := s.group + [Ended(p)];
            && Ops(g, (s.wrote - {p}).Keys)
            && (forall h :: Replay(h, g) == Replay(h, s.group))
  {
    var g := s.group + [Ended(p)];
    assert g[..|g| - 1] == s.group;
    assert (s.wrote - {p}).Keys + {p} == s.wrote.Keys;
  }

  lemma NonePinned(s: State)
    requires CacheOk(s) && Pinned(s, |s.lh|)
    ensures s.dirty == {}
  {
    forall b | b in s.cache ensures b !in s.dirty {
    }
  }

  lemma CountersKeep(s: State, a: Action)
    requires CountersOk(s) && Enabled(s, a) && !a.BeginOp? && !a.LogWrite? && !a.EndOp?
    ensures CountersOk(Exec(s, a))
  {
    assert s.wrote == map[] ==> s.wrote.Keys == {};
  }

  /** With nothing logged, every home block on disk already holds the group's final value. */
  lemma EndKeepsEmpty(s: State, p: Pid, home: seq<Block>)
    requires Inv(s, ReplayAll(home, s.committed)) && Enabled(s, EndOp(p))
    requires s.outstanding == 1 && s.lh == []
    ensures var t := Exec(s, EndOp(p)); Inv(t, ReplayAll(home, t.committed))
  {
    hide Exec, Enabled, Replay, Ops, Redo, DiskShape, ListOk;
    var base := ReplayAll(home, s.committed);
    var t := Exec(s, EndOp(p));
    EndFields(s, p);
    GroupEnds(s, p);
    EndCounters(s, p);
    var next := Replay(base, s.group);
    assert ReplayAll(home, t.committed) == next by {
      assert t.committed[..|t.committed| - 1] == s.committed;
    }
    NothingLogged(s, next);
  }

  lemma NothingLogged(s: State, h: seq<Block>)
    requires CacheOk(s) && Pinned(s, 0) && s.lh == [] && Reads(s, h)
    requires DiskShape(s.start, s.disk) && Decode(s.disk[s.start]) == []
    ensures DiskOk(s.start, s.disk, h) && s.dirty == {}
  {
    NonePinned(s);
    forall b | s.IsHome(b) ensures s.disk[b] == h[b] {
      assert s.View(b) == h[b];
    }
    assert Redo(s.start, s.disk, [], h);
  }

  lemma CopyKeeps(s: State, base: seq<Block>)
    requires Inv(s, base) && Enabled(s, CopyBlock)
    ensures Inv(Exec(s, CopyBlock), base)
  {
    var t := Exec(s, CopyBlock);
    PinnedHome(s, base);
    CacheKeeps(s, CopyBlock);
    CountersKeep(s, CopyBlock);
    CopyDiskOk(s.start, s.disk, base, s.start + 1 + s.phase.done, s.View(s.lh[s.phase.done]));
    CopyPhaseOk(s, t, base);
  }

  /** While the header is empty, the rest of the log area is free to change. */
  lemma CopyDiskOk(start: nat, disk: seq<Block>, base: seq<Block>, to: nat, v: Block)
    requires DiskOk(start, disk, base) && Decode(disk[start]) == [] && start < to < start + LOGSIZE
    ensures DiskOk(start, disk[to := v], base) && Decode(disk[to := v][start]) == []
  {
    assert disk[to := v][start] == disk[start];
    assert Redo(start, disk[to := v], [], base);
  }

  lemma CopyPhaseOk(s: State, t: State, base: seq<Block>)
    requires Enabled(s, CopyBlock) && t == Exec(s, CopyBlock) && ListOk(s.start, |s.disk|, s.lh)
    requires DiskOk(s.start, s.disk, base) && PhaseOk(s, base) && CacheOk(s)
    requires DiskOk(t.start, t.disk, base) && Decode(t.disk[t.start]) == []
    ensures PhaseOk(t, base)
  {
    CopyViews(s, t);
    var h := Replay(base, s.group);
    forall b | s.IsHome(b) ensures t.View(b) == h[b] {
      assert s.View(b) == h[b];
    }
    assert Reads(t, h);
    assert Pinned(t, 0);
  }

  lemma CopyViews(s: State, t: State)
    requires Enabled(s, CopyBlock) && t == Exec(s, CopyBlock) && ListOk(s.start, |s.disk|, s.lh)
    requires forall i {:trigger LogBlock(s.start, s.disk, i)} :: 0 <= i < s.phase.done ==>
               LogBlock(s.start, s.disk, i) == s.View(s.lh[i])
    ensures forall b {:trigger t.View(b)} :: s.IsHome(b) ==> t.View(b) == s.View(b)
    ensures forall i {:trigger LogBlock(t.start, t.disk, i)} :: 0 <= i < t.phase.done ==>
              LogBlock(t.start, t.disk, i) == t.View(t.lh[i])
  {
    forall i | 0 <= i < t.phase.done ensures LogBlock(t.start, t.disk, i) == t.View(t.lh[i]) {
      assert s.IsHome(s.lh[i]);
      if i < s.phase.done {
        assert LogBlock(s.start, s.disk, i) == s.View(s.lh[i]);
      }
    }
  }

  /** Writing the header turns a fully copied log into the committed state. */
  lemma HeadCommits(start: nat, disk: seq<Block>, lh: seq<int>, head: Block, base: seq<Block>, next: seq<Block>)
    requires DiskOk(start, disk, base) && Decode(disk[start]) == []
    requires |next| == |disk| && ListOk(start, |disk|, lh) && Decode(head) == lh && CountOk(head)
    requires Redo(start, disk, lh, next)
    ensures DiskOk(start, disk[start := head], next)
  {
    var d := disk[start := head];
    forall i | 0 <= i < |lh| ensures LogBlock(start, d, i) == next[lh[i]] {
      assert LogBlock(start, disk, i) == next[lh[i]];
    }
  }

  /** Once every listed block is in the log, the log redoes the group. */
  lemma CopiedRedoes(s: State, base: seq<Block>)
    requires Inv(s, base) && s.phase == CopyLog(|s.lh|)
    ensures Redo(s.start, s.disk, s.lh, Replay(base, s.group))
  {
    var next := Replay(base, s.group);
    forall i | 0 <= i < |s.lh| ensures LogBlock(s.start, s.disk, i) == next[s.lh[i]] {
      assert s.IsHome(s.lh[i]);
    }
    forall b | s.IsHome(b) && b !in s.lh ensures s.disk[b] == next[b] {
      assert b !in s.dirty;
    }
  }

  lemma WriteHeadKeeps(s: State, home: seq<Block>)
    requires Inv(s, ReplayAll(home, s.committed)) && Enabled(s, WriteHead)
    ensures var t := Exec(s, WriteHead); Inv(t, ReplayAll(home, t.committed))
  {
    hide Inv, Enabled, Exec, Replay;
    HeadWritten(s, ReplayAll(home, s.committed));
    assert (s.committed + [s.group])[..|s.committed|] == s.committed;
  }

  /** The header write commits the open group. */
  lemma HeadWritten(s: State, base: seq<Block>)
    requires Inv(s, base) && Enabled(s, WriteHead)
    ensures Exec(s, WriteHead).committed == s.committed + [s.group]
    ensures Inv(Exec(s, WriteHead), Replay(base, s.group))
  {
    hide Decode, Encode, CacheOk, CountersOk, Replay, Redo, Reads, Pinned;
    var next := Replay(base, s.group);
    CopiedRedoes(s, base);
    DecodeEncode(s.View(s.start), s.lh);
    HeadCommits(s.start, s.disk, s.lh, Encode(s.View(s.start), s.lh), base, next);
    PinnedHome(s, base);
    CacheKeeps(s, WriteHead);
    CountersKeep(s, WriteHead);
    CommitReads(s, next);
  }

  lemma CommitReads(s: State, h: seq<Block>)
    requires Enabled(s, WriteHead) && ListOk(s.start, |s.disk|, s.lh) && Reads(s, h) && Pinned(s, 0)
    requires forall b :: b in s.dirty ==> s.IsHome(b)
    ensures Reads(Exec(s, WriteHead), h) && Pinned(Exec(s, WriteHead), 0)
  {
    var t, next := Exec(s, WriteHead), h;
    forall b | s.IsHome(b) ensures t.View(b) == next[b] {
      assert t.View(b) == s.View(b);
    }
  }

  lemma InstallRedoes(start: nat, disk: seq<Block>, lh: seq<int>, base: seq<Block>, k: nat)
    requires start + LOGSIZE <= |disk| == |base| && ListOk(start, |disk|, lh) && k < |lh|
    requires Redo(start, disk, lh, base)
    ensures Redo(start, disk[lh[k] := LogBlock(start, disk, k)], lh, base)
    ensures LogBlock(start, disk, k) == base[lh[k]]
  {
    var d := disk[lh[k] := LogBlock(start, disk, k)];
    forall i | 0 <= i < |lh| ensures LogBlock(start, d, i) == base[lh[i]] {
      assert LogBlock(start, disk, i) == base[lh[i]];
    }
  }

  lemma InstallKeeps(s: State, base: seq<Block>)
    requires Inv(s, base) && Enabled(s, InstallBlock)
    ensures Inv(Exec(s, InstallBlock), base)
  {
    var t := Exec(s, InstallBlock);
    PinnedHome(s, base);
    CacheKeeps(s, InstallBlock);
    CountersKeep(s, InstallBlock);
    InstallDiskOk(s, base);
    InstallPhaseOk(s, t, base);
  }

  /** An install write copies the block it ought to. */
  ghost predicate InstallsRight(s: State, base: seq<Block>)
    requires Enabled(s, InstallBlock) && |base| == |s.disk|
  {
    && s.View(s.start + 1 + s.phase.done) == base[s.lh[s.phase.done]]
    && DiskOk(s.start, Exec(s, InstallBlock).disk, base)
  }

  lemma InstallDiskOk(s: State, base: seq<Block>)
    requires Enabled(s, InstallBlock) && ListOk(s.start, |s.disk|, s.lh) && CacheOk(s)
    requires DiskOk(s.start, s.disk, base) && Decode(s.disk[s.start]) == s.lh
    requires forall b :: b in s.dirty ==> s.IsHome(b)
    ensures InstallsRight(s, base)
  {
    var k := s.phase.done;
    assert s.View(s.start + 1 + k) == LogBlock(s.start, s.disk, k);
    InstallRedoes(s.start, s.disk, s.lh, base, k);
    assert Exec(s, InstallBlock).disk[s.start] == s.disk[s.start];
  }

  lemma InstallPhaseOk(s: State, t: State, base: seq<Block>)
    requires Enabled(s, InstallBlock) && t == Exec(s, InstallBlock) && ListOk(s.start, |s.disk|, s.lh)
    requires DiskOk(s.start, s.disk, base) && PhaseOk(s, base) && DiskOk(t.start, t.disk, base)
    requires forall b :: b in s.dirty ==> s.IsHome(b)
    requires s.View(s.start + 1 + s.phase.done) == base[s.lh[s.phase.done]]
    ensures PhaseOk(t, base)
  {
    assert t.disk[s.start] == s.disk[s.start];
    InstalledSoFar(s, base);
    if s.phase.Install? {
      InstallReads(s, base);
    }
  }

  lemma InstalledSoFar(s: State, base: seq<Block>)
    requires Enabled(s, InstallBlock) && ListOk(s.start, |s.disk|, s.lh) && |base| == |s.disk|
    requires s.View(s.start + 1 + s.phase.done) == base[s.lh[s.phase.done]]
    requires forall i {:trigger s.disk[s.lh[i]]} :: 0 <= i < s.phase.done ==> s.disk[s.lh[i]] == base[s.lh[i]]
    ensures var t := Exec(s, InstallBlock);
            forall i {:trigger t.disk[t.lh[i]]} :: 0 <= i < t.phase.done ==> t.disk[t.lh[i]] == base[t.lh[i]]
  {
    var t := Exec(s, InstallBlock);
    forall i | 0 <= i < t.phase.done ensures t.disk[t.lh[i]] == base[t.lh[i]] {
      if i < s.phase.done {
        assert s.disk[s.lh[i]] == base[s.lh[i]];
      }
    }
  }

  lemma InstallReads(s: State, base: seq<Block>)
    requires Enabled(s, InstallBlock) && ListOk(s.start, |s.disk|, s.lh)
    requires s.phase.Install? && Pinned(s, s.phase.done) && Reads(s, base)
    requires s.View(s.start + 1 + s.phase.done) == base[s.lh[s.phase.done]]
    requires forall b :: b in s.dirty ==> s.IsHome(b)
    ensures var t := Exec(s, InstallBlock); Reads(t, base) && Pinned(t, t.phase.done)
  {
    var t := Exec(s, InstallBlock);
    forall b | s.IsHome(b) ensures t.View(b) == base[b] {
      assert s.View(b) == base[b];
    }
  }

  /** Only home blocks are ever pinned. */
  lemma PinnedHome(s: State, base: seq<Block>)
    requires Inv(s, base)
    ensures forall b :: b in s.dirty ==> s.IsHome(b)
  {
    forall b | b in s.cache ensures b in s.dirty ==> s.IsHome(b) {
    }
  }

  lemma CacheKeeps(s: State, a: Action)
    requires CacheOk(s) && Enabled(s, a) && (a.CopyBlock? || a.WriteHead? || a.InstallBlock? || a.EraseHead?)
    requires ListOk(s.start, |s.disk|, s.lh) && (forall b :: b in s.dirty ==> s.IsHome(b))
    ensures CacheOk(Exec(s, a))
  {
  }

  lemma EraseDiskOk(start: nat, disk: seq<Block>, base: seq<Block>, head: Block)
    requires DiskOk(start, disk, base) && Decode(head) == [] && CountOk(head)
    requires forall i {:trigger disk[Decode(disk[start])[i]]} :: 0 <= i < |Decode(disk[start])| ==>
               disk[Decode(disk[start])[i]] == base[Decode(disk[start])[i]]
    ensures DiskOk(start, disk[start := head], base)
    ensures forall b {:trigger base[b]} :: 0 <= b < |disk| && !(start <= b < start + LOGSIZE) ==> disk[b] == base[b]
  {
    forall b | 0 <= b < |disk| && !(start <= b < start + LOGSIZE) ensures disk[b] == base[b] {
      if b in Decode(disk[start]) {
        var i :| 0 <= i < |Decode(disk[start])| && Decode(disk[start])[i] == b;
      }
    }
  }

  lemma EraseKeeps(s: State, base: seq<Block>)
    requires Inv(s, base) && Enabled(s, EraseHead)
    ensures Inv(Exec(s, EraseHead), base)
  {
    hide Decode, Encode, CacheOk, DiskOk;
    var t := Exec(s, EraseHead);
    DecodeEncode(s.View(s.start), []);
    PinnedHome(s, base);
    EraseDiskOk(s.start, s.disk, base, Encode(s.View(s.start), []));
    if s.phase.Install? {
      NonePinned(s);
    }
    CacheKeeps(s, EraseHead);
    CountersKeep(s, EraseHead);
  }

  lemma CrashKeeps(s: State, base: seq<Block>)
    requires Inv(s, base)
    requires Enabled(s, Crash)
    ensures Inv(Exec(s, Crash), base)
  {
  }

  lemma FillKeeps(s: State, a: Action, base: seq<Block>)
    requires Inv(s, base) && Enabled(s, a) && (a.Fill? || a.Evict?)
    ensures Inv(Exec(s, a), base)
  {
    FillViews(s, a);
    FillPhaseOk(s, Exec(s, a), base);
  }

  lemma FillViews(s: State, a: Action)
    requires Enabled(s, a) && CacheOk(s) && (a.Fill? || a.Evict?)
    ensures var t := Exec(s, a);
            && CacheOk(t)
            && (forall b {:trigger t.View(b)} :: s.InDisk(b) ==> t.View(b) == s.View(b))
  {
  }

  lemma FillPhaseOk(s: State, t: State, base: seq<Block>)
    requires DiskOk(s.start, s.disk, base) && ListOk(s.start, |s.disk|, s.lh) && PhaseOk(s, base)
    requires CacheOk(s) && CacheOk(t) && t == s.(cache := t.cache)
    requires forall b {:trigger t.View(b)} :: s.InDisk(b) ==> t.View(b) == s.View(b)
    ensures PhaseOk(t, base)
  {
    forall k: nat ensures Pinned(s, k) ==> Pinned(t, k) {
      forall b | Pinned(s, k) && b in t.cache ensures b in t.dirty ==> b in t.lh {
        assert b in s.dirty ==> b in s.cache;
      }
    }
    forall h ensures Reads(s, h) ==> Reads(t, h) {
    }
  }

  lemma QuietKeeps(s: State, a: Action, base: seq<Block>)
    requires Inv(s, base) && Enabled(s, a) && (a.Done? || a.ReadHead?)
    ensures Inv(Exec(s, a), base)
  {
    var t := Exec(s, a);
    assert s.dirty == {};
    assert CacheOk(t);
    assert CountersOk(t);
  }

  lemma StepKeeps(s: State, a: Action, home: seq<Block>)
    requires Inv(s, ReplayAll(home, s.committed)) && Enabled(s, a)
    ensures var t := Exec(s, a); Inv(t, ReplayAll(home, t.committed)) && t.start == s.start
  {
    hide Replay, Ops, Redo, DiskShape, ListOk;
    var base := ReplayAll(home, s.committed);
    match a
    case BeginOp(p) => BeginKeeps(s, p, base);
    case LogWrite(p, b, v) => WriteKeeps(s, p, b, v, base);
    case EndOp(p) =>
      if s.outstanding == 1 && s.lh == [] {
        EndKeepsEmpty(s, p, home);
      } else {
        EndKeepsOpen(s, p, base);
      }
    case CopyBlock => CopyKeeps(s, base);
    case WriteHead => WriteHeadKeeps(s, home);
    case InstallBlock => InstallKeeps(s, base);
    case EraseHead => EraseKeeps(s, base);
    case Crash => CrashKeeps(s, base);
    case Fill(_) => FillKeeps(s, a, base);
    case Evict(_) => FillKeeps(s, a, base);
    case _ => QuietKeeps(s, a, base);
  }

  // ---------------------------------------------------------------- every run

  lemma InitOk(start: nat, disk: seq<Block>)
    requires DiskShape(start, disk)
    ensures Inv(Init(start, disk), Recovered(start, disk))
  {
    var lh := Decode(disk[start]);
    var home := Recovered(start, disk);
    forall i | 0 <= i < |lh| ensures LogBlock(start, disk, i) == home[lh[i]] {
      RecoveredAt(start, disk);
    }
    forall b | 0 <= b < |disk| && !(start <= b < start + LOGSIZE) && b !in lh ensures disk[b] == home[b] {
      RecoveredAt(start, disk);
    }
    assert Redo(start, disk, lh, home);
  }

  lemma {:induction false} InvHolds(start: nat, disk: seq<Block>, acts: seq<Action>)
    requires DiskShape(start, disk) && Runs(Init(start, disk), acts)
    ensures var s := After(Init(start, disk), acts);
            Inv(s, ReplayAll(Recovered(start, disk), s.committed))
    ensures After(Init(start, disk), acts).start == start
    decreases |acts|
  {
    hide Inv, Enabled, Exec, Recovered, DiskShape;
    if acts == [] {
      InitOk(start, disk);
      assert Init(start, disk).committed == [];
    } else {
      var pre := acts[..|acts| - 1];
      InvHolds(start, disk, pre);
      StepKeeps(After(Init(start, disk), pre), acts[|acts| - 1], Recovered(start, disk));
    }
  }

  lemma RecoveredIsBase(start: nat, disk: seq<Block>, base: seq<Block>)
    requires DiskOk(start, disk, base)
    ensures |base| == |disk| && DiskShape(start, disk)
    ensures forall b {:trigger base[b]} :: 0 <= b < |disk| && !(start <= b < start + LOGSIZE) ==>
              Recovered(start, disk)[b] == base[b]
  {
    forall b | 0 <= b < |disk| && !(start <= b < start + LOGSIZE)
      ensures Recovered(start, disk)[b] == base[b]
    {
      RecoveredHome(start, disk, base, b);
    }
  }

  lemma RecoveredHome(start: nat, disk: seq<Block>, base: seq<Block>, b: int)
    requires DiskOk(start, disk, base) && 0 <= b < |disk| && !(start <= b < start + LOGSIZE)
    ensures Recovered(start, disk)[b] == base[b]
  {
    hide Decode, Encode, Installed, Recovered;
    var lh := Decode(disk[start]);
    RecoveredAt(start, disk);
    if b in lh {
      var i :| 0 <= i < |lh| && lh[i] == b;
      assert LogBlock(start, disk, i) == base[lh[i]];
    }
  }

  /** Crash safety of whole runs. After any interleaving of operations, commits, cache traffic,
      crashes and (interrupted) recoveries, a crash now followed by recovery leaves in every
      home block the result of replaying, in order, all groups committed so far and nothing
      else; and every group consists of whole operations. */
  lemma CrashSafety(start: nat, disk: seq<Block>, acts: seq<Action>)
    requires DiskShape(start, disk) && Runs(Init(start, disk), acts)
    ensures var s := After(Init(start, disk), acts);
            var home := ReplayAll(Recovered(start, disk), s.committed);
            && s.start == start && |s.disk| == |home| && DiskShape(start, s.disk)
            && (forall b {:trigger home[b]} :: s.IsHome(b) ==> Recovered(start, s.disk)[b] == home[b])
            && (forall g :: g in s.committed ==> Whole(g))
  {
    hide Exec, Enabled, Recovered, Runs, Redo, PhaseOk, CacheOk, ListOk, ReplayAll;
    InvHolds(start, disk, acts);
    var s := After(Init(start, disk), acts);
    RecoveredIsBase(start, s.disk, ReplayAll(Recovered(start, disk), s.committed));
  }

  /** Whenever operations may run, reading a home block gives the value left by all committed
      groups and all writes of the open group, committed to disk or not. */
  lemma ReadsAreLatest(start: nat, disk: seq<Block>, acts: seq<Action>, b: int)
    requires DiskShape(start, disk) && Runs(Init(start, disk), acts)
    requires var s := After(Init(start, disk), acts); s.phase == Running && s.IsHome(b)
    ensures var s := After(Init(start, disk), acts);
            var h := Replay(ReplayAll(Recovered(start, disk), s.committed), s.group);
            b < |h| && s.View(b) == h[b]
  {
    InvHolds(start, disk, acts);
  }

  /** When no operation and no commit is under way the log is empty on disk and in memory, and
      the home blocks on disk are up to date: a clean shutdown needs no recovery. */
  lemma QuiescentDisk(start: nat, disk: seq<Block>, acts: seq<Action>)
    requires DiskShape(start, disk) && Runs(Init(start, disk), acts)
    requires var s := After(Init(start, disk), acts); s.phase == Running && s.outstanding == 0
    ensures var s := After(Init(start, disk), acts);
            var home := ReplayAll(Recovered(start, disk), s.committed);
            && s.start == start && s.lh == [] && s.dirty == {}
            && start < |s.disk| == |home| && Decode(s.disk[start]) == []
            && (forall b {:trigger home[b]} :: s.IsHome(b) ==> s.disk[b] == home[b])
  {
    InvHolds(start, disk, acts);
    NonePinned(After(Init(start, disk), acts));
  }

  // ---------------------------------------------------------------- history is the run

  function EventOf(a: Action): seq<Event> {
    match a
    case BeginOp(p) => [Began(p)]
    case LogWrite(p, b, v) => [Wrote(p, b, v)]
    case EndOp(p) => [Ended(p)]
    case _ => []
  }

  function EventsOf(acts: seq<Action>): seq<Event> {
    if acts == [] then [] else EventsOf(acts[..|acts| - 1]) + EventOf(acts[|acts| - 1])
  }

  function Flat(gs: seq<seq<Event>>): seq<Event> {
    if gs == [] then [] else Flat(gs[..|gs| - 1]) + gs[|gs| - 1]
  }

  lemma FlatSnoc(gs: seq<seq<Event>>, g: seq<Event>)
    ensures Flat(gs + [g]) == Flat(gs) + g
  {
    assert (gs + [g])[..|gs|] == gs;
  }

  /** What has happened and not been lost: the committed groups, then the open group. */
  function History(s: State): seq<Event> {
    Flat(s.committed) + s.group
  }

  lemma StepRecordsEvent(s: State, a: Action)
    requires Enabled(s, a) && a != Crash
    ensures History(Exec(s, a)) == History(s) + EventOf(a)
  {
    FlatSnoc(s.committed, s.group + EventOf(a));
    assert EventOf(a) == [] ==> s.group + EventOf(a) == s.group;
    assert Flat(s.committed) + (s.group + EventOf(a)) == Flat(s.committed) + s.group + EventOf(a);
  }

  /** From any point of any run until the next crash, the committed groups and the open group
      gain exactly the operations' events, in the order they happened. */
  lemma {:induction false} HistoryIsRun(i: State, before: seq<Action>, acts: seq<Action>)
    requires Runs(i, before + acts) && Crash !in acts
    ensures Runs(i, before)
    ensures History(After(i, before + acts)) == History(After(i, before)) + EventsOf(acts)
    decreases |acts|
  {
    hide Exec, Enabled, History, EventOf;
    if acts == [] {
      assert before + acts == before;
    } else {
      var pre, a := acts[..|acts| - 1], acts[|acts| - 1];
      assert (before + acts)[..|before + acts| - 1] == before + pre;
      HistoryIsRun(i, before, pre);
      StepRecordsEvent(After(i, before + pre), a);
    }
  }

  /** A crash loses the open group and nothing else of the history, so what HistoryIsRun says of
      the next boot is about its operations alone. */
  lemma CrashHistory(i: State, before: seq<Action>, acts: seq<Action>)
    requires Runs(i, before + [Crash] + acts) && Crash !in acts
    ensures Runs(i, before)
    ensures History(After(i, before + [Crash] + acts)) == Flat(After(i, before).committed) + EventsOf(acts)
  {
    hide History, EventsOf, Flat, Exec, Enabled;
    HistoryIsRun(i, before + [Crash], acts);
    RunsBefore(i, before, Crash);
    CrashForgets(After(i, before));
  }

  lemma RunsBefore(i: State, acts: seq<Action>, a: Action)
    requires Runs(i, acts + [a])
    ensures Runs(i, acts) && Enabled(After(i, acts), a) && After(i, acts + [a]) == Exec(After(i, acts), a)
  {
    hide Exec, Enabled;
    assert (acts + [a])[..|acts|] == acts;
  }

  lemma CrashForgets(s: State)
    requires Enabled(s, Crash)
    ensures History(Exec(s, Crash)) == Flat(s.committed)
  {}

  lemma CommittedStep(s: State, a: Action)
    requires Enabled(s, a)
    ensures s.committed <= Exec(s, a).committed
  {}

  lemma {:induction false} CommittedGrows(s: State, acts: seq<Action>, more: seq<Action>)
    requires Runs(s, acts + more)
    ensures Runs(s, acts)
    ensures After(s, acts).committed <= After(s, acts + more).committed
    decreases |more|
  {
    hide Exec, Enabled;
    if more == [] {
      assert acts + more == acts;
    } else {
      var pre := more[..|more| - 1];
      assert (acts + more)[..|acts + more| - 1] == acts + pre;
      CommittedGrows(s, acts, pre);
      CommittedStep(After(s, acts + pre), more[|more| - 1]);
    }
  }

  /** Durability, in any boot: once the open group is empty, everything done since `before` and
      everything kept until then survives whatever follows, crashes included. */
  lemma Durable(i: State, before: seq<Action>, acts: seq<Action>, more: seq<Action>)
    requires Runs(i, before + acts + more) && Crash !in acts
    requires Runs(i, before) && Runs(i, before + acts) && After(i, before + acts).group == []
    ensures var s, kept := After(i, before), After(i, before + acts).committed;
            && Flat(kept) == History(s) + EventsOf(acts)
            && kept <= After(i, before + acts + more).committed
  {
    HistoryIsRun(i, before, acts);
    CommittedGrows(i, before + acts, more);
  }

  /** A crash anywhere inside a stretch of steps that commits one group leaves, after recovery,
      either all home blocks as before the group or all as after it. */
  lemma AllOldOrAllNew(start: nat, disk: seq<Block>, acts: seq<Action>, more: seq<Action>, g: seq<Event>, k: nat)
    requires DiskShape(start, disk) && Runs(Init(start, disk), acts + more) && Runs(Init(start, disk), acts)
    requires After(Init(start, disk), acts + more).committed == After(Init(start, disk), acts).committed + [g]
    requires k <= |more| && Runs(Init(start, disk), acts + more[..k])
    ensures var s := After(Init(start, disk), acts + more[..k]);
            var before := ReplayAll(Recovered(start, disk), After(Init(start, disk), acts).committed);
            && DiskShape(start, s.disk) && |s.disk| == |before|
            && ((forall b {:trigger before[b]} :: s.IsHome(b) ==> Recovered(start, s.disk)[b] == before[b]) ||
                (forall b {:trigger Replay(before, g)[b]} :: s.IsHome(b) ==>
                   Recovered(start, s.disk)[b] == Replay(before, g)[b]))
  {
    hide Exec, Enabled, DiskShape, Recovered, Replay, ReplayAll, Init;
    var i := Init(start, disk);
    assert (acts + more[..k]) + more[k..] == acts + more;
    CommittedGrows(i, acts, more[..k]);
    CommittedGrows(i, acts + more[..k], more[k..]);
    CrashSafety(start, disk, acts + more[..k]);
    var cs, mid := After(i, acts).committed, After(i, acts + more[..k]).committed;
    assert mid == cs || mid == cs + [g];
    ReplayOne(Recovered(start, disk), cs, g);
  }

  lemma ReplayOne(h: seq<Block>, gs: seq<seq<Event>>, g: seq<Event>)
    ensures ReplayAll(h, gs + [g]) == Replay(ReplayAll(h, gs), g)
  {
    assert (gs + [g])[..|gs|] == gs;
  }

  // ---------------------------------------------------------------- runs as state sequences

  /** `trail` lists the states that the actions pass through. */
  ghost predicate IsTrail(start: nat, disk: seq<Block>, acts: seq<Action>, trail: seq<State>) {
    && |trail| == |acts| + 1 && trail[0] == Init(start, disk)
    && (forall k {:trigger acts[k]} :: 0 <= k < |acts| ==>
         Enabled(trail[k], acts[k]) && trail[k + 1] == Exec(trail[k], acts[k]))
  }

  /** Booting from `disk` and taking `acts` is possible and leads to `s`. */
  ghost predicate Reached(start: nat, disk: seq<Block>, acts: seq<Action>, s: State) {
    DiskShape(start, disk) && exists trail :: IsTrail(start, disk, acts, trail) && trail[|acts|] == s
  }

  lemma {:induction false} TrailRuns(start: nat, disk: seq<Block>, acts: seq<Action>, trail: seq<State>)
    requires IsTrail(start, disk, acts, trail)
    ensures Runs(Init(start, disk), acts) && After(Init(start, disk), acts) == trail[|acts|]
    decreases |acts|
  {
    if acts != [] {
      var pre := acts[..|acts| - 1];
      forall k | 0 <= k < |pre|
        ensures Enabled(trail[k], pre[k]) && trail[k + 1] == Exec(trail[k], pre[k])
      {
        assert pre[k] == acts[k];
      }
      TrailRuns(start, disk, pre, trail[..|acts|]);
      assert Enabled(trail[|pre|], acts[|pre|]);
    }
  }

  /** Reachability through state sequences is the running relation the theorems are about. */
  lemma ReachedRuns(start: nat, disk: seq<Block>, acts: seq<Action>, s: State)
    requires Reached(start, disk, acts, s)
    ensures DiskShape(start, disk) && Runs(Init(start, disk), acts) && After(Init(start, disk), acts) == s
  {
    var trail :| IsTrail(start, disk, acts, trail) && trail[|acts|] == s;
    TrailRuns(start, disk, acts, trail);
  }

  lemma ReachedSnoc(start: nat, disk: seq<Block>, acts: seq<Action>, s: State, a: Action)
    requires Reached(start, disk, acts, s) && Enabled(s, a)
    ensures Reached(start, disk, acts + [a], Exec(s, a))
  {
    var trail :| IsTrail(start, disk, acts, trail) && trail[|acts|] == s;
    var longer := trail + [Exec(s, a)];
    forall k | 0 <= k < |acts + [a]|
      ensures Enabled(longer[k], (acts + [a])[k]) && longer[k + 1] == Exec(longer[k], (acts + [a])[k])
    {
      if k < |acts| {
        assert (acts + [a])[k] == acts[k];
      }
    }
    assert IsTrail(start, disk, acts + [a], longer);
  }
}
