/** The write-ahead redo log of the file system (log.c) as a machine whose atomic
    steps are single disk-block writes, so that a crash may fall between any two of them.

    The log area is the LOGSIZE blocks from `start`: one header block, then data blocks.
    All other blocks are home blocks. */
module LogMachine {
  import opened Params

  const BLOCKWORDS: nat := 128  // BSIZE / sizeof(int)

  /** A disk block as 32-bit words; the header is word 0 (the count) and the words after it. */
  type Block = b: seq<int> | |b| == BLOCKWORDS witness seq(BLOCKWORDS, _ => 0)

  type Pid = nat

  // What a file-system operation does to the log, kept as history.
  datatype Event = Began(p: Pid) | Wrote(p: Pid, b: int, v: Block) | Ended(p: Pid)

  datatype Phase =
    | Boot                  // after power-up, before the header is read
    | Recover(done: nat)    // install_trans during recovery, `done` blocks copied
    | Running               // operations may begin, write and end
    | CopyLog(done: nat)    // write_log during commit
    | Install(done: nat)    // install_trans during commit
    | Finished              // commit() has returned, log.committing still set

  datatype State = State(
    start: nat,                 // log.start
    disk: seq<Block>,
    cache: map<int, Block>,     // valid buffers of the buffer cache
    dirty: set<int>,            // those pinned by B_DIRTY
    lh: seq<int>,               // log.lh.block[0..log.lh.n]
    outstanding: nat,           // log.outstanding
    committing: bool,           // log.committing
    phase: Phase,
    // History: distinct blocks written by each operation in progress, the events of the
    // group not yet committed, and the committed groups in order.
    wrote: map<Pid, set<int>>,
    group: seq<Event>,
    committed: seq<seq<Event>>)
  {
    predicate IsHome(b: int) {
      0 <= b < |disk| && !(start <= b < start + LOGSIZE)
    }

    predicate InDisk(b: int) {
      0 <= b < |disk|
    }

    /** What bread returns: the buffer if there is one, else the disk block. */
    function View(b: int): Block
      requires InDisk(b)
    {
      if b in cache then cache[b] else disk[b]
    }

    /** The test at the head of log_write. */
    predicate TooBig() {
      |lh| >= LOGSIZE || |lh| >= LOGSIZE - 1
    }
  }

  datatype Action =
    | BeginOp(p: Pid)
    | LogWrite(p: Pid, b: int, v: Block)
    | EndOp(p: Pid)
    | CopyBlock                 // one bwrite of write_log
    | WriteHead                 // the bwrite that commits
    | InstallBlock              // one bwrite of install_trans
    | EraseHead                 // the bwrite that empties the header
    | Done                      // log.committing := 0
    | Fill(b: int)              // a block enters the cache
    | Evict(b: int)             // a buffer that is not pinned is recycled
    | Crash
    | ReadHead

  // ---------------------------------------------------------------- header format

  function Encode(b: Block, lh: seq<int>): Block
    requires |lh| < BLOCKWORDS
  {
    [|lh|] + lh + b[1 + |lh|..]
  }

  /** A header whose count is one that read_head can copy. */
  predicate CountOk(b: Block) {
    0 <= b[0] < BLOCKWORDS
  }

  /** The block numbers listed by a header; empty when the count is out of range. */
  function Decode(b: Block): seq<int> {
    if CountOk(b) then seq(b[0], i requires 0 <= i < b[0] => b[1 + i]) else []
  }

  lemma DecodeEncode(b: Block, lh: seq<int>)
    requires |lh| < BLOCKWORDS
    ensures CountOk(Encode(b, lh)) && Decode(Encode(b, lh)) == lh
  {
  }

  // ---------------------------------------------------------------- recovery

  ghost predicate ListOk(start: nat, size: nat, lh: seq<int>) {
    && |lh| < LOGSIZE
    && (forall i :: 0 <= i < |lh| ==> 0 <= lh[i] < size && !(start <= lh[i] < start + LOGSIZE))
    && (forall i, j :: 0 <= i < j < |lh| ==> lh[i] != lh[j])
  }

  ghost predicate DiskShape(start: nat, disk: seq<Block>) {
    && start + LOGSIZE <= |disk| && CountOk(disk[start])
    && ListOk(start, |disk|, Decode(disk[start]))
  }

  /** The disk after install_trans has copied the first k logged blocks home. */
  ghost function Installed(start: nat, disk: seq<Block>, lh: seq<int>, k: nat): (r: seq<Block>)
    requires start + LOGSIZE <= |disk| && ListOk(start, |disk|, lh) && k <= |lh|
    ensures |r| == |disk|
  {
    if k == 0 then disk
    else
      var d := Installed(start, disk, lh, k - 1);
      d[lh[k - 1] := d[start + k]]
  }

  /** The disk after a whole, uninterrupted recover_from_log. */
  ghost function Recovered(start: nat, disk: seq<Block>): (r: seq<Block>)
    requires DiskShape(start, disk)
    ensures |r| == |disk|
  {
    var lh := Decode(disk[start]);
    var d := Installed(start, disk, lh, |lh|);
    d[start := Encode(d[start], [])]
  }

  lemma {:induction false} InstalledOther(start: nat, disk: seq<Block>, lh: seq<int>, k: nat, b: nat)
    requires start + LOGSIZE <= |disk| && ListOk(start, |disk|, lh) && k <= |lh|
    requires b < |disk| && (forall i :: 0 <= i < k ==> lh[i] != b)
    ensures Installed(start, disk, lh, k)[b] == disk[b]
  {
    if k > 0 {
      InstalledOther(start, disk, lh, k - 1, b);
    }
  }

  lemma {:induction false} InstalledListed(start: nat, disk: seq<Block>, lh: seq<int>, k: nat, i: nat)
    requires start + LOGSIZE <= |disk| && ListOk(start, |disk|, lh) && i < k <= |lh|
    ensures Installed(start, disk, lh, k)[lh[i]] == disk[start + 1 + i]
  {
    if i < k - 1 {
      InstalledListed(start, disk, lh, k - 1, i);
    } else {
      InstalledOther(start, disk, lh, k - 1, start + k);
    }
  }

  /** Recovery puts each listed block's logged copy home, empties the header, and leaves
      every other block alone. */
  lemma RecoveredAt(start: nat, disk: seq<Block>)
    requires DiskShape(start, disk)
    ensures var lh := Decode(disk[start]); var r := Recovered(start, disk);
            && (forall i :: 0 <= i < |lh| ==> r[lh[i]] == disk[start + 1 + i])
            && (forall b :: 0 <= b < |disk| && b != start && b !in lh ==> r[b] == disk[b])
            && r[start] == Encode(disk[start], [])
  {
    var lh := Decode(disk[start]);
    forall i | 0 <= i < |lh| ensures Recovered(start, disk)[lh[i]] == disk[start + 1 + i] {
      InstalledListed(start, disk, lh, |lh|, i);
    }
    forall b | 0 <= b < |disk| && b !in lh
      ensures Installed(start, disk, lh, |lh|)[b] == disk[b]
    {
      InstalledOther(start, disk, lh, |lh|, b);
    }
  }

  /** Recovery depends only on the header, the logged copies and the blocks not listed. */
  lemma RecoveredDependsOn(start: nat, d: seq<Block>, e: seq<Block>)
    requires DiskShape(start, d) && |d| == |e| && d[start] == e[start]
    requires forall b :: 0 <= b < |d| && b !in Decode(d[start]) ==> d[b] == e[b]
    ensures DiskShape(start, e) && Recovered(start, d) == Recovered(start, e)
  {
    var lh := Decode(d[start]);
    var r, q := Recovered(start, d), Recovered(start, e);
    forall b | 0 <= b < |d| ensures r[b] == q[b] {
      if b == start {
        RecoveredAt(start, d);
        RecoveredAt(start, e);
      } else if b in lh {
        var i :| 0 <= i < |lh| && lh[i] == b;
        InstalledListed(start, d, lh, |lh|, i);
        InstalledListed(start, e, lh, |lh|, i);
        assert d[start + 1 + i] == e[start + 1 + i];
      } else {
        InstalledOther(start, d, lh, |lh|, b);
        InstalledOther(start, e, lh, |lh|, b);
      }
    }
    assert r == q;
  }

  /** A crash after any number of install writes of a recovery loses nothing: recovering
      again ends in exactly the disk the first recovery would have produced. */
  lemma RecoveryRestartable(start: nat, disk: seq<Block>, k: nat)
    requires DiskShape(start, disk)
    requires k <= |Decode(disk[start])|
    ensures var mid := Installed(start, disk, Decode(disk[start]), k);
            DiskShape(start, mid) && Recovered(start, mid) == Recovered(start, disk)
  {
    var lh := Decode(disk[start]);
    var mid := Installed(start, disk, lh, k);
    forall b | 0 <= b < |disk| && b !in lh ensures disk[b] == mid[b] {
      InstalledOther(start, disk, lh, k, b);
    }
    RecoveredDependsOn(start, disk, mid);
  }

  /** Recovering a recovered disk changes nothing. */
  lemma RecoveryIdempotent(start: nat, disk: seq<Block>)
    requires DiskShape(start, disk)
    ensures var r := Recovered(start, disk);
            DiskShape(start, r) && Recovered(start, r) == r
  {
    RecoveredAt(start, disk);
    var r := Recovered(start, disk);
    DecodeEncode(disk[start], []);
    assert DiskShape(start, r);
    RecoveredAt(start, r);
    assert Encode(r[start], []) == r[start];
    assert Recovered(start, r) == r;
  }

  // ---------------------------------------------------------------- meaning of history

  /** The home blocks after the writes of a group, in the order they were made. */
  ghost function Replay(h: seq<Block>, g: seq<Event>): (r: seq<Block>)
    ensures |r| == |h|
  {
    if g == [] then h
    else
      var r := Replay(h, g[..|g| - 1]);
      match g[|g| - 1]
      case Wrote(_, b, v) => if 0 <= b < |r| then r[b := v] else r
      case _ => r
  }

  ghost function ReplayAll(h: seq<Block>, gs: seq<seq<Event>>): (r: seq<Block>)
    ensures |r| == |h|
  {
    if gs == [] then h else Replay(ReplayAll(h, gs[..|gs| - 1]), gs[|gs| - 1])
  }

  /** `g` starts with no operation in progress and ends with exactly `active` in progress;
      every write in it is made by an operation that is in progress at that point. */
  ghost predicate Ops(g: seq<Event>, active: set<Pid>) {
    if g == [] then active == {}
    else
      var pre := g[..|g| - 1];
      match g[|g| - 1]
      case Began(p) => p in active && Ops(pre, active - {p})
      case Wrote(p, _, _) => p in active && Ops(pre, active)
      case Ended(p) => p !in active && Ops(pre, active + {p})
  }

  /** Every operation of the group lies wholly inside it. */
  ghost predicate Whole(g: seq<Event>) {
    Ops(g, {})
  }

  // ---------------------------------------------------------------- steps

  predicate Enabled(s: State, a: Action) {
    s.start + LOGSIZE <= |s.disk| &&
    match a
    case BeginOp(p) =>
      && s.phase == Running && !s.committing && p !in s.wrote
      && |s.lh| + (s.outstanding + 1) * MAXOPBLOCKS <= LOGSIZE
    case LogWrite(p, b, _) => s.phase == Running && p in s.wrote && s.IsHome(b) && !s.TooBig()
    case EndOp(p) => s.phase == Running && !s.committing && p in s.wrote && s.outstanding >= 1
    case CopyBlock =>
      && s.phase.CopyLog? && s.phase.done < |s.lh| && s.InDisk(s.lh[s.phase.done])
      && s.phase.done + 1 < LOGSIZE
    case WriteHead => s.phase == CopyLog(|s.lh|) && |s.lh| < LOGSIZE
    case InstallBlock =>
      && (s.phase.Install? || s.phase.Recover?) && s.phase.done < |s.lh|
      && s.InDisk(s.lh[s.phase.done]) && s.phase.done + 1 < LOGSIZE
    case EraseHead => s.phase == Install(|s.lh|) || s.phase == Recover(|s.lh|)
    case Done => s.phase == Finished
    case Fill(b) => s.InDisk(b) && b !in s.cache
    case Evict(b) => b in s.cache && b !in s.dirty
    case Crash => true
    case ReadHead => s.phase == Boot
  }

  /** Log absorption: a block already listed is not listed again. */
  function Absorb(lh: seq<int>, b: int): seq<int> {
    if b in lh then lh else lh + [b]
  }

  function Exec(s: State, a: Action): (t: State)
    requires Enabled(s, a)
  {
    match a
    case BeginOp(p) =>
      s.(outstanding := s.outstanding + 1, wrote := s.wrote[p := {}], group := s.group + [Began(p)])
    case LogWrite(p, b, v) =>
      s.(lh := Absorb(s.lh, b), cache := s.cache[b := v], dirty := s.dirty + {b},
         wrote := s.wrote[p := s.wrote[p] + {b}], group := s.group + [Wrote(p, b, v)])
    case EndOp(p) =>
      var last := s.outstanding == 1;
      var t := s.(outstanding := s.outstanding - 1, wrote := s.wrote - {p}, group := s.group + [Ended(p)],
                  committing := last);
      if !last then t
      else if s.lh != [] then t.(phase := CopyLog(0))
      else t.(phase := Finished, committed := s.committed + [t.group], group := [])
    case CopyBlock =>
      var i := s.phase.done;
      var to, from := s.start + 1 + i, s.lh[i];
      var v := s.View(from);
      s.(disk := s.disk[to := v], cache := s.cache[to := v], phase := CopyLog(i + 1))
    case WriteHead =>
      var v := Encode(s.View(s.start), s.lh);
      s.(disk := s.disk[s.start := v], cache := s.cache[s.start := v], phase := Install(0),
         committed := s.committed + [s.group], group := [])
    case InstallBlock =>
      var i := s.phase.done;
      var from, to := s.start + 1 + i, s.lh[i];
      var v := s.View(from);
      s.(disk := s.disk[to := v], cache := s.cache[to := v], dirty := s.dirty - {to},
         phase := if s.phase.Install? then Install(i + 1) else Recover(i + 1))
    case EraseHead =>
      var v := Encode(s.View(s.start), []);
      s.(disk := s.disk[s.start := v], cache := s.cache[s.start := v], lh := [],
         phase := if s.phase.Install? then Finished else Running)
    case Done => s.(committing := false, phase := Running)
    case Fill(b) => s.(cache := s.cache[b := s.disk[b]])
    case Evict(b) => s.(cache := s.cache - {b})
    case Crash =>
      s.(cache := map[], dirty := {}, lh := [], outstanding := 0, committing := false, phase := Boot,
         wrote := map[], group := [])
    case ReadHead =>
      s.(lh := Decode(s.View(s.start)), phase := Recover(0))
  }

  /** Power-up over an existing disk. */
  function Init(start: nat, disk: seq<Block>): State {
    State(start, disk, map[], {}, [], 0, false, Boot, map[], [], [])
  }

  ghost predicate Runs(s: State, acts: seq<Action>)
    decreases |acts|, 0
  {
    acts == [] ||
    (Runs(s, acts[..|acts| - 1]) && Enabled(After(s, acts[..|acts| - 1]), acts[|acts| - 1]))
  }

  ghost function After(s: State, acts: seq<Action>): State
    requires Runs(s, acts)
    decreases |acts|, 1
  {
    if acts == [] then s else Exec(After(s, acts[..|acts| - 1]), acts[|acts| - 1])
  }

  // ---------------------------------------------------------------- the invariant

  /** The i-th data block of the log area. */
  function LogBlock(start: nat, disk: seq<Block>, i: nat): Block
    requires start + 1 + i < |disk|
  {
    disk[start + 1 + i]
  }

  /** Copying the listed log blocks home would give `base` on every home block. */
  ghost predicate Redo(start: nat, disk: seq<Block>, lh: seq<int>, base: seq<Block>)
    requires start + LOGSIZE <= |disk| == |base| && ListOk(start, |disk|, lh)
  {
    && (forall i {:trigger LogBlock(start, disk, i)} :: 0 <= i < |lh| ==>
         LogBlock(start, disk, i) == base[lh[i]])
    && (forall b {:trigger base[b]} :: 0 <= b < |disk| && !(start <= b < start + LOGSIZE) && b !in lh ==>
         disk[b] == base[b])
  }

  /** What makes a disk safe to crash on: recovering it yields `base` on every home block. */
  ghost predicate DiskOk(start: nat, disk: seq<Block>, base: seq<Block>) {
    && |base| == |disk|
    && DiskShape(start, disk)
    && Redo(start, disk, Decode(disk[start]), base)
  }

  /** The cache: pinned buffers are cached, and the rest agree with the disk. */
  ghost predicate CacheOk(s: State) {
    && s.dirty <= s.cache.Keys
    && (forall b {:trigger b in s.cache} :: b in s.cache ==> s.InDisk(b))
    && (forall b {:trigger b in s.cache} :: b in s.cache && b !in s.dirty ==> s.cache[b] == s.disk[b])
  }

  ghost predicate CountersOk(s: State) {
    && s.outstanding == |s.wrote|
    && (s.committing <==> s.phase.CopyLog? || s.phase.Install? || s.phase == Finished)
    && (s.phase != Running ==> s.wrote == map[])
    && (s.outstanding == 0 && !s.phase.CopyLog? ==> s.group == [])
    && (s.outstanding == 0 && s.phase == Running ==> s.lh == [])
    && (s.phase == Finished || s.phase == Boot ==> s.lh == [])
    && Ops(s.group, s.wrote.Keys)
    && (forall g :: g in s.committed ==> Whole(g))
  }

  /** The pinned buffers are those of the listed blocks from the k-th on. */
  ghost predicate Pinned(s: State, k: nat) {
    && (forall i :: 0 <= i < |s.lh| ==> (s.lh[i] in s.dirty <==> k <= i))
    && (forall b {:trigger b in s.cache} :: b in s.cache && b in s.dirty ==> b in s.lh)
  }

  /** Readers see `h` in every home block. */
  ghost predicate Reads(s: State, h: seq<Block>) {
    && |h| == |s.disk|
    && (forall b {:trigger h[b]} :: s.IsHome(b) ==> s.View(b) == h[b])
  }

  ghost predicate PhaseOk(s: State, base: seq<Block>)
    requires DiskOk(s.start, s.disk, base) && ListOk(s.start, |s.disk|, s.lh)
  {
    match s.phase
    case Boot => s.dirty == {}
    case Running =>
      && Decode(s.disk[s.start]) == []
      && Pinned(s, 0)
      && Reads(s, Replay(base, s.group))
    case CopyLog(k) =>
      && Decode(s.disk[s.start]) == []
      && Pinned(s, 0)
      && Reads(s, Replay(base, s.group))
      && k <= |s.lh|
      && (forall i {:trigger LogBlock(s.start, s.disk, i)} :: 0 <= i < k ==>
            LogBlock(s.start, s.disk, i) == s.View(s.lh[i]))
    case Install(k) =>
      && Decode(s.disk[s.start]) == s.lh
      && k <= |s.lh|
      && Pinned(s, k)
      && Reads(s, base)
      && (forall i {:trigger s.disk[s.lh[i]]} :: 0 <= i < k ==> s.disk[s.lh[i]] == base[s.lh[i]])
    case Recover(k) =>
      && Decode(s.disk[s.start]) == s.lh
      && k <= |s.lh|
      && s.dirty == {}
      && (forall i {:trigger s.disk[s.lh[i]]} :: 0 <= i < k ==> s.disk[s.lh[i]] == base[s.lh[i]])
    case Finished =>
      && Decode(s.disk[s.start]) == []
      && s.dirty == {}
      && Reads(s, base)
  }

  ghost predicate Inv(s: State, base: seq<Block>) {
    && DiskOk(s.start, s.disk, base)
    && ListOk(s.start, |s.disk|, s.lh)
    && CacheOk(s)
    && CountersOk(s)
    && PhaseOk(s, base)
  }
}
