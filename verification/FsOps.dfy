/** The transactions of the system calls that change directories (sysfile.c), down to the blocks
    they log, with the path lookups inside them. A directory entry is 16 bytes at a multiple of 16,
    given as bytes. */
module FsOps {
  import opened Params
  import opened Collections
  import opened Numbers
  import opened FsTree
  import opened FsBlocks
  import opened Fs
  import Links

  const DIRENT: int := 16
  const TDIR: int := Links.DIR

  function Blank(): Inode {
    Inode(0, 0, 0, seq(NDIRECT + 1, _ => 0))
  }

  // ---------------------------------------------------------------- what did not change

  /** The inodes outside ch, and their files, are the same. */
  ghost predicate RestSame(ch: set<int>, s: Snap, t: Snap) {
    && |s.mem| == |t.mem|
    && forall j {:trigger SameFile(j, s, t)} {:trigger t.mem[j]} :: 0 <= j < |t.mem| && j !in ch ==> SameFile(j, s, t)
  }

  lemma RestTrans(ch: set<int>, i: int, s: Snap, t: Snap, u: Snap)
    requires RestSame(ch, s, t) && OthersSame(i, t, u)
    ensures RestSame(ch + {i}, s, u)
  {
    hide SameFile;
    forall j {:trigger SameFile(j, s, u)} | 0 <= j < |u.mem| && j !in ch + {i}
      ensures SameFile(j, s, u)
    {
      SameTrans(j, s, t, u);
    }
  }

  lemma FileKept(j: int, i: int, s: Snap, t: Snap)
    requires OthersSame(i, s, t) && 0 <= j < |s.mem| && j != i
    ensures t.mem[j] == s.mem[j] && Readable(s, j) && Readable(t, j) && FileOf(t, j) == FileOf(s, j)
  {
    assert SameFile(j, s, t);
  }

  lemma RestKept(j: int, ch: set<int>, s: Snap, t: Snap)
    requires RestSame(ch, s, t) && 0 <= j < |s.mem| && j !in ch
    ensures t.mem[j] == s.mem[j] && Readable(s, j) && Readable(t, j) && FileOf(t, j) == FileOf(s, j)
  {
    assert SameFile(j, s, t);
  }

  // ---------------------------------------------------------------- counting blocks

  /** The blocks in l are bitmap blocks or in xs. */
  ghost predicate Within(fs: FileSystem, l: set<int>, xs: seq<int>) {
    forall b {:trigger b in l} :: b in l ==> b in fs.MapBlocks() || b in xs
  }

  lemma WithinFew(fs: FileSystem, l: set<int>, xs: seq<int>)
    requires Within(fs, l, xs) && fs.OneBitmapBlock()
    ensures |l| <= |xs| + 1
  {
    forall b | b in l
      ensures b in xs + [fs.bmapstart]
    {
      assert b in fs.MapBlocks() ==> b == fs.bmapstart;
    }
    FewMembers(xs + [fs.bmapstart]);
    SubsetSize(l, Members(xs + [fs.bmapstart]));
  }

  /** A write of one entry touches one data block. */
  lemma EntryBlock(row: seq<int>, off: int)
    requires |row| == NSLOTS && 0 <= off && off % DIRENT == 0 && off + DIRENT <= MAXBYTES
    ensures (off + DIRENT - 1) / BSIZE == off / BSIZE < MAXFILE
    ensures DataBlocks(row, off / BSIZE, (off + DIRENT - 1) / BSIZE) == {row[SlotOf(off / BSIZE)]}
  {}

  // ---------------------------------------------------------------- a transaction so far

  /** Since s0 the transaction logged all it changed, in the bitmap and xs, and changed no inode
      but those in base, and those that path lookups freed. */
  ghost predicate SoFar(fs: FileSystem, s0: Snap, t: Snap, l: set<int>, xs: seq<int>, base: set<int>, freed: set<int>) {
    && Logs(fs.bmapstart, fs.inodestart, s0, t, l) && Within(fs, l, xs) && RestSame(base + freed, s0, t)
    && freed !! base && (forall j :: j in freed ==> WasFreed(j, s0, t) && fs.IBlock(j) in xs)
  }

  /** Inode j was unlinked but still open in s, and is free in t. */
  ghost predicate WasFreed(j: int, s: Snap, t: Snap) {
    0 <= j < |s.mem| == |t.mem| && s.mem[j].kind != 0 && s.mem[j].nlink == 0 && t.mem[j] == Blank()
  }

  ghost predicate Going(fs: FileSystem, s0: Snap, xs: seq<int>, base: set<int>, freed: set<int>)
    reads fs, fs.fmap
  {
    fs.Valid() && |fs.mem| == |s0.mem| && SoFar(fs, s0, fs.Now(), fs.logged, xs, base, freed)
  }

  method Begin(fs: FileSystem, ghost xs: seq<int>, ghost base: set<int>) returns (ghost s0: Snap)
    requires fs.Valid()
    modifies fs`logged, fs`start
    ensures s0 == old(fs.Now()) == fs.Now() == fs.start && Going(fs, s0, xs, base, {})
  {
    hide SameFile;
    fs.BeginOp();
    s0 := fs.Now();
    forall j {:trigger SameFile(j, s0, s0)} | 0 <= j < |fs.mem|
      ensures SameFile(j, s0, s0)
    {
      Itself(fs, j);
    }
  }

  /** One more step, which logged the bitmap and ys at most and changed inode i of base alone. */
  lemma Onward(fs: FileSystem, s0: Snap, t: Snap, u: Snap, l: set<int>, m: set<int>, xs: seq<int>, ys: seq<int>,
               base: set<int>, freed: set<int>, i: int)
    requires SoFar(fs, s0, t, l, xs, base, freed) && l <= m && Logs(fs.bmapstart, fs.inodestart, t, u, m) && xs <= ys
    requires forall b :: b in m && b !in l ==> b in fs.MapBlocks() || b in ys
    requires OthersSame(i, t, u) && i in base
    ensures SoFar(fs, s0, u, m, ys, base, freed)
  {
    hide Logs;
    LogsTrans(fs.bmapstart, fs.inodestart, s0, t, u, l, m);
    WithinMore(fs, l, m, xs, ys);
    RestTrans(base + freed, i, s0, t, u);
    assert base + freed + {i} == base + freed;
    forall j | j in freed
      ensures WasFreed(j, s0, u) && fs.IBlock(j) in ys
    {
      assert WasFreed(j, s0, t) && j != i && fs.IBlock(j) in xs;
      FileKept(j, i, t, u);
    }
  }

  lemma WithinMore(fs: FileSystem, l: set<int>, m: set<int>, xs: seq<int>, ys: seq<int>)
    requires Within(fs, l, xs) && xs <= ys
    requires forall b :: b in m && b !in l ==> b in fs.MapBlocks() || b in ys
    ensures Within(fs, m, ys)
  {
    forall b {:trigger b in m} | b in m
      ensures b in fs.MapBlocks() || b in ys
    {
      assert b in xs ==> b in ys;
    }
  }

  /** The same for a step that freed inode i, which was no part of base. */
  lemma OnwardFreed(fs: FileSystem, s0: Snap, t: Snap, u: Snap, l: set<int>, m: set<int>, xs: seq<int>, ys: seq<int>,
                    base: set<int>, freed: set<int>, i: int)
    requires SoFar(fs, s0, t, l, xs, base, freed) && l <= m && Logs(fs.bmapstart, fs.inodestart, t, u, m) && xs <= ys
    requires forall b :: b in m && b !in l ==> b in fs.MapBlocks() || b in ys
    requires OthersSame(i, t, u) && i !in base && 0 <= i < |t.mem| && t.mem[i].kind != 0 && t.mem[i].nlink == 0
    requires |u.mem| == |t.mem| && u.mem[i] == Blank() && fs.IBlock(i) in ys
    ensures i !in freed && SoFar(fs, s0, u, m, ys, base, freed + {i})
  {
    hide Logs;
    LogsTrans(fs.bmapstart, fs.inodestart, s0, t, u, l, m);
    WithinMore(fs, l, m, xs, ys);
    RestTrans(base + freed, i, s0, t, u);
    assert base + freed + {i} == base + (freed + {i});
    assert i in freed ==> WasFreed(i, s0, t);
    RestKept(i, base + freed, s0, t);
    forall j | j in freed
      ensures WasFreed(j, s0, u) && fs.IBlock(j) in ys
    {
      assert WasFreed(j, s0, t) && fs.IBlock(j) in xs;
      FileKept(j, i, t, u);
    }
  }

  /** The inodes that were allocated in s and are free in t. */
  ghost function FreedIn(s: Snap, t: Snap): set<int> {
    set j | 0 <= j < |s.mem| && j < |t.mem| && s.mem[j].kind != 0 && t.mem[j].kind == 0
  }

  /** Outside base, exactly the inodes that lookups freed are no longer allocated. */
  lemma FreedExactly(fs: FileSystem, s0: Snap, t: Snap, l: set<int>, xs: seq<int>, base: set<int>, freed: set<int>)
    requires SoFar(fs, s0, t, l, xs, base, freed)
    ensures freed == FreedIn(s0, t) - base
  {
    hide Logs, SameFile;
    forall j | j in FreedIn(s0, t) - base
      ensures j in freed
    {
      if j !in freed {
        RestKept(j, base + freed, s0, t);
      }
    }
    assert forall j :: j in freed ==> WasFreed(j, s0, t);
  }

  /** One transaction ended, from then to now, logging all it changed in at most `limit` blocks. */
  twostate predicate OneOp(fs: FileSystem, limit: int)
    reads fs, fs.fmap
  {
    exists x {:trigger fs.Fits(x, limit)} ::
      fs.ops == old(fs.ops) + [x] && x.before == old(fs.Now()) && x.after == fs.Now() && fs.Fits(x, limit)
  }

  // ---------------------------------------------------------------- the steps

  method SetLinks(fs: FileSystem, i: int, n: int, ghost s0: Snap, ghost xs: seq<int>, ghost base: set<int>,
                  ghost freed: set<int>)
    requires Going(fs, s0, xs, base, freed) && 0 <= i < |fs.mem| && fs.mem[i].kind != 0
    requires i in base && fs.IBlock(i) in xs
    modifies fs, fs.fmap
    ensures Going(fs, s0, xs, base, freed) && fs.start == old(fs.start) && fs.ops == old(fs.ops)
    ensures fs.mem == old(fs.mem)[i := old(fs.mem)[i].(nlink := n)] && OthersSame(i, old(fs.Now()), fs.Now())
    ensures FileOf(fs.Now(), i) == old(FileOf(fs.Now(), i))
  {
    hide FreeMap.BlockMap.Valid, Tree, Logs, FileOf, SoFar, OthersSame, AllDense, Ok;
    ghost var t, l := fs.Now(), fs.logged;
    fs.SetLinks(i, n);
    Onward(fs, s0, t, fs.Now(), l, fs.logged, xs, xs, base, freed, i);
  }

  /** iput of inode i. */
  method Put(fs: FileSystem, i: int, loaded: bool, ref: int, ghost s0: Snap, ghost xs: seq<int>, ghost base: set<int>,
             ghost freed: set<int>)
    returns (gone: bool)
    requires Going(fs, s0, xs, base, freed) && 0 <= i < |fs.mem| && (loaded ==> fs.mem[i].kind != 0) && ref >= 1
    requires i in base && fs.IBlock(i) in xs
    modifies fs, fs.fmap
    ensures Going(fs, s0, xs, base, freed) && fs.start == old(fs.start) && fs.ops == old(fs.ops)
    ensures gone <==> loaded && old(fs.mem[i]).nlink == 0 && ref == 1
    ensures !gone ==> fs.Now() == old(fs.Now())
    ensures gone ==> |fs.mem| == old(|fs.mem|) && fs.mem[i] == Blank() && OthersSame(i, old(fs.Now()), fs.Now())
  {
    hide FreeMap.BlockMap.Valid, Tree, Logs, FileOf, SoFar, OthersSame, AllDense, Ok;
    ghost var t, l := fs.Now(), fs.logged;
    var left;
    gone, left := fs.Iput(i, loaded, ref);
    if gone {
      Onward(fs, s0, t, fs.Now(), l, fs.logged, xs, xs, base, freed, i);
    }
  }

  ghost predicate NoBlock(fs: FileSystem)
    reads fs, fs.fmap
  {
    forall c :: 0 <= c < fs.size ==> c in fs.fmap.used
  }

  /** An entry at off does not fit the largest file, or begins a new block and none is free. */
  ghost predicate NoRoom(fs: FileSystem, size: int, off: int)
    reads fs, fs.fmap
  {
    off + DIRENT > MAXBYTES || (off == size && off % BSIZE == 0 && NoBlock(fs))
  }

  /** An entry takes a new block only where it begins one. */
  lemma EntryTakes(row: seq<int>, size: int, off: int)
    requires Dense(row, size) && 0 <= off <= size && off % DIRENT == 0 && off + DIRENT <= MAXBYTES
    requires NewBlocks(row, off, DIRENT) > 0
    ensures off == size && off % BSIZE == 0
  {
    var bn := off / BSIZE;
    OneBlock(off);
    if bn * BSIZE < size {
      NothingMissing(row, size, bn);
    }
  }

  lemma OneBlock(off: int)
    requires 0 <= off && off % DIRENT == 0
    ensures (off + DIRENT - 1) / BSIZE == off / BSIZE && off / BSIZE * BSIZE <= off
    ensures off + DIRENT <= MAXBYTES ==> off / BSIZE < MAXFILE
    ensures off / BSIZE * BSIZE == off ==> off % BSIZE == 0
  {}

  lemma NothingMissing(row: seq<int>, size: int, bn: int)
    requires Dense(row, size) && 0 <= bn < MAXFILE && bn * BSIZE < size
    ensures SlotsOf(bn, bn + 1) - Filled(row) == {}
  {
    assert row[SlotOf(bn)] != 0 && (bn >= NDIRECT ==> row[NDIRECT] != 0);
  }

  /** The blocks that an entry at off is written through. */
  ghost function EntryAt(row: seq<int>, off: int): (at: seq<int>)
    requires |row| == NSLOTS && 0 <= off && off / BSIZE < MAXFILE
    ensures |at| <= 2
  {
    [row[SlotOf(off / BSIZE)]] + if row[NDIRECT] == 0 then [] else [row[NDIRECT]]
  }

  lemma EntryLogged(fs: FileSystem, i: int, off: int, l: set<int>, m: set<int>, xs: seq<int>, size: int)
    requires 0 <= i < |fs.table| && Dense(fs.table[i], size) && fs.IBlock(i) in xs
    requires 0 <= off && off % DIRENT == 0 && off + DIRENT <= size
    requires m <= l + Footprint(fs.MapBlocks(), fs.IBlock(i), fs.table[i], off, DIRENT)
    ensures off / BSIZE < MAXFILE
    ensures forall b :: b in m && b !in l ==> b in fs.MapBlocks() || b in xs + EntryAt(fs.table[i], off)
    ensures size <= NDIRECT * BSIZE ==>
              EntryAt(fs.table[i], off) == [fs.table[i][SlotOf(off / BSIZE)]] && fs.table[i][SlotOf(off / BSIZE)] != 0
  {
    hide Dense, DataBlocks;
    EntryMapped(fs.table[i], size, off);
    EntryBlock(fs.table[i], off);
  }

  lemma EntryMapped(row: seq<int>, size: int, off: int)
    requires Dense(row, size) && 0 <= off < size
    ensures |row| == NSLOTS && size <= MAXBYTES && off / BSIZE < MAXFILE && row[SlotOf(off / BSIZE)] != 0
    ensures size <= NDIRECT * BSIZE ==> row[NDIRECT] == 0
  {
    assert off / BSIZE * BSIZE <= off;
  }

  /** One writei of an entry, and the panic that follows a short one. It logs the data block and,
      for a file that has one, the indirect block. */
  method WriteEntry(fs: FileSystem, i: int, de: seq<int>, off: int, ghost s0: Snap, ghost xs: seq<int>,
                    ghost base: set<int>, ghost freed: set<int>)
    returns (panicked: bool, ghost at: seq<int>)
    requires Going(fs, s0, xs, base, freed) && 0 <= i < |fs.mem| && fs.mem[i].kind != 0 && fs.mem[i].kind != TDEV
    requires |de| == DIRENT && 0 <= off && off % DIRENT == 0 && off <= fs.mem[i].size
    requires i in base && fs.IBlock(i) in xs
    modifies fs, fs.fmap
    ensures fs.start == old(fs.start) && fs.ops == old(fs.ops)
    ensures panicked ==> off + DIRENT > old(fs.mem[i].size) && NoRoom(fs, old(fs.mem[i].size), off)
    ensures !panicked ==>
              && Going(fs, s0, xs + at, base, freed) && |at| <= 2 && |fs.mem| == old(|fs.mem|)
              && OthersSame(i, old(fs.Now()), fs.Now())
              && fs.mem[i] == old(fs.mem[i]).(size := Max(old(fs.mem[i].size), off + DIRENT), addrs := fs.mem[i].addrs)
              && FileOf(fs.Now(), i) == Spliced(old(FileOf(fs.Now(), i)), off, de)
              && KeepsSlots(i, old(fs.Now()), fs.Now())
    ensures !panicked && fs.mem[i].size <= NDIRECT * BSIZE ==>
              at == [fs.table[i][SlotOf(off / BSIZE)]] && fs.table[i][SlotOf(off / BSIZE)] != 0
  {
    hide FreeMap.BlockMap.Valid, Tree, Logs, FileOf, Spliced, SoFar, OthersSame, DataBlocks, KeepsSlots, Ok, NewBlocks,
         Dense, FileSystem.Valid, Paid, Footprint, EntryAt;
    at := [];
    ghost var t, l := fs.Now(), fs.logged;
    var r;
    DenseRow(fs, i);
    fs.TableSize();
    panicked, r := fs.Writei(i, de, off);
    if panicked {
      EntryTakes(t.table[i], t.mem[i].size, off);
      return;
    }
    if r != DIRENT {
      return true, at;
    }
    DenseRow(fs, i);
    at := EntryAt(fs.table[i], off);
    EntryLogged(fs, i, off, l, fs.logged, xs, fs.mem[i].size);
    Onward(fs, s0, t, fs.Now(), l, fs.logged, xs, xs + at, base, freed, i);
  }

  lemma DenseRow(fs: FileSystem, i: int)
    requires fs.Valid() && 0 <= i < |fs.mem|
    ensures |fs.table| == |fs.mem| && |fs.table[i]| == NSLOTS && fs.mem[i].size <= MAXBYTES
    ensures Dense(fs.table[i], fs.mem[i].size)
    ensures fs.mem[i].size <= NDIRECT * BSIZE ==> fs.table[i][NDIRECT] == 0
    ensures forall off :: 0 <= off < fs.mem[i].size ==> off / BSIZE < MAXFILE && fs.table[i][SlotOf(off / BSIZE)] != 0
  {
    hide Ok;
    assert Dense(fs.table[i], fs.Now().mem[i].size);
    forall off | 0 <= off < fs.mem[i].size
      ensures off / BSIZE < MAXFILE && fs.table[i][SlotOf(off / BSIZE)] != 0
    {
      assert off / BSIZE * BSIZE <= off;
    }
  }

  /** An inode that a path lookup holds and puts again. */
  datatype Step = Step(i: int, ref: int)

  /** The lookups that a call makes besides the inodes it goes on to use, whose references are not
      the last ones. */
  predicate Steps(steps: seq<Step>, n: int, base: set<int>) {
    forall k {:trigger steps[k]} :: 0 <= k < |steps| ==>
      0 <= steps[k].i < n && steps[k].i !in base && steps[k].ref >= 1
  }

  /** The iputs of a path lookup. One of a directory that was unlinked meanwhile frees it. */
  method Lookup(fs: FileSystem, steps: seq<Step>, ghost s0: Snap, ghost xs: seq<int>, ghost base: set<int>,
                ghost freed: set<int>)
    returns (ghost all: set<int>, ghost at: seq<int>)
    requires Going(fs, s0, xs, base, freed) && Steps(steps, |fs.mem|, base)
    modifies fs, fs.fmap
    ensures fs.start == old(fs.start) && fs.ops == old(fs.ops) && |fs.mem| == old(|fs.mem|)
    ensures Going(fs, s0, xs + at, base, all) && |at| == |all| - |freed| && freed <= all
    ensures forall j {:trigger fs.mem[j]} :: j in base && 0 <= j < |fs.mem| ==> SameFile(j, old(fs.Now()), fs.Now())
  {
    hide FreeMap.BlockMap.Valid, Tree, Logs, FileOf, SoFar, OthersSame, AllDense, Ok, SameFile;
    all, at := freed, [];
    ghost var was := fs.Now();
    forall j | 0 <= j < |fs.mem|
      ensures SameFile(j, was, was)
    {
      Itself(fs, j);
    }
    assert xs + at == xs;
    var k := 0;
    while k < |steps|
      invariant 0 <= k <= |steps| && fs.start == old(fs.start) && fs.ops == old(fs.ops) && |fs.mem| == |was.mem|
      invariant Going(fs, s0, xs + at, base, all) && |at| == |all| - |freed| && freed <= all
      invariant forall j {:trigger SameFile(j, was, fs.Now())} :: j in base && 0 <= j < |fs.mem| ==>
                  SameFile(j, was, fs.Now())
    {
      var i := steps[k].i;
      ghost var t, l, ys := fs.Now(), fs.logged, xs + at;
      var gone, left := fs.Iput(i, fs.mem[i].kind != 0, steps[k].ref);
      if gone {
        assert (ys + [fs.IBlock(i)])[|ys|] == fs.IBlock(i);
        OnwardFreed(fs, s0, t, fs.Now(), l, fs.logged, ys, ys + [fs.IBlock(i)], base, all, i);
        StillSame(base, i, was, t, fs.Now());
        assert ys + [fs.IBlock(i)] == xs + (at + [fs.IBlock(i)]);
        all, at := all + {i}, at + [fs.IBlock(i)];
      }
      k := k + 1;
    }
  }

  lemma GoingFile(fs: FileSystem, s0: Snap, xs: seq<int>, base: set<int>, freed: set<int>, j: int)
    requires Going(fs, s0, xs, base, freed) && 0 <= j < |fs.mem|
    ensures Readable(fs.Now(), j)
  {
    Shape(fs.Now(), fs.nmeta, j);
    assert Dense(fs.table[j], fs.Now().mem[j].size);
  }

  lemma Itself(fs: FileSystem, j: int)
    requires fs.Valid() && 0 <= j < |fs.mem|
    ensures SameFile(j, fs.Now(), fs.Now())
  {
    Shape(fs.Now(), fs.nmeta, j);
    assert Dense(fs.table[j], fs.Now().mem[j].size);
    SameRow(j, fs.Now(), fs.Now());
  }

  lemma StillSame(base: set<int>, i: int, s: Snap, t: Snap, u: Snap)
    requires OthersSame(i, t, u) && i !in base && |s.mem| == |t.mem|
    requires forall j {:trigger SameFile(j, s, t)} :: j in base && 0 <= j < |t.mem| ==> SameFile(j, s, t)
    ensures forall j {:trigger SameFile(j, s, u)} :: j in base && 0 <= j < |t.mem| ==> SameFile(j, s, u)
  {
    hide SameFile;
    forall j {:trigger SameFile(j, s, u)} | j in base && 0 <= j < |t.mem|
      ensures SameFile(j, s, u)
    {
      assert SameFile(j, s, t) && SameFile(j, t, u);
      SameTrans(j, s, t, u);
    }
  }

  /** The end of a transaction whose blocks were counted. */
  method EndCounted(fs: FileSystem, ghost xs: seq<int>, ghost base: set<int>, ghost freed: set<int>, ghost limit: int)
    requires Going(fs, fs.start, xs, base, freed) && |xs| < limit
    modifies fs`ops
    ensures fs.ops == old(fs.ops) + [Transaction(fs.start, fs.Now(), fs.logged)]
    ensures fs.Fits(Transaction(fs.start, fs.Now(), fs.logged), limit)
    ensures fs.Valid() && fs.Now() == old(fs.Now()) && freed == FreedIn(fs.start, fs.Now()) - base
    ensures RestSame(base + freed, fs.start, fs.Now())
    ensures forall j :: j in freed ==> WasFreed(j, fs.start, fs.Now())
  {
    hide Logs, RestSame, FreedIn, WasFreed;
    FreedExactly(fs, fs.start, fs.Now(), fs.logged, xs, base, freed);
    fs.EndOp();
    if fs.OneBitmapBlock() {
      WithinFew(fs, fs.logged, xs);
    }
  }

  // ---------------------------------------------------------------- the transactions

  /** The iput of a file that is closed. */
  method CloseOp(fs: FileSystem, i: int, loaded: bool, ref: int) returns (gone: bool)
    requires fs.Valid() && 0 <= i < |fs.mem| && (loaded ==> fs.mem[i].kind != 0) && ref >= 1
    modifies fs, fs.fmap
    ensures fs.Valid() && OneOp(fs, 2) && RestSame({i}, old(fs.Now()), fs.Now())
    ensures gone <==> loaded && old(fs.mem[i]).nlink == 0 && ref == 1
    ensures gone ==> |fs.mem| == old(|fs.mem|) && fs.mem[i] == Blank()
    ensures !gone ==> fs.Now() == old(fs.Now())
  {
    hide FreeMap.BlockMap.Valid, Tree, Logs, FileOf, Readable, Spliced, SoFar, OthersSame, RestSame, Ok;
    ghost var xs := [fs.IBlock(i)];
    ghost var s0 := Begin(fs, xs, {i});
    gone := Put(fs, i, loaded, ref, s0, xs, {i}, {});
    assert {i} + {} == {i};
    EndCounted(fs, xs, {i}, {}, 2);
  }

  /** A call that finds nothing to do: its path lookup, and the iput of what that ended at. */
  method FailOp(fs: FileSystem, dp: int, path: seq<Step>, dref: int) returns (dgone: bool, ghost freed: set<int>)
    requires fs.Valid() && 0 <= dp < |fs.mem| && fs.mem[dp].kind != 0 && dref >= 1 && Steps(path, |fs.mem|, {dp})
    modifies fs, fs.fmap
    ensures fs.Valid() && |fs.mem| == old(|fs.mem|) && freed == FreedIn(old(fs.Now()), fs.Now()) - {dp}
    ensures OneOp(fs, 2 + |freed|) && RestSame({dp} + freed, old(fs.Now()), fs.Now())
    ensures forall j :: j in freed ==> WasFreed(j, old(fs.Now()), fs.Now())
    ensures dgone <==> old(fs.mem[dp]).nlink == 0 && dref == 1
    ensures if dgone then fs.mem[dp] == Blank() else SameFile(dp, old(fs.Now()), fs.Now())
  {
    hide FreeMap.BlockMap.Valid, Tree, Logs, FileOf, Readable, SoFar, OthersSame, RestSame, Ok, WasFreed, FreedIn,
         AllDense, FileSystem.Valid, Going;
    ghost var xs, at := [fs.IBlock(dp)], [];
    ghost var s0 := Begin(fs, xs, {dp});
    freed, at := Lookup(fs, path, s0, xs, {dp}, {});
    assert SameFile(dp, s0, fs.Now()) && fs.IBlock(dp) == (xs + at)[0];
    dgone := Put(fs, dp, true, dref, s0, xs + at, {dp}, freed);
    EndCounted(fs, xs + at, {dp}, freed, 2 + |freed|);
  }

  /** The first half of link: both names are looked up and the inode gains a link. */
  method StartLink(fs: FileSystem, ip: int, dp: int, source: seq<Step>, target: seq<Step>)
    returns (ghost s0: Snap, ghost freed: set<int>, ghost xs: seq<int>)
    requires fs.Valid() && 0 <= ip < |fs.mem| && 0 <= dp < |fs.mem| && ip != dp && fs.mem[ip].kind != 0
    requires Steps(source, |fs.mem|, {ip, dp}) && Steps(target, |fs.mem|, {ip, dp})
    modifies fs, fs.fmap
    ensures s0 == old(fs.Now()) == fs.start && fs.ops == old(fs.ops) && |fs.mem| == old(|fs.mem|)
    ensures Going(fs, s0, xs, {ip, dp}, freed) && fs.IBlock(ip) in xs && fs.IBlock(dp) in xs && |xs| == 2 + |freed|
    ensures fs.mem[ip] == old(fs.mem[ip]).(nlink := Links.Short(old(fs.mem[ip]).nlink + 1))
    ensures fs.mem[dp] == old(fs.mem[dp]) && Readable(fs.Now(), ip) && Readable(fs.Now(), dp)
    ensures FileOf(fs.Now(), ip) == old(FileOf(fs.Now(), ip)) && FileOf(fs.Now(), dp) == old(FileOf(fs.Now(), dp))
  {
    hide FreeMap.BlockMap.Valid, Tree, Logs, FileOf, Readable, Spliced, SoFar, OthersSame, RestSame, Ok, WasFreed,
         FreedIn, Links.Short, AllDense, FileSystem.Valid, Going;
    xs := [fs.IBlock(ip), fs.IBlock(dp)];
    ghost var base, at := {ip, dp}, [];
    s0 := Begin(fs, xs, base);
    freed, at := Lookup(fs, source, s0, xs, base, {});
    xs := xs + at;
    assert SameFile(ip, s0, fs.Now()) && SameFile(dp, s0, fs.Now());
    ghost var s1 := fs.Now();
    SetLinks(fs, ip, Links.Short(fs.mem[ip].nlink + 1), s0, xs, base, freed);
    FileKept(dp, ip, s1, fs.Now());
    ghost var s2 := fs.Now();
    freed, at := Lookup(fs, target, s0, xs, base, freed);
    xs := xs + at;
    assert SameFile(ip, s2, fs.Now()) && SameFile(dp, s2, fs.Now());
    GoingFile(fs, s0, xs, base, freed, ip);
    GoingFile(fs, s0, xs, base, freed, dp);
  }

  /** sys_link, given the inodes: source and target are the lookups of the two paths, `taken` is whether
      the directory has the name, and off the free slot otherwise. */
  method LinkOp(fs: FileSystem, ip: int, dp: int, source: seq<Step>, target: seq<Step>, taken: bool, de: seq<int>,
                off: int, ref: int, dref: int)
    returns (panicked: bool, gone: bool, dgone: bool, ghost freed: set<int>)
    requires fs.Valid() && 0 <= ip < |fs.mem| && 0 <= dp < |fs.mem| && ip != dp && ref >= 1 && dref >= 1
    requires fs.mem[ip].kind != 0 && fs.mem[dp].kind == TDIR && Steps(source, |fs.mem|, {ip, dp})
    requires Steps(target, |fs.mem|, {ip, dp})
    requires |de| == DIRENT && 0 <= off && off % DIRENT == 0 && off <= fs.mem[dp].size
    modifies fs, fs.fmap
    ensures panicked ==> !taken && NoRoom(fs, old(fs.mem[dp].size), off)
    ensures !panicked ==> fs.Valid() && freed == FreedIn(old(fs.Now()), fs.Now()) - {ip, dp}
    ensures !panicked ==> OneOp(fs, 5 + |freed|) && RestSame({ip, dp} + freed, old(fs.Now()), fs.Now())
    ensures !panicked ==> forall j :: j in freed ==> WasFreed(j, old(fs.Now()), fs.Now())
    ensures !panicked ==> (dgone <==> old(fs.mem[dp]).nlink == 0 && dref == 1) && |fs.mem| == old(|fs.mem|)
    ensures !panicked && !dgone ==>
              && fs.mem[dp].kind == old(fs.mem[dp]).kind && fs.mem[dp].nlink == old(fs.mem[dp]).nlink
              && Readable(fs.Now(), dp) && FileOf(fs.Now(), dp) ==
                 if taken then old(FileOf(fs.Now(), dp)) else Spliced(old(FileOf(fs.Now(), dp)), off, de)
    ensures !panicked && gone ==> fs.mem[ip] == Blank()
    ensures !panicked && dgone ==> fs.mem[dp] == Blank()
    ensures !panicked ==>
              var n := old(fs.mem[ip]).nlink; var m := Links.Short(n + 1);
              var last := if taken then Links.Short(m - 1) else m;
              && (gone <==> last == 0 && ref == 1)
              && (!gone ==> fs.mem[ip] == old(fs.mem[ip]).(nlink := last))
              && (!gone ==> Readable(fs.Now(), ip) && FileOf(fs.Now(), ip) == old(FileOf(fs.Now(), ip)))
  {
    hide FreeMap.BlockMap.Valid, Tree, Logs, FileOf, Readable, Spliced, SoFar, OthersSame, RestSame, Ok, WasFreed,
         FreedIn, Links.Short, AllDense, FileSystem.Valid, Going;
    panicked, gone, dgone := false, false, false;
    ghost var s0, xs, at;
    s0, freed, xs := StartLink(fs, ip, dp, source, target);
    panicked, gone, dgone, at := AddEntry(fs, ip, dp, taken, de, off, ref, dref, s0, xs, {ip, dp}, freed);
    if !panicked {
      EndCounted(fs, xs + at, {ip, dp}, freed, 5 + |freed|);
    }
  }

  /** The rest of sys_link: the entry, or the link count put back, and the two iputs. */
  method AddEntry(fs: FileSystem, ip: int, dp: int, taken: bool, de: seq<int>, off: int, ref: int, dref: int,
                  ghost s0: Snap, ghost xs: seq<int>, ghost base: set<int>, ghost freed: set<int>)
    returns (panicked: bool, gone: bool, dgone: bool, ghost at: seq<int>)
    requires Going(fs, s0, xs, base, freed) && base == {ip, dp} && fs.IBlock(ip) in xs && fs.IBlock(dp) in xs
    requires 0 <= ip < |fs.mem| && 0 <= dp < |fs.mem| && ip != dp && ref >= 1 && dref >= 1
    requires fs.mem[ip].kind != 0 && fs.mem[dp].kind == TDIR
    requires |de| == DIRENT && 0 <= off && off % DIRENT == 0 && off <= fs.mem[dp].size
    modifies fs, fs.fmap
    ensures fs.start == old(fs.start) && fs.ops == old(fs.ops) && |at| <= 2
    ensures panicked ==> !taken && NoRoom(fs, old(fs.mem[dp].size), off)
    ensures !panicked ==> Going(fs, s0, xs + at, base, freed) && |fs.mem| == old(|fs.mem|)
    ensures !panicked ==> (dgone <==> old(fs.mem[dp]).nlink == 0 && dref == 1)
    ensures !panicked && !dgone ==>
              && fs.mem[dp].kind == old(fs.mem[dp]).kind && fs.mem[dp].nlink == old(fs.mem[dp]).nlink
              && Readable(fs.Now(), dp) && FileOf(fs.Now(), dp) ==
                 if taken then old(FileOf(fs.Now(), dp)) else Spliced(old(FileOf(fs.Now(), dp)), off, de)
    ensures !panicked && gone ==> fs.mem[ip] == Blank()
    ensures !panicked && dgone ==> fs.mem[dp] == Blank()
    ensures !panicked ==>
              var n := old(fs.mem[ip]).nlink; var last := if taken then Links.Short(n - 1) else n;
              && (gone <==> last == 0 && ref == 1)
              && (!gone ==> fs.mem[ip] == old(fs.mem[ip]).(nlink := last))
              && (!gone ==> Readable(fs.Now(), ip) && FileOf(fs.Now(), ip) == old(FileOf(fs.Now(), ip)))
  {
    hide FreeMap.BlockMap.Valid, Tree, Logs, FileOf, Readable, Spliced, SoFar, OthersSame, RestSame, Ok, WasFreed,
         FreedIn, Links.Short, AllDense, FileSystem.Valid, Going;
    panicked, gone, dgone, at := false, false, false, [];
    ghost var ys := xs;
    ghost var t0 := fs.Now();
    if !taken {
      panicked, at := WriteEntry(fs, dp, de, off, s0, xs, base, freed);
      if panicked {
        at := [];
        return;
      }
      ys := xs + at;
      FileKept(ip, dp, t0, fs.Now());
    } else {
      assert xs + at == xs;
    }
    assert fs.IBlock(ip) in ys && fs.IBlock(dp) in ys;
    ghost var t1 := fs.Now();
    dgone := Put(fs, dp, true, dref, s0, ys, base, freed);
    if dgone {
      FileKept(ip, dp, t1, fs.Now());
    }
    ghost var t2 := fs.Now();
    if taken {
      SetLinks(fs, ip, Links.Short(fs.mem[ip].nlink - 1), s0, ys, base, freed);
      FileKept(dp, ip, t2, fs.Now());
    }
    ghost var t3 := fs.Now();
    gone := Put(fs, ip, true, ref, s0, ys, base, freed);
    if gone {
      FileKept(dp, ip, t3, fs.Now());
    }
    GoingFile(fs, s0, ys, base, freed, ip);
    GoingFile(fs, s0, ys, base, freed, dp);
  }

  /** sys_unlink, given the inodes and the entry's offset. The directory keeps a link, as Links
      shows, so of the two only the unlinked inode can be freed. */
  method UnlinkOp(fs: FileSystem, ip: int, dp: int, path: seq<Step>, de: seq<int>, off: int, ref: int, dref: int)
    returns (panicked: bool, gone: bool, ghost freed: set<int>)
    requires fs.Valid() && 0 <= ip < |fs.mem| && 0 <= dp < |fs.mem| && ip != dp && ref >= 1 && dref >= 1
    requires fs.mem[ip].kind != 0 && fs.mem[dp].kind == TDIR
    requires fs.mem[dp].nlink > (if fs.mem[ip].kind == TDIR then 1 else 0) && Steps(path, |fs.mem|, {ip, dp})
    requires |de| == DIRENT && 0 <= off && off % DIRENT == 0 && off + DIRENT <= fs.mem[dp].size
    modifies fs, fs.fmap
    ensures !panicked
    ensures fs.Valid() && |fs.mem| == old(|fs.mem|)
    ensures freed == FreedIn(old(fs.Now()), fs.Now()) - {ip, dp}
    ensures OneOp(fs, 5 + |freed|) && RestSame({ip, dp} + freed, old(fs.Now()), fs.Now())
    ensures forall j :: j in freed ==> WasFreed(j, old(fs.Now()), fs.Now())
    ensures fs.mem[dp].nlink == old(fs.mem[dp]).nlink - (if old(fs.mem[ip]).kind == TDIR then 1 else 0)
    ensures fs.mem[dp].kind == TDIR && Readable(fs.Now(), dp)
    ensures FileOf(fs.Now(), dp) == Spliced(old(FileOf(fs.Now(), dp)), off, de)
    ensures gone <==> old(fs.mem[ip]).nlink == 1 && ref == 1
    ensures !gone ==>
              && fs.mem[ip] == old(fs.mem[ip]).(nlink := old(fs.mem[ip]).nlink - 1) && Readable(fs.Now(), ip)
              && FileOf(fs.Now(), ip) == old(FileOf(fs.Now(), ip))
    ensures gone ==> fs.mem[ip] == Blank()
  {
    hide FreeMap.BlockMap.Valid, Tree, Logs, FileOf, Readable, Spliced, SoFar, OthersSame, RestSame, Ok, WasFreed,
         FreedIn, AllDense, FileSystem.Valid, Going;
    ghost var base, xs, at := {ip, dp}, [fs.IBlock(ip), fs.IBlock(dp)], [];
    ghost var s0 := Begin(fs, xs, base);
    freed, at := Lookup(fs, path, s0, xs, base, {});
    xs := xs + at;
    assert SameFile(ip, s0, fs.Now()) && SameFile(dp, s0, fs.Now());
    panicked, gone, at := RemoveEntry(fs, ip, dp, de, off, ref, dref, s0, xs, base, freed);
    EndCounted(fs, xs + at, base, freed, 5 + |freed|);
  }

  /** The rest of sys_unlink: the entry, the link counts and the two iputs. The panic
      "unlink: writei" cannot happen, because the entry's block is there. */
  method RemoveEntry(fs: FileSystem, ip: int, dp: int, de: seq<int>, off: int, ref: int, dref: int, ghost s0: Snap,
                     ghost xs: seq<int>, ghost base: set<int>, ghost freed: set<int>)
    returns (panicked: bool, gone: bool, ghost at: seq<int>)
    requires Going(fs, s0, xs, base, freed) && base == {ip, dp} && fs.IBlock(ip) in xs && fs.IBlock(dp) in xs
    requires 0 <= ip < |fs.mem| && 0 <= dp < |fs.mem| && ip != dp && ref >= 1 && dref >= 1
    requires fs.mem[ip].kind != 0 && fs.mem[dp].kind == TDIR
    requires fs.mem[dp].nlink > (if fs.mem[ip].kind == TDIR then 1 else 0)
    requires |de| == DIRENT && 0 <= off && off % DIRENT == 0 && off + DIRENT <= fs.mem[dp].size
    modifies fs, fs.fmap
    ensures fs.start == old(fs.start) && fs.ops == old(fs.ops) && |at| <= 2
    ensures !panicked
    ensures Going(fs, s0, xs + at, base, freed) && |fs.mem| == old(|fs.mem|)
    ensures fs.mem[dp].nlink == old(fs.mem[dp]).nlink - (if old(fs.mem[ip]).kind == TDIR then 1 else 0)
    ensures fs.mem[dp].kind == TDIR && Readable(fs.Now(), dp)
    ensures FileOf(fs.Now(), dp) == Spliced(old(FileOf(fs.Now(), dp)), off, de)
    ensures gone <==> old(fs.mem[ip]).nlink == 1 && ref == 1
    ensures !gone ==>
              && fs.mem[ip] == old(fs.mem[ip]).(nlink := old(fs.mem[ip]).nlink - 1) && Readable(fs.Now(), ip)
              && FileOf(fs.Now(), ip) == old(FileOf(fs.Now(), ip))
    ensures gone ==> fs.mem[ip] == Blank()
  {
    hide FreeMap.BlockMap.Valid, Tree, Logs, FileOf, Readable, Spliced, SoFar, OthersSame, RestSame, Ok, WasFreed,
         FreedIn, AllDense, FileSystem.Valid, Going;
    gone := false;
    ghost var t0 := fs.Now();
    panicked, at := WriteEntry(fs, dp, de, off, s0, xs, base, freed);
    FileKept(ip, dp, t0, fs.Now());
    ghost var ys, t1 := xs + at, fs.Now();
    assert fs.IBlock(ip) in ys && fs.IBlock(dp) in ys;
    if fs.mem[ip].kind == TDIR {
      SetLinks(fs, dp, fs.mem[dp].nlink - 1, s0, ys, base, freed);
      FileKept(ip, dp, t1, fs.Now());
    }
    var dgone := Put(fs, dp, true, dref, s0, ys, base, freed);
    ghost var t2 := fs.Now();
    SetLinks(fs, ip, fs.mem[ip].nlink - 1, s0, ys, base, freed);
    FileKept(dp, ip, t2, fs.Now());
    ghost var t3 := fs.Now();
    gone := Put(fs, ip, true, ref, s0, ys, base, freed);
    if gone {
      FileKept(dp, ip, t3, fs.Now());
    }
    GoingFile(fs, s0, ys, base, freed, ip);
    GoingFile(fs, s0, ys, base, freed, dp);
  }

  lemma StillFreed(j: int, i: int, s: Snap, t: Snap, u: Snap)
    requires WasFreed(j, s, t) && OthersSame(i, t, u) && j != i
    ensures WasFreed(j, s, u)
  {
    FileKept(j, i, t, u);
  }

  /** An inode that ialloc makes is one the call may change; it may be one that a lookup freed. */
  lemma OnwardMade(fs: FileSystem, s0: Snap, t: Snap, u: Snap, l: set<int>, m: set<int>, xs: seq<int>, ys: seq<int>,
                   base: set<int>, freed: set<int>, i: int)
    requires SoFar(fs, s0, t, l, xs, base, freed) && l <= m && Logs(fs.bmapstart, fs.inodestart, t, u, m)
    requires ys == if i in freed then xs else xs + [fs.IBlock(i)]
    requires m == l + {fs.IBlock(i)} && OthersSame(i, t, u) && 0 <= i < |t.mem|
    ensures SoFar(fs, s0, u, m, ys, base + {i}, freed - {i}) && fs.IBlock(i) in ys
    ensures |ys| - |freed - {i}| == |xs| - |freed| + 1
  {
    hide Logs, OthersSame, SameFile, WasFreed, RestSame;
    assert i !in freed ==> ys[|xs|] == fs.IBlock(i) && freed - {i} == freed;
    assert i in freed ==> freed == freed - {i} + {i};
    LogsTrans(fs.bmapstart, fs.inodestart, s0, t, u, l, m);
    WithinMore(fs, l, m, xs, ys);
    RestTrans(base + freed, i, s0, t, u);
    assert base + freed + {i} == base + {i} + (freed - {i});
    forall j | j in freed - {i}
      ensures WasFreed(j, s0, u) && fs.IBlock(j) in ys
    {
      assert WasFreed(j, s0, t) && fs.IBlock(j) in xs;
      StillFreed(j, i, s0, t, u);
    }
  }

  /** ialloc, and the first link. */
  method MakeInode(fs: FileSystem, kind: int, ghost s0: Snap, ghost xs: seq<int>, ghost base: set<int>,
                   ghost freed: set<int>)
    returns (ok: bool, ip: int, ghost ys: seq<int>, ghost rest: set<int>)
    requires Going(fs, s0, xs, base, freed) && kind != 0
    requires forall j :: j in base ==> 0 <= j < |fs.mem| && fs.mem[j].kind != 0
    modifies fs, fs.fmap
    ensures fs.start == old(fs.start) && fs.ops == old(fs.ops)
    ensures !ok ==> forall j :: 1 <= j < old(|fs.mem|) ==> old(fs.mem)[j].kind != 0
    ensures ok ==> 1 <= ip < |fs.mem| == old(|fs.mem|) && ip !in base && old(fs.mem)[ip].kind == 0
    ensures ok ==> forall j :: 1 <= j < ip ==> old(fs.mem)[j].kind != 0
    ensures ok ==> Going(fs, s0, ys, base + {ip}, rest) && xs <= ys && fs.IBlock(ip) in ys
    ensures ok ==> rest == freed - {ip} && |ys| - |rest| == |xs| - |freed| + 1
    ensures ok ==> fs.mem[ip] == Inode(kind, 1, 0, seq(NDIRECT + 1, _ => 0)) && FileOf(fs.Now(), ip) == []
    ensures ok ==> OthersSame(ip, old(fs.Now()), fs.Now())
  {
    hide FreeMap.BlockMap.Valid, Tree, Logs, FileOf, SoFar, OthersSame, AllDense, Ok;
    ghost var t, l := fs.Now(), fs.logged;
    ok, ip := fs.Ialloc(kind);
    ys, rest := xs, freed - {ip};
    if ok {
      ys := if ip in freed then xs else xs + [fs.IBlock(ip)];
      ghost var u := fs.Now();
      OnwardMade(fs, s0, t, u, l, fs.logged, xs, ys, base, freed, ip);
      SetLinks(fs, ip, 1, s0, ys, base + {ip}, rest);
      OthersTrans(ip, t, u, fs.Now());
    }
  }

  lemma SplicedAtEnd(c: seq<int>, src: seq<int>)
    ensures Spliced(c, |c|, src) == c + src
  {
    assert c[..|c|] == c;
  }

  /** A block listed already need not be listed again. */
  lemma NoRepeat(fs: FileSystem, s0: Snap, xs: seq<int>, b: int, base: set<int>, freed: set<int>)
    requires Going(fs, s0, xs + [b], base, freed) && b in xs
    ensures Going(fs, s0, xs, base, freed)
  {
    hide Logs, RestSame;
    forall x | x in xs + [b]
      ensures x in xs
    {}
  }

  /** A fresh directory's "." and "..", in its one data block. */
  method WriteDots(fs: FileSystem, ip: int, dot: seq<int>, dotdot: seq<int>, ghost s0: Snap, ghost xs: seq<int>,
                   ghost base: set<int>, ghost freed: set<int>)
    returns (panicked: bool, ghost b: int)
    requires Going(fs, s0, xs, base, freed) && 0 <= ip < |fs.mem| && ip in base && fs.IBlock(ip) in xs
    requires fs.mem[ip].kind == TDIR && fs.mem[ip].size == 0 && FileOf(fs.Now(), ip) == []
    requires |dot| == DIRENT == |dotdot|
    modifies fs, fs.fmap
    ensures fs.start == old(fs.start) && fs.ops == old(fs.ops)
    ensures panicked ==> NoBlock(fs)
    ensures !panicked ==>
              && Going(fs, s0, xs + [b], base, freed) && |fs.mem| == old(|fs.mem|)
              && FileOf(fs.Now(), ip) == dot + dotdot && OthersSame(ip, old(fs.Now()), fs.Now())
              && fs.mem[ip] == old(fs.mem[ip]).(size := 2 * DIRENT, addrs := fs.mem[ip].addrs)
  {
    hide FreeMap.BlockMap.Valid, Tree, Logs, FileOf, Readable, Spliced, SoFar, OthersSame, RestSame, Ok, AllDense,
         Going, KeepsSlots;
    ghost var at;
    b := 0;
    ghost var t0 := fs.Now();
    panicked, at := WriteEntry(fs, ip, dot, 0, s0, xs, base, freed);
    if panicked {
      return;
    }
    ghost var t1 := fs.Now();
    SlotKept(ip, t0, t1, SlotOf(0));
    b := fs.table[ip][SlotOf(0)];
    assert at == [b];
    SplicedAtEnd([], dot);
    assert [] + dot == dot && fs.IBlock(ip) in xs + [b];
    panicked, at := WriteEntry(fs, ip, dotdot, DIRENT, s0, xs + [b], base, freed);
    if panicked {
      return;
    }
    SplicedAtEnd(dot, dotdot);
    SlotKept(ip, t1, fs.Now(), SlotOf(0));
    assert at == [b] && (xs + [b])[|xs|] == b;
    NoRepeat(fs, s0, xs + [b], b, base, freed);
    OthersTrans(ip, t0, t1, fs.Now());
  }

  lemma SlotKept(i: int, s: Snap, t: Snap, x: int)
    requires KeepsSlots(i, s, t) && 0 <= x < NSLOTS
    ensures 0 <= i < |s.table| == |t.table| && |s.table[i]| == |t.table[i]| == NSLOTS
    ensures s.table[i][x] != 0 ==> t.table[i][x] == s.table[i][x]
  {}

  /** What is allocated now was then, outside base, and what is free was free or had no links. */
  lemma KindsBefore(fs: FileSystem, s0: Snap, xs: seq<int>, base: set<int>, freed: set<int>)
    requires Going(fs, s0, xs, base, freed)
    ensures |fs.mem| == |s0.mem|
    ensures forall j {:trigger s0.mem[j]} :: 0 <= j < |s0.mem| && j !in base ==>
              && (fs.mem[j].kind != 0 ==> s0.mem[j].kind != 0)
              && (fs.mem[j].kind == 0 ==> s0.mem[j].kind == 0 || s0.mem[j].nlink == 0)
  {
    hide Logs, SameFile;
    forall j | 0 <= j < |s0.mem| && j !in base
      ensures fs.mem[j].kind != 0 ==> s0.mem[j].kind != 0
      ensures fs.mem[j].kind == 0 ==> s0.mem[j].kind == 0 || s0.mem[j].nlink == 0
    {
      if j in freed {
        assert WasFreed(j, s0, fs.Now());
      } else {
        RestKept(j, base + freed, s0, fs.Now());
      }
    }
  }

  /** The parent's link for ".." and the two entries of a new directory. */
  method FillDots(fs: FileSystem, ip: int, dp: int, dot: seq<int>, dotdot: seq<int>, ghost s0: Snap,
                  ghost xs: seq<int>, ghost base: set<int>, ghost freed: set<int>)
    returns (panicked: bool, ghost b: int)
    requires Going(fs, s0, xs, base, freed) && base == {ip, dp} && fs.IBlock(ip) in xs && fs.IBlock(dp) in xs
    requires 0 <= ip < |fs.mem| && 0 <= dp < |fs.mem| && ip != dp && fs.mem[dp].kind == TDIR
    requires fs.mem[ip] == Inode(TDIR, 1, 0, seq(NDIRECT + 1, _ => 0)) && FileOf(fs.Now(), ip) == []
    requires |dot| == |dotdot| == DIRENT
    modifies fs, fs.fmap
    ensures fs.start == old(fs.start) && fs.ops == old(fs.ops)
    ensures panicked ==> NoBlock(fs)
    ensures !panicked ==> Going(fs, s0, xs + [b], base, freed) && |fs.mem| == old(|fs.mem|)
    ensures !panicked ==>
              && fs.mem[ip].kind == TDIR && fs.mem[ip].nlink == 1 && Readable(fs.Now(), ip)
              && FileOf(fs.Now(), ip) == dot + dotdot
    ensures !panicked ==> fs.mem[dp] == old(fs.mem[dp]).(nlink := Links.Short(old(fs.mem[dp]).nlink + 1))
    ensures !panicked ==> Readable(fs.Now(), dp) && FileOf(fs.Now(), dp) == old(FileOf(fs.Now(), dp))
  {
    hide FreeMap.BlockMap.Valid, Tree, Logs, FileOf, Readable, Spliced, SoFar, OthersSame, RestSame, Ok, WasFreed,
         FreedIn, AllDense, FileSystem.Valid, Going, Links.Short;
    ghost var t0 := fs.Now();
    SetLinks(fs, dp, Links.Short(fs.mem[dp].nlink + 1), s0, xs, base, freed);
    FileKept(ip, dp, t0, fs.Now());
    ghost var t1 := fs.Now();
    panicked, b := WriteDots(fs, ip, dot, dotdot, s0, xs, base, freed);
    if !panicked {
      FileKept(dp, ip, t1, fs.Now());
      GoingFile(fs, s0, xs + [b], base, freed, ip);
      GoingFile(fs, s0, xs + [b], base, freed, dp);
    }
  }

  /** The rest of create: the dots and the parent's link of a directory, the entry, and iput. */
  method FillNew(fs: FileSystem, ip: int, dp: int, kind: int, de: seq<int>, off: int, dot: seq<int>, dotdot: seq<int>,
                 dref: int, ghost s0: Snap, ghost xs: seq<int>, ghost base: set<int>, ghost freed: set<int>)
    returns (panicked: bool, dgone: bool, ghost at: seq<int>)
    requires Going(fs, s0, xs, base, freed) && base == {ip, dp} && fs.IBlock(ip) in xs && fs.IBlock(dp) in xs
    requires 0 <= ip < |fs.mem| && 0 <= dp < |fs.mem| && ip != dp && dref >= 1 && fs.mem[dp].kind == TDIR
    requires kind != 0 && fs.mem[ip] == Inode(kind, 1, 0, seq(NDIRECT + 1, _ => 0)) && FileOf(fs.Now(), ip) == []
    requires |de| == |dot| == |dotdot| == DIRENT && 0 <= off && off % DIRENT == 0 && off <= fs.mem[dp].size
    modifies fs, fs.fmap
    ensures fs.start == old(fs.start) && fs.ops == old(fs.ops) && |at| <= if kind == TDIR then 3 else 2
    ensures panicked ==> NoRoom(fs, old(fs.mem[dp].size), off) || (kind == TDIR && NoBlock(fs))
    ensures !panicked ==> Going(fs, s0, xs + at, base, freed) && |fs.mem| == old(|fs.mem|)
    ensures !panicked ==>
              && fs.mem[ip].kind == kind && fs.mem[ip].nlink == 1 && Readable(fs.Now(), ip)
              && FileOf(fs.Now(), ip) == (if kind == TDIR then dot + dotdot else [])
    ensures !panicked && dgone ==> fs.mem[dp] == Blank()
    ensures !panicked ==>
              var n := old(fs.mem[dp]).nlink; var m := if kind == TDIR then Links.Short(n + 1) else n;
              && (dgone <==> m == 0 && dref == 1)
              && (!dgone ==>
                    && fs.mem[dp].kind == TDIR && fs.mem[dp].nlink == m && Readable(fs.Now(), dp)
                    && FileOf(fs.Now(), dp) == Spliced(old(FileOf(fs.Now(), dp)), off, de))
  {
    hide FreeMap.BlockMap.Valid, Tree, Logs, FileOf, Readable, Spliced, SoFar, OthersSame, RestSame, Ok, WasFreed,
         FreedIn, AllDense, FileSystem.Valid, Going, Links.Short;
    dgone, at := false, [];
    ghost var ys := xs;
    if kind == TDIR {
      ghost var b := 0;
      panicked, b := FillDots(fs, ip, dp, dot, dotdot, s0, xs, base, freed);
      if panicked {
        return;
      }
      ys := xs + [b];
    }
    assert fs.IBlock(ip) in ys && fs.IBlock(dp) in ys;
    ghost var t2 := fs.Now();
    panicked, at := WriteEntry(fs, dp, de, off, s0, ys, base, freed);
    if panicked {
      at := [];
      return;
    }
    FileKept(ip, dp, t2, fs.Now());
    ghost var zs, t3 := ys + at, fs.Now();
    assert fs.IBlock(dp) in zs;
    dgone := Put(fs, dp, true, dref, s0, zs, base, freed);
    if dgone {
      FileKept(ip, dp, t3, fs.Now());
    }
    GoingFile(fs, s0, zs, base, freed, ip);
    GoingFile(fs, s0, zs, base, freed, dp);
    at := ys[|xs|..] + at;
    assert xs + at == zs;
  }

  /** create for a new name, whose entry `de` goes to the free slot off of the parent; the other
      entries are those a directory starts with. */
  method CreateOp(fs: FileSystem, dp: int, path: seq<Step>, kind: int, de: int -> seq<int>, off: int,
                  dot: int -> seq<int>, dotdot: seq<int>, dref: int)
    returns (panicked: bool, ip: int, dgone: bool, ghost freed: set<int>)
    requires fs.Valid() && 0 <= dp < |fs.mem| && fs.mem[dp].kind == TDIR && kind != 0 && dref >= 1
    requires Steps(path, |fs.mem|, {dp})
    requires (forall i :: |de(i)| == DIRENT == |dot(i)|) && |dotdot| == DIRENT
    requires 0 <= off && off % DIRENT == 0 && off <= fs.mem[dp].size
    modifies fs, fs.fmap
    ensures panicked ==>
              || NoRoom(fs, old(fs.mem[dp].size), off) || (kind == TDIR && NoBlock(fs))
              || (forall j :: 1 <= j < old(|fs.mem|) ==> old(fs.mem)[j].kind != 0)
    ensures !panicked ==> fs.Valid() && |fs.mem| == old(|fs.mem|) && 1 <= ip < |fs.mem| && ip != dp
    ensures !panicked ==> old(fs.mem)[ip].kind == 0 || old(fs.mem)[ip].nlink == 0
    ensures !panicked ==> freed == FreedIn(old(fs.Now()), fs.Now()) - {ip, dp}
    ensures !panicked ==> OneOp(fs, (if kind == TDIR then 6 else 5) + |freed|)
    ensures !panicked ==> RestSame({ip, dp} + freed, old(fs.Now()), fs.Now())
    ensures !panicked ==> forall j :: j in freed ==> WasFreed(j, old(fs.Now()), fs.Now())
    ensures !panicked ==>
              && fs.mem[ip].kind == kind && fs.mem[ip].nlink == 1 && Readable(fs.Now(), ip)
              && FileOf(fs.Now(), ip) == (if kind == TDIR then dot(ip) + dotdot else [])
    ensures !panicked && dgone ==> fs.mem[dp] == Blank()
    ensures !panicked ==>
              var n := old(fs.mem[dp]).nlink; var m := if kind == TDIR then Links.Short(n + 1) else n;
              && (dgone <==> m == 0 && dref == 1)
              && (!dgone ==>
                    && fs.mem[dp].kind == TDIR && fs.mem[dp].nlink == m && Readable(fs.Now(), dp)
                    && FileOf(fs.Now(), dp) == Spliced(old(FileOf(fs.Now(), dp)), off, de(ip)))
  {
    hide FreeMap.BlockMap.Valid, Tree, Logs, FileOf, Readable, Spliced, SoFar, OthersSame, RestSame, Ok, WasFreed,
         FreedIn, AllDense, FileSystem.Valid, Going, Links.Short;
    dgone := false;
    ghost var s0, ys, at;
    var ok;
    ok, ip, s0, ys, freed := StartCreate(fs, dp, path, kind);
    if !ok {
      panicked := true;
      return;
    }
    panicked, dgone, at := FillNew(fs, ip, dp, kind, de(ip), off, dot(ip), dotdot, dref, s0, ys, {ip, dp}, freed);
    if !panicked {
      EndCounted(fs, ys + at, {ip, dp}, freed, (if kind == TDIR then 6 else 5) + |freed|);
    }
  }

  /** The beginning of create: the path lookup and ialloc. */
  method StartCreate(fs: FileSystem, dp: int, path: seq<Step>, kind: int)
    returns (ok: bool, ip: int, ghost s0: Snap, ghost ys: seq<int>, ghost freed: set<int>)
    requires fs.Valid() && 0 <= dp < |fs.mem| && fs.mem[dp].kind == TDIR && kind != 0 && Steps(path, |fs.mem|, {dp})
    modifies fs, fs.fmap
    ensures s0 == old(fs.Now()) == fs.start && fs.ops == old(fs.ops)
    ensures !ok ==> forall j :: 1 <= j < old(|fs.mem|) ==> old(fs.mem)[j].kind != 0
    ensures ok ==> 1 <= ip < |fs.mem| == old(|fs.mem|) && ip != dp
    ensures ok ==> old(fs.mem)[ip].kind == 0 || old(fs.mem)[ip].nlink == 0
    ensures ok ==> Going(fs, s0, ys, {ip, dp}, freed) && |ys| == 2 + |freed|
    ensures ok ==> fs.IBlock(ip) in ys && fs.IBlock(dp) in ys
    ensures ok ==> fs.mem[ip] == Inode(kind, 1, 0, seq(NDIRECT + 1, _ => 0)) && FileOf(fs.Now(), ip) == []
    ensures ok ==> SameFile(dp, old(fs.Now()), fs.Now())
  {
    hide FreeMap.BlockMap.Valid, Tree, Logs, FileOf, Readable, SoFar, OthersSame, RestSame, Ok, WasFreed, FreedIn,
         AllDense, FileSystem.Valid, Going;
    ghost var xs, at, all := [fs.IBlock(dp)], [], {};
    s0 := Begin(fs, xs, {dp});
    all, at := Lookup(fs, path, s0, xs, {dp}, {});
    assert SameFile(dp, s0, fs.Now());
    ghost var s1 := fs.Now();
    KindsBefore(fs, s0, xs + at, {dp}, all);
    ok, ip, ys, freed := MakeInode(fs, kind, s0, xs + at, {dp}, all);
    if ok {
      FileKept(dp, ip, s1, fs.Now());
      assert {dp} + {ip} == {ip, dp} && fs.IBlock(dp) == (xs + at)[0] == ys[0];
    }
  }
}
