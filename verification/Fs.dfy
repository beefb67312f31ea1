/** Inode content operations (fs.c, file.c): balloc, bfree, bmap, itrunc, readi, writei, ialloc,
    the freeing half of iput, and filewrite's chunking, over one state of blocks and inodes. */
module Fs {
  import opened Params
  import opened Collections
  import opened Numbers
  import opened FsTree
  import opened FsBlocks
  import FreeMap

  const TDEV: int := 3
  const IPB: int := 8                // inodes per block

  /** One moment of the file system. */
  datatype Snap = Snap(table: seq<seq<int>>, owner: map<int, (int, int)>, mem: seq<Inode>,
                       blocks: seq<Block>, used: set<int>)

  /** The states a transaction begins and ends in, and the blocks it logs. */
  datatype Transaction = Transaction(before: Snap, after: Snap, logged: set<int>)

  ghost predicate Ok(s: Snap, lo: int) {
    Tree(s.table, s.owner, s.mem, s.blocks, s.used, lo)
  }

  /** Nothing that belongs to an inode other than i differs between s and t. */
  ghost predicate Keeps(i: int, s: Snap, t: Snap) {
    && |t.table| == |s.table| && |t.mem| == |s.mem| && |t.blocks| == |s.blocks|
    && (forall j {:trigger t.table[j]} :: 0 <= j < |s.table| && j != i ==> t.table[j] == s.table[j])
    && (forall j {:trigger t.mem[j]} :: 0 <= j < |s.mem| && j != i ==> t.mem[j] == s.mem[j])
    && (forall b {:trigger b in s.owner} {:trigger t.blocks[b]} ::
         b in s.owner && s.owner[b].0 != i && 0 <= b < |s.blocks| ==>
         b in t.owner && t.owner[b] == s.owner[b] && t.blocks[b] == s.blocks[b])
  }

  lemma KeepsTrans(i: int, s: Snap, t: Snap, u: Snap)
    requires Keeps(i, s, t) && Keeps(i, t, u)
    ensures Keeps(i, s, u)
  {}

  ghost predicate Readable(s: Snap, i: int) {
    0 <= i < |s.table| && |s.mem| == |s.table| && |s.table[i]| == NSLOTS && 0 <= s.mem[i].size <= MAXBYTES
  }

  ghost function FileOf(s: Snap, i: int): seq<int>
    requires Readable(s, i)
  {
    Content(s.table[i], s.blocks, s.mem[i].size)
  }

  /** Inode j, and its file, is the same in s and t. */
  ghost predicate SameFile(j: int, s: Snap, t: Snap) {
    && 0 <= j < |s.mem| == |t.mem| && t.mem[j] == s.mem[j]
    && Readable(s, j) && Readable(t, j) && FileOf(t, j) == FileOf(s, j)
  }

  /** Every inode but i, and its file, is the same in s and t. */
  ghost predicate OthersSame(i: int, s: Snap, t: Snap) {
    && |s.mem| == |t.mem|
    && forall j {:trigger SameFile(j, s, t)} {:trigger t.mem[j]} :: 0 <= j < |t.mem| && j != i ==> SameFile(j, s, t)
  }

  /** The other files read the same. */
  lemma OtherFilesKept(i: int, s: Snap, t: Snap, lo: int, j: int)
    requires Ok(s, lo) && Keeps(i, s, t) && 0 <= j < |s.mem| && j != i && 0 <= s.mem[j].size <= MAXBYTES
    ensures FileOf(t, j) == FileOf(s, j)
  {
    forall x | 0 <= x < NSLOTS && x != NDIRECT && 0 < s.table[j][x] < |s.blocks|
      ensures t.blocks[s.table[j][x]] == s.blocks[s.table[j][x]]
    {
      assert s.owner[s.table[j][x]] == (j, x);
    }
    ContentFrame(s.table[j], s.blocks, t.blocks, s.mem[j].size);
  }

  /** An inode whose slots and blocks are the same has the same file. */
  lemma SameRow(j: int, s: Snap, v: Snap)
    requires 0 <= j < |s.mem| == |v.mem| == |s.table| == |v.table| && v.mem[j] == s.mem[j]
    requires v.table[j] == s.table[j] && v.blocks == s.blocks && Dense(s.table[j], s.mem[j].size)
    ensures SameFile(j, s, v) && Dense(v.table[j], v.mem[j].size)
  {}

  ghost predicate AllDense(s: Snap) {
    |s.table| == |s.mem| && forall j {:trigger s.mem[j]} :: 0 <= j < |s.mem| ==> Dense(s.table[j], s.mem[j].size)
  }

  /** A change to inode i alone, in its record and its slots. */
  lemma OnlyInode(i: int, s: Snap, v: Snap)
    requires AllDense(s) && 0 <= i < |s.mem| && v.blocks == s.blocks && |v.table| == |s.table|
    requires |v.mem| == |s.mem| && v.mem == s.mem[i := v.mem[i]] && v.table == s.table[i := v.table[i]]
    requires Dense(v.table[i], v.mem[i].size)
    ensures OthersSame(i, s, v) && AllDense(v)
  {
    hide SameFile, Dense;
    forall j {:trigger SameFile(j, s, v)} {:trigger v.mem[j]} | 0 <= j < |v.mem| && j != i
      ensures SameFile(j, s, v) && Dense(v.table[j], v.mem[j].size)
    {
      assert Dense(s.table[j], s.mem[j].size);
      SameRow(j, s, v);
    }
  }

  /** The trees do not depend on what an inode says besides its addresses. */
  lemma SameAddresses(i: int, s: Snap, v: Snap, lo: int)
    requires Ok(s, lo) && 0 <= i < |s.mem| && |v.mem| == |s.mem| && v == s.(mem := s.mem[i := v.mem[i]])
    requires v.mem[i].addrs == s.mem[i].addrs
    ensures Ok(v, lo)
  {
    forall j | 0 <= j < |v.mem|
      ensures IsRow(v.table[j], v.mem[j].addrs, v.blocks)
    {
      assert IsRow(s.table[j], s.mem[j].addrs, s.blocks);
    }
  }

  // ---------------------------------------------------------------- what bmap does

  /** From s to t, bmap(i, bn) found or made the block addr. */
  ghost predicate Maps(i: int, bn: int, addr: int, s: Snap, t: Snap, lo: int) {
    && 0 <= bn < MAXFILE && 0 <= i < |s.table| && Ok(s, lo) && Ok(t, lo) && Keeps(i, s, t)
    && t.table[i][SlotOf(bn)] == addr != 0
    && t.mem[i] == s.mem[i].(addrs := t.mem[i].addrs)
    && (forall x {:trigger t.table[i][x]} :: 0 <= x < NSLOTS && x != SlotOf(bn) && x != NDIRECT ==>
         t.table[i][x] == s.table[i][x])
    && (bn < NDIRECT ==> t.table[i][NDIRECT] == s.table[i][NDIRECT])
    && (bn >= NDIRECT ==> t.table[i][NDIRECT] != 0)
    && (s.table[i][NDIRECT] != 0 ==> t.table[i][NDIRECT] == s.table[i][NDIRECT])
    && (forall b {:trigger b in s.owner} {:trigger t.blocks[b]} ::
         b in s.owner && s.owner[b] != (i, NDIRECT) && 0 <= b < |s.blocks| ==>
         t.blocks[b] == s.blocks[b])
    && (s.table[i][SlotOf(bn)] == 0 ==> t.blocks[addr] == Zeroed())
    && (s.table[i][SlotOf(bn)] != 0 ==> t == s)
  }

  /** A fresh zeroed block b in address x of inode i. */
  ghost function WithAddress(s: Snap, i: int, x: int, b: int): Snap
    requires 0 <= i < |s.table| && |s.mem| == |s.table| && |s.table[i]| == NSLOTS && 0 <= x <= NDIRECT
    requires |s.mem[i].addrs| == NDIRECT + 1 && 0 <= b < |s.blocks|
  {
    Snap(s.table[i := s.table[i][x := b]], s.owner[b := (i, x)],
         s.mem[i := s.mem[i].(addrs := s.mem[i].addrs[x := b])], s.blocks[b := Zeroed()], s.used + {b})
  }

  /** A fresh zeroed block b in word k of the indirect block p of inode i. */
  ghost function WithLeaf(s: Snap, i: int, k: int, p: int, b: int): Snap
    requires 0 <= i < |s.table| && |s.table[i]| == NSLOTS && 0 <= k < NINDIRECT
    requires 0 <= b < |s.blocks| && 0 <= p < |s.blocks| && |s.blocks[p]| == BSIZE && b < UINT
  {
    Snap(s.table[i := s.table[i][k + NDIRECT + 1 := b]], s.owner[b := (i, k + NDIRECT + 1)], s.mem,
         s.blocks[b := Zeroed()][p := SetWord(s.blocks[p], k, b)], s.used + {b})
  }

  lemma Fresh(s: Snap, lo: int, b: int)
    requires Ok(s, lo) && 0 <= b < |s.blocks| && b !in s.used
    ensures b !in s.owner && lo <= b
  {}

  lemma WithAddressOk(s: Snap, lo: int, i: int, x: int, b: int)
    requires Ok(s, lo) && 0 <= i < |s.mem| && 0 <= x <= NDIRECT && s.table[i][x] == 0
    requires 0 <= b < |s.blocks| && b !in s.used && |s.mem[i].addrs| == NDIRECT + 1
    ensures Ok(WithAddress(s, i, x, b), lo) && Keeps(i, s, WithAddress(s, i, x, b))
  {
    AllocAddress(s.table, s.owner, s.mem, s.blocks, s.used, lo, i, x, b);
    Fresh(s, lo, b);
  }

  lemma IndirectBlock(s: Snap, lo: int, i: int)
    requires Ok(s, lo) && 0 <= i < |s.mem| && s.table[i][NDIRECT] != 0
    ensures var p := s.table[i][NDIRECT];
            && |s.mem[i].addrs| == NDIRECT + 1 && s.mem[i].addrs[NDIRECT] == p
            && 0 < p < |s.blocks| && |s.blocks[p]| == BSIZE && p in s.owner && s.owner[p] == (i, NDIRECT)
            && forall k :: 0 <= k < NINDIRECT ==> s.table[i][k + NDIRECT + 1] == Word(s.blocks[p], k)
  {
    assert IsRow(s.table[i], s.mem[i].addrs, s.blocks);
    assert s.owner[s.table[i][NDIRECT]] == (i, NDIRECT);
    forall k | 0 <= k < NINDIRECT
      ensures s.table[i][k + NDIRECT + 1] == Word(s.blocks[s.table[i][NDIRECT]], k)
    {
      assert s.table[i][k + NDIRECT + 1] == Slot(s.mem[i].addrs, s.blocks, k + NDIRECT + 1);
    }
  }

  lemma WithLeafOk(s: Snap, lo: int, i: int, k: int, p: int, b: int)
    requires Ok(s, lo) && 0 <= i < |s.mem| && 0 <= k < NINDIRECT && p == s.table[i][NDIRECT] != 0
    requires s.table[i][k + NDIRECT + 1] == 0 && 0 <= b < |s.blocks| && b !in s.used
    ensures 0 < p < |s.blocks| && |s.blocks[p]| == BSIZE && p != b
    ensures Ok(WithLeaf(s, i, k, p, b), lo) && Keeps(i, s, WithLeaf(s, i, k, p, b))
  {
    IndirectBlock(s, lo, i);
    AllocLeaf(s.table, s.owner, s.mem, s.blocks, s.used, lo, i, k, b);
    Fresh(s, lo, b);
  }

  /** bmap's two allocations, or one, or none, come to what Maps says. */
  lemma AddressMaps(i: int, bn: int, addr: int, s: Snap, t: Snap, lo: int)
    requires Ok(s, lo) && 0 <= i < |s.mem| && 0 <= bn < NDIRECT && |s.mem[i].addrs| == NDIRECT + 1
    requires s.table[i][bn] == 0 ==> 0 < addr < |s.blocks| && addr !in s.used && t == WithAddress(s, i, bn, addr)
    requires s.table[i][bn] != 0 ==> t == s && addr == s.table[i][bn]
    ensures Maps(i, bn, addr, s, t, lo)
  {
    if s.table[i][bn] == 0 {
      WithAddressOk(s, lo, i, bn, addr);
      Fresh(s, lo, addr);
    }
  }

  lemma LeafMaps(i: int, k: int, p: int, addr: int, t: Snap, u: Snap, lo: int)
    requires Ok(t, lo) && 0 <= i < |t.mem| && 0 <= k < NINDIRECT && p == t.table[i][NDIRECT] != 0
    requires 0 < p < |t.blocks| && |t.blocks[p]| == BSIZE
    requires t.table[i][k + NDIRECT + 1] == 0 ==>
               0 < addr < |t.blocks| && addr !in t.used && u == WithLeaf(t, i, k, p, addr)
    requires t.table[i][k + NDIRECT + 1] != 0 ==> u == t && addr == t.table[i][k + NDIRECT + 1]
    ensures Maps(i, k + NDIRECT, addr, t, u, lo)
  {
    if t.table[i][k + NDIRECT + 1] == 0 {
      WithLeafOk(t, lo, i, k, p, addr);
      Fresh(t, lo, addr);
      IndirectBlock(t, lo, i);
    }
  }

  lemma AddressThenLeaf(i: int, k: int, p: int, addr: int, s: Snap, t: Snap, u: Snap, lo: int)
    requires Ok(s, lo) && 0 <= i < |s.mem| && 0 <= k < NINDIRECT && |s.mem[i].addrs| == NDIRECT + 1
    requires s.table[i][NDIRECT] == 0 ==> 0 < p < |s.blocks| && p !in s.used && t == WithAddress(s, i, NDIRECT, p)
    requires s.table[i][NDIRECT] != 0 ==> t == s && p == s.table[i][NDIRECT]
    requires Maps(i, k + NDIRECT, addr, t, u, lo)
    ensures Maps(i, k + NDIRECT, addr, s, u, lo)
  {
    hide Tree;
    Shape(s, lo, i);
    if s.table[i][NDIRECT] == 0 {
      WithAddressOk(s, lo, i, NDIRECT, p);
      Fresh(s, lo, p);
      NoIndirect(s, lo, i, k);
      KeepsTrans(i, s, t, u);
    }
  }

  lemma Shape(s: Snap, lo: int, i: int)
    requires Ok(s, lo) && 0 <= i < |s.mem|
    ensures |s.table| == |s.mem| && |s.table[i]| == NSLOTS && (0 < |s.blocks| ==> 0 in s.used) && |s.blocks| < UINT
    ensures |s.mem[i].addrs| == NDIRECT + 1 && forall x :: 0 <= x <= NDIRECT ==> s.table[i][x] == s.mem[i].addrs[x]
  {
    assert IsRow(s.table[i], s.mem[i].addrs, s.blocks);
    forall x | 0 <= x <= NDIRECT
      ensures s.table[i][x] == s.mem[i].addrs[x]
    {
      assert s.table[i][x] == Slot(s.mem[i].addrs, s.blocks, x);
    }
  }

  /** After the first half of bmap there is an indirect block. */
  lemma IndirectAddress(s: Snap, lo: int, i: int, p: int, t: Snap)
    requires Ok(s, lo) && 0 <= i < |s.mem| && |s.mem[i].addrs| == NDIRECT + 1
    requires s.table[i][NDIRECT] == 0 ==> 0 < p < |s.blocks| && p !in s.used && t == WithAddress(s, i, NDIRECT, p)
    requires s.table[i][NDIRECT] != 0 ==> t == s && p == s.table[i][NDIRECT]
    ensures Ok(t, lo) && |t.table| == |t.mem| == |s.mem| && |t.blocks| == |s.blocks|
    ensures 0 in t.used && p in t.used && 0 < p < |t.blocks| && |t.blocks[p]| == BSIZE
    ensures p == t.table[i][NDIRECT] && |t.table[i]| == NSLOTS
    ensures forall k :: 0 <= k < NINDIRECT ==> t.table[i][k + NDIRECT + 1] == Word(t.blocks[p], k)
  {
    if s.table[i][NDIRECT] == 0 {
      WithAddressOk(s, lo, i, NDIRECT, p);
    }
    IndirectBlock(t, lo, i);
  }

  lemma NoIndirect(s: Snap, lo: int, i: int, k: int)
    requires Ok(s, lo) && 0 <= i < |s.mem| && s.table[i][NDIRECT] == 0 && 0 <= k < NINDIRECT
    ensures s.table[i][k + NDIRECT + 1] == 0
  {
    assert IsRow(s.table[i], s.mem[i].addrs, s.blocks);
    assert s.table[i][NDIRECT] == s.mem[i].addrs[NDIRECT];
    assert s.table[i][k + NDIRECT + 1] == Slot(s.mem[i].addrs, s.blocks, k + NDIRECT + 1);
  }

  // ---------------------------------------------------------------- what writei has done so far

  /** Of src, `done` bytes are in place at off; all other bytes are as in s, and nothing is
      mapped beyond what the file then needs. */
  ghost predicate Written(i: int, off: int, src: seq<int>, done: int, s: Snap, t: Snap) {
    && 0 <= i < |s.table| && |s.mem| == |s.table| && Keeps(i, s, t) && |s.table[i]| == NSLOTS
    && 0 <= off && 0 <= done <= |src| && off + done <= MAXBYTES && 0 <= s.mem[i].size <= MAXBYTES
    && t.mem[i] == s.mem[i].(addrs := t.mem[i].addrs)
    && Dense(t.table[i], Max(s.mem[i].size, off + done))
    && (forall k {:trigger Byte(t.table[i], t.blocks, k)} :: 0 <= k < Max(s.mem[i].size, off + done) ==>
         Byte(t.table[i], t.blocks, k) ==
           if off <= k < off + done then src[k - off] else Byte(s.table[i], s.blocks, k))
    && (off + done <= s.mem[i].size ==> t.mem == s.mem && t.table == s.table)
  }

  /** A block with src copied over it at a place. */
  function Patched(data: Block, at: int, src: seq<int>): (r: Block)
    requires 0 <= at && at + |src| <= |data|
    ensures |r| == |data|
  {
    data[..at] + src + data[at + |src|..]
  }

  /** One round of writei's loop. */
  lemma RoundWritten(i: int, off: int, src: seq<int>, done: int, m: int, addr: int, s: Snap, t: Snap, u: Snap,
                     v: Snap, lo: int)
    requires Written(i, off, src, done, s, t) && off <= s.mem[i].size
    requires 0 < m && done + m <= |src| && off + done + m <= MAXBYTES
    requires (off + done) % BSIZE + m <= BSIZE
    requires Maps(i, (off + done) / BSIZE, addr, t, u, lo)
    requires v == u.(blocks := u.blocks[addr := Patched(u.blocks[addr], (off + done) % BSIZE, src[done..done + m])])
    ensures Ok(v, lo)
    ensures Written(i, off, src, done + m, s, v)
  {
    var bn := (off + done) / BSIZE;
    assert u.owner[addr] == (i, SlotOf(bn));
    WriteData(u.table, u.owner, u.mem, u.blocks, u.used, lo, addr, v.blocks[addr]);
    RoundDense(i, off, src, done, m, addr, s, t, u, lo);
    forall k | 0 <= k < Max(s.mem[i].size, off + done + m)
      ensures Byte(v.table[i], v.blocks, k) ==
                if off <= k < off + done + m then src[k - off] else Byte(s.table[i], s.blocks, k)
    {
      RoundByte(i, off, src, done, m, addr, s, t, u, v, lo, k);
    }
    assert Keeps(i, u, v);
    KeepsTrans(i, t, u, v);
    KeepsTrans(i, s, t, v);
  }

  lemma RoundDense(i: int, off: int, src: seq<int>, done: int, m: int, addr: int, s: Snap, t: Snap, u: Snap, lo: int)
    requires Written(i, off, src, done, s, t) && off <= s.mem[i].size
    requires 0 < m && done + m <= |src| && off + done + m <= MAXBYTES
    requires (off + done) % BSIZE + m <= BSIZE
    requires Maps(i, (off + done) / BSIZE, addr, t, u, lo)
    ensures Dense(u.table[i], Max(s.mem[i].size, off + done + m))
    ensures off + done + m <= s.mem[i].size ==> u == t
  {
    hide Ok, Byte;
    var bn := (off + done) / BSIZE;
    MapsAddress(i, bn, addr, t, u, lo);
    forall x | 0 <= x < MAXFILE
      ensures u.table[i][SlotOf(x)] != 0 <==> x * BSIZE < Max(s.mem[i].size, off + done + m)
    {
      assert t.table[i][SlotOf(x)] != 0 <==> x * BSIZE < Max(s.mem[i].size, off + done);
      assert SlotOf(x) != NDIRECT;
    }
  }

  lemma RoundByte(i: int, off: int, src: seq<int>, done: int, m: int, addr: int, s: Snap, t: Snap, u: Snap, v: Snap,
                  lo: int, k: int)
    requires Written(i, off, src, done, s, t) && off <= s.mem[i].size
    requires 0 < m && done + m <= |src| && off + done + m <= MAXBYTES
    requires (off + done) % BSIZE + m <= BSIZE
    requires Maps(i, (off + done) / BSIZE, addr, t, u, lo)
    requires |u.blocks[addr]| == BSIZE
    requires v == u.(blocks := u.blocks[addr := Patched(u.blocks[addr], (off + done) % BSIZE, src[done..done + m])])
    requires 0 <= k < Max(s.mem[i].size, off + done + m)
    ensures Byte(v.table[i], v.blocks, k) ==
              if off <= k < off + done + m then src[k - off] else Byte(s.table[i], s.blocks, k)
  {
    hide Maps, Keeps, Byte, Patched;
    var bn, at, piece := (off + done) / BSIZE, (off + done) % BSIZE, src[done..done + m];
    WithinBlock(off + done, m, k);
    WasMapped(i, off, src, done, s, t, k);
    MapsAddress(i, bn, addr, t, u, lo);
    if k / BSIZE == bn {
      RoundSame(i, bn, addr, t, u, v, lo, at, piece, k);
    } else {
      RoundOther(i, bn, addr, t, u, v, lo, k);
    }
  }

  /** The bytes from p on that fit in p's block, seen from the block. */
  lemma WithinBlock(p: int, m: int, k: int)
    requires 0 <= p && 0 < m && p % BSIZE + m <= BSIZE && 0 <= k
    ensures k / BSIZE == p / BSIZE ==> k % BSIZE - p % BSIZE == k - p
    ensures p <= k < p + m ==> k / BSIZE == p / BSIZE
  {}

  /** Bytes of the file so far lie in mapped blocks. */
  lemma WasMapped(i: int, off: int, src: seq<int>, done: int, s: Snap, t: Snap, k: int)
    requires Written(i, off, src, done, s, t) && off <= s.mem[i].size && 0 <= k < MAXBYTES
    ensures |t.table[i]| == NSLOTS && k / BSIZE < MAXFILE
    ensures k < Max(s.mem[i].size, off + done) ==> t.table[i][SlotOf(k / BSIZE)] != 0
    ensures k < Max(s.mem[i].size, off + done) ==>
              Byte(t.table[i], t.blocks, k) == if off <= k < off + done then src[k - off]
                  else Byte(s.table[i], s.blocks, k)
  {
    assert t.table[i][SlotOf(k / BSIZE)] != 0 <==> k / BSIZE * BSIZE < Max(s.mem[i].size, off + done);
  }

  lemma RoundSame(i: int, bn: int, addr: int, t: Snap, u: Snap, v: Snap, lo: int, at: int, piece: seq<int>, k: int)
    requires Maps(i, bn, addr, t, u, lo) && 0 <= k < MAXBYTES && k / BSIZE == bn && |u.blocks[addr]| == BSIZE
    requires 0 <= at && at + |piece| <= BSIZE && v == u.(blocks := u.blocks[addr := Patched(u.blocks[addr], at, piece)])
    ensures Byte(v.table[i], v.blocks, k) ==
              if at <= k % BSIZE < at + |piece| then piece[k % BSIZE - at] else u.blocks[addr][k % BSIZE]
    ensures |t.table[i]| == NSLOTS
    ensures t.table[i][SlotOf(bn)] != 0 ==> Byte(t.table[i], t.blocks, k) == u.blocks[addr][k % BSIZE]
  {
    MapsAddress(i, bn, addr, t, u, lo);
    assert v.blocks[addr] == Patched(u.blocks[addr], at, piece);
  }

  lemma RoundOther(i: int, bn: int, addr: int, t: Snap, u: Snap, v: Snap, lo: int, k: int)
    requires Maps(i, bn, addr, t, u, lo) && 0 <= k < MAXBYTES && k / BSIZE != bn && |u.blocks[addr]| == BSIZE
    requires |t.table[i]| == NSLOTS && t.table[i][SlotOf(k / BSIZE)] != 0
    requires 0 <= addr < |u.blocks| == |v.blocks| && v == u.(blocks := u.blocks[addr := v.blocks[addr]])
    ensures Byte(v.table[i], v.blocks, k) == Byte(t.table[i], t.blocks, k)
  {
    var x := k / BSIZE;
    var b := t.table[i][SlotOf(x)];
    assert u.owner[addr] == (i, SlotOf(bn));
    assert t.owner[b] == (i, SlotOf(x)) && u.table[i][SlotOf(x)] == b;
    assert u.owner[b] == (i, SlotOf(x));
    assert b != addr;
  }

  // ---------------------------------------------------------------- truncation

  /** During itrunc: the slots of i released so far are empty in the table. */
  ghost predicate Releasing(i: int, s: Snap, table: seq<seq<int>>, owner: map<int, (int, int)>, used: set<int>,
                            lo: int) {
    && 0 <= i < |s.table| && |table| == |s.table|
    && Own(table, owner, lo, |s.blocks|) && Marks(used, owner, lo, |s.blocks|)
    && (forall j {:trigger table[j]} :: 0 <= j < |s.table| && j != i ==> table[j] == s.table[j])
    && (forall b {:trigger b in s.owner} :: b in s.owner && s.owner[b].0 != i ==> b in owner && owner[b] == s.owner[b])
    && (forall b {:trigger b in owner} :: b in owner ==> b in s.owner && owner[b] == s.owner[b])
  }

  lemma ReleaseOne(i: int, s: Snap, table: seq<seq<int>>, owner: map<int, (int, int)>, used: set<int>, lo: int, x: int)
    requires Releasing(i, s, table, owner, used, lo) && 0 <= x < NSLOTS && table[i][x] != 0
    ensures lo <= table[i][x] < |s.blocks| && table[i][x] in owner
    ensures 0 < lo ==> table[i][x] in used
    ensures Releasing(i, s, table[i := table[i][x := 0]], owner - {table[i][x]}, used - {table[i][x]}, lo)
  {
    OwnShrink(table, owner, lo, |s.blocks|, i, x);
  }

  lemma ReleaseNone(i: int, s: Snap, lo: int)
    requires Ok(s, lo) && 0 <= i < |s.mem|
    ensures Releasing(i, s, s.table, s.owner, s.used, lo) && 0 < lo
  {}

  /** The end of itrunc: the inode has no blocks, and those it had are the ones freed. */
  lemma TruncEnds(i: int, s: Snap, v: Snap, lo: int)
    requires Ok(s, lo) && Releasing(i, s, v.table, v.owner, v.used, lo) && v.blocks == s.blocks && AllDense(s)
    requires 0 <= i < |s.mem| && |v.table[i]| == NSLOTS && forall x :: 0 <= x < NSLOTS ==> v.table[i][x] == 0
    requires v.mem == s.mem[i := Inode(s.mem[i].kind, s.mem[i].nlink, 0, seq(NDIRECT + 1, _ => 0))]
    ensures Ok(v, lo) && OthersSame(i, s, v) && AllDense(v)
    ensures forall b :: 0 <= b < |s.blocks| ==> (b in v.used <==> b in s.used && !(b in s.owner && s.owner[b].0 == i))
  {
    TruncTree(i, s, v, lo);
    ReleasingTable(i, s, v.table, v.owner, v.used, lo);
    hide Releasing, Ok, SameFile, OthersSame, AllDense;
    EmptyDense(v.table[i]);
    OnlyInode(i, s, v);
  }

  lemma EmptyDense(row: seq<int>)
    requires |row| == NSLOTS && forall x :: 0 <= x < NSLOTS ==> row[x] == 0
    ensures Dense(row, 0)
  {}

  lemma ReleasingTable(i: int, s: Snap, table: seq<seq<int>>, owner: map<int, (int, int)>, used: set<int>, lo: int)
    requires Ok(s, lo) && Releasing(i, s, table, owner, used, lo) && 0 <= i < |table|
    ensures |s.table| == |s.mem| == |table| && table == s.table[i := table[i]]
  {}

  lemma TruncTree(i: int, s: Snap, v: Snap, lo: int)
    requires Ok(s, lo) && Releasing(i, s, v.table, v.owner, v.used, lo) && v.blocks == s.blocks
    requires 0 <= i < |s.mem| && |v.table[i]| == NSLOTS && forall x :: 0 <= x < NSLOTS ==> v.table[i][x] == 0
    requires v.mem == s.mem[i := Inode(s.mem[i].kind, s.mem[i].nlink, 0, seq(NDIRECT + 1, _ => 0))]
    ensures Ok(v, lo)
    ensures forall b :: 0 <= b < |s.blocks| ==> (b in v.used <==> b in s.used && !(b in s.owner && s.owner[b].0 == i))
  {
    forall b | b in s.owner && s.owner[b].0 == i
      ensures b !in v.owner && lo <= b
    {}
    forall j | 0 <= j < |v.mem|
      ensures IsRow(v.table[j], v.mem[j].addrs, v.blocks)
    {
      assert IsRow(s.table[j], s.mem[j].addrs, s.blocks);
    }
  }

  lemma EmptyRow(s: Snap, lo: int, i: int)
    requires Ok(s, lo) && 0 <= i < |s.mem| && Dense(s.table[i], 0)
    ensures s.mem[i].addrs == seq(NDIRECT + 1, _ => 0)
  {
    Shape(s, lo, i);
    forall x | 0 <= x < NDIRECT
      ensures s.table[i][x] == 0
    {
      assert s.table[i][SlotOf(x)] == 0;
    }
  }

  /** An empty inode may change its type. */
  lemma NewInode(i: int, s: Snap, v: Snap, lo: int)
    requires Ok(s, lo) && 0 <= i < |s.mem| && |v.mem| == |s.mem| && AllDense(s)
    requires s.mem[i].size == 0 && v == s.(mem := s.mem[i := v.mem[i]])
    requires v.mem[i].size == 0 && v.mem[i].addrs == seq(NDIRECT + 1, _ => 0)
    ensures Ok(v, lo) && OthersSame(i, s, v) && AllDense(v)
  {
    hide Ok, OthersSame, Dense;
    EmptyRow(s, lo, i);
    SameAddresses(i, s, v, lo);
    OnlyInode(i, s, v);
  }

  lemma NewLinks(i: int, s: Snap, v: Snap, lo: int)
    requires Ok(s, lo) && 0 <= i < |s.mem| && |v.mem| == |s.mem| && v == s.(mem := s.mem[i := v.mem[i]])
    requires v.mem[i] == s.mem[i].(nlink := v.mem[i].nlink) && AllDense(s)
    ensures Ok(v, lo) && OthersSame(i, s, v) && Readable(s, i) && Readable(v, i) && FileOf(v, i) == FileOf(s, i)
    ensures AllDense(v)
  {
    hide Ok, OthersSame;
    SameAddresses(i, s, v, lo);
    OnlyInode(i, s, v);
  }

  lemma OthersTrans(i: int, s: Snap, t: Snap, u: Snap)
    requires OthersSame(i, s, t) && OthersSame(i, t, u)
    ensures OthersSame(i, s, u)
  {
    hide SameFile;
    forall j {:trigger SameFile(j, s, u)} | 0 <= j < |u.mem| && j != i
      ensures SameFile(j, s, u)
    {
      SameTrans(j, s, t, u);
    }
  }

  lemma SameTrans(j: int, s: Snap, t: Snap, u: Snap)
    requires SameFile(j, s, t) && SameFile(j, t, u)
    ensures SameFile(j, s, u)
  {}

  /** t is s with data laid into file i at off, and nothing else different. */
  ghost predicate Stored(i: int, off: int, data: seq<int>, s: Snap, t: Snap) {
    && OthersSame(i, s, t) && Readable(s, i) && Readable(t, i) && 0 <= off <= s.mem[i].size
    && FileOf(t, i) == Spliced(FileOf(s, i), off, data)
  }

  lemma StoredNothing(i: int, off: int, s: Snap, lo: int)
    requires Ok(s, lo) && 0 <= i < |s.mem| && 0 <= off && AllDense(s)
    ensures off <= s.mem[i].size ==> Stored(i, off, [], s, s)
  {
    hide Ok, OthersSame, SameFile;
    assert Dense(s.table[i], s.mem[i].size);
    OnlyInode(i, s, s);
    if off <= s.mem[i].size {
      SpliceNothing(FileOf(s, i), off);
    }
  }

  lemma StoredSize(i: int, off: int, x: seq<int>, s: Snap, t: Snap)
    requires Stored(i, off, x, s, t)
    ensures 0 <= i < |t.mem| && off + |x| <= t.mem[i].size <= MAXBYTES
  {
    assert |FileOf(t, i)| == t.mem[i].size;
  }

  lemma StoredMore(i: int, off: int, x: seq<int>, y: seq<int>, s: Snap, t: Snap, u: Snap)
    requires Stored(i, off, x, s, t) && OthersSame(i, t, u) && Readable(u, i) && off + |x| <= t.mem[i].size
    requires FileOf(u, i) == Spliced(FileOf(t, i), off + |x|, y)
    ensures Stored(i, off, x + y, s, u)
  {
    OthersTrans(i, s, t, u);
    SpliceTwice(FileOf(s, i), off, x, y);
  }

  lemma SpliceNothing(c: seq<int>, off: int)
    requires 0 <= off <= |c|
    ensures Spliced(c, off, []) == c
  {
    assert c[..off] + [] + (if off < |c| then c[off..] else []) == c;
  }

  /** Splicing in two runs of bytes one after the other splices in their concatenation. */
  lemma SpliceTwice(c: seq<int>, off: int, x: seq<int>, y: seq<int>)
    requires 0 <= off <= |c|
    ensures off + |x| <= |Spliced(c, off, x)|
    ensures Spliced(Spliced(c, off, x), off + |x|, y) == Spliced(c, off, x + y)
  {}

  // ---------------------------------------------------------------- the blocks one call logs

  /** Every block whose contents differ in s and t, and the bitmap block of every block that is
      free in one and used in the other, is in l. */
  ghost predicate Covers(bmapstart: int, s: Snap, t: Snap, l: set<int>) {
    && |t.blocks| == |s.blocks|
    && (forall b {:trigger t.blocks[b]} :: 0 <= b < |t.blocks| && t.blocks[b] != s.blocks[b] ==> b in l)
    && (forall b {:trigger b in t.used} {:trigger b in s.used} :: (b in t.used) != (b in s.used) ==>
         b / BPB + bmapstart in l)
  }

  lemma CoversNothing(bmapstart: int, s: Snap, l: set<int>)
    ensures Covers(bmapstart, s, s, l)
  {}

  lemma BlockCovered(bmapstart: int, s: Snap, t: Snap, b: int, l: set<int>)
    requires 0 <= b < |s.blocks| && |t.blocks| == |s.blocks| && t == s.(blocks := s.blocks[b := t.blocks[b]]) && b in l
    ensures Covers(bmapstart, s, t, l)
  {}

  /** The blocks that a new address, or a new word of the indirect block, changes. */
  lemma AddressCovered(bmapstart: int, s: Snap, i: int, x: int, b: int, l: set<int>)
    requires 0 <= i < |s.table| && |s.mem| == |s.table| && |s.table[i]| == NSLOTS && 0 <= x <= NDIRECT
    requires |s.mem[i].addrs| == NDIRECT + 1 && 0 <= b < |s.blocks| && b in l && b / BPB + bmapstart in l
    ensures Covers(bmapstart, s, WithAddress(s, i, x, b), l)
  {}

  lemma LeafCovered(bmapstart: int, s: Snap, i: int, k: int, p: int, b: int, l: set<int>)
    requires 0 <= i < |s.table| && |s.table[i]| == NSLOTS && 0 <= k < NINDIRECT
    requires 0 <= b < |s.blocks| && 0 <= p < |s.blocks| && |s.blocks[p]| == BSIZE && b < UINT
    requires b in l && p in l && b / BPB + bmapstart in l
    ensures Covers(bmapstart, s, WithLeaf(s, i, k, p, b), l)
  {
    hide SetWord;
  }

  /** The inodes are not in the blocks that Covers speaks of. */
  lemma SizeCovered(bmapstart: int, s: Snap, t: Snap, u: Snap, l: set<int>)
    requires exists m :: m <= l && Covers(bmapstart, s, t, m)
    requires u == t.(mem := u.mem)
    ensures Covers(bmapstart, s, u, l)
  {}

  lemma CoversTrans(bmapstart: int, s: Snap, t: Snap, u: Snap, l: set<int>, m: set<int>)
    requires Covers(bmapstart, s, t, l) && Covers(bmapstart, t, u, m) && l <= m
    ensures Covers(bmapstart, s, u, m)
  {}

  /** The slots of inode i that are not empty in s are the same in t. */
  ghost predicate KeepsSlots(i: int, s: Snap, t: Snap) {
    && 0 <= i < |s.table| == |t.table| && |s.table[i]| == |t.table[i]| == NSLOTS
    && forall x {:trigger t.table[i][x]} :: 0 <= x < NSLOTS && s.table[i][x] != 0 ==> t.table[i][x] == s.table[i][x]
  }

  /** A byte inside a file without holes has its block, and keeps it. */
  lemma StaysMapped(i: int, at: int, s: Snap, t: Snap)
    requires 0 <= i < |s.mem| && |s.mem| == |s.table| && Dense(s.table[i], s.mem[i].size) && KeepsSlots(i, s, t)
    requires 0 <= at < s.mem[i].size
    ensures at / BSIZE < MAXFILE && t.table[i][SlotOf(at / BSIZE)] != 0
  {
    assert at / BSIZE * BSIZE <= at;
    assert s.table[i][SlotOf(at / BSIZE)] != 0;
  }

  lemma SlotsTrans(i: int, s: Snap, t: Snap, u: Snap)
    requires KeepsSlots(i, s, t) && KeepsSlots(i, t, u)
    ensures KeepsSlots(i, s, u)
  {
    forall x | 0 <= x < NSLOTS && s.table[i][x] != 0
      ensures u.table[i][x] == s.table[i][x]
    {
      assert t.table[i][x] == s.table[i][x];
    }
  }

  lemma MapsSlots(i: int, bn: int, addr: int, s: Snap, t: Snap, lo: int)
    requires Maps(i, bn, addr, s, t, lo)
    ensures KeepsSlots(i, s, t)
  {
    MapsAddress(i, bn, addr, s, t, lo);
  }

  /** A transaction logs all that it changes: data and bitmap blocks, and the blocks of inodes. */
  ghost predicate Logs(bmapstart: int, inodestart: int, s: Snap, t: Snap, l: set<int>) {
    && Covers(bmapstart, s, t, l) && |t.mem| == |s.mem|
    && (forall j {:trigger t.mem[j]} :: 0 <= j < |t.mem| && t.mem[j] != s.mem[j] ==> j / IPB + inodestart in l)
  }

  lemma LogsNothing(bmapstart: int, inodestart: int, s: Snap)
    ensures Logs(bmapstart, inodestart, s, s, {})
  {}

  lemma LogsTrans(bmapstart: int, inodestart: int, s: Snap, t: Snap, u: Snap, l: set<int>, m: set<int>)
    requires Logs(bmapstart, inodestart, s, t, l) && Logs(bmapstart, inodestart, t, u, m) && l <= m
    ensures Logs(bmapstart, inodestart, s, u, m)
  {}

  /** The transactions lead from s to t. */
  ghost predicate OneAfterAnother(ops: seq<Transaction>, s: Snap, t: Snap) {
    && (ops == [] ==> t == s)
    && (ops != [] ==> ops[0].before == s && ops[|ops| - 1].after == t)
    && (forall k, m {:trigger ops[k], ops[m]} :: 0 <= k && m == k + 1 < |ops| ==> ops[m].before == ops[k].after)
  }

  lemma OneMore(ops: seq<Transaction>, s: Snap, x: Transaction)
    requires OneAfterAnother(ops, s, x.before)
    ensures OneAfterAnother(ops + [x], s, x.after)
  {}

  ghost function DataBlocks(row: seq<int>, first: int, last: int): set<int>
    requires |row| == NSLOTS && 0 <= first && last < MAXFILE
  {
    set bn | first <= bn <= last :: row[SlotOf(bn)]
  }

  ghost function IndirectOf(row: seq<int>): set<int>
    requires |row| == NSLOTS
  {
    if row[NDIRECT] == 0 then {} else {row[NDIRECT]}
  }

  lemma {:induction false} DataBlocksCount(row: seq<int>, first: int, last: int)
    requires |row| == NSLOTS && 0 <= first <= last + 1 && last < MAXFILE
    ensures |DataBlocks(row, first, last)| <= last - first + 1
    decreases last - first
  {
    if first <= last {
      DataBlocksCount(row, first, last - 1);
      assert DataBlocks(row, first, last) == DataBlocks(row, first, last - 1) + {row[SlotOf(last)]};
    } else {
      assert DataBlocks(row, first, last) == {};
    }
  }

  /** c with src laid over it from off on. */
  function Spliced(c: seq<int>, off: int, src: seq<int>): seq<int>
    requires 0 <= off <= |c|
  {
    c[..off] + src + if off + |src| < |c| then c[off + |src|..] else []
  }

  /** When all of src is written and the size set, the file is the old one with src spliced in. */
  lemma WrittenContent(i: int, off: int, src: seq<int>, s: Snap, t: Snap)
    requires Written(i, off, src, |src|, s, t) && off <= s.mem[i].size
    ensures Content(t.table[i], t.blocks, Max(s.mem[i].size, off + |src|)) == Spliced(FileOf(s, i), off, src)
  {
    var c := Content(t.table[i], t.blocks, Max(s.mem[i].size, off + |src|));
    var d := Spliced(FileOf(s, i), off, src);
    assert |c| == |d|;
    forall k | 0 <= k < |c|
      ensures c[k] == d[k]
    {
      assert c[k] == Byte(t.table[i], t.blocks, k);
    }
  }

  lemma WrittenStart(i: int, off: int, src: seq<int>, s: Snap, lo: int)
    requires Ok(s, lo) && 0 <= i < |s.mem| && Dense(s.table[i], s.mem[i].size) && 0 <= off <= s.mem[i].size
    ensures Written(i, off, src, 0, s, s)
  {}

  /** The blocks a write of n bytes at off may log: the bitmap, the inode, the indirect block and
      the data blocks it touches. */
  ghost function Footprint(bitmap: set<int>, inode: int, row: seq<int>, off: int, n: int): set<int>
    requires |row| == NSLOTS && 0 <= off && 0 < n && off + n <= MAXBYTES
  {
    bitmap + {inode} + IndirectOf(row) + DataBlocks(row, off / BSIZE, (off + n - 1) / BSIZE)
  }

  /** With one bitmap block, 1536 bytes at any offset log at most 7 distinct blocks. */
  lemma FootprintSmall(bitmap: set<int>, inode: int, row: seq<int>, off: int, n: int)
    requires |row| == NSLOTS && 0 <= off && 0 < n <= 1536 && off + n <= MAXBYTES && |bitmap| <= 1
    ensures |Footprint(bitmap, inode, row, off, n)| <= 7
  {
    DataBlocksCount(row, off / BSIZE, (off + n - 1) / BSIZE);
    assert (off + n - 1) / BSIZE - off / BSIZE <= 3;
  }

  /** The blocks logged before a round are still among the blocks of the longer write. */
  lemma FootprintGrows(i: int, bn: int, addr: int, t: Snap, u: Snap, lo: int, first: int)
    requires Maps(i, bn, addr, t, u, lo) && 0 <= first <= bn
    ensures IndirectOf(t.table[i]) <= IndirectOf(u.table[i])
    ensures DataBlocks(t.table[i], first, bn - 1) <= DataBlocks(u.table[i], first, bn)
    ensures addr in DataBlocks(u.table[i], first, bn)
  {
    assert addr == u.table[i][SlotOf(bn)];
    forall x | first <= x <= bn - 1
      ensures t.table[i][SlotOf(x)] in DataBlocks(u.table[i], first, bn)
    {
      assert SlotOf(x) != NDIRECT && u.table[i][SlotOf(x)] == t.table[i][SlotOf(x)];
    }
  }

  /** What readi copies from one block is a piece of the file. */
  lemma ReadPiece(s: Snap, lo: int, i: int, at: int, m: int, b: int)
    requires Ok(s, lo) && 0 <= i < |s.mem| && 0 <= s.mem[i].size <= MAXBYTES
    requires 0 <= at && 0 < m && at + m <= s.mem[i].size && at % BSIZE + m <= BSIZE
    requires b == s.table[i][SlotOf(at / BSIZE)] != 0
    ensures 0 <= b < |s.blocks| && |s.blocks[b]| == BSIZE
    ensures s.blocks[b][at % BSIZE..at % BSIZE + m] == FileOf(s, i)[at..at + m]
  {
    assert b in s.owner;
    var x := s.blocks[b][at % BSIZE..at % BSIZE + m];
    var y := FileOf(s, i)[at..at + m];
    forall k | 0 <= k < m
      ensures x[k] == y[k]
    {
      assert y[k] == Byte(s.table[i], s.blocks, at + k);
      assert (at + k) / BSIZE == at / BSIZE && (at + k) % BSIZE == at % BSIZE + k;
    }
  }

  /** Another file after a change that keeps it. */
  lemma OtherKept(i: int, s: Snap, v: Snap, lo: int, j: int)
    requires Ok(s, lo) && Keeps(i, s, v) && 0 <= j < |s.mem| == |s.table| && j != i && Dense(s.table[j], s.mem[j].size)
    ensures SameFile(j, s, v) && Dense(v.table[j], v.mem[j].size)
  {
    OtherFilesKept(i, s, v, lo, j);
  }

  /** The end of writei: the size is set, and the file is the old one with src spliced in. */
  lemma WriteEnds(i: int, off: int, src: seq<int>, s: Snap, t: Snap, v: Snap, lo: int)
    requires Ok(s, lo) && Ok(t, lo) && Written(i, off, src, |src|, s, t) && off <= s.mem[i].size && AllDense(s)
    requires 0 <= i < |t.mem| && v == t.(mem := t.mem[i := t.mem[i].(size := Max(s.mem[i].size, off + |src|))])
    ensures Ok(v, lo) && |v.mem| == |s.mem| && Readable(v, i) && FileOf(v, i) == Spliced(FileOf(s, i), off, src)
    ensures AllDense(v) && OthersSame(i, s, v)
    ensures off + |src| <= s.mem[i].size ==> v.mem == s.mem
  {
    hide Ok, SameFile, Spliced, Byte;
    SameAddresses(i, t, v, lo);
    WrittenContent(i, off, src, s, t);
    WrittenKeeps(i, off, src, s, t, v);
    Shape(v, lo, i);
    hide Written, Keeps;
    forall j {:trigger SameFile(j, s, v)} {:trigger v.mem[j]} | 0 <= j < |v.mem| && j != i
      ensures SameFile(j, s, v) && Dense(v.table[j], v.mem[j].size)
    {
      OtherKept(i, s, v, lo, j);
    }
  }

  lemma WrittenKeeps(i: int, off: int, src: seq<int>, s: Snap, t: Snap, v: Snap)
    requires Written(i, off, src, |src|, s, t) && 0 <= i < |t.mem|
    requires v == t.(mem := t.mem[i := t.mem[i].(size := Max(s.mem[i].size, off + |src|))])
    ensures Keeps(i, s, v) && |v.mem| == |s.mem| && |v.table| == |s.table| && Dense(v.table[i], v.mem[i].size)
  {}

  lemma WrittenShape(i: int, off: int, src: seq<int>, s: Snap, t: Snap)
    requires Written(i, off, src, |src|, s, t)
    ensures 0 <= i < |t.mem| == |s.mem| && t.mem[i] == s.mem[i].(addrs := t.mem[i].addrs)
    ensures off + |src| <= s.mem[i].size ==> t.mem == s.mem
    ensures forall j {:trigger t.mem[j]} :: 0 <= j < |t.mem| && j != i ==> t.mem[j] == s.mem[j]
  {}

  /** The code's overflow test. */
  lemma WrapTest(off: int, n: int)
    requires 0 <= off < UINT && 0 <= n < UINT
    ensures (off + n) % UINT < off <==> off + n >= UINT
    ensures off + n < UINT ==> (off + n) % UINT == off + n
  {}

  lemma RoundRange(off: int, tot: int, m: int)
    requires 0 <= off && 0 <= tot && 0 < m <= BSIZE - (off + tot) % BSIZE && off + tot + m <= MAXBYTES
    ensures (off + tot + m - 1) / BSIZE == (off + tot) / BSIZE < MAXFILE && off / BSIZE <= (off + tot) / BSIZE
    ensures m == BSIZE - (off + tot) % BSIZE ==> (off + tot + m) % BSIZE == 0
    ensures 0 < tot && (off + tot) % BSIZE == 0 ==> (off + tot) / BSIZE - 1 == (off + tot - 1) / BSIZE
  {}

  lemma MapsAddress(i: int, bn: int, addr: int, s: Snap, t: Snap, lo: int)
    requires Maps(i, bn, addr, s, t, lo)
    ensures 0 < addr < |t.blocks| && |t.blocks[addr]| == BSIZE
    ensures |s.table[i]| == |t.table[i]| == NSLOTS && |t.table| == |t.mem| == |s.mem| && |t.blocks| == |s.blocks|
    ensures s.table[i][SlotOf(bn)] != 0 ==> t == s && addr == s.table[i][SlotOf(bn)]
  {
    assert t.owner[addr] == (i, SlotOf(bn));
  }

  /** Filewrite has written the first n bytes, to the end or in whole chunks. */
  ghost predicate WrittenSoFar(i: int, off: int, addr: seq<int>, n: int, s: Snap, t: Snap) {
    && 0 <= n <= |addr| && 0 <= i < |s.mem| == |t.mem| && t.mem[i].kind == s.mem[i].kind && 0 <= off
    && (n < |addr| ==> n % 1536 == 0)
    && (n == 0 ==> t == s)
    && (off > s.mem[i].size ==> n == 0)
    && (off <= s.mem[i].size ==> Stored(i, off, addr[..n], s, t))
    && (n > 0 ==> off + n <= MAXBYTES)
  }

  lemma SoFarShape(i: int, off: int, addr: seq<int>, n: int, s: Snap, t: Snap)
    requires WrittenSoFar(i, off, addr, n, s, t)
    ensures 0 <= n <= |addr| && 0 <= i < |s.mem| == |t.mem| && t.mem[i].kind == s.mem[i].kind
    ensures n < |addr| ==> n % 1536 == 0
    ensures n == 0 ==> t == s
    ensures n > 0 ==> Stored(i, off, addr[..n], s, t) && off <= s.mem[i].size && off + n <= MAXBYTES
  {}

  /** A chunk is refused for what can be said before the first one. */
  lemma Refused(i: int, off: int, addr: seq<int>, n: int, n1: int, s: Snap, t: Snap)
    requires WrittenSoFar(i, off, addr, n, s, t) && n < |addr| && n1 == Min(1536, |addr| - n)
    requires off + n > t.mem[i].size || off + n + n1 > MAXBYTES
    ensures off > s.mem[i].size || off + n + n1 > MAXBYTES
  {
    if off <= s.mem[i].size {
      StoredSize(i, off, addr[..n], s, t);
    }
  }

  lemma WrittenMore(i: int, off: int, addr: seq<int>, n: int, n1: int, s: Snap, t: Snap, u: Snap)
    requires WrittenSoFar(i, off, addr, n, s, t) && n < |addr| && n1 == Min(1536, |addr| - n)
    requires off + n <= t.mem[i].size && off + n + n1 <= MAXBYTES
    requires |u.mem| == |t.mem| && u.mem[i].kind == t.mem[i].kind && OthersSame(i, t, u)
    requires Readable(t, i) && Readable(u, i)
    requires FileOf(u, i) == Spliced(FileOf(t, i), off + n, addr[n..n + n1])
    ensures WrittenSoFar(i, off, addr, n + n1, s, u) && off <= s.mem[i].size
  {
    hide Readable, FileOf, Spliced, OthersSame, Stored;
    StoredSize(i, off, addr[..n], s, t);
    StoredMore(i, off, addr[..n], addr[n..n + n1], s, t, u);
    assert addr[..n] + addr[n..n + n1] == addr[..n + n1];
  }

  /** How many rounds of filewrite n bytes take. */
  function Chunks(n: int): int {
    (n + 1535) / 1536
  }

  lemma OneChunkMore(n: int, m: int)
    requires 0 <= n && n % 1536 == 0 && 0 < m <= 1536
    ensures Chunks(n + m) == Chunks(n) + 1 && Chunks(0) == 0
  {}

  class FileSystem {
    const size: int                    // sb.size
    const nmeta: int                   // the first data block
    const inodestart: int
    const bmapstart: int
    const fmap: FreeMap.BlockMap
    var blocks: seq<Block>             // the data area, through the buffer cache
    var disk: seq<Inode>               // the inodes on disk
    var mem: seq<Inode>                // their in-core copies
    ghost var table: seq<seq<int>>
    ghost var owner: map<int, (int, int)>
    ghost var logged: set<int>         // the blocks log_write saw in this transaction
    ghost var start: Snap              // where this transaction began
    ghost var ops: seq<Transaction>    // the transactions that have ended

    ghost function Now(): Snap
      reads this, fmap
    {
      Snap(table, owner, mem, blocks, fmap.used)
    }

    /** Holds inside operations too. */
    ghost predicate Linked()
      reads this, fmap
    {
      fmap.Valid() && 0 < fmap.size == size == |blocks| && |disk| == |mem| && Ok(Now(), nmeta)
    }

    /** Holds between operations: no inode has a hole, free inodes are empty, and the in-core
        inodes are the ones on disk. */
    ghost predicate Valid()
      reads this, fmap
    {
      && Linked() && mem == disk && AllDense(Now())
      && forall i {:trigger mem[i]} :: 0 <= i < |mem| && mem[i].kind == 0 ==> mem[i].size == 0
    }

    /** An empty file system as mkfs lays it out. */
    constructor (size: int, nmeta: int, inodestart: int, bmapstart: int, ninodes: nat)
      requires 0 < nmeta <= size < UINT
      ensures Valid() && |mem| == ninodes && this.size == size && this.nmeta == nmeta
      ensures this.inodestart == inodestart && this.bmapstart == bmapstart
      ensures fresh(fmap) && forall i :: 0 <= i < ninodes ==> mem[i] == Inode(0, 0, 0, seq(NDIRECT + 1, _ => 0))
    {
      this.size, this.nmeta, this.inodestart, this.bmapstart := size, nmeta, inodestart, bmapstart;
      var f := new FreeMap.BlockMap(size, nmeta);
      fmap := f;
      blocks := seq(size, _ => Zeroed());
      var none := seq(ninodes, _ => Inode(0, 0, 0, seq(NDIRECT + 1, _ => 0)));
      mem, disk := none, none;
      table, owner, logged, ops := seq(ninodes, _ => seq(NSLOTS, _ => 0)), map[], {}, [];
      start := Snap([], map[], [], [], {});
    }

    method BeginOp()
      modifies this`logged, this`start
      ensures logged == {} && start == Now()
    {
      logged, start := {}, Now();
    }

    /** Ends a transaction, which must have logged all that it changed. */
    method EndOp()
      requires Logs(bmapstart, inodestart, start, Now(), logged)
      modifies this`ops
      ensures ops == old(ops) + [Transaction(start, Now(), logged)]
    {
      ops := ops + [Transaction(start, Now(), logged)];
    }

    function BBlock(b: int): int { b / BPB + bmapstart }

    function IBlock(i: int): int { i / IPB + inodestart }

    ghost function MapBlocks(): set<int> {
      set b | 0 <= b < size :: BBlock(b)
    }

    lemma UsedSize()
      requires fmap.Valid()
      ensures |fmap.used| <= fmap.size
      ensures (forall c :: 0 <= c < fmap.size ==> c in fmap.used) ==> |fmap.used| == fmap.size
    {
      FullSize(fmap.used, fmap.size);
    }

    /** Allocates a zeroed block; not ok is the panic "out of blocks". */
    method Balloc() returns (ok: bool, b: int)
      requires fmap.Valid() && fmap.size == size == |blocks|
      modifies fmap, this`blocks, this`logged
      ensures fmap.Valid()
      ensures ok ==> 0 <= b < size && b !in old(fmap.used) && fmap.used == old(fmap.used) + {b}
      ensures ok ==> forall c :: 0 <= c < b ==> c in old(fmap.used)
      ensures ok ==> blocks == old(blocks)[b := Zeroed()] && logged == old(logged) + {BBlock(b), b}
      ensures !ok ==> blocks == old(blocks) && forall c :: 0 <= c < size ==> c in fmap.used
      ensures !ok ==> fmap.used == old(fmap.used) && |old(fmap.used)| == size
    {
      ok, b := fmap.Take();
      UsedSize();
      if ok {
        blocks := blocks[b := Zeroed()];
        logged := logged + {BBlock(b), b};
      }
    }

    /** Frees a block; a true result is the panic "freeing free block". */
    method Bfree(b: int) returns (panicked: bool)
      requires fmap.Valid() && fmap.size == size && 0 <= b < size
      modifies fmap, this`logged
      ensures fmap.Valid()
      ensures panicked <==> b !in old(fmap.used)
      ensures fmap.used == old(fmap.used) - {b} && logged == old(logged) + {BBlock(b)}
    {
      panicked := fmap.Release(b);
      logged := logged + {BBlock(b)};
    }

    method Iupdate(i: int)
      requires |disk| == |mem| && 0 <= i < |mem|
      modifies this`disk, this`logged
      ensures disk == old(disk)[i := mem[i]] && logged == old(logged) + {IBlock(i)}
    {
      disk := disk[i := mem[i]];
      logged := logged + {IBlock(i)};
    }

    /** One of the 13 addresses of an inode, filled with a new block if it is empty. */
    method Address(i: int, x: int) returns (ok: bool, addr: int)
      requires fmap.Valid() && fmap.size == size == |blocks| && 0 <= x <= NDIRECT && |table| == |mem| && 0 in fmap.used
      requires 0 <= i < |mem| && |mem[i].addrs| == NDIRECT + 1 && |table[i]| == NSLOTS && mem[i].addrs[x] == table[i][x]
      modifies fmap, this`blocks, this`mem, this`table, this`owner, this`logged
      ensures fmap.Valid() && |blocks| == size && |mem| == old(|mem|)
      ensures old(table)[i][x] != 0 ==> ok && Now() == old(Now()) && logged == old(logged) && addr == table[i][x]
      ensures ok && old(table)[i][x] == 0 ==>
                0 < addr < size && addr !in old(fmap.used) && Now() == WithAddress(old(Now()), i, x, addr)
      ensures !ok ==> forall c :: 0 <= c < size ==> c in fmap.used
      ensures !ok ==> size == |old(fmap.used)| && old(table)[i][x] == 0
      ensures ok ==> |table| == old(|table|) && Charged(old(table)[i], old(fmap.used), table[i], fmap.used, {x})
      ensures ok ==> logged <= old(logged) + MapBlocks() + {addr}
      ensures ok ==> old(logged) <= logged && Covers(bmapstart, old(Now()), Now(), logged)
    {
      hide FreeMap.BlockMap.Valid, Charged, Covers;
      CoversNothing(bmapstart, Now(), logged);
      ok := true;
      ghost var was := Now();
      addr := mem[i].addrs[x];
      FilledSlot(table[i], fmap.used, x);
      if addr == 0 {
        ok, addr := Balloc();
        if ok {
          ghost var next := WithAddress(was, i, x, addr);
          mem := mem[i := mem[i].(addrs := mem[i].addrs[x := addr])];
          ChargedOne(table[i], was.used, x, addr);
          table, owner := next.table, next.owner;
          AddressCovered(bmapstart, was, i, x, addr, logged);
        }
      }
    }

    /** The second half of bmap: the word k of the indirect block p, allocating if it is zero. */
    method Leaf(i: int, k: int, p: int) returns (ok: bool, addr: int)
      requires fmap.Valid() && fmap.size == size == |blocks| < UINT && 0 <= k < NINDIRECT
      requires 0 <= i < |table| && |table[i]| == NSLOTS && 0 in fmap.used
      requires 0 < p < size && p in fmap.used && |blocks[p]| == BSIZE && Word(blocks[p], k) == table[i][k + NDIRECT + 1]
      modifies fmap, this`blocks, this`table, this`owner, this`logged
      ensures fmap.Valid() && |blocks| == size
      ensures old(table)[i][k + NDIRECT + 1] != 0 ==>
                ok && Now() == old(Now()) && logged == old(logged) && addr == table[i][k + NDIRECT + 1]
      ensures ok && old(table)[i][k + NDIRECT + 1] == 0 ==>
                0 < addr < size && addr !in old(fmap.used) && Now() == WithLeaf(old(Now()), i, k, p, addr)
      ensures !ok ==> forall c :: 0 <= c < size ==> c in fmap.used
      ensures !ok ==> size == |old(fmap.used)| && old(table)[i][k + NDIRECT + 1] == 0
      ensures ok ==> |table| == old(|table|)
      ensures ok ==> Charged(old(table)[i], old(fmap.used), table[i], fmap.used, {k + NDIRECT + 1})
      ensures ok ==> logged <= old(logged) + MapBlocks() + {p, addr}
      ensures ok ==> old(logged) <= logged && Covers(bmapstart, old(Now()), Now(), logged)
    {
      hide FreeMap.BlockMap.Valid, Word, SetWord, Charged, Covers;
      CoversNothing(bmapstart, Now(), logged);
      ok := true;
      ghost var was := Now();
      addr := Word(blocks[p], k);
      FilledSlot(table[i], fmap.used, k + NDIRECT + 1);
      if addr == 0 {
        ok, addr := Balloc();
        if ok {
          ghost var next := WithLeaf(was, i, k, p, addr);
          blocks := blocks[p := SetWord(blocks[p], k, addr)];
          logged := logged + {p};
          ChargedOne(table[i], was.used, k + NDIRECT + 1, addr);
          table, owner := next.table, next.owner;
          LeafCovered(bmapstart, was, i, k, p, addr, logged);
        }
      }
    }

    /** bmap for a block behind the indirect block. */
    method Indirect(i: int, k: int) returns (ok: bool, addr: int)
      requires Linked() && 0 <= i < |mem| && 0 <= k < NINDIRECT
      requires |mem[i].addrs| == NDIRECT + 1 && mem[i].addrs[NDIRECT] == table[i][NDIRECT]
      modifies fmap, this`blocks, this`mem, this`table, this`owner, this`logged
      ensures fmap.Valid() && |blocks| == size && |mem| == old(|mem|)
      ensures ok ==> Maps(i, k + NDIRECT, addr, old(Now()), Now(), nmeta)
      ensures !ok ==> forall c :: 0 <= c < size ==> c in fmap.used
      ensures !ok ==> size - |old(fmap.used)| < |SlotsFor(k + NDIRECT) - Filled(old(table)[i])|
      ensures ok ==> |table| == old(|table|)
      ensures ok ==> Charged(old(table)[i], old(fmap.used), table[i], fmap.used, SlotsFor(k + NDIRECT))
      ensures ok ==> logged <= old(logged) + MapBlocks() + IndirectOf(table[i]) + {addr}
      ensures ok ==> old(logged) <= logged && Covers(bmapstart, old(Now()), Now(), logged)
      ensures old(table)[i][k + NDIRECT + 1] != 0 ==> ok && logged == old(logged)
    {
      hide Tree, Maps, Slot, FreeMap.BlockMap.Valid, WithAddress, WithLeaf, Keeps, Covers, Charged, Filled, SlotsFor;
      ghost var was := Now();
      Shape(was, nmeta, i);
      if table[i][NDIRECT] == 0 {
        NoIndirect(was, nmeta, i, k);
      }
      var p;
      addr := 0;
      ok, p := Address(i, NDIRECT);
      if !ok {
        OneShort(was.table[i], k + NDIRECT);
      }
      if ok {
        ghost var mid, first := Now(), logged;
        IndirectAddress(was, nmeta, i, p, mid);
        ok, addr := Leaf(i, k, p);
        if !ok {
          LeafShort(was.table[i], was.used, mid.table[i], mid.used, k + NDIRECT);
        } else {
          ChargedTrans(was.table[i], was.used, mid.table[i], mid.used, table[i], fmap.used, {NDIRECT},
                       {k + NDIRECT + 1});
          SlotKinds(k + NDIRECT);
          CoversTrans(bmapstart, was, mid, Now(), first, logged);
          LeafMaps(i, k, p, addr, mid, Now(), nmeta);
          AddressThenLeaf(i, k, p, addr, was, mid, Now(), nmeta);
        }
      }
    }

    /** The disk block of the file's block bn, allocated if there is none; not ok is a panic. */
    method Bmap(i: int, bn: int) returns (ok: bool, addr: int)
      requires Linked() && 0 <= i < |mem| && 0 <= bn
      modifies fmap, this`blocks, this`mem, this`table, this`owner, this`logged
      ensures ok ==> Linked() && Maps(i, bn, addr, old(Now()), Now(), nmeta)
      ensures !ok ==> bn >= MAXFILE || forall c :: 0 <= c < size ==> c in fmap.used
      ensures !ok && bn < MAXFILE ==> size - |old(fmap.used)| < |SlotsFor(bn) - Filled(old(table)[i])|
      ensures ok ==> Charged(old(table)[i], old(fmap.used), table[i], fmap.used, SlotsFor(bn))
      ensures ok ==> logged <= old(logged) + MapBlocks() + IndirectOf(table[i]) + {addr}
      ensures ok ==> old(logged) <= logged && Covers(bmapstart, old(Now()), Now(), logged)
      ensures bn < MAXFILE && old(table)[i][SlotOf(bn)] != 0 ==> ok && logged == old(logged)
    {
      hide Tree, FreeMap.BlockMap.Valid, Slot, Covers, Charged, Filled, SlotsFor, Keeps, WithAddress;
      ghost var was := Now();
      Shape(was, nmeta, i);
      if bn < NDIRECT {
        ok, addr := Address(i, bn);
        SlotKinds(bn);
        if !ok {
          OneShort(was.table[i], bn);
        }
        if ok {
          AddressMaps(i, bn, addr, was, Now(), nmeta);
        }
      } else if bn - NDIRECT < NINDIRECT {
        ok, addr := Indirect(i, bn - NDIRECT);
      } else {
        ok, addr := false, 0;
      }
    }

    /** One round of readi: the block is mapped, so nothing is allocated. */
    method ReadRound(i: int, at: int, want: int) returns (m: int, piece: seq<int>)
      requires Valid() && 0 <= i < |mem| && 0 <= at && 0 < want && at + want <= mem[i].size
      modifies fmap, this`blocks, this`mem, this`table, this`owner, this`logged
      ensures Valid() && Now() == old(Now()) && logged == old(logged)
      ensures m == Min(want, BSIZE - at % BSIZE) && piece == FileOf(Now(), i)[at..at + m]
    {
      hide Tree, Maps, FileOf, FreeMap.BlockMap.Valid;
      Shape(Now(), nmeta, i);
      assert table[i][SlotOf(at / BSIZE)] != 0;
      ghost var was := Now();
      var ok, b := Bmap(i, at / BSIZE);
      MapsAddress(i, at / BSIZE, b, was, Now(), nmeta);
      m := Min(want, BSIZE - at % BSIZE);
      ReadPiece(was, nmeta, i, at, m, b);
      piece := blocks[b][at % BSIZE..at % BSIZE + m];
    }

    /** Reads up to n bytes at off. */
    method Readi(i: int, off: int, n: int) returns (r: int, dst: seq<int>)
      requires Valid() && 0 <= i < |mem| && mem[i].kind != 0 && mem[i].kind != TDEV
      requires 0 <= off < UINT && 0 <= n < UINT
      modifies fmap, this`blocks, this`mem, this`table, this`owner, this`logged
      ensures Valid() && Now() == old(Now()) && logged == old(logged)
      ensures r == -1 <==> off > mem[i].size || off + n >= UINT
      ensures r != -1 ==> r == Min(n, mem[i].size - off) && dst == FileOf(Now(), i)[off..off + r]
    {
      hide Tree, FreeMap.BlockMap.Valid, Byte;
      Shape(Now(), nmeta, i);
      dst := [];
      WrapTest(off, n);
      if off > mem[i].size || (off + n) % UINT < off {
        return -1, dst;
      }
      ghost var was := Now();
      r := n;
      if off + n > mem[i].size {
        r := mem[i].size - off;
      }
      var tot := 0;
      while tot < r
        invariant Valid() && Now() == was && logged == old(logged)
        invariant 0 <= tot <= r && off + r <= mem[i].size
        invariant dst == FileOf(was, i)[off..off + tot]
      {
        var m, piece := ReadRound(i, off + tot, r - tot);
        dst := dst + piece;
        tot := tot + m;
      }
    }

    /** One round of writei: maps the block and copies into it. */
    method WriteRound(i: int, off: int, src: seq<int>, tot: int, ghost was: Snap) returns (ok: bool, m: int)
      requires Linked() && Written(i, off, src, tot, was, Now()) && off <= was.mem[i].size
      requires 0 <= i < |mem| && tot < |src| && off + |src| <= MAXBYTES
      modifies fmap, this`blocks, this`mem, this`table, this`owner, this`logged
      ensures m == Min(|src| - tot, BSIZE - (off + tot) % BSIZE)
      ensures ok ==> Linked() && Written(i, off, src, tot + m, was, Now())
      ensures !ok ==> forall c :: 0 <= c < size ==> c in fmap.used
      ensures |old(table)| == |old(mem)| && |old(table)[i]| == NSLOTS
      ensures old(table)[i][SlotOf((off + tot) / BSIZE)] != 0 ==> ok
      ensures !ok ==> size - |old(fmap.used)| < |SlotsFor((off + tot) / BSIZE) - Filled(old(table)[i])|
      ensures ok ==> Charged(old(table)[i], old(fmap.used), table[i], fmap.used, SlotsFor((off + tot) / BSIZE))
      ensures ok ==> |mem| == |table| == old(|mem|) && |old(table)[i]| == |table[i]| == NSLOTS
      ensures ok ==> KeepsSlots(i, old(Now()), Now())
      ensures ok && off / BSIZE <= (off + tot) / BSIZE ==>
                && IndirectOf(old(table)[i]) <= IndirectOf(table[i])
                && DataBlocks(old(table)[i], off / BSIZE, (off + tot) / BSIZE - 1)
                   <= DataBlocks(table[i], off / BSIZE, (off + tot) / BSIZE)
                && logged <= old(logged) + MapBlocks() + IndirectOf(table[i])
                             + DataBlocks(table[i], off / BSIZE, (off + tot) / BSIZE)
      ensures ok ==> old(logged) <= logged && Covers(bmapstart, old(Now()), Now(), logged)
    {
      hide Tree, Maps, Keeps, FreeMap.BlockMap.Valid, DataBlocks, IndirectOf, Covers, Charged, Filled, SlotsFor;
      Shape(Now(), nmeta, i);
      ghost var t := Now();
      var addr;
      ok, addr := Bmap(i, (off + tot) / BSIZE);
      m := Min(|src| - tot, BSIZE - (off + tot) % BSIZE);
      if ok {
        ghost var u := Now();
        MapsAddress(i, (off + tot) / BSIZE, addr, t, u, nmeta);
        MapsSlots(i, (off + tot) / BSIZE, addr, t, u, nmeta);
        if off / BSIZE <= (off + tot) / BSIZE {
          FootprintGrows(i, (off + tot) / BSIZE, addr, t, u, nmeta, off / BSIZE);
        }
        ghost var before := logged;
        blocks := blocks[addr := Patched(blocks[addr], (off + tot) % BSIZE, src[tot..tot + m])];
        logged := logged + {addr};
        BlockCovered(bmapstart, u, Now(), addr, logged);
        CoversTrans(bmapstart, t, u, Now(), before, logged);
        RoundWritten(i, off, src, tot, m, addr, was, t, u, Now(), nmeta);
      }
    }

    /** The loop of writei. */
    method WriteLoop(i: int, src: seq<int>, off: int) returns (ok: bool)
      requires Valid() && 0 <= i < |mem| && 0 <= off <= mem[i].size && off + |src| <= MAXBYTES
      modifies fmap, this`blocks, this`mem, this`table, this`owner, this`logged
      ensures !ok ==> off + |src| > old(mem[i].size) && forall c :: 0 <= c < size ==> c in fmap.used
      ensures |old(table)| == |old(mem)|
      ensures ok <==> size - |old(fmap.used)| >= NewBlocks(old(table)[i], off, |src|)
      ensures ok ==> |table| == old(|mem|) && Paid(old(table)[i], old(fmap.used), table[i], fmap.used, off, |src|)
      ensures ok ==> Linked() && Written(i, off, src, |src|, old(Now()), Now()) && |table[i]| == NSLOTS
      ensures ok ==> KeepsSlots(i, old(Now()), Now())
      ensures ok && src == [] ==> logged == old(logged)
      ensures ok && src != [] ==> logged <= old(logged) + Footprint(MapBlocks(), IBlock(i), table[i], off, |src|)
      ensures ok ==> old(logged) <= logged && Covers(bmapstart, old(Now()), Now(), logged)
    {
      hide Tree, Written, DataBlocks, IndirectOf, FreeMap.BlockMap.Valid, Covers, Charged, Filled, SlotsFor, Paid,
           NewBlocks;
      PaidNothing(table[i], fmap.used, off);
      UsedSize();
      CoversNothing(bmapstart, Now(), logged);
      Shape(Now(), nmeta, i);
      ghost var was := Now();
      WrittenStart(i, off, src, was, nmeta);
      var tot := 0;
      while tot < |src|
        invariant 0 <= tot <= |src| && |mem| == |was.mem| == |table|
        invariant 0 < tot < |src| ==> (off + tot) % BSIZE == 0
        invariant Linked() && Written(i, off, src, tot, was, Now()) && |table[i]| == NSLOTS
        invariant tot == 0 ==> logged == old(logged)
        invariant Paid(was.table[i], was.used, table[i], fmap.used, off, tot)
        invariant KeepsSlots(i, was, Now())
        invariant old(logged) <= logged && Covers(bmapstart, was, Now(), logged)
        invariant tot > 0 ==>
                    && (off + tot - 1) / BSIZE < MAXFILE
                    && logged <= old(logged) + MapBlocks() + IndirectOf(table[i])
                                 + DataBlocks(table[i], off / BSIZE, (off + tot - 1) / BSIZE)
      {
        var m;
        ghost var mid, before := Now(), logged;
        if off + |src| <= was.mem[i].size {
          StaysMapped(i, off + tot, was, mid);
        }
        ok, m := WriteRound(i, off, src, tot, was);
        if !ok {
          PaidShort(was.table[i], was.used, mid.table[i], mid.used, off, tot, |src|, size);
          return;
        }
        PaidRound(was.table[i], was.used, mid.table[i], mid.used, table[i], fmap.used, off, tot, m, |src|);
        CoversTrans(bmapstart, was, mid, Now(), before, logged);
        SlotsTrans(i, was, mid, Now());
        RoundRange(off, tot, m);
        tot := tot + m;
      }
      ok := true;
      UsedSize();
      PaidAll(was.table[i], was.used, table[i], fmap.used, off, |src|, size);
    }

    /** Writes src at off. It panics exactly when fewer blocks are free than it takes new ones. */
    method Writei(i: int, src: seq<int>, off: int) returns (panicked: bool, r: int)
      requires Valid() && 0 <= i < |mem| && mem[i].kind != 0 && mem[i].kind != TDEV
      requires 0 <= off < UINT && |src| < UINT
      modifies fmap, this`blocks, this`mem, this`disk, this`table, this`owner, this`logged
      ensures panicked ==> off + |src| > old(mem[i].size) && forall c :: 0 <= c < size ==> c in fmap.used
      ensures |old(table)| == |old(mem)|
      ensures panicked <==> off <= old(mem[i].size) && off + |src| <= MAXBYTES
                            && size - |old(fmap.used)| < NewBlocks(old(table)[i], off, |src|)
      ensures !panicked ==> Valid() && |mem| == old(|mem|) == |table|
      ensures !panicked && r != -1 ==> Paid(old(table)[i], old(fmap.used), table[i], fmap.used, off, |src|)
      ensures !panicked ==> (r == -1 <==> off > old(mem[i].size) || off + |src| > MAXBYTES)
      ensures !panicked && r == -1 ==> Now() == old(Now()) && logged == old(logged)
      ensures !panicked && r != -1 ==>
                && r == |src|
                && mem[i] == old(mem[i]).(size := Max(old(mem[i].size), off + |src|), addrs := mem[i].addrs)
                && FileOf(Now(), i) == Spliced(old(FileOf(Now(), i)), off, src)
                && OthersSame(i, old(Now()), Now()) && KeepsSlots(i, old(Now()), Now())
                && (src == [] ==> logged == old(logged))
                && (src != [] ==> logged <= old(logged) + Footprint(MapBlocks(), IBlock(i), table[i], off, |src|))
                && old(logged) <= logged && Logs(bmapstart, inodestart, old(Now()), Now(), logged)
    {
      hide Tree, Written, DataBlocks, IndirectOf, FreeMap.BlockMap.Valid, Byte, Spliced, OthersSame, Covers, NewBlocks,
          Paid;
      Shape(Now(), nmeta, i);
      WrapTest(off, |src|);
      panicked, r := false, -1;
      if off > mem[i].size || (off + |src|) % UINT < off {
        return;
      }
      if (off + |src|) % UINT > MAXFILE * BSIZE {
        return;
      }
      ghost var was := Now();
      var ok := WriteLoop(i, src, off);
      if !ok {
        return true, -1;
      }
      ghost var t := Now();
      WrittenShape(i, off, src, was, t);
      if |src| > 0 && off + |src| > mem[i].size {
        mem := mem[i := mem[i].(size := off + |src|)];
        Iupdate(i);
      }
      SizeCovered(bmapstart, was, t, Now(), logged);
      WriteEnds(i, off, src, was, t, Now(), nmeta);
      r := |src|;
    }

    /** Frees the block in one slot of an inode being truncated. The panic cannot happen. */
    method FreeSlot(i: int, x: int, b: int, ghost was: Snap)
      requires fmap.Valid() && 0 < fmap.size == size == |was.blocks| && 0 < nmeta
      requires Releasing(i, was, table, owner, fmap.used, nmeta) && 0 <= x < NSLOTS && b == table[i][x] != 0
      modifies fmap, this`table, this`owner, this`logged
      ensures fmap.Valid()
      ensures Releasing(i, was, table, owner, fmap.used, nmeta)
      ensures table == old(table)[i := old(table)[i][x := 0]]
      ensures logged <= old(logged) + MapBlocks()
      ensures old(logged) <= logged && Covers(bmapstart, old(Now()), Now(), logged)
    {
      hide FreeMap.BlockMap.Valid;
      ReleaseOne(i, was, table, owner, fmap.used, nmeta, x);
      var panicked := Bfree(b);
      assert !panicked;
      owner := owner - {b};
      table := table[i := table[i][x := 0]];
    }

    /** Truncates an inode: exactly its blocks are freed. */
    method Itrunc(i: int)
      requires Valid() && 0 <= i < |mem|
      modifies fmap, this`mem, this`disk, this`table, this`owner, this`logged
      ensures Valid() && |mem| == old(|mem|)
      ensures mem[i] == Inode(old(mem[i]).kind, old(mem[i]).nlink, 0, seq(NDIRECT + 1, _ => 0))
      ensures OthersSame(i, old(Now()), Now())
      ensures forall b :: 0 <= b < size ==>
                (b in fmap.used <==> b in old(fmap.used) && !(b in old(owner) && old(owner)[b].0 == i))
      ensures logged <= old(logged) + MapBlocks() + {IBlock(i)}
      ensures old(logged) <= logged && IBlock(i) in logged && Covers(bmapstart, old(Now()), Now(), logged)
    {
      hide Tree, Releasing, FreeMap.BlockMap.Valid, Byte, OthersSame, Slot, Dense, Covers;
      ghost var was := Now();
      Shape(was, nmeta, i);
      ReleaseNone(i, was, nmeta);
      TruncDirect(i);
      ghost var mid, first := Now(), logged;
      TruncIndirect(i, was);
      CoversTrans(bmapstart, was, mid, Now(), first, logged);
      ghost var last, all := Now(), logged;
      assert mem[i].addrs == seq(NDIRECT + 1, _ => 0);
      mem := mem[i := mem[i].(size := 0)];
      Iupdate(i);
      SizeCovered(bmapstart, was, last, Now(), logged);
      TruncEnds(i, was, Now(), nmeta);
    }

    /** The first loop of itrunc. */
    method TruncDirect(i: int)
      requires fmap.Valid() && 0 < fmap.size == size == |blocks| && 0 < nmeta && 0 <= i < |table| == |mem|
      requires Releasing(i, Now(), table, owner, fmap.used, nmeta) && |table[i]| == NSLOTS
      requires |mem[i].addrs| == NDIRECT + 1 && forall x :: 0 <= x <= NDIRECT ==> table[i][x] == mem[i].addrs[x]
      modifies fmap, this`mem, this`table, this`owner, this`logged
      ensures fmap.Valid() && Releasing(i, old(Now()), table, owner, fmap.used, nmeta)
      ensures |table| == old(|table|) && |table[i]| == NSLOTS
      ensures forall x :: 0 <= x < NDIRECT ==> table[i][x] == 0
      ensures forall x :: NDIRECT <= x < NSLOTS ==> table[i][x] == old(table)[i][x]
      ensures |mem| == old(|mem|)
      ensures mem == old(mem)[i := old(mem)[i].(addrs := seq(NDIRECT, _ => 0) + [old(mem)[i].addrs[NDIRECT]])]
      ensures logged <= old(logged) + MapBlocks()
      ensures old(logged) <= logged && Covers(bmapstart, old(Now()), Now(), logged)
    {
      hide Releasing, FreeMap.BlockMap.Valid, Covers;
      ghost var was := Now();
      CoversNothing(bmapstart, was, logged);
      var k := 0;
      while k < NDIRECT
        invariant 0 <= k <= NDIRECT && fmap.Valid() && Releasing(i, was, table, owner, fmap.used, nmeta)
        invariant |table| == |was.table| && |table[i]| == NSLOTS && |mem| == |was.mem| && |mem[i].addrs| == NDIRECT + 1
        invariant forall x :: 0 <= x < k ==> table[i][x] == 0 && mem[i].addrs[x] == 0
        invariant forall x :: k <= x < NSLOTS ==> table[i][x] == was.table[i][x]
        invariant forall x :: k <= x <= NDIRECT ==> mem[i].addrs[x] == was.mem[i].addrs[x]
        invariant mem == was.mem[i := was.mem[i].(addrs := mem[i].addrs)]
        invariant logged <= old(logged) + MapBlocks() && old(logged) <= logged && Covers(bmapstart, was, Now(), logged)
      {
        if mem[i].addrs[k] != 0 {
          ghost var mid, before := Now(), logged;
          FreeSlot(i, k, mem[i].addrs[k], was);
          CoversTrans(bmapstart, was, mid, Now(), before, logged);
          ghost var last := Now();
          mem := mem[i := mem[i].(addrs := mem[i].addrs[k := 0])];
          SizeCovered(bmapstart, was, last, Now(), logged);
        }
        k := k + 1;
      }
      assert mem[i].addrs == seq(NDIRECT, _ => 0) + [was.mem[i].addrs[NDIRECT]];
    }

    /** The second half of itrunc: the leaves and the indirect block itself. */
    method TruncIndirect(i: int, ghost was: Snap)
      requires fmap.Valid() && 0 < fmap.size == size == |blocks| && 0 < nmeta && |table| == |mem|
      requires Ok(was, nmeta) && was.blocks == blocks && 0 <= i < |was.mem| == |mem|
      requires Releasing(i, was, table, owner, fmap.used, nmeta) && |table[i]| == NSLOTS
      requires |mem[i].addrs| == NDIRECT + 1
      requires forall x :: 0 <= x < NDIRECT ==> table[i][x] == 0
      requires forall x :: NDIRECT <= x < NSLOTS ==> table[i][x] == was.table[i][x]
      requires mem[i].addrs[NDIRECT] == table[i][NDIRECT]
      modifies fmap, this`mem, this`table, this`owner, this`logged
      ensures fmap.Valid() && Releasing(i, was, table, owner, fmap.used, nmeta)
      ensures |table| == old(|table|) && |table[i]| == NSLOTS && forall x :: 0 <= x < NSLOTS ==> table[i][x] == 0
      ensures |mem| == old(|mem|) && mem == old(mem)[i := old(mem)[i].(addrs := old(mem)[i].addrs[NDIRECT := 0])]
      ensures logged <= old(logged) + MapBlocks()
      ensures old(logged) <= logged && Covers(bmapstart, old(Now()), Now(), logged)
    {
      hide Tree, Releasing, FreeMap.BlockMap.Valid, Covers;
      ghost var s := Now();
      CoversNothing(bmapstart, s, logged);
      var p := mem[i].addrs[NDIRECT];
      if p != 0 {
        IndirectBlock(was, nmeta, i);
        FreeLeaves(i, p, was);
        ghost var mid, before := Now(), logged;
        FreeSlot(i, NDIRECT, p, was);
        CoversTrans(bmapstart, s, mid, Now(), before, logged);
        ghost var last := Now();
        mem := mem[i := mem[i].(addrs := mem[i].addrs[NDIRECT := 0])];
        SizeCovered(bmapstart, s, last, Now(), logged);
      } else {
        Shape(was, nmeta, i);
        forall x | NDIRECT < x < NSLOTS
          ensures was.table[i][x] == 0
        {
          NoIndirect(was, nmeta, i, x - NDIRECT - 1);
        }
        assert mem[i].addrs[NDIRECT := 0] == mem[i].addrs;
      }
    }

    method FreeLeaves(i: int, p: int, ghost was: Snap)
      requires fmap.Valid() && 0 < fmap.size == size == |blocks| && 0 < nmeta && 0 <= i < |table|
      requires was.blocks == blocks && 0 < p < size && |blocks[p]| == BSIZE
      requires Releasing(i, was, table, owner, fmap.used, nmeta) && |table[i]| == NSLOTS
      requires forall k :: 0 <= k < NINDIRECT ==> table[i][k + NDIRECT + 1] == Word(blocks[p], k)
      modifies fmap, this`table, this`owner, this`logged
      ensures fmap.Valid() && Releasing(i, was, table, owner, fmap.used, nmeta)
      ensures |table| == old(|table|) && |table[i]| == NSLOTS
      ensures forall x :: 0 <= x <= NDIRECT ==> table[i][x] == old(table)[i][x]
      ensures forall x :: NDIRECT < x < NSLOTS ==> table[i][x] == 0
      ensures logged <= old(logged) + MapBlocks()
      ensures old(logged) <= logged && Covers(bmapstart, old(Now()), Now(), logged)
    {
      hide Releasing, FreeMap.BlockMap.Valid, Word, Covers;
      ghost var s := Now();
      CoversNothing(bmapstart, s, logged);
      var j := 0;
      while j < NINDIRECT
        invariant 0 <= j <= NINDIRECT && fmap.Valid() && Releasing(i, was, table, owner, fmap.used, nmeta)
        invariant |table| == old(|table|) && |table[i]| == NSLOTS
        invariant forall x :: 0 <= x <= NDIRECT ==> table[i][x] == old(table)[i][x]
        invariant forall x :: NDIRECT < x <= NDIRECT + j ==> table[i][x] == 0
        invariant forall k :: j <= k < NINDIRECT ==> table[i][k + NDIRECT + 1] == Word(blocks[p], k)
        invariant logged <= old(logged) + MapBlocks() && old(logged) <= logged && Covers(bmapstart, s, Now(), logged)
      {
        if Word(blocks[p], j) != 0 {
          ghost var mid, before := Now(), logged;
          FreeSlot(i, j + NDIRECT + 1, Word(blocks[p], j), was);
          CoversTrans(bmapstart, s, mid, Now(), before, logged);
        }
        j := j + 1;
      }
    }

    /** Allocates the first free inode; not ok is the panic "no inodes". */
    method Ialloc(kind: int) returns (ok: bool, inum: int)
      requires Valid() && kind != 0
      modifies this`mem, this`disk, this`logged
      ensures Valid() && |mem| == old(|mem|)
      ensures ok ==>
                && 1 <= inum < |mem| && old(mem[inum]).kind == 0
                && mem == old(mem)[inum := Inode(kind, 0, 0, seq(NDIRECT + 1, _ => 0))]
      ensures ok ==> forall j :: 1 <= j < inum ==> old(mem)[j].kind != 0
      ensures !ok ==> mem == old(mem) && forall j :: 1 <= j < |mem| ==> mem[j].kind != 0
      ensures ok ==> logged == old(logged) + {IBlock(inum)} && Now() == old(Now()).(mem := mem)
      ensures ok ==> OthersSame(inum, old(Now()), Now()) && Readable(Now(), inum) && FileOf(Now(), inum) == []
      ensures ok ==> Logs(bmapstart, inodestart, old(Now()), Now(), logged)
    {
      hide Tree, FreeMap.BlockMap.Valid;
      inum := 1;
      while inum < |disk|
        invariant 1 <= inum
        invariant forall j :: 1 <= j < inum && j < |disk| ==> disk[j].kind != 0
      {
        if disk[inum].kind == 0 {
          ghost var was := Now();
          disk := disk[inum := Inode(kind, 0, 0, seq(NDIRECT + 1, _ => 0))];
          logged := logged + {IBlock(inum)};
          mem := mem[inum := disk[inum]];
          NewInode(inum, was, Now(), nmeta);
          Shape(Now(), nmeta, inum);
          return true, inum;
        }
        inum := inum + 1;
      }
      return false, 0;
    }

    /** iput of an inode with `ref` references, loaded or not: the last reference to a loaded inode
        without links frees it. */
    method Iput(i: int, loaded: bool, ref: int) returns (freed: bool, left: int)
      requires Valid() && 0 <= i < |mem| && (loaded ==> mem[i].kind != 0) && ref >= 1
      modifies fmap, this`mem, this`disk, this`table, this`owner, this`logged
      ensures Valid() && |mem| == old(|mem|) && left == ref - 1
      ensures freed <==> loaded && old(mem[i]).nlink == 0 && ref == 1
      ensures !freed ==> Now() == old(Now()) && logged == old(logged)
      ensures freed ==> mem[i] == Inode(0, 0, 0, seq(NDIRECT + 1, _ => 0)) && OthersSame(i, old(Now()), Now())
      ensures freed ==> forall b :: 0 <= b < size ==>
                (b in fmap.used <==> b in old(fmap.used) && !(b in old(owner) && old(owner)[b].0 == i))
      ensures logged <= old(logged) + MapBlocks() + {IBlock(i)}
      ensures old(logged) <= logged && Logs(bmapstart, inodestart, old(Now()), Now(), logged)
    {
      hide Tree, FreeMap.BlockMap.Valid, Byte, FileOf, Covers;
      CoversNothing(bmapstart, Now(), logged);
      freed := false;
      ghost var was := Now();
      if loaded && mem[i].nlink == 0 && ref == 1 {
        Itrunc(i);
        ghost var mid := Now();
        mem := mem[i := mem[i].(kind := 0)];
        Iupdate(i);
        SizeCovered(bmapstart, was, mid, Now(), logged);
        NewInode(i, mid, Now(), nmeta);
        OthersTrans(i, was, mid, Now());
        freed := true;
      }
      left := ref - 1;
    }

    ghost predicate OneBitmapBlock() {
      size <= BPB
    }

    /** A new link count, written through. */
    method SetLinks(i: int, n: int)
      requires Valid() && 0 <= i < |mem| && mem[i].kind != 0
      modifies this`mem, this`disk, this`logged
      ensures Valid() && mem == old(mem)[i := old(mem)[i].(nlink := n)] && Now() == old(Now()).(mem := mem)
      ensures logged == old(logged) + {IBlock(i)} && Logs(bmapstart, inodestart, old(Now()), Now(), logged)
      ensures OthersSame(i, old(Now()), Now()) && Readable(Now(), i) && FileOf(Now(), i) == old(FileOf(Now(), i))
    {
      hide FreeMap.BlockMap.Valid;
      ghost var was := Now();
      Shape(was, nmeta, i);
      mem := mem[i := mem[i].(nlink := n)];
      Iupdate(i);
      NewLinks(i, was, Now(), nmeta);
    }

    /** A transaction that logs all that it changes, and few blocks when the bitmap is one block. */
    ghost predicate Fits(x: Transaction, limit: int) {
      Logs(bmapstart, inodestart, x.before, x.after, x.logged) && (OneBitmapBlock() ==> |x.logged| <= limit)
    }

    /** From `before` to `after` n transactions ended, leading from s to t, each within the limit. */
    ghost predicate Transacted(before: seq<Transaction>, after: seq<Transaction>, s: Snap, t: Snap, n: int,
                               limit: int) {
      && before <= after && |after| - |before| == n
      && OneAfterAnother(after[|before|..], s, t)
      && forall k {:trigger after[k]} :: |before| <= k < |after| ==> Fits(after[k], limit)
    }

    lemma NoneTransacted(before: seq<Transaction>, s: Snap, limit: int)
      ensures Transacted(before, before, s, s, 0, limit)
    {}

    lemma OneTransacted(before: seq<Transaction>, mid: seq<Transaction>, s: Snap, n: int, limit: int, x: Transaction)
      requires Transacted(before, mid, s, x.before, n, limit) && Fits(x, limit)
      ensures Transacted(before, mid + [x], s, x.after, n + 1, limit)
    {
      hide Fits;
      OneMore(mid[|before|..], s, x);
      assert (mid + [x])[|before|..] == mid[|before|..] + [x];
    }

    /** One round of filewrite: a transaction around one writei. */
    method WriteChunk(i: int, data: seq<int>, off: int) returns (panicked: bool, r: int)
      requires Valid() && 0 <= i < |mem| && mem[i].kind != 0 && mem[i].kind != TDEV
      requires 0 <= off < UINT && 0 < |data| <= 1536
      modifies fmap, this`blocks, this`mem, this`disk, this`table, this`owner, this`logged, this`start, this`ops
      ensures panicked ==> forall c :: 0 <= c < size ==> c in fmap.used
      ensures |old(table)| == |old(mem)|
      ensures panicked <==> off <= old(mem[i].size) && off + |data| <= MAXBYTES
                            && size - |old(fmap.used)| < NewBlocks(old(table)[i], off, |data|)
      ensures !panicked ==> Valid() && |mem| == old(|mem|) == |table| && mem[i].kind == old(mem[i]).kind
      ensures !panicked && r != -1 ==> Paid(old(table)[i], old(fmap.used), table[i], fmap.used, off, |data|)
      ensures !panicked ==> (r == -1 <==> off > old(mem[i].size) || off + |data| > MAXBYTES)
      ensures !panicked && r == -1 ==> Now() == old(Now())
      ensures !panicked && r != -1 ==>
                && r == |data| && Readable(old(Now()), i) && Readable(Now(), i)
                     && FileOf(Now(), i) == Spliced(old(FileOf(Now(), i)), off, data)
                && OthersSame(i, old(Now()), Now())
      ensures !panicked ==> exists x {:trigger Fits(x, 7)} ::
                ops == old(ops) + [x] && x.before == old(Now()) && x.after == Now() && Fits(x, 7)
    {
      hide Tree, FreeMap.BlockMap.Valid, Byte, FileOf, Spliced, Footprint, OthersSame, Stored, Logs, NewBlocks, Paid;
      BeginOp();
      LogsNothing(bmapstart, inodestart, Now());
      Shape(Now(), nmeta, i);
      assert Dense(table[i], mem[i].size);
      panicked, r := Writei(i, data, off);
      if panicked {
        return;
      }
      EndOp();
      ghost var x := Transaction(start, Now(), logged);
      Shape(Now(), nmeta, i);
      assert Dense(table[i], mem[i].size);
      if r != -1 {
        ChunkFits(i, off, |data|);
        SubsetSize(logged, Footprint(MapBlocks(), IBlock(i), table[i], off, |data|));
      }
      assert Fits(x, 7);
    }

    lemma NothingWritten(i: int, off: int, addr: seq<int>)
      requires Valid() && 0 <= i < |mem| && 0 <= off
      ensures WrittenSoFar(i, off, addr, 0, Now(), Now())
    {
      StoredNothing(i, off, Now(), nmeta);
      assert addr[..0] == [];
    }

    lemma TableSize()
      requires Valid()
      ensures |table| == |mem| && |fmap.used| <= size
    {
      UsedSize();
      if |mem| > 0 {
        Shape(Now(), nmeta, 0);
      }
    }

    /** filewrite on a regular file: one transaction for every 1536 bytes. */
    method Filewrite(i: int, off: int, addr: seq<int>)
      returns (panicked: bool, r: int, newOff: int, ghost done: nat)
      requires Valid() && 0 <= i < |mem| && mem[i].kind != 0 && mem[i].kind != TDEV
      requires 0 <= off < UINT - 1536 && |addr| < UINT / 2
      modifies fmap, this`blocks, this`mem, this`disk, this`table, this`owner, this`logged, this`start, this`ops
      ensures panicked ==> forall c :: 0 <= c < size ==> c in fmap.used
      ensures |old(table)| == |old(mem)|
      ensures panicked ==> off <= old(mem[i].size) && size - |old(fmap.used)| < NewBlocks(old(table)[i], off, |addr|)
      ensures !panicked && done == |addr| ==> size - |old(fmap.used)| >= NewBlocks(old(table)[i], off, |addr|)
      ensures !panicked ==> Valid() && |mem| == old(|mem|) && done <= |addr| && newOff == off + done
      ensures !panicked ==> r == if done == |addr| then |addr| else -1
      ensures !panicked && done > 0 ==> Stored(i, off, addr[..done], old(Now()), Now())
      ensures !panicked && done == 0 ==> Now() == old(Now())
      ensures !panicked && addr != [] ==> (done == |addr| <==> off <= old(mem[i].size) && off + |addr| <= MAXBYTES)
      ensures !panicked && done < |addr| ==>
                done % 1536 == 0 && (off > old(mem[i].size) || off + done + Min(1536, |addr| - done) > MAXBYTES)
      ensures !panicked ==> Transacted(old(ops), ops, old(Now()), Now(),
                Chunks(done) + (if done < |addr| then 1 else 0), 7)
    {
      hide Valid, Tree, FreeMap.BlockMap.Valid, Dense, Chunks, WrittenSoFar, Transacted, Readable, FileOf, Spliced,
          OthersSame, Stored, OneAfterAnother, Fits, Paid, NewBlocks;
      TableSize();
      PaidNothing(table[i], fmap.used, off);
      var max := (MAXOPBLOCKS - 1 - 1 - 2) / 2 * 512;
      var n := 0;
      r, panicked, newOff, done := 0, false, off, 0;
      ghost var was := Now();
      NothingWritten(i, off, addr);
      NoneTransacted(ops, was, 7);
      OneChunkMore(0, 1);
      while n < |addr|
        invariant 0 <= n <= |addr| && newOff == off + n && Valid() && |mem| == |was.mem|
        invariant WrittenSoFar(i, off, addr, n, was, Now())
        invariant |table| == |mem| && Paid(was.table[i], was.used, table[i], fmap.used, off, n)
        invariant Transacted(old(ops), ops, was, Now(), Chunks(n), 7)
      {
        var n1 := |addr| - n;
        if n1 > max {
          n1 := max;
        }
        ghost var mid := Now();
        SoFarShape(i, off, addr, n, was, mid);
        ghost var had := ops;
        panicked, r := WriteChunk(i, addr[n..n + n1], newOff);
        if panicked {
          PaidFails(was.table[i], was.used, mid.table[i], mid.used, off, n, n1, |addr|, size);
          return;
        }
        ghost var x :| ops == had + [x] && x.before == mid && x.after == Now() && Fits(x, 7);
        OneTransacted(old(ops), had, was, Chunks(n), 7, x);
        if r < 0 {
          Refused(i, off, addr, n, n1, was, mid);
          break;
        }
        assert r == n1;
        newOff := newOff + r;
        PaidJoin(was.table[i], was.used, mid.table[i], mid.used, table[i], fmap.used, off, n, r);
        OneChunkMore(n, r);
        WrittenMore(i, off, addr, n, n1, was, mid, Now());
        n := n + r;
      }
      SoFarShape(i, off, addr, n, was, Now());
      TableSize();
      if n == |addr| {
        PaidAll(was.table[i], was.used, table[i], fmap.used, off, n, size);
      }
      done := n;
      r := if n == |addr| then |addr| else -1;
    }

    /** One transaction of filewrite stays within 7 blocks when the bitmap is one block. */
    lemma ChunkFits(i: int, off: int, n: int)
      requires 0 <= i < |table| && |table[i]| == NSLOTS && 0 <= off && 0 < n <= 1536 && off + n <= MAXBYTES
      ensures OneBitmapBlock() ==> |Footprint(MapBlocks(), IBlock(i), table[i], off, n)| <= 7
    {
      if OneBitmapBlock() {
        assert MapBlocks() <= {bmapstart};
        SubsetSize(MapBlocks(), {bmapstart});
        assert |{bmapstart}| == 1;
        FootprintSmall(MapBlocks(), IBlock(i), table[i], off, n);
      }
    }
  }
}