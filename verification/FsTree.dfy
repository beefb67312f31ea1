/** The block trees of inodes (fs.c): the slots through which an inode reaches its blocks, who
    owns each block, and the bytes of a file. */
module FsTree {
  import opened Params

  const NDIRECT: int := 12
  const NINDIRECT: int := 128
  const MAXFILE: int := 140
  const MAXBYTES: int := 71680       // MAXFILE * BSIZE
  const NSLOTS: int := 141           // 12 direct blocks, the indirect block, 128 leaves

  type Block = seq<int>              // BSIZE bytes

  /** An inode, on disk or in core: type, nlink, size and block addresses. */
  datatype Inode = Inode(kind: int, nlink: int, size: int, addrs: seq<int>)

  // ---------------------------------------------------------------- words in a block

  /** The k-th little-endian word of a block. */
  function Word(b: Block, k: int): int
    requires |b| == BSIZE && 0 <= k < NINDIRECT
  {
    b[4 * k] + 0x100 * b[4 * k + 1] + 0x1_0000 * b[4 * k + 2] + 0x100_0000 * b[4 * k + 3]
  }

  function SetWord(b: Block, k: int, v: int): (r: Block)
    requires |b| == BSIZE && 0 <= k < NINDIRECT && 0 <= v < UINT
    ensures |r| == BSIZE
  {
    b[4 * k := v % 0x100][4 * k + 1 := v / 0x100 % 0x100]
     [4 * k + 2 := v / 0x1_0000 % 0x100][4 * k + 3 := v / 0x100_0000]
  }

  lemma FourBytes(v: int)
    requires 0 <= v < UINT
    ensures v % 0x100 + 0x100 * (v / 0x100 % 0x100) + 0x1_0000 * (v / 0x1_0000 % 0x100) +
            0x100_0000 * (v / 0x100_0000) == v
  {}

  lemma WordSet(b: Block, k: int, v: int, j: int)
    requires |b| == BSIZE && 0 <= k < NINDIRECT && 0 <= j < NINDIRECT && 0 <= v < UINT
    ensures Word(SetWord(b, k, v), j) == if j == k then v else Word(b, j)
  {
    FourBytes(v);
    var r := SetWord(b, k, v);
    assert r[4 * k] == v % 0x100 && r[4 * k + 1] == v / 0x100 % 0x100;
    assert r[4 * k + 2] == v / 0x1_0000 % 0x100 && r[4 * k + 3] == v / 0x100_0000;
  }

  function Zeroed(): (b: Block)
    ensures |b| == BSIZE && forall k :: 0 <= k < BSIZE ==> b[k] == 0
  {
    seq(BSIZE, _ => 0)
  }

  // ---------------------------------------------------------------- slots

  /** What slot s of an inode holds: a direct address, the indirect block's address (slot 12), or
      a word of the indirect block. Zero is an empty slot. */
  ghost function Slot(addrs: seq<int>, blocks: seq<Block>, s: int): int
    requires |addrs| == NDIRECT + 1 && 0 <= s < NSLOTS
  {
    if s <= NDIRECT then addrs[s]
    else if 0 < addrs[NDIRECT] < |blocks| && |blocks[addrs[NDIRECT]]| == BSIZE then
      Word(blocks[addrs[NDIRECT]], s - NDIRECT - 1)
    else 0
  }

  /** The slot of the file's block bn. */
  function SlotOf(bn: int): int {
    if bn < NDIRECT then bn else bn + 1
  }

  ghost predicate IsRow(row: seq<int>, addrs: seq<int>, blocks: seq<Block>) {
    && |row| == NSLOTS && |addrs| == NDIRECT + 1
    && forall s :: 0 <= s < NSLOTS ==> row[s] == Slot(addrs, blocks, s)
  }

  /** Every slot of every inode, in a table. */
  ghost predicate IsTable(table: seq<seq<int>>, inodes: seq<Inode>, blocks: seq<Block>) {
    && |table| == |inodes|
    && forall i {:trigger table[i]} {:trigger inodes[i]} :: 0 <= i < |table| ==>
         IsRow(table[i], inodes[i].addrs, blocks)
  }

  // ---------------------------------------------------------------- ownership

  /** `owner` inverts the table: each owned block lies in the data area and is reached through
      exactly one slot of exactly one inode. */
  ghost predicate Own(table: seq<seq<int>>, owner: map<int, (int, int)>, lo: int, hi: int) {
    && (forall i :: 0 <= i < |table| ==> |table[i]| == NSLOTS)
    && (forall i, s {:trigger table[i][s]} :: 0 <= i < |table| && 0 <= s < NSLOTS && table[i][s] != 0 ==>
         table[i][s] in owner && owner[table[i][s]] == (i, s))
    && (forall b {:trigger b in owner} :: b in owner ==>
         && lo <= b < hi && 0 <= owner[b].0 < |table| && 0 <= owner[b].1 < NSLOTS
         && table[owner[b].0][owner[b].1] == b)
  }

  lemma OwnGrow(table: seq<seq<int>>, owner: map<int, (int, int)>, lo: int, hi: int, i: int, s: int, b: int)
    requires Own(table, owner, lo, hi) && 0 <= i < |table| && 0 <= s < NSLOTS && table[i][s] == 0
    requires 0 < lo <= b < hi && b !in owner
    ensures Own(table[i := table[i][s := b]], owner[b := (i, s)], lo, hi)
  {}

  lemma OwnShrink(table: seq<seq<int>>, owner: map<int, (int, int)>, lo: int, hi: int, i: int, s: int)
    requires Own(table, owner, lo, hi) && 0 <= i < |table| && 0 <= s < NSLOTS && table[i][s] != 0
    ensures Own(table[i := table[i][s := 0]], owner - {table[i][s]}, lo, hi)
  {
    var b := table[i][s];
    forall j, t | 0 <= j < |table| && 0 <= t < NSLOTS && table[j][t] == b
      ensures j == i && t == s
    {
      assert owner[b] == (i, s) && owner[table[j][t]] == (j, t);
    }
  }

  /** The bitmap marks the metadata blocks and the owned blocks. */
  ghost predicate Marks(used: set<int>, owner: map<int, (int, int)>, lo: int, hi: int) {
    forall b {:trigger b in used} {:trigger b in owner} :: 0 <= b < hi ==> (b in used <==> b < lo || b in owner)
  }

  /** Everything between the trees, the blocks and the bitmap that holds even inside an operation. */
  ghost predicate Tree(table: seq<seq<int>>, owner: map<int, (int, int)>, inodes: seq<Inode>,
                       blocks: seq<Block>, used: set<int>, lo: int)
  {
    && 0 < lo && |blocks| < UINT
    && (forall b :: 0 <= b < |blocks| ==> |blocks[b]| == BSIZE)
    && IsTable(table, inodes, blocks)
    && Own(table, owner, lo, |blocks|)
    && Marks(used, owner, lo, |blocks|)
  }

  /** The statement that Tree gives without its bookkeeping: a bit is set exactly for metadata
      blocks and blocks some inode reaches, and no block is reached through two slots. */
  lemma BitmapIsOwnership(table: seq<seq<int>>, owner: map<int, (int, int)>, inodes: seq<Inode>,
                          blocks: seq<Block>, used: set<int>, lo: int)
    requires Tree(table, owner, inodes, blocks, used, lo)
    requires forall i :: 0 <= i < |inodes| ==> |inodes[i].addrs| == NDIRECT + 1
    ensures forall b :: 0 <= b < |blocks| ==>
              (b in used <==> b < lo || exists i, s {:trigger Slot(inodes[i].addrs, blocks, s)} ::
                 0 <= i < |inodes| && 0 <= s < NSLOTS && Slot(inodes[i].addrs, blocks, s) == b)
    ensures forall i, s, j, t {:trigger Slot(inodes[i].addrs, blocks, s), Slot(inodes[j].addrs, blocks, t)} ::
              0 <= i < |inodes| && 0 <= s < NSLOTS && 0 <= j < |inodes| && 0 <= t < NSLOTS
              && Slot(inodes[i].addrs, blocks, s) == Slot(inodes[j].addrs, blocks, t) != 0
              ==> i == j && s == t
  {
    forall i, s | 0 <= i < |inodes| && 0 <= s < NSLOTS
      ensures Slot(inodes[i].addrs, blocks, s) == table[i][s]
    {
      assert IsRow(table[i], inodes[i].addrs, blocks);
    }
    forall b | lo <= b < |blocks| && b in used
      ensures exists i, s {:trigger Slot(inodes[i].addrs, blocks, s)} ::
                0 <= i < |inodes| && 0 <= s < NSLOTS && Slot(inodes[i].addrs, blocks, s) == b
    {
      assert b in owner;
      assert Slot(inodes[owner[b].0].addrs, blocks, owner[b].1) == b;
    }
  }

  // ---------------------------------------------------------------- rows under updates

  lemma RowFrame(row: seq<int>, addrs: seq<int>, blocks: seq<Block>, blocks': seq<Block>)
    requires IsRow(row, addrs, blocks) && |blocks'| == |blocks|
    requires 0 < addrs[NDIRECT] < |blocks| ==> blocks'[addrs[NDIRECT]] == blocks[addrs[NDIRECT]]
    ensures IsRow(row, addrs, blocks')
  {}

  /** A change to blocks that are nobody's indirect block leaves the table as it is. */
  lemma TableFrame(table: seq<seq<int>>, inodes: seq<Inode>, blocks: seq<Block>, b: int, data: Block)
    requires IsTable(table, inodes, blocks) && 0 <= b < |blocks|
    requires forall i :: 0 <= i < |inodes| ==> table[i][NDIRECT] != b || b == 0
    ensures IsTable(table, inodes, blocks[b := data])
  {
    forall i | 0 <= i < |table|
      ensures IsRow(table[i], inodes[i].addrs, blocks[b := data])
    {
      assert table[i][NDIRECT] == Slot(inodes[i].addrs, blocks, NDIRECT);
      RowFrame(table[i], inodes[i].addrs, blocks, blocks[b := data]);
    }
  }

  /** Writing a fresh zeroed block's address into one of the 13 addresses of an inode. */
  lemma RowAddress(row: seq<int>, addrs: seq<int>, blocks: seq<Block>, s: int, b: int)
    requires IsRow(row, addrs, blocks) && 0 <= s <= NDIRECT && row[s] == 0
    requires 0 < b < |blocks| && blocks[b] == Zeroed()
    ensures IsRow(row[s := b], addrs[s := b], blocks)
  {
    if s == NDIRECT {
      assert addrs[s] == 0;
    }
  }

  /** Writing a block's address into a word of the indirect block. */
  lemma RowLeaf(row: seq<int>, addrs: seq<int>, blocks: seq<Block>, k: int, b: int)
    requires IsRow(row, addrs, blocks) && 0 <= k < NINDIRECT
    requires 0 < addrs[NDIRECT] < |blocks| && |blocks[addrs[NDIRECT]]| == BSIZE && 0 <= b < UINT
    ensures IsRow(row[k + NDIRECT + 1 := b], addrs,
                  blocks[addrs[NDIRECT] := SetWord(blocks[addrs[NDIRECT]], k, b)])
  {
    var p := addrs[NDIRECT];
    forall j | 0 <= j < NINDIRECT
      ensures Word(SetWord(blocks[p], k, b), j) == if j == k then b else Word(blocks[p], j)
    {
      WordSet(blocks[p], k, b, j);
    }
  }

  /** The table row of the inode that holds block b in slot s. */
  lemma OnlyOwner(table: seq<seq<int>>, owner: map<int, (int, int)>, lo: int, hi: int, b: int, i: int, s: int)
    requires Own(table, owner, lo, hi) && 0 < lo && 0 <= i < |table| && 0 <= s < NSLOTS
    requires b != 0 && (b !in owner || owner[b] != (i, s))
    ensures table[i][s] != b
  {}

  // ---------------------------------------------------------------- the three updates of bmap

  lemma AllocAddress(table: seq<seq<int>>, owner: map<int, (int, int)>, inodes: seq<Inode>,
                     blocks: seq<Block>, used: set<int>, lo: int, i: int, s: int, b: int)
    requires Tree(table, owner, inodes, blocks, used, lo)
    requires 0 <= i < |inodes| && 0 <= s <= NDIRECT && table[i][s] == 0
    requires 0 <= b < |blocks| && b !in used
    requires |inodes[i].addrs| == NDIRECT + 1
    ensures Tree(table[i := table[i][s := b]], owner[b := (i, s)],
                 inodes[i := inodes[i].(addrs := inodes[i].addrs[s := b])],
                 blocks[b := Zeroed()], used + {b}, lo)
  {
    assert b !in owner && lo <= b;
    forall j | 0 <= j < |table|
      ensures table[j][NDIRECT] != b
    {
      OnlyOwner(table, owner, lo, |blocks|, b, j, NDIRECT);
    }
    TableFrame(table, inodes, blocks, b, Zeroed());
    RowAddress(table[i], inodes[i].addrs, blocks[b := Zeroed()], s, b);
    OwnGrow(table, owner, lo, |blocks|, i, s, b);
  }

  /** Writing a word of inode i's indirect block changes the table in that slot alone. */
  lemma LeafTable(table: seq<seq<int>>, inodes: seq<Inode>, blocks: seq<Block>, i: int, k: int, b: int)
    requires IsTable(table, inodes, blocks) && 0 <= i < |inodes| && 0 <= k < NINDIRECT && 0 <= b < UINT
    requires |inodes[i].addrs| == NDIRECT + 1 && 0 < inodes[i].addrs[NDIRECT] < |blocks|
    requires |blocks[inodes[i].addrs[NDIRECT]]| == BSIZE
    requires forall j :: 0 <= j < |table| && j != i ==> table[j][NDIRECT] != inodes[i].addrs[NDIRECT]
    ensures var p := inodes[i].addrs[NDIRECT];
            IsTable(table[i := table[i][k + NDIRECT + 1 := b]], inodes, blocks[p := SetWord(blocks[p], k, b)])
  {
    var p := inodes[i].addrs[NDIRECT];
    var blocks' := blocks[p := SetWord(blocks[p], k, b)];
    RowLeaf(table[i], inodes[i].addrs, blocks, k, b);
    forall j | 0 <= j < |table| && j != i
      ensures IsRow(table[j], inodes[j].addrs, blocks')
    {
      assert table[j][NDIRECT] == Slot(inodes[j].addrs, blocks, NDIRECT);
      RowFrame(table[j], inodes[j].addrs, blocks, blocks');
    }
  }

  lemma AllocLeaf(table: seq<seq<int>>, owner: map<int, (int, int)>, inodes: seq<Inode>,
                  blocks: seq<Block>, used: set<int>, lo: int, i: int, k: int, b: int)
    requires Tree(table, owner, inodes, blocks, used, lo)
    requires 0 <= i < |inodes| && 0 <= k < NINDIRECT && table[i][k + NDIRECT + 1] == 0 && table[i][NDIRECT] != 0
    requires 0 <= b < |blocks| && b !in used
    ensures |inodes[i].addrs| == NDIRECT + 1 && 0 < inodes[i].addrs[NDIRECT] < |blocks|
    ensures var p := inodes[i].addrs[NDIRECT];
            p != b &&
            Tree(table[i := table[i][k + NDIRECT + 1 := b]], owner[b := (i, k + NDIRECT + 1)], inodes,
                 blocks[b := Zeroed()][p := SetWord(blocks[p], k, b)], used + {b}, lo)
  {
    assert IsRow(table[i], inodes[i].addrs, blocks);
    var p := inodes[i].addrs[NDIRECT];
    assert table[i][NDIRECT] == p && owner[p] == (i, NDIRECT);
    assert b !in owner && lo <= b;
    forall j | 0 <= j < |table|
      ensures table[j][NDIRECT] != b
      ensures j != i ==> table[j][NDIRECT] != p
    {
      OnlyOwner(table, owner, lo, |blocks|, b, j, NDIRECT);
      if j != i {
        OnlyOwner(table, owner, lo, |blocks|, p, j, NDIRECT);
      }
    }
    TableFrame(table, inodes, blocks, b, Zeroed());
    LeafTable(table, inodes, blocks[b := Zeroed()], i, k, b);
    OwnGrow(table, owner, lo, |blocks|, i, k + NDIRECT + 1, b);
  }

  /** Overwriting a data block. */
  lemma WriteData(table: seq<seq<int>>, owner: map<int, (int, int)>, inodes: seq<Inode>,
                  blocks: seq<Block>, used: set<int>, lo: int, b: int, data: Block)
    requires Tree(table, owner, inodes, blocks, used, lo)
    requires b in owner && owner[b].1 != NDIRECT && |data| == BSIZE
    ensures Tree(table, owner, inodes, blocks[b := data], used, lo)
  {
    forall j | 0 <= j < |table|
      ensures table[j][NDIRECT] != b
    {
      OnlyOwner(table, owner, lo, |blocks|, b, j, NDIRECT);
    }
    TableFrame(table, inodes, blocks, b, data);
  }

  // ---------------------------------------------------------------- content

  /** Byte k of the file whose slots are `row`. */
  ghost function Byte(row: seq<int>, blocks: seq<Block>, k: int): int
    requires |row| == NSLOTS && 0 <= k < MAXBYTES
  {
    var b := row[SlotOf(k / BSIZE)];
    if 0 < b < |blocks| && |blocks[b]| == BSIZE then blocks[b][k % BSIZE] else 0
  }

  ghost function Content(row: seq<int>, blocks: seq<Block>, size: int): (c: seq<int>)
    requires |row| == NSLOTS && 0 <= size <= MAXBYTES
    ensures |c| == size
  {
    seq(size, k requires 0 <= k < size => Byte(row, blocks, k))
  }

  /** Without holes: exactly the file blocks that start below `hi` are mapped. */
  ghost predicate Dense(row: seq<int>, hi: int) {
    && |row| == NSLOTS && 0 <= hi <= MAXBYTES
    && (forall bn :: 0 <= bn < MAXFILE ==> (row[SlotOf(bn)] != 0 <==> bn * BSIZE < hi))
    && (row[NDIRECT] != 0 <==> NDIRECT * BSIZE < hi)
  }

  lemma ContentFrame(row: seq<int>, blocks: seq<Block>, blocks': seq<Block>, size: int)
    requires |row| == NSLOTS && 0 <= size <= MAXBYTES && |blocks'| == |blocks|
    requires forall s :: 0 <= s < NSLOTS && s != NDIRECT && 0 < row[s] < |blocks| ==> blocks'[row[s]] == blocks[row[s]]
    ensures Content(row, blocks', size) == Content(row, blocks, size)
  {
    forall k | 0 <= k < size
      ensures Byte(row, blocks', k) == Byte(row, blocks, k)
    {
      assert 0 <= SlotOf(k / BSIZE) < NSLOTS && SlotOf(k / BSIZE) != NDIRECT;
    }
  }
}
