/** How many new blocks a write takes (fs.c:371-402, 471-500): one for each data block of its range
    that the file does not have, and one for the indirect block when the range needs it first. */
module FsBlocks {
  import opened Params
  import opened FsTree
  import opened Collections
  import opened Numbers

  /** The slots of an inode that have a block. */
  function Filled(row: seq<int>): set<int> {
    set s | 0 <= s < |row| && row[s] != 0
  }

  /** The slots that block bn of a file needs, and those that blocks lo up to hi need. */
  function SlotsFor(bn: int): set<int> {
    {SlotOf(bn)} + if bn < NDIRECT then {} else {NDIRECT}
  }

  function SlotsOf(lo: int, hi: int): set<int> {
    (set bn | lo <= bn < hi :: SlotOf(bn)) + if lo < hi && NDIRECT < hi then {NDIRECT} else {}
  }

  /** The new blocks that n bytes at off take. */
  function NewBlocks(row: seq<int>, off: int, n: int): nat {
    if n <= 0 then 0 else |SlotsOf(off / BSIZE, (off + n - 1) / BSIZE + 1) - Filled(row)|
  }

  /** The slots got their blocks out of the bitmap, and nothing else changed. */
  ghost predicate Charged(row0: seq<int>, used0: set<int>, row: seq<int>, used: set<int>, slots: set<int>) {
    Filled(row) == Filled(row0) + slots && |used| - |Filled(row)| == |used0| - |Filled(row0)|
  }

  lemma SlotKinds(bn: int)
    ensures bn < NDIRECT ==> SlotsFor(bn) == {bn} && SlotOf(bn) == bn
    ensures bn >= NDIRECT ==> SlotsFor(bn) == {NDIRECT} + {bn + 1} && SlotOf(bn) == bn + 1
  {}

  lemma ChargedNothing(row: seq<int>, used: set<int>, slots: set<int>)
    requires slots <= Filled(row)
    ensures Charged(row, used, row, used, slots)
  {
    assert Filled(row) == Filled(row) + slots;
  }

  lemma FilledSlot(row: seq<int>, used: set<int>, x: int)
    requires 0 <= x < |row|
    ensures row[x] != 0 ==> Charged(row, used, row, used, {x})
  {
    if row[x] != 0 {
      ChargedNothing(row, used, {x});
    }
  }

  lemma ChargedOne(row: seq<int>, used: set<int>, x: int, b: int)
    requires 0 <= x < |row| && b !in used && (row[x] == 0 && b != 0)
    ensures Charged(row, used, row[x := b], used + {b}, {x})
  {
    assert Filled(row[x := b]) == Filled(row) + {x};
  }

  lemma ChargedTrans(row0: seq<int>, used0: set<int>, row1: seq<int>, used1: set<int>, row: seq<int>, used: set<int>,
                     a: set<int>, b: set<int>)
    requires Charged(row0, used0, row1, used1, a) && Charged(row1, used1, row, used, b)
    ensures Charged(row0, used0, row, used, a + b)
  {
    assert Filled(row0) + a + b == Filled(row0) + (a + b);
  }

  lemma SlotsNext(lo: int, bn: int)
    requires lo <= bn
    ensures SlotsOf(lo, bn + 1) == SlotsOf(lo, bn) + SlotsFor(bn)
  {}

  lemma SlotsWithin(lo: int, hi: int, bn: int)
    requires lo <= bn < hi
    ensures SlotsOf(lo, bn + 1) <= SlotsOf(lo, hi)
  {}

  /** The bitmap is full. */
  lemma FullSize(used: set<int>, size: int)
    requires size >= 0 && forall c :: c in used ==> 0 <= c < size
    ensures |used| <= size && ((forall c :: 0 <= c < size ==> c in used) ==> |used| == size)
  {
    SubsetSize(used, UpTo(size));
    if forall c :: 0 <= c < size ==> c in used {
      assert used == UpTo(size);
    }
  }

  lemma Union(a: set<int>, b: set<int>)
    ensures |a + b| == |a| + |b - a|
  {
    assert a + b == a + (b - a);
  }

  /** Where the blocks run out within a range they are too few for the whole of it. */
  lemma TooFew(row0: seq<int>, used0: set<int>, row: seq<int>, used: set<int>, lo: int, bn: int, hi: int, size: int)
    requires Charged(row0, used0, row, used, SlotsOf(lo, bn)) && lo <= bn < hi
    requires size - |used| < |SlotsFor(bn) - Filled(row)|
    ensures size - |used0| < |SlotsOf(lo, hi) - Filled(row0)|
  {
    hide Filled, SlotsOf, SlotsFor;
    SlotsNext(lo, bn);
    SlotsWithin(lo, hi, bn);
    Union(Filled(row0), SlotsOf(lo, bn));
    Union(Filled(row0), SlotsOf(lo, bn + 1));
    Union(Filled(row), SlotsFor(bn));
    assert Filled(row) + SlotsFor(bn) == Filled(row0) + SlotsOf(lo, bn + 1);
    SubsetSize(SlotsOf(lo, bn + 1) - Filled(row0), SlotsOf(lo, hi) - Filled(row0));
  }

  /** Where they did not, they were enough. */
  lemma Enough(row0: seq<int>, used0: set<int>, row: seq<int>, used: set<int>, slots: set<int>, size: int)
    requires Charged(row0, used0, row, used, slots) && |used| <= size
    ensures size - |used0| >= |slots - Filled(row0)|
  {
    hide Filled;
    Union(Filled(row0), slots);
  }

  /** The two blocks that block bn may need. */
  lemma OneShort(row: seq<int>, bn: int)
    requires |row| == NSLOTS && 0 <= bn < MAXFILE && row[SlotOf(bn)] == 0
    ensures |SlotsFor(bn) - Filled(row)| >= 1
    ensures bn >= NDIRECT && row[NDIRECT] == 0 ==> |SlotsFor(bn) - Filled(row)| >= 2
  {
    assert SlotOf(bn) in SlotsFor(bn) - Filled(row);
    SubsetSize({SlotOf(bn)}, SlotsFor(bn) - Filled(row));
    if bn >= NDIRECT && row[NDIRECT] == 0 {
      SubsetSize({SlotOf(bn), NDIRECT}, SlotsFor(bn) - Filled(row));
    }
  }

  /** The indirect block was there or took a block, and then its word found none. */
  lemma LeafShort(row0: seq<int>, used0: set<int>, row: seq<int>, used: set<int>, bn: int)
    requires Charged(row0, used0, row, used, {NDIRECT}) && |row0| == NSLOTS && NDIRECT <= bn < MAXFILE
    requires row0[SlotOf(bn)] == 0
    ensures |used| - |used0| < |SlotsFor(bn) - Filled(row0)|
  {
    Union(Filled(row0), {NDIRECT});
    OneShort(row0, bn);
    if row0[NDIRECT] != 0 {
      assert {NDIRECT} - Filled(row0) == {};
    } else {
      assert {NDIRECT} - Filled(row0) == {NDIRECT};
    }
  }

  // ---------------------------------------------------------------- a write, round by round

  /** The blocks of the first `tot` bytes from off are paid for. */
  ghost predicate Paid(row0: seq<int>, used0: set<int>, row: seq<int>, used: set<int>, off: int, tot: int) {
    Charged(row0, used0, row, used,
            SlotsOf(off / BSIZE, if tot == 0 then off / BSIZE else (off + tot - 1) / BSIZE + 1))
  }

  /** The blocks that a round is about. */
  lemma BlockNumbers(off: int, tot: int, m: int, n: int)
    requires 0 <= off && 0 <= tot < n && m == Min(n - tot, BSIZE - (off + tot) % BSIZE)
    requires 0 < tot ==> (off + tot) % BSIZE == 0
    ensures 0 < m && off / BSIZE <= (off + tot) / BSIZE < (off + n - 1) / BSIZE + 1
    ensures (off + tot + m - 1) / BSIZE == (off + tot) / BSIZE
    ensures 0 < tot ==> (off + tot - 1) / BSIZE + 1 == (off + tot) / BSIZE
  {}

  lemma PaidNothing(row: seq<int>, used: set<int>, off: int)
    ensures Paid(row, used, row, used, off, 0)
  {
    ChargedNothing(row, used, SlotsOf(off / BSIZE, off / BSIZE));
  }

  lemma PaidRound(row0: seq<int>, used0: set<int>, row1: seq<int>, used1: set<int>, row: seq<int>, used: set<int>,
                  off: int, tot: int, m: int, n: int)
    requires Paid(row0, used0, row1, used1, off, tot) && 0 <= off && 0 <= tot < n
    requires m == Min(n - tot, BSIZE - (off + tot) % BSIZE) && (0 < tot ==> (off + tot) % BSIZE == 0)
    requires Charged(row1, used1, row, used, SlotsFor((off + tot) / BSIZE))
    ensures Paid(row0, used0, row, used, off, tot + m)
  {
    hide Charged, SlotsOf, SlotsFor;
    BlockNumbers(off, tot, m, n);
    var lo, bn := off / BSIZE, (off + tot) / BSIZE;
    SlotsNext(lo, bn);
    ChargedTrans(row0, used0, row1, used1, row, used, SlotsOf(lo, bn), SlotsFor(bn));
  }

  lemma PaidShort(row0: seq<int>, used0: set<int>, row: seq<int>, used: set<int>, off: int, tot: int, n: int,
                  size: int)
    requires Paid(row0, used0, row, used, off, tot) && 0 <= off && 0 <= tot < n
    requires 0 < tot ==> (off + tot) % BSIZE == 0
    requires size - |used| < |SlotsFor((off + tot) / BSIZE) - Filled(row)|
    ensures size - |used0| < NewBlocks(row0, off, n)
  {
    hide Charged, SlotsOf, SlotsFor, Filled;
    BlockNumbers(off, tot, Min(n - tot, BSIZE - (off + tot) % BSIZE), n);
    TooFew(row0, used0, row, used, off / BSIZE, (off + tot) / BSIZE, (off + n - 1) / BSIZE + 1, size);
  }

  lemma PaidAll(row0: seq<int>, used0: set<int>, row: seq<int>, used: set<int>, off: int, n: int, size: int)
    requires Paid(row0, used0, row, used, off, n) && 0 <= n && |used0| <= size && |used| <= size
    ensures size - |used0| >= NewBlocks(row0, off, n)
  {
    hide Charged, SlotsOf, Filled;
    if n > 0 {
      Enough(row0, used0, row, used, SlotsOf(off / BSIZE, (off + n - 1) / BSIZE + 1), size);
    }
  }

  /** A write goes on where another ended. */
  lemma PaidJoin(row0: seq<int>, used0: set<int>, row1: seq<int>, used1: set<int>, row: seq<int>, used: set<int>,
                 off: int, n: int, m: int)
    requires Paid(row0, used0, row1, used1, off, n) && Paid(row1, used1, row, used, off + n, m)
    requires 0 <= off && 0 <= n && 0 < m
    ensures Paid(row0, used0, row, used, off, n + m)
  {
    hide Charged, SlotsOf;
    var lo, mid, at, hi := off / BSIZE, if n == 0 then off / BSIZE else (off + n - 1) / BSIZE + 1,
                           (off + n) / BSIZE, (off + n + m - 1) / BSIZE + 1;
    ChargedTrans(row0, used0, row1, used1, row, used, SlotsOf(lo, mid), SlotsOf(at, hi));
    SlotsJoin(lo, mid, at, hi);
  }

  lemma SlotsJoin(lo: int, mid: int, at: int, hi: int)
    requires lo <= at <= mid <= hi
    ensures SlotsOf(lo, mid) + SlotsOf(at, hi) == SlotsOf(lo, hi)
  {}

  lemma SlotsMore(lo: int, mid: int, hi: int)
    requires mid <= hi
    ensures SlotsOf(lo, mid) <= SlotsOf(lo, hi)
  {}

  /** Too few blocks for what follows are too few for all. */
  lemma PaidFails(row0: seq<int>, used0: set<int>, row: seq<int>, used: set<int>, off: int, n: int, m: int, all: int,
                  size: int)
    requires Paid(row0, used0, row, used, off, n) && size - |used| < NewBlocks(row, off + n, m)
    requires 0 <= off && 0 <= n && 0 < m && n + m <= all
    ensures size - |used0| < NewBlocks(row0, off, all)
  {
    hide Filled, SlotsOf;
    var lo, mid, at, hi := off / BSIZE, if n == 0 then off / BSIZE else (off + n - 1) / BSIZE + 1,
                           (off + n) / BSIZE, (off + n + m - 1) / BSIZE + 1;
    SlotsJoin(lo, mid, at, hi);
    Union(Filled(row0), SlotsOf(lo, mid));
    Union(Filled(row0), SlotsOf(lo, hi));
    Union(Filled(row), SlotsOf(at, hi));
    assert Filled(row) + SlotsOf(at, hi) == Filled(row0) + SlotsOf(lo, hi);
    var end := (off + all - 1) / BSIZE + 1;
    SlotsMore(lo, hi, end);
    SubsetSize(SlotsOf(lo, hi) - Filled(row0), SlotsOf(lo, end) - Filled(row0));
  }
}
