/** The free-block bitmap of the file system (fs.c): balloc's search for a clear bit, bfree's
    clearing of a set one, over bytes in bitmap blocks, against the set of blocks in use. */
module FreeMap {
  import opened Params

  /** 1 << k. */
  function Mask(k: int): bv8
    requires 0 <= k < 8
  {
    if k == 0 then 1 else if k == 1 then 2 else if k == 2 then 4 else if k == 3 then 8
    else if k == 4 then 16 else if k == 5 then 32 else if k == 6 then 64 else 128
  }

  predicate Bit(v: bv8, k: int)
    requires 0 <= k < 8
  {
    v & Mask(k) != 0
  }

  function SetBit(v: bv8, k: int): (w: bv8)
    requires 0 <= k < 8
    ensures forall j :: 0 <= j < 8 ==> (Bit(w, j) <==> j == k || Bit(v, j))
  {
    v | Mask(k)
  }

  function ClearBit(v: bv8, k: int): (w: bv8)
    requires 0 <= k < 8
    ensures forall j :: 0 <= j < 8 ==> (Bit(w, j) <==> j != k && Bit(v, j))
  {
    v & !Mask(k)
  }

  ghost predicate Shaped(blocks: seq<seq<bv8>>, size: int) {
    && |blocks| == size / BPB + 1
    && forall i :: 0 <= i < |blocks| ==> |blocks[i]| == BSIZE
  }

  /** The bit of block b. */
  predicate InUse(blocks: seq<seq<bv8>>, b: int)
    requires 0 <= b && b / BPB < |blocks| && |blocks[b / BPB]| == BSIZE
  {
    Bit(blocks[b / BPB][b % BPB / 8], b % BPB % 8)
  }

  /** The byte that holds b's bit, replaced. */
  function WithByte(blocks: seq<seq<bv8>>, b: int, v: bv8): seq<seq<bv8>>
    requires 0 <= b && b / BPB < |blocks| && |blocks[b / BPB]| == BSIZE
  {
    blocks[b / BPB := blocks[b / BPB][b % BPB / 8 := v]]
  }

  /** Replacing a byte so that only bit b of it changes changes no other block's bit. */
  lemma OnlyThisBit(blocks: seq<seq<bv8>>, size: int, b: int, v: bv8, on: bool)
    requires Shaped(blocks, size) && 0 <= b < size
    requires forall j :: 0 <= j < 8 ==>
               (Bit(v, j) <==> if j == b % BPB % 8 then on else Bit(blocks[b / BPB][b % BPB / 8], j))
    ensures Shaped(WithByte(blocks, b, v), size)
    ensures forall c {:trigger InUse(WithByte(blocks, b, v), c)} :: 0 <= c < size ==>
              (InUse(WithByte(blocks, b, v), c) <==> if c == b then on else InUse(blocks, c))
  {
    forall c | 0 <= c < size
      ensures InUse(WithByte(blocks, b, v), c) <==> if c == b then on else InUse(blocks, c)
    {
      assert c / BPB == b / BPB && c % BPB / 8 == b % BPB / 8 && c % BPB % 8 == b % BPB % 8 ==> c == b;
    }
  }

  function Marked(blocks: seq<seq<bv8>>, b: int): seq<seq<bv8>>
    requires 0 <= b && b / BPB < |blocks| && |blocks[b / BPB]| == BSIZE
  {
    WithByte(blocks, b, SetBit(blocks[b / BPB][b % BPB / 8], b % BPB % 8))
  }

  function Cleared(blocks: seq<seq<bv8>>, b: int): seq<seq<bv8>>
    requires 0 <= b && b / BPB < |blocks| && |blocks[b / BPB]| == BSIZE
  {
    WithByte(blocks, b, ClearBit(blocks[b / BPB][b % BPB / 8], b % BPB % 8))
  }

  /** Setting the bit of b marks b and nothing else. */
  lemma MarkedBits(blocks: seq<seq<bv8>>, size: int, b: int)
    requires Shaped(blocks, size) && 0 <= b < size
    ensures Shaped(Marked(blocks, b), size)
    ensures forall c {:trigger InUse(Marked(blocks, b), c)} :: 0 <= c < size ==>
              (InUse(Marked(blocks, b), c) <==> c == b || InUse(blocks, c))
  {
    hide Bit, Mask, SetBit;
    OnlyThisBit(blocks, size, b, SetBit(blocks[b / BPB][b % BPB / 8], b % BPB % 8), true);
  }

  /** Clearing the bit of b frees b and nothing else. */
  lemma ClearedBits(blocks: seq<seq<bv8>>, size: int, b: int)
    requires Shaped(blocks, size) && 0 <= b < size
    ensures Shaped(Cleared(blocks, b), size)
    ensures forall c {:trigger InUse(Cleared(blocks, b), c)} :: 0 <= c < size ==>
              (InUse(Cleared(blocks, b), c) <==> c != b && InUse(blocks, c))
  {
    hide Bit, Mask, ClearBit;
    OnlyThisBit(blocks, size, b, ClearBit(blocks[b / BPB][b % BPB / 8], b % BPB % 8), false);
  }

  class BlockMap {
    const size: int                   // sb.size
    var blocks: seq<seq<bv8>>         // the bitmap blocks
    ghost var used: set<int>          // the blocks marked in use

    ghost predicate Valid()
      reads this
    {
      && 0 < size && Shaped(blocks, size)
      && (forall b :: b in used ==> 0 <= b < size)
      && (forall b {:trigger b in used} {:trigger InUse(blocks, b)} :: 0 <= b < size ==>
           (b in used <==> InUse(blocks, b)))
    }

    /** The bitmap mkfs writes: the first nmeta blocks in use. */
    constructor (size: int, nmeta: int)
      requires 0 <= nmeta <= size && 0 < size
      ensures Valid() && this.size == size
      ensures forall b :: b in used <==> 0 <= b < nmeta
    {
      this.size := size;
      blocks := seq(size / BPB + 1, _ => seq(BSIZE, _ => 0));
      used := {};
      new;
      var i := 0;
      while i < nmeta
        invariant 0 <= i <= nmeta && Valid() && this.size == size
        invariant forall b :: b in used <==> 0 <= b < i
      {
        Mark(i);
        i := i + 1;
      }
    }

    /** Looks for a clear bit in one bitmap block. */
    method Scan(base: int) returns (found: bool, bi: int)
      requires Valid() && 0 <= base < size && base % BPB == 0
      ensures 0 <= bi <= BPB && base + bi <= size
      ensures found ==> bi < BPB && base + bi < size && base + bi !in used
      ensures !found ==> bi == BPB || base + bi == size
      ensures forall c :: base <= c < base + bi ==> c in used
    {
      bi := 0;
      while bi < BPB && base + bi < size
        invariant 0 <= bi <= BPB && base + bi <= size
        invariant forall c :: base <= c < base + bi ==> c in used
      {
        assert (base + bi) / BPB == base / BPB && (base + bi) % BPB == bi;
        assert InUse(blocks, base + bi) == Bit(blocks[base / BPB][bi / 8], bi % 8);
        if !Bit(blocks[base / BPB][bi / 8], bi % 8) {
          return true, bi;
        }
        bi := bi + 1;
      }
      return false, bi;
    }

    /** Finds the first free block and marks it; not ok is the panic "out of blocks". */
    method Take() returns (ok: bool, b: int)
      requires Valid()
      modifies this
      ensures Valid()
      ensures ok ==> 0 <= b < size && b !in old(used) && used == old(used) + {b}
      ensures ok ==> forall c :: 0 <= c < b ==> c in old(used)
      ensures !ok ==> used == old(used) && forall c :: 0 <= c < size ==> c in used
    {
      var base := 0;
      while base < size
        invariant 0 <= base && base % BPB == 0 && Valid() && used == old(used)
        invariant forall c :: 0 <= c < base && c < size ==> c in used
      {
        var found, bi := Scan(base);
        if found {
          Mark(base + bi);
          return true, base + bi;
        }
        base := base + BPB;
      }
      return false, 0;
    }

    method Mark(b: int)
      requires Valid() && 0 <= b < size
      modifies this
      ensures Valid() && used == old(used) + {b}
    {
      MarkedBits(blocks, size, b);
      blocks := Marked(blocks, b);
      used := used + {b};
    }

    /** Clears the bit of b; a true result is the panic "freeing free block". */
    method Release(b: int) returns (panicked: bool)
      requires Valid() && 0 <= b < size
      modifies this
      ensures Valid()
      ensures panicked <==> b !in old(used)
      ensures used == old(used) - {b}
    {
      assert b in used <==> InUse(blocks, b);
      if !Bit(blocks[b / BPB][b % BPB / 8], b % BPB % 8) {
        return true;
      }
      ClearedBits(blocks, size, b);
      blocks := Cleared(blocks, b);
      used := used - {b};
      return false;
    }
  }
}
