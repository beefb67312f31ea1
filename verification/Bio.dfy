/** The buffer cache (bio.c): a doubly linked ring of buffers in order of use, recycled only when
    unheld and clean, as a view of the disk that always shows the last value written. */
module Bio {
  import opened Params
  import opened Collections

  const HEAD: int := NBUF            // bcache.head, after the buffers

  type Block = seq<int>

  /** A buffer: its block, B_VALID and B_DIRTY, its references, its lock and its contents. */
  datatype Buf = Buf(dev: int, bno: int, valid: bool, dirty: bool, refcnt: int, locked: bool, data: Block)

  // ---------------------------------------------------------------- the ring

  function Succ(i: int, n: int): int { if i + 1 == n then 0 else i + 1 }

  function Pred(i: int, n: int): int { if i == 0 then n - 1 else i - 1 }

  ghost predicate InRange(c: seq<int>) {
    forall i {:trigger c[i]} :: 0 <= i < |c| ==> 0 <= c[i] <= NBUF
  }

  ghost predicate Forward(next: seq<int>, c: seq<int>)
    requires |next| == NBUF + 1 && InRange(c)
  {
    forall i {:trigger next[c[i]]} :: 0 <= i < |c| ==> next[c[i]] == c[Succ(i, |c|)]
  }

  ghost predicate Backward(prev: seq<int>, c: seq<int>)
    requires |prev| == NBUF + 1 && InRange(c)
  {
    forall i {:trigger prev[c[i]]} :: 0 <= i < |c| ==> prev[c[i]] == c[Pred(i, |c|)]
  }

  /** c is the cycle that next follows forwards and prev backwards. */
  ghost predicate Cycle(next: seq<int>, prev: seq<int>, c: seq<int>) {
    |next| == |prev| == NBUF + 1 && |c| > 0 && Distinct(c) && InRange(c) && Forward(next, c) && Backward(prev, c)
  }

  function Cut(c: seq<int>, k: int): (r: seq<int>)
    requires 0 <= k < |c|
    ensures |r| == |c| - 1
    ensures forall i :: 0 <= i < |r| ==> r[i] == c[if i < k then i else i + 1]
  {
    c[..k] + c[k + 1..]
  }

  /** Cut takes out c[k] and keeps the rest. */
  lemma CutMembers(c: seq<int>, k: int)
    requires Distinct(c) && InRange(c) && 0 < k < |c|
    ensures Distinct(Cut(c, k)) && InRange(Cut(c, k)) && Cut(c, k)[0] == c[0]
    ensures forall i {:trigger Cut(c, k)[i]} :: 0 <= i < |Cut(c, k)| ==> Cut(c, k)[i] != c[k]
    ensures forall x :: x in c && x != c[k] ==> x in Cut(c, k)
  {
    forall x | x in c && x != c[k]
      ensures x in Cut(c, k)
    {
      var j :| 0 <= j < |c| && c[j] == x;
      assert Cut(c, k)[if j < k then j else j - 1] == x;
    }
  }

  lemma CutForward(next: seq<int>, c: seq<int>, k: int)
    requires |next| == NBUF + 1 && Distinct(c) && InRange(c) && Forward(next, c) && 0 < k < |c|
    ensures next[c[k]] == c[Succ(k, |c|)] && InRange(Cut(c, k))
    ensures Forward(next[c[Pred(k, |c|)] := next[c[k]]], Cut(c, k))
  {
    var r, n, next' := Cut(c, k), |c|, next[c[Pred(k, |c|)] := next[c[k]]];
    forall i | 0 <= i < |r|
      ensures next'[r[i]] == r[Succ(i, |r|)]
    {
      var j := if i < k then i else i + 1;
      assert r[i] == c[j] && next[c[j]] == c[Succ(j, n)];
      assert c[j] == c[k - 1] <==> j == k - 1;
    }
  }

  lemma CutBackward(prev: seq<int>, c: seq<int>, k: int)
    requires |prev| == NBUF + 1 && Distinct(c) && InRange(c) && Backward(prev, c) && 0 < k < |c|
    ensures prev[c[k]] == c[Pred(k, |c|)] && InRange(Cut(c, k))
    ensures Backward(prev[c[Succ(k, |c|)] := prev[c[k]]], Cut(c, k))
  {
    var r, n, prev' := Cut(c, k), |c|, prev[c[Succ(k, |c|)] := prev[c[k]]];
    forall i | 0 <= i < |r|
      ensures prev'[r[i]] == r[Pred(i, |r|)]
    {
      var j := if i < k then i else i + 1;
      assert r[i] == c[j] && prev[c[j]] == c[Pred(j, n)];
      assert c[j] == c[Succ(k, n)] <==> j == Succ(k, n);
    }
  }

  /** Taking c[k] out of the cycle. */
  lemma CycleCut(next: seq<int>, prev: seq<int>, c: seq<int>, k: int)
    requires Cycle(next, prev, c) && 0 < k < |c|
    ensures var b := c[k];
            && 0 <= next[b] <= NBUF && 0 <= prev[b] <= NBUF
            && Cycle(next[prev[b] := next[b]], prev[next[b] := prev[b]], Cut(c, k))
  {
    hide Forward, Backward, Distinct;
    CutMembers(c, k);
    CutForward(next, c, k);
    CutBackward(prev, c, k);
  }

  lemma InsertMembers(c: seq<int>, b: int)
    requires c != [] && Distinct(c) && InRange(c) && 0 <= b <= NBUF
    requires forall i {:trigger c[i]} :: 0 <= i < |c| ==> c[i] != b
    ensures var r := [c[0], b] + c[1..];
            Distinct(r) && InRange(r) && |r| == |c| + 1 && forall i {:trigger r[i]} :: 2 <= i < |r| ==> r[i] == c[i - 1]
  {
    var r := [c[0], b] + c[1..];
    assert forall i {:trigger r[i]} :: 2 <= i < |r| ==> r[i] == c[i - 1];
  }

  lemma InsertForward(next: seq<int>, c: seq<int>, b: int)
    requires c != [] && |next| == NBUF + 1 && Distinct(c) && InRange(c) && Forward(next, c) && 0 <= b <= NBUF
    requires forall i {:trigger c[i]} :: 0 <= i < |c| ==> c[i] != b
    ensures InRange([c[0], b] + c[1..]) && next[c[0]] == c[Succ(0, |c|)]
    ensures Forward(next[b := next[c[0]]][c[0] := b], [c[0], b] + c[1..])
  {
    InsertMembers(c, b);
    var r, n, next' := [c[0], b] + c[1..], |c|, next[b := next[c[0]]][c[0] := b];
    assert next[c[0]] == c[Succ(0, n)];
    forall i | 0 <= i < |r|
      ensures next'[r[i]] == r[Succ(i, |r|)]
    {
      if i >= 2 {
        assert next[c[i - 1]] == c[Succ(i - 1, n)];
      }
    }
  }

  lemma InsertBackward(prev: seq<int>, c: seq<int>, b: int, f: int)
    requires c != [] && |prev| == NBUF + 1 && Distinct(c) && InRange(c) && Backward(prev, c) && 0 <= b <= NBUF
    requires f == c[Succ(0, |c|)] && forall i {:trigger c[i]} :: 0 <= i < |c| ==> c[i] != b
    ensures InRange([c[0], b] + c[1..]) && Backward(prev[b := c[0]][f := b], [c[0], b] + c[1..])
  {
    InsertMembers(c, b);
    var r, n, prev' := [c[0], b] + c[1..], |c|, prev[b := c[0]][f := b];
    forall i | 0 <= i < |r|
      ensures prev'[r[i]] == r[Pred(i, |r|)]
    {
      if i == 0 {
        assert prev[c[0]] == c[Pred(0, n)];
      } else if i >= 2 {
        assert prev[c[i - 1]] == c[Pred(i - 1, n)];
        assert c[i - 1] == f <==> i - 1 == Succ(0, n);
      }
    }
  }

  /** Putting b right behind the first of the cycle. */
  lemma CycleInsert(next: seq<int>, prev: seq<int>, c: seq<int>, b: int)
    requires Cycle(next, prev, c) && 0 <= b <= NBUF && forall i {:trigger c[i]} :: 0 <= i < |c| ==> c[i] != b
    ensures 0 <= next[c[0]] <= NBUF
    ensures Cycle(next[b := next[c[0]]][c[0] := b], prev[b := c[0]][next[c[0]] := b], [c[0], b] + c[1..])
  {
    hide Forward, Backward, Distinct;
    InsertMembers(c, b);
    InsertForward(next, c, b);
    InsertBackward(prev, c, b, next[c[0]]);
  }

  // ---------------------------------------------------------------- buffers against the store

  predicate For(x: Buf, dev: int, bno: int) { x.dev == dev && x.bno == bno }

  ghost predicate DirtyFor(bufs: seq<Buf>, dev: int, bno: int) {
    exists i :: 0 <= i < |bufs| && bufs[i].dirty && For(bufs[i], dev, bno)
  }

  /** Valid buffers show the store; blocks without a dirty buffer are on disk; no block has two
      buffers. */
  ghost predicate BufsOk(bufs: seq<Buf>, store: (int, int) -> Block, disk: (int, int) -> Block) {
    && |bufs| == NBUF
    && (forall i {:trigger bufs[i]} :: 0 <= i < NBUF ==>
         && bufs[i].refcnt >= 0 && (bufs[i].locked ==> bufs[i].refcnt > 0) && (bufs[i].dirty ==> bufs[i].valid)
         && (bufs[i].refcnt > 0 || bufs[i].valid ==> bufs[i].dev >= 1)
         && (bufs[i].valid ==> bufs[i].data == store(bufs[i].dev, bufs[i].bno)))
    && (forall d, n {:trigger store(d, n)} :: !DirtyFor(bufs, d, n) ==> store(d, n) == disk(d, n))
    && (forall i, j {:trigger bufs[i], bufs[j]} :: 0 <= i < j < NBUF && bufs[i].dev >= 1 ==>
         !For(bufs[j], bufs[i].dev, bufs[i].bno))
  }

  lemma DirtyKept(bufs: seq<Buf>, b: int, x: Buf, d: int, n: int)
    requires 0 <= b < |bufs| && (bufs[b].dirty && For(bufs[b], d, n) ==> x.dirty && For(x, d, n))
    ensures DirtyFor(bufs, d, n) ==> DirtyFor(bufs[b := x], d, n)
  {
    if DirtyFor(bufs, d, n) {
      var i :| 0 <= i < |bufs| && bufs[i].dirty && For(bufs[i], d, n);
      assert bufs[b := x][i].dirty && For(bufs[b := x][i], d, n);
    }
  }

  /** A change to one buffer. `store'` and `disk'` may differ at its block only. */
  lemma BufChange(bufs: seq<Buf>, store: (int, int) -> Block, disk: (int, int) -> Block, b: int, x: Buf,
                  store': (int, int) -> Block, disk': (int, int) -> Block)
    requires BufsOk(bufs, store, disk) && 0 <= b < NBUF
    requires x.refcnt >= 0 && (x.locked ==> x.refcnt > 0) && (x.dirty ==> x.valid)
    requires (x.refcnt > 0 || x.valid ==> x.dev >= 1)
    requires x.valid ==> x.data == store'(x.dev, x.bno)
    requires x.dirty || store'(x.dev, x.bno) == disk'(x.dev, x.bno)
    requires forall d, n {:trigger store'(d, n)} :: !For(x, d, n) ==>
               store'(d, n) == store(d, n) && disk'(d, n) == disk(d, n)
    requires For(bufs[b], x.dev, x.bno) ||
             (!bufs[b].dirty && forall i {:trigger bufs[i]} :: 0 <= i < NBUF ==> !For(bufs[i], x.dev, x.bno))
    ensures BufsOk(bufs[b := x], store', disk')
  {
    var bufs' := bufs[b := x];
    forall d, n | !DirtyFor(bufs', d, n)
      ensures store'(d, n) == disk'(d, n)
    {
      if For(x, d, n) {
        assert bufs'[b] == x;
      } else {
        assert store(d, n) == store'(d, n);
        DirtyKept(bufs, b, x, d, n);
      }
    }
  }

  // ---------------------------------------------------------------- when a buffer is free

  predicate InUse(x: Buf) { x.refcnt != 0 || x.dirty }

  ghost function Dirty(bufs: seq<Buf>): set<int> {
    set b | 0 <= b < |bufs| && bufs[b].dirty
  }

  /** Buffers held and clean. */
  ghost function Held(bufs: seq<Buf>): set<int> {
    set b | 0 <= b < |bufs| && !bufs[b].dirty && bufs[b].refcnt != 0
  }

  /** bget of a block that is not cached finds a buffer. */
  ghost predicate HasFree(bufs: seq<Buf>) {
    exists b {:trigger bufs[b]} :: 0 <= b < |bufs| && !InUse(bufs[b])
  }

  lemma SizeUpTo(s: set<int>, n: nat)
    requires forall b :: b in s <==> 0 <= b < n
    ensures |s| == n
  {
    assert s == UpTo(n);
  }

  /** Some buffer is free exactly when the dirty and the held ones are fewer than all. */
  lemma FreeCount(bufs: seq<Buf>)
    ensures HasFree(bufs) <==> |Dirty(bufs)| + |Held(bufs)| < |bufs|
  {
    var busy := Dirty(bufs) + Held(bufs);
    assert Dirty(bufs) !! Held(bufs);
    assert forall b :: b in busy ==> b in UpTo(|bufs|);
    SubsetSize(busy, UpTo(|bufs|));
    if HasFree(bufs) {
      var b :| 0 <= b < |bufs| && !InUse(bufs[b]);
      assert b !in busy && b in UpTo(|bufs|);
    } else {
      forall b | b in UpTo(|bufs|)
        ensures b in busy
      {
        assert InUse(bufs[b]);
      }
      assert busy == UpTo(|bufs|);
    }
  }

  /** d buffers dirty, the next h held. */
  function Crowd(d: nat, h: nat): (bufs: seq<Buf>)
    ensures |bufs| == NBUF
  {
    seq(NBUF, b => if b < d then Buf(1, b, true, true, 0, false, [])
        else Buf(1, b, true, false, if b < d + h then 1 else 0, false, []))
  }

  ghost predicate AtMost(bufs: seq<Buf>, d: nat, h: nat) {
    |bufs| == NBUF && |Dirty(bufs)| <= d && |Held(bufs)| <= h
  }

  /** With at most d buffers dirty and at most h others held, bget never finds all buffers in use
      exactly when d + h is below NBUF. */
  lemma NoBuffersBound(d: nat, h: nat)
    ensures (forall bufs :: AtMost(bufs, d, h) ==> HasFree(bufs)) <==> d + h < NBUF
  {
    forall bufs | AtMost(bufs, d, h) && d + h < NBUF
      ensures HasFree(bufs)
    {
      FreeCount(bufs);
    }
    if d + h >= NBUF {
      var d' := if d < NBUF then d else NBUF;
      var bufs := Crowd(d', NBUF - d');
      SizeUpTo(Dirty(bufs), d');
      assert Dirty(bufs) + Held(bufs) == UpTo(NBUF);
      assert Dirty(bufs) !! Held(bufs);
      assert AtMost(bufs, d, h);
      FreeCount(bufs);
    }
  }

  class Cache {
    var bufs: seq<Buf>
    var next: seq<int>
    var prev: seq<int>
    var disk: (int, int) -> Block
    ghost var ring: seq<int>                    // head, then the buffers, most recently used first
    ghost var store: (int, int) -> Block        // the last value logged or written, else the disk's

    ghost predicate Linked()
      reads this`next, this`prev, this`ring
    {
      Cycle(next, prev, ring) && |ring| == NBUF + 1 && ring[0] == HEAD && forall b :: 0 <= b < NBUF ==> b in ring
    }

    ghost predicate Valid()
      reads this
    {
      Linked() && BufsOk(bufs, store, disk)
    }

    /** binit: the ring is built by putting each buffer behind the head. */
    constructor (disk: (int, int) -> Block)
      ensures Valid() && this.disk == disk && forall d, n :: store(d, n) == disk(d, n)
    {
      this.disk, store := disk, disk;
      bufs := seq(NBUF, _ => Buf(0, 0, false, false, 0, false, []));
      next, prev := seq(NBUF + 1, _ => HEAD), seq(NBUF + 1, _ => HEAD);
      ring := [HEAD];
      new;
      assert Cycle(next, prev, ring);
      var b := 0;
      while b < NBUF
        invariant 0 <= b <= NBUF && Cycle(next, prev, ring) && ring[0] == HEAD && |ring| == b + 1
        invariant forall i {:trigger ring[i]} :: 1 <= i < |ring| ==> 0 <= ring[i] < b
        invariant forall x :: 0 <= x < b ==> x in ring
        invariant BufsOk(bufs, store, this.disk) && store == disk == this.disk
      {
        InsertFront(b);
        b := b + 1;
      }
    }

    /** The four assignments that put b behind the head. */
    method InsertFront(b: int)
      requires Cycle(next, prev, ring) && ring[0] == HEAD && 0 <= b < NBUF
      requires forall i {:trigger ring[i]} :: 0 <= i < |ring| ==> ring[i] != b
      modifies this`next, this`prev, this`ring
      ensures Cycle(next, prev, ring) && ring == [HEAD, b] + old(ring)[1..]
      ensures forall x :: x in ring <==> x in old(ring) || x == b
    {
      CycleInsert(next, prev, ring, b);
      next := next[b := next[HEAD]];
      prev := prev[b := HEAD];
      prev := prev[next[HEAD] := b];
      next := next[HEAD := b];
      ring := [ring[0], b] + ring[1..];
    }

    /** Where the block is cached; -1 when it is not. */
    method Lookup(dev: int, bno: int) returns (b: int)
      requires Valid() && dev >= 1
      ensures b == -1 ==> forall i {:trigger bufs[i]} :: 0 <= i < NBUF ==> !For(bufs[i], dev, bno)
      ensures b != -1 ==> 0 <= b < NBUF && For(bufs[b], dev, bno)
    {
      hide BufsOk;
      BufCount();
      b := next[HEAD];
      ghost var k := 1;
      RingNext(0);
      while b != HEAD
        invariant 1 <= k <= |ring| && b == (if k == |ring| then HEAD else ring[k])
        invariant forall i {:trigger ring[i]} :: 1 <= i < k ==> 0 <= ring[i] < NBUF && !For(bufs[ring[i]], dev, bno)
        decreases |ring| - k
      {
        RingMember(k);
        if For(bufs[b], dev, bno) {
          return;
        }
        RingNext(k);
        b := next[b];
        k := k + 1;
      }
      RingEnd(k);
      forall i | 0 <= i < NBUF
        ensures !For(bufs[i], dev, bno)
      {
        var j := InRing(i);
      }
      b := -1;
    }

    lemma BufCount()
      requires Valid()
      ensures |bufs| == NBUF && |ring| == NBUF + 1 && ring[0] == HEAD && |next| == |prev| == NBUF + 1
    {}

    lemma RingNext(k: int)
      requires Linked() && 0 <= k < |ring|
      ensures 0 <= ring[k] <= NBUF && next[ring[k]] == (if k + 1 == |ring| then HEAD else ring[k + 1])
    {}

    lemma RingPrev(k: int)
      requires Linked() && 0 <= k < |ring|
      ensures 0 <= ring[k] <= NBUF && prev[ring[k]] == ring[if k == 0 then |ring| - 1 else k - 1]
    {}

    lemma RingMember(k: int)
      requires Linked() && 0 <= k < |ring|
      ensures 0 <= ring[k] <= NBUF && (ring[k] == HEAD <==> k == 0)
    {}

    lemma RingEnd(k: int)
      requires Linked() && 1 <= k <= |ring|
      ensures (if k == |ring| then HEAD else ring[k]) == HEAD ==> k == |ring|
    {}

    /** Every buffer used less recently than the k-th is held or dirty. */
    ghost predicate AllInUse(k: int)
      reads this
    {
      |bufs| == NBUF && 0 <= k && forall i {:trigger ring[i]} :: k < i < |ring| ==>
          0 <= ring[i] < NBUF && (bufs[ring[i]].refcnt != 0 || bufs[ring[i]].dirty)
    }

    lemma InRing(i: int) returns (j: int)
      requires Linked() && 0 <= i < NBUF
      ensures 0 <= j < |ring| && ring[j] == i
    {
      assert i in ring;
      j :| 0 <= j < |ring| && ring[j] == i;
    }

    lemma BufAt(b: int)
      requires Valid() && 0 <= b < NBUF
      ensures |bufs| == NBUF && bufs[b].refcnt >= 0 && (bufs[b].locked ==> bufs[b].refcnt > 0)
      ensures bufs[b].dirty ==> bufs[b].valid
      ensures bufs[b].refcnt > 0 || bufs[b].valid ==> bufs[b].dev >= 1
      ensures bufs[b].valid ==> bufs[b].data == store(bufs[b].dev, bufs[b].bno)
    {}

    /** The least recently used buffer that is neither held nor dirty; -1 when there is none. */
    method Unused() returns (b: int)
      requires Valid()
      ensures b == -1 ==> forall i {:trigger bufs[i]} :: 0 <= i < NBUF ==> bufs[i].refcnt != 0 || bufs[i].dirty
      ensures b != -1 ==> 0 <= b < NBUF && bufs[b].refcnt == 0 && !bufs[b].dirty
      ensures b != -1 ==> exists k :: 1 <= k < |ring| && ring[k] == b && AllInUse(k)
    {
      hide BufsOk;
      BufCount();
      b := prev[HEAD];
      ghost var k := |ring| - 1;
      RingPrev(0);
      while b != HEAD
        invariant 0 <= k < |ring| && b == ring[k]
        invariant AllInUse(k)
        decreases k
      {
        RingMember(k);
        if bufs[b].refcnt == 0 && !bufs[b].dirty {
          return;
        }
        RingPrev(k);
        b := prev[b];
        k := k - 1;
      }
      RingMember(k);
      forall i | 0 <= i < NBUF
        ensures bufs[i].refcnt != 0 || bufs[i].dirty
      {
        var j := InRing(i);
      }
      b := -1;
    }

    /** bget up to its wait for the sleep lock: the reference is taken, and the lock too unless
        another process has it, which `waits` says. -1 is the panic "no buffers". */
    method Bget(dev: int, bno: int) returns (b: int, waits: bool)
      requires Valid() && dev >= 1
      modifies this`bufs
      ensures Valid()
      ensures b == -1 ==> bufs == old(bufs) && !HasFree(bufs) && forall i {:trigger bufs[i]} :: 0 <= i < NBUF ==>
                !For(bufs[i], dev, bno)
      ensures b != -1 ==>
                && 0 <= b < NBUF == |bufs| == |old(bufs)| && bufs == old(bufs)[b := bufs[b]]
                && For(bufs[b], dev, bno) && bufs[b].locked && (waits <==> old(bufs)[b].locked)
      ensures b != -1 && waits ==> For(old(bufs)[b], dev, bno)
      ensures b != -1 && For(old(bufs)[b], dev, bno) ==>
                bufs[b] == old(bufs)[b].(refcnt := old(bufs)[b].refcnt + 1, locked := true)
      ensures b != -1 && !For(old(bufs)[b], dev, bno) ==>
                old(bufs)[b].refcnt == 0 && !old(bufs)[b].dirty && !bufs[b].valid && !bufs[b].dirty
                    && bufs[b].refcnt == 1
                && exists k :: 1 <= k < |ring| && ring[k] == b && old(AllInUse(k))
    {
      hide Linked, BufsOk, Cycle;
      HeldRange();
      waits := false;
      b := Lookup(dev, bno);
      if b != -1 {
        BufAt(b);
        waits := bufs[b].locked;
        var x := bufs[b].(refcnt := bufs[b].refcnt + 1, locked := true);
        HeldChange(b, x);
        bufs := bufs[b := x];
        return;
      }
      b := Unused();
      if b != -1 {
        BufAt(b);
        var x := bufs[b].(dev := dev, bno := bno, valid := false, dirty := false, refcnt := 1, locked := true);
        Clean(bufs, store, disk, dev, bno);
        BufChange(bufs, store, disk, b, x, store, disk);
        bufs := bufs[b := x];
      }
    }

    /** The end of that wait: acquiresleep finds the lock free. */
    method Acquire(b: int)
      requires Valid() && 0 <= b < NBUF == |bufs| && bufs[b].refcnt > 0 && !bufs[b].locked
      modifies this`bufs
      ensures Valid() && |bufs| == NBUF && bufs == old(bufs)[b := old(bufs)[b].(locked := true)]
    {
      hide Linked, BufsOk, Cycle;
      BufAt(b);
      var x := bufs[b].(locked := true);
      HeldChange(b, x);
      bufs := bufs[b := x];
    }

    lemma HeldRange()
      requires Valid()
      ensures |bufs| == NBUF && |ring| == NBUF + 1
    {}

    /** Taking or dropping a reference, or the lock. */
    lemma HeldChange(b: int, x: Buf)
      requires BufsOk(bufs, store, disk) && 0 <= b < NBUF
      requires x == bufs[b].(refcnt := x.refcnt, locked := x.locked) && x.refcnt >= 0 && (x.locked ==> x.refcnt > 0)
      requires x.refcnt > 0 ==> x.dev >= 1
      ensures BufsOk(bufs[b := x], store, disk)
    {
      forall d, n | !DirtyFor(bufs[b := x], d, n)
        ensures !DirtyFor(bufs, d, n)
      {
        DirtyKept(bufs, b, x, d, n);
      }
    }

    /** iderw on a locked buffer: a dirty buffer goes to disk, one that is not valid is read. */
    method Iderw(b: int)
      requires Valid() && 0 <= b < NBUF == |bufs| && bufs[b].locked && (bufs[b].dirty || !bufs[b].valid)
      modifies this`bufs, this`disk
      ensures Valid() && |bufs| == NBUF && bufs == old(bufs)[b := bufs[b]]
      ensures bufs[b] == old(bufs)[b].(valid := true, dirty := false, data := store(bufs[b].dev, bufs[b].bno))
      ensures forall d, n :: disk(d, n) == if old(bufs)[b].dirty && For(bufs[b], d, n) then bufs[b].data
                else old(disk)(d, n)
    {
      hide Linked, Cycle;
      BufAt(b);
      var x := bufs[b].(valid := true, dirty := false);
      var was := disk;
      if bufs[b].dirty {
        disk := (d: int, n: int) => if d == x.dev && n == x.bno then x.data else was(d, n);
      } else {
        NotDirty(b);
        x := x.(data := disk(x.dev, x.bno));
      }
      BufChange(bufs, store, was, b, x, store, disk);
      bufs := bufs[b := x];
    }

    /** A block whose buffer is clean is clean. */
    lemma NotDirty(b: int)
      requires Valid() && 0 <= b < NBUF == |bufs| && !bufs[b].dirty && bufs[b].dev >= 1
      ensures store(bufs[b].dev, bufs[b].bno) == disk(bufs[b].dev, bufs[b].bno)
    {
      forall i | 0 <= i < NBUF && For(bufs[i], bufs[b].dev, bufs[b].bno)
        ensures i == b
      {}
    }

    /** bread: a locked buffer with the last value logged or written for the block. When it waits
        for the buffer's lock, BreadAwake is the rest of it. */
    method Bread(dev: int, bno: int) returns (b: int, waits: bool)
      requires Valid() && dev >= 1
      modifies this`bufs, this`disk
      ensures Valid()
      ensures b == -1 ==> bufs == old(bufs) && !HasFree(bufs) && forall i {:trigger bufs[i]} :: 0 <= i < NBUF ==>
                !For(bufs[i], dev, bno)
      ensures b != -1 ==>
                && 0 <= b < NBUF == |bufs| == |old(bufs)| && bufs == old(bufs)[b := bufs[b]] && bufs[b].locked
                && For(bufs[b], dev, bno) && (waits <==> old(bufs)[b].locked)
      ensures b != -1 && !waits ==> bufs[b].valid && bufs[b].data == store(dev, bno)
      ensures b != -1 && waits ==> bufs[b] == old(bufs)[b].(refcnt := old(bufs)[b].refcnt + 1)
      ensures b != -1 && !For(old(bufs)[b], dev, bno) ==> old(bufs)[b].refcnt == 0 && !old(bufs)[b].dirty
      ensures forall d, n :: disk(d, n) == old(disk)(d, n)
    {
      hide Linked, Cycle, BufsOk;
      HeldRange();
      b, waits := Bget(dev, bno);
      if b != -1 && !waits {
        Fetch(b);
      }
    }

    /** The rest of a bread that waited for the lock of buffer b. */
    method BreadAwake(b: int)
      requires Valid() && 0 <= b < NBUF == |bufs| && bufs[b].refcnt > 0 && !bufs[b].locked
      modifies this`bufs, this`disk
      ensures Valid() && |bufs| == NBUF && bufs == old(bufs)[b := bufs[b]] && bufs[b].locked && bufs[b].valid
      ensures For(bufs[b], old(bufs)[b].dev, old(bufs)[b].bno) && bufs[b].data == store(bufs[b].dev, bufs[b].bno)
      ensures bufs[b].refcnt == old(bufs)[b].refcnt
      ensures forall d, n :: disk(d, n) == old(disk)(d, n)
    {
      hide Linked, Cycle, BufsOk;
      Acquire(b);
      Fetch(b);
    }

    /** A locked buffer that is not valid is read from the disk. */
    method Fetch(b: int)
      requires Valid() && 0 <= b < NBUF == |bufs| && bufs[b].locked
      modifies this`bufs, this`disk
      ensures Valid() && |bufs| == NBUF && bufs == old(bufs)[b := bufs[b]]
      ensures bufs[b] == old(bufs)[b].(valid := true, data := store(bufs[b].dev, bufs[b].bno))
      ensures forall d, n :: disk(d, n) == old(disk)(d, n)
    {
      hide Linked, Cycle, BufsOk;
      BufAt(b);
      if !bufs[b].valid {
        Iderw(b);
      }
    }

    /** The holder changes the block and log_write marks it dirty. */
    method LogWrite(b: int, data: Block)
      requires Valid() && 0 <= b < NBUF == |bufs| && bufs[b].locked && bufs[b].valid
      modifies this`bufs, this`store
      ensures Valid() && |bufs| == NBUF && bufs == old(bufs)[b := old(bufs)[b].(dirty := true, data := data)]
      ensures forall d, n :: store(d, n) == if For(bufs[b], d, n) then data else old(store)(d, n)
    {
      hide Linked, Cycle;
      BufAt(b);
      var x := bufs[b].(dirty := true, data := data);
      ghost var was := store;
      store := (d: int, n: int) => if d == x.dev && n == x.bno then data else was(d, n);
      BufChange(bufs, was, disk, b, x, store, disk);
      bufs := bufs[b := x];
    }

    /** The holder changes the block and bwrite puts it on disk; a true result is the panic for a
        buffer that is not locked. */
    method Bwrite(b: int, data: Block) returns (panicked: bool)
      requires Valid() && 0 <= b < NBUF == |bufs| && (bufs[b].locked ==> bufs[b].valid)
      modifies this`bufs, this`disk, this`store
      ensures Valid() && |bufs| == NBUF && panicked == !old(bufs)[b].locked
      ensures !panicked ==> bufs == old(bufs)[b := old(bufs)[b].(dirty := false, data := data)]
      ensures !panicked ==> forall d, n :: store(d, n) == if For(bufs[b], d, n) then data else old(store)(d, n)
      ensures !panicked ==> disk(bufs[b].dev, bufs[b].bno) == data
    {
      hide Linked, Cycle, BufsOk;
      HeldRange();
      if !bufs[b].locked {
        return true;
      }
      LogWrite(b, data);
      Iderw(b);
      panicked := false;
    }

    /** brelse: the last reference moves the buffer to the front of the ring; a true result is the
        panic for a buffer that is not locked. */
    method Brelse(b: int) returns (panicked: bool)
      requires Valid() && 0 <= b < NBUF == |bufs|
      modifies this`bufs, this`next, this`prev, this`ring
      ensures Valid() && |bufs| == NBUF && panicked == !old(bufs)[b].locked
      ensures !panicked ==> bufs == old(bufs)[b := old(bufs)[b].(refcnt := old(bufs)[b].refcnt - 1, locked := false)]
      ensures !panicked && bufs[b].refcnt == 0 ==>
                exists k :: 1 <= k < |old(ring)| && old(ring)[k] == b && ring == [HEAD, b] + Cut(old(ring), k)[1..]
      ensures !panicked && bufs[b].refcnt != 0 ==> ring == old(ring)
    {
      hide Cycle, BufsOk;
      HeldRange();
      if !bufs[b].locked {
        return true;
      }
      BufAt(b);
      var x := bufs[b].(refcnt := bufs[b].refcnt - 1, locked := false);
      HeldChange(b, x);
      bufs := bufs[b := x];
      if bufs[b].refcnt == 0 {
        MoveToFront(b);
      }
      panicked := false;
    }

    method MoveToFront(b: int)
      requires Linked() && 0 <= b < NBUF
      modifies this`next, this`prev, this`ring
      ensures Linked()
      ensures exists k :: 1 <= k < |old(ring)| && old(ring)[k] == b && ring == [HEAD, b] + Cut(old(ring), k)[1..]
    {
      hide Forward, Backward, Distinct;
      ghost var c := ring;
      ghost var k := InRing(b);
      CycleCut(next, prev, ring, k);
      CutMembers(ring, k);
      prev := prev[next[b] := prev[b]];
      next := next[prev[b] := next[b]];
      ring := Cut(ring, k);
      InsertFront(b);
      assert forall x :: 0 <= x < NBUF && x != b ==> x in Cut(c, k);
    }
  }

  lemma Clean(bufs: seq<Buf>, store: (int, int) -> Block, disk: (int, int) -> Block, dev: int, bno: int)
    requires BufsOk(bufs, store, disk) && forall i {:trigger bufs[i]} :: 0 <= i < NBUF ==> !For(bufs[i], dev, bno)
    ensures store(dev, bno) == disk(dev, bno)
  {}
}
