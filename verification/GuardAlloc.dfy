/** The guard-page allocator of physical frames (v1a-sort/kalloc.c): a sorted free list from
    which the upper frames leave in pairs, so that no two frames handed out are adjacent. */
module GuardAlloc {

  const PHYSTOP: int := 0xE000               // PHYSTOP >> 12
  const MAXFRAMENUM: int := 16384
  const GUARDED: int := PHYSTOP - MAXFRAMENUM  // the first frame whose neighbour is kept free
  const ENTRYTOP: int := 1024                // 4 MB, where kinit2 takes over from kinit1
  const PGSIZE: int := 4096
  const NULL: int := -1

  /** VA2IDX for a frame number. */
  function Index(f: int): int {
    PHYSTOP - f - 1
  }

  // ---------------------------------------------------------------- lists and counts

  ghost predicate Descending(l: seq<int>) {
    forall i, j :: 0 <= i < j < |l| ==> l[i] > l[j]
  }

  /** The `next` words of the free pages chain the list from `head`. */
  ghost predicate Chained(next: map<int, int>, head: int, l: seq<int>) {
    && head == (if l == [] then NULL else l[0])
    && (forall i {:trigger next[l[i]]} {:trigger l[i] in next} :: 0 <= i < |l| ==>
         l[i] in next && next[l[i]] == if i + 1 < |l| then l[i + 1] else NULL)
  }

  /** How many entries of pg2pid are not -1. */
  ghost function Used(s: seq<int>): nat {
    if s == [] then 0 else Used(s[..|s| - 1]) + if s[|s| - 1] != -1 then 1 else 0
  }

  lemma {:induction false} UsedUpdate(s: seq<int>, i: nat, v: int)
    requires i < |s|
    ensures Used(s[i := v]) == Used(s) + (if v != -1 then 1 else 0) - (if s[i] != -1 then 1 else 0)
    decreases |s|
  {
    var t := s[i := v];
    if i < |s| - 1 {
      assert t[..|s| - 1] == s[..|s| - 1][i := v];
      UsedUpdate(s[..|s| - 1], i, v);
    } else {
      assert t[..|s| - 1] == s[..|s| - 1];
    }
  }

  lemma {:induction false} UsedNone(s: seq<int>)
    requires forall i :: 0 <= i < |s| ==> s[i] == -1
    ensures Used(s) == 0
    decreases |s|
  {
    if s != [] {
      UsedNone(s[..|s| - 1]);
    }
  }

  // ---------------------------------------------------------------- the invariant

  /** The guarded frames of the list are whole pairs: an even frame is free just when the odd
      frame above it is. */
  ghost predicate Paired(l: seq<int>) {
    forall f :: GUARDED <= f < PHYSTOP && f % 2 == 0 ==> (f in l <==> f + 1 in l)
  }

  ghost predicate InRange(l: seq<int>) {
    forall f :: f in l ==> 0 <= f < PHYSTOP
  }

  /** A list that starts with a guarded frame starts with a pair. */
  lemma HeadPair(l: seq<int>)
    requires Descending(l) && Paired(l) && InRange(l) && l != [] && l[0] >= GUARDED
    ensures l[0] % 2 == 1 && |l| >= 2 && l[1] == l[0] - 1
  {
    var h := l[0];
    assert h in l;
    assert h % 2 == 0 ==> h + 1 in l;
    assert h % 2 == 1 ==> h - 1 in l by {
      if h % 2 == 1 {
        assert h - 1 + 1 in l;
      }
    }
    var i :| 0 <= i < |l| && l[i] == if h % 2 == 0 then h + 1 else h - 1;
    assert i > 1 ==> l[0] > l[1] > l[i];
  }

  /** A descending list is determined by its elements. */
  lemma {:induction false} SortedListUnique(l: seq<int>, m: seq<int>)
    requires Descending(l) && Descending(m) && (forall f :: f in l <==> f in m)
    ensures l == m
  {
    assert l != [] ==> l[0] in l;
    assert m != [] ==> m[0] in m;
    if l != [] && m != [] {
      var i :| 0 <= i < |m| && m[i] == l[0];
      var j :| 0 <= j < |l| && l[j] == m[0];
      assert l[0] == m[0];
      forall f
        ensures f in l[1..] <==> f in m[1..]
      {
        assert f in l[1..] <==> f in l && f != l[0];
        assert f in m[1..] <==> f in m && f != m[0];
      }
      SortedListUnique(l[1..], m[1..]);
      assert l == [l[0]] + l[1..] && m == [m[0]] + m[1..];
    }
  }

  // ---------------------------------------------------------------- inserting and removing

  function Inserted(l: seq<int>, k: nat, r: int): seq<int>
    requires k <= |l|
  {
    seq(|l| + 1, i requires 0 <= i <= |l| => if i < k then l[i] else if i == k then r else l[i - 1])
  }

  ghost predicate Place(l: seq<int>, k: nat, r: int) {
    && k <= |l|
    && (forall i :: 0 <= i < k ==> l[i] > r)
    && (forall i :: k <= i < |l| ==> l[i] < r)
  }

  lemma InsertedOrder(l: seq<int>, k: nat, r: int)
    requires Descending(l) && Place(l, k, r)
    ensures Descending(Inserted(l, k, r))
  {}

  lemma InsertedElements(l: seq<int>, k: nat, r: int)
    requires k <= |l|
    ensures forall f :: f in Inserted(l, k, r) <==> f in l || f == r
  {
    var m := Inserted(l, k, r);
    assert m[k] == r;
    forall f | f in l
      ensures f in m
    {
      var i :| 0 <= i < |l| && l[i] == f;
      assert m[if i < k then i else i + 1] == f;
    }
  }

  lemma InsertedChain(next: map<int, int>, head: int, l: seq<int>, k: nat, r: int)
    requires Chained(next, head, l) && Descending(l) && Place(l, k, r)
    ensures k == 0 ==> Chained(next[r := head], r, Inserted(l, 0, r))
    ensures k > 0 ==> Chained(next[r := next[l[k - 1]]][l[k - 1] := r], head, Inserted(l, k, r))
  {}

  lemma RemovedFirst(next: map<int, int>, head: int, l: seq<int>)
    requires Chained(next, head, l) && Descending(l) && InRange(l) && l != []
    ensures head == l[0] && head in next
    ensures Descending(l[1..]) && InRange(l[1..]) && Chained(next, next[head], l[1..])
    ensures forall f :: f in l[1..] <==> f in l && f != l[0]
  {
    assert forall f :: f in l[1..] ==> f in l;
  }

  /** Taking out, or putting back, a guarded pair keeps the pairing. */
  lemma PairedWithout(l: seq<int>, m: seq<int>, f: int)
    requires Paired(l) && (f >= GUARDED ==> f % 2 == 1)
    requires forall x :: x in m <==> x in l && x != f && (f >= GUARDED ==> x != f - 1)
    ensures Paired(m)
  {}

  lemma PairedWith(l: seq<int>, m: seq<int>, f: int)
    requires Paired(l) && (f >= GUARDED ==> f % 2 == 1)
    requires forall x :: x in m <==> x in l || x == f || (f >= GUARDED && x == f - 1)
    ensures Paired(m)
  {}

  // ---------------------------------------------------------------- the state

  datatype Mem = Mem(kernelEnd: int, l: seq<int>, out: set<int>, pg2pid: seq<int>, count: int)

  /** The frame begins at or above the end of the kernel. */
  predicate Managed(kernelEnd: int, f: int) {
    f * PGSIZE >= kernelEnd && f < PHYSTOP
  }

  /** Between kinit1 and the end of kinit2: frames below 4 MB are managed, and those from 4 MB
      up to `top` have been put in the list. */
  ghost predicate EarlyOk(m: Mem, top: int) {
    && 0 < m.kernelEnd < ENTRYTOP * PGSIZE && top <= PHYSTOP && |m.pg2pid| == MAXFRAMENUM && m.count == 0
    && Descending(m.l) && InRange(m.l)
    && (forall f :: f in m.l ==> Managed(m.kernelEnd, f) && f < top && f !in m.out)
    && (forall f :: f in m.out ==> Managed(m.kernelEnd, f) && f < ENTRYTOP)
    && (forall f :: ENTRYTOP <= f < top ==> f in m.l)
    && (forall f :: GUARDED <= f < top ==> m.pg2pid[Index(f)] == -1)
  }

  /** After kinit2. Every frame from 4 MB up is in the list, handed out, or the guard below a
      frame handed out; pg2pid and allocated_count say which guarded frames are handed out. */
  ghost predicate Ok(m: Mem) {
    && 0 < m.kernelEnd < ENTRYTOP * PGSIZE && |m.pg2pid| == MAXFRAMENUM
    && Descending(m.l) && InRange(m.l) && Paired(m.l)
    && (forall f :: f in m.l ==> Managed(m.kernelEnd, f) && f !in m.out)
    && (forall f :: f in m.out ==> Managed(m.kernelEnd, f) && (f >= GUARDED ==> f % 2 == 1))
    && (forall f :: ENTRYTOP <= f < PHYSTOP && (f >= GUARDED ==> f % 2 == 1) ==> f in m.l || f in m.out)
    && (forall f :: GUARDED <= f < PHYSTOP ==> m.pg2pid[Index(f)] == if f in m.out then -2 else -1)
    && m.count == Used(m.pg2pid)
  }

  /** No two guarded frames handed out are adjacent, and the guard between them is not free. */
  lemma NoTwoAdjacent(m: Mem, f: int, g: int)
    requires Ok(m) && f in m.out && g in m.out && f != g && f >= GUARDED && g >= GUARDED
    ensures f - g >= 2 || g - f >= 2
    ensures f - 1 !in m.out && f + 1 !in m.out && f - 1 !in m.l
  {
    assert f - 1 in m.l <==> f - 1 + 1 in m.l;
    assert f + 1 < PHYSTOP ==> (f + 1) % 2 == 0;
  }

  lemma EarlyBecomesOk(m: Mem)
    requires EarlyOk(m, PHYSTOP)
    ensures Ok(m)
  {
    forall i | 0 <= i < |m.pg2pid|
      ensures m.pg2pid[i] == -1
    {
      assert Index(PHYSTOP - 1 - i) == i;
    }
    UsedNone(m.pg2pid);
  }

  lemma TakenOk(m: Mem, n: Mem, f: int)
    requires Ok(m) && f in m.l && (f >= GUARDED ==> f % 2 == 1)
    requires Descending(n.l) && forall x :: x in n.l <==> x in m.l && x != f && (f >= GUARDED ==> x != f - 1)
    requires n.out == m.out + {f} && n.kernelEnd == m.kernelEnd
    requires f >= GUARDED ==> n.pg2pid == m.pg2pid[Index(f) := -2] && n.count == m.count + 1
    requires f < GUARDED ==> n.pg2pid == m.pg2pid && n.count == m.count
    ensures Ok(n)
  {
    PairedWithout(m.l, n.l, f);
    if f >= GUARDED {
      UsedUpdate(m.pg2pid, Index(f), -2);
    }
  }

  lemma PutBackOk(m: Mem, n: Mem, f: int)
    requires Ok(m) && f in m.out
    requires Descending(n.l) && forall x :: x in n.l <==> x in m.l || x == f || (f >= GUARDED && x == f - 1)
    requires n.out == m.out - {f} && n.kernelEnd == m.kernelEnd
    requires f >= GUARDED ==> n.pg2pid == m.pg2pid[Index(f) := -1] && n.count == m.count - 1
    requires f < GUARDED ==> n.pg2pid == m.pg2pid && n.count == m.count
    ensures Ok(n)
  {
    PairedWith(m.l, n.l, f);
    if f >= GUARDED {
      UsedUpdate(m.pg2pid, Index(f), -1);
    }
  }

  /** The head of a free list that is not empty. */
  lemma HeadOk(m: Mem)
    requires Ok(m) && m.l != []
    ensures m.l[0] in m.l && Managed(m.kernelEnd, m.l[0]) && forall x :: x in m.l ==> x <= m.l[0]
    ensures m.l[0] >= GUARDED ==> m.l[0] % 2 == 1 && |m.l| >= 2 && m.l[1] == m.l[0] - 1
  {
    if m.l[0] >= GUARDED {
      HeadPair(m.l);
    }
    forall x | x in m.l
      ensures x <= m.l[0]
    {
      var i :| 0 <= i < |m.l| && m.l[i] == x;
    }
  }

  /** A frame handed out is not free, nor is its guard. */
  lemma OutOk(m: Mem, f: int)
    requires Ok(m) && f in m.out
    ensures f !in m.l && Managed(m.kernelEnd, f)
    ensures f >= GUARDED ==> f % 2 == 1 && f - 1 !in m.l
  {
    if f >= GUARDED {
      assert f - 1 in m.l <==> f - 1 + 1 in m.l;
    }
  }

  class Kmem {
    const kernelEnd: int               // V2P(end), the first byte after the kernel
    var next: map<int, int>            // the run structures in the free pages
    var freelist: int
    const pg2pid: array<int>
    var allocatedCount: int
    var initflag: bool
    ghost var l: seq<int>              // the free list
    ghost var out: set<int>            // the frames handed out

    ghost function State(): Mem
      reads this, pg2pid
    {
      Mem(kernelEnd, l, out, pg2pid[..], allocatedCount)
    }

    ghost predicate ListOk()
      reads this
    {
      Descending(l) && InRange(l) && Chained(next, freelist, l)
    }

    ghost predicate Early(top: int)
      reads this, pg2pid
    {
      ListOk() && !initflag && pg2pid.Length == MAXFRAMENUM && EarlyOk(State(), top)
    }

    ghost predicate Valid()
      reads this, pg2pid
    {
      ListOk() && initflag && pg2pid.Length == MAXFRAMENUM && Ok(State())
    }

    constructor (kernelEnd: int)
      requires 0 < kernelEnd < ENTRYTOP * PGSIZE
      ensures Early(ENTRYTOP) && l == [] && out == {} && this.kernelEnd == kernelEnd && fresh(pg2pid)
    {
      this.kernelEnd := kernelEnd;
      next, freelist, allocatedCount, initflag := map[], NULL, 0, false;
      pg2pid := new int[MAXFRAMENUM](_ => 0);
      l, out := [], {};
    }

    /** Puts a page in its place in the descending list. */
    method InsertFreelist(r: int)
      requires ListOk() && r !in l && 0 <= r < PHYSTOP
      modifies this`next, this`freelist, this`l
      ensures ListOk()
      ensures forall f :: f in l <==> f in old(l) || f == r
    {
      var prev := freelist;
      ghost var k := 0;
      if prev == NULL || prev < r {
        InsertedChain(next, freelist, l, 0, r);
        freelist := r;
        next := next[r := prev];
      } else {
        k := 1;
        while next[prev] != NULL && next[prev] > r
          invariant 1 <= k <= |l| && prev == l[k - 1] && prev in next && prev > r
          decreases |l| - k
        {
          prev := next[prev];
          k := k + 1;
        }
        InsertedChain(next, freelist, l, k, r);
        next := next[r := next[prev]];
        next := next[prev := r];
      }
      InsertedOrder(l, k, r);
      InsertedElements(l, k, r);
      l := Inserted(l, k, r);
    }

    /** Frees the page at physical address v; a true result is the panic. */
    method Kfree(v: int) returns (panicked: bool)
      requires Valid()
      requires v % PGSIZE == 0 && Managed(kernelEnd, v / PGSIZE) ==> v / PGSIZE in out
      modifies this`next, this`freelist, this`l, this`out, this`allocatedCount, pg2pid
      ensures Valid()
      ensures panicked <==> v % PGSIZE != 0 || v < kernelEnd || v >= PHYSTOP * PGSIZE
      ensures panicked ==> l == old(l) && out == old(out)
      ensures !panicked ==> out == old(out) - {v / PGSIZE}
      ensures !panicked ==> forall x :: x in l <==>
                x in old(l) || x == v / PGSIZE || (v / PGSIZE >= GUARDED && x == v / PGSIZE - 1)
    {
      if v % PGSIZE != 0 || v < kernelEnd || v >= PHYSTOP * PGSIZE {
        return true;
      }
      hide Ok, Descending, Chained, InRange;
      ghost var was := State();
      var f := v / PGSIZE;
      OutOk(was, f);
      if f >= PHYSTOP - MAXFRAMENUM {
        pg2pid[Index(f)] := -1;
        if initflag {
          allocatedCount := allocatedCount - 1;
          InsertFreelist(f - 1);
        }
      }
      InsertFreelist(f);
      out := out - {f};
      PutBackOk(was, State(), f);
      panicked := false;
    }

    /** Unlinks the first page of the list. */
    method PopHead() returns (f: int)
      requires ListOk() && l != []
      modifies this`freelist, this`l
      ensures ListOk() && f == old(l)[0] && f in old(l) && l == old(l)[1..]
      ensures forall x :: x in l <==> x in old(l) && x != f
    {
      RemovedFirst(next, freelist, l);
      f := freelist;
      freelist := next[f];
      l := l[1..];
    }

    /** Hands out the highest free page, and keeps the page below it when it is guarded. */
    method Kalloc() returns (f: int)
      requires Valid() && l != []
      modifies this`freelist, this`l, this`out, this`allocatedCount, pg2pid
      ensures Valid()
      ensures f in old(l) && (forall x :: x in old(l) ==> x <= f)
      ensures out == old(out) + {f}
      ensures forall x :: x in l <==> x in old(l) && x != f && (f >= GUARDED ==> x != f - 1)
    {
      hide Ok, Descending, Chained, InRange;
      ghost var was := State();
      HeadOk(was);
      f := PopHead();
      if f >= PHYSTOP - MAXFRAMENUM {
        pg2pid[Index(f)] := -2;
        allocatedCount := allocatedCount + 1;
        var guard := PopHead();
      }
      out := out + {f};
      TakenOk(was, State(), f);
    }

    /** Freeing the page just handed out restores the list exactly. */
    method KallocKfree() returns (f: int)
      requires Valid() && l != []
      modifies this`next, this`freelist, this`l, this`out, this`allocatedCount, pg2pid
      ensures Valid() && l == old(l) && out == old(out)
    {
      ghost var before := l;
      f := Kalloc();
      assert Managed(kernelEnd, f);
      var panicked := Kfree(f * PGSIZE);
      assert forall x :: x in l <==> x in before by {
        if f >= GUARDED {
          HeadPair(before);
          assert before[1] in before;
        }
      }
      SortedListUnique(l, before);
    }

    /** kalloc before kinit2: only frames below 4 MB are in the list, so no guard is kept. */
    method KallocEarly() returns (f: int)
      requires Early(ENTRYTOP) && l != []
      modifies this`freelist, this`l, this`out, this`allocatedCount, pg2pid
      ensures Early(ENTRYTOP)
      ensures f in old(l) && out == old(out) + {f}
      ensures forall x :: x in l <==> x in old(l) && x != f
    {
      f := PopHead();
      out := out + {f};
    }

    /** kfree of frame f while kinit1 or kinit2 fills the list. */
    method KfreeEarly(f: int, ghost top: int)
      requires Early(top) && f !in l && f !in out && Managed(kernelEnd, f)
      requires f < top || (f == top && ENTRYTOP <= f)
      modifies this`next, this`freelist, this`l, this`allocatedCount, pg2pid
      ensures Early(if f == top then top + 1 else top)
      ensures forall x :: x in l <==> x in old(l) || x == f
    {
      if f >= PHYSTOP - MAXFRAMENUM {
        pg2pid[Index(f)] := -1;
      }
      InsertFreelist(f);
    }

    method Kinit1()
      requires Early(ENTRYTOP) && l == [] && out == {}
      modifies this`next, this`freelist, this`l, this`allocatedCount, pg2pid
      ensures Early(ENTRYTOP)
      ensures forall f :: f in l <==> f * PGSIZE >= kernelEnd && f < ENTRYTOP
    {
      var p := (kernelEnd + PGSIZE - 1) / PGSIZE;
      while p + 1 <= ENTRYTOP
        invariant kernelEnd <= p * PGSIZE && p <= ENTRYTOP && Early(ENTRYTOP) && out == {}
        invariant forall f :: f in l <==> f * PGSIZE >= kernelEnd && f < p
      {
        KfreeEarly(p, ENTRYTOP);
        p := p + 1;
      }
    }

    method Kinit2()
      requires Early(ENTRYTOP)
      modifies this`next, this`freelist, this`l, this`allocatedCount, this`initflag, pg2pid
      ensures Valid()
      ensures forall f :: f in l <==> f in old(l) || ENTRYTOP <= f < PHYSTOP
    {
      var p := ENTRYTOP;
      while p + 1 <= PHYSTOP
        invariant ENTRYTOP <= p <= PHYSTOP && Early(p)
        invariant forall f :: f in l <==> f in old(l) || ENTRYTOP <= f < p
      {
        KfreeEarly(p, p);
        p := p + 1;
      }
      initflag := true;
      EarlyBecomesOk(State());
    }
  }
}
