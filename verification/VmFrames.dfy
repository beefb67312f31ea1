/** How many frames an address space takes (vm.c): one for its directory, one for each page table,
    which is there for each directory slot that its pages touch, and one for each user page. */
module VmFrames {
  import opened VmTables
  import opened Collections

  /** The directory slots that have a table. */
  function Slots(dir: seq<int>): set<int> {
    set d | 0 <= d < |dir| && Present(dir[d])
  }

  /** The directory slots of the pages from lo up to hi. */
  function Touched(lo: int, hi: int): set<int> {
    set u | lo <= u < hi :: u / NENT
  }

  /** The slots of the pages from lo up to hi have got their tables out of the free frames, and
      nothing else has changed. */
  ghost predicate Tabled(dir: seq<int>, free: set<int>, dir': seq<int>, free': set<int>, lo: int, hi: int) {
    Slots(dir') == Slots(dir) + Touched(lo, hi) && |free'| + |Slots(dir')| == |free| + |Slots(dir)|
  }

  lemma TabledNothing(dir: seq<int>, free: set<int>, lo: int)
    ensures Tabled(dir, free, dir, free, lo, lo)
  {
    assert Touched(lo, lo) == {};
  }

  lemma TouchedNext(lo: int, u: int)
    requires lo <= u
    ensures Touched(lo, u + 1) == Touched(lo, u) + {u / NENT}
  {}

  /** The table for one more page is there, or is made out of a free frame. */
  lemma TabledNext(dir: seq<int>, free: set<int>, a: seq<int>, free1: set<int>, b: seq<int>, free2: set<int>, lo: int,
                   u: int, t: int)
    requires Tabled(dir, free, a, free1, lo, u) && lo <= u < NPAGES && 0 <= u && |a| == NENT
    requires if Present(a[u / NENT]) then b == a && free2 == free1
             else t in free1 && free2 == free1 - {t} && b == a[u / NENT := Entry(t, 6)]
    ensures Tabled(dir, free, b, free2, lo, u + 1)
  {
    hide Touched, Present, Entry;
    TouchedNext(lo, u);
    if !Present(a[u / NENT]) {
      EntryParts(t, 6);
      assert Slots(b) == Slots(a) + {u / NENT};
    }
  }

  lemma TouchedParts(lo: int, u: int, hi: int)
    requires lo <= u <= hi
    ensures Touched(lo, hi) == Touched(lo, u) + Touched(u, hi)
  {}

  lemma TouchedSize(lo: int, hi: int)
    requires 0 <= lo < hi
    ensures Touched(lo, hi) == Range(lo / NENT, (hi - 1) / NENT + 1)
    ensures |Touched(lo, hi)| == (hi - 1) / NENT + 1 - lo / NENT
  {
    forall d | lo / NENT <= d < (hi - 1) / NENT + 1
      ensures d in Touched(lo, hi)
    {
      var u := if d * NENT < lo then lo else d * NENT;
      assert lo <= u < hi && u / NENT == d;
    }
  }

  // ---------------------------------------------------------------- whole address spaces

  /** The kernel half's page tables. */
  function KernelSlots(): set<int> {
    Touched(KBASE, KBASE + NFRAMES) + Touched(0xFE000, NPAGES)
  }

  lemma KernelTables()
    ensures |KernelSlots()| == 64 && forall d :: d in KernelSlots() ==> d >= 512
  {
    hide Touched, Range;
    KernelRanges();
    TwoRanges(512, 568, 1016, 1024);
  }

  lemma TwoRanges(a: int, b: int, c: int, d: int)
    requires a <= b <= c <= d
    ensures |Range(a, b) + Range(c, d)| == (b - a) + (d - c) && forall x :: x in Range(a, b) + Range(c, d) ==> x >= a
  {
    hide Range;
    assert Range(a, b) !! Range(c, d);
  }

  lemma KernelRanges()
    ensures Touched(KBASE, KBASE + NFRAMES) == Range(512, 568) && Touched(0xFE000, NPAGES) == Range(1016, 1024)
  {
    hide Touched, Range;
    TouchedSize(KBASE, KBASE + NFRAMES);
    TouchedSize(0xFE000, NPAGES);
  }

  /** The frames of an address space whose user half is the n lowest pages: a directory, the
      kernel's 64 tables, a table for each 1024 pages, and the pages. */
  function FramesFor(n: nat): nat {
    1 + 64 + (n + NENT - 1) / NENT + n
  }

  lemma SpaceTables(n: nat)
    requires n <= KBASE
    ensures |KernelSlots() + Touched(0, n)| + 1 + n == FramesFor(n)
  {
    KernelTables();
    if n == 0 {
      assert Touched(0, n) == {};
      assert KernelSlots() + Touched(0, n) == KernelSlots();
    } else {
      TouchedSize(0, n);
      assert KernelSlots() !! Touched(0, n);
    }
  }

  lemma FramesMore(n: nat, m: nat)
    requires n <= m
    ensures FramesFor(n) <= FramesFor(m) && (n < m ==> FramesFor(n) < FramesFor(m))
  {}

  lemma ProperSize(a: set<int>, b: set<int>, x: int)
    requires a <= b && x in b && x !in a
    ensures |a| < |b|
  {
    SubsetSize(a, b);
  }

  /** The kernel half is not complete when a slot of it has no table. */
  lemma KernelShort(dir: seq<int>, done: set<int>, d: int)
    requires Slots(dir) == done <= KernelSlots() && d in KernelSlots() && d !in Slots(dir)
    ensures 1 + |Slots(dir)| < FramesFor(0)
  {
    KernelTables();
    ProperSize(done, KernelSlots(), d);
  }

  /** The frames ran out at page k of n: no frame was left, or the last one went for the page and
      its table was still to make. */
  lemma CopyShort(n: nat, k: nat, left: nat)
    requires k < n <= KBASE
    requires left == 0 || (left == 1 && k / NENT !in KernelSlots() + Touched(0, k))
    ensures FramesFor(k) + left < FramesFor(n)
  {
    hide KernelSlots, FramesFor;
    FramesMore(k + 1, n);
    FramesMore(k, k + 1);
    if left == 1 {
      SpaceTables(k);
      SpaceTables(k + 1);
      NextSlot(KernelSlots(), k);
    }
  }

  lemma NextSlot(slots: set<int>, k: nat)
    requires k / NENT !in slots + Touched(0, k)
    ensures |slots + Touched(0, k + 1)| == |slots + Touched(0, k)| + 1
  {
    assert slots + Touched(0, k + 1) == slots + Touched(0, k) + {k / NENT};
  }

  /** The frames that pages lo up to hi take on top of what the directory has. */
  function FramesToGrow(dir: seq<int>, lo: int, hi: int): int {
    |Touched(lo, hi) - Slots(dir)| + (hi - lo)
  }

  lemma GrowCount(dir: seq<int>, lo: int, hi: int)
    ensures |Slots(dir) + Touched(lo, hi)| == |Slots(dir)| + |Touched(lo, hi) - Slots(dir)|
  {
    assert Slots(dir) + Touched(lo, hi) == Slots(dir) + (Touched(lo, hi) - Slots(dir));
  }

  lemma GrowShort(dir: seq<int>, lo: int, p: int, hi: int, left: nat)
    requires lo <= p < hi
    requires left == 0 || (left == 1 && p / NENT !in Slots(dir) + Touched(lo, p))
    ensures FramesToGrow(dir, lo, p) + left < FramesToGrow(dir, lo, hi)
  {
    var a, b := Touched(lo, p) - Slots(dir), Touched(lo, hi) - Slots(dir);
    TouchedParts(lo, p, hi);
    SubsetSize(a, b);
    if left == 1 {
      assert p / NENT in Touched(p, hi);
      ProperSize(a, b, p / NENT);
    }
  }
}
