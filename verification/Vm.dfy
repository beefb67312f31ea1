/** Address spaces over a pool of physical frames (vm.c): walkpgdir, mappages, setupkvm, allocuvm,
    deallocuvm, freevm and copyuvm. */
module Vm {
  import opened Numbers
  import opened VmTables
  import opened VmFrames

  const KERNBASE: int := 0x8000_0000
  const PGSIZE: int := 4096

  /** Memory, the frames of one address space, and the free frames. */
  datatype World = World(mem: Mem, own: map<int, Role>, free: set<int>)

  ghost predicate Good(s: World, pd: int) {
    Space(s.mem, pd, s.own, s.free)
  }

  ghost predicate Empty(free: set<int>) {
    forall x {:trigger x in free} :: x !in free
  }

  /** From s to t, only the directory, its tables and frames that were free were written. */
  ghost predicate Quiet(s: World, t: World) {
    && MemOk(s.mem) && MemOk(t.mem)
    && forall f {:trigger t.mem[f]} :: 0 <= f < NFRAMES && f !in s.free && (f in s.own ==> s.own[f].Page?) ==>
         t.mem[f] == s.mem[f]
  }

  // ---------------------------------------------------------------- what mappages has done

  /** k pages from v on now map the frames from f on; everything else is mapped as before. */
  ghost predicate Mapped(s: World, t: World, pd: int, v: int, k: int, f: int, perm: int) {
    && Good(t, pd) && Quiet(s, t) && 0 <= v && 0 <= k && v + k <= NPAGES
    && (forall u {:trigger Pte(t.mem, pd, u)} :: 0 <= u < NPAGES ==>
         Pte(t.mem, pd, u) == if v <= u < v + k then Entry(f + (u - v), perm) else Pte(s.mem, pd, u))
    && (forall x {:trigger x in t.own} {:trigger x in t.free} ::
         (x in t.free || x in t.own) <==> (x in s.free || x in s.own || (v < KBASE && f <= x < f + k)))
    && t.free <= s.free
    && (forall x {:trigger x in s.own} :: x in s.own ==> x in t.own && t.own[x] == s.own[x])
    && (forall x {:trigger t.own[x]} :: x in t.own && !t.own[x].Page? ==> x in s.own || x in s.free)
  }

  /** The page table of v after walkpgdir(alloc) succeeded. */
  ghost function Walked(s: World, pd: int, v: int, t: int): World
    requires MemOk(s.mem) && 0 <= pd < NFRAMES && 0 <= v < NPAGES && 0 <= t < NFRAMES && t != pd
  {
    if Present(s.mem[pd][v / NENT]) then s
    else World(WithTable(s.mem, pd, v / NENT, t), s.own[t := Table(v / NENT)], s.free - {t})
  }

  /** What walkpgdir does to the directory and the free frames. */
  lemma WalkedRow(s: World, pd: int, v: int, t: int)
    requires MemOk(s.mem) && 0 <= pd < NFRAMES && 0 <= v < NPAGES && 0 <= t < NFRAMES && t != pd
    ensures var w := Walked(s, pd, v, t);
            && |w.mem| == NFRAMES && |s.mem[pd]| == NENT
            && if Present(s.mem[pd][v / NENT]) then w == s
               else w.free == s.free - {t} && w.mem[pd] == s.mem[pd][v / NENT := Entry(t, 6)]
  {
    hide Present, Entry;
  }

  /** Entry v set to map frame f. */
  ghost function Linked(s: World, pd: int, v: int, t: int, f: int, perm: int): World
    requires MemOk(s.mem) && 0 <= t < NFRAMES && 0 <= v < NPAGES
  {
    World(WithEntry(s.mem, t, v % NENT, Entry(f, perm)), if v < KBASE then s.own[f := Page(v)] else s.own, s.free)
  }

  lemma WalkedGood(s: World, pd: int, v: int, t: int)
    requires Good(s, pd) && 0 <= v < NPAGES
    requires Present(s.mem[pd][v / NENT]) ==> t == Addr(s.mem[pd][v / NENT])
    requires !Present(s.mem[pd][v / NENT]) ==> 0 < t < NFRAMES && t in s.free
    ensures 0 < t < NFRAMES && t != pd
    ensures var w := Walked(s, pd, v, t);
            && Good(w, pd) && Quiet(s, w) && Present(w.mem[pd][v / NENT]) && Addr(w.mem[pd][v / NENT]) == t
            && t in w.own && w.own[t] == Table(v / NENT)
            && (forall u {:trigger Pte(w.mem, pd, u)} :: 0 <= u < NPAGES ==> Pte(w.mem, pd, u) == Pte(s.mem, pd, u))
  {
    hide Present, Addr, Pte, Entry;
    if Present(s.mem[pd][v / NENT]) {
      assert s.own[t] == Table(v / NENT);
    } else {
      EntryParts(t, 6);
      TableAdded(s.mem, pd, s.own, s.free, v / NENT, t);
    }
  }

  lemma LinkedGood(s: World, pd: int, v: int, t: int, f: int, perm: int)
    requires Good(s, pd) && 0 <= v < NPAGES && Present(s.mem[pd][v / NENT]) && t == Addr(s.mem[pd][v / NENT])
    requires 0 <= perm < 4096
    requires v < KBASE ==> !Present(Pte(s.mem, pd, v)) && 0 < f < NFRAMES && f !in s.own && f !in s.free
    ensures 0 < t < NFRAMES
    ensures var w := Linked(s, pd, v, t, f, perm);
            && Good(w, pd) && Quiet(s, w)
            && (forall u {:trigger Pte(w.mem, pd, u)} :: 0 <= u < NPAGES ==>
                 Pte(w.mem, pd, u) == if u == v then Entry(f, perm) else Pte(s.mem, pd, u))
  {
    hide Present, Addr, Pte, Entry;
    EntryParts(f, perm);
    WithEntryAll(s.mem, pd, s.own, s.free, v, Entry(f, perm));
    if v < KBASE {
      PageMapped(s.mem, pd, s.own, s.free, v, Entry(f, perm));
    } else {
      KernelMapped(s.mem, pd, s.own, s.free, v, Entry(f, perm));
    }
  }

  lemma OwnNotFree(s: World, pd: int)
    requires Good(s, pd)
    ensures MemOk(s.mem) && pd in s.own && 0 < pd < NFRAMES
    ensures forall x {:trigger x in s.own} {:trigger x in s.free} :: x in s.own ==> x !in s.free && 0 < x < NFRAMES
  {}

  lemma MappedShape(s: World, a: World, pd: int, v: int, k: int, f: int, perm: int)
    requires Mapped(s, a, pd, v, k, f, perm)
    ensures Good(a, pd) && MemOk(a.mem) && 0 < pd < NFRAMES
  {}

  /** The next page of a mapping. */
  lemma MapStep(s: World, a: World, b: World, c: World, pd: int, v: int, k: int, f: int, perm: int, t: int)
    requires Good(s, pd) && Mapped(s, a, pd, v, k, f, perm) && v + k + 1 <= NPAGES && 0 <= perm < 4096
    requires v < KBASE ==> v + k < KBASE && !Present(Pte(s.mem, pd, v + k)) && 0 < f + k < NFRAMES
                           && f + k !in s.own && f + k !in s.free
    requires Present(a.mem[pd][(v + k) / NENT]) ==> t == Addr(a.mem[pd][(v + k) / NENT])
    requires !Present(a.mem[pd][(v + k) / NENT]) ==> 0 < t < NFRAMES && t in a.free
    requires 0 <= t < NFRAMES && t != pd && b == Walked(a, pd, v + k, t) && c == Linked(b, pd, v + k, t, f + k, perm)
    ensures Mapped(s, c, pd, v, k + 1, f, perm)
  {
    hide Present, Addr, Pte, Entry, WithTable, WithEntry, Space;
    OwnNotFree(s, pd);
    WalkedGood(a, pd, v + k, t);
    LinkedGood(b, pd, v + k, t, f + k, perm);
  }

  lemma PteAt(s: World, pd: int, v: int)
    requires Good(s, pd) && 0 <= v < NPAGES && Present(s.mem[pd][v / NENT])
    ensures var t := Addr(s.mem[pd][v / NENT]);
            0 < t < NFRAMES && t in s.own && s.own[t] == Table(v / NENT) && Pte(s.mem, pd, v) == s.mem[t][v % NENT]
  {
    assert s.own[Addr(s.mem[pd][v / NENT])] == Table(v / NENT);
  }

  /** Making the table for the next page changes no mapping. */
  lemma WalkedMapped(s: World, a: World, pd: int, v: int, k: int, f: int, perm: int, t: int)
    requires Good(s, pd) && Mapped(s, a, pd, v, k, f, perm) && v + k < NPAGES
    requires Present(a.mem[pd][(v + k) / NENT]) ==> t == Addr(a.mem[pd][(v + k) / NENT])
    requires !Present(a.mem[pd][(v + k) / NENT]) ==> 0 < t < NFRAMES && t in a.free
    ensures 0 < t < NFRAMES && t != pd
    ensures var w := Walked(a, pd, v + k, t);
            MemOk(w.mem) && Mapped(s, w, pd, v, k, f, perm) && w.mem[t][(v + k) % NENT] == Pte(s.mem, pd, v + k)
  {
    hide Present, Addr, Pte, Entry, WithTable, Space;
    OwnNotFree(s, pd);
    WalkedGood(a, pd, v + k, t);
    PteAt(Walked(a, pd, v + k, t), pd, v + k);
  }

  lemma NoTableLeft(mem: Mem, free: set<int>, pd: int, v: int)
    requires MemOk(mem) && 0 <= pd < NFRAMES && 0 <= v < NPAGES && !Present(mem[pd][v / NENT]) && Empty(free)
    ensures free == {} && v / NENT !in Slots(mem[pd])
  {
    assert forall x :: x !in free;
  }

  lemma MappedNothing(s: World, pd: int, v: int, f: int, perm: int)
    requires Good(s, pd) && 0 <= v <= NPAGES
    ensures Mapped(s, s, pd, v, 0, f, perm)
  {
    hide Present, Addr, Pte;
  }

  // ---------------------------------------------------------------- the kernel half

  /** What setupkvm maps: I/O space, kernel text, kernel data and memory, and the devices. `data`
      is the first frame of kernel data. */
  ghost function KernelPte(data: int, u: int): int {
    if KBASE <= u < KBASE + 0x100 then Entry(u - KBASE, 2)
    else if KBASE + 0x100 <= u < KBASE + data then Entry(u - KBASE, 0)
    else if KBASE + data <= u < KBASE + NFRAMES then Entry(u - KBASE, 2)
    else if 0xFE000 <= u then Entry(u, 2)
    else 0
  }

  /** Where the kernel mappings end when k of the four ranges are mapped. */
  ghost function KernelTop(data: int, k: int): int {
    if k == 0 then 0 else if k == 1 then KBASE + 0x100 else if k == 2 then KBASE + data
    else if k == 3 then KBASE + NFRAMES else NPAGES
  }

  /** The kernel half of pd maps the kernel and nothing else. */
  ghost predicate KernelHalf(mem: Mem, pd: int, data: int) {
    && MemOk(mem) && 0 <= pd < NFRAMES
    && forall u {:trigger Pte(mem, pd, u)} :: KBASE <= u < NPAGES ==> Pte(mem, pd, u) == KernelPte(data, u)
  }

  /** A zeroed directory maps nothing. */
  lemma EmptyDirectory(mem: Mem, pd: int, free: set<int>)
    requires MemOk(mem) && 0 < pd < NFRAMES && mem[pd] == Zeros() && pd !in free
    ensures Space(mem, pd, map[pd := Dir], free)
    ensures forall u {:trigger Pte(mem, pd, u)} :: 0 <= u < NPAGES ==> Pte(mem, pd, u) == 0
  {
    forall u {:trigger Pte(mem, pd, u)} | 0 <= u < NPAGES
      ensures Pte(mem, pd, u) == 0
    {
      assert !Present(mem[pd][u / NENT]);
    }
    assert forall d :: 0 <= d < NENT ==> !Present(mem[pd][d]);
  }

  /** A frame's contents change, outside the address space. */
  lemma Elsewhere(mem: Mem, pd: int, own: map<int, Role>, free: set<int>, f: int, c: seq<int>, free': set<int>)
    requires Space(mem, pd, own, free) && 0 <= f < NFRAMES && f !in own && |c| == NENT
    requires forall x {:trigger x in own} :: x in own ==> x !in free'
    ensures Space(mem[f := c], pd, own, free')
    ensures forall v {:trigger Pte(mem[f := c], pd, v)} :: 0 <= v < NPAGES ==>
              Pte(mem[f := c], pd, v) == Pte(mem, pd, v)
  {
    SpaceFrame(mem, mem[f := c], pd, own, free, free');
  }

  // ---------------------------------------------------------------- unmapping

  ghost predicate PageIn(r: Role, lo: int, hi: int) {
    r.Page? && lo <= r.v < hi
  }

  /** The pages from lo up to hi are unmapped and exactly their frames are free; the rest of the
      address space is as in s. */
  ghost predicate Unmapped(s: World, t: World, pd: int, lo: int, hi: int) {
    && Good(t, pd) && MemOk(s.mem)
    && (forall u {:trigger Pte(t.mem, pd, u)} :: 0 <= u < NPAGES ==>
         Pte(t.mem, pd, u) == if lo <= u < hi && Present(Pte(s.mem, pd, u)) then 0 else Pte(s.mem, pd, u))
    && (forall x {:trigger x in t.own} :: x in t.own <==> x in s.own && !PageIn(s.own[x], lo, hi))
    && (forall x {:trigger t.own[x]} :: x in t.own ==> t.own[x] == s.own[x])
    && (forall x {:trigger x in t.free} :: x in t.free <==> x in s.free || (x in s.own && PageIn(s.own[x], lo, hi)))
    && (forall x {:trigger t.mem[x]} ::
         0 <= x < NFRAMES && (x in s.own ==> s.own[x].Page? && !PageIn(s.own[x], lo, hi)) ==>
         t.mem[x] == s.mem[x])
  }

  function Junk(): (j: seq<int>)
    ensures |j| == NENT
  {
    seq(NENT, _ => 0x101_0101)
  }

  lemma UnmappedNothing(s: World, pd: int, lo: int)
    requires Good(s, pd)
    ensures Unmapped(s, s, pd, lo, lo)
  {
    hide Present, Addr, Pte;
  }

  /** A page that is not mapped has no frame. */
  lemma NoFrame(s: World, pd: int, x: int)
    requires Good(s, pd) && x in s.own && s.own[x].Page?
    ensures 0 <= s.own[x].v < KBASE && Present(Pte(s.mem, pd, s.own[x].v)) && Addr(Pte(s.mem, pd, s.own[x].v)) == x
  {
    hide Present, Addr, Pte;
    assert RoleOk(s.mem, pd, x, s.own[x]);
  }

  /** Pages p up to q are not mapped, so passing over them misses nothing. */
  lemma UnmapSkip(s: World, t: World, pd: int, lo: int, p: int, q: int)
    requires Good(s, pd) && Unmapped(s, t, pd, lo, p) && lo <= p <= q <= KBASE && 0 <= lo
    requires forall u :: p <= u < q ==> !Present(Pte(t.mem, pd, u))
    ensures Unmapped(s, t, pd, lo, q)
  {
    hide Present, Addr, Pte, Space;
    OwnNotFree(s, pd);
    UnmappedGood(s, t, pd, lo, p);
    forall x | x in s.own && s.own[x].Page?
      ensures p <= s.own[x].v < q ==> Pte(t.mem, pd, s.own[x].v) == Pte(s.mem, pd, s.own[x].v)
      ensures !PageIn(s.own[x], p, q)
    {
      NoFrame(s, pd, x);
    }
    assert forall x :: x in s.own ==> (PageIn(s.own[x], lo, q) <==> PageIn(s.own[x], lo, p));
  }

  /** A directory entry that is not present maps none of its 1024 pages. */
  lemma NoTable(s: World, pd: int, v: int, u: int)
    requires Good(s, pd) && 0 <= v <= u < NPAGES && u / NENT == v / NENT && !Present(s.mem[pd][v / NENT])
    ensures !Present(Pte(s.mem, pd, u))
  {}

  /** Freeing the frame of page p and clearing its entry. */
  lemma UnmapStep(s: World, a: World, c: World, pd: int, lo: int, p: int)
    requires Good(s, pd) && Unmapped(s, a, pd, lo, p) && 0 <= lo <= p < KBASE
    requires Present(a.mem[pd][p / NENT]) && Present(Pte(a.mem, pd, p))
    requires var t, f := Addr(a.mem[pd][p / NENT]), Addr(Pte(a.mem, pd, p));
             0 <= t < NFRAMES && 0 <= f < NFRAMES && t != f &&
             c == World(WithEntry(a.mem[f := Junk()], t, p % NENT, 0), a.own - {f}, a.free + {f})
    ensures Unmapped(s, c, pd, lo, p + 1)
  {
    hide Present, Addr, Pte, Space;
    OwnNotFree(s, pd);
    OwnNotFree(a, pd);
    var t, f := Addr(a.mem[pd][p / NENT]), Addr(Pte(a.mem, pd, p));
    PageCleared(a.mem, pd, a.own, a.free, p);
    WithEntryAll(a.mem, pd, a.own, a.free, p, 0);
    var b := WithEntry(a.mem, t, p % NENT, 0);
    assert c.mem == b[f := Junk()];
    Elsewhere(b, pd, a.own - {f}, a.free, f, Junk(), a.free + {f});
    assert Pte(a.mem, pd, p) == Pte(s.mem, pd, p);
    assert a.own[f] == Page(p) && s.own[f] == Page(p);
    forall x | x in s.own && s.own[x] == Page(p)
      ensures x == f
    {
      NoFrame(s, pd, x);
    }
    assert forall x :: x in s.own ==> (PageIn(s.own[x], lo, p + 1) <==> PageIn(s.own[x], lo, p) || x == f);
  }

  lemma UnmappedGood(s: World, t: World, pd: int, lo: int, p: int)
    requires Unmapped(s, t, pd, lo, p)
    ensures Good(t, pd) && MemOk(t.mem) && 0 < pd < NFRAMES
  {}

  lemma WalkedSame(a: World, pd: int, v: int, t: int)
    requires Good(a, pd) && 0 <= v < NPAGES && MemOk(a.mem) && 0 < pd < NFRAMES
    ensures Present(a.mem[pd][v / NENT]) && t == Addr(a.mem[pd][v / NENT]) ==>
              0 < t < NFRAMES && t != pd && Walked(a, pd, v, t) == a && a.mem[t][v % NENT] == Pte(a.mem, pd, v)
  {
    if Present(a.mem[pd][v / NENT]) {
      PteAt(a, pd, v);
    }
  }

  /** PGROUNDUP, as a page number. */
  function PageUp(sz: int): int {
    (sz + PGSIZE - 1) / PGSIZE
  }

  /** The page's own frame is neither the directory nor its table. */
  lemma FrameOf(s: World, pd: int, v: int)
    requires Good(s, pd) && 0 <= v < KBASE && Present(Pte(s.mem, pd, v))
    ensures Present(s.mem[pd][v / NENT])
    ensures var t, f := Addr(s.mem[pd][v / NENT]), Addr(Pte(s.mem, pd, v));
            && 0 < t < NFRAMES && 0 < f < NFRAMES && t != f && f != pd && f in s.own && s.own[f] == Page(v)
                 && f !in s.free
  {
    assert s.own[Addr(Pte(s.mem, pd, v))] == Page(v);
    PteAt(s, pd, v);
  }

  // ---------------------------------------------------------------- freeing an address space

  /** The tables of directory slots below i are freed too. */
  ghost predicate Freeing(s: World, mem: Mem, free: set<int>, pd: int, i: int) {
    && MemOk(mem) && MemOk(s.mem) && 0 <= pd < NFRAMES && mem[pd] == s.mem[pd]
    && (forall x {:trigger x in free} :: x in free <==>
         x in s.free || (x in s.own && s.own[x].Table? && s.own[x].d < i))
    && (forall x {:trigger mem[x]} :: 0 <= x < NFRAMES && x !in s.own ==> mem[x] == s.mem[x])
  }

  lemma FreeingStart(s: World, pd: int)
    requires Good(s, pd)
    ensures 0 < pd < NFRAMES && Freeing(s, s.mem, s.free, pd, 0)
  {
    hide Present, Addr, Pte;
    forall x | x in s.own && s.own[x].Table?
      ensures s.own[x].d >= 0
    {
      assert RoleOk(s.mem, pd, x, s.own[x]);
    }
  }

  lemma FreeingStep(s: World, mem: Mem, free: set<int>, pd: int, i: int)
    requires Good(s, pd) && Freeing(s, mem, free, pd, i) && 0 <= i < NENT
    ensures Present(mem[pd][i]) ==>
              var t := Addr(mem[pd][i]);
              0 < t < NFRAMES && t !in free && Freeing(s, mem[t := Junk()], free + {t}, pd, i + 1)
    ensures !Present(mem[pd][i]) ==> Freeing(s, mem, free, pd, i + 1)
  {
    hide Present, Addr, Pte;
    var t := Addr(mem[pd][i]);
    forall x | x in s.own && s.own[x].Table? && s.own[x].d == i
      ensures Present(mem[pd][i]) && x == t
    {
      assert RoleOk(s.mem, pd, x, s.own[x]);
    }
    if Present(mem[pd][i]) {
      assert s.mem[pd][i] == mem[pd][i];
      assert s.own[t] == Table(i);
      assert forall x :: x in s.own && s.own[x].Table? ==> (s.own[x].d < i + 1 <==> s.own[x].d < i || x == t);
    } else {
      assert forall x :: x in s.own && s.own[x].Table? ==> (s.own[x].d < i + 1 <==> s.own[x].d < i);
    }
  }

  lemma FreeingDone(s: World, mem: Mem, free: set<int>, pd: int)
    requires Good(s, pd) && Freeing(s, mem, free, pd, NENT) && forall x :: x in s.own ==> !s.own[x].Page?
    ensures pd !in free && 0 < pd < NFRAMES && forall x :: x in free + {pd} <==> x in s.free || x in s.own
  {
    hide Present, Addr, Pte;
    OwnNotFree(s, pd);
    assert s.own[pd] == Dir;
    forall x | x in s.own
      ensures x == pd || (s.own[x].Table? && s.own[x].d < NENT)
    {
      assert RoleOk(s.mem, pd, x, s.own[x]);
    }
  }

  /** With every user page unmapped, only the directory and tables are left. */
  lemma AllUnmapped(s: World, t: World, pd: int)
    requires Good(s, pd) && Unmapped(s, t, pd, 0, KBASE)
    ensures Good(t, pd) && forall x :: x in t.own ==> !t.own[x].Page?
    ensures forall x :: x in s.free || x in s.own <==> x in t.free || x in t.own
    ensures forall x {:trigger t.mem[x]} :: 0 <= x < NFRAMES && x !in s.own ==> t.mem[x] == s.mem[x]
    ensures forall x :: x in t.own ==> x in s.own
  {
    hide Present, Addr, Pte, Space;
    forall x | x in s.own && s.own[x].Page?
      ensures PageIn(s.own[x], 0, KBASE)
    {
      NoFrame(s, pd, x);
    }
  }

  // ---------------------------------------------------------------- building an address space

  /** A new address space takes its frames from `free0` and writes no others. */
  ghost predicate Fresh(m0: Mem, free0: set<int>, t: World, pd: int) {
    && Good(t, pd) && MemOk(m0)
    && (forall x {:trigger x in t.free} {:trigger x in t.own} :: x in t.free || x in t.own <==> x in free0)
    && (forall x {:trigger t.mem[x]} :: 0 <= x < NFRAMES && x !in free0 ==> t.mem[x] == m0[x])
  }

  /** The kernel mappings below range k are in place and nothing else is mapped. */
  ghost predicate KernelSoFar(mem: Mem, pd: int, data: int, k: int) {
    && MemOk(mem) && 0 <= pd < NFRAMES
    && forall u {:trigger Pte(mem, pd, u)} :: 0 <= u < NPAGES ==>
         Pte(mem, pd, u) == if u < KernelTop(data, k) then KernelPte(data, u) else 0
  }

  /** kmap: first page, number of pages, first frame and permissions of each kernel range. */
  function KernelRange(data: int, k: int): (int, int, int, int) {
    if k == 0 then (KBASE, 0x100, 0, 2)
    else if k == 1 then (KBASE + 0x100, data - 0x100, 0x100, 0)
    else if k == 2 then (KBASE + data, NFRAMES - data, data, 2)
    else (0xFE000, 0x2000, 0xFE000, 2)
  }

  lemma KernelStep(s: World, t: World, pd: int, data: int, k: int)
    requires 0 <= k < 4 && 0x100 < data < NFRAMES && KernelSoFar(s.mem, pd, data, k)
    requires var g := KernelRange(data, k); Mapped(s, t, pd, g.0, g.1, g.2, g.3)
    ensures KernelSoFar(t.mem, pd, data, k + 1)
  {
    hide Present, Addr, Pte, Entry, Space;
    UnmappedOk(t, pd);
  }

  lemma UnmappedOk(t: World, pd: int)
    requires Good(t, pd)
    ensures MemOk(t.mem) && 0 < pd < NFRAMES
  {}

  /** The slots of the first k ranges. */
  function KernelDone(data: int, k: int): set<int> {
    if k == 0 then {} else if k == 1 then Touched(KBASE, KBASE + 0x100) else if k == 2 then Touched(KBASE, KBASE + data)
    else if k == 3 then Touched(KBASE, KBASE + NFRAMES) else KernelSlots()
  }

  lemma KernelNext(data: int, k: int, done: int)
    requires 0 <= k < 4 && 0x100 < data < NFRAMES && 0 <= done <= KernelRange(data, k).1
    ensures var g := KernelRange(data, k);
            && KernelDone(data, k) + Touched(g.0, g.0 + done) <= KernelSlots()
            && (done < g.1 ==> (g.0 + done) / NENT in KernelSlots())
            && (done == g.1 ==> KernelDone(data, k) + Touched(g.0, g.0 + done) == KernelDone(data, k + 1))
  {}

  /** What a directory that is being made has taken. */
  ghost predicate KernelTaken(free0: set<int>, dir: seq<int>, free: set<int>, slots: set<int>) {
    Slots(dir) == slots && |free0| == |free| + 1 + |slots|
  }

  lemma KernelTakes(free0: set<int>, dir: seq<int>, free: set<int>, dir': seq<int>, free': set<int>, data: int,
                    k: int, done: int)
    requires 0 <= k < 4 && 0x100 < data < NFRAMES && 0 <= done <= KernelRange(data, k).1
    requires KernelTaken(free0, dir, free, KernelDone(data, k))
    requires var g := KernelRange(data, k); Tabled(dir, free, dir', free', g.0, g.0 + done)
    ensures done == KernelRange(data, k).1 ==> KernelTaken(free0, dir', free', KernelDone(data, k + 1))
    ensures done < KernelRange(data, k).1 && free' == {} && (KernelRange(data, k).0 + done) / NENT !in Slots(dir') ==>
              |free0| < FramesFor(0)
  {
    hide Slots, Touched, KernelSlots, KernelDone, FramesFor, KernelRange;
    var g := KernelRange(data, k);
    KernelNext(data, k, done);
    if done < g.1 && free' == {} && (g.0 + done) / NENT !in Slots(dir') {
      KernelShort(dir', Slots(dir'), (g.0 + done) / NENT);
    }
  }

  lemma DirectoryTaken(free0: set<int>, pd: int, data: int)
    requires pd in free0
    ensures KernelTaken(free0, Zeros(), free0 - {pd}, KernelDone(data, 0))
  {
    assert Slots(Zeros()) == {};
  }

  lemma AllTaken(free0: set<int>, dir: seq<int>, free: set<int>, data: int)
    requires KernelTaken(free0, dir, free, KernelDone(data, 4))
    ensures KernelTaken(free0, dir, free, KernelSlots()) && |free0| >= FramesFor(0)
  {
    hide Slots;
    KernelTables();
  }

  lemma NoneLeft(free: set<int>)
    requires Empty(free)
    ensures free == {} && |free| < FramesFor(0)
  {
    assert forall x :: x !in free;
  }

  lemma KernelAll(mem: Mem, pd: int, data: int)
    requires KernelSoFar(mem, pd, data, 4) && 0x100 < data < NFRAMES
    ensures KernelHalf(mem, pd, data)
    ensures forall u {:trigger Pte(mem, pd, u)} :: 0 <= u < KBASE ==> Pte(mem, pd, u) == 0
  {
    hide Entry, Pte;
  }

  /** The ranges do not overlap, so mappages never finds a page mapped already. */
  lemma NoRemap(mem: Mem, pd: int, data: int, k: int, u: int)
    requires 0 <= k < 4 && 0x100 < data < NFRAMES && KernelSoFar(mem, pd, data, k)
    requires var g := KernelRange(data, k); g.0 <= u < g.0 + g.1
    ensures 0 <= u < NPAGES && !Present(Pte(mem, pd, u))
  {}

  /** Kernel mappings come out of the pool's frames. */
  lemma FreshKernel(m0: Mem, free0: set<int>, s: World, t: World, pd: int, v: int, k: int, f: int, perm: int)
    requires Fresh(m0, free0, s, pd) && Mapped(s, t, pd, v, k, f, perm) && v >= KBASE
    ensures Fresh(m0, free0, t, pd)
  {
    hide Present, Addr, Pte, Entry, Space;
  }

  lemma FreshDirectory(m0: Mem, free0: set<int>, mem: Mem, pd: int, free: set<int>, data: int)
    requires MemOk(m0) && 0 < pd < NFRAMES && pd in free0 && free == free0 - {pd} && mem == m0[pd := Zeros()]
    ensures Fresh(m0, free0, World(mem, map[pd := Dir], free), pd) && KernelSoFar(mem, pd, data, 0)
  {
    hide Present, Addr, Pte, Space;
    EmptyDirectory(mem, pd, free);
  }

  lemma FreshGood(m0: Mem, free0: set<int>, t: World, pd: int)
    requires Fresh(m0, free0, t, pd)
    ensures Good(t, pd) && MemOk(t.mem) && 0 < pd < NFRAMES
    ensures forall x {:trigger x in t.free} {:trigger x in t.own} :: x in t.free || x in t.own <==> x in free0
    ensures forall x {:trigger t.mem[x]} :: 0 <= x < NFRAMES && x !in free0 ==> t.mem[x] == m0[x]
  {}

  /** Nothing of an address space that lies outside `free0` changes. */
  lemma OtherSpaceKept(m0: Mem, free0: set<int>, t: World, d: int, pd: int, own: map<int, Role>)
    requires Space(m0, pd, own, free0) && Fresh(m0, free0, t, d)
    ensures Space(t.mem, pd, own, t.free)
    ensures forall x {:trigger x in own} :: x in own ==> t.mem[x] == m0[x] && x !in t.own
    ensures forall v {:trigger Pte(t.mem, pd, v)} :: 0 <= v < NPAGES ==> Pte(t.mem, pd, v) == Pte(m0, pd, v)
  {
    hide Present, Addr, Pte, RoleOk;
    assert MemOk(t.mem);
    forall x | x in own
      ensures x !in t.free && t.mem[x] == m0[x] && x !in t.own
    {
      assert x !in free0;
    }
    SpaceFrame(m0, t.mem, pd, own, free0, t.free);
  }

  // ---------------------------------------------------------------- growing an address space

  /** allocuvm has put zeroed fresh frames, writable by the user, behind the pages from lo up to
      p; everything else is as in s. */
  ghost predicate Grown(s: World, t: World, pd: int, lo: int, p: int) {
    && Good(s, pd) && Good(t, pd) && Quiet(s, t) && 0 <= lo <= p <= KBASE
    && (forall u {:trigger Pte(t.mem, pd, u)} :: 0 <= u < NPAGES ==>
         if lo <= u < p then NewPage(s, t.mem, Pte(t.mem, pd, u)) else Pte(t.mem, pd, u) == Pte(s.mem, pd, u))
    && (forall x {:trigger x in t.own} {:trigger x in t.free} :: x in t.free || x in t.own <==>
         x in s.free || x in s.own)
    && t.free <= s.free
    && (forall x {:trigger x in s.own} :: x in s.own ==> x in t.own && t.own[x] == s.own[x])
    && (forall x {:trigger t.own[x]} :: x in t.own && x !in s.own && t.own[x].Page? ==> lo <= t.own[x].v < p)
  }

  /** A present entry, writable and for the user, of a zeroed frame that was free in s. */
  ghost predicate NewPage(s: World, mem: Mem, w: int) {
    && MemOk(mem) && Present(w) && Flags(w) == 7 && 0 < Addr(w) < NFRAMES && Addr(w) in s.free
         && mem[Addr(w)] == Zeros()
  }

  lemma GrownNothing(s: World, pd: int, lo: int)
    requires Good(s, pd) && 0 <= lo <= KBASE
    ensures Grown(s, s, pd, lo, lo)
  {
    hide Present, Addr, Pte;
  }

  /** Taking frame f from the pool and filling it changes no address space. */
  lemma Taken(s: World, pd: int, f: int, c: seq<int>)
    requires Good(s, pd) && f in s.free && 0 < f < NFRAMES && |c| == NENT
    ensures Good(World(s.mem[f := c], s.own, s.free - {f}), pd)
    ensures forall v {:trigger Pte(s.mem[f := c], pd, v)} :: 0 <= v < NPAGES ==>
              Pte(s.mem[f := c], pd, v) == Pte(s.mem, pd, v)
  {
    hide Present, Addr, Pte;
    Elsewhere(s.mem, pd, s.own, s.free, f, c, s.free - {f});
  }

  lemma GrowStep(s: World, a: World, b: World, c: World, pd: int, lo: int, p: int, f: int)
    requires Grown(s, a, pd, lo, p) && p < KBASE && f in a.free && 0 < f < NFRAMES
    requires b == World(a.mem[f := Zeros()], a.own, a.free - {f})
    requires Mapped(b, c, pd, p, 1, f, 6)
    ensures Grown(s, c, pd, lo, p + 1)
  {
    hide Present, Addr, Flags, Pte, Entry, Space;
    OwnNotFree(s, pd);
    OwnNotFree(a, pd);
    Taken(a, pd, f, Zeros());
    EntryParts(f, 6);
    OwnNotFree(c, pd);
    assert Pte(c.mem, pd, p) == Entry(f, 6);
    assert f in c.own by {
      FrameOf(c, pd, p);
    }
    assert c.own[f] == Page(p) by {
      FrameOf(c, pd, p);
    }
    assert c.mem[f] == b.mem[f];
    forall u | lo <= u < p
      ensures NewPage(s, c.mem, Pte(c.mem, pd, u))
    {
      assert NewPage(s, a.mem, Pte(a.mem, pd, u));
      FrameOf(a, pd, u);
      assert Pte(b.mem, pd, u) == Pte(a.mem, pd, u);
    }
    forall x | x in c.own && x !in s.own && c.own[x].Page?
      ensures lo <= c.own[x].v < p + 1
    {
      NewPageHere(s, c, pd, x);
    }
  }

  /** A page frame that is new belongs to an entry that is new. */
  lemma NewPageHere(s: World, c: World, pd: int, x: int)
    requires Good(s, pd) && Good(c, pd) && x in c.own && x !in s.own && c.own[x].Page?
    ensures 0 <= c.own[x].v < KBASE && Pte(c.mem, pd, c.own[x].v) != Pte(s.mem, pd, c.own[x].v)
  {
    hide Addr, Pte;
    NoFrame(c, pd, x);
    var v := c.own[x].v;
    if Present(Pte(s.mem, pd, v)) {
      FrameOf(s, pd, v);
    }
  }

  /** A failed allocuvm leaves the mappings as they were: the pool has lost frames only to page
      tables of the address space. */
  ghost predicate Restored(s: World, u: World, pd: int, lo: int, hi: int) {
    && Good(u, pd) && Quiet(s, u)
    && (forall v {:trigger Pte(u.mem, pd, v)} :: 0 <= v < NPAGES ==>
         if lo <= v < hi then !Present(Pte(u.mem, pd, v)) else Pte(u.mem, pd, v) == Pte(s.mem, pd, v))
    && (forall x {:trigger x in u.own} {:trigger x in u.free} :: x in u.free || x in u.own <==>
         x in s.free || x in s.own)
    && (forall x {:trigger x in s.own} :: x in s.own ==> x in u.own && u.own[x] == s.own[x])
    && (forall x {:trigger u.own[x]} :: x in u.own && x !in s.own ==> !u.own[x].Page?)
  }

  lemma GrowUndone(s: World, t: World, u: World, pd: int, lo: int, p: int, hi: int)
    requires Grown(s, t, pd, lo, p) && Unmapped(t, u, pd, lo, hi) && p <= hi <= KBASE
    requires forall v :: lo <= v < hi ==> !Present(Pte(s.mem, pd, v))
    ensures Restored(s, u, pd, lo, hi)
  {
    hide Addr, Pte, Space, Flags;
    OwnNotFree(s, pd);
    UnmappedGood(t, u, pd, lo, hi);
    forall x | x in s.own
      ensures !PageIn(s.own[x], lo, hi)
    {
      if s.own[x].Page? {
        NoFrame(s, pd, x);
      }
    }
  }

  lemma UnmappedPlus(c: World, d: World, pd: int, lo: int, hi: int, f: int)
    requires Unmapped(c, d, pd, lo, hi) && f !in c.own && f !in c.free && 0 < f < NFRAMES
    ensures f !in d.free && f !in d.own && MemOk(d.mem)
    ensures Unmapped(World(c.mem, c.own, c.free + {f}), World(d.mem, d.own, d.free + {f}), pd, lo, hi)
  {
    hide Addr, Pte, Present;
    SpaceFrame(d.mem, d.mem, pd, d.own, d.free, d.free + {f});
  }

  lemma RestoredJunk(s: World, u: World, pd: int, lo: int, hi: int, f: int)
    requires Restored(s, u, pd, lo, hi) && f in s.free && f in u.free && 0 < f < NFRAMES
    ensures Restored(s, World(u.mem[f := Junk()], u.own, u.free), pd, lo, hi)
  {
    hide Addr, Pte, Present;
    Elsewhere(u.mem, pd, u.own, u.free, f, Junk(), u.free);
  }

  /** mappages fails for the page: giving its frame back leaves what had grown before. */
  lemma GrowFails(s: World, a: World, b: World, c: World, pd: int, lo: int, p: int, f: int)
    requires Grown(s, a, pd, lo, p) && p < KBASE && f in a.free && 0 < f < NFRAMES
    requires b == World(a.mem[f := Zeros()], a.own, a.free - {f})
    requires Mapped(b, c, pd, p, 0, f, 6)
    ensures f !in c.own && f !in c.free && f in s.free && Good(c, pd)
    ensures Grown(s, World(c.mem, c.own, c.free + {f}), pd, lo, p)
  {
    hide Addr, Pte, Present, Entry, Space, Flags;
    OwnNotFree(s, pd);
    OwnNotFree(a, pd);
    Taken(a, pd, f, Zeros());
    OwnNotFree(c, pd);
    var e := World(c.mem, c.own, c.free + {f});
    assert Good(e, pd) by {
      SpaceFrame(c.mem, c.mem, pd, c.own, c.free, e.free);
    }
    forall u | lo <= u < p
      ensures NewPage(s, c.mem, Pte(c.mem, pd, u))
    {
      assert NewPage(s, a.mem, Pte(a.mem, pd, u));
      FrameOf(a, pd, u);
      assert Pte(b.mem, pd, u) == Pte(a.mem, pd, u);
    }
    forall x | x in c.own && x !in s.own && c.own[x].Page?
      ensures lo <= c.own[x].v < p
    {
      NewPageHere(s, c, pd, x);
    }
  }

  /** The pages from lo up to p, and their missing tables, came out of the free frames. */
  ghost predicate GrowTaken(dir0: seq<int>, free0: set<int>, dir: seq<int>, free: set<int>, lo: int, p: int) {
    Slots(dir) == Slots(dir0) + Touched(lo, p) && |free| + |Slots(dir)| + (p - lo) == |free0| + |Slots(dir0)|
  }

  lemma GrowTakesNone(dir: seq<int>, free: set<int>, lo: int)
    ensures GrowTaken(dir, free, dir, free, lo, lo)
  {
    assert Touched(lo, lo) == {};
    assert Slots(dir) + {} == Slots(dir);
  }

  lemma GrowTakesOne(dir0: seq<int>, free0: set<int>, dir: seq<int>, free: set<int>, f: int, dir': seq<int>,
                     free': set<int>, lo: int, p: int)
    requires GrowTaken(dir0, free0, dir, free, lo, p) && f in free && Tabled(dir, free - {f}, dir', free', p, p + 1)
    requires lo <= p
    ensures GrowTaken(dir0, free0, dir', free', lo, p + 1)
  {
    hide Slots;
    TouchedParts(lo, p, p + 1);
    assert Slots(dir0) + Touched(lo, p) + Touched(p, p + 1) == Slots(dir0) + Touched(lo, p + 1);
  }

  lemma GrowTotal(dir0: seq<int>, free0: set<int>, dir: seq<int>, free: set<int>, lo: int, p: int)
    requires GrowTaken(dir0, free0, dir, free, lo, p)
    ensures |free0| == |free| + FramesToGrow(dir0, lo, p)
  {
    hide Slots, Touched;
    GrowCount(dir0, lo, p);
  }

  lemma GrowStops(dir0: seq<int>, free0: set<int>, dir: seq<int>, free: set<int>, lo: int, p: int, hi: int)
    requires GrowTaken(dir0, free0, dir, free, lo, p) && lo <= p < hi
    requires free == {} || (|free| == 1 && p / NENT !in Slots(dir))
    ensures |free0| < FramesToGrow(dir0, lo, hi)
  {
    hide Slots, Touched, FramesToGrow;
    GrowTotal(dir0, free0, dir, free, lo, p);
    GrowShort(dir0, lo, p, hi, |free|);
  }

  lemma GrownShape(s: World, t: World, pd: int, lo: int, p: int)
    requires Grown(s, t, pd, lo, p)
    ensures Good(t, pd) && t.free <= s.free && 0 < pd < NFRAMES && MemOk(t.mem)
    ensures forall u {:trigger Pte(t.mem, pd, u)} :: p <= u < NPAGES ==> Pte(t.mem, pd, u) == Pte(s.mem, pd, u)
  {
    hide Addr, Pte, Present;
  }

  // ---------------------------------------------------------------- copying an address space

  /** Entry w in memory m is a copy of entry w0 in memory m0: same flags, same contents. */
  ghost predicate CopyOf(m0: Mem, w0: int, m: Mem, w: int) {
    && MemOk(m0) && MemOk(m) && Present(w) && Flags(w) == Flags(w0)
    && 0 < Addr(w) < NFRAMES && 0 < Addr(w0) < NFRAMES && m[Addr(w)] == m0[Addr(w0)]
  }

  /** The first k pages of directory d are copies of pd's; no other user page is mapped. */
  ghost predicate Copied(m0: Mem, pd: int, mem: Mem, d: int, k: int) {
    && MemOk(m0) && MemOk(mem) && 0 <= pd < NFRAMES && 0 <= d < NFRAMES && 0 <= k <= KBASE
    && forall u {:trigger Pte(mem, d, u)} :: 0 <= u < KBASE ==>
         if u < k then CopyOf(m0, Pte(m0, pd, u), mem, Pte(mem, d, u)) else Pte(mem, d, u) == 0
  }

  lemma CopiedNothing(m0: Mem, pd: int, mem: Mem, d: int)
    requires MemOk(m0) && MemOk(mem) && 0 <= pd < NFRAMES && 0 <= d < NFRAMES
    requires forall u {:trigger Pte(mem, d, u)} :: 0 <= u < KBASE ==> Pte(mem, d, u) == 0
    ensures Copied(m0, pd, mem, d, 0)
  {
    hide Pte;
  }

  lemma CopiedShape(m0: Mem, pd: int, mem: Mem, d: int, k: int)
    requires Copied(m0, pd, mem, d, k) && k < KBASE
    ensures MemOk(mem) && 0 <= d < NFRAMES && !Present(Pte(mem, d, k))
  {
    hide Pte;
  }

  lemma CopyStep(m0: Mem, free0: set<int>, own: map<int, Role>, pd: int, a: World, b: World, c: World,
                 d: int, data: int, k: int, f: int)
    requires Space(m0, pd, own, free0) && Fresh(m0, free0, a, d)
    requires Copied(m0, pd, a.mem, d, k) && KernelHalf(a.mem, d, data)
    requires 0 <= k < KBASE && Present(Pte(m0, pd, k)) && f in a.free && 0 < f < NFRAMES
    requires var w := Pte(m0, pd, k);
             && 0 < Addr(w) < NFRAMES && b == World(a.mem[f := m0[Addr(w)]], a.own, a.free - {f})
             && Mapped(b, c, d, k, 1, f, Flags(w))
    ensures Fresh(m0, free0, c, d) && Copied(m0, pd, c.mem, d, k + 1) && KernelHalf(c.mem, d, data)
  {
    hide Addr, Flags, Pte, Entry, Present, Space, KernelPte;
    var w := Pte(m0, pd, k);
    FreshGood(m0, free0, a, d);
    OwnNotFree(a, d);
    OwnNotFree(World(m0, own, free0), pd);
    Taken(a, d, f, m0[Addr(w)]);
    CopyFlags(f, w);
    OwnNotFree(c, d);
    assert Pte(c.mem, d, k) == Entry(f, Flags(w));
    FrameOf(c, d, k);
    assert c.mem[f] == b.mem[f];
    forall u | 0 <= u < k
      ensures CopyOf(m0, Pte(m0, pd, u), c.mem, Pte(c.mem, d, u))
    {
      assert CopyOf(m0, Pte(m0, pd, u), a.mem, Pte(a.mem, d, u));
      FrameOf(a, d, u);
      assert Pte(b.mem, d, u) == Pte(a.mem, d, u);
    }
  }

  /** The page got the last frame and its table none. */
  lemma TableRanOut(dir: seq<int>, free: set<int>, f: int, dir': seq<int>, free': set<int>, k: int)
    requires Tabled(dir, free - {f}, dir', free', k, k) && free' == {} && f in free && k / NENT !in Slots(dir')
    ensures |free| == 1 && k / NENT !in Slots(dir)
  {
    assert Touched(k, k) == {};
    assert Slots(dir) + {} == Slots(dir);
  }

  lemma CopyFlags(f: int, w: int)
    requires Present(w)
    ensures 0 <= Flags(w) < 4096
    ensures Present(Entry(f, Flags(w))) && Addr(Entry(f, Flags(w))) == f && Flags(Entry(f, Flags(w))) == Flags(w)
  {
    Parts(w / 4096, w % 4096);
    EntryParts(f, w % 4096);
  }

  lemma CopyFails(m0: Mem, free0: set<int>, a: World, b: World, c: World, d: int, k: int, f: int, x: seq<int>,
                  perm: int)
    requires Fresh(m0, free0, a, d) && f in a.free && 0 < f < NFRAMES && |x| == NENT
    requires b == World(a.mem[f := x], a.own, a.free - {f}) && Mapped(b, c, d, k, 0, f, perm)
    ensures f !in c.free && Fresh(m0, free0, World(c.mem[f := Junk()], c.own, c.free + {f}), d)
  {
    hide Addr, Flags, Pte, Entry, Present, Space;
    FreshGood(m0, free0, a, d);
    OwnNotFree(a, d);
    Taken(a, d, f, x);
    OwnNotFree(c, d);
    assert f !in c.own && f !in c.free;
    Elsewhere(c.mem, d, c.own, c.free, f, Junk(), c.free + {f});
  }

  /** A child's directory d, with its first k user pages, has taken FramesFor(k) of free0. */
  ghost predicate CopyTaken(free0: set<int>, dir: seq<int>, free: set<int>, k: int) {
    && 0 <= k <= KBASE && Slots(dir) == KernelSlots() + Touched(0, k)
    && |free0| == |free| + 1 + |Slots(dir)| + k
  }

  lemma CopyTakesNone(free0: set<int>, dir: seq<int>, free: set<int>)
    requires KernelTaken(free0, dir, free, KernelSlots())
    ensures CopyTaken(free0, dir, free, 0)
  {
    assert Touched(0, 0) == {};
    assert KernelSlots() + {} == KernelSlots();
  }

  lemma CopyCount(free0: set<int>, dir: seq<int>, free: set<int>, k: int)
    requires CopyTaken(free0, dir, free, k)
    ensures k >= 0 && |free0| == |free| + FramesFor(k)
  {
    hide Slots, KernelSlots, Touched;
    SpaceTables(k);
  }

  /** One more page, and its table when it was missing. */
  lemma CopyTakesOne(free0: set<int>, dir: seq<int>, free: set<int>, f: int, dir': seq<int>, free': set<int>, k: int)
    requires CopyTaken(free0, dir, free, k) && k < KBASE && f in free
    requires Tabled(dir, free - {f}, dir', free', k, k + 1)
    ensures CopyTaken(free0, dir', free', k + 1)
  {
    hide Slots, KernelSlots;
    TouchedParts(0, k, k + 1);
    assert KernelSlots() + Touched(0, k) + Touched(k, k + 1) == KernelSlots() + Touched(0, k + 1);
  }

  /** The frames ran out at page k. */
  lemma CopyStops(free0: set<int>, dir: seq<int>, free: set<int>, k: int)
    requires CopyTaken(free0, dir, free, k) && k < KBASE
    requires free == {} || (|free| == 1 && k / NENT !in Slots(dir))
    ensures forall n :: k < n <= KBASE ==> |free0| < FramesFor(n)
  {
    hide Slots, KernelSlots, Touched, FramesFor;
    CopyCount(free0, dir, free, k);
    forall n | k < n <= KBASE
      ensures |free0| < FramesFor(n)
    {
      CopyShort(n, k, |free|);
    }
  }

  /** Page u is the first that is not mapped. */
  ghost predicate FirstHole(mem: Mem, pd: int, u: int) {
    && MemOk(mem) && 0 <= pd < NFRAMES && 0 <= u < KBASE && !Present(Pte(mem, pd, u))
    && forall w {:trigger Pte(mem, pd, w)} :: 0 <= w < u ==> Present(Pte(mem, pd, w))
  }

  /** No page below k is missing. */
  ghost predicate NoHole(mem: Mem, pd: int, k: int) {
    && MemOk(mem) && 0 <= pd < NFRAMES && 0 <= k <= KBASE
    && forall w {:trigger Pte(mem, pd, w)} :: 0 <= w < k ==> Present(Pte(mem, pd, w))
  }

  lemma NoHoleYet(mem: Mem, pd: int)
    requires MemOk(mem) && 0 <= pd < NFRAMES
    ensures NoHole(mem, pd, 0)
  {}

  lemma NextHole(mem: Mem, pd: int, k: int)
    requires NoHole(mem, pd, k) && k < KBASE
    ensures MemOk(mem) && 0 <= pd < NFRAMES
    ensures if Present(Pte(mem, pd, k)) then NoHole(mem, pd, k + 1) else FirstHole(mem, pd, k)
  {
    hide Present, Pte;
  }

  /** With fewer frames than setupkvm takes, no page is reached. */
  lemma AnyFrames(k: nat, frames: int)
    requires frames < FramesFor(k)
    ensures forall n: nat :: k <= n ==> frames < FramesFor(n)
  {
    forall n: nat | k <= n
      ensures frames < FramesFor(n)
    {
      FramesMore(k, n);
    }
  }

  lemma HolesAbove(mem: Mem, pd: int, k: int)
    requires NoHole(mem, pd, k)
    ensures forall u {:trigger FirstHole(mem, pd, u)} :: FirstHole(mem, pd, u) ==> u >= k
  {
    hide Present, Pte;
  }

  class Machine {
    const data: int                    // V2P(data) / PGSIZE
    var mem: Mem
    var freelist: seq<int>             // kmem.freelist
    ghost var free: set<int>           // its frames

    ghost predicate Valid()
      reads this
    {
      && MemOk(mem) && 0x100 < data < NFRAMES
      && (forall i, j :: 0 <= i < j < |freelist| ==> freelist[i] != freelist[j])
      && (forall f {:trigger f in free} {:trigger f in freelist} :: f in free <==> f in freelist)
      && (forall i :: 0 <= i < |freelist| ==> 0 < freelist[i] < NFRAMES)
    }

    ghost function Now(own: map<int, Role>): World
      reads this
    {
      World(mem, own, free)
    }

    constructor (data: int, frames: seq<int>)
      requires 0x100 < data < NFRAMES
      requires forall i, j :: 0 <= i < j < |frames| ==> frames[i] != frames[j]
      requires forall i :: 0 <= i < |frames| ==> 0 < frames[i] < NFRAMES
      ensures Valid() && this.data == data && freelist == frames
    {
      this.data := data;
      mem := seq(NFRAMES, _ => Zeros());
      freelist := frames;
      free := set f | f in frames;
    }

    /** The first free frame; 0 when there is none. */
    method Kalloc() returns (f: int)
      requires Valid()
      modifies this`freelist, this`free
      ensures Valid() && 0 <= f < NFRAMES
      ensures f == 0 <==> Empty(old(free))
      ensures f == 0 ==> free == old(free)
      ensures f != 0 ==> f in old(free) && free == old(free) - {f}
    {
      if |freelist| == 0 {
        assert forall x :: x !in freelist;
        return 0;
      }
      f := freelist[0];
      assert f in freelist && f in free;
      freelist := freelist[1..];
      free := free - {f};
    }

    /** Fills the frame with junk and puts it at the head of the free list. */
    method Kfree(f: int)
      requires Valid() && 0 < f < NFRAMES && f !in free
      modifies this
      ensures Valid() && free == old(free) + {f}
      ensures mem == old(mem)[f := Junk()]
    {
      assert f !in freelist;
      mem := mem[f := Junk()];
      freelist := [f] + freelist;
      free := free + {f};
    }

    lemma DataRange()
      requires Valid()
      ensures 0x100 < data < NFRAMES && MemOk(mem)
    {}

    /** memset(frame, 0, PGSIZE) */
    method Blank(f: int)
      requires Valid() && 0 <= f < NFRAMES
      modifies this`mem
      ensures Valid() && mem == old(mem)[f := Zeros()]
    {
      mem := mem[f := Zeros()];
    }

    /** memmove of one page */
    method CopyFrame(f: int, from: int)
      requires Valid() && 0 <= f < NFRAMES && 0 <= from < NFRAMES
      modifies this`mem
      ensures Valid() && MemOk(mem) && MemOk(old(mem)) && mem == old(mem)[f := old(mem)[from]]
    {
      mem := mem[f := mem[from]];
    }

    method Store(t: int, x: int, w: int)
      requires Valid() && 0 <= t < NFRAMES && 0 <= x < NENT
      modifies this`mem
      ensures Valid() && mem == WithEntry(old(mem), t, x, w)
    {
      mem := mem[t := mem[t][x := w]];
    }

    /** The page table for page v, as a frame; 0 when there is none and none can be made. */
    method Walkpgdir(pd: int, v: int, alloc: bool, ghost own: map<int, Role>)
      returns (t: int, ghost own': map<int, Role>)
      requires Valid() && Good(Now(own), pd) && 0 <= v < NPAGES
      modifies this
      ensures Valid() && 0 <= t < NFRAMES && 0 < pd < NFRAMES && pd != t
      ensures t == 0 <==> !Present(old(mem)[pd][v / NENT]) && (!alloc || Empty(old(free)))
      ensures t == 0 ==> Now(own') == old(Now(own))
      ensures t != 0 ==> Now(own') == Walked(old(Now(own)), pd, v, t)
      ensures t != 0 && Present(old(mem)[pd][v / NENT]) ==> t == Addr(old(mem)[pd][v / NENT])
      ensures t != 0 && !Present(old(mem)[pd][v / NENT]) ==> t in old(free)
    {
      hide Space, Present, Addr, Pte;
      OwnNotFree(Now(own), pd);
      own' := own;
      t := 0;
      if Present(mem[pd][v / NENT]) {
        t := Addr(mem[pd][v / NENT]);
        WalkedGood(Now(own), pd, v, t);
      } else {
        if alloc {
          t := Kalloc();
        }
        if t != 0 {
          mem := mem[t := Zeros()];
          mem := mem[pd := mem[pd][v / NENT := Entry(t, 6)]];
          own' := own[t := Table(v / NENT)];
        }
      }
    }

    /** Maps n pages from v on to the frames from f on. */
    method Mappages(pd: int, v: int, n: int, f: int, perm: int, ghost own: map<int, Role>)
      returns (r: int, panicked: bool, ghost own': map<int, Role>, ghost done: int)
      requires Valid() && Good(Now(own), pd) && 0 <= v && 0 < n && v + n <= NPAGES && 0 <= perm < 4096
      requires v < KBASE ==> v + n <= KBASE && forall k :: f <= k < f + n ==> 0 < k < NFRAMES && k !in own && k !in free
      modifies this
      ensures Valid() && 0 <= done <= n && Mapped(old(Now(own)), Now(own'), pd, v, done, f, perm)
      ensures panicked ==> exists u :: v <= u < v + n && Present(old(Pte(mem, pd, u)))
      ensures !panicked ==> r == if done == n then 0 else -1
      ensures 0 < pd < NFRAMES && MemOk(mem) && MemOk(old(mem))
      ensures !panicked ==> Tabled(old(mem)[pd], old(free), mem[pd], free, v, v + done)
      ensures !panicked && done < n ==> free == {} && (v + done) / NENT !in Slots(mem[pd])
    {
      hide Present, Addr, Pte, Entry, Space, Walked, Valid, Mapped, Tabled, Slots;
      OwnNotFree(Now(own), pd);
      DataRange();
      TabledNothing(mem[pd], free, v);
      ghost var s := Now(own);
      var last := v + n - 1;
      var a := v;
      r, panicked, own', done := 0, false, own, 0;
      MappedNothing(s, pd, v, f, perm);
      while true
        invariant Valid() && v <= a <= last && done == a - v
        invariant Mapped(s, Now(own'), pd, v, a - v, f, perm)
        invariant |mem| == NFRAMES && Tabled(s.mem[pd], s.free, mem[pd], free, v, a)
        decreases last - a
      {
        ghost var before := Now(own');
        MappedShape(s, before, pd, v, a - v, f, perm);
        var t;
        t, own' := Walkpgdir(pd, a, true, own');
        if t == 0 {
          NoTableLeft(mem, free, pd, a);
          return -1, false, own', done;
        }
        ghost var walked := Now(own');
        WalkedRow(before, pd, a, t);
        TabledNext(s.mem[pd], s.free, before.mem[pd], before.free, walked.mem[pd], walked.free, v, a, t);
        WalkedGood(before, pd, a, t);
        WalkedMapped(s, before, pd, v, a - v, f, perm, t);
        if Present(mem[t][a % NENT]) {
          return 0, true, own', done;
        }
        Store(t, a % NENT, Entry(f + (a - v), perm));
        own' := if a < KBASE then own'[f + (a - v) := Page(a)] else own';
        assert v < KBASE ==> f + (a - v) !in s.own;
        MapStep(s, before, walked, Now(own'), pd, v, a - v, f, perm, t);
        done := done + 1;
        if a == last {
          return 0, false, own', done;
        }
        a := a + 1;
      }
    }

    /** Unmaps the pages from newsz to oldsz and frees their frames. */
    method Deallocuvm(pd: int, oldsz: int, newsz: int, ghost own: map<int, Role>)
      returns (r: int, ghost own': map<int, Role>)
      requires Valid() && Good(Now(own), pd) && 0 <= newsz && 0 <= oldsz <= KERNBASE
      modifies this
      ensures Valid() && r == if newsz >= oldsz then oldsz else newsz
      ensures Unmapped(old(Now(own)), Now(own'), pd, PageUp(newsz), Max(PageUp(newsz), PageUp(oldsz)))
    {
      hide Present, Addr, Pte, Space, Valid, Unmapped, WithEntry, Walked;
      ghost var s := Now(own);
      own' := own;
      ghost var lo, hi := PageUp(newsz), Max(PageUp(newsz), PageUp(oldsz));
      UnmappedNothing(s, pd, lo);
      if newsz >= oldsz {
        return oldsz, own';
      }
      var p := (newsz + PGSIZE - 1) / PGSIZE;
      while p * PGSIZE < oldsz
        invariant Valid() && lo <= p && own' == Now(own').own
        invariant Unmapped(s, Now(own'), pd, lo, Min(p, hi))
        decreases hi - p
      {
        var t;
        ghost var a := Now(own');
        UnmappedGood(s, a, pd, lo, p);
        t, own' := Walkpgdir(pd, p, false, own');
        WalkedSame(a, pd, p, t);
        if t == 0 {
          ghost var next := (p / NENT + 1) * NENT;
          forall u | p <= u < Min(next, hi)
            ensures !Present(Pte(a.mem, pd, u))
          {
            assert u / NENT == p / NENT;
            NoTable(a, pd, p, u);
          }
          UnmapSkip(s, a, pd, lo, p, Min(next, hi));
          p := (p / NENT + 1) * NENT - 1;
        } else if Present(mem[t][p % NENT]) {
          var pa := Addr(mem[t][p % NENT]);
          FrameOf(a, pd, p);
          Kfree(pa);
          Store(t, p % NENT, 0);
          own' := own' - {pa};
          UnmapStep(s, a, Now(own'), pd, lo, p);
        } else {
          UnmapSkip(s, a, pd, lo, p, p + 1);
        }
        p := p + 1;
      }
      r := newsz;
    }

    /** Frees every frame of the address space: its user pages, its tables and its directory. */
    method Freevm(pd: int, ghost own: map<int, Role>)
      requires Valid() && Good(Now(own), pd)
      modifies this
      ensures Valid() && forall x :: x in free <==> x in old(free) || x in own
      ensures forall x :: 0 <= x < NFRAMES && x !in own ==> mem[x] == old(mem)[x]
    {
      hide Present, Addr, Pte, Space, Valid, Unmapped;
      ghost var s := Now(own);
      var r;
      ghost var own1;
      r, own1 := Deallocuvm(pd, KERNBASE, 0, own);
      ghost var t := Now(own1);
      AllUnmapped(s, t, pd);
      FreeingStart(t, pd);
      var i := 0;
      while i < NENT
        invariant 0 <= i <= NENT && Valid() && Freeing(t, mem, free, pd, i)
      {
        FreeingStep(t, mem, free, pd, i);
        if Present(mem[pd][i]) {
          Kfree(Addr(mem[pd][i]));
        }
        i := i + 1;
      }
      FreeingDone(t, mem, free, pd);
      Kfree(pd);
    }

    /** A new directory that maps the kernel; 0, with nothing taken, when frames run out. */
    method Setupkvm() returns (pd: int, ghost own: map<int, Role>)
      requires Valid()
      modifies this
      ensures Valid() && 0 <= pd < NFRAMES
      ensures pd == 0 <==> |old(free)| < FramesFor(0)
      ensures pd != 0 ==> MemOk(mem) && KernelTaken(old(free), mem[pd], free, KernelSlots())
      ensures pd == 0 ==> forall x :: x in free <==> x in old(free)
      ensures pd == 0 ==> forall x :: 0 <= x < NFRAMES && x !in old(free) ==> mem[x] == old(mem)[x]
      ensures pd != 0 ==> Fresh(old(mem), old(free), Now(own), pd) && KernelHalf(mem, pd, data)
      ensures pd != 0 ==> forall u {:trigger Pte(mem, pd, u)} :: 0 <= u < KBASE ==> Pte(mem, pd, u) == 0
    {
      hide Present, Addr, Space, Entry, Pte, Valid, Fresh, Mapped, KernelSoFar, KernelTaken, Tabled, KernelDone,
           KernelSlots, Slots, FramesFor;
      own := map[];
      pd := Kalloc();
      if pd == 0 {
        NoneLeft(old(free));
        return;
      }
      ghost var m0, free0 := old(mem), old(free);
      Blank(pd);
      own := map[pd := Dir];
      FreshDirectory(m0, free0, mem, pd, free, data);
      DirectoryTaken(free0, pd, data);
      var k := 0;
      while k < 4
        invariant |mem| == NFRAMES && KernelTaken(free0, mem[pd], free, KernelDone(data, k))
        invariant 0 <= k <= 4 && Valid() && Fresh(m0, free0, Now(own), pd) && KernelSoFar(mem, pd, data, k)
      {
        ghost var s := Now(own);
        var r, panicked;
        ghost var done, own1;
        var g := KernelRange(data, k);
        DataRange();
        FreshGood(m0, free0, s, pd);
        r, panicked, own1, done := Mappages(pd, g.0, g.1, g.2, g.3, own);
        forall u | g.0 <= u < g.0 + g.1
          ensures 0 <= u < NPAGES && !Present(Pte(s.mem, pd, u))
        {
          NoRemap(s.mem, pd, data, k, u);
        }
        assert !panicked;
        own := own1;
        FreshKernel(m0, free0, s, Now(own), pd, g.0, done, g.2, g.3);
        FreshGood(m0, free0, Now(own), pd);
        KernelTakes(free0, s.mem[pd], s.free, mem[pd], free, data, k, done);
        if r < 0 {
          Freevm(pd, own);
          return 0, map[];
        }
        KernelStep(s, Now(own), pd, data, k);
        k := k + 1;
      }
      DataRange();
      KernelAll(mem, pd, data);
      AllTaken(free0, mem[pd], free, data);
    }

    /** One round of allocuvm: a zeroed page more, or everything undone. */
    method GrowPage(pd: int, oldsz: int, newsz: int, p: int, ghost own: map<int, Role>, ghost s: World)
      returns (ok: bool, ghost own': map<int, Role>)
      requires Valid() && 0 <= oldsz <= newsz < KERNBASE && PageUp(oldsz) <= p < PageUp(newsz)
      requires Grown(s, Now(own), pd, PageUp(oldsz), p) && MemOk(s.mem) && 0 <= pd < NFRAMES
      requires forall v :: PageUp(oldsz) <= v < PageUp(newsz) ==> !Present(Pte(s.mem, pd, v))
      requires MemOk(mem) && GrowTaken(s.mem[pd], s.free, mem[pd], free, PageUp(oldsz), p)
      modifies this
      ensures Valid() && (ok ==> MemOk(mem))
      ensures ok ==> Grown(s, Now(own'), pd, PageUp(oldsz), p + 1)
      ensures ok ==> GrowTaken(s.mem[pd], s.free, mem[pd], free, PageUp(oldsz), p + 1)
      ensures !ok ==> Restored(s, Now(own'), pd, PageUp(oldsz), PageUp(newsz))
      ensures !ok ==> |s.free| < FramesToGrow(s.mem[pd], PageUp(oldsz), PageUp(newsz))
    {
      hide Present, Addr, Flags, Pte, Space, Entry, Valid, Mapped, Unmapped, Grown, Restored, Tabled, GrowTaken, Slots,
           FramesToGrow;
      ghost var lo, hi := PageUp(oldsz), PageUp(newsz);
      own' := own;
      DataRange();
      ghost var a := Now(own');
      GrownShape(s, a, pd, lo, p);
      OwnNotFree(a, pd);
      var f := Kalloc();
      var r1;
      if f == 0 {
        NoneLeft(a.free);
        GrowStops(s.mem[pd], s.free, a.mem[pd], a.free, lo, p, hi);
        r1, own' := Deallocuvm(pd, newsz, oldsz, own');
        GrowUndone(s, a, Now(own'), pd, lo, p, hi);
        return false, own';
      }
      Blank(f);
      ghost var b := Now(own');
      Taken(a, pd, f, Zeros());
      var panicked;
      ghost var done;
      assert !Present(Pte(s.mem, pd, p));
      r1, panicked, own', done := Mappages(pd, p, 1, f, 6, own');
      assert !panicked;
      ghost var c := Now(own');
      assert f != pd && b.mem[pd] == a.mem[pd];
      if r1 < 0 {
        TableRanOut(a.mem[pd], a.free, f, c.mem[pd], c.free, p);
        GrowStops(s.mem[pd], s.free, a.mem[pd], a.free, lo, p, hi);
        GrowFails(s, a, b, c, pd, lo, p, f);
        r1, own' := Deallocuvm(pd, newsz, oldsz, own');
        UnmappedPlus(c, Now(own'), pd, lo, hi, f);
        GrowUndone(s, World(c.mem, c.own, c.free + {f}), World(mem, own', free + {f}), pd, lo, p, hi);
        RestoredJunk(s, World(mem, own', free + {f}), pd, lo, hi, f);
        Kfree(f);
        return false, own';
      }
      GrowStep(s, a, b, c, pd, lo, p, f);
      GrowTakesOne(s.mem[pd], s.free, a.mem[pd], a.free, f, mem[pd], free, lo, p);
      ok := true;
    }

    /** Grows the address space from oldsz to newsz bytes; 0 on failure, which comes exactly when
        there are fewer free frames than the new pages and their missing tables take. */
    method Allocuvm(pd: int, oldsz: int, newsz: int, ghost own: map<int, Role>)
      returns (r: int, ghost own': map<int, Role>)
      requires Valid() && Good(Now(own), pd) && 0 <= oldsz && 0 <= newsz
      requires oldsz <= newsz < KERNBASE ==> forall v :: PageUp(oldsz) <= v < PageUp(newsz) ==>
                 !Present(Pte(mem, pd, v))
      modifies this
      ensures Valid() && 0 <= pd < NFRAMES && MemOk(old(mem))
      ensures oldsz <= newsz < KERNBASE && newsz > 0 ==>
                (r == 0 <==> |old(free)| < FramesToGrow(old(mem)[pd], PageUp(oldsz), PageUp(newsz)))
      ensures newsz >= KERNBASE ==> r == 0 && Now(own') == old(Now(own))
      ensures newsz < oldsz && newsz < KERNBASE ==> r == oldsz && Now(own') == old(Now(own))
      ensures oldsz <= newsz < KERNBASE ==> r == newsz || r == 0
      ensures oldsz <= newsz < KERNBASE && r == newsz && r > 0 ==>
                Grown(old(Now(own)), Now(own'), pd, PageUp(oldsz), PageUp(newsz))
      ensures oldsz <= newsz < KERNBASE && r != newsz ==>
                Restored(old(Now(own)), Now(own'), pd, PageUp(oldsz), PageUp(newsz))
    {
      hide Present, Addr, Flags, Pte, Space, Entry, Valid, Mapped, Unmapped, Grown, Restored, Tabled, GrowTaken, Slots,
           FramesToGrow;
      ghost var s := Now(own);
      own' := own;
      OwnNotFree(s, pd);
      if newsz >= KERNBASE {
        return 0, own';
      }
      if newsz < oldsz {
        return oldsz, own';
      }
      ghost var lo, hi := PageUp(oldsz), PageUp(newsz);
      var p := (oldsz + PGSIZE - 1) / PGSIZE;
      GrownNothing(s, pd, lo);
      GrowTakesNone(s.mem[pd], s.free, lo);
      while p * PGSIZE < newsz
        invariant MemOk(mem) && GrowTaken(s.mem[pd], s.free, mem[pd], free, lo, p)
        invariant Valid() && lo <= p <= hi <= KBASE && Grown(s, Now(own'), pd, lo, p)
      {
        var ok;
        ok, own' := GrowPage(pd, oldsz, newsz, p, own', s);
        if !ok {
          return 0, own';
        }
        p := p + 1;
      }
      GrowTotal(s.mem[pd], s.free, mem[pd], free, lo, p);
      r := newsz;
    }

    /** One round of copyuvm: 0 is a copied page, 1 the panic, 2 the jump to `bad`. */
    method CopyPage(pd: int, d: int, k: int, ghost own: map<int, Role>, ghost child: map<int, Role>, ghost m0: Mem,
                    ghost free0: set<int>)
      returns (state: int, ghost child': map<int, Role>)
      requires Valid() && Space(m0, pd, own, free0) && 0 <= k < KBASE && 0 < pd < NFRAMES && 0 < d < NFRAMES
      requires Fresh(m0, free0, Now(child), d) && Copied(m0, pd, mem, d, k) && KernelHalf(mem, d, data)
      requires MemOk(mem) && CopyTaken(free0, mem[d], free, k)
      modifies this
      ensures Valid() && 0 <= state <= 2 && MemOk(m0) && MemOk(mem)
      ensures Fresh(m0, free0, Now(child'), d) && Good(Now(child'), d)
      ensures state == 0 ==> Copied(m0, pd, mem, d, k + 1) && KernelHalf(mem, d, data)
      ensures state == 0 ==> CopyTaken(free0, mem[d], free, k + 1)
      ensures state == 1 <==> !Present(Pte(m0, pd, k))
      ensures state == 2 ==> forall n :: k < n <= KBASE ==> |free0| < FramesFor(n)
    {
      hide Present, Addr, Flags, Pte, Space, Entry, Valid, Mapped, Fresh, Copied, KernelHalf, RoleOk, CopyOf, Tabled,
           Slots, CopyTaken, FramesFor;
      child' := child;
      ghost var a := Now(child);
      FreshGood(m0, free0, a, d);
      OtherSpaceKept(m0, free0, a, d, pd, own);
      OwnNotFree(World(m0, own, free0), pd);
      var t;
      ghost var same;
      t, same := Walkpgdir(pd, k, false, own);
      WalkedSame(Now(own), pd, k, t);
      if t == 0 {
        NoTable(Now(own), pd, k, k);
        return 1, child';
      }
      var w := mem[t][k % NENT];
      if !Present(w) {
        return 1, child';
      }
      FrameOf(Now(own), pd, k);
      CopyFlags(0, w);
      var f := Kalloc();
      if f == 0 {
        NoneLeft(a.free);
        CopyStops(free0, a.mem[d], a.free, k);
        return 2, child';
      }
      CopyFrame(f, Addr(w));
      state, child' := CopyMap(pd, d, k, f, w, own, child, a, m0, free0);
      if state == 0 {
        CopyTakesOne(free0, a.mem[d], a.free, f, mem[d], free, k);
      } else {
        CopyStops(free0, a.mem[d], a.free, k);
      }
    }

    /** The mappages call of copyuvm and what follows it. */
    method CopyMap(pd: int, d: int, k: int, f: int, w: int, ghost own: map<int, Role>, ghost child: map<int, Role>,
                   ghost a: World, ghost m0: Mem, ghost free0: set<int>)
      returns (state: int, ghost child': map<int, Role>)
      requires Valid() && Space(m0, pd, own, free0) && 0 <= k < KBASE && 0 < pd < NFRAMES
      requires 0 < d < NFRAMES && MemOk(m0)
      requires Fresh(m0, free0, a, d) && Copied(m0, pd, a.mem, d, k) && KernelHalf(a.mem, d, data) && a.own == child
      requires w == Pte(m0, pd, k) && Present(w) && 0 < Addr(w) < NFRAMES && f in a.free
      requires 0 < f < NFRAMES && 0 <= Flags(w) < 4096
      requires MemOk(a.mem) && Now(child) == World(a.mem[f := m0[Addr(w)]], a.own, a.free - {f})
      modifies this
      ensures Valid() && (state == 0 || state == 2) && MemOk(mem)
      ensures Fresh(m0, free0, Now(child'), d) && Good(Now(child'), d)
      ensures state == 0 ==> Copied(m0, pd, mem, d, k + 1) && KernelHalf(mem, d, data)
      ensures state == 0 ==> Tabled(a.mem[d], a.free - {f}, mem[d], free, k, k + 1)
      ensures state == 2 ==> |a.free| == 1 && k / NENT !in Slots(a.mem[d])
    {
      hide Present, Addr, Flags, Pte, Space, Entry, Valid, Mapped, Fresh, Copied, KernelHalf, RoleOk, CopyOf, Tabled,
           Slots;
      ghost var b := Now(child);
      FreshGood(m0, free0, a, d);
      OwnNotFree(a, d);
      Taken(a, d, f, m0[Addr(w)]);
      CopiedShape(m0, pd, a.mem, d, k);
      var r, remapped;
      ghost var done;
      r, remapped, child', done := Mappages(d, k, 1, f, Flags(w), child);
      assert !remapped;
      ghost var c := Now(child');
      assert d != f && b.mem[d] == a.mem[d];
      if r < 0 {
        TableRanOut(a.mem[d], a.free, f, c.mem[d], c.free, k);
        CopyFails(m0, free0, a, b, c, d, k, f, m0[Addr(w)], Flags(w));
        Kfree(f);
        state := 2;
      } else {
        CopyStep(m0, free0, own, pd, a, b, c, d, data, k, f);
        state := 0;
      }
      FreshGood(m0, free0, Now(child'), d);
    }

    /** A copy of the first sz bytes of an address space, for a child. It fails, and then takes
        nothing, exactly when there are fewer free frames than the child needs; the panic is a page
        below sz that is not mapped, when there are frames enough to get that far. */
    method Copyuvm(pd: int, sz: int, ghost own: map<int, Role>)
      returns (d: int, panicked: bool, ghost own': map<int, Role>)
      requires Valid() && Good(Now(own), pd) && 0 <= sz <= KERNBASE
      modifies this
      ensures Valid() && 0 <= d < NFRAMES
      ensures panicked <==> exists u {:trigger FirstHole(old(mem), pd, u)} ::
                u < PageUp(sz) && FirstHole(old(mem), pd, u) && |old(free)| >= FramesFor(u)
      ensures !panicked ==> (d == 0 <==> |old(free)| < FramesFor(PageUp(sz)))
      ensures Good(Now(own), pd) && forall x :: x in own ==> 0 <= x < NFRAMES && mem[x] == old(mem)[x]
      ensures !panicked && d == 0 ==> forall x :: x in free <==> x in old(free)
      ensures !panicked && d != 0 ==> Fresh(old(mem), old(free), Now(own'), d)
      ensures !panicked && d != 0 ==> Copied(old(mem), pd, mem, d, PageUp(sz)) && KernelHalf(mem, d, data)
    {
      hide Present, Addr, Flags, Pte, Space, Entry, Valid, Mapped, Fresh, Copied, KernelHalf, CopyTaken, KernelTaken,
           FramesFor, FirstHole, NoHole, Slots;
      ghost var m0, free0 := mem, free;
      OwnNotFree(Now(own), pd);
      NoHoleYet(m0, pd);
      panicked := false;
      d, own' := Setupkvm();
      if d == 0 {
        AnyFrames(0, |free0|);
        HolesAbove(m0, pd, 0);
        DataRange();
        SpaceFrame(m0, mem, pd, own, free0, free);
        return;
      }
      FreshGood(m0, free0, Now(own'), d);
      CopiedNothing(m0, pd, mem, d);
      CopyTakesNone(free0, mem[d], free);
      var k := 0;
      while k * PGSIZE < sz
        invariant NoHole(m0, pd, k) && MemOk(mem) && CopyTaken(free0, mem[d], free, k)
        invariant Valid() && 0 <= k <= PageUp(sz) && 0 < d < NFRAMES
        invariant Fresh(m0, free0, Now(own'), d) && Copied(m0, pd, mem, d, k) && KernelHalf(mem, d, data)
      {
        var state;
        CopyCount(free0, mem[d], free, k);
        state, own' := CopyPage(pd, d, k, own, own', m0, free0);
        NextHole(m0, pd, k);
        FreshGood(m0, free0, Now(own'), d);
        OtherSpaceKept(m0, free0, Now(own'), d, pd, own);
        if state == 1 {
          return d, true, own';
        }
        if state == 2 {
          HolesAbove(m0, pd, k + 1);
          Freevm(d, own');
          DataRange();
          SpaceFrame(m0, mem, pd, own, free0, free);
          return 0, false, own';
        }
        k := k + 1;
      }
      OtherSpaceKept(m0, free0, Now(own'), d, pd, own);
      CopyCount(free0, mem[d], free, k);
      HolesAbove(m0, pd, k);
    }
  }
}
