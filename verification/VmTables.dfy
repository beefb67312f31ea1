/** Two-level page tables (vm.c): what a page directory maps, which frames it owns, and what the
    three kinds of table update do to both. A frame is 1024 words of 32 bits. */
module VmTables {

  const NENT: int := 1024            // entries in a directory or a table
  const NFRAMES: int := 0xE000       // PHYSTOP / PGSIZE
  const KBASE: int := 0x80000        // KERNBASE / PGSIZE
  const NPAGES: int := 0x10_0000     // pages of the address space

  type Mem = seq<seq<int>>

  /** What a frame is to the directory that owns it. */
  datatype Role = Dir | Table(d: int) | Page(v: int)

  predicate Present(w: int) { w % 2 == 1 }

  /** PTE_ADDR, as a frame number, and PTE_FLAGS. */
  function Addr(w: int): int { w / 4096 }

  function Flags(w: int): int { w % 4096 }

  /** pa | perm | PTE_P */
  function Entry(f: int, perm: int): int {
    f * 4096 + if perm % 2 == 1 then perm else perm + 1
  }

  lemma Parity(a: int, r: int)
    ensures (2 * a + r) % 2 == r % 2
  {}

  lemma Parts(f: int, r: int)
    requires 0 <= r < 4096
    ensures (f * 4096 + r) / 4096 == f && (f * 4096 + r) % 4096 == r
    ensures (f * 4096 + r) % 2 == r % 2
  {
    Parity(2048 * f, r);
    assert f * 4096 + r == 2 * (2048 * f) + r;
  }

  lemma EntryParts(f: int, perm: int)
    requires 0 <= perm < 4096
    ensures Present(Entry(f, perm)) && Addr(Entry(f, perm)) == f
    ensures Flags(Entry(f, perm)) == if perm % 2 == 1 then perm else perm + 1
  {
    var r := if perm % 2 == 1 then perm else perm + 1;
    assert r % 2 == 1 && r < 4096;
    Parts(f, r);
  }

  function Zeros(): (z: seq<int>)
    ensures |z| == NENT && forall i :: 0 <= i < NENT ==> z[i] == 0
  {
    seq(NENT, _ => 0)
  }

  ghost predicate MemOk(mem: Mem) {
    |mem| == NFRAMES && forall f :: 0 <= f < NFRAMES ==> |mem[f]| == NENT
  }

  /** The entry for page v under directory pd; zero if it has no table. */
  ghost function Pte(mem: Mem, pd: int, v: int): int
    requires MemOk(mem) && 0 <= pd < NFRAMES && 0 <= v < NPAGES
  {
    var pde := mem[pd][v / NENT];
    if Present(pde) && 0 <= Addr(pde) < NFRAMES then mem[Addr(pde)][v % NENT] else 0
  }

  /** `own` lists the frames of pd's address space: itself, its tables, and the pages its user
      half maps. Each is reached through exactly one entry, and none is free. */
  ghost predicate Space(mem: Mem, pd: int, own: map<int, Role>, free: set<int>) {
    && MemOk(mem) && pd in own && own[pd] == Dir
    && (forall f {:trigger f in own} :: f in own ==> 0 < f < NFRAMES && f !in free && RoleOk(mem, pd, f, own[f]))
    && (forall d {:trigger mem[pd][d]} :: 0 <= d < NENT && Present(mem[pd][d]) ==>
         Addr(mem[pd][d]) in own && own[Addr(mem[pd][d])] == Table(d))
    && (forall v {:trigger Pte(mem, pd, v)} :: 0 <= v < KBASE && Present(Pte(mem, pd, v)) ==>
         Addr(Pte(mem, pd, v)) in own && own[Addr(Pte(mem, pd, v))] == Page(v))
  }

  ghost predicate RoleOk(mem: Mem, pd: int, f: int, r: Role) {
    && MemOk(mem) && 0 <= pd < NFRAMES
    && match r
       case Dir => f == pd
       case Table(d) => 0 <= d < NENT && Present(mem[pd][d]) && Addr(mem[pd][d]) == f
       case Page(v) => 0 <= v < KBASE && Present(Pte(mem, pd, v)) && Addr(Pte(mem, pd, v)) == f
  }

  lemma PteFrame(mem: Mem, mem': Mem, pd: int, own: map<int, Role>, free: set<int>, v: int)
    requires Space(mem, pd, own, free) && MemOk(mem') && 0 <= v < NPAGES
    requires forall f {:trigger f in own} :: f in own && !own[f].Page? ==> mem'[f] == mem[f]
    ensures Pte(mem', pd, v) == Pte(mem, pd, v)
  {
    hide Present, Addr;
    assert RoleOk(mem, pd, pd, own[pd]);
    var pde := mem[pd][v / NENT];
    if Present(pde) {
      assert own[Addr(pde)] == Table(v / NENT);
    }
  }

  /** Only the contents of the directory and of the tables matter. */
  lemma SpaceFrame(mem: Mem, mem': Mem, pd: int, own: map<int, Role>, free: set<int>, free': set<int>)
    requires Space(mem, pd, own, free) && MemOk(mem')
    requires forall f {:trigger f in own} :: f in own ==> f !in free' && (!own[f].Page? ==> mem'[f] == mem[f])
    ensures Space(mem', pd, own, free')
    ensures forall v {:trigger Pte(mem', pd, v)} :: 0 <= v < NPAGES ==> Pte(mem', pd, v) == Pte(mem, pd, v)
  {
    hide Present, Addr, Pte;
    forall v {:trigger Pte(mem', pd, v)} | 0 <= v < NPAGES
      ensures Pte(mem', pd, v) == Pte(mem, pd, v)
    {
      PteFrame(mem, mem', pd, own, free, v);
    }
  }

  // ---------------------------------------------------------------- adding a table

  /** A zeroed page table in frame t, put in slot d of the directory. */
  function WithTable(mem: Mem, pd: int, d: int, t: int): Mem
    requires 0 <= pd < |mem| && 0 <= t < |mem| && 0 <= d < |mem[pd]| && t != pd
  {
    mem[t := Zeros()][pd := mem[pd][d := Entry(t, 6)]]
  }

  lemma WithTablePte(mem: Mem, pd: int, own: map<int, Role>, free: set<int>, d: int, t: int, v: int)
    requires Space(mem, pd, own, free) && 0 <= d < NENT && !Present(mem[pd][d])
    requires 0 < t < NFRAMES && t !in own && 0 <= v < NPAGES
    ensures Pte(WithTable(mem, pd, d, t), pd, v) == Pte(mem, pd, v)
  {
    hide Entry, Present, Addr, Flags;
    EntryParts(t, 6);
    var pde := mem[pd][v / NENT];
    if v / NENT != d && Present(pde) {
      assert own[Addr(pde)] == Table(v / NENT);
    }
  }

  lemma TableAdded(mem: Mem, pd: int, own: map<int, Role>, free: set<int>, d: int, t: int)
    requires Space(mem, pd, own, free) && 0 <= d < NENT && !Present(mem[pd][d])
    requires 0 < t < NFRAMES && t !in own
    ensures Space(WithTable(mem, pd, d, t), pd, own[t := Table(d)], free - {t})
    ensures forall v {:trigger Pte(WithTable(mem, pd, d, t), pd, v)} :: 0 <= v < NPAGES ==>
              Pte(WithTable(mem, pd, d, t), pd, v) == Pte(mem, pd, v)
  {
    hide Entry, Present, Addr, Flags, Pte;
    EntryParts(t, 6);
    var mem' := WithTable(mem, pd, d, t);
    forall v {:trigger Pte(mem', pd, v)} | 0 <= v < NPAGES
      ensures Pte(mem', pd, v) == Pte(mem, pd, v)
    {
      WithTablePte(mem, pd, own, free, d, t, v);
    }
    forall f {:trigger f in own} | f in own
      ensures RoleOk(mem', pd, f, own[f])
    {}
  }

  // ---------------------------------------------------------------- setting an entry

  function WithEntry(mem: Mem, t: int, x: int, w: int): Mem
    requires 0 <= t < |mem| && 0 <= x < |mem[t]|
  {
    mem[t := mem[t][x := w]]
  }

  lemma WithEntryPte(mem: Mem, pd: int, own: map<int, Role>, free: set<int>, v: int, w: int, u: int)
    requires Space(mem, pd, own, free) && 0 <= v < NPAGES && Present(mem[pd][v / NENT]) && 0 <= u < NPAGES
    ensures 0 < Addr(mem[pd][v / NENT]) < NFRAMES && Addr(mem[pd][v / NENT]) != pd
    ensures Pte(WithEntry(mem, Addr(mem[pd][v / NENT]), v % NENT, w), pd, u) == if u == v then w else Pte(mem, pd, u)
  {
    hide Present, Addr;
    var t := Addr(mem[pd][v / NENT]);
    assert own[t] == Table(v / NENT);
    assert u / NENT == v / NENT && u % NENT == v % NENT ==> u == v;
    if Present(mem[pd][u / NENT]) {
      assert own[Addr(mem[pd][u / NENT])] == Table(u / NENT);
    }
  }

  lemma WithEntryAll(mem: Mem, pd: int, own: map<int, Role>, free: set<int>, v: int, w: int)
    requires Space(mem, pd, own, free) && 0 <= v < NPAGES && Present(mem[pd][v / NENT])
    ensures var t := Addr(mem[pd][v / NENT]); 0 < t < NFRAMES && t != pd && t in own && own[t] == Table(v / NENT)
    ensures MemOk(WithEntry(mem, Addr(mem[pd][v / NENT]), v % NENT, w))
    ensures forall u {:trigger Pte(WithEntry(mem, Addr(mem[pd][v / NENT]), v % NENT, w), pd, u)} :: 0 <= u < NPAGES ==>
              Pte(WithEntry(mem, Addr(mem[pd][v / NENT]), v % NENT, w), pd, u) == if u == v then w else Pte(mem, pd, u)
  {
    hide Present, Addr, Pte;
    var t := Addr(mem[pd][v / NENT]);
    assert own[t] == Table(v / NENT);
    WithEntryPte(mem, pd, own, free, v, w, v);
    forall u {:trigger Pte(WithEntry(mem, t, v % NENT, w), pd, u)} | 0 <= u < NPAGES
      ensures Pte(WithEntry(mem, t, v % NENT, w), pd, u) == if u == v then w else Pte(mem, pd, u)
    {
      WithEntryPte(mem, pd, own, free, v, w, u);
    }
  }

  /** Mapping a detached frame at a user page. */
  lemma PageMapped(mem: Mem, pd: int, own: map<int, Role>, free: set<int>, v: int, w: int)
    requires Space(mem, pd, own, free) && 0 <= v < KBASE && Present(mem[pd][v / NENT])
    requires !Present(Pte(mem, pd, v)) && Present(w) && 0 < Addr(w) < NFRAMES && Addr(w) !in own && Addr(w) !in free
    ensures Space(WithEntry(mem, Addr(mem[pd][v / NENT]), v % NENT, w), pd, own[Addr(w) := Page(v)], free)
  {
    hide Present, Addr, Pte;
    WithEntryAll(mem, pd, own, free, v, w);
  }

  /** Clearing a mapped user page detaches its frame. */
  lemma PageCleared(mem: Mem, pd: int, own: map<int, Role>, free: set<int>, v: int)
    requires Space(mem, pd, own, free) && 0 <= v < KBASE && Present(mem[pd][v / NENT])
    requires Present(Pte(mem, pd, v))
    ensures var f := Addr(Pte(mem, pd, v));
            f in own && own[f] == Page(v) &&
            Space(WithEntry(mem, Addr(mem[pd][v / NENT]), v % NENT, 0), pd, own - {f}, free)
  {
    var zero := 0;
    assert !Present(zero);
    PageClearedTo(mem, pd, own, free, v, zero);
  }

  lemma PageClearedTo(mem: Mem, pd: int, own: map<int, Role>, free: set<int>, v: int, w: int)
    requires Space(mem, pd, own, free) && 0 <= v < KBASE && Present(mem[pd][v / NENT])
    requires Present(Pte(mem, pd, v)) && !Present(w)
    ensures var f := Addr(Pte(mem, pd, v));
            f in own && own[f] == Page(v) &&
            Space(WithEntry(mem, Addr(mem[pd][v / NENT]), v % NENT, w), pd, own - {f}, free)
  {
    hide Present, Addr, Pte;
    var f := Addr(Pte(mem, pd, v));
    assert f in own && own[f] == Page(v);
    WithEntryAll(mem, pd, own, free, v, w);
    var mem' := WithEntry(mem, Addr(mem[pd][v / NENT]), v % NENT, w);
    forall u {:trigger Pte(mem', pd, u)} | 0 <= u < KBASE && Present(Pte(mem', pd, u))
      ensures Addr(Pte(mem', pd, u)) in own - {f} && own[Addr(Pte(mem', pd, u))] == Page(u)
    {
      assert Pte(mem', pd, u) == Pte(mem, pd, u);
    }
  }

  /** An entry of the kernel half may be set to anything. */
  lemma KernelMapped(mem: Mem, pd: int, own: map<int, Role>, free: set<int>, v: int, w: int)
    requires Space(mem, pd, own, free) && KBASE <= v < NPAGES && Present(mem[pd][v / NENT])
    ensures Space(WithEntry(mem, Addr(mem[pd][v / NENT]), v % NENT, w), pd, own, free)
  {
    hide Present, Addr, Pte;
    WithEntryAll(mem, pd, own, free, v, w);
  }
}
