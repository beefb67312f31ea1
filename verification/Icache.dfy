/** The inode cache (fs.c): iget, idup, ilock, iupdate and iput. An entry stands for one inode while
    pointers to it are held, and the last pointer to an inode without links frees the inode. */
module Icache {
  import opened Params
  import opened FsTree

  const NINODE: int := 50

  /** A cache entry: the inode it stands for, its references and, once loaded, its copy. */
  datatype Entry = Entry(dev: int, inum: int, ref: int, valid: bool, inode: Inode)

  type Disk = (int, int) -> Inode

  predicate Stands(x: Entry, d: int, n: int) {
    x.ref > 0 && x.dev == d && x.inum == n
  }

  ghost predicate Cached(entries: seq<Entry>, d: int, n: int) {
    exists e {:trigger entries[e]} :: 0 <= e < |entries| && Stands(entries[e], d, n)
  }

  predicate Orphan(x: Inode) {
    x.kind != 0 && x.nlink == 0
  }

  function Put(disk: Disk, d: int, n: int, x: Inode): Disk {
    (d', n') => if d' == d && n' == n then x else disk(d', n')
  }

  /** A loaded entry shows the inode on disk, which is allocated. */
  predicate Loaded(x: Entry, disk: Disk) {
    x.ref >= 0 && (x.ref > 0 && x.valid ==> x.inode == disk(x.dev, x.inum) && x.inode.kind != 0)
  }

  ghost predicate Unique(entries: seq<Entry>) {
    forall a, b {:trigger entries[a], entries[b]} :: 0 <= a < b < |entries| && entries[a].ref > 0 ==>
      !Stands(entries[b], entries[a].dev, entries[a].inum)
  }

  /** References are the pointers held, no inode has two entries, loaded entries agree with the
      disk, and an allocated inode without links is in the cache unless it was lost. */
  ghost predicate Ok(entries: seq<Entry>, held: multiset<int>, disk: Disk, lost: iset<(int, int)>) {
    && |entries| == NINODE && Unique(entries) && (forall e :: e in held ==> 0 <= e < NINODE)
    && (forall e {:trigger entries[e]} :: 0 <= e < NINODE ==> Loaded(entries[e], disk) && entries[e].ref == held[e])
    && (forall d, n {:trigger disk(d, n)} :: Orphan(disk(d, n)) ==> Cached(entries, d, n) || (d, n) in lost)
  }

  /** An inode without links that is pointed to is loaded, unless ialloc has just made it and its
      entry has not been locked, or it was lost before. */
  ghost predicate Awaited(entries: seq<Entry>, disk: Disk, lost: iset<(int, int)>, unlocked: set<int>) {
    && (forall e :: e in unlocked ==> 0 <= e < |entries| && entries[e].ref > 0)
    && (forall e {:trigger entries[e]} ::
         0 <= e < |entries| && entries[e].ref > 0 && !entries[e].valid && e !in unlocked ==>
         Orphan(disk(entries[e].dev, entries[e].inum)) ==> (entries[e].dev, entries[e].inum) in lost)
  }

  /** Replacing entry e by one for an inode that no other entry stands for. */
  lemma EntryChange(entries: seq<Entry>, held: multiset<int>, disk: Disk, lost: iset<(int, int)>, e: int, x: Entry,
                    held': multiset<int>, lost': iset<(int, int)>)
    requires Ok(entries, held, disk, lost) && 0 <= e < NINODE && Loaded(x, disk)
    requires forall i {:trigger entries[i]} :: 0 <= i < NINODE && i != e && x.ref > 0 ==>
               !Stands(entries[i], x.dev, x.inum)
    requires held' == held[e := x.ref] && lost <= lost'
    requires var o := entries[e];
             o.ref > 0 && Orphan(disk(o.dev, o.inum)) ==> Stands(x, o.dev, o.inum) || (o.dev, o.inum) in lost'
    ensures Ok(entries[e := x], held', disk, lost')
  {
    var entries' := entries[e := x];
    forall d, n | Orphan(disk(d, n)) && (d, n) !in lost'
      ensures Cached(entries', d, n)
    {
      var i :| 0 <= i < |entries| && Stands(entries[i], d, n);
      assert Stands(entries'[i], d, n);
    }
  }

  /** Writing an inode through its loaded entry. */
  lemma WriteThrough(entries: seq<Entry>, held: multiset<int>, disk: Disk, lost: iset<(int, int)>, e: int, x: Inode,
                     v: bool)
    requires Ok(entries, held, disk, lost) && 0 <= e < NINODE && entries[e].ref > 0 && (v ==> x.kind != 0)
    ensures var o := entries[e];
            Ok(entries[e := o.(inode := x, valid := v)], held, Put(disk, o.dev, o.inum, x), lost)
  {
    var o := entries[e];
    var entries', disk' := entries[e := o.(inode := x, valid := v)], Put(disk, o.dev, o.inum, x);
    forall i | 0 <= i < NINODE
      ensures Loaded(entries'[i], disk') && entries'[i].ref == held[i]
    {
      assert i != e && entries[i].ref > 0 ==> !Stands(entries[i], o.dev, o.inum);
    }
    forall d, n | Orphan(disk'(d, n)) && (d, n) !in lost
      ensures Cached(entries', d, n)
    {
      if d == o.dev && n == o.inum {
        assert Stands(entries'[e], d, n);
      } else {
        assert Orphan(disk(d, n));
        var i :| 0 <= i < |entries| && Stands(entries[i], d, n);
        assert Stands(entries'[i], d, n);
      }
    }
  }

  /** What dropping one pointer to entry e leaves of the cache. */
  lemma PutDown(entries: seq<Entry>, held: multiset<int>, disk: Disk, lost: iset<(int, int)>, e: int,
                lost': iset<(int, int)>)
    requires Ok(entries, held, disk, lost) && 0 <= e < NINODE && e in held && lost <= lost'
    requires var o := entries[e]; o.ref == 1 && Orphan(disk(o.dev, o.inum)) ==> (o.dev, o.inum) in lost'
    ensures var o := entries[e]; var t := entries[e := o.(ref := o.ref - 1)];
            && Ok(t, held - multiset{e}, disk, lost')
            && (o.ref == 1 ==> !Cached(t, o.dev, o.inum))
  {
    var o := entries[e];
    EntryChange(entries, held, disk, lost, e, o.(ref := o.ref - 1), held - multiset{e}, lost');
  }

  const FREED: Inode := Inode(0, 0, 0, seq(NDIRECT + 1, _ => 0))

  /** Allocating a free inode on disk, before anything points to it. */
  lemma AllocOnDisk(entries: seq<Entry>, held: multiset<int>, disk: Disk, lost: iset<(int, int)>, d: int, n: int,
                    x: Inode)
    requires Ok(entries, held, disk, lost) && disk(d, n).kind == 0
    ensures Ok(entries, held, Put(disk, d, n, x), lost + iset{(d, n)})
  {
    var disk' := Put(disk, d, n, x);
    forall d', n' | Orphan(disk'(d', n')) && (d', n') !in lost + iset{(d, n)}
      ensures Cached(entries, d', n')
    {
      assert Orphan(disk(d', n'));
    }
  }

  lemma NotLost(entries: seq<Entry>, held: multiset<int>, disk: Disk, lost: iset<(int, int)>, d: int, n: int)
    requires Ok(entries, held, disk, lost) && (Orphan(disk(d, n)) ==> Cached(entries, d, n))
    ensures Ok(entries, held, disk, lost - iset{(d, n)})
  {
  }

  lemma AwaitedDown(entries: seq<Entry>, disk: Disk, lost: iset<(int, int)>, unlocked: set<int>, e: int,
                    lost': iset<(int, int)>, unlocked': set<int>)
    requires Awaited(entries, disk, lost, unlocked) && 0 <= e < |entries| && entries[e].ref > 0 && lost <= lost'
    requires unlocked' == if entries[e].ref == 1 then unlocked - {e} else unlocked
    ensures Awaited(entries[e := entries[e].(ref := entries[e].ref - 1)], disk, lost', unlocked')
  {}

  lemma FreeUnloaded(entries: seq<Entry>, held: multiset<int>, disk: Disk, lost: iset<(int, int)>, d: int, n: int)
    requires Ok(entries, held, disk, lost) && disk(d, n).kind == 0
    ensures |entries| == NINODE
    ensures forall e {:trigger entries[e]} :: 0 <= e < NINODE && Stands(entries[e], d, n) ==> !entries[e].valid
  {}

  lemma AllocAwaited(entries: seq<Entry>, disk: Disk, lost: iset<(int, int)>, unlocked: set<int>, d: int, n: int,
                     x: Inode)
    requires Awaited(entries, disk, lost, unlocked)
    ensures Awaited(entries, Put(disk, d, n, x), lost + iset{(d, n)}, unlocked)
  {}

  /** Once entry e stands for a newly allocated inode, no other does. */
  lemma FoundAwaited(entries: seq<Entry>, held: multiset<int>, disk: Disk, lost: iset<(int, int)>, unlocked: set<int>,
                     e: int)
    requires Ok(entries, held, disk, lost) && Awaited(entries, disk, lost, unlocked)
    requires 0 <= e < NINODE && entries[e].ref > 0
    ensures Awaited(entries, disk, lost - iset{(entries[e].dev, entries[e].inum)}, unlocked + {e})
  {
    forall i | 0 <= i < NINODE && i != e && entries[i].ref > 0
      ensures (entries[i].dev, entries[i].inum) != (entries[e].dev, entries[e].inum)
    {
      assert !Stands(entries[i], entries[e].dev, entries[e].inum);
    }
  }

  /** Two pointers to one inode are the same entry, so they share its lock and its copy. */
  lemma OneEntry(entries: seq<Entry>, held: multiset<int>, disk: Disk, lost: iset<(int, int)>, a: int, b: int)
    requires Ok(entries, held, disk, lost) && a in held && b in held
    requires 0 <= a < NINODE && 0 <= b < NINODE
    requires entries[a].dev == entries[b].dev && entries[a].inum == entries[b].inum
    ensures a == b
  {
    assert entries[a].ref == held[a] && entries[b].ref == held[b];
  }

  /** Every allocated inode without links, other than the lost ones, is pointed to, and loaded so
      that its last iput frees it, unless it was just allocated. */
  lemma NoLeak(entries: seq<Entry>, held: multiset<int>, disk: Disk, lost: iset<(int, int)>, unlocked: set<int>,
               d: int, n: int)
    requires Ok(entries, held, disk, lost) && Awaited(entries, disk, lost, unlocked)
    requires Orphan(disk(d, n)) && (d, n) !in lost
    ensures exists e {:trigger entries[e]} ::
              e in held && 0 <= e < |entries| && Stands(entries[e], d, n) && (entries[e].valid || e in unlocked)
  {
    var e :| 0 <= e < |entries| && Stands(entries[e], d, n);
    assert entries[e].ref == held[e];
  }

  /** A loaded inode without links is not lost when it is written; the others are as before. */
  lemma AwaitedWrite(entries: seq<Entry>, held: multiset<int>, disk: Disk, lost: iset<(int, int)>, unlocked: set<int>,
                     e: int, x: Inode, v: bool)
    requires Ok(entries, held, disk, lost) && Awaited(entries, disk, lost, unlocked)
    requires 0 <= e < NINODE && entries[e].ref > 0
    requires v || !Orphan(x)
    ensures var o := entries[e];
            Awaited(entries[e := o.(inode := x, valid := v)], Put(disk, o.dev, o.inum, x), lost, unlocked)
  {
    var o := entries[e];
    forall i | 0 <= i < NINODE && i != e && entries[i].ref > 0
      ensures Put(disk, o.dev, o.inum, x)(entries[i].dev, entries[i].inum) == disk(entries[i].dev, entries[i].inum)
    {
      assert !Stands(entries[i], o.dev, o.inum);
    }
  }

  class InodeCache {
    var entries: seq<Entry>
    var disk: Disk
    ghost var held: multiset<int>               // the pointers handed out and not yet put
    ghost var lost: iset<(int, int)>            // unlinked inodes whose last pointer went without freeing
    ghost var unlocked: set<int>                // the entries of inodes just allocated, not yet locked

    ghost predicate Valid()
      reads this
    {
      Ok(entries, held, disk, lost) && Awaited(entries, disk, lost, unlocked)
    }

    /** At boot nothing is held. */
    constructor (disk: Disk)
      ensures Valid() && this.disk == disk && held == multiset{} && unlocked == {}
      ensures lost == iset d, n | Orphan(disk(d, n)) :: (d, n)
    {
      this.disk, held, unlocked := disk, multiset{}, {};
      lost := iset d, n | Orphan(disk(d, n)) :: (d, n);
      entries := seq(NINODE, _ => Entry(0, 0, 0, false, Inode(0, 0, 0, [])));
    }

    /** iget: the inode's entry, or the first free one; -1 is the panic "no inodes". */
    method Iget(dev: int, inum: int) returns (e: int)
      requires Valid()
      modifies this`entries, this`held
      ensures Valid()
      ensures e == -1 <==> forall i {:trigger old(entries)[i]} :: 0 <= i < NINODE ==>
                old(entries)[i].ref > 0 && !Stands(old(entries)[i], dev, inum)
      ensures e == -1 ==> entries == old(entries) && held == old(held)
      ensures e != -1 ==> 0 <= e < NINODE && held == old(held) + multiset{e}
      ensures e != -1 && Cached(old(entries), dev, inum) ==>
                Stands(old(entries)[e], dev, inum)
                    && entries == old(entries)[e := old(entries)[e].(ref := old(entries)[e].ref + 1)]
      ensures e != -1 && !Cached(old(entries), dev, inum) ==>
                && old(entries)[e].ref == 0 && (forall i :: 0 <= i < e ==> old(entries)[i].ref > 0)
                && entries == old(entries)[e := Entry(dev, inum, 1, false, old(entries)[e].inode)]
    {
      hide Ok, Awaited;
      Counted();
      var empty, i := -1, 0;
      while i < NINODE
        invariant 0 <= i <= NINODE && -1 <= empty < i
        invariant forall k {:trigger entries[k]} :: 0 <= k < i ==> !Stands(entries[k], dev, inum)
        invariant empty != -1 ==> entries[empty].ref == 0
        invariant forall k {:trigger entries[k]} :: 0 <= k < (if empty == -1 then i else empty) ==> entries[k].ref > 0
      {
        if entries[i].ref > 0 && entries[i].dev == dev && entries[i].inum == inum {
          Dup(i);
          return i;
        }
        if empty == -1 && entries[i].ref == 0 {
          empty := i;
        }
        i := i + 1;
      }
      if empty == -1 {
        return -1;
      }
      e := empty;
      Recycle(e, dev, inum);
    }

    /** A free entry becomes the inode's. */
    method Recycle(e: int, dev: int, inum: int)
      requires Valid() && 0 <= e < NINODE == |entries| && entries[e].ref == 0
      requires forall k {:trigger entries[k]} :: 0 <= k < NINODE ==> !Stands(entries[k], dev, inum)
      modifies this`entries, this`held
      ensures Valid() && held == old(held) + multiset{e}
      ensures entries == old(entries)[e := Entry(dev, inum, 1, false, old(entries)[e].inode)]
    {
      var x := Entry(dev, inum, 1, false, entries[e].inode);
      EntryChange(entries, held, disk, lost, e, x, held + multiset{e}, lost);
      entries := entries[e := x];
      held := held + multiset{e};
    }

    lemma Counted()
      requires Valid()
      ensures |entries| == NINODE && forall e {:trigger entries[e]} :: 0 <= e < NINODE ==> entries[e].ref >= 0
    {}

    /** idup. */
    method Dup(e: int)
      requires Valid() && 0 <= e < NINODE && entries[e].ref > 0
      modifies this`entries, this`held
      ensures Valid() && held == old(held) + multiset{e}
      ensures entries == old(entries)[e := old(entries)[e].(ref := old(entries)[e].ref + 1)]
    {
      var x := entries[e].(ref := entries[e].ref + 1);
      EntryChange(entries, held, disk, lost, e, x, held + multiset{e}, lost);
      entries := entries[e := x];
      held := held + multiset{e};
    }

    /** ilock once the entry's sleep lock is held; not ok is the panic "no type". */
    method Ilock(e: int) returns (ok: bool)
      requires Valid() && e in held
      modifies this`entries, this`unlocked
      ensures 0 <= e < NINODE == |entries| && (ok <==> disk(entries[e].dev, entries[e].inum).kind != 0)
      ensures ok ==> Valid() && unlocked == old(unlocked) - {e}
      ensures ok ==> entries == old(entries)[e := old(entries)[e].(valid := true,
                inode := disk(entries[e].dev, entries[e].inum))]
    {
      HeldRange(e);
      unlocked := unlocked - {e};
      if !entries[e].valid {
        var x := entries[e].(inode := disk(entries[e].dev, entries[e].inum), valid := true);
        if x.inode.kind == 0 {
          entries := entries[e := x];
          return false;
        }
        EntryChange(entries, held, disk, lost, e, x, held, lost);
        entries := entries[e := x];
      }
      ok := true;
    }

    lemma WasAwaited(e: int)
      requires Valid() && 0 <= e < NINODE && entries[e].ref > 0 && !entries[e].valid && e !in unlocked
      ensures Orphan(disk(entries[e].dev, entries[e].inum)) ==> (entries[e].dev, entries[e].inum) in lost
    {}

    lemma HeldRange(e: int)
      requires Valid() && e in held
      ensures 0 <= e < NINODE == |entries| && entries[e].ref == held[e] > 0 && Loaded(entries[e], disk)
    {
    }

    /** A change to a locked inode followed by iupdate. */
    method Change(e: int, x: Inode)
      requires Valid() && e in held && 0 <= e < NINODE && entries[e].valid && x.kind != 0
      modifies this`entries, this`disk
      ensures Valid() && entries == old(entries)[e := old(entries)[e].(inode := x)]
      ensures disk == Put(old(disk), old(entries)[e].dev, old(entries)[e].inum, x)
    {
      WriteThrough(entries, held, disk, lost, e, x, true);
      AwaitedWrite(entries, held, disk, lost, unlocked, e, x, true);
      entries := entries[e := entries[e].(inode := x)];
      disk := Put(disk, entries[e].dev, entries[e].inum, x);
    }

    /** ialloc: -1 is a panic, of ialloc without a free inode or of iget without a free entry. */
    method Ialloc(dev: int, kind: int, ninodes: int) returns (e: int)
      requires Valid() && kind != 0
      modifies this`entries, this`held, this`disk, this`lost, this`unlocked
      ensures e != -1 ==> Valid() && 0 <= e < NINODE && held == old(held) + multiset{e} && lost <= old(lost)
      ensures e != -1 ==> unlocked == old(unlocked) + {e}
      ensures e != -1 ==> var n := entries[e].inum;
                && Stands(entries[e], dev, n) && 1 <= n < ninodes && old(disk)(dev, n).kind == 0 && !entries[e].valid
                && (forall k :: 1 <= k < n ==> old(disk)(dev, k).kind != 0)
                && disk == Put(old(disk), dev, n, FREED.(kind := kind))
      ensures e == -1 ==> (forall k :: 1 <= k < ninodes ==> old(disk)(dev, k).kind != 0) ||
                          (forall i {:trigger old(entries)[i]} :: 0 <= i < NINODE ==> old(entries)[i].ref > 0)
    {
      hide Ok, Awaited;
      var n := 1;
      while n < ninodes && disk(dev, n).kind != 0
        invariant 1 <= n && forall k :: 1 <= k < n ==> disk(dev, k).kind != 0
      {
        n := n + 1;
      }
      if n >= ninodes {
        return -1;
      }
      FreeUnloaded(entries, held, disk, lost, dev, n);
      AllocOnDisk(entries, held, disk, lost, dev, n, FREED.(kind := kind));
      AllocAwaited(entries, disk, lost, unlocked, dev, n, FREED.(kind := kind));
      disk := Put(disk, dev, n, FREED.(kind := kind));
      lost := lost + iset{(dev, n)};
      e := Iget(dev, n);
      if e != -1 {
        assert Stands(entries[e], dev, n);
        NotLost(entries, held, disk, lost, dev, n);
        FoundAwaited(entries, held, disk, lost, unlocked, e);
        lost := lost - iset{(dev, n)};
        unlocked := unlocked + {e};
      }
    }

    /** iput. The inode is freed exactly when this was the last pointer to it, it has no links and
        it was loaded; then nothing in the cache stands for it. None is lost but an inode just
        allocated whose only pointer goes without having been locked, which no caller does. */
    method Iput(e: int) returns (freed: bool)
      requires Valid() && e in held && 0 <= e < NINODE
      modifies this`entries, this`held, this`disk, this`lost, this`unlocked
      ensures Valid() && held == old(held) - multiset{e}
      ensures e !in old(unlocked) ==> lost == old(lost) && unlocked == old(unlocked)
      ensures freed <==> var o := old(entries)[e];
                held[e] == 0 && o.valid && Orphan(old(disk)(o.dev, o.inum))
      ensures var o := old(entries)[e];
              && disk == (if freed then Put(old(disk), o.dev, o.inum, FREED) else old(disk))
              && entries == old(entries)[e := o.(ref := o.ref - 1, valid := o.valid && !freed,
                   inode := if freed then FREED else o.inode)]
              && (held[e] == 0 ==> !Cached(entries, o.dev, o.inum))
              && lost == (if held[e] == 0 && !o.valid && Orphan(old(disk)(o.dev, o.inum))
                   then old(lost) + iset{(o.dev, o.inum)}
                          else old(lost))
              && unlocked == if held[e] == 0 then old(unlocked) - {e} else old(unlocked)
    {
      hide Unique, Cached, Ok, Awaited, Valid;
      HeldRange(e);
      var o := entries[e];
      if !o.valid && e !in unlocked {
        WasAwaited(e);
      }
      freed := o.valid && o.inode.nlink == 0 && o.ref == 1;
      if freed {
        FreeInode(e);
      }
      DropPointer(e);
    }

    /** Truncates the inode and marks it free on disk and not loaded. */
    method FreeInode(e: int)
      requires Valid() && e in held && 0 <= e < NINODE == |entries|
      modifies this`entries, this`disk
      ensures Valid() && entries == old(entries)[e := old(entries)[e].(inode := FREED, valid := false)]
      ensures disk == Put(old(disk), old(entries)[e].dev, old(entries)[e].inum, FREED)
    {
      hide Unique, Cached;
      HeldRange(e);
      var o := entries[e];
      WriteThrough(entries, held, disk, lost, e, FREED, false);
      AwaitedWrite(entries, held, disk, lost, unlocked, e, FREED, false);
      entries := entries[e := o.(inode := FREED, valid := false)];
      disk := Put(disk, o.dev, o.inum, FREED);
    }

    /** Drops a reference; an inode that is without links on disk when its last pointer goes is lost. */
    method DropPointer(e: int)
      requires Valid() && e in held && 0 <= e < NINODE == |entries|
      modifies this`entries, this`held, this`lost, this`unlocked
      ensures Valid() && held == old(held) - multiset{e}
      ensures var o := old(entries)[e];
              && entries == old(entries)[e := o.(ref := o.ref - 1)]
              && (held[e] == 0 ==> !Cached(entries, o.dev, o.inum))
              && lost == (if held[e] == 0 && Orphan(disk(o.dev, o.inum)) then old(lost) + iset{(o.dev, o.inum)}
                   else old(lost))
              && unlocked == if held[e] == 0 then old(unlocked) - {e} else old(unlocked)
    {
      hide Unique, Cached, Ok, Awaited;
      HeldRange(e);
      var o := entries[e];
      ghost var lost' := if o.ref == 1 && Orphan(disk(o.dev, o.inum)) then lost + iset{(o.dev, o.inum)} else lost;
      ghost var unlocked' := if o.ref == 1 then unlocked - {e} else unlocked;
      PutDown(entries, held, disk, lost, e, lost');
      AwaitedAt();
      AwaitedDown(entries, disk, lost, unlocked, e, lost', unlocked');
      entries := entries[e := o.(ref := o.ref - 1)];
      held, lost, unlocked := held - multiset{e}, lost', unlocked';
    }

    lemma AwaitedAt()
      requires Valid()
      ensures Awaited(entries, disk, lost, unlocked)
    {}
  }
}
