/** Directories as bytes (fs.c, sysfile.c): the entries of Links are the contents of the files of
    Fs, so create, link and unlink on files do what Links says they do to link counts. */
module FsLinks {
  import opened Params
  import opened FsTree
  import opened Fs
  import opened FsOps
  import Links

  const DIRSIZ: int := 14

  // ---------------------------------------------------------------- an entry as bytes

  /** A name that fits an entry. */
  predicate NameOk(name: string) {
    |name| <= DIRSIZ && forall k {:trigger name[k]} :: 0 <= k < |name| ==> 0 < name[k] as int < 0x100
  }

  predicate EntOk(e: Links.Ent) {
    0 <= e.inum < 0x1_0000 && NameOk(e.name)
  }

  /** A name padded with NULs, as strncpy leaves it. */
  function NameBytes(name: string): (r: seq<int>)
    ensures |r| == DIRSIZ
  {
    seq(DIRSIZ, k => if 0 <= k < |name| then name[k] as int else 0)
  }

  function EntBytes(e: Links.Ent): (r: seq<int>)
    ensures |r| == DIRENT
  {
    [e.inum % 0x100, e.inum / 0x100] + NameBytes(e.name)
  }

  lemma LongerDiffers(a: string, b: string)
    requires NameOk(a) && NameOk(b) && |a| < |b|
    ensures NameBytes(a) != NameBytes(b)
  {
    assert NameBytes(a)[|a|] == 0 && NameBytes(b)[|a|] != 0;
  }

  /** What namecmp compares. */
  lemma NameSame(a: string, b: string)
    requires NameOk(a) && NameOk(b)
    ensures NameBytes(a) == NameBytes(b) <==> a == b
  {
    if |a| < |b| {
      LongerDiffers(a, b);
    } else if |b| < |a| {
      LongerDiffers(b, a);
    } else {
      forall k | 0 <= k < |a|
        ensures NameBytes(a) == NameBytes(b) ==> a[k] == b[k]
      {
        assert NameBytes(a)[k] == a[k] as int && NameBytes(b)[k] == b[k] as int;
      }
    }
  }

  // ---------------------------------------------------------------- a directory as bytes

  function DirBytes(ents: seq<Links.Ent>): (r: seq<int>)
    ensures |r| == DIRENT * |ents|
  {
    seq(DIRENT * |ents|, k requires 0 <= k < DIRENT * |ents| => EntBytes(ents[k / DIRENT])[k % DIRENT])
  }

  lemma PlaceOf(n: int, s: int, k: int)
    requires 0 <= s <= n && 0 <= k < DIRENT * (n + 1)
    ensures 0 <= k / DIRENT <= n && 0 <= k % DIRENT < DIRENT
    ensures DIRENT * s <= k < DIRENT * s + DIRENT <==> k / DIRENT == s
    ensures k / DIRENT == s ==> k % DIRENT == k - DIRENT * s
  {}

  lemma EntryAt(ents: seq<Links.Ent>, s: nat)
    requires s < |ents|
    ensures DIRENT * s + DIRENT <= |DirBytes(ents)|
    ensures DirBytes(ents)[DIRENT * s..DIRENT * s + DIRENT] == EntBytes(ents[s])
  {
    var d, e := DirBytes(ents)[DIRENT * s..DIRENT * s + DIRENT], EntBytes(ents[s]);
    forall k | 0 <= k < DIRENT
      ensures d[k] == e[k]
    {
      PlaceOf(|ents|, s, DIRENT * s + k);
    }
  }

  function Placed(ents: seq<Links.Ent>, s: nat, e: Links.Ent): seq<Links.Ent>
    requires s <= |ents|
  {
    if s < |ents| then ents[s := e] else ents + [e]
  }

  /** Writing an entry's bytes at its place in the file sets the entry. */
  lemma EntryWritten(ents: seq<Links.Ent>, s: nat, e: Links.Ent)
    requires s <= |ents|
    ensures Spliced(DirBytes(ents), DIRENT * s, EntBytes(e)) == DirBytes(Placed(ents, s, e))
  {
    var c, d := Spliced(DirBytes(ents), DIRENT * s, EntBytes(e)), DirBytes(Placed(ents, s, e));
    assert |c| == |d|;
    forall k | 0 <= k < |c|
      ensures c[k] == d[k]
    {
      PlaceOf(|ents|, s, k);
      SplicedAt(DirBytes(ents), DIRENT * s, EntBytes(e), k);
    }
  }

  lemma SplicedAt(c: seq<int>, off: int, src: seq<int>, k: int)
    requires 0 <= off <= |c| && 0 <= k < |Spliced(c, off, src)|
    ensures k < off || k >= off + |src| ==> k < |c| && Spliced(c, off, src)[k] == c[k]
    ensures off <= k < off + |src| ==> Spliced(c, off, src)[k] == src[k - off]
  {}

  // ---------------------------------------------------------------- files that are the tree

  ghost predicate NodeRep(s: Snap, x: Links.Node, i: int) {
    && 0 <= i < |s.mem| && s.mem[i].kind == x.kind && s.mem[i].nlink == x.nlink
    && (x.kind == Links.DIR ==>
         && Readable(s, i) && FileOf(s, i) == DirBytes(x.ents)
         && forall k {:trigger x.ents[k]} :: 0 <= k < |x.ents| ==> EntOk(x.ents[k]))
  }

  /** The inodes have the tree's types and link counts, and the directories' files its entries. */
  ghost predicate Represents(s: Snap, nodes: seq<Links.Node>) {
    |nodes| == |s.mem| <= 0x1_0000 && forall i {:trigger NodeRep(s, nodes[i], i)} :: 0 <= i < |nodes| ==>
        NodeRep(s, nodes[i], i)
  }

  /** The tree without the unlinked inodes that were freed. */
  function Swept(nodes: seq<Links.Node>, freed: set<int>): seq<Links.Node> {
    seq(|nodes|, i requires 0 <= i < |nodes| => if i in freed then Links.Node(0, 0, []) else nodes[i])
  }

  lemma {:induction false} SweptKeeps(nodes: seq<Links.Node>, freed: set<int>)
    requires Links.Inv(nodes) && forall i :: i in freed ==> 0 < i < |nodes| && nodes[i].nlink == 0
    ensures Links.Inv(Swept(nodes, freed))
    decreases |freed|
  {
    hide Links.Inv;
    if i :| i in freed {
      SweptKeeps(nodes, freed - {i});
      Links.FreeKeeps(Swept(nodes, freed - {i}), i);
      assert Swept(nodes, freed) == Swept(nodes, freed - {i})[i := Links.Node(0, 0, [])];
    } else {
      assert Swept(nodes, freed) == nodes;
    }
  }

  /** A file that is the same still represents its node. */
  lemma SameRep(s: Snap, t: Snap, x: Links.Node, i: int)
    requires NodeRep(s, x, i) && SameFile(i, s, t)
    ensures NodeRep(t, x, i)
  {}

  /** What lookups freed, and what nothing touched. */
  lemma RestRep(s: Snap, t: Snap, nodes: seq<Links.Node>, base: set<int>, freed: set<int>)
    requires Represents(s, nodes) && RestSame(base + freed, s, t) && forall j :: j in freed ==> WasFreed(j, s, t)
    ensures |t.mem| == |nodes| == |Swept(nodes, freed)|
    ensures forall i {:trigger Swept(nodes, freed)[i]} :: 0 <= i < |nodes| && i !in base ==>
              NodeRep(t, Swept(nodes, freed)[i], i)
  {
    hide SameFile, NodeRep;
    forall i {:trigger Swept(nodes, freed)[i]} | 0 <= i < |nodes| && i !in base
      ensures NodeRep(t, Swept(nodes, freed)[i], i)
    {
      assert NodeRep(s, nodes[i], i);
      if i in freed {
        FreeRep(t, i, WasFreed(i, s, t));
      } else {
        assert SameFile(i, s, t);
        SameRep(s, t, nodes[i], i);
      }
    }
  }

  lemma FreeRep(t: Snap, i: int, known: bool)
    requires known && 0 <= i < |t.mem| && t.mem[i] == Blank()
    ensures NodeRep(t, Links.Node(0, 0, []), i)
  {}

  // ---------------------------------------------------------------- reading a directory

  /** readi of the entry at slot s, decoded. */
  method ReadEntry(fs: FileSystem, dp: int, s: nat, ghost x: Links.Node) returns (inum: int, name: seq<int>)
    requires fs.Valid() && NodeRep(fs.Now(), x, dp) && x.kind == Links.DIR && s < |x.ents|
    modifies fs, fs.fmap
    ensures fs.Valid() && fs.Now() == old(fs.Now()) && fs.logged == old(fs.logged)
    ensures fs.start == old(fs.start) && fs.ops == old(fs.ops)
    ensures inum == x.ents[s].inum && name == NameBytes(x.ents[s].name)
  {
    hide FileSystem.Valid, FileOf, DirBytes;
    DirSize(fs.Now(), x, dp);
    EntryAt(x.ents, s);
    var r, de := fs.Readi(dp, DIRENT * s, DIRENT);
    assert de == EntBytes(x.ents[s]) && EntOk(x.ents[s]);
    inum, name := de[0] + 0x100 * de[1], de[2..];
    assert name == NameBytes(x.ents[s].name);
  }

  lemma DirSize(s: Snap, x: Links.Node, i: int)
    requires NodeRep(s, x, i) && x.kind == Links.DIR
    ensures s.mem[i].size == DIRENT * |x.ents| <= MAXBYTES && s.mem[i].kind == Links.DIR
  {
    assert |FileOf(s, i)| == s.mem[i].size;
  }

  /** dirlookup over the file: the slot of the name; -1 when it is not there. */
  method Dirlookup(fs: FileSystem, dp: int, name: string, ghost x: Links.Node) returns (s: int, inum: int)
    requires fs.Valid() && NodeRep(fs.Now(), x, dp) && x.kind == Links.DIR && NameOk(name)
    modifies fs, fs.fmap
    ensures fs.Valid() && fs.Now() == old(fs.Now()) && fs.logged == old(fs.logged)
    ensures fs.start == old(fs.start) && fs.ops == old(fs.ops)
    ensures s == -1 <==> Links.Absent(x.ents, name)
    ensures s != -1 ==> 0 <= s < |x.ents| && x.ents[s] == Links.Ent(inum, name) && inum != 0
  {
    hide FileSystem.Valid, FileOf, DirBytes, NameOk;
    DirSize(fs.Now(), x, dp);
    s := 0;
    while DIRENT * s < fs.mem[dp].size
      invariant 0 <= s <= |x.ents| && fs.Valid() && fs.Now() == old(fs.Now()) && fs.logged == old(fs.logged)
      invariant fs.start == old(fs.start) && fs.ops == old(fs.ops)
      invariant forall t {:trigger x.ents[t]} :: 0 <= t < s && x.ents[t].inum != 0 ==> x.ents[t].name != name
    {
      var n, b := ReadEntry(fs, dp, s, x);
      assert EntOk(x.ents[s]);
      NameSame(x.ents[s].name, name);
      if n != 0 && b == NameBytes(name) {
        return s, n;
      }
      s := s + 1;
    }
    s, inum := -1, 0;
  }

  /** dirlink's search over the file: the first empty slot, or the end. */
  method FindSlot(fs: FileSystem, dp: int, ghost x: Links.Node) returns (s: nat)
    requires fs.Valid() && NodeRep(fs.Now(), x, dp) && x.kind == Links.DIR
    modifies fs, fs.fmap
    ensures fs.Valid() && fs.Now() == old(fs.Now()) && fs.logged == old(fs.logged)
    ensures fs.start == old(fs.start) && fs.ops == old(fs.ops)
    ensures s == Links.FreeSlot(x.ents, 0) <= |x.ents|
  {
    hide FileSystem.Valid, FileOf, DirBytes, NameOk;
    DirSize(fs.Now(), x, dp);
    s := 0;
    while DIRENT * s < fs.mem[dp].size
      invariant 0 <= s <= |x.ents| && fs.Valid() && fs.Now() == old(fs.Now()) && fs.logged == old(fs.logged)
      invariant fs.start == old(fs.start) && fs.ops == old(fs.ops)
      invariant Links.FreeSlot(x.ents, s) == Links.FreeSlot(x.ents, 0)
    {
      var n, b := ReadEntry(fs, dp, s, x);
      if n == 0 {
        return;
      }
      s := s + 1;
    }
  }

  /** isdirempty over the file. */
  method Isdirempty(fs: FileSystem, dp: int, ghost x: Links.Node) returns (r: bool)
    requires fs.Valid() && NodeRep(fs.Now(), x, dp) && x.kind == Links.DIR
    modifies fs, fs.fmap
    ensures fs.Valid() && fs.Now() == old(fs.Now()) && fs.logged == old(fs.logged)
    ensures fs.start == old(fs.start) && fs.ops == old(fs.ops)
    ensures r <==> Links.Empty(x)
  {
    hide FileSystem.Valid, FileOf, DirBytes, NameOk;
    DirSize(fs.Now(), x, dp);
    var s := 2;
    while DIRENT * s < fs.mem[dp].size
      invariant 2 <= s && fs.Valid() && fs.Now() == old(fs.Now()) && fs.logged == old(fs.logged)
      invariant fs.start == old(fs.start) && fs.ops == old(fs.ops)
      invariant forall t {:trigger x.ents[t]} :: 2 <= t < s && t < |x.ents| ==> x.ents[t].inum == 0
    {
      var n, b := ReadEntry(fs, dp, s, x);
      if n != 0 {
        return false;
      }
      s := s + 1;
    }
    return true;
  }

  // ---------------------------------------------------------------- the system calls

  /** What a call leaves: outside base what lookups freed and what nothing touched, in base the
      nodes of `mid`, or freed ones. */
  lemma Together(s: Snap, t: Snap, nodes: seq<Links.Node>, mid: seq<Links.Node>, base: set<int>, freed: set<int>,
                 gone: set<int>)
    requires Represents(s, nodes) && RestSame(base + freed, s, t) && (forall j :: j in freed ==> WasFreed(j, s, t))
    requires freed !! base && gone <= base && |mid| == |nodes|
    requires forall i {:trigger mid[i]} :: 0 <= i < |nodes| && i !in base ==> mid[i] == nodes[i]
    requires forall i :: i in base ==>
               0 <= i < |nodes| && NodeRep(t, if i in gone then Links.Node(0, 0, []) else mid[i], i)
    ensures Represents(t, Swept(mid, freed + gone))
  {
    hide SameFile, NodeRep, RestSame;
    RestRep(s, t, nodes, base, freed);
    var after := Swept(mid, freed + gone);
    forall i {:trigger NodeRep(t, after[i], i)} | 0 <= i < |after|
      ensures NodeRep(t, after[i], i)
    {
      if i !in base {
        assert after[i] == Swept(nodes, freed)[i];
      }
    }
  }

  /** What lookups freed had no links, so the tree without it is still right. */
  lemma SweepKeeps(s: Snap, t: Snap, nodes: seq<Links.Node>, mid: seq<Links.Node>, base: set<int>, freed: set<int>,
                   gone: set<int>)
    requires Represents(s, nodes) && Links.Inv(nodes) && Links.Inv(mid) && |mid| == |nodes| && freed !! base
    requires forall j :: j in freed ==> WasFreed(j, s, t)
    requires forall i {:trigger mid[i]} :: 0 <= i < |nodes| && i !in base ==> mid[i] == nodes[i]
    requires forall i :: i in gone ==> 0 < i < |mid| && mid[i].nlink == 0
    ensures Links.Inv(Swept(mid, freed + gone))
  {
    hide Links.Inv;
    forall j | j in freed
      ensures 0 < j < |mid| && mid[j].nlink == 0
    {
      assert WasFreed(j, s, t) && NodeRep(s, nodes[j], j) && mid[j] == nodes[j];
      Links.At(nodes, j);
    }
    SweptKeeps(mid, freed + gone);
  }

  /** The file of a directory that an entry was written to, and its record. */
  lemma EntryRep(s: Snap, t: Snap, x: Links.Node, dp: int, e: Links.Ent, slot: nat, nlink: int)
    requires NodeRep(s, x, dp) && x.kind == Links.DIR && slot <= |x.ents| && EntOk(e)
    requires dp < |t.mem| && t.mem[dp].kind == x.kind && t.mem[dp].nlink == nlink && Readable(t, dp)
    requires FileOf(t, dp) == Spliced(FileOf(s, dp), DIRENT * slot, EntBytes(e))
    ensures NodeRep(t, Links.Node(x.kind, nlink, Placed(x.ents, slot, e)), dp)
  {
    hide FileOf, DirBytes, Spliced, EntBytes;
    EntryWritten(x.ents, slot, e);
  }

  lemma WithEntPlaced(ents: seq<Links.Ent>, e: Links.Ent)
    ensures Links.WithEnt(ents, e) == Placed(ents, Links.FreeSlot(ents, 0), e)
  {}

  ghost function Gone(i: int, yes: bool): set<int> {
    if yes then {i} else {}
  }

  lemma OtherRep(s: Snap, t: Snap, x: Links.Node, i: int, nlink: int)
    requires NodeRep(s, x, i) && x.kind != Links.DIR && i < |t.mem|
    requires t.mem[i] == s.mem[i].(nlink := nlink)
    ensures NodeRep(t, x.(nlink := nlink), i)
  {}

  /** When link keeps the tree right. */
  ghost predicate MayLink(nodes: seq<Links.Node>, ip: int, dp: int, name: string, taken: bool)
    requires 0 <= ip < |nodes| && 0 <= dp < |nodes|
  {
    || taken
    || (&& Links.Absent(nodes[dp].ents, name) && Links.Linked(nodes[dp])
        && nodes[ip].kind != 0 && nodes[ip].nlink < Links.SHRT)
  }

  /** What LinkOp leaves is the tree with the new name. */
  lemma LinkRep(s: Snap, t: Snap, nodes: seq<Links.Node>, ip: int, dp: int, name: string, taken: bool, gone: bool,
                dgone: bool, freed: set<int>)
    requires Represents(s, nodes) && Links.Inv(nodes) && NameOk(name) && ip != dp && |t.mem| == |s.mem|
    requires 0 < ip < |nodes| && 0 < dp < |nodes| && nodes[ip].kind != Links.DIR && nodes[dp].kind == Links.DIR
    requires RestSame({ip, dp} + freed, s, t) && freed !! {ip, dp} && forall j :: j in freed ==> WasFreed(j, s, t)
    requires var last := if taken then nodes[ip].nlink else Links.Short(nodes[ip].nlink + 1);
             if gone then t.mem[ip] == Blank() && last == 0 else t.mem[ip] == s.mem[ip].(nlink := last)
    requires if dgone then t.mem[dp] == Blank() && nodes[dp].nlink == 0 else
               && t.mem[dp].kind == Links.DIR && t.mem[dp].nlink == nodes[dp].nlink
               && Readable(s, dp) && Readable(t, dp)
               && DIRENT * Links.FreeSlot(nodes[dp].ents, 0) <= |FileOf(s, dp)|
               && FileOf(t, dp) ==
                  if taken then FileOf(s, dp)
                  else Spliced(FileOf(s, dp), DIRENT * Links.FreeSlot(nodes[dp].ents, 0), EntBytes(Links.Ent(ip, name)))
    ensures var mid := if taken then nodes else Links.Joined(nodes, ip, dp, name);
            var g := Gone(ip, gone) + Gone(dp, dgone);
            && Represents(t, Swept(mid, freed + g))
            && (MayLink(nodes, ip, dp, name, taken) ==> Links.Inv(Swept(mid, freed + g)))
  {
    hide FileOf, Readable, DirBytes, Spliced, EntBytes, NodeRep, RestSame, Represents, Swept, NameOk, Links.Inv,
         Links.Short, Links.WithEnt, Links.FreeSlot;
    var mid := if taken then nodes else Links.Joined(nodes, ip, dp, name);
    RepAt(s, nodes, ip);
    RepAt(s, nodes, dp);
    WithEntPlaced(nodes[dp].ents, Links.Ent(ip, name));
    if gone {
      FreeRep(t, ip, true);
    } else {
      OtherRep(s, t, nodes[ip], ip, mid[ip].nlink);
    }
    if dgone {
      FreeRep(t, dp, true);
    } else if taken {
      SameDir(s, t, nodes[dp], dp);
    } else {
      EntryRep(s, t, nodes[dp], dp, Links.Ent(ip, name), Links.FreeSlot(nodes[dp].ents, 0), nodes[dp].nlink);
    }
    Together(s, t, nodes, mid, {ip, dp}, freed, Gone(ip, gone) + Gone(dp, dgone));
    if MayLink(nodes, ip, dp, name, taken) {
      if !taken {
        Links.LinkKeeps(nodes, ip, dp, name);
      }
      SweepKeeps(s, t, nodes, mid, {ip, dp}, freed, Gone(ip, gone) + Gone(dp, dgone));
    }
  }

  lemma SameDir(s: Snap, t: Snap, x: Links.Node, i: int)
    requires NodeRep(s, x, i) && x.kind == Links.DIR && i < |t.mem| && Readable(t, i) && FileOf(t, i) == FileOf(s, i)
    requires t.mem[i].kind == x.kind && t.mem[i].nlink == x.nlink
    ensures NodeRep(t, x, i)
  {}

  lemma RepAt(s: Snap, nodes: seq<Links.Node>, i: int)
    requires Represents(s, nodes) && 0 <= i < |nodes|
    ensures NodeRep(s, nodes[i], i) && |nodes| == |s.mem| <= 0x1_0000
    ensures s.mem[i].kind == nodes[i].kind && s.mem[i].nlink == nodes[i].nlink
    ensures nodes[i].kind == Links.DIR ==> Readable(s, i) && |FileOf(s, i)| == DIRENT * |nodes[i].ents| == s.mem[i].size
  {
    assert NodeRep(s, nodes[i], i);
  }

  /** Directory x has no empty entry, and its file cannot grow: it has its largest size, or it needs
      a block and none is free. */
  ghost predicate DirFull(fs: FileSystem, x: Links.Node)
    reads fs, fs.fmap
  {
    var s := Links.FreeSlot(x.ents, 0);
    s == |x.ents| && NoRoom(fs, DIRENT * s, DIRENT * s)
  }

  ghost predicate NoInode(nodes: seq<Links.Node>) {
    forall i :: 1 <= i < |nodes| ==> nodes[i].kind != 0
  }

  /** Without a free inode on file, the tree has none. */
  lemma NoneFree(s: Snap, nodes: seq<Links.Node>)
    requires Represents(s, nodes) && forall i :: 1 <= i < |s.mem| ==> s.mem[i].kind != 0
    ensures NoInode(nodes)
  {
    hide NodeRep;
    forall i | 1 <= i < |nodes|
      ensures nodes[i].kind != 0
    {
      RepAt(s, nodes, i);
    }
  }

  /** link: the file's inode in directory dp by one more name. */
  method Link(fs: FileSystem, ip: int, dp: int, source: seq<Step>, target: seq<Step>, name: string, ref: int,
              dref: int, ghost nodes: seq<Links.Node>)
    returns (panicked: bool, r: int, gone: bool, dgone: bool, ghost freed: set<int>)
    requires fs.Valid() && Represents(fs.Now(), nodes) && Links.Inv(nodes) && NameOk(name) && ref >= 1 && dref >= 1
    requires 0 < ip < |nodes| && 0 < dp < |nodes| && nodes[ip].kind != 0 && nodes[ip].kind != Links.DIR
    requires nodes[dp].kind == Links.DIR && Steps(source, |nodes|, {ip, dp}) && Steps(target, |nodes|, {ip, dp})
    modifies fs, fs.fmap
    ensures r == if Links.Absent(nodes[dp].ents, name) then 0 else -1
    ensures panicked ==> r == 0 && DirFull(fs, nodes[dp])
    ensures !panicked ==> fs.Valid() && OneOp(fs, 5 + |freed|)
    ensures !panicked ==>
              var mid := if r == 0 then Links.Joined(nodes, ip, dp, name) else nodes;
              var after := Swept(mid, freed + (Gone(ip, gone) + Gone(dp, dgone)));
              && Represents(fs.Now(), after)
              && (r == -1 || (Links.Linked(nodes[dp]) && nodes[ip].nlink < Links.SHRT) ==> Links.Inv(after))
  {
    hide FileSystem.Valid, FileOf, Readable, Spliced, DirBytes, NameOk, Links.Inv, RestSame, WasFreed, FreedIn, Swept,
         Links.Short, Links.Absent, Links.FreeSlot, NodeRep, EntBytes, Represents;
    Links.At(nodes, ip);
    Links.ShortOf(nodes[ip].nlink);
    ghost var s := fs.Now();
    RepAt(s, nodes, ip);
    RepAt(s, nodes, dp);
    var t, inum := Dirlookup(fs, dp, name, nodes[dp]);
    var slot := FindSlot(fs, dp, nodes[dp]);
    r := if t == -1 then 0 else -1;
    panicked, gone, dgone, freed :=
      LinkOp(fs, ip, dp, source, target, t != -1, EntBytes(Links.Ent(ip, name)), DIRENT * slot, ref, dref);
    if !panicked {
      LinkRep(s, fs.Now(), nodes, ip, dp, name, t != -1, gone, dgone, freed);
    }
  }

  // ---------------------------------------------------------------- unlink

  /** The inodes that a directory's entries of this name name. */
  ghost function Named(x: Links.Node, name: string): set<int> {
    set s | 0 <= s < |x.ents| && x.ents[s].name == name :: x.ents[s].inum
  }

  /** What a call that fails leaves. */
  lemma FailRep(s: Snap, t: Snap, nodes: seq<Links.Node>, dp: int, dgone: bool, freed: set<int>)
    requires Represents(s, nodes) && Links.Inv(nodes) && 0 < dp < |nodes|
    requires RestSame({dp} + freed, s, t) && dp !in freed && forall j :: j in freed ==> WasFreed(j, s, t)
    requires if dgone then dp < |t.mem| && t.mem[dp] == Blank() && nodes[dp].nlink == 0 else SameFile(dp, s, t)
    ensures Represents(t, Swept(nodes, freed + Gone(dp, dgone))) && Links.Inv(Swept(nodes, freed + Gone(dp, dgone)))
  {
    hide SameFile, NodeRep, RestSame, Represents, Swept, Links.Inv;
    RepAt(s, nodes, dp);
    if dgone {
      FreeRep(t, dp, true);
    } else {
      SameRep(s, t, nodes[dp], dp);
    }
    Together(s, t, nodes, nodes, {dp}, freed, Gone(dp, dgone));
    SweepKeeps(s, t, nodes, nodes, {dp}, freed, Gone(dp, dgone));
  }

  lemma RoomUp(fs: FileSystem, x: Transaction, a: int, b: int)
    requires fs.Fits(x, a) && a <= b
    ensures fs.Fits(x, b)
  {}

  lemma NoEntryBytes()
    ensures EntBytes(Links.Ent(0, "")) == seq(DIRENT, _ => 0)
  {}

  /** A directory that names an inode has a link to spare for it. */
  lemma SpareLink(nodes: seq<Links.Node>, dp: int, s: int, ip: int)
    requires Links.Inv(nodes) && Links.Entry(nodes, dp, s, ip) && 0 < dp
    ensures 0 < ip < |nodes| && nodes[ip].kind != 0 && nodes[dp].nlink > if nodes[ip].kind == Links.DIR then 1 else 0
  {
    Links.EntryRange(nodes, dp, s, ip);
    if nodes[ip].kind == Links.DIR {
      Links.ParentTwoLinks(nodes, dp, s, ip);
    }
  }

  /** What UnlinkOp leaves is the tree without the name. */
  lemma UnlinkRep(s: Snap, t: Snap, nodes: seq<Links.Node>, ip: int, dp: int, slot: int, gone: bool, freed: set<int>)
    requires Represents(s, nodes) && Links.Inv(nodes) && ip != dp && |t.mem| == |s.mem|
    requires 0 < dp < |nodes| && Links.Entry(nodes, dp, slot, ip) && 0 < ip < |nodes|
    requires nodes[ip].kind == Links.DIR ==> Links.Empty(nodes[ip])
    requires RestSame({ip, dp} + freed, s, t) && freed !! {ip, dp} && forall j :: j in freed ==> WasFreed(j, s, t)
    requires if gone then t.mem[ip] == Blank() && nodes[ip].nlink == 1 else
               && t.mem[ip] == s.mem[ip].(nlink := s.mem[ip].nlink - 1)
               && Readable(s, ip) && Readable(t, ip) && FileOf(t, ip) == FileOf(s, ip)
    requires t.mem[dp].kind == Links.DIR && Readable(s, dp) && Readable(t, dp)
    requires DIRENT * slot + DIRENT <= |FileOf(s, dp)|
    requires t.mem[dp].nlink == nodes[dp].nlink - if nodes[ip].kind == Links.DIR then 1 else 0
    requires FileOf(t, dp) == Spliced(FileOf(s, dp), DIRENT * slot, EntBytes(Links.Ent(0, "")))
    ensures 0 <= slot < |nodes[dp].ents| && nodes[dp].ents[slot].inum == ip
    ensures var after := Swept(Links.Removed(nodes, dp, slot), freed + Gone(ip, gone));
            Represents(t, after) && Links.Inv(after)
  {
    hide FileOf, Readable, DirBytes, Spliced, EntBytes, NodeRep, RestSame, Represents, Swept, Links.Inv;
    Links.UnlinkKeeps(nodes, dp, slot, ip);
    var mid := Links.Removed(nodes, dp, slot);
    RepAt(s, nodes, ip);
    RepAt(s, nodes, dp);
    if gone {
      FreeRep(t, ip, true);
    } else {
      FewerRep(s, t, nodes[ip], ip);
    }
    EntryRep(s, t, nodes[dp], dp, Links.Ent(0, ""), slot, mid[dp].nlink);
    Together(s, t, nodes, mid, {ip, dp}, freed, Gone(ip, gone));
    SweepKeeps(s, t, nodes, mid, {ip, dp}, freed, Gone(ip, gone));
  }

  lemma FewerRep(s: Snap, t: Snap, x: Links.Node, i: int)
    requires NodeRep(s, x, i) && i < |t.mem| && t.mem[i] == s.mem[i].(nlink := s.mem[i].nlink - 1)
    requires Readable(s, i) && Readable(t, i) && FileOf(t, i) == FileOf(s, i)
    ensures NodeRep(t, x.(nlink := x.nlink - 1), i)
  {}

  /** The checks of unlink, over the files. */
  method MayUnlink(fs: FileSystem, dp: int, name: string, ghost nodes: seq<Links.Node>)
    returns (ok: bool, s: int, ip: int)
    requires fs.Valid() && Represents(fs.Now(), nodes) && Links.Inv(nodes) && NameOk(name)
    requires 0 < dp < |nodes| && nodes[dp].kind == Links.DIR
    modifies fs, fs.fmap
    ensures fs.Valid() && fs.Now() == old(fs.Now()) && fs.ops == old(fs.ops)
    ensures ok <==> !Links.Refused(nodes, dp, name)
    ensures ok ==> 0 < ip < |nodes| && Links.Entry(nodes, dp, s, ip) && 2 <= s < |nodes[dp].ents|
    ensures ok ==> nodes[dp].ents[s] == Links.Ent(ip, name) && (nodes[ip].kind == Links.DIR ==> Links.Empty(nodes[ip]))
  {
    hide FileSystem.Valid, FileOf, Readable, DirBytes, NameOk, Links.Inv, Links.Absent, Links.Empty, NodeRep,
         Represents;
    Links.At(nodes, dp);
    RepAt(fs.Now(), nodes, dp);
    s, ip := Dirlookup(fs, dp, name, nodes[dp]);
    ok := name != "." && name != ".." && s != -1;
    if ok {
      Links.EntryFound(nodes, dp, s, ip);
      RepAt(fs.Now(), nodes, ip);
      if fs.mem[ip].kind == Links.DIR {
        ok := Isdirempty(fs, ip, nodes[ip]);
        assert Links.Ent(ip, name) in nodes[dp].ents;
      }
    }
  }

  /** A call that fails, on files. */
  method Fail(fs: FileSystem, dp: int, path: seq<Step>, dref: int, ghost limit: int, ghost nodes: seq<Links.Node>)
    returns (gone: bool, ghost freed: set<int>)
    requires fs.Valid() && Represents(fs.Now(), nodes) && Links.Inv(nodes) && dref >= 1 && limit >= 2
    requires 0 < dp < |nodes| && nodes[dp].kind == Links.DIR && Steps(path, |nodes|, {dp})
    modifies fs, fs.fmap
    ensures fs.Valid() && OneOp(fs, limit + |freed|)
    ensures var after := Swept(nodes, freed + Gone(dp, gone)); Represents(fs.Now(), after) && Links.Inv(after)
  {
    hide FileSystem.Valid, Links.Inv, RestSame, WasFreed, FreedIn, Swept, NodeRep, Represents, SameFile;
    ghost var ops, was := fs.ops, fs.Now();
    RepAt(was, nodes, dp);
    gone, freed := FailOp(fs, dp, path, dref);
    FailRep(was, fs.Now(), nodes, dp, gone, freed);
    ghost var x :| fs.ops == ops + [x] && x.before == was && x.after == fs.Now() && fs.Fits(x, 2 + |freed|);
    RoomUp(fs, x, 2 + |freed|, limit + |freed|);
  }

  /** The rest of an unlink that goes on, on files. */
  method Remove(fs: FileSystem, ip: int, dp: int, path: seq<Step>, s: int, ref: int, dref: int,
                ghost nodes: seq<Links.Node>)
    returns (panicked: bool, gone: bool, ghost freed: set<int>)
    requires fs.Valid() && Represents(fs.Now(), nodes) && Links.Inv(nodes) && ref >= 1 && dref >= 1
    requires 0 < dp < |nodes| && Links.Entry(nodes, dp, s, ip) && 0 < ip < |nodes| && Steps(path, |nodes|, {ip, dp})
    requires nodes[ip].kind == Links.DIR ==> Links.Empty(nodes[ip])
    modifies fs, fs.fmap
    ensures !panicked && fs.Valid() && OneOp(fs, 5 + |freed|)
    ensures 0 <= s < |nodes[dp].ents| && nodes[dp].ents[s].inum == ip
    ensures var after := Swept(Links.Removed(nodes, dp, s), freed + Gone(ip, gone));
            Represents(fs.Now(), after) && Links.Inv(after)
  {
    hide FileSystem.Valid, FileOf, Readable, Spliced, DirBytes, Links.Inv, RestSame, WasFreed, FreedIn, Swept,
         Links.Empty, NodeRep, EntBytes, Represents;
    ghost var was := fs.Now();
    SpareLink(nodes, dp, s, ip);
    Links.UnlinkApart(nodes, dp, s, ip);
    RepAt(was, nodes, ip);
    RepAt(was, nodes, dp);
    Itself(fs, ip);
    NoEntryBytes();
    assert DIRENT * s + DIRENT <= DIRENT * |nodes[dp].ents|;
    panicked, gone, freed := UnlinkOp(fs, ip, dp, path, seq(DIRENT, _ => 0), DIRENT * s, ref, dref);
    UnlinkRep(was, fs.Now(), nodes, ip, dp, s, gone, freed);
  }

  /** unlink of a name in directory dp. */
  method Unlink(fs: FileSystem, dp: int, path: seq<Step>, name: string, ref: int, dref: int,
                ghost nodes: seq<Links.Node>)
    returns (panicked: bool, r: int, gone: bool, s: int, ghost freed: set<int>)
    requires fs.Valid() && Represents(fs.Now(), nodes) && Links.Inv(nodes) && NameOk(name) && ref >= 1 && dref >= 1
    requires 0 < dp < |nodes| && nodes[dp].kind == Links.DIR && Steps(path, |nodes|, {dp} + Named(nodes[dp], name))
    modifies fs, fs.fmap
    ensures r == -1 || r == 0
    ensures r == -1 <==> Links.Refused(nodes, dp, name)
    ensures !panicked && fs.Valid() && OneOp(fs, 5 + |freed|)
    ensures r == -1 ==>
              var after := Swept(nodes, freed + Gone(dp, gone)); Represents(fs.Now(), after) && Links.Inv(after)
    ensures r == 0 ==>
              && 2 <= s < |nodes[dp].ents| && nodes[dp].ents[s].name == name
              && 0 < nodes[dp].ents[s].inum < |nodes|
    ensures r == 0 ==>
              var after := Swept(Links.Removed(nodes, dp, s), freed + Gone(nodes[dp].ents[s].inum, gone));
              Represents(fs.Now(), after) && Links.Inv(after)
  {
    hide FileSystem.Valid, NameOk, Links.Inv, Swept, NodeRep, Represents, Links.Refused, Links.Entry, Links.Empty;
    var ok, ip;
    panicked := false;
    ok, s, ip := MayUnlink(fs, dp, name, nodes);
    if ok {
      assert ip in Named(nodes[dp], name);
      panicked, gone, freed := Remove(fs, ip, dp, path, s, ref, dref, nodes);
      r := 0;
    } else {
      gone, freed := Fail(fs, dp, path, dref, 5, nodes);
      r := -1;
    }
  }

  // ---------------------------------------------------------------- create

  /** When create keeps the tree right. */
  ghost predicate MayCreate(x: Links.Node, kind: int) {
    Links.Linked(x) && (kind == Links.DIR ==> x.nlink < Links.SHRT)
  }

  /** The tree after a create is right, whether its inode was free or freed by a lookup. */
  lemma CreatedInv(nodes: seq<Links.Node>, dp: int, ip: int, name: string, kind: int)
    requires Links.Inv(nodes) && 0 < dp < |nodes| && 0 < ip < |nodes| && ip != dp && kind != 0
    requires nodes[ip].nlink == 0 && Links.Absent(nodes[dp].ents, name) && MayCreate(nodes[dp], kind)
    ensures Links.Inv(Links.Created(nodes, dp, ip, name, kind))
  {
    hide Links.Inv;
    var n := nodes[ip := Links.Node(0, 0, [])];
    Links.FreeKeeps(nodes, ip);
    Links.CreateKeeps(n, dp, ip, name, kind);
    assert Links.Created(n, dp, ip, name, kind) == Links.Created(nodes, dp, ip, name, kind);
  }

  lemma DotsBytes(ip: int, dp: int)
    ensures EntBytes(Links.Ent(ip, ".")) + EntBytes(Links.Ent(dp, "..")) ==
            DirBytes([Links.Ent(ip, "."), Links.Ent(dp, "..")])
  {
    var c := EntBytes(Links.Ent(ip, ".")) + EntBytes(Links.Ent(dp, ".."));
    var d := DirBytes([Links.Ent(ip, "."), Links.Ent(dp, "..")]);
    forall k | 0 <= k < 2 * DIRENT
      ensures c[k] == d[k]
    {
      PlaceOf(1, 1, k);
      PlaceOf(1, 0, k);
    }
  }

  /** A new inode and its file. */
  lemma NewRep(t: Snap, ip: int, dp: int, kind: int)
    requires 0 <= ip < |t.mem| <= 0x1_0000 && 0 <= dp < |t.mem| && t.mem[ip].kind == kind && t.mem[ip].nlink == 1
    requires Readable(t, ip)
    requires kind == Links.DIR ==> FileOf(t, ip) == EntBytes(Links.Ent(ip, ".")) + EntBytes(Links.Ent(dp, ".."))
    ensures NodeRep(t, Links.Node(kind, 1,
              if kind == Links.DIR then [Links.Ent(ip, "."), Links.Ent(dp, "..")] else []), ip)
  {
    hide FileOf, DirBytes, EntBytes, Readable;
    DotsBytes(ip, dp);
  }

  /** What CreateOp leaves is the tree with the new inode. */
  lemma CreateRep(s: Snap, t: Snap, nodes: seq<Links.Node>, dp: int, ip: int, name: string, kind: int, dgone: bool,
                  freed: set<int>)
    requires Represents(s, nodes) && Links.Inv(nodes) && NameOk(name) && ip != dp && |t.mem| == |s.mem|
    requires 0 < ip < |nodes| && 0 < dp < |nodes| && nodes[dp].kind == Links.DIR && nodes[ip].nlink == 0
    requires RestSame({ip, dp} + freed, s, t) && freed !! {ip, dp} && forall j :: j in freed ==> WasFreed(j, s, t)
    requires t.mem[ip].kind == kind && t.mem[ip].nlink == 1 && Readable(t, ip) && kind != 0
    requires kind == Links.DIR ==> FileOf(t, ip) == EntBytes(Links.Ent(ip, ".")) + EntBytes(Links.Ent(dp, ".."))
    requires var m := if kind == Links.DIR then Links.Short(nodes[dp].nlink + 1) else nodes[dp].nlink;
             if dgone then t.mem[dp] == Blank() && m == 0 else
               && t.mem[dp].kind == Links.DIR && t.mem[dp].nlink == m && Readable(s, dp) && Readable(t, dp)
               && DIRENT * Links.FreeSlot(nodes[dp].ents, 0) <= |FileOf(s, dp)|
               && FileOf(t, dp) ==
                  Spliced(FileOf(s, dp), DIRENT * Links.FreeSlot(nodes[dp].ents, 0), EntBytes(Links.Ent(ip, name)))
    ensures var after := Swept(Links.Created(nodes, dp, ip, name, kind), freed + Gone(dp, dgone));
            && Represents(t, after)
            && (Links.Absent(nodes[dp].ents, name) && MayCreate(nodes[dp], kind) ==> Links.Inv(after))
  {
    hide FileOf, Readable, DirBytes, Spliced, EntBytes, NodeRep, RestSame, Represents, Swept, NameOk, Links.Inv,
         Links.Short, Links.WithEnt, Links.FreeSlot, Links.Absent;
    var mid := Links.Created(nodes, dp, ip, name, kind);
    RepAt(s, nodes, dp);
    WithEntPlaced(nodes[dp].ents, Links.Ent(ip, name));
    NewRep(t, ip, dp, kind);
    if dgone {
      FreeRep(t, dp, true);
    } else {
      EntryRep(s, t, nodes[dp], dp, Links.Ent(ip, name), Links.FreeSlot(nodes[dp].ents, 0), mid[dp].nlink);
    }
    Together(s, t, nodes, mid, {ip, dp}, freed, Gone(dp, dgone));
    if Links.Absent(nodes[dp].ents, name) && MayCreate(nodes[dp], kind) {
      CreatedInv(nodes, dp, ip, name, kind);
      SweepKeeps(s, t, nodes, mid, {ip, dp}, freed, Gone(dp, dgone));
    }
  }

  lemma FreeNoLinks(nodes: seq<Links.Node>, i: int)
    requires Links.Inv(nodes) && 0 <= i < |nodes| && (nodes[i].kind == 0 || nodes[i].nlink == 0)
    ensures nodes[i].nlink == 0
  {
    Links.At(nodes, i);
  }

  /** create of a name that is not in the directory. */
  method Make(fs: FileSystem, dp: int, path: seq<Step>, name: string, kind: int, dref: int,
              ghost nodes: seq<Links.Node>)
    returns (panicked: bool, ip: int, dgone: bool, ghost freed: set<int>)
    requires fs.Valid() && Represents(fs.Now(), nodes) && Links.Inv(nodes) && NameOk(name) && dref >= 1 && kind != 0
    requires 0 < dp < |nodes| && nodes[dp].kind == Links.DIR && Steps(path, |nodes|, {dp})
    requires Links.Absent(nodes[dp].ents, name)
    modifies fs, fs.fmap
    ensures panicked ==> DirFull(fs, nodes[dp]) || (kind == Links.DIR && NoBlock(fs)) || NoInode(nodes)
    ensures !panicked ==> fs.Valid() && OneOp(fs, (if kind == Links.DIR then 6 else 5) + |freed|)
    ensures !panicked ==> 0 < ip < |nodes| && ip != dp
    ensures !panicked ==>
              var after := Swept(Links.Created(nodes, dp, ip, name, kind), freed + Gone(dp, dgone));
              Represents(fs.Now(), after) && (MayCreate(nodes[dp], kind) ==> Links.Inv(after))
  {
    hide FileSystem.Valid, FileOf, Readable, Spliced, DirBytes, NameOk, Links.Inv, RestSame, WasFreed, FreedIn, Swept,
         Links.Short, Links.Absent, Links.FreeSlot, NodeRep, EntBytes, Represents,
         Links.NodeOk, Links.Created, Blank;
    ghost var was := fs.Now();
    RepAt(was, nodes, dp);
    var slot := FindSlot(fs, dp, nodes[dp]);
    panicked, ip, dgone, freed :=
      CreateOp(fs, dp, path, kind, i => EntBytes(Links.Ent(i, name)), DIRENT * slot, i => EntBytes(Links.Ent(i, ".")),
               EntBytes(Links.Ent(dp, "..")), dref);
    if !panicked {
      RepAt(was, nodes, ip);
      FreeNoLinks(nodes, ip);
      CreateRep(was, fs.Now(), nodes, dp, ip, name, kind, dgone, freed);
    } else if forall i :: 1 <= i < |was.mem| ==> was.mem[i].kind != 0 {
      NoneFree(was, nodes);
    }
  }

  /** create of a name in directory dp: its inode, new or found; 0 when what has the name is not a
      file, or no file was asked for. */
  method Create(fs: FileSystem, dp: int, path: seq<Step>, name: string, kind: int, dref: int,
                ghost nodes: seq<Links.Node>)
    returns (panicked: bool, ip: int, made: bool, dgone: bool, ghost freed: set<int>)
    requires fs.Valid() && Represents(fs.Now(), nodes) && Links.Inv(nodes) && NameOk(name) && dref >= 1 && kind != 0
    requires 0 < dp < |nodes| && nodes[dp].kind == Links.DIR && Steps(path, |nodes|, {dp})
    modifies fs, fs.fmap
    ensures made <==> Links.Absent(nodes[dp].ents, name)
    ensures panicked ==> made
    ensures panicked ==> DirFull(fs, nodes[dp]) || (kind == Links.DIR && NoBlock(fs)) || NoInode(nodes)
    ensures !panicked ==> fs.Valid() && OneOp(fs, (if kind == Links.DIR then 6 else 5) + |freed|)
    ensures !made ==> exists i :: Links.Ent(i, name) in nodes[dp].ents && 0 < i < |nodes|
                                  && ip == if kind == Links.FILE && nodes[i].kind == Links.FILE then i else 0
    ensures !made ==>
              var after := Swept(nodes, freed + Gone(dp, dgone));
              !panicked && Represents(fs.Now(), after) && Links.Inv(after)
    ensures made && !panicked ==> 0 < ip < |nodes| && ip != dp
    ensures made && !panicked ==>
              var after := Swept(Links.Created(nodes, dp, ip, name, kind), freed + Gone(dp, dgone));
              Represents(fs.Now(), after) && (MayCreate(nodes[dp], kind) ==> Links.Inv(after))
  {
    hide FileSystem.Valid, FileOf, Readable, Spliced, DirBytes, NameOk, Links.Inv, RestSame, WasFreed, FreedIn, Swept,
         Links.Short, Links.Absent, Links.FreeSlot, NodeRep, EntBytes, Represents;
    Links.At(nodes, dp);
    ghost var was := fs.Now();
    RepAt(was, nodes, dp);
    panicked := false;
    var s, inum := Dirlookup(fs, dp, name, nodes[dp]);
    made := s == -1;
    if !made {
      assert nodes[dp].ents[s].inum == inum;
      RepAt(was, nodes, inum);
      ip := if kind == Links.FILE && fs.mem[inum].kind == Links.FILE then inum else 0;
      dgone, freed := Fail(fs, dp, path, dref, if kind == Links.DIR then 6 else 5, nodes);
      assert Links.Ent(inum, name) in nodes[dp].ents;
      return;
    }
    panicked, ip, dgone, freed := Make(fs, dp, path, name, kind, dref, nodes);
  }

  // ---------------------------------------------------------------- mkfs

  lemma RootRep(s: Snap, t: Snap, n: nat)
    requires 1 < n == |s.mem| == |t.mem| <= 0x1_0000 && RestSame({1}, s, t)
    requires forall i :: 0 <= i < n ==> s.mem[i] == Blank()
    requires NodeRep(t, Links.Node(Links.DIR, 1, [Links.Ent(1, "."), Links.Ent(1, "..")]), 1)
    ensures Represents(t, Links.RootOnly(n))
  {
    hide SameFile, NodeRep;
    var nodes := Links.RootOnly(n);
    forall i {:trigger NodeRep(t, nodes[i], i)} | 0 <= i < n
      ensures NodeRep(t, nodes[i], i)
    {
      if i != 1 {
        RestKept(i, {1}, s, t);
        FreeRep(t, i, true);
      }
    }
  }

  /** An image with a root directory alone: the tree that the calls start from. */
  method Format(size: int, nmeta: int, inodestart: int, bmapstart: int, ninodes: nat) returns (fs: FileSystem, ok: bool)
    requires 0 < nmeta <= size < UINT && 1 < ninodes <= 0x1_0000
    ensures fresh(fs) && fresh(fs.fmap)
    ensures ok ==> fs.Valid() && Represents(fs.Now(), Links.RootOnly(ninodes)) && Links.Inv(Links.RootOnly(ninodes))
    ensures !ok ==> NoBlock(fs)
  {
    hide FileSystem.Valid, FileOf, Readable, DirBytes, Links.Inv, RestSame, WasFreed, FreedIn, NodeRep, EntBytes,
         Represents, OthersSame, Going, Links.RootOnly;
    fs := new FileSystem(size, nmeta, inodestart, bmapstart, ninodes);
    assert fs.mem[1].kind == 0;
    ghost var s0 := Begin(fs, [], {});
    assert s0.mem == fs.mem;
    ghost var xs, freed, b;
    var ip, panicked;
    ok, ip, xs, freed := MakeInode(fs, Links.DIR, s0, [], {}, {});
    assert ok && ip == 1 by {
      assert s0.mem[1].kind == 0;
    }
    assert {} + {ip} == {1} && freed == {};
    panicked, b := WriteDots(fs, ip, EntBytes(Links.Ent(1, ".")), EntBytes(Links.Ent(1, "..")), s0, xs, {1}, {});
    ok := !panicked;
    if ok {
      GoingFile(fs, s0, xs + [b], {1}, {}, 1);
      NewRep(fs.Now(), 1, 1, Links.DIR);
      EndCounted(fs, xs + [b], {1}, {}, 3);
      assert {1} + {} == {1};
      RootRep(s0, fs.Now(), ninodes);
      Links.RootOnlyOk(ninodes);
    }
  }
}
