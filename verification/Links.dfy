/** Link counts against directory entries (sysfile.c, fs.c): create, link, unlink and the freeing
    of an inode, over directories as sequences of entries. */
module Links {

  const DIR: int := 1
  const FILE: int := 2
  const ROOT: int := 1

  /** A directory entry; inum 0 is an empty slot. */
  datatype Ent = Ent(inum: int, name: string)

  /** An inode: its type (0 when free), its link count, and its entries when it is a directory. */
  datatype Node = Node(kind: int, nlink: int, ents: seq<Ent>)

  const SHRT: int := 32767           // nlink is a short

  /** Storing n in a short. */
  function Short(n: int): int {
    (n + 0x8000) % 0x1_0000 - 0x8000
  }

  lemma ShortOf(n: int)
    ensures -0x8000 <= n <= SHRT ==> Short(n) == n
    ensures n == SHRT + 1 ==> Short(n) == -0x8000
    ensures -0x8000 <= n <= SHRT ==> Short(Short(n + 1) - 1) == n
  {}

  /** A directory that has a name. */
  predicate Linked(x: Node) { x.kind == DIR && x.nlink > 0 }

  // ---------------------------------------------------------------- counting entries

  function Names(e: Ent, i: int): int { if e.inum == i && e.name != "." then 1 else 0 }

  /** The entries naming i, "." excluded. */
  function EntCount(ents: seq<Ent>, i: int): int {
    if ents == [] then 0 else EntCount(ents[..|ents| - 1], i) + Names(ents[|ents| - 1], i)
  }

  /** The same, for a directory that is linked. */
  function Gives(x: Node, i: int): int {
    if Linked(x) then EntCount(x.ents, i) else 0
  }

  /** Over the linked directories below n. */
  function Count(nodes: seq<Node>, i: int, n: nat): int
    requires n <= |nodes|
  {
    if n == 0 then 0 else Count(nodes, i, n - 1) + Gives(nodes[n - 1], i)
  }

  lemma {:induction false} EntCountSet(ents: seq<Ent>, s: nat, e: Ent, i: int)
    requires s < |ents|
    ensures EntCount(ents[s := e], i) == EntCount(ents, i) - Names(ents[s], i) + Names(e, i)
    decreases |ents|
  {
    var t, k := ents[s := e], |ents| - 1;
    if s == k {
      assert t[..k] == ents[..k];
    } else {
      assert t[..k] == ents[..k][s := e];
      EntCountSet(ents[..k], s, e, i);
    }
  }

  lemma EntCountSnoc(ents: seq<Ent>, e: Ent, i: int)
    ensures EntCount(ents + [e], i) == EntCount(ents, i) + Names(e, i)
  {
    assert (ents + [e])[..|ents|] == ents;
  }

  lemma {:induction false} CountSet(nodes: seq<Node>, d: nat, x: Node, i: int, n: nat)
    requires d < |nodes| && n <= |nodes|
    ensures Count(nodes[d := x], i, n) == Count(nodes, i, n) + if d < n then Gives(x, i) - Gives(nodes[d], i) else 0
    decreases n
  {
    if n > 0 {
      CountSet(nodes, d, x, i, n - 1);
    }
  }

  lemma {:induction false} EntCountNone(ents: seq<Ent>, i: int)
    requires forall s {:trigger ents[s]} :: 0 <= s < |ents| ==> Names(ents[s], i) == 0
    ensures EntCount(ents, i) == 0
    decreases |ents|
  {
    if ents != [] {
      EntCountNone(ents[..|ents| - 1], i);
    }
  }

  /** Exactly one entry names i. */
  lemma {:induction false} EntCountOne(ents: seq<Ent>, i: int, k: nat)
    requires k < |ents|
    requires forall s {:trigger ents[s]} :: 0 <= s < |ents| ==> Names(ents[s], i) == if s == k then 1 else 0
    ensures EntCount(ents, i) == 1
    decreases |ents|
  {
    var t := ents[..|ents| - 1];
    if k == |ents| - 1 {
      EntCountNone(t, i);
    } else {
      EntCountOne(t, i, k);
    }
  }

  lemma {:induction false} CountOne(nodes: seq<Node>, i: int, p: nat, n: nat)
    requires n <= |nodes| && p < |nodes|
    requires forall d {:trigger nodes[d]} :: 0 <= d < |nodes| && d != p ==> Gives(nodes[d], i) == 0
    ensures Count(nodes, i, n) == if p < n then Gives(nodes[p], i) else 0
    decreases n
  {
    if n > 0 {
      CountOne(nodes, i, p, n - 1);
    }
  }

  // ---------------------------------------------------------------- the invariant

  /** A directory's own shape: "." and ".." first, and no name twice. */
  ghost predicate DirOk(x: Node, i: int, n: int) {
    && |x.ents| >= 2 && x.ents[0] == Ent(i, ".") && x.ents[1].name == ".." && 0 < x.ents[1].inum < n
    && (i != ROOT ==> x.ents[1].inum != i)
    && (forall s {:trigger x.ents[s]} :: 0 <= s < |x.ents| ==> 0 <= x.ents[s].inum < n)
    && (forall s, t {:trigger x.ents[s], x.ents[t]} ::
         0 <= s < t < |x.ents| && x.ents[s].inum != 0 && x.ents[t].inum != 0 ==>
         x.ents[s].name != x.ents[t].name)
    && (x.nlink == 0 ==> forall s {:trigger x.ents[s]} :: 2 <= s < |x.ents| ==> x.ents[s].inum == 0)
  }

  ghost predicate NodeOk(x: Node, i: int, n: int) {
    && 0 <= x.nlink <= SHRT && (x.kind == 0 ==> x.nlink == 0)
    && (x.kind == DIR ==> DirOk(x, i, n)) && (x.kind != DIR ==> x.ents == [])
  }

  /** Slot s of linked directory d names inode c, other than as "." or "..". */
  ghost predicate Entry(nodes: seq<Node>, d: int, s: int, c: int) {
    0 <= d < |nodes| && Linked(nodes[d]) && 2 <= s < |nodes[d].ents| && nodes[d].ents[s].inum == c && c != 0
  }

  /** A linked directory's ".." names the one directory that has it as an entry. */
  ghost predicate TreeOk(nodes: seq<Node>) {
    && 1 < |nodes| && Linked(nodes[ROOT]) && |nodes[ROOT].ents| >= 2 && nodes[ROOT].ents[1].inum == ROOT
    && (forall d, s, c {:trigger Entry(nodes, d, s, c)} :: Entry(nodes, d, s, c) ==>
         0 < c < |nodes| && c != ROOT && nodes[c].kind != 0)
    && (forall d, s, c {:trigger Entry(nodes, d, s, c)} ::
         Entry(nodes, d, s, c) && 0 <= c < |nodes| && nodes[c].kind == DIR ==>
         Linked(nodes[c]) && |nodes[c].ents| >= 2 && nodes[c].ents[1].inum == d)
    && (forall d, s, t, c {:trigger Entry(nodes, d, s, c), Entry(nodes, d, t, c)} ::
         Entry(nodes, d, s, c) && Entry(nodes, d, t, c) && 0 <= c < |nodes| && nodes[c].kind == DIR ==> s == t)
    && (forall c {:trigger nodes[c]} :: 0 < c < |nodes| && c != ROOT && Linked(nodes[c]) ==>
         |nodes[c].ents| >= 2 && exists s {:trigger Entry(nodes, nodes[c].ents[1].inum, s, c)} ::
             Entry(nodes, nodes[c].ents[1].inum, s, c))
  }

  /** Following ".." from linked directory c leads to the root in n steps at most. */
  ghost predicate Reaches(nodes: seq<Node>, c: int, n: nat)
    decreases n
  {
    && 0 <= c < |nodes| && Linked(nodes[c])
    && (c == ROOT || (n > 0 && |nodes[c].ents| >= 2 && Reaches(nodes, nodes[c].ents[1].inum, n - 1)))
  }

  ghost predicate Rooted(nodes: seq<Node>, c: int) {
    exists n: nat :: Reaches(nodes, c, n)
  }

  /** The linked directories are one tree. */
  ghost predicate AllRooted(nodes: seq<Node>) {
    forall c {:trigger Rooted(nodes, c)} {:trigger nodes[c]} :: 0 <= c < |nodes| && Linked(nodes[c]) ==>
        Rooted(nodes, c)
  }

  /** Every inode's link count is the number of entries that name it. */
  ghost predicate CountsOk(nodes: seq<Node>) {
    forall i {:trigger nodes[i]} :: 0 < i < |nodes| ==> nodes[i].nlink == Count(nodes, i, |nodes|)
  }

  ghost predicate Inv(nodes: seq<Node>) {
    && (forall i {:trigger nodes[i]} :: 0 <= i < |nodes| ==> NodeOk(nodes[i], i, |nodes|))
    && TreeOk(nodes) && AllRooted(nodes) && CountsOk(nodes) && nodes[0].kind == 0
  }

  // ---------------------------------------------------------------- the operations on values

  /** dirlink's slot: the first empty one, or the end. */
  function FreeSlot(ents: seq<Ent>, k: nat): (s: nat)
    requires k <= |ents|
    ensures k <= s <= |ents| && (s < |ents| ==> ents[s].inum == 0) && forall t :: k <= t < s ==> ents[t].inum != 0
    decreases |ents| - k
  {
    if k < |ents| && ents[k].inum != 0 then FreeSlot(ents, k + 1) else k
  }

  function WithEnt(ents: seq<Ent>, e: Ent): seq<Ent> {
    var s := FreeSlot(ents, 0);
    if s < |ents| then ents[s := e] else ents + [e]
  }

  ghost predicate Absent(ents: seq<Ent>, name: string) {
    forall s {:trigger ents[s]} :: 0 <= s < |ents| && ents[s].inum != 0 ==> ents[s].name != name
  }

  /** What create does when the name is new: inode ip in directory dp. */
  function Created(nodes: seq<Node>, dp: int, ip: int, name: string, kind: int): seq<Node>
    requires 0 <= dp < |nodes| && 0 <= ip < |nodes|
  {
    var d := nodes[dp];
    nodes[ip := Node(kind, 1, if kind == DIR then [Ent(ip, "."), Ent(dp, "..")] else [])]
         [dp := Node(d.kind, if kind == DIR then Short(d.nlink + 1) else d.nlink, WithEnt(d.ents, Ent(ip, name)))]
  }

  /** What sys_link does: one more name for ip. */
  function Joined(nodes: seq<Node>, ip: int, dp: int, name: string): seq<Node>
    requires 0 <= dp < |nodes| && 0 <= ip < |nodes|
  {
    nodes[ip := nodes[ip].(nlink := Short(nodes[ip].nlink + 1))]
         [dp := nodes[dp].(ents := WithEnt(nodes[dp].ents, Ent(ip, name)))]
  }

  /** What sys_unlink does to slot s of dp. */
  function Removed(nodes: seq<Node>, dp: int, s: int): seq<Node>
    requires 0 <= dp < |nodes| && 0 <= s < |nodes[dp].ents| && 0 <= nodes[dp].ents[s].inum < |nodes|
  {
    var d, ip := nodes[dp], nodes[dp].ents[s].inum;
    var down := if nodes[ip].kind == DIR then 1 else 0;
    nodes[dp := Node(d.kind, d.nlink - down, d.ents[s := Ent(0, "")])]
         [ip := nodes[ip].(nlink := nodes[ip].nlink - 1)]
  }

  // ---------------------------------------------------------------- counts under the operations

  lemma WithEntCount(ents: seq<Ent>, e: Ent, i: int)
    requires i != 0
    ensures EntCount(WithEnt(ents, e), i) == EntCount(ents, i) + Names(e, i)
  {
    var s := FreeSlot(ents, 0);
    if s < |ents| {
      EntCountSet(ents, s, e, i);
    } else {
      EntCountSnoc(ents, e, i);
    }
  }

  lemma DotsCount(ip: int, dp: int, i: int)
    ensures EntCount([Ent(ip, "."), Ent(dp, "..")], i) == if i == dp then 1 else 0
  {
    var a := [Ent(ip, ".")];
    EntCountSnoc([], Ent(ip, "."), i);
    EntCountSnoc(a, Ent(dp, ".."), i);
    assert [] + [Ent(ip, ".")] == a && a + [Ent(dp, "..")] == [Ent(ip, "."), Ent(dp, "..")];
  }

  lemma NoneCounted(i: int)
    ensures EntCount([], i) == 0
  {}

  /** The count of inode i after a create. */
  lemma CreatedCount(nodes: seq<Node>, dp: int, ip: int, name: string, kind: int, i: int)
    requires 0 <= dp < |nodes| && 0 <= ip < |nodes| && dp != ip && nodes[dp].kind == DIR && nodes[dp].nlink >= 0
    requires nodes[ip].kind == 0 && i != 0
    requires name != "." && (kind == DIR ==> nodes[dp].nlink < SHRT)
    ensures var n := |nodes|; var after := Created(nodes, dp, ip, name, kind);
            Count(after, i, n) == Count(nodes, i, n) + (if kind == DIR && i == dp then 1 else 0)
              + (if Linked(nodes[dp]) then (if i == ip then 1 else 0)
                 else if kind == DIR then EntCount(nodes[dp].ents, i) + (if i == ip then 1 else 0) else 0)
  {
    hide Count, EntCount, WithEnt, Short;
    var n := |nodes|;
    var x := Node(kind, 1, if kind == DIR then [Ent(ip, "."), Ent(dp, "..")] else []);
    var d := nodes[dp];
    NoneCounted(i);
    var y := Node(d.kind, if kind == DIR then Short(d.nlink + 1) else d.nlink, WithEnt(d.ents, Ent(ip, name)));
    ShortOf(d.nlink + 1);
    CountSet(nodes, ip, x, i, n);
    CountSet(nodes[ip := x], dp, y, i, n);
    WithEntCount(d.ents, Ent(ip, name), i);
    DotsCount(ip, dp, i);
  }

  lemma At(nodes: seq<Node>, i: int)
    requires Inv(nodes) && 0 <= i < |nodes|
    ensures NodeOk(nodes[i], i, |nodes|) && (i > 0 ==> nodes[i].nlink == Count(nodes, i, |nodes|))
    ensures nodes[0].kind == 0 && 1 < |nodes|
    ensures nodes[ROOT].kind == DIR && nodes[ROOT].nlink > 0
  {}

  /** create keeps every link count right exactly when the parent directory is linked, and for a
      directory can count one more link. In a directory that has been unlinked, but is still
      someone's current directory, it does not. */
  lemma CreateCounts(nodes: seq<Node>, dp: int, ip: int, name: string, kind: int)
    requires Inv(nodes) && 0 < dp < |nodes| && 0 < ip < |nodes| && nodes[dp].kind == DIR
    requires nodes[ip].kind == 0 && kind != 0
    requires Absent(nodes[dp].ents, name)
    ensures CountsOk(Created(nodes, dp, ip, name, kind)) <==>
            Linked(nodes[dp]) && (kind == DIR ==> nodes[dp].nlink < SHRT)
  {
    hide Count, EntCount, TreeOk, WithEnt, Inv, Short;
    At(nodes, dp);
    At(nodes, ip);
    ShortOf(nodes[dp].nlink + 1);
    var t := Created(nodes, dp, ip, name, kind);
    CountNonNegative(t, dp, |t|);
    assert nodes[dp].ents[0].name == ".";
    var fits := kind == DIR ==> nodes[dp].nlink < SHRT;
    forall i | 0 < i < |nodes|
      ensures Linked(nodes[dp]) && fits ==> t[i].nlink == Count(t, i, |t|)
    {
      At(nodes, i);
      if fits {
        CreatedCount(nodes, dp, ip, name, kind, i);
      }
    }
    if !fits {
      assert t[dp].nlink < 0;
    }
    if !Linked(nodes[dp]) {
      var pp := nodes[dp].ents[1].inum;
      At(nodes, pp);
      CreatedCount(nodes, dp, ip, name, kind, ip);
      CreatedCount(nodes, dp, ip, name, kind, pp);
      ParentCount(nodes[dp], dp, |nodes|, pp);
      if kind == DIR {
        assert t[pp].nlink != Count(t, pp, |t|);
      } else {
        assert t[ip].nlink != Count(t, ip, |t|);
      }
    }
  }

  lemma {:induction false} EntCountSome(ents: seq<Ent>, i: int, k: nat)
    requires k < |ents| && Names(ents[k], i) == 1
    ensures EntCount(ents, i) >= 1
    decreases |ents|
  {
    EntCountNonNegative(ents[..|ents| - 1], i);
    if k < |ents| - 1 {
      EntCountSome(ents[..|ents| - 1], i, k);
    }
  }

  lemma {:induction false} EntCountNonNegative(ents: seq<Ent>, i: int)
    ensures EntCount(ents, i) >= 0
    decreases |ents|
  {
    if ents != [] {
      EntCountNonNegative(ents[..|ents| - 1], i);
    }
  }

  /** A directory's ".." counts for its parent. */
  lemma ParentCount(x: Node, i: int, n: int, pp: int)
    requires DirOk(x, i, n) && pp == x.ents[1].inum
    ensures EntCount(x.ents, pp) >= 1
  {
    assert x.ents[1].name == "..";
    EntCountSome(x.ents, pp, 1);
  }

  // ---------------------------------------------------------------- create keeps the invariant

  lemma WithEntDir(x: Node, i: int, n: int, e: Ent, nlink: int)
    requires DirOk(x, i, n) && i > 0 && Absent(x.ents, e.name) && 0 < e.inum < n && nlink > 0
    ensures DirOk(Node(DIR, nlink, WithEnt(x.ents, e)), i, n)
    ensures var s := FreeSlot(x.ents, 0);
              && s >= 2 && s < |WithEnt(x.ents, e)| && WithEnt(x.ents, e)[s] == e
              && |WithEnt(x.ents, e)| >= |x.ents|
    ensures var s := FreeSlot(x.ents, 0); forall t :: 0 <= t < |WithEnt(x.ents, e)| && t != s ==>
              t < |x.ents| && WithEnt(x.ents, e)[t] == x.ents[t]
    ensures FreeSlot(x.ents, 0) < |x.ents| ==> x.ents[FreeSlot(x.ents, 0)].inum == 0
  {
    assert x.ents[0].inum != 0 && x.ents[1].inum != 0;
  }

  /** From nodes to t, the only new entry is slot s of dp, naming ip; ".." of linked directories, and
      which inodes are directories, is as before but for ip. */
  ghost predicate Adds(nodes: seq<Node>, t: seq<Node>, dp: int, s: int, ip: int) {
    && |t| == |nodes| && 0 < dp < |nodes| && 0 < ip < |nodes|
    && (forall d, u, c {:trigger Entry(t, d, u, c)} :: Entry(t, d, u, c) ==>
         Entry(nodes, d, u, c) || (d == dp && u == s && c == ip))
    && (forall d, u, c {:trigger Entry(nodes, d, u, c)} :: Entry(nodes, d, u, c) ==>
         Entry(t, d, u, c) && !(d == dp && u == s))
    && Entry(t, dp, s, ip)
    && (forall c {:trigger t[c]} :: 0 <= c < |nodes| && c != ip ==> SameDots(nodes[c], t[c]))
  }

  ghost predicate SameDots(x: Node, y: Node) {
    && Linked(y) == Linked(x) && y.kind == x.kind
    && (Linked(x) ==> |x.ents| >= 2 && |y.ents| >= 2 && y.ents[1] == x.ents[1])
  }

  lemma AddsTree(nodes: seq<Node>, t: seq<Node>, dp: int, s: int, ip: int)
    requires TreeOk(nodes) && Adds(nodes, t, dp, s, ip) && ip != ROOT && t[ip].kind != 0 && nodes[ip].kind != DIR
    requires t[ip].kind == DIR ==> Linked(t[ip]) && |t[ip].ents| >= 2 && t[ip].ents[1].inum == dp && nodes[ip].kind == 0
    ensures TreeOk(t)
  {
    hide Entry;
    assert SameDots(nodes[ROOT], t[ROOT]);
    forall d, u, c {:trigger Entry(t, d, u, c)} | Entry(t, d, u, c)
      ensures 0 < c < |t| && c != ROOT && t[c].kind != 0
      ensures t[c].kind == DIR ==> Linked(t[c]) && |t[c].ents| >= 2 && t[c].ents[1].inum == d
    {
      if !(d == dp && u == s && c == ip) {
        assert Entry(nodes, d, u, c);
        assert c != ip ==> SameDots(nodes[c], t[c]);
        assert nodes[c].kind != 0;
      }
    }
    forall d, u, v, c {:trigger Entry(t, d, u, c), Entry(t, d, v, c)}
        | Entry(t, d, u, c) && Entry(t, d, v, c) && t[c].kind == DIR
      ensures u == v
    {
      if c == ip {
        assert !Entry(nodes, d, u, c) && !Entry(nodes, d, v, c);
      } else {
        assert Entry(nodes, d, u, c) && Entry(nodes, d, v, c);
        assert SameDots(nodes[c], t[c]);
      }
    }
    forall c {:trigger t[c]} | 0 < c < |t| && c != ROOT && Linked(t[c])
      ensures |t[c].ents| >= 2
      ensures exists u {:trigger Entry(t, t[c].ents[1].inum, u, c)} :: Entry(t, t[c].ents[1].inum, u, c)
    {
      if c == ip {
        assert Entry(t, t[c].ents[1].inum, s, c);
      } else {
        assert SameDots(nodes[c], t[c]);
        var u :| Entry(nodes, nodes[c].ents[1].inum, u, c);
        assert Entry(t, t[c].ents[1].inum, u, c);
      }
    }
  }

  /** Directories other than ip still reach the root, unless ip was on their way. */
  lemma {:induction false} ReachesStill(nodes: seq<Node>, t: seq<Node>, ip: int, c: int, n: nat)
    requires Reaches(nodes, c, n) && c != ip && ip != ROOT && |t| == |nodes|
    requires forall x {:trigger t[x]} :: 0 <= x < |nodes| && x != ip ==> SameDots(nodes[x], t[x])
    requires forall x {:trigger nodes[x]} ::
               0 <= x < |nodes| && 0 <= ip < |nodes| && Linked(nodes[ip]) && Linked(nodes[x])
                   && |nodes[x].ents| >= 2 ==>
               nodes[x].ents[1].inum != ip
    ensures Reaches(t, c, n)
    decreases n
  {
    assert SameDots(nodes[c], t[c]);
    if c != ROOT {
      ReachesStill(nodes, t, ip, nodes[c].ents[1].inum, n - 1);
    }
  }

  lemma RootedStill(nodes: seq<Node>, t: seq<Node>, ip: int)
    requires AllRooted(nodes) && ip != ROOT && |t| == |nodes|
    requires forall x {:trigger t[x]} :: 0 <= x < |nodes| && x != ip ==> SameDots(nodes[x], t[x])
    requires forall x {:trigger nodes[x]} ::
               0 <= x < |nodes| && 0 <= ip < |nodes| && Linked(nodes[ip]) && Linked(nodes[x])
                   && |nodes[x].ents| >= 2 ==>
               nodes[x].ents[1].inum != ip
    ensures forall c {:trigger Rooted(t, c)} :: 0 <= c < |t| && c != ip && Linked(t[c]) ==> Rooted(t, c)
  {
    forall c | 0 <= c < |t| && c != ip && Linked(t[c])
      ensures Rooted(t, c)
    {
      assert SameDots(nodes[c], t[c]) && Rooted(nodes, c);
      var n: nat :| Reaches(nodes, c, n);
      ReachesStill(nodes, t, ip, c, n);
    }
  }

  lemma AddsRooted(nodes: seq<Node>, t: seq<Node>, dp: int, s: int, ip: int)
    requires AllRooted(nodes) && Adds(nodes, t, dp, s, ip) && ip != ROOT && dp != ip
    requires nodes[ip].kind != DIR && Linked(nodes[dp])
    requires t[ip].kind == DIR ==> |t[ip].ents| >= 2 && t[ip].ents[1].inum == dp
    ensures AllRooted(t)
  {
    hide Entry, Reaches;
    RootedStill(nodes, t, ip);
    assert SameDots(nodes[dp], t[dp]);
    assert Rooted(t, dp);
    if Linked(t[ip]) {
      var n: nat :| Reaches(t, dp, n);
      OneMoreStep(t, ip, n);
    }
  }

  lemma OneMoreStep(t: seq<Node>, c: int, n: nat)
    requires 0 <= c < |t| && Linked(t[c]) && |t[c].ents| >= 2 && Reaches(t, t[c].ents[1].inum, n)
    ensures Rooted(t, c)
  {
    assert Reaches(t, c, n + 1);
  }

  lemma DotsKept(x: Node, i: int, n: int)
    requires NodeOk(x, i, n)
    ensures SameDots(x, x)
  {}

  lemma CreatedAdds(nodes: seq<Node>, dp: int, ip: int, name: string, kind: int)
    requires 0 < dp < |nodes| && 0 < ip < |nodes| && dp != ip && Linked(nodes[dp]) && nodes[ip].kind == 0 && kind != 0
    requires DirOk(nodes[dp], dp, |nodes|) && Absent(nodes[dp].ents, name) && (kind == DIR ==> nodes[dp].nlink < SHRT)
    requires forall i {:trigger nodes[i]} :: 0 <= i < |nodes| ==> NodeOk(nodes[i], i, |nodes|)
    ensures Adds(nodes, Created(nodes, dp, ip, name, kind), dp, FreeSlot(nodes[dp].ents, 0), ip)
  {
    hide WithEnt, FreeSlot, Short, NodeOk, DirOk, SameDots, Absent, Linked;
    var nlink := nodes[dp].nlink + if kind == DIR then 1 else 0;
    ShortOf(nodes[dp].nlink + 1);
    LinkedMore(nodes[dp], nlink, nodes[ip]);
    var t := Created(nodes, dp, ip, name, kind);
    WithEntDir(nodes[dp], dp, |nodes|, Ent(ip, name), nlink);
    DotsOf(nodes[dp], dp, |nodes|);
    WithEntDots(nodes[dp], t[dp], dp, |nodes|, Ent(ip, name));
    forall c {:trigger t[c]} | 0 <= c < |nodes| && c != ip
      ensures SameDots(nodes[c], t[c])
    {
      if c != dp {
        DotsKept(nodes[c], c, |nodes|);
      }
    }
  }

  lemma LinkedMore(x: Node, nlink: int, y: Node)
    requires Linked(x) && x.nlink <= nlink && y.kind == 0
    ensures x.kind == DIR && nlink > 0 && !Linked(y)
    ensures forall ents :: Linked(Node(DIR, nlink, ents))
  {}

  lemma WithEntDots(x: Node, y: Node, i: int, n: int, e: Ent)
    requires DirOk(x, i, n) && i > 0 && Linked(x) && Linked(y) && y.ents == WithEnt(x.ents, e)
    ensures SameDots(x, y)
  {
    assert x.ents[0].inum != 0 && x.ents[1].inum != 0;
  }

  /** create in a linked directory keeps the invariant. */
  lemma CreateKeeps(nodes: seq<Node>, dp: int, ip: int, name: string, kind: int)
    requires Inv(nodes) && 0 < dp < |nodes| && 0 < ip < |nodes| && Linked(nodes[dp]) && nodes[ip].kind == 0 && kind != 0
    requires Absent(nodes[dp].ents, name) && (kind == DIR ==> nodes[dp].nlink < SHRT)
    ensures Inv(Created(nodes, dp, ip, name, kind))
  {
    hide Count, WithEnt, FreeSlot, TreeOk, CountsOk, AllRooted, Short;
    ShortOf(nodes[dp].nlink + 1);
    At(nodes, dp);
    At(nodes, ip);
    CreateCounts(nodes, dp, ip, name, kind);
    CreatedAdds(nodes, dp, ip, name, kind);
    AddsTree(nodes, Created(nodes, dp, ip, name, kind), dp, FreeSlot(nodes[dp].ents, 0), ip);
    AddsRooted(nodes, Created(nodes, dp, ip, name, kind), dp, FreeSlot(nodes[dp].ents, 0), ip);
    WithEntDir(nodes[dp], dp, |nodes|, Ent(ip, name), nodes[dp].nlink + if kind == DIR then 1 else 0);
    var t := Created(nodes, dp, ip, name, kind);
    forall i | 0 <= i < |t|
      ensures NodeOk(t[i], i, |t|)
    {
      assert NodeOk(nodes[i], i, |nodes|);
    }
  }

  // ---------------------------------------------------------------- link

  lemma JoinedCount(nodes: seq<Node>, ip: int, dp: int, name: string, i: int)
    requires 0 <= dp < |nodes| && 0 <= ip < |nodes| && dp != ip && nodes[dp].kind == DIR
    requires nodes[ip].kind != DIR && i != 0 && name != "."
    ensures Count(Joined(nodes, ip, dp, name), i, |nodes|) ==
            Count(nodes, i, |nodes|) + if Linked(nodes[dp]) && i == ip then 1 else 0
  {
    var x := nodes[ip].(nlink := Short(nodes[ip].nlink + 1));
    CountSet(nodes, ip, x, i, |nodes|);
    CountSet(nodes[ip := x], dp, nodes[dp].(ents := WithEnt(nodes[dp].ents, Ent(ip, name))), i, |nodes|);
    WithEntCount(nodes[dp].ents, Ent(ip, name), i);
  }

  /** link keeps every link count right exactly when the directory is linked and the count of the
      inode is below the largest short. */
  lemma LinkCounts(nodes: seq<Node>, ip: int, dp: int, name: string)
    requires Inv(nodes) && 0 < dp < |nodes| && 0 < ip < |nodes| && nodes[dp].kind == DIR
    requires nodes[ip].kind != DIR && nodes[ip].kind != 0
    requires Absent(nodes[dp].ents, name)
    ensures CountsOk(Joined(nodes, ip, dp, name)) <==> Linked(nodes[dp]) && nodes[ip].nlink < SHRT
  {
    hide Count, EntCount, TreeOk, WithEnt, Inv, Short;
    ShortOf(nodes[ip].nlink + 1);
    At(nodes, dp);
    At(nodes, ip);
    assert nodes[dp].ents[0].name == ".";
    var t := Joined(nodes, ip, dp, name);
    forall i | 0 < i < |nodes|
      ensures t[i].nlink == Count(t, i, |t|) <==> (Linked(nodes[dp]) && nodes[ip].nlink < SHRT) || i != ip
    {
      At(nodes, i);
      JoinedCount(nodes, ip, dp, name, i);
    }
    assert t[ip].nlink == Short(nodes[ip].nlink + 1);
  }

  lemma LinkKeeps(nodes: seq<Node>, ip: int, dp: int, name: string)
    requires Inv(nodes) && 0 < dp < |nodes| && 0 < ip < |nodes| && Linked(nodes[dp])
    requires nodes[ip].kind != DIR && nodes[ip].kind != 0
    requires Absent(nodes[dp].ents, name) && nodes[ip].nlink < SHRT
    ensures Inv(Joined(nodes, ip, dp, name))
  {
    hide Count, WithEnt, FreeSlot, TreeOk, CountsOk, AllRooted, Short;
    ShortOf(nodes[ip].nlink + 1);
    At(nodes, dp);
    At(nodes, ip);
    LinkCounts(nodes, ip, dp, name);
    WithEntDir(nodes[dp], dp, |nodes|, Ent(ip, name), nodes[dp].nlink);
    JoinedAdds(nodes, ip, dp, name);
    var t := Joined(nodes, ip, dp, name);
    AddsTree(nodes, t, dp, FreeSlot(nodes[dp].ents, 0), ip);
    AddsRooted(nodes, t, dp, FreeSlot(nodes[dp].ents, 0), ip);
    forall i | 0 <= i < |t|
      ensures NodeOk(t[i], i, |t|)
    {
      assert NodeOk(nodes[i], i, |nodes|);
    }
  }

  lemma JoinedAdds(nodes: seq<Node>, ip: int, dp: int, name: string)
    requires 0 < dp < |nodes| && 0 < ip < |nodes| && Linked(nodes[dp]) && nodes[ip].kind != DIR && nodes[ip].kind != 0
    requires DirOk(nodes[dp], dp, |nodes|) && Absent(nodes[dp].ents, name)
    requires forall i {:trigger nodes[i]} :: 0 <= i < |nodes| ==> NodeOk(nodes[i], i, |nodes|)
    ensures Adds(nodes, Joined(nodes, ip, dp, name), dp, FreeSlot(nodes[dp].ents, 0), ip)
  {
    hide WithEnt, FreeSlot, Short;
    WithEntDir(nodes[dp], dp, |nodes|, Ent(ip, name), nodes[dp].nlink);
    var t := Joined(nodes, ip, dp, name);
    forall c {:trigger t[c]} | 0 <= c < |nodes| && c != ip
      ensures SameDots(nodes[c], t[c])
    {
      assert NodeOk(nodes[c], c, |nodes|);
    }
  }

  // ---------------------------------------------------------------- unlink

  /** No entry but "." and "..". */
  ghost predicate Empty(x: Node) {
    forall s {:trigger x.ents[s]} :: 2 <= s < |x.ents| ==> x.ents[s].inum == 0
  }

  /** A linked directory without entries is no other directory's parent. */
  lemma NoChild(nodes: seq<Node>, ip: int, d: int)
    requires TreeOk(nodes) && 0 < ip < |nodes| && ip != ROOT && Empty(nodes[ip]) && 0 < d < |nodes| && Linked(nodes[d])
    ensures |nodes[d].ents| >= 2 && nodes[d].ents[1].inum != ip
  {
    assert forall u :: !Entry(nodes, ip, u, d);
  }

  /** A directory has one entry. */
  lemma OnlyEntry(nodes: seq<Node>, d: int, s: int, e: int, u: int, c: int)
    requires TreeOk(nodes) && Entry(nodes, d, s, c) && Entry(nodes, e, u, c) && 0 <= c < |nodes| && nodes[c].kind == DIR
    ensures e == d && u == s
  {}

  /** What one linked directory gives to the count of an empty directory: its entry for it. */
  lemma GivesEmptyDir(nodes: seq<Node>, dp: int, s: int, ip: int, d: int)
    requires TreeOk(nodes) && Entry(nodes, dp, s, ip) && 0 < dp && nodes[ip].kind == DIR && Empty(nodes[ip])
    requires 0 <= d < |nodes| && NodeOk(nodes[d], d, |nodes|) && nodes[0].kind == 0
    ensures Gives(nodes[d], ip) == if d == dp then 1 else 0
  {
    hide DirOk, TreeOk;
    EntryRange(nodes, dp, s, ip);
    if Linked(nodes[d]) {
      NoChild(nodes, ip, d);
      DotsOf(nodes[d], d, |nodes|);
      forall u {:trigger nodes[d].ents[u]} | 0 <= u < |nodes[d].ents|
        ensures Names(nodes[d].ents[u], ip) == if d == dp && u == s then 1 else 0
      {
        if u >= 2 && nodes[d].ents[u].inum == ip {
          assert Entry(nodes, d, u, ip);
          OnlyEntry(nodes, dp, s, d, u, ip);
        }
        NotDot(nodes[d], d, |nodes|, u);
      }
      if d == dp {
        EntCountOne(nodes[d].ents, ip, s);
      } else {
        EntCountNone(nodes[d].ents, ip);
      }
    }
  }

  lemma DotsOf(x: Node, i: int, n: int)
    requires DirOk(x, i, n)
    ensures |x.ents| >= 2 && x.ents[0] == Ent(i, ".") && x.ents[1].name == ".." && 0 < x.ents[1].inum < n
    ensures i != ROOT ==> x.ents[1].inum != i
  {}

  lemma NotDot(x: Node, i: int, n: int, u: int)
    requires DirOk(x, i, n) && 0 <= u < |x.ents| && i > 0
    ensures u >= 1 && x.ents[u].inum != 0 ==> x.ents[u].name != "."
    ensures u == 0 ==> x.ents[u].name == "."
  {
    assert x.ents[0].name == ".";
  }

  /** An empty linked directory has exactly one link: its entry in its parent. */
  lemma EmptyDirOneLink(nodes: seq<Node>, dp: int, s: int, ip: int)
    requires Inv(nodes) && Entry(nodes, dp, s, ip) && 0 < dp && nodes[ip].kind == DIR && Empty(nodes[ip])
    ensures nodes[ip].nlink == 1
  {
    hide CountsOk, TreeOk, NodeOk;
    forall d {:trigger nodes[d]} | 0 <= d < |nodes|
      ensures Gives(nodes[d], ip) == if d == dp then 1 else 0
    {
      At(nodes, d);
      GivesEmptyDir(nodes, dp, s, ip, d);
    }
    CountOne(nodes, ip, dp, |nodes|);
    EntryRange(nodes, dp, s, ip);
    At(nodes, ip);
  }

  lemma EntryRange(nodes: seq<Node>, d: int, s: int, c: int)
    requires TreeOk(nodes) && Entry(nodes, d, s, c)
    ensures 0 < c < |nodes| && c != ROOT && nodes[c].kind != 0 && 1 < |nodes|
    ensures nodes[c].kind == DIR ==> Linked(nodes[c]) && |nodes[c].ents| >= 2 && nodes[c].ents[1].inum == d
  {}

  lemma {:induction false} CountTwo(nodes: seq<Node>, i: int, a: nat, b: nat, n: nat)
    requires n <= |nodes| && a < |nodes| && b < |nodes| && a != b && Gives(nodes[a], i) >= 1 && Gives(nodes[b], i) >= 1
    ensures Count(nodes, i, n) >= (if a < n then 1 else 0) + (if b < n then 1 else 0)
    decreases n
  {
    if n > 0 {
      CountTwo(nodes, i, a, b, n - 1);
      EntCountNonNegative(nodes[n - 1].ents, i);
    }
  }

  /** Two directories that are each other's ".." would not reach the root. */
  lemma {:induction false} NoPair(nodes: seq<Node>, a: int, b: int, n: nat)
    requires a != ROOT && b != ROOT && 0 <= a < |nodes| && 0 <= b < |nodes|
    requires |nodes[a].ents| >= 2 && |nodes[b].ents| >= 2 && nodes[a].ents[1].inum == b && nodes[b].ents[1].inum == a
    ensures !Reaches(nodes, a, n)
    decreases n
  {
    if n > 1 {
      NoPair(nodes, a, b, n - 2);
    }
  }

  /** A directory with a child directory has at least two links. */
  lemma ParentTwoLinks(nodes: seq<Node>, dp: int, s: int, ip: int)
    requires Inv(nodes) && Entry(nodes, dp, s, ip) && 0 < dp && nodes[ip].kind == DIR
    ensures nodes[dp].nlink >= 2
  {
    hide CountsOk, Reaches, AllRooted;
    EntryRange(nodes, dp, s, ip);
    At(nodes, ip);
    At(nodes, dp);
    ParentCount(nodes[ip], ip, |nodes|, dp);
    if dp == ROOT {
      ParentCount(nodes[dp], dp, |nodes|, dp);
      CountTwo(nodes, dp, ip, dp, |nodes|);
    } else {
      var pp := nodes[dp].ents[1].inum;
      var u :| Entry(nodes, pp, u, dp);
      At(nodes, pp);
      NotPaired(nodes, ip, dp);
      NotDot(nodes[pp], pp, |nodes|, u);
      EntCountSome(nodes[pp].ents, dp, u);
      CountTwo(nodes, dp, ip, pp, |nodes|);
    }
  }

  lemma NotPaired(nodes: seq<Node>, ip: int, dp: int)
    requires AllRooted(nodes) && 0 <= ip < |nodes| && 0 <= dp < |nodes| && ip != ROOT && dp != ROOT && Linked(nodes[ip])
    requires |nodes[ip].ents| >= 2 && |nodes[dp].ents| >= 2 && nodes[ip].ents[1].inum == dp
    ensures nodes[dp].ents[1].inum != ip
  {
    assert Rooted(nodes, ip);
    var n: nat :| Reaches(nodes, ip, n);
    if nodes[dp].ents[1].inum == ip {
      NoPair(nodes, ip, dp, n);
    }
  }

  lemma EmptyDirCount(x: Node, ip: int, n: int, dp: int, i: int)
    requires DirOk(x, ip, n) && Empty(x) && x.ents[1].inum == dp && i != 0
    ensures EntCount(x.ents, i) == if i == dp then 1 else 0
  {
    if i == dp {
      EntCountOne(x.ents, i, 1);
    } else {
      EntCountNone(x.ents, i);
    }
  }

  lemma RemovedCount(nodes: seq<Node>, dp: int, s: int, ip: int, i: int)
    requires Inv(nodes) && Entry(nodes, dp, s, ip) && 0 < dp
    requires (nodes[ip].kind == DIR ==> Empty(nodes[ip])) && 0 < i < |nodes|
    ensures 0 < ip < |nodes| && ip != dp && 2 <= s < |nodes[dp].ents| && nodes[dp].ents[s].inum == ip
    ensures Count(Removed(nodes, dp, s), i, |nodes|)
              == Count(nodes, i, |nodes|) - (if i == ip then 1 else 0)
                 - (if nodes[ip].kind == DIR && i == dp then 1 else 0)
  {
    hide CountsOk, TreeOk, Count, EntCount;
    EntryRange(nodes, dp, s, ip);
    At(nodes, dp);
    At(nodes, ip);
    var d := nodes[dp];
    DotsOf(d, dp, |nodes|);
    NotDot(d, dp, |nodes|, s);
    if ip == dp {
      RootParent(nodes);
    }
    var down := if nodes[ip].kind == DIR then 1 else 0;
    var y := Node(d.kind, d.nlink - down, d.ents[s := Ent(0, "")]);
    var x := nodes[ip].(nlink := nodes[ip].nlink - 1);
    CountSet(nodes, dp, y, i, |nodes|);
    CountSet(nodes[dp := y], ip, x, i, |nodes|);
    EntCountSet(d.ents, s, Ent(0, ""), i);
    if nodes[ip].kind == DIR {
      ParentTwoLinks(nodes, dp, s, ip);
      EmptyDirOneLink(nodes, dp, s, ip);
      EmptyDirCount(nodes[ip], ip, |nodes|, dp, i);
    }
  }

  lemma RootParent(nodes: seq<Node>)
    requires TreeOk(nodes)
    ensures |nodes| > 1 && |nodes[ROOT].ents| >= 2 && nodes[ROOT].ents[1].inum == ROOT
  {}

  lemma {:induction false} CountNonNegative(nodes: seq<Node>, i: int, n: nat)
    requires n <= |nodes|
    ensures Count(nodes, i, n) >= 0
    decreases n
  {
    if n > 0 {
      CountNonNegative(nodes, i, n - 1);
      EntCountNonNegative(nodes[n - 1].ents, i);
    }
  }

  /** unlink of a file's name, or of an empty directory, keeps the invariant. */
  lemma UnlinkKeeps(nodes: seq<Node>, dp: int, s: int, ip: int)
    requires Inv(nodes) && Entry(nodes, dp, s, ip) && 0 < dp && (nodes[ip].kind == DIR ==> Empty(nodes[ip]))
    ensures 2 <= s < |nodes[dp].ents| && nodes[dp].ents[s].inum == ip && 0 < ip < |nodes| && nodes[ip].nlink >= 1
    ensures Inv(Removed(nodes, dp, s))
  {
    hide Count, CountsOk, TreeOk, AllRooted;
    EntryRange(nodes, dp, s, ip);
    At(nodes, dp);
    At(nodes, ip);
    RemovedCount(nodes, dp, s, ip, ip);
    var t := Removed(nodes, dp, s);
    CountNonNegative(t, ip, |t|);
    RemovedCounts(nodes, dp, s, ip);
    if nodes[ip].kind == DIR {
      ParentTwoLinks(nodes, dp, s, ip);
      EmptyDirOneLink(nodes, dp, s, ip);
    }
    RemovedTree(nodes, dp, s, ip);
    RemovedRooted(nodes, dp, s, ip);
    forall i | 0 <= i < |t|
      ensures NodeOk(t[i], i, |t|)
    {
      assert NodeOk(nodes[i], i, |nodes|);
    }
  }

  lemma RemovedCounts(nodes: seq<Node>, dp: int, s: int, ip: int)
    requires Inv(nodes) && Entry(nodes, dp, s, ip) && 0 < dp && (nodes[ip].kind == DIR ==> Empty(nodes[ip]))
    ensures 2 <= s < |nodes[dp].ents| && nodes[dp].ents[s].inum == ip && 0 < ip < |nodes|
    ensures CountsOk(Removed(nodes, dp, s))
  {
    hide Count, TreeOk, Inv;
    RemovedCount(nodes, dp, s, ip, dp);
    var t := Removed(nodes, dp, s);
    forall i | 0 < i < |t|
      ensures t[i].nlink == Count(t, i, |t|)
    {
      At(nodes, i);
      RemovedCount(nodes, dp, s, ip, i);
    }
  }

  lemma RemovedTree(nodes: seq<Node>, dp: int, s: int, ip: int)
    requires Inv(nodes) && Entry(nodes, dp, s, ip) && 0 < dp && 0 < ip < |nodes| && ip != dp && nodes[ip].nlink >= 1
    requires nodes[ip].kind == DIR ==> Empty(nodes[ip]) && nodes[ip].nlink == 1 && nodes[dp].nlink >= 2
    ensures TreeOk(Removed(nodes, dp, s))
  {
    hide CountsOk, Removed, Entry, NodeOk;
    EntryRange(nodes, dp, s, ip);
    RemovedKinds(nodes, dp, s, ip);
    RemovedEntries(nodes, dp, s, ip);
    RemovedParents(nodes, dp, s, ip);
    var t := Removed(nodes, dp, s);
    assert SameDots(nodes[ROOT], t[ROOT]);
    forall d, u, c {:trigger Entry(t, d, u, c)} | Entry(t, d, u, c)
      ensures 0 < c < |t| && c != ROOT && t[c].kind != 0
      ensures t[c].kind == DIR ==> Linked(t[c]) && |t[c].ents| >= 2 && t[c].ents[1].inum == d
    {
      assert Entry(nodes, d, u, c);
      if c != ip {
        assert SameDots(nodes[c], t[c]);
      }
    }
    forall d, u, v, c {:trigger Entry(t, d, u, c), Entry(t, d, v, c)}
        | Entry(t, d, u, c) && Entry(t, d, v, c) && t[c].kind == DIR
      ensures u == v
    {
      assert Entry(nodes, d, u, c) && Entry(nodes, d, v, c);
      if c != ip {
        assert SameDots(nodes[c], t[c]);
      }
    }
  }

  lemma RemovedRooted(nodes: seq<Node>, dp: int, s: int, ip: int)
    requires Inv(nodes) && Entry(nodes, dp, s, ip) && 0 < dp && 0 < ip < |nodes| && ip != dp && nodes[ip].nlink >= 1
    requires nodes[ip].kind == DIR ==> Empty(nodes[ip]) && nodes[ip].nlink == 1 && nodes[dp].nlink >= 2
    ensures AllRooted(Removed(nodes, dp, s))
  {
    hide CountsOk, Removed, Entry, NodeOk, Reaches;
    EntryRange(nodes, dp, s, ip);
    RemovedKinds(nodes, dp, s, ip);
    var t := Removed(nodes, dp, s);
    forall x {:trigger nodes[x]} | 0 <= x < |nodes| && Linked(nodes[ip]) && Linked(nodes[x]) && |nodes[x].ents| >= 2
      ensures nodes[x].ents[1].inum != ip
    {
      At(nodes, x);
      NoChild(nodes, ip, x);
    }
    RootedStill(nodes, t, ip);
  }

  lemma RemovedKinds(nodes: seq<Node>, dp: int, s: int, ip: int)
    requires Inv(nodes) && Entry(nodes, dp, s, ip) && 0 < dp && 0 < ip < |nodes| && ip != dp && nodes[ip].nlink >= 1
    requires nodes[ip].kind == DIR ==> nodes[ip].nlink == 1 && nodes[dp].nlink >= 2
    ensures 0 <= dp < |nodes| && 0 <= s < |nodes[dp].ents| && nodes[dp].ents[s].inum == ip
    ensures var t := Removed(nodes, dp, s);
            && |t| == |nodes| && t[ip].kind == nodes[ip].kind && t[ip].ents == nodes[ip].ents && !Linked(t[ip])
            && forall c {:trigger t[c]} :: 0 <= c < |nodes| && c != ip ==> SameDots(nodes[c], t[c])
  {
    hide TreeOk, CountsOk;
    var t := Removed(nodes, dp, s);
    forall c {:trigger t[c]} | 0 <= c < |nodes| && c != ip
      ensures SameDots(nodes[c], t[c])
    {
      assert NodeOk(nodes[c], c, |nodes|);
    }
  }

  /** The entries left are old ones, and only the removed one is gone. */
  lemma RemovedEntries(nodes: seq<Node>, dp: int, s: int, ip: int)
    requires TreeOk(nodes) && Entry(nodes, dp, s, ip) && 0 < dp && 0 < ip < |nodes| && ip != dp && nodes[ip].nlink >= 1
    requires nodes[ip].kind == DIR ==> Empty(nodes[ip]) && nodes[ip].nlink == 1 && nodes[dp].nlink >= 2
    ensures forall d, u, c {:trigger Entry(Removed(nodes, dp, s), d, u, c)} :: Entry(Removed(nodes, dp, s), d, u, c) ==>
              Entry(nodes, d, u, c) && !(d == dp && u == s)
    ensures forall d, u, c {:trigger Entry(nodes, d, u, c)} :: Entry(nodes, d, u, c) && !(d == dp && u == s) ==>
              Entry(Removed(nodes, dp, s), d, u, c)
  {}

  lemma RemovedParents(nodes: seq<Node>, dp: int, s: int, ip: int)
    requires Inv(nodes) && Entry(nodes, dp, s, ip) && 0 < dp && 0 < ip < |nodes| && ip != dp && nodes[ip].nlink >= 1
    requires nodes[ip].kind == DIR ==> Empty(nodes[ip]) && nodes[ip].nlink == 1 && nodes[dp].nlink >= 2
    ensures var t := Removed(nodes, dp, s);
            forall c {:trigger t[c]} :: 0 < c < |t| && c != ROOT && Linked(t[c]) ==>
              |t[c].ents| >= 2 && exists u {:trigger Entry(t, t[c].ents[1].inum, u, c)} ::
                  Entry(t, t[c].ents[1].inum, u, c)
  {
    hide CountsOk, TreeOk, Entry, Removed, NodeOk, AllRooted, Linked, DirOk;
    EntryRange(nodes, dp, s, ip);
    RemovedKinds(nodes, dp, s, ip);
    RemovedEntries(nodes, dp, s, ip);
    var t := Removed(nodes, dp, s);
    forall c {:trigger t[c]} | 0 < c < |t| && c != ROOT && Linked(t[c])
      ensures |t[c].ents| >= 2
      ensures exists u {:trigger Entry(t, t[c].ents[1].inum, u, c)} :: Entry(t, t[c].ents[1].inum, u, c)
    {
      assert c != ip && SameDots(nodes[c], t[c]);
      var u := HasEntry(nodes, c);
      OneName(nodes, nodes[c].ents[1].inum, u, c, ip);
      assert Entry(t, nodes[c].ents[1].inum, u, c);
    }
  }

  /** A linked directory's entry in its parent. */
  lemma HasEntry(nodes: seq<Node>, c: int) returns (u: int)
    requires TreeOk(nodes) && 0 < c < |nodes| && c != ROOT && Linked(nodes[c])
    ensures |nodes[c].ents| >= 2 && Entry(nodes, nodes[c].ents[1].inum, u, c)
  {
    u :| Entry(nodes, nodes[c].ents[1].inum, u, c);
  }

  lemma OneName(nodes: seq<Node>, d: int, u: int, c: int, ip: int)
    requires Entry(nodes, d, u, c) && c != ip
    ensures !Entry(nodes, d, u, ip)
  {}

  // ---------------------------------------------------------------- freeing

  /** iput frees an inode without links: no entry names it, so nothing else changes. */
  lemma FreeKeeps(nodes: seq<Node>, i: int)
    requires Inv(nodes) && 0 < i < |nodes| && nodes[i].nlink == 0
    ensures Inv(nodes[i := Node(0, 0, [])])
  {
    hide Count, EntCount, Reaches;
    var t := nodes[i := Node(0, 0, [])];
    assert NodeOk(nodes[i], i, |nodes|);
    FreeTree(nodes, i);
    At(nodes, ROOT);
    RootedStill(nodes, t, i);
    forall j | 0 < j < |t|
      ensures t[j].nlink == Count(t, j, |t|)
    {
      CountSet(nodes, i, Node(0, 0, []), j, |nodes|);
    }
  }

  lemma FreeTree(nodes: seq<Node>, i: int)
    requires Inv(nodes) && 0 < i < |nodes| && nodes[i].nlink == 0
    ensures TreeOk(nodes[i := Node(0, 0, [])])
  {
    hide Count;
    var t := nodes[i := Node(0, 0, [])];
    forall d, s, c {:trigger Entry(t, d, s, c)} {:trigger Entry(nodes, d, s, c)}
      ensures Entry(t, d, s, c) == Entry(nodes, d, s, c)
    {}
    forall d, s {:trigger Entry(nodes, d, s, i)}
      ensures !Entry(nodes, d, s, i)
    {
      NoEntry(nodes, d, s, i);
    }
    hide Entry;
  }

  /** An inode without links is named by no entry. */
  lemma NoEntry(nodes: seq<Node>, d: int, s: int, i: int)
    requires Inv(nodes) && 0 < i < |nodes| && nodes[i].nlink == 0
    ensures !Entry(nodes, d, s, i)
  {
    if Entry(nodes, d, s, i) {
      GivesAtLeastOne(nodes, d, s, i);
      CountSome(nodes, i, d, |nodes|);
    }
  }

  lemma GivesAtLeastOne(nodes: seq<Node>, d: int, s: int, i: int)
    requires Inv(nodes) && Entry(nodes, d, s, i)
    ensures 0 <= d < |nodes| && Gives(nodes[d], i) >= 1
  {
    At(nodes, d);
    NotDot(nodes[d], d, |nodes|, s);
    EntCountSome(nodes[d].ents, i, s);
  }

  lemma {:induction false} CountSome(nodes: seq<Node>, i: int, a: nat, n: nat)
    requires n <= |nodes| && a < |nodes| && Gives(nodes[a], i) >= 1
    ensures Count(nodes, i, n) >= if a < n then 1 else 0
    decreases n
  {
    if n > 0 {
      CountSome(nodes, i, a, n - 1);
      EntCountNonNegative(nodes[n - 1].ents, i);
    }
  }

  // ---------------------------------------------------------------- what mkfs makes

  function RootOnly(n: nat): seq<Node>
    requires n > 1
  {
    seq(n, i => if i == ROOT then Node(DIR, 1, [Ent(ROOT, "."), Ent(ROOT, "..")]) else Node(0, 0, []))
  }

  lemma RootOnlyOk(n: nat)
    requires n > 1
    ensures Inv(RootOnly(n))
  {
    var nodes := RootOnly(n);
    DotsCount(ROOT, ROOT, ROOT);
    forall i | 0 < i < n
      ensures nodes[i].nlink == Count(nodes, i, n)
    {
      CountOne(nodes, i, ROOT, n);
      DotsCount(ROOT, ROOT, i);
    }
    assert Reaches(nodes, ROOT, 0);
  }

  // ---------------------------------------------------------------- an unlinked current directory

  /** mkdir d, change to it, and unlink it: its inode stays, open and without links. */
  function CurrentGone(n: nat): seq<Node>
    requires n > 4
  {
    Removed(Created(RootOnly(n), ROOT, 2, "d", DIR), ROOT, 2)
  }

  /** Then creating a file in it breaks the link counts, and so does linking one into it. */
  lemma CurrentGoneBreaks(n: nat)
    requires n > 4
    ensures var s, t := CurrentGone(n), Created(CurrentGone(n), ROOT, 3, "f", FILE);
            && Inv(s) && s[2].kind == DIR && !Linked(s[2]) && s[3].kind == 0 && Absent(s[2].ents, "g")
            && !CountsOk(Created(s, 2, 3, "g", FILE))
            && Inv(t) && t[3].kind == FILE && t[2] == s[2]
            && !CountsOk(Joined(t, 3, 2, "g"))
  {
    hide Inv, CountsOk;
    var a := RootOnly(n);
    RootOnlyOk(n);
    FreshRoot(a);
    CreateKeeps(a, ROOT, 2, "d", DIR);
    var b := Created(a, ROOT, 2, "d", DIR);
    assert Entry(b, ROOT, 2, 2);
    UnlinkKeeps(b, ROOT, 2, 2);
    var s := CurrentGone(n);
    CreateCounts(s, 2, 3, "g", FILE);
    CreateKeeps(s, ROOT, 3, "f", FILE);
    var t := Created(s, ROOT, 3, "f", FILE);
    LinkCounts(t, 3, 2, "g");
  }

  lemma FreshRoot(a: seq<Node>)
    requires |a| > 4 && a == RootOnly(|a|)
    ensures FreeSlot(a[ROOT].ents, 0) == 2
    ensures var b := Created(a, ROOT, 2, "d", DIR);
            && b[ROOT] == Node(DIR, 2, [Ent(ROOT, "."), Ent(ROOT, ".."), Ent(2, "d")])
            && b[2] == Node(DIR, 1, [Ent(2, "."), Ent(ROOT, "..")]) && b[3] == Node(0, 0, [])
            && Removed(b, ROOT, 2)[ROOT] == Node(DIR, 1, [Ent(ROOT, "."), Ent(ROOT, ".."), Ent(0, "")])
            && Removed(b, ROOT, 2)[2] == Node(DIR, 0, [Ent(2, "."), Ent(ROOT, "..")])
  {
    ShortOf(2);
    assert FreeSlot(a[ROOT].ents, 1) == 2 && FreeSlot(a[ROOT].ents, 0) == 2;
    assert a[ROOT].ents + [Ent(2, "d")] == [Ent(ROOT, "."), Ent(ROOT, ".."), Ent(2, "d")];
  }

  lemma EntryFound(nodes: seq<Node>, dp: int, s: int, ip: int)
    requires 0 < dp < |nodes| && NodeOk(nodes[dp], dp, |nodes|) && nodes[dp].kind == DIR
    requires 0 <= s < |nodes[dp].ents| && ip == nodes[dp].ents[s].inum != 0
    requires nodes[dp].ents[s].name != "." && nodes[dp].ents[s].name != ".."
    ensures 0 < ip < |nodes| && Entry(nodes, dp, s, ip)
  {}

  lemma UnlinkApart(nodes: seq<Node>, dp: int, s: int, ip: int)
    requires Inv(nodes) && Entry(nodes, dp, s, ip) && 0 < dp && (nodes[ip].kind == DIR ==> Empty(nodes[ip]))
    ensures ip != dp
  {
    EntryRange(nodes, dp, s, ip);
    RemovedCount(nodes, dp, s, ip, ip);
  }

  // ---------------------------------------------------------------- the system calls

  /** Why unlink may refuse a name. */
  ghost predicate Refused(nodes: seq<Node>, dp: int, name: string)
    requires 0 <= dp < |nodes|
  {
    || name == "." || name == ".." || Absent(nodes[dp].ents, name)
    || exists ip :: 0 < ip < |nodes| && Ent(ip, name) in nodes[dp].ents && nodes[ip].kind == DIR
                    && !Empty(nodes[ip])
  }

  class Tree {
    var nodes: seq<Node>

    /** mkfs: a root directory and nothing else. */
    constructor (n: nat)
      requires n > 1
      ensures Inv(nodes) && nodes == RootOnly(n)
    {
      nodes := RootOnly(n);
      RootOnlyOk(n);
    }

    /** dirlookup: the slot of the name; -1 when it is not there. */
    method Dirlookup(dp: int, name: string) returns (s: int)
      requires 0 <= dp < |nodes|
      ensures s == -1 <==> Absent(nodes[dp].ents, name)
      ensures s != -1 ==> 0 <= s < |nodes[dp].ents| && nodes[dp].ents[s].inum != 0 && nodes[dp].ents[s].name == name
    {
      s := 0;
      while s < |nodes[dp].ents|
        invariant 0 <= s <= |nodes[dp].ents|
        invariant forall t {:trigger nodes[dp].ents[t]} :: 0 <= t < s && nodes[dp].ents[t].inum != 0 ==>
                    nodes[dp].ents[t].name != name
      {
        if nodes[dp].ents[s].inum != 0 && nodes[dp].ents[s].name == name {
          return;
        }
        s := s + 1;
      }
      s := -1;
    }

    /** dirlink: -1 when the name is taken, else the first empty slot, or a new one, holds it. */
    method Dirlink(dp: int, name: string, inum: int) returns (r: int)
      requires 0 <= dp < |nodes|
      modifies this
      ensures r == if Absent(old(nodes)[dp].ents, name) then 0 else -1
      ensures r != 0 ==> nodes == old(nodes)
      ensures r == 0 ==>
                nodes == old(nodes)[dp := old(nodes)[dp].(ents := WithEnt(old(nodes)[dp].ents, Ent(inum, name)))]
    {
      var found := Dirlookup(dp, name);
      if found != -1 {
        return -1;
      }
      var s := 0;
      var ents := nodes[dp].ents;
      while s < |ents| && ents[s].inum != 0
        invariant 0 <= s <= |ents| && FreeSlot(ents, s) == FreeSlot(ents, 0)
      {
        s := s + 1;
      }
      ents := if s < |ents| then ents[s := Ent(inum, name)] else ents + [Ent(inum, name)];
      nodes := nodes[dp := nodes[dp].(ents := ents)];
      r := 0;
    }

    /** isdirempty */
    method Isdirempty(dp: int) returns (r: bool)
      requires 0 <= dp < |nodes|
      ensures r <==> Empty(nodes[dp])
    {
      var s := 2;
      while s < |nodes[dp].ents|
        invariant 2 <= s
        invariant forall t {:trigger nodes[dp].ents[t]} :: 2 <= t < s && t < |nodes[dp].ents| ==>
                    nodes[dp].ents[t].inum == 0
      {
        if nodes[dp].ents[s].inum != 0 {
          return false;
        }
        s := s + 1;
      }
      return true;
    }

    /** ialloc's search for a free inode; 0 is its panic. */
    method FreeInode() returns (i: int)
      ensures i != 0 ==> 0 < i < |nodes| && nodes[i].kind == 0
      ensures i == 0 ==> forall j {:trigger nodes[j]} :: 1 <= j < |nodes| ==> nodes[j].kind != 0
    {
      i := 1;
      while i < |nodes|
        invariant 1 <= i && forall j {:trigger nodes[j]} :: 1 <= j < i && j < |nodes| ==> nodes[j].kind != 0
      {
        if nodes[i].kind == 0 {
          return;
        }
        i := i + 1;
      }
      i := 0;
    }

    /** create of `name` in directory dp. The result is the inode, or 0 when the name is taken by
        something else than a file that was asked for; no inode left is the panic. */
    method Create(dp: int, name: string, kind: int) returns (panicked: bool, ip: int)
      requires Inv(nodes) && 0 < dp < |nodes| && nodes[dp].kind == DIR && kind > 0
      modifies this
      ensures panicked ==> forall j {:trigger nodes[j]} :: 1 <= j < |nodes| ==> nodes[j].kind != 0
      ensures !panicked && !Absent(old(nodes)[dp].ents, name) ==> nodes == old(nodes)
      ensures !panicked && !Absent(old(nodes)[dp].ents, name) ==>
                exists i :: 0 < i < |nodes| && Ent(i, name) in nodes[dp].ents
                    && ip == if kind == FILE && nodes[i].kind == FILE then i else 0
      ensures !panicked && Absent(old(nodes)[dp].ents, name) ==>
                0 < ip < |old(nodes)| && old(nodes)[ip].kind == 0 && nodes == Created(old(nodes), dp, ip, name, kind)
      ensures !panicked && !Absent(old(nodes)[dp].ents, name) ==> Inv(nodes)
      ensures !panicked && Linked(old(nodes)[dp]) && (kind == DIR ==> old(nodes)[dp].nlink < SHRT) ==> Inv(nodes)
    {
      hide Inv, WithEnt, FreeSlot, Short;
      panicked, ip := false, 0;
      var s := Dirlookup(dp, name);
      if s != -1 {
        ip := nodes[dp].ents[s].inum;
        At(nodes, dp);
        assert Ent(ip, name) in nodes[dp].ents;
        if !(kind == FILE && nodes[ip].kind == FILE) {
          ip := 0;
        }
        return;
      }
      ip := FreeInode();
      if ip == 0 {
        return true, 0;
      }
      At(nodes, ip);
      At(nodes, dp);
      ghost var was := nodes;
      nodes := nodes[ip := Node(kind, 1, [])];
      if kind == DIR {
        nodes := nodes[dp := nodes[dp].(nlink := Short(nodes[dp].nlink + 1))];
        FreshDots(ip, dp);
        var r1 := Dirlink(ip, ".", ip);
        var r2 := Dirlink(ip, "..", dp);
        assert r1 == 0 && r2 == 0;
      }
      var r := Dirlink(dp, name, ip);
      assert r == 0;
      assert nodes == Created(was, dp, ip, name, kind);
      if Linked(was[dp]) && (kind == DIR ==> was[dp].nlink < SHRT) {
        CreateKeeps(was, dp, ip, name, kind);
      }
    }

    lemma FreshDots(ip: int, dp: int)
      requires ip > 0
      ensures Absent([], ".") && WithEnt([], Ent(ip, ".")) == [Ent(ip, ".")]
      ensures Absent([Ent(ip, ".")], "..") && WithEnt([Ent(ip, ".")], Ent(dp, "..")) == [Ent(ip, "."), Ent(dp, "..")]
    {
      var a := [Ent(ip, ".")];
      assert [] + a == a;
      assert FreeSlot(a, 0) == 1;
      assert a + [Ent(dp, "..")] == [Ent(ip, "."), Ent(dp, "..")];
    }

    /** sys_link, once the paths have given inode ip and directory dp: -1 for a directory or a name
        that is taken, with the link count put back. */
    method Link(ip: int, dp: int, name: string) returns (r: int)
      requires Inv(nodes) && 0 < dp < |nodes| && nodes[dp].kind == DIR && 0 < ip < |nodes| && nodes[ip].kind != 0
      modifies this
      ensures r == if old(nodes)[ip].kind != DIR && Absent(old(nodes)[dp].ents, name) then 0 else -1
      ensures nodes == if r == 0 then Joined(old(nodes), ip, dp, name) else old(nodes)
      ensures r == -1 || (Linked(old(nodes)[dp]) && old(nodes)[ip].nlink < SHRT) ==> Inv(nodes)
    {
      hide Inv, WithEnt, Short;
      if nodes[ip].kind == DIR {
        return -1;
      }
      ghost var was := nodes;
      ShortOf(nodes[ip].nlink);
      At(nodes, ip);
      nodes := nodes[ip := nodes[ip].(nlink := Short(nodes[ip].nlink + 1))];
      r := Dirlink(dp, name, ip);
      if r < 0 {
        nodes := nodes[ip := nodes[ip].(nlink := Short(nodes[ip].nlink - 1))];
        assert nodes == was;
        return;
      }
      if Linked(was[dp]) && was[ip].nlink < SHRT {
        LinkKeeps(was, ip, dp, name);
      }
    }

    /** The rest of an unlink that goes on: the entry is cleared and the counts fall. */
    method Remove(dp: int, s: int, ip: int, last: bool)
      requires Inv(nodes) && Entry(nodes, dp, s, ip)
      requires nodes[ip].kind == DIR ==> Empty(nodes[ip])
      modifies this
      ensures Inv(nodes) && old(nodes)[ip].nlink >= 1
      ensures var t := Removed(old(nodes), dp, s);
              nodes == if last && t[ip].nlink == 0 then t[ip := Node(0, 0, [])] else t
    {
      hide Inv, Count;
      At(nodes, dp);
      At(nodes, ip);
      UnlinkKeeps(nodes, dp, s, ip);
      assert !(nodes[ip].nlink < 1);
      ghost var t := Removed(nodes, dp, s);
      UnlinkApart(nodes, dp, s, ip);
      nodes := nodes[dp := nodes[dp].(ents := nodes[dp].ents[s := Ent(0, "")])];
      if nodes[ip].kind == DIR {
        nodes := nodes[dp := nodes[dp].(nlink := nodes[dp].nlink - 1)];
      }
      nodes := nodes[ip := nodes[ip].(nlink := nodes[ip].nlink - 1)];
      assert nodes == t;
      if last && nodes[ip].nlink == 0 {
        FreeKeeps(nodes, ip);
        nodes := nodes[ip := Node(0, 0, [])];
      }
    }

    /** sys_unlink, once the path has given directory dp: -1 for ".", "..", a name that is not
        there, or a directory that is not empty. `last` says that no one else has the inode open,
        so that iput frees it when its links are gone. The panic "nlink < 1" cannot happen. */
    method Unlink(dp: int, name: string, last: bool) returns (r: int, ghost s: int)
      requires Inv(nodes) && 0 < dp < |nodes| && nodes[dp].kind == DIR
      modifies this
      ensures Inv(nodes)
      ensures r == -1 ==> nodes == old(nodes)
      ensures r == -1 <==> Refused(old(nodes), dp, name)
      ensures r == 0 || r == -1
      ensures r == 0 ==>
                && 2 <= s < |old(nodes)[dp].ents| && old(nodes)[dp].ents[s].name == name
                && 0 < old(nodes)[dp].ents[s].inum < |old(nodes)|
      ensures r == 0 ==> var ip := old(nodes)[dp].ents[s].inum; var t := Removed(old(nodes), dp, s);
                old(nodes)[ip].nlink >= 1 && nodes == if last && t[ip].nlink == 0 then t[ip := Node(0, 0, [])] else t
    {
      hide Inv, Count;
      s := 0;
      if name == "." || name == ".." {
        return -1, 0;
      }
      At(nodes, dp);
      var found := Dirlookup(dp, name);
      if found == -1 {
        return -1, 0;
      }
      s := found;
      var ip := nodes[dp].ents[found].inum;
      At(nodes, ip);
      EntryFound(nodes, dp, found, ip);
      assert Entry(nodes, dp, found, ip);
      if nodes[ip].kind == DIR {
        var empty := Isdirempty(ip);
        if !empty {
          assert Ent(ip, name) in nodes[dp].ents;
          return -1, s;
        }
      }
      Remove(dp, found, ip, last);
      r := 0;
    }
  }
}
