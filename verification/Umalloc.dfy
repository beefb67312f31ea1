/** The K&R storage allocator (umalloc.c:24-90): a circular free list of headers in address
    order. Addresses are counted in units of one header (8 bytes). */
module Umalloc {
  import opened Params

  const UNIT: nat := 8            // sizeof(Header)
  const MINCORE: nat := 4096

  datatype Header = Header(ptr: int, size: int)

  type Memory = map<int, Header>

  /** Units malloc reserves, header included; the sum is a 32-bit unsigned one. */
  function Units(nbytes: nat): nat {
    ((nbytes + UNIT - 1) % UINT) / UNIT + 1
  }

  /** The units after the header hold the bytes asked for exactly when the sum did not wrap. */
  lemma UnitsSuffice(nbytes: nat)
    requires nbytes < UINT
    ensures (Units(nbytes) - 1) * UNIT >= nbytes <==> nbytes + UNIT - 1 < UINT
  {
    if nbytes + UNIT - 1 >= UINT {
      assert (nbytes + UNIT - 1) % UINT == nbytes + UNIT - 1 - UINT;
    }
  }

  // ---------------------------------------------------------------- the free list

  /** Blocks in address order, `base` first: each points to the next and the last back to `base`;
      `base` is empty; no block overlaps or touches the next. */
  ghost predicate FreeList(mem: Memory, base: int, l: seq<int>) {
    && |l| >= 1 && l[0] == base
    && (forall i :: 0 <= i < |l| ==> l[i] in mem)
    && Sorted(l)
    && (forall i :: 0 <= i < |l| ==> Linked(mem, l, i))
  }

  ghost predicate Sorted(l: seq<int>) {
    forall i, j :: 0 <= i < j < |l| ==> l[i] < l[j]
  }

  /** The header at position i: where it points, its size, and the gap after it. */
  ghost predicate Linked(m: Memory, k: seq<int>, i: nat)
    requires i < |k|
  {
    && k[i] in m && m[k[i]].ptr == k[Succ(k, i)]
    && (if i == 0 then m[k[i]].size == 0
        else m[k[i]].size >= 1 && (i + 1 < |k| ==> k[i] + m[k[i]].size < k[i + 1]))
  }

  /** The position the pointer of block i leads to. */
  function Succ(l: seq<int>, i: nat): nat {
    if i + 1 < |l| then i + 1 else 0
  }

  ghost predicate InFree(mem: Memory, l: seq<int>, x: int)
    requires forall i :: 0 <= i < |l| ==> l[i] in mem
  {
    exists i :: Has(mem, l, i, x)
  }

  ghost predicate Has(mem: Memory, l: seq<int>, i: int, x: int) {
    1 <= i < |l| && l[i] in mem && l[i] <= x < l[i] + mem[l[i]].size
  }

  ghost predicate InLive(live: map<int, int>, x: int) {
    exists a :: a in live && a <= x < a + live[a]
  }

  /** Live blocks carry their size in their header, lie above `base` and do not overlap. */
  ghost predicate LiveOk(mem: Memory, base: int, live: map<int, int>) {
    && (forall a :: a in live ==> a in mem && mem[a].size == live[a] >= 1 && a > base)
    && (forall a, b :: a in live && b in live && a < b ==> a + live[a] <= b)
  }

  /** Every unit obtained from sbrk is in a free block or in a live one, never in both, and no
      other unit is: nothing is lost and nothing is handed out twice. */
  ghost predicate Conserved(mem: Memory, l: seq<int>, live: map<int, int>, obtained: set<int>)
    requires forall i :: 0 <= i < |l| ==> l[i] in mem
  {
    forall x {:trigger InFree(mem, l, x)} {:trigger InLive(live, x)} {:trigger x in obtained} ::
      && (x in obtained <==> InFree(mem, l, x) || InLive(live, x))
      && !(InFree(mem, l, x) && InLive(live, x))
  }

  ghost predicate HeapOk(mem: Memory, base: int, l: seq<int>, live: map<int, int>, obtained: set<int>) {
    FreeList(mem, base, l) && LiveOk(mem, base, live) && Conserved(mem, l, live, obtained)
  }

  // ---------------------------------------------------------------- insertion

  /** Position after which address b belongs: the last block below it. */
  ghost predicate Before(l: seq<int>, t: nat, b: int) {
    t < |l| && l[t] < b && (t + 1 < |l| ==> b < l[t + 1])
  }

  /** What free() does to the header memory once it has found the position t. */
  function Joined(mem: Memory, l: seq<int>, t: nat, b: int): Memory
    requires t < |l| && (forall i :: 0 <= i < |l| ==> l[i] in mem) && b in mem && b != l[t]
  {
    var p := l[t];
    var next := l[Succ(l, t)];
    var up := if b + mem[b].size == next then Header(mem[next].ptr, mem[b].size + mem[next].size)
              else Header(next, mem[b].size);
    var mem1 := mem[b := up];
    if p + mem1[p].size == b then mem1[p := Header(up.ptr, mem1[p].size + up.size)]
    else mem1[p := Header(b, mem1[p].size)]
  }

  ghost function JoinedList(mem: Memory, l: seq<int>, t: nat, b: int): seq<int>
    requires t < |l| && (forall i :: 0 <= i < |l| ==> l[i] in mem) && b in mem
  {
    var above := if t + 1 < |l| && b + mem[b].size == l[t + 1] then l[t + 2..] else l[t + 1..];
    l[..t + 1] + (if l[t] + mem[l[t]].size == b then [] else [b]) + above
  }

  /** What a block about to be freed at position t looks like. */
  ghost predicate Insertable(mem: Memory, base: int, l: seq<int>, t: nat, b: int) {
    && FreeList(mem, base, l) && Before(l, t, b) && b in mem && mem[b].size >= 1
    && (t > 0 ==> l[t] + mem[l[t]].size <= b)
    && (t + 1 < |l| ==> b + mem[b].size <= l[t + 1])
  }

  /** Replacing `r` blocks after position t by `ins` blocks keeps a free list, if the headers at
      and after t are right and the others are untouched. */
  ghost predicate Spliced(l: seq<int>, k: seq<int>, t: nat, ins: nat, r: nat) {
    && ins <= 1 && r <= 1 && t + 1 + r <= |l| && |k| == |l| + ins - r
    && (forall i {:trigger k[i]} :: 0 <= i <= t ==> k[i] == l[i])
    && (forall i {:trigger k[i]} :: t + ins < i < |k| ==> k[i] == l[i - ins + r])
    && (ins == 1 ==> k[t] < k[t + 1] && (t + 2 < |k| ==> k[t + 1] < k[t + 2]))
  }

  lemma SplicedSorted(l: seq<int>, k: seq<int>, t: nat, ins: nat, r: nat)
    requires Sorted(l) && Spliced(l, k, t, ins, r)
    ensures Sorted(k)
  {
    forall i, j | 0 <= i < j < |k| ensures k[i] < k[j] {
      if ins == 1 && i == t + 1 && j > t + 2 {
        assert k[t + 2] < k[j];
      } else if ins == 1 && j == t + 1 && i < t {
        assert k[i] < k[t];
      }
    }
  }

  lemma SplicedLinks(mem: Memory, base: int, l: seq<int>, m: Memory, k: seq<int>, t: nat, ins: nat, r: nat)
    requires FreeList(mem, base, l) && Spliced(l, k, t, ins, r)
    requires forall i {:trigger k[i]} :: 0 <= i < |k| && (i < t || i > t + ins) ==>
               k[i] in m && m[k[i]] == mem[k[i]]
    requires Linked(m, k, t) && (ins == 1 ==> Linked(m, k, t + 1))
    ensures FreeList(m, base, k)
  {
    SplicedSorted(l, k, t, ins, r);
    forall i | 0 <= i < |k| ensures Linked(m, k, i) {
      if i < t {
        assert Linked(mem, l, i);
      } else if i > t + ins {
        assert Linked(mem, l, i - ins + r);
      }
    }
    forall i | 0 <= i < |k| ensures k[i] in m {
      assert Linked(m, k, i);
    }
  }

  predicate JoinsUp(mem: Memory, l: seq<int>, t: nat, b: int)
    requires t < |l| && b in mem
  {
    t + 1 < |l| && b + mem[b].size == l[t + 1]
  }

  predicate JoinsDown(mem: Memory, l: seq<int>, t: nat, b: int)
    requires t < |l| && l[t] in mem
  {
    l[t] + mem[l[t]].size == b
  }

  lemma JoinShape(mem: Memory, base: int, l: seq<int>, t: nat, b: int)
    requires Insertable(mem, base, l, t, b)
    ensures Spliced(l, JoinedList(mem, l, t, b), t, if JoinsDown(mem, l, t, b) then 0 else 1,
                    if JoinsUp(mem, l, t, b) then 1 else 0)
    ensures !JoinsDown(mem, l, t, b) ==> JoinedList(mem, l, t, b)[t + 1] == b
  {
    var k := JoinedList(mem, l, t, b);
    if JoinsUp(mem, l, t, b) && t + 2 < |l| {
      assert l[t + 1] < l[t + 2];
    }
  }

  /** free() keeps the list well formed, whichever neighbours it joins. */
  lemma JoinKeepsList(mem: Memory, base: int, l: seq<int>, t: nat, b: int)
    requires Insertable(mem, base, l, t, b)
    ensures b != l[t]
    ensures FreeList(Joined(mem, l, t, b), base, JoinedList(mem, l, t, b))
  {
    hide Joined, JoinedList, Sorted;
    InsertableFacts(mem, base, l, t, b);
    JoinedHeaders(mem, l, t, b);
    var m, k := Joined(mem, l, t, b), JoinedList(mem, l, t, b);
    var ins := if JoinsDown(mem, l, t, b) then 0 else 1;
    var r := if JoinsUp(mem, l, t, b) then 1 else 0;
    JoinShape(mem, base, l, t, b);
    forall i {:trigger k[i]} | 0 <= i < |k| && (i < t || i > t + ins)
      ensures k[i] in m && m[k[i]] == mem[k[i]]
    {
      var j := if i < t then i else i - ins + r;
      assert k[i] == l[j] && l[j] != b && l[j] != l[t] && l[j] in mem;
    }
    assert Linked(mem, l, t) && (t + 1 < |l| ==> Linked(mem, l, t + 1));
    JoinLinks(mem, base, l, t, b);
    SplicedLinks(mem, base, l, m, k, t, ins, r);
  }

  lemma JoinLinks(mem: Memory, base: int, l: seq<int>, t: nat, b: int)
    requires Insertable(mem, base, l, t, b) && Linked(mem, l, t) && (t + 1 < |l| ==> Linked(mem, l, t + 1))
    requires Spliced(l, JoinedList(mem, l, t, b), t, if JoinsDown(mem, l, t, b) then 0 else 1,
                     if JoinsUp(mem, l, t, b) then 1 else 0)
    requires !JoinsDown(mem, l, t, b) ==> JoinedList(mem, l, t, b)[t + 1] == b
    ensures var m, k := Joined(mem, l, t, b), JoinedList(mem, l, t, b);
            Linked(m, k, t) && (!JoinsDown(mem, l, t, b) ==> Linked(m, k, t + 1))
  {
  }

  /** The size of the freed block once joined with the block above it. */
  function Gained(mem: Memory, l: seq<int>, t: nat, b: int, up: bool): int
    requires b in mem && (up ==> t + 1 < |l| && l[t + 1] in mem)
  {
    mem[b].size + if up then mem[l[t + 1]].size else 0
  }

  /** How joining rearranges the list and the sizes, in plain terms. */
  ghost predicate Rearranged(mem: Memory, l: seq<int>, m: Memory, k: seq<int>, t: nat, b: int, down: bool, up: bool) {
    && Spliced(l, k, t, if down then 0 else 1, if up then 1 else 0)
    && l[t] in mem && b in mem && l[t] in m && b in m && (up ==> l[t + 1] in mem && mem[l[t + 1]].size >= 1)
    && (down ==> t > 0 && l[t] + mem[l[t]].size == b) && (up ==> b + mem[b].size == l[t + 1])
    && (!down ==> k[t + 1] == b && m[b].size == Gained(mem, l, t, b, up))
    && m[l[t]].size == mem[l[t]].size + (if down then Gained(mem, l, t, b, up) else 0)
    && (forall i {:trigger k[i]} :: 0 <= i < |k| && (i < t || (i > t && k[i] != b)) ==>
         k[i] in m && k[i] in mem && m[k[i]] == mem[k[i]])
    && (forall i {:trigger k[i]} :: 0 <= i < |k| && k[i] == b ==> i == t + 1 && !down)
  }

  /** What is known of the addresses around a block to be freed. */
  lemma InsertableFacts(mem: Memory, base: int, l: seq<int>, t: nat, b: int)
    requires Insertable(mem, base, l, t, b)
    ensures t < |l| && b in mem && mem[b].size >= 1 && l[0] <= l[t] < b && Sorted(l)
    ensures forall i {:trigger l[i]} :: 0 <= i < |l| ==> l[i] in mem && l[i] != b && (i != t ==> l[i] != l[t])
    ensures l[t] + mem[l[t]].size == b ==> t > 0
    ensures t + 1 < |l| && b + mem[b].size == l[t + 1] ==> mem[l[t + 1]].size >= 1
  {
    assert Linked(mem, l, 0) && Linked(mem, l, t);
    if t + 1 < |l| {
      assert Linked(mem, l, t + 1);
    }
  }

  /** The headers that joining leaves. */
  lemma JoinedHeaders(mem: Memory, l: seq<int>, t: nat, b: int)
    requires t < |l| && (forall i {:trigger l[i]} :: 0 <= i < |l| ==> l[i] in mem) && b in mem && mem[b].size >= 1
    requires l[0] <= l[t] < b
    ensures var m, up, down := Joined(mem, l, t, b), JoinsUp(mem, l, t, b), JoinsDown(mem, l, t, b);
            && b in m && l[t] in m
            && (!down ==> m[b].size == Gained(mem, l, t, b, up))
            && m[l[t]].size == mem[l[t]].size + (if down then Gained(mem, l, t, b, up) else 0)
            && forall x {:trigger m[x]} {:trigger x in m} :: x in mem && x != b && x != l[t] ==>
                 x in m && m[x] == mem[x]
  {
  }

  lemma JoinRearranges(mem: Memory, base: int, l: seq<int>, t: nat, b: int)
    requires Insertable(mem, base, l, t, b)
    ensures b != l[t]
    ensures Rearranged(mem, l, Joined(mem, l, t, b), JoinedList(mem, l, t, b), t, b, JoinsDown(mem, l, t, b),
                       JoinsUp(mem, l, t, b))
  {
    JoinShape(mem, base, l, t, b);
    InsertableFacts(mem, base, l, t, b);
    JoinedHeaders(mem, l, t, b);
    hide Insertable, FreeList, Joined, JoinedList, Sorted;
    var m, k := Joined(mem, l, t, b), JoinedList(mem, l, t, b);
    var ins := if JoinsDown(mem, l, t, b) then 0 else 1;
    var r := if JoinsUp(mem, l, t, b) then 1 else 0;
    forall i {:trigger k[i]} | 0 <= i < |k| && (i < t || i > t + ins)
      ensures k[i] in m && k[i] in mem && m[k[i]] == mem[k[i]] && k[i] != b
    {
      assert k[i] == l[if i < t then i else i - ins + r];
    }
  }

  lemma RearrangedOnly(mem: Memory, l: seq<int>, m: Memory, k: seq<int>, t: nat, b: int, down: bool, up: bool, i: nat,
                       x: int)
    requires Rearranged(mem, l, m, k, t, b, down, up) && Has(m, k, i, x)
    requires forall i :: 0 <= i < |l| ==> l[i] in mem
    ensures InFree(mem, l, x) || b <= x < b + mem[b].size
  {
    var ins, r := if down then 0 else 1, if up then 1 else 0;
    if i < t {
      assert Has(mem, l, i, x);
    } else if i > t + ins {
      assert Has(mem, l, i - ins + r, x);
    } else if i == t && (!down || x < b) {
      assert Has(mem, l, t, x);
    } else {
      assert x >= b + mem[b].size ==> up && Has(mem, l, t + 1, x);
    }
  }

  lemma RearrangedKeeps(mem: Memory, l: seq<int>, m: Memory, k: seq<int>, t: nat, b: int, down: bool, up: bool,
                        i: nat, x: int)
    requires Rearranged(mem, l, m, k, t, b, down, up) && Has(mem, l, i, x)
    requires mem[l[t]].size >= 0 && mem[b].size >= 1
    requires forall i :: 0 <= i < |k| ==> k[i] in m
    ensures InFree(m, k, x)
  {
    var ins, r := if down then 0 else 1, if up then 1 else 0;
    if i <= t {
      assert k[i] == l[i];
      assert Has(m, k, i, x);
    } else if i > t + r {
      assert k[i + ins - r] == l[i];
      assert Has(m, k, i + ins - r, x);
    } else {
      assert Has(m, k, if down then t else t + 1, x);
    }
  }

  /** Joining adds exactly the units of the freed block to the free ones. */
  lemma JoinUnits(mem: Memory, base: int, l: seq<int>, t: nat, b: int, x: int)
    requires Insertable(mem, base, l, t, b) && b != l[t]
    requires forall i :: 0 <= i < |JoinedList(mem, l, t, b)| ==> JoinedList(mem, l, t, b)[i] in Joined(mem, l, t, b)
    ensures InFree(Joined(mem, l, t, b), JoinedList(mem, l, t, b), x) <==>
            InFree(mem, l, x) || b <= x < b + mem[b].size
  {
    var m, k := Joined(mem, l, t, b), JoinedList(mem, l, t, b);
    var down, up := JoinsDown(mem, l, t, b), JoinsUp(mem, l, t, b);
    JoinRearranges(mem, base, l, t, b);
    assert Linked(mem, l, t);
    assert up ==> Linked(mem, l, t + 1);
    if InFree(m, k, x) {
      var i :| Has(m, k, i, x);
      RearrangedOnly(mem, l, m, k, t, b, down, up, i, x);
    }
    if InFree(mem, l, x) {
      var i :| Has(mem, l, i, x);
      RearrangedKeeps(mem, l, m, k, t, b, down, up, i, x);
    }
    if b <= x < b + mem[b].size {
      assert Has(m, k, if down then t else t + 1, x);
    }
  }

  lemma LiveIsInsertable(mem: Memory, base: int, l: seq<int>, live: map<int, int>, obtained: set<int>, t: nat, b: int)
    requires HeapOk(mem, base, l, live, obtained) && b in live && Before(l, t, b)
    ensures Insertable(mem, base, l, t, b)
    ensures forall a :: a in live ==> a !in l
  {
    assert InLive(live, b);
    assert Linked(mem, l, t);
    if t > 0 && l[t] + mem[l[t]].size > b {
      assert Has(mem, l, t, b);
    }
    if t + 1 < |l| && b + mem[b].size > l[t + 1] {
      assert Linked(mem, l, t + 1);
      assert InLive(live, l[t + 1]);
      assert Has(mem, l, t + 1, l[t + 1]);
    }
    forall a | a in live ensures a !in l {
      assert InLive(live, a);
      if a in l {
        var i :| 0 <= i < |l| && l[i] == a;
        assert Linked(mem, l, i);
        assert Has(mem, l, i, a);
      }
    }
  }

  lemma InLiveWithout(mem: Memory, base: int, live: map<int, int>, b: int, x: int)
    requires LiveOk(mem, base, live) && b in live
    ensures InLive(live - {b}, x) <==> InLive(live, x) && !(b <= x < b + live[b])
  {
    if InLive(live, x) && !(b <= x < b + live[b]) {
      var a :| a in live && a <= x < a + live[a];
      assert a in live - {b} && (live - {b})[a] == live[a];
    }
  }

  /** free() of a live block keeps the heap: the block's units become free units. */
  lemma FreeKeepsHeap(mem: Memory, base: int, l: seq<int>, live: map<int, int>, obtained: set<int>, t: nat, b: int)
    requires HeapOk(mem, base, l, live, obtained) && b in live && Before(l, t, b)
    ensures b in mem && b != l[t]
    ensures HeapOk(Joined(mem, l, t, b), base, JoinedList(mem, l, t, b), live - {b}, obtained)
  {
    var m, k := Joined(mem, l, t, b), JoinedList(mem, l, t, b);
    LiveIsInsertable(mem, base, l, live, obtained, t, b);
    JoinKeepsList(mem, base, l, t, b);
    forall x
      ensures && (x in obtained <==> InFree(m, k, x) || InLive(live - {b}, x))
              && !(InFree(m, k, x) && InLive(live - {b}, x))
    {
      JoinUnits(mem, base, l, t, b, x);
      InLiveWithout(mem, base, live, b, x);
      assert b <= x < b + live[b] ==> InLive(live, x);
    }
  }

  // ---------------------------------------------------------------- allocation

  /** malloc taking the whole block at position j. */
  lemma TakeWhole(mem: Memory, base: int, l: seq<int>, live: map<int, int>, obtained: set<int>, j: nat)
    requires HeapOk(mem, base, l, live, obtained) && 1 <= j < |l|
    ensures var m := mem[l[j - 1] := Header(mem[l[j]].ptr, mem[l[j - 1]].size)];
            HeapOk(m, base, l[..j] + l[j + 1..], live[l[j] := mem[l[j]].size], obtained)
  {
    var m := mem[l[j - 1] := Header(mem[l[j]].ptr, mem[l[j - 1]].size)];
    var k := l[..j] + l[j + 1..];
    assert Linked(mem, l, j);
    TakeWholeList(mem, base, l, j);
    forall x ensures InFree(m, k, x) <==> InFree(mem, l, x) && !Has(mem, l, j, x) {
      WithoutBlock(mem, base, l, j, m, k, x);
    }
    forall x | l[j] <= x < l[j] + mem[l[j]].size ensures InFree(mem, l, x) {
      assert Has(mem, l, j, x);
    }
    forall c | c in live ensures c != l[j - 1] && c in m && m[c] == mem[c] {
      LiveIsNotFree(mem, base, l, live, obtained, c, j - 1);
    }
    TakeUnits(mem, base, l, live, obtained, l[j], mem[l[j]].size, m, k);
  }

  lemma LiveIsNotFree(mem: Memory, base: int, l: seq<int>, live: map<int, int>, obtained: set<int>, a: int, i: nat)
    requires HeapOk(mem, base, l, live, obtained) && a in live && i < |l|
    ensures a != l[i]
  {
    assert InLive(live, a);
    assert Linked(mem, l, i);
    if a == l[i] {
      assert Has(mem, l, i, a);
    }
  }

  lemma TakeWholeList(mem: Memory, base: int, l: seq<int>, j: nat)
    requires FreeList(mem, base, l) && 1 <= j < |l|
    ensures FreeList(mem[l[j - 1] := Header(mem[l[j]].ptr, mem[l[j - 1]].size)], base, l[..j] + l[j + 1..])
  {
    var m := mem[l[j - 1] := Header(mem[l[j]].ptr, mem[l[j - 1]].size)];
    var k := l[..j] + l[j + 1..];
    assert Linked(mem, l, j - 1) && Linked(mem, l, j);
    assert j + 1 < |l| ==> l[j] < l[j + 1];
    SplicedLinks(mem, base, l, m, k, j - 1, 0, 1);
  }

  lemma WithoutBlock(mem: Memory, base: int, l: seq<int>, j: nat, m: Memory, k: seq<int>, x: int)
    requires FreeList(mem, base, l) && 1 <= j < |l| && k == l[..j] + l[j + 1..] && FreeList(m, base, k)
    requires m == mem[l[j - 1] := Header(mem[l[j]].ptr, mem[l[j - 1]].size)]
    ensures InFree(m, k, x) <==> InFree(mem, l, x) && !Has(mem, l, j, x)
  {
    if InFree(m, k, x) {
      var i :| Has(m, k, i, x);
      assert Has(mem, l, if i < j then i else i + 1, x);
      if Has(mem, l, j, x) {
        TwoBlocks(mem, base, l, if i < j then i else i + 1, j, x);
      }
    }
    if InFree(mem, l, x) && !Has(mem, l, j, x) {
      var i :| Has(mem, l, i, x);
      assert Has(m, k, if i < j then i else i - 1, x);
    }
  }

  lemma TwoBlocks(mem: Memory, base: int, l: seq<int>, i: nat, j: nat, x: int)
    requires FreeList(mem, base, l) && Has(mem, l, i, x) && Has(mem, l, j, x)
    ensures i == j
  {
    assert Linked(mem, l, i) && Linked(mem, l, j);
    assert i + 1 < |l| ==> l[i] + mem[l[i]].size < l[i + 1];
    assert j + 1 < |l| ==> l[j] + mem[l[j]].size < l[j + 1];
  }

  /** Moving an interval of free units to a live block keeps the partition. */
  lemma TakeUnits(mem: Memory, base: int, l: seq<int>, live: map<int, int>, obtained: set<int>, a: int, u: int,
                  m: Memory, k: seq<int>)
    requires HeapOk(mem, base, l, live, obtained) && FreeList(m, base, k)
    requires a in m && m[a].size == u >= 1 && a > base
    requires forall x :: a <= x < a + u ==> InFree(mem, l, x)
    requires forall x :: InFree(m, k, x) <==> InFree(mem, l, x) && !(a <= x < a + u)
    requires forall c :: c in live && c != a ==> c in m && m[c] == mem[c]
    ensures HeapOk(m, base, k, live[a := u], obtained)
  {
    var taken := live[a := u];
    assert InFree(mem, l, a);
    assert a !in live by {
      if a in live {
        assert InLive(live, a);
      }
    }
    forall c | c in live ensures c + live[c] <= a || a + u <= c {
      assert c < a ==> (InLive(live, a) <== a < c + live[c]);
      assert InLive(live, c);
    }
    forall x
      ensures && (x in obtained <==> InFree(m, k, x) || InLive(taken, x))
              && !(InFree(m, k, x) && InLive(taken, x))
    {
      assert a <= x < a + u ==> InLive(taken, x) by {
        assert a in taken;
      }
      if InLive(live, x) {
        var c :| c in live && c <= x < c + live[c];
        assert c in taken && taken[c] == live[c];
      }
    }
  }

  /** The memory after malloc cuts n units off the top of the block at position j. */
  function Cut(mem: Memory, l: seq<int>, j: nat, n: int): Memory
    requires j < |l| && l[j] in mem
  {
    var p := l[j];
    var size := mem[p].size - n;
    var q := p + size;
    mem[p := Header(mem[p].ptr, size)][q := Header(if q in mem then mem[q].ptr else 0, n)]
  }

  lemma CutList(mem: Memory, base: int, l: seq<int>, j: nat, n: int)
    requires FreeList(mem, base, l) && 1 <= j < |l| && 1 <= n < mem[l[j]].size
    ensures FreeList(Cut(mem, l, j, n), base, l)
    ensures l[j] + mem[l[j]].size - n !in l
  {
    var m, q := Cut(mem, l, j, n), l[j] + mem[l[j]].size - n;
    assert Linked(mem, l, j);
    forall i | 0 <= i < |l| ensures l[i] != q && Linked(m, l, i) {
      assert Linked(mem, l, i);
      if i > j + 1 {
        assert l[j + 1] < l[i];
      }
    }
  }

  /** malloc cutting a block: the part below stays free. */
  lemma TakeTail(mem: Memory, base: int, l: seq<int>, live: map<int, int>, obtained: set<int>, j: nat, n: int)
    requires HeapOk(mem, base, l, live, obtained) && 1 <= j < |l| && 1 <= n < mem[l[j]].size
    ensures HeapOk(Cut(mem, l, j, n), base, l, live[l[j] + mem[l[j]].size - n := n], obtained)
  {
    var m, q := Cut(mem, l, j, n), l[j] + mem[l[j]].size - n;
    assert Linked(mem, l, j) && l[0] < l[j];
    CutList(mem, base, l, j, n);
    forall x ensures InFree(m, l, x) <==> InFree(mem, l, x) && !(q <= x < q + n) {
      CutUnits(mem, base, l, j, n, x);
    }
    forall x | q <= x < q + n ensures InFree(mem, l, x) {
      assert Has(mem, l, j, x);
    }
    forall c | c in live && c != q ensures c in m && m[c] == mem[c] {
      LiveIsNotFree(mem, base, l, live, obtained, c, j);
    }
    TakeUnits(mem, base, l, live, obtained, q, n, m, l);
  }

  lemma CutUnits(mem: Memory, base: int, l: seq<int>, j: nat, n: int, x: int)
    requires FreeList(mem, base, l) && 1 <= j < |l| && 1 <= n < mem[l[j]].size
    requires FreeList(Cut(mem, l, j, n), base, l) && l[j] + mem[l[j]].size - n !in l
    ensures InFree(Cut(mem, l, j, n), l, x) <==>
            InFree(mem, l, x) && !(l[j] + mem[l[j]].size - n <= x < l[j] + mem[l[j]].size)
  {
    var m, q := Cut(mem, l, j, n), l[j] + mem[l[j]].size - n;
    forall i | 0 <= i < |l| && i != j ensures m[l[i]] == mem[l[i]] {
      assert i < j ==> l[i] < l[j];
      assert j < i ==> l[j] < l[i];
    }
    if InFree(m, l, x) {
      var i :| Has(m, l, i, x);
      assert Has(mem, l, i, x);
      if q <= x < q + n {
        assert Has(mem, l, j, x);
        TwoBlocks(mem, base, l, i, j, x);
      }
    }
    if InFree(mem, l, x) && !(q <= x < q + n) {
      var i :| Has(mem, l, i, x);
      assert Has(m, l, i, x);
    }
  }

  /** The n units from address a. */
  ghost function Span(a: int, n: nat): (s: set<int>)
    ensures forall x :: x in s <==> a <= x < a + n
  {
    if n == 0 then {} else Span(a, n - 1) + {a + n - 1}
  }

  lemma HeapBelow(mem: Memory, base: int, l: seq<int>, live: map<int, int>, obtained: set<int>, a: int)
    requires HeapOk(mem, base, l, live, obtained)
    requires a > base && (forall x :: x in obtained ==> x < a)
    ensures forall i :: 0 <= i < |l| ==> l[i] < a
    ensures forall c :: c in live ==> c + live[c] <= a
  {
    forall i | 0 <= i < |l| ensures l[i] < a {
      assert Linked(mem, l, i);
      if i > 0 {
        assert Has(mem, l, i, l[i]);
        assert InFree(mem, l, l[i]);
      }
    }
    forall c | c in live ensures c + live[c] <= a {
      assert InLive(live, c + live[c] - 1);
    }
  }

  /** morecore: fresh units above everything form one live block, about to be freed. */
  lemma GrowKeepsHeap(mem: Memory, base: int, l: seq<int>, live: map<int, int>, obtained: set<int>, a: int, n: nat,
                      h: Header)
    requires HeapOk(mem, base, l, live, obtained) && n >= 1 && h.size == n
    requires a > base && (forall x :: x in obtained ==> x < a)
    ensures HeapOk(mem[a := h], base, l, live[a := n], obtained + Span(a, n))
    ensures Before(l, |l| - 1, a)
  {
    HeapBelow(mem, base, l, live, obtained, a);
    GrowList(mem, base, l, a, h);
    assert a !in live && a !in l;
    GrowLive(mem, base, live, a, n, h);
    var m, lv, ob := mem[a := h], live[a := n], obtained + Span(a, n);
    forall x
      ensures && (x in ob <==> InFree(m, l, x) || InLive(lv, x))
              && !(InFree(m, l, x) && InLive(lv, x))
    {
      GrowUnits(mem, base, l, live, a, n, h, x);
      assert InFree(mem, l, x) || InLive(live, x) <==> x in obtained;
    }
    assert Conserved(m, l, lv, ob);
  }

  lemma GrowLive(mem: Memory, base: int, live: map<int, int>, a: int, n: nat, h: Header)
    requires LiveOk(mem, base, live) && a > base && n >= 1 && h.size == n && a !in live
    requires forall c :: c in live ==> c + live[c] <= a
    ensures LiveOk(mem[a := h], base, live[a := n])
  {
  }

  lemma GrowList(mem: Memory, base: int, l: seq<int>, a: int, h: Header)
    requires FreeList(mem, base, l) && (forall i :: 0 <= i < |l| ==> l[i] < a)
    ensures FreeList(mem[a := h], base, l)
  {
    var m := mem[a := h];
    forall i | 0 <= i < |l| ensures Linked(m, l, i) {
      assert Linked(mem, l, i);
    }
  }

  lemma GrowUnits(mem: Memory, base: int, l: seq<int>, live: map<int, int>, a: int, n: int, h: Header, x: int)
    requires FreeList(mem, base, l) && FreeList(mem[a := h], base, l) && a !in l && a !in live
    ensures InFree(mem[a := h], l, x) <==> InFree(mem, l, x)
    ensures InLive(live[a := n], x) <==> InLive(live, x) || a <= x < a + n
  {
    if InFree(mem, l, x) {
      var i :| Has(mem, l, i, x);
      assert Has(mem[a := h], l, i, x);
    }
    if InFree(mem[a := h], l, x) {
      var i :| Has(mem[a := h], l, i, x);
      assert Has(mem, l, i, x);
    }
    if InLive(live, x) {
      var c :| c in live && c <= x < c + live[c];
      assert c in live[a := n] && live[a := n][c] == live[c];
    }
    if a <= x < a + n {
      assert a in live[a := n] && live[a := n][a] == n;
    }
  }

  // ---------------------------------------------------------------- the procedures

  /** The position a block that is not in the list, but above `base`, belongs after. */
  ghost function Position(l: seq<int>, b: int, k: nat): (t: nat)
    requires k < |l| && l[k] < b && b !in l
    ensures Before(l, t, b)
    decreases |l| - k
  {
    if k + 1 < |l| && l[k + 1] < b then Position(l, b, k + 1) else k
  }

  ghost predicate FitsAt(mem: Memory, l: seq<int>, p: int, f: nat, n: int) {
    && f < |l| && l[f] == p && l[f] in mem && l[Succ(l, f)] in mem
    && (mem[l[f]].size >= n || mem[l[Succ(l, f)]].size >= n)
  }

  lemma JoinFits(mem: Memory, base: int, l: seq<int>, t: nat, b: int)
    requires Insertable(mem, base, l, t, b) && b != l[t]
    requires FreeList(Joined(mem, l, t, b), base, JoinedList(mem, l, t, b))
    ensures FitsAt(Joined(mem, l, t, b), JoinedList(mem, l, t, b), l[t], t, mem[b].size)
  {
    JoinRearranges(mem, base, l, t, b);
    assert Linked(mem, l, t);
  }

  /** All of what free() does at position t. */
  lemma FreeEffect(mem: Memory, base: int, l: seq<int>, live: map<int, int>, obtained: set<int>, t: nat, b: int)
    requires HeapOk(mem, base, l, live, obtained) && b in live && Before(l, t, b)
    ensures b in mem && mem[b].size == live[b] && b != l[t] && mem[l[t]].ptr == l[Succ(l, t)]
    ensures var m, k := Joined(mem, l, t, b), JoinedList(mem, l, t, b);
            HeapOk(m, base, k, live - {b}, obtained) && FitsAt(m, k, l[t], t, live[b]) && l[t] in k
  {
    LiveIsInsertable(mem, base, l, live, obtained, t, b);
    FreeKeepsHeap(mem, base, l, live, obtained, t, b);
    JoinFits(mem, base, l, t, b);
    assert Linked(mem, l, t);
  }

  lemma NoLiveInFree(mem: Memory, base: int, l: seq<int>, live: map<int, int>, obtained: set<int>, j: nat, x: int)
    requires HeapOk(mem, base, l, live, obtained) && Has(mem, l, j, x)
    ensures x !in live
  {
    assert x in live ==> InLive(live, x);
  }

  lemma FitsLess(mem: Memory, l: seq<int>, p: int, n: int, k: int)
    requires k <= n && exists f :: FitsAt(mem, l, p, f, n)
    ensures exists f :: FitsAt(mem, l, p, f, k)
  {
    var f :| FitsAt(mem, l, p, f, n);
    assert FitsAt(mem, l, p, f, k);
  }

  lemma GrowEffect(mem: Memory, base: int, l: seq<int>, live: map<int, int>, obtained: set<int>, a: int, n: nat,
                   h: Header)
    requires HeapOk(mem, base, l, live, obtained) && n >= 1 && h.size == n
    requires a > base && (forall x :: x in obtained ==> x < a)
    ensures HeapOk(mem[a := h], base, l, live[a := n], obtained + Span(a, n))
    ensures live[a := n] - {a} == live
    ensures forall x :: x in obtained + Span(a, n) ==> x < a + n
  {
    GrowKeepsHeap(mem, base, l, live, obtained, a, n, h);
    HeapBelow(mem, base, l, live, obtained, a);
    assert a !in live;
  }

  lemma ListAbove(mem: Memory, base: int, l: seq<int>, live: map<int, int>, obtained: set<int>, j: nat)
    requires HeapOk(mem, base, l, live, obtained) && j < |l|
    ensures l[j] >= base
  {
    assert l[0] == base && (j > 0 ==> l[0] < l[j]);
  }

  lemma TakeEffect(mem: Memory, base: int, l: seq<int>, live: map<int, int>, obtained: set<int>, j: nat, n: int)
    requires HeapOk(mem, base, l, live, obtained) && 1 <= j < |l| && 1 <= n <= mem[l[j]].size
    ensures var q := l[j] + mem[l[j]].size - n; q !in live && q > base
    ensures mem[l[j]].size == n ==>
              HeapOk(mem[l[j - 1] := Header(mem[l[j]].ptr, mem[l[j - 1]].size)], base, l[..j] + l[j + 1..],
                     live[l[j] := n], obtained)
    ensures mem[l[j]].size != n ==>
              HeapOk(Cut(mem, l, j, n), base, l, live[l[j] + mem[l[j]].size - n := n], obtained)
  {
    var q := l[j] + mem[l[j]].size - n;
    assert l[0] < l[j];
    assert Has(mem, l, j, q);
    NoLiveInFree(mem, base, l, live, obtained, j, q);
    if mem[l[j]].size == n {
      TakeWhole(mem, base, l, live, obtained, j);
    } else {
      TakeTail(mem, base, l, live, obtained, j, n);
    }
  }

  /** A call of sbrk: the units asked for, and its answer, -1 for a refusal. */
  datatype Ask = Ask(units: int, answer: int)

  class Allocator {
    const base: int          // &base
    var mem: Memory          // the headers
    var freep: int           // 0 before the first call
    var brk: int             // sbrk's break, in units
    ghost var l: seq<int>    // the free list, in address order from `base`
    ghost var live: map<int, int>
    ghost var obtained: set<int>
    ghost var asked: seq<Ask>  // the calls of sbrk so far

    ghost predicate Valid()
      reads this
    {
      && 0 < base < brk && (forall x :: x in obtained ==> x < brk)
      && if freep == 0 then l == [] && live == map[] && obtained == {}
         else HeapOk(mem, base, l, live, obtained) && freep in l
    }

    constructor (base: int, brk: int)
      requires 0 < base < brk
      ensures Valid() && live == map[] && obtained == {} && asked == []
    {
      this.base, this.brk := base, brk;
      mem, freep := map[], 0;
      l, live, obtained, asked := [], map[], {}, [];
    }

    /** free's search from freep round the circular list, and its exit at the wrap. */
    method FindPlace(bp: int) returns (p: int, ghost j: nat)
      requires Valid() && freep != 0 && bp > base && bp !in l
      ensures j < |l| && p == l[j] && Before(l, j, bp)
    {
      ghost var t := Position(l, bp, 0);
      j :| j < |l| && l[j] == freep;
      p := freep;
      assert Linked(mem, l, j);
      while !(bp > p && bp < mem[p].ptr)
        invariant j < |l| && p == l[j] && Linked(mem, l, j)
        decreases if j <= t then t - j else t - j + |l|
      {
        if p >= mem[p].ptr && (bp > p || bp < mem[p].ptr) {
          break;
        }
        p := mem[p].ptr;
        j := Succ(l, j);
      }
    }

    /** free's two joins, with the block above and with the block below. */
    method Join(p: int, bp: int, ghost j: nat)
      requires j < |l| && p == l[j] && bp in mem && bp != p && (forall i :: 0 <= i < |l| ==> l[i] in mem)
      requires mem[p].ptr == l[Succ(l, j)]
      modifies this`mem, this`freep
      ensures mem == Joined(old(mem), l, j, bp) && freep == p
    {
      var next := mem[p].ptr;
      if bp + mem[bp].size == next {
        mem := mem[bp := Header(mem[next].ptr, mem[bp].size + mem[next].size)];
      } else {
        mem := mem[bp := Header(next, mem[bp].size)];
      }
      if p + mem[p].size == bp {
        mem := mem[p := Header(mem[bp].ptr, mem[p].size + mem[bp].size)];
      } else {
        mem := mem[p := Header(bp, mem[p].size)];
      }
      freep := p;
    }

    /** free(): the caller owns a live block. It becomes free, joined with its neighbours. */
    method Free(ap: int)
      requires Valid() && ap - 1 in live
      modifies this`mem, this`freep, this`l, this`live
      ensures Valid() && freep != 0 && live == old(live) - {ap - 1}
      ensures Fits(old(live[ap - 1]))
    {
      var bp := ap - 1;
      forall i | 0 <= i < |l| ensures bp != l[i] {
        LiveIsNotFree(mem, base, l, live, obtained, bp, i);
      }
      var p, j := FindPlace(bp);
      ghost var m0, l0 := mem, l;
      FreeEffect(mem, base, l, live, obtained, j, bp);
      Join(p, bp, j);
      l := JoinedList(m0, l0, j, bp);
      live := live - {bp};
    }

    /** freep's block or the one after it has at least n units. */
    ghost predicate Fits(n: int)
      reads this
    {
      exists f :: FitsAt(mem, l, freep, f, n)
    }

    /** The system's sbrk: fails, or grants units above everything granted before. */
    method Sbrk(n: nat) returns (a: int)
      requires brk > 0
      modifies this`brk, this`asked
      ensures a == -1 || a >= old(brk)
      ensures brk == if a == -1 then old(brk) else a + n
      ensures asked == old(asked) + [Ask(n, a)]
    {
      var fails: bool := *;
      if fails {
        a := -1;
      } else {
        var others: int := *;
        a := brk + if others < 0 then 0 else others;
        brk := a + n;
      }
      asked := asked + [Ask(n, a)];
    }

    /** Asks sbrk for at least MINCORE units, once, and frees what it grants. */
    method Morecore(nu: nat) returns (p: int, ghost granted: int)
      requires Valid() && freep != 0 && nu >= 1
      modifies this
      ensures Valid() && p in {0, freep} && freep != 0 && live == old(live)
      ensures asked == old(asked) + [Ask(Core(nu), granted)] && (p == 0 <==> granted == -1)
      ensures p == 0 ==> mem == old(mem) && l == old(l) && obtained == old(obtained) && freep == old(freep)
      ensures p != 0 ==> Fits(nu) && granted >= old(brk) && obtained == old(obtained) + Span(granted, Core(nu))
    {
      hide HeapOk, FitsAt;
      var n := if nu < MINCORE then MINCORE else nu;
      var hp := Sbrk(n);
      granted := hp;
      if hp == -1 {
        p := 0;
        return;
      }
      var h := Header(if hp in mem then mem[hp].ptr else 0, n);
      GrowEffect(mem, base, l, live, obtained, hp, n, h);
      mem := mem[hp := h];
      live := live[hp := n];
      obtained := obtained + Span(hp, n);
      Free(hp + 1);
      p := freep;
      FitsLess(mem, l, freep, n, nu);
    }

    /** The body of malloc's loop for a block, at position j, that is big enough. */
    method Take(ghost j: nat, prevp: int, p: int, nunits: nat) returns (r: int)
      requires Valid() && freep != 0 && 1 <= j < |l| && p == l[j] && prevp == l[j - 1]
      requires p in mem && prevp in mem && 1 <= nunits <= mem[p].size
      modifies this`mem, this`freep, this`l, this`live
      ensures Valid() && freep != 0 && r > 1
      ensures r - 1 !in old(live) && live == old(live)[r - 1 := nunits]
      ensures r - 1 == p + old(mem)[p].size - nunits && freep == prevp
    {
      hide HeapOk;
      ListAbove(mem, base, l, live, obtained, j - 1);
      var q := p;
      TakeEffect(mem, base, l, live, obtained, j, nunits);
      if mem[p].size == nunits {
        mem := mem[prevp := Header(mem[p].ptr, mem[prevp].size)];
        l := l[..j] + l[j + 1..];
        assert l[j - 1] == prevp;
      } else {
        ghost var m0 := mem;
        var size := mem[p].size - nunits;
        mem := mem[p := Header(mem[p].ptr, size)];
        q := p + size;
        mem := mem[q := Header(if q in mem then mem[q].ptr else 0, nunits)];
        assert mem == Cut(m0, l, j, nunits);
        assert l[j - 1] == prevp;
      }
      live := live[q := nunits];
      freep := prevp;
      return q + 1;
    }

    /** malloc's first call makes the list of the empty base alone. */
    method InitFreeList()
      requires Valid()
      modifies this`mem, this`freep, this`l
      ensures Valid() && freep != 0
      ensures old(freep) != 0 ==> mem == old(mem) && freep == old(freep) && l == old(l)
      ensures old(freep) == 0 ==> l == [base] && old(l) == [] && mem == old(mem)[base := Header(base, 0)]
    {
      if freep == 0 {
        mem, freep := mem[base := Header(base, 0)], base;
        l := [base];
        assert Linked(mem, l, 0);
      }
    }

    /** One trip of malloc's for loop round the list, from the block after freep back to freep. */
    method Scan(nunits: nat) returns (r: int)
      requires Valid() && freep != 0 && nunits >= 1
      modifies this`mem, this`freep, this`l, this`live
      ensures Valid() && freep != 0
      ensures r == 0 ==> mem == old(mem) && freep == old(freep) && l == old(l) && live == old(live)
      ensures r == 0 <==> !old(Room(mem, l, nunits))
      ensures r != 0 ==> r - 1 !in old(live) && live == old(live)[r - 1 := nunits]
      ensures r != 0 ==> NextFit(old(mem), old(l), old(freep), nunits, r - 1, freep)
    {
      hide FreeList, Room, Scanned, Passed;
      ghost var f: nat :| f < |l| && l[f] == freep;
      ghost var j: nat := Succ(l, f);
      Advance(mem, base, l, f);
      ScanStart(mem, l, f, nunits);
      var prevp := freep;
      var p := mem[prevp].ptr;
      while true
        invariant Valid() && mem == old(mem) && freep == old(freep) && l == old(l) && live == old(live)
        invariant f < |l| && l[f] == freep && j < |l| && p == l[j] && prevp == l[Pred(l, j)]
        invariant Scanned(mem, l, f, j, nunits)
        decreases if j <= f then f - j else f - j + |l|
      {
        Advance(mem, base, l, j);
        if mem[p].size >= nunits {
          ghost var m0, l0 := mem, l;
          RoomAt(mem, l, j, nunits);
          r := Take(j, prevp, p, nunits);
          assert FirstFit(m0, l0, f, j, nunits);
          return;
        }
        if p == freep {
          AllScanned(mem, base, l, f, j, nunits);
          return 0;
        }
        ScanStep(mem, base, l, f, j, nunits);
        prevp := p;
        p := mem[p].ptr;
        j := Succ(l, j);
      }
    }

    /** malloc(): next fit from freep. When a whole trip finds nothing, morecore adds a block that
        is big enough and the trip starts again from freep. So sbrk is asked exactly when no free
        block is big enough, once, and malloc fails exactly when sbrk then refuses. */
    method Malloc(nbytes: nat) returns (r: int, ghost granted: int)
      requires Valid() && Units(nbytes) * UNIT < UINT / 2
      modifies this
      ensures Valid() && freep != 0
      ensures r == 0 ==> live == old(live) && obtained == old(obtained)
      ensures r != 0 ==> r - 1 !in old(live) && live == old(live)[r - 1 := Units(nbytes)]
      ensures obtained == old(obtained) ||
              (granted >= old(brk) && obtained == old(obtained) + Span(granted, Core(Units(nbytes))))
      ensures old(Room(mem, l, Units(nbytes))) ==>
                r != 0 && NextFit(old(mem), old(l), old(freep), Units(nbytes), r - 1, freep)
      ensures old(Room(mem, l, Units(nbytes))) ==> r != 0 && obtained == old(obtained) && asked == old(asked)
      ensures !old(Room(mem, l, Units(nbytes))) ==>
                asked == old(asked) + [Ask(Core(Units(nbytes)), granted)] && (r == 0 <==> granted == -1)
    {
      hide HeapOk, FitsAt, NextFit, Room;
      var nunits := Units(nbytes);
      NoList(mem, nunits);
      OnlyBase(mem[base := Header(base, 0)], base, nunits);
      InitFreeList();
      ghost var grown := false;
      granted := 0;
      while true
        invariant Valid() && freep != 0 && live == old(live)
        invariant !grown ==> obtained == old(obtained) && brk == old(brk) && asked == old(asked)
        invariant grown ==> asked == old(asked) + [Ask(Core(nunits), granted)] && granted != -1
        invariant !grown && old(freep) != 0 ==> mem == old(mem) && l == old(l) && freep == old(freep)
        invariant !grown ==> (Room(mem, l, nunits) <==> old(Room(mem, l, Units(nbytes))))
        invariant grown ==> Room(mem, l, nunits) && !old(Room(mem, l, nunits))
        invariant grown ==> granted >= old(brk) && obtained == old(obtained) + Span(granted, Core(nunits))
        decreases !grown
      {
        r := Scan(nunits);
        if r != 0 {
          return;
        }
        var p;
        p, granted := Morecore(nunits);
        if p == 0 {
          return;
        }
        FitsRoom(mem, base, l, live, obtained, freep, nunits);
        grown := true;
      }
    }
  }

  lemma FitsRoom(mem: Memory, base: int, l: seq<int>, live: map<int, int>, obtained: set<int>, p: int, n: int)
    requires HeapOk(mem, base, l, live, obtained) && n >= 1 && exists f :: FitsAt(mem, l, p, f, n)
    ensures Room(mem, l, n)
  {
    var f :| FitsAt(mem, l, p, f, n);
    assert Linked(mem, l, f) && Linked(mem, l, Succ(l, f));
  }

  /** Some free block has n units. */
  ghost predicate Room(mem: Memory, l: seq<int>, n: int) {
    exists i :: 1 <= i < |l| && l[i] in mem && mem[l[i]].size >= n
  }

  /** The blocks passed on the way from f to j are too small. */
  ghost predicate Scanned(mem: Memory, l: seq<int>, f: int, j: int, n: int) {
    forall i :: 0 <= i < |l| && Passed(f, i, j) ==> l[i] in mem && mem[l[i]].size < n
  }

  /** Before the first call, and with the base alone, there is no room. */
  lemma NoList(mem: Memory, n: int)
    ensures !Room(mem, [], n)
  {}

  lemma OnlyBase(mem: Memory, base: int, n: int)
    ensures !Room(mem, [base], n)
  {}

  lemma RoomAt(mem: Memory, l: seq<int>, j: int, n: int)
    requires 1 <= j < |l| && l[j] in mem && mem[l[j]].size >= n
    ensures Room(mem, l, n)
  {}

  /** Block j is the first, from the one after f on, that is big enough. */
  ghost predicate FirstFit(mem: Memory, l: seq<int>, f: int, j: int, n: int) {
    0 <= f < |l| && 0 <= j < |l| && l[j] in mem && mem[l[j]].size >= n && Scanned(mem, l, f, j, n)
  }

  /** Next fit: the n units at b are the top of the first block that is big enough from the one after
      p on, and the search goes on from the block before it. */
  ghost predicate NextFit(mem: Memory, l: seq<int>, p: int, n: int, b: int, next: int) {
    exists f, j {:trigger FirstFit(mem, l, f, j, n)} ::
      FirstFit(mem, l, f, j, n) && l[f] == p && b == l[j] + mem[l[j]].size - n && next == l[Pred(l, j)]
  }

  lemma Advance(mem: Memory, base: int, l: seq<int>, j: nat)
    requires FreeList(mem, base, l) && j < |l|
    ensures l[j] in mem && Succ(l, j) < |l| && mem[l[j]].ptr == l[Succ(l, j)] && Pred(l, Succ(l, j)) == j
    ensures l[Pred(l, j)] in mem && (mem[l[j]].size >= 1 ==> j >= 1)
  {
    assert Linked(mem, l, j) && Linked(mem, l, Pred(l, j));
  }

  /** Back at freep, its block too small as well, there is no room at all. */
  lemma AllScanned(mem: Memory, base: int, l: seq<int>, f: nat, j: nat, n: int)
    requires FreeList(mem, base, l) && f < |l| && j < |l| && l[j] == l[f] && Scanned(mem, l, f, j, n)
    requires l[f] in mem && mem[l[f]].size < n
    ensures !Room(mem, l, n)
  {
  }

  lemma ScanStart(mem: Memory, l: seq<int>, f: nat, n: int)
    requires f < |l|
    ensures Scanned(mem, l, f, Succ(l, f), n)
  {
  }

  lemma ScanStep(mem: Memory, base: int, l: seq<int>, f: nat, j: nat, n: int)
    requires FreeList(mem, base, l) && f < |l| && j < |l| && Scanned(mem, l, f, j, n)
    requires j == f || (l[j] in mem && mem[l[j]].size < n && l[j] != l[f])
    ensures j != f ==> Scanned(mem, l, f, Succ(l, j), n)
  {
  }

  function Core(nu: nat): nat {
    if nu < MINCORE then MINCORE else nu
  }

  /** The position before i in the circle. */
  function Pred(l: seq<int>, i: nat): nat
    requires i < |l|
  {
    if i == 0 then |l| - 1 else i - 1
  }

  /** Going round from the position after f, i comes before j. */
  predicate Passed(f: int, i: int, j: int) {
    if f < j then f < i < j else i > f || i < j
  }
}
