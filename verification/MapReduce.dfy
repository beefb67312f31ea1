/** One partition of the MapReduce runtime (mapreduce.c): MR_Emit's growing list, the sort and its
    index of key ranges, Get, and the reduce loop over the keys. */
module MapReduce {
  import opened Wrappers
  import HashMap

  datatype Pair = Pair(key: string, value: string)

  // ---------------------------------------------------------------- order on keys

  /** strcmp */
  function Cmp(a: string, b: string): int {
    if a == "" then (if b == "" then 0 else -1)
    else if b == "" then 1
    else if a[0] != b[0] then a[0] as int - b[0] as int
    else Cmp(a[1..], b[1..])
  }

  lemma {:induction false} CmpEqual(a: string, b: string)
    ensures Cmp(a, b) == 0 <==> a == b
    ensures Cmp(a, b) <= 0 && Cmp(b, a) <= 0 ==> a == b
  {
    if a != "" && b != "" && a[0] == b[0] {
      CmpEqual(a[1..], b[1..]);
      assert a == [a[0]] + a[1..] && b == [b[0]] + b[1..];
    }
  }

  /** What qsort promises. */
  ghost predicate Sorted(l: seq<Pair>) {
    forall i, j {:trigger l[i], l[j]} :: 0 <= i < j < |l| ==> Cmp(l[i].key, l[j].key) <= 0
  }

  /** Equal keys are next to each other. */
  lemma SameBetween(l: seq<Pair>, i: int, j: int, k: int)
    requires Sorted(l) && 0 <= i <= j <= k < |l| && l[i].key == l[k].key
    ensures l[j].key == l[i].key
  {
    CmpEqual(l[i].key, l[j].key);
    CmpEqual(l[j].key, l[k].key);
  }

  // ---------------------------------------------------------------- groups of equal keys

  /** Position i begins a new key. */
  predicate Begins(l: seq<Pair>, i: int)
    requires 0 <= i < |l|
  {
    i == 0 || l[i].key != l[i - 1].key
  }

  /** How many keys begin before position n. */
  function Groups(l: seq<Pair>, n: nat): nat
    requires n <= |l|
  {
    if n == 0 then 0 else Groups(l, n - 1) + if Begins(l, n - 1) then 1 else 0
  }

  function Keys(l: seq<Pair>, n: nat): set<string>
    requires n <= |l|
  {
    if n == 0 then {} else Keys(l, n - 1) + {l[n - 1].key}
  }

  lemma {:induction false} KeysAt(l: seq<Pair>, n: nat, key: string)
    requires n <= |l|
    ensures key in Keys(l, n) <==> exists i :: 0 <= i < n && l[i].key == key
    decreases n
  {
    if n > 0 {
      KeysAt(l, n - 1, key);
    }
  }

  /** In a sorted list the groups are the distinct keys. */
  lemma {:induction false} GroupsAreKeys(l: seq<Pair>, n: nat)
    requires Sorted(l) && n <= |l|
    ensures |Keys(l, n)| == Groups(l, n)
    decreases n
  {
    hide Cmp;
    if n > 0 {
      GroupsAreKeys(l, n - 1);
      KeysAt(l, n - 1, l[n - 1].key);
      if l[n - 1].key in Keys(l, n - 1) {
        var i :| 0 <= i < n - 1 && l[i].key == l[n - 1].key;
        SameBetween(l, i, n - 2, n - 1);
        assert Keys(l, n) == Keys(l, n - 1);
      } else if n > 1 {
        KeysAt(l, n - 1, l[n - 2].key);
      }
    }
  }

  lemma {:induction false} GroupsGrow(l: seq<Pair>, n: nat, k: nat)
    requires n <= k <= |l|
    ensures Groups(l, n) <= Groups(l, k) <= Groups(l, n) + (k - n)
    ensures n > 0 ==> Groups(l, n) > 0
    decreases k
  {
    if n < k {
      GroupsGrow(l, n, k - 1);
    } else if n > 0 {
      GroupsGrow(l, 0, n - 1);
      if n > 1 {
        GroupsGrow(l, n - 1, n - 1);
      }
    }
  }

  /** With a single key nothing begins after the front, and all keys are the last one. */
  lemma {:induction false} OneGroup(l: seq<Pair>, n: nat)
    requires 0 < n <= |l|
    ensures Groups(l, n) == 1 <==> forall i :: 0 <= i < n ==> l[i].key == l[n - 1].key
    decreases n
  {
    if n > 1 {
      OneGroup(l, n - 1);
      GroupsGrow(l, n - 1, n - 1);
    }
  }

  /** In a sorted list the first and last keys agree only when there is one key. */
  lemma EndsAgree(l: seq<Pair>)
    requires Sorted(l) && l != []
    ensures l[0].key == l[|l| - 1].key <==> Groups(l, |l|) == 1
  {
    OneGroup(l, |l|);
    if l[0].key == l[|l| - 1].key {
      forall i | 0 <= i < |l|
        ensures l[i].key == l[|l| - 1].key
      {
        SameBetween(l, 0, i, |l| - 1);
      }
    }
  }

  // ---------------------------------------------------------------- the index

  /** The map sends exactly the keys at the beginnings to their groups. */
  ghost predicate MapOk(l: seq<Pair>, k: int, start: seq<int>, m: map<string, int>) {
    && 0 <= k <= |start| && (forall g {:trigger start[g]} :: 0 <= g < k ==> 0 <= start[g] < |l|)
    && (forall key {:trigger key in m} :: key in m ==> 0 <= m[key] < k && l[start[m[key]]].key == key)
    && (forall g {:trigger start[g]} :: 0 <= g < k ==> l[start[g]].key in m && m[l[start[g]].key] == g)
  }

  lemma MapNew(l: seq<Pair>, i: int, k: int, start: seq<int>, m: map<string, int>)
    requires MapOk(l, k, start, m) && 0 <= i < |l| && k < |start| && l[i].key !in m
    ensures MapOk(l, k + 1, start[k := i], m[l[i].key := k])
  {
    var start', m' := start[k := i], m[l[i].key := k];
    forall key | key in m'
      ensures 0 <= m'[key] < k + 1 && l[start'[m'[key]]].key == key
    {}
  }

  /** Where group g stops among the first n positions: at the next beginning, or at n. */
  ghost function Stop(start: seq<int>, k: int, n: int, g: int): int
    requires 0 <= g < k <= |start|
  {
    if g + 1 < k then start[g + 1] else n
  }

  ghost predicate SameKey(l: seq<Pair>, lo: int, hi: int) {
    0 <= lo < hi <= |l| && forall i :: lo <= i < hi ==> l[i].key == l[lo].key
  }

  /** From each beginning up to the next one, or to n, the keys are the same. */
  ghost predicate RangesOk(l: seq<Pair>, n: int, k: int, start: seq<int>) {
    && 0 <= n <= |l| && 0 <= k <= |start|
    && forall g {:trigger Stop(start, k, n, g)} :: 0 <= g < k ==> SameKey(l, start[g], Stop(start, k, n, g))
  }

  lemma RangesSame(l: seq<Pair>, i: int, k: int, start: seq<int>)
    requires RangesOk(l, i, k, start) && 0 < i < |l| && 0 < k && l[i].key == l[i - 1].key
    ensures RangesOk(l, i + 1, k, start)
  {
    forall g | 0 <= g < k
      ensures SameKey(l, start[g], Stop(start, k, i + 1, g))
    {
      assert SameKey(l, start[g], Stop(start, k, i, g));
    }
  }

  lemma RangesNew(l: seq<Pair>, i: int, k: int, start: seq<int>)
    requires RangesOk(l, i, k, start) && 0 <= i < |l| && k < |start|
    ensures RangesOk(l, i + 1, k + 1, start[k := i])
  {
    var start' := start[k := i];
    forall g | 0 <= g < k + 1
      ensures SameKey(l, start'[g], Stop(start', k + 1, i + 1, g))
    {
      if g < k {
        assert SameKey(l, start[g], Stop(start, k, i, g));
        assert Stop(start', k + 1, i + 1, g) == Stop(start, k, i, g);
      }
    }
  }

  lemma FreshKey(l: seq<Pair>, i: int, k: int, start: seq<int>, ends: seq<int>, m: map<string, int>)
    requires Sorted(l) && Filling(l, i, k, start, ends, m) && 0 <= i < |l| && Begins(l, i)
    ensures l[i].key !in m
  {
    hide Groups, Cmp, RangesOk;
    var key := l[i].key;
    if key in m {
      var s := start[m[key]];
      SameBetween(l, s, i - 1, i);
    }
  }

  /** Among the first n positions, groups 0..k begin at `start`, all but the last end where the
      next begins, and the map sends each key to its group. */
  ghost predicate Filling(l: seq<Pair>, n: int, k: int, start: seq<int>, ends: seq<int>, m: map<string, int>) {
    && 0 <= n <= |l| && 0 <= k <= |start| == |ends| && (n > 0 ==> k > 0)
    && (k > 0 ==> start[0] == 0)
    && (forall g {:trigger start[g]} :: 0 <= g < k ==> 0 <= start[g] < n)
    && (forall g {:trigger ends[g]} :: 0 <= g < k - 1 ==> ends[g] == Stop(start, k, n, g))
    && RangesOk(l, n, k, start)
    && MapOk(l, k, start, m)
  }

  /** The finished index: every group's range, and the groups cover the list. */
  ghost predicate Indexed(l: seq<Pair>, num: int, start: seq<int>, ends: seq<int>, m: map<string, int>) {
    && num == Groups(l, |l|) && |start| == |ends| == num
    && Filling(l, |l|, num, start, ends, m)
    && (num > 0 ==> ends[num - 1] == |l|)
  }

  lemma StopAfter(l: seq<Pair>, n: int, k: int, start: seq<int>, g: int)
    requires RangesOk(l, n, k, start) && 0 <= g < k
    ensures 0 <= start[g] < Stop(start, k, n, g) <= |l|
    ensures forall i :: start[g] <= i < Stop(start, k, n, g) ==> l[i].key == l[start[g]].key
  {
    assert SameKey(l, start[g], Stop(start, k, n, g));
  }

  lemma FillEnd(l: seq<Pair>, k: int, start: seq<int>, ends: seq<int>, n: int, m: map<string, int>)
    requires Filling(l, |l|, k, start, ends, m) && 0 < k == |start| == Groups(l, |l|) && n == |l|
    ensures Indexed(l, k, start, ends[k - 1 := n], m)
    ensures forall g {:trigger start[g]} :: 0 <= g < k ==> start[g] <= ends[k - 1 := n][g]
  {
    hide Groups, RangesOk, MapOk, Stop;
    var e := ends[k - 1 := n];
    forall g | 0 <= g < k - 1
      ensures e[g] == Stop(start, k, |l|, g)
    {
      assert ends[g] == Stop(start, k, |l|, g);
    }
    assert Filling(l, |l|, k, start, e, m);
    forall g | 0 <= g < k
      ensures start[g] <= e[g]
    {
      if g < k - 1 {
        StopAfter(l, |l|, k, start, g);
      }
    }
  }

  lemma SoleKey(l: seq<Pair>, i: int)
    requires l != [] && 0 <= i < |l| && Groups(l, |l|) == 1
    ensures l[i].key == l[|l| - 1].key
  {
    OneGroup(l, |l|);
  }

  lemma BeginsAt(l: seq<Pair>, i: int)
    requires 0 <= i < |l|
    ensures Begins(l, i) <==> i == 0 || l[i].key != l[i - 1].key
    ensures Groups(l, i + 1) == Groups(l, i) + if Begins(l, i) then 1 else 0
    ensures i > 0 ==> Groups(l, i) > 0
    ensures i == 0 ==> Groups(l, i) == 0
  {
    if i > 0 {
      GroupsGrow(l, i, i);
    }
  }

  lemma EmptyIndexed(l: seq<Pair>, start: seq<int>, ends: seq<int>)
    requires l == [] && start == ends == []
    requires Filling(l, 0, 0, start, ends, map[])
    ensures Indexed(l, 0, start, ends, map[])
  {}

  /** An unfilled index is no index: the key is not in the map. */
  lemma NotIndexed(l: seq<Pair>, start: seq<int>, ends: seq<int>)
    ensures !Indexed(l, 1, start, ends, map[])
  {
    if Indexed(l, 1, start, ends, map[]) {
      IndexRange(l, 1, start, ends, map[], 0);
    }
  }

  lemma MapIsKey(l: seq<Pair>, num: int, start: seq<int>, ends: seq<int>, m: map<string, int>, key: string)
    requires Indexed(l, num, start, ends, m) && key in m
    ensures 0 <= m[key] < num && 0 <= start[m[key]] < |l| && l[start[m[key]]].key == key
  {}

  lemma SameKeys(a: seq<Pair>, b: seq<Pair>)
    requires multiset(a) == multiset(b)
    ensures Keys(a, |a|) == Keys(b, |b|)
  {
    forall k
      ensures k in Keys(a, |a|) <==> k in Keys(b, |b|)
    {
      KeysAt(a, |a|, k);
      KeysAt(b, |b|, k);
      assert forall p :: p in a <==> p in multiset(a);
      assert forall p :: p in b <==> p in multiset(b);
      assert (exists i :: 0 <= i < |a| && a[i].key == k) <==> exists p :: p in a && p.key == k;
      assert (exists i :: 0 <= i < |b| && b[i].key == k) <==> exists p :: p in b && p.key == k;
    }
  }

  lemma IndexRange(l: seq<Pair>, num: int, start: seq<int>, ends: seq<int>, m: map<string, int>, g: int)
    requires Indexed(l, num, start, ends, m) && 0 <= g < num
    ensures 0 <= start[g] < ends[g] <= |l|
    ensures forall i :: start[g] <= i < ends[g] ==> l[i].key == l[start[g]].key
    ensures l[start[g]].key in m && m[l[start[g]].key] == g
  {
    hide Groups, RangesOk;
    StopAfter(l, |l|, num, start, g);
    if g + 1 < num {
      assert ends[g] == Stop(start, num, |l|, g);
    }
  }

  lemma FillNothing(l: seq<Pair>, start: seq<int>, ends: seq<int>)
    requires |start| == |ends|
    ensures Filling(l, 0, 0, start, ends, map[])
    ensures Groups(l, 0) == 0
  {}

  lemma FillSame(l: seq<Pair>, i: int, k: int, start: seq<int>, ends: seq<int>, m: map<string, int>)
    requires Filling(l, i, k, start, ends, m) && 0 < i < |l| && !Begins(l, i)
    ensures Filling(l, i + 1, k, start, ends, m)
  {
    hide Groups, RangesOk, MapOk;
    RangesSame(l, i, k, start);
    forall g | 0 <= g < k - 1
      ensures ends[g] == Stop(start, k, i + 1, g)
    {
      assert ends[g] == Stop(start, k, i, g);
    }
  }

  lemma FillNew(l: seq<Pair>, i: int, k: int, start: seq<int>, ends: seq<int>, m: map<string, int>)
    requires Sorted(l) && Filling(l, i, k, start, ends, m) && 0 <= i < |l| && Begins(l, i)
    requires k < |start| && (k == 0 <==> i == 0)
    ensures l[i].key !in m
    ensures Filling(l, i + 1, k + 1, start[k := i], if k > 0 then ends[k - 1 := i] else ends, m[l[i].key := k])
  {
    hide Groups, Cmp, RangesOk, MapOk, Begins, Sorted;
    var start' := start[k := i];
    var ends' := if k > 0 then ends[k - 1 := i] else ends;
    forall g | 0 <= g < k
      ensures ends'[g] == Stop(start', k + 1, i + 1, g)
    {
      if g < k - 1 {
        assert ends[g] == Stop(start, k, i, g);
      }
    }
    FreshKey(l, i, k, start, ends, m);
    RangesNew(l, i, k, start);
    MapNew(l, i, k, start, m);
  }

  // ---------------------------------------------------------------- the values of a key

  /** The values of a key among the first n pairs, in order. */
  function ValuesUpTo(l: seq<Pair>, key: string, n: nat): seq<string>
    requires n <= |l|
  {
    if n == 0 then [] else ValuesUpTo(l, key, n - 1) + if l[n - 1].key == key then [l[n - 1].value] else []
  }

  function ValuesOf(l: seq<Pair>, key: string): seq<string> {
    ValuesUpTo(l, key, |l|)
  }

  function Slice(l: seq<Pair>, a: int, b: int): seq<string>
    requires 0 <= a <= b <= |l|
  {
    seq(b - a, i requires 0 <= i < b - a => l[a + i].value)
  }

  lemma {:induction false} ValuesInRange(l: seq<Pair>, key: string, a: int, b: int, n: nat)
    requires 0 <= a <= b <= |l| && n <= |l|
    requires forall i :: 0 <= i < |l| ==> (l[i].key == key <==> a <= i < b)
    ensures ValuesUpTo(l, key, n) == Slice(l, if n < a then n else a, if n < b then n else b)
    decreases n
  {
    if n > 0 {
      ValuesInRange(l, key, a, b, n - 1);
    }
  }

  /** A key's range holds all its values. */
  lemma RangeHoldsValues(l: seq<Pair>, num: int, start: seq<int>, ends: seq<int>, m: map<string, int>, g: int)
    requires Sorted(l) && Indexed(l, num, start, ends, m) && 0 <= g < num
    ensures 0 <= start[g] < ends[g] <= |l| && ValuesOf(l, l[start[g]].key) == Slice(l, start[g], ends[g])
  {
    hide Groups, Cmp;
    IndexRange(l, num, start, ends, m, g);
    var key := l[start[g]].key;
    forall i | 0 <= i < |l| && l[i].key == key
      ensures start[g] <= i < ends[g]
    {
      GroupOf(l, num, start, ends, m, i);
      var h :| 0 <= h < num && start[h] <= i < ends[h];
      IndexRange(l, num, start, ends, m, h);
      assert m[l[start[h]].key] == h;
    }
    ValuesInRange(l, key, start[g], ends[g], |l|);
  }

  /** Every position lies in some group. */
  lemma GroupOf(l: seq<Pair>, num: int, start: seq<int>, ends: seq<int>, m: map<string, int>, i: int)
    requires Indexed(l, num, start, ends, m) && 0 <= i < |l|
    ensures exists g :: 0 <= g < num && start[g] <= i < ends[g]
  {
    hide Groups, RangesOk, MapOk;
    var g := num - 1;
    while g > 0 && start[g] > i
      invariant 0 <= g < num && (start[g] <= i || g > 0) && (g + 1 < num ==> i < start[g + 1])
    {
      g := g - 1;
    }
    assert g + 1 < num ==> ends[g] == Stop(start, num, |l|, g);
  }

  lemma CountSnoc<T>(a: seq<T>, x: T, v: T)
    ensures multiset(a + [x])[v] == multiset(a)[v] + if x == v then 1 else 0
  {}

  ghost function Count(l: seq<Pair>, p: Pair, n: nat): nat
    requires n <= |l|
  {
    if n == 0 then 0 else Count(l, p, n - 1) + if l[n - 1] == p then 1 else 0
  }

  lemma {:induction false} PairsCount(l: seq<Pair>, p: Pair, n: nat)
    requires n <= |l|
    ensures multiset(l[..n])[p] == Count(l, p, n)
    decreases n
  {
    if n > 0 {
      PairsCount(l, p, n - 1);
      assert l[..n] == l[..n - 1] + [l[n - 1]];
      CountSnoc(l[..n - 1], l[n - 1], p);
    }
  }

  lemma {:induction false} ValuesCount(l: seq<Pair>, key: string, v: string, n: nat)
    requires n <= |l|
    ensures multiset(ValuesUpTo(l, key, n))[v] == Count(l, Pair(key, v), n)
    decreases n
  {
    if n > 0 {
      ValuesCount(l, key, v, n - 1);
      if l[n - 1].key == key {
        CountSnoc(ValuesUpTo(l, key, n - 1), l[n - 1].value, v);
      }
    }
  }

  /** Sorting moves pairs about but leaves each key the same values. */
  lemma SortKeepsValues(a: seq<Pair>, b: seq<Pair>, key: string)
    requires multiset(a) == multiset(b)
    ensures multiset(ValuesOf(a, key)) == multiset(ValuesOf(b, key))
  {
    forall v
      ensures multiset(ValuesOf(a, key))[v] == multiset(ValuesOf(b, key))[v]
    {
      ValuesCount(a, key, v, |a|);
      ValuesCount(b, key, v, |b|);
      PairsCount(a, Pair(key, v), |a|);
      PairsCount(b, Pair(key, v), |b|);
      assert a[..|a|] == a && b[..|b|] == b;
    }
  }

  // ---------------------------------------------------------------- what reducing delivers

  /** Each key of the first n pairs where it begins, with all its values in the list. */
  function DeliverUpTo(l: seq<Pair>, n: nat): seq<(string, seq<string>)>
    requires n <= |l|
  {
    if n == 0 then []
    else DeliverUpTo(l, n - 1) + if Begins(l, n - 1) then [(l[n - 1].key, ValuesOf(l, l[n - 1].key))] else []
  }

  /** What the reducers of a sorted partition are given, call by call. */
  function Deliveries(l: seq<Pair>): seq<(string, seq<string>)> {
    DeliverUpTo(l, |l|)
  }

  lemma {:induction false} DeliverAt(l: seq<Pair>, n: nat, i: nat)
    requires i < n <= |l|
    ensures |DeliverUpTo(l, i)| == Groups(l, i) && |DeliverUpTo(l, n)| == Groups(l, n)
    ensures Begins(l, i) ==> Groups(l, i) < Groups(l, n)
    ensures Begins(l, i) ==> DeliverUpTo(l, n)[Groups(l, i)] == (l[i].key, ValuesOf(l, l[i].key))
    decreases n
  {
    if i == n - 1 {
      if i > 0 {
        DeliverAt(l, i, i - 1);
      }
    } else {
      DeliverAt(l, n - 1, i);
    }
  }

  /** Every delivery comes from a beginning. */
  lemma {:induction false} DeliveredFrom(l: seq<Pair>, n: nat, g: nat) returns (i: nat)
    requires n <= |l| && g < |DeliverUpTo(l, n)|
    ensures i < n && Begins(l, i) && Groups(l, i) == g
    ensures DeliverUpTo(l, n)[g] == (l[i].key, ValuesOf(l, l[i].key))
    decreases n
  {
    DeliverAt(l, n, n - 1);
    if g < |DeliverUpTo(l, n - 1)| {
      i := DeliveredFrom(l, n - 1, g);
    } else {
      i := n - 1;
    }
  }

  /** Every pair's key begins somewhere at or before the pair. */
  lemma {:induction false} BeginOf(l: seq<Pair>, j: nat) returns (i: nat)
    requires j < |l|
    ensures i <= j && Begins(l, i) && l[i].key == l[j].key
    decreases j
  {
    if Begins(l, j) {
      i := j;
    } else {
      i := BeginOf(l, j - 1);
    }
  }

  lemma BeginsDiffer(l: seq<Pair>, i: nat, j: nat)
    requires Sorted(l) && i < j < |l| && Begins(l, j)
    ensures l[i].key != l[j].key
  {
    if l[i].key == l[j].key {
      SameBetween(l, i, j - 1, j);
    }
  }

  /** Reducing a sorted list delivers exactly the keys in it, each once, with exactly the values
      that were paired with the key in the list before it was sorted. */
  lemma DeliveredOnce(c: seq<Pair>, l: seq<Pair>)
    requires Sorted(l) && multiset(l) == multiset(c)
    ensures |Deliveries(l)| == Groups(l, |l|)
    ensures forall g :: 0 <= g < |Deliveries(l)| ==>
              Deliveries(l)[g].0 in Keys(c, |c|)
                  && multiset(Deliveries(l)[g].1) == multiset(ValuesOf(c, Deliveries(l)[g].0))
    ensures forall g, h :: 0 <= g < h < |Deliveries(l)| ==> Deliveries(l)[g].0 != Deliveries(l)[h].0
    ensures forall p :: p in c ==> exists g :: 0 <= g < |Deliveries(l)| && Deliveries(l)[g].0 == p.key
  {
    hide Cmp, Begins, Keys, DeliverUpTo, Sorted, Groups, ValuesUpTo;
    AsManyDeliveries(l);
    forall g | 0 <= g < |Deliveries(l)|
      ensures Deliveries(l)[g].0 in Keys(c, |c|)
      ensures multiset(Deliveries(l)[g].1) == multiset(ValuesOf(c, Deliveries(l)[g].0))
    {
      var i := DeliveredFrom(l, |l|, g);
      KeysAt(l, |l|, l[i].key);
      SameKeys(l, c);
      SortKeepsValues(l, c, l[i].key);
    }
    forall g, h | 0 <= g < h < |Deliveries(l)|
      ensures Deliveries(l)[g].0 != Deliveries(l)[h].0
    {
      var i := DeliveredFrom(l, |l|, g);
      var j := DeliveredFrom(l, |l|, h);
      if j <= i {
        GroupsGrow(l, j, i);
      }
      BeginsDiffer(l, i, j);
    }
    forall p | p in c
      ensures exists g :: 0 <= g < |Deliveries(l)| && Deliveries(l)[g].0 == p.key
    {
      assert p in multiset(c) && p in multiset(l);
      var j: nat :| j < |l| && l[j] == p;
      var i := BeginOf(l, j);
      DeliverAt(l, |l|, i);
      assert Deliveries(l)[Groups(l, i)].0 == p.key;
    }
  }

  lemma AsManyDeliveries(l: seq<Pair>)
    ensures |Deliveries(l)| == Groups(l, |l|)
  {
    if l != [] {
      DeliverAt(l, |l|, 0);
    }
  }

  /** Group g of a finished index begins where g keys have begun before. */
  lemma {:induction false} StartIsBegin(l: seq<Pair>, num: int, start: seq<int>, ends: seq<int>, m: map<string, int>,
                                        g: int)
    requires Indexed(l, num, start, ends, m) && 0 <= g < num
    ensures 0 <= start[g] < |l| && Begins(l, start[g]) && Groups(l, start[g]) == g
    decreases g
  {
    hide RangesOk, MapOk, Stop, Filling, Begins, Groups;
    IndexRange(l, num, start, ends, m, g);
    if g == 0 {
      FirstStart(l, num, start, ends, m);
      BeginsAt(l, 0);
    } else {
      StartIsBegin(l, num, start, ends, m, g - 1);
      IndexRange(l, num, start, ends, m, g - 1);
      NextStart(l, num, start, ends, m, g);
      BeginsAt(l, start[g - 1]);
      NoneBegins(l, start[g - 1] + 1, start[g]);
      BeginsAt(l, start[g]);
    }
  }

  lemma FirstStart(l: seq<Pair>, num: int, start: seq<int>, ends: seq<int>, m: map<string, int>)
    requires Indexed(l, num, start, ends, m) && num > 0
    ensures start[0] == 0
  {}

  lemma NextStart(l: seq<Pair>, num: int, start: seq<int>, ends: seq<int>, m: map<string, int>, g: int)
    requires Indexed(l, num, start, ends, m) && 0 < g < num
    ensures ends[g - 1] == start[g]
  {
    assert ends[g - 1] == Stop(start, num, |l|, g - 1);
  }

  lemma {:induction false} NoneBegins(l: seq<Pair>, a: nat, b: nat)
    requires 0 < a <= b <= |l| && forall i :: a <= i < b ==> l[i].key == l[i - 1].key
    ensures Groups(l, b) == Groups(l, a)
    decreases b
  {
    if a < b {
      NoneBegins(l, a, b - 1);
    }
  }

  class Partition {
    var list: array<Pair>
    var next: int                       // next_to_fill
    var numKeys: int
    var start: seq<int>
    var ends: seq<int>
    var cur: seq<int>
    var index: HashMap.StringMap

    ghost predicate Filled()
      reads this
    {
      0 <= next <= list.Length && 0 < list.Length
    }

    ghost function Contents(): seq<Pair>
      reads this, list
      requires Filled()
    {
      list[..next]
    }

    /** init_partition_list, for one partition; `blank` is what malloc leaves in the list. */
    constructor (blank: Pair)
      ensures Filled() && Contents() == [] && fresh(list)
    {
      list := new Pair[2](_ => blank);
      next, numKeys, start, ends, cur := 0, 0, [], [], [];
      index := new HashMap.StringMap();
    }

    /** MR_Emit: the list doubles when it is full. */
    method Emit(key: string, value: string)
      requires Filled()
      modifies this`list, this`next, list
      ensures Filled() && Contents() == old(Contents()) + [Pair(key, value)]
      ensures list == old(list) || fresh(list)
      ensures list.Length == if old(next) == old(list.Length) then 2 * old(list.Length) else old(list.Length)
    {
      if next == list.Length {
        var bigger := new Pair[2 * list.Length](_ => Pair(key, value));
        var i := 0;
        while i < list.Length
          invariant 0 <= i <= list.Length && list == old(list) && next == old(next)
          invariant list[..] == old(list[..]) && bigger[..i] == list[..i] && fresh(bigger)
          modifies bigger
        {
          bigger[i] := list[i];
          i := i + 1;
        }
        list := bigger;
      }
      list[next] := Pair(key, value);
      next := next + 1;
    }

    /** The sorted list is indexed, and cur_idxs are within their ranges. */
    ghost predicate Ready()
      reads this, list, index
    {
      && Filled() && index.Valid() && Sorted(Contents())
      && Indexed(Contents(), numKeys, start, ends, index.m)
      && |cur| == numKeys && forall g {:trigger cur[g]} :: 0 <= g < numKeys ==> start[g] <= cur[g] <= ends[g]
    }

    /** The first loop of sort_partition counts the keys. */
    method CountKeys() returns (n: int, last: Option<string>)
      requires Filled()
      ensures n == Groups(Contents(), |Contents()|)
      ensures last == if next == 0 then None else Some(list[next - 1].key)
    {
      hide Cmp;
      ghost var l := Contents();
      n, last := 0, None;
      var i := 0;
      while i < next
        invariant 0 <= i <= next && n == Groups(l, i)
        invariant last == if i == 0 then None else Some(l[i - 1].key)
      {
        var key := list[i].key;
        assert l[i].key == key;
        if last != None {
          CmpEqual(key, last.value);
        }
        if last == None || Cmp(key, last.value) != 0 {
          n := n + 1;
          last := Some(key);
        }
        i := i + 1;
      }
    }

    /** Entry i has a new key: the group k before it ends and its own begins. */
    method OpenGroup(i: int, k: int)
      requires Filled() && 0 <= i < next && -1 <= k && k + 1 < numKeys == |start| == |ends| == |cur|
      requires index.Valid()
      modifies this`start, this`ends, this`cur, index
      ensures index.Valid() && index.m == old(index.m)[list[i].key := k + 1]
      ensures start == old(start)[k + 1 := i] && cur == old(cur)[k + 1 := i]
      ensures ends == if k > -1 then old(ends)[k := i] else old(ends)
    {
      hide HashMap.StringMap.Valid;
      if k > -1 {
        ends := ends[k := i];
      }
      start := start[k + 1 := i];
      var r := index.Set(list[i].key, k + 1, true, true);
      cur := cur[k + 1 := i];
    }

    /** The second loop of sort_partition fills the index. It starts with `tmp` as the first loop
        left it, at the last key, so it does nothing when there is one key only. */
    method FillIndex(tmp0: string)
      requires Filled() && 0 < next && tmp0 == list[next - 1].key && Sorted(Contents())
      requires index.Valid() && index.m == map[]
      requires numKeys == |start| == |ends| == |cur| == Groups(Contents(), |Contents()|)
      modifies this`start, this`ends, this`cur, index
      ensures index.Valid() && |start| == |ends| == |cur| == numKeys
      ensures numKeys == 1 ==> index.m == map[] && start == old(start) && ends == old(ends) && cur == old(cur)
      ensures numKeys != 1 ==> Ready() && cur == start
    {
      hide Cmp, Begins, Filling, Groups, Sorted, HashMap.StringMap.Valid;
      ghost var l := Contents();
      var tmp := tmp0;
      var k := -1;
      var i := 0;
      EndsAgree(l);
      FillNothing(l, start, ends);
      while i < next
        invariant 0 <= i <= next && index.Valid() && |start| == |ends| == |cur| == numKeys && -1 <= k < numKeys
        invariant numKeys == 1 ==> k == -1 && tmp == tmp0 && index.m == map[]
        invariant numKeys == 1 ==> start == old(start) && ends == old(ends) && cur == old(cur)
        invariant numKeys != 1 ==> k + 1 == Groups(l, i) && tmp == (if i == 0 then tmp0 else l[i - 1].key)
        invariant numKeys != 1 ==> Filling(l, i, k + 1, start, ends, index.m)
        invariant numKeys != 1 ==> forall g :: 0 <= g <= k ==> cur[g] == start[g]
      {
        var key := list[i].key;
        assert l[i].key == key;
        CmpEqual(key, tmp);
        GroupsGrow(l, i + 1, |l|);
        if numKeys == 1 {
          SoleKey(l, i);
        }
        BeginsAt(l, i);
        if Cmp(key, tmp) != 0 {
          FillNew(l, i, k + 1, start, ends, index.m);
          OpenGroup(i, k);
          k := k + 1;
          tmp := key;
        } else if numKeys != 1 {
          FillSame(l, i, k + 1, start, ends, index.m);
        }
        i := i + 1;
      }
      if k != -1 {
        FillEnd(l, k + 1, start, ends, next, index.m);
        ends := ends[k := next];
      }
    }

    /** What qsort does to the list. */
    method Arrange(sorted: seq<Pair>)
      requires Filled() && multiset(sorted) == multiset(Contents())
      modifies list
      ensures Filled() && Contents() == sorted
    {
      assert |sorted| == next by {
        assert |multiset(sorted)| == |sorted| && |multiset(Contents())| == |Contents()|;
      }
      var i := 0;
      while i < next
        invariant 0 <= i <= next && list[..i] == sorted[..i]
      {
        list[i] := sorted[i];
        i := i + 1;
      }
    }

    /** sort_partition. `sorted` is the order qsort puts the list in, and `junk` what malloc leaves
        in the index arrays. The index is right exactly when there are none or several keys; with
        one key it is never filled. */
    method SortPartition(sorted: seq<Pair>, junk: int -> int)
      requires Filled() && Sorted(sorted) && multiset(sorted) == multiset(Contents())
      modifies this`numKeys, this`start, this`ends, this`cur, this`index, list
      ensures Filled() && Contents() == sorted && fresh(index) && index.Valid()
      ensures numKeys == |Keys(sorted, |sorted|)|
      ensures numKeys != 1 <==> Ready()
      ensures numKeys != 1 ==> cur == start
      ensures numKeys == 1 ==> index.m == map[] && start == ends == cur == [junk(0)]
    {
      hide Cmp, Filling, Indexed, HashMap.StringMap.Valid, Sorted, Keys;
      Arrange(sorted);
      GroupsAreKeys(sorted, |sorted|);
      var n, last := CountKeys();
      numKeys := n;
      start, ends, cur := seq(n, junk), seq(n, junk), seq(n, junk);
      index := new HashMap.StringMap();
      if next > 0 {
        GroupsGrow(sorted, |sorted|, |sorted|);
        FillIndex(last.value);
      } else {
        FillNothing(sorted, start, ends);
        EmptyIndexed(sorted, start, ends);
      }
      if numKeys == 1 {
        NotIndexed(sorted, start, ends);
      }
    }

    /** The key's range in the index. */
    ghost predicate Known(key: string)
      reads this, index
    {
      key in index.m && 0 <= index.m[key] < numKeys && |start| == |ends| == |cur| == numKeys
    }

    /** Get: the key's next value, or NULL when its range is used up. */
    method Get(key: string) returns (v: Option<string>)
      requires Ready() && Known(key)
      modifies this`cur
      ensures Ready() && Known(key)
      ensures v == None <==> old(cur)[index.m[key]] == ends[index.m[key]]
      ensures v == None ==> cur == old(cur)
      ensures v != None ==>
                && 0 <= old(cur)[index.m[key]] < |Contents()|
                && v.value == Contents()[old(cur)[index.m[key]]].value
      ensures v != None ==> cur == old(cur)[index.m[key] := old(cur)[index.m[key]] + 1]
    {
      hide Cmp, Sorted, Groups, RangesOk, Filling, HashMap.StringMap.Valid;
      var found := index.Get(key);
      var g := found.value;
      IndexRange(Contents(), numKeys, start, ends, index.m, g);
      var i, e := cur[g], ends[g];
      if i >= e {
        return None;
      }
      cur := cur[g := cur[g] + 1];
      v := Some(list[i].value);
    }

    /** A reducer that calls Get until it returns NULL. */
    method Drain(key: string) returns (values: seq<string>)
      requires Ready() && Known(key) && cur[index.m[key]] == start[index.m[key]]
      modifies this`cur
      ensures Ready() && Known(key)
      ensures cur == old(cur)[index.m[key] := ends[index.m[key]]]
      ensures values == ValuesOf(Contents(), key)
    {
      hide Cmp, Sorted, Groups, RangesOk, Filling, HashMap.StringMap.Valid;
      ghost var l, g := Contents(), index.m[key];
      RangeHoldsValues(l, numKeys, start, ends, index.m, g);
      MapIsKey(l, numKeys, start, ends, index.m, key);
      values := [];
      while true
        invariant Ready() && Known(key) && start[g] <= cur[g] <= ends[g]
        invariant cur == old(cur)[g := cur[g]]
        invariant values == Slice(l, start[g], cur[g])
        decreases ends[g] - cur[g]
      {
        var v := Get(key);
        if v == None {
          return;
        }
        values := values + [v.value];
      }
    }

    /** The reduce loop of reduce_controller: each key in turn, with all its values. */
    method ReduceAll() returns (delivered: seq<(string, seq<string>)>)
      requires Ready() && cur == start
      modifies this`cur
      ensures Ready()
      ensures delivered == Deliveries(Contents()) && |delivered| == numKeys
    {
      hide Cmp, Sorted, Groups, RangesOk, Filling, Begins, DeliverUpTo, HashMap.StringMap.Valid;
      ghost var l := Contents();
      delivered := [];
      AsManyDeliveries(l);
      var i := 0;
      while i < numKeys
        invariant 0 <= i <= numKeys && Ready() && |delivered| == i
        invariant forall g :: i <= g < numKeys ==> cur[g] == start[g]
        invariant forall g :: 0 <= g < i ==> delivered[g] == Deliveries(l)[g]
      {
        IndexRange(l, numKeys, start, ends, index.m, i);
        StartIsBegin(l, numKeys, start, ends, index.m, i);
        DeliverAt(l, |l|, start[i]);
        var key := list[start[i]].key;
        assert l[start[i]].key == key;
        var values := Drain(key);
        delivered := delivered + [(key, values)];
        i := i + 1;
      }
    }

    /** Sorting and reducing a partition with no key or several: the keys emitted, and no others,
        are reduced once each, with each of their emitted values once. */
    method SortAndReduce(sorted: seq<Pair>, junk: int -> int) returns (delivered: seq<(string, seq<string>)>)
      requires Filled() && Sorted(sorted) && multiset(sorted) == multiset(Contents())
      requires |Keys(Contents(), |Contents()|)| != 1
      modifies this`numKeys, this`start, this`ends, this`cur, this`index, list
      ensures Filled() && delivered == Deliveries(sorted)
      ensures |delivered| == |Keys(old(Contents()), |old(Contents())|)|
      ensures forall i :: 0 <= i < |delivered| ==> delivered[i].0 in Keys(old(Contents()), |old(Contents())|)
      ensures forall i :: 0 <= i < |delivered| ==>
                multiset(delivered[i].1) == multiset(ValuesOf(old(Contents()), delivered[i].0))
      ensures forall i, j :: 0 <= i < j < |delivered| ==> delivered[i].0 != delivered[j].0
      ensures forall p :: p in old(Contents()) ==> exists i :: 0 <= i < |delivered| && delivered[i].0 == p.key
    {
      hide Cmp, Sorted, Groups, Filling, Indexed, HashMap.StringMap.Valid, Keys, DeliverUpTo;
      ghost var c := Contents();
      SameKeys(c, sorted);
      SortPartition(sorted, junk);
      delivered := ReduceAll();
      DeliveredOnce(c, sorted);
    }
  }

  // ---------------------------------------------------------------- partitioners

  /** MR_SortedPartition */
  function SortedPartition(key: int, num: int): int {
    key * num / 0x1_0000_0000
  }

  /** It keeps the order of 32-bit keys and stays within the partitions. */
  lemma SortedPartitionOrder(a: int, b: int, num: int)
    requires 0 <= a <= b < 0x1_0000_0000 && 0 < num
    ensures 0 <= SortedPartition(a, num) <= SortedPartition(b, num) < num
  {
    assert a * num <= b * num by {
      MulOrder(a, b, num);
    }
    assert b * num <= (0x1_0000_0000 - 1) * num by {
      MulOrder(b, 0x1_0000_0000 - 1, num);
    }
    DivOrder(a * num, b * num);
    DivBelow(b * num, num);
  }

  lemma MulOrder(a: int, b: int, n: int)
    requires a <= b && 0 <= n
    ensures a * n <= b * n
  {}

  lemma DivOrder(x: int, y: int)
    requires 0 <= x <= y
    ensures 0 <= x / 0x1_0000_0000 <= y / 0x1_0000_0000
  {}

  lemma DivBelow(x: int, n: int)
    requires 0 <= x < n * 0x1_0000_0000
    ensures x / 0x1_0000_0000 < n
  {}
}
