/** A whole job (mapreduce.c): what the mappers emit, the partitions they fill, and the reducer
    calls of any number of workers. Every emitted key is reduced once, with all its values. */
module MapReduceJob {
  import opened MapReduce
  import ReduceOrder

  // ---------------------------------------------------------------- partitions of what is emitted

  /** The pairs among the first n emitted that go to partition i, in the order of its lock. */
  function PartOf(emits: seq<Pair>, part: string -> int, i: int, n: nat): seq<Pair>
    requires n <= |emits|
  {
    if n == 0 then []
    else PartOf(emits, part, i, n - 1) + if part(emits[n - 1].key) == i then [emits[n - 1]] else []
  }

  lemma {:induction false} PartHolds(emits: seq<Pair>, part: string -> int, i: int, n: nat, p: Pair)
    requires n <= |emits|
    ensures p in PartOf(emits, part, i, n) <==> p in emits[..n] && part(p.key) == i
    decreases n
  {
    if n > 0 {
      PartHolds(emits, part, i, n - 1, p);
      assert emits[..n] == emits[..n - 1] + [emits[n - 1]];
    }
  }

  /** A key's partition has all its values. */
  lemma {:induction false} PartValues(emits: seq<Pair>, part: string -> int, key: string, n: nat)
    requires n <= |emits|
    ensures var l := PartOf(emits, part, part(key), n); ValuesOf(l, key) == ValuesUpTo(emits, key, n)
    decreases n
  {
    if n > 0 {
      PartValues(emits, part, key, n - 1);
      var l := PartOf(emits, part, part(key), n - 1);
      if part(emits[n - 1].key) == part(key) {
        ValuesSnoc(l, emits[n - 1], key);
        assert PartOf(emits, part, part(key), n) == l + [emits[n - 1]];
      } else {
        assert PartOf(emits, part, part(key), n) == l;
      }
    }
  }

  lemma ValuesSnoc(l: seq<Pair>, p: Pair, key: string)
    ensures ValuesOf(l + [p], key) == ValuesOf(l, key) + if p.key == key then [p.value] else []
  {
    ValuesPrefix(l, [p], key, |l|);
  }

  lemma {:induction false} ValuesPrefix(l: seq<Pair>, r: seq<Pair>, key: string, n: nat)
    requires n <= |l|
    ensures ValuesUpTo(l + r, key, n) == ValuesUpTo(l, key, n)
    decreases n
  {
    if n > 0 {
      ValuesPrefix(l, r, key, n - 1);
    }
  }

  // ---------------------------------------------------------------- reducer calls in a run

  /** The k-th step of the run is the call for key j of partition i. */
  ghost predicate Call(run: seq<ReduceOrder.State>, k: int, i: int, j: int) {
    && 0 < k < |run| && 0 <= i < |run[k].begun| == |run[k - 1].begun|
    && run[k - 1].begun[i] == j && run[k].begun[i] == j + 1
  }

  lemma BegunShaped(run: seq<ReduceOrder.State>, keys: seq<nat>, workers: nat, k: nat)
    requires ReduceOrder.Runs(run, keys, workers) && k < |run|
    ensures |run[k].begun| == |run[k].finished| == |keys| && ReduceOrder.Inv(run[k]) && run[k].keys == keys
  {
    ReduceOrder.InvHolds(run, keys, workers, k);
  }

  /** A step makes at most one call. */
  lemma BegunStep(run: seq<ReduceOrder.State>, keys: seq<nat>, workers: nat, k: nat, i: int)
    requires ReduceOrder.Runs(run, keys, workers) && 0 < k < |run| && 0 <= i < |keys|
    ensures |run[k].begun| == |run[k - 1].begun| == |keys|
    ensures run[k].begun[i] == run[k - 1].begun[i] || run[k].begun[i] == run[k - 1].begun[i] + 1
  {
    hide ReduceOrder.Inv, ReduceOrder.Exec, ReduceOrder.Enabled;
    BegunShaped(run, keys, workers, k - 1);
    var s, t := run[k - 1], run[k];
    assert ReduceOrder.Next(s, t);
    var w, a :| ReduceOrder.Shaped(s) && ReduceOrder.Enabled(s, w, a) && t == ReduceOrder.Exec(s, w, a);
    ReduceOrder.ExecBegun(s, w, a, i);
  }

  lemma {:induction false} BegunGrows(run: seq<ReduceOrder.State>, keys: seq<nat>, workers: nat, a: nat, b: nat, i: int)
    requires ReduceOrder.Runs(run, keys, workers) && a <= b < |run| && 0 <= i < |keys|
    ensures |run[a].begun| == |run[b].begun| == |keys| && run[a].begun[i] <= run[b].begun[i]
    decreases b
  {
    hide ReduceOrder.Inv, ReduceOrder.Runs;
    BegunShaped(run, keys, workers, a);
    if a < b {
      BegunGrows(run, keys, workers, a, b - 1, i);
      BegunStep(run, keys, workers, b, i);
    }
  }

  lemma {:induction false} FindCall(run: seq<ReduceOrder.State>, keys: seq<nat>, workers: nat, b: nat, i: int, j: nat)
    returns (k: nat)
    requires ReduceOrder.Runs(run, keys, workers) && b < |run| && 0 <= i < |keys|
    requires |run[b].begun| == |keys| && j < run[b].begun[i]
    ensures k <= b && Call(run, k, i, j)
    decreases b
  {
    hide ReduceOrder.Inv;
    k := b;
    if b > 0 {
      BegunStep(run, keys, workers, b, i);
      if j < run[b - 1].begun[i] {
        k := FindCall(run, keys, workers, b - 1, i, j);
      }
    }
  }

  lemma Started(run: seq<ReduceOrder.State>, keys: seq<nat>, workers: nat)
    requires ReduceOrder.Runs(run, keys, workers)
    ensures |run| > 0
  {}

  /** A finished partition's keys have each been called for, once. */
  lemma CalledOnce(run: seq<ReduceOrder.State>, keys: seq<nat>, workers: nat, i: int, j: nat) returns (k: nat)
    requires ReduceOrder.Runs(run, keys, workers) && 0 <= i < |keys| && j < keys[i]
    requires |run[|run| - 1].finished| == |keys| && run[|run| - 1].finished[i]
    ensures Call(run, k, i, j) && forall c :: Call(run, c, i, j) ==> c == k
  {
    hide ReduceOrder.Inv, ReduceOrder.Runs;
    Started(run, keys, workers);
    ReduceOrder.ClaimedOnce(run, keys, workers, |run| - 1, i);
    BegunShaped(run, keys, workers, |run| - 1);
    k := FindCall(run, keys, workers, |run| - 1, i, j);
    forall c | Call(run, c, i, j)
      ensures c == k
    {
      if c < k {
        BegunGrows(run, keys, workers, c, k - 1, i);
      } else if k < c {
        BegunGrows(run, keys, workers, k, c - 1, i);
      }
    }
  }

  lemma CallInRange(run: seq<ReduceOrder.State>, keys: seq<nat>, workers: nat, k: int, i: int, j: int)
    requires ReduceOrder.Runs(run, keys, workers) && Call(run, k, i, j)
    ensures 0 <= i < |keys| && 0 <= j < keys[i]
  {
    BegunShaped(run, keys, workers, k - 1);
    BegunShaped(run, keys, workers, k);
    assert ReduceOrder.PartOk(run[k - 1], i) && ReduceOrder.PartOk(run[k], i);
  }

  // ---------------------------------------------------------------- the job

  /** Partition i's list after its sort, and what its reducer calls are given in turn. */
  datatype Part = Part(sorted: seq<Pair>, given: seq<(string, seq<string>)>)

  /** What SortPartition and ReduceAll promise of a partition whose emitted pairs are c: the calls
      are as many as the keys, and right unless there is just one. */
  ghost predicate PartOk(c: seq<Pair>, x: Part) {
    && Sorted(x.sorted) && multiset(x.sorted) == multiset(c)
    && |x.given| == |Keys(c, |c|)|
    && (|Keys(c, |c|)| != 1 ==> x.given == Deliveries(x.sorted))
  }

  function NumKeys(parts: seq<Part>): seq<nat> {
    seq(|parts|, i requires 0 <= i < |parts| => |parts[i].given|)
  }

  /** Pairs are emitted, each to the partition of its key; the workers run to the end. */
  ghost predicate Job(emits: seq<Pair>, part: string -> int, parts: seq<Part>, run: seq<ReduceOrder.State>,
                      workers: nat) {
    && (forall key :: 0 <= part(key) < |parts|)
    && (forall i {:trigger parts[i]} :: 0 <= i < |parts| ==> PartOk(PartOf(emits, part, i, |emits|), parts[i]))
    && ReduceOrder.Runs(run, NumKeys(parts), workers)
    && |run[|run| - 1].finished| == |parts|
    && (forall i {:trigger parts[i]} :: 0 <= i < |parts| ==> run[|run| - 1].finished[i])
  }

  /** Some partition has exactly one key. */
  ghost predicate LoneKey(emits: seq<Pair>, part: string -> int, i: int) {
    var c := PartOf(emits, part, i, |emits|);
    |Keys(c, |c|)| == 1
  }

  /** The k-th step is the call that reduces the key. */
  ghost predicate Reduces(parts: seq<Part>, run: seq<ReduceOrder.State>, k: int, i: int, j: int, key: string) {
    Call(run, k, i, j) && 0 <= i < |parts| && 0 <= j < |parts[i].given| && parts[i].given[j].0 == key
  }

  /** A key's place among the calls of its partition, and no other. */
  lemma PlaceOf(emits: seq<Pair>, part: string -> int, x: Part, p: Pair) returns (j: nat)
    requires var c := PartOf(emits, part, part(p.key), |emits|); PartOk(c, x) && |Keys(c, |c|)| != 1
    requires p in emits
    ensures j < |x.given| && x.given[j].0 == p.key
    ensures multiset(x.given[j].1) == multiset(ValuesOf(emits, p.key))
    ensures forall g :: 0 <= g < |x.given| && x.given[g].0 == p.key ==> g == j
  {
    hide Sorted, Keys, Deliveries;
    var c := PartOf(emits, part, part(p.key), |emits|);
    DeliveredOnce(c, x.sorted);
    PartHolds(emits, part, part(p.key), |emits|, p);
    assert emits[..|emits|] == emits;
    j :| 0 <= j < |x.given| && x.given[j].0 == p.key;
    PartValues(emits, part, p.key, |emits|);
  }

  /** Partitions are given only keys that were emitted and are theirs. */
  lemma GivenEmitted(emits: seq<Pair>, part: string -> int, i: int, x: Part, j: int)
    requires var c := PartOf(emits, part, i, |emits|); PartOk(c, x) && |Keys(c, |c|)| != 1
    requires 0 <= j < |x.given|
    ensures part(x.given[j].0) == i && exists p :: p in emits && p.key == x.given[j].0
  {
    hide Sorted, Deliveries;
    var c := PartOf(emits, part, i, |emits|);
    DeliveredOnce(c, x.sorted);
    KeysAt(c, |c|, x.given[j].0);
    var n :| 0 <= n < |c| && c[n].key == x.given[j].0;
    PartHolds(emits, part, i, |emits|, c[n]);
    assert emits[..|emits|] == emits;
  }

  /** In a finished job without a lone key every emitted key is reduced by exactly one call of one
      worker, which is given each of its emitted values once. */
  lemma ReducedOnce(emits: seq<Pair>, part: string -> int, parts: seq<Part>, run: seq<ReduceOrder.State>,
                    workers: nat, p: Pair)
    returns (k: nat, i: nat, j: nat)
    requires Job(emits, part, parts, run, workers) && p in emits
    requires forall q :: 0 <= q < |parts| ==> !LoneKey(emits, part, q)
    ensures Reduces(parts, run, k, i, j, p.key) && multiset(parts[i].given[j].1) == multiset(ValuesOf(emits, p.key))
    ensures forall k', i', j' :: Reduces(parts, run, k', i', j', p.key) ==> k' == k && i' == i && j' == j
  {
    hide ReduceOrder.Runs;
    i := part(p.key);
    assert !LoneKey(emits, part, i);
    assert PartOk(PartOf(emits, part, i, |emits|), parts[i]);
    j := PlaceOf(emits, part, parts[i], p);
    k := CalledOnce(run, NumKeys(parts), workers, i, j);
    forall k', i', j' | Reduces(parts, run, k', i', j', p.key)
      ensures k' == k && i' == i && j' == j
    {
      assert PartOk(PartOf(emits, part, i', |emits|), parts[i']);
      assert !LoneKey(emits, part, i');
      GivenEmitted(emits, part, i', parts[i'], j');
    }
  }

  /** And no call is for a key that was not emitted. */
  lemma OnlyEmitted(emits: seq<Pair>, part: string -> int, parts: seq<Part>, run: seq<ReduceOrder.State>,
                    workers: nat, k: int, i: int, j: int)
    requires Job(emits, part, parts, run, workers) && Call(run, k, i, j)
    requires 0 <= i < |parts| ==> !LoneKey(emits, part, i)
    ensures 0 <= i < |parts| && 0 <= j < |parts[i].given| && exists p :: p in emits && p.key == parts[i].given[j].0
  {
    hide ReduceOrder.Runs;
    CallInRange(run, NumKeys(parts), workers, k, i, j);
    assert PartOk(PartOf(emits, part, i, |emits|), parts[i]);
    GivenEmitted(emits, part, i, parts[i], j);
  }
}
