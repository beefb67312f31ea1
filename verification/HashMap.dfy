/** The string map of mapreduce.c: chained buckets that double when full, against a finite map. */
module HashMap {
  import opened Params
  import opened Wrappers

  /** A map_node_t; a bucket is the sequence of the nodes linked from it. */
  datatype Node = Node(hash: int, key: string, value: int)

  /** map_hash over the first k characters, as 32-bit arithmetic. */
  function HashUpTo(key: string, k: nat): bv32
    requires k <= |key|
  {
    if k == 0 then 5381
    else ((HashUpTo(key, k - 1) << 5) + HashUpTo(key, k - 1)) ^ ((key[k - 1] as int % 256) as bv32)
  }

  function Hash(key: string): (h: int)
    ensures 0 <= h < UINT
  {
    HashUpTo(key, |key|) as int
  }

  // ---------------------------------------------------------------- the representation

  ghost predicate NodeOk(x: Node, m: map<string, int>) {
    x.hash == Hash(x.key) && x.key in m && m[x.key] == x.value
  }

  ghost predicate Has(l: seq<Node>, key: string) {
    exists i :: 0 <= i < |l| && l[i].key == key
  }

  /** The list holds exactly the pairs of m, each once. */
  ghost predicate RepList(l: seq<Node>, m: map<string, int>) {
    && (forall i :: 0 <= i < |l| ==> NodeOk(l[i], m))
    && (forall i, j :: 0 <= i < j < |l| ==> l[i].key != l[j].key)
    && (forall k :: k in m ==> Has(l, k))
  }

  /** The buckets hold exactly the pairs of m, each once and in its own bucket. nbuckets is a power
      of two, so that hash & (nbuckets - 1) is the remainder. */
  ghost predicate Rep(bs: seq<seq<Node>>, m: map<string, int>) {
    && (forall b, i {:trigger bs[b][i]} :: 0 <= b < |bs| && 0 <= i < |bs[b]| ==>
         NodeOk(bs[b][i], m) && bs[b][i].hash % |bs| == b)
    && (forall b, i, j {:trigger bs[b][i], bs[b][j]} :: 0 <= b < |bs| && 0 <= i < j < |bs[b]| ==>
         bs[b][i].key != bs[b][j].key)
    && (forall k {:trigger k in m} :: k in m ==> |bs| > 0 && Has(bs[Hash(k) % |bs|], k))
  }

  ghost predicate PowerOfTwo(n: int) {
    n == 1 || (n > 1 && n % 2 == 0 && PowerOfTwo(n / 2))
  }

  lemma ListPush(l: seq<Node>, m: map<string, int>, x: Node)
    requires RepList(l, m) && x.key !in m && x.hash == Hash(x.key)
    ensures RepList([x] + l, m[x.key := x.value])
  {
    hide Hash;
    var r, m' := [x] + l, m[x.key := x.value];
    forall k | k in m'
      ensures Has(r, k)
    {
      if k != x.key {
        assert Has(l, k);
        var i :| 0 <= i < |l| && l[i].key == k;
        assert r[i + 1].key == k;
      } else {
        assert r[0].key == k;
      }
    }
  }

  lemma ListPop(l: seq<Node>, m: map<string, int>)
    requires RepList(l, m) && l != []
    ensures RepList(l[1..], m - {l[0].key}) && l[0].key in m
  {
    hide Hash;
    var r, m' := l[1..], m - {l[0].key};
    forall k | k in m'
      ensures Has(r, k)
    {
      assert Has(l, k);
      var i :| 0 <= i < |l| && l[i].key == k;
      assert r[i - 1].key == k;
    }
  }

  lemma HasPushed(l: seq<Node>, x: Node, key: string)
    ensures Has(l, key) || x.key == key ==> Has([x] + l, key)
  {
    if i :| 0 <= i < |l| && l[i].key == key {
      assert ([x] + l)[i + 1].key == key;
    }
    assert ([x] + l)[0] == x;
  }

  lemma BucketPush(bs: seq<seq<Node>>, m: map<string, int>, x: Node)
    requires Rep(bs, m) && |bs| > 0 && x.key !in m && x.hash == Hash(x.key)
    ensures 0 <= x.hash % |bs| < |bs|
    ensures var b := x.hash % |bs|; Rep(bs[b := [x] + bs[b]], m[x.key := x.value])
  {
    hide Hash, Has;
    var b := x.hash % |bs|;
    var bs', m' := bs[b := [x] + bs[b]], m[x.key := x.value];
    forall k | k in m'
      ensures Has(bs'[Hash(k) % |bs|], k)
    {
      HasPushed(bs[b], x, k);
    }
    forall c, i | 0 <= c < |bs'| && 0 <= i < |bs'[c]|
      ensures NodeOk(bs'[c][i], m') && bs'[c][i].hash % |bs| == c
    {
      if c == b && i > 0 {
        assert bs'[c][i] == bs[c][i - 1];
      }
    }
    forall c, i, j | 0 <= c < |bs'| && 0 <= i < j < |bs'[c]|
      ensures bs'[c][i].key != bs'[c][j].key
    {
      if c == b {
        assert bs'[c][j] == bs[c][j - 1];
        assert i > 0 ==> bs'[c][i] == bs[c][i - 1];
        assert NodeOk(bs[c][j - 1], m);
      }
    }
  }

  lemma BucketPop(bs: seq<seq<Node>>, m: map<string, int>, b: int)
    requires Rep(bs, m) && 0 <= b < |bs| && bs[b] != []
    ensures NodeOk(bs[b][0], m)
    ensures Rep(bs[b := bs[b][1..]], m - {bs[b][0].key})
  {
    hide Hash;
    var x := bs[b][0];
    var bs', m' := bs[b := bs[b][1..]], m - {x.key};
    forall k | k in m'
      ensures Has(bs'[Hash(k) % |bs|], k)
    {
      var c := Hash(k) % |bs|;
      assert Has(bs[c], k);
      var i :| 0 <= i < |bs[c]| && bs[c][i].key == k;
      assert bs'[c][if c == b then i - 1 else i].key == k;
    }
    forall c, i | 0 <= c < |bs'| && 0 <= i < |bs'[c]|
      ensures NodeOk(bs'[c][i], m') && bs'[c][i].hash % |bs| == c
    {
      if c == b {
        assert bs'[c][i] == bs[c][i + 1];
        assert bs[c][0].key != bs[c][i + 1].key;
      } else {
        assert bs[c][i].hash % |bs| == c;
        assert NodeOk(bs[c][i], m) && x.hash % |bs| == b;
      }
    }
    forall c, i, j | 0 <= c < |bs'| && 0 <= i < j < |bs'[c]|
      ensures bs'[c][i].key != bs'[c][j].key
    {
      if c == b {
        assert bs'[c][i] == bs[c][i + 1] && bs'[c][j] == bs[c][j + 1];
      }
    }
  }

  /** The pairs of `whole` are divided between two maps. */
  ghost predicate Divided(whole: map<string, int>, done: map<string, int>, rest: map<string, int>) {
    && (forall k {:trigger k in whole} {:trigger k in done} {:trigger k in rest} ::
         (k in whole <==> k in done || k in rest) && !(k in done && k in rest))
    && (forall k {:trigger done[k]} :: k in done ==> done[k] == whole[k])
    && (forall k {:trigger rest[k]} :: k in rest ==> rest[k] == whole[k])
  }

  lemma Move(whole: map<string, int>, done: map<string, int>, rest: map<string, int>, k: string)
    requires Divided(whole, done, rest) && k in rest
    ensures Divided(whole, done[k := rest[k]], rest - {k}) && k !in done
  {}

  lemma AllMoved(whole: map<string, int>, done: map<string, int>, rest: map<string, int>)
    requires Divided(whole, done, rest) && forall k :: k !in rest
    ensures done == whole
  {}

  lemma BucketsEmpty(bs: seq<seq<Node>>, m: map<string, int>)
    requires Rep(bs, m) && forall b :: 0 <= b < |bs| ==> bs[b] == []
    ensures forall k :: k !in m
  {
    assert forall b, k :: 0 <= b < |bs| ==> !Has(bs[b], k);
  }

  lemma FreshBuckets(n: int)
    requires n >= 0
    ensures Rep(seq(n, _ => []), map[])
  {}

  class StringMap {
    var buckets: seq<seq<Node>>
    var nnodes: int
    ghost var m: map<string, int>

    ghost predicate Valid()
      reads this
    {
      Rep(buckets, m) && nnodes == |m| && (|buckets| == 0 || PowerOfTwo(|buckets|))
    }

    /** map_init */
    constructor ()
      ensures Valid() && m == map[]
    {
      buckets, nnodes, m := [], 0, map[];
    }

    /** map_getref: the bucket and place of the key's node; -1 when there is none. */
    method Getref(key: string) returns (b: int, i: int)
      requires Valid()
      ensures i == -1 <==> key !in m
      ensures i != -1 ==>
                && 0 <= b < |buckets| && 0 <= i < |buckets[b]| && buckets[b][i].key == key
                && buckets[b][i].value == m[key]
    {
      hide PowerOfTwo, HashUpTo;
      b, i := 0, -1;
      var hash := Hash(key);
      if |buckets| > 0 {
        b := hash % |buckets|;
        i := 0;
        while i < |buckets[b]|
          invariant 0 <= i <= |buckets[b]| && forall j :: 0 <= j < i ==> buckets[b][j].key != key
        {
          if buckets[b][i].hash == hash && buckets[b][i].key == key {
            assert NodeOk(buckets[b][i], m);
            return;
          }
          assert NodeOk(buckets[b][i], m);
          i := i + 1;
        }
        assert !Has(buckets[b], key);
        i := -1;
      }
    }

    /** map_get_ */
    method Get(key: string) returns (v: Option<int>)
      requires Valid()
      ensures v == if key in m then Some(m[key]) else None
    {
      var b, i := Getref(key);
      v := if i != -1 then Some(buckets[b][i].value) else None;
    }

    /** map_addnode */
    method Addnode(x: Node)
      requires Rep(buckets, m) && |buckets| > 0 && x.key !in m && x.hash == Hash(x.key)
      modifies this`buckets, this`m
      ensures Rep(buckets, m) && m == old(m)[x.key := x.value] && |buckets| == old(|buckets|)
    {
      var n := x.hash % |buckets|;
      BucketPush(buckets, m, x);
      buckets := buckets[n := [x] + buckets[n]];
      m := m[x.key := x.value];
    }

    /** map_resize: chains all nodes and deals them out again; without memory, over the old number
        of buckets. */
    method Resize(n: int, memory: bool) returns (err: int)
      requires Valid() && 0 < n && (memory ==> PowerOfTwo(n))
      modifies this`buckets, this`m
      ensures Valid() && m == old(m) && err == if memory then 0 else -1
      ensures |buckets| == if memory then n else old(|buckets|)
    {
      hide PowerOfTwo, Hash, Rep, RepList, Divided;
      ghost var whole := m;
      var nodes := Chain();
      buckets := seq(if memory then n else |buckets|, _ => []);
      m := map[];
      FreshBuckets(|buckets|);
      ghost var rest := whole;
      NothingMoved(whole);
      if |buckets| > 0 {
        while nodes != []
          invariant Rep(buckets, m) && RepList(nodes, rest) && |buckets| == if memory then n else old(|buckets|)
          invariant Divided(whole, m, rest)
          decreases |nodes|
        {
          var x := nodes[0];
          ListPop(nodes, rest);
          ListHead(nodes, rest);
          Move(whole, m, rest, x.key);
          nodes := nodes[1..];
          Addnode(x);
          rest := rest - {x.key};
        }
        NoNodes(rest);
      } else {
        NoBuckets(old(buckets), whole);
      }
      AllMoved(whole, m, rest);
      err := if memory then 0 else -1;
    }

    /** The first half of map_resize: all nodes on one list, last bucket first. */
    method Chain() returns (nodes: seq<Node>)
      requires Rep(buckets, m)
      ensures RepList(nodes, m)
    {
      hide PowerOfTwo, Hash, Rep, RepList, Divided;
      var bs := buckets;
      nodes := [];
      ghost var done, rest: map<string, int> := map[], m;
      NothingMoved(m);
      EmptyList();
      var i := |buckets|;
      while i > 0
        invariant 0 <= i <= |bs| && Rep(bs, rest) && RepList(nodes, done) && Divided(m, done, rest)
        invariant forall b :: i <= b < |bs| ==> bs[b] == []
      {
        i := i - 1;
        while bs[i] != []
          invariant 0 <= i < |bs| && Rep(bs, rest) && RepList(nodes, done) && Divided(m, done, rest)
          invariant forall b :: i < b < |bs| ==> bs[b] == []
          decreases |bs[i]|
        {
          var node := bs[i][0];
          BucketPop(bs, rest, i);
          Move(m, done, rest, node.key);
          ListPush(nodes, done, node);
          bs := bs[i := bs[i][1..]];
          nodes := [node] + nodes;
          done, rest := done[node.key := node.value], rest - {node.key};
        }
      }
      BucketsEmpty(bs, rest);
      AllMoved(m, done, rest);
    }

    /** map_set_: replaces the key's value or adds a node, resizing first when every bucket's share
        is used up, so that there are never more keys than buckets. Without memory for a new node,
        or for the buckets when they are due, nothing changes. */
    method Set(key: string, value: int, nodeMemory: bool, bucketMemory: bool) returns (r: int)
      requires Valid()
      modifies this
      ensures Valid() && (r == 0 || r == -1)
      ensures r == 0 ==> m == old(m)[key := value]
      ensures r == -1 ==> m == old(m)
      ensures r == -1 <==> key !in old(m) && (!nodeMemory || (|old(m)| >= |old(buckets)| && !bucketMemory))
      ensures |old(m)| <= |old(buckets)| ==> |m| <= |buckets|
    {
      hide PowerOfTwo, Hash, Rep, NodeOk;
      var b, i := Getref(key);
      if i != -1 {
        ValueSet(buckets, m, b, i, value);
        buckets := buckets[b := buckets[b][i := buckets[b][i].(value := value)]];
        m := m[key := value];
        return 0;
      }
      if !nodeMemory {
        return -1;
      }
      var node := Node(Hash(key), key, value);
      if nnodes >= |buckets| {
        var n := if |buckets| > 0 then |buckets| * 2 else 1;
        Doubled(|buckets|);
        var err := Resize(n, bucketMemory);
        if err != 0 {
          return -1;
        }
      }
      Addnode(node);
      nnodes := nnodes + 1;
      return 0;
    }

    /** map_remove_ */
    method Remove(key: string)
      requires Valid()
      modifies this
      ensures Valid() && m == old(m) - {key}
    {
      hide PowerOfTwo, Hash, Rep, NodeOk;
      var b, i := Getref(key);
      if i != -1 {
        Unlinked(buckets, m, b, i);
        buckets := buckets[b := buckets[b][..i] + buckets[b][i + 1..]];
        m := m - {key};
        nnodes := nnodes - 1;
      } else {
        assert m - {key} == m;
      }
    }
  }

  lemma Doubled(n: int)
    requires n == 0 || PowerOfTwo(n)
    ensures PowerOfTwo(if n > 0 then n * 2 else 1)
    ensures n >= 0
  {}

  lemma NothingMoved(whole: map<string, int>)
    ensures Divided(whole, map[], whole)
  {}

  lemma ListHead(l: seq<Node>, m: map<string, int>)
    requires RepList(l, m) && l != []
    ensures NodeOk(l[0], m)
  {}

  lemma EmptyList()
    ensures RepList([], map[])
  {}

  lemma NoBuckets(bs: seq<seq<Node>>, m: map<string, int>)
    requires Rep(bs, m) && |bs| == 0
    ensures forall k :: k !in m
  {}

  /** Replacing the value of the key's node. */
  lemma ValueSet(bs: seq<seq<Node>>, m: map<string, int>, b: int, i: int, value: int)
    requires Rep(bs, m) && 0 <= b < |bs| && 0 <= i < |bs[b]|
    ensures Rep(bs[b := bs[b][i := bs[b][i].(value := value)]], m[bs[b][i].key := value]) && bs[b][i].key in m
  {
    hide Hash;
    var key := bs[b][i].key;
    assert NodeOk(bs[b][i], m);
    var bs', m' := bs[b := bs[b][i := bs[b][i].(value := value)]], m[key := value];
    forall k | k in m'
      ensures Has(bs'[Hash(k) % |bs|], k)
    {
      var c := Hash(k) % |bs|;
      assert k in m && Has(bs[c], k);
      var j :| 0 <= j < |bs[c]| && bs[c][j].key == k;
      assert bs'[c][j].key == k;
    }
    forall c, j | 0 <= c < |bs'| && 0 <= j < |bs'[c]|
      ensures NodeOk(bs'[c][j], m') && bs'[c][j].hash % |bs| == c
    {
      assert NodeOk(bs[c][j], m) && bs[c][j].hash % |bs| == c;
      assert c == b && j != i ==> bs[c][j].key != bs[c][i].key;
    }
    forall c, j, k | 0 <= c < |bs'| && 0 <= j < k < |bs'[c]|
      ensures bs'[c][j].key != bs'[c][k].key
    {
      assert bs[c][j].key != bs[c][k].key;
    }
  }

  lemma UnlinkedAt(l: seq<Node>, i: int, j: int)
    requires 0 <= i < |l| && 0 <= j < |l| - 1
    ensures (l[..i] + l[i + 1..])[j] == l[if j < i then j else j + 1]
  {}

  lemma HasUnlinked(l: seq<Node>, i: int, key: string)
    requires 0 <= i < |l| && Has(l, key) && l[i].key != key
    ensures Has(l[..i] + l[i + 1..], key)
  {
    var j :| 0 <= j < |l| && l[j].key == key;
    UnlinkedAt(l, i, if j > i then j - 1 else j);
    assert (l[..i] + l[i + 1..])[if j > i then j - 1 else j].key == key;
  }

  /** Unlinking the key's node. */
  lemma Unlinked(bs: seq<seq<Node>>, m: map<string, int>, b: int, i: int)
    requires Rep(bs, m) && 0 <= b < |bs| && 0 <= i < |bs[b]|
    ensures Rep(bs[b := bs[b][..i] + bs[b][i + 1..]], m - {bs[b][i].key}) && bs[b][i].key in m
  {
    hide Hash, Has;
    var key := bs[b][i].key;
    assert NodeOk(bs[b][i], m) && bs[b][i].hash % |bs| == b;
    var r := bs[b][..i] + bs[b][i + 1..];
    var bs', m' := bs[b := r], m - {key};
    forall j | 0 <= j < |r|
      ensures r[j] == bs[b][if j < i then j else j + 1]
    {
      UnlinkedAt(bs[b], i, j);
    }
    forall k | k in m'
      ensures Has(bs'[Hash(k) % |bs|], k)
    {
      var c := Hash(k) % |bs|;
      assert k in m && Has(bs[c], k);
      if c == b {
        HasUnlinked(bs[b], i, k);
      }
    }
    forall c, j | 0 <= c < |bs'| && 0 <= j < |bs'[c]|
      ensures NodeOk(bs'[c][j], m') && bs'[c][j].hash % |bs| == c
    {
      var j0 := if c == b && j >= i then j + 1 else j;
      assert bs'[c][j] == bs[c][j0];
      assert NodeOk(bs[c][j0], m) && bs[c][j0].hash % |bs| == c;
      assert c == b && j0 < i ==> bs[b][j0].key != bs[b][i].key;
      assert c == b && j0 > i ==> bs[b][i].key != bs[b][j0].key;
    }
    forall c, j, k | 0 <= c < |bs'| && 0 <= j < k < |bs'[c]|
      ensures bs'[c][j].key != bs'[c][k].key
    {
      if c == b {
        assert bs'[c][j] == bs[c][if j < i then j else j + 1] && bs'[c][k] == bs[c][if k < i then k else k + 1];
      }
    }
  }

  lemma NoNodes(rest: map<string, int>)
    requires RepList([], rest)
    ensures forall k :: k !in rest
  {
    assert forall k :: !Has([], k);
  }
}
