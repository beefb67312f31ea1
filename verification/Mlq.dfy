/** The scheduler's linked queues (04 proc.c): put_tail_q, rm_from_q, refresh_q, the pick, and the
    recycling of queue nodes, refining MlqMachine. */
module Mlq {
  import opened Collections
  import opened MlqMachine

  const NPROC: int := 64
  const NULL: int := -1

  /** A process record; qnode is its queue node. */
  datatype Rec = Rec(state: PState, priority: int, putIn: int, qnode: int, total: seq<int>, qtail: seq<int>)

  // ---------------------------------------------------------------- linked queues

  /** The nodes of the processes in q are linked in order from `head`. */
  ghost predicate Chain(next: seq<int>, recs: seq<Rec>, head: int, q: seq<int>) {
    && head == (if q == [] then NULL else NodeOf(recs, q[0]))
    && forall i {:trigger q[i]} :: 0 <= i < |q| ==>
         0 <= NodeOf(recs, q[i]) < |next| &&
         next[NodeOf(recs, q[i])] == if i + 1 < |q| then NodeOf(recs, q[i + 1]) else NULL
  }

  ghost function NodeOf(recs: seq<Rec>, p: int): int {
    if 0 <= p < |recs| then recs[p].qnode else NULL
  }

  ghost predicate TailOk(recs: seq<Rec>, tail: int, q: seq<int>) {
    tail == if q == [] then NULL else NodeOf(recs, q[|q| - 1])
  }

  /** What rm_from_q leaves of the tail pointer. */
  function TailLeft(tail: int, q: seq<int>, p: int): int {
    if q == [p] then NULL else tail
  }

  /** rm_from_q leaves the tail pointer right exactly when the node it removes is not the last of
      a queue of two or more: it never moves the tail back. */
  lemma TailKept(recs: seq<Rec>, tail: int, q: seq<int>, p: int)
    requires TailOk(recs, tail, q) && Distinct(q) && p in q
    requires forall i, j {:trigger q[i], q[j]} ::
               0 <= i < |q| && 0 <= j < |q| && NodeOf(recs, q[i]) == NodeOf(recs, q[j]) ==> q[i] == q[j]
    ensures TailOk(recs, TailLeft(tail, q, p), Without(q, p)) <==> !(|q| > 1 && q[|q| - 1] == p)
  {
    var i :| 0 <= i < |q| && q[i] == p;
    WithoutAt(q, p, i);
    var r := Without(q, p);
    if |q| > 1 && q[|q| - 1] == p {
      assert r[|r| - 1] == q[|q| - 2];
    } else if |q| > 1 {
      assert r[|r| - 1] == q[|q| - 1];
    }
  }

  lemma DistinctRest(q: seq<int>, i: nat)
    requires Distinct(q) && i < |q|
    ensures Distinct(q[1..]) && (i > 0 ==> q[0] != q[i])
  {
    forall a, b | 0 <= a < b < |q[1..]|
      ensures q[1..][a] != q[1..][b]
    {
      assert q[a + 1] != q[b + 1];
    }
  }

  lemma {:induction false} WithoutAt(q: seq<int>, p: int, i: nat)
    requires Distinct(q) && i < |q| && q[i] == p
    ensures Without(q, p) == q[..i] + q[i + 1..]
  {
    hide Distinct;
    DistinctRest(q, i);
    if i > 0 {
      WithoutAt(q[1..], p, i - 1);
      RestWithout(q, i);
    }
  }

  lemma RestWithout(q: seq<int>, i: nat)
    requires 0 < i < |q|
    ensures q[..i] + q[i + 1..] == [q[0]] + (q[1..][..i - 1] + q[1..][i..])
  {}

  /** No node is linked twice. */
  ghost predicate Apart(recs: seq<Rec>, qs: seq<seq<int>>) {
    && |qs| == NLAYER
    && forall r, i, s, j {:trigger qs[r][i], qs[s][j]} ::
         (0 <= r < NLAYER && 0 <= i < |qs[r]| && 0 <= s < NLAYER && 0 <= j < |qs[s]|
          && NodeOf(recs, qs[r][i]) == NodeOf(recs, qs[s][j])) ==> r == s && i == j
  }

  ghost predicate Chains(next: seq<int>, recs: seq<Rec>, head: seq<int>, qs: seq<seq<int>>) {
    && |head| == |qs| == NLAYER && |next| == NPROC
    && forall r {:trigger head[r]} {:trigger qs[r]} :: 0 <= r < NLAYER ==> Chain(next, recs, head[r], qs[r])
  }

  ghost predicate Tails(recs: seq<Rec>, tail: seq<int>, qs: seq<seq<int>>) {
    && |tail| == |qs| == NLAYER
    && forall r {:trigger tail[r]} {:trigger qs[r]} :: 0 <= r < NLAYER ==> TailOk(recs, tail[r], qs[r])
  }

  /** Writing a node that is not in the queue keeps its chain. */
  lemma ChainFrame(next: seq<int>, recs: seq<Rec>, head: int, q: seq<int>, n: int, v: int)
    requires Chain(next, recs, head, q) && 0 <= n < |next|
    requires forall i {:trigger q[i]} :: 0 <= i < |q| ==> NodeOf(recs, q[i]) != n
    ensures Chain(next[n := v], recs, head, q)
  {}

  /** Linking node of p after the last node. */
  lemma ChainAppend(next: seq<int>, recs: seq<Rec>, head: int, q: seq<int>, p: int)
    requires Chain(next, recs, head, q) && 0 <= NodeOf(recs, p) < |next| && next[NodeOf(recs, p)] == NULL
    requires forall i {:trigger q[i]} :: 0 <= i < |q| ==> NodeOf(recs, q[i]) != NodeOf(recs, p)
    requires forall i, j {:trigger q[i], q[j]} :: 0 <= i < j < |q| ==> NodeOf(recs, q[i]) != NodeOf(recs, q[j])
    ensures q == [] ==> Chain(next, recs, NodeOf(recs, p), [p])
    ensures q != [] ==> 0 <= NodeOf(recs, q[|q| - 1]) < |next| &&
                        Chain(next[NodeOf(recs, q[|q| - 1]) := NodeOf(recs, p)], recs, head, q + [p])
  {
    hide NodeOf;
    if q != [] {
      var t := q + [p];
      var next' := next[NodeOf(recs, q[|q| - 1]) := NodeOf(recs, p)];
      forall i | 0 <= i < |t|
        ensures 0 <= NodeOf(recs, t[i]) < |next'|
        ensures next'[NodeOf(recs, t[i])] == if i + 1 < |t| then NodeOf(recs, t[i + 1]) else NULL
      {
        if i < |q| - 1 {
          assert t[i] == q[i] && t[i + 1] == q[i + 1];
        }
      }
    }
  }

  /** Unlinking the node after q[j]. */
  lemma ChainUnlink(next: seq<int>, recs: seq<Rec>, head: int, q: seq<int>, j: int)
    requires Chain(next, recs, head, q) && 0 <= j && j + 1 < |q|
    requires forall i, k {:trigger q[i], q[k]} :: 0 <= i < k < |q| ==> NodeOf(recs, q[i]) != NodeOf(recs, q[k])
    ensures 0 <= NodeOf(recs, q[j]) < |next| && 0 <= NodeOf(recs, q[j + 1]) < |next|
    ensures Chain(next[NodeOf(recs, q[j]) := next[NodeOf(recs, q[j + 1])]], recs, head, q[..j + 1] + q[j + 2..])
  {
    hide NodeOf;
    var t := q[..j + 1] + q[j + 2..];
    var next' := next[NodeOf(recs, q[j]) := next[NodeOf(recs, q[j + 1])]];
    forall i | 0 <= i < |t|
      ensures 0 <= NodeOf(recs, t[i]) < |next'|
      ensures next'[NodeOf(recs, t[i])] == if i + 1 < |t| then NodeOf(recs, t[i + 1]) else NULL
    {
      assert t[i] == if i <= j then q[i] else q[i + 1];
      assert i + 1 < |t| ==> t[i + 1] == if i + 1 <= j then q[i + 1] else q[i + 2];
    }
  }

  /** The front leaves. */
  lemma ChainPop(next: seq<int>, recs: seq<Rec>, head: int, q: seq<int>)
    requires Chain(next, recs, head, q) && q != []
    ensures 0 <= head < |next| && Chain(next, recs, next[head], q[1..])
  {
    assert forall i :: 0 <= i < |q[1..]| ==> q[1..][i] == q[i + 1];
  }

  /** The linked queues only depend on which node each process has. */
  lemma SameNodes(next: seq<int>, recs: seq<Rec>, recs': seq<Rec>, head: seq<int>, tail: seq<int>, qs: seq<seq<int>>)
    requires |recs'| == |recs| && forall p {:trigger recs'[p]} :: 0 <= p < |recs| ==> recs'[p].qnode == recs[p].qnode
    requires Chains(next, recs, head, qs) && Tails(recs, tail, qs) && Apart(recs, qs)
    ensures Chains(next, recs', head, qs) && Tails(recs', tail, qs) && Apart(recs', qs)
  {
    forall p {:trigger NodeOf(recs', p)}
      ensures NodeOf(recs', p) == NodeOf(recs, p)
    {}
  }

  lemma NodeIs(recs: seq<Rec>, p: int)
    requires 0 <= p < |recs|
    ensures NodeOf(recs, p) == recs[p].qnode
  {}

  ghost predicate NotLinked(recs: seq<Rec>, qs: seq<seq<int>>, n: int) {
    |qs| == NLAYER && forall r, i {:trigger qs[r][i]} :: 0 <= r < NLAYER && 0 <= i < |qs[r]| ==>
        NodeOf(recs, qs[r][i]) != n
  }

  lemma PutTailApart(recs: seq<Rec>, qs: seq<seq<int>>, pri: int, p: int)
    requires Apart(recs, qs) && NotLinked(recs, qs, NodeOf(recs, p)) && 0 <= pri < NLAYER
    ensures Apart(recs, qs[pri := qs[pri] + [p]])
  {
    hide NodeOf;
  }

  lemma PutTailTails(recs: seq<Rec>, tail: seq<int>, qs: seq<seq<int>>, pri: int, p: int)
    requires Tails(recs, tail, qs) && 0 <= pri < NLAYER
    ensures Tails(recs, tail[pri := NodeOf(recs, p)], qs[pri := qs[pri] + [p]])
    ensures if qs[pri] == [] then tail[pri] == NULL else tail[pri] == NodeOf(recs, qs[pri][|qs[pri]| - 1])
  {
    hide NodeOf;
    assert TailOk(recs, tail[pri], qs[pri]);
  }

  /** Links of queues other than pri, when one node that is not in them is written. */
  lemma OtherChains(next: seq<int>, recs: seq<Rec>, head: seq<int>, qs: seq<seq<int>>, pri: int, n: int, v: int)
    requires |head| == |qs| == NLAYER && |next| == NPROC && 0 <= n < NPROC
    requires forall r :: 0 <= r < NLAYER && r != pri ==> Chain(next, recs, head[r], qs[r])
    requires forall r, i {:trigger qs[r][i]} :: 0 <= r < NLAYER && r != pri && 0 <= i < |qs[r]| ==>
               NodeOf(recs, qs[r][i]) != n
    ensures forall r :: 0 <= r < NLAYER && r != pri ==> Chain(next[n := v], recs, head[r], qs[r])
  {
    hide NodeOf, Chain;
    forall r | 0 <= r < NLAYER && r != pri
      ensures Chain(next[n := v], recs, head[r], qs[r])
    {
      ChainFrame(next, recs, head[r], qs[r], n, v);
    }
  }

  lemma ApartIn(recs: seq<Rec>, qs: seq<seq<int>>, pri: int, k: int)
    requires Apart(recs, qs) && 0 <= pri < NLAYER && 0 <= k < |qs[pri]|
    ensures forall r, i {:trigger qs[r][i]} :: 0 <= r < NLAYER && r != pri && 0 <= i < |qs[r]| ==>
              NodeOf(recs, qs[r][i]) != NodeOf(recs, qs[pri][k])
    ensures forall i, j {:trigger qs[pri][i], qs[pri][j]} :: 0 <= i < j < |qs[pri]| ==>
              NodeOf(recs, qs[pri][i]) != NodeOf(recs, qs[pri][j])
  {
    hide NodeOf;
  }

  /** A node in no queue may be reset. */
  lemma FreshNode(next: seq<int>, recs: seq<Rec>, head: seq<int>, qs: seq<seq<int>>, n: int)
    requires Chains(next, recs, head, qs) && NotLinked(recs, qs, n) && 0 <= n < NPROC
    ensures |qs| == |head| == NLAYER && |next| == NPROC && Chains(next[n := NULL], recs, head, qs)
  {
    hide NodeOf, Chain;
    forall r | 0 <= r < NLAYER
      ensures Chain(next[n := NULL], recs, head[r], qs[r])
    {
      ChainFrame(next, recs, head[r], qs[r], n, NULL);
    }
  }

  lemma AppendFirst(next: seq<int>, recs: seq<Rec>, head: seq<int>, qs: seq<seq<int>>, pri: int, p: int)
    requires Chains(next, recs, head, qs) && 0 <= pri < NLAYER && 0 <= NodeOf(recs, p) < NPROC
    requires |qs| == |head| == NLAYER && qs[pri] == [] && |next| == NPROC && next[NodeOf(recs, p)] == NULL
    ensures Chains(next, recs, head[pri := NodeOf(recs, p)], qs[pri := qs[pri] + [p]])
  {
    hide NodeOf, Chain;
    ChainAppend(next, recs, head[pri], qs[pri], p);
    assert qs[pri] + [p] == [p];
  }

  lemma AppendLast(next: seq<int>, recs: seq<Rec>, head: seq<int>, qs: seq<seq<int>>, pri: int, p: int)
    requires Chains(next, recs, head, qs) && Apart(recs, qs) && NotLinked(recs, qs, NodeOf(recs, p))
    requires 0 <= pri < NLAYER && 0 <= NodeOf(recs, p) < NPROC
    requires |qs| == |head| == NLAYER && qs[pri] != [] && |next| == NPROC && next[NodeOf(recs, p)] == NULL
    ensures var last := NodeOf(recs, qs[pri][|qs[pri]| - 1]);
            0 <= last < NPROC && Chains(next[last := NodeOf(recs, p)], recs, head, qs[pri := qs[pri] + [p]])
  {
    hide NodeOf, Chain, Apart;
    var q := qs[pri];
    ApartIn(recs, qs, pri, |q| - 1);
    ChainAppend(next, recs, head[pri], q, p);
    OtherChains(next, recs, head, qs, pri, NodeOf(recs, q[|q| - 1]), NodeOf(recs, p));
  }

  /** What put_tail_q does to the links. */
  lemma PutTailChains(next: seq<int>, recs: seq<Rec>, head: seq<int>, tail: seq<int>, qs: seq<seq<int>>, pri: int,
                      p: int)
    requires Chains(next, recs, head, qs) && Tails(recs, tail, qs) && Apart(recs, qs) && 0 <= pri < NLAYER
    requires 0 <= NodeOf(recs, p) < NPROC && NotLinked(recs, qs, NodeOf(recs, p))
    ensures |qs| == |head| == |tail| == NLAYER && (tail[pri] != NULL ==> 0 <= tail[pri] < NPROC)
    ensures var n, qs' := NodeOf(recs, p), qs[pri := qs[pri] + [p]];
            && (tail[pri] == NULL ==> Chains(next[n := NULL], recs, head[pri := n], qs'))
            && (tail[pri] != NULL ==> Chains(next[n := NULL][tail[pri] := n], recs, head, qs'))
  {
    hide NodeOf, Chains, Tails, Apart, NotLinked;
    var n := NodeOf(recs, p);
    HeadIs(next, recs, head, tail, qs, pri);
    PutTailTails(recs, tail, qs, pri, p);
    FreshNode(next, recs, head, qs, n);
    if qs[pri] == [] {
      AppendFirst(next[n := NULL], recs, head, qs, pri, p);
    } else {
      AppendLast(next[n := NULL], recs, head, qs, pri, p);
    }
  }

  lemma UnlinkChains(next: seq<int>, recs: seq<Rec>, head: seq<int>, qs: seq<seq<int>>, pri: int, j: int)
    requires Chains(next, recs, head, qs) && Apart(recs, qs) && 0 <= pri < NLAYER && 0 <= j && j + 1 < |qs[pri]|
    ensures var q := qs[pri];
            && 0 <= NodeOf(recs, q[j]) < NPROC && 0 <= NodeOf(recs, q[j + 1]) < NPROC
            && Chains(next[NodeOf(recs, q[j]) := next[NodeOf(recs, q[j + 1])]], recs, head,
                 qs[pri := q[..j + 1] + q[j + 2..]])
  {
    hide NodeOf, Chain;
    var q := qs[pri];
    ApartIn(recs, qs, pri, j);
    ChainUnlink(next, recs, head[pri], q, j);
    OtherChains(next, recs, head, qs, pri, NodeOf(recs, q[j]), next[NodeOf(recs, q[j + 1])]);
  }

  lemma PopChains(next: seq<int>, recs: seq<Rec>, head: seq<int>, qs: seq<seq<int>>, pri: int)
    requires Chains(next, recs, head, qs) && 0 <= pri < NLAYER && qs[pri] != []
    ensures 0 <= head[pri] < NPROC && head[pri] == NodeOf(recs, qs[pri][0])
    ensures Chains(next, recs, head[pri := next[head[pri]]], qs[pri := qs[pri][1..]])
  {
    hide NodeOf;
    ChainPop(next, recs, head[pri], qs[pri]);
  }

  lemma {:induction false} WithoutDistinct(q: seq<int>, p: int)
    requires Distinct(q)
    ensures p !in q ==> Without(q, p) == q
    ensures forall i {:trigger q[i]} :: 0 <= i < |q| && q[i] == p ==> Without(q, p) == q[..i] + q[i + 1..]
  {
    forall i | 0 <= i < |q| && q[i] == p
      ensures Without(q, p) == q[..i] + q[i + 1..]
    {
      WithoutAt(q, p, i);
    }
  }

  lemma ApartDistinct(recs: seq<Rec>, qs: seq<seq<int>>, pri: int)
    requires Apart(recs, qs) && 0 <= pri < NLAYER
    ensures Distinct(qs[pri])
    ensures forall i, j {:trigger qs[pri][i], qs[pri][j]} :: 0 <= i < j < |qs[pri]| ==>
              NodeOf(recs, qs[pri][i]) != NodeOf(recs, qs[pri][j])
  {
    forall i, j | 0 <= i < j < |qs[pri]|
      ensures qs[pri][i] != qs[pri][j]
    {
      assert NodeOf(recs, qs[pri][i]) != NodeOf(recs, qs[pri][j]);
    }
  }

  lemma HeadIs(next: seq<int>, recs: seq<Rec>, head: seq<int>, tail: seq<int>, qs: seq<seq<int>>, pri: int)
    requires Chains(next, recs, head, qs) && Tails(recs, tail, qs) && Apart(recs, qs) && 0 <= pri < NLAYER
    ensures |qs| == |head| == |tail| == NLAYER && |next| == NPROC
    ensures head[pri] == if qs[pri] == [] then NULL else NodeOf(recs, qs[pri][0])
    ensures qs[pri] != [] ==> head[pri] >= 0
    ensures tail[pri] == head[pri] <==> |qs[pri]| <= 1
  {
    hide NodeOf;
    assert Chain(next, recs, head[pri], qs[pri]) && TailOk(recs, tail[pri], qs[pri]);
  }

  /** The step of rm_from_q's walk. */
  lemma ChainAt(next: seq<int>, recs: seq<Rec>, head: seq<int>, qs: seq<seq<int>>, pri: int, j: int)
    requires Chains(next, recs, head, qs) && 0 <= pri < NLAYER && 0 <= j < |qs[pri]|
    ensures 0 <= NodeOf(recs, qs[pri][j]) < NPROC
    ensures next[NodeOf(recs, qs[pri][j])] == if j + 1 < |qs[pri]| then NodeOf(recs, qs[pri][j + 1]) else NULL
    ensures j + 1 < |qs[pri]| ==> 0 <= NodeOf(recs, qs[pri][j + 1]) < NPROC
  {
    hide NodeOf;
    assert Chain(next, recs, head[pri], qs[pri]);
    if j + 1 < |qs[pri]| {
      assert NodeOf(recs, qs[pri][j + 1]) >= 0;
    }
  }

  /** Changing the node of a process that is in no queue. */
  lemma OtherNodes(next: seq<int>, recs: seq<Rec>, recs': seq<Rec>, head: seq<int>, tail: seq<int>, qs: seq<seq<int>>,
                   p: int)
    requires |recs'| == |recs|
    requires forall x {:trigger recs'[x]} :: 0 <= x < |recs| && x != p ==> recs'[x].qnode == recs[x].qnode
    requires Chains(next, recs, head, qs) && Tails(recs, tail, qs) && Apart(recs, qs)
    requires forall r, i {:trigger qs[r][i]} :: 0 <= r < NLAYER && 0 <= i < |qs[r]| ==> qs[r][i] != p
    ensures Chains(next, recs', head, qs) && Tails(recs', tail, qs) && Apart(recs', qs)
  {
    forall x {:trigger NodeOf(recs', x)} | x != p
      ensures NodeOf(recs', x) == NodeOf(recs, x)
    {}
    forall r | 0 <= r < NLAYER
      ensures Chain(next, recs', head[r], qs[r]) && TailOk(recs', tail[r], qs[r])
    {
      assert Chain(next, recs, head[r], qs[r]) && TailOk(recs, tail[r], qs[r]);
    }
  }

  /** Giving process p, in no queue, the unlinked node n. */
  lemma UnlinkedNodes(next: seq<int>, next': seq<int>, recs: seq<Rec>, recs': seq<Rec>, head: seq<int>, tail: seq<int>,
                      qs: seq<seq<int>>, p: int, n: int)
    requires |recs'| == |recs|
    requires forall x {:trigger recs'[x]} :: 0 <= x < |recs| && x != p ==> recs'[x].qnode == recs[x].qnode
    requires Chains(next, recs, head, qs) && Tails(recs, tail, qs) && Apart(recs, qs) && NotLinked(recs, qs, n)
    requires 0 <= n < NPROC && next' == next[n := NULL]
    requires forall r, i {:trigger qs[r][i]} :: 0 <= r < NLAYER && 0 <= i < |qs[r]| ==> qs[r][i] != p
    ensures Chains(next', recs', head, qs) && Tails(recs', tail, qs) && Apart(recs', qs)
  {
    hide NodeOf;
    forall r | 0 <= r < NLAYER
      ensures Chain(next', recs, head[r], qs[r])
    {
      ChainFrame(next, recs, head[r], qs[r], n, NULL);
    }
    OtherNodes(next', recs, recs', head, tail, qs, p);
  }

  lemma EmptyLists(next: seq<int>, recs: seq<Rec>, head: seq<int>, tail: seq<int>)
    requires |next| == NPROC && head == tail == [NULL, NULL, NULL, NULL]
    ensures Chains(next, recs, head, [[], [], [], []]) && Tails(recs, tail, [[], [], [], []])
    ensures Apart(recs, [[], [], [], []])
  {
    hide NodeOf;
    var qs: seq<seq<int>> := [[], [], [], []];
    assert forall r {:trigger qs[r]} :: 0 <= r < NLAYER ==> qs[r] == [];
  }

  lemma InvQueued(s: Sched)
    requires Inv(s)
    ensures Queued(s)
  {}

  /** n different numbers below n are all the numbers below n. */
  lemma Pigeonhole(f: seq<int>, p: int)
    requires forall i, j :: 0 <= i < j < |f| ==> f[i] != f[j]
    requires forall i :: 0 <= i < |f| ==> 0 <= f[i] < |f|
    requires 0 <= p < |f|
    ensures exists i :: 0 <= i < |f| && f[i] == p
  {
    DistinctMembers(f);
    SubsetSize(Members(f), UpTo(|f|));
    assert p in Members(f);
  }

  lemma SpecialAllocated(s: Sched, p: int)
    requires Queued(s) && 0 <= p < |s.procs| && Special(s.procs[p])
    ensures s.procs[p].state != UNUSED && |s.qs| == NLAYER
  {
    assert ProcOk(s, p);
  }

  /** Taking the front out keeps the tail pointer and the separation right. */
  lemma PopTails(recs: seq<Rec>, tail: seq<int>, qs: seq<seq<int>>, pri: int)
    requires Tails(recs, tail, qs) && Apart(recs, qs) && 0 <= pri < NLAYER && qs[pri] != []
    ensures Apart(recs, qs[pri := qs[pri][1..]])
    ensures Tails(recs, tail[pri := TailLeft(tail[pri], qs[pri], qs[pri][0])], qs[pri := qs[pri][1..]])
  {
    hide NodeOf, Without;
    var q := qs[pri];
    assert TailOk(recs, tail[pri], q);
    assert q == [q[0]] <==> |q| == 1;
    var qs' := qs[pri := q[1..]];
    forall r, i, s, j | 0 <= r < NLAYER && 0 <= i < |qs'[r]| && 0 <= s < NLAYER && 0 <= j < |qs'[s]|
        && NodeOf(recs, qs'[r][i]) == NodeOf(recs, qs'[s][j])
      ensures r == s && i == j
    {
      var i0, j0 := if r == pri then i + 1 else i, if s == pri then j + 1 else j;
      assert qs'[r][i] == qs[r][i0] && qs'[s][j] == qs[s][j0];
    }
  }

  class Ptable {
    var recs: seq<Rec>
    var next: seq<int>
    var nodeTicks: seq<int>
    var nodeProc: seq<int>
    var inuse: seq<bool>
    var head: seq<int>
    var tail: seq<int>
    var cpu: int
    ghost var abs: Sched

    ghost predicate Sized()
      reads this
    {
      && |recs| == |next| == |nodeTicks| == |nodeProc| == |inuse| == NPROC && |head| == |tail| == NLAYER
      && (forall p {:trigger recs[p]} :: 0 <= p < NPROC ==> |recs[p].total| == |recs[p].qtail| == NLAYER)
    }

    /** A node is in use exactly when it is the node of an allocated process. */
    ghost predicate Nodes()
      reads this
      requires Sized()
    {
      && (forall p {:trigger recs[p]} :: 0 <= p < NPROC ==>
           if recs[p].state == UNUSED then recs[p].qnode == NULL
           else 0 <= recs[p].qnode < NPROC && inuse[recs[p].qnode] && nodeProc[recs[p].qnode] == p)
      && (forall n {:trigger inuse[n]} :: 0 <= n < NPROC && inuse[n] ==>
           0 <= nodeProc[n] < NPROC && recs[nodeProc[n]].state != UNUSED && recs[nodeProc[n]].qnode == n)
    }

    ghost predicate Lists(qs: seq<seq<int>>)
      reads this
    {
      Sized() && Chains(next, recs, head, qs) && Tails(recs, tail, qs) && Apart(recs, qs)
    }

    ghost function AbsOf(p: int): Proc
      reads this
      requires Sized() && 0 <= p < NPROC
    {
      var x := recs[p];
      Proc(x.state, x.priority, x.putIn, if 0 <= x.qnode < NPROC then nodeTicks[x.qnode] else 0, x.total, x.qtail)
    }

    /** The linked queues and records are those of the abstract scheduler. */
    ghost predicate Valid()
      reads this
    {
      && Sized() && Nodes() && Queued(abs) && Lists(abs.qs) && cpu == abs.cpu
      && |abs.procs| == NPROC && (forall p {:trigger abs.procs[p]} {:trigger recs[p]} :: 0 <= p < NPROC ==>
           abs.procs[p] == AbsOf(p))
    }

    /** put_tail_q */
    method PutTailQ(n: int, pri: int, ghost qs: seq<seq<int>>)
      requires Lists(qs) && Nodes() && 0 <= n < NPROC && inuse[n] && 0 <= pri < NLAYER
      requires NotLinked(recs, qs, n)
      modifies this`next, this`nodeTicks, this`recs, this`head, this`tail
      ensures Lists(qs[pri := qs[pri] + [nodeProc[n]]]) && Nodes()
      ensures nodeTicks == old(nodeTicks)[n := 0]
      ensures var x := old(recs)[nodeProc[n]];
              recs == old(recs)[nodeProc[n] := x.(qtail := x.qtail[pri := x.qtail[pri] + 1])]
    {
      hide Chains, Tails, Apart, NodeOf, NotLinked;
      var p := nodeProc[n];
      NodeIs(recs, p);
      PutTailChains(next, recs, head, tail, qs, pri, p);
      PutTailTails(recs, tail, qs, pri, p);
      PutTailApart(recs, qs, pri, p);
      next := next[n := NULL];
      nodeTicks := nodeTicks[n := 0];
      ghost var was := recs;
      recs := recs[p := recs[p].(qtail := recs[p].qtail[pri := recs[p].qtail[pri] + 1])];
      if tail[pri] == NULL {
        head := head[pri := n];
        tail := tail[pri := n];
      } else {
        next := next[tail[pri] := n];
        tail := tail[pri := n];
      }
      SameNodes(next, was, recs, head, tail, qs[pri := qs[pri] + [p]]);
    }

    /** The walk of rm_from_q: the node before n, or the last node. */
    method FindBefore(n: int, pri: int, ghost qs: seq<seq<int>>) returns (prev: int, ghost j: int)
      requires |head| == |qs| == NLAYER && |next| == NPROC && Chains(next, recs, head, qs) && 0 <= pri < NLAYER
      requires qs[pri] != [] && head[pri] == NodeOf(recs, qs[pri][0]) && head[pri] != n
      ensures 0 <= j < |qs[pri]| && prev == NodeOf(recs, qs[pri][j]) && 0 <= prev < NPROC
      ensures next[prev] == NULL || next[prev] == n
      ensures forall i :: 0 <= i <= j ==> NodeOf(recs, qs[pri][i]) != n
    {
      hide Chains, NodeOf, Chain;
      ghost var q := qs[pri];
      prev, j := head[pri], 0;
      ChainAt(next, recs, head, qs, pri, 0);
      while next[prev] != NULL && next[prev] != n
        invariant 0 <= j < |q| && prev == NodeOf(recs, q[j]) && 0 <= prev < NPROC
        invariant forall i :: 0 <= i <= j ==> NodeOf(recs, q[i]) != n
        decreases |q| - j
      {
        ChainAt(next, recs, head, qs, pri, j);
        prev := next[prev];
        j := j + 1;
      }
    }

    /** rm_from_q: unlinks the node of p, wherever it is; nothing happens when it is not there. */
    method RmFromQ(n: int, pri: int, ghost p: int, ghost qs: seq<seq<int>>)
      requires Sized() && |qs| == NLAYER && Chains(next, recs, head, qs) && Tails(recs, tail, qs) && Apart(recs, qs)
      requires 0 <= pri < NLAYER && n == NodeOf(recs, p) && 0 <= n < NPROC
      requires forall i {:trigger qs[pri][i]} :: 0 <= i < |qs[pri]| && NodeOf(recs, qs[pri][i]) == n ==> qs[pri][i] == p
      modifies this`next, this`head, this`tail
      ensures Sized() && Chains(next, recs, head, qs[pri := Without(qs[pri], p)])
      ensures tail == old(tail)[pri := TailLeft(old(tail)[pri], qs[pri], p)]
    {
      hide Chains, Tails, Apart, NodeOf, Without, Distinct, Chain;
      ghost var q := qs[pri];
      ApartDistinct(recs, qs, pri);
      WithoutDistinct(q, p);
      HeadIs(next, recs, head, tail, qs, pri);
      if head[pri] == NULL {
        assert qs[pri := q] == qs;
        return;
      }
      if head[pri] == n {
        assert q[0] == p;
        if tail[pri] == head[pri] {
          tail := tail[pri := NULL];
        }
        PopChains(next, recs, head, qs, pri);
        assert q[..0] + q[1..] == q[1..];
        head := head[pri := next[head[pri]]];
        return;
      }
      var prev;
      ghost var j;
      prev, j := FindBefore(n, pri, qs);
      ChainAt(next, recs, head, qs, pri, j);
      if next[prev] == NULL {
        assert p !in q;
        assert qs[pri := q] == qs;
        return;
      }
      assert q[j + 1] == p;
      UnlinkChains(next, recs, head, qs, pri, j);
      next := next[prev := next[next[prev]]];
    }

    /** Different allocated processes have different nodes. */
    lemma NodesDiffer(p: int)
      requires Valid() && 0 <= p < NPROC && recs[p].state != UNUSED
      ensures NodeOf(recs, p) == recs[p].qnode && 0 <= recs[p].qnode < NPROC && inuse[recs[p].qnode]
      ensures nodeProc[recs[p].qnode] == p
      ensures forall x {:trigger NodeOf(recs, x)} :: NodeOf(recs, x) == NodeOf(recs, p) ==> x == p
      ensures forall x {:trigger recs[x]} :: 0 <= x < NPROC && x != p ==> recs[x].qnode != recs[p].qnode
    {}

    /** A process in no queue has a node that is not linked. */
    lemma Unlinked(p: int)
      requires Valid() && 0 <= p < NPROC && recs[p].state != UNUSED && recs[p].putIn == -1
      ensures NotLinked(recs, abs.qs, recs[p].qnode)
    {
      hide Chains, Tails, Apart, Without;
      NodesDiffer(p);
      assert abs.procs[p] == AbsOf(p);
    }

    /** Removal of a process that is due to leave its queue: it is at the front. */
    method TakeOut(p: int)
      requires Valid() && 0 <= p < NPROC && Special(abs.procs[p])
      modifies this`next, this`head, this`tail, this`recs, this`abs
      ensures Valid() && abs == SetIn(Remove(old(abs), p, old(abs).procs[p].putIn), p, -1)
      ensures recs == old(recs)[p := old(recs)[p].(putIn := -1)]
    {
      hide Chains, Tails, Apart, NodeOf, Without, Queued, ProcOk, NotLinked;
      assert abs.procs[p] == AbsOf(p);
      RemoveQueued(abs, p);
      SpecialAllocated(abs, p);
      NodesDiffer(p);
      ghost var pri, qs := recs[p].putIn, abs.qs;
      ghost var was := recs;
      PopTails(recs, tail, qs, pri);
      RmFromQ(recs[p].qnode, recs[p].putIn, p, qs);
      recs := recs[p := recs[p].(putIn := -1)];
      abs := SetIn(Remove(abs, p, pri), p, -1);
      SameNodes(next, was, recs, head, tail, abs.qs);
    }

    /** A process that is in no queue joins its priority's. */
    method PutIn(p: int)
      requires Valid() && 0 <= p < NPROC && recs[p].state == RUNNABLE && recs[p].putIn == -1
      modifies this`next, this`nodeTicks, this`recs, this`head, this`tail, this`abs
      ensures Valid() && abs == SetIn(PutTail(old(abs), p, old(abs).procs[p].priority), p, old(abs).procs[p].priority)
    {
      hide Chains, Tails, Apart, NodeOf, Without, Queued, ProcOk, NotLinked;
      assert abs.procs[p] == AbsOf(p);
      NodesDiffer(p);
      Unlinked(p);
      PutTailQueued(abs, p);
      QueuedShaped(abs);
      PutTailQ(recs[p].qnode, recs[p].priority, abs.qs);
      ghost var was := recs;
      recs := recs[p := recs[p].(putIn := recs[p].priority)];
      abs := SetIn(PutTail(abs, p, abs.procs[p].priority), p, abs.procs[p].priority);
      SameNodes(next, was, recs, head, tail, abs.qs);
    }

    /** The table at boot, after ptable_init. */
    constructor ()
      ensures Valid() && Inv(abs) && cpu == -1
    {
      hide Chains, Tails, Apart, Inv;
      recs := seq(NPROC, _ => Rec(UNUSED, 0, -1, NULL, [0, 0, 0, 0], [0, 0, 0, 0]));
      next, nodeTicks, nodeProc := seq(NPROC, _ => NULL), seq(NPROC, _ => 0), seq(NPROC, _ => 0);
      inuse := seq(NPROC, _ => false);
      head, tail := [NULL, NULL, NULL, NULL], [NULL, NULL, NULL, NULL];
      cpu := -1;
      abs := Sched(seq(NPROC, _ => Proc(UNUSED, 0, -1, 0, [0, 0, 0, 0], [0, 0, 0, 0])), [[], [], [], []], -1);
      new;
      StartsInv(NPROC, -1);
      InvQueued(abs);
      EmptyLists(next, recs, head, tail);
    }

    lemma RecordOf(p: int)
      requires Valid() && 0 <= p < NPROC
      ensures Sized() && |abs.procs| == NPROC && Queued(abs) && abs.procs[p] == AbsOf(p)
      ensures ProcOk(abs, p) && Shaped(abs)
    {}

    /** One round of refresh_q's loop. */
    method RefreshStep(p: int)
      requires Valid() && 0 <= p < NPROC
      modifies this`next, this`nodeTicks, this`recs, this`head, this`tail, this`abs
      ensures Valid() && abs == RefreshOne(old(abs), p)
    {
      hide Lists, Nodes, Without, Queued, Valid, NodeOf;
      ghost var a := abs;
      RecordOf(p);
      if recs[p].state == UNUSED {
      } else if recs[p].state != RUNNABLE && recs[p].putIn != -1 {
        TakeOut(p);
      } else if recs[p].state == RUNNABLE && recs[p].putIn == -1 {
        PutIn(p);
      } else if recs[p].state == RUNNABLE
                && (recs[p].putIn != recs[p].priority
                     || (recs[p].putIn != -1 && TicksOf(p) == (5 - recs[p].putIn) * 4)) {
        TakeOut(p);
        RecordOf(p);
        PutIn(p);
        assert abs.procs == RefreshOne(a, p).procs;
        assert abs.qs == RefreshOne(a, p).qs;
      }
    }

    /** refresh_q */
    method RefreshQ()
      requires Valid()
      modifies this`next, this`nodeTicks, this`recs, this`head, this`tail, this`abs
      ensures Valid() && abs == Refresh(old(abs))
    {
      hide Valid, RefreshOne, Queued;
      ghost var s := abs;
      RecordOf(0);
      var p := 0;
      while p < NPROC
        invariant 0 <= p <= NPROC && Valid() && abs == RefreshUpTo(s, p)
      {
        RefreshStep(p);
        p := p + 1;
      }
    }

    /** The ticks in the queue node of p. */
    function TicksOf(p: int): int
      reads this
      requires Sized() && 0 <= p < NPROC
    {
      if 0 <= recs[p].qnode < NPROC then nodeTicks[recs[p].qnode] else 0
    }

    /** A queue is empty when its head is NULL. */
    lemma EmptyHead(pri: int)
      requires Valid() && 0 <= pri < NLAYER
      ensures |head| == NLAYER && |abs.qs| == NLAYER && (head[pri] == NULL <==> abs.qs[pri] == [])
    {
      hide Queued, Nodes, Chains, Tails, Apart;
      HeadIs(next, recs, head, tail, abs.qs, pri);
    }

    /** The scheduler's loop over the queues, from the highest priority down. */
    method TopQueue() returns (pri: int)
      requires Valid()
      ensures pri == Top(abs.qs)
    {
      hide Valid, Queued, Nodes, Lists;
      EmptyHead(0);
      pri := NLAYER - 1;
      while pri > -1
        invariant -1 <= pri < NLAYER && forall x :: pri < x < NLAYER ==> abs.qs[x] == []
      {
        EmptyHead(pri);
        if head[pri] != NULL {
          return;
        }
        pri := pri - 1;
      }
    }

    /** One turn of the scheduler loop up to the switch; -1 when nothing is RUNNABLE. */
    method SchedulerTurn() returns (p: int)
      requires Valid() && Inv(abs) && cpu == -1
      modifies this
      ensures Valid() && Inv(abs) && abs == Exec(old(abs), Turn)
      ensures p == Pick(Refresh(old(abs))) && cpu == p
    {
      hide Queued, Nodes, NodeOf, Lists, RefreshUpTo, Shaped;
      ghost var s := abs;
      RecordOf(0);
      TurnKeeps(s);
      RefreshCpu(s, |s.procs|);
      RefreshQ();
      RecordOf(0);
      var pri := TopQueue();
      p := -1;
      if pri != -1 {
        FrontIs(pri);
        p := nodeProc[head[pri]];
        Charge(p, pri);
      }
    }

    /** The front of a queue, as rm_from_q and the scheduler find it. */
    lemma FrontIs(pri: int)
      requires Valid() && 0 <= pri < NLAYER && abs.qs[pri] != []
      ensures recs[abs.qs[pri][0]].state != UNUSED
      ensures abs.qs[pri] != [] && 0 <= head[pri] < NPROC && nodeProc[head[pri]] == abs.qs[pri][0]
      ensures 0 <= abs.qs[pri][0] < NPROC && recs[abs.qs[pri][0]].qnode == head[pri]
    {
      assert Chain(next, recs, head[pri], abs.qs[pri]);
      var p := abs.qs[pri][0];
      assert abs.procs[p].putIn == pri && ProcOk(abs, p) && abs.procs[p] == AbsOf(p);
    }

    /** The pick is charged a tick and runs. */
    method Charge(p: int, pri: int)
      requires Valid() && 0 <= pri < NLAYER && Top(abs.qs) == pri && abs.qs[pri][0] == p && 0 <= p < NPROC
      requires recs[p].state != UNUSED && Queued(Run(abs))
      modifies this`recs, this`nodeTicks, this`cpu, this`abs
      ensures Valid() && abs == Run(old(abs)) && cpu == p
    {
      hide Chains, Tails, Apart, NodeOf, Without, Queued;
      NodesDiffer(p);
      QueuedShaped(abs);
      ghost var was := recs;
      assert abs.procs[p] == AbsOf(p);
      recs := recs[p := recs[p].(total := recs[p].total[pri := recs[p].total[pri] + 1])];
      nodeTicks := nodeTicks[recs[p].qnode := nodeTicks[recs[p].qnode] + 1];
      cpu := p;
      recs := recs[p := recs[p].(state := RUNNING)];
      abs := Run(abs);
      SameNodes(next, was, recs, head, tail, abs.qs);
    }

    /** What the running process's leaving the CPU does to the scheduler. */
    lemma Leaving(st: PState)
      requires Valid() && Inv(abs) && cpu != -1 && (st == RUNNABLE || st == SLEEPING || st == ZOMBIE)
      ensures 0 <= cpu < NPROC && |abs.procs| == NPROC
      ensures recs[cpu].state != UNUSED && 0 <= recs[cpu].qnode < NPROC
      ensures var t := WithState(abs, cpu, st).(cpu := -1); Inv(t) && Queued(t)
    {
      hide Queued, Lists;
      LeaveKeeps(abs, st);
      RecordOf(cpu);
      NotUnused(cpu);
      InvQueued(WithState(abs, cpu, st).(cpu := -1));
    }

    /** yield, sleep and exit: the running process takes another state and leaves the CPU. */
    method Leave(st: PState)
      requires Valid() && Inv(abs) && cpu != -1 && (st == RUNNABLE || st == SLEEPING || st == ZOMBIE)
      modifies this`recs, this`cpu, this`abs
      ensures Valid() && Inv(abs)
      ensures abs == Exec(old(abs), LeaveEvent(st))
    {
      hide Chains, Tails, Apart, NodeOf, Queued, Inv, ProcOk, Shaped, Enabled, Exec, LeaveEvent;
      Leaving(st);
      RecordOf(cpu);
      LeaveIs(abs, st);
      ghost var was := recs;
      recs := recs[cpu := recs[cpu].(state := st)];
      abs := WithState(abs, cpu, st).(cpu := -1);
      cpu := -1;
      SameNodes(next, was, recs, head, tail, abs.qs);
    }

    lemma NotUnused(p: int)
      requires Valid() && 0 <= p < NPROC && abs.procs[p].state != UNUSED
      ensures recs[p].state == abs.procs[p].state && 0 <= recs[p].qnode < NPROC
    {
      assert abs.procs[p] == AbsOf(p);
    }

    /** wakeup1 and kill, for one sleeper. */
    method WakeOne(p: int)
      requires Valid() && Inv(abs) && 0 <= p < NPROC
      modifies this`recs, this`abs
      ensures Valid() && Inv(abs)
      ensures abs == if Enabled(old(abs), Wake(p)) then Exec(old(abs), Wake(p)) else old(abs)
    {
      hide Chains, Tails, Apart, NodeOf, Queued;
      RecordOf(p);
      if recs[p].state == SLEEPING {
        EventKeeps(abs, Wake(p));
        ghost var was := recs;
        recs := recs[p := recs[p].(state := RUNNABLE)];
        abs := WithState(abs, p, RUNNABLE);
        SameNodes(next, was, recs, head, tail, abs.qs);
      }
    }

    /** The first process that is UNUSED, as an embryo with a free queue node; -1 when there is
        none or `page`, the kernel stack's allocation, failed. */
    method Allocproc(page: bool) returns (p: int)
      requires Valid() && Inv(abs)
      modifies this`recs, this`next, this`nodeProc, this`inuse, this`abs
      ensures Valid() && Inv(abs)
      ensures p == -1 ==>
                && abs == old(abs)
                && (!page || forall x :: 0 <= x < |abs.procs| ==> abs.procs[x].state != UNUSED)
      ensures p != -1 ==> page && forall x :: 0 <= x < p && x < |abs.procs| ==> old(abs).procs[x].state != UNUSED
      ensures p != -1 ==> exists stale {:trigger Alloc(p, stale)} ::
                Enabled(old(abs), Alloc(p, stale)) && abs == Exec(old(abs), Alloc(p, stale))
    {
      hide Lists, NodeOf, Queued, Nodes, Inv;
      RecordOf(0);
      p := FirstUnused();
      if p == NPROC || !page {
        return -1;
      }
      var n := FirstNode(p);
      ghost var stale := nodeTicks[n];
      TakeNode(p, n);
      assert Enabled(old(abs), Alloc(p, stale));
    }

    method FirstUnused() returns (p: int)
      requires Valid()
      ensures 0 <= p <= NPROC && |abs.procs| == NPROC && (p < NPROC ==> recs[p].state == abs.procs[p].state == UNUSED)
      ensures forall x :: 0 <= x < p ==> abs.procs[x].state != UNUSED
    {
      hide Lists, NodeOf, Queued, Nodes;
      p := 0;
      while p < NPROC && recs[p].state != UNUSED
        invariant 0 <= p <= NPROC && forall x :: 0 <= x < p ==> abs.procs[x].state != UNUSED
      {
        assert abs.procs[p] == AbsOf(p);
        p := p + 1;
      }
      if p < NPROC {
        assert abs.procs[p] == AbsOf(p);
      }
    }

    method FirstNode(p: int) returns (n: int)
      requires Valid() && 0 <= p < NPROC && recs[p].state == UNUSED
      ensures 0 <= n < NPROC && !inuse[n]
    {
      hide Lists, NodeOf, Queued, Nodes;
      n := 0;
      SomeNodeFree(p);
      while inuse[n]
        invariant 0 <= n < NPROC && forall x :: 0 <= x < n ==> inuse[x]
        decreases NPROC - n
      {
        n := n + 1;
      }
    }

    /** With an unallocated process there is a free node. */
    lemma SomeNodeFree(p: int)
      requires Valid() && 0 <= p < NPROC && recs[p].state == UNUSED
      ensures exists n :: 0 <= n < NPROC && !inuse[n]
    {
      hide Lists, NodeOf, Queued;
      if forall n :: 0 <= n < NPROC ==> inuse[n] {
        forall i | 0 <= i < NPROC
          ensures 0 <= nodeProc[i] < NPROC && nodeProc[i] != p && recs[nodeProc[i]].qnode == i
        {
          assert inuse[i];
        }
        Pigeonhole(nodeProc, p);
      }
    }

    /** What an allocation does to the scheduler. */
    lemma Allocated(p: int, stale: int)
      requires Valid() && Inv(abs) && Enabled(abs, Alloc(p, stale))
      ensures var t := Exec(abs, Alloc(p, stale));
              && Inv(t) && Queued(t) && t.qs == abs.qs && t.cpu == abs.cpu && |abs.procs| == NPROC && 0 <= p < NPROC
              && t.procs == abs.procs[p := Proc(EMBRYO, recs[p].priority, -1, stale, [0, 0, 0, 0], [0, 0, 0, 0])]
      ensures recs[p].state == UNUSED
      ensures forall r, i {:trigger abs.qs[r][i]} :: 0 <= r < NLAYER && 0 <= i < |abs.qs[r]| ==> abs.qs[r][i] != p
    {
      hide Inv, Queued, Lists;
      RecordOf(p);
      EventKeeps(abs, Alloc(p, stale));
      OutOfQueues(abs, p);
      InvQueued(Exec(abs, Alloc(p, stale)));
    }

    method TakeNode(p: int, n: int)
      requires Valid() && Inv(abs) && 0 <= n < NPROC && !inuse[n] && Enabled(abs, Alloc(p, nodeTicks[n]))
      modifies this`recs, this`next, this`nodeProc, this`inuse, this`abs
      ensures Valid() && Inv(abs) && abs == Exec(old(abs), Alloc(p, nodeTicks[n]))
    {
      hide Chains, Tails, Apart, NodeOf, Queued, Inv, NotLinked, Enabled, Exec, ProcOk, Shaped;
      ghost var was := recs;
      Allocated(p, nodeTicks[n]);
      RecordOf(p);
      FreeNode(n);
      next := next[n := NULL];
      inuse := inuse[n := true];
      nodeProc := nodeProc[n := p];
      recs := recs[p := Rec(EMBRYO, recs[p].priority, -1, n, [0, 0, 0, 0], [0, 0, 0, 0])];
      abs := Exec(abs, Alloc(p, nodeTicks[n]));
      UnlinkedNodes(old(next), next, was, recs, head, tail, abs.qs, p, n);
    }

    /** A node that is not in use is not linked. */
    lemma FreeNode(n: int)
      requires Valid() && 0 <= n < NPROC && !inuse[n]
      ensures NotLinked(recs, abs.qs, n)
    {
      forall r, i | 0 <= r < NLAYER && 0 <= i < |abs.qs[r]|
        ensures NodeOf(recs, abs.qs[r][i]) != n
      {
        var p := abs.qs[r][i];
        assert abs.procs[p] == AbsOf(p) && ProcOk(abs, p);
      }
    }

    /** fork2's last step: the child becomes RUNNABLE at priority pri. */
    method StartProc(p: int, pri: int)
      requires Valid() && Inv(abs) && Enabled(abs, Start(p, pri))
      modifies this`recs, this`abs
      ensures Valid() && Inv(abs) && abs == Exec(old(abs), Start(p, pri))
    {
      hide Chains, Tails, Apart, NodeOf, Queued;
      RecordOf(p);
      EventKeeps(abs, Start(p, pri));
      ghost var was := recs;
      recs := recs[p := recs[p].(state := RUNNABLE, priority := pri)];
      abs := Exec(abs, Start(p, pri));
      SameNodes(next, was, recs, head, tail, abs.qs);
    }

    /** What the recycling of a zombie does to the scheduler. */
    lemma Reaped(p: int)
      requires Valid() && Inv(abs) && Enabled(abs, Reap(p))
      ensures var t := Exec(abs, Reap(p));
              && Inv(t) && Queued(t) && t.qs == abs.qs && t.cpu == abs.cpu && |abs.procs| == NPROC && 0 <= p < NPROC
              && t.procs == abs.procs[p := abs.procs[p].(state := UNUSED, ticks := 0)]
      ensures recs[p].state == ZOMBIE
      ensures forall r, i {:trigger abs.qs[r][i]} :: 0 <= r < NLAYER && 0 <= i < |abs.qs[r]| ==> abs.qs[r][i] != p
    {
      hide Inv, Queued, Lists;
      RecordOf(p);
      EventKeeps(abs, Reap(p));
      OutOfQueues(abs, p);
      InvQueued(Exec(abs, Reap(p)));
    }

    /** wait's recycling of a zombie: its queue node is free again. */
    method ReapProc(p: int)
      requires Valid() && Inv(abs) && Enabled(abs, Reap(p))
      modifies this`recs, this`inuse, this`abs
      ensures Valid() && Inv(abs) && abs == Exec(old(abs), Reap(p))
    {
      hide Chains, Tails, Apart, NodeOf, Queued, Inv, Enabled, Exec, ProcOk, Shaped;
      Reaped(p);
      RecordOf(p);
      ghost var was := recs;
      inuse := inuse[recs[p].qnode := false];
      recs := recs[p := recs[p].(state := UNUSED, qnode := NULL)];
      abs := Exec(abs, Reap(p));
      OtherNodes(next, was, recs, head, tail, abs.qs, p);
    }
  }
}
