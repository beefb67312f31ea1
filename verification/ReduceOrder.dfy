/** The reducers' protocol (mapreduce.c, reduce_controller): any number of workers claim partitions
    under a lock, sort them, wait for the previous partition to be sent, and reduce its keys. */
module ReduceOrder {

  /** Where a worker is: about to claim, sorting partition i, waiting on the semaphore of i - 1,
      having reduced j keys of i, about to post after key j, or done. */
  datatype Pc = Idle | Sorting(i: int) | Waiting(i: int) | Reducing(i: int, j: int) | Posting(i: int, j: int) | Done

  /** cur is cur_reduce_partition; sent the semaphores; the rest is history: which partitions have
      passed their wait, how many keys each has begun, how many posts it made, which are
      finished, and how often each was claimed. keys is the number of keys of each partition. */
  datatype State = State(keys: seq<nat>, pc: seq<Pc>, cur: int, sent: seq<int>,
                         passed: seq<bool>, begun: seq<int>, posts: seq<int>, finished: seq<bool>, claims: seq<int>)

  datatype Action = Claim | Sort | Pass | Reduce | Post | End

  predicate Enabled(s: State, w: int, a: Action) {
    && 0 <= w < |s.pc|
    && match a
       case Claim => s.pc[w] == Idle
       case Sort => s.pc[w].Sorting?
       case Pass => s.pc[w].Waiting? && 0 < s.pc[w].i <= |s.sent| && s.sent[s.pc[w].i - 1] > 0
       case Reduce => s.pc[w].Reducing? && 0 <= s.pc[w].i < |s.keys| && s.pc[w].j < s.keys[s.pc[w].i]
       case Post => s.pc[w].Posting?
       case End => s.pc[w].Reducing? && 0 <= s.pc[w].i < |s.keys| && s.pc[w].j >= s.keys[s.pc[w].i]
  }

  ghost predicate Shaped(s: State) {
    && |s.sent| == |s.passed| == |s.begun| == |s.posts| == |s.finished| == |s.claims| == |s.keys|
         && 0 <= s.cur <= |s.keys|
    && forall w {:trigger s.pc[w]} :: 0 <= w < |s.pc| ==> match s.pc[w]
         case Sorting(i) => 0 <= i < |s.keys|
         case Waiting(i) => 0 < i < |s.keys|
         case Reducing(i, j) => 0 <= i < |s.keys| && 0 <= j <= s.keys[i]
         case Posting(i, j) => 0 <= i < |s.keys| && 0 <= j < s.keys[i]
         case Idle => true
         case Done => true
  }

  function Exec(s: State, w: int, a: Action): State
    requires Shaped(s) && Enabled(s, w, a)
  {
    match a
    case Claim =>
      if s.cur >= |s.keys| then s.(pc := s.pc[w := Done])
      else s.(pc := s.pc[w := Sorting(s.cur)], cur := s.cur + 1, claims := s.claims[s.cur := s.claims[s.cur] + 1])
    case Sort =>
      var i := s.pc[w].i;
      if i > 0 then s.(pc := s.pc[w := Waiting(i)])
      else s.(pc := s.pc[w := Reducing(i, 0)], passed := s.passed[i := true])
    case Pass =>
      var i := s.pc[w].i;
      s.(pc := s.pc[w := Reducing(i, 0)], sent := s.sent[i - 1 := s.sent[i - 1] - 1], passed := s.passed[i := true])
    case Reduce =>
      var i := s.pc[w].i;
      s.(pc := s.pc[w := Posting(i, s.pc[w].j)], begun := s.begun[i := s.begun[i] + 1])
    case Post =>
      var i := s.pc[w].i;
      s.(pc := s.pc[w := Reducing(i, s.pc[w].j + 1)], sent := s.sent[i := s.sent[i] + 1],
          posts := s.posts[i := s.posts[i] + 1])
    case End =>
      var i := s.pc[w].i;
      if s.keys[i] == 0 then
        s.(pc := s.pc[w := Idle], sent := s.sent[i := s.sent[i] + 1], posts := s.posts[i := s.posts[i] + 1],
            finished := s.finished[i := true])
      else s.(pc := s.pc[w := Idle], finished := s.finished[i := true])
  }

  /** The partition a worker holds; -1 for none. */
  function Holds(p: Pc): int {
    match p
    case Idle => -1
    case Sorting(i) => i
    case Waiting(i) => i
    case Reducing(i, _) => i
    case Posting(i, _) => i
    case Done => -1
  }

  /** What is known of partition i, from whether it is claimed, held, or finished. */
  ghost predicate PartOk(s: State, i: int)
    requires Shaped(s) && 0 <= i < |s.keys|
  {
    && 0 <= s.posts[i] <= s.begun[i] + (if s.keys[i] == 0 then 1 else 0) && 0 <= s.begun[i] <= s.keys[i]
    && s.sent[i] == s.posts[i] - (if i + 1 < |s.keys| && s.passed[i + 1] then 1 else 0) && s.sent[i] >= 0
    && (s.begun[i] > 0 || s.posts[i] > 0 ==> s.passed[i])
    && (s.finished[i] ==> s.passed[i] && s.begun[i] == s.keys[i] && s.posts[i] >= 1)
    && (s.passed[i] || s.finished[i] ==> i < s.cur)
    && s.claims[i] == (if i < s.cur then 1 else 0)
    && (i < s.cur && !s.finished[i] ==> exists w {:trigger s.pc[w]} :: 0 <= w < |s.pc| && Holds(s.pc[w]) == i)
  }

  ghost predicate WorkerOk(s: State, w: int)
    requires Shaped(s) && 0 <= w < |s.pc|
  {
    match s.pc[w]
    case Idle => true
    case Done => s.cur == |s.keys|
    case Sorting(i) => i < s.cur && !s.passed[i] && !s.finished[i] && s.begun[i] == 0 == s.posts[i]
    case Waiting(i) => i < s.cur && !s.passed[i] && !s.finished[i] && s.begun[i] == 0 == s.posts[i]
    case Reducing(i, j) => i < s.cur && s.passed[i] && !s.finished[i] && s.begun[i] == j == s.posts[i]
    case Posting(i, j) => i < s.cur && s.passed[i] && !s.finished[i] && s.begun[i] == j + 1 && s.posts[i] == j
  }

  ghost predicate Inv(s: State) {
    && Shaped(s)
    && (forall i {:trigger PartOk(s, i)} {:trigger s.finished[i]} :: 0 <= i < |s.keys| ==> PartOk(s, i))
    && (forall w {:trigger WorkerOk(s, w)} {:trigger s.pc[w]} :: 0 <= w < |s.pc| ==> WorkerOk(s, w))
    && (forall v, w {:trigger s.pc[v], s.pc[w]} :: 0 <= v < w < |s.pc| && Holds(s.pc[v]) == Holds(s.pc[w]) ==>
         Holds(s.pc[v]) == -1)
  }

  function Init(keys: seq<nat>, workers: nat): State {
    State(keys, seq(workers, _ => Idle), 0, seq(|keys|, _ => 0), seq(|keys|, _ => false),
          seq(|keys|, _ => 0), seq(|keys|, _ => 0), seq(|keys|, _ => false), seq(|keys|, _ => 0))
  }

  lemma InitInv(keys: seq<nat>, workers: nat)
    ensures Inv(Init(keys, workers))
  {
    var s := Init(keys, workers);
    forall i | 0 <= i < |keys|
      ensures PartOk(s, i)
    {
      assert s.sent[i] == 0 && s.posts[i] == 0 && s.begun[i] == 0 && !s.passed[i] && !s.finished[i];
    }
    forall w | 0 <= w < workers
      ensures s.pc[w] == Idle && WorkerOk(s, w)
    {}
  }

  // ---------------------------------------------------------------- every step keeps it

  lemma ClaimKeeps(s: State, w: int)
    requires Inv(s) && Enabled(s, w, Claim)
    ensures Inv(Exec(s, w, Claim))
  {
    var t := Exec(s, w, Claim);
    forall i | 0 <= i < |t.keys|
      ensures PartOk(t, i)
    {
      ClaimPart(s, w, i);
    }
    forall v | 0 <= v < |t.pc|
      ensures WorkerOk(t, v)
    {
      assert WorkerOk(s, v);
      if v == w && s.cur < |s.keys| {
        assert PartOk(s, s.cur);
      }
    }
    forall v, u | 0 <= v < u < |t.pc| && Holds(t.pc[v]) == Holds(t.pc[u])
      ensures Holds(t.pc[v]) == -1
    {
      assert WorkerOk(s, v) && WorkerOk(s, u);
    }
  }

  lemma ClaimPart(s: State, w: int, i: int)
    requires Inv(s) && Enabled(s, w, Claim) && 0 <= i < |s.keys|
    ensures PartOk(Exec(s, w, Claim), i)
  {
    hide WorkerOk;
    var t := Exec(s, w, Claim);
    assert PartOk(s, i);
    if i < s.cur && !s.finished[i] {
      var v :| 0 <= v < |s.pc| && Holds(s.pc[v]) == i;
      assert Holds(t.pc[v]) == i;
    } else if i == s.cur {
      assert Holds(t.pc[w]) == i;
    }
  }

  /** From s to t worker w moved, and of the partitions only what belongs to i changed. */
  ghost predicate OneMoves(s: State, t: State, w: int, i: int) {
    && Shaped(s) && Shaped(t) && 0 <= w < |s.pc| && |t.pc| == |s.pc| && t.keys == s.keys && t.cur == s.cur
         && t.claims == s.claims
    && (forall v {:trigger t.pc[v]} :: 0 <= v < |s.pc| && v != w ==> t.pc[v] == s.pc[v])
    && 0 <= i < |s.keys| && Holds(s.pc[w]) == i && (Holds(t.pc[w]) == i || (Holds(t.pc[w]) == -1 && t.finished[i]))
    && (forall k {:trigger t.finished[k]} :: 0 <= k < |s.keys| && k != i ==>
         t.finished[k] == s.finished[k] && t.passed[k] == s.passed[k] && t.begun[k] == s.begun[k]
             && t.posts[k] == s.posts[k]
         && (k != i - 1 ==> t.sent[k] == s.sent[k]))
  }

  /** Then only i, i - 1 and w need looking at. */
  lemma MoveKeeps(s: State, t: State, w: int, i: int)
    requires Inv(s) && OneMoves(s, t, w, i) && PartOk(t, i) && (i > 0 ==> PartOk(t, i - 1)) && WorkerOk(t, w)
    ensures Inv(t)
  {
    hide Exec;
    forall k | 0 <= k < |t.keys|
      ensures PartOk(t, k)
    {
      MovePart(s, t, w, i, k);
    }
    forall v | 0 <= v < |t.pc|
      ensures WorkerOk(t, v)
    {
      MoveWorker(s, t, w, i, v);
    }
  }

  lemma MovePart(s: State, t: State, w: int, i: int, k: int)
    requires Inv(s) && OneMoves(s, t, w, i) && PartOk(t, i) && (i > 0 ==> PartOk(t, i - 1)) && 0 <= k < |s.keys|
    ensures PartOk(t, k)
  {
    hide WorkerOk;
    if k != i && k != i - 1 {
      assert PartOk(s, k) && t.finished[k] == s.finished[k];
      if k + 1 < |s.keys| {
        assert t.finished[k + 1] == s.finished[k + 1];
      }
      if k < s.cur && !s.finished[k] {
        var v :| 0 <= v < |s.pc| && Holds(s.pc[v]) == k;
        assert t.pc[v] == s.pc[v];
      }
    }
  }

  lemma MoveWorker(s: State, t: State, w: int, i: int, v: int)
    requires Inv(s) && OneMoves(s, t, w, i) && WorkerOk(t, w) && 0 <= v < |t.pc|
    ensures WorkerOk(t, v)
  {
    hide PartOk;
    if v != w {
      assert WorkerOk(s, v) && t.pc[v] == s.pc[v];
      var k := Holds(t.pc[v]);
      assert k != i;
      if k >= 0 {
        assert t.finished[k] == s.finished[k];
      }
    }
  }

  /** The rest of PartOk when the holder of k is still there. */
  lemma StillHeld(s: State, t: State, w: int, i: int, k: int)
    requires Inv(s) && OneMoves(s, t, w, i) && 0 <= k < |s.keys|
    ensures k < t.cur && !t.finished[k] && (k == i ==> Holds(t.pc[w]) == i) ==>
              exists v {:trigger t.pc[v]} :: 0 <= v < |t.pc| && Holds(t.pc[v]) == k
  {
    hide WorkerOk;
    if k == i {
      assert 0 <= w < |t.pc|;
    } else {
      assert PartOk(s, k) && t.finished[k] == s.finished[k];
      if k < s.cur && !s.finished[k] {
        var v :| 0 <= v < |s.pc| && Holds(s.pc[v]) == k;
        assert t.pc[v] == s.pc[v];
      }
    }
  }

  /** What the invariant says where a move of w happens. */
  lemma Here(s: State, w: int)
    requires Inv(s) && 0 <= w < |s.pc| && Holds(s.pc[w]) != -1
    ensures var i := Holds(s.pc[w]);
            && Shaped(s) && 0 <= i < |s.keys| && PartOk(s, i) && WorkerOk(s, w) && (i > 0 ==> PartOk(s, i - 1))
  {
    var i := Holds(s.pc[w]);
    assert PartOk(s, i) && WorkerOk(s, w);
    if i > 0 {
      assert PartOk(s, i - 1);
    }
  }

  lemma SortKeeps(s: State, w: int)
    requires Inv(s) && Enabled(s, w, Sort)
    ensures Inv(Exec(s, w, Sort))
  {
    hide Inv;
    InvShaped(s);
    Here(s, w);
    var t, i := Exec(s, w, Sort), s.pc[w].i;
    assert OneMoves(s, t, w, i);
    StillHeld(s, t, w, i, i);
    if i > 0 {
      StillHeld(s, t, w, i, i - 1);
    }
    MoveKeeps(s, t, w, i);
  }

  lemma PassKeeps(s: State, w: int)
    requires Inv(s) && Enabled(s, w, Pass)
    ensures Inv(Exec(s, w, Pass))
  {
    hide Inv;
    InvShaped(s);
    Here(s, w);
    var t, i := Exec(s, w, Pass), s.pc[w].i;
    assert OneMoves(s, t, w, i);
    StillHeld(s, t, w, i, i);
    if i > 0 {
      StillHeld(s, t, w, i, i - 1);
    }
    MoveKeeps(s, t, w, i);
  }

  lemma ReduceKeeps(s: State, w: int)
    requires Inv(s) && Enabled(s, w, Reduce)
    ensures Inv(Exec(s, w, Reduce))
  {
    hide Inv;
    InvShaped(s);
    Here(s, w);
    var t, i := Exec(s, w, Reduce), s.pc[w].i;
    assert OneMoves(s, t, w, i);
    StillHeld(s, t, w, i, i);
    if i > 0 {
      StillHeld(s, t, w, i, i - 1);
    }
    MoveKeeps(s, t, w, i);
  }

  lemma PostKeeps(s: State, w: int)
    requires Inv(s) && Enabled(s, w, Post)
    ensures Inv(Exec(s, w, Post))
  {
    hide Inv;
    InvShaped(s);
    Here(s, w);
    var t, i := Exec(s, w, Post), s.pc[w].i;
    assert OneMoves(s, t, w, i);
    StillHeld(s, t, w, i, i);
    if i > 0 {
      StillHeld(s, t, w, i, i - 1);
    }
    MoveKeeps(s, t, w, i);
  }

  lemma EndKeeps(s: State, w: int)
    requires Inv(s) && Enabled(s, w, End)
    ensures Inv(Exec(s, w, End))
  {
    hide Inv;
    InvShaped(s);
    Here(s, w);
    var t, i := Exec(s, w, End), s.pc[w].i;
    assert OneMoves(s, t, w, i);
    StillHeld(s, t, w, i, i);
    if i > 0 {
      StillHeld(s, t, w, i, i - 1);
    }
    MoveKeeps(s, t, w, i);
  }

  lemma InvShaped(s: State)
    requires Inv(s)
    ensures Shaped(s)
  {}

  lemma StepKeeps(s: State, w: int, a: Action)
    requires Inv(s) && Enabled(s, w, a)
    ensures Inv(Exec(s, w, a)) && Exec(s, w, a).keys == s.keys && |Exec(s, w, a).pc| == |s.pc|
  {
    hide Inv;
    InvShaped(s);
    match a
    case Claim => ClaimKeeps(s, w);
    case Sort => SortKeeps(s, w);
    case Pass => PassKeeps(s, w);
    case Reduce => ReduceKeeps(s, w);
    case Post => PostKeeps(s, w);
    case End => EndKeeps(s, w);
  }

  // ---------------------------------------------------------------- runs

  ghost predicate Next(s: State, t: State) {
    exists w, a :: Shaped(s) && Enabled(s, w, a) && t == Exec(s, w, a)
  }

  /** A step begins at most one key. */
  lemma ExecBegun(s: State, w: int, a: Action, i: int)
    requires Shaped(s) && Enabled(s, w, a) && 0 <= i < |s.keys|
    ensures var t := Exec(s, w, a);
            |t.begun| == |s.begun| == |s.keys| && s.begun[i] <= t.begun[i] <= s.begun[i] + 1
  {}

  /** A run of any number of workers from the start. */
  ghost predicate Runs(run: seq<State>, keys: seq<nat>, workers: nat) {
    && |run| > 0 && run[0] == Init(keys, workers)
    && forall i {:trigger run[i]} :: 0 < i < |run| ==> Next(run[i - 1], run[i])
  }

  lemma {:induction false} InvHolds(run: seq<State>, keys: seq<nat>, workers: nat, k: nat)
    requires Runs(run, keys, workers) && k < |run|
    ensures Inv(run[k]) && run[k].keys == keys && |run[k].pc| == workers
    decreases k
  {
    hide Inv, Exec;
    if k == 0 {
      InitInv(keys, workers);
    } else {
      InvHolds(run, keys, workers, k - 1);
      var s, t := run[k - 1], run[k];
      assert Next(s, t);
      var w, a :| Shaped(s) && Enabled(s, w, a) && t == Exec(s, w, a);
      StepKeeps(s, w, a);
    }
  }

  /** Each partition is claimed at most once, in order, and reduced key by key. */
  lemma ClaimedOnce(run: seq<State>, keys: seq<nat>, workers: nat, k: nat, i: int)
    requires Runs(run, keys, workers) && k < |run| && 0 <= i < |keys|
    ensures var s := run[k];
            && i < |s.claims| == |s.begun| == |s.finished| && s.claims[i] == (if i < s.cur then 1 else 0)
            && s.begun[i] <= keys[i] && (s.finished[i] ==> s.claims[i] == 1 && s.begun[i] == keys[i])
  {
    InvHolds(run, keys, workers, k);
    assert PartOk(run[k], i);
  }

  /** Before the first key of partition i + 1 is reduced, partition i's worker has passed its own
      wait and has reduced a key or found none; so has every earlier partition's. */
  lemma SentInOrder(run: seq<State>, keys: seq<nat>, workers: nat, k: nat, i: int, j: int)
    requires Runs(run, keys, workers) && k < |run| && 0 <= i < j < |keys|
    requires |run[k].begun| == |keys| && run[k].begun[j] > 0
    ensures Sent(run[k], i)
  {
    hide Runs, Exec;
    InvHolds(run, keys, workers, k);
    var s := run[k];
    assert PartOk(s, j);
    PassedInOrder(s, i, j);
  }

  /** Partition i has been claimed, once, its worker has passed its wait, and it has reduced a key
      or found none. */
  ghost predicate Sent(s: State, i: int) {
    && 0 <= i < |s.keys| == |s.passed| == |s.posts| == |s.begun| == |s.claims|
    && s.passed[i] && s.posts[i] >= 1 && s.claims[i] == 1 && (s.begun[i] >= 1 || s.keys[i] == 0)
  }

  lemma {:induction false} PassedInOrder(s: State, i: int, j: int)
    requires Inv(s) && 0 <= i < j < |s.keys| && s.passed[j]
    ensures s.passed[i] && s.posts[i] >= 1 && (s.begun[i] >= 1 || s.keys[i] == 0) && s.claims[i] == 1
    decreases j
  {
    assert PartOk(s, j - 1) && PartOk(s, i);
    assert s.posts[j - 1] >= 1;
    if i < j - 1 {
      PassedInOrder(s, i, j - 1);
    }
  }

  /** The first partition that is not finished. */
  lemma {:induction false} FirstUnfinished(s: State, n: int) returns (i: int)
    requires Shaped(s) && 0 <= n < |s.keys| && !s.finished[n]
    ensures 0 <= i <= n && !s.finished[i] && forall k :: 0 <= k < i ==> s.finished[k]
    decreases n
  {
    if k :| 0 <= k < n && !s.finished[k] {
      i := FirstUnfinished(s, k);
    } else {
      i := n;
    }
  }

  lemma HeldUnfinished(s: State, w: int)
    requires Inv(s) && 0 <= w < |s.pc|
    ensures Holds(s.pc[w]) != -1 ==> 0 <= Holds(s.pc[w]) < s.cur && !s.finished[Holds(s.pc[w])]
    ensures s.pc[w] == Done ==> s.cur == |s.keys|
  {
    assert WorkerOk(s, w);
  }

  /** While a partition is not finished, some worker can move. */
  lemma NeverStuck(run: seq<State>, keys: seq<nat>, workers: nat, k: nat, n: int)
    requires Runs(run, keys, workers) && k < |run| && workers > 0
    requires 0 <= n < |keys| && |run[k].finished| == |keys| && !run[k].finished[n]
    ensures exists w, a :: Enabled(run[k], w, a)
  {
    InvHolds(run, keys, workers, k);
    var s := run[k];
    var i := FirstUnfinished(s, n);
    assert PartOk(s, i);
    if i < s.cur {
      var w :| 0 <= w < |s.pc| && Holds(s.pc[w]) == i;
      assert WorkerOk(s, w);
      HolderMoves(s, i, w);
    } else {
      HeldUnfinished(s, 0);
      assert Enabled(s, 0, Claim);
    }
  }

  lemma HolderMoves(s: State, i: int, w: int)
    requires Inv(s) && 0 <= w < |s.pc| && Holds(s.pc[w]) == i && 0 <= i < |s.keys| && WorkerOk(s, w)
    requires forall k :: 0 <= k < i ==> s.finished[k]
    ensures exists v, a :: Enabled(s, v, a)
  {
    match s.pc[w]
    case Sorting(_) => assert Enabled(s, w, Sort);
    case Waiting(_) =>
      assert PartOk(s, i - 1) && s.finished[i - 1];
      assert Enabled(s, w, Pass);
    case Reducing(_, j) =>
      assert Enabled(s, w, if j < s.keys[i] then Reduce else End);
    case Posting(_, _) => assert Enabled(s, w, Post);
    case Idle =>
    case Done =>
  }
}
