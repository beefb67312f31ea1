/** The multi-level queue scheduler of 04 (proc.c) on one CPU, as a state machine: what refresh_q
    and the pick do to the queues, and the events between two turns of the scheduler loop. */
module MlqMachine {

  const NLAYER: int := 4

  datatype PState = UNUSED | EMBRYO | SLEEPING | RUNNABLE | RUNNING | ZOMBIE

  /** A process: its state and priority, the queue it is in (-1 for none), the ticks of its
      current slice, its ticks and its moves to a tail at each priority. */
  datatype Proc = Proc(state: PState, priority: int, putIn: int, ticks: int, total: seq<int>, qtail: seq<int>)

  /** The process table, the queues front to back, and the process on the CPU (-1 for none). */
  datatype Sched = Sched(procs: seq<Proc>, qs: seq<seq<int>>, cpu: int)

  function Slice(pri: int): int { (5 - pri) * 4 }

  // ---------------------------------------------------------------- queue operations

  /** q without its first occurrence of p. */
  function Without(q: seq<int>, p: int): (r: seq<int>)
    ensures p !in q ==> r == q
    ensures |q| > 0 && q[0] == p ==> r == q[1..]
  {
    if q == [] then [] else if q[0] == p then q[1..] else [q[0]] + Without(q[1..], p)
  }

  /** put_tail_q */
  function PutTail(s: Sched, p: int, pri: int): Sched
    requires 0 <= p < |s.procs| && |s.qs| == NLAYER && 0 <= pri < NLAYER && |s.procs[p].qtail| == NLAYER
  {
    s.(procs := s.procs[p := s.procs[p].(ticks := 0, qtail := s.procs[p].qtail[pri := s.procs[p].qtail[pri] + 1])],
       qs := s.qs[pri := s.qs[pri] + [p]])
  }

  /** rm_from_q */
  function Remove(s: Sched, p: int, pri: int): Sched
    requires |s.qs| == NLAYER && 0 <= pri < NLAYER
  {
    s.(qs := s.qs[pri := Without(s.qs[pri], p)])
  }

  function SetIn(s: Sched, p: int, pri: int): Sched
    requires 0 <= p < |s.procs|
  {
    s.(procs := s.procs[p := s.procs[p].(putIn := pri)])
  }

  // ---------------------------------------------------------------- refresh_q

  ghost predicate Shaped(s: Sched) {
    && |s.qs| == NLAYER
    && forall p {:trigger s.procs[p]} :: 0 <= p < |s.procs| ==>
         0 <= s.procs[p].priority < NLAYER && -1 <= s.procs[p].putIn < NLAYER
             && |s.procs[p].total| == |s.procs[p].qtail| == NLAYER
  }

  /** One round of refresh_q's loop. */
  function RefreshOne(s: Sched, p: int): Sched
    requires Shaped(s) && 0 <= p < |s.procs|
  {
    var x := s.procs[p];
    if x.state == UNUSED then s
    else if x.state != RUNNABLE && x.putIn != -1 then SetIn(Remove(s, p, x.putIn), p, -1)
    else if x.state == RUNNABLE && x.putIn == -1 then SetIn(PutTail(s, p, x.priority), p, x.priority)
    else if x.state == RUNNABLE && (x.putIn != x.priority || (x.putIn != -1 && x.ticks == Slice(x.putIn))) then
      SetIn(PutTail(Remove(s, p, x.putIn), p, x.priority), p, x.priority)
    else s
  }

  lemma RefreshOneShaped(s: Sched, p: int)
    requires Shaped(s) && 0 <= p < |s.procs|
    ensures Shaped(RefreshOne(s, p)) && |RefreshOne(s, p).procs| == |s.procs|
  {
    hide Without;
  }

  /** The processes below k, in table order. */
  function RefreshUpTo(s: Sched, k: int): (r: Sched)
    requires Shaped(s) && 0 <= k <= |s.procs|
    ensures Shaped(r) && |r.procs| == |s.procs|
    decreases k
  {
    if k == 0 then s
    else
      RefreshOneShaped(RefreshUpTo(s, k - 1), k - 1);
      RefreshOne(RefreshUpTo(s, k - 1), k - 1)
  }

  function Refresh(s: Sched): Sched
    requires Shaped(s)
  {
    RefreshUpTo(s, |s.procs|)
  }

  // ---------------------------------------------------------------- the pick

  /** The highest queue that is not empty; -1 when all are. */
  function Top(qs: seq<seq<int>>): int
    requires |qs| == NLAYER
  {
    if qs[3] != [] then 3 else if qs[2] != [] then 2 else if qs[1] != [] then 1 else if qs[0] != [] then 0 else -1
  }

  function Pick(s: Sched): int
    requires |s.qs| == NLAYER
  {
    if Top(s.qs) == -1 then -1 else s.qs[Top(s.qs)][0]
  }

  /** The pick runs: a tick of its slice and of its total is charged. */
  function Run(s: Sched): Sched
    requires Shaped(s)
  {
    var pri := Top(s.qs);
    if pri == -1 || !(0 <= Pick(s) < |s.procs|) then s
    else
      var x := s.procs[Pick(s)];
      s.(procs := s.procs[Pick(s) := x.(state := RUNNING, ticks := x.ticks + 1,
          total := x.total[pri := x.total[pri] + 1])],
         cpu := Pick(s))
  }

  // ---------------------------------------------------------------- the queues' invariant

  /** A process that the next refresh takes out of its queue, or moves to the tail. */
  predicate Special(x: Proc) {
    x.putIn != -1 && (x.state != RUNNABLE || x.ticks == Slice(x.putIn))
  }

  /** Each process is in exactly the queue that putIn names, its own priority's, once; a process
      the next refresh will take out or move is at the front; slices are not exceeded. */
  ghost predicate Queued(s: Sched) {
    && Shaped(s)
    && (forall pri, i {:trigger s.qs[pri][i]} :: 0 <= pri < NLAYER && 0 <= i < |s.qs[pri]| ==>
         0 <= s.qs[pri][i] < |s.procs| && s.procs[s.qs[pri][i]].putIn == pri)
    && (forall pri, i, j {:trigger s.qs[pri][i], s.qs[pri][j]} :: 0 <= pri < NLAYER && 0 <= i < j < |s.qs[pri]| ==>
         s.qs[pri][i] != s.qs[pri][j])
    && (forall p {:trigger s.procs[p]} :: 0 <= p < |s.procs| ==> ProcOk(s, p))
  }

  ghost predicate ProcOk(s: Sched, p: int)
    requires 0 <= p < |s.procs| && |s.qs| == NLAYER
  {
    var x := s.procs[p];
    && (x.putIn != -1 ==>
         && 0 <= x.putIn < NLAYER && x.putIn == x.priority && x.state != UNUSED && x.state != EMBRYO
         && 0 <= x.ticks <= Slice(x.putIn)
         && p in s.qs[x.putIn])
    && (Special(x) ==> 0 <= x.putIn < NLAYER && s.qs[x.putIn] != [] && s.qs[x.putIn][0] == p)
  }

  /** After refresh_q: exactly the RUNNABLE processes are queued, with slice left. */
  ghost predicate Refreshed(s: Sched, k: int) {
    forall p {:trigger s.procs[p]} :: 0 <= p < k && p < |s.procs| ==>
      (s.procs[p].state == RUNNABLE <==> s.procs[p].putIn != -1) && !Special(s.procs[p])
  }

  // ---------------------------------------------------------------- refresh keeps the invariant

  lemma PutTailQueued(s: Sched, p: int)
    requires Queued(s) && 0 <= p < |s.procs| && s.procs[p].state == RUNNABLE && s.procs[p].putIn == -1
    ensures Queued(SetIn(PutTail(s, p, s.procs[p].priority), p, s.procs[p].priority))
  {
    hide Without;
    var pri := s.procs[p].priority;
    var t := SetIn(PutTail(s, p, pri), p, pri);
    assert t.qs[pri][|s.qs[pri]|] == p;
    forall r | 0 <= r < |s.procs|
      ensures ProcOk(t, r)
    {
      assert ProcOk(s, r);
      if r != p && s.procs[r].putIn == pri {
        var i :| 0 <= i < |s.qs[pri]| && s.qs[pri][i] == r;
        assert t.qs[pri][i] == r;
      }
    }
  }

  lemma RemoveQueued(s: Sched, p: int)
    requires Queued(s) && 0 <= p < |s.procs| && Special(s.procs[p])
    ensures Queued(SetIn(Remove(s, p, s.procs[p].putIn), p, -1))
    ensures var pri := s.procs[p].putIn;
              && 0 <= pri < NLAYER && |s.qs[pri]| > 0 && s.qs[pri][0] == p
              && Without(s.qs[pri], p) == s.qs[pri][1..]
  {
    var pri := s.procs[p].putIn;
    assert ProcOk(s, p);
    var t := SetIn(Remove(s, p, pri), p, -1);
    assert t.qs[pri] == s.qs[pri][1..];
    hide Without;
    forall r | 0 <= r < |s.procs|
      ensures ProcOk(t, r)
    {
      assert ProcOk(s, r);
      if r != p && s.procs[r].putIn == pri {
        var i :| 0 <= i < |s.qs[pri]| && s.qs[pri][i] == r;
        assert t.qs[pri][i - 1] == r;
      }
    }
  }

  /** The end of a slice: out at the front, in at the back. */
  lemma RotateQueued(s: Sched, p: int)
    requires Queued(s) && 0 <= p < |s.procs| && Special(s.procs[p]) && s.procs[p].state == RUNNABLE
    ensures var pri := s.procs[p].putIn;
            && 0 <= pri < NLAYER && pri == s.procs[p].priority
            && Queued(SetIn(PutTail(Remove(s, p, pri), p, pri), p, pri))
            && |s.qs[pri]| > 0 && s.qs[pri][0] == p
                 && PutTail(Remove(s, p, pri), p, pri).qs == s.qs[pri := s.qs[pri][1..] + [p]]
  {
    hide Without;
    var pri := s.procs[p].putIn;
    assert ProcOk(s, p);
    RemoveQueued(s, p);
    var t := SetIn(Remove(s, p, pri), p, -1);
    PutTailQueued(t, p);
    assert SetIn(PutTail(t, p, pri), p, pri) == SetIn(PutTail(Remove(s, p, pri), p, pri), p, pri);
  }

  /** A queue stayed, or p joined its tail, or p left its front, or p went from front to tail. */
  predicate OnlyEnds(q: seq<int>, r: seq<int>, p: int) {
    || r == q
    || (p !in q && r == q + [p])
    || (q != [] && q[0] == p && p !in q[1..] && (r == q[1..] || r == q[1..] + [p]))
  }

  lemma RefreshOneQueued(s: Sched, p: int)
    requires Queued(s) && 0 <= p < |s.procs|
    ensures Queued(RefreshOne(s, p))
    ensures forall pri {:trigger RefreshOne(s, p).qs[pri]} :: 0 <= pri < NLAYER ==>
              OnlyEnds(s.qs[pri], RefreshOne(s, p).qs[pri], p)
  {
    hide Without;
    assert ProcOk(s, p);
    var x := s.procs[p];
    if x.state != UNUSED && x.state != RUNNABLE && x.putIn != -1 {
      RemoveQueued(s, p);
    } else if x.state == RUNNABLE && x.putIn == -1 {
      PutTailQueued(s, p);
    } else if x.state == RUNNABLE && x.ticks == Slice(x.putIn) {
      RotateQueued(s, p);
    }
  }

  lemma PutInPlace(s: Sched, p: int)
    requires Queued(s) && 0 <= p < |s.procs|
    ensures Shaped(s)
    ensures (s.procs[p].putIn != -1 ==> s.procs[p].putIn == s.procs[p].priority && s.procs[p].state != UNUSED)
  {
    assert ProcOk(s, p);
  }

  lemma RefreshOneKeeps(s: Sched, p: int)
    requires Queued(s) && 0 <= p < |s.procs| && Refreshed(s, p)
    ensures Queued(RefreshOne(s, p)) && Refreshed(RefreshOne(s, p), p + 1)
    ensures forall r {:trigger RefreshOne(s, p).procs[r]} :: 0 <= r < |s.procs| ==>
              RefreshOne(s, p).procs[r].state == s.procs[r].state
                  && RefreshOne(s, p).procs[r].priority == s.procs[r].priority
  {
    hide Without, Queued, ProcOk;
    RefreshOneQueued(s, p);
    PutInPlace(s, p);
  }

  lemma {:induction false} RefreshKeeps(s: Sched, k: int)
    requires Queued(s) && 0 <= k <= |s.procs|
    ensures Queued(RefreshUpTo(s, k)) && Refreshed(RefreshUpTo(s, k), k)
    ensures forall r {:trigger RefreshUpTo(s, k).procs[r]} :: 0 <= r < |s.procs| ==>
              RefreshUpTo(s, k).procs[r].state == s.procs[r].state
                  && RefreshUpTo(s, k).procs[r].priority == s.procs[r].priority
    decreases k
  {
    hide RefreshOne, Queued;
    QueuedShaped(s);
    if k > 0 {
      RefreshKeeps(s, k - 1);
      RefreshOneKeeps(RefreshUpTo(s, k - 1), k - 1);
    }
  }

  /** After refresh_q every RUNNABLE process is in exactly one queue, once, that of its priority;
      the others are in none. */
  lemma RefreshSorts(s: Sched, p: int, pri: int)
    requires Queued(s) && 0 <= p < |s.procs| && 0 <= pri < NLAYER
    ensures var r := Refresh(s);
            && Queued(r) && r.procs[p].state == s.procs[p].state
            && (p in r.qs[pri] <==> s.procs[p].state == RUNNABLE && s.procs[p].priority == pri)
            && (forall i, j :: 0 <= i < j < |r.qs[pri]| ==> r.qs[pri][i] != r.qs[pri][j])
            && (p in r.qs[pri] ==> r.procs[p].ticks < (5 - pri) * 4)
  {
    hide RefreshUpTo;
    RefreshKeeps(s, |s.procs|);
    var r := Refresh(s);
    assert ProcOk(r, p);
    if p in r.qs[pri] {
      var i :| 0 <= i < |r.qs[pri]| && r.qs[pri][i] == p;
    }
  }

  /** The pick is a RUNNABLE process with slice left, at the front of its priority's queue. */
  lemma PickIsRunnable(s: Sched)
    requires Queued(s) && Pick(Refresh(s)) != -1
    ensures var r, h := Refresh(s), Pick(Refresh(s));
            && 0 <= h < |s.procs| && s.procs[h].state == RUNNABLE && s.procs[h].priority == Top(r.qs)
            && r.procs[h].ticks < (5 - s.procs[h].priority) * 4 && r.qs[Top(r.qs)][0] == h
  {
    hide RefreshUpTo, Queued;
    QueuedShaped(s);
    var r := Refresh(s);
    RefreshKeeps(s, |s.procs|);
    PickQueued(r);
    RefreshSorts(s, Pick(r), Top(r.qs));
  }

  /** No RUNNABLE process has a higher priority than the pick; without a pick, none is RUNNABLE. */
  lemma PickIsHighest(s: Sched, p: int)
    requires Queued(s) && 0 <= p < |s.procs| && s.procs[p].state == RUNNABLE
    ensures var h := Pick(Refresh(s));
            0 <= h < |s.procs| && s.procs[h].state == RUNNABLE && s.procs[h].priority >= s.procs[p].priority
  {
    hide RefreshUpTo, Queued;
    QueuedShaped(s);
    RefreshSorts(s, p, s.procs[p].priority);
    var r := Refresh(s);
    RefreshKeeps(s, |s.procs|);
    PickQueued(r);
    assert Top(r.qs) >= s.procs[p].priority;
    PickIsRunnable(s);
  }

  lemma QueuedShaped(s: Sched)
    requires Queued(s)
    ensures Shaped(s) && forall p :: 0 <= p < |s.procs| ==> 0 <= s.procs[p].priority < NLAYER
  {}

  lemma PickQueued(r: Sched)
    requires Queued(r)
    ensures Top(r.qs) != -1 ==>
              && 0 <= Pick(r) < |r.procs| && Pick(r) in r.qs[Top(r.qs)]
              && r.procs[Pick(r)].putIn == Top(r.qs)
              && ProcOk(r, Pick(r)) && r.qs[Top(r.qs)][0] == Pick(r)
  {
    if Top(r.qs) != -1 {
      assert r.qs[Top(r.qs)][0] == Pick(r);
    }
  }

  // ---------------------------------------------------------------- the events between turns

  /** What happens on one CPU: a turn of the scheduler loop; the running process gives up the CPU,
      sleeps or exits; a sleeper is woken; a process is allocated (with the stale tick count of its
      recycled queue node), started at a priority, or reaped by its parent. */
  datatype Event =
    Turn | Yield | Sleep | Exit | Wake(p: int) | Alloc(p: int, stale: int) | Start(p: int, pri: int) | Reap(p: int)

  predicate Enabled(s: Sched, e: Event) {
    match e
    case Turn => s.cpu == -1
    case Yield => 0 <= s.cpu < |s.procs|
    case Sleep => 0 <= s.cpu < |s.procs|
    case Exit => 0 <= s.cpu < |s.procs|
    case Wake(p) => 0 <= p < |s.procs| && s.procs[p].state == SLEEPING
    case Alloc(p, stale) => 0 <= p < |s.procs| && s.procs[p].state == UNUSED
    case Start(p, pri) => 0 <= p < |s.procs| && s.procs[p].state == EMBRYO && 0 <= pri < NLAYER
    case Reap(p) => s.cpu != -1 && 0 <= p < |s.procs| && s.procs[p].state == ZOMBIE
  }

  function WithState(s: Sched, p: int, st: PState): Sched
    requires 0 <= p < |s.procs|
  {
    s.(procs := s.procs[p := s.procs[p].(state := st)])
  }

  function Exec(s: Sched, e: Event): Sched
    requires Shaped(s) && Enabled(s, e)
  {
    match e
    case Turn => Run(Refresh(s))
    case Yield => WithState(s, s.cpu, RUNNABLE).(cpu := -1)
    case Sleep => WithState(s, s.cpu, SLEEPING).(cpu := -1)
    case Exit => WithState(s, s.cpu, ZOMBIE).(cpu := -1)
    case Wake(p) => WithState(s, p, RUNNABLE)
    case Alloc(p, stale) =>
      s.(procs := s.procs[p := s.procs[p].(state := EMBRYO, putIn := -1, ticks := stale, total := [0, 0, 0, 0],
          qtail := [0, 0, 0, 0])])
    case Start(p, pri) => s.(procs := s.procs[p := s.procs[p].(state := RUNNABLE, priority := pri)])
    case Reap(p) => s.(procs := s.procs[p := s.procs[p].(state := UNUSED, ticks := 0)])
  }

  /** Between events: the running process, if any, is at the front of its queue and the only one
      queued that is not RUNNABLE or has used up its slice. */
  ghost predicate Inv(s: Sched) {
    && Queued(s) && -1 <= s.cpu < |s.procs|
    && (s.cpu != -1 ==> s.procs[s.cpu].state == RUNNING && s.procs[s.cpu].putIn != -1)
    && (forall p {:trigger s.procs[p]} :: 0 <= p < |s.procs| && p != s.cpu ==>
         s.procs[p].state != RUNNING && (s.cpu != -1 ==> !Special(s.procs[p])))
  }

  lemma {:induction false} StartsInv(n: nat, cpu: int)
    requires cpu == -1
    ensures Inv(Sched(seq(n, _ => Proc(UNUSED, 0, -1, 0, [0, 0, 0, 0], [0, 0, 0, 0])), [[], [], [], []], cpu))
  {
    var s := Sched(seq(n, _ => Proc(UNUSED, 0, -1, 0, [0, 0, 0, 0], [0, 0, 0, 0])), [[], [], [], []], cpu);
    forall p | 0 <= p < |s.procs| ensures ProcOk(s, p) {}
  }

  lemma TurnKeeps(s: Sched)
    requires Inv(s) && s.cpu == -1
    ensures Inv(Exec(s, Turn))
  {
    hide RefreshUpTo;
    RefreshKeeps(s, |s.procs|);
    RefreshCpu(s, |s.procs|);
    var r := Refresh(s);
    PickQueued(r);
    if Top(r.qs) != -1 {
      var h := Pick(r);
      PickIsRunnable(s);
      var t := Run(r);
      forall p | 0 <= p < |t.procs|
        ensures ProcOk(t, p)
      {
        assert ProcOk(r, p);
      }
    }
  }

  lemma {:induction false} RefreshCpu(s: Sched, k: int)
    requires Shaped(s) && 0 <= k <= |s.procs|
    ensures RefreshUpTo(s, k).cpu == s.cpu
    decreases k
  {
    hide Without;
    if k > 0 {
      RefreshCpu(s, k - 1);
    }
  }

  function LeaveEvent(st: PState): Event {
    if st == RUNNABLE then Yield else if st == SLEEPING then Sleep else Exit
  }

  lemma LeaveIs(s: Sched, st: PState)
    requires Shaped(s) && 0 <= s.cpu < |s.procs| && (st == RUNNABLE || st == SLEEPING || st == ZOMBIE)
    ensures Enabled(s, LeaveEvent(st)) && Exec(s, LeaveEvent(st)) == WithState(s, s.cpu, st).(cpu := -1)
  {}

  /** The CPU is given up: the process stays at the front until the next refresh. */
  lemma LeaveKeeps(s: Sched, st: PState)
    requires Inv(s) && s.cpu != -1 && (st == RUNNABLE || st == SLEEPING || st == ZOMBIE)
    ensures Inv(WithState(s, s.cpu, st).(cpu := -1))
  {
    hide Refresh, RefreshUpTo, Run;
    var t := WithState(s, s.cpu, st).(cpu := -1);
    assert ProcOk(s, s.cpu);
    forall p | 0 <= p < |t.procs|
      ensures ProcOk(t, p)
    {
      assert ProcOk(s, p);
    }
  }

  /** A change to one process that is not running and, unless it is a sleeper that wakes, is in no
      queue. */
  lemma ChangeKeeps(s: Sched, p: int, y: Proc)
    requires Inv(s) && 0 <= p < |s.procs| && p != s.cpu
    requires |y.total| == |y.qtail| == NLAYER && 0 <= y.priority < NLAYER
    requires y.putIn == s.procs[p].putIn && y.state != RUNNING
    requires y.putIn == -1 || (y == s.procs[p].(state := RUNNABLE) && s.procs[p].state == SLEEPING)
    ensures Inv(s.(procs := s.procs[p := y]))
  {
    var t := s.(procs := s.procs[p := y]);
    assert ProcOk(s, p);
    forall r | 0 <= r < |t.procs|
      ensures ProcOk(t, r)
    {
      assert ProcOk(s, r);
    }
  }

  /** Unallocated and embryonic processes, and zombies once someone else runs, are in no queue. */
  lemma OutOfQueues(s: Sched, p: int)
    requires Inv(s) && 0 <= p < |s.procs|
    requires s.procs[p].state == UNUSED || s.procs[p].state == EMBRYO || (s.procs[p].state == ZOMBIE && s.cpu != -1)
    ensures s.procs[p].putIn == -1 && p != s.cpu
    ensures forall pri, i {:trigger s.qs[pri][i]} :: 0 <= pri < NLAYER && 0 <= i < |s.qs[pri]| ==> s.qs[pri][i] != p
  {
    assert ProcOk(s, p);
  }

  lemma EventKeeps(s: Sched, e: Event)
    requires Inv(s) && Enabled(s, e) && e != Turn
    ensures Inv(Exec(s, e))
  {
    hide Refresh, RefreshUpTo, Run, Queued;
    QueuedShaped(s);
    match e
    case Yield => LeaveKeeps(s, RUNNABLE);
    case Sleep => LeaveKeeps(s, SLEEPING);
    case Exit => LeaveKeeps(s, ZOMBIE);
    case Wake(p) => ChangeKeeps(s, p, s.procs[p].(state := RUNNABLE));
    case Alloc(p, _) => OutOfQueues(s, p); ChangeKeeps(s, p, Exec(s, e).procs[p]);
    case Start(p, _) => OutOfQueues(s, p); ChangeKeeps(s, p, Exec(s, e).procs[p]);
    case Reap(p) => OutOfQueues(s, p); ChangeKeeps(s, p, Exec(s, e).procs[p]);
  }

  ghost predicate Step(s: Sched, e: Event, t: Sched) {
    Shaped(s) && Enabled(s, e) && t == Exec(s, e)
  }

  lemma StepKeeps(s: Sched, e: Event, t: Sched)
    requires Inv(s) && Step(s, e, t)
    ensures Inv(t) && |t.procs| == |s.procs|
  {
    hide Inv;
    if e == Turn {
      TurnKeeps(s);
      RefreshOneCount(s);
    } else {
      EventKeeps(s, e);
    }
  }

  lemma RefreshOneCount(s: Sched)
    requires Shaped(s)
    ensures |Run(Refresh(s)).procs| == |s.procs|
  {}

  ghost predicate Runs(run: seq<Sched>, evs: seq<Event>) {
    && |run| == |evs| + 1 && Inv(run[0])
    && forall i {:trigger evs[i]} :: 0 <= i < |evs| ==> Step(run[i], evs[i], run[i + 1])
  }

  /** Every state of every run keeps the invariant: in particular no slice is ever exceeded. */
  lemma {:induction false} InvHolds(run: seq<Sched>, evs: seq<Event>, k: nat, p: int)
    requires Runs(run, evs) && k < |run|
    ensures Inv(run[k]) && |run[k].procs| == |run[0].procs|
    ensures 0 <= p < |run[k].procs| && run[k].procs[p].putIn != -1 ==>
              run[k].procs[p].ticks <= (5 - run[k].procs[p].priority) * 4
    decreases k
  {
    hide Exec;
    if k > 0 {
      InvHolds(run, evs, k - 1, p);
      var e := evs[k - 1];
      StepKeeps(run[k - 1], e, run[k]);
    }
    if 0 <= p < |run[k].procs| {
      assert ProcOk(run[k], p);
    }
  }

  // ---------------------------------------------------------------- bounded waiting

  /** The picks that the processes before p in q can still take. */
  ghost function Ahead(procs: seq<Proc>, q: seq<int>, pri: int, p: int): int {
    if q == [] || q[0] == p then 0
    else (if 0 <= q[0] < |procs| then Slice(pri) - procs[q[0]].ticks else 0) + Ahead(procs, q[1..], pri, p)
  }

  lemma {:induction false} AheadFrame(procs: seq<Proc>, procs': seq<Proc>, q: seq<int>, pri: int, p: int)
    requires |procs'| == |procs|
    requires forall i {:trigger q[i]} :: 0 <= i < |q| && q[i] != p && 0 <= q[i] < |procs| ==>
               procs'[q[i]].ticks == procs[q[i]].ticks
    ensures Ahead(procs', q, pri, p) == Ahead(procs, q, pri, p)
    decreases |q|
  {
    if q != [] && q[0] != p {
      forall i | 0 <= i < |q[1..]|
        ensures q[1..][i] == q[i + 1]
      {}
      AheadFrame(procs, procs', q[1..], pri, p);
    }
  }

  /** Joining at the tail keeps p's wait. */
  lemma {:induction false} AheadTail(procs: seq<Proc>, q: seq<int>, pri: int, p: int, x: int)
    requires p in q
    ensures Ahead(procs, q + [x], pri, p) == Ahead(procs, q, pri, p)
    decreases |q|
  {
    assert (q + [x])[0] == q[0];
    if q[0] != p {
      assert (q + [x])[1..] == q[1..] + [x];
      AheadTail(procs, q[1..], pri, p, x);
    }
  }

  lemma {:induction false} AheadBound(procs: seq<Proc>, q: seq<int>, pri: int, p: int, k: nat)
    requires k < |q| && q[k] == p && pri < 5
    requires forall i {:trigger q[i]} :: 0 <= i < |q| ==> 0 <= q[i] < |procs| && 0 <= procs[q[i]].ticks <= Slice(pri)
    ensures 0 <= Ahead(procs, q, pri, p) <= k * Slice(pri)
    decreases k
  {
    if q[0] != p {
      var r := q[1..];
      assert forall i :: 0 <= i < |r| ==> r[i] == q[i + 1];
      AheadBound(procs, r, pri, p, k - 1);
      assert (k - 1) * Slice(pri) + Slice(pri) == k * Slice(pri);
    }
  }

  /** p is in its queue and will stay there until it is picked. */
  ghost predicate Waits(s: Sched, p: int, pri: int) {
    && 0 <= p < |s.procs| && 0 <= pri < NLAYER && |s.qs| == NLAYER
    && s.procs[p].state == RUNNABLE && s.procs[p].putIn == pri && !Special(s.procs[p])
  }

  ghost function Wait(s: Sched, p: int, pri: int): int
    requires Waits(s, p, pri)
  {
    Ahead(s.procs, s.qs[pri], pri, p)
  }

  /** A change at the ends of q by x never makes p wait longer. */
  lemma WaitEnds(procs: seq<Proc>, procs': seq<Proc>, q: seq<int>, r: seq<int>, pri: int, p: int, x: int)
    requires x != p && p in q && OnlyEnds(q, r, x) && |procs'| == |procs| && 0 <= x < |procs|
    requires forall y {:trigger procs'[y]} :: 0 <= y < |procs| && y != x ==> procs'[y].ticks == procs[y].ticks
    requires r == q && x in q ==> procs'[x].ticks == procs[x].ticks
    requires q[0] == x ==> procs[x].ticks <= Slice(pri)
    ensures Ahead(procs', r, pri, p) <= Ahead(procs, q, pri, p)
  {
    hide Ahead;
    if r == q {
      AheadFrame(procs, procs', q, pri, p);
    } else if x !in q {
      AheadFrame(procs, procs', q, pri, p);
      AheadTail(procs', q, pri, p, x);
    } else {
      AheadHead(procs, q, pri, p);
      AheadFrame(procs, procs', q[1..], pri, p);
      InTail(q, p);
      AheadTail(procs', q[1..], pri, p, x);
    }
  }

  /** One round for x leaves the records of the others. */
  lemma RefreshOneRecords(s: Sched, x: int)
    requires Shaped(s) && 0 <= x < |s.procs|
    ensures var t := RefreshOne(s, x);
            && |t.procs| == |s.procs| && |t.qs| == NLAYER
            && (forall y {:trigger t.procs[y]} :: 0 <= y < |s.procs| && y != x ==> t.procs[y] == s.procs[y])
  {
    hide Without;
  }

  /** In its own queue x keeps its ticks, unless it moves there. */
  lemma RefreshOneTicks(s: Sched, x: int, pri: int)
    requires Queued(s) && 0 <= x < |s.procs| && 0 <= pri < NLAYER && x in s.qs[pri]
    ensures s.procs[x].putIn == pri && s.procs[x].ticks <= Slice(pri)
    ensures RefreshOne(s, x).procs[x].ticks == s.procs[x].ticks || RefreshOne(s, x).qs[pri] == s.qs[pri][1..] + [x]
  {
    assert ProcOk(s, x);
    var i :| 0 <= i < |s.qs[pri]| && s.qs[pri][i] == x;
    if Special(s.procs[x]) {
      RemoveQueued(s, x);
      hide Without;
    }
  }

  lemma WaitRefreshOne(s: Sched, x: int, p: int, pri: int)
    requires Queued(s) && 0 <= x < |s.procs| && Waits(s, p, pri)
    ensures Waits(RefreshOne(s, x), p, pri) && Wait(RefreshOne(s, x), p, pri) <= Wait(s, p, pri)
  {
    hide Queued, RefreshOne, Ahead;
    WaitsQueued(s, p, pri);
    var t, q := RefreshOne(s, x), s.qs[pri];
    if x == p {
      WaitsStay(s, p, pri);
    } else {
      RefreshOneRecords(s, x);
      RefreshOneQueued(s, x);
      if x in q {
        RefreshOneTicks(s, x, pri);
      }
      assert t.qs[pri] == q && x in q ==> t.procs[x].ticks == s.procs[x].ticks by {
        if x in q {
          SameEnds(s, x, p, pri);
        }
      }
      WaitEnds(s.procs, t.procs, q, t.qs[pri], pri, p, x);
    }
  }

  lemma WaitsQueued(s: Sched, p: int, pri: int)
    requires Queued(s) && Waits(s, p, pri)
    ensures Shaped(s) && p in s.qs[pri]
  {
    assert ProcOk(s, p);
  }

  /** A waiting process's own round does nothing. */
  lemma WaitsStay(s: Sched, p: int, pri: int)
    requires Queued(s) && Waits(s, p, pri)
    ensures RefreshOne(s, p) == s
  {
    assert ProcOk(s, p);
  }

  lemma SameEnds(s: Sched, x: int, p: int, pri: int)
    requires Queued(s) && 0 <= pri < NLAYER && x in s.qs[pri] && p in s.qs[pri] && x != p
    ensures s.qs[pri][1..] + [x] != s.qs[pri]
  {
    var q := s.qs[pri];
    assert |q| > 1;
    assert (q[1..] + [x])[0] == q[1];
    assert q[0] != q[1];
  }

  lemma InTail(q: seq<int>, p: int)
    requires p in q && q[0] != p
    ensures p in q[1..]
  {
    var i :| 0 <= i < |q| && q[i] == p;
    assert q[1..][i - 1] == p;
  }

  lemma AheadHead(procs: seq<Proc>, q: seq<int>, pri: int, p: int)
    requires q != [] && q[0] != p && 0 <= q[0] < |procs|
    ensures Ahead(procs, q, pri, p) == Slice(pri) - procs[q[0]].ticks + Ahead(procs, q[1..], pri, p)
  {}

  lemma {:induction false} WaitRefresh(s: Sched, k: int, p: int, pri: int)
    requires Queued(s) && 0 <= k <= |s.procs| && Waits(s, p, pri)
    ensures Waits(RefreshUpTo(s, k), p, pri) && Wait(RefreshUpTo(s, k), p, pri) <= Wait(s, p, pri)
    decreases k
  {
    hide RefreshOne, Queued, Waits, Wait;
    QueuedShaped(s);
    if k > 0 {
      WaitRefresh(s, k - 1, p, pri);
      RefreshKeeps(s, k - 1);
      WaitRefreshOne(RefreshUpTo(s, k - 1), k - 1, p, pri);
    }
  }

  /** A turn that serves p's queue, but not p, uses up one of the picks ahead of p. */
  lemma WaitTurn(s: Sched, p: int, pri: int)
    requires Inv(s) && s.cpu == -1 && Waits(s, p, pri)
    requires Top(Refresh(s).qs) == pri && Pick(Refresh(s)) != p
    ensures Waits(Exec(s, Turn), p, pri) && Wait(Exec(s, Turn), p, pri) < Wait(s, p, pri)
  {
    hide RefreshUpTo, Ahead, ProcOk;
    QueuedShaped(s);
    var r := Refresh(s);
    WaitRefresh(s, |s.procs|, p, pri);
    RefreshKeeps(s, |s.procs|);
    PickQueued(r);
    PickIsRunnable(s);
    var t, q := Run(r), r.qs[pri];
    AheadHead(r.procs, q, pri, p);
    AheadHead(t.procs, q, pri, p);
    AheadFrame(r.procs, t.procs, q[1..], pri, p);
  }

  lemma WaitOther(s: Sched, e: Event, p: int, pri: int)
    requires Inv(s) && Enabled(s, e) && e != Turn && Waits(s, p, pri)
    ensures Waits(Exec(s, e), p, pri) && Wait(Exec(s, e), p, pri) == Wait(s, p, pri)
  {
    hide Refresh, Ahead, ProcOk;
    if e.Alloc? || e.Start? || e.Reap? {
      OutOfQueues(s, e.p);
    }
    AheadFrame(s.procs, Exec(s, e).procs, s.qs[pri], pri, p);
  }

  function Turns(evs: seq<Event>): nat {
    if evs == [] then 0 else Turns(evs[..|evs| - 1]) + if evs[|evs| - 1] == Turn then 1 else 0
  }

  /** The turn at s serves priority pri, and someone other than p. */
  ghost predicate ServesOthers(s: Sched, p: int, pri: int) {
    Shaped(s) && Top(Refresh(s).qs) == pri && Pick(Refresh(s)) != p
  }

  lemma {:induction false} WaitShrinks(run: seq<Sched>, evs: seq<Event>, p: int, pri: int, n: nat)
    requires Runs(run, evs) && n <= |evs| && Waits(run[0], p, pri)
    requires forall i {:trigger evs[i]} :: 0 <= i < n && evs[i] == Turn ==> ServesOthers(run[i], p, pri)
    ensures Inv(run[n]) && Waits(run[n], p, pri)
    ensures Wait(run[n], p, pri) + Turns(evs[..n]) <= Wait(run[0], p, pri)
    decreases n
  {
    hide Exec, Wait, Waits, Inv;
    InvHolds(run, evs, n, p);
    if n > 0 {
      WaitShrinks(run, evs, p, pri, n - 1);
      var s, e := run[n - 1], evs[n - 1];
      assert evs[..n][..n - 1] == evs[..n - 1];
      assert Step(s, e, run[n]);
      if e == Turn {
        assert ServesOthers(s, p, pri);
        TurnIdle(s);
        WaitTurn(s, p, pri);
      } else {
        WaitOther(s, e, p, pri);
      }
    }
  }

  lemma TurnIdle(s: Sched)
    requires Shaped(s) && Enabled(s, Turn)
    ensures s.cpu == -1
  {}

  /** Bounded waiting: while nothing of higher priority is served, a process at position k of its
      queue is picked after at most k * (5 - pri) * 4 picks of others. */
  lemma BoundedWaiting(run: seq<Sched>, evs: seq<Event>, p: int, pri: int, k: nat)
    requires Runs(run, evs) && Waits(run[0], p, pri) && k < |run[0].qs[pri]| && run[0].qs[pri][k] == p
    requires forall i {:trigger evs[i]} :: 0 <= i < |evs| && evs[i] == Turn ==> ServesOthers(run[i], p, pri)
    ensures Turns(evs) <= k * ((5 - pri) * 4)
  {
    hide Exec, Ahead;
    WaitShrinks(run, evs, p, pri, |evs|);
    assert evs[..|evs|] == evs;
    var s, t := run[0], run[|evs|];
    InQueueTicks(s, pri);
    AheadBound(s.procs, s.qs[pri], pri, p, k);
    InQueueTicks(t, pri);
    assert ProcOk(t, p);
    var j :| 0 <= j < |t.qs[pri]| && t.qs[pri][j] == p;
    AheadBound(t.procs, t.qs[pri], pri, p, j);
  }

  lemma InQueueTicks(s: Sched, pri: int)
    requires Queued(s) && 0 <= pri < NLAYER
    ensures forall i {:trigger s.qs[pri][i]} :: 0 <= i < |s.qs[pri]| ==>
              0 <= s.qs[pri][i] < |s.procs| && 0 <= s.procs[s.qs[pri][i]].ticks <= Slice(pri)
  {
    forall i | 0 <= i < |s.qs[pri]|
      ensures 0 <= s.qs[pri][i] < |s.procs| && 0 <= s.procs[s.qs[pri][i]].ticks <= Slice(pri)
    {
      assert ProcOk(s, s.qs[pri][i]);
    }
  }
}
