/** Time slices of the multi-level queue scheduler (proc.c:412-517 of 04): refresh_q as a whole,
    without its loop, and what the counters of a process count over a run. The slice at priority
    pri is written out, as (5 - pri) * 4 ticks. */
module MlqSlices {
  import opened MlqMachine

  // ---------------------------------------------------------------- refresh_q as a whole

  /** The next refresh puts process p at the tail of pri's queue: it is RUNNABLE and was not in it,
      or its slice is over. */
  predicate Rejoins(s: Sched, p: int, pri: int)
    requires 0 <= p < |s.procs| && 0 <= pri < |s.qs|
  {
    && s.procs[p].state == RUNNABLE && s.procs[p].priority == pri
    && (p !in s.qs[pri] || s.procs[p].ticks == (5 - pri) * 4)
  }

  /** The processes below k that rejoin pri's queue, in table order. */
  function Joiners(s: Sched, pri: int, k: int): seq<int>
    requires 0 <= pri < |s.qs| && 0 <= k <= |s.procs|
  {
    if k == 0 then []
    else if Rejoins(s, k - 1, pri) then Joiners(s, pri, k - 1) + [k - 1]
    else Joiners(s, pri, k - 1)
  }

  /** What stays of the queue once the rounds below k are done: all but the front, when it has
      stopped running or its slice is over. */
  function Kept(s: Sched, pri: int, k: int): seq<int>
    requires 0 <= pri < |s.qs|
  {
    var q := s.qs[pri];
    if q != [] && 0 <= q[0] < k && q[0] < |s.procs|
       && (s.procs[q[0]].state != RUNNABLE || s.procs[q[0]].ticks == (5 - pri) * 4) then q[1..]
    else q
  }

  /** What the record of p is once its round is done. */
  function Renewed(s: Sched, p: int): Proc
    requires Shaped(s) && 0 <= p < |s.procs|
  {
    var x := s.procs[p];
    var back := Rejoins(s, p, x.priority);
    x.(putIn := if x.state == RUNNABLE then x.priority else -1,
       ticks := if back then 0 else x.ticks,
       qtail := if back then x.qtail[x.priority := x.qtail[x.priority] + 1] else x.qtail)
  }

  lemma InQueue(s: Sched, p: int, pri: int)
    requires Queued(s) && 0 <= p < |s.procs| && 0 <= pri < NLAYER
    ensures p in s.qs[pri] <==> s.procs[p].putIn == pri
    ensures p in s.qs[pri] ==> s.procs[p].priority == pri && s.procs[p].state != UNUSED
  {
    assert ProcOk(s, p);
    if p in s.qs[pri] {
      var i :| 0 <= i < |s.qs[pri]| && s.qs[pri][i] == p;
    }
  }

  lemma RenewOne(s: Sched, u: Sched, p: int)
    requires Queued(s) && Queued(u) && |u.procs| == |s.procs| && 0 <= p < |s.procs| && u.procs[p] == s.procs[p]
    ensures RefreshOne(u, p).procs == u.procs[p := Renewed(s, p)]
  {
    hide Without;
    assert ProcOk(s, p);
    InQueue(s, p, s.procs[p].priority);
  }

  /** refresh_q renews every record once. */
  lemma {:induction false} RefreshRecords(s: Sched, k: int, p: int)
    requires Queued(s) && 0 <= k <= |s.procs| && 0 <= p < |s.procs|
    ensures RefreshUpTo(s, k).procs[p] == if p < k then Renewed(s, p) else s.procs[p]
    decreases k
  {
    hide Queued, RefreshOne, Renewed;
    QueuedShaped(s);
    if k > 0 {
      RefreshRecords(s, k - 1, p);
      RefreshRecords(s, k - 1, k - 1);
      RefreshKeeps(s, k - 1);
      RenewOne(s, RefreshUpTo(s, k - 1), k - 1);
    }
  }

  /** x has stopped running, or its slice is over. */
  predicate Ends(s: Sched, x: int, pri: int)
    requires 0 <= x < |s.procs|
  {
    s.procs[x].state != RUNNABLE || s.procs[x].ticks == (5 - pri) * 4
  }

  /** Only a queue's front stops running or ends its slice. */
  lemma FrontSpecial(s: Sched, x: int, pri: int)
    requires Queued(s) && 0 <= x < |s.procs| && 0 <= pri < NLAYER
    ensures x in s.qs[pri] && Ends(s, x, pri) ==> s.qs[pri][0] == x
    ensures s.procs[x].state == UNUSED ==> s.procs[x].putIn == -1
  {
    assert ProcOk(s, x);
    InQueue(s, x, pri);
  }

  /** One round of refresh_q on one queue. */
  lemma OneQueue(u: Sched, x: int, pri: int)
    requires Queued(u) && 0 <= x < |u.procs| && 0 <= pri < NLAYER
    ensures var q := u.qs[pri];
            RefreshOne(u, x).qs[pri] == (if x in q && Ends(u, x, pri) then q[1..] else q)
                                        + (if Rejoins(u, x, pri) then [x] else [])
  {
    hide Without, Queued;
    QueuedShaped(u);
    InQueue(u, x, pri);
    PutInPlace(u, x);
    FrontSpecial(u, x, pri);
    if u.procs[x].state != RUNNABLE && u.procs[x].putIn != -1 {
      RemoveQueued(u, x);
    } else if u.procs[x].state == RUNNABLE && u.procs[x].putIn != -1 && u.procs[x].ticks == Slice(u.procs[x].putIn) {
      RotateQueued(u, x);
    }
  }

  /** What round x takes from the front of the queue. */
  lemma KeptNext(s: Sched, pri: int, x: int)
    requires Queued(s) && 0 <= x < |s.procs| && 0 <= pri < NLAYER
    ensures if x in s.qs[pri] && Ends(s, x, pri)
            then Kept(s, pri, x) != [] && Kept(s, pri, x + 1) == Kept(s, pri, x)[1..]
            else Kept(s, pri, x + 1) == Kept(s, pri, x)
  {
    FrontSpecial(s, x, pri);
  }

  lemma RoundOrder(s: Sched, u: Sched, k: int, pri: int)
    requires Queued(s) && Queued(u) && |u.procs| == |s.procs| && 0 < k <= |s.procs| && 0 <= pri < NLAYER
    requires u.procs[k - 1] == s.procs[k - 1] && u.qs[pri] == Kept(s, pri, k - 1) + Joiners(s, pri, k - 1)
    ensures RefreshOne(u, k - 1).qs[pri] == Kept(s, pri, k) + Joiners(s, pri, k)
  {
    hide Queued, RefreshOne, Kept;
    QueuedShaped(s);
    QueuedShaped(u);
    InQueue(s, k - 1, pri);
    InQueue(u, k - 1, pri);
    OneQueue(u, k - 1, pri);
    KeptNext(s, pri, k - 1);
  }

  lemma {:induction false} OrderUpTo(s: Sched, k: int, pri: int)
    requires Queued(s) && 0 <= k <= |s.procs| && 0 <= pri < NLAYER
    ensures RefreshUpTo(s, k).qs[pri] == Kept(s, pri, k) + Joiners(s, pri, k)
    decreases k
  {
    hide Queued, RefreshOne;
    QueuedShaped(s);
    if k > 0 {
      OrderUpTo(s, k - 1, pri);
      RefreshRecords(s, k - 1, k - 1);
      RefreshKeeps(s, k - 1);
      RoundOrder(s, RefreshUpTo(s, k - 1), k, pri);
    }
  }

  /** refresh_q as a whole: of each queue the front leaves if it has stopped running or its slice is
      over, and the RUNNABLE processes that were in no queue or whose slice is over follow at the
      tail, in table order, with a new slice. */
  lemma RefreshOrder(s: Sched, pri: int)
    requires Queued(s) && 0 <= pri < NLAYER
    ensures Refresh(s).qs[pri] == Kept(s, pri, |s.procs|) + Joiners(s, pri, |s.procs|)
    ensures forall p :: 0 <= p < |s.procs| ==> Refresh(s).procs[p] == Renewed(s, p)
  {
    hide Queued, RefreshUpTo, Renewed, Kept, Joiners;
    QueuedShaped(s);
    OrderUpTo(s, |s.procs|, pri);
    forall p | 0 <= p < |s.procs|
      ensures RefreshUpTo(s, |s.procs|).procs[p] == Renewed(s, p)
    {
      RefreshRecords(s, |s.procs|, p);
    }
  }

  /** A RUNNABLE front stays in front exactly when its slice of (5 - pri) * 4 ticks is not over, or
      no one is behind it and no one ahead of it in the table joins. */
  lemma FrontStays(s: Sched, p: int, pri: int)
    requires Queued(s) && 0 <= pri < NLAYER && s.qs[pri] != [] && s.qs[pri][0] == p
    requires 0 <= p < |s.procs| && s.procs[p].state == RUNNABLE
    ensures Refresh(s).qs[pri] != []
    ensures Refresh(s).qs[pri][0] == p <==>
            s.procs[p].ticks != (5 - pri) * 4
            || (s.qs[pri] == [p] && forall x :: 0 <= x < p ==> !Rejoins(s, x, pri))
  {
    hide RefreshUpTo, Queued;
    QueuedShaped(s);
    InQueue(s, p, pri);
    RefreshOrder(s, pri);
    FrontOnce(s, p, pri);
    if s.procs[p].ticks == (5 - pri) * 4 {
      FirstJoiner(s, pri, |s.procs|);
      assert Rejoins(s, p, pri);
    }
  }

  lemma FrontOnce(s: Sched, p: int, pri: int)
    requires Queued(s) && 0 <= pri < NLAYER && s.qs[pri] != [] && s.qs[pri][0] == p
    ensures |s.qs[pri]| > 1 ==> s.qs[pri][1] != p
    ensures |s.qs[pri]| == 1 ==> s.qs[pri] == [p]
  {}

  /** The first that rejoins is the lowest in the table. */
  lemma {:induction false} FirstJoiner(s: Sched, pri: int, k: int)
    requires 0 <= pri < |s.qs| && 0 <= k <= |s.procs|
    ensures Joiners(s, pri, k) == [] ==> forall x :: 0 <= x < k ==> !Rejoins(s, x, pri)
    ensures Joiners(s, pri, k) != [] ==>
              var h := Joiners(s, pri, k)[0];
              0 <= h < k && Rejoins(s, h, pri) && forall x :: 0 <= x < h ==> !Rejoins(s, x, pri)
    decreases k
  {
    hide Rejoins;
    if k > 0 {
      FirstJoiner(s, pri, k - 1);
      if Joiners(s, pri, k - 1) != [] {
        assert Joiners(s, pri, k)[0] == Joiners(s, pri, k - 1)[0];
      }
    }
  }

  /** p gets ready by the event: it gives up the CPU, is woken, or is started. */
  predicate GetsReady(s: Sched, e: Event, p: int) {
    (e.Yield? && p == s.cpu) || (e.Wake? && e.p == p) || (e.Start? && e.p == p)
  }

  /** p stops being ready, or is not yet: it sleeps, exits, or its record is allocated or reaped. */
  predicate GetsIdle(s: Sched, e: Event, p: int) {
    ((e.Sleep? || e.Exit?) && p == s.cpu) || (e.Alloc? && e.p == p) || (e.Reap? && e.p == p)
  }

  /** What an event between turns means for the next refresh: who gets ready is in the queue of its
      priority, who does not is in none, and everyone else is where they would have been. */
  lemma EventQueues(s: Sched, e: Event, p: int, pri: int)
    requires Inv(s) && Enabled(s, e) && e != Turn && 0 <= p < |s.procs| && 0 <= pri < NLAYER
    ensures Shaped(s) && Shaped(Exec(s, e)) && p < |Exec(s, e).procs|
    ensures var t := Exec(s, e);
            p in Refresh(t).qs[pri] <==>
              if GetsReady(s, e, p) then pri == (if e.Start? then e.pri else s.procs[p].priority)
              else !GetsIdle(s, e, p) && p in Refresh(s).qs[pri]
    ensures Exec(s, e).cpu == if e.Yield? || e.Sleep? || e.Exit? then -1 else s.cpu
  {
    hide Refresh, RefreshUpTo, Queued, Special;
    QueuedShaped(s);
    EventKeeps(s, e);
    InvQueues(Exec(s, e));
    RefreshSorts(s, p, pri);
    RefreshSorts(Exec(s, e), p, pri);
  }

  lemma InvQueues(s: Sched)
    requires Inv(s)
    ensures Queued(s) && Shaped(s)
  {}

  // ---------------------------------------------------------------- what the counters count

  /** The turn at s picks p at priority pri. */
  ghost predicate Serves(s: Sched, p: int, pri: int) {
    Shaped(s) && Top(Refresh(s).qs) == pri && Pick(Refresh(s)) == p
  }

  ghost predicate Joins(s: Sched, p: int, pri: int) {
    0 <= p < |s.procs| && 0 <= pri < |s.qs| && Rejoins(s, p, pri)
  }

  function One(b: bool): nat { if b then 1 else 0 }

  /** The turns from the i-th event up to the j-th that pick p at priority pri. */
  ghost function Served(run: seq<Sched>, evs: seq<Event>, p: int, pri: int, i: nat, j: nat): nat
    requires i <= j <= |evs| < |run|
    decreases j
  {
    if i == j then 0
    else Served(run, evs, p, pri, i, j - 1) + One(evs[j - 1] == Turn && Serves(run[j - 1], p, pri))
  }

  /** Those that put p at the tail of pri's queue. */
  ghost function Joined(run: seq<Sched>, evs: seq<Event>, p: int, pri: int, i: nat, j: nat): nat
    requires i <= j <= |evs| < |run|
    decreases j
  {
    if i == j then 0
    else Joined(run, evs, p, pri, i, j - 1) + One(evs[j - 1] == Turn && Joins(run[j - 1], p, pri))
  }

  /** What one turn does to the counters of p. */
  lemma TurnCounts(s: Sched, p: int, pri: int)
    requires Inv(s) && s.cpu == -1 && 0 <= p < |s.procs| && 0 <= pri < NLAYER
    ensures Shaped(s) && p < |Exec(s, Turn).procs| && |s.qs| == NLAYER
    ensures var x, y := s.procs[p], Exec(s, Turn).procs[p];
            && |x.total| == |x.qtail| == |y.total| == |y.qtail| == NLAYER
            && y.total[pri] == x.total[pri] + One(Serves(s, p, pri))
            && y.qtail[pri] == x.qtail[pri] + One(Joins(s, p, pri))
            && y.ticks == (if Joins(s, p, x.priority) then 0 else x.ticks) + One(Serves(s, p, x.priority))
  {
    hide RefreshUpTo, Queued, Special;
    QueuedShaped(s);
    RefreshOrder(s, pri);
    RefreshKeeps(s, |s.procs|);
    var r := Refresh(s);
    PickQueued(r);
    if Pick(r) == p {
      PickIsRunnable(s);
    }
  }

  /** What any other event does to them. */
  lemma EventCounts(s: Sched, e: Event, p: int)
    requires Inv(s) && Enabled(s, e) && e != Turn && 0 <= p < |s.procs|
    requires !(e.Alloc? && e.p == p)
    ensures Shaped(s) && p < |Exec(s, e).procs|
    ensures var x, y := s.procs[p], Exec(s, e).procs[p];
            && y.total == x.total && y.qtail == x.qtail
            && (y.ticks == x.ticks || (x.putIn == -1 && forall pri :: 0 <= pri < NLAYER ==> p !in s.qs[pri]))
            && (y.priority == x.priority || x.putIn == -1)
  {
    hide Refresh, RefreshUpTo, Run, ProcOk;
    if e.Reap? || e.Start? {
      OutOfQueues(s, e.p);
    }
  }

  /** Until p's record is used for another process, total[pri] goes up by the turns that pick p at
      priority pri and qtail[pri] by those that put it at the tail of that queue. */
  lemma {:induction false} CountersCount(run: seq<Sched>, evs: seq<Event>, p: int, pri: int, i: nat, j: nat)
    requires Runs(run, evs) && i <= j <= |evs| && 0 <= pri < NLAYER && 0 <= p < |run[0].procs|
    requires forall k {:trigger evs[k]} :: i <= k < j ==> !(evs[k].Alloc? && evs[k].p == p)
    ensures Inv(run[i]) && Inv(run[j]) && |run[i].procs| == |run[j].procs| == |run[0].procs|
    ensures var x, y := run[i].procs[p], run[j].procs[p];
            && |x.total| == |x.qtail| == |y.total| == |y.qtail| == NLAYER
            && y.total[pri] == x.total[pri] + Served(run, evs, p, pri, i, j)
            && y.qtail[pri] == x.qtail[pri] + Joined(run, evs, p, pri, i, j)
    decreases j
  {
    hide Inv, Exec, Serves, Joins;
    InvHolds(run, evs, i, p);
    InvHolds(run, evs, j, p);
    InvCounters(run[i], p);
    if i < j {
      CountersCount(run, evs, p, pri, i, j - 1);
      assert Step(run[j - 1], evs[j - 1], run[j]);
      if evs[j - 1] == Turn {
        TurnIdle(run[j - 1]);
        TurnCounts(run[j - 1], p, pri);
      } else {
        EventCounts(run[j - 1], evs[j - 1], p);
      }
    }
  }

  lemma InvCounters(s: Sched, p: int)
    requires Inv(s) && 0 <= p < |s.procs|
    ensures Shaped(s) && |s.procs[p].total| == |s.procs[p].qtail| == NLAYER
  {}

  // ---------------------------------------------------------------- a whole slice

  /** One event while p stays in its queue and is not put at the tail. */
  lemma TicksStep(s: Sched, e: Event, t: Sched, p: int, pri: int)
    requires Inv(s) && Step(s, e, t) && 0 <= pri < NLAYER && |s.qs| == NLAYER && p in s.qs[pri]
    requires e == Turn ==> !Joins(s, p, pri)
    ensures 0 <= p < |s.procs| == |t.procs| && s.procs[p].priority == pri
    ensures t.procs[p].ticks == s.procs[p].ticks + One(e == Turn && Serves(s, p, pri))
  {
    hide Exec, Serves, Rejoins, Joins, Queued;
    StepKeeps(s, e, t);
    InvQueues(s);
    QueueRange(s, p, pri);
    InQueue(s, p, pri);
    if e == Turn {
      TurnIdle(s);
      TurnCounts(s, p, pri);
    } else {
      if e.Alloc? {
        OutOfQueues(s, e.p);
      }
      EventCounts(s, e, p);
    }
  }

  lemma QueueRange(s: Sched, p: int, pri: int)
    requires Queued(s) && 0 <= pri < NLAYER && p in s.qs[pri]
    ensures 0 <= p < |s.procs|
  {}

  /** The turn that puts p at the tail. */
  lemma TicksStart(s: Sched, t: Sched, p: int, pri: int)
    requires Inv(s) && Step(s, Turn, t) && 0 <= pri < NLAYER && Joins(s, p, pri)
    ensures 0 <= p < |s.procs| == |t.procs| && t.procs[p].ticks == One(Serves(s, p, pri))
  {
    hide Exec, Serves;
    TurnIdle(s);
    TurnCounts(s, p, pri);
    StepKeeps(s, Turn, t);
  }

  /** From a turn that puts p at the tail, p's ticks are the picks of p. */
  lemma {:induction false} TicksArePicks(run: seq<Sched>, evs: seq<Event>, p: int, pri: int, i: nat, j: nat)
    requires Runs(run, evs) && i < j <= |evs| && evs[i] == Turn && Joins(run[i], p, pri) && pri < NLAYER
    requires forall k {:trigger run[k]} :: i < k < j ==> Joins(run[k], p, pri) ==> evs[k] != Turn
    requires forall k {:trigger run[k]} :: i < k <= j ==> |run[k].qs| == NLAYER && p in run[k].qs[pri]
    ensures 0 <= pri < NLAYER && Inv(run[j]) && 0 <= p < |run[j].procs| && run[j].procs[p].priority == pri
    ensures run[j].procs[p].ticks == Served(run, evs, p, pri, i, j)
    decreases j
  {
    hide Exec, Enabled, Shaped, Serves, Joins, Queued, Inv;
    var s, e := run[j - 1], evs[j - 1];
    JoinsPriority(run[i], p, pri);
    InvHolds(run, evs, j - 1, p);
    InvHolds(run, evs, j, p);
    assert Step(s, e, run[j]);
    if j - 1 > i {
      TicksArePicks(run, evs, p, pri, i, j - 1);
      assert p in s.qs[pri];
      TicksStep(s, e, run[j], p, pri);
    } else {
      assert Served(run, evs, p, pri, i, i) == 0;
      TicksStart(s, run[j], p, pri);
    }
    InvQueues(run[j]);
    InQueue(run[j], p, pri);
  }

  lemma JoinsPriority(s: Sched, p: int, pri: int)
    requires Joins(s, p, pri)
    ensures 0 <= p < |s.procs| && 0 <= pri && s.procs[p].priority == pri
  {}

  /** Between two moves to the tail of the same queue, without leaving it, a process is picked
      exactly (5 - pri) * 4 times: no more and no fewer. */
  lemma SliceIsExact(run: seq<Sched>, evs: seq<Event>, p: int, pri: int, i: nat, j: nat)
    requires Runs(run, evs) && i < j < |evs| && evs[i] == evs[j] == Turn && pri < NLAYER
    requires Joins(run[i], p, pri) && Joins(run[j], p, pri)
    requires forall k {:trigger run[k]} :: i < k < j ==> Joins(run[k], p, pri) ==> evs[k] != Turn
    requires forall k {:trigger run[k]} :: i < k <= j ==> |run[k].qs| == NLAYER && p in run[k].qs[pri]
    ensures Served(run, evs, p, pri, i, j) == (5 - pri) * 4
  {
    hide Served, Exec;
    TicksArePicks(run, evs, p, pri, i, j);
  }
}
