/** begin_op, end_op and log_write (log.c:125-174, 213-233) as clients of sleep and wakeup on
    &log: no process sleeps through its admission, and end_op's panic cannot happen. */
module LogAdmission {
  import opened Params
  import opened SleepWakeup

  datatype Doing =
    | Outside    // not in a file-system operation
    | Begin      // in begin_op's loop
    | Admitted   // has counted itself in log.outstanding
    | Operating  // begin_op has returned
    | Write      // in log_write
    | Wrote      // has listed the block, or absorbed it
    | End        // in end_op
    | Ended      // was not the last operation: owes a wakeup
    | MustCommit // was the last operation: has set log.committing
    | Commit     // in commit(), without locks
    | Emptied    // commit() has set log.lh.n to 0
    | Finish     // back for log.lock
    | Finished   // has cleared log.committing: owes a wakeup
    | Leaving    // has called wakeup

  datatype Log = Log(n: nat, outstanding: int, committing: bool)

  type St = State<Doing, Log>

  /** The tests of begin_op's loop. */
  predicate Refused(d: Log) {
    d.committing || d.n + (d.outstanding + 1) * MAXOPBLOCKS > LOGSIZE
  }

  predicate Owes(c: Doing) {
    c == Ended || c == Finished
  }

  predicate ClientStep(q: Pc<Doing>, d: Log, to: Pc<Doing>, e: Log) {
    || (q == Out(Outside) && to == Want(Begin) && e == d)
    || (q == In(Begin) && Refused(d) && to == Sleep1(Begin) && e == d)
    || (q == In(Begin) && !Refused(d) && to == In(Admitted) && e == d.(outstanding := d.outstanding + 1))
    || (q == In(Admitted) && to == Out(Operating) && e == d)
    || (q == Out(Operating) && (to == Want(Write) || to == Want(End)) && e == d)
    || (q == In(Write) && to == In(Wrote) && (e == d || e == d.(n := d.n + 1)))
    || (q == In(Wrote) && to == Out(Operating) && e == d)
    || (q == In(End) && !d.committing && d.outstanding != 1 && to == In(Ended) &&
        e == d.(outstanding := d.outstanding - 1))
    || (q == In(End) && !d.committing && d.outstanding == 1 && to == In(MustCommit) &&
        e == d.(outstanding := 0, committing := true))
    || (q == In(Ended) && to == Wake1(Leaving) && e == d)
    || (q == In(MustCommit) && to == Out(Commit) && e == d)
    || (q == Out(Commit) && to == Out(Emptied) && e == d.(n := 0))
    || (q == Out(Emptied) && to == Want(Finish) && e == d)
    || (q == In(Finish) && to == In(Finished) && e == d.(committing := false))
    || (q == In(Finished) && to == Wake1(Leaving) && e == d)
    || (q == In(Leaving) && to == Out(Outside) && e == d)
  }

  ghost predicate Next(s: St, t: St) {
    || (exists p :: CanMove(s, p) && t == Move(s, p))
    || (exists p :: CanKill(s, p) && t == Kill(s, p))
    || (exists p, to, e :: p in s.pc && ClientShape(s.pc[p], to) && ClientStep(s.pc[p], s.d, to, e) &&
                           t == Client(s, p, to, e))
  }

  ghost predicate Start(s: St) {
    && s.lk == Free && s.ptable == Free && s.asleep == {} && s.d == Log(0, 0, false)
    && (forall p :: p in s.pc ==> s.pc[p] == Out(Outside))
  }

  ghost predicate Run(run: seq<St>) {
    && |run| > 0 && Start(run[0])
    && (forall i {:trigger run[i]} :: 0 < i < |run| ==> Next(run[i - 1], run[i]))
  }

  /** Counted in log.outstanding. */
  predicate Counted(c: Doing) {
    c == Admitted || c == Operating || c == Write || c == Wrote || c == End
  }

  /** Between setting log.committing and clearing it. */
  predicate Commits(c: Doing) {
    c == MustCommit || c == Commit || c == Emptied || c == Finish
  }

  predicate Placed(q: Pc<Doing>) {
    match q
    case Out(c) => c == Outside || c == Operating || c == Commit || c == Emptied
    case Want(c) => c == Begin || c == Write || c == End || c == Finish
    case In(c) => c != Outside && c != Operating && c != Commit && c != Emptied
    case Wake1(c) => c == Leaving
    case Wake2(c) => c == Leaving
    case Wake3(c) => c == Leaving
    case _ => q.c == Begin
  }

  ghost function Operations(pc: map<Pid, Pc<Doing>>): set<Pid> {
    set p | p in pc && Counted(pc[p].c)
  }

  ghost function Committers(pc: map<Pid, Pc<Doing>>): set<Pid> {
    set p | p in pc && Commits(pc[p].c)
  }

  ghost predicate Counting(s: St) {
    && (forall p :: p in s.pc ==> Placed(s.pc[p]))
    && s.d.outstanding == |Operations(s.pc)|
    && |Committers(s.pc)| == (if s.d.committing then 1 else 0)
    && (s.d.committing ==> s.d.outstanding == 0)
    && (forall p :: p in s.pc && (s.pc[p].c == Emptied || s.pc[p].c == Finish) ==> s.d.n == 0)
    && (s.d.outstanding == 0 && !s.d.committing ==> s.d.n == 0)
  }

  ghost predicate Inv(s: St) {
    MonitorInv(Refused, Owes, s) && Counting(s)
  }

  lemma CardRemove(ps: set<Pid>, p: Pid)
    ensures |ps| == |ps - {p}| + if p in ps then 1 else 0
  {
    if p in ps {
      assert ps == (ps - {p}) + {p};
    } else {
      assert ps == ps - {p};
    }
  }

  lemma CardChange(was: set<Pid>, now: set<Pid>, p: Pid)
    requires forall q :: q != p ==> (q in was <==> q in now)
    ensures |now| - |was| == (if p in now then 1 else 0) - (if p in was then 1 else 0)
  {
    assert was - {p} == now - {p};
    CardRemove(was, p);
    CardRemove(now, p);
  }

  /** One process changes position. */
  lemma Recount(pc: map<Pid, Pc<Doing>>, p: Pid, to: Pc<Doing>)
    requires p in pc
    ensures var c, t := pc[p].c, pc[p := to];
            && |Operations(t)| - |Operations(pc)| == (if Counted(to.c) then 1 else 0) - (if Counted(c) then 1 else 0)
            && |Committers(t)| - |Committers(pc)| == (if Commits(to.c) then 1 else 0) - (if Commits(c) then 1 else 0)
  {
    var t := pc[p := to];
    CardChange(Operations(pc), Operations(t), p);
    CardChange(Committers(pc), Committers(t), p);
  }

  /** Positions a process may only be in while it is counted, or commits. */
  lemma Member(pc: map<Pid, Pc<Doing>>, p: Pid)
    requires p in pc
    ensures Counted(pc[p].c) ==> |Operations(pc)| >= 1
    ensures Commits(pc[p].c) ==> |Committers(pc)| >= 1
  {
    assert Counted(pc[p].c) ==> p in Operations(pc);
    assert Commits(pc[p].c) ==> p in Committers(pc);
  }

  lemma MovePlaces(s: St, p: Pid)
    requires CanMove(s, p) && Placed(s.pc[p])
    ensures var t := Move(s, p);
            p in t.pc && Placed(t.pc[p]) && t.pc[p].c == s.pc[p].c && t.pc == s.pc[p := t.pc[p]] && t.d == s.d
  {
  }

  lemma MoveCounting(s: St, p: Pid)
    requires Counting(s) && CanMove(s, p)
    ensures Counting(Move(s, p))
  {
    MovePlaces(s, p);
    PlaceCounting(s, p, Move(s, p).pc[p]);
    assert Counting(s.(pc := Move(s, p).pc));
  }

  lemma PlaceCounting(s: St, p: Pid, to: Pc<Doing>)
    requires Counting(s) && p in s.pc && to.c == s.pc[p].c && Placed(to)
    ensures Counting(s.(pc := s.pc[p := to]))
  {
    hide Counted, Commits, Placed;
    Recount(s.pc, p, to);
  }

  lemma ClientPlaces(q: Pc<Doing>, d: Log, to: Pc<Doing>, e: Log)
    requires ClientStep(q, d, to, e) && Placed(q)
    ensures Placed(to)
    ensures e.committing == (d.committing || to.c == MustCommit) || to.c == Finished
    ensures e.outstanding == d.outstanding + (if Counted(to.c) then 1 else 0) - (if Counted(q.c) then 1 else 0)
  {
  }

  /** The counters after a client step, as numbers. */
  lemma ClientArith(q: Pc<Doing>, d: Log, to: Pc<Doing>, e: Log, ops: nat, coms: nat)
    requires ClientStep(q, d, to, e) && Placed(q)
    requires d.outstanding == ops && coms == (if d.committing then 1 else 0) && (d.committing ==> ops == 0)
    requires (Counted(q.c) ==> ops >= 1) && (Commits(q.c) ==> coms >= 1)
    ensures (if e.committing then 1 else 0) ==
            coms + (if Commits(to.c) then 1 else 0) - (if Commits(q.c) then 1 else 0)
    ensures e.committing ==> e.outstanding == 0
  {
  }

  lemma ClientEmpty(q: Pc<Doing>, d: Log, to: Pc<Doing>, e: Log, ops: nat, coms: nat)
    requires ClientStep(q, d, to, e) && Placed(q)
    requires d.outstanding == ops && coms == (if d.committing then 1 else 0) && (d.committing ==> ops == 0)
    requires (Counted(q.c) ==> ops >= 1) && (Commits(q.c) ==> coms >= 1)
    requires (q.c == Emptied || q.c == Finish ==> d.n == 0) && (ops == 0 && !d.committing ==> d.n == 0)
    ensures to.c == Emptied || to.c == Finish ==> e.n == 0
    ensures e.outstanding == 0 && !e.committing ==> e.n == 0
    ensures d.n == 0 && e.n != 0 ==> !d.committing
  {
  }

  /** The sets after a step whose counters are right. */
  lemma CountingAfter(s: St, p: Pid, to: Pc<Doing>, e: Log)
    requires Counting(s) && p in s.pc && Placed(to)
    requires e.outstanding == |Operations(s.pc)| + (if Counted(to.c) then 1 else 0) -
                              (if Counted(s.pc[p].c) then 1 else 0)
    requires (if e.committing then 1 else 0) ==
             |Committers(s.pc)| + (if Commits(to.c) then 1 else 0) - (if Commits(s.pc[p].c) then 1 else 0)
    requires e.committing ==> e.outstanding == 0
    requires to.c == Emptied || to.c == Finish ==> e.n == 0
    requires e.outstanding == 0 && !e.committing ==> e.n == 0
    requires s.d.n == 0 && e.n != 0 ==> !s.d.committing
    ensures Counting(s.(pc := s.pc[p := to], d := e))
  {
    Recount(s.pc, p, to);
    forall q | q in s.pc && (s.pc[q].c == Emptied || s.pc[q].c == Finish) ensures s.d.committing {
      Member(s.pc, q);
    }
  }

  lemma ClientCounting(s: St, p: Pid, to: Pc<Doing>, e: Log)
    requires Counting(s) && p in s.pc && ClientShape(s.pc[p], to) && ClientStep(s.pc[p], s.d, to, e)
    ensures Counting(Client(s, p, to, e))
  {
    Member(s.pc, p);
    ClientPlaces(s.pc[p], s.d, to, e);
    ClientArith(s.pc[p], s.d, to, e, |Operations(s.pc)|, |Committers(s.pc)|);
    ClientEmpty(s.pc[p], s.d, to, e, |Operations(s.pc)|, |Committers(s.pc)|);
    CountingAfter(s, p, to, e);
    assert Counting(s.(pc := s.pc[p := to], d := e));
  }

  lemma RespectsArith(q: Pc<Doing>, d: Log, to: Pc<Doing>, e: Log)
    requires ClientStep(q, d, to, e) && ClientShape(q, to) && Placed(q)
    requires Counted(q.c) ==> !d.committing
    requires q.c == Emptied || q.c == Finish ==> d.n == 0 == d.outstanding
    requires Commits(q.c) ==> d.committing
    ensures ClientRespects(Refused, Owes, q, d, to, e)
  {
  }

  lemma ClientRespected(s: St, p: Pid, to: Pc<Doing>, e: Log)
    requires Counting(s) && p in s.pc && ClientShape(s.pc[p], to) && ClientStep(s.pc[p], s.d, to, e)
    ensures ClientRespects(Refused, Owes, s.pc[p], s.d, to, e)
  {
    hide ClientStep, ClientShape, ClientRespects, Placed;
    Member(s.pc, p);
    assert Commits(s.pc[p].c) ==> s.d.committing;
    RespectsArith(s.pc[p], s.d, to, e);
  }

  lemma NextKeeps(s: St, t: St)
    requires Inv(s) && Next(s, t)
    ensures Inv(t)
  {
    if p :| CanMove(s, p) && t == Move(s, p) {
      MoveKeeps(Refused, Owes, s, p);
      MoveCounting(s, p);
    } else if p :| CanKill(s, p) && t == Kill(s, p) {
      KillKeeps(Refused, Owes, s, p);
    } else {
      var p, to, e :| p in s.pc && ClientShape(s.pc[p], to) && ClientStep(s.pc[p], s.d, to, e) &&
                      t == Client(s, p, to, e);
      ClientCounting(s, p, to, e);
      ClientRespected(s, p, to, e);
      ClientKeeps(Refused, Owes, s, p, to, e);
    }
  }

  lemma StartOk(s: St)
    requires Start(s)
    ensures Inv(s)
  {
    assert Operations(s.pc) == {};
    assert Committers(s.pc) == {};
  }

  lemma {:induction false} InvHolds(run: seq<St>, k: nat)
    requires Run(run) && k < |run|
    ensures Inv(run[k])
    decreases k
  {
    if k == 0 {
      StartOk(run[0]);
    } else {
      InvHolds(run, k - 1);
      NextKeeps(run[k - 1], run[k]);
    }
  }

  /** When log.lock is free, a process asleep in begin_op is one that must wait: a commit is
      under way, or admission is refused and another operation is still to end. */
  lemma NoLostWakeup(run: seq<St>, p: Pid)
    requires Run(run)
    requires var s := run[|run| - 1]; s.lk == Free && p in s.asleep
    ensures var s := run[|run| - 1];
            && p in s.pc && s.pc[p].c == Begin
            && (s.d.committing || (Refused(s.d) && s.d.outstanding >= 1))
  {
    InvHolds(run, |run| - 1);
  }

  /** log.outstanding counts exactly the operations between begin_op and end_op, at most one
      process commits, and it does so only when there are none. */
  lemma CommitsAlone(run: seq<St>)
    requires Run(run)
    ensures var s := run[|run| - 1];
            && s.d.outstanding == |Operations(s.pc)|
            && |Committers(s.pc)| <= 1
            && (s.d.committing <==> Committers(s.pc) != {})
            && (s.d.committing ==> Operations(s.pc) == {})
  {
    InvHolds(run, |run| - 1);
    var s := run[|run| - 1];
    assert s.d.committing ==> |Committers(s.pc)| == 1;
  }

  /** end_op never finds log.committing set, so its panic is unreachable. */
  lemma EndNeverPanics(run: seq<St>, p: Pid)
    requires Run(run)
    requires var s := run[|run| - 1]; p in s.pc && s.pc[p] == In(End)
    ensures !run[|run| - 1].d.committing && run[|run| - 1].d.outstanding >= 1
  {
    InvHolds(run, |run| - 1);
    Member(run[|run| - 1].pc, p);
  }

  ghost predicate CanStep(s: St, p: Pid) {
    CanMove(s, p) || (p in s.pc && exists to, e :: ClientStep(s.pc[p], s.d, to, e))
  }

  lemma ClientCanStep(s: St, p: Pid)
    requires Counting(s) && p in s.pc && (s.pc[p].In? || s.pc[p].Out?)
    ensures CanStep(s, p)
  {
    var q, d := s.pc[p], s.d;
    Member(s.pc, p);
    match q
    case Out(Outside) => assert ClientStep(q, d, Want(Begin), d);
    case Out(Operating) => assert ClientStep(q, d, Want(End), d);
    case Out(Commit) => assert ClientStep(q, d, Out(Emptied), d.(n := 0));
    case Out(Emptied) => assert ClientStep(q, d, Want(Finish), d);
    case In(Begin) =>
      assert if Refused(d) then ClientStep(q, d, Sleep1(Begin), d)
             else ClientStep(q, d, In(Admitted), d.(outstanding := d.outstanding + 1));
    case In(Admitted) => assert ClientStep(q, d, Out(Operating), d);
    case In(Write) => assert ClientStep(q, d, In(Wrote), d);
    case In(Wrote) => assert ClientStep(q, d, Out(Operating), d);
    case In(End) =>
      assert if d.outstanding == 1 then ClientStep(q, d, In(MustCommit), d.(outstanding := 0, committing := true))
             else ClientStep(q, d, In(Ended), d.(outstanding := d.outstanding - 1));
    case In(Ended) => assert ClientStep(q, d, Wake1(Leaving), d);
    case In(MustCommit) => assert ClientStep(q, d, Out(Commit), d);
    case In(Finish) => assert ClientStep(q, d, In(Finished), d.(committing := false));
    case In(Finished) => assert ClientStep(q, d, Wake1(Leaving), d);
    case In(Leaving) => assert ClientStep(q, d, Out(Outside), d);
  }

  /** While some process is inside an operation or waiting for one, some such process can take
      a step: refusal of admission never stops everyone. */
  lemma NeverStuck(run: seq<St>, p: Pid)
    requires Run(run)
    requires var s := run[|run| - 1]; p in s.pc && s.pc[p] != Out(Outside)
    ensures var s := run[|run| - 1]; exists q :: q in s.pc && s.pc[q] != Out(Outside) && CanStep(s, q)
  {
    hide Inv;
    InvHolds(run, |run| - 1);
    var s := run[|run| - 1];
    if s.ptable.Held? || s.lk.Held? {
      HolderSteps(s);
    } else {
      OtherSteps(s, p);
    }
  }

  lemma HolderSteps(s: St)
    requires Inv(s) && (s.ptable.Held? || s.lk.Held?)
    ensures exists q :: q in s.pc && s.pc[q] != Out(Outside) && CanStep(s, q)
  {
    hide ClientStep;
    HoldersMove(s);
    if s.ptable.Held? {
      assert CanStep(s, s.ptable.p);
    } else {
      if s.pc[s.lk.p].In? {
        ClientCanStep(s, s.lk.p);
      }
      assert CanStep(s, s.lk.p);
    }
  }

  lemma OtherSteps(s: St, p: Pid)
    requires Inv(s) && s.ptable.Free? && s.lk.Free? && p in s.pc && s.pc[p] != Out(Outside)
    ensures exists q :: q in s.pc && s.pc[q] != Out(Outside) && CanStep(s, q)
  {
    hide ClientStep;
    var h := if p !in s.asleep then p else Helper(s);
    if s.pc[h].Out? {
      ClientCanStep(s, h);
    }
    assert CanStep(s, h);
  }

  /** A process whose end_op or commit the sleepers wait for. */
  ghost function Helper(s: St): (h: Pid)
    requires Inv(s) && s.lk == Free && s.asleep != {}
    ensures h in s.pc && (Counted(s.pc[h].c) || Commits(s.pc[h].c))
  {
    var p :| p in s.asleep;
    assert Refused(s.d);
    assert Operations(s.pc) != {} || Committers(s.pc) != {};
    if Operations(s.pc) != {} then
      var h :| h in Operations(s.pc); h
    else
      var h :| h in Committers(s.pc); h
  }
}
