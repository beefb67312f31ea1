/** Sleep locks (sleeplock.c:22-42) over sleep and wakeup: mutual exclusion, no lost wakeup
    and no deadlock, for any number of processes in any interleaving. */
module SleepLock {
  import opened SleepWakeup

  datatype Doing =
    | Idle       // neither waiting for the lock nor holding it
    | Acquiring  // in acquiresleep's loop
    | Got        // has set lk->locked
    | Holding    // acquiresleep has returned
    | Releasing  // in releasesleep
    | Cleared    // has reset lk->locked
    | Leaving    // has called wakeup

  // lk->locked and lk->pid; pid 0 is no process.
  datatype Lock = Lock(locked: bool, pid: Pid)

  type St = State<Doing, Lock>

  predicate Blocked(d: Lock) {
    d.locked
  }

  predicate Owes(c: Doing) {
    c == Cleared
  }

  /** The statements of acquiresleep and releasesleep other than sleep and wakeup themselves. */
  predicate ClientStep(p: Pid, q: Pc<Doing>, d: Lock, to: Pc<Doing>, e: Lock) {
    || (q == Out(Idle) && to == Want(Acquiring) && e == d)
    || (q == In(Acquiring) && d.locked && to == Sleep1(Acquiring) && e == d)
    || (q == In(Acquiring) && !d.locked && to == In(Got) && e == Lock(true, p))
    || (q == In(Got) && to == Out(Holding) && e == d)
    || (q == Out(Holding) && to == Want(Releasing) && e == d)
    || (q == In(Releasing) && to == In(Cleared) && e == Lock(false, 0))
    || (q == In(Cleared) && to == Wake1(Leaving) && e == d)
    || (q == In(Leaving) && to == Out(Idle) && e == d)
  }

  ghost predicate Next(s: St, t: St) {
    || (exists p :: CanMove(s, p) && t == Move(s, p))
    || (exists p :: CanKill(s, p) && t == Kill(s, p))
    || (exists p, to, e :: p in s.pc && ClientShape(s.pc[p], to) && ClientStep(p, s.pc[p], s.d, to, e) &&
                           t == Client(s, p, to, e))
  }

  ghost predicate Start(s: St) {
    && s.lk == Free && s.ptable == Free && s.asleep == {} && s.d == Lock(false, 0)
    && 0 !in s.pc && (forall p :: p in s.pc ==> s.pc[p] == Out(Idle))
  }

  ghost predicate Run(run: seq<St>) {
    && |run| > 0 && Start(run[0])
    && (forall i {:trigger run[i]} :: 0 < i < |run| ==> Next(run[i - 1], run[i]))
  }

  /** Between taking the lock and clearing it. */
  predicate Owns(c: Doing) {
    c == Got || c == Holding || c == Releasing
  }

  /** Which code each position is in. */
  predicate Placed(q: Pc<Doing>) {
    match q
    case Out(c) => c == Idle || c == Holding
    case Want(c) => c == Acquiring || c == Releasing
    case In(c) => c != Idle && c != Holding
    case Wake1(c) => c == Leaving
    case Wake2(c) => c == Leaving
    case Wake3(c) => c == Leaving
    case _ => q.c == Acquiring
  }

  ghost predicate Ownership(s: St) {
    && 0 !in s.pc
    && (forall p :: p in s.pc ==> Placed(s.pc[p]))
    && (forall p :: p in s.pc ==> (Owns(s.pc[p].c) <==> s.d.locked && s.d.pid == p))
    && (s.d.locked ==> s.d.pid in s.pc)
  }

  ghost predicate Inv(s: St) {
    MonitorInv(Blocked, Owes, s) && Ownership(s)
  }

  lemma MovePlaces(s: St, p: Pid)
    requires CanMove(s, p) && Placed(s.pc[p])
    ensures var t := Move(s, p);
            p in t.pc && Placed(t.pc[p]) && t.pc[p].c == s.pc[p].c && t.pc == s.pc[p := t.pc[p]] && t.d == s.d
  {}

  lemma InPlace(s: St, p: Pid)
    requires CanMove(s, p)
    ensures p in s.pc
  {}

  lemma MoveOwnership(s: St, p: Pid)
    requires Ownership(s) && CanMove(s, p)
    ensures Ownership(Move(s, p))
  {
    hide Move, CanMove, Placed, Owns;
    assert p in s.pc && Placed(s.pc[p]) by {
      InPlace(s, p);
    }
    MovePlaces(s, p);
  }

  lemma ClientOwnership(s: St, p: Pid, to: Pc<Doing>, e: Lock)
    requires Ownership(s) && p in s.pc && ClientShape(s.pc[p], to) && ClientStep(p, s.pc[p], s.d, to, e)
    ensures Ownership(Client(s, p, to, e))
    ensures ClientRespects(Blocked, Owes, s.pc[p], s.d, to, e)
  {
  }

  lemma NextKeeps(s: St, t: St)
    requires Inv(s) && Next(s, t)
    ensures Inv(t)
  {
    if p :| CanMove(s, p) && t == Move(s, p) {
      MoveKeeps(Blocked, Owes, s, p);
      MoveOwnership(s, p);
    } else if p :| CanKill(s, p) && t == Kill(s, p) {
      KillKeeps(Blocked, Owes, s, p);
    } else {
      var p, to, e :| p in s.pc && ClientShape(s.pc[p], to) && ClientStep(p, s.pc[p], s.d, to, e) &&
                      t == Client(s, p, to, e);
      ClientOwnership(s, p, to, e);
      ClientKeeps(Blocked, Owes, s, p, to, e);
    }
  }

  lemma {:induction false} InvHolds(run: seq<St>, k: nat)
    requires Run(run) && k < |run|
    ensures Inv(run[k])
    decreases k
  {
    if k > 0 {
      InvHolds(run, k - 1);
      NextKeeps(run[k - 1], run[k]);
    }
  }

  /** At most one process is between acquiresleep and releasesleep, and lk->pid names it. */
  lemma MutualExclusion(run: seq<St>, p: Pid, q: Pid)
    requires Run(run)
    requires var s := run[|run| - 1]; p in s.pc && q in s.pc && Owns(s.pc[p].c) && Owns(s.pc[q].c)
    ensures p == q == run[|run| - 1].d.pid
  {
    InvHolds(run, |run| - 1);
  }

  /** When the spin lock is free, a process asleep on the sleep lock means it is locked. */
  lemma NoLostWakeup(run: seq<St>, p: Pid)
    requires Run(run)
    requires var s := run[|run| - 1]; s.lk == Free && p in s.asleep
    ensures var s := run[|run| - 1];
            s.d.locked && s.d.pid in s.pc && Owns(s.pc[s.d.pid].c) && p in s.pc && s.pc[p].c == Acquiring
  {
    InvHolds(run, |run| - 1);
  }

  ghost predicate CanStep(s: St, p: Pid) {
    CanMove(s, p) || (p in s.pc && exists to, e :: ClientStep(p, s.pc[p], s.d, to, e))
  }

  lemma ClientCanStep(s: St, p: Pid)
    requires p in s.pc && Placed(s.pc[p]) && (s.pc[p].In? || s.pc[p].Out?)
    ensures CanStep(s, p)
  {
    var q, d := s.pc[p], s.d;
    match q
    case Out(Idle) => assert ClientStep(p, q, d, Want(Acquiring), d);
    case Out(Holding) => assert ClientStep(p, q, d, Want(Releasing), d);
    case In(Acquiring) =>
      assert if d.locked then ClientStep(p, q, d, Sleep1(Acquiring), d)
             else ClientStep(p, q, d, In(Got), Lock(true, p));
    case In(Got) => assert ClientStep(p, q, d, Out(Holding), d);
    case In(Releasing) => assert ClientStep(p, q, d, In(Cleared), Lock(false, 0));
    case In(Cleared) => assert ClientStep(p, q, d, Wake1(Leaving), d);
    case In(Leaving) => assert ClientStep(p, q, d, Out(Idle), d);
  }

  /** No deadlock: while some process is inside acquiresleep or releasesleep, or holds the lock,
      a process that is not idle can take a step. */
  lemma NeverStuck(run: seq<St>, p: Pid)
    requires Run(run)
    requires var s := run[|run| - 1]; p in s.pc && s.pc[p] != Out(Idle)
    ensures var s := run[|run| - 1]; exists q :: q in s.pc && s.pc[q] != Out(Idle) && CanStep(s, q)
  {
    InvHolds(run, |run| - 1);
    var s := run[|run| - 1];
    HoldersMove(s);
    if s.ptable.Held? {
      assert CanStep(s, s.ptable.p);
    } else if s.lk.Held? {
      if s.pc[s.lk.p].In? {
        ClientCanStep(s, s.lk.p);
      }
      assert CanStep(s, s.lk.p);
    } else if p in s.asleep {
      var h := s.d.pid;
      if s.pc[h].Out? {
        ClientCanStep(s, h);
      }
      assert CanStep(s, h);
    } else {
      if s.pc[p].Out? {
        ClientCanStep(s, p);
      }
      assert CanStep(s, p);
    }
  }
}
