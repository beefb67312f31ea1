/** sleep() and wakeup() (proc.c:414-470) with the spin lock and ptable.lock taken step by
    step, for any client that tests a condition under a spin lock and sleeps while it is
    blocked. A client is described by the steps it takes outside (`Out`) and inside (`In`)
    the spin lock; what a client must respect for no wakeup to be lost is `ClientRespects`. */
module SleepWakeup {

  type Pid = nat

  datatype Owner = Free | Held(p: Pid)

  // Where a process is; `c` is what the client is doing.
  datatype Pc<C> =
    | Out(c: C)     // not holding the spin lock
    | Want(c: C)    // about to take the spin lock
    | In(c: C)      // holding the spin lock
    | Sleep1(c: C)  // in sleep, about to take ptable.lock
    | Sleep2(c: C)  // about to let go of the spin lock
    | Sleep3(c: C)  // about to become a sleeper on the channel
    | Sleep4(c: C)  // about to pass ptable.lock to the scheduler
    | Asleep(c: C)  // not running, until RUNNABLE and picked
    | Woken(c: C)   // picked, about to let go of ptable.lock and want the spin lock
    | Wake1(c: C)   // in wakeup, about to take ptable.lock
    | Wake2(c: C)   // about to make the sleepers RUNNABLE
    | Wake3(c: C)   // about to let go of ptable.lock

  datatype State<C, D> = State(
    lk: Owner,
    ptable: Owner,
    pc: map<Pid, Pc<C>>,
    asleep: set<Pid>,   // those SLEEPING on the client's channel
    d: D)               // the data the spin lock protects

  predicate HoldsLk<C>(q: Pc<C>) {
    q.In? || q.Sleep1? || q.Sleep2? || q.Wake1? || q.Wake2? || q.Wake3?
  }

  predicate HoldsPtable<C>(q: Pc<C>) {
    q.Sleep2? || q.Sleep3? || q.Sleep4? || q.Woken? || q.Wake2? || q.Wake3?
  }

  // ---------------------------------------------------------------- steps of the kernel code

  predicate CanMove<C, D>(s: State<C, D>, p: Pid) {
    p in s.pc &&
    match s.pc[p]
    case Out(_) => false
    case In(_) => false
    case Want(_) => s.lk == Free
    case Sleep1(_) => s.ptable == Free
    case Wake1(_) => s.ptable == Free
    case Asleep(_) => s.ptable == Free && p !in s.asleep
    case _ => true
  }

  function Move<C, D>(s: State<C, D>, p: Pid): State<C, D>
    requires CanMove(s, p)
  {
    match s.pc[p]
    case Want(c) => s.(lk := Held(p), pc := s.pc[p := In(c)])
    case Sleep1(c) => s.(ptable := Held(p), pc := s.pc[p := Sleep2(c)])
    case Sleep2(c) => s.(lk := Free, pc := s.pc[p := Sleep3(c)])
    case Sleep3(c) => s.(asleep := s.asleep + {p}, pc := s.pc[p := Sleep4(c)])
    case Sleep4(c) => s.(ptable := Free, pc := s.pc[p := Asleep(c)])
    case Asleep(c) => s.(ptable := Held(p), pc := s.pc[p := Woken(c)])
    case Woken(c) => s.(ptable := Free, pc := s.pc[p := Want(c)])
    case Wake1(c) => s.(ptable := Held(p), pc := s.pc[p := Wake2(c)])
    case Wake2(c) => s.(asleep := {}, pc := s.pc[p := Wake3(c)])
    case Wake3(c) => s.(ptable := Free, pc := s.pc[p := In(c)])
  }

  /** kill() makes a sleeper runnable without any wakeup. */
  predicate CanKill<C, D>(s: State<C, D>, p: Pid) {
    p in s.pc && s.ptable == Free
  }

  function Kill<C, D>(s: State<C, D>, p: Pid): State<C, D> {
    s.(asleep := s.asleep - {p})
  }

  /** The shapes a client step may have: from outside it stays outside or asks for the lock;
      from inside it stays, sleeps, wakes the channel or releases the lock. */
  ghost predicate ClientShape<C>(q: Pc<C>, to: Pc<C>) {
    || (q.Out? && (to.Out? || to.Want?))
    || (q.In? && (to.In? || to.Wake1? || to.Out?))
    || (q.In? && to.Sleep1? && to.c == q.c)
  }

  ghost function Client<C, D>(s: State<C, D>, p: Pid, to: Pc<C>, d: D): State<C, D>
    requires p in s.pc && ClientShape(s.pc[p], to)
  {
    s.(pc := s.pc[p := to], d := d, lk := if s.pc[p].In? && to.Out? then Free else s.lk)
  }

  // ---------------------------------------------------------------- no lost wakeup

  /** What a client step must respect. `blocked` is the condition waited on; `owes` marks client
      positions inside the lock from which a wakeup must come before the lock is released. */
  ghost predicate ClientRespects<C, D>(blocked: D -> bool, owes: C -> bool, q: Pc<C>, d: D, to: Pc<C>, e: D) {
    && ClientShape(q, to)
    && (q.Out? ==> (blocked(d) ==> blocked(e)))
    && (q.In? && (to.In? || to.Out?) ==>
         (blocked(d) && !blocked(e)) || owes(q.c) ==> to.In? && owes(to.c))
    && (to.Sleep1? ==> blocked(d) && e == d)
  }

  ghost predicate LocksOk<C, D>(s: State<C, D>) {
    && (forall p :: p in s.pc ==> (HoldsLk(s.pc[p]) <==> s.lk == Held(p)))
    && (forall p :: p in s.pc ==> (HoldsPtable(s.pc[p]) <==> s.ptable == Held(p)))
    && (s.lk.Held? ==> s.lk.p in s.pc) && (s.ptable.Held? ==> s.ptable.p in s.pc)
    && (forall p :: p in s.asleep ==> p in s.pc && (s.pc[p].Sleep4? || s.pc[p].Asleep?))
  }

  /** The lock holder is on its way to wake every sleeper. */
  ghost predicate WakeupPending<C, D>(owes: C -> bool, s: State<C, D>) {
    && s.lk.Held? && s.lk.p in s.pc
    && var q := s.pc[s.lk.p];
       (q.In? && owes(q.c)) || q.Wake1? || q.Wake2?
  }

  ghost predicate NoneLost<C, D>(blocked: D -> bool, owes: C -> bool, s: State<C, D>) {
    && (forall p :: p in s.pc && (s.pc[p].Sleep1? || s.pc[p].Sleep2?) ==> blocked(s.d))
    && (forall p :: p in s.pc && (p in s.asleep || s.pc[p].Sleep3?) ==> blocked(s.d) || WakeupPending(owes, s))
  }

  ghost predicate MonitorInv<C, D>(blocked: D -> bool, owes: C -> bool, s: State<C, D>) {
    LocksOk(s) && NoneLost(blocked, owes, s)
  }

  lemma MoveLocks<C, D>(s: State<C, D>, p: Pid)
    requires LocksOk(s) && CanMove(s, p)
    ensures LocksOk(Move(s, p))
  {
  }

  lemma MoveKeeps<C, D>(blocked: D -> bool, owes: C -> bool, s: State<C, D>, p: Pid)
    requires MonitorInv(blocked, owes, s) && CanMove(s, p)
    ensures MonitorInv(blocked, owes, Move(s, p))
  {
    MoveLocks(s, p);
    var t := Move(s, p);
    if s.pc[p].Wake2? {
      forall q | q in t.pc ensures !t.pc[q].Sleep3? {
      }
    }
  }

  lemma KillKeeps<C, D>(blocked: D -> bool, owes: C -> bool, s: State<C, D>, p: Pid)
    requires MonitorInv(blocked, owes, s) && CanKill(s, p)
    ensures MonitorInv(blocked, owes, Kill(s, p))
  {
  }

  /** Any step a client respects keeps the protocol sound. */
  lemma ClientKeeps<C, D>(blocked: D -> bool, owes: C -> bool, s: State<C, D>, p: Pid, to: Pc<C>, e: D)
    requires MonitorInv(blocked, owes, s) && p in s.pc
    requires ClientRespects(blocked, owes, s.pc[p], s.d, to, e)
    ensures MonitorInv(blocked, owes, Client(s, p, to, e))
  {
    var t := Client(s, p, to, e);
    forall q | q in t.pc && (t.pc[q].Sleep1? || t.pc[q].Sleep2?) ensures blocked(t.d) {
      if q != p {
        assert s.lk == Held(q);
      }
    }
    forall q | q in t.pc && (q in t.asleep || t.pc[q].Sleep3?)
      ensures blocked(t.d) || WakeupPending(owes, t)
    {
      assert q != p;
    }
  }

  /** Whoever holds ptable.lock can go on; whoever holds the spin lock can go on, is at a client
      position, or waits for the holder of ptable.lock. */
  lemma HoldersMove<C, D>(s: State<C, D>)
    requires LocksOk(s)
    ensures s.ptable.Held? ==> CanMove(s, s.ptable.p)
    ensures s.lk.Held? && !s.pc[s.lk.p].In? ==> CanMove(s, s.lk.p) || CanMove(s, s.ptable.p)
  {
  }
}
