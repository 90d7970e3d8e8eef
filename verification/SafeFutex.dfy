/** The inter-process futex lock of ls_lock.h (lock, trylock and unlock with the
    owner's process id in the word) as a step system with crashes: any number of
    processes and threads, one step for each compare-and-swap, exchange, probe, wait
    or wake.  A process may die between any two steps; its threads then stand still.
    The probe reports it missing only once it has been reaped. */
module SafeFutex {

  type Tid = nat
  const WAITER_BIT := 0x8000_0000

  type Pid = p: int | 0 <= p < WAITER_BIT

  /** The 32-bit word: the owner's process id below the waiter bit. */
  datatype Word = Word(pid: Pid, waiter: bool)

  const AVAIL := Word(0, false)

  function Mark(w: Word): Word { w.(waiter := true) }

  /** The unsigned value of the word.  Masking with 0x7fffffff is the remainder by the
      waiter bit, testing the bit is the quotient. */
  function Value(w: Word): int {
    w.pid + if w.waiter then WAITER_BIT else 0
  }

  /** Each 32-bit value is one pair: comparing, masking, testing, setting the bit and
      clearing the word mean the same on both. */
  lemma WordIsThirtyTwoBits(v: int)
    requires 0 <= v < 0x1_0000_0000
    ensures var w := Word(v % WAITER_BIT, v / WAITER_BIT == 1);
      && Value(w) == v
      && (forall u :: Value(u) == v ==> u == w)
      && (v == 0 <==> w == AVAIL)
      && Value(Mark(w)) == if w.waiter then v else v + WAITER_BIT
  {
  }

  /** Where a thread stands; it is about to take that step. */
  datatype Pc =
    | Idle
    | FirstCas                  // the first compare-and-swap of lock
    | Examine(lockpid: Word)    // head of the do loop: compare and probe the owner
    | Rescue(lockpid: Word)     // the owner is gone: take over with a compare-and-swap
    | SetWaiter(lockpid: Word)  // set the waiter bit if it is not set yet
    | WaitCall(wanted: Word)    // about to enter the kernel wait
    | Asleep
    | Retry                     // compare-and-swap that closes the do loop
    | TryCas                    // the compare-and-swap of trylock
    | Held(from: Pid)           // lock returned -from (0: acquired normally)
    | Verify(taken: Word)         // unlock has swapped taken out and now asserts on it
    | WakeCall
    | Aborted                   // the assert of unlock failed

  /** proc tells the process of each thread.  A process is running, dead but still
      visible to a probe, or gone. */
  datatype State = State(word: Word, pc: map<Tid, Pc>, proc: map<Tid, Pid>, running: set<Pid>, gone: set<Pid>)

  datatype Action =
    | StartLock(t: Tid)
    | StartTry(t: Tid)
    | Advance(t: Tid)              // t takes its next instruction
    | Wake(t: Tid, sleeper: Tid)   // t's wake call, the kernel picks sleeper
    | WakeNobody(t: Tid)
    | Timeout(t: Tid)              // t's wait times out or returns on its own
    | Die(p: Pid)
    | Reap(p: Pid)

  predicate WellFormed(s: State) {
    && s.pc.Keys == s.proc.Keys
    && (forall t :: t in s.proc ==> s.proc[t] != 0)
    && s.running !! s.gone
  }

  predicate Init(s: State) {
    && WellFormed(s) && s.word == AVAIL
    && forall t :: t in s.pc ==> s.pc[t] == Idle
  }

  predicate Live(s: State, t: Tid) {
    t in s.pc && t in s.proc && s.proc[t] in s.running
  }

  predicate Holds(s: State, t: Tid) {
    Live(s, t) && s.pc[t].Held?
  }

  predicate At(s: State, t: Tid, p: Pc) {
    Live(s, t) && s.pc[t] == p
  }

  predicate Advances(p: Pc) {
    p.FirstCas? || p.Examine? || p.Rescue? || p.SetWaiter? || p.WaitCall? || p.Retry? || p.TryCas? || p.Held? || p.Verify?
  }

  predicate Enabled(s: State, a: Action) {
    match a
    case StartLock(t) => At(s, t, Idle)
    case StartTry(t) => At(s, t, Idle)
    case Advance(t) => Live(s, t) && Advances(s.pc[t])
    case Wake(t, u) => At(s, t, WakeCall) && At(s, u, Asleep)
    case WakeNobody(t) => At(s, t, WakeCall) && forall u :: u in s.pc ==> !At(s, u, Asleep)
    case Timeout(t) => At(s, t, Asleep)
    case Die(p) => p in s.running
    case Reap(p) => p !in s.running
  }

  /** The word and the point after one instruction of a thread of process self. */
  function Instruction(word: Word, p: Pc, self: Pid, gone: set<Pid>): (Word, Pc)
    requires Advances(p)
  {
    match p
    case FirstCas =>
      if word == AVAIL then (Word(self, false), Held(0)) else (word, Examine(word))
    case Examine(lockpid) =>
      if self != lockpid.pid && lockpid.pid in gone then (word, Rescue(lockpid)) else (word, SetWaiter(lockpid))
    case Rescue(lockpid) =>
      if word == lockpid then (Word(self, true), Held(lockpid.pid)) else (word, SetWaiter(lockpid))
    case SetWaiter(lockpid) =>
      if lockpid.waiter then (word, WaitCall(Mark(lockpid)))
      else if word == lockpid then (Mark(lockpid), WaitCall(Mark(lockpid)))
      else (word, Retry)
    case WaitCall(wanted) =>
      if word == wanted then (word, Asleep) else (word, Retry)
    case Retry =>
      if word == AVAIL then (Word(self, true), Held(0)) else (word, Examine(word))
    case TryCas =>
      if word == AVAIL then (Word(self, false), Held(0)) else (word, Idle)
    case Held(_) =>
      (AVAIL, Verify(word))
    case Verify(taken) =>
      if taken.pid != self then (word, Aborted)
      else if taken.waiter then (word, WakeCall)
      else (word, Idle)
  }

  function Apply(s: State, a: Action): State
    requires Enabled(s, a)
  {
    match a
    case StartLock(t) => s.(pc := s.pc[t := FirstCas])
    case StartTry(t) => s.(pc := s.pc[t := TryCas])
    case Advance(t) =>
      var (word, p) := Instruction(s.word, s.pc[t], s.proc[t], s.gone);
      s.(word := word, pc := s.pc[t := p])
    case Wake(t, u) => s.(pc := s.pc[t := Idle][u := Retry])
    case WakeNobody(t) => s.(pc := s.pc[t := Idle])
    case Timeout(t) => s.(pc := s.pc[t := Retry])
    case Die(p) => s.(running := s.running - {p})
    case Reap(p) => s.(gone := s.gone + {p})
  }

  ghost predicate CanRun(s: State, acts: seq<Action>)
    decreases |acts|
  {
    acts == [] || (Enabled(s, acts[0]) && CanRun(Apply(s, acts[0]), acts[1..]))
  }

  ghost function After(s: State, acts: seq<Action>): State
    requires CanRun(s, acts)
    decreases |acts|
  {
    if acts == [] then s else After(Apply(s, acts[0]), acts[1..])
  }

  // ---------------------------------------------------------------- safety

  /** Some thread of process p took the lock and has not given it up; if p is dead,
      it died holding the lock. */
  ghost predicate HeldIn(s: State, p: Pid) {
    exists t :: t in s.pc && t in s.proc && s.proc[t] == p && s.pc[t].Held?
  }

  /** The thread's lock call returned -from because process from died with the lock. */
  ghost predicate Honest(s: State, p: Pc) {
    p.Held? && p.from != 0 ==> p.from in s.gone && HeldIn(s, p.from)
  }

  ghost predicate Locals(s: State, t: Tid)
    requires t in s.pc && t in s.proc
  {
    match s.pc[t]
    case Rescue(lockpid) => lockpid.pid in s.gone && lockpid != AVAIL
    case Examine(lockpid) => lockpid != AVAIL
    case SetWaiter(lockpid) => lockpid != AVAIL
    case WaitCall(wanted) => wanted.waiter
    case Held(from) => Honest(s, s.pc[t])
    case Verify(taken) => taken.pid == s.proc[t]
    case Aborted => false
    case _ => true
  }

  ghost predicate Inv(s: State) {
    && WellFormed(s)
    && (forall t :: Holds(s, t) ==> s.word != AVAIL && s.word.pid == s.proc[t])
    && (forall t, u :: Holds(s, t) && Holds(s, u) ==> t == u)
    && (s.word != AVAIL ==> HeldIn(s, s.word.pid))
    && (forall t :: t in s.pc ==> Locals(s, t))
  }

  /** A thread of a dead process stays where it died. */
  lemma HeldInPersists(s: State, a: Action, p: Pid)
    requires WellFormed(s) && Enabled(s, a) && HeldIn(s, p)
    requires a.Advance? && s.pc[a.t].Held? ==> p != s.proc[a.t]
    ensures HeldIn(Apply(s, a), p)
  {
    var t :| t in s.pc && t in s.proc && s.proc[t] == p && s.pc[t].Held?;
    assert t in Apply(s, a).pc && Apply(s, a).pc[t].Held?;
  }

  lemma StepKeepsLocals(s: State, a: Action)
    requires Inv(s) && Enabled(s, a)
    ensures forall t :: t in s.pc ==> Locals(Apply(s, a), t)
  {
    var s' := Apply(s, a);
    forall t | t in s.pc
      ensures Locals(s', t)
    {
      if s'.pc[t].Held? && s'.pc[t].from != 0 {
        if s.pc[t].Held? {
          assert Locals(s, t);
          HeldInPersists(s, a, s.pc[t].from);
        } else {
          HeldInPersists(s, a, s.word.pid);
        }
      }
    }
  }

  lemma StepKeepsOwner(s: State, a: Action)
    requires Inv(s) && Enabled(s, a)
    ensures var s' := Apply(s, a);
      s'.word != AVAIL ==> HeldIn(s', s'.word.pid)
  {
    var s' := Apply(s, a);
    if s'.word != AVAIL {
      if a.Advance? && !s.pc[a.t].Held? && s'.pc[a.t].Held? {
        assert s'.pc[a.t].Held?;
      } else {
        HeldInPersists(s, a, s.word.pid);
      }
    }
  }

  lemma StepKeepsHolder(s: State, a: Action)
    requires Inv(s) && Enabled(s, a)
    ensures var s' := Apply(s, a);
      && (forall t :: Holds(s', t) ==> s'.word != AVAIL && s'.word.pid == s'.proc[t])
      && (forall t, u :: Holds(s', t) && Holds(s', u) ==> t == u)
  {
    var s' := Apply(s, a);
    if a.Advance? && Holds(s', a.t) && !Holds(s, a.t) {
      assert Locals(s, a.t);
      assert s.word == AVAIL || s.word.pid in s.gone;
      assert forall u :: !Holds(s, u);
      assert forall u :: Holds(s', u) ==> u == a.t;
    } else {
      assert forall u :: Holds(s', u) ==> Holds(s, u);
      assert s'.word != AVAIL ==> s'.word.pid == s.word.pid;
      if a.Advance? && Holds(s, a.t) {
        assert forall u :: !Holds(s', u);
      } else if a.Advance? && s.pc[a.t].SetWaiter? {
        assert Locals(s, a.t);
      }
    }
  }

  lemma StepKeepsInv(s: State, a: Action)
    requires Inv(s) && Enabled(s, a)
    ensures Inv(Apply(s, a))
  {
    StepKeepsLocals(s, a);
    StepKeepsOwner(s, a);
    StepKeepsHolder(s, a);
  }

  lemma {:induction false} RunKeepsInv(s: State, acts: seq<Action>)
    requires Inv(s) && CanRun(s, acts)
    ensures Inv(After(s, acts))
    decreases |acts|
  {
    if acts != [] {
      StepKeepsInv(s, acts[0]);
      RunKeepsInv(Apply(s, acts[0]), acts[1..]);
    }
  }

  /** Under any interleaving and any crashes: at most one live thread holds the lock,
      the word then carries its process id, a lock call that reports process p took
      over from a p that is gone and died holding the lock, and the assert of unlock
      never fails. */
  lemma RobustSafety(s: State, acts: seq<Action>)
    requires Init(s) && CanRun(s, acts)
    ensures var e := After(s, acts);
      && (forall t, u :: Holds(e, t) && Holds(e, u) ==> t == u)
      && (forall t :: Holds(e, t) ==> e.word.pid == e.proc[t])
      && (forall t :: t in e.pc && e.pc[t].Held? && e.pc[t].from != 0 ==> e.pc[t].from in e.gone && HeldIn(e, e.pc[t].from))
      && (forall t :: t in e.pc ==> e.pc[t] != Aborted)
      && (e.word != AVAIL ==> HeldIn(e, e.word.pid))
  {
    RunKeepsInv(s, acts);
    var e := After(s, acts);
    forall t | t in e.pc
      ensures e.pc[t] != Aborted
      ensures e.pc[t].Held? && e.pc[t].from != 0 ==> e.pc[t].from in e.gone && HeldIn(e, e.pc[t].from)
    {
      assert Locals(e, t);
    }
  }

  // ------------------------------------------------------------- rescuing

  /** The step by which a lock call succeeds with a negative return naming p. */
  predicate Rescues(s: State, a: Action, p: Pid) {
    a.Advance? && Live(s, a.t) && s.pc[a.t].Rescue? && s.word == s.pc[a.t].lockpid && s.word.pid == p
  }

  lemma RescueFreesFromDead(s: State, a: Action, p: Pid)
    requires Inv(s) && Enabled(s, a) && Rescues(s, a, p)
    ensures p in s.gone && p != 0 && Apply(s, a).pc[a.t] == Held(p) && Apply(s, a).word.pid != p
  {
    assert Locals(s, a.t);
    assert HeldIn(s, p);
  }

  /** The id of a process that is gone never comes back into the word. */
  lemma GoneStaysOut(s: State, a: Action, p: Pid)
    requires Inv(s) && Enabled(s, a) && p in s.gone && s.word.pid != p && p != 0
    ensures p in Apply(s, a).gone && Apply(s, a).word.pid != p
  {
    if a.Advance? {
    }
  }

  lemma {:induction false} NoLaterRescue(s: State, acts: seq<Action>, a: Action, p: Pid)
    requires Inv(s) && CanRun(s, acts) && p in s.gone && s.word.pid != p && p != 0
    ensures !Rescues(After(s, acts), a, p)
    decreases |acts|
  {
    if acts != [] {
      StepKeepsInv(s, acts[0]);
      GoneStaysOut(s, acts[0], p);
      NoLaterRescue(Apply(s, acts[0]), acts[1..], a, p);
    }
  }

  /** Two rescuers never both win: after one takes over from p, no step of any
      continuation takes over from p again. */
  lemma RescuedOnce(s0: State, before: seq<Action>, a: Action, between: seq<Action>, b: Action, p: Pid)
    requires Init(s0) && CanRun(s0, before)
    requires Enabled(After(s0, before), a) && Rescues(After(s0, before), a, p)
    requires CanRun(Apply(After(s0, before), a), between)
    ensures !Rescues(After(Apply(After(s0, before), a), between), b, p)
  {
    RunKeepsInv(s0, before);
    var s := After(s0, before);
    RescueFreesFromDead(s, a, p);
    StepKeepsInv(s, a);
    NoLaterRescue(Apply(s, a), between, b, p);
  }

  // -------------------------------------------------------------- wakeups

  predicate AllRunning(s: State) {
    forall t :: t in s.pc ==> Live(s, t)
  }

  predicate Contender(p: Pc) {
    p.Examine? || p.Rescue? || p.SetWaiter? || p.WaitCall? || p.Retry?
  }

  predicate Waking(p: Pc) {
    p.WakeCall? || (p.Verify? && p.taken.waiter)
  }

  ghost predicate NoLostWakeup(s: State) {
    (exists t :: t in s.pc && s.pc[t].Asleep?) ==>
      s.word.waiter || exists t :: t in s.pc && (Waking(s.pc[t]) || Contender(s.pc[t]))
  }

  /** A step of a thread that neither wakes nor contends leaves the others in charge. */
  lemma OthersRemain(s: State, t: Tid, p: Pc, s': State)
    requires t in s.pc && !Waking(s.pc[t]) && !Contender(s.pc[t]) && s'.pc == s.pc[t := p]
    requires exists v :: v in s.pc && (Waking(s.pc[v]) || Contender(s.pc[v]))
    ensures exists v :: v in s'.pc && (Waking(s'.pc[v]) || Contender(s'.pc[v]))
  {
    var v :| v in s.pc && (Waking(s.pc[v]) || Contender(s.pc[v]));
    assert v in s'.pc && (Waking(s'.pc[v]) || Contender(s'.pc[v]));
  }

  lemma StepKeepsNoLostWakeup(s: State, a: Action)
    requires Inv(s) && Enabled(s, a) && AllRunning(s) && NoLostWakeup(s) && AllRunning(Apply(s, a))
    ensures NoLostWakeup(Apply(s, a))
  {
    var s' := Apply(s, a);
    if sleeper :| sleeper in s'.pc && s'.pc[sleeper].Asleep? && !s'.word.waiter {
      match a
      case Wake(t, u) =>
        assert Contender(s'.pc[u]);
      case Timeout(t) =>
        assert Contender(s'.pc[t]);
      case WakeNobody(t) =>
        assert false;
      case StartLock(t) =>
        OthersRemain(s, t, FirstCas, s');
      case StartTry(t) =>
        OthersRemain(s, t, TryCas, s');
      case Die(p) =>
      case Reap(p) =>
      case Advance(t) =>
        AdvanceKeepsServer(s, t, sleeper);
    }
  }

  lemma AdvanceKeepsServer(s: State, t: Tid, sleeper: Tid)
    requires Inv(s) && Enabled(s, Advance(t)) && NoLostWakeup(s)
    requires sleeper in s.pc && Apply(s, Advance(t)).pc[sleeper].Asleep? && !Apply(s, Advance(t)).word.waiter
    ensures var s' := Apply(s, Advance(t));
      exists v :: v in s'.pc && (Waking(s'.pc[v]) || Contender(s'.pc[v]))
  {
    var s' := Apply(s, Advance(t));
    assert Locals(s, t);
    if Contender(s.pc[t]) || Waking(s.pc[t]) || (s.word.waiter && s.pc[t].Held?) {
      assert Waking(s'.pc[t]) || Contender(s'.pc[t]);
    } else {
      OthersRemain(s, t, s'.pc[t], s');
    }
  }

  lemma {:induction false} RunKeepsNoLostWakeup(s: State, acts: seq<Action>)
    requires Inv(s) && CanRun(s, acts) && NoLostWakeup(s) && AllRunning(After(s, acts))
    ensures NoLostWakeup(After(s, acts))
    decreases |acts|
  {
    if acts != [] {
      StepKeepsInv(s, acts[0]);
      DeathIsForever(Apply(s, acts[0]), acts[1..]);
      DeathIsForever(s, acts);
      StepKeepsNoLostWakeup(s, acts[0]);
      RunKeepsNoLostWakeup(Apply(s, acts[0]), acts[1..]);
    }
  }

  /** In every run without a death, a sleeper implies the waiter bit, a wake on its
      way, or a contender that is awake. */
  lemma NoWakeupLostWithoutDeaths(s: State, acts: seq<Action>, t: Tid)
    requires Init(s) && CanRun(s, acts) && AllRunning(After(s, acts)) && At(After(s, acts), t, Asleep)
    ensures var e := After(s, acts);
      e.word.waiter || exists u :: u in e.pc && (Waking(e.pc[u]) || Contender(e.pc[u]))
  {
    RunKeepsNoLostWakeup(s, acts);
  }

  lemma {:induction false} DeathIsForever(s: State, acts: seq<Action>)
    requires WellFormed(s) && CanRun(s, acts)
    ensures After(s, acts).pc.Keys == s.pc.Keys && After(s, acts).proc == s.proc && After(s, acts).running <= s.running
    ensures AllRunning(After(s, acts)) ==> AllRunning(s)
    decreases |acts|
  {
    if acts != [] {
      DeathIsForever(Apply(s, acts[0]), acts[1..]);
    }
  }

  /** A schedule extended by one step. */
  lemma {:induction false} Then(s: State, acts: seq<Action>, a: Action) returns (longer: seq<Action>)
    requires CanRun(s, acts) && Enabled(After(s, acts), a)
    ensures longer == acts + [a]
    ensures CanRun(s, longer) && After(s, longer) == Apply(After(s, acts), a)
    decreases |acts|
  {
    longer := acts + [a];
    if acts == [] {
      assert longer[1..] == [];
    } else {
      var rest := Then(Apply(s, acts[0]), acts[1..], a);
      assert longer[1..] == rest;
    }
  }

  /** Two processes: thread 0 holds the lock, thread 1 sleeps behind it. */
  lemma SleepBehindHolder(s: State) returns (acts: seq<Action>)
    requires s == State(AVAIL, map[0 := Idle, 1 := Idle], map[0 := 7, 1 := 8], {7, 8}, {})
    ensures CanRun(s, acts)
    ensures After(s, acts) == s.(word := Word(7, true), pc := map[0 := Held(0), 1 := Asleep])
  {
    acts := Then(s, [], StartLock(0));
    acts := Then(s, acts, Advance(0));
    acts := Then(s, acts, StartLock(1));
    assert After(s, acts) == s.(word := Word(7, false), pc := map[0 := Held(0), 1 := FirstCas]);
    acts := Then(s, acts, Advance(1));
    acts := Then(s, acts, Advance(1));
    acts := Then(s, acts, Advance(1));
    acts := Then(s, acts, Advance(1));
  }

  // ------------------------------------------------------ wakeups and deaths

  predicate InCharge(s: State, v: Tid) {
    Live(s, v) && (Waking(s.pc[v]) || Contender(s.pc[v]))
  }

  predicate Sleeps(s: State, t: Tid) {
    Live(s, t) && s.pc[t].Asleep?
  }

  /** No wakeup is lost among the living: a live sleeper implies the waiter bit, or a
      live thread that is about to wake or contends. */
  ghost predicate Served(s: State) {
    (exists t :: Sleeps(s, t)) ==> s.word.waiter || exists v :: InCharge(s, v)
  }

  /** The step is the death of everybody in charge of a sleeper of another process. */
  ghost predicate Loses(s: State, a: Action) {
    && a.Die? && !s.word.waiter
    && (exists t :: Sleeps(s, t) && s.proc[t] != a.p)
    && (forall v :: InCharge(s, v) ==> s.proc[v] == a.p)
  }

  lemma ChargeRemains(s: State, a: Action, v: Tid)
    requires Inv(s) && Enabled(s, a) && InCharge(s, v)
    requires a.Die? ==> s.proc[v] != a.p
    requires (a.Wake? || a.WakeNobody? || a.Advance?) ==> a.t != v
    ensures InCharge(Apply(s, a), v)
  {
  }

  /** An instruction hands the charge on: whoever was in charge still is, or the word is
      marked, or nobody sleeps. */
  lemma AdvanceServes(s: State, t: Tid)
    requires Inv(s) && Enabled(s, Advance(t)) && Served(s)
    ensures Served(Apply(s, Advance(t)))
  {
    var s' := Apply(s, Advance(t));
    if u :| Sleeps(s', u) && !s'.word.waiter {
      assert Locals(s, t);
      if InCharge(s, t) || (s.word.waiter && s.pc[t].Held?) {
        assert InCharge(s', t);
      } else {
        assert Sleeps(s, u) && !s.word.waiter;
        var v :| InCharge(s, v);
        ChargeRemains(s, Advance(t), v);
      }
    }
  }

  lemma OtherStepsServe(s: State, a: Action)
    requires Inv(s) && Enabled(s, a) && Served(s) && !a.Advance? && !a.Die?
    ensures Served(Apply(s, a))
  {
    var s' := Apply(s, a);
    if u :| Sleeps(s', u) && !s'.word.waiter {
      if a.Wake? {
        assert InCharge(s', a.sleeper);
      } else if a.Timeout? {
        assert InCharge(s', a.t);
      } else if a.WakeNobody? {
        assert false;
      } else {
        assert Sleeps(s, u);
        var v :| InCharge(s, v);
        ChargeRemains(s, a, v);
      }
    }
  }

  lemma DeathServesIff(s: State, p: Pid)
    requires Inv(s) && p in s.running && Served(s)
    ensures Served(Apply(s, Die(p))) <==> !Loses(s, Die(p))
  {
    var s' := Apply(s, Die(p));
    assert forall t :: Sleeps(s', t) <==> Sleeps(s, t) && s.proc[t] != p;
    assert forall v :: InCharge(s', v) <==> InCharge(s, v) && s.proc[v] != p;
  }

  /** The exact step that loses a wakeup: a death, of the only process in charge, with a
      live sleeper elsewhere and the word unmarked. */
  lemma StepLosesIff(s: State, a: Action)
    requires Inv(s) && Enabled(s, a) && Served(s)
    ensures !Served(Apply(s, a)) <==> Loses(s, a)
  {
    if a.Advance? {
      AdvanceServes(s, a.t);
    } else if a.Die? {
      DeathServesIff(s, a.p);
    } else {
      OtherStepsServe(s, a);
    }
  }

  ghost predicate AlwaysServed(s: State, acts: seq<Action>)
    requires CanRun(s, acts)
    decreases |acts|
  {
    Served(s) && (acts == [] || AlwaysServed(Apply(s, acts[0]), acts[1..]))
  }

  ghost predicate NeverLoses(s: State, acts: seq<Action>)
    requires CanRun(s, acts)
    decreases |acts|
  {
    acts == [] || (!Loses(s, acts[0]) && NeverLoses(Apply(s, acts[0]), acts[1..]))
  }

  lemma {:induction false} RunServedIff(s: State, acts: seq<Action>)
    requires Inv(s) && Served(s) && CanRun(s, acts)
    ensures AlwaysServed(s, acts) <==> NeverLoses(s, acts)
    decreases |acts|
  {
    if acts != [] {
      StepLosesIff(s, acts[0]);
      if !Loses(s, acts[0]) {
        StepKeepsInv(s, acts[0]);
        RunServedIff(Apply(s, acts[0]), acts[1..]);
      }
    }
  }

  /** Whole runs with any deaths: no wakeup is ever lost if and only if no process dies
      that alone is in charge of a sleeper of another process while the word is unmarked. */
  lemma NoWakeupLostIff(s: State, acts: seq<Action>)
    requires Init(s) && CanRun(s, acts)
    ensures AlwaysServed(s, acts) <==> NeverLoses(s, acts)
  {
    assert Served(s);
    RunServedIff(s, acts);
  }

  /** The only live thread sleeps, and the word does not say so. */
  lemma LeftAsleep(s: State)
    requires s.pc == map[0 := WakeCall, 1 := Asleep] && s.proc == map[0 := 7, 1 := 8] && s.running == {8}
    requires s.word == AVAIL
    ensures At(s, 1, Asleep) && (forall t :: Live(s, t) ==> t == 1) && !Served(s)
  {
    assert Sleeps(s, 1);
  }

  /** A death can lose a wakeup: the holder dies between its exchange and its wake
      call, and a sleeper is left with a free lock and nobody to wake it. */
  lemma DeathCanLoseWakeup() returns (s: State, acts: seq<Action>)
    ensures Init(s) && CanRun(s, acts)
    ensures At(After(s, acts), 1, Asleep) && After(s, acts).word == AVAIL && !Served(After(s, acts))
    ensures forall t :: Live(After(s, acts), t) ==> t == 1
  {
    s := State(AVAIL, map[0 := Idle, 1 := Idle], map[0 := 7, 1 := 8], {7, 8}, {});
    acts := SleepBehindHolder(s);
    acts := Then(s, acts, Advance(0));
    acts := Then(s, acts, Advance(0));
    assert After(s, acts).pc == map[0 := WakeCall, 1 := Asleep];
    acts := Then(s, acts, Die(7));
    LeftAsleep(After(s, acts));
  }

  // ------------------------------------------------- wakeups without deaths

  /** No calls start, no wait returns on its own, nobody dies. */
  predicate Quiet(acts: seq<Action>) {
    forall i :: 0 <= i < |acts| ==> acts[i].Advance? || acts[i].Wake?
  }

  /** With the waiter bit set, the holder's unlock can hand the lock to any sleeper. */
  lemma HolderServes(s: State, t: Tid) returns (acts: seq<Action>)
    requires Inv(s) && AllRunning(s) && At(s, t, Asleep) && s.word.waiter
    ensures Quiet(acts) && |acts| <= 4 && CanRun(s, acts) && Holds(After(s, acts), t)
  {
    var h :| h in s.pc && h in s.proc && s.proc[h] == s.word.pid && s.pc[h].Held?;
    assert Live(s, h);
    acts := Then(s, [], Advance(h));
    acts := Then(s, acts, Advance(h));
    acts := Then(s, acts, Wake(h, t));
    acts := Then(s, acts, Advance(t));
  }

  /** A sleeper that has been woken gets the lock when its holder, if any, gives it up. */
  lemma WokenAcquires(s: State, t: Tid) returns (acts: seq<Action>)
    requires Inv(s) && AllRunning(s) && At(s, t, Retry)
    ensures Quiet(acts) && |acts| <= 2 && CanRun(s, acts) && Holds(After(s, acts), t)
  {
    acts := [];
    if s.word != AVAIL {
      var h :| h in s.pc && h in s.proc && s.proc[h] == s.word.pid && s.pc[h].Held?;
      assert Live(s, h);
      acts := Then(s, acts, Advance(h));
    }
    acts := Then(s, acts, Advance(t));
  }

  lemma WakerServes(s: State, t: Tid, w: Tid) returns (acts: seq<Action>)
    requires Inv(s) && AllRunning(s) && At(s, t, Asleep) && w in s.pc && s.pc[w] == WakeCall
    ensures Quiet(acts) && |acts| <= 3 && CanRun(s, acts) && Holds(After(s, acts), t)
  {
    assert Live(s, w);
    StepKeepsInv(s, Wake(w, t));
    var rest := WokenAcquires(Apply(s, Wake(w, t)), t);
    acts := [Wake(w, t)] + rest;
    assert acts[1..] == rest;
  }

  /** How many instructions a contender needs, running alone, until the word is marked. */
  function Distance(word: Word, p: Pc): (d: nat)
    requires Contender(p)
    ensures 1 <= d <= 7
  {
    match p
    case Retry => if word == AVAIL then 1 else 3
    case WaitCall(_) => if word == AVAIL then 2 else 4
    case SetWaiter(lockpid) => if word == lockpid then 1 else if word == AVAIL then 3 else 5
    case Rescue(lockpid) => if word == lockpid then 1 else if word == AVAIL then 4 else 6
    case Examine(lockpid) => if word == lockpid then 2 else if word == AVAIL then 5 else 7
    case _ => 1
  }

  /** An instruction of a contender marks the word, or brings it closer to that. */
  lemma ContenderMoves(s: State, c: Tid)
    requires Inv(s) && Live(s, c) && Contender(s.pc[c]) && !s.word.waiter
    ensures Enabled(s, Advance(c))
    ensures var s' := Apply(s, Advance(c));
      s'.word.waiter || (Contender(s'.pc[c]) && Distance(s'.word, s'.pc[c]) < Distance(s.word, s.pc[c]))
  {
    assert Locals(s, c);
  }

  lemma {:induction false} ContenderServes(s: State, t: Tid, c: Tid) returns (acts: seq<Action>)
    requires Inv(s) && AllRunning(s) && At(s, t, Asleep) && c in s.pc && Contender(s.pc[c]) && !s.word.waiter
    ensures Quiet(acts) && |acts| <= 4 + Distance(s.word, s.pc[c])
    ensures CanRun(s, acts) && Holds(After(s, acts), t)
    decreases Distance(s.word, s.pc[c])
  {
    assert Live(s, c);
    ContenderMoves(s, c);
    var s' := Apply(s, Advance(c));
    StepKeepsInv(s, Advance(c));
    var rest: seq<Action>;
    if s'.word.waiter {
      rest := HolderServes(s', t);
    } else {
      rest := ContenderServes(s', t, c);
    }
    acts := [Advance(c)] + rest;
    assert acts[1..] == rest;
  }

  lemma ChargeServes(s: State, t: Tid, v: Tid) returns (acts: seq<Action>)
    requires Inv(s) && AllRunning(s) && At(s, t, Asleep) && !s.word.waiter
    requires v in s.pc && (Waking(s.pc[v]) || Contender(s.pc[v]))
    ensures Quiet(acts) && |acts| <= 11 && CanRun(s, acts) && Holds(After(s, acts), t)
  {
    assert Live(s, v) && Locals(s, v);
    if s.pc[v] == WakeCall {
      acts := WakerServes(s, t, v);
    } else if Waking(s.pc[v]) {
      StepKeepsInv(s, Advance(v));
      var rest := WakerServes(Apply(s, Advance(v)), t, v);
      acts := [Advance(v)] + rest;
      assert acts[1..] == rest;
    } else {
      acts := ContenderServes(s, t, v);
    }
  }

  /** In every reachable state without a death, every sleeper can get the lock within
      eleven steps of threads already inside lock or unlock, with no timeout and no new
      call. */
  lemma SleeperCanAcquire(s0: State, run: seq<Action>, t: Tid) returns (acts: seq<Action>)
    requires Init(s0) && CanRun(s0, run) && AllRunning(After(s0, run)) && At(After(s0, run), t, Asleep)
    ensures Quiet(acts) && |acts| <= 11
    ensures CanRun(After(s0, run), acts) && Holds(After(After(s0, run), acts), t)
  {
    RunKeepsInv(s0, run);
    RunKeepsNoLostWakeup(s0, run);
    var s := After(s0, run);
    if s.word.waiter {
      acts := HolderServes(s, t);
    } else {
      var v :| v in s.pc && (Waking(s.pc[v]) || Contender(s.pc[v]));
      acts := ChargeServes(s, t, v);
    }
  }

  // ------------------------------------------------------------- recovery

  /** Only t takes steps: its instructions, and its wait timing out. */
  predicate Alone(acts: seq<Action>, t: Tid) {
    forall i :: 0 <= i < |acts| ==> acts[i] == Advance(t) || acts[i] == Timeout(t)
  }

  /** After its timeout, a sleeper that runs alone has the lock within four steps when
      the word is free or its owner is gone, and its return value names that owner. */
  lemma TimeoutRecovers(s: State, t: Tid) returns (acts: seq<Action>)
    requires Inv(s) && At(s, t, Asleep) && (s.word == AVAIL || s.word.pid in s.gone)
    ensures Alone(acts, t) && |acts| <= 4 && CanRun(s, acts)
    ensures At(After(s, acts), t, Held(s.word.pid)) && After(s, acts).word == Word(s.proc[t], true)
  {
    acts := Then(s, [], Timeout(t));
    acts := Then(s, acts, Advance(t));
    if s.word != AVAIL {
      acts := Then(s, acts, Advance(t));
      acts := Then(s, acts, Advance(t));
    }
  }

  /** t is inside lock, with an owner that is not gone, and has read no other owner. */
  predicate Blocked(s: State, t: Tid, owner: Pid) {
    && Live(s, t) && owner !in s.gone && s.word != AVAIL && s.word.pid == owner
    && match s.pc[t]
       case Examine(lockpid) => lockpid.pid == owner
       case SetWaiter(lockpid) => lockpid.pid == owner
       case WaitCall(_) => true
       case Asleep => true
       case Retry => true
       case _ => false
  }

  lemma {:induction false} BlockedAlone(s: State, t: Tid, owner: Pid, acts: seq<Action>)
    requires Blocked(s, t, owner) && CanRun(s, acts) && Alone(acts, t)
    ensures Blocked(After(s, acts), t, owner)
    decreases |acts|
  {
    if acts != [] {
      assert acts[0] == Advance(t) || acts[0] == Timeout(t);
      assert Alone(acts[1..], t);
      BlockedAlone(Apply(s, acts[0]), t, owner, acts[1..]);
    }
  }

  /** Recovery, exactly: a sleeper that then runs alone can get the lock if and only if
      the word is free or its owner is gone.  A dead owner that has not been reaped,
      and any live owner, keep it. */
  lemma RecoveryIff(s0: State, run: seq<Action>, t: Tid)
    requires Init(s0) && CanRun(s0, run) && At(After(s0, run), t, Asleep)
    ensures var s := After(s0, run);
      (s.word == AVAIL || s.word.pid in s.gone)
      <==> exists acts :: Alone(acts, t) && CanRun(s, acts) && Holds(After(s, acts), t)
  {
    RunKeepsInv(s0, run);
    var s := After(s0, run);
    if s.word == AVAIL || s.word.pid in s.gone {
      var acts := TimeoutRecovers(s, t);
      assert Alone(acts, t) && CanRun(s, acts) && Holds(After(s, acts), t);
    } else {
      forall acts | Alone(acts, t) && CanRun(s, acts)
        ensures !Holds(After(s, acts), t)
      {
        BlockedAlone(s, t, s.word.pid, acts);
      }
    }
  }

  // ------------------------------------------------------ whole operations

  /** t takes n instructions in a row. */
  function Steps(t: Tid, n: nat): seq<Action> {
    if n == 0 then [] else [Advance(t)] + Steps(t, n - 1)
  }

  lemma First(s: State, a: Action, rest: seq<Action>)
    requires Enabled(s, a) && CanRun(Apply(s, a), rest)
    ensures CanRun(s, [a] + rest) && After(s, [a] + rest) == After(Apply(s, a), rest)
  {
    assert ([a] + rest)[1..] == rest;
  }

  /** On a free word lock and trylock succeed at once; the word is the process id. */
  lemma LockTakesFree(s: State, t: Tid)
    requires s.word == AVAIL && At(s, t, Idle)
    ensures CanRun(s, [StartLock(t), Advance(t)])
    ensures After(s, [StartLock(t), Advance(t)]) == s.(word := Word(s.proc[t], false), pc := s.pc[t := Held(0)])
    ensures CanRun(s, [StartTry(t), Advance(t)])
    ensures After(s, [StartTry(t), Advance(t)]) == s.(word := Word(s.proc[t], false), pc := s.pc[t := Held(0)])
  {
    var lock, try := Apply(s, StartLock(t)), Apply(s, StartTry(t));
    First(lock, Advance(t), []);
    First(s, StartLock(t), [Advance(t)]);
    First(try, Advance(t), []);
    First(s, StartTry(t), [Advance(t)]);
  }

  /** On any other word trylock gives up at once and changes nothing, even if the owner is
      gone. */
  lemma TryRefusesHeld(s: State, t: Tid)
    requires s.word != AVAIL && At(s, t, Idle)
    ensures CanRun(s, [StartTry(t), Advance(t)]) && After(s, [StartTry(t), Advance(t)]) == s
  {
    First(Apply(s, StartTry(t)), Advance(t), []);
    First(s, StartTry(t), [Advance(t)]);
    assert s.pc[t := TryCas][t := Idle] == s.pc;
  }

  /** Inside lock. */
  predicate Locking(p: Pc) {
    p.FirstCas? || Contender(p)
  }

  /** How many instructions a thread inside lock, of process self, is from holding a free
      word ... */
  function Away(p: Pc, self: Pid, gone: set<Pid>): nat
    requires Locking(p)
  {
    match p
    case FirstCas => 1
    case Retry => 1
    case WaitCall(_) => 2
    case SetWaiter(lockpid) => if lockpid.waiter then 3 else 2
    case Rescue(lockpid) => if lockpid.waiter then 4 else 3
    case Examine(lockpid) =>
      (if lockpid.waiter then 4 else 3) + if self != lockpid.pid && lockpid.pid in gone then 1 else 0
    case _ => 0
  }

  /** A thread anywhere inside lock that finds the word free and runs alone acquires it
      normally, after exactly that many instructions, at most five; it sets the waiter bit
      if it may not have been the only one. */
  lemma {:induction false} LockingTakesFree(s: State, t: Tid)
    requires Inv(s) && s.word == AVAIL && Live(s, t) && Locking(s.pc[t])
    ensures Away(s.pc[t], s.proc[t], s.gone) <= 5
    ensures CanRun(s, Steps(t, Away(s.pc[t], s.proc[t], s.gone)))
    ensures After(s, Steps(t, Away(s.pc[t], s.proc[t], s.gone))) ==
            s.(word := Word(s.proc[t], !s.pc[t].FirstCas?), pc := s.pc[t := Held(0)])
    decreases Away(s.pc[t], s.proc[t], s.gone)
  {
    assert Locals(s, t);
    var s' := Apply(s, Advance(t));
    assert s'.pc[t := Held(0)] == s.pc[t := Held(0)];
    if !s'.pc[t].Held? {
      StepKeepsInv(s, Advance(t));
      LockingTakesFree(s', t);
    }
    First(s, Advance(t), Steps(t, Away(s.pc[t], s.proc[t], s.gone) - 1));
  }

  /** ... and from its sleep behind an owner that is not gone. */
  function UntilSleep(word: Word, p: Pc, self: Pid, gone: set<Pid>): nat
    requires Locking(p)
  {
    match p
    case FirstCas => 4
    case Retry => 4
    case WaitCall(wanted) => if word == wanted then 1 else 5
    case SetWaiter(lockpid) =>
      if lockpid.waiter then (if word == lockpid then 2 else 6) else (if word == lockpid then 2 else 5)
    case Rescue(lockpid) => if lockpid.waiter then 7 else 6
    case Examine(lockpid) =>
      if self != lockpid.pid && lockpid.pid in gone then (if lockpid.waiter then 8 else 7)
      else if word == lockpid then 3 else if lockpid.waiter then 7 else 6
    case _ => 0
  }

  lemma SleepComesCloser(s: State, t: Tid)
    requires Inv(s) && s.word != AVAIL && s.word.pid !in s.gone && Live(s, t) && Locking(s.pc[t])
    ensures Enabled(s, Advance(t))
    ensures var s', n := Apply(s, Advance(t)), UntilSleep(s.word, s.pc[t], s.proc[t], s.gone);
      && 0 < n <= 8 && s' == s.(word := s'.word, pc := s.pc[t := s'.pc[t]])
      && (s'.word == s.word || s'.word == Mark(s.word))
      && (if n == 1 then s'.pc[t] == Asleep && s'.word.waiter
          else Locking(s'.pc[t]) && UntilSleep(s'.word, s'.pc[t], s.proc[t], s.gone) == n - 1)
  {
    assert Locals(s, t);
  }

  /** A thread anywhere inside lock, running alone behind an owner that is not gone, sets
      the waiter bit, changes nothing else, and goes to sleep. */
  lemma {:induction false} LockingSleeps(s: State, t: Tid)
    requires Inv(s) && s.word != AVAIL && s.word.pid !in s.gone && Live(s, t) && Locking(s.pc[t])
    ensures var n := UntilSleep(s.word, s.pc[t], s.proc[t], s.gone);
      && n <= 8 && CanRun(s, Steps(t, n))
      && After(s, Steps(t, n)) == s.(word := Word(s.word.pid, true), pc := s.pc[t := Asleep])
    decreases UntilSleep(s.word, s.pc[t], s.proc[t], s.gone)
  {
    SleepComesCloser(s, t);
    var s', n := Apply(s, Advance(t)), UntilSleep(s.word, s.pc[t], s.proc[t], s.gone);
    assert s'.pc[t := Asleep] == s.pc[t := Asleep];
    if n > 1 {
      StepKeepsInv(s, Advance(t));
      LockingSleeps(s', t);
    }
    First(s, Advance(t), Steps(t, n - 1));
  }

  /** Lock on a word whose owner is gone takes over in three instructions; the call returns
      the owner's id, and the word is the new one with the waiter bit. */
  lemma LockRescues(s: State, t: Tid)
    requires Inv(s) && s.word != AVAIL && s.word.pid in s.gone && At(s, t, Idle)
    ensures var acts := [StartLock(t)] + Steps(t, 3);
      CanRun(s, acts) && After(s, acts) == s.(word := Word(s.proc[t], true), pc := s.pc[t := Held(s.word.pid)])
  {
    var s1 := Apply(s, StartLock(t));
    var s2 := Apply(s1, Advance(t));
    var s3 := Apply(s2, Advance(t));
    First(s3, Advance(t), Steps(t, 0));
    First(s2, Advance(t), Steps(t, 1));
    First(s1, Advance(t), Steps(t, 2));
    First(s, StartLock(t), Steps(t, 3));
  }

  /** The way of a robust lock: its holder's process dies and is reaped, the next lock call
      of another process takes over, and says from whom. */
  lemma DeadOwnerIsRescued(s: State, h: Tid, t: Tid)
    requires Inv(s) && Holds(s, h) && At(s, t, Idle) && s.proc[t] != s.proc[h]
    ensures var acts := [Die(s.proc[h]), Reap(s.proc[h]), StartLock(t)] + Steps(t, 3);
      && CanRun(s, acts)
      && At(After(s, acts), t, Held(s.proc[h])) && After(s, acts).word == Word(s.proc[t], true)
  {
    var p := s.proc[h];
    var s1 := Apply(s, Die(p));
    var s2 := Apply(s1, Reap(p));
    StepKeepsInv(s, Die(p));
    StepKeepsInv(s1, Reap(p));
    LockRescues(s2, t);
    var lock := [StartLock(t)] + Steps(t, 3);
    First(s1, Reap(p), lock);
    First(s, Die(p), [Reap(p)] + lock);
    assert [Die(p)] + ([Reap(p)] + lock) == [Die(p), Reap(p), StartLock(t)] + Steps(t, 3);
  }

  /** Unlock frees the word in two instructions, and returns unless the waiter bit was set:
      then it goes on to wake. */
  lemma UnlockFrees(s: State, t: Tid)
    requires Inv(s) && Holds(s, t)
    ensures CanRun(s, Steps(t, 2))
    ensures After(s, Steps(t, 2)) == s.(word := Word(0, false), pc := s.pc[t := if s.word.waiter then WakeCall else Idle])
  {
    var s1 := Apply(s, Advance(t));
    First(s1, Advance(t), Steps(t, 0));
    First(s, Advance(t), Steps(t, 1));
    var p := if s.word.waiter then WakeCall else Idle;
    assert s1.pc[t := p] == s.pc[t := p];
  }

  /** An unlock that meets the waiter bit ends by waking any one live sleeper it picks, who
      tries again, or by finding none. */
  lemma UnlockWakes(s: State, t: Tid)
    requires Inv(s) && Holds(s, t) && s.word.waiter
    ensures forall u :: Sleeps(s, u) ==>
      var acts := Steps(t, 2) + [Wake(t, u)];
      CanRun(s, acts) && After(s, acts) == s.(word := Word(0, false), pc := s.pc[t := Idle][u := Retry])
    ensures (forall u :: !Sleeps(s, u)) ==>
      var acts := Steps(t, 2) + [WakeNobody(t)];
      CanRun(s, acts) && After(s, acts) == s.(word := Word(0, false), pc := s.pc[t := Idle])
  {
    UnlockFrees(s, t);
    var e := After(s, Steps(t, 2));
    assert e.pc[t := Idle] == s.pc[t := Idle];
    forall u | Sleeps(s, u)
      ensures CanRun(s, Steps(t, 2) + [Wake(t, u)])
      ensures After(s, Steps(t, 2) + [Wake(t, u)]) == s.(word := Word(0, false), pc := s.pc[t := Idle][u := Retry])
    {
      var longer := Then(s, Steps(t, 2), Wake(t, u));
    }
    if forall u :: !Sleeps(s, u) {
      assert forall u :: u in s.pc ==> (At(e, u, Asleep) ==> Sleeps(s, u));
      var longer := Then(s, Steps(t, 2), WakeNobody(t));
    }
  }

  /** The assert that safety rules out is there: an unlock by a thread of another process
      than the owner's frees the word, and then aborts. */
  lemma ForeignUnlockAborts(s: State, t: Tid)
    requires Holds(s, t) && s.word.pid != s.proc[t]
    ensures CanRun(s, Steps(t, 2)) && After(s, Steps(t, 2)) == s.(word := AVAIL, pc := s.pc[t := Aborted])
  {
    var s1 := Apply(s, Advance(t));
    First(s1, Advance(t), Steps(t, 0));
    First(s, Advance(t), Steps(t, 1));
  }

  datatype Option<T> = None | Some(value: T)

  /** The live thread that holds the lock, if there is one. */
  ghost function Holder(s: State): (h: Option<Tid>)
    ensures h.Some? ==> Holds(s, h.value)
    ensures h.None? ==> forall t :: !Holds(s, t)
  {
    if exists t :: Holds(s, t) then
      var t :| Holds(s, t);
      Some(t)
    else None
  }

  lemma HolderIs(s: State, t: Tid)
    requires Inv(s)
    ensures Holds(s, t) <==> Holder(s) == Some(t)
  {
  }

  /** Each step leaves the holder as it is, or is an acquire of the lock when no live thread
      has it, by the thread that acts, or its release by the holder, or the holder's death. */
  lemma StepRefinesRobustLock(s: State, a: Action)
    requires Inv(s) && Enabled(s, a)
    ensures var before, after := Holder(s), Holder(Apply(s, a));
      || after == before
      || (a.Advance? && before == None && after == Some(a.t))
      || (a.Advance? && before == Some(a.t) && after == None)
      || (a.Die? && after == None && before.Some? && s.proc[before.value] == a.p)
    ensures a.Advance? && s.pc[a.t].Held? ==> Holder(s) == Some(a.t) && Holder(Apply(s, a)) == None
  {
    StepKeepsInv(s, a);
    if a.Advance? {
      HolderIs(s, a.t);
      HolderIs(Apply(s, a), a.t);
      AdvanceKeepsOthers(s, a.t);
    } else {
      OthersHold(s, a);
    }
  }

  lemma SameHolder(s: State, s': State)
    requires Inv(s) && Inv(s') && forall u :: Holds(s', u) <==> Holds(s, u)
    ensures Holder(s') == Holder(s)
  {
    if Holder(s).Some? {
      HolderIs(s', Holder(s).value);
    }
  }

  lemma AdvanceKeepsOthers(s: State, t: Tid)
    requires Inv(s) && Enabled(s, Advance(t)) && Inv(Apply(s, Advance(t)))
    ensures Holds(s, t) || Holds(Apply(s, Advance(t)), t) || Holder(Apply(s, Advance(t))) == Holder(s)
    ensures Holds(s, t) ==> !Holds(Apply(s, Advance(t)), t) && Holder(Apply(s, Advance(t))) == None
    ensures Holds(Apply(s, Advance(t)), t) ==> Holder(s) == None
  {
    var s' := Apply(s, Advance(t));
    assert forall u :: u != t ==> (Holds(s', u) <==> Holds(s, u));
    if !Holds(s, t) && !Holds(s', t) {
      SameHolder(s, s');
    }
  }

  lemma OthersHold(s: State, a: Action)
    requires Inv(s) && Enabled(s, a) && !a.Advance? && Inv(Apply(s, a))
    ensures Holder(Apply(s, a)) == Holder(s) ||
      (a.Die? && Holder(Apply(s, a)) == None && Holder(s).Some? && s.proc[Holder(s).value] == a.p)
  {
    var s' := Apply(s, a);
    if a.Die? {
      assert forall u :: Holds(s', u) <==> Holds(s, u) && s.proc[u] != a.p;
      if Holder(s).Some? && s.proc[Holder(s).value] != a.p {
        HolderIs(s', Holder(s).value);
      }
    } else {
      assert forall u :: Holds(s', u) <==> Holds(s, u);
      SameHolder(s, s');
    }
  }
}
