/** The three-state futex mutex of ls_lock.h as a step system: any number of
    threads, one shared word, one step for each compare-and-swap, exchange, wait
    or wake.  The interleaving is arbitrary, and a sleeper may wake on its own. */
module FutexMutex {

  type Tid = nat

  const AVAIL := 0
  const LOCKED1 := 1
  const LOCKED2 := 2
  const MAX_SPIN := 10

  /** Where a thread stands.  A thread at a point is about to take that step. */
  datatype Pc =
    | Idle                // outside lock and unlock, lock not held
    | Spin(i: nat)        // adaptive compare-and-swap number i
    | FirstCas            // the compare-and-swap after the spin
    | Contend(val: int)   // head of the do loop, last value read is val
    | WaitCall            // about to enter the kernel wait
    | Asleep              // on the kernel's sleep list
    | Retry               // compare-and-swap that closes the do loop
    | TryCas              // the compare-and-swap of trylock
    | Held                // the lock call has returned; inside the critical section
    | Checked             // unlock has passed its assert
    | WakeCall            // unlock has swapped out LOCKED2
    | Aborted             // the assert of unlock failed

  datatype State = State(word: int, pc: map<Tid, Pc>)

  datatype Action =
    | StartLock(t: Tid)
    | StartTry(t: Tid)
    | Advance(t: Tid)              // t takes its next instruction
    | Wake(t: Tid, sleeper: Tid)   // t's wake call, the kernel picks sleeper
    | WakeNobody(t: Tid)           // t's wake call finds no sleeper
    | Spurious(t: Tid)             // t's wait returns on its own

  predicate Init(s: State) {
    s.word == AVAIL && forall t :: t in s.pc ==> s.pc[t] == Idle
  }

  predicate At(s: State, t: Tid, p: Pc) {
    t in s.pc && s.pc[t] == p
  }

  predicate Advances(p: Pc) {
    p.Spin? || p.FirstCas? || p.Contend? || p.WaitCall? || p.Retry? || p.TryCas? || p.Held? || p.Checked?
  }

  predicate Enabled(s: State, a: Action) {
    match a
    case StartLock(t) => At(s, t, Idle)
    case StartTry(t) => At(s, t, Idle)
    case Advance(t) => t in s.pc && Advances(s.pc[t])
    case Wake(t, u) => At(s, t, WakeCall) && At(s, u, Asleep)
    case WakeNobody(t) => At(s, t, WakeCall) && forall u :: u in s.pc ==> s.pc[u] != Asleep
    case Spurious(t) => At(s, t, Asleep)
  }

  /** The word and the point of a thread at p after one atomic instruction on word. */
  function Instruction(word: int, p: Pc): (int, Pc)
    requires Advances(p)
  {
    match p
    case Spin(i) =>
      if word == AVAIL then (LOCKED1, Held)
      else if word == LOCKED2 || i + 1 >= MAX_SPIN then (word, FirstCas)
      else (word, Spin(i + 1))
    case FirstCas =>
      if word == AVAIL then (LOCKED1, Held) else (word, Contend(word))
    case Contend(val) =>
      if val == LOCKED2 then (word, WaitCall)
      else if word == LOCKED1 then (LOCKED2, WaitCall)
      else if word != AVAIL then (word, WaitCall)
      else (word, Retry)
    case WaitCall =>
      if word == LOCKED2 then (word, Asleep) else (word, Retry)
    case Retry =>
      if word == AVAIL then (LOCKED2, Held) else (word, Contend(word))
    case TryCas =>
      if word == AVAIL then (LOCKED1, Held) else (word, Idle)
    case Held =>
      if word != AVAIL then (word, Checked) else (word, Aborted)
    case Checked =>
      if word == LOCKED2 then (AVAIL, WakeCall) else (AVAIL, Idle)
  }

  function Apply(s: State, a: Action): State
    requires Enabled(s, a)
  {
    match a
    case StartLock(t) => s.(pc := s.pc[t := Spin(0)])
    case StartTry(t) => s.(pc := s.pc[t := TryCas])
    case Advance(t) =>
      var (word, p) := Instruction(s.word, s.pc[t]);
      State(word, s.pc[t := p])
    case Wake(t, u) => s.(pc := s.pc[t := Idle][u := Retry])
    case WakeNobody(t) => s.(pc := s.pc[t := Idle])
    case Spurious(t) => s.(pc := s.pc[t := Retry])
  }

  /** acts can be taken one after the other from s. */
  ghost predicate CanRun(s: State, acts: seq<Action>)
    decreases |acts|
  {
    acts == [] || (Enabled(s, acts[0]) && CanRun(Apply(s, acts[0]), acts[1..]))
  }

  ghost function After(s: State, acts: seq<Action>): State
    requires CanRun(s, acts)
    decreases |acts|
  {
    if acts == [] then s else After(Apply(s, acts[0]), acts[1..])
  }

  // ---------------------------------------------------------------- safety

  predicate Owns(p: Pc) {
    p.Held? || p.Checked?
  }

  predicate Contender(p: Pc) {
    p.Contend? || p.WaitCall? || p.Retry?
  }

  /** Mutual exclusion, and the word says exactly whether the lock is held. */
  ghost predicate Exclusive(s: State) {
    && s.word in {AVAIL, LOCKED1, LOCKED2}
    && (forall t :: t in s.pc && Owns(s.pc[t]) ==> s.word != AVAIL)
    && (forall t, u :: t in s.pc && u in s.pc && Owns(s.pc[t]) && Owns(s.pc[u]) ==> t == u)
    && (s.word != AVAIL ==> exists t :: t in s.pc && Owns(s.pc[t]))
    && (forall t :: t in s.pc ==> s.pc[t] != Aborted)
  }

  /** The locals of each thread hold what its code can have read. */
  ghost predicate LocalsOk(s: State) {
    forall t :: t in s.pc ==>
      (s.pc[t].Contend? ==> s.pc[t].val == LOCKED1 || s.pc[t].val == LOCKED2)
      && (s.pc[t].Spin? ==> s.pc[t].i < MAX_SPIN)
  }

  /** A sleeper is never forgotten: the word tells the holder to wake somebody, or
      somebody is about to, or an awake thread is in the slow path and will mark
      the word itself. */
  ghost predicate NoLostWakeup(s: State) {
    (exists t :: t in s.pc && s.pc[t] == Asleep) ==>
      || s.word == LOCKED2
      || (exists t :: t in s.pc && s.pc[t] == WakeCall)
      || (exists t :: t in s.pc && Contender(s.pc[t]))
  }

  ghost predicate Inv(s: State) {
    Exclusive(s) && LocalsOk(s) && NoLostWakeup(s)
  }

  lemma AdvanceKeepsExclusive(s: State, t: Tid)
    requires Exclusive(s) && LocalsOk(s) && Enabled(s, Advance(t))
    ensures Exclusive(Apply(s, Advance(t))) && LocalsOk(Apply(s, Advance(t)))
  {
    var s' := Apply(s, Advance(t));
    if s'.word != AVAIL {
      if Owns(s'.pc[t]) {
      } else {
        var h :| h in s.pc && Owns(s.pc[h]);
        assert h in s'.pc && Owns(s'.pc[h]);
      }
    }
  }

  lemma OtherStepsKeepExclusive(s: State, a: Action, s': State)
    requires Exclusive(s) && LocalsOk(s) && Enabled(s, a) && !a.Advance? && s' == Apply(s, a)
    ensures Exclusive(s') && LocalsOk(s')
  {
    assert s'.word == s.word;
    forall t | t in s'.pc
      ensures t in s.pc && Owns(s'.pc[t]) == Owns(s.pc[t]) && s'.pc[t] != Aborted
      ensures s'.pc[t] == s.pc[t] || (!s'.pc[t].Contend? && (s'.pc[t].Spin? ==> s'.pc[t].i < MAX_SPIN))
    {
    }
    if s.word != AVAIL {
      var h :| h in s.pc && Owns(s.pc[h]);
      assert h in s'.pc && Owns(s'.pc[h]);
    }
  }

  lemma StepKeepsExclusive(s: State, a: Action)
    requires Exclusive(s) && LocalsOk(s) && Enabled(s, a)
    ensures Exclusive(Apply(s, a)) && LocalsOk(Apply(s, a))
  {
    if a.Advance? {
      AdvanceKeepsExclusive(s, a.t);
    } else {
      OtherStepsKeepExclusive(s, a, Apply(s, a));
    }
  }

  lemma StepKeepsNoLostWakeup(s: State, a: Action)
    requires Inv(s) && Enabled(s, a)
    ensures NoLostWakeup(Apply(s, a))
  {
    var s' := Apply(s, a);
    if sleeper :| sleeper in s'.pc && s'.pc[sleeper] == Asleep && s'.word != LOCKED2 {
      match a
      case Wake(t, u) =>
        assert Contender(s'.pc[u]);
      case Spurious(t) =>
        assert Contender(s'.pc[t]);
      case WakeNobody(t) =>
        assert false;
      case StartLock(t) =>
        ServerRemains(s, s', t, s'.pc[t], sleeper);
      case StartTry(t) =>
        ServerRemains(s, s', t, s'.pc[t], sleeper);
      case Advance(t) =>
        if s.word == LOCKED2 {
          assert s'.pc[t] == WakeCall;
        } else if Contender(s.pc[t]) {
          assert Contender(s'.pc[t]);
        } else {
          ServerRemains(s, s', t, s'.pc[t], sleeper);
        }
    }
  }

  /** A step of a thread that is neither waking anybody nor in the slow path leaves
      alone whoever is responsible for the sleeper. */
  lemma ServerRemains(s: State, s': State, t: Tid, p: Pc, sleeper: Tid)
    requires Inv(s) && t in s.pc && s.pc[t] != WakeCall && !Contender(s.pc[t])
    requires s'.pc == s.pc[t := p]
    requires At(s, sleeper, Asleep) && s.word != LOCKED2
    ensures (exists v :: v in s'.pc && s'.pc[v] == WakeCall) || (exists v :: v in s'.pc && Contender(s'.pc[v]))
  {
    if v :| v in s.pc && s.pc[v] == WakeCall {
      assert v in s'.pc && s'.pc[v] == WakeCall;
    } else {
      var v :| v in s.pc && Contender(s.pc[v]);
      assert v in s'.pc && Contender(s'.pc[v]);
    }
  }

  lemma StepKeepsInv(s: State, a: Action)
    requires Inv(s) && Enabled(s, a)
    ensures Inv(Apply(s, a))
  {
    StepKeepsExclusive(s, a);
    StepKeepsNoLostWakeup(s, a);
  }

  /** Every state of every run, for any number of threads: mutual exclusion, a word
      that is non-zero exactly when the lock is held, an assert in unlock that never
      fails, and no lost wakeup. */
  lemma {:induction false} RunKeepsInv(s: State, acts: seq<Action>)
    requires Inv(s) && CanRun(s, acts)
    ensures Inv(After(s, acts))
    decreases |acts|
  {
    if acts != [] {
      StepKeepsInv(s, acts[0]);
      RunKeepsInv(Apply(s, acts[0]), acts[1..]);
    }
  }

  lemma MutexSafety(s: State, acts: seq<Action>)
    requires Init(s) && CanRun(s, acts)
    ensures var e := After(s, acts);
      && e.word in {AVAIL, LOCKED1, LOCKED2}
      && (e.word != AVAIL <==> exists t :: t in e.pc && Owns(e.pc[t]))
      && (forall t, u :: t in e.pc && u in e.pc && Owns(e.pc[t]) && Owns(e.pc[u]) ==> t == u)
      && (forall t :: t in e.pc ==> e.pc[t] != Aborted)
  {
    RunKeepsInv(s, acts);
  }

  /** A thread that is awake and bound to serve the sleepers: it holds the lock, is
      about to wake one of them, or is contending in the slow path. */
  predicate Serves(p: Pc) {
    Owns(p) || p.WakeCall? || Contender(p)
  }

  /** No reachable state has a sleeper while every other thread is idle. */
  lemma NoStrandedSleeper(s: State, acts: seq<Action>, t: Tid)
    requires Init(s) && CanRun(s, acts) && At(After(s, acts), t, Asleep)
    ensures exists u :: u in After(s, acts).pc && Serves(After(s, acts).pc[u])
  {
    RunKeepsInv(s, acts);
    var e := After(s, acts);
    if e.word == LOCKED2 {
      var h :| h in e.pc && Owns(e.pc[h]);
      assert Serves(e.pc[h]);
    } else if w :| w in e.pc && e.pc[w] == WakeCall {
      assert Serves(e.pc[w]);
    } else {
      var c :| c in e.pc && Contender(e.pc[c]);
      assert Serves(e.pc[c]);
    }
  }

  // ------------------------------------------------------------ refinement

  datatype Option<T> = None | Some(value: T)

  /** The lock as its users see it: held by one thread, or free. */
  ghost function Owner(s: State): (o: Option<Tid>)
    ensures o.Some? ==> o.value in s.pc && Owns(s.pc[o.value])
    ensures o.None? ==> forall t :: t in s.pc ==> !Owns(s.pc[t])
  {
    if exists t :: t in s.pc && Owns(s.pc[t]) then
      var t :| t in s.pc && Owns(s.pc[t]);
      Some(t)
    else None
  }

  /** One step of the atomic lock: t takes it when free, or gives it up when it has it. */
  predicate AtomicStep(before: Option<Tid>, t: Tid, after: Option<Tid>) {
    || (before == None && after == Some(t))
    || (before == Some(t) && after == None)
  }

  lemma OwnerIs(s: State, t: Tid)
    requires Exclusive(s) && t in s.pc
    ensures Owns(s.pc[t]) <==> Owner(s) == Some(t)
    ensures Owner(s) == None <==> s.word == AVAIL
  {
  }

  lemma OthersOwn(s: State, t: Tid)
    requires Exclusive(s) && Enabled(s, Advance(t)) && Exclusive(Apply(s, Advance(t)))
    ensures Owner(s) != Some(t) && Owner(Apply(s, Advance(t))) != Some(t) ==> Owner(Apply(s, Advance(t))) == Owner(s)
  {
    var s' := Apply(s, Advance(t));
    if Owner(s) != Some(t) && Owner(s') != Some(t) {
      OwnerIs(s, t);
      OwnerIs(s', t);
      assert forall u :: u in s.pc ==> Owns(s'.pc[u]) == Owns(s.pc[u]);
    }
  }

  lemma OnlyAdvanceOwns(s: State, a: Action)
    requires Exclusive(s) && Enabled(s, a) && !a.Advance?
    ensures Owner(Apply(s, a)) == Owner(s)
  {
    var s' := Apply(s, a);
    assert forall t :: t in s.pc ==> Owns(s'.pc[t]) == Owns(s.pc[t]);
  }

  /** Every step of every thread is a step of the atomic lock by that same thread, or
      changes nothing that a user sees. */
  lemma StepRefinesAtomicLock(s: State, a: Action)
    requires Inv(s) && Enabled(s, a)
    ensures Owner(Apply(s, a)) == Owner(s) || (a.Advance? && AtomicStep(Owner(s), a.t, Owner(Apply(s, a))))
    ensures a.Advance? && !Owns(s.pc[a.t]) && Owns(Apply(s, a).pc[a.t]) ==>
      Owner(s) == None && Owner(Apply(s, a)) == Some(a.t)
    ensures a.Advance? && s.pc[a.t] == TryCas && Apply(s, a).pc[a.t] == Idle ==>
      Owner(s).Some? && Owner(s) != Some(a.t)
    ensures a.Advance? && s.pc[a.t] == Checked ==> Owner(s) == Some(a.t) && Owner(Apply(s, a)) == None
  {
    StepKeepsExclusive(s, a);
    if a.Advance? {
      OwnerIs(s, a.t);
      OwnerIs(Apply(s, a), a.t);
      OthersOwn(s, a.t);
    } else {
      OnlyAdvanceOwns(s, a);
    }
  }

  // -------------------------------------------------------------- progress

  /** No thread calls lock or trylock, and no wait returns on its own. */
  predicate Quiet(acts: seq<Action>) {
    forall i :: 0 <= i < |acts| ==> acts[i].Advance? || acts[i].Wake?
  }

  /** A schedule extended by one step. */
  lemma {:induction false} Then(s: State, acts: seq<Action>, a: Action) returns (longer: seq<Action>)
    requires CanRun(s, acts) && Enabled(After(s, acts), a)
    ensures longer == acts + [a]
    ensures CanRun(s, longer) && After(s, longer) == Apply(After(s, acts), a)
    decreases |acts|
  {
    longer := acts + [a];
    if acts == [] {
      assert longer[1..] == [];
    } else {
      var rest := Then(Apply(s, acts[0]), acts[1..], a);
      assert longer[1..] == rest;
    }
  }

  /** With the lock marked contended, the holder's unlock can hand it to any sleeper. */
  lemma HolderServes(s: State, t: Tid) returns (acts: seq<Action>)
    requires Inv(s) && At(s, t, Asleep) && s.word == LOCKED2
    ensures Quiet(acts) && |acts| <= 4 && CanRun(s, acts) && At(After(s, acts), t, Held)
  {
    var h :| h in s.pc && Owns(s.pc[h]);
    acts := [];
    if s.pc[h] == Held {
      acts := Then(s, acts, Advance(h));
    }
    acts := Then(s, acts, Advance(h));
    acts := Then(s, acts, Wake(h, t));
    acts := Then(s, acts, Advance(t));
  }

  /** A thread about to wake can pick any sleeper, and the holder, if any, lets it in. */
  lemma WakerServes(s: State, t: Tid, w: Tid) returns (acts: seq<Action>)
    requires Inv(s) && At(s, t, Asleep) && At(s, w, WakeCall) && s.word != LOCKED2
    ensures Quiet(acts) && |acts| <= 4 && CanRun(s, acts) && At(After(s, acts), t, Held)
  {
    acts := Then(s, [], Wake(w, t));
    if s.word != AVAIL {
      var h :| h in s.pc && Owns(s.pc[h]);
      if s.pc[h] == Held {
        acts := Then(s, acts, Advance(h));
      }
      acts := Then(s, acts, Advance(h));
    }
    acts := Then(s, acts, Advance(t));
  }

  /** How many instructions a contender needs until the word is marked contended. */
  function Distance(word: int, p: Pc): (d: nat)
    requires Contender(p)
    ensures 1 <= d <= 4
  {
    if word == AVAIL then
      (if p.Retry? then 1 else if p.WaitCall? || p.val != LOCKED2 then 2 else 3)
    else
      (if p.Retry? then 2 else if p.WaitCall? then 3 else if p.val != LOCKED2 then 1 else 4)
  }

  /** An awake thread in the slow path, running alone, marks the word and so commits
      the holder to serve the sleeper. */
  lemma {:induction false} ContenderServes(s: State, t: Tid, c: Tid) returns (acts: seq<Action>)
    requires Inv(s) && At(s, t, Asleep) && c in s.pc && Contender(s.pc[c]) && s.word != LOCKED2
    ensures Quiet(acts) && |acts| <= 4 + Distance(s.word, s.pc[c])
    ensures CanRun(s, acts) && At(After(s, acts), t, Held)
    decreases Distance(s.word, s.pc[c])
  {
    var s' := Apply(s, Advance(c));
    StepKeepsInv(s, Advance(c));
    var rest: seq<Action>;
    if s'.word == LOCKED2 {
      rest := HolderServes(s', t);
    } else {
      rest := ContenderServes(s', t, c);
    }
    acts := [Advance(c)] + rest;
    assert acts[1..] == rest;
  }

  /** What the no-lost-wakeup invariant is for: from every reachable state, every
      sleeper can still get the lock within eight steps taken by threads that are
      already in lock or unlock, without new calls and without spurious wakeups. */
  lemma SleeperCanAcquire(s0: State, run: seq<Action>, t: Tid) returns (acts: seq<Action>)
    requires Init(s0) && CanRun(s0, run) && At(After(s0, run), t, Asleep)
    ensures Quiet(acts) && |acts| <= 8
    ensures CanRun(After(s0, run), acts) && At(After(After(s0, run), acts), t, Held)
  {
    RunKeepsInv(s0, run);
    var s := After(s0, run);
    if s.word == LOCKED2 {
      acts := HolderServes(s, t);
    } else if w :| w in s.pc && s.pc[w] == WakeCall {
      acts := WakerServes(s, t, w);
    } else {
      var c :| c in s.pc && Contender(s.pc[c]);
      acts := ContenderServes(s, t, c);
    }
  }

  // ------------------------------------------------------ whole operations

  /** t takes n instructions in a row. */
  function Steps(t: Tid, n: nat): seq<Action> {
    if n == 0 then [] else [Advance(t)] + Steps(t, n - 1)
  }

  lemma First(s: State, a: Action, rest: seq<Action>)
    requires Enabled(s, a) && CanRun(Apply(s, a), rest)
    ensures CanRun(s, [a] + rest) && After(s, [a] + rest) == After(Apply(s, a), rest)
  {
    assert ([a] + rest)[1..] == rest;
  }

  /** On a free mutex lock and trylock succeed at once. */
  lemma LockTakesFree(s: State, t: Tid)
    requires s.word == AVAIL && At(s, t, Idle)
    ensures CanRun(s, [StartLock(t), Advance(t)])
    ensures After(s, [StartLock(t), Advance(t)]) == State(1, s.pc[t := Held])
    ensures CanRun(s, [StartTry(t), Advance(t)])
    ensures After(s, [StartTry(t), Advance(t)]) == State(1, s.pc[t := Held])
  {
    var lock, try := Apply(s, StartLock(t)), Apply(s, StartTry(t));
    First(lock, Advance(t), []);
    First(s, StartLock(t), [Advance(t)]);
    First(try, Advance(t), []);
    First(s, StartTry(t), [Advance(t)]);
  }

  /** On a held one trylock gives up at once and changes nothing. */
  lemma TryRefusesHeld(s: State, t: Tid)
    requires s.word != AVAIL && At(s, t, Idle)
    ensures CanRun(s, [StartTry(t), Advance(t)]) && After(s, [StartTry(t), Advance(t)]) == s
  {
    First(Apply(s, StartTry(t)), Advance(t), []);
    First(s, StartTry(t), [Advance(t)]);
    assert s.pc[t := TryCas][t := Idle] == s.pc;
  }

  /** Inside lock. */
  predicate Locking(p: Pc) {
    p.Spin? || p.FirstCas? || Contender(p)
  }

  /** How many instructions a thread inside lock is from its sleep behind a holder. */
  function Away(word: int, p: Pc): nat
    requires Locking(p) && (p.Spin? ==> p.i < 10)
  {
    match p
    case Spin(i) => if word == LOCKED2 then 4 else 13 - i
    case FirstCas => 3
    case Contend(val) => if word == LOCKED2 || val == LOCKED1 then 2 else 5
    case WaitCall => if word == LOCKED2 then 1 else 4
    case Retry => 3
    case _ => 0
  }

  /** A thread anywhere inside lock, running alone behind a holder, marks the word and goes
      to sleep after exactly that many instructions. */
  lemma {:induction false} LockingSleeps(s: State, t: Tid)
    requires (s.word == LOCKED1 || s.word == LOCKED2) && LocalsOk(s) && t in s.pc && Locking(s.pc[t])
    ensures CanRun(s, Steps(t, Away(s.word, s.pc[t])))
    ensures After(s, Steps(t, Away(s.word, s.pc[t]))) == State(2, s.pc[t := Asleep])
    decreases Away(s.word, s.pc[t])
  {
    var s', n := Apply(s, Advance(t)), Away(s.word, s.pc[t]);
    assert s'.pc[t := Asleep] == s.pc[t := Asleep];
    if s'.pc[t] != Asleep {
      LockingSleeps(s', t);
    }
    First(s, Advance(t), Steps(t, n - 1));
  }

  /** On a held mutex a lock call that runs alone is asleep behind a marked word after ten
      spins and three more instructions, or after one spin if the word was marked. */
  lemma LockSleepsBehindHolder(s: State, t: Tid)
    requires (s.word == LOCKED1 || s.word == LOCKED2) && LocalsOk(s) && At(s, t, Idle)
    ensures var acts := [StartLock(t)] + Steps(t, if s.word == LOCKED1 then 13 else 4);
      CanRun(s, acts) && After(s, acts) == State(2, s.pc[t := Asleep])
  {
    var s1 := Apply(s, StartLock(t));
    LockingSleeps(s1, t);
    First(s, StartLock(t), Steps(t, Away(s.word, Spin(0))));
    assert s1.pc[t := Asleep] == s.pc[t := Asleep];
  }

  /** A thread anywhere inside lock that finds the word free and runs alone holds the lock
      within three instructions; it marks the word if it may have to wake others. */
  lemma LockingTakesFree(s: State, t: Tid) returns (n: nat)
    requires Inv(s) && s.word == AVAIL && t in s.pc && Locking(s.pc[t])
    ensures n <= 3 && CanRun(s, Steps(t, n))
    ensures After(s, Steps(t, n)) == State(if Contender(s.pc[t]) then 2 else 1, s.pc[t := Held])
  {
    var s1 := Apply(s, Advance(t));
    var s2 := if Advances(s1.pc[t]) then Apply(s1, Advance(t)) else s1;
    n := if s1.pc[t] == Held then 1 else if s2.pc[t] == Held then 2 else 3;
    if n == 3 {
      First(s2, Advance(t), Steps(t, 0));
    }
    if n >= 2 {
      First(s1, Advance(t), Steps(t, n - 2));
    }
    First(s, Advance(t), Steps(t, n - 1));
  }

  lemma CallsAloneAcquire(s0: State, run: seq<Action>, t: Tid) returns (n: nat)
    requires Init(s0) && CanRun(s0, run)
    requires After(s0, run).word == AVAIL && t in After(s0, run).pc && Locking(After(s0, run).pc[t])
    ensures n <= 3 && CanRun(After(s0, run), Steps(t, n)) && At(After(After(s0, run), Steps(t, n)), t, Held)
  {
    RunKeepsInv(s0, run);
    n := LockingTakesFree(After(s0, run), t);
  }

  /** Unlock frees the word in two instructions.  It then returns if nobody waits, and
      otherwise wakes one sleeper, who tries again, or finds none. */
  lemma UnlockFrees(s: State, t: Tid)
    requires Inv(s) && At(s, t, Held)
    ensures CanRun(s, Steps(t, 2))
    ensures After(s, Steps(t, 2)) == State(0, s.pc[t := if s.word == 2 then WakeCall else Idle])
  {
    var s1 := Apply(s, Advance(t));
    First(s1, Advance(t), Steps(t, 0));
    First(s, Advance(t), Steps(t, 1));
    assert s1.pc[t := WakeCall] == s.pc[t := WakeCall] && s1.pc[t := Idle] == s.pc[t := Idle];
  }

  /** An unlock that meets a marked word and runs on ends by handing the wake to any one
      sleeper it picks, who tries again, or by finding none. */
  lemma UnlockWakes(s: State, t: Tid)
    requires Inv(s) && At(s, t, Held) && s.word == LOCKED2
    ensures forall u :: u in s.pc && s.pc[u] == Asleep ==>
      var acts := Steps(t, 2) + [Wake(t, u)];
      CanRun(s, acts) && After(s, acts) == State(0, s.pc[t := Idle][u := Retry])
    ensures (forall u :: u in s.pc ==> s.pc[u] != Asleep) ==>
      var acts := Steps(t, 2) + [WakeNobody(t)];
      CanRun(s, acts) && After(s, acts) == State(0, s.pc[t := Idle])
  {
    UnlockFrees(s, t);
    var e := After(s, Steps(t, 2));
    assert e.pc[t := Idle] == s.pc[t := Idle];
    forall u | u in s.pc && s.pc[u] == Asleep
      ensures CanRun(s, Steps(t, 2) + [Wake(t, u)])
      ensures After(s, Steps(t, 2) + [Wake(t, u)]) == State(0, s.pc[t := Idle][u := Retry])
    {
      var longer := Then(s, Steps(t, 2), Wake(t, u));
    }
    if forall u :: u in s.pc ==> s.pc[u] != Asleep {
      var longer := Then(s, Steps(t, 2), WakeNobody(t));
    }
  }

  /** A wait that returns on its own tries for the lock, and on a free word gets it. */
  lemma SpuriousRetries(s: State, t: Tid)
    requires s.word == AVAIL && At(s, t, Asleep)
    ensures CanRun(s, [Spurious(t), Advance(t)])
    ensures After(s, [Spurious(t), Advance(t)]) == State(2, s.pc[t := Held])
  {
    First(Apply(s, Spurious(t)), Advance(t), []);
    First(s, Spurious(t), [Advance(t)]);
  }

  /** The assert that safety rules out is there: an unlock of a free word aborts. */
  lemma UnlockOfFreeAborts(s: State, t: Tid)
    requires s.word == AVAIL && At(s, t, Held)
    ensures Apply(s, Advance(t)) == s.(pc := s.pc[t := Aborted])
  {
  }
}
