/** The thread-safe intrusive stack of ls_tsstack.h over ls_stack.h and the atomic spin
    lock: any number of threads, one step for each access to the lock, to phead or to a
    node's next.  It is shown to behave as an atomic last-in first-out sequence. */
module TsStack {
  import opened LinkedHeap
  import opened Sequences

  type Tid = nat

  const AVAIL := 0
  const INUSE := 456

  /** once: trypush and trypop, which give up when the lock is taken. */
  datatype Op = Push(node: Node, once: bool) | Pop(once: bool)

  datatype Result = Pushed | Popped(top: Link) | Refused(op: Op)

  datatype Pc =
    | Idle
    | Acquire(op: Op)                     // trylock
    | ReadHead(op: Op)                    // push: read phead ...
    | LinkNode(op: Op, head: Link)        // ... write it to the node's next ...
    | SetHead(op: Op)                     // ... and write phead
    | LoadHead(op: Op)                    // pop: read phead ...
    | LoadNext(op: Op, top: Node)         // ... read the node's next ...
    | StoreHead(op: Op, top: Node, next: Link)   // ... and write phead
    | Release(res: Result)                // unlock
    | Returning(res: Result)

  /** owned: the nodes each thread may push, read and write as it likes. */
  datatype State = State(lock: int, head: Link, next: Heap, pc: map<Tid, Pc>, owned: map<Tid, set<Node>>)

  datatype Action =
    | Call(t: Tid, op: Op)
    | Step(t: Tid)                            // t takes its next instruction
    | Return(t: Tid)
    | Scribble(t: Tid, node: Node, to: Link)  // t writes to the next of a node it owns
    | Hand(t: Tid, u: Tid, node: Node)        // t gives a node it owns to u

  predicate Enabled(s: State, a: Action) {
    match a
    case Call(t, op) =>
      t in s.pc && t in s.owned && s.pc[t] == Idle && (op.Push? ==> op.node in s.owned[t])
    case Step(t) => t in s.pc && Steps(s, s.pc[t])
    case Return(t) => t in s.pc && t in s.owned && s.pc[t].Returning?
    case Scribble(t, n, _) => t in s.owned && n in s.owned[t]
    case Hand(t, u, n) => t in s.owned && u in s.owned && t != u && n in s.owned[t]
  }

  /** The thread has an instruction to take, on nodes that exist. */
  predicate Steps(s: State, p: Pc) {
    match p
    case Idle => false
    case Returning(_) => false
    case ReadHead(op) => op.Push?
    case LinkNode(op, _) => op.Push? && op.node in s.next
    case SetHead(op) => op.Push?
    case LoadNext(_, top) => top in s.next
    case _ => true
  }

  function Instruction(s: State, t: Tid): State
    requires Enabled(s, Step(t))
  {
    match s.pc[t]
    case Acquire(op) =>
      if s.lock == AVAIL then
        s.(lock := INUSE, pc := s.pc[t := if op.Push? then ReadHead(op) else LoadHead(op)])
      else if op.once then s.(pc := s.pc[t := Returning(Refused(op))])
      else s
    case ReadHead(op) => s.(pc := s.pc[t := LinkNode(op, s.head)])
    case LinkNode(op, head) => s.(next := s.next[op.node := head], pc := s.pc[t := SetHead(op)])
    case SetHead(op) => s.(head := Ptr(op.node), pc := s.pc[t := Release(Pushed)])
    case LoadHead(op) =>
      s.(pc := s.pc[t := if s.head == Null then Release(Popped(Null)) else LoadNext(op, s.head.node)])
    case LoadNext(op, top) => s.(pc := s.pc[t := StoreHead(op, top, s.next[top])])
    case StoreHead(op, top, next) => s.(head := next, pc := s.pc[t := Release(Popped(Ptr(top)))])
    case Release(res) => s.(lock := AVAIL, pc := s.pc[t := Returning(res)])
  }

  /** The nodes that a call takes from, and a result gives to, its thread. */
  function Taken(op: Op): set<Node> {
    if op.Push? then {op.node} else {}
  }

  function Given(res: Result): set<Node> {
    match res
    case Pushed => {}
    case Popped(top) => if top == Null then {} else {top.node}
    case Refused(op) => Taken(op)
  }

  function Apply(s: State, a: Action): State
    requires Enabled(s, a)
  {
    match a
    case Call(t, op) => s.(pc := s.pc[t := Acquire(op)], owned := s.owned[t := s.owned[t] - Taken(op)])
    case Step(t) => Instruction(s, t)
    case Return(t) => s.(pc := s.pc[t := Idle], owned := s.owned[t := s.owned[t] + Given(s.pc[t].res)])
    case Scribble(t, n, to) => s.(next := s.next[n := to])
    case Hand(t, u, n) => s.(owned := s.owned[t := s.owned[t] - {n}][u := s.owned[u] + {n}])
  }

  ghost predicate CanRun(s: State, acts: seq<Action>)
    decreases |acts|
  {
    acts == [] || (Enabled(s, acts[0]) && CanRun(Apply(s, acts[0]), acts[1..]))
  }

  ghost function After(s: State, acts: seq<Action>): State
    requires CanRun(s, acts)
    decreases |acts|
  {
    if acts == [] then s else After(Apply(s, acts[0]), acts[1..])
  }

  // ----------------------------------------------------- the atomic stack

  /** Where a call stands for its caller: waiting to take effect, or answered. */
  datatype Status = Quiet | Pending(op: Op) | Answered(res: Result)

  datatype Atomic = Atomic(stack: seq<Node>, status: map<Tid, Status>, owned: map<Tid, set<Node>>)

  datatype AtomicAction =
    | Invoke(t: Tid, op: Op)
    | TakeEffect(t: Tid)     // the whole push or pop, at once
    | GiveUp(t: Tid)         // a trypush or trypop that does nothing
    | Respond(t: Tid)
    | Pass(t: Tid, u: Tid, node: Node)

  predicate AtomicEnabled(a: Atomic, x: AtomicAction) {
    match x
    case Invoke(t, op) =>
      t in a.status && t in a.owned && a.status[t] == Quiet && (op.Push? ==> op.node in a.owned[t])
    case TakeEffect(t) => t in a.status && a.status[t].Pending?
    case GiveUp(t) => t in a.status && a.status[t].Pending? && a.status[t].op.once
    case Respond(t) => t in a.status && t in a.owned && a.status[t].Answered?
    case Pass(t, u, n) => t in a.owned && u in a.owned && t != u && n in a.owned[t]
  }

  function AtomicApply(a: Atomic, x: AtomicAction): Atomic
    requires AtomicEnabled(a, x)
  {
    match x
    case Invoke(t, op) => a.(status := a.status[t := Pending(op)], owned := a.owned[t := a.owned[t] - Taken(op)])
    case TakeEffect(t) =>
      if a.status[t].op.Push? then
        a.(stack := [a.status[t].op.node] + a.stack, status := a.status[t := Answered(Pushed)])
      else if a.stack == [] then
        a.(status := a.status[t := Answered(Popped(Null))])
      else
        a.(stack := a.stack[1..], status := a.status[t := Answered(Popped(Ptr(a.stack[0])))])
    case GiveUp(t) => a.(status := a.status[t := Answered(Refused(a.status[t].op))])
    case Respond(t) => a.(status := a.status[t := Quiet], owned := a.owned[t := a.owned[t] + Given(a.status[t].res)])
    case Pass(t, u, n) => a.(owned := a.owned[t := a.owned[t] - {n}][u := a.owned[u] + {n}])
  }

  ghost predicate AtomicCanRun(a: Atomic, xs: seq<AtomicAction>)
    decreases |xs|
  {
    xs == [] || (AtomicEnabled(a, xs[0]) && AtomicCanRun(AtomicApply(a, xs[0]), xs[1..]))
  }

  ghost function AtomicAfter(a: Atomic, xs: seq<AtomicAction>): Atomic
    requires AtomicCanRun(a, xs)
    decreases |xs|
  {
    if xs == [] then a else AtomicAfter(AtomicApply(a, xs[0]), xs[1..])
  }

  // --------------------------------------------------------- conservation

  /** The nodes in the hands of a thread's current call. */
  function Carried(st: Status): set<Node> {
    match st
    case Quiet => {}
    case Pending(op) => Taken(op)
    case Answered(res) => Given(res)
  }

  /** n is owned by t, or t's call is carrying it. */
  predicate With(a: Atomic, t: Tid, n: Node) {
    t in a.owned && t in a.status && (n in a.owned[t] || n in Carried(a.status[t]))
  }

  /** Every node of the universe is in exactly one place: once in the stack, owned by
      one thread, or carried by one call. */
  ghost predicate Conserved(a: Atomic, universe: set<Node>) {
    && a.status.Keys == a.owned.Keys
    && Distinct(a.stack)
    && (forall n :: n in universe <==> n in a.stack || exists t :: With(a, t, n))
    && (forall t, n :: With(a, t, n) ==> n !in a.stack)
    && (forall t, u, n :: With(a, t, n) && With(a, u, n) ==> t == u)
    && (forall t :: t in a.owned ==> a.owned[t] !! Carried(a.status[t]))
  }

  lemma AtomicKeepsConserved(a: Atomic, x: AtomicAction, universe: set<Node>)
    requires Conserved(a, universe) && AtomicEnabled(a, x)
    ensures Conserved(AtomicApply(a, x), universe)
  {
    var a' := AtomicApply(a, x);
    match x
    case Invoke(t, op) =>
      SamePlaces(a, a', universe);
    case GiveUp(t) =>
      SamePlaces(a, a', universe);
    case Respond(t) =>
      SamePlaces(a, a', universe);
    case TakeEffect(t) =>
      if a.status[t].op.Push? {
        PushKeepsConserved(a, t, universe);
      } else if a.stack == [] {
        SamePlaces(a, a', universe);
      } else {
        PopKeepsConserved(a, t, universe);
      }
    case Pass(t, u, n) =>
      PassKeepsConserved(a, t, u, n, universe);
  }

  lemma PushKeepsConserved(a: Atomic, t: Tid, universe: set<Node>)
    requires Conserved(a, universe) && AtomicEnabled(a, TakeEffect(t)) && a.status[t].op.Push?
    ensures Conserved(AtomicApply(a, TakeEffect(t)), universe)
  {
    var a', n := AtomicApply(a, TakeEffect(t)), a.status[t].op.node;
    assert With(a, t, n);
    forall u, m
      ensures With(a', u, m) <==> With(a, u, m) && m != n
    {
      if u != t && m == n {
        assert !With(a, u, n);
      }
    }
    assert a'.stack[0] == n && a'.stack[1..] == a.stack;
    assert forall m :: m in a'.stack <==> m in a.stack || m == n;
  }

  lemma PopKeepsConserved(a: Atomic, t: Tid, universe: set<Node>)
    requires Conserved(a, universe) && AtomicEnabled(a, TakeEffect(t)) && a.status[t].op.Pop? && a.stack != []
    ensures Conserved(AtomicApply(a, TakeEffect(t)), universe)
  {
    var a', n := AtomicApply(a, TakeEffect(t)), a.stack[0];
    assert n in a.stack && !With(a, t, n);
    assert a.stack == [n] + a'.stack;
    assert With(a', t, n);
    forall u, m
      ensures With(a', u, m) <==> With(a, u, m) || (u == t && m == n)
    {
    }
    assert forall m :: m in a'.stack <==> m in a.stack && m != n;
  }

  lemma PassKeepsConserved(a: Atomic, t: Tid, u: Tid, n: Node, universe: set<Node>)
    requires Conserved(a, universe) && AtomicEnabled(a, Pass(t, u, n))
    ensures Conserved(AtomicApply(a, Pass(t, u, n)), universe)
  {
    var a' := AtomicApply(a, Pass(t, u, n));
    assert With(a, t, n);
    forall v, m
      ensures With(a', v, m) <==> if m == n then v == u else With(a, v, m)
    {
      if m == n && v != t {
        assert !With(a, v, n);
      }
    }
    assert With(a', u, n);
    assert !With(a, u, n);
  }

  lemma SamePlaces(a: Atomic, a': Atomic, universe: set<Node>)
    requires Conserved(a, universe) && a'.stack == a.stack && a'.status.Keys == a'.owned.Keys
    requires forall t, n :: With(a', t, n) <==> With(a, t, n)
    requires forall t :: t in a'.owned ==> a'.owned[t] !! Carried(a'.status[t])
    ensures Conserved(a', universe)
  {
  }

  // ------------------------------------------------------------ refinement

  function StatusOf(p: Pc): Status {
    match p
    case Idle => Quiet
    case Acquire(op) => Pending(op)
    case ReadHead(op) => Pending(op)
    case LinkNode(op, _) => Pending(op)
    case SetHead(op) => Pending(op)
    case LoadHead(op) => Pending(op)
    case LoadNext(op, _) => Pending(op)
    case StoreHead(op, _, _) => Pending(op)
    case Release(res) => Answered(res)
    case Returning(res) => Answered(res)
  }

  predicate InSection(p: Pc) {
    !p.Idle? && !p.Acquire? && !p.Returning?
  }

  /** What a thread inside the section has read is still so. */
  predicate Locals(s: State, p: Pc) {
    match p
    case ReadHead(op) => op.Push?
    case LinkNode(op, head) => op.Push? && head == s.head
    case SetHead(op) => op.Push? && op.node in s.next && s.next[op.node] == s.head
    case LoadHead(op) => op.Pop?
    case LoadNext(op, top) => op.Pop? && s.head == Ptr(top)
    case StoreHead(op, top, next) => op.Pop? && s.head == Ptr(top) && top in s.next && s.next[top] == next
    case _ => true
  }

  /** The spin lock admits one thread at a time. */
  ghost predicate Exclusive(s: State) {
    && (forall t, u :: t in s.pc && u in s.pc && InSection(s.pc[t]) && InSection(s.pc[u]) ==> t == u)
    && (forall t :: t in s.pc && InSection(s.pc[t]) ==> s.lock == INUSE)
    && (s.lock != AVAIL ==> exists t :: t in s.pc && InSection(s.pc[t]))
  }

  /** The atomic stack that callers see, when the linked list reads stack. */
  function View(s: State, stack: seq<Node>): Atomic {
    Atomic(stack, map t | t in s.pc :: StatusOf(s.pc[t]), s.owned)
  }

  ghost predicate Inv(s: State, stack: seq<Node>) {
    && Exclusive(s)
    && (forall t :: t in s.pc ==> Locals(s, s.pc[t]))
    && Chain(s.next, s.head, stack)
    && Conserved(View(s, stack), s.next.Keys)
  }

  datatype Effect = Silent | Does(x: AtomicAction)

  predicate EffectEnabled(a: Atomic, e: Effect) {
    e.Does? ==> AtomicEnabled(a, e.x)
  }

  function EffectApply(a: Atomic, e: Effect): Atomic
    requires EffectEnabled(a, e)
  {
    if e.Does? then AtomicApply(a, e.x) else a
  }

  /** The step of the atomic stack, if any, that a step of the code stands for.  A push
      takes effect when phead is written, a pop when phead is written or read as null. */
  function Stands(s: State, a: Action): Effect
    requires Enabled(s, a)
  {
    match a
    case Call(t, op) => Does(Invoke(t, op))
    case Return(t) => Does(Respond(t))
    case Hand(t, u, n) => Does(Pass(t, u, n))
    case Scribble(_, _, _) => Silent
    case Step(t) =>
      match s.pc[t]
      case SetHead(_) => Does(TakeEffect(t))
      case StoreHead(_, _, _) => Does(TakeEffect(t))
      case LoadHead(_) => if s.head == Null then Does(TakeEffect(t)) else Silent
      case Acquire(op) => if s.lock != AVAIL && op.once then Does(GiveUp(t)) else Silent
      case _ => Silent
  }

  /** What a step does to the lock and to its thread's place in the code. */
  lemma StepShape(s: State, a: Action)
    requires Enabled(s, a) && (a.t in s.pc ==> InSection(s.pc[a.t]) ==> s.lock == INUSE)
    ensures var s' := Apply(s, a);
      if a.t !in s.pc then s'.pc == s.pc && s'.lock == s.lock
      else
        && s'.pc.Keys == s.pc.Keys && (forall u :: u in s.pc && u != a.t ==> s'.pc[u] == s.pc[u])
        && (InSection(s'.pc[a.t]) ==> s'.lock == INUSE && (InSection(s.pc[a.t]) || s.lock == AVAIL))
        && (!InSection(s'.pc[a.t]) ==> s'.lock == if InSection(s.pc[a.t]) then AVAIL else s.lock)
  {
  }

  lemma StepKeepsExclusive(s: State, a: Action)
    requires Exclusive(s) && Enabled(s, a)
    ensures Exclusive(Apply(s, a))
  {
    var s' := Apply(s, a);
    StepShape(s, a);
    if s'.lock != AVAIL && !(a.t in s'.pc && InSection(s'.pc[a.t])) {
      var u :| u in s.pc && InSection(s.pc[u]);
      assert u in s'.pc && InSection(s'.pc[u]);
    }
  }

  /** A node that t owns is neither in the stack nor used by any call. */
  lemma OwnedIsApart(s: State, stack: seq<Node>, t: Tid, n: Node)
    requires Inv(s, stack) && t in s.owned && n in s.owned[t]
    ensures n !in stack && n in s.next
    ensures forall u :: u in s.pc ==> n !in Carried(StatusOf(s.pc[u]))
  {
    var a := View(s, stack);
    assert With(a, t, n);
    forall u | u in s.pc
      ensures n !in Carried(StatusOf(s.pc[u]))
    {
      if n in Carried(a.status[u]) {
        assert With(a, u, n);
      }
    }
  }

  lemma CarriedIsApart(s: State, stack: seq<Node>, t: Tid, n: Node)
    requires Inv(s, stack) && t in s.pc && n in Carried(StatusOf(s.pc[t]))
    ensures n !in stack && n in s.next
  {
    assert With(View(s, stack), t, n);
  }

  lemma HeadIsFirst(s: State, stack: seq<Node>)
    requires Chain(s.next, s.head, stack)
    ensures s.head == Null <==> stack == []
    ensures stack != [] ==> s.head == Ptr(stack[0]) && stack[0] in stack
  {
  }

  lemma StepKeepsLocals(s: State, a: Action, stack: seq<Node>)
    requires Inv(s, stack) && Enabled(s, a)
    ensures forall t :: t in Apply(s, a).pc ==> Locals(Apply(s, a), Apply(s, a).pc[t])
  {
    var s' := Apply(s, a);
    HeadIsFirst(s, stack);
    forall t | t in s'.pc
      ensures Locals(s', s'.pc[t])
    {
      assert Locals(s, s.pc[t]);
      if a.Scribble? {
        OwnedIsApart(s, stack, a.t, a.node);
        if s.pc[t].SetHead? {
          assert s.pc[t].op.node in Carried(StatusOf(s.pc[t]));
        }
      } else if a.Step? && t != a.t && InSection(s.pc[t]) {
        assert !InSection(s.pc[a.t]);
      }
    }
  }

  /** The list after the step reads as the atomic stack after the step it stands for. */
  lemma StepKeepsChain(s: State, a: Action, stack: seq<Node>) returns (stack': seq<Node>)
    requires Inv(s, stack) && Enabled(s, a)
    ensures Chain(Apply(s, a).next, Apply(s, a).head, stack')
    ensures EffectEnabled(View(s, stack), Stands(s, a))
    ensures EffectApply(View(s, stack), Stands(s, a)).stack == stack'
  {
    var s' := Apply(s, a);
    stack' := stack;
    HeadIsFirst(s, stack);
    match a
    case Scribble(t, n, _) =>
      OwnedIsApart(s, stack, t, n);
      ChainFrame(s.next, s'.next, s.head, stack);
    case Step(t) =>
      assert Locals(s, s.pc[t]);
      match s.pc[t] {
        case LinkNode(op, _) =>
          CarriedIsApart(s, stack, t, op.node);
          ChainFrame(s.next, s'.next, s.head, stack);
        case SetHead(op) =>
          stack' := [op.node] + stack;
          assert stack'[1..] == stack;
        case StoreHead(_, top, _) =>
          stack' := stack[1..];
        case _ =>
      }
    case _ =>
  }

  lemma StepKeepsKeys(s: State, a: Action, stack: seq<Node>)
    requires Inv(s, stack) && Enabled(s, a)
    ensures Apply(s, a).next.Keys == s.next.Keys
  {
    if a.Scribble? {
      OwnedIsApart(s, stack, a.t, a.node);
    }
  }

  /** The thread that takes an instruction moves as its caller's status says. */
  lemma StatusMoves(s: State, t: Tid, stack: seq<Node>)
    requires t in s.pc && Locals(s, s.pc[t]) && Chain(s.next, s.head, stack) && Enabled(s, Step(t))
    ensures var e := Stands(s, Step(t));
      EffectEnabled(View(s, stack), e) && EffectApply(View(s, stack), e).status[t] == StatusOf(Apply(s, Step(t)).pc[t])
  {
    HeadIsFirst(s, stack);
    assert View(s, stack).status[t] == StatusOf(s.pc[t]);
  }

  lemma InstructionFrame(s: State, t: Tid)
    requires Enabled(s, Step(t))
    ensures var s' := Instruction(s, t);
      s'.owned == s.owned && s'.pc == s.pc[t := s'.pc[t]]
  {
    var s' := Instruction(s, t);
    assert s.pc == s.pc[t := s.pc[t]];
  }

  lemma InstructionMatchesView(s: State, t: Tid, stack: seq<Node>, stack': seq<Node>)
    requires t in s.pc && Locals(s, s.pc[t]) && Chain(s.next, s.head, stack) && Enabled(s, Step(t))
    requires EffectEnabled(View(s, stack), Stands(s, Step(t)))
    requires EffectApply(View(s, stack), Stands(s, Step(t))).stack == stack'
    ensures EffectApply(View(s, stack), Stands(s, Step(t))) == View(Apply(s, Step(t)), stack')
  {
    var s' := Instruction(s, t);
    StatusMoves(s, t, stack);
    InstructionFrame(s, t);
    var a, e := View(s, stack), Stands(s, Step(t));
    var a' := EffectApply(a, e);
    assert a'.owned == s.owned;
    assert a'.status == a.status[t := a'.status[t]];
    assert a'.status == View(s', stack').status;
  }

  lemma OtherMatchesView(s: State, a: Action, stack: seq<Node>)
    requires Enabled(s, a) && !a.Step? && EffectEnabled(View(s, stack), Stands(s, a))
    ensures EffectApply(View(s, stack), Stands(s, a)) == View(Apply(s, a), stack)
  {
    var seen, view := EffectApply(View(s, stack), Stands(s, a)), View(Apply(s, a), stack);
    assert seen.status == view.status;
  }

  lemma StepMatchesView(s: State, a: Action, stack: seq<Node>, stack': seq<Node>)
    requires Inv(s, stack) && Enabled(s, a) && EffectEnabled(View(s, stack), Stands(s, a))
    requires EffectApply(View(s, stack), Stands(s, a)).stack == stack'
    ensures EffectApply(View(s, stack), Stands(s, a)) == View(Apply(s, a), stack')
  {
    if a.Step? {
      InstructionMatchesView(s, a.t, stack, stack');
    } else {
      OtherMatchesView(s, a, stack);
    }
  }

  lemma StepKeepsConserved(s: State, a: Action, stack: seq<Node>, stack': seq<Node>)
    requires Inv(s, stack) && Enabled(s, a) && EffectEnabled(View(s, stack), Stands(s, a))
    requires EffectApply(View(s, stack), Stands(s, a)) == View(Apply(s, a), stack')
    ensures Conserved(View(Apply(s, a), stack'), s.next.Keys)
  {
    if Stands(s, a).Does? {
      AtomicKeepsConserved(View(s, stack), Stands(s, a).x, s.next.Keys);
    }
  }

  /** Each step of the code is one step of the atomic stack, or invisible. */
  lemma StepSimulates(s: State, a: Action, stack: seq<Node>) returns (stack': seq<Node>)
    requires Inv(s, stack) && Enabled(s, a)
    ensures Inv(Apply(s, a), stack') && Apply(s, a).next.Keys == s.next.Keys
    ensures EffectEnabled(View(s, stack), Stands(s, a))
    ensures EffectApply(View(s, stack), Stands(s, a)) == View(Apply(s, a), stack')
  {
    StepKeepsExclusive(s, a);
    StepKeepsLocals(s, a, stack);
    StepKeepsKeys(s, a, stack);
    stack' := StepKeepsChain(s, a, stack);
    StepMatchesView(s, a, stack, stack');
    StepKeepsConserved(s, a, stack, stack');
  }

  // ----------------------------------------------------------- whole runs

  /** Nodes start out with the threads, the stack is empty and the lock is free. */
  ghost predicate Init(s: State) {
    && s.lock == AVAIL && s.head == Null && s.pc.Keys == s.owned.Keys
    && (forall t :: t in s.pc ==> s.pc[t] == Idle)
    && (forall t, u :: t in s.owned && u in s.owned && t != u ==> s.owned[t] !! s.owned[u])
    && (forall n :: n in s.next <==> exists t :: t in s.owned && n in s.owned[t])
  }

  lemma InitIsConserved(s: State)
    requires Init(s)
    ensures Conserved(View(s, []), s.next.Keys)
  {
    var a := View(s, []);
    forall t, n
      ensures With(a, t, n) <==> t in s.owned && n in s.owned[t]
    {
      assert t in s.pc ==> a.status[t] == Quiet;
    }
    assert forall n :: n in s.next.Keys ==> exists t :: With(a, t, n);
  }

  lemma InitIsInv(s: State)
    requires Init(s)
    ensures Inv(s, [])
  {
    InitIsConserved(s);
  }

  /** What callers see: calls, answers with their results, and nodes handed over. */
  datatype Event =
    | Called(t: Tid, op: Op)
    | Answer(t: Tid, res: Result)
    | Handed(t: Tid, u: Tid, node: Node)

  /** What a step of the code shows of its thread ... */
  function Shown(s: State, a: Action): seq<Event>
    requires Enabled(s, a)
  {
    match a
    case Call(t, op) => [Called(t, op)]
    case Return(t) => [Answer(t, s.pc[t].res)]
    case Hand(t, u, n) => [Handed(t, u, n)]
    case _ => []
  }

  /** ... and what a step of the atomic stack shows. */
  function AtomicShown(a: Atomic, x: AtomicAction): seq<Event>
    requires AtomicEnabled(a, x)
  {
    match x
    case Invoke(t, op) => [Called(t, op)]
    case Respond(t) => [Answer(t, a.status[t].res)]
    case Pass(t, u, n) => [Handed(t, u, n)]
    case _ => []
  }

  ghost function History(s: State, acts: seq<Action>): seq<Event>
    requires CanRun(s, acts)
    decreases |acts|
  {
    if acts == [] then [] else Shown(s, acts[0]) + History(Apply(s, acts[0]), acts[1..])
  }

  ghost function AtomicHistory(a: Atomic, xs: seq<AtomicAction>): seq<Event>
    requires AtomicCanRun(a, xs)
    decreases |xs|
  {
    if xs == [] then [] else AtomicShown(a, xs[0]) + AtomicHistory(AtomicApply(a, xs[0]), xs[1..])
  }

  /** The whole run of the atomic stack that a run of the code stands for. */
  ghost function StandsRun(s: State, acts: seq<Action>): seq<AtomicAction>
    requires CanRun(s, acts)
    decreases |acts|
  {
    if acts == [] then []
    else
      var e, rest := Stands(s, acts[0]), StandsRun(Apply(s, acts[0]), acts[1..]);
      if e.Does? then [e.x] + rest else rest
  }

  lemma AtomicPrepend(a: Atomic, e: Effect, rest: seq<AtomicAction>)
    requires EffectEnabled(a, e) && AtomicCanRun(EffectApply(a, e), rest)
    ensures var xs := if e.Does? then [e.x] + rest else rest;
      AtomicCanRun(a, xs) && AtomicAfter(a, xs) == AtomicAfter(EffectApply(a, e), rest)
  {
    if e.Does? {
      assert ([e.x] + rest)[1..] == rest;
    }
  }

  lemma {:induction false} RunSimulates(s: State, acts: seq<Action>, stack: seq<Node>) returns (stack': seq<Node>)
    requires Inv(s, stack) && CanRun(s, acts)
    ensures Inv(After(s, acts), stack') && After(s, acts).next.Keys == s.next.Keys
    ensures AtomicCanRun(View(s, stack), StandsRun(s, acts))
    ensures AtomicAfter(View(s, stack), StandsRun(s, acts)) == View(After(s, acts), stack')
    decreases |acts|
  {
    if acts == [] {
      stack' := stack;
    } else {
      var stack1 := StepSimulates(s, acts[0], stack);
      stack' := RunSimulates(Apply(s, acts[0]), acts[1..], stack1);
      AtomicPrepend(View(s, stack), Stands(s, acts[0]), StandsRun(Apply(s, acts[0]), acts[1..]));
    }
  }

  /** The atomic stack gives the answer that the code gives. */
  lemma SameAnswer(s: State, a: Action, stack: seq<Node>)
    requires Inv(s, stack) && Enabled(s, a) && EffectEnabled(View(s, stack), Stands(s, a))
    ensures Shown(s, a) == if Stands(s, a).Does? then AtomicShown(View(s, stack), Stands(s, a).x) else []
  {
  }

  lemma AtomicHistoryPrepend(a: Atomic, e: Effect, rest: seq<AtomicAction>)
    requires EffectEnabled(a, e) && AtomicCanRun(EffectApply(a, e), rest)
    ensures var xs := if e.Does? then [e.x] + rest else rest;
      AtomicCanRun(a, xs) &&
      AtomicHistory(a, xs) == (if e.Does? then AtomicShown(a, e.x) else []) + AtomicHistory(EffectApply(a, e), rest)
  {
    if e.Does? {
      assert ([e.x] + rest)[1..] == rest;
    }
  }

  lemma {:induction false} SameHistory(s: State, acts: seq<Action>, stack: seq<Node>)
    requires Inv(s, stack) && CanRun(s, acts)
    ensures AtomicCanRun(View(s, stack), StandsRun(s, acts))
    ensures AtomicHistory(View(s, stack), StandsRun(s, acts)) == History(s, acts)
    decreases |acts|
  {
    if acts != [] {
      var stack1 := StepSimulates(s, acts[0], stack);
      SameHistory(Apply(s, acts[0]), acts[1..], stack1);
      SameAnswer(s, acts[0], stack);
      AtomicHistoryPrepend(View(s, stack), Stands(s, acts[0]), StandsRun(Apply(s, acts[0]), acts[1..]));
    }
  }

  /** Linearizability.  Every run of the code, however its threads interleave, is a run
      of the atomic stack with the same calls, and the same answers to them, in the same
      order; each push takes effect where it writes phead, each pop where it writes phead
      or reads it as null.  At the end the linked list reads as that atomic stack and in
      no other way, no node has been lost or duplicated, and at most one thread is inside
      the section. */
  lemma Linearizable(s: State, acts: seq<Action>) returns (xs: seq<AtomicAction>, stack: seq<Node>)
    requires Init(s) && CanRun(s, acts)
    ensures xs == StandsRun(s, acts) && AtomicCanRun(View(s, []), xs)
    ensures AtomicHistory(View(s, []), xs) == History(s, acts)
    ensures AtomicAfter(View(s, []), xs) == View(After(s, acts), stack)
    ensures Chain(After(s, acts).next, After(s, acts).head, stack)
    ensures forall r :: Chain(After(s, acts).next, After(s, acts).head, r) ==> r == stack
    ensures Conserved(View(After(s, acts), stack), s.next.Keys)
    ensures Exclusive(After(s, acts))
  {
    InitIsInv(s);
    stack := RunSimulates(s, acts, []);
    SameHistory(s, acts, []);
    xs := StandsRun(s, acts);
    forall r | Chain(After(s, acts).next, After(s, acts).head, r)
      ensures r == stack
    {
      ChainUnique(After(s, acts).next, After(s, acts).head, r, stack);
    }
  }

  lemma CanGoOn(e: State, stack: seq<Node>, t: Tid)
    requires Inv(e, stack) && t in e.pc && e.pc[t] != Idle
    ensures Enabled(e, if e.pc[t].Returning? then Return(t) else Step(t))
  {
    HeadIsFirst(e, stack);
    assert Locals(e, e.pc[t]);
    if e.pc[t].Returning? {
      assert View(e, stack).status.Keys == e.pc.Keys;
    } else if e.pc[t].LinkNode? {
      CarriedIsApart(e, stack, t, e.pc[t].op.node);
    }
  }

  /** No thread inside a call is ever stuck on a node that is not there: each can take its
      next step, or return. */
  lemma CallsCanGoOn(s: State, acts: seq<Action>, t: Tid)
    requires Init(s) && CanRun(s, acts) && t in After(s, acts).pc && After(s, acts).pc[t] != Idle
    ensures Enabled(After(s, acts), if After(s, acts).pc[t].Returning? then Return(t) else Step(t))
  {
    InitIsInv(s);
    var stack := RunSimulates(s, acts, []);
    CanGoOn(After(s, acts), stack, t);
  }

  /** A thread that answers refused did so because another thread was inside. */
  lemma RefusedMeansBusy(s: State, t: Tid, stack: seq<Node>)
    requires Inv(s, stack) && Enabled(s, Step(t)) && s.pc[t].Acquire?
    ensures Apply(s, Step(t)).pc[t].Returning? ==> exists u :: u in s.pc && u != t && InSection(s.pc[u])
  {
    if s.lock != AVAIL {
      var u :| u in s.pc && InSection(s.pc[u]);
      assert u != t;
    }
  }

  // ---------------------------------------------------------- whole calls

  /** t takes n instructions in a row. */
  function Turns(t: Tid, n: nat): seq<Action> {
    if n == 0 then [] else [Step(t)] + Turns(t, n - 1)
  }

  lemma First(s: State, a: Action, rest: seq<Action>)
    requires Enabled(s, a) && CanRun(Apply(s, a), rest)
    ensures CanRun(s, [a] + rest) && After(s, [a] + rest) == After(Apply(s, a), rest)
  {
    assert ([a] + rest)[1..] == rest;
  }

  lemma PushInside(s: State, t: Tid, op: Op)
    requires t in s.pc && s.pc[t] == ReadHead(op) && op.Push? && op.node in s.next
    ensures CanRun(s, Turns(t, 4))
    ensures After(s, Turns(t, 4)) ==
      s.(lock := AVAIL, head := Ptr(op.node), next := s.next[op.node := s.head], pc := s.pc[t := Returning(Pushed)])
  {
    var s1 := Apply(s, Step(t));
    var s2 := Apply(s1, Step(t));
    var s3 := Apply(s2, Step(t));
    First(s3, Step(t), Turns(t, 0));
    First(s2, Step(t), Turns(t, 1));
    First(s1, Step(t), Turns(t, 2));
    First(s, Step(t), Turns(t, 3));
  }

  /** A push that finds the lock free and runs alone is through after five instructions,
      with its node in front of the stack. */
  lemma PushAlone(s: State, t: Tid, op: Op, stack: seq<Node>)
    requires Inv(s, stack) && s.lock == AVAIL && t in s.pc && s.pc[t] == Acquire(op) && op.Push?
    ensures CanRun(s, Turns(t, 5))
    ensures After(s, Turns(t, 5)) ==
      s.(head := Ptr(op.node), next := s.next[op.node := s.head], pc := s.pc[t := Returning(Pushed)])
    ensures Chain(s.next[op.node := s.head], Ptr(op.node), [op.node] + stack)
  {
    CarriedIsApart(s, stack, t, op.node);
    var s1 := Apply(s, Step(t));
    PushInside(s1, t, op);
    assert s1.pc[t := Returning(Pushed)] == s.pc[t := Returning(Pushed)];
    First(s, Step(t), Turns(t, 4));
    ChainFrame(s.next, s.next[op.node := s.head], s.head, stack);
    assert ([op.node] + stack)[1..] == stack;
  }

  lemma PopInside(s: State, t: Tid, op: Op, top: Node)
    requires t in s.pc && s.pc[t] == LoadHead(op) && s.head == Ptr(top) && top in s.next
    ensures CanRun(s, Turns(t, 4))
    ensures After(s, Turns(t, 4)) == s.(lock := AVAIL, head := s.next[top], pc := s.pc[t := Returning(Popped(Ptr(top)))])
  {
    var s1 := Apply(s, Step(t));
    var s2 := Apply(s1, Step(t));
    var s3 := Apply(s2, Step(t));
    First(s3, Step(t), Turns(t, 0));
    First(s2, Step(t), Turns(t, 1));
    First(s1, Step(t), Turns(t, 2));
    First(s, Step(t), Turns(t, 3));
  }

  lemma PopInsideEmpty(s: State, t: Tid, op: Op)
    requires t in s.pc && s.pc[t] == LoadHead(op) && s.head == Null
    ensures CanRun(s, Turns(t, 2))
    ensures After(s, Turns(t, 2)) == s.(lock := AVAIL, pc := s.pc[t := Returning(Popped(Null))])
  {
    First(Apply(s, Step(t)), Step(t), Turns(t, 0));
    First(s, Step(t), Turns(t, 1));
  }

  /** A pop likewise takes off the first node, after five instructions, or finds nothing,
      after three. */
  lemma PopAlone(s: State, t: Tid, op: Op, stack: seq<Node>)
    requires Inv(s, stack) && s.lock == AVAIL && t in s.pc && s.pc[t] == Acquire(op) && op.Pop?
    ensures stack == [] ==> CanRun(s, Turns(t, 3)) && After(s, Turns(t, 3)) == s.(pc := s.pc[t := Returning(Popped(Null))])
    ensures stack != [] ==>
      && CanRun(s, Turns(t, 5)) && stack[0] in s.next
      && After(s, Turns(t, 5)) == s.(head := s.next[stack[0]], pc := s.pc[t := Returning(Popped(Ptr(stack[0])))])
      && Chain(s.next, s.next[stack[0]], stack[1..])
  {
    HeadIsFirst(s, stack);
    var s1 := Apply(s, Step(t));
    if stack == [] {
      PopInsideEmpty(s1, t, op);
      assert s1.pc[t := Returning(Popped(Null))] == s.pc[t := Returning(Popped(Null))];
      First(s, Step(t), Turns(t, 2));
    } else {
      var res := Popped(Ptr(stack[0]));
      PopInside(s1, t, op, stack[0]);
      assert s1.pc[t := Returning(res)] == s.pc[t := Returning(res)];
      First(s, Step(t), Turns(t, 4));
    }
  }

  /** A call, n instructions, and the return. */
  function CallOf(t: Tid, op: Op, n: nat): seq<Action> {
    [Call(t, op)] + Turns(t, n) + [Return(t)]
  }

  lemma CallRuns(s: State, t: Tid, op: Op, n: nat)
    requires Enabled(s, Call(t, op)) && CanRun(Apply(s, Call(t, op)), Turns(t, n))
    requires Enabled(After(Apply(s, Call(t, op)), Turns(t, n)), Return(t))
    ensures CanRun(s, CallOf(t, op, n))
    ensures After(s, CallOf(t, op, n)) == Apply(After(Apply(s, Call(t, op)), Turns(t, n)), Return(t))
  {
    var s1 := Apply(s, Call(t, op));
    First(After(s1, Turns(t, n)), Return(t), []);
    Join(s1, Turns(t, n), [Return(t)]);
    First(s, Call(t, op), Turns(t, n) + [Return(t)]);
    assert [Call(t, op)] + (Turns(t, n) + [Return(t)]) == CallOf(t, op, n);
  }

  lemma ReturnFrom(s: State, t: Tid, op: Op, s2: State, res: Result)
    requires Enabled(s, Call(t, op)) && s2.owned == Apply(s, Call(t, op)).owned
    requires s2.pc == Apply(s, Call(t, op)).pc[t := Returning(res)]
    ensures Enabled(s2, Return(t))
    ensures Apply(s2, Return(t)) == s2.(pc := s.pc, owned := s.owned[t := s.owned[t] - Taken(op) + Given(res)])
  {
    assert s.pc[t := Acquire(op)][t := Returning(res)][t := Idle] == s.pc;
    var rest := s.owned[t] - Taken(op);
    assert s.owned[t := rest][t := rest + Given(res)] == s.owned[t := rest + Given(res)];
  }

  lemma CallKeepsInv(s: State, t: Tid, op: Op, stack: seq<Node>)
    requires Inv(s, stack) && Enabled(s, Call(t, op))
    ensures Inv(Apply(s, Call(t, op)), stack)
  {
    var stack1 := StepSimulates(s, Call(t, op), stack);
    ChainUnique(s.next, s.head, stack, stack1);
  }

  /** A whole push, from call to return: the node goes from its owner to the stack. */
  lemma WholePush(s: State, t: Tid, n: Node, once: bool, stack: seq<Node>)
    requires Inv(s, stack) && s.lock == AVAIL && t in s.pc && s.pc[t] == Idle && t in s.owned && n in s.owned[t]
    ensures var acts := CallOf(t, Push(n, once), 5);
      && CanRun(s, acts)
      && After(s, acts) == s.(head := Ptr(n), next := s.next[n := s.head], owned := s.owned[t := s.owned[t] - {n}])
    ensures Chain(s.next[n := s.head], Ptr(n), [n] + stack)
  {
    var op := Push(n, once);
    CallKeepsInv(s, t, op, stack);
    var s1 := Apply(s, Call(t, op));
    PushAlone(s1, t, op, stack);
    var s2 := After(s1, Turns(t, 5));
    ReturnFrom(s, t, op, s2, Pushed);
    CallRuns(s, t, op, 5);
    assert s.owned[t] - {n} + {} == s.owned[t] - {n};
  }

  /** A whole pop of a stack that is not empty: the first node goes to its new owner. */
  lemma WholePop(s: State, t: Tid, once: bool, stack: seq<Node>)
    requires Inv(s, stack) && s.lock == AVAIL && t in s.pc && s.pc[t] == Idle && t in s.owned && stack != []
    ensures var acts := CallOf(t, Pop(once), 5);
      && CanRun(s, acts) && stack[0] in s.next
      && After(s, acts) == s.(head := s.next[stack[0]], owned := s.owned[t := s.owned[t] + {stack[0]}])
    ensures Chain(s.next, s.next[stack[0]], stack[1..])
  {
    var op := Pop(once);
    CallKeepsInv(s, t, op, stack);
    var s1 := Apply(s, Call(t, op));
    PopAlone(s1, t, op, stack);
    var s2 := After(s1, Turns(t, 5));
    ReturnFrom(s, t, op, s2, Popped(Ptr(stack[0])));
    CallRuns(s, t, op, 5);
    assert s.owned[t] - {} == s.owned[t];
  }

  /** Behind a taken lock a try-call is refused at once and changes nothing else; the other
      calls try again. */
  lemma BusyLock(s: State, t: Tid, op: Op)
    requires s.lock != AVAIL && t in s.pc && s.pc[t] == Acquire(op)
    ensures CanRun(s, Turns(t, 1))
    ensures After(s, Turns(t, 1)) == if op.once then s.(pc := s.pc[t := Returning(Refused(op))]) else s
  {
    First(s, Step(t), Turns(t, 0));
  }

  lemma SectionMoves(s: State, t: Tid)
    requires Enabled(s, Step(t)) && InSection(s.pc[t]) && s.lock == INUSE
    ensures var s' := Apply(s, Step(t));
      && SamePcs(s, s', t) && ToRelease(s'.pc[t]) < ToRelease(s.pc[t])
      && (InSection(s'.pc[t]) || (s'.pc[t].Returning? && s'.lock == AVAIL))
  {
    StepShape(s, Step(t));
  }

  lemma SectionStep(s: State, t: Tid, stack: seq<Node>) returns (stack': seq<Node>)
    requires Inv(s, stack) && t in s.pc && InSection(s.pc[t])
    ensures s.lock == INUSE && Enabled(s, Step(t)) && Inv(Apply(s, Step(t)), stack')
  {
    CanGoOn(s, stack, t);
    stack' := StepSimulates(s, Step(t), stack);
  }

  /** All threads but t stand where they stood. */
  ghost predicate SamePcs(s: State, s': State, t: Tid) {
    t in s'.pc && forall u :: u in s.pc && u != t ==> u in s'.pc && s'.pc[u] == s.pc[u]
  }

  lemma {:induction false} SectionRuns(s: State, t: Tid, stack: seq<Node>) returns (n: nat)
    requires Inv(s, stack) && t in s.pc && InSection(s.pc[t])
    ensures n <= ToRelease(s.pc[t]) && CanRun(s, Turns(t, n))
    ensures var e := After(s, Turns(t, n));
      e.lock == AVAIL && t in e.pc && e.pc[t].Returning?
    decreases ToRelease(s.pc[t])
  {
    var stack' := SectionStep(s, t, stack);
    SectionMoves(s, t);
    var s', rest: nat := Apply(s, Step(t)), 0;
    if InSection(s'.pc[t]) {
      rest := SectionRuns(s', t, stack');
    }
    n := rest + 1;
    First(s, Step(t), Turns(t, rest));
  }

  lemma {:induction false} TurnsKeepOthers(s: State, t: Tid, n: nat)
    requires CanRun(s, Turns(t, n)) && t in s.pc
    ensures SamePcs(s, After(s, Turns(t, n)), t)
    decreases n
  {
    if n > 0 {
      assert Turns(t, n)[1..] == Turns(t, n - 1);
      InstructionFrame(s, t);
      TurnsKeepOthers(Apply(s, Step(t)), t, n - 1);
    }
  }

  /** A thread inside the section that runs alone gives the lock up within four
      instructions. */
  lemma SectionEnds(s: State, t: Tid, stack: seq<Node>) returns (n: nat, stack': seq<Node>)
    requires Inv(s, stack) && t in s.pc && InSection(s.pc[t])
    ensures n <= 4 && CanRun(s, Turns(t, n)) && Inv(After(s, Turns(t, n)), stack')
    ensures var e := After(s, Turns(t, n));
      e.lock == AVAIL && SamePcs(s, e, t) && e.pc[t].Returning?
  {
    n := SectionRuns(s, t, stack);
    stack' := RunSimulates(s, Turns(t, n), stack);
    TurnsKeepOthers(s, t, n);
  }

  function ToRelease(p: Pc): nat {
    match p
    case ReadHead(_) => 4
    case LinkNode(_, _) => 3
    case SetHead(_) => 2
    case LoadHead(_) => 4
    case LoadNext(_, _) => 3
    case StoreHead(_, _, _) => 2
    case Release(_) => 1
    case _ => 0
  }

  /** The call whose answer is res has done op. */
  predicate Answers(op: Op, res: Result) {
    if op.Push? then res == Pushed else res.Popped?
  }

  /** From every reachable state every waiting call, blocking or not, can still be served: the
      thread inside, if any, leaves within four instructions, and the call is then through
      within five. */
  lemma CallCompletes(s0: State, run: seq<Action>, t: Tid, op: Op) returns (acts: seq<Action>)
    requires Init(s0) && CanRun(s0, run) && t in After(s0, run).pc && After(s0, run).pc[t] == Acquire(op)
    ensures |acts| <= 9 && OnlySteps(acts)
    ensures CanRun(After(s0, run), acts) && t in After(After(s0, run), acts).pc
    ensures After(After(s0, run), acts).pc[t].Returning? && Answers(op, After(After(s0, run), acts).pc[t].res)
  {
    InitIsInv(s0);
    var stack := RunSimulates(s0, run, []);
    acts := FreeThenServe(After(s0, run), t, op, stack);
  }

  lemma ServeFree(s: State, t: Tid, op: Op, stack: seq<Node>) returns (n: nat)
    requires Inv(s, stack) && s.lock == AVAIL && t in s.pc && s.pc[t] == Acquire(op)
    ensures n <= 5 && CanRun(s, Turns(t, n)) && t in After(s, Turns(t, n)).pc
    ensures After(s, Turns(t, n)).pc[t].Returning? && Answers(op, After(s, Turns(t, n)).pc[t].res)
  {
    if op.Push? {
      PushAlone(s, t, op, stack);
      n := 5;
    } else {
      PopAlone(s, t, op, stack);
      n := if stack == [] then 3 else 5;
    }
  }

  lemma FreeThenServe(s: State, t: Tid, op: Op, stack: seq<Node>) returns (acts: seq<Action>)
    requires Inv(s, stack) && t in s.pc && s.pc[t] == Acquire(op)
    ensures |acts| <= 9 && OnlySteps(acts)
    ensures CanRun(s, acts) && t in After(s, acts).pc
    ensures After(s, acts).pc[t].Returning? && Answers(op, After(s, acts).pc[t].res)
  {
    if s.lock == AVAIL {
      var n := ServeFree(s, t, op, stack);
      acts := Turns(t, n);
      StepsAre(t, n);
    } else {
      var u :| u in s.pc && InSection(s.pc[u]);
      acts := AfterHolder(s, t, op, u, stack);
    }
  }

  lemma AfterHolder(s: State, t: Tid, op: Op, u: Tid, stack: seq<Node>) returns (acts: seq<Action>)
    requires Inv(s, stack) && t in s.pc && s.pc[t] == Acquire(op) && u in s.pc && InSection(s.pc[u])
    ensures |acts| <= 9 && OnlySteps(acts)
    ensures CanRun(s, acts) && t in After(s, acts).pc
    ensures After(s, acts).pc[t].Returning? && Answers(op, After(s, acts).pc[t].res)
  {
    var m, stack' := SectionEnds(s, u, stack);
    var s1 := After(s, Turns(u, m));
    assert s1.pc[t] == Acquire(op);
    var n := ServeFree(s1, t, op, stack');
    acts := Turns(u, m) + Turns(t, n);
    BothStep(u, m, t, n);
    Join(s, Turns(u, m), Turns(t, n));
  }

  /** Nobody calls, returns or hands nodes over. */
  predicate OnlySteps(acts: seq<Action>) {
    forall i :: 0 <= i < |acts| ==> acts[i].Step?
  }

  lemma BothStep(u: Tid, m: nat, t: Tid, n: nat)
    ensures OnlySteps(Turns(u, m) + Turns(t, n)) && |Turns(u, m) + Turns(t, n)| == m + n
  {
    StepsAre(u, m);
    StepsAre(t, n);
  }

  lemma {:induction false} StepsAre(t: Tid, n: nat)
    ensures |Turns(t, n)| == n && forall i :: 0 <= i < n ==> Turns(t, n)[i] == Step(t)
  {
    if n > 0 {
      StepsAre(t, n - 1);
    }
  }

  lemma {:induction false} Join(s: State, acts: seq<Action>, more: seq<Action>)
    requires CanRun(s, acts) && CanRun(After(s, acts), more)
    ensures CanRun(s, acts + more) && After(s, acts + more) == After(After(s, acts), more)
    decreases |acts|
  {
    if acts == [] {
      assert acts + more == more;
    } else {
      Join(Apply(s, acts[0]), acts[1..], more);
      First(s, acts[0], acts[1..] + more);
      assert acts + more == [acts[0]] + (acts[1..] + more);
    }
  }
}
