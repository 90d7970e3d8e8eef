/** The locked session list of mtpostmt.c: any number of threads, one step for each
    access to the lock, to the list head or to an entry's next. */
module SessionRegistry {
  import opened LinkedHeap
  import opened Sequences

  type Tid = nat
  type Session = nat

  /** What a thread wants the lock for. */
  datatype Task =
    | Add(s: Session, e: Node)    // process_req: put a new entry in front
    | Find(s: Session)            // read_req_body: session_listFind
    | Count(s: Session, e: Node)  // read or raise the count of an entry
    | Free(s: Session, e: Node)   // session_listFree

  datatype Pc =
    | Idle
    | TestSet(task: Task)                   // the test-and-set of the lock
    | SpinRead(task: Task)                  // reads the lock until it looks free
    | AddRead(s: Session, e: Node)          // reads the head ...
    | AddLink(s: Session, e: Node, h: Link) // ... writes it to the entry's next ...
    | AddHead(s: Session, e: Node)          // ... and makes the entry the head
    | FindFirst(s: Session)                 // reads the head
    | FindTest(s: Session, cur: Link)       // compares the entry's session, or moves on
    | CountEntry(s: Session, e: Node)       // accesses the entry's count
    | FreeTest(s: Session, e: Node)         // compares the head
    | FreeScan(s: Session, e: Node, at: Node)             // compares the next of at
    | FreeRead(s: Session, e: Node, last: Link)           // found, behind last or as the head
    | FreeWrite(s: Session, e: Node, last: Link, n: Link) // links around it
    | FreeMem(s: Session, e: Node)          // gives the memory back
    | Unlock(s: Session, got: Link)
    | Working(s: Session, e: Node)          // outside the lock, using the session's entry
    | NotFound(s: Session)                  // the error branches of session_listFree, which unlock

  /** next and sess have the entries that are allocated. */
  datatype State = State(lock: int, head: Link, next: Heap, sess: map<Node, Session>, pc: map<Tid, Pc>)

  datatype Action =
    | StartAdd(t: Tid, s: Session, e: Node)   // malloc gives any entry that is not in use
    | StartFind(t: Tid, s: Session)
    | StartCount(t: Tid)                      // bytes have come in, or all may have
    | StartFree(t: Tid)                       // the session is done with
    | Leave(t: Tid)                           // the callback returns, the entry stays
    | Step(t: Tid)

  /** The session whose callback a thread is running. */
  function Serving(p: Pc): set<Session> {
    match p
    case Idle => {}
    case NotFound(s) => {s}
    case TestSet(task) => {task.s}
    case SpinRead(task) => {task.s}
    case AddRead(s, _) => {s}
    case AddLink(s, _, _) => {s}
    case AddHead(s, _) => {s}
    case FindFirst(s) => {s}
    case FindTest(s, _) => {s}
    case CountEntry(s, _) => {s}
    case FreeTest(s, _) => {s}
    case FreeScan(s, _, _) => {s}
    case FreeRead(s, _, _) => {s}
    case FreeWrite(s, _, _, _) => {s}
    case FreeMem(s, _) => {s}
    case Unlock(s, _) => {s}
    case Working(s, _) => {s}
  }

  /** The server runs the callbacks of one session one at a time. */
  predicate Unserved(c: State, s: Session) {
    forall t :: t in c.pc ==> s !in Serving(c.pc[t])
  }

  /** The memory a step follows is allocated. */
  predicate Allocated(c: State, p: Pc) {
    match p
    case AddLink(_, e, _) => e in c.next
    case FindTest(_, cur) => cur == Null || (cur.node in c.next && cur.node in c.sess)
    case CountEntry(_, e) => e in c.next
    case FreeScan(_, _, at) => at in c.next
    case FreeRead(_, e, _) => e in c.next
    case FreeWrite(_, _, last, _) => last == Null || last.node in c.next
    case _ => true
  }

  predicate Enabled(c: State, a: Action) {
    match a
    case StartAdd(t, s, e) => t in c.pc && c.pc[t] == Idle && Unserved(c, s) && e !in c.next && e !in c.sess
    case StartFind(t, s) => t in c.pc && c.pc[t] == Idle && Unserved(c, s)
    case StartCount(t) => t in c.pc && c.pc[t].Working?
    case StartFree(t) => t in c.pc && c.pc[t].Working?
    case Leave(t) => t in c.pc && c.pc[t].Working?
    case Step(t) => t in c.pc && !c.pc[t].Idle? && !c.pc[t].Working? && Allocated(c, c.pc[t])
  }

  function Enter(task: Task): Pc {
    match task
    case Add(s, e) => AddRead(s, e)
    case Find(s) => FindFirst(s)
    case Count(s, e) => CountEntry(s, e)
    case Free(s, e) => FreeTest(s, e)
  }

  function Instruction(c: State, t: Tid): State
    requires Enabled(c, Step(t))
  {
    match c.pc[t]
    case TestSet(task) => c.(lock := 1, pc := c.pc[t := if c.lock == 0 then Enter(task) else SpinRead(task)])
    case SpinRead(task) => c.(pc := c.pc[t := if c.lock == 0 then TestSet(task) else SpinRead(task)])
    case AddRead(s, e) => c.(pc := c.pc[t := AddLink(s, e, c.head)])
    case AddLink(s, e, h) => c.(next := c.next[e := h], pc := c.pc[t := AddHead(s, e)])
    case AddHead(s, e) => c.(head := Ptr(e), pc := c.pc[t := Unlock(s, Ptr(e))])
    case FindFirst(s) => c.(pc := c.pc[t := FindTest(s, c.head)])
    case FindTest(s, cur) =>
      c.(pc := c.pc[t :=
        if cur == Null || c.sess[cur.node] == s then Unlock(s, cur) else FindTest(s, c.next[cur.node])])
    case CountEntry(s, e) => c.(pc := c.pc[t := Unlock(s, Ptr(e))])
    case FreeTest(s, e) =>
      c.(pc := c.pc[t :=
        if c.head == Null then NotFound(s) else if c.head == Ptr(e) then FreeRead(s, e, Null) else FreeScan(s, e, c.head.node)])
    case FreeScan(s, e, at) =>
      c.(pc := c.pc[t :=
        if c.next[at] == Null then NotFound(s)
        else if c.next[at] == Ptr(e) then FreeRead(s, e, Ptr(at))
        else FreeScan(s, e, c.next[at].node)])
    case FreeRead(s, e, last) => c.(pc := c.pc[t := FreeWrite(s, e, last, c.next[e])])
    case FreeWrite(s, e, last, n) =>
      if last == Null then c.(head := n, pc := c.pc[t := FreeMem(s, e)])
      else c.(next := c.next[last.node := n], pc := c.pc[t := FreeMem(s, e)])
    case FreeMem(s, e) => c.(next := c.next - {e}, sess := c.sess - {e}, pc := c.pc[t := Unlock(s, Null)])
    case NotFound(s) => c.(lock := 0, pc := c.pc[t := Idle])
    case Unlock(s, got) => c.(lock := 0, pc := c.pc[t := if got == Null then Idle else Working(s, got.node)])
  }

  function Apply(c: State, a: Action): State
    requires Enabled(c, a)
  {
    match a
    case StartAdd(t, s, e) => c.(next := c.next[e := Null], sess := c.sess[e := s], pc := c.pc[t := TestSet(Add(s, e))])
    case StartFind(t, s) => c.(pc := c.pc[t := TestSet(Find(s))])
    case StartCount(t) => c.(pc := c.pc[t := TestSet(Count(c.pc[t].s, c.pc[t].e))])
    case StartFree(t) => c.(pc := c.pc[t := TestSet(Free(c.pc[t].s, c.pc[t].e))])
    case Leave(t) => c.(pc := c.pc[t := Idle])
    case Step(t) => Instruction(c, t)
  }

  ghost predicate CanRun(c: State, acts: seq<Action>)
    decreases |acts|
  {
    acts == [] || (Enabled(c, acts[0]) && CanRun(Apply(c, acts[0]), acts[1..]))
  }

  ghost function After(c: State, acts: seq<Action>): State
    requires CanRun(c, acts)
    decreases |acts|
  {
    if acts == [] then c else After(Apply(c, acts[0]), acts[1..])
  }

  // ------------------------------------------------------------ the registry

  /** The registry as callers see it: the entries registered and not freed, newest first.
      A registration counts where the head is written, a removal where the link goes
      around the entry. */
  function Remove(list: seq<Node>, e: Node): seq<Node> {
    if list == [] then [] else if list[0] == e then list[1..] else [list[0]] + Remove(list[1..], e)
  }

  function Registry(c: State, a: Action, list: seq<Node>): seq<Node>
    requires Enabled(c, a)
  {
    if a.Step? && c.pc[a.t].AddHead? then [c.pc[a.t].e] + list
    else if a.Step? && c.pc[a.t].FreeWrite? then Remove(list, c.pc[a.t].e)
    else list
  }

  ghost function RegistryAfter(c: State, acts: seq<Action>, list: seq<Node>): seq<Node>
    requires CanRun(c, acts)
    decreases |acts|
  {
    if acts == [] then list
    else RegistryAfter(Apply(c, acts[0]), acts[1..], Registry(c, acts[0], list))
  }

  /** The newest entry of a session, if there is one. */
  function Lookup(list: seq<Node>, sess: map<Node, Session>, s: Session): (r: Link)
    ensures r == Null <==> forall e :: e in list && e in sess ==> sess[e] != s
    ensures r != Null ==> r.node in list && r.node in sess && sess[r.node] == s
  {
    if list == [] then Null
    else if list[0] in sess && sess[list[0]] == s then Ptr(list[0])
    else Lookup(list[1..], sess, s)
  }

  lemma {:induction false} RemoveIsWithout(list: seq<Node>, k: nat)
    requires Distinct(list) && k < |list|
    ensures Remove(list, list[k]) == Without(list, k)
    decreases k
  {
    if k == 0 {
      assert Without(list, 0) == list[1..];
    } else {
      assert list[1..][k - 1] == list[k] && list[0] != list[k];
      RemoveIsWithout(list[1..], k - 1);
      assert Without(list, k) == [list[0]] + Without(list[1..], k - 1);
    }
  }

  // -------------------------------------------------------------- invariants

  predicate InSection(p: Pc) {
    !p.Idle? && !p.TestSet? && !p.SpinRead? && !p.Working?
  }

  ghost predicate Exclusive(c: State) {
    && (forall t, u :: t in c.pc && u in c.pc && InSection(c.pc[t]) && InSection(c.pc[u]) ==> t == u)
    && (forall t :: t in c.pc && InSection(c.pc[t]) ==> c.lock == 1)
    && (c.lock != 0 ==> exists t :: t in c.pc && InSection(c.pc[t]))
    && (c.lock == 0 || c.lock == 1)
    && (forall t, u, s :: t in c.pc && u in c.pc && s in Serving(c.pc[t]) && s in Serving(c.pc[u]) ==> t == u)
  }

  /** e is session s's entry and stands in the list. */
  predicate Listed(c: State, list: seq<Node>, s: Session, e: Node) {
    e in c.sess && c.sess[e] == s && e in list
  }

  /** e is session s's entry and does not stand in the list. */
  predicate Apart(c: State, list: seq<Node>, s: Session, e: Node) {
    e in c.next && e in c.sess && c.sess[e] == s && e !in list
  }

  ghost predicate Locals(c: State, list: seq<Node>, p: Pc) {
    match p
    case Idle => true
    case NotFound(_) => false
    case TestSet(task) => TaskOk(c, list, task)
    case SpinRead(task) => TaskOk(c, list, task)
    case AddRead(s, e) => Apart(c, list, s, e)
    case AddLink(s, e, h) => Apart(c, list, s, e) && h == c.head
    case AddHead(s, e) => Apart(c, list, s, e) && c.next[e] == c.head
    case FindFirst(_) => true
    case FindTest(s, cur) => exists k: nat :: Passed(c, list, s, cur, k)
    case CountEntry(s, e) => Listed(c, list, s, e)
    case FreeTest(s, e) => Listed(c, list, s, e)
    case FreeScan(s, e, at) => Listed(c, list, s, e) && exists k: nat :: Before(list, at, e, k)
    case FreeRead(s, e, last) => Listed(c, list, s, e) && exists k: nat :: JustBehind(list, last, e, k)
    case FreeWrite(s, e, last, n) =>
      Listed(c, list, s, e) && (exists k: nat :: JustBehind(list, last, e, k)) && e in c.next && n == c.next[e]
    case FreeMem(s, e) => Apart(c, list, s, e)
    case Unlock(s, got) => got == Null || Listed(c, list, s, got.node)
    case Working(s, e) => Listed(c, list, s, e)
  }

  predicate TaskOk(c: State, list: seq<Node>, task: Task) {
    match task
    case Add(s, e) => Apart(c, list, s, e)
    case Find(_) => true
    case Count(s, e) => Listed(c, list, s, e)
    case Free(s, e) => Listed(c, list, s, e)
  }

  /** The search stands at position k and has passed no entry of s. */
  predicate Passed(c: State, list: seq<Node>, s: Session, cur: Link, k: nat) {
    && k <= |list| && cur == LinkAt(list, k)
    && forall i :: 0 <= i < k ==> list[i] in c.sess && c.sess[list[i]] != s
  }

  /** at stands at position k, and e somewhere behind it. */
  predicate Before(list: seq<Node>, at: Node, e: Node, k: nat) {
    k < |list| && list[k] == at && e in list[k + 1..]
  }

  /** e is at position k, and last is what points to it. */
  predicate JustBehind(list: seq<Node>, last: Link, e: Node, k: nat) {
    k < |list| && list[k] == e && last == if k == 0 then Null else Ptr(list[k - 1])
  }

  ghost predicate Inv(c: State, list: seq<Node>) {
    && Exclusive(c)
    && c.next.Keys == c.sess.Keys
    && Chain(c.next, c.head, list) && Distinct(list)
    && LocalsOk(c, list)
    && OthersHeld(c, list)
  }

  ghost predicate LocalsOk(c: State, list: seq<Node>) {
    forall t :: t in c.pc ==> Locals(c, list, c.pc[t])
  }

  /** Every entry outside the list is in the hands of a thread. */
  ghost predicate OthersHeld(c: State, list: seq<Node>) {
    forall e :: e in c.next && e !in list ==> exists t :: t in c.pc && Holds(c.pc[t], e)
  }

  /** The thread is about to list e, or about to give its memory back. */
  predicate Holds(p: Pc, e: Node) {
    match p
    case TestSet(task) => task.Add? && task.e == e
    case SpinRead(task) => task.Add? && task.e == e
    case AddRead(_, x) => x == e
    case AddLink(_, x, _) => x == e
    case AddHead(_, x) => x == e
    case FreeMem(_, x) => x == e
    case _ => false
  }

  /** What one instruction does to the lock and to its thread's place in the code. */
  lemma InstructionShape(c: State, t: Tid)
    requires Enabled(c, Step(t)) && (c.lock == 0 || c.lock == 1) && (InSection(c.pc[t]) ==> c.lock == 1)
    ensures var c' := Instruction(c, t);
      && c'.pc == c.pc[t := c'.pc[t]]
      && Serving(c'.pc[t]) <= Serving(c.pc[t])
      && (c'.lock == 0 || c'.lock == 1)
      && (InSection(c'.pc[t]) ==> c'.lock == 1 && (InSection(c.pc[t]) || c.lock == 0))
      && (!InSection(c'.pc[t]) ==> c'.lock == if InSection(c.pc[t]) then 0 else c.lock)
  {
  }

  /** A lock taken only when free and given up only by its holder stays exclusive. */
  lemma ShapeKeepsExclusive(c: State, c': State, t: Tid)
    requires Exclusive(c) && t in c.pc && t in c'.pc && c'.pc == c.pc[t := c'.pc[t]]
    requires c'.lock == 0 || c'.lock == 1
    requires InSection(c'.pc[t]) ==> c'.lock == 1 && (InSection(c.pc[t]) || c.lock == 0)
    requires !InSection(c'.pc[t]) ==> c'.lock == if InSection(c.pc[t]) then 0 else c.lock
    requires forall s :: s in Serving(c'.pc[t]) ==> s in Serving(c.pc[t]) || Unserved(c, s)
    ensures Exclusive(c')
  {
    if c'.lock != 0 && !InSection(c'.pc[t]) {
      var u :| u in c.pc && InSection(c.pc[u]);
      assert u in c'.pc && InSection(c'.pc[u]);
    }
  }

  lemma StepKeepsExclusive(c: State, a: Action, list: seq<Node>)
    requires Inv(c, list) && Enabled(c, a)
    ensures Exclusive(Apply(c, a))
  {
    if a.Step? {
      InstructionShape(c, a.t);
    }
    ShapeKeepsExclusive(c, Apply(c, a), a.t);
  }

  lemma UnlinkKeepsChain(c: State, t: Tid, list: seq<Node>)
    requires Chain(c.next, c.head, list) && Distinct(list) && t in c.pc && c.pc[t].FreeWrite?
    requires Enabled(c, Step(t)) && Locals(c, list, c.pc[t])
    ensures var list' := Remove(list, c.pc[t].e);
      Chain(Instruction(c, t).next, Instruction(c, t).head, list') && Distinct(list')
    ensures Instruction(c, t).next.Keys == c.next.Keys
  {
    var k: nat :| JustBehind(list, c.pc[t].last, c.pc[t].e, k);
    RemoveIsWithout(list, k);
    WithoutMembers(list, k);
    if k > 0 {
      ChainAt(c.next, c.head, list, k - 1);
    }
    ChainUnlink(c.next, c.head, list, k);
  }

  lemma StepKeepsChain(c: State, a: Action, list: seq<Node>)
    requires Inv(c, list) && Enabled(c, a)
    ensures var c', list' := Apply(c, a), Registry(c, a, list);
      Chain(c'.next, c'.head, list') && Distinct(list') && c'.next.Keys == c'.sess.Keys
  {
    var c', list' := Apply(c, a), Registry(c, a, list);
    ChainAllocated(c.next, c.head, list);
    if a.StartAdd? {
      ChainFrame(c.next, c'.next, c.head, list);
    } else if a.Step? {
      assert Locals(c, list, c.pc[a.t]);
      match c.pc[a.t] {
        case AddLink(_, e, _) =>
          ChainFrame(c.next, c'.next, c.head, list);
        case AddHead(_, e) =>
          assert list'[1..] == list;
        case FreeWrite(s, e, last, n) =>
          UnlinkKeepsChain(c, a.t, list);
        case FreeMem(_, e) =>
          ChainFrame(c.next, c'.next, c.head, list);
        case _ =>
      }
    }
  }

  /** The registry gains or loses only the entry of the thread that takes the step. */
  lemma RegistryMembers(c: State, a: Action, list: seq<Node>)
    requires Inv(c, list) && Enabled(c, a)
    ensures var list' := Registry(c, a, list);
      forall e :: (e in list' <==> e in list) || (a.Step? && (c.pc[a.t].AddHead? || c.pc[a.t].FreeWrite?) && e == c.pc[a.t].e)
    ensures a.Step? && c.pc[a.t].AddHead? ==> c.pc[a.t].e in Registry(c, a, list)
    ensures a.Step? && c.pc[a.t].FreeWrite? ==> c.pc[a.t].e !in Registry(c, a, list)
  {
    if a.Step? && c.pc[a.t].FreeWrite? {
      assert Locals(c, list, c.pc[a.t]);
      var k: nat :| JustBehind(list, c.pc[a.t].last, c.pc[a.t].e, k);
      RemoveIsWithout(list, k);
      WithoutMembers(list, k);
    }
  }

  /** What a thread knows outlives any change that keeps the list and adds memory. */
  lemma FrameLocals(c: State, c': State, list: seq<Node>, p: Pc)
    requires Locals(c, list, p) && c'.head == c.head
    requires forall e :: e in c.next ==> e in c'.next && c'.next[e] == c.next[e]
    requires forall e :: e in c.sess ==> e in c'.sess && c'.sess[e] == c.sess[e]
    ensures Locals(c', list, p)
  {
    if p.FindTest? {
      var k: nat :| Passed(c, list, p.s, p.cur, k);
      assert Passed(c', list, p.s, p.cur, k);
    }
  }

  /** A step taken from outside the section leaves the list and its memory alone. */
  lemma OutsideFrame(c: State, a: Action)
    requires Enabled(c, a) && (a.Step? ==> !InSection(c.pc[a.t]))
    ensures forall list :: Registry(c, a, list) == list
    ensures Apply(c, a).head == c.head
    ensures forall e :: e in c.next && e in c.sess ==> e in Apply(c, a).next && Apply(c, a).next[e] == c.next[e]
    ensures forall e :: e in c.next && e in c.sess ==> e in Apply(c, a).sess && Apply(c, a).sess[e] == c.sess[e]
  {
  }

  /** A step taken while u is inside the section touches nothing that u looks at. */
  lemma InsideKeepsLocals(c: State, a: Action, list: seq<Node>, u: Tid)
    requires Inv(c, list) && Enabled(c, a) && u in c.pc && u != a.t && InSection(c.pc[u])
    ensures Locals(Apply(c, a), Registry(c, a, list), c.pc[u])
  {
    assert a.Step? ==> !InSection(c.pc[a.t]);
    OutsideFrame(c, a);
    assert Locals(c, list, c.pc[u]);
    FrameLocals(c, Apply(c, a), list, c.pc[u]);
  }

  /** A step for one session leaves the entries of the others where they are. */
  lemma StepKeepsEntry(c: State, a: Action, list: seq<Node>, e: Node)
    requires Inv(c, list) && Enabled(c, a) && e in c.sess
    requires a.Step? ==> c.sess[e] !in Serving(c.pc[a.t])
    ensures e in Apply(c, a).next && e in Apply(c, a).sess && Apply(c, a).sess[e] == c.sess[e]
    ensures e in Registry(c, a, list) <==> e in list
  {
    RegistryMembers(c, a, list);
    assert Locals(c, list, c.pc[a.t]);
  }

  /** A thread outside the section only relies on its own session's entry. */
  lemma OutsideKeepsLocals(c: State, a: Action, list: seq<Node>, u: Tid)
    requires Inv(c, list) && Enabled(c, a) && u in c.pc && u != a.t && !InSection(c.pc[u])
    ensures Locals(Apply(c, a), Registry(c, a, list), c.pc[u])
  {
    assert Locals(c, list, c.pc[u]);
    var p := c.pc[u];
    forall s | s in Serving(p) && s in Serving(c.pc[a.t])
      ensures false
    {
    }
    if p.Working? {
      StepKeepsEntry(c, a, list, p.e);
    } else if !p.Idle? && !p.task.Find? {
      StepKeepsEntry(c, a, list, p.task.e);
    }
  }

  lemma OthersKeepLocals(c: State, a: Action, list: seq<Node>, u: Tid)
    requires Inv(c, list) && Enabled(c, a) && u in c.pc && u != a.t
    ensures Locals(Apply(c, a), Registry(c, a, list), c.pc[u])
  {
    if InSection(c.pc[u]) {
      InsideKeepsLocals(c, a, list, u);
    } else {
      OutsideKeepsLocals(c, a, list, u);
    }
  }

  /** The search of a session moves along the list. */
  lemma FindMoves(c: State, list: seq<Node>, s: Session, cur: Link)
    requires Chain(c.next, c.head, list) && Locals(c, list, FindTest(s, cur)) && Allocated(c, FindTest(s, cur))
    ensures cur == Null || c.sess[cur.node] == s ==> Locals(c, list, Unlock(s, cur))
    ensures cur != Null && c.sess[cur.node] != s ==> Locals(c, list, FindTest(s, c.next[cur.node]))
  {
    var k: nat :| Passed(c, list, s, cur, k);
    if k < |list| {
      ChainAt(c.next, c.head, list, k);
      if c.sess[cur.node] != s {
        assert Passed(c, list, s, c.next[cur.node], k + 1);
      }
    }
  }

  lemma FindStarts(c: State, list: seq<Node>, s: Session)
    requires Chain(c.next, c.head, list)
    ensures Locals(c, list, FindTest(s, c.head))
  {
    assert Passed(c, list, s, c.head, 0);
  }

  /** The search of an entry starts at the head, and finds the list not empty ... */
  lemma FreeStarts(c: State, list: seq<Node>, s: Session, e: Node)
    requires Chain(c.next, c.head, list) && Listed(c, list, s, e)
    ensures c.head != Null
    ensures c.head == Ptr(e) ==> Locals(c, list, FreeRead(s, e, Null))
    ensures c.head != Ptr(e) ==> Locals(c, list, FreeScan(s, e, c.head.node))
  {
    if c.head == Ptr(e) {
      assert JustBehind(list, Null, e, 0);
    } else {
      assert list == [list[0]] + list[1..];
      assert Before(list, list[0], e, 0);
    }
  }

  /** ... and goes on until it stands in front of the entry, which it cannot miss. */
  lemma FreeMoves(c: State, list: seq<Node>, s: Session, e: Node, at: Node)
    requires Chain(c.next, c.head, list) && Locals(c, list, FreeScan(s, e, at)) && at in c.next
    ensures c.next[at] != Null
    ensures c.next[at] == Ptr(e) ==> Locals(c, list, FreeRead(s, e, Ptr(at)))
    ensures c.next[at] != Ptr(e) ==> Locals(c, list, FreeScan(s, e, c.next[at].node))
  {
    var k: nat :| Before(list, at, e, k);
    ChainAt(c.next, c.head, list, k);
    assert list[k + 1..] != [];
    FirstAndRest(list, k + 1);
    if list[k + 1] == e {
      assert JustBehind(list, Ptr(at), e, k + 1);
    } else {
      assert Before(list, list[k + 1], e, k + 1);
    }
  }

  lemma SearchMoves(c: State, t: Tid, list: seq<Node>)
    requires Chain(c.next, c.head, list) && Enabled(c, Step(t)) && Locals(c, list, c.pc[t])
    requires c.pc[t].FindFirst? || c.pc[t].FindTest? || c.pc[t].FreeTest? || c.pc[t].FreeScan?
    ensures Locals(c, list, Instruction(c, t).pc[t])
    ensures Instruction(c, t) == c.(pc := Instruction(c, t).pc)
  {
    match c.pc[t]
    case FindFirst(s) => FindStarts(c, list, s);
    case FindTest(s, cur) => FindMoves(c, list, s, cur);
    case FreeTest(s, e) => FreeStarts(c, list, s, e);
    case FreeScan(s, e, at) => FreeMoves(c, list, s, e, at);
  }

  /** A step that writes, or that enters or leaves the section. */
  lemma WriteMoves(c: State, t: Tid, list: seq<Node>)
    requires Inv(c, list) && Enabled(c, Step(t))
    requires !c.pc[t].FindFirst? && !c.pc[t].FindTest? && !c.pc[t].FreeTest? && !c.pc[t].FreeScan?
    ensures Locals(Instruction(c, t), Registry(c, Step(t), list), Instruction(c, t).pc[t])
  {
    assert Locals(c, list, c.pc[t]);
    if c.pc[t].FreeWrite? {
      RegistryMembers(c, Step(t), list);
      ChainAllocated(c.next, c.head, list);
    }
  }

  lemma StartMoves(c: State, a: Action, list: seq<Node>)
    requires Inv(c, list) && Enabled(c, a) && !a.Step?
    ensures Locals(Apply(c, a), list, Apply(c, a).pc[a.t])
  {
    assert Locals(c, list, c.pc[a.t]);
    ChainAllocated(c.next, c.head, list);
  }

  lemma OwnLocals(c: State, a: Action, list: seq<Node>)
    requires Inv(c, list) && Enabled(c, a)
    ensures Locals(Apply(c, a), Registry(c, a, list), Apply(c, a).pc[a.t])
  {
    if !a.Step? {
      StartMoves(c, a, list);
    } else {
      var p := c.pc[a.t];
      if p.FindFirst? || p.FindTest? || p.FreeTest? || p.FreeScan? {
        assert Locals(c, list, p);
        SearchMoves(c, a.t, list);
        FrameLocals(c, Apply(c, a), list, Apply(c, a).pc[a.t]);
      } else {
        WriteMoves(c, a.t, list);
      }
    }
  }

  /** An entry outside the list stays in the hands of the thread that has it ... */
  lemma HeldStays(c: State, a: Action, list: seq<Node>, t: Tid, e: Node)
    requires Enabled(c, a) && t in c.pc && Holds(c.pc[t], e)
    requires e in Apply(c, a).next && e !in Registry(c, a, list) && e !in list
    ensures t in Apply(c, a).pc && Holds(Apply(c, a).pc[t], e)
  {
  }

  /** ... and one that leaves it, or is new, is in the hands of the thread that acts. */
  lemma HeldNow(c: State, a: Action, list: seq<Node>, e: Node)
    requires Inv(c, list) && Enabled(c, a)
    requires e in Apply(c, a).next && e !in Registry(c, a, list) && (e !in c.next || e in list)
    ensures a.t in Apply(c, a).pc && Holds(Apply(c, a).pc[a.t], e)
  {
    RegistryMembers(c, a, list);
    assert Locals(c, list, c.pc[a.t]);
    ChainAllocated(c.next, c.head, list);
  }

  lemma StepKeepsHeld(c: State, a: Action, list: seq<Node>)
    requires Inv(c, list) && Enabled(c, a)
    ensures OthersHeld(Apply(c, a), Registry(c, a, list))
  {
    forall e | e in Apply(c, a).next && e !in Registry(c, a, list)
      ensures exists t :: t in Apply(c, a).pc && Holds(Apply(c, a).pc[t], e)
    {
      if e in c.next && e !in list {
        var t :| t in c.pc && Holds(c.pc[t], e);
        HeldStays(c, a, list, t, e);
      } else {
        HeldNow(c, a, list, e);
      }
    }
  }

  lemma StepKeepsLocals(c: State, a: Action, list: seq<Node>)
    requires Inv(c, list) && Enabled(c, a)
    ensures LocalsOk(Apply(c, a), Registry(c, a, list))
  {
    var c' := Apply(c, a);
    forall u | u in c'.pc
      ensures Locals(c', Registry(c, a, list), c'.pc[u])
    {
      if u == a.t {
        OwnLocals(c, a, list);
      } else {
        OthersKeepLocals(c, a, list, u);
        OthersStay(c, a, u);
      }
    }
  }

  lemma OthersStay(c: State, a: Action, u: Tid)
    requires Enabled(c, a) && u != a.t
    ensures u in Apply(c, a).pc <==> u in c.pc
    ensures u in c.pc ==> Apply(c, a).pc[u] == c.pc[u]
  {
  }

  lemma StepKeepsInv(c: State, a: Action, list: seq<Node>)
    requires Inv(c, list) && Enabled(c, a)
    ensures Inv(Apply(c, a), Registry(c, a, list))
  {
    StepKeepsExclusive(c, a, list);
    StepKeepsChain(c, a, list);
    StepKeepsHeld(c, a, list);
    StepKeepsLocals(c, a, list);
  }

  lemma {:induction false} RunKeepsInv(c: State, acts: seq<Action>, list: seq<Node>)
    requires Inv(c, list) && CanRun(c, acts)
    ensures Inv(After(c, acts), RegistryAfter(c, acts, list))
    decreases |acts|
  {
    if acts != [] {
      StepKeepsInv(c, acts[0], list);
      RunKeepsInv(Apply(c, acts[0]), acts[1..], Registry(c, acts[0], list));
    }
  }

  predicate Init(c: State) {
    c.lock == 0 && c.head == Null && c.next == map[] && c.sess == map[] && forall t :: t in c.pc ==> c.pc[t] == Idle
  }

  lemma InvMeans(e: State, list: seq<Node>)
    requires Inv(e, list)
    ensures forall n :: n in list ==> n in e.next
    ensures forall t :: t in e.pc && e.pc[t].Working? ==> Listed(e, list, e.pc[t].s, e.pc[t].e)
    ensures forall t :: t in e.pc ==> !e.pc[t].NotFound?
  {
    ChainAllocated(e.next, e.head, list);
    forall t | t in e.pc
      ensures !e.pc[t].NotFound? && (e.pc[t].Working? ==> Listed(e, list, e.pc[t].s, e.pc[t].e))
    {
      assert Locals(e, list, e.pc[t]);
    }
  }

  /** Whole runs, any interleaving.  The list is acyclic and holds exactly the registered
      and not yet freed entries, once each and newest first; every other allocated entry
      is on its way in or out; a thread that uses its session's entry uses one that is
      registered; the error branches of session_listFree are never taken. */
  lemma RegistryCorrect(c: State, acts: seq<Action>)
    requires Init(c) && CanRun(c, acts)
    ensures var e, list := After(c, acts), RegistryAfter(c, acts, []);
      && Chain(e.next, e.head, list) && Distinct(list)
      && (forall n :: n in list ==> n in e.next)
      && (forall n :: n in e.next && n !in list ==> exists t :: t in e.pc && Holds(e.pc[t], n))
      && (forall t :: t in e.pc && e.pc[t].Working? ==> Listed(e, list, e.pc[t].s, e.pc[t].e))
      && (forall t :: t in e.pc ==> !e.pc[t].NotFound?)
      && (forall t, u :: t in e.pc && u in e.pc && InSection(e.pc[t]) && InSection(e.pc[u]) ==> t == u)
  {
    RunKeepsInv(c, acts, []);
    InvMeans(After(c, acts), RegistryAfter(c, acts, []));
  }

  /** No thread is about to touch memory that has been given back: whoever is inside
      lock, find or free can take its next step. */
  lemma AccessesAreAllocated(c: State, acts: seq<Action>, t: Tid)
    requires Init(c) && CanRun(c, acts) && t in After(c, acts).pc
    requires !After(c, acts).pc[t].Idle? && !After(c, acts).pc[t].Working?
    ensures Enabled(After(c, acts), Step(t))
  {
    RunKeepsInv(c, acts, []);
    var e, list := After(c, acts), RegistryAfter(c, acts, []);
    ChainAllocated(e.next, e.head, list);
    assert Locals(e, list, e.pc[t]);
  }

  lemma {:induction false} LookupAt(list: seq<Node>, sess: map<Node, Session>, s: Session, k: nat)
    requires k <= |list| && forall i :: 0 <= i < k ==> list[i] in sess && sess[list[i]] != s
    requires k < |list| ==> list[k] in sess && sess[list[k]] == s
    ensures Lookup(list, sess, s) == LinkAt(list, k)
    decreases |list|
  {
    if list != [] && k > 0 {
      LookupAt(list[1..], sess, s, k - 1);
    }
  }

  /** When the search of a session ends, it ends at the newest registered entry of that
      session, or at none if there is none. */
  lemma FindIsLookup(c: State, acts: seq<Action>, t: Tid)
    requires Init(c) && CanRun(c, acts) && Enabled(After(c, acts), Step(t)) && After(c, acts).pc[t].FindTest?
    ensures var e, list := After(c, acts), RegistryAfter(c, acts, []);
      var p := Apply(e, Step(t)).pc[t];
      p.Unlock? ==> p == Unlock(e.pc[t].s, Lookup(list, e.sess, e.pc[t].s))
  {
    RunKeepsInv(c, acts, []);
    var e, list := After(c, acts), RegistryAfter(c, acts, []);
    assert Locals(e, list, e.pc[t]);
    var k: nat :| Passed(e, list, e.pc[t].s, e.pc[t].cur, k);
    if Apply(e, Step(t)).pc[t].Unlock? {
      LookupAt(list, e.sess, e.pc[t].s, k);
    }
  }

  /** Only t takes steps. */
  predicate Alone(acts: seq<Action>, t: Tid) {
    forall i :: 0 <= i < |acts| ==> acts[i] == Step(t)
  }

  lemma First(c: State, a: Action, rest: seq<Action>, list: seq<Node>)
    requires Enabled(c, a) && CanRun(Apply(c, a), rest)
    ensures CanRun(c, [a] + rest) && After(c, [a] + rest) == After(Apply(c, a), rest)
    ensures RegistryAfter(c, [a] + rest, list) == RegistryAfter(Apply(c, a), rest, Registry(c, a, list))
  {
    assert ([a] + rest)[1..] == rest;
  }

  /** A search of a session runs to its end and finds what a look at the list would. */
  lemma {:induction false} FindEnds(c: State, list: seq<Node>, t: Tid, s: Session, cur: Link, k: nat) returns (acts: seq<Action>)
    requires Chain(c.next, c.head, list) && c.next.Keys == c.sess.Keys
    requires t in c.pc && c.pc[t] == FindTest(s, cur) && Passed(c, list, s, cur, k)
    ensures Alone(acts, t) && |acts| <= |list| - k + 1
    ensures CanRun(c, acts) && After(c, acts) == c.(pc := c.pc[t := Unlock(s, Lookup(list, c.sess, s))])
    ensures RegistryAfter(c, acts, list) == list
    decreases |list| - k
  {
    if k < |list| {
      ChainAt(c.next, c.head, list, k);
    }
    var c' := Apply(c, Step(t));
    var rest: seq<Action> := [];
    if c'.pc[t].Unlock? {
      LookupAt(list, c.sess, s, k);
    } else {
      assert Passed(c', list, s, c'.pc[t].cur, k + 1);
      rest := FindEnds(c', list, t, s, c'.pc[t].cur, k + 1);
      var found := Unlock(s, Lookup(list, c.sess, s));
      assert c'.pc[t := found] == c.pc[t := found];
    }
    acts := [Step(t)] + rest;
    First(c, Step(t), rest, list);
  }

  /** A search of an entry to free runs to the link in front of the entry. */
  lemma {:induction false} FreeEnds(c: State, list: seq<Node>, t: Tid, s: Session, e: Node, k: nat)
    returns (acts: seq<Action>, last: Link)
    requires Chain(c.next, c.head, list)
    requires t in c.pc && c.pc[t].FreeScan? && c.pc[t].s == s && c.pc[t].e == e && Before(list, c.pc[t].at, e, k)
    ensures Alone(acts, t) && |acts| <= |list| - k
    ensures CanRun(c, acts) && After(c, acts) == c.(pc := c.pc[t := FreeRead(s, e, last)])
    ensures RegistryAfter(c, acts, list) == list && exists m: nat :: JustBehind(list, last, e, m)
    decreases |list| - k
  {
    ChainAt(c.next, c.head, list, k);
    assert list[k + 1..] != [];
    FirstAndRest(list, k + 1);
    var c' := Apply(c, Step(t));
    var rest: seq<Action> := [];
    if c'.pc[t].FreeRead? {
      last := Ptr(c.pc[t].at);
      assert JustBehind(list, last, e, k + 1);
    } else {
      assert Before(list, list[k + 1], e, k + 1);
      rest, last := FreeEnds(c', list, t, s, e, k + 1);
      assert c'.pc[t := FreeRead(s, e, last)] == c.pc[t := FreeRead(s, e, last)];
    }
    acts := [Step(t)] + rest;
    First(c, Step(t), rest, list);
  }

  /** Searches end: from every reachable state, a thread that is searching under the lock
      is through after at most as many steps of its own as there are registered entries,
      and one more. */
  lemma SearchEnds(c0: State, run: seq<Action>, t: Tid) returns (acts: seq<Action>)
    requires Init(c0) && CanRun(c0, run) && t in After(c0, run).pc
    requires After(c0, run).pc[t].FindTest? || After(c0, run).pc[t].FreeScan?
    ensures Alone(acts, t) && |acts| <= |RegistryAfter(c0, run, [])| + 1
    ensures CanRun(After(c0, run), acts) && t in After(After(c0, run), acts).pc
    ensures if After(c0, run).pc[t].FindTest? then After(After(c0, run), acts).pc[t].Unlock?
            else After(After(c0, run), acts).pc[t].FreeRead?
  {
    RunKeepsInv(c0, run, []);
    var c, list := After(c0, run), RegistryAfter(c0, run, []);
    assert Locals(c, list, c.pc[t]);
    if c.pc[t].FindTest? {
      var k: nat :| Passed(c, list, c.pc[t].s, c.pc[t].cur, k);
      acts := FindEnds(c, list, t, c.pc[t].s, c.pc[t].cur, k);
    } else {
      var k: nat :| Before(list, c.pc[t].at, c.pc[t].e, k);
      var last;
      acts, last := FreeEnds(c, list, t, c.pc[t].s, c.pc[t].e, k);
    }
  }

  /** No path takes the lock while holding it: a thread inside the section never comes to
      the test-and-set, and when it leaves, it has given the lock up. */
  lemma NeverRelocks(c0: State, run: seq<Action>, a: Action, t: Tid)
    requires Init(c0) && CanRun(c0, run) && Enabled(After(c0, run), a)
    requires t in After(c0, run).pc && InSection(After(c0, run).pc[t])
    ensures var c' := Apply(After(c0, run), a);
      t in c'.pc && !c'.pc[t].TestSet? && !c'.pc[t].SpinRead? && (!InSection(c'.pc[t]) ==> c'.lock == 0)
  {
    RunKeepsInv(c0, run, []);
    var c := After(c0, run);
    if a.t == t {
      InstructionShape(c, t);
    } else {
      OthersStay(c, a, t);
    }
  }

  // ---------------------------------------------------------- whole calls

  /** From the head on, a find comes to the newest entry of its session, or to none. */
  lemma FindRuns(c: State, list: seq<Node>, t: Tid, s: Session) returns (acts: seq<Action>)
    requires Chain(c.next, c.head, list) && c.next.Keys == c.sess.Keys && t in c.pc && c.pc[t] == FindFirst(s)
    ensures Alone(acts, t) && |acts| <= |list| + 2
    ensures CanRun(c, acts) && After(c, acts) == c.(pc := c.pc[t := Unlock(s, Lookup(list, c.sess, s))])
    ensures RegistryAfter(c, acts, list) == list
  {
    var c' := Apply(c, Step(t));
    assert Passed(c', list, s, c.head, 0);
    var rest := FindEnds(c', list, t, s, c.head, 0);
    var found := Unlock(s, Lookup(list, c.sess, s));
    assert c'.pc[t := found] == c.pc[t := found];
    acts := [Step(t)] + rest;
    First(c, Step(t), rest, list);
  }

  lemma FreeRuns(c: State, list: seq<Node>, t: Tid, s: Session, e: Node) returns (acts: seq<Action>, last: Link)
    requires Chain(c.next, c.head, list) && t in c.pc && c.pc[t] == FreeTest(s, e) && Listed(c, list, s, e)
    ensures Alone(acts, t) && |acts| <= |list| + 1
    ensures CanRun(c, acts) && After(c, acts) == c.(pc := c.pc[t := FreeRead(s, e, last)])
    ensures RegistryAfter(c, acts, list) == list && exists m: nat :: JustBehind(list, last, e, m)
  {
    ChainAllocated(c.next, c.head, list);
    FreeStarts(c, list, s, e);
    var c' := Apply(c, Step(t));
    var rest: seq<Action> := [];
    last := Null;
    if c'.pc[t].FreeRead? {
      assert JustBehind(list, last, e, 0);
    } else {
      var k: nat :| Before(list, c'.pc[t].at, e, k);
      rest, last := FreeEnds(c', list, t, s, e, k);
      assert c'.pc[t := FreeRead(s, e, last)] == c.pc[t := FreeRead(s, e, last)];
    }
    acts := [Step(t)] + rest;
    First(c, Step(t), rest, list);
  }

  /** Around the entry, its memory, and out. */
  lemma FreeFinishes(c: State, list: seq<Node>, t: Tid, s: Session, e: Node, last: Link)
    requires Chain(c.next, c.head, list) && t in c.pc && c.pc[t] == FreeRead(s, e, last) && Listed(c, list, s, e)
    requires exists m: nat :: JustBehind(list, last, e, m)
    ensures CanRun(c, Turns(t, 4))
    ensures var c' := After(c, Turns(t, 4));
      && c'.lock == 0 && c'.pc == c.pc[t := Idle] && c'.sess == c.sess - {e} && e !in c'.next
    ensures RegistryAfter(c, Turns(t, 4), list) == Remove(list, e)
  {
    ChainAllocated(c.next, c.head, list);
    var c1 := Apply(c, Step(t));
    assert c1.pc[t := Idle] == c.pc[t := Idle];
    WriteFinishes(c1, list, t, s, e, last, c1.pc[t].n);
    First(c, Step(t), Turns(t, 3), list);
  }

  lemma WriteFinishes(c: State, list: seq<Node>, t: Tid, s: Session, e: Node, last: Link, n: Link)
    requires t in c.pc && c.pc[t] == FreeWrite(s, e, last, n) && (last == Null || last.node in c.next)
    ensures CanRun(c, Turns(t, 3))
    ensures var c' := After(c, Turns(t, 3));
      && c'.lock == 0 && c'.pc == c.pc[t := Idle] && c'.sess == c.sess - {e} && e !in c'.next
    ensures RegistryAfter(c, Turns(t, 3), list) == Remove(list, e)
  {
    var c1 := Apply(c, Step(t));
    var c2 := Apply(c1, Step(t));
    var gone := Remove(list, e);
    First(c2, Step(t), Turns(t, 0), gone);
    First(c1, Step(t), Turns(t, 1), gone);
    First(c, Step(t), Turns(t, 2), list);
    assert c2.pc[t := Idle] == c.pc[t := Idle];
  }

  /** t takes n steps in a row. */
  function Turns(t: Tid, n: nat): seq<Action> {
    if n == 0 then [] else [Step(t)] + Turns(t, n - 1)
  }

  lemma {:induction false} Join(c: State, acts: seq<Action>, more: seq<Action>, list: seq<Node>)
    requires CanRun(c, acts) && CanRun(After(c, acts), more)
    ensures CanRun(c, acts + more) && After(c, acts + more) == After(After(c, acts), more)
    ensures RegistryAfter(c, acts + more, list) == RegistryAfter(After(c, acts), more, RegistryAfter(c, acts, list))
    decreases |acts|
  {
    if acts == [] {
      assert acts + more == more;
    } else {
      var a, tail := acts[0], acts[1..];
      var c1, list1 := Apply(c, a), Registry(c, a, list);
      assert [a] + tail == acts && [a] + (tail + more) == acts + more;
      Join(c1, tail, more, list1);
      First(c, a, tail + more, list);
      assert RegistryAfter(c, acts, list) == RegistryAfter(c1, tail, list1);
    }
  }

  /** What a call leaves, whatever it was for. */
  function ListAfter(task: Task, list: seq<Node>): seq<Node> {
    match task
    case Add(_, e) => [e] + list
    case Find(_) => list
    case Count(_, _) => list
    case Free(_, e) => Remove(list, e)
  }

  function AnswerOf(task: Task, list: seq<Node>, sess: map<Node, Session>): Pc {
    match task
    case Add(s, e) => Working(s, e)
    case Find(s) => if Lookup(list, sess, s) == Null then Idle else Working(s, Lookup(list, sess, s).node)
    case Count(s, e) => Working(s, e)
    case Free(_, _) => Idle
  }

  /** The call of t for task has run from c to c', and nobody has the lock. */
  predicate Served(c: State, c': State, list: seq<Node>, t: Tid, task: Task) {
    && c'.lock == 0 && c'.pc == c.pc[t := AnswerOf(task, list, c.sess)]
    && c'.sess == (if task.Free? then c.sess - {task.e} else c.sess)
    && (task.Free? ==> task.e !in c'.next)
    && (task.Find? || task.Count? ==> c'.next == c.next && c'.head == c.head)
  }

  lemma AddRuns(c: State, list: seq<Node>, t: Tid, s: Session, e: Node)
    requires t in c.pc && c.pc[t] == AddRead(s, e) && e in c.next
    ensures CanRun(c, Turns(t, 4))
    ensures Served(c, After(c, Turns(t, 4)), list, t, Add(s, e)) && RegistryAfter(c, Turns(t, 4), list) == [e] + list
  {
    var c1 := Apply(c, Step(t));
    var c2 := Apply(c1, Step(t));
    var c3 := Apply(c2, Step(t));
    First(c3, Step(t), Turns(t, 0), [e] + list);
    First(c2, Step(t), Turns(t, 1), list);
    First(c1, Step(t), Turns(t, 2), list);
    First(c, Step(t), Turns(t, 3), list);
    assert c3.pc[t := Working(s, e)] == c.pc[t := Working(s, e)];
  }

  lemma CountRuns(c: State, list: seq<Node>, t: Tid, s: Session, e: Node)
    requires t in c.pc && c.pc[t] == CountEntry(s, e) && e in c.next
    ensures CanRun(c, Turns(t, 2))
    ensures Served(c, After(c, Turns(t, 2)), list, t, Count(s, e)) && RegistryAfter(c, Turns(t, 2), list) == list
  {
    var c1 := Apply(c, Step(t));
    First(c1, Step(t), Turns(t, 0), list);
    First(c, Step(t), Turns(t, 1), list);
    assert c1.pc[t := Working(s, e)] == c.pc[t := Working(s, e)];
  }

  lemma FindAndUnlock(c: State, list: seq<Node>, t: Tid, s: Session) returns (acts: seq<Action>)
    requires Chain(c.next, c.head, list) && c.next.Keys == c.sess.Keys && t in c.pc && c.pc[t] == FindFirst(s)
    ensures |acts| <= |list| + 3 && CanRun(c, acts) && Alone(acts, t)
    ensures Served(c, After(c, acts), list, t, Find(s)) && RegistryAfter(c, acts, list) == list
  {
    var search := FindRuns(c, list, t, s);
    var c1, answer := After(c, search), AnswerOf(Find(s), list, c.sess);
    First(c1, Step(t), [], list);
    Join(c, search, [Step(t)], list);
    acts := search + [Step(t)];
    assert c1.pc[t := answer] == c.pc[t := answer];
  }

  lemma FreeAndUnlock(c: State, list: seq<Node>, t: Tid, s: Session, e: Node) returns (acts: seq<Action>)
    requires Chain(c.next, c.head, list) && t in c.pc && c.pc[t] == FreeTest(s, e) && Listed(c, list, s, e)
    ensures |acts| <= |list| + 5 && CanRun(c, acts) && Alone(acts, t)
    ensures Served(c, After(c, acts), list, t, Free(s, e)) && RegistryAfter(c, acts, list) == Remove(list, e)
  {
    var search, last := FreeRuns(c, list, t, s, e);
    var c1 := After(c, search);
    FreeFinishes(c1, list, t, s, e, last);
    Join(c, search, Turns(t, 4), list);
    acts := search + Turns(t, 4);
    assert c1.pc[t := Idle] == c.pc[t := Idle];
    TurnsAlone(t, 4);
  }

  lemma {:induction false} TurnsAlone(t: Tid, n: nat)
    ensures |Turns(t, n)| == n && Alone(Turns(t, n), t)
  {
    if n > 0 {
      TurnsAlone(t, n - 1);
    }
  }

  /** A thread that has entered for a task and runs alone does it and is out. */
  lemma SectionRuns(c: State, list: seq<Node>, t: Tid, task: Task) returns (acts: seq<Action>)
    requires Chain(c.next, c.head, list) && c.next.Keys == c.sess.Keys && t in c.pc && c.pc[t] == Enter(task)
    requires TaskOk(c, list, task)
    ensures |acts| <= |list| + 5 && CanRun(c, acts) && Alone(acts, t)
    ensures Served(c, After(c, acts), list, t, task) && RegistryAfter(c, acts, list) == ListAfter(task, list)
  {
    ChainAllocated(c.next, c.head, list);
    TurnsAlone(t, 4);
    TurnsAlone(t, 2);
    match task
    case Add(s, e) =>
      acts := Turns(t, 4);
      AddRuns(c, list, t, s, e);
    case Find(s) =>
      acts := FindAndUnlock(c, list, t, s);
    case Count(s, e) =>
      acts := Turns(t, 2);
      CountRuns(c, list, t, s, e);
    case Free(s, e) =>
      acts := FreeAndUnlock(c, list, t, s, e);
  }

  /** A thread that comes to the free lock and runs alone does its task and is out. */
  lemma CallRuns(c: State, list: seq<Node>, t: Tid, task: Task) returns (acts: seq<Action>)
    requires Inv(c, list) && c.lock == 0 && t in c.pc && c.pc[t] == TestSet(task)
    ensures |acts| <= |list| + 6 && CanRun(c, acts) && Alone(acts, t)
    ensures Served(c, After(c, acts), list, t, task) && RegistryAfter(c, acts, list) == ListAfter(task, list)
  {
    assert Locals(c, list, c.pc[t]);
    var c1 := Apply(c, Step(t));
    var rest := SectionRuns(c1, list, t, task);
    var answer := AnswerOf(task, list, c.sess);
    assert c1.pc[t := answer] == c.pc[t := answer];
    acts := [Step(t)] + rest;
    First(c, Step(t), rest, list);
  }

  /** A lock that is taken turns the test-and-set into a wait that reads it until it is free,
      and then tries again. */
  lemma BusyWaits(c: State, t: Tid, task: Task)
    requires t in c.pc && (c.pc[t] == TestSet(task) || c.pc[t] == SpinRead(task))
    ensures Enabled(c, Step(t))
    ensures c.lock == 1 ==> Apply(c, Step(t)) == c.(pc := c.pc[t := SpinRead(task)])
    ensures c.lock == 0 && c.pc[t].SpinRead? ==> Apply(c, Step(t)) == c.(pc := c.pc[t := TestSet(task)])
  {
  }

  predicate Starts(a: Action) {
    a.StartAdd? || a.StartFind? || a.StartCount? || a.StartFree?
  }

  /** What the whole call that a starts has done when it has run from c to c', and the
      registry from list to list'. */
  predicate WholeCall(c: State, a: Action, list: seq<Node>, c': State, list': seq<Node>)
    requires Enabled(c, a) && Starts(a)
  {
    match a
    case StartAdd(t, s, e) =>
      c'.pc == c.pc[t := Working(s, e)] && c'.sess == c.sess[e := s] && list' == [e] + list
    case StartFind(t, s) =>
      var r := Lookup(list, c.sess, s);
      c' == c.(pc := c.pc[t := if r == Null then Idle else Working(s, r.node)]) && list' == list
    case StartCount(t) =>
      c' == c && list' == list
    case StartFree(t) =>
      && c'.pc == c.pc[t := Idle] && c'.sess == c.sess - {c.pc[t].e} && c.pc[t].e !in c'.next
      && list' == Remove(list, c.pc[t].e)
    case _ => false
  }

  function TaskOf(c: State, a: Action): Task
    requires Enabled(c, a) && Starts(a)
  {
    match a
    case StartAdd(_, s, e) => Add(s, e)
    case StartFind(_, s) => Find(s)
    case StartCount(t) => Count(c.pc[t].s, c.pc[t].e)
    case StartFree(t) => Free(c.pc[t].s, c.pc[t].e)
  }

  lemma ServedIsWhole(c: State, a: Action, list: seq<Node>, c': State)
    requires Enabled(c, a) && Starts(a) && c.lock == 0
    requires Served(Apply(c, a), c', list, a.t, TaskOf(c, a))
    ensures WholeCall(c, a, list, c', ListAfter(TaskOf(c, a), list))
  {
    var c1 := Apply(c, a);
    assert c1.pc[a.t := c'.pc[a.t]] == c.pc[a.t := c'.pc[a.t]];
    if a.StartCount? {
      assert c.pc[a.t := c.pc[a.t]] == c.pc;
    }
  }

  lemma StartedRuns(c: State, list: seq<Node>, a: Action) returns (rest: seq<Action>)
    requires Inv(c, list) && Enabled(c, a) && Starts(a) && c.lock == 0
    ensures |rest| <= |list| + 6 && Alone(rest, a.t) && CanRun(Apply(c, a), rest)
    ensures WholeCall(c, a, list, After(Apply(c, a), rest), RegistryAfter(Apply(c, a), rest, list))
    ensures After(Apply(c, a), rest).lock == 0
  {
    StepKeepsInv(c, a, list);
    rest := CallRuns(Apply(c, a), list, a.t, TaskOf(c, a));
    ServedIsWhole(c, a, list, After(Apply(c, a), rest));
  }

  /** Every call that finds the lock free and runs alone, from its start to its return, does
      what it is for: registration puts its entry in front, find answers with the newest
      entry of the session, a count changes nothing else, and free takes its entry out and
      gives the memory back. */
  lemma CallsDoTheirWork(c0: State, run: seq<Action>, a: Action) returns (rest: seq<Action>)
    requires Init(c0) && CanRun(c0, run) && Enabled(After(c0, run), a) && Starts(a) && After(c0, run).lock == 0
    ensures var c, list := After(c0, run), RegistryAfter(c0, run, []);
      && |rest| <= |list| + 6 && Alone(rest, a.t) && CanRun(Apply(c, a), rest)
      && WholeCall(c, a, list, After(Apply(c, a), rest), RegistryAfter(Apply(c, a), rest, list))
      && After(Apply(c, a), rest).lock == 0
  {
    RunKeepsInv(c0, run, []);
    rest := StartedRuns(After(c0, run), RegistryAfter(c0, run, []), a);
  }

  lemma NewestIsFirst(list: seq<Node>, sess: map<Node, Session>, s: Session, e: Node)
    requires e in sess && sess[e] == s
    ensures Lookup([e] + list, sess, s) == Ptr(e) && Remove([e] + list, e) == list
  {
    assert ([e] + list)[1..] == list;
  }

  /** A whole call, its start included. */
  lemma RunCall(c: State, list: seq<Node>, a: Action) returns (acts: seq<Action>)
    requires Inv(c, list) && Enabled(c, a) && Starts(a) && c.lock == 0
    ensures CanRun(c, acts) && After(c, acts).lock == 0
    ensures WholeCall(c, a, list, After(c, acts), RegistryAfter(c, acts, list))
  {
    var rest := StartedRuns(c, list, a);
    acts := [a] + rest;
    First(c, a, rest, list);
  }

  lemma LeaveThenFind(c: State, list: seq<Node>, t: Tid, s: Session, e: Node)
    requires Inv(c, list) && c.lock == 0 && t in c.pc && c.pc[t] == Working(s, e)
    ensures Inv(Apply(c, Leave(t)), list) && Enabled(Apply(c, Leave(t)), StartFind(t, s))
    ensures e in c.sess && c.sess[e] == s
  {
    assert Locals(c, list, c.pc[t]);
    LeaveLetsOthersIn(c, list, t);
    StepKeepsInv(c, Leave(t), list);
  }

  /** A session that returns and is called again has its newest entry back. */
  lemma FoundAgain(c: State, list: seq<Node>, t: Tid, s: Session, e: Node) returns (acts: seq<Action>)
    requires Inv(c, [e] + list) && c.lock == 0 && t in c.pc && c.pc[t] == Working(s, e)
    ensures CanRun(c, acts) && RegistryAfter(c, acts, [e] + list) == [e] + list && After(c, acts) == c
  {
    var list1 := [e] + list;
    LeaveThenFind(c, list1, t, s, e);
    NewestIsFirst(list, c.sess, s, e);
    var find := FindFromIdle(Apply(c, Leave(t)), list1, t, s, e);
    acts := [Leave(t)] + find;
    BackAtWork(c, list1, t, s, e, find);
  }

  lemma BackAtWork(c: State, list: seq<Node>, t: Tid, s: Session, e: Node, find: seq<Action>)
    requires t in c.pc && c.pc[t] == Working(s, e) && CanRun(Apply(c, Leave(t)), find)
    requires After(Apply(c, Leave(t)), find) == c.(pc := c.pc[t := Idle][t := Working(s, e)])
    requires RegistryAfter(Apply(c, Leave(t)), find, list) == list
    ensures CanRun(c, [Leave(t)] + find) && After(c, [Leave(t)] + find) == c
    ensures RegistryAfter(c, [Leave(t)] + find, list) == list
  {
    First(c, Leave(t), find, list);
    assert c.pc[t := Idle][t := Working(s, e)] == c.pc;
  }

  lemma FindFromIdle(c: State, list: seq<Node>, t: Tid, s: Session, e: Node) returns (acts: seq<Action>)
    requires Inv(c, list) && c.lock == 0 && Enabled(c, StartFind(t, s)) && Lookup(list, c.sess, s) == Ptr(e)
    ensures CanRun(c, acts) && RegistryAfter(c, acts, list) == list && After(c, acts) == c.(pc := c.pc[t := Working(s, e)])
  {
    acts := RunCall(c, list, StartFind(t, s));
  }

  lemma Register(c: State, list: seq<Node>, t: Tid, s: Session, e: Node) returns (acts: seq<Action>)
    requires Inv(c, list) && c.lock == 0 && t in c.pc && c.pc[t] == Idle && Unserved(c, s) && e !in c.next
    ensures CanRun(c, acts) && RegistryAfter(c, acts, list) == [e] + list && Inv(After(c, acts), [e] + list)
    ensures var c1 := After(c, acts);
      c1.lock == 0 && c1.pc == c.pc[t := Working(s, e)] && c1.sess == c.sess[e := s] && e !in c.sess
  {
    assert e !in c.sess;
    acts := RunCall(c, list, StartAdd(t, s, e));
    RunKeepsInv(c, acts, list);
  }

  lemma Unregister(c: State, list: seq<Node>, t: Tid, s: Session, e: Node) returns (acts: seq<Action>)
    requires Inv(c, [e] + list) && c.lock == 0 && t in c.pc && c.pc[t] == Working(s, e)
    ensures CanRun(c, acts) && RegistryAfter(c, acts, [e] + list) == list
    ensures var c1 := After(c, acts);
      c1.lock == 0 && c1.pc == c.pc[t := Idle] && c1.sess == c.sess - {e}
  {
    acts := RunCall(c, [e] + list, StartFree(t));
    assert ([e] + list)[1..] == list;
  }

  /** The life of an entry: a session that registers it and returns finds that very entry
      when it is called again, and when it frees it, the registry is what it was. */
  lemma Lifecycle(c: State, list: seq<Node>, t: Tid, s: Session, e: Node)
    returns (add: seq<Action>, find: seq<Action>, free: seq<Action>)
    requires Inv(c, list) && c.lock == 0 && t in c.pc && c.pc[t] == Idle && Unserved(c, s) && e !in c.next
    ensures CanRun(c, add) && RegistryAfter(c, add, list) == [e] + list
    ensures var c1 := After(c, add);
      && t in c1.pc && c1.pc[t] == Working(s, e)
      && CanRun(c1, find) && RegistryAfter(c1, find, [e] + list) == [e] + list && After(c1, find) == c1
      && CanRun(c1, free) && RegistryAfter(c1, free, [e] + list) == list
      && After(c1, free).pc == c.pc && After(c1, free).sess == c.sess && After(c1, free).lock == 0
  {
    add := Register(c, list, t, s, e);
    var c1 := After(c, add);
    find := FoundAgain(c1, list, t, s, e);
    free := Unregister(c1, list, t, s, e);
    AsBefore(c.pc, t, Working(s, e), c.sess, e, s);
  }

  lemma AsBefore(pc: map<Tid, Pc>, t: Tid, p: Pc, sess: map<Node, Session>, e: Node, s: Session)
    requires t in pc && pc[t] == Idle && e !in sess
    ensures pc[t := p][t := Idle] == pc && sess[e := s] - {e} == sess
  {
  }

  /** The error branches of free are there: for an entry that is not listed, it looks through
      the whole list, gives the lock up, and leaves everything as it was. */
  lemma FreeOfUnlisted(c: State, list: seq<Node>, t: Tid, s: Session, e: Node) returns (acts: seq<Action>)
    requires Chain(c.next, c.head, list) && e !in list && t in c.pc && c.pc[t] == FreeTest(s, e)
    ensures Alone(acts, t) && |acts| <= |list| + 2 && CanRun(c, acts)
    ensures After(c, acts) == c.(lock := 0, pc := c.pc[t := Idle]) && RegistryAfter(c, acts, list) == list
  {
    var c' := Apply(c, Step(t));
    var rest;
    if list == [] {
      rest := NotFoundEnds(c', list, t, s);
    } else {
      ChainAt(c.next, c.head, list, 0);
      rest := ScanMisses(c', list, t, s, e, 0);
    }
    assert c'.pc[t := Idle] == c.pc[t := Idle];
    acts := [Step(t)] + rest;
    First(c, Step(t), rest, list);
  }

  lemma NotFoundEnds(c: State, list: seq<Node>, t: Tid, s: Session) returns (acts: seq<Action>)
    requires t in c.pc && c.pc[t] == NotFound(s)
    ensures acts == [Step(t)] && CanRun(c, acts) && After(c, acts) == c.(lock := 0, pc := c.pc[t := Idle])
    ensures RegistryAfter(c, acts, list) == list
  {
    acts := [Step(t)];
    First(c, Step(t), [], list);
  }

  lemma {:induction false} ScanMisses(c: State, list: seq<Node>, t: Tid, s: Session, e: Node, k: nat) returns (acts: seq<Action>)
    requires Chain(c.next, c.head, list) && e !in list && k < |list| && t in c.pc && c.pc[t] == FreeScan(s, e, list[k])
    ensures Alone(acts, t) && |acts| <= |list| - k + 1 && CanRun(c, acts)
    ensures After(c, acts) == c.(lock := 0, pc := c.pc[t := Idle]) && RegistryAfter(c, acts, list) == list
    decreases |list| - k
  {
    ChainAt(c.next, c.head, list, k);
    var c' := Apply(c, Step(t));
    var rest;
    if k + 1 == |list| {
      rest := NotFoundEnds(c', list, t, s);
    } else {
      assert list[k + 1] in list;
      rest := ScanMisses(c', list, t, s, e, k + 1);
    }
    assert c'.pc[t := Idle] == c.pc[t := Idle];
    acts := [Step(t)] + rest;
    First(c, Step(t), rest, list);
  }

  /** A callback that returns leaves its session's entry registered and lets the next
      callback of that session run. */
  lemma LeaveLetsOthersIn(c: State, list: seq<Node>, t: Tid)
    requires Inv(c, list) && Enabled(c, Leave(t))
    ensures Apply(c, Leave(t)).pc[t] == Idle && Unserved(Apply(c, Leave(t)), c.pc[t].s)
    ensures Listed(Apply(c, Leave(t)), Registry(c, Leave(t), list), c.pc[t].s, c.pc[t].e)
  {
    assert Locals(c, list, c.pc[t]);
    var s := c.pc[t].s;
    assert s in Serving(c.pc[t]);
    forall u | u in c.pc && u != t
      ensures s !in Serving(c.pc[u])
    {
    }
  }

  /** Freeing takes out its argument and keeps the order of the rest. */
  lemma {:induction false} RemoveKeepsOrder(list: seq<Node>, e: Node) returns (before: seq<Node>, after: seq<Node>)
    requires Distinct(list) && e in list
    ensures list == before + [e] + after && e !in before && e !in after
    ensures Remove(list, e) == before + after
  {
    var k := IndexOf(list, e);
    before, after := list[..k], list[k + 1..];
    RemoveIsWithout(list, k);
  }
}
