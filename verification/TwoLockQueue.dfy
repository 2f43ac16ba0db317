/**
 The two-lock queue: a linked list with a sentinel, `head_` guarded by one mutex and `tail_` by
 another, so that an enqueuer and a dequeuer run side by side.  Nodes are allocated and deleted;
 an allocation may return an address that was deleted before.  A step that dereferences or
 deletes an address outside the heap sets `fault`.
 */
module TwoLockQueue {
  import opened Options

  type Tid = nat
  type Addr = nat

  // The sentinel the constructor makes carries no value.
  datatype Node<T> = Node(value: Option<T>, next: Option<Addr>)

  datatype Pc<T> =
    | Idle
    | Creating(v: T)                              // Enqueue: about to allocate the node
    | TailLocking(n: Addr)                        // Enqueue: about to lock the tail mutex
    | Linking(n: Addr)                            // Enqueue: about to write tail_->next
    | Tailing(n: Addr)                            // Enqueue: about to write tail_
    | TailUnlocking
    | HeadLocking                                 // Dequeue: about to lock the head mutex
    | ReadingNext                                 // Dequeue: about to read head_->next
    | ReadingValue(first: Addr)                   // Dequeue: about to read the value
    | Heading(first: Addr, got: Option<T>)        // Dequeue: about to write head_
    | HeadUnlocking(out: Option<Addr>)            // Dequeue: about to unlock
    | Deleting(dead: Addr)                        // Dequeue: about to delete the old sentinel

  datatype Event<T> = Enqueued(t: Tid, v: T) | Dequeued(t: Tid, got: Option<T>) | FoundEmpty(t: Tid)

  datatype Memory<T> = Memory(heap: map<Addr, Node<T>>, head: Addr, tail: Addr)

  datatype State<T> = State(
    mem: Memory<T>,
    headLock: Option<Tid>,
    tailLock: Option<Tid>,
    threads: map<Tid, Pc<T>>,
    history: seq<Event<T>>,
    fault: bool)

  // `Go(a)` lets an allocation return the address `a`, which must be free.
  datatype Choice<T> = CallEnqueue(v: T) | CallDequeue | Go(a: Addr)

  ghost predicate Init<T>(s: State<T>) {
    && s.mem.heap == map[s.mem.head := Node(None, None)] && s.mem.tail == s.mem.head
    && s.headLock == None && s.tailLock == None && s.history == [] && !s.fault
    && forall t :: t in s.threads ==> s.threads[t] == Idle
  }

  function Goto<T>(s: State<T>, t: Tid, pc: Pc<T>): State<T> {
    s.(threads := s.threads[t := pc])
  }

  function Record<T>(s: State<T>, e: Event<T>): State<T> {
    s.(history := s.history + [e])
  }

  function SetNext<T>(m: Memory<T>, a: Addr, n: Addr): Memory<T>
    requires a in m.heap
  {
    m.(heap := m.heap[a := m.heap[a].(next := Some(n))])
  }

  // One atomic action of thread `t`; a thread blocked on a mutex stays where it is.
  function Step<T>(s: State<T>, t: Tid, c: Choice<T>): State<T>
    requires t in s.threads
  {
    var m := s.mem;
    match s.threads[t]
    case Idle =>
      if c.CallEnqueue? then Goto(s, t, Creating(c.v))
      else if c.CallDequeue? then Goto(s, t, HeadLocking)
      else s
    case Creating(v) =>
      if c.Go? && c.a !in m.heap
      then Goto(s.(mem := m.(heap := m.heap[c.a := Node(Some(v), None)])), t, TailLocking(c.a))
      else s
    case TailLocking(n) =>
      if s.tailLock.None? then Goto(s.(tailLock := Some(t)), t, Linking(n)) else s
    case Linking(n) =>
      if m.tail !in m.heap || n !in m.heap || m.heap[n].value.None? then s.(fault := true)
      else Record(Goto(s.(mem := SetNext(m, m.tail, n)), t, Tailing(n)), Enqueued(t, m.heap[n].value.value))
    case Tailing(n) => Goto(s.(mem := m.(tail := n)), t, TailUnlocking)
    case TailUnlocking => Goto(s.(tailLock := None), t, Idle)
    case HeadLocking =>
      if s.headLock.None? then Goto(s.(headLock := Some(t)), t, ReadingNext) else s
    case ReadingNext =>
      if m.head !in m.heap then s.(fault := true)
      else if m.heap[m.head].next.None? then Record(Goto(s, t, HeadUnlocking(None)), FoundEmpty(t))
      else Goto(s, t, ReadingValue(m.heap[m.head].next.value))
    case ReadingValue(first) =>
      if first !in m.heap then s.(fault := true)
      else Goto(s, t, Heading(first, m.heap[first].value))
    case Heading(first, got) =>
      Record(Goto(s.(mem := m.(head := first)), t, HeadUnlocking(Some(m.head))), Dequeued(t, got))
    case HeadUnlocking(out) =>
      Goto(s.(headLock := None), t, if out.None? then Idle else Deleting(out.value))
    case Deleting(dead) =>
      if dead !in m.heap then s.(fault := true)
      else Goto(s.(mem := m.(heap := m.heap - {dead})), t, Idle)
  }

  // ---------------------------------------------------------------- the reference object

  // A sequential first-in-first-out queue, front first.
  function Apply<T(==)>(q: Option<seq<T>>, e: Event<T>): Option<seq<T>> {
    if q.None? then None
    else match e
      case Enqueued(_, v) => Some(q.value + [v])
      case Dequeued(_, v) => if q.value != [] && v == Some(q.value[0]) then Some(q.value[1..]) else None
      case FoundEmpty(_) => if q.value == [] then q else None
  }

  function Replay<T(==)>(h: seq<Event<T>>): Option<seq<T>> {
    if h == [] then Some([]) else Apply(Replay(h[..|h| - 1]), h[|h| - 1])
  }

  lemma ReplaySnoc<T>(h: seq<Event<T>>, e: Event<T>)
    ensures Replay(h + [e]) == Apply(Replay(h), e)
  {
    assert (h + [e])[..|h|] == h;
  }

  // ---------------------------------------------------------------- the invariant

  // `nodes` is the linked list from `head_`; every node but the sentinel carries a value.
  ghost predicate Listed<T>(m: Memory<T>, nodes: seq<Addr>) {
    && nodes != [] && nodes[0] == m.head
    && (forall k :: 0 <= k < |nodes| ==> nodes[k] in m.heap)
    && (forall k :: 0 <= k < |nodes| - 1 ==> m.heap[nodes[k]].next == Some(nodes[k + 1]))
    && m.heap[nodes[|nodes| - 1]].next == None
    && (forall k :: 1 <= k < |nodes| ==> m.heap[nodes[k]].value.Some?)
    && (forall j, k :: 0 <= j < k < |nodes| ==> nodes[j] != nodes[k])
  }

  // The queue's contents: the values behind the sentinel.
  ghost function Contents<T>(m: Memory<T>, nodes: seq<Addr>): (q: seq<T>)
    requires Listed(m, nodes)
    ensures |q| == |nodes| - 1 && forall k :: 0 <= k < |q| ==> Some(q[k]) == m.heap[nodes[k + 1]].value
  {
    seq(|nodes| - 1, k requires 0 <= k < |nodes| - 1 => m.heap[nodes[k + 1]].value.value)
  }

  // The node only this thread knows: not yet linked, or no longer linked.
  ghost function Owned<T>(pc: Pc<T>): Option<Addr> {
    match pc
    case TailLocking(n) => Some(n)
    case Linking(n) => Some(n)
    case HeadUnlocking(out) => out
    case Deleting(dead) => Some(dead)
    case _ => None
  }

  ghost predicate OwnedBySome<T>(threads: map<Tid, Pc<T>>, a: Addr) {
    exists t :: t in threads && Owned(threads[t]) == Some(a)
  }

  // Every allocated node is in the list or owned by exactly one thread: none leaks, and none is
  // reachable after its deletion.
  ghost predicate Placed<T>(heap: map<Addr, Node<T>>, threads: map<Tid, Pc<T>>, nodes: seq<Addr>) {
    && (forall a :: a in heap ==> (a in nodes <==> !OwnedBySome(threads, a)))
    && (forall t :: t in threads && Owned(threads[t]).Some? ==> Owned(threads[t]).value in heap)
    && (forall t, u :: t in threads && u in threads && t != u && Owned(threads[t]).Some? ==>
          Owned(threads[t]) != Owned(threads[u]))
  }

  ghost predicate InTail<T>(pc: Pc<T>) { pc.Linking? || pc.Tailing? || pc.TailUnlocking? }

  ghost predicate InHead<T>(pc: Pc<T>) {
    pc.ReadingNext? || pc.ReadingValue? || pc.Heading? || pc.HeadUnlocking?
  }

  // Each mutex is held exactly by the thread inside its section.
  ghost predicate Locked<T>(threads: map<Tid, Pc<T>>, headLock: Option<Tid>, tailLock: Option<Tid>) {
    && (forall t :: t in threads ==> (tailLock == Some(t) <==> InTail(threads[t])))
    && (forall t :: t in threads ==> (headLock == Some(t) <==> InHead(threads[t])))
    && (tailLock.Some? ==> tailLock.value in threads)
    && (headLock.Some? ==> headLock.value in threads)
  }

  lemma LockedMove<T>(threads: map<Tid, Pc<T>>, headLock: Option<Tid>, tailLock: Option<Tid>, t: Tid, pc: Pc<T>)
    requires Locked(threads, headLock, tailLock) && t in threads
    requires InTail(pc) == InTail(threads[t]) && InHead(pc) == InHead(threads[t])
    ensures Locked(threads[t := pc], headLock, tailLock)
  {
  }

  // What a thread inside an operation knows about the list.
  ghost predicate Sound<T>(m: Memory<T>, nodes: seq<Addr>, pc: Pc<T>)
    requires nodes != []
  {
    match pc
    case TailLocking(n) => Fresh(m, n)
    case Linking(n) => Fresh(m, n)
    case Tailing(n) => n == nodes[|nodes| - 1]
    case ReadingValue(first) => |nodes| > 1 && first == nodes[1]
    case Heading(first, got) => |nodes| > 1 && first == nodes[1] && first in m.heap && got == m.heap[first].value
    case _ => true
  }

  ghost predicate Sounds<T>(m: Memory<T>, nodes: seq<Addr>, threads: map<Tid, Pc<T>>)
    requires nodes != []
  {
    forall t :: t in threads ==> Sound(m, nodes, threads[t])
  }

  ghost predicate Fresh<T>(m: Memory<T>, n: Addr) {
    n in m.heap && m.heap[n].value.Some? && m.heap[n].next == None
  }

  // `tail_` is the last node except between an enqueuer's two writes, when it may dangle.
  ghost predicate TailKnown<T>(tail: Addr, last: Addr, threads: map<Tid, Pc<T>>, tailLock: Option<Tid>) {
    tail == last || (tailLock.Some? && tailLock.value in threads && threads[tailLock.value].Tailing?)
  }

  ghost predicate Inv<T>(s: State<T>, nodes: seq<Addr>) {
    && !s.fault
    && Listed(s.mem, nodes)
    && Placed(s.mem.heap, s.threads, nodes)
    && Locked(s.threads, s.headLock, s.tailLock)
    && Sounds(s.mem, nodes, s.threads)
    && TailKnown(s.mem.tail, nodes[|nodes| - 1], s.threads, s.tailLock)
    && Replay(s.history) == Some(Contents(s.mem, nodes))
  }

  lemma InitInv<T>(s: State<T>)
    requires Init(s)
    ensures Inv(s, [s.mem.head])
  {
    assert Contents(s.mem, [s.mem.head]) == [];
  }

  // ---------------------------------------------------------------- steps keep the invariant

  // A thread that keeps what it owns keeps the placement.
  lemma MovePlaced<T>(heap: map<Addr, Node<T>>, threads: map<Tid, Pc<T>>, nodes: seq<Addr>, t: Tid, pc: Pc<T>)
    requires Placed(heap, threads, nodes) && t in threads && Owned(pc) == Owned(threads[t])
    ensures Placed(heap, threads[t := pc], nodes)
  {
    forall a ensures OwnedBySome(threads[t := pc], a) <==> OwnedBySome(threads, a) {
      OwnedAfter(threads, t, pc, a);
    }
  }

  lemma OwnedAfter<T>(threads: map<Tid, Pc<T>>, t: Tid, pc: Pc<T>, a: Addr)
    requires t in threads
    ensures OwnedBySome(threads[t := pc], a) <==>
      Owned(pc) == Some(a) || exists u :: u in threads && u != t && Owned(threads[u]) == Some(a)
    ensures OwnedBySome(threads, a) <==>
      Owned(threads[t]) == Some(a) || exists u :: u in threads && u != t && Owned(threads[u]) == Some(a)
  {
    var threads' := threads[t := pc];
    if OwnedBySome(threads', a) {
      var u :| u in threads' && Owned(threads'[u]) == Some(a);
      assert u != t ==> u in threads && Owned(threads[u]) == Some(a);
    }
    if Owned(pc) == Some(a) { assert t in threads' && Owned(threads'[t]) == Some(a); }
    if u :| u in threads && u != t && Owned(threads[u]) == Some(a) {
      assert u in threads' && Owned(threads'[u]) == Some(a);
    }
  }

  // What the invariant says of one thread, and of the list.
  lemma OwnPart<T>(s: State<T>, nodes: seq<Addr>, t: Tid)
    requires Inv(s, nodes) && t in s.threads
    ensures !s.fault && Listed(s.mem, nodes) && Sound(s.mem, nodes, s.threads[t])
    ensures InTail(s.threads[t]) <==> s.tailLock == Some(t)
    ensures InHead(s.threads[t]) <==> s.headLock == Some(t)
    ensures s.tailLock == Some(t) && !s.threads[t].Tailing? ==> s.mem.tail == nodes[|nodes| - 1]
    ensures Replay(s.history) == Some(Contents(s.mem, nodes))
  {
    hide Listed, Placed, Sound, Contents, Replay, InTail, InHead;
  }

  // The sections a thread enters and leaves are those of the mutexes it takes and gives back.
  lemma MoveLocked<T>(s: State<T>, nodes: seq<Addr>, t: Tid, pc: Pc<T>, headLock: Option<Tid>, tailLock: Option<Tid>)
    requires Locked(s.threads, s.headLock, s.tailLock) && t in s.threads
    requires nodes != [] && TailKnown(s.mem.tail, nodes[|nodes| - 1], s.threads, s.tailLock)
    requires !s.threads[t].Tailing? && !pc.Tailing?
    requires tailLock == if InTail(pc) then Some(t) else if InTail(s.threads[t]) then None else s.tailLock
    requires headLock == if InHead(pc) then Some(t) else if InHead(s.threads[t]) then None else s.headLock
    requires InTail(pc) && !InTail(s.threads[t]) ==> s.tailLock.None?
    requires InHead(pc) && !InHead(s.threads[t]) ==> s.headLock.None?
    ensures Locked(s.threads[t := pc], headLock, tailLock)
    ensures TailKnown(s.mem.tail, nodes[|nodes| - 1], s.threads[t := pc], tailLock)
  {
    hide InTail, InHead;
    assert InTail(s.threads[t]) <==> s.tailLock == Some(t);
    assert InHead(s.threads[t]) <==> s.headLock == Some(t);
  }

  // A step that leaves memory alone: the thread moves on, perhaps taking or leaving a mutex.
  lemma MoveInv<T>(s: State<T>, nodes: seq<Addr>, t: Tid, pc: Pc<T>, s': State<T>)
    requires Inv(s, nodes) && t in s.threads
    requires s' == s.(threads := s.threads[t := pc], headLock := s'.headLock, tailLock := s'.tailLock)
    requires Sound(s.mem, nodes, pc) && Owned(pc) == Owned(s.threads[t])
    requires !s.threads[t].Tailing? && !pc.Tailing?
    requires s'.tailLock == if InTail(pc) then Some(t) else if InTail(s.threads[t]) then None else s.tailLock
    requires s'.headLock == if InHead(pc) then Some(t) else if InHead(s.threads[t]) then None else s.headLock
    requires InTail(pc) && !InTail(s.threads[t]) ==> s.tailLock.None?
    requires InHead(pc) && !InHead(s.threads[t]) ==> s.headLock.None?
    ensures Inv(s', nodes)
  {
    hide Listed, Placed, Locked, Sound, TailKnown, Contents, Replay, InTail, InHead, Owned;
    MovePlaced(s.mem.heap, s.threads, nodes, t, pc);
    MoveLocked(s, nodes, t, pc, s'.headLock, s'.tailLock);
  }

  // A fresh node belongs to its creator alone; the list does not see it.
  lemma CreateInv<T>(s: State<T>, nodes: seq<Addr>, t: Tid, a: Addr, v: T)
    requires Inv(s, nodes) && t in s.threads && s.threads[t].Creating? && a !in s.mem.heap
    ensures Inv(Goto(s.(mem := s.mem.(heap := s.mem.heap[a := Node(Some(v), None)])), t, TailLocking(a)), nodes)
  {
    var s' := Goto(s.(mem := s.mem.(heap := s.mem.heap[a := Node(Some(v), None)])), t, TailLocking(a));
    CreateListed(s.mem, nodes, a, Node(Some(v), None));
    CreatePlaced(s.mem.heap, s.threads, nodes, t, a, Node(Some(v), None));
    CreateSounds(s.mem, nodes, s.threads, t, a, v);
    LockedMove(s.threads, s.headLock, s.tailLock, t, TailLocking(a));
  }

  lemma CreateSounds<T>(m: Memory<T>, nodes: seq<Addr>, threads: map<Tid, Pc<T>>, t: Tid, a: Addr, v: T)
    requires Listed(m, nodes) && Sounds(m, nodes, threads) && t in threads && a !in m.heap
    ensures Sounds(m.(heap := m.heap[a := Node(Some(v), None)]), nodes, threads[t := TailLocking(a)])
  {
    var m' := m.(heap := m.heap[a := Node(Some(v), None)]);
    forall u | u in threads && u != t ensures Sound(m', nodes, threads[u]) {
      assert Sound(m, nodes, threads[u]);
    }
  }

  lemma CreateListed<T>(m: Memory<T>, nodes: seq<Addr>, a: Addr, node: Node<T>)
    requires Listed(m, nodes) && a !in m.heap
    ensures
      var m' := m.(heap := m.heap[a := node]);
      Listed(m', nodes) && Contents(m', nodes) == Contents(m, nodes)
  {
    var m' := m.(heap := m.heap[a := node]);
    assert forall k :: 0 <= k < |nodes| ==> nodes[k] in m'.heap && m'.heap[nodes[k]] == m.heap[nodes[k]];
  }

  lemma CreatePlaced<T>(heap: map<Addr, Node<T>>, threads: map<Tid, Pc<T>>, nodes: seq<Addr>, t: Tid, a: Addr,
        node: Node<T>)
    requires Placed(heap, threads, nodes) && t in threads && threads[t].Creating? && a !in heap
    requires forall k :: 0 <= k < |nodes| ==> nodes[k] in heap
    ensures Placed(heap[a := node], threads[t := TailLocking(a)], nodes)
  {
    forall b ensures OwnedBySome(threads[t := TailLocking(a)], b) <==> b == a || OwnedBySome(threads, b) {
      OwnedAfter(threads, t, TailLocking(a), b);
    }
    var heap', threads' := heap[a := node], threads[t := TailLocking(a)];
    assert a !in nodes && Owned(threads'[t]) == Some(a);
    assert forall u :: u in threads' && u != t ==> u in threads && threads'[u] == threads[u];
    assert forall u :: u in threads && Owned(threads[u]).Some? ==> Owned(threads[u]).value != a;
    assert forall b :: b in heap' ==> (b in nodes <==> !OwnedBySome(threads', b));
    assert forall u :: u in threads' && Owned(threads'[u]).Some? ==> Owned(threads'[u]).value in heap';
  }

  // The enqueuer's first write: the node becomes the last one, and the enqueue takes effect.
  lemma LinkInv<T>(s: State<T>, nodes: seq<Addr>, t: Tid, c: Choice<T>)
    requires Inv(s, nodes) && t in s.threads && s.threads[t].Linking?
    ensures Inv(Step(s, t, c), nodes + [s.threads[t].n])
  {
    var n := s.threads[t].n;
    assert Sound(s.mem, nodes, s.threads[t]);
    assert s.mem.tail == nodes[|nodes| - 1];
    assert n !in nodes by { assert OwnedBySome(s.threads, n); }
    var s' := Step(s, t, c);
    LinkListed(s.mem, nodes, n);
    LinkPlaced(s, nodes, t, s');
    LinkSound(s, nodes, t, s');
    LockedMove(s.threads, s.headLock, s.tailLock, t, Tailing(n));
    ReplaySnoc(s.history, Enqueued(t, s.mem.heap[n].value.value));
  }

  lemma LinkListed<T>(m: Memory<T>, nodes: seq<Addr>, n: Addr)
    requires Listed(m, nodes) && Fresh(m, n) && n !in nodes
    ensures Listed(SetNext(m, nodes[|nodes| - 1], n), nodes + [n])
    ensures Contents(SetNext(m, nodes[|nodes| - 1], n), nodes + [n]) == Contents(m, nodes) + [m.heap[n].value.value]
  {
  }

  lemma LinkPlaced<T>(s: State<T>, nodes: seq<Addr>, t: Tid, s': State<T>)
    requires Listed(s.mem, nodes) && Placed(s.mem.heap, s.threads, nodes) && t in s.threads
    requires s.threads[t].Linking? && s.threads[t].n in s.mem.heap
    requires s'.mem == SetNext(s.mem, nodes[|nodes| - 1], s.threads[t].n)
    requires s'.threads == s.threads[t := Tailing(s.threads[t].n)]
    ensures Placed(s'.mem.heap, s'.threads, nodes + [s.threads[t].n])
  {
    forall a | a in s'.mem.heap ensures a in nodes + [s.threads[t].n] <==> !OwnedBySome(s'.threads, a) {
      OwnedAfter(s.threads, t, s'.threads[t], a);
    }
  }

  lemma LinkSound<T>(s: State<T>, nodes: seq<Addr>, t: Tid, s': State<T>)
    requires Inv(s, nodes) && t in s.threads && s.threads[t].Linking?
    requires s'.mem == SetNext(s.mem, nodes[|nodes| - 1], s.threads[t].n)
    requires s'.threads == s.threads[t := Tailing(s.threads[t].n)]
    requires Listed(s'.mem, nodes + [s.threads[t].n])
    ensures Sounds(s'.mem, nodes + [s.threads[t].n], s'.threads)
  {
    forall u | u in s'.threads ensures Sound(s'.mem, nodes + [s.threads[t].n], s'.threads[u]) {
      if u != t {
        assert Sound(s.mem, nodes, s.threads[u]);
        assert !s.threads[u].Tailing?;
        if s.threads[u].TailLocking? { assert OwnedBySome(s.threads, s.threads[u].n); }
      }
    }
  }

  // The enqueuer's second write: `tail_`, which may have been dangling, is the last node again.
  lemma TailInv<T>(s: State<T>, nodes: seq<Addr>, t: Tid, c: Choice<T>)
    requires Inv(s, nodes) && t in s.threads && s.threads[t].Tailing?
    ensures Inv(Step(s, t, c), nodes)
  {
    OwnPart(s, nodes, t);
    hide Placed, Locked, Replay, Contents;
    MovePlaced(s.mem.heap, s.threads, nodes, t, TailUnlocking);
    LockedMove(s.threads, s.headLock, s.tailLock, t, TailUnlocking);
    TailSame(s.mem, nodes, s.threads, t, s.threads[t].n);
  }

  lemma TailSame<T>(m: Memory<T>, nodes: seq<Addr>, threads: map<Tid, Pc<T>>, t: Tid, n: Addr)
    requires Listed(m, nodes) && Sounds(m, nodes, threads) && t in threads
    ensures Listed(m.(tail := n), nodes) && Contents(m.(tail := n), nodes) == Contents(m, nodes)
    ensures Sounds(m.(tail := n), nodes, threads[t := TailUnlocking])
  {
    forall u | u in threads && u != t ensures Sound(m.(tail := n), nodes, threads[u]) {
      assert Sound(m, nodes, threads[u]);
    }
    assert Contents(m.(tail := n), nodes) == Contents(m, nodes);
  }

  // The dequeuer's write: the first node becomes the sentinel, and the dequeue takes effect.
  lemma HeadInv<T>(s: State<T>, nodes: seq<Addr>, t: Tid, c: Choice<T>)
    requires Inv(s, nodes) && t in s.threads && s.threads[t].Heading?
    ensures nodes != [] && Inv(Step(s, t, c), nodes[1..])
  {
    hide Listed, Placed, Locked, Sounds, Contents, Replay, InTail, InHead;
    OwnPart(s, nodes, t);
    var got, s' := s.threads[t].got, Step(s, t, c);
    HeadListed(s.mem, nodes, nodes[1]);
    HeadPlaced(s.mem, s.threads, nodes, t, s'.threads[t]);
    HeadSound(s, nodes, t, s');
    HeadLocked(s.threads, s.headLock, s.tailLock, t, s'.threads[t]);
    ReplaySnoc(s.history, Dequeued(t, got));
  }

  lemma HeadLocked<T>(threads: map<Tid, Pc<T>>, headLock: Option<Tid>, tailLock: Option<Tid>, t: Tid, pc: Pc<T>)
    requires Locked(threads, headLock, tailLock) && t in threads && threads[t].Heading? && pc.HeadUnlocking?
    ensures Locked(threads[t := pc], headLock, tailLock)
    ensures tailLock != Some(t)
  {
    LockedMove(threads, headLock, tailLock, t, pc);
  }

  lemma HeadListed<T>(m: Memory<T>, nodes: seq<Addr>, first: Addr)
    requires Listed(m, nodes) && |nodes| > 1 && first == nodes[1]
    ensures nodes[0] == m.head && first in m.heap && m.heap[first].value == Some(Contents(m, nodes)[0])
    ensures Listed(m.(head := first), nodes[1..])
    ensures Contents(m.(head := first), nodes[1..]) == Contents(m, nodes)[1..]
  {
  }

  lemma HeadSound<T>(s: State<T>, nodes: seq<Addr>, t: Tid, s': State<T>)
    requires Inv(s, nodes) && t in s.threads && s.threads[t].Heading?
    requires |nodes| > 1 && s'.mem == s.mem.(head := nodes[1]) && Listed(s'.mem, nodes[1..])
    requires s'.threads == s.threads[t := HeadUnlocking(Some(s.mem.head))]
    ensures Sounds(s'.mem, nodes[1..], s'.threads)
  {
    forall u | u in s'.threads ensures Sound(s'.mem, nodes[1..], s'.threads[u]) {
      if u != t {
        assert Sound(s.mem, nodes, s.threads[u]);
        assert !InHead(s.threads[u]);
      }
    }
  }

  lemma HeadPlaced<T>(m: Memory<T>, threads: map<Tid, Pc<T>>, nodes: seq<Addr>, t: Tid, pc: Pc<T>)
    requires Listed(m, nodes) && Placed(m.heap, threads, nodes) && t in threads && Owned(threads[t]) == None
    requires Owned(pc) == Some(nodes[0])
    ensures Placed(m.heap, threads[t := pc], nodes[1..])
  {
    forall a ensures OwnedBySome(threads[t := pc], a) <==> a == nodes[0] || OwnedBySome(threads, a) {
      OwnedAfter(threads, t, pc, a);
    }
    assert nodes[0] in nodes;
    assert nodes == [nodes[0]] + nodes[1..];
  }

  // The old sentinel is deleted: nobody else can reach it.
  lemma DeleteInv<T>(s: State<T>, nodes: seq<Addr>, t: Tid)
    requires Inv(s, nodes) && t in s.threads && s.threads[t].Deleting?
    ensures s.threads[t].dead in s.mem.heap
    ensures Inv(Goto(s.(mem := s.mem.(heap := s.mem.heap - {s.threads[t].dead})), t, Idle), nodes)
  {
    var dead := s.threads[t].dead;
    assert dead in s.mem.heap && dead !in nodes by { assert OwnedBySome(s.threads, dead); }
    var s' := Goto(s.(mem := s.mem.(heap := s.mem.heap - {dead})), t, Idle);
    DeleteListed(s.mem, nodes, dead);
    DeletePlaced(s.mem.heap, s.threads, nodes, t);
    DeleteSound(s, nodes, t, s');
    LockedMove(s.threads, s.headLock, s.tailLock, t, Idle);
  }

  lemma DeleteListed<T>(m: Memory<T>, nodes: seq<Addr>, dead: Addr)
    requires Listed(m, nodes) && dead !in nodes
    ensures
      var m' := m.(heap := m.heap - {dead});
      Listed(m', nodes) && Contents(m', nodes) == Contents(m, nodes)
  {
    var m' := m.(heap := m.heap - {dead});
    assert forall k :: 0 <= k < |nodes| ==> nodes[k] in m'.heap && m'.heap[nodes[k]] == m.heap[nodes[k]];
  }

  lemma DeletePlaced<T>(heap: map<Addr, Node<T>>, threads: map<Tid, Pc<T>>, nodes: seq<Addr>, t: Tid)
    requires Placed(heap, threads, nodes) && t in threads && threads[t].Deleting?
    ensures Placed(heap - {threads[t].dead}, threads[t := Idle], nodes)
  {
    forall a ensures a != threads[t].dead ==> (OwnedBySome(threads[t := Idle], a) <==> OwnedBySome(threads, a)) {
      OwnedAfter(threads, t, Idle, a);
    }
  }

  lemma DeleteSound<T>(s: State<T>, nodes: seq<Addr>, t: Tid, s': State<T>)
    requires Inv(s, nodes) && t in s.threads && s.threads[t].Deleting?
    requires s'.mem == s.mem.(heap := s.mem.heap - {s.threads[t].dead}) && Listed(s'.mem, nodes)
    requires s'.threads == s.threads[t := Idle]
    ensures Sounds(s'.mem, nodes, s'.threads)
  {
    forall u | u in s'.threads ensures Sound(s'.mem, nodes, s'.threads[u]) {
      if u != t {
        assert Sound(s.mem, nodes, s.threads[u]);
        assert Owned(s.threads[u]) != Some(s.threads[t].dead);
      }
    }
  }

  lemma EnqueueStepInv<T>(s: State<T>, nodes: seq<Addr>, t: Tid, c: Choice<T>) returns (nodes': seq<Addr>)
    requires Inv(s, nodes) && t in s.threads
    requires s.threads[t].Creating? || s.threads[t].TailLocking? || InTail(s.threads[t])
    ensures Inv(Step(s, t, c), nodes')
  {
    nodes' := nodes;
    var s' := Step(s, t, c);
    assert Sound(s.mem, nodes, s.threads[t]);
    match s.threads[t]
    case Creating(v) => if c.Go? && c.a !in s.mem.heap { CreateInv(s, nodes, t, c.a, v); }
    case TailLocking(n) => if s.tailLock.None? { MoveInv(s, nodes, t, Linking(n), s'); }
    case Linking(n) => LinkInv(s, nodes, t, c); nodes' := nodes + [n];
    case Tailing(n) => TailInv(s, nodes, t, c);
    case TailUnlocking => MoveInv(s, nodes, t, Idle, s');
  }

  lemma DequeueStepInv<T>(s: State<T>, nodes: seq<Addr>, t: Tid, c: Choice<T>)
    requires Inv(s, nodes) && t in s.threads
    requires s.threads[t].Idle? || s.threads[t].HeadLocking? || s.threads[t].ReadingNext? || s.threads[t].ReadingValue?
    ensures Inv(Step(s, t, c), nodes)
  {
    var s' := Step(s, t, c);
    assert Sound(s.mem, nodes, s.threads[t]);
    match s.threads[t]
    case Idle => if !c.Go? { MoveInv(s, nodes, t, s'.threads[t], s'); }
    case HeadLocking => if s.headLock.None? { MoveInv(s, nodes, t, ReadingNext, s'); }
    case ReadingNext => ReadNextInv(s, nodes, t, c);
    case ReadingValue(first) => MoveInv(s, nodes, t, s'.threads[t], s');
  }

  // A dequeuer that reads a null `next` under its mutex has seen the queue empty.
  lemma ReadNextInv<T>(s: State<T>, nodes: seq<Addr>, t: Tid, c: Choice<T>)
    requires Inv(s, nodes) && t in s.threads && s.threads[t].ReadingNext?
    ensures Inv(Step(s, t, c), nodes)
  {
    hide Inv, Replay, Contents, Apply;
    OwnPart(s, nodes, t);
    if |nodes| == 1 {
      MoveInv(s, nodes, t, HeadUnlocking(None), Goto(s, t, HeadUnlocking(None)));
      FoundEmptyInv(Goto(s, t, HeadUnlocking(None)), nodes, t);
    } else {
      MoveInv(s, nodes, t, ReadingValue(nodes[1]), Goto(s, t, ReadingValue(nodes[1])));
    }
  }

  lemma FoundEmptyInv<T>(s: State<T>, nodes: seq<Addr>, t: Tid)
    requires Inv(s, nodes) && |nodes| == 1
    ensures Inv(Record(s, FoundEmpty(t)), nodes)
  {
    hide Listed, Placed, Locked, Sounds, TailKnown, Replay;
    ReplaySnoc(s.history, FoundEmpty(t));
  }

  lemma RetireStepInv<T>(s: State<T>, nodes: seq<Addr>, t: Tid, c: Choice<T>) returns (nodes': seq<Addr>)
    requires Inv(s, nodes) && t in s.threads
    requires s.threads[t].Heading? || s.threads[t].HeadUnlocking? || s.threads[t].Deleting?
    ensures Inv(Step(s, t, c), nodes')
  {
    hide Inv, Listed;
    nodes' := nodes;
    match s.threads[t]
    case Heading(first, got) => HeadInv(s, nodes, t, c); nodes' := nodes[1..];
    case HeadUnlocking(out) => HeadUnlockInv(s, nodes, t, c);
    case Deleting(dead) => DeleteInv(s, nodes, t);
  }

  lemma HeadUnlockInv<T>(s: State<T>, nodes: seq<Addr>, t: Tid, c: Choice<T>)
    requires Inv(s, nodes) && t in s.threads && s.threads[t].HeadUnlocking?
    ensures Inv(Step(s, t, c), nodes)
  {
    hide Inv, Listed, Replay, Contents;
    OwnPart(s, nodes, t);
    var s' := Step(s, t, c);
    MoveInv(s, nodes, t, s'.threads[t], s');
  }

  lemma StepInv<T>(s: State<T>, nodes: seq<Addr>, t: Tid, c: Choice<T>) returns (nodes': seq<Addr>)
    requires Inv(s, nodes) && t in s.threads
    ensures Inv(Step(s, t, c), nodes')
  {
    if s.threads[t].Creating? || s.threads[t].TailLocking? || InTail(s.threads[t]) {
      nodes' := EnqueueStepInv(s, nodes, t, c);
    } else if s.threads[t].Heading? || s.threads[t].HeadUnlocking? || s.threads[t].Deleting? {
      nodes' := RetireStepInv(s, nodes, t, c);
    } else {
      nodes' := nodes;
      DequeueStepInv(s, nodes, t, c);
    }
  }

  // ---------------------------------------------------------------- whole runs

  ghost predicate Trace<T>(trace: seq<State<T>>, schedule: seq<(Tid, Choice<T>)>) {
    && |trace| == |schedule| + 1 && Init(trace[0])
    && (forall k :: 0 <= k < |schedule| ==> Follows(trace[k], trace[k + 1], schedule[k]))
  }

  ghost predicate Follows<T>(s: State<T>, s': State<T>, move: (Tid, Choice<T>)) {
    move.0 in s.threads && s' == Step(s, move.0, move.1)
  }

  // Over every schedule the queue is a first-in-first-out sequence, changed exactly by the
  // enqueuers' link writes and the dequeuers' head writes.
  lemma {:induction false} EveryRunIsFifo<T>(trace: seq<State<T>>, schedule: seq<(Tid, Choice<T>)>, k: nat)
    returns (nodes: seq<Addr>)
    requires Trace(trace, schedule) && k <= |schedule|
    ensures Inv(trace[k], nodes)
    ensures Listed(trace[k].mem, nodes) && Replay(trace[k].history) == Some(Contents(trace[k].mem, nodes))
  {
    if k == 0 {
      InitInv(trace[0]);
      nodes := [trace[0].mem.head];
    } else {
      nodes := EveryRunIsFifo(trace, schedule, k - 1);
      assert Follows(trace[k - 1], trace[k], schedule[k - 1]);
      nodes := StepInv(trace[k - 1], nodes, schedule[k - 1].0, schedule[k - 1].1);
    }
  }

  // Although `tail_` may dangle, no step dereferences or deletes an address outside the heap.
  lemma NeverTouchesDeletedNode<T>(trace: seq<State<T>>, schedule: seq<(Tid, Choice<T>)>, k: nat)
    requires Trace(trace, schedule) && k <= |schedule|
    ensures !trace[k].fault
    ensures trace[k].mem.tail !in trace[k].mem.heap ==>
      exists t :: t in trace[k].threads && trace[k].threads[t].Tailing?
  {
    var nodes := EveryRunIsFifo(trace, schedule, k);
    assert Inv(trace[k], nodes);
  }

  // ---------------------------------------------------------------- calls and what they record

  function Actor<T>(e: Event<T>): Tid {
    match e
    case Enqueued(t, _) => t
    case Dequeued(t, _) => t
    case FoundEmpty(t) => t
  }

  // The latest call of a thread: the step that took it out of Idle.
  ghost function LastCall<T>(trace: seq<State<T>>, schedule: seq<(Tid, Choice<T>)>, k: nat, t: Tid): (j: Option<nat>)
    requires k <= |schedule| && |trace| == |schedule| + 1
    ensures j.Some? ==> j.value < k && schedule[j.value].0 == t && !schedule[j.value].1.Go?
  {
    if k == 0 then None
    else
      var (u, c) := schedule[k - 1];
      if u == t && t in trace[k - 1].threads && trace[k - 1].threads[t].Idle? && !c.Go? then Some(k - 1)
      else LastCall(trace, schedule, k - 1, t)
  }

  // The events of one thread among `h`.
  ghost function Own<T>(h: seq<Event<T>>, t: Tid): seq<Event<T>> {
    if h == [] then []
    else Own(h[..|h| - 1], t) + if Actor(h[|h| - 1]) == t then [h[|h| - 1]] else []
  }

  // The events that a thread has recorded since its latest call.
  ghost function Since<T>(trace: seq<State<T>>, schedule: seq<(Tid, Choice<T>)>, k: nat, t: Tid): seq<Event<T>>
    requires k <= |schedule| && |trace| == |schedule| + 1
  {
    var j := LastCall(trace, schedule, k, t);
    var from := if j.Some? then |trace[j.value].history| else 0;
    if from <= |trace[k].history| then Own(trace[k].history[from..], t) else []
  }

  // The node holds the value and can be dereferenced.
  ghost predicate Holds<T>(m: Memory<T>, n: Addr, v: T) { n in m.heap && m.heap[n].value == Some(v) }

  // What a thread that called Enqueue(v) has recorded, by where it is.
  ghost predicate ServesEnqueue<T>(m: Memory<T>, pc: Pc<T>, t: Tid, v: T, since: seq<Event<T>>) {
    match pc
    case Idle => since == [Enqueued(t, v)]
    case Creating(w) => w == v && since == []
    case TailLocking(n) => Holds(m, n, v) && since == []
    case Linking(n) => Holds(m, n, v) && since == []
    case Tailing(_) => since == [Enqueued(t, v)]
    case TailUnlocking => since == [Enqueued(t, v)]
    case _ => false
  }

  ghost predicate TookOne<T>(t: Tid, since: seq<Event<T>>) {
    |since| == 1 && since[0].Dequeued? && since[0].t == t
  }

  // ... or that called Dequeue.
  ghost predicate ServesDequeue<T>(pc: Pc<T>, t: Tid, since: seq<Event<T>>) {
    match pc
    case Idle => since == [FoundEmpty(t)] || TookOne(t, since)
    case HeadLocking => since == []
    case ReadingNext => since == []
    case ReadingValue(_) => since == []
    case Heading(_, _) => since == []
    case HeadUnlocking(out) => if out.None? then since == [FoundEmpty(t)] else TookOne(t, since)
    case Deleting(_) => TookOne(t, since)
    case _ => false
  }

  // The pc and the events of a thread since its call, as the call wants them.
  ghost predicate Serves<T>(trace: seq<State<T>>, schedule: seq<(Tid, Choice<T>)>, k: nat, t: Tid)
    requires k <= |schedule| && |trace| == |schedule| + 1 && t in trace[k].threads
  {
    var j, pc, since := LastCall(trace, schedule, k, t), trace[k].threads[t], Since(trace, schedule, k, t);
    if j.None? then pc.Idle? && since == []
    else if schedule[j.value].1.CallEnqueue?
    then ServesEnqueue(trace[k].mem, pc, t, schedule[j.value].1.v, since)
    else ServesDequeue(pc, t, since)
  }

  lemma OwnSnoc<T>(h: seq<Event<T>>, e: Event<T>, t: Tid)
    ensures Own(h + [e], t) == Own(h, t) + if Actor(e) == t then [e] else []
  {
    assert (h + [e])[..|h|] == h;
  }

  lemma NothingOwn<T>(t: Tid)
    ensures Own<T>([], t) == []
  {
  }

  // What a step adds to the history.
  ghost function News<T>(s: State<T>, s': State<T>): seq<Event<T>> {
    if |s.history| <= |s'.history| then s'.history[|s.history|..] else []
  }

  lemma StepNews<T>(s: State<T>, t: Tid, c: Choice<T>)
    requires t in s.threads
    ensures
      var s' := Step(s, t, c);
      && s'.history == s.history + News(s, s') && |News(s, s')| <= 1
      && forall e :: e in News(s, s') ==> Actor(e) == t
    ensures Step(s, t, c).threads.Keys == s.threads.Keys
    ensures forall u :: u in s.threads && u != t ==> Step(s, t, c).threads[u] == s.threads[u]
    ensures s.threads[t].Idle? ==> Step(s, t, c).history == s.history
  {
    OneNews(s, t, c);
    OneThread(s, t, c);
    hide Step;
    var s' := Step(s, t, c);
    if s'.history != s.history { assert News(s, s') == [s'.history[|s.history|]]; }
  }

  lemma OneNews<T>(s: State<T>, t: Tid, c: Choice<T>)
    requires t in s.threads
    ensures
      var s' := Step(s, t, c);
      || s'.history == s.history
      || (|s'.history| > |s.history| && Actor(s'.history[|s.history|]) == t
          && s'.history == s.history + [s'.history[|s.history|]])
    ensures s.threads[t].Idle? ==> Step(s, t, c).history == s.history
  {
  }

  lemma OneThread<T>(s: State<T>, t: Tid, c: Choice<T>)
    requires t in s.threads
    ensures Step(s, t, c).threads.Keys == s.threads.Keys
    ensures forall u :: u in s.threads && u != t ==> Step(s, t, c).threads[u] == s.threads[u]
  {
    var threads' := Step(s, t, c).threads;
    StepMoves(s, t, c);
    hide Step;
    forall u | u in s.threads && u != t ensures threads'[u] == s.threads[u] {}
  }

  lemma StepMoves<T>(s: State<T>, t: Tid, c: Choice<T>)
    requires t in s.threads
    ensures t in Step(s, t, c).threads
    ensures Step(s, t, c).threads == s.threads[t := Step(s, t, c).threads[t]]
  {
    assert s.threads == s.threads[t := s.threads[t]];
  }

  lemma {:induction false} HistoryGrows<T>(trace: seq<State<T>>, schedule: seq<(Tid, Choice<T>)>, j: nat, k: nat)
    requires Trace(trace, schedule) && j <= k <= |schedule|
    ensures trace[j].history <= trace[k].history
  {
    hide Step, Init, News;
    if j < k {
      HistoryGrows(trace, schedule, j, k - 1);
      assert Follows(trace[k - 1], trace[k], schedule[k - 1]);
      StepNews(trace[k - 1], schedule[k - 1].0, schedule[k - 1].1);
    }
  }

  // Without a call in it, a step adds its own event to those of its thread.
  lemma SinceStep<T>(trace: seq<State<T>>, schedule: seq<(Tid, Choice<T>)>, k: nat, t: Tid)
    requires Trace(trace, schedule) && 0 < k <= |schedule|
    requires LastCall(trace, schedule, k, t) == LastCall(trace, schedule, k - 1, t)
    ensures
      var news := News(trace[k - 1], trace[k]);
      Since(trace, schedule, k, t) ==
        Since(trace, schedule, k - 1, t) + if schedule[k - 1].0 == t then news else []
  {
    hide Step, Init, LastCall, Own;
    var j := LastCall(trace, schedule, k, t);
    var from := if j.Some? then |trace[j.value].history| else 0;
    if j.Some? { HistoryGrows(trace, schedule, j.value, k - 1); }
    assert Follows(trace[k - 1], trace[k], schedule[k - 1]);
    StepNews(trace[k - 1], schedule[k - 1].0, schedule[k - 1].1);
    var h, news := trace[k - 1].history, News(trace[k - 1], trace[k]);
    assert (h + news)[from..] == h[from..] + news;
    if |news| == 1 {
      assert news == [news[0]];
      OwnSnoc(h[from..], news[0], t);
    } else {
      assert h[from..] + news == h[from..];
    }
  }

  // Another thread's step leaves the value of a thread's own node alone.
  lemma NodeKept<T>(s: State<T>, nodes: seq<Addr>, u: Tid, c: Choice<T>, t: Tid, v: T)
    requires Inv(s, nodes) && u in s.threads && t in s.threads && u != t
    requires s.threads[t].TailLocking? || s.threads[t].Linking?
    requires Holds(s.mem, s.threads[t].n, v)
    ensures Holds(Step(s, u, c).mem, s.threads[t].n, v)
  {
    hide Listed, Locked, Sounds, TailKnown, Replay, Contents, OwnedBySome;
    assert Owned(s.threads[t]) == Some(s.threads[t].n);
    assert Owned(s.threads[u]) != Owned(s.threads[t]);
  }

  lemma EnqueueStepServes<T>(s: State<T>, t: Tid, c: Choice<T>, v: T, since: seq<Event<T>>)
    requires t in s.threads && ServesEnqueue(s.mem, s.threads[t], t, v, since)
    requires s.threads[t].Idle? ==> c.Go?
    ensures
      var s' := Step(s, t, c);
      t in s'.threads && ServesEnqueue(s'.mem, s'.threads[t], t, v, since + News(s, s'))
  {
    var s' := Step(s, t, c);
    assert s'.history == s.history ==> since + News(s, s') == since;
    assert s'.history == s.history + [Enqueued(t, v)] ==> News(s, s') == [Enqueued(t, v)];
  }

  lemma DequeueStepServes<T>(s: State<T>, t: Tid, c: Choice<T>, since: seq<Event<T>>)
    requires t in s.threads && ServesDequeue(s.threads[t], t, since)
    requires s.threads[t].Idle? ==> c.Go?
    ensures
      var s' := Step(s, t, c);
      t in s'.threads && ServesDequeue(s'.threads[t], t, since + News(s, s'))
  {
    var s' := Step(s, t, c);
    assert s'.history == s.history ==> since + News(s, s') == since;
    assert forall e :: s'.history == s.history + [e] ==> News(s, s') == [e];
  }

  // Every moment of every call, in every interleaving.
  lemma {:induction false} EveryCallServed<T>(trace: seq<State<T>>, schedule: seq<(Tid, Choice<T>)>, k: nat, t: Tid)
    requires Trace(trace, schedule) && k <= |schedule| && t in trace[k].threads
    ensures Serves(trace, schedule, k, t)
  {
    hide ServesEnqueue, ServesDequeue, Own, Step;
    NothingOwn<T>(t);
    if k == 0 {
      assert trace[0].history[0..] == [];
    } else {
      var (u, c) := schedule[k - 1];
      assert Follows(trace[k - 1], trace[k], schedule[k - 1]);
      StepNews(trace[k - 1], u, c);
      EveryCallServed(trace, schedule, k - 1, t);
      if u == t && trace[k - 1].threads[t].Idle? && !c.Go? {
        CallServed(trace, schedule, k, t);
      } else {
        StepServed(trace, schedule, k, t);
      }
    }
  }

  // A call has recorded nothing yet.
  lemma CallServed<T>(trace: seq<State<T>>, schedule: seq<(Tid, Choice<T>)>, k: nat, t: Tid)
    requires Trace(trace, schedule) && 0 < k <= |schedule| && t in trace[k].threads && t in trace[k - 1].threads
    requires schedule[k - 1].0 == t && trace[k - 1].threads[t].Idle? && !schedule[k - 1].1.Go?
    ensures Serves(trace, schedule, k, t)
  {
    hide Own;
    assert Follows(trace[k - 1], trace[k], schedule[k - 1]);
    assert trace[k].history[|trace[k - 1].history|..] == [];
    NothingOwn<T>(t);
  }

  lemma StepServed<T>(trace: seq<State<T>>, schedule: seq<(Tid, Choice<T>)>, k: nat, t: Tid)
    requires Trace(trace, schedule) && 0 < k <= |schedule| && t in trace[k].threads && t in trace[k - 1].threads
    requires LastCall(trace, schedule, k, t) == LastCall(trace, schedule, k - 1, t)
    requires schedule[k - 1].0 == t && trace[k - 1].threads[t].Idle? ==> schedule[k - 1].1.Go?
    requires Serves(trace, schedule, k - 1, t)
    ensures Serves(trace, schedule, k, t)
  {
    hide Step, ServesEnqueue, ServesDequeue, Since, LastCall, News, Inv;
    var (u, c) := schedule[k - 1];
    var s, s' := trace[k - 1], trace[k];
    var j := LastCall(trace, schedule, k, t);
    assert Follows(s, s', schedule[k - 1]);
    SinceStep(trace, schedule, k, t);
    StepNews(s, u, c);
    if u != t {
      assert Since(trace, schedule, k - 1, t) + [] == Since(trace, schedule, k - 1, t);
      var nodes := EveryRunIsFifo(trace, schedule, k - 1);
      if j.Some? && schedule[j.value].1.CallEnqueue? {
        OtherServes(s, nodes, u, c, t, schedule[j.value].1.v, Since(trace, schedule, k - 1, t));
      }
    } else if j.None? {
      IdleStays(s, t, c);
    } else if schedule[j.value].1.CallEnqueue? {
      EnqueueStepServes(s, t, c, schedule[j.value].1.v, Since(trace, schedule, k - 1, t));
    } else {
      DequeueStepServes(s, t, c, Since(trace, schedule, k - 1, t));
    }
  }

  lemma OtherServes<T>(s: State<T>, nodes: seq<Addr>, u: Tid, c: Choice<T>, t: Tid, v: T, since: seq<Event<T>>)
    requires Inv(s, nodes) && u in s.threads && t in s.threads && u != t
    requires ServesEnqueue(s.mem, s.threads[t], t, v, since)
    ensures ServesEnqueue(Step(s, u, c).mem, s.threads[t], t, v, since)
  {
    hide Inv, Step, Holds;
    if s.threads[t].TailLocking? || s.threads[t].Linking? { NodeKept(s, nodes, u, c, t, v); }
  }

  lemma IdleStays<T>(s: State<T>, t: Tid, c: Choice<T>)
    requires t in s.threads && s.threads[t].Idle? && c.Go?
    ensures Step(s, t, c) == s && News(s, s) == []
  {
  }

  // A call that has returned: Enqueue(v) has enqueued v once; Dequeue has recorded the one thing
  // it did, a dequeue or that it found the queue empty.
  lemma CallReturned<T>(trace: seq<State<T>>, schedule: seq<(Tid, Choice<T>)>, k: nat, t: Tid)
    requires Trace(trace, schedule) && k <= |schedule| && t in trace[k].threads && trace[k].threads[t].Idle?
    requires LastCall(trace, schedule, k, t).Some?
    ensures
      var call, since := schedule[LastCall(trace, schedule, k, t).value].1, Since(trace, schedule, k, t);
      && (call.CallEnqueue? ==> since == [Enqueued(t, call.v)])
      && (call.CallDequeue? ==> since == [FoundEmpty(t)] || exists got :: since == [Dequeued(t, got)])
  {
    hide Since, LastCall;
    EveryCallServed(trace, schedule, k, t);
    var since := Since(trace, schedule, k, t);
    if TookOne(t, since) { assert since == [Dequeued(t, since[0].got)]; }
  }

  // Whatever is recorded was asked for: the value enqueued is the argument of the thread's call.
  lemma EventWasCalled<T>(trace: seq<State<T>>, schedule: seq<(Tid, Choice<T>)>, k: nat, e: Event<T>)
    requires Trace(trace, schedule) && k < |schedule| && trace[k + 1].history == trace[k].history + [e]
    ensures schedule[k].0 == Actor(e) && LastCall(trace, schedule, k, Actor(e)).Some?
    ensures
      var call := schedule[LastCall(trace, schedule, k, Actor(e)).value].1;
      if e.Enqueued? then call == CallEnqueue(e.v) else call == CallDequeue
  {
    hide Since, Step;
    var (t, c) := schedule[k];
    assert Follows(trace[k], trace[k + 1], schedule[k]);
    StepNews(trace[k], t, c);
    assert |trace[k + 1].history| == |trace[k].history| + 1;
    assert !trace[k].threads[t].Idle?;
    assert News(trace[k], trace[k + 1]) == [e];
    assert e in News(trace[k], trace[k + 1]);
    assert t == Actor(e);
    hide News;
    EveryCallServed(trace, schedule, k, t);
    assert LastCall(trace, schedule, k, t).Some?;
    EveryCallServed(trace, schedule, k + 1, t);
    SinceStep(trace, schedule, k + 1, t);
    assert e in Since(trace, schedule, k + 1, t);
  }

  // With every thread outside, the heap holds the list and nothing else.
  lemma QuiescentHeapIsTheList<T>(trace: seq<State<T>>, schedule: seq<(Tid, Choice<T>)>, k: nat)
    returns (nodes: seq<Addr>)
    requires Trace(trace, schedule) && k <= |schedule|
    requires forall t :: t in trace[k].threads ==> trace[k].threads[t].Idle?
    ensures Listed(trace[k].mem, nodes) && forall a :: a in trace[k].mem.heap <==> a in nodes
  {
    nodes := EveryRunIsFifo(trace, schedule, k);
    forall a | a in trace[k].mem.heap ensures a in nodes {
      assert !OwnedBySome(trace[k].threads, a);
    }
  }
}
