/**
 The bounded lock-free stack: two compare-and-swap lists, `head_` (the stack) and `free_`
 (the unused nodes), threaded through one node buffer and protected by a tag that every
 successful compare-and-swap increments.

 The machine is concrete: one shared state, one program counter a thread, one atomic action a
 step.  A schedule is any sequence of (thread, choice) pairs, so the theorems below are about
 every interleaving of any number of threads.
 */
module LockFreeStack {
  import opened Options

  type Tid = nat

  // A `Node*`: null, or the address of an element of the node buffer.
  datatype Link = Null | At(i: nat)

  // The two words swapped together.
  datatype Head = Head(tag: nat, node: Link)

  // Which of the two atomic heads an operation works on.
  datatype Which = OnStack | OnFree

  // The operation a thread is inside: `Push(v)` or `Pop()`.
  datatype Job<T> = Pushing(v: T) | Popping

  // Program counters.  `lin` is the value that the history recorded when a Pop succeeded.
  datatype Pc<T> =
    | Idle
    | Loading(job: Job<T>)                                   // PopHead: about to load the head
    | Loaded(job: Job<T>, seen: Head)                         // PopHead: about to read seen.node->next
    | Linked(job: Job<T>, seen: Head, nx: Link)               // PopHead: about to compare-and-swap
    | Filling(n: nat, v: T)                                  // Push: about to write the value
    | Uncounting(n: nat, lin: T)                             // Pop: about to decrement size_
    | Reading(n: nat, lin: T)                                // Pop: about to read the value
    | PutLoading(w: Which, n: nat, v: T, lin: T)             // PushHead: about to load the head
    | PutLinking(w: Which, n: nat, v: T, lin: T, seen: Head)  // PushHead: about to write node->next
    | PutSwapping(w: Which, n: nat, v: T, lin: T, seen: Head) // PushHead: about to compare-and-swap
    | Counting                                               // Push: about to increment size_

  // What the operations did, in the order of their effects on `head_`.
  datatype Event<T> = Pushed(t: Tid, v: T) | Popped(t: Tid, v: T) | FoundEmpty(t: Tid)

  // The node buffer and the two atomic heads.
  datatype Memory<T> = Memory(next: seq<Link>, value: seq<T>, head: Head, free: Head)

  datatype State<T> = State(
    mem: Memory<T>,
    size: int,
    threads: map<Tid, Pc<T>>,
    history: seq<Event<T>>)

  // What a scheduled thread may choose.  A compare-and-swap may also fail spuriously.
  datatype Choice<T> = CallPush(v: T) | CallPop | Go | FailSpuriously

  // ---------------------------------------------------------------- the machine

  function HeadOf<T>(m: Memory<T>, w: Which): Head {
    if w.OnStack? then m.head else m.free
  }

  function SetHead<T>(m: Memory<T>, w: Which, h: Head): Memory<T> {
    if w.OnStack? then m.(head := h) else m.(free := h)
  }

  // The list PopHead works on: Push takes its node from `free_`, Pop from `head_`.
  function Source<T>(job: Job<T>): Which {
    if job.Pushing? then OnFree else OnStack
  }

  function Goto<T>(s: State<T>, t: Tid, pc: Pc<T>): State<T> {
    s.(threads := s.threads[t := pc])
  }

  // The top of PopHead's loop, with `h` just observed: a null head ends the call.
  function Observe<T>(s: State<T>, t: Tid, job: Job<T>, h: Head): State<T> {
    if h.node.At? then Goto(s, t, Loaded(job, h))
    else if job.Popping? then Goto(s, t, Idle).(history := s.history + [FoundEmpty(t)])
    else Goto(s, t, Idle)
  }

  function TakeNode<T>(s: State<T>, t: Tid, job: Job<T>, seen: Head, nx: Link): State<T>
    requires seen.node.At? && seen.node.i < |s.mem.value|
  {
    var n := seen.node.i;
    var s1 := s.(mem := SetHead(s.mem, Source(job), Head(seen.tag + 1, nx)));
    if job.Pushing? then Goto(s1, t, Filling(n, job.v))
    else
      var v := s.mem.value[n];
      Goto(s1, t, Uncounting(n, v)).(history := s.history + [Popped(t, v)])
  }

  function PutNode<T>(s: State<T>, t: Tid, w: Which, n: nat, v: T, seen: Head): State<T> {
    var s1 := s.(mem := SetHead(s.mem, w, Head(seen.tag + 1, At(n))));
    if w.OnStack? then Goto(s1, t, Counting).(history := s.history + [Pushed(t, v)])
    else Goto(s1, t, Idle)
  }

  ghost predicate InRange<T>(n: nat, pc: Pc<T>) {
    match pc
    case Loaded(_, seen) => seen.node.At? && seen.node.i < n
    case Linked(_, seen, _) => seen.node.At? && seen.node.i < n
    case Filling(i, _) => i < n
    case Uncounting(i, _) => i < n
    case Reading(i, _) => i < n
    case PutLoading(_, i, _, _) => i < n
    case PutLinking(_, i, _, _, _) => i < n
    case PutSwapping(_, i, _, _, _) => i < n
    case _ => true
  }

  // Every address a thread holds is inside the buffer.
  ghost predicate Addressable<T>(s: State<T>) {
    && |s.mem.next| == |s.mem.value|
    && forall t :: t in s.threads ==> InRange(|s.mem.next|, s.threads[t])
  }

  // One atomic action of thread `t`.
  function Step<T>(s: State<T>, t: Tid, c: Choice<T>): State<T>
    requires Addressable(s) && t in s.threads
  {
    match s.threads[t]
    case Idle =>
      if c.CallPush? then Goto(s, t, Loading(Pushing(c.v)))
      else if c.CallPop? then Goto(s, t, Loading(Popping))
      else s
    case Loading(job) => Observe(s, t, job, HeadOf(s.mem, Source(job)))
    case Loaded(job, seen) => Goto(s, t, Linked(job, seen, s.mem.next[seen.node.i]))
    case Linked(job, seen, nx) =>
      var h := HeadOf(s.mem, Source(job));
      if h == seen && !c.FailSpuriously? then TakeNode(s, t, job, seen, nx)
      else Observe(s, t, job, h)
    case Filling(n, v) =>
      Goto(s.(mem := s.mem.(value := s.mem.value[n := v])), t, PutLoading(OnStack, n, v, v))
    case Uncounting(n, lin) => Goto(s.(size := s.size - 1), t, Reading(n, lin))
    case Reading(n, lin) => Goto(s, t, PutLoading(OnFree, n, s.mem.value[n], lin))
    case PutLoading(w, n, v, lin) => Goto(s, t, PutLinking(w, n, v, lin, HeadOf(s.mem, w)))
    case PutLinking(w, n, v, lin, seen) =>
      Goto(s.(mem := s.mem.(next := s.mem.next[n := seen.node])), t, PutSwapping(w, n, v, lin, seen))
    case PutSwapping(w, n, v, lin, seen) =>
      var h := HeadOf(s.mem, w);
      if h == seen && !c.FailSpuriously? then PutNode(s, t, w, n, v, seen)
      else Goto(s, t, PutLinking(w, n, v, lin, h))
    case Counting => Goto(s.(size := s.size + 1), t, Idle)
  }

  // ---------------------------------------------------------------- construction

  // The constructor's loop: every node points to the following one, the last to null.
  method BuildFreeList(maxsize: nat) returns (next: array<Link>)
    requires maxsize >= 1
    ensures fresh(next) && next.Length == maxsize
    ensures Chain(next[..], At(0), Indices(0, maxsize))
  {
    next := new Link[maxsize](_ => Null);
    var i := 0;
    while i < maxsize - 1
      invariant 0 <= i <= maxsize - 1
      invariant forall k :: 0 <= k < i ==> next[k] == At(k + 1)
    {
      next[i] := At(i + 1);
      i := i + 1;
    }
    next[maxsize - 1] := Null;
    IndicesChain(next[..], 0);
  }

  ghost function Indices(from: nat, upto: nat): (xs: seq<nat>)
    requires from <= upto
  {
    seq(upto - from, k => from + k)
  }

  lemma {:induction false} IndicesChain(next: seq<Link>, from: nat)
    requires from < |next|
    requires forall k :: from <= k < |next| - 1 ==> next[k] == At(k + 1)
    requires next[|next| - 1] == Null
    ensures Chain(next, At(from), Indices(from, |next|))
    decreases |next| - from
  {
    if from < |next| - 1 {
      assert Indices(from, |next|)[1..] == Indices(from + 1, |next|);
      IndicesChain(next, from + 1);
    }
  }

  // The state the constructor leaves, with every thread outside the stack.
  ghost predicate Init<T>(s: State<T>) {
    && |s.mem.next| == |s.mem.value| && |s.mem.next| >= 1
    && Chain(s.mem.next, At(0), Indices(0, |s.mem.next|))
    && s.mem.head == Head(0, Null) && s.mem.free == Head(0, At(0))
    && s.size == 0 && s.history == []
    && forall t :: t in s.threads ==> s.threads[t] == Idle
  }

  // ---------------------------------------------------------------- what the lists are

  // `xs` are the nodes met by following `next` from `l` until null.
  ghost predicate Chain(next: seq<Link>, l: Link, xs: seq<nat>)
    decreases |xs|
  {
    if xs == [] then l == Null
    else l == At(xs[0]) && xs[0] < |next| && Chain(next, next[xs[0]], xs[1..])
  }

  lemma {:induction false} ChainFrame(next: seq<Link>, l: Link, xs: seq<nat>, n: nat, x: Link)
    requires Chain(next, l, xs) && n < |next| && n !in xs
    ensures Chain(next[n := x], l, xs)
    decreases |xs|
  {
    if xs != [] { ChainFrame(next, next[xs[0]], xs[1..], n, x); }
  }

  lemma {:induction false} ChainBounded(next: seq<Link>, l: Link, xs: seq<nat>, i: nat)
    requires Chain(next, l, xs) && i in xs
    ensures i < |next|
    decreases |xs|
  {
    if i != xs[0] { ChainBounded(next, next[xs[0]], xs[1..], i); }
  }

  // The node in a thread's hands.
  ghost function Hand<T>(pc: Pc<T>): Link {
    match pc
    case Filling(n, _) => At(n)
    case Uncounting(n, _) => At(n)
    case Reading(n, _) => At(n)
    case PutLoading(_, n, _, _) => At(n)
    case PutLinking(_, n, _, _, _) => At(n)
    case PutSwapping(_, n, _, _, _) => At(n)
    case _ => Null
  }

  ghost predicate HeldBySome<T>(threads: map<Tid, Pc<T>>, i: nat) {
    exists t :: t in threads && Hand(threads[t]) == At(i)
  }

  // Every node is in exactly one place: once in the lists, or in exactly one thread's hands.
  ghost predicate Partitioned<T>(threads: map<Tid, Pc<T>>, n: nat, lists: multiset<nat>) {
    && (forall i :: 0 <= i < n ==> lists[i] == if HeldBySome(threads, i) then 0 else 1)
    && (forall t, u :: t in threads && u in threads && t != u && Hand(threads[t]).At? ==>
          Hand(threads[t]) != Hand(threads[u]))
  }

  // What a pending compare-and-swap may rely on: an unchanged tag means an unchanged head, and
  // then the `next` read through it is still the node's `next`.
  ghost predicate Current<T>(m: Memory<T>, pc: Pc<T>)
    requires InRange(|m.next|, pc)
  {
    match pc
    case Loaded(job, seen) => NotAhead(HeadOf(m, Source(job)), seen)
    case Linked(job, seen, nx) =>
      && NotAhead(HeadOf(m, Source(job)), seen)
      && (seen == HeadOf(m, Source(job)) ==> nx == m.next[seen.node.i])
    case PutLinking(w, n, v, lin, seen) => NotAhead(HeadOf(m, w), seen)
    case PutSwapping(w, n, v, lin, seen) => NotAhead(HeadOf(m, w), seen) && m.next[n] == seen.node
    case _ => true
  }

  ghost predicate NotAhead(now: Head, seen: Head) {
    seen.tag <= now.tag && (seen.tag == now.tag ==> seen == now)
  }

  // The value a node in hand must carry.
  ghost predicate Carries<T>(m: Memory<T>, pc: Pc<T>)
    requires InRange(|m.value|, pc)
  {
    match pc
    case Uncounting(n, lin) => m.value[n] == lin
    case Reading(n, lin) => m.value[n] == lin
    case PutLoading(w, n, v, lin) => v == lin && (w.OnStack? ==> m.value[n] == v)
    case PutLinking(w, n, v, lin, _) => v == lin && (w.OnStack? ==> m.value[n] == v)
    case PutSwapping(w, n, v, lin, _) => v == lin && (w.OnStack? ==> m.value[n] == v)
    case _ => true
  }

  ghost predicate Sound<T>(m: Memory<T>, pc: Pc<T>) {
    |m.next| == |m.value| && InRange(|m.next|, pc) && Current(m, pc) && Carries(m, pc)
  }

  // ---------------------------------------------------------------- histories

  // The reference object: a sequential last-in-first-out stack, top first.
  function Apply<T(==)>(st: Option<seq<T>>, e: Event<T>): Option<seq<T>> {
    if st.None? then None
    else match e
      case Pushed(_, v) => Some([v] + st.value)
      case Popped(_, v) => if st.value != [] && st.value[0] == v then Some(st.value[1..]) else None
      case FoundEmpty(_) => if st.value == [] then st else None
  }

  function Replay<T(==)>(h: seq<Event<T>>): Option<seq<T>> {
    if h == [] then Some([]) else Apply(Replay(h[..|h| - 1]), h[|h| - 1])
  }

  lemma ReplaySnoc<T>(h: seq<Event<T>>, e: Event<T>)
    ensures Replay(h + [e]) == Apply(Replay(h), e)
  {
    assert (h + [e])[..|h|] == h;
  }

  // The values along a list of nodes, first node first.
  ghost function Values<T>(value: seq<T>, xs: seq<nat>): (vs: seq<T>)
    requires Within(xs, |value|)
    ensures |vs| == |xs|
  {
    if xs == [] then [] else [value[xs[0]]] + Values(value, xs[1..])
  }

  ghost predicate Within(xs: seq<nat>, n: nat) {
    forall k :: 0 <= k < |xs| ==> xs[k] < n
  }

  lemma {:induction false} ValuesFrame<T>(value: seq<T>, xs: seq<nat>, n: nat, v: T)
    requires Within(xs, |value|)
    requires n < |value| && n !in xs
    ensures Values(value[n := v], xs) == Values(value, xs)
  {
    if xs != [] { ValuesFrame(value, xs[1..], n, v); }
  }

  // ---------------------------------------------------------------- the size counter

  ghost function Counters<T>(threads: map<Tid, Pc<T>>): set<Tid> {
    set t | t in threads && threads[t].Counting?
  }

  ghost function Uncounters<T>(threads: map<Tid, Pc<T>>): set<Tid> {
    set t | t in threads && threads[t].Uncounting?
  }

  // ---------------------------------------------------------------- the invariant

  // The two lists really are the chains hanging from the two heads.
  ghost predicate Threaded<T>(m: Memory<T>, stack: seq<nat>, free: seq<nat>) {
    && |m.next| == |m.value|
    && Within(stack, |m.value|) && Within(free, |m.value|)
    && Chain(m.next, m.head.node, stack)
    && Chain(m.next, m.free.node, free)
  }

  ghost predicate Sounds<T>(m: Memory<T>, threads: map<Tid, Pc<T>>) {
    forall t :: t in threads ==> Sound(m, threads[t])
  }

  ghost predicate Counted<T>(size: int, threads: map<Tid, Pc<T>>, depth: nat) {
    size == depth + |Uncounters(threads)| - |Counters(threads)|
  }

  ghost predicate Inv<T>(s: State<T>, stack: seq<nat>, free: seq<nat>) {
    && Threaded(s.mem, stack, free)
    && Partitioned(s.threads, |s.mem.next|, multiset(stack) + multiset(free))
    && Sounds(s.mem, s.threads)
    && Replay(s.history) == Some(Values(s.mem.value, stack))
    && Counted(s.size, s.threads, |stack|)
  }

  // The list behind one head.
  function Pick(w: Which, stack: seq<nat>, free: seq<nat>): seq<nat> {
    if w.OnStack? then stack else free
  }

  // ---------------------------------------------------------------- steps keep the invariant

  // A thread's hands change: what it drops goes to the lists, what it takes leaves them.
  lemma MovePartition<T>(threads: map<Tid, Pc<T>>, n: nat, lists: multiset<nat>, t: Tid, pc: Pc<T>,
        lists': multiset<nat>)
    requires Partitioned(threads, n, lists) && t in threads
    requires forall h | h in {Hand(threads[t]), Hand(pc)} :: h.At? ==> h.i < n
    requires lists + InHand(threads[t]) == lists' + InHand(pc)
    ensures Partitioned(threads[t := pc], n, lists')
  {
    var threads' := threads[t := pc];
    assert forall u | u in threads && u != t :: threads'[u] == threads[u];
    forall i | 0 <= i < n ensures lists'[i] == if HeldBySome(threads', i) then 0 else 1 {
      MovedCount(threads, n, lists, t, pc, lists', i);
    }
    if Hand(pc).At? { NotHeldTwice(threads, n, lists, t, pc, lists'); }
  }

  lemma MovedCount<T>(threads: map<Tid, Pc<T>>, n: nat, lists: multiset<nat>, t: Tid, pc: Pc<T>,
        lists': multiset<nat>, i: nat)
    requires Partitioned(threads, n, lists) && t in threads && i < n
    requires lists + InHand(threads[t]) == lists' + InHand(pc)
    ensures lists'[i] == if HeldBySome(threads[t := pc], i) then 0 else 1
  {
    HeldAfter(threads, t, pc, i);
    assert (lists + InHand(threads[t]))[i] == (lists' + InHand(pc))[i];
    assert Hand(threads[t]) == At(i) ==> HeldBySome(threads, i);
  }

  // The node taken into hand is in nobody else's.
  lemma NotHeldTwice<T>(threads: map<Tid, Pc<T>>, n: nat, lists: multiset<nat>, t: Tid, pc: Pc<T>,
        lists': multiset<nat>)
    requires Partitioned(threads, n, lists) && t in threads && Hand(pc).At? && Hand(pc).i < n
    requires lists + InHand(threads[t]) == lists' + InHand(pc)
    ensures forall u :: u in threads && u != t ==> Hand(threads[u]) != Hand(pc)
  {
    var i := Hand(pc).i;
    assert (lists + InHand(threads[t]))[i] == (lists' + InHand(pc))[i];
    forall u | u in threads && u != t ensures Hand(threads[u]) != Hand(pc) {
      assert Hand(threads[t]) == Hand(pc) ==> HeldBySome(threads, i);
      if Hand(threads[u]) == At(i) { assert HeldBySome(threads, i); }
    }
  }

  ghost function InHand<T>(pc: Pc<T>): multiset<nat> {
    if Hand(pc).At? then multiset{Hand(pc).i} else multiset{}
  }

  lemma HeldAfter<T>(threads: map<Tid, Pc<T>>, t: Tid, pc: Pc<T>, i: nat)
    requires t in threads
    requires forall u | u in threads && u != t && Hand(threads[t]).At? :: Hand(threads[t]) != Hand(threads[u])
    ensures HeldBySome(threads[t := pc], i) <==>
      Hand(pc) == At(i) || (HeldBySome(threads, i) && Hand(threads[t]) != At(i))
  {
    var threads' := threads[t := pc];
    if HeldBySome(threads', i) {
      var u :| u in threads' && Hand(threads'[u]) == At(i);
      assert u != t ==> u in threads && Hand(threads[u]) == At(i);
    }
    if Hand(pc) == At(i) { assert t in threads' && Hand(threads'[t]) == At(i); }
    if HeldBySome(threads, i) && Hand(threads[t]) != At(i) {
      var u :| u in threads && Hand(threads[u]) == At(i);
      assert u in threads' && Hand(threads'[u]) == At(i);
    }
  }

  lemma MoveCounted<T>(size: int, threads: map<Tid, Pc<T>>, depth: nat, t: Tid, pc: Pc<T>)
    requires Counted(size, threads, depth) && t in threads
    ensures
      var less := if threads[t].Uncounting? then 1 else if threads[t].Counting? then -1 else 0;
      var more := if pc.Uncounting? then 1 else if pc.Counting? then -1 else 0;
      Counted(size - less + more, threads[t := pc], depth)
  {
    UncountersAfter(threads, t, pc);
    CountersAfter(threads, t, pc);
  }

  lemma UncountersAfter<T>(threads: map<Tid, Pc<T>>, t: Tid, pc: Pc<T>)
    requires t in threads
    ensures |Uncounters(threads[t := pc])| - (if pc.Uncounting? then 1 else 0)
      == |Uncounters(threads)| - (if threads[t].Uncounting? then 1 else 0)
  {
    var u := Uncounters(threads) - {t};
    assert Uncounters(threads) == if threads[t].Uncounting? then u + {t} else u;
    assert Uncounters(threads[t := pc]) == if pc.Uncounting? then u + {t} else u;
  }

  lemma CountersAfter<T>(threads: map<Tid, Pc<T>>, t: Tid, pc: Pc<T>)
    requires t in threads
    ensures |Counters(threads[t := pc])| - (if pc.Counting? then 1 else 0)
      == |Counters(threads)| - (if threads[t].Counting? then 1 else 0)
  {
    var c := Counters(threads) - {t};
    assert Counters(threads) == if threads[t].Counting? then c + {t} else c;
    assert Counters(threads[t := pc]) == if pc.Counting? then c + {t} else c;
  }

  // A thread moves on without touching the lists, its hands or the counter.
  lemma MoveInv<T>(s: State<T>, stack: seq<nat>, free: seq<nat>, t: Tid, pc: Pc<T>)
    requires Inv(s, stack, free) && t in s.threads
    requires Sound(s.mem, pc) && Hand(pc) == Hand(s.threads[t])
    requires pc.Counting? == s.threads[t].Counting? && pc.Uncounting? == s.threads[t].Uncounting?
    ensures Inv(Goto(s, t, pc), stack, free)
  {
    var lists := multiset(stack) + multiset(free);
    MovePartition(s.threads, |s.mem.next|, lists, t, pc, lists);
    MoveCounted(s.size, s.threads, |stack|, t, pc);
  }

  lemma ObserveInv<T>(s: State<T>, stack: seq<nat>, free: seq<nat>, t: Tid, job: Job<T>)
    requires Inv(s, stack, free) && t in s.threads
    requires s.threads[t] == Loading(job) || (s.threads[t].Linked? && s.threads[t].job == job)
    ensures Inv(Observe(s, t, job, HeadOf(s.mem, Source(job))), stack, free)
  {
    var h := HeadOf(s.mem, Source(job));
    assert Chain(s.mem.next, h.node, Pick(Source(job), stack, free));
    if h.node.At? {
      MoveInv(s, stack, free, t, Loaded(job, h));
    } else {
      MoveInv(s, stack, free, t, Idle);
      ReplaySnoc(s.history, FoundEmpty(t));
    }
  }

  // The tag at work: a compare-and-swap that succeeds installs the node's current `next`.
  lemma SwapInstallsCurrentNext<T>(s: State<T>, stack: seq<nat>, free: seq<nat>, t: Tid)
    requires Inv(s, stack, free) && t in s.threads && s.threads[t].Linked?
    requires HeadOf(s.mem, Source(s.threads[t].job)) == s.threads[t].seen
    ensures s.threads[t].seen.node.At? && s.threads[t].seen.node.i < |s.mem.next|
    ensures s.threads[t].nx == s.mem.next[s.threads[t].seen.node.i]
  {
    assert Sound(s.mem, s.threads[t]);
  }

  // In-place changes of one node that a thread holds disturb no other thread and no list.
  lemma HeldApart<T>(s: State<T>, stack: seq<nat>, free: seq<nat>, t: Tid, n: nat)
    requires Inv(s, stack, free) && t in s.threads && Hand(s.threads[t]) == At(n)
    ensures n < |s.mem.next| && n !in stack && n !in free
    ensures forall u :: u in s.threads && u != t ==> Hand(s.threads[u]) != At(n)
  {
    assert Sound(s.mem, s.threads[t]);
    assert HeldBySome(s.threads, n);
    assert (multiset(stack) + multiset(free))[n] == 0;
  }

  lemma FillInv<T>(s: State<T>, stack: seq<nat>, free: seq<nat>, t: Tid)
    requires Inv(s, stack, free) && t in s.threads && s.threads[t].Filling?
    ensures Inv(Step(s, t, Go), stack, free)
  {
    var n, v := s.threads[t].n, s.threads[t].v;
    HeldApart(s, stack, free, t, n);
    var mem' := s.mem.(value := s.mem.value[n := v]);
    forall u | u in s.threads && u != t ensures Sound(mem', s.threads[u]) {
      assert Sound(s.mem, s.threads[u]);
    }
    ValuesFrame(s.mem.value, stack, n, v);
    var pc := PutLoading(OnStack, n, v, v);
    var lists := multiset(stack) + multiset(free);
    MovePartition(s.threads, |s.mem.next|, lists, t, pc, lists);
    MoveCounted(s.size, s.threads, |stack|, t, pc);
  }

  lemma LinkInv<T>(s: State<T>, stack: seq<nat>, free: seq<nat>, t: Tid)
    requires Inv(s, stack, free) && t in s.threads && s.threads[t].PutLinking?
    ensures Inv(Step(s, t, Go), stack, free)
  {
    hide Chain, HeldBySome, Partitioned, Counted, Uncounters, Counters;
    var PutLinking(w, n, v, lin, seen) := s.threads[t];
    HeldApart(s, stack, free, t, n);
    var mem' := s.mem.(next := s.mem.next[n := seen.node]);
    ChainFrame(s.mem.next, s.mem.head.node, stack, n, seen.node);
    ChainFrame(s.mem.next, s.mem.free.node, free, n, seen.node);
    assert Sound(s.mem, s.threads[t]);
    forall u | u in s.threads && u != t ensures Sound(mem', s.threads[u]) {
      LinkSound(s, stack, free, n, seen.node, s.threads[u]);
    }
    var pc := PutSwapping(w, n, v, lin, seen);
    var lists := multiset(stack) + multiset(free);
    MovePartition(s.threads, |s.mem.next|, lists, t, pc, lists);
    MoveCounted(s.size, s.threads, |stack|, t, pc);
  }

  lemma LinkSound<T>(s: State<T>, stack: seq<nat>, free: seq<nat>, n: nat, x: Link, pc: Pc<T>)
    requires Threaded(s.mem, stack, free) && Sound(s.mem, pc)
    requires n < |s.mem.next| && n !in stack && n !in free && Hand(pc) != At(n)
    ensures Sound(s.mem.(next := s.mem.next[n := x]), pc)
  {
    if pc.Linked? && pc.seen == HeadOf(s.mem, Source(pc.job)) {
      assert pc.seen.node.i == Pick(Source(pc.job), stack, free)[0];
    }
  }

  // A swap that rearranged the lists, given its four effects one by one.
  lemma SwapInv<T>(s: State<T>, stack: seq<nat>, free: seq<nat>, t: Tid, s': State<T>, stack': seq<nat>,
        free': seq<nat>)
    requires Inv(s, stack, free) && t in s.threads
    requires t in s'.threads && s'.threads == s.threads[t := s'.threads[t]] && s'.size == s.size
    requires |s'.mem.next| == |s.mem.next|
    requires Threaded(s'.mem, stack', free')
    requires Sounds(s'.mem, s'.threads)
    requires multiset(stack) + multiset(free) + InHand(s.threads[t])
          == multiset(stack') + multiset(free') + InHand(s'.threads[t])
    requires Replay(s'.history) == Some(Values(s'.mem.value, stack'))
    requires !s.threads[t].Counting? && !s.threads[t].Uncounting?
    requires |stack'| == |stack| +
      (if s'.threads[t].Counting? then 1 else if s'.threads[t].Uncounting? then -1 else 0)
    ensures Inv(s', stack', free')
  {
    assert Sound(s.mem, s.threads[t]) && Sound(s'.mem, s'.threads[t]);
    MovePartition(s.threads, |s.mem.next|, multiset(stack) + multiset(free), t, s'.threads[t],
                  multiset(stack') + multiset(free'));
    MoveCounted(s.size, s.threads, |stack|, t, s'.threads[t]);
  }

  // PopHead's successful swap: the first node of its list moves into the thread's hands.
  lemma TakeInv<T>(s: State<T>, stack: seq<nat>, free: seq<nat>, t: Tid)
    returns (stack': seq<nat>, free': seq<nat>)
    requires Inv(s, stack, free) && t in s.threads && s.threads[t].Linked?
    requires Sound(s.mem, s.threads[t])
    requires HeadOf(s.mem, Source(s.threads[t].job)) == s.threads[t].seen
    ensures Inv(TakeNode(s, t, s.threads[t].job, s.threads[t].seen, s.threads[t].nx), stack', free')
  {
    SeenInRange(s.mem, s.threads[t]);
    hide Inv, TakeNode, Sound, InRange;
    if s.threads[t].job.Popping? {
      TakeTop(s, stack, free, t);
      stack', free' := stack[1..], free;
    } else {
      TakeFree(s, stack, free, t);
      stack', free' := stack, free[1..];
    }
  }

  lemma SeenInRange<T>(m: Memory<T>, pc: Pc<T>)
    requires Sound(m, pc) && pc.Linked?
    ensures |m.next| == |m.value| && pc.seen.node.At? && pc.seen.node.i < |m.value|
  {
  }

  lemma TakeTop<T>(s: State<T>, stack: seq<nat>, free: seq<nat>, t: Tid)
    requires Inv(s, stack, free) && t in s.threads && s.threads[t].Linked? && s.threads[t].job.Popping?
    requires Sound(s.mem, s.threads[t]) && HeadOf(s.mem, OnStack) == s.threads[t].seen
    requires s.threads[t].seen.node.At? && s.threads[t].seen.node.i < |s.mem.value|
    ensures stack != [] && Inv(TakeNode(s, t, Popping, s.threads[t].seen, s.threads[t].nx), stack[1..], free)
  {
    var seen, nx := s.threads[t].seen, s.threads[t].nx;
    var s' := TakeNode(s, t, Popping, seen, nx);
    TakeSound(s.mem, s.threads[t]);
    hide Chain, HeldBySome, Partitioned, Counted, Uncounters, Counters, Sounds, Sound, Within, Replay;
    TakeThreaded(s.mem, stack, free, OnStack);
    SwapSounds(s.mem, s.threads, t, OnStack, nx, s'.threads[t]);
    assert multiset(stack) == multiset([stack[0]] + stack[1..]);
    ReplaySnoc(s.history, Popped(t, s.mem.value[seen.node.i]));
    SwapInv(s, stack, free, t, s', stack[1..], free);
  }

  lemma TakeFree<T>(s: State<T>, stack: seq<nat>, free: seq<nat>, t: Tid)
    requires Inv(s, stack, free) && t in s.threads && s.threads[t].Linked? && s.threads[t].job.Pushing?
    requires Sound(s.mem, s.threads[t]) && HeadOf(s.mem, OnFree) == s.threads[t].seen
    requires s.threads[t].seen.node.At? && s.threads[t].seen.node.i < |s.mem.value|
    ensures free != []
    ensures Inv(TakeNode(s, t, s.threads[t].job, s.threads[t].seen, s.threads[t].nx), stack, free[1..])
  {
    var seen, nx := s.threads[t].seen, s.threads[t].nx;
    var s' := TakeNode(s, t, s.threads[t].job, seen, nx);
    TakeSound(s.mem, s.threads[t]);
    hide Chain, HeldBySome, Partitioned, Counted, Uncounters, Counters, Sounds, Sound, Within, Replay;
    TakeThreaded(s.mem, stack, free, OnFree);
    SwapSounds(s.mem, s.threads, t, OnFree, nx, s'.threads[t]);
    assert multiset(free) == multiset([free[0]] + free[1..]);
    SwapInv(s, stack, free, t, s', stack, free[1..]);
  }

  // An unstale observation includes the next link, and the node now in hand may be used.
  lemma TakeSound<T>(m: Memory<T>, pc: Pc<T>)
    requires Sound(m, pc) && pc.Linked? && HeadOf(m, Source(pc.job)) == pc.seen
    ensures pc.seen.node.At? && pc.seen.node.i < |m.value| && m.next[pc.seen.node.i] == pc.nx
    ensures
      var m' := SetHead(m, Source(pc.job), Head(pc.seen.tag + 1, pc.nx));
      && (pc.job.Popping? ==> Sound(m', Uncounting(pc.seen.node.i, m.value[pc.seen.node.i])))
      && (pc.job.Pushing? ==> Sound(m', Filling(pc.seen.node.i, pc.job.v)))
  {
  }

  lemma TakeThreaded<T>(m: Memory<T>, stack: seq<nat>, free: seq<nat>, w: Which)
    requires Threaded(m, stack, free) && HeadOf(m, w).node.At? && HeadOf(m, w).node.i < |m.next|
    ensures
      var xs := Pick(w, stack, free);
      var m' := SetHead(m, w, Head(HeadOf(m, w).tag + 1, m.next[HeadOf(m, w).node.i]));
      && xs != [] && xs[0] == HeadOf(m, w).node.i && xs == [xs[0]] + xs[1..]
      && (w.OnStack? ==> Threaded(m', stack[1..], free))
      && (w.OnFree? ==> Threaded(m', stack, free[1..]))
  {
    assert Chain(m.next, HeadOf(m, w).node, Pick(w, stack, free));
  }

  // A successful swap makes every other pending swap on that list stale.
  lemma SwapSounds<T>(m: Memory<T>, threads: map<Tid, Pc<T>>, t: Tid, w: Which, l: Link, pc: Pc<T>)
    requires Sounds(m, threads)
    requires Sound(SetHead(m, w, Head(HeadOf(m, w).tag + 1, l)), pc)
    ensures Sounds(SetHead(m, w, Head(HeadOf(m, w).tag + 1, l)), threads[t := pc])
  {
    var m' := SetHead(m, w, Head(HeadOf(m, w).tag + 1, l));
    forall u | u in threads && u != t ensures Sound(m', threads[u]) {
      assert Sound(m, threads[u]);
    }
  }

  // PushHead's successful swap: the node in hand becomes the first of its list.
  lemma PutInv<T>(s: State<T>, stack: seq<nat>, free: seq<nat>, t: Tid)
    returns (stack': seq<nat>, free': seq<nat>)
    requires Inv(s, stack, free) && t in s.threads && s.threads[t].PutSwapping?
    requires HeadOf(s.mem, s.threads[t].w) == s.threads[t].seen
    ensures Inv(PutNode(s, t, s.threads[t].w, s.threads[t].n, s.threads[t].v, s.threads[t].seen), stack', free')
  {
    hide Chain, HeldBySome, Partitioned, Counted, Uncounters, Counters;
    var w, n, v, seen := s.threads[t].w, s.threads[t].n, s.threads[t].v, s.threads[t].seen;
    assert Sound(s.mem, s.threads[t]);
    var s' := PutNode(s, t, w, n, v, seen);
    PutThreaded(s.mem, stack, free, w, n);
    SwapSounds(s.mem, s.threads, t, w, At(n), s'.threads[t]);
    if w.OnStack? {
      stack', free' := [n] + stack, free;
      assert stack'[1..] == stack;
      ReplaySnoc(s.history, Pushed(t, v));
    } else {
      stack', free' := stack, [n] + free;
    }
    SwapInv(s, stack, free, t, s', stack', free');
  }

  lemma PutThreaded<T>(m: Memory<T>, stack: seq<nat>, free: seq<nat>, w: Which, n: nat)
    requires Threaded(m, stack, free) && n < |m.next| && m.next[n] == HeadOf(m, w).node
    ensures
      var m' := SetHead(m, w, Head(HeadOf(m, w).tag + 1, At(n)));
      && (w.OnStack? ==> Threaded(m', [n] + stack, free))
      && (w.OnFree? ==> Threaded(m', stack, [n] + free))
  {
    assert ([n] + stack)[1..] == stack && ([n] + free)[1..] == free;
  }

  ghost predicate InPopHead<T>(pc: Pc<T>) {
    pc.Idle? || pc.Loading? || pc.Loaded? || pc.Linked?
  }

  lemma PopHeadStepInv<T>(s: State<T>, stack: seq<nat>, free: seq<nat>, t: Tid, c: Choice<T>)
    returns (stack': seq<nat>, free': seq<nat>)
    requires Addressable(s) && Inv(s, stack, free) && t in s.threads && InPopHead(s.threads[t])
    ensures Inv(Step(s, t, c), stack', free')
  {
    stack', free' := stack, free;
    assert Sound(s.mem, s.threads[t]);
    match s.threads[t]
    case Idle =>
      if c.CallPush? { MoveInv(s, stack, free, t, Loading(Pushing(c.v))); }
      else if c.CallPop? { MoveInv(s, stack, free, t, Loading(Popping)); }
    case Loading(job) => ObserveInv(s, stack, free, t, job);
    case Loaded(job, seen) => MoveInv(s, stack, free, t, Linked(job, seen, s.mem.next[seen.node.i]));
    case Linked(job, seen, nx) =>
      if HeadOf(s.mem, Source(job)) == seen && !c.FailSpuriously? {
        stack', free' := TakeInv(s, stack, free, t);
      } else {
        ObserveInv(s, stack, free, t, job);
      }
  }

  lemma PushHeadStepInv<T>(s: State<T>, stack: seq<nat>, free: seq<nat>, t: Tid, c: Choice<T>)
    returns (stack': seq<nat>, free': seq<nat>)
    requires Addressable(s) && Inv(s, stack, free) && t in s.threads
    requires s.threads[t].PutLoading? || s.threads[t].PutLinking? || s.threads[t].PutSwapping?
    ensures Inv(Step(s, t, c), stack', free')
  {
    stack', free' := stack, free;
    assert Sound(s.mem, s.threads[t]);
    match s.threads[t]
    case PutLoading(w, n, v, lin) => MoveInv(s, stack, free, t, PutLinking(w, n, v, lin, HeadOf(s.mem, w)));
    case PutLinking(w, n, v, lin, seen) => LinkInv(s, stack, free, t);
    case PutSwapping(w, n, v, lin, seen) =>
      if HeadOf(s.mem, w) == seen && !c.FailSpuriously? {
        stack', free' := PutInv(s, stack, free, t);
      } else {
        MoveInv(s, stack, free, t, PutLinking(w, n, v, lin, HeadOf(s.mem, w)));
      }
  }

  // Counting moves the size towards the depth and changes no list.
  lemma CountInv<T>(s: State<T>, stack: seq<nat>, free: seq<nat>, t: Tid, pc: Pc<T>)
    requires Inv(s, stack, free) && t in s.threads && Sound(s.mem, pc)
    requires (s.threads[t].Counting? && pc == Idle) ||
      (s.threads[t].Uncounting? && pc.Reading? && pc.n == s.threads[t].n)
    ensures
      var d := if pc == Idle then 1 else -1;
      Inv(Goto(s.(size := s.size + d), t, pc), stack, free)
  {
    hide Chain, Threaded, Replay, Values, HeldBySome, Partitioned, Counted, Uncounters, Counters, Current, Carries;
    var lists := multiset(stack) + multiset(free);
    CountMoves(s, stack, free, t, pc);
    MovePartition(s.threads, |s.mem.next|, lists, t, pc, lists);
  }

  lemma CountMoves<T>(s: State<T>, stack: seq<nat>, free: seq<nat>, t: Tid, pc: Pc<T>)
    requires Inv(s, stack, free) && t in s.threads && Sound(s.mem, pc)
    requires (s.threads[t].Counting? && pc == Idle) ||
      (s.threads[t].Uncounting? && pc.Reading? && pc.n == s.threads[t].n)
    ensures Counted(s.size + if pc == Idle then 1 else -1, s.threads[t := pc], |stack|)
    ensures Sound(s.mem, s.threads[t])
  {
    hide Chain, Threaded, Replay, Values, HeldBySome, Partitioned, Sound;
    MoveCounted(s.size, s.threads, |stack|, t, pc);
  }

  lemma LocalStepInv<T>(s: State<T>, stack: seq<nat>, free: seq<nat>, t: Tid, c: Choice<T>)
    requires Addressable(s) && Inv(s, stack, free) && t in s.threads
    requires s.threads[t].Filling? || s.threads[t].Uncounting? || s.threads[t].Reading? || s.threads[t].Counting?
    ensures Inv(Step(s, t, c), stack, free)
  {
    assert Sound(s.mem, s.threads[t]);
    match s.threads[t]
    case Filling(n, v) => FillInv(s, stack, free, t);
    case Uncounting(n, lin) => CountInv(s, stack, free, t, Reading(n, lin));
    case Reading(n, lin) => MoveInv(s, stack, free, t, PutLoading(OnFree, n, s.mem.value[n], lin));
    case Counting => CountInv(s, stack, free, t, Idle);
  }

  // Every step of every thread keeps the invariant.
  lemma StepInv<T>(s: State<T>, stack: seq<nat>, free: seq<nat>, t: Tid, c: Choice<T>)
    returns (stack': seq<nat>, free': seq<nat>)
    requires Inv(s, stack, free) && t in s.threads
    ensures Addressable(s) && Inv(Step(s, t, c), stack', free')
  {
    InvAddressable(s, stack, free);
    if InPopHead(s.threads[t]) {
      stack', free' := PopHeadStepInv(s, stack, free, t, c);
    } else if s.threads[t].PutLoading? || s.threads[t].PutLinking? || s.threads[t].PutSwapping? {
      stack', free' := PushHeadStepInv(s, stack, free, t, c);
    } else {
      stack', free' := stack, free;
      LocalStepInv(s, stack, free, t, c);
    }
  }

  lemma InvAddressable<T>(s: State<T>, stack: seq<nat>, free: seq<nat>)
    requires Inv(s, stack, free)
    ensures Addressable(s)
  {
    forall t | t in s.threads ensures InRange(|s.mem.next|, s.threads[t]) {
      assert Sound(s.mem, s.threads[t]);
    }
  }

  // ---------------------------------------------------------------- whole runs

  // The states a schedule leads through; a thread the stack does not know does nothing.
  ghost predicate Trace<T>(trace: seq<State<T>>, schedule: seq<(Tid, Choice<T>)>) {
    && |trace| == |schedule| + 1
    && Init(trace[0])
    && forall k :: 0 <= k < |schedule| ==> Follows(trace[k], trace[k + 1], schedule[k])
  }

  ghost predicate Follows<T>(s: State<T>, s': State<T>, move: (Tid, Choice<T>)) {
    move.0 in s.threads && Addressable(s) && s' == Step(s, move.0, move.1)
  }

  lemma InitInv<T>(s: State<T>)
    requires Init(s)
    ensures Inv(s, [], Indices(0, |s.mem.next|))
  {
    var n := |s.mem.next|;
    var free := Indices(0, n);
    IndicesOnce(0, n);
    assert Uncounters(s.threads) == {} && Counters(s.threads) == {};
  }

  lemma {:induction false} IndicesOnce(from: nat, upto: nat)
    requires from <= upto
    ensures forall i :: multiset(Indices(from, upto))[i] == (if from <= i < upto then 1 else 0)
    decreases upto - from
  {
    if from < upto {
      IndicesOnce(from + 1, upto);
      assert Indices(from, upto) == [from] + Indices(from + 1, upto);
    }
  }

  // Over every schedule: the nodes stay partitioned, and the history replays on the sequential
  // stack to exactly the values now in the list.
  lemma {:induction false} EveryRunIsLinearizable<T>(trace: seq<State<T>>, schedule: seq<(Tid, Choice<T>)>, k: nat)
    returns (stack: seq<nat>, free: seq<nat>)
    requires Trace(trace, schedule) && k <= |schedule|
    ensures Inv(trace[k], stack, free)
    ensures Replay(trace[k].history) == Some(Values(trace[k].mem.value, stack))
    ensures Partitioned(trace[k].threads, |trace[k].mem.next|, multiset(stack) + multiset(free))
  {
    if k == 0 {
      InitInv(trace[0]);
      stack, free := [], Indices(0, |trace[0].mem.next|);
    } else {
      stack, free := EveryRunIsLinearizable(trace, schedule, k - 1);
      assert Follows(trace[k - 1], trace[k], schedule[k - 1]);
      stack, free := StepInv(trace[k - 1], stack, free, schedule[k - 1].0, schedule[k - 1].1);
    }
  }

  function Actor<T>(e: Event<T>): Tid {
    match e
    case Pushed(t, _) => t
    case Popped(t, _) => t
    case FoundEmpty(t) => t
  }

  // The latest event of a thread.
  function LastOf<T>(h: seq<Event<T>>, t: Tid): Option<Event<T>> {
    if h == [] then None
    else if Actor(h[|h| - 1]) == t then Some(h[|h| - 1])
    else LastOf(h[..|h| - 1], t)
  }

  // A thread past the swap that took effect: its latest event is that swap's.
  ghost predicate Recorded<T>(h: seq<Event<T>>, t: Tid, pc: Pc<T>) {
    match pc
    case Uncounting(_, lin) => LastOf(h, t) == Some(Popped(t, lin))
    case Reading(_, lin) => LastOf(h, t) == Some(Popped(t, lin))
    case PutLoading(w, _, _, lin) => w.OnFree? ==> LastOf(h, t) == Some(Popped(t, lin))
    case PutLinking(w, _, _, lin, _) => w.OnFree? ==> LastOf(h, t) == Some(Popped(t, lin))
    case PutSwapping(w, _, _, lin, _) => w.OnFree? ==> LastOf(h, t) == Some(Popped(t, lin))
    case _ => true
  }

  lemma LastOfSnoc<T>(h: seq<Event<T>>, e: Event<T>, u: Tid)
    ensures LastOf(h + [e], u) == if Actor(e) == u then Some(e) else LastOf(h, u)
  {
    assert (h + [e])[..|h|] == h;
  }

  // A step records at most one event, of its own thread.
  lemma StepRecords<T>(s: State<T>, t: Tid, c: Choice<T>, u: Tid)
    requires Addressable(s) && t in s.threads && u in s.threads && Recorded(s.history, u, s.threads[u])
    ensures u in Step(s, t, c).threads && Recorded(Step(s, t, c).history, u, Step(s, t, c).threads[u])
  {
    hide LastOf;
    var s' := Step(s, t, c);
    if s'.history != s.history {
      var e := s'.history[|s.history|];
      assert s'.history == s.history + [e] && Actor(e) == t;
      LastOfSnoc(s.history, e, u);
    }
  }

  lemma {:induction false} EveryRunRecords<T>(trace: seq<State<T>>, schedule: seq<(Tid, Choice<T>)>, k: nat, t: Tid)
    requires Trace(trace, schedule) && k <= |schedule| && t in trace[k].threads
    ensures Recorded(trace[k].history, t, trace[k].threads[t])
  {
    hide Recorded;
    if k == 0 {
      IdleRecorded(trace[0].history, t);
    } else {
      assert Follows(trace[k - 1], trace[k], schedule[k - 1]);
      SameThreads(trace[k - 1], schedule[k - 1].0, schedule[k - 1].1);
      hide Step;
      EveryRunRecords(trace, schedule, k - 1, t);
      StepRecords(trace[k - 1], schedule[k - 1].0, schedule[k - 1].1, t);
    }
  }

  lemma IdleRecorded<T>(h: seq<Event<T>>, t: Tid)
    ensures Recorded(h, t, Idle)
  {
  }

  lemma SameThreads<T>(s: State<T>, t: Tid, c: Choice<T>)
    requires Addressable(s) && t in s.threads
    ensures Step(s, t, c).threads.Keys == s.threads.Keys
  {
  }

  // From its swap to its return, a Pop's latest event says what it popped; and from the read of
  // the value on, what it will return is that.
  lemma PopReturnsRecordedValue<T>(trace: seq<State<T>>, schedule: seq<(Tid, Choice<T>)>, k: nat, t: Tid)
    requires Trace(trace, schedule) && k <= |schedule| && t in trace[k].threads
    ensures
      var pc := trace[k].threads[t];
      (pc.PutLoading? || pc.PutLinking? || pc.PutSwapping?) && pc.w.OnFree? ==>
        LastOf(trace[k].history, t) == Some(Popped(t, pc.v))
  {
    hide LastOf;
    EveryRunRecords(trace, schedule, k, t);
    var stack, free := EveryRunIsLinearizable(trace, schedule, k);
    assert Sound(trace[k].mem, trace[k].threads[t]);
  }

  // ---------------------------------------------------------------- calls and what they record

  // The latest call of a thread: the step that took it out of Idle.
  ghost function LastCall<T>(trace: seq<State<T>>, schedule: seq<(Tid, Choice<T>)>, k: nat, t: Tid): (j: Option<nat>)
    requires k <= |schedule| && |trace| == |schedule| + 1
    ensures j.Some? ==> j.value < k && schedule[j.value].0 == t
    ensures j.Some? ==> schedule[j.value].1.CallPush? || schedule[j.value].1.CallPop?
  {
    if k == 0 then None
    else
      var (u, c) := schedule[k - 1];
      if u == t && t in trace[k - 1].threads && trace[k - 1].threads[t].Idle? && (c.CallPush? || c.CallPop?)
      then Some(k - 1)
      else LastCall(trace, schedule, k - 1, t)
  }

  // The events of one thread among `h`.
  ghost function Own<T>(h: seq<Event<T>>, t: Tid): seq<Event<T>> {
    if h == [] then []
    else Own(h[..|h| - 1], t) + if Actor(h[|h| - 1]) == t then [h[|h| - 1]] else []
  }

  // The events that a thread has recorded since its latest call.
  ghost function Since<T>(trace: seq<State<T>>, schedule: seq<(Tid, Choice<T>)>, k: nat, t: Tid): seq<Event<T>>
    requires k <= |schedule| && |trace| == |schedule| + 1
  {
    var j := LastCall(trace, schedule, k, t);
    var from := if j.Some? then |trace[j.value].history| else 0;
    if from <= |trace[k].history| then Own(trace[k].history[from..], t) else []
  }

  // Since step `j` the thread has seen the free list empty.
  ghost predicate FoundNoNode<T>(trace: seq<State<T>>, schedule: seq<(Tid, Choice<T>)>, j: nat, k: nat, t: Tid)
    requires k <= |schedule| && |trace| == |schedule| + 1
  {
    exists i :: j < i < k && schedule[i].0 == t && trace[i].mem.free.node.Null?
  }

  // What a thread that called Push(v) has recorded, by where it is.
  ghost predicate ServesPush<T>(pc: Pc<T>, t: Tid, v: T, since: seq<Event<T>>, noNode: bool) {
    match pc
    case Idle => since == [Pushed(t, v)] || (since == [] && noNode)
    case Loading(job) => job == Job.Pushing(v) && since == []
    case Loaded(job, _) => job == Job.Pushing(v) && since == []
    case Linked(job, _, _) => job == Job.Pushing(v) && since == []
    case Filling(_, w) => w == v && since == []
    case PutLoading(w, _, x, _) => w.OnStack? && x == v && since == []
    case PutLinking(w, _, x, _, _) => w.OnStack? && x == v && since == []
    case PutSwapping(w, _, x, _, _) => w.OnStack? && x == v && since == []
    case Counting => since == [Pushed(t, v)]
    case _ => false
  }

  // ... or that called Pop.
  ghost predicate ServesPop<T>(pc: Pc<T>, t: Tid, since: seq<Event<T>>) {
    match pc
    case Idle => since == [FoundEmpty(t)] || (|since| == 1 && since[0].Popped? && since[0].t == t)
    case Loading(job) => job == Job.Popping && since == []
    case Loaded(job, _) => job == Job.Popping && since == []
    case Linked(job, _, _) => job == Job.Popping && since == []
    case Uncounting(_, lin) => since == [Popped(t, lin)]
    case Reading(_, lin) => since == [Popped(t, lin)]
    case PutLoading(w, _, _, lin) => w.OnFree? && since == [Popped(t, lin)]
    case PutLinking(w, _, _, lin, _) => w.OnFree? && since == [Popped(t, lin)]
    case PutSwapping(w, _, _, lin, _) => w.OnFree? && since == [Popped(t, lin)]
    case _ => false
  }

  lemma OwnSnoc<T>(h: seq<Event<T>>, e: Event<T>, t: Tid)
    ensures Own(h + [e], t) == Own(h, t) + if Actor(e) == t then [e] else []
  {
    assert (h + [e])[..|h|] == h;
  }

  // What a step adds to the history.
  ghost function News<T>(s: State<T>, s': State<T>): seq<Event<T>> {
    if |s.history| <= |s'.history| then s'.history[|s.history|..] else []
  }

  lemma StepNews<T>(s: State<T>, t: Tid, c: Choice<T>)
    requires Addressable(s) && t in s.threads
    ensures
      var s' := Step(s, t, c);
      && s'.history == s.history + News(s, s') && |News(s, s')| <= 1
      && forall e :: e in News(s, s') ==> Actor(e) == t
    ensures forall u :: u in s.threads && u != t ==> Step(s, t, c).threads[u] == s.threads[u]
  {
    var s' := Step(s, t, c);
    assert s'.history == s.history || s'.history == s.history + [s'.history[|s.history|]];
  }

  lemma {:induction false} HistoryGrows<T>(trace: seq<State<T>>, schedule: seq<(Tid, Choice<T>)>, j: nat, k: nat)
    requires Trace(trace, schedule) && j <= k <= |schedule|
    ensures trace[j].history <= trace[k].history
  {
    hide Step, Init, News;
    if j < k {
      HistoryGrows(trace, schedule, j, k - 1);
      assert Follows(trace[k - 1], trace[k], schedule[k - 1]);
      StepNews(trace[k - 1], schedule[k - 1].0, schedule[k - 1].1);
    }
  }

  // Without a call in it, a step adds its own event to those of its thread.
  lemma SinceStep<T>(trace: seq<State<T>>, schedule: seq<(Tid, Choice<T>)>, k: nat, t: Tid)
    requires Trace(trace, schedule) && 0 < k <= |schedule|
    requires LastCall(trace, schedule, k, t) == LastCall(trace, schedule, k - 1, t)
    ensures
      var news := News(trace[k - 1], trace[k]);
      Since(trace, schedule, k, t) ==
        Since(trace, schedule, k - 1, t) + if schedule[k - 1].0 == t then news else []
  {
    hide Step, Init, LastCall, Own;
    var j := LastCall(trace, schedule, k, t);
    var from := if j.Some? then |trace[j.value].history| else 0;
    if j.Some? { HistoryGrows(trace, schedule, j.value, k - 1); }
    assert Follows(trace[k - 1], trace[k], schedule[k - 1]);
    StepNews(trace[k - 1], schedule[k - 1].0, schedule[k - 1].1);
    var h, news := trace[k - 1].history, News(trace[k - 1], trace[k]);
    assert (h + news)[from..] == h[from..] + news;
    if |news| == 1 {
      assert news == [news[0]];
      OwnSnoc(h[from..], news[0], t);
    } else {
      assert h[from..] + news == h[from..];
    }
  }

  lemma NothingOwn<T>(t: Tid)
    ensures Own<T>([], t) == []
  {
  }

  lemma PushStepServes<T>(s: State<T>, t: Tid, c: Choice<T>, v: T, since: seq<Event<T>>, noNode: bool)
    requires Addressable(s) && t in s.threads && ServesPush(s.threads[t], t, v, since, noNode)
    requires s.threads[t].Idle? ==> !c.CallPush? && !c.CallPop?
    ensures
      var s' := Step(s, t, c);
      t in s'.threads
      && ServesPush(s'.threads[t], t, v, since + News(s, s'), noNode || s.mem.free.node.Null?)
  {
    var s' := Step(s, t, c);
    assert s'.history == s.history ==> since + News(s, s') == since;
    assert s'.history == s.history + [Pushed(t, v)] ==> News(s, s') == [Pushed(t, v)];
  }

  lemma PopStepServes<T>(s: State<T>, t: Tid, c: Choice<T>, since: seq<Event<T>>)
    requires Addressable(s) && t in s.threads && ServesPop(s.threads[t], t, since)
    requires s.threads[t].Idle? ==> !c.CallPush? && !c.CallPop?
    ensures
      var s' := Step(s, t, c);
      t in s'.threads && ServesPop(s'.threads[t], t, since + News(s, s'))
  {
    var s' := Step(s, t, c);
    assert s'.history == s.history ==> since + News(s, s') == since;
    assert forall e :: s'.history == s.history + [e] ==> News(s, s') == [e];
  }

  // The pc and the events of a thread since its call, as the call wants them.
  ghost predicate Serves<T>(trace: seq<State<T>>, schedule: seq<(Tid, Choice<T>)>, k: nat, t: Tid)
    requires k <= |schedule| && |trace| == |schedule| + 1 && t in trace[k].threads
  {
    var j, pc, since := LastCall(trace, schedule, k, t), trace[k].threads[t], Since(trace, schedule, k, t);
    if j.None? then pc.Idle? && since == []
    else if schedule[j.value].1.CallPush?
    then ServesPush(pc, t, schedule[j.value].1.v, since, FoundNoNode(trace, schedule, j.value, k, t))
    else ServesPop(pc, t, since)
  }

  // Every moment of every call, in every interleaving.
  lemma {:induction false} EveryCallServed<T>(trace: seq<State<T>>, schedule: seq<(Tid, Choice<T>)>, k: nat, t: Tid)
    requires Trace(trace, schedule) && k <= |schedule| && t in trace[k].threads
    ensures Serves(trace, schedule, k, t)
  {
    hide ServesPush, ServesPop, FoundNoNode, Own, Chain;
    NothingOwn<T>(t);
    if k == 0 {
      assert trace[0].history[0..] == [];
    } else {
      var (u, c) := schedule[k - 1];
      assert Follows(trace[k - 1], trace[k], schedule[k - 1]);
      SameThreads(trace[k - 1], u, c);
      EveryCallServed(trace, schedule, k - 1, t);
      if u == t && trace[k - 1].threads[t].Idle? && (c.CallPush? || c.CallPop?) {
        CallServed(trace, schedule, k, t);
      } else {
        StepServed(trace, schedule, k, t);
      }
    }
  }

  // A call has recorded nothing yet.
  lemma CallServed<T>(trace: seq<State<T>>, schedule: seq<(Tid, Choice<T>)>, k: nat, t: Tid)
    requires Trace(trace, schedule) && 0 < k <= |schedule| && t in trace[k].threads && t in trace[k - 1].threads
    requires schedule[k - 1].0 == t && trace[k - 1].threads[t].Idle?
    requires schedule[k - 1].1.CallPush? || schedule[k - 1].1.CallPop?
    ensures Serves(trace, schedule, k, t)
  {
    hide FoundNoNode, Own, Chain;
    assert Follows(trace[k - 1], trace[k], schedule[k - 1]);
    assert trace[k].history[|trace[k - 1].history|..] == [];
    NothingOwn<T>(t);
  }

  lemma StepServed<T>(trace: seq<State<T>>, schedule: seq<(Tid, Choice<T>)>, k: nat, t: Tid)
    requires Trace(trace, schedule) && 0 < k <= |schedule| && t in trace[k].threads && t in trace[k - 1].threads
    requires LastCall(trace, schedule, k, t) == LastCall(trace, schedule, k - 1, t)
    requires schedule[k - 1].0 == t && trace[k - 1].threads[t].Idle? ==>
      !schedule[k - 1].1.CallPush? && !schedule[k - 1].1.CallPop?
    requires Serves(trace, schedule, k - 1, t)
    ensures Serves(trace, schedule, k, t)
  {
    hide Step, ServesPush, ServesPop, Since, LastCall, Chain, News;
    var (u, c) := schedule[k - 1];
    var s, s' := trace[k - 1], trace[k];
    var j := LastCall(trace, schedule, k, t);
    assert Follows(s, s', schedule[k - 1]);
    SinceStep(trace, schedule, k, t);
    StepNews(s, u, c);
    if u != t {
      assert Since(trace, schedule, k - 1, t) + [] == Since(trace, schedule, k - 1, t);
      if j.Some? && schedule[j.value].1.CallPush? { NoNodeKept(trace, schedule, j.value, k, t); }
    } else if j.None? {
      IdleStays(s, t, c);
    } else if schedule[j.value].1.CallPush? {
      NoNodeKept(trace, schedule, j.value, k, t);
      PushStepServes(s, t, c, schedule[j.value].1.v, Since(trace, schedule, k - 1, t),
        FoundNoNode(trace, schedule, j.value, k - 1, t));
    } else {
      PopStepServes(s, t, c, Since(trace, schedule, k - 1, t));
    }
  }

  lemma IdleStays<T>(s: State<T>, t: Tid, c: Choice<T>)
    requires Addressable(s) && t in s.threads && s.threads[t].Idle? && !c.CallPush? && !c.CallPop?
    ensures Step(s, t, c) == s && News(s, s) == []
  {
  }

  lemma NoNodeKept<T>(trace: seq<State<T>>, schedule: seq<(Tid, Choice<T>)>, j: nat, k: nat, t: Tid)
    requires 0 < k <= |schedule| && |trace| == |schedule| + 1 && j < k - 1
    ensures FoundNoNode(trace, schedule, j, k, t) <==>
      FoundNoNode(trace, schedule, j, k - 1, t) || (schedule[k - 1].0 == t && trace[k - 1].mem.free.node.Null?)
  {
  }

  // A call that has returned: Push(v) has recorded that it pushed v, and nothing else, or has seen
  // the free list empty and recorded nothing; Pop has recorded the one thing it did.
  lemma CallReturned<T>(trace: seq<State<T>>, schedule: seq<(Tid, Choice<T>)>, k: nat, t: Tid)
    requires Trace(trace, schedule) && k <= |schedule| && t in trace[k].threads && trace[k].threads[t].Idle?
    requires LastCall(trace, schedule, k, t).Some?
    ensures
      var j := LastCall(trace, schedule, k, t).value;
      var call, since := schedule[j].1, Since(trace, schedule, k, t);
      && (call.CallPush? ==>
            since == [Pushed(t, call.v)] || (since == [] && FoundNoNode(trace, schedule, j, k, t)))
      && (call.CallPop? ==> since == [FoundEmpty(t)] || exists v :: since == [Popped(t, v)])
  {
    hide FoundNoNode, Since, LastCall;
    EveryCallServed(trace, schedule, k, t);
    var j := LastCall(trace, schedule, k, t).value;
    if schedule[j].1.CallPop? {
      var since := Since(trace, schedule, k, t);
      assert ServesPop(Idle, t, since);
      if since != [FoundEmpty(t)] { assert since == [Popped(t, since[0].v)]; }
    }
  }

  lemma IdleSilent<T>(s: State<T>, t: Tid, c: Choice<T>)
    requires Addressable(s) && t in s.threads
    ensures s.threads[t].Idle? ==> Step(s, t, c).history == s.history
  {
  }

  // Whatever is recorded was asked for: the value pushed is the argument of the thread's call.
  lemma EventWasCalled<T>(trace: seq<State<T>>, schedule: seq<(Tid, Choice<T>)>, k: nat, e: Event<T>)
    requires Trace(trace, schedule) && k < |schedule| && trace[k + 1].history == trace[k].history + [e]
    ensures schedule[k].0 == Actor(e) && LastCall(trace, schedule, k, Actor(e)).Some?
    ensures
      var call := schedule[LastCall(trace, schedule, k, Actor(e)).value].1;
      if e.Pushed? then call == CallPush(e.v) else call == CallPop
  {
    hide FoundNoNode, Since, Chain, Step;
    var (t, c) := schedule[k];
    assert Follows(trace[k], trace[k + 1], schedule[k]);
    StepNews(trace[k], t, c);
    SameThreads(trace[k], t, c);
    IdleSilent(trace[k], t, c);
    assert |trace[k + 1].history| == |trace[k].history| + 1;
    assert !trace[k].threads[t].Idle?;
    assert News(trace[k], trace[k + 1]) == [e];
    assert e in News(trace[k], trace[k + 1]);
    assert t == Actor(e);
    hide News;
    EveryCallServed(trace, schedule, k, t);
    assert LastCall(trace, schedule, k, t).Some?;
    EveryCallServed(trace, schedule, k + 1, t);
    SinceStep(trace, schedule, k + 1, t);
    assert e in Since(trace, schedule, k + 1, t);
  }

  // With the free list empty every node is on the stack or in some thread's hands.
  lemma NoNodeIsExhausted<T>(trace: seq<State<T>>, schedule: seq<(Tid, Choice<T>)>, k: nat)
    returns (stack: seq<nat>, free: seq<nat>)
    requires Trace(trace, schedule) && k <= |schedule| && trace[k].mem.free.node.Null?
    ensures Inv(trace[k], stack, free)
    ensures forall i :: 0 <= i < |trace[k].mem.next| ==> i in stack || HeldBySome(trace[k].threads, i)
  {
    stack, free := EveryRunIsLinearizable(trace, schedule, k);
    assert Chain(trace[k].mem.next, trace[k].mem.free.node, free);
    forall i | 0 <= i < |trace[k].mem.next| ensures i in stack || HeldBySome(trace[k].threads, i) {
      assert (multiset(stack) + multiset(free))[i] == multiset(stack)[i];
    }
  }

  // At quiescence `size_` is the number of elements the history left on the stack.
  lemma QuiescentSize<T>(trace: seq<State<T>>, schedule: seq<(Tid, Choice<T>)>, k: nat)
    requires Trace(trace, schedule) && k <= |schedule|
    requires forall t :: t in trace[k].threads ==> trace[k].threads[t].Idle?
    ensures Replay(trace[k].history).Some? && trace[k].size == |Replay(trace[k].history).value|
  {
    var stack, free := EveryRunIsLinearizable(trace, schedule, k);
    assert Uncounters(trace[k].threads) == {} && Counters(trace[k].threads) == {};
  }

  // Push fails only when no node is unused: each one is on the stack or in some thread's hands.
  lemma PushFailsOnlyWhenExhausted<T>(trace: seq<State<T>>, schedule: seq<(Tid, Choice<T>)>, k: nat, t: Tid,
        c: Choice<T>)
    returns (stack: seq<nat>, free: seq<nat>)
    requires Trace(trace, schedule) && k <= |schedule| && t in trace[k].threads
    requires Addressable(trace[k])
    requires (trace[k].threads[t].Loading? || trace[k].threads[t].Linked?) && trace[k].threads[t].job.Pushing?
    requires Step(trace[k], t, c).threads[t].Idle?
    ensures Inv(trace[k], stack, free)
    ensures forall i :: 0 <= i < |trace[k].mem.next| ==> i in stack || HeldBySome(trace[k].threads, i)
  {
    stack, free := NoNodeIsExhausted(trace, schedule, k);
  }
}
