/**
 The thread-safe copy-on-write string: string objects share reference-counted blocks; a block
 whose character was handed out by reference is marked unsharable.  Each string object is used
 by one thread at a time, so an operation in progress is kept in the string it works on; the
 operations of different strings interleave freely, one atomic action a step.  A step that
 touches a block outside the heap, or breaks one of the source's assertions, sets `fault`.
 */
module RcString {
  import opened Options
  import opened Arithmetic

  type Addr = nat
  type Sid = nat

  // The atomic `ref_count_`: a number of owners or the unsharable mark.
  datatype Ref = Count(n: int) | Mark

  datatype Block = Block(ref: Ref, content: string, capacity: nat)

  datatype Job = Append(text: string) | Index

  // What follows giving up the current block: the string is gone, or it moves to its clone.
  datatype After = Gone | Swap(spare: Addr, job: Job)

  datatype Pc =
    | Ready
    | Lent(borrower: Sid)    // the source of a copy in progress
    | Checking(src: Sid)     // copy constructor: about to read the source's mark
    | Sharing(src: Sid)      // copy constructor: about to share the block and add a reference
    | Cloning(src: Sid)      // copy constructor: about to clone the block
    | Testing(job: Job)      // PrepareToModify: about to test uniqueness
    | Copying(job: Job)      // PrepareToModify: about to clone the shared block
    | Reserving(job: Job)    // PrepareToModify: about to reserve
    | Marking(job: Job)      // PrepareToModify: about to store the reference count
    | Writing(text: string)  // Append: about to copy the new text in
    | Releasing(k: After)    // Release: about to test the mark
    | Subtracting(k: After)  // Release: about to subtract one reference
    | Deleting(k: After)     // about to delete the block

  // `out`: the block a reference from operator[] points into, until the next mutation.
  datatype Str = Str(data: Addr, pc: Pc, out: Option<Addr>)

  datatype State = State(
    heap: map<Addr, Block>,
    strings: map<Sid, Str>,
    fault: bool,
    value: map<Sid, string>)   // history: what each string would hold if nothing were shared

  // An action names the string it works on; `spot` is the address an allocation returns.
  datatype Move =
    | Create(x: Sid, spot: Addr, text: string)
    | CallCopy(x: Sid, src: Sid)
    | CallAppend(x: Sid, text: string)
    | CallIndex(x: Sid)
    | CallDestroy(x: Sid)
    | WriteRef(x: Sid, pos: nat, ch: char)
    | Go(x: Sid, spot: Addr)

  // ---------------------------------------------------------------- capacities

  const BASE_SIZE := 4

  function RoundToMultiple(num: int, factor: int): (r: int)
    ensures num >= 1 && factor > 0 ==> num <= r < num + factor && r % factor == 0
  {
    MultipleAbove(num - 1, factor);
    if factor <= 0 then 0 else num - 1 - (num - 1) % factor + factor
  }

  lemma MultipleAbove(num: int, factor: int)
    ensures num >= 0 && factor > 0 ==> (num - num % factor + factor) % factor == 0
  {
    if num >= 0 && factor > 0 {
      var q := num / factor + 1;
      assert num - num % factor + factor == q * factor + 0;
      Remainder(num - num % factor + factor, factor, q, 0);
    }
  }

  function Max(a: int, b: int): int { if a < b then b else a }

  // Reserve: the new capacity, at least what is required and never less than before.
  function Reserved(capacity: nat, required: nat): (c: nat)
    ensures c >= capacity && c >= required
    ensures
      var base := if capacity * 3 / 2 < required then required else capacity * 3 / 2;
      required > capacity ==> base <= c < base + 4 && c % 4 == 0
  {
    if required <= capacity then capacity
    else RoundToMultiple(Max(capacity * 3 / 2, required), BASE_SIZE)
  }

  function NewBlock(text: string, capacity: nat): Block {
    Block(Count(1), text, Reserved(0, capacity))
  }

  function Clone(b: Block, capacity: nat): Block {
    NewBlock(b.content, Max(capacity, b.capacity))
  }

  // ---------------------------------------------------------------- the machine

  function Goto(s: State, x: Sid, pc: Pc): State
    requires x in s.strings
  {
    s.(strings := s.strings[x := s.strings[x].(pc := pc)])
  }

  function Store(s: State, a: Addr, b: Block): State {
    s.(heap := s.heap[a := b])
  }

  function Fault(s: State): State { s.(fault := true) }

  function Required(b: Block, job: Job): nat {
    |b.content| + if job.Append? then |job.text| else 0
  }

  ghost function Extra(job: Job): nat { if job.Append? then |job.text| else 0 }

  // The destructor's assertion.
  predicate Disowned(b: Block) { b.ref == Count(0) || b.ref == Mark }

  predicate Unique(b: Block) { b.ref == Count(1) || b.ref == Mark }

  // The end of a copy: the new string is ready on block `a`, the source is given back.
  function EndCopy(s: State, x: Sid, src: Sid, a: Addr, text: string): State
    requires src in s.strings
  {
    s.(strings := s.strings[src := s.strings[src].(pc := Ready)][x := Str(a, Ready, None)],
       value := s.value[x := text])
  }

  // The end of a release.
  function EndRelease(s: State, x: Sid, k: After): State
    requires x in s.strings
  {
    if k.Gone? then s.(strings := s.strings - {x}, value := s.value - {x})
    else s.(strings := s.strings[x := Str(k.spare, Marking(k.job), None)])
  }

  function CopyStep(s: State, x: Sid, spot: Addr): State
    requires x in s.strings
  {
    var pc := s.strings[x].pc;
    if !pc.Checking? && !pc.Sharing? && !pc.Cloning? then s
    else if pc.src !in s.strings || pc.src !in s.value then Fault(s)
    else
      var a := s.strings[pc.src].data;
      if a !in s.heap then Fault(s)
      else if pc.Checking? then Goto(s, x, if s.heap[a].ref.Mark? then Cloning(pc.src) else Sharing(pc.src))
      else if pc.Sharing? then
        if s.heap[a].ref.Mark? || s.heap[a].ref.n <= 0 then Fault(s)
        else EndCopy(Store(s, a, s.heap[a].(ref := Count(s.heap[a].ref.n + 1))), x, pc.src, a, s.value[pc.src])
      else if spot in s.heap then s
      else EndCopy(Store(s, spot, Clone(s.heap[a], |s.heap[a].content|)), x, pc.src, spot, s.value[pc.src])
  }

  function ModifyStep(s: State, x: Sid, spot: Addr): State
    requires x in s.strings
  {
    var a := s.strings[x].data;
    if a !in s.heap || x !in s.value then Fault(s)
    else
      var b := s.heap[a];
      match s.strings[x].pc
      case Testing(job) => Goto(s, x, if Unique(b) then Reserving(job) else Copying(job))
      case Copying(job) =>
        if spot in s.heap then s
        else Goto(Store(s, spot, Clone(b, Required(b, job))), x, Releasing(Swap(spot, job)))
      case Reserving(job) => Goto(Store(s, a, b.(capacity := Reserved(b.capacity, Required(b, job)))), x, Marking(job))
      case Marking(job) =>
        if !Unique(b) then Fault(s)
        else if job.Append? then Goto(Store(s, a, b.(ref := Count(1))), x, Writing(job.text))
        else Store(s, a, b.(ref := Mark)).(strings := s.strings[x := Str(a, Ready, Some(a))])
      case Writing(text) =>
        if !Unique(b) || |b.content| + |text| > b.capacity then Fault(s)
        else Goto(Store(s, a, b.(content := b.content + text)), x, Ready).(value := s.value[x := s.value[x] + text])
      case _ => s
  }

  function ReleaseStep(s: State, x: Sid): State
    requires x in s.strings
  {
    var a := s.strings[x].data;
    if a !in s.heap then Fault(s)
    else
      var b := s.heap[a];
      match s.strings[x].pc
      case Releasing(k) => Goto(s, x, if b.ref.Mark? then Deleting(k) else Subtracting(k))
      case Subtracting(k) =>
        if b.ref.Mark? || b.ref.n <= 0 then Fault(s)
        else
          var s1 := Store(s, a, b.(ref := Count(b.ref.n - 1)));
          if b.ref.n == 1 then Goto(s1, x, Deleting(k)) else EndRelease(s1, x, k)
      case Deleting(k) =>
        if !Disowned(b) then Fault(s) else EndRelease(s.(heap := s.heap - {a}), x, k)
      case _ => s
  }

  predicate InCopy(pc: Pc) { pc.Checking? || pc.Sharing? || pc.Cloning? }

  predicate InRelease(pc: Pc) { pc.Releasing? || pc.Subtracting? || pc.Deleting? }

  // A call on a string that is in use, or does not exist, is outside the protocol: no step.
  function Step(s: State, m: Move): State {
    match m
    case Create(x, spot, text) =>
      if x in s.strings || spot in s.heap then s
      else Store(s, spot, NewBlock(text, |text|)).(
        strings := s.strings[x := Str(spot, Ready, None)], value := s.value[x := text])
    case CallCopy(x, src) =>
      if x in s.strings || src !in s.strings || !s.strings[src].pc.Ready? then s
      else s.(strings := s.strings[src := s.strings[src].(pc := Lent(x))][x := Str(0, Checking(src), None)])
    case CallAppend(x, text) =>
      if x in s.strings && s.strings[x].pc.Ready?
      then s.(strings := s.strings[x := Str(s.strings[x].data, Testing(Append(text)), None)]) else s
    case CallIndex(x) =>
      if x in s.strings && s.strings[x].pc.Ready?
      then s.(strings := s.strings[x := Str(s.strings[x].data, Testing(Index), None)]) else s
    case CallDestroy(x) =>
      if x in s.strings && s.strings[x].pc.Ready?
      then s.(strings := s.strings[x := Str(s.strings[x].data, Releasing(Gone), None)]) else s
    case WriteRef(x, pos, ch) =>
      if x in s.strings && s.strings[x].pc.Ready? && s.strings[x].out.Some? then WriteThrough(s, x, pos, ch) else s
    case Go(x, spot) =>
      if x !in s.strings || s.strings[x].pc.Ready? || s.strings[x].pc.Lent? then s
      else if InRelease(s.strings[x].pc) then ReleaseStep(s, x)
      else if InCopy(s.strings[x].pc) then CopyStep(s, x, spot)
      else ModifyStep(s, x, spot)
  }

  // A write through the reference that operator[] returned: it goes wherever that points.
  function WriteThrough(s: State, x: Sid, pos: nat, ch: char): State
    requires x in s.strings && s.strings[x].out.Some?
  {
    var a := s.strings[x].out.value;
    if a !in s.heap || x !in s.value then Fault(s)
    else if pos >= |s.heap[a].content| || pos >= |s.value[x]| then s
    else Store(s, a, s.heap[a].(content := s.heap[a].content[pos := ch])).(value := s.value[x := s.value[x][pos := ch]])
  }

  // ---------------------------------------------------------------- who holds a block

  type Claims = map<Sid, set<Addr>>

  // The blocks a string counts as an owner of: its current one, and the clone it moves to.
  ghost function Held(str: Str): set<Addr> {
    (if InCopy(str.pc) || str.pc.Deleting? then {} else {str.data})
    + (if InRelease(str.pc) && str.pc.k.Swap? then {str.pc.k.spare} else {})
  }

  // The block it is about to delete.
  ghost function Reaped(str: Str): set<Addr> {
    if str.pc.Deleting? then {str.data} else {}
  }

  ghost function Holding(strings: map<Sid, Str>): Claims { map x | x in strings :: Held(strings[x]) }

  ghost function Reaping(strings: map<Sid, Str>): Claims { map x | x in strings :: Reaped(strings[x]) }

  lemma ClaimsAfter(strings: map<Sid, Str>, x: Sid, str: Str)
    ensures Holding(strings[x := str]) == Holding(strings)[x := Held(str)]
    ensures Reaping(strings[x := str]) == Reaping(strings)[x := Reaped(str)]
  {
  }

  ghost function Claimants(c: Claims, a: Addr): set<Sid> {
    set x | x in c && a in c[x]
  }

  // A block is counted by its owners, or marked with one owner, or has one string deleting it.
  ghost predicate Accounted(ref: Ref, holders: set<Sid>, reapers: set<Sid>) {
    if reapers == {} then |holders| >= 1 && (ref == Count(|holders|) || (ref == Mark && |holders| == 1))
    else |reapers| == 1 && holders == {} && (ref == Count(0) || ref == Mark)
  }

  ghost predicate Inside(heap: map<Addr, Block>, c: Claims) {
    forall x, a {:trigger a in c[x]} :: x in c && a in c[x] ==> a in heap
  }

  ghost predicate Owned(heap: map<Addr, Block>, hold: Claims, reap: Claims) {
    && Inside(heap, hold) && Inside(heap, reap)
    && (forall a :: a in heap ==> Accounted(heap[a].ref, Claimants(hold, a), Claimants(reap, a)))
  }

  // What each string shows is its own value; blocks never overflow.
  ghost predicate Faithful(heap: map<Addr, Block>, hold: Claims, value: map<Sid, string>) {
    && (forall x, a {:trigger a in hold[x]} ::
      x in hold && a in hold[x] ==> x in value && a in heap && heap[a].content == value[x])
    && (forall a :: a in heap ==> |heap[a].content| <= heap[a].capacity)
  }

  ghost predicate Sole(hold: Claims, x: Sid, a: Addr) {
    forall y {:trigger a in hold[y]} :: y in hold && a in hold[y] ==> y == x
  }

  // What an operation in progress knows about its own blocks.
  ghost predicate Knows(heap: map<Addr, Block>, hold: Claims, x: Sid, str: Str) {
    && (str.out.Some? ==> Referenced(heap, str))
    && match str.pc
       case Reserving(job) => Sole(hold, x, str.data)
       case Marking(job) => Sole(hold, x, str.data) && Room(heap, str.data, Extra(job))
       case Writing(text) => Sole(hold, x, str.data) && Room(heap, str.data, |text|)
       case Releasing(k) => SpareReady(heap, hold, x, str.data, k)
       case Subtracting(k) => str.data in heap && heap[str.data].ref.Count? && SpareReady(heap, hold, x, str.data, k)
       case Deleting(k) => SpareReady(heap, hold, x, str.data, k)
       case _ => true
  }

  // A reference handed out points into the string's own, marked block.
  ghost predicate Referenced(heap: map<Addr, Block>, str: Str) {
    && (str.pc.Ready? || str.pc.Lent?)
    && str.out == Some(str.data) && str.data in heap && heap[str.data].ref.Mark?
  }

  ghost predicate Room(heap: map<Addr, Block>, a: Addr, extra: nat) {
    a in heap && |heap[a].content| + extra <= heap[a].capacity
  }

  ghost predicate SpareReady(heap: map<Addr, Block>, hold: Claims, x: Sid, a: Addr, k: After) {
    k.Swap? ==> k.spare != a && Sole(hold, x, k.spare) && Room(heap, k.spare, Extra(k.job))
  }

  ghost predicate Known(heap: map<Addr, Block>, hold: Claims, strings: map<Sid, Str>) {
    forall x {:trigger Knows(heap, hold, x, strings[x])} :: x in strings ==> Knows(heap, hold, x, strings[x])
  }

  // Copies in progress and their sources are paired, and a block being shared is sharable.
  ghost predicate Paired(heap: map<Addr, Block>, strings: map<Sid, Str>) {
    forall x {:trigger PairOk(heap, strings, x)} :: x in strings ==> PairOk(heap, strings, x)
  }

  ghost predicate PairOk(heap: map<Addr, Block>, strings: map<Sid, Str>, x: Sid)
    requires x in strings
  {
    var pc := strings[x].pc;
    if InCopy(pc) then
      pc.src in strings && strings[pc.src].pc == Lent(x) && (pc.Sharing? ==> Sharable(heap, strings[pc.src].data))
    else if pc.Lent? then
      pc.borrower in strings && InCopy(strings[pc.borrower].pc) && strings[pc.borrower].pc.src == x
    else true
  }

  ghost predicate Sharable(heap: map<Addr, Block>, a: Addr) { a in heap && heap[a].ref.Count? }

  ghost predicate Inv(s: State) {
    && !s.fault
    && Owned(s.heap, Holding(s.strings), Reaping(s.strings))
    && Faithful(s.heap, Holding(s.strings), s.value)
    && Known(s.heap, Holding(s.strings), s.strings)
    && Paired(s.heap, s.strings)
  }

  ghost predicate Init(s: State) {
    s.heap == map[] && s.strings == map[] && !s.fault && s.value == map[]
  }

  // ---------------------------------------------------------------- the accounts

  lemma ClaimantsAfter(c: Claims, x: Sid, held: set<Addr>, a: Addr)
    ensures Claimants(c[x := held], a) == if a in held then Claimants(c, a) + {x} else Claimants(c, a) - {x}
  {
  }

  // One block's account, when `x` alone changes its claims.
  lemma AccountAfter(hold: Claims, reap: Claims, x: Sid, held: set<Addr>, reaped: set<Addr>, c: Addr, ref: Ref,
        ref': Ref)
    requires Accounted(ref, Claimants(hold, c), Claimants(reap, c)) && x !in Claimants(reap, c)
    requires
      var before := x in Claimants(hold, c);
      if c in held && before then ref' == ref && c !in reaped
      else if c in held then ref.Count? && ref.n > 0 && ref' == Count(ref.n + 1) && c !in reaped
      else if before then
        if ref.Mark? then ref' == ref && c in reaped else ref' == Count(ref.n - 1) && (c in reaped <==> ref.n == 1)
      else ref' == ref && c !in reaped
    ensures Accounted(ref', Claimants(hold[x := held], c), Claimants(reap[x := reaped], c))
  {
    var h, r := Claimants(hold, c), Claimants(reap, c);
    ClaimantsAfter(hold, x, held, c);
    ClaimantsAfter(reap, x, reaped, c);
    assert r - {x} == r;
    if x in h {
      assert r == {} && h + {x} == h && |h - {x}| == |h| - 1;
      assert r + {x} == {x};
    } else {
      assert h - {x} == h;
    }
  }

  // A block at a free address, counted once, for `x` alone.
  lemma AllocOwned(heap: map<Addr, Block>, hold: Claims, reap: Claims, x: Sid, spot: Addr, b: Block, held: set<Addr>)
    requires Owned(heap, hold, reap) && spot !in heap && b.ref == Count(1)
    requires held == {spot} + if x in hold then hold[x] else {}
    requires x in reap ==> reap[x] == {}
    ensures Owned(heap[spot := b], hold[x := held], reap[x := {}])
  {
    var heap' := heap[spot := b];
    forall c | c in heap'
      ensures Accounted(heap'[c].ref, Claimants(hold[x := held], c), Claimants(reap[x := {}], c))
    {
      if c == spot {
        ClaimantsAfter(hold, x, held, c);
        ClaimantsAfter(reap, x, {}, c);
        assert Claimants(hold, c) == {} && Claimants(reap, c) == {};
      } else {
        AccountAfter(hold, reap, x, held, {}, c, heap[c].ref, heap[c].ref);
      }
    }
  }

  // One more owner of `a`, or one fewer.
  lemma ShareOwned(heap: map<Addr, Block>, hold: Claims, reap: Claims, x: Sid, a: Addr)
    requires Owned(heap, hold, reap) && a in heap && heap[a].ref.Count? && heap[a].ref.n > 0
    requires x in hold && hold[x] == {} && (x in reap ==> reap[x] == {})
    ensures Owned(heap[a := heap[a].(ref := Count(heap[a].ref.n + 1))], hold[x := {a}], reap[x := {}])
  {
    var heap' := heap[a := heap[a].(ref := Count(heap[a].ref.n + 1))];
    forall c | c in heap'
      ensures Accounted(heap'[c].ref, Claimants(hold[x := {a}], c), Claimants(reap[x := {}], c))
    {
      AccountAfter(hold, reap, x, {a}, {}, c, heap[c].ref, heap'[c].ref);
    }
  }

  lemma LeaveOwned(heap: map<Addr, Block>, hold: Claims, reap: Claims, x: Sid, a: Addr, held: set<Addr>)
    requires Owned(heap, hold, reap) && a in heap && heap[a].ref.Count?
    requires x in hold && a in hold[x] && held == hold[x] - {a} && x in reap && reap[x] == {}
    ensures heap[a].ref.n >= 1
    ensures
      var heap' := heap[a := heap[a].(ref := Count(heap[a].ref.n - 1))];
      Owned(heap', hold[x := held], reap[x := if heap[a].ref.n == 1 then {a} else {}])
  {
    assert x in Claimants(hold, a);
    var last: set<Addr> := if heap[a].ref.n == 1 then {a} else {};
    var heap' := heap[a := heap[a].(ref := Count(heap[a].ref.n - 1))];
    forall c | c in heap'
      ensures Accounted(heap'[c].ref, Claimants(hold[x := held], c), Claimants(reap[x := last], c))
    {
      AccountAfter(hold, reap, x, held, last, c, heap[c].ref, heap'[c].ref);
    }
  }

  // The sole owner of a marked block gives it up to delete it.
  lemma ReapOwned(heap: map<Addr, Block>, hold: Claims, reap: Claims, x: Sid, a: Addr, held: set<Addr>)
    requires Owned(heap, hold, reap) && a in heap && heap[a].ref.Mark?
    requires x in hold && a in hold[x] && held == hold[x] - {a} && x in reap && reap[x] == {}
    ensures Owned(heap, hold[x := held], reap[x := {a}])
  {
    forall c | c in heap
      ensures Accounted(heap[c].ref, Claimants(hold[x := held], c), Claimants(reap[x := {a}], c))
    {
      AccountAfter(hold, reap, x, held, {a}, c, heap[c].ref, heap[c].ref);
    }
  }

  // The deletion: nobody claims the block any more.
  lemma DeleteOwned(heap: map<Addr, Block>, hold: Claims, reap: Claims, x: Sid, a: Addr)
    requires Owned(heap, hold, reap) && x in reap && reap[x] == {a}
    ensures a in heap && Owned(heap - {a}, hold, reap[x := {}])
  {
    LastClaim(heap, hold, reap, x, a);
    forall c | c in heap - {a} ensures Claimants(reap[x := {}], c) == Claimants(reap, c) {
      ClaimantsAfter(reap, x, {}, c);
    }
  }

  lemma LastClaim(heap: map<Addr, Block>, hold: Claims, reap: Claims, x: Sid, a: Addr)
    requires Owned(heap, hold, reap) && x in reap && reap[x] == {a}
    ensures a in heap && Disowned(heap[a])
    ensures forall y :: y in hold ==> a !in hold[y]
    ensures forall y :: y in reap && y != x ==> a !in reap[y]
  {
    assert a in reap[x];
    assert x in Claimants(reap, a);
    forall y | y in hold ensures a !in hold[y] { assert a in hold[y] ==> y in Claimants(hold, a); }
    forall y | y in reap && y != x ensures a !in reap[y] {
      assert |Claimants(reap, a) - {x}| == 0;
      assert a in reap[y] ==> y in Claimants(reap, a) - {x};
    }
  }

  // A string that claims nothing may come and go.
  lemma ForgetOwned(heap: map<Addr, Block>, hold: Claims, reap: Claims, x: Sid)
    requires Owned(heap, hold, reap)
    requires (x in hold ==> hold[x] == {}) && (x in reap ==> reap[x] == {})
    ensures Owned(heap, hold - {x}, reap - {x}) && Owned(heap, hold[x := {}], reap[x := {}])
  {
    forall c ensures Claimants(hold - {x}, c) == Claimants(hold, c) == Claimants(hold[x := {}], c) {}
    forall c ensures Claimants(reap - {x}, c) == Claimants(reap, c) == Claimants(reap[x := {}], c) {}
  }

  // The sole owner may set the count to one or to the mark, and may change the block's contents.
  lemma SetOwned(heap: map<Addr, Block>, hold: Claims, reap: Claims, x: Sid, a: Addr, b: Block)
    requires Owned(heap, hold, reap) && a in heap && x in hold && a in hold[x] && Sole(hold, x, a)
    requires b.ref == heap[a].ref || b.ref == Count(1) || b.ref == Mark
    ensures Owned(heap[a := b], hold, reap)
  {
    SoleCount(heap, hold, reap, x, a);
  }

  lemma SoleCount(heap: map<Addr, Block>, hold: Claims, reap: Claims, x: Sid, a: Addr)
    requires Owned(heap, hold, reap) && a in heap && x in hold && a in hold[x]
    ensures Sole(hold, x, a) <==> heap[a].ref == Count(1) || heap[a].ref == Mark
    ensures Sole(hold, x, a) ==> Claimants(hold, a) == {x}
    ensures Claimants(reap, a) == {}
  {
    var c := Claimants(hold, a);
    assert x in c;
    if |c| == 1 {
      assert |c - {x}| == 0;
      forall y | y in hold && a in hold[y] ensures y == x { assert y in c - {x} || y == x; }
    }
    if Sole(hold, x, a) { assert c == {x}; }
  }

  // ---------------------------------------------------------------- what the others keep

  ghost predicate SameShape(b: Block, b': Block) {
    b'.ref.Count? == b.ref.Count? && b'.content == b.content && b'.capacity == b.capacity
  }

  // The blocks that strings other than `x` hold keep their shape.
  ghost predicate Unshaken(heap: map<Addr, Block>, heap': map<Addr, Block>, hold: Claims, x: Sid) {
    forall z, a {:trigger a in hold[z]} ::
      z in hold && z != x && a in hold[z] && a in heap ==> a in heap' && SameShape(heap[a], heap'[a])
  }

  // `x` moves onto no block that another string holds, unless it held it before.
  ghost predicate Apart(hold: Claims, x: Sid, held: set<Addr>) {
    forall a, y {:trigger a in hold[y]} ::
      a in held && y in hold && y != x && a in hold[y] ==> x in hold && a in hold[x]
  }

  // ... or at least none that a string in the middle of a modification believes its own.
  ghost predicate NoIntrusion(hold: Claims, strings: map<Sid, Str>, x: Sid, held: set<Addr>) {
    forall a, y {:trigger a in hold[y]} ::
      a in held && y in hold && y in strings && y != x && a in hold[y] && Sole(hold, y, a) ==>
        strings[y].pc.Ready? || strings[y].pc.Lent?
  }

  lemma ApartIsEnough(hold: Claims, strings: map<Sid, Str>, x: Sid, held: set<Addr>)
    requires Apart(hold, x, held)
    ensures NoIntrusion(hold, strings, x, held)
  {
  }

  lemma KnowsKept(heap: map<Addr, Block>, heap': map<Addr, Block>, hold: Claims, x: Sid, held: set<Addr>,
        y: Sid, str: Str)
    requires y in hold && y != x && hold[y] == Held(str) && Knows(heap, hold, y, str)
    requires Inside(heap, hold) && Unshaken(heap, heap', hold, x)
    requires forall a :: a in held && a in hold[y] && Sole(hold, y, a) ==> str.pc.Lent? || str.pc.Ready?
    ensures Knows(heap', hold[x := held], y, str)
  {
    if !InCopy(str.pc) && !str.pc.Deleting? { assert str.data in hold[y]; }
    if InRelease(str.pc) && str.pc.k.Swap? { assert str.pc.k.spare in hold[y]; }
  }

  // The same for all the others at once, and for the pairs.
  lemma OthersKnow(heap: map<Addr, Block>, heap': map<Addr, Block>, hold: Claims, strings: map<Sid, Str>,
        x: Sid, str: Str)
    requires Known(heap, hold, strings) && Inside(heap, hold) && hold == Holding(strings)
    requires Unshaken(heap, heap', hold, x)
    requires NoIntrusion(hold, strings, x, Held(str))
    requires Knows(heap', hold[x := Held(str)], x, str)
    ensures Known(heap', hold[x := Held(str)], strings[x := str])
  {
    forall y | y in strings && y != x ensures Knows(heap', hold[x := Held(str)], y, strings[y]) {
      assert Knows(heap, hold, y, strings[y]);
      assert y in hold && hold[y] == Held(strings[y]);
      KnowsKept(heap, heap', hold, x, Held(str), y, strings[y]);
    }
  }

  lemma PairedKept(heap: map<Addr, Block>, heap': map<Addr, Block>, hold: Claims, strings: map<Sid, Str>,
        x: Sid, str: Str)
    requires Paired(heap, strings) && hold == Holding(strings) && Unshaken(heap, heap', hold, x)
    requires !str.pc.Lent? && !InCopy(str.pc)
    requires x in strings ==> !strings[x].pc.Lent? && !InCopy(strings[x].pc)
    ensures Paired(heap', strings[x := str])
  {
    forall z | z in strings && z != x ensures PairOk(heap', strings[x := str], z) {
      assert PairOk(heap, strings, z);
      if strings[z].pc.Sharing? {
        var src := strings[z].pc.src;
        assert src in hold && strings[src].data in hold[src];
      }
    }
  }

  lemma SameClaims(strings: map<Sid, Str>, x: Sid, str: Str)
    requires x in strings && Held(str) == Held(strings[x]) && Reaped(str) == Reaped(strings[x])
    ensures Holding(strings[x := str]) == Holding(strings) && Reaping(strings[x := str]) == Reaping(strings)
    ensures Holding(strings)[x := Held(str)] == Holding(strings)
    ensures Reaping(strings)[x := Reaped(str)] == Reaping(strings)
  {
    ClaimsAfter(strings, x, str);
  }

  // The invariant, as a step of `x` uses it.
  lemma InvParts(s: State, x: Sid)
    requires Inv(s) && x in s.strings
    ensures
      var hold, reap := Holding(s.strings), Reaping(s.strings);
      && !s.fault && Owned(s.heap, hold, reap) && Faithful(s.heap, hold, s.value)
      && Known(s.heap, hold, s.strings) && Paired(s.heap, s.strings) && Inside(s.heap, hold)
      && x in hold && hold[x] == Held(s.strings[x]) && x in reap && reap[x] == Reaped(s.strings[x])
      && (forall a :: a in hold[x] || a in reap[x] ==> a in s.heap)
      && (forall a :: a in hold[x] ==> x in s.value && s.heap[a].content == s.value[x])
      && (forall a :: a in hold[x] ==> |s.heap[a].content| <= s.heap[a].capacity)
      && Knows(s.heap, hold, x, s.strings[x])
  {
    ClaimsOf(s.strings, x);
  }

  lemma LessFaithful(heap: map<Addr, Block>, hold: Claims, value: map<Sid, string>, x: Sid, held: set<Addr>)
    requires Faithful(heap, hold, value) && x in hold && held <= hold[x]
    ensures Faithful(heap, hold[x := held], value)
  {
  }

  lemma ClaimsOf(strings: map<Sid, Str>, x: Sid)
    requires x in strings
    ensures x in Holding(strings) && Holding(strings)[x] == Held(strings[x])
    ensures x in Reaping(strings) && Reaping(strings)[x] == Reaped(strings[x])
  {
  }

  // A step of `x` that changes neither the heap nor what `x` claims.
  lemma LocalInv(s: State, x: Sid, str: Str)
    requires Inv(s) && x in s.strings
    requires Held(str) == Held(s.strings[x]) && Reaped(str) == Reaped(s.strings[x])
    requires !str.pc.Lent? && !s.strings[x].pc.Lent? && !InCopy(str.pc) && !InCopy(s.strings[x].pc)
    requires Knows(s.heap, Holding(s.strings), x, str)
    ensures Inv(s.(strings := s.strings[x := str]))
  {
    var hold := Holding(s.strings);
    SameClaims(s.strings, x, str);
    ApartIsEnough(hold, s.strings, x, Held(str));
    OthersKnow(s.heap, s.heap, hold, s.strings, x, str);
    PairedKept(s.heap, s.heap, hold, s.strings, x, str);
  }

  // A step of `x` that changes the heap or its claims, given the effect on the accounts.
  lemma ActInv(s: State, x: Sid, str: Str, s': State)
    requires Inv(s) && !s'.fault && s'.strings == s.strings[x := str]
    requires !str.pc.Lent? && !InCopy(str.pc)
    requires x in s.strings ==> !s.strings[x].pc.Lent? && !InCopy(s.strings[x].pc)
    requires Unshaken(s.heap, s'.heap, Holding(s.strings), x)
    requires Apart(Holding(s.strings), x, Held(str))
    requires Owned(s'.heap, Holding(s.strings)[x := Held(str)], Reaping(s.strings)[x := Reaped(str)])
    requires Faithful(s'.heap, Holding(s.strings)[x := Held(str)], s'.value)
    requires Knows(s'.heap, Holding(s.strings)[x := Held(str)], x, str)
    ensures Inv(s')
  {
    ClaimsAfter(s.strings, x, str);
    ApartIsEnough(Holding(s.strings), s.strings, x, Held(str));
    OthersKnow(s.heap, s'.heap, Holding(s.strings), s.strings, x, str);
    PairedKept(s.heap, s'.heap, Holding(s.strings), s.strings, x, str);
  }

  // A new string on a new block.
  lemma CreateInv(s: State, x: Sid, spot: Addr, text: string)
    requires Inv(s) && x !in s.strings && spot !in s.heap
    ensures Inv(Store(s, spot, NewBlock(text, |text|)).(
      strings := s.strings[x := Str(spot, Ready, None)], value := s.value[x := text]))
  {
    var str, b := Str(spot, Ready, None), NewBlock(text, |text|);
    var hold, reap := Holding(s.strings), Reaping(s.strings);
    CreateClaims(s.strings, x, spot);
    hide Inv, Owned, Faithful, Known, Paired, Held, Reaped, Holding, Reaping, Knows;
    InvOwned(s);
    AllocOwned(s.heap, hold, reap, x, spot, b, {spot});
    AllocFaithful(s.heap, hold, s.value, x, spot, b, {spot}, text);
    AllocApart(s.heap, hold, x, spot, b);
    CreateKnows(s.heap[spot := b], hold[x := {spot}], x, spot);
    hide Unshaken, Apart;
    ActInv(s, x, str, Store(s, spot, b).(strings := s.strings[x := str], value := s.value[x := text]));
  }

  lemma CreateClaims(strings: map<Sid, Str>, x: Sid, spot: Addr)
    requires x !in strings
    ensures x !in Holding(strings) && x !in Reaping(strings)
    ensures Held(Str(spot, Ready, None)) == {spot} && Reaped(Str(spot, Ready, None)) == {}
  {
  }

  lemma CreateKnows(heap: map<Addr, Block>, hold: Claims, x: Sid, spot: Addr)
    ensures Knows(heap, hold, x, Str(spot, Ready, None))
  {
  }

  lemma AllocFaithful(heap: map<Addr, Block>, hold: Claims, value: map<Sid, string>, x: Sid, spot: Addr,
        b: Block, held: set<Addr>, text: string)
    requires Faithful(heap, hold, value) && spot !in heap
    requires b.content == text && |text| <= b.capacity
    requires held == {spot} + if x in hold then hold[x] else {}
    requires forall a :: x in hold && a in hold[x] ==> x in value && value[x] == text
    ensures Faithful(heap[spot := b], hold[x := held], value[x := text])
  {
    var heap', hold', value' := heap[spot := b], hold[x := held], value[x := text];
    forall y, a | y in hold' && a in hold'[y] ensures y in value' && a in heap' && heap'[a].content == value'[y] {
      if y != x || a != spot { assert y in hold && a in hold[y]; }
    }
  }

  // PrepareToModify's clone: a private copy of the shared block.
  lemma CopyOutInv(s: State, x: Sid, spot: Addr)
    requires Inv(s) && x in s.strings && s.strings[x].pc.Copying? && spot !in s.heap
    ensures s.strings[x].data in s.heap
    ensures
      var b, job := s.heap[s.strings[x].data], s.strings[x].pc.job;
      Inv(Goto(Store(s, spot, Clone(b, Required(b, job))), x, Releasing(Swap(spot, job))))
  {
    var a, job, hold := s.strings[x].data, s.strings[x].pc.job, Holding(s.strings);
    InvParts(s, x);
    CopyOutHeld(s.strings[x], spot);
    hide Inv, Owned, Faithful, Known, Paired, Held, Reaped;
    var b := Clone(s.heap[a], Required(s.heap[a], job));
    var str := s.strings[x].(pc := Releasing(Swap(spot, job)));
    CopyOutAccounts(s.heap, hold, Reaping(s.strings), s.value, x, a, spot, b);
    CopyOutKnows(s.heap, hold, x, s.strings[x], spot);
    ActInv(s, x, str, s.(heap := s.heap[spot := b], strings := s.strings[x := str]));
  }

  lemma CopyOutHeld(str: Str, spot: Addr)
    requires str.pc.Copying?
    ensures Held(str) == {str.data} && str.data in Held(str) && Reaped(str) == {}
    ensures
      var str' := str.(pc := Releasing(Swap(spot, str.pc.job)));
      Held(str') == {spot, str.data} && Reaped(str') == {}
  {
  }

  lemma CopyOutAccounts(heap: map<Addr, Block>, hold: Claims, reap: Claims, value: map<Sid, string>, x: Sid,
        a: Addr, spot: Addr, b: Block)
    requires Owned(heap, hold, reap) && Faithful(heap, hold, value) && spot !in heap
    requires x in hold && hold[x] == {a} && x in reap && reap[x] == {} && a in heap
    requires b.ref == Count(1) && b.content == heap[a].content && |b.content| <= b.capacity
    ensures Owned(heap[spot := b], hold[x := {spot, a}], reap[x := {}])
    ensures Faithful(heap[spot := b], hold[x := {spot, a}], value)
    ensures Unshaken(heap, heap[spot := b], hold, x) && Apart(hold, x, {spot, a})
  {
    assert {spot, a} == {spot} + hold[x];
    AllocOwned(heap, hold, reap, x, spot, b, {spot, a});
    AllocFaithful(heap, hold, value, x, spot, b, {spot, a}, value[x]);
    assert value[x := value[x]] == value;
  }

  lemma CopyOutKnows(heap: map<Addr, Block>, hold: Claims, x: Sid, str: Str, spot: Addr)
    requires Inside(heap, hold) && x in hold && str.data in heap && spot !in heap && str.pc.Copying?
    requires Knows(heap, hold, x, str)
    ensures
      var b := Clone(heap[str.data], Required(heap[str.data], str.pc.job));
      Knows(heap[spot := b], hold[x := {spot, str.data}], x, str.(pc := Releasing(Swap(spot, str.pc.job))))
  {
  }

  // The sole owner changes its block, by reserving, marking or writing.
  lemma OwnBlockInv(s: State, x: Sid, str: Str, b: Block, text: string)
    requires Inv(s) && x in s.strings
    requires Held(s.strings[x]) == Held(str) == {s.strings[x].data} && Reaped(s.strings[x]) == Reaped(str) == {}
    requires !str.pc.Lent? && !InCopy(str.pc) && !s.strings[x].pc.Lent? && !InCopy(s.strings[x].pc)
    requires Sole(Holding(s.strings), x, s.strings[x].data) && s.strings[x].data in s.heap
    requires b.ref == s.heap[s.strings[x].data].ref || b.ref == Count(1) || b.ref == Mark
    requires b.content == text && |text| <= b.capacity
    requires Knows(s.heap[s.strings[x].data := b], Holding(s.strings), x, str)
    ensures Inv(s.(heap := s.heap[s.strings[x].data := b], strings := s.strings[x := str], value := s.value[x := text]))
  {
    hide Inv, Owned, Faithful, Known, Paired, Held, Reaped, Knows, Holding, Reaping, Sole;
    var a, hold, reap := s.strings[x].data, Holding(s.strings), Reaping(s.strings);
    InvParts(s, x);
    SameClaims(s.strings, x, str);
    OwnBlockApart(s.heap, hold, x, a, b);
    SetOwned(s.heap, hold, reap, x, a, b);
    SetFaithful(s.heap, hold, s.value, x, a, b, text);
    ActInv(s, x, str, s.(heap := s.heap[a := b], strings := s.strings[x := str], value := s.value[x := text]));
  }

  lemma OwnBlockApart(heap: map<Addr, Block>, hold: Claims, x: Sid, a: Addr, b: Block)
    requires x in hold && hold[x] == {a} && Sole(hold, x, a) && Inside(heap, hold)
    ensures a in hold[x] && Unshaken(heap, heap[a := b], hold, x) && Apart(hold, x, {a})
  {
  }

  lemma SetFaithful(heap: map<Addr, Block>, hold: Claims, value: map<Sid, string>, x: Sid, a: Addr, b: Block,
        text: string)
    requires Faithful(heap, hold, value) && x in hold && hold[x] == {a} && Sole(hold, x, a)
    requires b.content == text && |text| <= b.capacity
    ensures Faithful(heap[a := b], hold, value[x := text])
  {
    var heap', value' := heap[a := b], value[x := text];
    forall y, c | y in hold && c in hold[y] ensures y in value' && c in heap' && heap'[c].content == value'[y] {}
  }

  // Release on a marked block: the sole owner goes straight to deleting it.
  lemma ReapInv(s: State, x: Sid)
    requires Inv(s) && x in s.strings && s.strings[x].pc.Releasing?
    requires s.strings[x].data in s.heap && s.heap[s.strings[x].data].ref.Mark?
    ensures Inv(Goto(s, x, Deleting(s.strings[x].pc.k)))
  {
    var a, hold, reap := s.strings[x].data, Holding(s.strings), Reaping(s.strings);
    hide Inv, Owned, Faithful, Known, Paired;
    InvParts(s, x);
    var str := s.strings[x].(pc := Deleting(s.strings[x].pc.k));
    ReapKnows(s.heap, hold, x, s.strings[x]);
    ReapOwned(s.heap, hold, reap, x, a, Held(str));
    LessFaithful(s.heap, hold, s.value, x, Held(str));
    ActInv(s, x, str, s.(strings := s.strings[x := str]));
  }

  lemma ReapKnows(heap: map<Addr, Block>, hold: Claims, x: Sid, str: Str)
    requires x in hold && str.pc.Releasing? && Held(str) == hold[x] && Knows(heap, hold, x, str)
    ensures
      var str' := str.(pc := Deleting(str.pc.k));
      && Held(str') == hold[x] - {str.data} && str.data in hold[x] && Reaped(str) == {} && Reaped(str') == {str.data}
      && Knows(heap, hold[x := Held(str')], x, str') && Apart(hold, x, Held(str')) && Unshaken(heap, heap, hold, x)
  {
  }

  // A step that ends with the string gone.
  lemma GoneInv(s: State, x: Sid, s': State)
    requires Inv(s) && x in s.strings && !s.fault && !s'.fault
    requires s'.strings == s.strings - {x} && s'.value == s.value - {x}
    requires InRelease(s.strings[x].pc)
    requires Unshaken(s.heap, s'.heap, Holding(s.strings), x)
    requires Owned(s'.heap, Holding(s.strings)[x := {}], Reaping(s.strings)[x := {}])
    requires Faithful(s'.heap, Holding(s.strings)[x := {}], s.value)
    ensures Inv(s')
  {
    var hold, reap := Holding(s.strings), Reaping(s.strings);
    InvParts(s, x);
    GoneClaims(s.strings, x);
    ForgetOwned(s'.heap, hold[x := {}], reap[x := {}], x);
    GoneFaithful(s'.heap, hold, s.value, x);
    GoneKnown(s.heap, s'.heap, hold, s.strings, x);
    GonePaired(s.heap, s'.heap, hold, s.strings, x);
  }

  lemma GoneClaims(strings: map<Sid, Str>, x: Sid)
    ensures Holding(strings - {x}) == Holding(strings) - {x} == Holding(strings)[x := {}] - {x}
    ensures Reaping(strings - {x}) == Reaping(strings) - {x} == Reaping(strings)[x := {}] - {x}
  {
  }

  lemma GoneFaithful(heap: map<Addr, Block>, hold: Claims, value: map<Sid, string>, x: Sid)
    requires Faithful(heap, hold[x := {}], value)
    ensures Faithful(heap, hold - {x}, value - {x})
  {
    var hold', value' := hold - {x}, value - {x};
    forall y, a {:trigger a in hold'[y]} | y in hold' && a in hold'[y]
      ensures y in value' && a in heap && heap[a].content == value'[y]
    {
      assert y != x && y in hold[x := {}] && a in hold[x := {}][y];
    }
  }

  lemma GoneKnown(heap: map<Addr, Block>, heap': map<Addr, Block>, hold: Claims, strings: map<Sid, Str>, x: Sid)
    requires Known(heap, hold, strings) && Inside(heap, hold) && hold == Holding(strings)
    requires Unshaken(heap, heap', hold, x)
    ensures Known(heap', hold - {x}, strings - {x})
  {
    forall y | y in strings && y != x ensures Knows(heap', hold - {x}, y, strings[y]) {
      assert Knows(heap, hold, y, strings[y]);
      KnowsKept(heap, heap', hold, x, {}, y, strings[y]);
      KnowsForget(heap', hold, x, y, strings[y]);
    }
  }

  lemma KnowsForget(heap: map<Addr, Block>, hold: Claims, x: Sid, y: Sid, str: Str)
    requires Knows(heap, hold[x := {}], y, str)
    ensures Knows(heap, hold - {x}, y, str)
  {
    forall a | Sole(hold[x := {}], y, a) ensures Sole(hold - {x}, y, a) {
      forall z | z in hold - {x} && a in (hold - {x})[z] ensures z == y {
        assert z in hold[x := {}] && a in hold[x := {}][z];
      }
    }
  }

  lemma GonePaired(heap: map<Addr, Block>, heap': map<Addr, Block>, hold: Claims, strings: map<Sid, Str>, x: Sid)
    requires Paired(heap, strings) && hold == Holding(strings) && Unshaken(heap, heap', hold, x)
    requires x in strings && !strings[x].pc.Lent? && !InCopy(strings[x].pc)
    ensures Paired(heap', strings - {x})
  {
    forall z | z in strings && z != x ensures PairOk(heap', strings - {x}, z) {
      assert PairOk(heap, strings, z);
      if strings[z].pc.Sharing? {
        var src := strings[z].pc.src;
        assert src in hold && strings[src].data in hold[src];
      }
    }
  }

  function Decremented(s: State, x: Sid): State
    requires x in s.strings && s.strings[x].data in s.heap && s.heap[s.strings[x].data].ref.Count?
  {
    var a := s.strings[x].data;
    Store(s, a, s.heap[a].(ref := Count(s.heap[a].ref.n - 1)))
  }

  // Release: one owner fewer; the last one goes on to delete the block.
  lemma SubtractParts(s: State, x: Sid)
    requires Inv(s) && x in s.strings && s.strings[x].pc.Subtracting?
    ensures s.strings[x].data in s.heap && s.heap[s.strings[x].data].ref.Count? && s.heap[s.strings[x].data].ref.n >= 1
    ensures
      var a, hold, heap' := s.strings[x].data, Holding(s.strings), Decremented(s, x).heap;
      var last: set<Addr> := if s.heap[a].ref.n == 1 then {a} else {};
      && Owned(heap', hold[x := hold[x] - {a}], Reaping(s.strings)[x := last])
      && Faithful(heap', hold[x := hold[x] - {a}], s.value)
  {
    hide Inv, Owned, Faithful, Known, Paired, Held, Reaped, Knows, Holding, Reaping, Inside;
    InvParts(s, x);
    SubtractAccounts(s.heap, Holding(s.strings), Reaping(s.strings), s.value, x, s.strings[x]);
  }

  lemma SubtractAccounts(heap: map<Addr, Block>, hold: Claims, reap: Claims, value: map<Sid, string>, x: Sid, str: Str)
    requires Owned(heap, hold, reap) && Faithful(heap, hold, value)
    requires x in hold && x in reap && hold[x] == Held(str) && reap[x] == Reaped(str)
    requires str.pc.Subtracting? && Knows(heap, hold, x, str)
    ensures str.data in heap && heap[str.data].ref.Count? && heap[str.data].ref.n >= 1
    ensures
      var a := str.data;
      var heap' := heap[a := heap[a].(ref := Count(heap[a].ref.n - 1))];
      var last: set<Addr> := if heap[a].ref.n == 1 then {a} else {};
      && Owned(heap', hold[x := hold[x] - {a}], reap[x := last])
      && Faithful(heap', hold[x := hold[x] - {a}], value)
  {
    SubtractData(heap, hold, x, str);
    hide Owned, Faithful, Held, Reaped, Knows;
    LeaveOwned(heap, hold, reap, x, str.data, hold[x] - {str.data});
    SubtractFaithful(heap, hold, value, x, str.data, heap[str.data].(ref := Count(heap[str.data].ref.n - 1)));
  }

  lemma SubtractLastInv(s: State, x: Sid)
    requires Inv(s) && x in s.strings && s.strings[x].pc.Subtracting?
    requires s.strings[x].data in s.heap && s.heap[s.strings[x].data].ref == Count(1)
    ensures Inv(Goto(Decremented(s, x), x, Deleting(s.strings[x].pc.k)))
  {
    var str := s.strings[x].(pc := Deleting(s.strings[x].pc.k));
    InvParts(s, x);
    SubtractParts(s, x);
    SubtractHeld(s.heap, Holding(s.strings), x, s.strings[x]);
    hide Inv, Owned, Faithful, Known, Paired, Held, Reaped, Knows, Unshaken, Apart;
    ActInv(s, x, str, Decremented(s, x).(strings := s.strings[x := str]));
  }

  lemma SubtractInv(s: State, x: Sid)
    requires Inv(s) && x in s.strings && s.strings[x].pc.Subtracting?
    requires s.strings[x].data in s.heap && s.heap[s.strings[x].data].ref.Count? && s.heap[s.strings[x].data].ref.n != 1
    ensures Inv(EndRelease(Decremented(s, x), x, s.strings[x].pc.k))
  {
    var k := s.strings[x].pc.k;
    InvParts(s, x);
    SubtractParts(s, x);
    SubtractHeld(s.heap, Holding(s.strings), x, s.strings[x]);
    hide Inv, Owned, Faithful, Known, Paired, Held, Reaped, Knows, Unshaken, Apart;
    if k.Gone? {
      GoneInv(s, x, EndRelease(Decremented(s, x), x, k));
    } else {
      var str := Str(k.spare, Marking(k.job), None);
      ActInv(s, x, str, EndRelease(Decremented(s, x), x, k));
    }
  }

  lemma SubtractData(heap: map<Addr, Block>, hold: Claims, x: Sid, str: Str)
    requires x in hold && hold[x] == Held(str) && str.pc.Subtracting? && Knows(heap, hold, x, str)
    ensures str.data in heap && heap[str.data].ref.Count? && str.data in hold[x] && Reaped(str) == {}
  {
  }

  lemma SubtractHeld(heap: map<Addr, Block>, hold: Claims, x: Sid, str: Str)
    requires x in hold && hold[x] == Held(str) && str.pc.Subtracting? && Knows(heap, hold, x, str)
    ensures str.data in heap && heap[str.data].ref.Count? && str.data in hold[x] && Reaped(str) == {}
    ensures
      var heap' := heap[str.data := heap[str.data].(ref := Count(heap[str.data].ref.n - 1))];
      var dying := str.(pc := Deleting(str.pc.k));
      && Unshaken(heap, heap', hold, x) && Apart(hold, x, hold[x] - {str.data})
      && Held(dying) == hold[x] - {str.data} && Reaped(dying) == {str.data}
      && Knows(heap', hold[x := Held(dying)], x, dying)
      && (str.pc.k.Gone? ==> hold[x] - {str.data} == {})
      && (str.pc.k.Swap? ==>
            var moved := Str(str.pc.k.spare, Marking(str.pc.k.job), None);
            && Held(moved) == hold[x] - {str.data} && Reaped(moved) == {}
            && Knows(heap', hold[x := Held(moved)], x, moved))
  {
  }

  lemma SubtractFaithful(heap: map<Addr, Block>, hold: Claims, value: map<Sid, string>, x: Sid, a: Addr, b: Block)
    requires Faithful(heap, hold, value) && x in hold && a in heap && SameShape(heap[a], b)
    ensures Faithful(heap[a := b], hold[x := hold[x] - {a}], value)
  {
  }

  // The deletion of a block nobody claims any more.
  lemma DeleteInv(s: State, x: Sid)
    requires Inv(s) && x in s.strings && s.strings[x].pc.Deleting?
    ensures s.strings[x].data in s.heap && Disowned(s.heap[s.strings[x].data])
    ensures Inv(EndRelease(s.(heap := s.heap - {s.strings[x].data}), x, s.strings[x].pc.k))
  {
    var a, k := s.strings[x].data, s.strings[x].pc.k;
    var hold, reap := Holding(s.strings), Reaping(s.strings);
    InvParts(s, x);
    LastClaim(s.heap, hold, reap, x, a);
    DeleteOwned(s.heap, hold, reap, x, a);
    DeleteFaithful(s.heap, hold, s.value, a, x);
    DeleteHeld(s.heap, hold, x, s.strings[x]);
    hide Inv, Owned, Faithful, Known, Paired, Held, Reaped, Knows, Unshaken, Apart;
    var s' := EndRelease(s.(heap := s.heap - {a}), x, k);
    if k.Gone? {
      GoneInv(s, x, s');
    } else {
      ActInv(s, x, Str(k.spare, Marking(k.job), None), s');
    }
  }

  lemma DeleteFaithful(heap: map<Addr, Block>, hold: Claims, value: map<Sid, string>, a: Addr, x: Sid)
    requires Faithful(heap, hold, value) && forall y :: y in hold ==> a !in hold[y]
    ensures Faithful(heap - {a}, hold, value) && Unshaken(heap, heap - {a}, hold, x)
  {
  }

  lemma DeleteHeld(heap: map<Addr, Block>, hold: Claims, x: Sid, str: Str)
    requires x in hold && hold[x] == Held(str) && str.pc.Deleting? && Knows(heap, hold, x, str)
    requires str.data !in hold[x]
    ensures Reaped(str) == {str.data}
    ensures str.pc.k.Gone? ==> hold[x := {}] == hold
    ensures str.pc.k.Swap? ==>
      var moved := Str(str.pc.k.spare, Marking(str.pc.k.job), None);
      && Held(moved) == hold[x] && hold[x := Held(moved)] == hold && Reaped(moved) == {}
      && Apart(hold, x, Held(moved)) && Knows(heap - {str.data}, hold, x, moved)
  {
    if str.pc.k.Gone? { assert hold[x] == {}; }
  }

  // ---------------------------------------------------------------- copies

  // A copy begins: the source is lent, the new string claims nothing yet.
  lemma BeginCopyInv(s: State, x: Sid, src: Sid)
    requires Inv(s) && x !in s.strings && src in s.strings && s.strings[src].pc.Ready?
    ensures Inv(s.(strings := s.strings[src := s.strings[src].(pc := Lent(x))][x := Str(0, Checking(src), None)]))
  {
    hide Inv, Owned, Faithful, Known, Paired, Held, Reaped, Holding, Reaping;
    var lent, str := s.strings[src].(pc := Lent(x)), Str(0, Checking(src), None);
    var hold, reap := Holding(s.strings), Reaping(s.strings);
    InvParts(s, src);
    BeginCopyClaims(s.strings, x, src);
    ForgetOwned(s.heap, hold, reap, x);
    EmptyFaithful(s.heap, hold, s.value, x);
    BeginCopyKnown(s.heap, hold, s.strings, x, src);
    BeginCopyPaired(s.heap, s.strings, x, src);
    BeginCopyDone(s, s.(strings := s.strings[src := lent][x := str]), hold[x := {}], reap[x := {}]);
  }

  lemma BeginCopyClaims(strings: map<Sid, Str>, x: Sid, src: Sid)
    requires x !in strings && src in strings && strings[src].pc.Ready?
    ensures x !in Holding(strings) && x !in Reaping(strings)
    ensures
      var strings' := strings[src := strings[src].(pc := Lent(x))][x := Str(0, Checking(src), None)];
      Holding(strings') == Holding(strings)[x := {}] && Reaping(strings') == Reaping(strings)[x := {}]
  {
    var lent, str := strings[src].(pc := Lent(x)), Str(0, Checking(src), None);
    SameClaims(strings, src, lent);
    ClaimsAfter(strings[src := lent], x, str);
    assert Held(str) == {} && Reaped(str) == {};
  }

  lemma BeginCopyDone(s: State, s': State, hold: Claims, reap: Claims)
    requires !s'.fault && Holding(s'.strings) == hold && Reaping(s'.strings) == reap
    requires Owned(s'.heap, hold, reap) && Faithful(s'.heap, hold, s'.value)
    requires Known(s'.heap, hold, s'.strings) && Paired(s'.heap, s'.strings)
    ensures Inv(s')
  {
  }

  lemma EmptyFaithful(heap: map<Addr, Block>, hold: Claims, value: map<Sid, string>, x: Sid)
    requires Faithful(heap, hold, value)
    ensures Faithful(heap, hold[x := {}], value)
  {
  }

  lemma BeginCopyKnown(heap: map<Addr, Block>, hold: Claims, strings: map<Sid, Str>, x: Sid, src: Sid)
    requires Known(heap, hold, strings) && Inside(heap, hold) && hold == Holding(strings)
    requires x !in strings && src in strings && strings[src].pc.Ready?
    ensures Known(heap, hold[x := {}], strings[src := strings[src].(pc := Lent(x))][x := Str(0, Checking(src), None)])
  {
    var lent := strings[src].(pc := Lent(x));
    SameClaims(strings, src, lent);
    assert Knows(heap, hold, src, strings[src]);
    ApartIsEnough(hold, strings, src, Held(lent));
    OthersKnow(heap, heap, hold, strings, src, lent);
    ApartIsEnough(hold, strings[src := lent], x, {});
    assert Held(Str(0, Checking(src), None)) == {};
    OthersKnow(heap, heap, hold, strings[src := lent], x, Str(0, Checking(src), None));
  }

  lemma BeginCopyPaired(heap: map<Addr, Block>, strings: map<Sid, Str>, x: Sid, src: Sid)
    requires Paired(heap, strings) && x !in strings && src in strings && strings[src].pc.Ready?
    ensures Paired(heap, strings[src := strings[src].(pc := Lent(x))][x := Str(0, Checking(src), None)])
  {
    var strings' := strings[src := strings[src].(pc := Lent(x))][x := Str(0, Checking(src), None)];
    forall z | z in strings' ensures PairOk(heap, strings', z) {
      if z != x && z != src { assert PairOk(heap, strings, z); }
    }
  }

  // The copy constructor has read the mark.
  lemma CheckInv(s: State, x: Sid)
    requires Inv(s) && x in s.strings && s.strings[x].pc.Checking?
    requires s.strings[x].pc.src in s.strings && s.strings[s.strings[x].pc.src].data in s.heap
    ensures
      var src := s.strings[x].pc.src;
      Inv(Goto(s, x, if s.heap[s.strings[src].data].ref.Mark? then Cloning(src) else Sharing(src)))
  {
    hide Inv, Owned, Faithful, Known, Paired, Held, Reaped, Holding, Reaping;
    var src, hold := s.strings[x].pc.src, Holding(s.strings);
    var pc := if s.heap[s.strings[src].data].ref.Mark? then Cloning(src) else Sharing(src);
    InvParts(s, x);
    CheckKnown(s.heap, hold, s.strings, x, s.strings[x].(pc := pc));
    CheckPaired(s.heap, s.strings, x, s.strings[x].(pc := pc));
    BeginCopyDone(s, Goto(s, x, pc), hold, Reaping(s.strings));
  }

  lemma CheckKnown(heap: map<Addr, Block>, hold: Claims, strings: map<Sid, Str>, x: Sid, str: Str)
    requires Known(heap, hold, strings) && Inside(heap, hold) && hold == Holding(strings)
    requires x in strings && strings[x].pc.Checking? && (str.pc.Sharing? || str.pc.Cloning?)
    requires str.out == strings[x].out
    ensures Known(heap, hold, strings[x := str])
    ensures Holding(strings[x := str]) == hold && Reaping(strings[x := str]) == Reaping(strings)
  {
    SameClaims(strings, x, str);
    assert Knows(heap, hold, x, strings[x]);
    ApartIsEnough(hold, strings, x, Held(str));
    OthersKnow(heap, heap, hold, strings, x, str);
  }

  lemma CheckPaired(heap: map<Addr, Block>, strings: map<Sid, Str>, x: Sid, str: Str)
    requires Paired(heap, strings) && x in strings && strings[x].pc.Checking? && strings[x].pc.src in strings
    requires InCopy(str.pc) && str.pc.src == strings[x].pc.src
    requires str.pc.Sharing? ==> Sharable(heap, strings[str.pc.src].data)
    ensures Paired(heap, strings[x := str])
  {
    assert PairOk(heap, strings, x);
    forall z | z in strings && z != x ensures PairOk(heap, strings[x := str], z) {
      assert PairOk(heap, strings, z);
    }
  }

  // The copy ends: the source is given back, the new string owns the shared block or a clone.
  lemma EndCopyInv(s: State, x: Sid, a: Addr, heap': map<Addr, Block>, text: string)
    requires Inv(s) && x in s.strings && (s.strings[x].pc.Sharing? || s.strings[x].pc.Cloning?)
    requires s.strings[x].pc.src in s.strings
    requires Owned(heap', Holding(s.strings)[x := {a}], Reaping(s.strings)[x := {}])
    requires Faithful(heap', Holding(s.strings)[x := {a}], s.value[x := text])
    requires Unshaken(s.heap, heap', Holding(s.strings), x)
    requires forall y {:trigger a in Holding(s.strings)[y]} :: y in s.strings && a in Holding(s.strings)[y] ==>
      y == s.strings[x].pc.src || !Sole(Holding(s.strings), y, a)
    ensures Inv(EndCopy(s.(heap := heap'), x, s.strings[x].pc.src, a, text))
  {
    var src, hold, reap := s.strings[x].pc.src, Holding(s.strings), Reaping(s.strings);
    hide Inv, Owned, Faithful, Known, Paired, Held, Reaped, Holding, Reaping, Knows, Sole, Unshaken;
    InvParts(s, x);
    EndCopyPaired(s.heap, heap', hold, s.strings, x, a);
    EndCopyClaims(s.strings, x, src, a);
    EndCopyKnown(s.heap, heap', hold, s.strings, x, src, a);
    BeginCopyDone(s, EndCopy(s.(heap := heap'), x, src, a, text), hold[x := {a}], reap[x := {}]);
  }

  lemma EndCopyClaims(strings: map<Sid, Str>, x: Sid, src: Sid, a: Addr)
    requires src in strings && strings[src].pc == Lent(x)
    ensures
      var strings' := strings[src := strings[src].(pc := Ready)][x := Str(a, Ready, None)];
      Holding(strings') == Holding(strings)[x := {a}] && Reaping(strings') == Reaping(strings)[x := {}]
  {
    var back := strings[src].(pc := Ready);
    SameClaims(strings, src, back);
    ClaimsAfter(strings[src := back], x, Str(a, Ready, None));
    assert Held(Str(a, Ready, None)) == {a};
  }

  lemma EndCopyKnown(heap: map<Addr, Block>, heap': map<Addr, Block>, hold: Claims, strings: map<Sid, Str>,
        x: Sid, src: Sid, a: Addr)
    requires Known(heap, hold, strings) && Inside(heap, hold) && hold == Holding(strings)
    requires x in strings && src in strings && strings[src].pc == Lent(x) && x != src
    requires Unshaken(heap, heap', hold, x)
    requires forall y {:trigger a in hold[y]} :: y in strings && a in hold[y] ==> y == src || !Sole(hold, y, a)
    ensures Known(heap', hold[x := {a}], strings[src := strings[src].(pc := Ready)][x := Str(a, Ready, None)])
  {
    var back := strings[src].(pc := Ready);
    SameClaims(strings, src, back);
    assert Knows(heap, hold, src, strings[src]);
    ApartIsEnough(hold, strings, src, Held(back));
    OthersKnow(heap, heap, hold, strings, src, back);
    assert Held(Str(a, Ready, None)) == {a};
    OthersKnow(heap, heap', hold, strings[src := back], x, Str(a, Ready, None));
  }

  lemma EndCopyPaired(heap: map<Addr, Block>, heap': map<Addr, Block>, hold: Claims, strings: map<Sid, Str>,
        x: Sid, a: Addr)
    requires Paired(heap, strings) && hold == Holding(strings) && Unshaken(heap, heap', hold, x)
    requires x in strings && InCopy(strings[x].pc) && strings[x].pc.src in strings
    ensures strings[strings[x].pc.src].pc == Lent(x) && x != strings[x].pc.src
    ensures Paired(heap',
      strings[strings[x].pc.src := strings[strings[x].pc.src].(pc := Ready)][x := Str(a, Ready, None)])
  {
    var src := strings[x].pc.src;
    var strings' := strings[src := strings[src].(pc := Ready)][x := Str(a, Ready, None)];
    assert PairOk(heap, strings, x);
    forall z | z in strings' ensures PairOk(heap', strings', z) {
      if z != x && z != src {
        assert PairOk(heap, strings, z);
        if strings[z].pc.Sharing? {
          var from := strings[z].pc.src;
          assert from in hold && strings[from].data in hold[from];
        }
      }
    }
  }

  // ---------------------------------------------------------------- every step

  // The source of a copy in progress: lent, and on a live block holding its own value.
  lemma SourceLent(s: State, x: Sid)
    requires Inv(s) && x in s.strings && InCopy(s.strings[x].pc)
    ensures
      var src := s.strings[x].pc.src;
      && src in s.strings && s.strings[src].pc == Lent(x) && x != src
      && (s.strings[x].pc.Sharing? ==> Sharable(s.heap, s.strings[src].data))
  {
    assert PairOk(s.heap, s.strings, x);
  }

  lemma SourceParts(s: State, x: Sid)
    requires Inv(s) && x in s.strings && InCopy(s.strings[x].pc)
    ensures s.strings[x].pc.src in s.strings && x != s.strings[x].pc.src
    ensures
      var src, hold := s.strings[x].pc.src, Holding(s.strings);
      var a := s.strings[src].data;
      && src in hold && hold[src] == {a} && a in hold[src] && a in s.heap
      && src in s.value && s.heap[a].content == s.value[src]
      && |s.heap[a].content| <= s.heap[a].capacity
      && (s.strings[x].pc.Sharing? ==> s.heap[a].ref.Count? && s.heap[a].ref.n > 0)
      && x in hold && hold[x] == {} && x in Reaping(s.strings) && Reaping(s.strings)[x] == {}
  {
    SourceLent(s, x);
    var src := s.strings[x].pc.src;
    LentHeld(s.strings[src]);
    CopyHeld(s.strings[x]);
    hide Inv, Owned, Faithful, Known, Paired, Holding, Reaping, Held, Reaped, Knows;
    InvParts(s, src);
    InvParts(s, x);
    if s.strings[x].pc.Sharing? {
      HeldCount(s.heap, Holding(s.strings), Reaping(s.strings), src, s.strings[src].data);
    }
  }

  lemma LentHeld(str: Str)
    requires str.pc.Lent?
    ensures Held(str) == {str.data}
  {
  }

  lemma CopyHeld(str: Str)
    requires InCopy(str.pc)
    ensures Held(str) == {} && Reaped(str) == {}
  {
  }

  lemma HeldCount(heap: map<Addr, Block>, hold: Claims, reap: Claims, x: Sid, a: Addr)
    requires Owned(heap, hold, reap) && x in hold && a in hold[x] && a in heap && heap[a].ref.Count?
    ensures heap[a].ref.n > 0
  {
    assert x in Claimants(hold, a);
  }

  lemma ShareInv(s: State, x: Sid)
    requires Inv(s) && x in s.strings && s.strings[x].pc.Sharing?
    requires s.strings[x].pc.src in s.strings && s.strings[s.strings[x].pc.src].data in s.heap
    requires s.heap[s.strings[s.strings[x].pc.src].data].ref.Count? && s.strings[x].pc.src in s.value
    ensures
      var src := s.strings[x].pc.src;
      var a := s.strings[src].data;
      Inv(EndCopy(Store(s, a, s.heap[a].(ref := Count(s.heap[a].ref.n + 1))), x, src, a, s.value[src]))
  {
    hide Inv, Owned, Faithful, Known, Paired, Held, Reaped, Holding, Reaping, Knows;
    SourceParts(s, x);
    var src, hold, reap := s.strings[x].pc.src, Holding(s.strings), Reaping(s.strings);
    var a := s.strings[src].data;
    var b := s.heap[a].(ref := Count(s.heap[a].ref.n + 1));
    InvOwned(s);
    ShareOwned(s.heap, hold, reap, x, a);
    ShareFaithful(s.heap, hold, s.value, x, src, a, b);
    ShareApart(s.heap, hold, x, src, a, b);
    ShareDone(s, x, a, b);
  }

  lemma InvOwned(s: State)
    requires Inv(s)
    ensures !s.fault && Owned(s.heap, Holding(s.strings), Reaping(s.strings))
    ensures Inside(s.heap, Holding(s.strings)) && Faithful(s.heap, Holding(s.strings), s.value)
  {
  }

  lemma ShareDone(s: State, x: Sid, a: Addr, b: Block)
    requires Inv(s) && x in s.strings && (s.strings[x].pc.Sharing? || s.strings[x].pc.Cloning?)
    requires s.strings[x].pc.src in s.strings && s.strings[x].pc.src in s.value
    requires Owned(s.heap[a := b], Holding(s.strings)[x := {a}], Reaping(s.strings)[x := {}])
    requires Faithful(s.heap[a := b], Holding(s.strings)[x := {a}], s.value[x := s.value[s.strings[x].pc.src]])
    requires Unshaken(s.heap, s.heap[a := b], Holding(s.strings), x)
    requires forall y {:trigger a in Holding(s.strings)[y]} :: y in Holding(s.strings) && a in Holding(s.strings)[y] ==>
      y == s.strings[x].pc.src || !Sole(Holding(s.strings), y, a)
    ensures Inv(EndCopy(Store(s, a, b), x, s.strings[x].pc.src, a, s.value[s.strings[x].pc.src]))
  {
    hide Inv, Owned, Faithful, Unshaken, Sole;
    EndCopyInv(s, x, a, s.heap[a := b], s.value[s.strings[x].pc.src]);
  }

  lemma ShareFaithful(heap: map<Addr, Block>, hold: Claims, value: map<Sid, string>, x: Sid, src: Sid, a: Addr,
        b: Block)
    requires Faithful(heap, hold, value) && src in hold && a in hold[src] && a in heap && src in value
    requires x in hold && hold[x] == {} && SameShape(heap[a], b)
    ensures Faithful(heap[a := b], hold[x := {a}], value[x := value[src]])
  {
    assert heap[a].content == value[src];
    var heap', hold', value' := heap[a := b], hold[x := {a}], value[x := value[src]];
    forall y, c {:trigger c in hold'[y]} | y in hold' && c in hold'[y]
      ensures y in value' && c in heap' && heap'[c].content == value'[y]
    {
      if y != x { assert c in hold[y]; }
    }
  }

  lemma ShareApart(heap: map<Addr, Block>, hold: Claims, x: Sid, src: Sid, a: Addr, b: Block)
    requires src in hold && a in hold[src] && a in heap && SameShape(heap[a], b)
    ensures Unshaken(heap, heap[a := b], hold, x)
    ensures forall y {:trigger a in hold[y]} :: y in hold && a in hold[y] ==> y == src || !Sole(hold, y, a)
  {
  }

  lemma CloneInv(s: State, x: Sid, spot: Addr)
    requires Inv(s) && x in s.strings && s.strings[x].pc.Cloning? && spot !in s.heap
    requires s.strings[x].pc.src in s.strings && s.strings[s.strings[x].pc.src].data in s.heap
    requires s.strings[x].pc.src in s.value
    ensures
      var src := s.strings[x].pc.src;
      var b := s.heap[s.strings[src].data];
      Inv(EndCopy(Store(s, spot, Clone(b, |b.content|)), x, src, spot, s.value[src]))
  {
    hide Inv, Owned, Faithful, Known, Paired, Held, Reaped, Holding, Reaping, Knows;
    SourceParts(s, x);
    var src, hold, reap := s.strings[x].pc.src, Holding(s.strings), Reaping(s.strings);
    var a := s.strings[src].data;
    var b := Clone(s.heap[a], |s.heap[a].content|);
    InvOwned(s);
    assert {spot} == {spot} + hold[x];
    AllocOwned(s.heap, hold, reap, x, spot, b, {spot});
    AllocFaithful(s.heap, hold, s.value, x, spot, b, {spot}, s.value[src]);
    AllocApart(s.heap, hold, x, spot, b);
    ShareDone(s, x, spot, b);
  }

  lemma AllocApart(heap: map<Addr, Block>, hold: Claims, x: Sid, spot: Addr, b: Block)
    requires Inside(heap, hold) && spot !in heap
    ensures Unshaken(heap, heap[spot := b], hold, x) && Apart(hold, x, {spot})
    ensures forall y {:trigger spot in hold[y]} :: y in hold ==> spot !in hold[y]
  {
  }

  lemma CopyStepInv(s: State, x: Sid, spot: Addr)
    requires Inv(s) && x in s.strings && InCopy(s.strings[x].pc)
    ensures Inv(CopyStep(s, x, spot))
  {
    hide Inv, Owned, Faithful, Known, Paired, Held, Reaped, Holding, Reaping, Knows;
    SourceParts(s, x);
    match s.strings[x].pc
    case Checking(_) => CheckInv(s, x);
    case Sharing(_) => ShareInv(s, x);
    case Cloning(_) => if spot !in s.heap { CloneInv(s, x, spot); }
  }

  // A string inside PrepareToModify or Append: its block, and what uniqueness means for it.
  lemma ModifyParts(s: State, x: Sid)
    requires Inv(s) && x in s.strings
    requires
      var pc := s.strings[x].pc;
      pc.Ready? || pc.Testing? || pc.Copying? || pc.Reserving? || pc.Marking? || pc.Writing?
    ensures
      var a, hold := s.strings[x].data, Holding(s.strings);
      && a in s.heap && x in s.value && s.heap[a].content == s.value[x] && |s.heap[a].content| <= s.heap[a].capacity
      && Held(s.strings[x]) == {a} && Reaped(s.strings[x]) == {}
      && Knows(s.heap, hold, x, s.strings[x])
      && (Sole(hold, x, a) <==> Unique(s.heap[a]))
  {
    ModifyHeld(s.strings[x]);
    hide Inv, Owned, Faithful, Known, Paired, Holding, Reaping, Held, Reaped, Knows, Sole;
    InvParts(s, x);
    SoleCount(s.heap, Holding(s.strings), Reaping(s.strings), x, s.strings[x].data);
  }

  lemma ModifyHeld(str: Str)
    requires !InCopy(str.pc) && !InRelease(str.pc)
    ensures Held(str) == {str.data} && Reaped(str) == {}
  {
  }

  lemma TestInv(s: State, x: Sid)
    requires Inv(s) && x in s.strings && s.strings[x].pc.Testing? && s.strings[x].data in s.heap
    ensures
      var job := s.strings[x].pc.job;
      Inv(Goto(s, x, if Unique(s.heap[s.strings[x].data]) then Reserving(job) else Copying(job)))
  {
    var str := s.strings[x];
    var str' := str.(pc := if Unique(s.heap[str.data]) then Reserving(str.pc.job) else Copying(str.pc.job));
    ModifyParts(s, x);
    ModifyHeld(str');
    hide Inv, Held, Reaped, Sole, Holding;
    LocalInv(s, x, str');
  }

  lemma ReserveInv(s: State, x: Sid)
    requires Inv(s) && x in s.strings && s.strings[x].pc.Reserving? && s.strings[x].data in s.heap
    ensures
      var b, job := s.heap[s.strings[x].data], s.strings[x].pc.job;
      Inv(Goto(Store(s, s.strings[x].data, b.(capacity := Reserved(b.capacity, Required(b, job)))), x, Marking(job)))
  {
    hide Inv, Held, Reaped, Sole, Holding, Reserved, Knows;
    ModifyParts(s, x);
    var str, b := s.strings[x], s.heap[s.strings[x].data];
    var cap := Reserved(b.capacity, Required(b, str.pc.job));
    ReservedKnows(s.heap, Holding(s.strings), x, str, cap);
    assert s.value[x := s.value[x]] == s.value;
    OwnBlockInv(s, x, str.(pc := Marking(str.pc.job)), b.(capacity := cap), s.value[x]);
  }

  lemma ReservedKnows(heap: map<Addr, Block>, hold: Claims, x: Sid, str: Str, cap: nat)
    requires str.pc.Reserving? && str.data in heap && Knows(heap, hold, x, str)
    requires cap >= Required(heap[str.data], str.pc.job)
    ensures Sole(hold, x, str.data)
    ensures
      var str' := str.(pc := Marking(str.pc.job));
      && Held(str') == {str.data} && Reaped(str') == {}
      && Knows(heap[str.data := heap[str.data].(capacity := cap)], hold, x, str')
  {
  }

  lemma MarkInv(s: State, x: Sid)
    requires Inv(s) && x in s.strings && s.strings[x].pc.Marking? && s.strings[x].data in s.heap
    ensures Unique(s.heap[s.strings[x].data])
    ensures
      var a, job := s.strings[x].data, s.strings[x].pc.job;
      Inv(if job.Append? then Goto(Store(s, a, s.heap[a].(ref := Count(1))), x, Writing(job.text))
          else Store(s, a, s.heap[a].(ref := Mark)).(strings := s.strings[x := Str(a, Ready, Some(a))]))
  {
    hide Inv, Held, Reaped, Sole, Holding, Knows;
    ModifyParts(s, x);
    MarkedKnows(s.heap, Holding(s.strings), x, s.strings[x]);
    var a, job := s.strings[x].data, s.strings[x].pc.job;
    assert s.value[x := s.value[x]] == s.value;
    if job.Append? {
      OwnBlockInv(s, x, s.strings[x].(pc := Writing(job.text)), s.heap[a].(ref := Count(1)), s.value[x]);
    } else {
      OwnBlockInv(s, x, Str(a, Ready, Some(a)), s.heap[a].(ref := Mark), s.value[x]);
    }
  }

  lemma MarkedKnows(heap: map<Addr, Block>, hold: Claims, x: Sid, str: Str)
    requires str.pc.Marking? && str.data in heap && Knows(heap, hold, x, str)
    ensures Sole(hold, x, str.data)
    ensures str.pc.job.Append? ==>
      var str' := str.(pc := Writing(str.pc.job.text));
      && Held(str') == {str.data} && Reaped(str') == {}
      && Knows(heap[str.data := heap[str.data].(ref := Count(1))], hold, x, str')
    ensures
      var str' := Str(str.data, Ready, Some(str.data));
      && Held(str') == {str.data} && Reaped(str') == {}
      && Knows(heap[str.data := heap[str.data].(ref := Mark)], hold, x, str')
  {
  }

  lemma WriteInv(s: State, x: Sid)
    requires Inv(s) && x in s.strings && s.strings[x].pc.Writing? && s.strings[x].data in s.heap && x in s.value
    ensures
      var a, text := s.strings[x].data, s.strings[x].pc.text;
      && Unique(s.heap[a]) && |s.heap[a].content| + |text| <= s.heap[a].capacity
      && Inv(Goto(Store(s, a, s.heap[a].(content := s.heap[a].content + text)), x, Ready).(
               value := s.value[x := s.value[x] + text]))
  {
    var str, b := s.strings[x], s.heap[s.strings[x].data];
    ModifyParts(s, x);
    ModifyHeld(str.(pc := Ready));
    hide Inv, Held, Reaped, Sole, Holding;
    OwnBlockInv(s, x, str.(pc := Ready), b.(content := b.content + str.pc.text), s.value[x] + str.pc.text);
  }

  lemma ModifyStepInv(s: State, x: Sid, spot: Addr)
    requires Inv(s) && x in s.strings
    requires
      var pc := s.strings[x].pc;
      pc.Testing? || pc.Copying? || pc.Reserving? || pc.Marking? || pc.Writing?
    ensures Inv(ModifyStep(s, x, spot))
  {
    hide Inv, Held, Reaped, Sole, Holding, Knows;
    ModifyParts(s, x);
    match s.strings[x].pc
    case Testing(job) => TestInv(s, x);
    case Copying(job) => if spot !in s.heap { CopyOutInv(s, x, spot); }
    case Reserving(job) => ReserveInv(s, x);
    case Marking(job) => MarkInv(s, x);
    case Writing(text) => WriteInv(s, x);
  }

  lemma WriteThroughInv(s: State, x: Sid, pos: nat, ch: char)
    requires Inv(s) && x in s.strings && s.strings[x].pc.Ready? && s.strings[x].out.Some?
    ensures Inv(WriteThrough(s, x, pos, ch))
  {
    var str := s.strings[x];
    ModifyParts(s, x);
    hide Inv, Held, Reaped, Sole, Holding;
    var b := s.heap[str.data];
    if pos < |b.content| {
      WriteThroughOwn(s, x, b.(content := b.content[pos := ch]), s.value[x][pos := ch]);
    }
  }

  lemma WriteThroughOwn(s: State, x: Sid, b: Block, text: string)
    requires Inv(s) && x in s.strings && s.strings[x].pc.Ready? && s.strings[x].data in s.heap
    requires Held(s.strings[x]) == {s.strings[x].data} && Reaped(s.strings[x]) == {}
    requires Sole(Holding(s.strings), x, s.strings[x].data) && Knows(s.heap, Holding(s.strings), x, s.strings[x])
    requires b == s.heap[s.strings[x].data].(content := text) && |text| <= b.capacity
    ensures Inv(s.(heap := s.heap[s.strings[x].data := b], value := s.value[x := text]))
  {
    hide Inv, Held, Reaped, Sole, Holding;
    assert s.strings[x := s.strings[x]] == s.strings;
    OwnBlockInv(s, x, s.strings[x], b, text);
  }

  lemma ReleaseParts(s: State, x: Sid)
    requires Inv(s) && x in s.strings && InRelease(s.strings[x].pc)
    ensures s.strings[x].data in s.heap && Knows(s.heap, Holding(s.strings), x, s.strings[x])
  {
    assert s.strings[x].data in Held(s.strings[x]) || s.strings[x].data in Reaped(s.strings[x]);
    hide Inv, Owned, Faithful, Known, Paired, Holding, Reaping, Held, Reaped, Knows;
    InvParts(s, x);
  }

  lemma UnmarkedInv(s: State, x: Sid)
    requires Inv(s) && x in s.strings && s.strings[x].pc.Releasing? && s.strings[x].data in s.heap
    requires s.heap[s.strings[x].data].ref.Count?
    ensures Inv(Goto(s, x, Subtracting(s.strings[x].pc.k)))
  {
    hide Inv, Held, Reaped, Holding, Knows;
    ReleaseParts(s, x);
    UnmarkedKnows(s.heap, Holding(s.strings), x, s.strings[x]);
    LocalInv(s, x, s.strings[x].(pc := Subtracting(s.strings[x].pc.k)));
  }

  lemma UnmarkedKnows(heap: map<Addr, Block>, hold: Claims, x: Sid, str: Str)
    requires str.pc.Releasing? && Knows(heap, hold, x, str) && str.data in heap && heap[str.data].ref.Count?
    ensures
      var str' := str.(pc := Subtracting(str.pc.k));
      Held(str') == Held(str) && Reaped(str') == Reaped(str) && Knows(heap, hold, x, str')
  {
  }

  lemma ReleaseStepInv(s: State, x: Sid)
    requires Inv(s) && x in s.strings && InRelease(s.strings[x].pc)
    ensures Inv(ReleaseStep(s, x))
  {
    hide Inv, Owned, Faithful, Holding, Reaping, Knows, Held, Reaped;
    ReleaseParts(s, x);
    match s.strings[x].pc
    case Releasing(k) =>
      if s.heap[s.strings[x].data].ref.Mark? { ReapInv(s, x); } else { UnmarkedInv(s, x); }
    case Subtracting(k) =>
      SubtractParts(s, x);
      if s.heap[s.strings[x].data].ref.n == 1 { SubtractLastInv(s, x); } else { SubtractInv(s, x); }
    case Deleting(k) => DeleteInv(s, x);
  }

  lemma CallInv(s: State, x: Sid, pc: Pc)
    requires Inv(s) && x in s.strings && s.strings[x].pc.Ready? && (pc.Testing? || pc == Releasing(Gone))
    ensures Inv(s.(strings := s.strings[x := Str(s.strings[x].data, pc, None)]))
  {
    var str' := Str(s.strings[x].data, pc, None);
    ModifyHeld(s.strings[x]);
    assert Held(str') == {s.strings[x].data} && Reaped(str') == {};
    hide Inv, Held, Reaped, Holding;
    LocalInv(s, x, str');
  }

  // Every action of every string keeps the invariant.
  lemma StepInv(s: State, m: Move)
    requires Inv(s)
    ensures Inv(Step(s, m))
  {
    hide Inv;
    match m
    case Create(x, spot, text) => if x !in s.strings && spot !in s.heap { CreateInv(s, x, spot, text); }
    case CallCopy(x, src) =>
      if x !in s.strings && src in s.strings && s.strings[src].pc.Ready? { BeginCopyInv(s, x, src); }
    case CallAppend(x, text) => if x in s.strings && s.strings[x].pc.Ready? { CallInv(s, x, Testing(Append(text))); }
    case CallIndex(x) => if x in s.strings && s.strings[x].pc.Ready? { CallInv(s, x, Testing(Index)); }
    case CallDestroy(x) => if x in s.strings && s.strings[x].pc.Ready? { CallInv(s, x, Releasing(Gone)); }
    case WriteRef(x, pos, ch) =>
      if x in s.strings && s.strings[x].pc.Ready? && s.strings[x].out.Some? { WriteThroughInv(s, x, pos, ch); }
    case Go(x, spot) => GoInv(s, x, spot);
  }

  lemma GoInv(s: State, x: Sid, spot: Addr)
    requires Inv(s)
    ensures Inv(Step(s, Go(x, spot)))
  {
    hide Inv;
    if x in s.strings && !s.strings[x].pc.Ready? && !s.strings[x].pc.Lent? {
      if InRelease(s.strings[x].pc) { ReleaseStepInv(s, x); }
      else if InCopy(s.strings[x].pc) { CopyStepInv(s, x, spot); }
      else { ModifyStepInv(s, x, spot); }
    }
  }

  // ---------------------------------------------------------------- whole runs

  ghost predicate Trace(trace: seq<State>, moves: seq<Move>) {
    && |trace| == |moves| + 1 && Init(trace[0])
    && (forall k :: 0 <= k < |moves| ==> trace[k + 1] == Step(trace[k], moves[k]))
  }

  lemma InitInv(s: State)
    requires Init(s)
    ensures Inv(s)
  {
  }

  lemma {:induction false} EveryRunKeepsInv(trace: seq<State>, moves: seq<Move>, k: nat)
    requires Trace(trace, moves) && k <= |moves|
    ensures Inv(trace[k])
  {
    hide Inv, Step;
    if k == 0 {
      InitInv(trace[0]);
    } else {
      EveryRunKeepsInv(trace, moves, k - 1);
      StepInv(trace[k - 1], moves[k - 1]);
    }
  }

  // A block's count is the number of strings on it, or it is marked with a single one.
  lemma CountsAreOwners(trace: seq<State>, moves: seq<Move>, k: nat, a: Addr)
    requires Trace(trace, moves) && k <= |moves| && a in trace[k].heap
    requires forall x :: x in trace[k].strings ==> trace[k].strings[x].pc.Ready?
    ensures
      var owners := set x | x in trace[k].strings && trace[k].strings[x].data == a;
      |owners| >= 1 && (trace[k].heap[a].ref == Count(|owners|) || (trace[k].heap[a].ref == Mark && |owners| == 1))
  {
    EveryRunKeepsInv(trace, moves, k);
    InvOwned(trace[k]);
    OwnersCounted(trace[k].heap, trace[k].strings, a);
  }

  lemma OwnersCounted(heap: map<Addr, Block>, strings: map<Sid, Str>, a: Addr)
    requires Owned(heap, Holding(strings), Reaping(strings)) && a in heap
    requires forall x :: x in strings ==> strings[x].pc.Ready?
    ensures
      var owners := set x | x in strings && strings[x].data == a;
      |owners| >= 1 && (heap[a].ref == Count(|owners|) || (heap[a].ref == Mark && |owners| == 1))
  {
    hide Held, Reaped, Inside, Claimants;
    AtRest(strings);
    OwnersAre(Holding(strings), Reaping(strings), strings, a);
  }

  lemma AtRest(strings: map<Sid, Str>)
    requires forall x :: x in strings ==> strings[x].pc.Ready?
    ensures Holding(strings).Keys == Reaping(strings).Keys == strings.Keys
    ensures forall x :: x in strings ==> Holding(strings)[x] == {strings[x].data} && Reaping(strings)[x] == {}
  {
    forall x | x in strings ensures Held(strings[x]) == {strings[x].data} && Reaped(strings[x]) == {} {
      ModifyHeld(strings[x]);
    }
  }

  lemma OwnersAre(hold: Claims, reap: Claims, strings: map<Sid, Str>, a: Addr)
    requires hold.Keys == reap.Keys == strings.Keys
    requires forall x :: x in strings ==> hold[x] == {strings[x].data} && reap[x] == {}
    ensures Claimants(hold, a) == (set x | x in strings && strings[x].data == a) && Claimants(reap, a) == {}
  {
  }

  // No step touches a block outside the heap or breaks one of the source's assertions.
  lemma NeverFaults(trace: seq<State>, moves: seq<Move>, k: nat)
    requires Trace(trace, moves) && k <= |moves|
    ensures !trace[k].fault
  {
    EveryRunKeepsInv(trace, moves, k);
  }

  // A block about to be deleted is still there, has no owner left, is no string's block or clone,
  // and nobody else is about to delete it.
  lemma DeletedIsUnowned(trace: seq<State>, moves: seq<Move>, k: nat, x: Sid)
    requires Trace(trace, moves) && k <= |moves| && x in trace[k].strings && trace[k].strings[x].pc.Deleting?
    ensures
      var s, a := trace[k], trace[k].strings[x].data;
      && a in s.heap && (s.heap[a].ref == Count(0) || s.heap[a].ref == Mark)
      && (forall y :: y in s.strings && y != x && s.strings[y].data == a ==> InCopy(s.strings[y].pc))
      && (forall y :: y in s.strings && InRelease(s.strings[y].pc) && s.strings[y].pc.k.Swap? ==>
            s.strings[y].pc.k.spare != a)
  {
    EveryRunKeepsInv(trace, moves, k);
    var s, a := trace[k], trace[k].strings[x].data;
    InvOwned(s);
    ClaimsOf(s.strings, x);
    LastClaim(s.heap, Holding(s.strings), Reaping(s.strings), x, a);
    forall y | y in s.strings
      ensures a !in Held(s.strings[y]) && (y != x ==> a !in Reaped(s.strings[y]))
    {
      ClaimsOf(s.strings, y);
    }
  }

  // Sharing is invisible: a string at rest shows exactly what it would hold on its own.
  lemma ValueSemantics(trace: seq<State>, moves: seq<Move>, k: nat, x: Sid)
    requires Trace(trace, moves) && k <= |moves| && x in trace[k].strings && trace[k].strings[x].pc.Ready?
    ensures trace[k].strings[x].data in trace[k].heap && x in trace[k].value
    ensures trace[k].heap[trace[k].strings[x].data].content == trace[k].value[x]
  {
    EveryRunKeepsInv(trace, moves, k);
    ModifyParts(trace[k], x);
  }

  ghost function Actor(m: Move): Sid {
    match m
    case Create(x, _, _) => x
    case CallCopy(x, _) => x
    case CallAppend(x, _) => x
    case CallIndex(x) => x
    case CallDestroy(x) => x
    case WriteRef(x, _, _) => x
    case Go(x, _) => x
  }

  // Mutating one string, even through a reference, never changes what another one shows.
  lemma OthersUntouched(trace: seq<State>, moves: seq<Move>, k: nat, y: Sid)
    requires Trace(trace, moves) && k < |moves| && y != Actor(moves[k])
    requires y in trace[k].strings && trace[k].strings[y].pc.Ready?
    requires y in trace[k + 1].strings && trace[k + 1].strings[y].pc.Ready?
    ensures trace[k].strings[y].data in trace[k].heap && trace[k + 1].strings[y].data in trace[k + 1].heap
    ensures trace[k + 1].heap[trace[k + 1].strings[y].data].content == trace[k].heap[trace[k].strings[y].data].content
  {
    ValueSemantics(trace, moves, k, y);
    ValueSemantics(trace, moves, k + 1, y);
    ValueFrame(trace[k], moves[k], y);
  }

  lemma ValueFrame(s: State, m: Move, y: Sid)
    requires y != Actor(m) && y in s.value
    ensures y in Step(s, m).value && Step(s, m).value[y] == s.value[y]
  {
    if m.Go? { GoFrame(s, m.x, m.spot, y); } else { CallFrame(s, m, y); }
  }

  lemma GoFrame(s: State, x: Sid, spot: Addr, y: Sid)
    requires y != x && y in s.value
    ensures y in Step(s, Go(x, spot)).value && Step(s, Go(x, spot)).value[y] == s.value[y]
  {
    if x in s.strings && !s.strings[x].pc.Ready? && !s.strings[x].pc.Lent? {
      assert y in CopyStep(s, x, spot).value && CopyStep(s, x, spot).value[y] == s.value[y];
      assert y in ReleaseStep(s, x).value && ReleaseStep(s, x).value[y] == s.value[y];
    }
  }

  lemma CallFrame(s: State, m: Move, y: Sid)
    requires y != Actor(m) && y in s.value && !m.Go?
    ensures y in Step(s, m).value && Step(s, m).value[y] == s.value[y]
  {
    hide CopyStep, ModifyStep, ReleaseStep;
  }

  // ---------------------------------------------------------------- what the calls mean

  // A string on its own: its text, and whether operator[] was called since its last Append.
  datatype Obj = Obj(text: string, indexed: bool)

  // The calls take effect one after the other, in the order they are made; a call on a string
  // that does not exist or is in use is none.  No block, count or step occurs here.
  ghost function Meant(trace: seq<State>, moves: seq<Move>, k: nat): map<Sid, Obj>
    requires k <= |trace| && k <= |moves|
  {
    if k == 0 then map[] else Effect(trace[k - 1], Meant(trace, moves, k - 1), moves[k - 1])
  }

  ghost function Effect(s: State, o: map<Sid, Obj>, m: Move): map<Sid, Obj> {
    match m
    case Create(x, spot, text) => if x !in s.strings && spot !in s.heap then o[x := Obj(text, false)] else o
    case CallCopy(x, src) =>
      if x !in s.strings && AtRestIn(s, src) && src in o then o[x := Obj(o[src].text, false)] else o
    case CallAppend(x, text) => if AtRestIn(s, x) && x in o then o[x := Obj(o[x].text + text, false)] else o
    case CallIndex(x) => if AtRestIn(s, x) && x in o then o[x := Obj(o[x].text, true)] else o
    case CallDestroy(x) => if AtRestIn(s, x) then o - {x} else o
    case WriteRef(x, pos, ch) =>
      if AtRestIn(s, x) && x in o && o[x].indexed && pos < |o[x].text|
      then o[x := Obj(o[x].text[pos := ch], true)] else o
    case Go(_, _) => o
  }

  ghost predicate AtRestIn(s: State, x: Sid) { x in s.strings && s.strings[x].pc.Ready? }

  ghost predicate Leaving(pc: Pc) { InRelease(pc) && pc.k.Gone? }

  // What an operation in progress still has to do to the value of its string.
  ghost predicate JobDone(value: string, job: Job, o: Obj) {
    if job.Append? then o == Obj(value + job.text, false) else o == Obj(value, true)
  }

  ghost predicate Tied(value: map<Sid, string>, x: Sid, str: Str, o: Obj) {
    if InCopy(str.pc) then str.pc.src in value && o == Obj(value[str.pc.src], false)
    else x in value && TiedText(value[x], str, o)
  }

  ghost predicate TiedText(value: string, str: Str, o: Obj) {
    match str.pc
    case Testing(job) => JobDone(value, job, o)
    case Copying(job) => JobDone(value, job, o)
    case Reserving(job) => JobDone(value, job, o)
    case Marking(job) => JobDone(value, job, o)
    case Writing(text) => o == Obj(value + text, false)
    case Releasing(k) => k.Swap? ==> JobDone(value, k.job, o)
    case Subtracting(k) => k.Swap? ==> JobDone(value, k.job, o)
    case Deleting(k) => k.Swap? ==> JobDone(value, k.job, o)
    case _ => o == Obj(value, str.out.Some?)
  }

  ghost predicate TiedIn(s: State, x: Sid, o: map<Sid, Obj>) {
    && (x in o <==> x in s.strings && !Leaving(s.strings[x].pc))
    && (x in o ==> Tied(s.value, x, s.strings[x], o[x]))
  }

  ghost predicate AllTied(s: State, o: map<Sid, Obj>) { forall x :: TiedIn(s, x, o) }

  // A string keeps its tie when neither it, nor its value or its source's, nor its meaning changes.
  lemma TieKept(s: State, s': State, o: map<Sid, Obj>, o': map<Sid, Obj>, y: Sid)
    requires TiedIn(s, y, o)
    requires y in s'.strings <==> y in s.strings
    requires y in s.strings ==> s'.strings[y] == s.strings[y]
    requires y in o' <==> y in o
    requires y in o ==> o'[y] == o[y]
    requires y in s.value ==> y in s'.value && s'.value[y] == s.value[y]
    requires y in s.strings && InCopy(s.strings[y].pc) && s.strings[y].pc.src in s.value ==>
      var src := s.strings[y].pc.src; src in s'.value && s'.value[src] == s.value[src]
    ensures TiedIn(s', y, o')
  {
  }

  // A step of `x`, which lends nothing out, that may also set the phase of `src`.
  lemma OthersTied(s: State, s': State, o: map<Sid, Obj>, o': map<Sid, Obj>, x: Sid, src: Sid)
    requires Inv(s) && AllTied(s, o) && (x in s.strings ==> !s.strings[x].pc.Lent?)
    requires s'.strings.Keys - {x, src} == s.strings.Keys - {x, src} && o'.Keys - {x} == o.Keys - {x}
    requires s'.value.Keys - {x} == s.value.Keys - {x}
    requires forall y :: y in s.strings && y != x && y != src ==> y in s'.strings && s'.strings[y] == s.strings[y]
    requires forall y :: y in o && y != x ==> y in o' && o'[y] == o[y]
    requires forall y :: y in s.value && y != x ==> y in s'.value && s'.value[y] == s.value[y]
    ensures forall y :: y != x && y != src ==> TiedIn(s', y, o')
  {
    hide TiedIn, Inv;
    forall y | y != x && y != src ensures TiedIn(s', y, o') {
      assert y in s'.strings <==> y in s'.strings.Keys - {x, src};
      assert y in s.strings <==> y in s.strings.Keys - {x, src};
      assert y in o' <==> y in o'.Keys - {x};
      assert y in o <==> y in o.Keys - {x};
      assert y in s.value ==> y in s.value.Keys - {x};
      if y in s.strings && InCopy(s.strings[y].pc) {
        SourceLent(s, y);
        assert s.strings[y].pc.src in s.value ==> s.strings[y].pc.src in s.value.Keys - {x};
      }
      TieKept(s, s', o, o', y);
    }
  }

  lemma StepTied(s: State, s': State, o: map<Sid, Obj>, o': map<Sid, Obj>, x: Sid, str: Str, text: string)
    requires Inv(s) && AllTied(s, o) && x in s.strings && x in s.value && !s.strings[x].pc.Lent?
    requires s'.strings == s.strings[x := str] && s'.value == s.value[x := text]
    requires o' == o || (x in o' && o' == o[x := o'[x]])
    requires x in o' <==> !Leaving(str.pc)
    requires x in o' ==> Tied(s'.value, x, str, o'[x])
    ensures AllTied(s', o')
  {
    hide Inv, Tied;
    assert o'.Keys - {x} == o.Keys - {x};
    OthersTied(s, s', o, o', x, x);
    assert TiedIn(s', x, o');
  }

  lemma CallTied(s: State, o: map<Sid, Obj>, x: Sid, str: Str, o': map<Sid, Obj>)
    requires Inv(s) && AllTied(s, o) && AtRestIn(s, x) && str.out.None?
    requires
      match str.pc
      case Testing(job) =>
        x in o ==> o' == o[x := if job.Append? then Obj(o[x].text + job.text, false) else Obj(o[x].text, true)]
      case Releasing(k) => k.Gone? && o' == o - {x}
      case _ => false
    ensures AllTied(s.(strings := s.strings[x := str]), o')
  {
    assert TiedIn(s, x, o);
    hide Inv, AllTied;
    CallStepTied(s, s.(strings := s.strings[x := str]), o, o', x, str);
  }

  // A call that begins: its string leaves rest, the others stay.
  lemma CallStepTied(s: State, s': State, o: map<Sid, Obj>, o': map<Sid, Obj>, x: Sid, str: Str)
    requires Inv(s) && AllTied(s, o) && AtRestIn(s, x)
    requires s'.strings == s.strings[x := str] && s'.value == s.value
    requires o'.Keys - {x} == o.Keys - {x} && (forall y :: y in o && y != x ==> y in o' && o'[y] == o[y])
    requires x in o' <==> !Leaving(str.pc)
    requires x in o' ==> Tied(s'.value, x, str, o'[x])
    ensures AllTied(s', o')
  {
    hide Inv, Tied;
    OthersTied(s, s', o, o', x, x);
    assert TiedIn(s', x, o');
  }

  lemma CreateTied(s: State, o: map<Sid, Obj>, x: Sid, spot: Addr, text: string)
    requires Inv(s) && AllTied(s, o)
    ensures AllTied(Step(s, Create(x, spot, text)), Effect(s, o, Create(x, spot, text)))
  {
    var s', o' := Step(s, Create(x, spot, text)), Effect(s, o, Create(x, spot, text));
    if x !in s.strings && spot !in s.heap {
      hide Inv;
      OthersTied(s, s', o, o', x, x);
      assert TiedIn(s', x, o');
    }
  }

  lemma BeginCopyTied(s: State, o: map<Sid, Obj>, x: Sid, src: Sid)
    requires Inv(s) && AllTied(s, o)
    ensures AllTied(Step(s, CallCopy(x, src)), Effect(s, o, CallCopy(x, src)))
  {
    var s', o' := Step(s, CallCopy(x, src)), Effect(s, o, CallCopy(x, src));
    if x !in s.strings && AtRestIn(s, src) {
      assert TiedIn(s, src, o);
      hide Inv;
      OthersTied(s, s', o, o', x, src);
      assert TiedIn(s', x, o') && TiedIn(s', src, o');
    }
  }

  lemma WriteRefTied(s: State, o: map<Sid, Obj>, x: Sid, pos: nat, ch: char)
    requires Inv(s) && AllTied(s, o) && AtRestIn(s, x)
    ensures AllTied(Step(s, WriteRef(x, pos, ch)), Effect(s, o, WriteRef(x, pos, ch)))
  {
    hide Inv, AllTied, Step, Effect;
    RestTied(s, o, x);
    WriteRefPlace(s, x);
    var s', o' := Step(s, WriteRef(x, pos, ch)), Effect(s, o, WriteRef(x, pos, ch));
    if s.strings[x].out.Some? && pos < |s.value[x]| {
      WriteRefStep(s, x, pos, ch);
      assert o' == o[x := Obj(s.value[x][pos := ch], true)] by { WriteRefEffect(s, o, x, pos, ch); }
      ValueTied(s, s', o, x, s.strings[x], s.value[x][pos := ch]);
    } else {
      WriteRefIdle(s, x, pos, ch);
      assert o' == o by { WriteRefEffect(s, o, x, pos, ch); }
    }
  }

  lemma WriteRefEffect(s: State, o: map<Sid, Obj>, x: Sid, pos: nat, ch: char)
    requires AtRestIn(s, x) && x in o
    ensures
      var o' := Effect(s, o, WriteRef(x, pos, ch));
      o' == if o[x].indexed && pos < |o[x].text| then o[x := Obj(o[x].text[pos := ch], true)] else o
  {
  }

  lemma RestTied(s: State, o: map<Sid, Obj>, x: Sid)
    requires AllTied(s, o) && AtRestIn(s, x)
    ensures x in o && x in s.value && o[x] == Obj(s.value[x], s.strings[x].out.Some?)
  {
    assert TiedIn(s, x, o);
  }

  // A string at rest, with the value and the meaning set together.
  lemma ValueTied(s: State, s': State, o: map<Sid, Obj>, x: Sid, str: Str, text: string)
    requires Inv(s) && AllTied(s, o) && x in s.strings && x in s.value && !s.strings[x].pc.Lent?
    requires s'.strings == s.strings[x := str] && s'.value == s.value[x := text] && str.pc.Ready?
    ensures AllTied(s', o[x := Obj(text, str.out.Some?)])
  {
    hide Inv, AllTied;
    StepTied(s, s', o, o[x := Obj(text, str.out.Some?)], x, str, text);
  }

  lemma WriteRefPlace(s: State, x: Sid)
    requires Inv(s) && AtRestIn(s, x)
    ensures x in s.value && s.strings[x].data in s.heap && s.heap[s.strings[x].data].content == s.value[x]
    ensures s.strings[x].out.Some? ==> s.strings[x].out.value == s.strings[x].data
  {
    hide Inv;
    ModifyParts(s, x);
  }

  lemma WriteRefStep(s: State, x: Sid, pos: nat, ch: char)
    requires AtRestIn(s, x) && x in s.value && s.strings[x].out.Some? && s.strings[x].out.value in s.heap
    requires pos < |s.value[x]| && s.heap[s.strings[x].out.value].content == s.value[x]
    ensures
      var s' := Step(s, WriteRef(x, pos, ch));
      s'.strings == s.strings[x := s.strings[x]] && s'.value == s.value[x := s.value[x][pos := ch]]
  {
    assert s.strings[x := s.strings[x]] == s.strings;
  }

  lemma WriteRefIdle(s: State, x: Sid, pos: nat, ch: char)
    requires AtRestIn(s, x) && x in s.value
    requires s.strings[x].out.None? || (s.strings[x].out.value in s.heap && pos >= |s.value[x]|)
    ensures Step(s, WriteRef(x, pos, ch)) == s
  {
  }

  lemma CopyStepTied(s: State, o: map<Sid, Obj>, x: Sid, spot: Addr)
    requires Inv(s) && AllTied(s, o) && x in s.strings && InCopy(s.strings[x].pc)
    ensures AllTied(CopyStep(s, x, spot), o)
  {
    var src := s.strings[x].pc.src;
    hide Inv, AllTied, Tied;
    SourceLent(s, x);
    SourceParts(s, x);
    var a := s.strings[src].data;
    if s.strings[x].pc.Checking? {
      CheckTied(s, o, x, if s.heap[a].ref.Mark? then Cloning(src) else Sharing(src));
    } else if s.strings[x].pc.Sharing? {
      EndCopyTied(s, o, x, s.heap[a := s.heap[a].(ref := Count(s.heap[a].ref.n + 1))], a);
    } else if spot !in s.heap {
      EndCopyTied(s, o, x, s.heap[spot := Clone(s.heap[a], |s.heap[a].content|)], spot);
    }
  }

  lemma CheckTied(s: State, o: map<Sid, Obj>, x: Sid, pc: Pc)
    requires Inv(s) && AllTied(s, o) && x in s.strings && InCopy(s.strings[x].pc)
    requires InCopy(pc) && pc.src == s.strings[x].pc.src
    ensures AllTied(Goto(s, x, pc), o)
  {
    assert TiedIn(s, x, o);
    hide Inv;
    OthersTied(s, Goto(s, x, pc), o, o, x, x);
    assert TiedIn(Goto(s, x, pc), x, o);
  }

  lemma EndCopyTied(s: State, o: map<Sid, Obj>, x: Sid, heap: map<Addr, Block>, a: Addr)
    requires Inv(s) && AllTied(s, o) && x in s.strings && InCopy(s.strings[x].pc)
    requires
      var src := s.strings[x].pc.src;
      src in s.strings && s.strings[src].pc == Lent(x) && x != src && src in s.value
    ensures
      var src := s.strings[x].pc.src;
      AllTied(EndCopy(s.(heap := heap), x, src, a, s.value[src]), o)
  {
    var src := s.strings[x].pc.src;
    var s' := EndCopy(s.(heap := heap), x, src, a, s.value[src]);
    assert TiedIn(s, x, o) && TiedIn(s, src, o);
    hide Inv;
    OthersTied(s, s', o, o, x, src);
    assert TiedIn(s', x, o) && TiedIn(s', src, o);
  }

  // A step that changes the phase of `x` and no value, with the same work left to do.
  lemma PhaseTied(s: State, s': State, o: map<Sid, Obj>, x: Sid, str: Str)
    requires Inv(s) && AllTied(s, o) && x in s.strings && !InCopy(s.strings[x].pc) && !s.strings[x].pc.Lent?
    requires s'.strings == s.strings[x := str] && s'.value == s.value && !InCopy(str.pc)
    requires Leaving(str.pc) <==> Leaving(s.strings[x].pc)
    requires forall v, meant {:trigger TiedText(v, str, meant)} ::
      TiedText(v, s.strings[x], meant) ==> TiedText(v, str, meant)
    ensures AllTied(s', o)
  {
    assert TiedIn(s, x, o);
    hide Inv, TiedText;
    OthersTied(s, s', o, o, x, x);
    assert TiedIn(s', x, o);
  }

  lemma ModifyStepTied(s: State, o: map<Sid, Obj>, x: Sid, spot: Addr)
    requires Inv(s) && AllTied(s, o) && x in s.strings
    requires
      var pc := s.strings[x].pc;
      pc.Testing? || pc.Copying? || pc.Reserving? || pc.Marking? || pc.Writing?
    ensures AllTied(ModifyStep(s, x, spot), o)
  {
    hide Inv, AllTied;
    Quiet(s, x);
    if s.strings[x].pc.Writing? { WriteTied(s, o, x); }
    else if !(s.strings[x].pc.Copying? && spot in s.heap) {
      PhaseTied(s, ModifyStep(s, x, spot), o, x, ModifyStep(s, x, spot).strings[x]);
    }
  }

  // Inside a modification no reference is out, the block is there, and no assertion breaks.
  lemma Quiet(s: State, x: Sid)
    requires Inv(s) && x in s.strings
    requires
      var pc := s.strings[x].pc;
      pc.Testing? || pc.Copying? || pc.Reserving? || pc.Marking? || pc.Writing?
    ensures s.strings[x].out.None? && x in s.value && s.strings[x].data in s.heap
    ensures s.strings[x].pc.Marking? ==> Unique(s.heap[s.strings[x].data])
    ensures s.strings[x].pc.Writing? ==>
      var b := s.heap[s.strings[x].data]; Unique(b) && |b.content| + |s.strings[x].pc.text| <= b.capacity
  {
    hide Inv, Held, Reaped, Sole, Holding;
    ModifyParts(s, x);
  }

  lemma WriteTied(s: State, o: map<Sid, Obj>, x: Sid)
    requires Inv(s) && AllTied(s, o) && x in s.strings && s.strings[x].pc.Writing? && s.strings[x].out.None?
    requires x in s.value && s.strings[x].data in s.heap
    requires var b := s.heap[s.strings[x].data]; Unique(b) && |b.content| + |s.strings[x].pc.text| <= b.capacity
    ensures AllTied(ModifyStep(s, x, 0), o)
  {
    hide Inv, AllTied, ModifyStep;
    var text := s.value[x] + s.strings[x].pc.text;
    WriteMeant(s, o, x);
    WriteShape(s, x);
    ValueTied(s, ModifyStep(s, x, 0), o, x, s.strings[x].(pc := Ready), text);
  }

  lemma WriteMeant(s: State, o: map<Sid, Obj>, x: Sid)
    requires AllTied(s, o) && x in s.strings && s.strings[x].pc.Writing? && x in s.value
    ensures x in o && o[x := Obj(s.value[x] + s.strings[x].pc.text, false)] == o
  {
    assert TiedIn(s, x, o);
  }

  lemma WriteShape(s: State, x: Sid)
    requires x in s.strings && s.strings[x].pc.Writing? && x in s.value && s.strings[x].data in s.heap
    requires var b := s.heap[s.strings[x].data]; Unique(b) && |b.content| + |s.strings[x].pc.text| <= b.capacity
    ensures
      var s' := ModifyStep(s, x, 0);
      && s'.strings == s.strings[x := s.strings[x].(pc := Ready)]
      && s'.value == s.value[x := s.value[x] + s.strings[x].pc.text]
  {
  }

  lemma ReleaseStepTied(s: State, o: map<Sid, Obj>, x: Sid)
    requires Inv(s) && AllTied(s, o) && x in s.strings && InRelease(s.strings[x].pc)
    requires !ReleaseStep(s, x).fault
    ensures AllTied(ReleaseStep(s, x), o)
  {
    hide Inv, AllTied, ReleaseStep, Leaving;
    if s.strings[x].pc.k.Gone? {
      GoneShape(s, x);
      LeavingTied(s, ReleaseStep(s, x), o, x);
    } else {
      SwapShape(s, x);
      ReturnTied(s, ReleaseStep(s, x), o, x);
    }
  }

  // What a step of a release does to its string: it goes in the end, or returns to its work.
  lemma GoneShape(s: State, x: Sid)
    requires x in s.strings && InRelease(s.strings[x].pc) && s.strings[x].pc.k.Gone? && !ReleaseStep(s, x).fault
    ensures Leaving(s.strings[x].pc)
    ensures
      var s' := ReleaseStep(s, x);
      && s'.strings.Keys - {x} == s.strings.Keys - {x} && s'.value.Keys - {x} == s.value.Keys - {x}
      && (forall y :: y in s.strings && y != x ==> y in s'.strings && s'.strings[y] == s.strings[y])
      && (forall y :: y in s.value && y != x ==> y in s'.value && s'.value[y] == s.value[y])
      && (x in s'.strings ==> Leaving(s'.strings[x].pc))
  {
  }

  lemma SwapShape(s: State, x: Sid)
    requires x in s.strings && InRelease(s.strings[x].pc) && s.strings[x].pc.k.Swap? && !ReleaseStep(s, x).fault
    ensures
      var s', k := ReleaseStep(s, x), s.strings[x].pc.k;
      && x in s'.strings && s'.strings == s.strings[x := s'.strings[x]] && s'.value == s.value
      && ((InRelease(s'.strings[x].pc) && s'.strings[x].pc.k == k) || s'.strings[x].pc == Marking(k.job))
  {
  }

  lemma ReturnTied(s: State, s': State, o: map<Sid, Obj>, x: Sid)
    requires Inv(s) && AllTied(s, o) && x in s.strings && InRelease(s.strings[x].pc) && s.strings[x].pc.k.Swap?
    requires x in s'.strings && s'.strings == s.strings[x := s'.strings[x]] && s'.value == s.value
    requires
      var k := s.strings[x].pc.k;
      (InRelease(s'.strings[x].pc) && s'.strings[x].pc.k == k) || s'.strings[x].pc == Marking(k.job)
    ensures AllTied(s', o)
  {
    hide Inv, AllTied, TiedText;
    SwapTied(s.strings[x], s'.strings[x]);
    PhaseTied(s, s', o, x, s'.strings[x]);
  }

  lemma SwapTied(str: Str, str': Str)
    requires InRelease(str.pc) && str.pc.k.Swap?
    requires (InRelease(str'.pc) && str'.pc.k == str.pc.k) || str'.pc == Marking(str.pc.k.job)
    ensures forall v, meant {:trigger TiedText(v, str', meant)} :: TiedText(v, str, meant) ==> TiedText(v, str', meant)
  {
  }

  lemma LeavingTied(s: State, s': State, o: map<Sid, Obj>, x: Sid)
    requires Inv(s) && AllTied(s, o) && x in s.strings && Leaving(s.strings[x].pc)
    requires s'.strings.Keys - {x} == s.strings.Keys - {x} && s'.value.Keys - {x} == s.value.Keys - {x}
    requires forall y :: y in s.strings && y != x ==> y in s'.strings && s'.strings[y] == s.strings[y]
    requires forall y :: y in s.value && y != x ==> y in s'.value && s'.value[y] == s.value[y]
    requires x in s'.strings ==> Leaving(s'.strings[x].pc)
    ensures AllTied(s', o)
  {
    NotMeant(s, o, x);
    hide Inv, Tied;
    assert !s.strings[x].pc.Lent? && {x, x} == {x};
    OthersTied(s, s', o, o, x, x);
    assert TiedIn(s', x, o);
  }

  lemma NotMeant(s: State, o: map<Sid, Obj>, x: Sid)
    requires AllTied(s, o) && x in s.strings && Leaving(s.strings[x].pc)
    ensures x !in o
  {
    assert TiedIn(s, x, o);
  }

  lemma MoveTied(s: State, o: map<Sid, Obj>, m: Move)
    requires Inv(s) && AllTied(s, o)
    ensures AllTied(Step(s, m), Effect(s, o, m))
  {
    hide Inv, AllTied;
    match m
    case Create(x, spot, text) => CreateTied(s, o, x, spot, text);
    case CallCopy(x, src) => BeginCopyTied(s, o, x, src);
    case CallAppend(x, text) =>
      if AtRestIn(s, x) { CallTied(s, o, x, Str(s.strings[x].data, Testing(Append(text)), None), Effect(s, o, m)); }
    case CallIndex(x) =>
      if AtRestIn(s, x) { CallTied(s, o, x, Str(s.strings[x].data, Testing(Index), None), Effect(s, o, m)); }
    case CallDestroy(x) =>
      if AtRestIn(s, x) { CallTied(s, o, x, Str(s.strings[x].data, Releasing(Gone), None), Effect(s, o, m)); }
    case WriteRef(x, pos, ch) => if AtRestIn(s, x) { WriteRefTied(s, o, x, pos, ch); }
    case Go(x, spot) => GoTied(s, o, x, spot);
  }

  lemma GoTied(s: State, o: map<Sid, Obj>, x: Sid, spot: Addr)
    requires Inv(s) && AllTied(s, o)
    ensures AllTied(Step(s, Go(x, spot)), o)
  {
    hide Inv, AllTied;
    if x in s.strings && !s.strings[x].pc.Ready? && !s.strings[x].pc.Lent? {
      if InRelease(s.strings[x].pc) { ReleaseUnfaulted(s, x); ReleaseStepTied(s, o, x); }
      else if InCopy(s.strings[x].pc) { CopyStepTied(s, o, x, spot); }
      else { ModifyStepTied(s, o, x, spot); }
    }
  }

  lemma ReleaseUnfaulted(s: State, x: Sid)
    requires Inv(s) && x in s.strings && InRelease(s.strings[x].pc)
    ensures !ReleaseStep(s, x).fault
  {
    hide ReleaseStep, InRelease;
    ReleaseStepInv(s, x);
  }

  lemma {:induction false} EveryRunIsTied(trace: seq<State>, moves: seq<Move>, k: nat)
    requires Trace(trace, moves) && k <= |moves|
    ensures AllTied(trace[k], Meant(trace, moves, k))
  {
    hide Inv, Step, Effect;
    if k == 0 {
    } else {
      EveryRunIsTied(trace, moves, k - 1);
      EveryRunKeepsInv(trace, moves, k - 1);
      MoveTied(trace[k - 1], Meant(trace, moves, k - 1), moves[k - 1]);
    }
  }

  // A string exists from its creation to its destruction, and at rest its block holds what the
  // calls made so far mean, whatever the others did in between.
  lemma CallsDecideText(trace: seq<State>, moves: seq<Move>, k: nat, x: Sid)
    requires Trace(trace, moves) && k <= |moves|
    ensures
      var s, o := trace[k], Meant(trace, moves, k);
      && (x in o <==> x in s.strings && !(InRelease(s.strings[x].pc) && s.strings[x].pc.k.Gone?))
      && (x in s.strings && s.strings[x].pc.Ready? ==>
            && s.strings[x].data in s.heap && s.heap[s.strings[x].data].content == o[x].text
            && (s.strings[x].out.Some? <==> o[x].indexed))
  {
    EveryRunIsTied(trace, moves, k);
    assert TiedIn(trace[k], x, Meant(trace, moves, k));
    if x in trace[k].strings && trace[k].strings[x].pc.Ready? { ValueSemantics(trace, moves, k, x); }
  }
}
