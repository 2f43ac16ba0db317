/**
 The recursive benaphore: an atomic use count, a semaphore capped at one, and two plain fields
 (owner and recursion depth) that only the owner may write.  Every shared access is one step.
 */
module RecursiveMutex {
  import opened Options
  import opened Sums

  // Thread `t` has the operating system's id `t + 1`, never zero.
  datatype Pc =
    | Outside
    | CheckingOwner       // lock: the count was positive, about to compare the owner
    | Waiting             // lock: about to wait for the semaphore
    | Entering            // lock, try_lock: gained, about to write the owner
    | Deepening           // lock, try_lock: about to increment the recursion count
    | Trying              // try_lock: about to compare the owner
    | TryingAdd           // try_lock: already owner, about to add one to the count
    | TryingSwap          // try_lock: about to swap the count from zero to one
    | Unwinding           // unlock: about to decrement the recursion count
    | Disowning           // unlock: about to clear the owner
    | Leaving(depth: int) // unlock: about to subtract one from the count
    | Releasing           // unlock: about to release the semaphore

  // `nest` counts the thread's lock calls not yet undone.
  datatype Thread = Thread(pc: Pc, nest: nat)

  datatype State = State(use: int, sem: int, owner: int, recursion: int, threads: seq<Thread>)

  datatype Choice = CallLock | CallTryLock | CallUnlock | Go

  const SEM_MAX := 1

  ghost predicate Init(s: State) {
    s.use == 0 && s.sem == 0 && s.owner == 0 && s.recursion == 0
    && forall t :: 0 <= t < |s.threads| ==> s.threads[t] == Thread(Outside, 0)
  }

  function Goto(s: State, t: nat, pc: Pc): State
    requires t < |s.threads|
  {
    s.(threads := s.threads[t := s.threads[t].(pc := pc)])
  }

  function Nest(s: State, t: nat, pc: Pc, nest: nat): State
    requires t < |s.threads|
  {
    s.(threads := s.threads[t := Thread(pc, nest)])
  }

  // One atomic action of thread `t`.  A waiting thread stays where it is while the semaphore is
  // down; a release of a full semaphore fails and changes nothing; `unlock` by a thread that
  // holds nothing is the caller's error and is not a step.
  function Step(s: State, t: nat, c: Choice): State
    requires t < |s.threads|
  {
    var id, nest := t + 1, s.threads[t].nest;
    match s.threads[t].pc
    case Outside =>
      if c.CallLock? then Goto(s.(use := s.use + 1), t, if s.use > 0 then CheckingOwner else Entering)
      else if c.CallTryLock? then Goto(s, t, Trying)
      else if c.CallUnlock? && nest > 0 then Goto(s, t, Unwinding)
      else s
    case CheckingOwner => Goto(s, t, if s.owner != id then Waiting else Entering)
    case Waiting => if s.sem > 0 then Goto(s.(sem := s.sem - 1), t, Entering) else s
    case Entering => Goto(s.(owner := id), t, Deepening)
    case Deepening => Nest(s.(recursion := s.recursion + 1), t, Outside, nest + 1)
    case Trying => Goto(s, t, if s.owner == id then TryingAdd else TryingSwap)
    case TryingAdd => Goto(s.(use := s.use + 1), t, Deepening)
    case TryingSwap => if s.use == 0 then Goto(s.(use := 1), t, Entering) else Goto(s, t, Outside)
    case Unwinding =>
      var depth := s.recursion - 1;
      Nest(s.(recursion := depth), t, if depth == 0 then Disowning else Leaving(depth),
           if nest > 0 then nest - 1 else 0)
    case Disowning => Goto(s.(owner := 0), t, Leaving(0))
    case Leaving(depth) =>
      Goto(s.(use := s.use - 1), t, if s.use > 1 && depth == 0 then Releasing else Outside)
    case Releasing => Goto(s.(sem := if s.sem < SEM_MAX then s.sem + 1 else s.sem), t, Outside)
  }

  // ---------------------------------------------------------------- the invariant

  // What a thread adds to the use count: its holds, and one while it waits or passes through.
  ghost function Uses(th: Thread): int {
    th.nest + match th.pc
      case CheckingOwner => 1
      case Waiting => 1
      case Entering => 1
      case Deepening => 1
      case Disowning => 1
      case Leaving(_) => 1
      case _ => 0
  }

  // Between gaining the mutex and handing it on, a thread has the token.
  ghost function Token(th: Thread): int {
    if th.nest > 0 || th.pc.Entering? || th.pc.Deepening? || th.pc.Disowning? || th.pc.Leaving? || th.pc.Releasing?
    then 1 else 0
  }

  ghost function Depth(th: Thread): int { th.nest }

  ghost predicate Owns(th: Thread) {
    th.nest > 0 || th.pc.Deepening? || th.pc.Disowning?
  }

  ghost predicate Consistent(th: Thread) {
    match th.pc
    case Waiting => th.nest == 0
    case TryingAdd => th.nest > 0
    case TryingSwap => th.nest == 0
    case Unwinding => th.nest > 0
    case Disowning => th.nest == 0
    case Leaving(depth) => depth == th.nest
    case Releasing => th.nest == 0
    case _ => true
  }

  ghost predicate Inv(s: State) {
    && 0 <= s.sem
    && s.use == Sum(s.threads, Uses)
    && s.recursion == Sum(s.threads, Depth)
    && s.sem + Sum(s.threads, Token) == (if s.use > 0 then 1 else 0)
    && (forall t :: 0 <= t < |s.threads| ==> Consistent(s.threads[t]))
    && (forall t :: 0 <= t < |s.threads| ==> (s.owner == t + 1 <==> Owns(s.threads[t])))
    && 0 <= s.owner <= |s.threads|
  }

  lemma InitInv(s: State)
    requires Init(s)
    ensures Inv(s)
  {
    SumAllZero(s.threads, Uses);
    SumAllZero(s.threads, Depth);
    SumAllZero(s.threads, Token);
  }

  // The one token makes the others empty-handed.
  lemma TokenAlone(s: State, t: nat)
    requires Inv(s) && t < |s.threads| && Token(s.threads[t]) == 1
    ensures s.sem == 0 && s.use > 0
    ensures forall u :: 0 <= u < |s.threads| && u != t ==> Token(s.threads[u]) == 0
    ensures s.recursion == s.threads[t].nest
  {
    SumAtLeast(s.threads, t, Token);
    forall u | 0 <= u < |s.threads| && u != t ensures Token(s.threads[u]) == 0 {
      if u < t { SumAtLeastTwo(s.threads, u, t, Token); } else { SumAtLeastTwo(s.threads, t, u, Token); }
    }
    SumOnlyOne(s.threads, t, Depth);
  }

  lemma NoTokens(s: State)
    requires Inv(s) && (s.use <= 0 || s.sem > 0)
    ensures forall u :: 0 <= u < |s.threads| ==> Token(s.threads[u]) == 0
  {
    SumNonNegative(s.threads, Token);
    forall u | 0 <= u < |s.threads| ensures Token(s.threads[u]) == 0 { SumAtLeast(s.threads, u, Token); }
  }

  // A step keeps the invariant when the shared fields follow the change of its own thread.
  lemma ChangeInv(s: State, t: nat, s': State)
    requires Inv(s) && t < |s.threads| && t < |s'.threads|
    requires s'.threads == s.threads[t := s'.threads[t]]
    requires Consistent(s'.threads[t])
    requires s'.use - s.use == Uses(s'.threads[t]) - Uses(s.threads[t])
    requires s'.recursion - s.recursion == s'.threads[t].nest - s.threads[t].nest
    requires s'.sem >= 0
    requires s'.sem - s.sem + Token(s'.threads[t]) - Token(s.threads[t])
          == (if s'.use > 0 then 1 else 0) - (if s.use > 0 then 1 else 0)
    requires s'.owner == t + 1 <==> Owns(s'.threads[t])
    requires s'.owner == s.owner || (s'.owner in {0, t + 1} && (Owns(s.threads[t]) || Owns(s'.threads[t])))
    requires s'.owner == s.owner || forall u :: 0 <= u < |s.threads| && u != t ==> !Owns(s.threads[u])
    ensures Inv(s')
  {
    SumUpdate(s.threads, t, s'.threads[t], Uses);
    SumUpdate(s.threads, t, s'.threads[t], Token);
    SumUpdate(s.threads, t, s'.threads[t], Depth);
    forall u | 0 <= u < |s.threads| ensures s'.owner == u + 1 <==> Owns(s'.threads[u]) {
      if u != t && s'.owner != s.owner { assert !Owns(s.threads[u]); }
    }
  }

  // What the invariant says of one thread.
  lemma OwnPart(s: State, t: nat)
    requires Inv(s) && t < |s.threads|
    ensures Consistent(s.threads[t]) && (s.owner == t + 1 <==> Owns(s.threads[t]))
    ensures s.sem >= 0 && s.use >= Uses(s.threads[t])
    ensures Token(s.threads[t]) == 1 ==> s.sem == 0 && s.use > 0
    ensures s.use <= 0 ==> s.sem == 0
    ensures s.sem > 0 ==> s.sem == 1 && s.use > 0
  {
    SumAtLeast(s.threads, t, Uses);
    SumNonNegative(s.threads, Token);
    if Token(s.threads[t]) == 1 { TokenAlone(s, t); }
  }

  // A step that leaves the plain fields and the semaphore alone.
  lemma CountInv(s: State, t: nat, use: int, pc: Pc)
    requires Inv(s) && t < |s.threads|
    requires Consistent(Thread(pc, s.threads[t].nest))
    requires use - s.use == Uses(Thread(pc, s.threads[t].nest)) - Uses(s.threads[t])
    requires Token(Thread(pc, s.threads[t].nest)) - Token(s.threads[t])
          == (if use > 0 then 1 else 0) - (if s.use > 0 then 1 else 0)
    requires Owns(Thread(pc, s.threads[t].nest)) == Owns(s.threads[t])
    ensures Inv(Goto(s.(use := use), t, pc))
  {
    hide Inv, Uses, Consistent, Owns, Token;
    OwnPart(s, t);
    ChangeInv(s, t, Goto(s.(use := use), t, pc));
  }

  lemma OutsideInv(s: State, t: nat, c: Choice)
    requires Inv(s) && t < |s.threads| && s.threads[t].pc.Outside?
    ensures Inv(Step(s, t, c))
  {
    hide Inv;
    OwnPart(s, t);
    if c.CallLock? {
      CountInv(s, t, s.use + 1, if s.use > 0 then CheckingOwner else Entering);
    } else if c.CallTryLock? {
      CountInv(s, t, s.use, Trying);
    } else if c.CallUnlock? && s.threads[t].nest > 0 {
      CountInv(s, t, s.use, Unwinding);
    }
  }

  lemma OwnerTestInv(s: State, t: nat, c: Choice)
    requires Inv(s) && t < |s.threads|
    requires s.threads[t].pc.CheckingOwner? || s.threads[t].pc.Trying?
    ensures Inv(Step(s, t, c))
  {
    hide Inv;
    OwnPart(s, t);
    if s.threads[t].pc.CheckingOwner? {
      CountInv(s, t, s.use, if s.owner != t + 1 then Waiting else Entering);
    } else {
      CountInv(s, t, s.use, if s.owner == t + 1 then TryingAdd else TryingSwap);
    }
  }

  // The semaphore's token goes to the waiter.
  lemma WaitInv(s: State, t: nat, c: Choice)
    requires Inv(s) && t < |s.threads| && s.threads[t].pc.Waiting?
    ensures Inv(Step(s, t, c))
  {
    hide Inv;
    OwnPart(s, t);
    if s.sem > 0 { ChangeInv(s, t, Goto(s.(sem := s.sem - 1), t, Entering)); }
  }

  lemma TryInv(s: State, t: nat, c: Choice)
    requires Inv(s) && t < |s.threads|
    requires s.threads[t].pc.TryingAdd? || s.threads[t].pc.TryingSwap?
    ensures Inv(Step(s, t, c))
  {
    hide Inv;
    OwnPart(s, t);
    if s.threads[t].pc.TryingAdd? {
      CountInv(s, t, s.use + 1, Deepening);
    } else {
      CountInv(s, t, if s.use == 0 then 1 else s.use, if s.use == 0 then Entering else Outside);
    }
  }

  // Only the token's holder writes the plain fields.
  lemma FieldInv(s: State, t: nat, c: Choice)
    requires Inv(s) && t < |s.threads|
    requires s.threads[t].pc.Entering? || s.threads[t].pc.Deepening? || s.threads[t].pc.Unwinding?
          || s.threads[t].pc.Disowning?
    ensures Inv(Step(s, t, c))
  {
    hide Inv;
    OwnPart(s, t);
    TokenAlone(s, t);
    ChangeInv(s, t, Step(s, t, c));
  }

  // The last use keeps the token to itself; another user gets it through the semaphore.
  lemma LeaveInv(s: State, t: nat, c: Choice)
    requires Inv(s) && t < |s.threads|
    requires s.threads[t].pc.Leaving? || s.threads[t].pc.Releasing?
    ensures Inv(Step(s, t, c))
  {
    hide Inv;
    OwnPart(s, t);
    ChangeInv(s, t, Step(s, t, c));
  }

  lemma StepInv(s: State, t: nat, c: Choice)
    requires Inv(s) && t < |s.threads|
    ensures Inv(Step(s, t, c)) && |Step(s, t, c).threads| == |s.threads|
  {
    assert |Step(s, t, c).threads| == |s.threads|;
    hide Inv, Step;
    match s.threads[t].pc
    case Outside => OutsideInv(s, t, c);
    case CheckingOwner => OwnerTestInv(s, t, c);
    case Trying => OwnerTestInv(s, t, c);
    case Waiting => WaitInv(s, t, c);
    case TryingAdd => TryInv(s, t, c);
    case TryingSwap => TryInv(s, t, c);
    case Leaving(_) => LeaveInv(s, t, c);
    case Releasing => LeaveInv(s, t, c);
    case _ => FieldInv(s, t, c);
  }

  // ---------------------------------------------------------------- whole runs

  ghost predicate Trace(trace: seq<State>, schedule: seq<(nat, Choice)>) {
    && |trace| == |schedule| + 1 && Init(trace[0])
    && (forall k :: 0 <= k < |schedule| ==> Follows(trace[k], trace[k + 1], schedule[k]))
  }

  ghost predicate Follows(s: State, s': State, move: (nat, Choice)) {
    move.0 < |s.threads| && s' == Step(s, move.0, move.1)
  }

  lemma {:induction false} EveryRunKeepsInv(trace: seq<State>, schedule: seq<(nat, Choice)>, k: nat)
    requires Trace(trace, schedule) && k <= |schedule|
    ensures Inv(trace[k])
  {
    if k == 0 {
      InitInv(trace[0]);
    } else {
      EveryRunKeepsInv(trace, schedule, k - 1);
      assert Follows(trace[k - 1], trace[k], schedule[k - 1]);
      StepInv(trace[k - 1], schedule[k - 1].0, schedule[k - 1].1);
    }
  }

  // At most one thread is inside, and the recursion count is that thread's nesting.
  lemma MutualExclusion(trace: seq<State>, schedule: seq<(nat, Choice)>, k: nat, t: nat)
    requires Trace(trace, schedule) && k <= |schedule|
    requires t < |trace[k].threads| && trace[k].threads[t].nest > 0
    ensures forall u :: 0 <= u < |trace[k].threads| && u != t ==> trace[k].threads[u].nest == 0
    ensures trace[k].owner == t + 1 && trace[k].recursion == trace[k].threads[t].nest
  {
    EveryRunKeepsInv(trace, schedule, k);
    TokenAlone(trace[k], t);
    forall u | 0 <= u < |trace[k].threads| && u != t ensures trace[k].threads[u].nest == 0 {
      assert Token(trace[k].threads[u]) == 0;
    }
  }

  // The plain fields are written by the token holder alone, so the writes never race.
  lemma OwnerFieldsUnraced(trace: seq<State>, schedule: seq<(nat, Choice)>, k: nat, c: Choice, t: nat)
    requires Trace(trace, schedule) && k <= |schedule| && t < |trace[k].threads|
    requires Step(trace[k], t, c).owner != trace[k].owner || Step(trace[k], t, c).recursion != trace[k].recursion
    ensures forall u :: 0 <= u < |trace[k].threads| && u != t ==> Token(trace[k].threads[u]) == 0
  {
    EveryRunKeepsInv(trace, schedule, k);
    TokenAlone(trace[k], t);
  }

  // The use count is exactly the outstanding holds plus the waiters and passers, and exactly
  // one token exists while it is positive.
  lemma UseCountAndToken(trace: seq<State>, schedule: seq<(nat, Choice)>, k: nat)
    requires Trace(trace, schedule) && k <= |schedule|
    ensures trace[k].use == Sum(trace[k].threads, Uses)
    ensures trace[k].sem + Sum(trace[k].threads, Token) == (if trace[k].use > 0 then 1 else 0)
  {
    EveryRunKeepsInv(trace, schedule, k);
  }

  // A release always finds the semaphore down, so it is never lost.
  lemma NeverOverReleased(trace: seq<State>, schedule: seq<(nat, Choice)>, k: nat, t: nat)
    requires Trace(trace, schedule) && k <= |schedule|
    requires t < |trace[k].threads| && trace[k].threads[t].pc.Releasing?
    ensures trace[k].sem == 0 && Step(trace[k], t, Go).sem == 1
  {
    EveryRunKeepsInv(trace, schedule, k);
    TokenAlone(trace[k], t);
  }

  // No waiter is forgotten: with a thread waiting, the semaphore is up or another thread is on
  // its way to hand the mutex on.
  lemma NoWaiterLost(trace: seq<State>, schedule: seq<(nat, Choice)>, k: nat, t: nat)
    requires Trace(trace, schedule) && k <= |schedule|
    requires t < |trace[k].threads| && trace[k].threads[t].pc.Waiting?
    ensures trace[k].sem == 1 || exists u :: 0 <= u < |trace[k].threads| && u != t && Token(trace[k].threads[u]) == 1
  {
    EveryRunKeepsInv(trace, schedule, k);
    var s := trace[k];
    SumAtLeast(s.threads, t, Uses);
    if forall u :: 0 <= u < |s.threads| ==> Token(s.threads[u]) == 0 {
      SumAllZero(s.threads, Token);
    } else {
      var u :| 0 <= u < |s.threads| && Token(s.threads[u]) != 0;
    }
  }

  // try_lock, once past its owner test, fails exactly when the mutex is in use.
  lemma TryLockFails(trace: seq<State>, schedule: seq<(nat, Choice)>, k: nat, t: nat)
    requires Trace(trace, schedule) && k <= |schedule|
    requires t < |trace[k].threads| && trace[k].threads[t].pc.TryingSwap?
    ensures Step(trace[k], t, Go).threads[t].pc.Outside? <==>
      trace[k].sem == 1 || exists u :: 0 <= u < |trace[k].threads| && u != t && Token(trace[k].threads[u]) == 1
  {
    EveryRunKeepsInv(trace, schedule, k);
    var s := trace[k];
    SumNonNegative(s.threads, Uses);
    if s.use > 0 {
      if forall u :: 0 <= u < |s.threads| ==> Token(s.threads[u]) == 0 {
        SumAllZero(s.threads, Token);
      } else {
        var u :| 0 <= u < |s.threads| && Token(s.threads[u]) != 0;
      }
    } else {
      NoTokens(s);
      SumNonNegative(s.threads, Token);
    }
  }
  // ---------------------------------------------------------------- calls and what they do

  // A call that a thread outside really makes.
  predicate Makes(th: Thread, c: Choice) {
    th.pc.Outside? && (c.CallLock? || c.CallTryLock? || (c.CallUnlock? && th.nest > 0))
  }

  // The latest call of a thread.
  ghost function LastCall(trace: seq<State>, schedule: seq<(nat, Choice)>, k: nat, t: nat): (j: Option<nat>)
    requires k <= |schedule| && |trace| == |schedule| + 1
    ensures j.Some? ==>
      && j.value < k && schedule[j.value].0 == t && t < |trace[j.value].threads|
      && Makes(trace[j.value].threads[t], schedule[j.value].1)
  {
    if k == 0 then None
    else if schedule[k - 1].0 == t && t < |trace[k - 1].threads|
            && Makes(trace[k - 1].threads[t], schedule[k - 1].1)
    then Some(k - 1)
    else LastCall(trace, schedule, k - 1, t)
  }

  // Since step `j` the thread has made a step with the mutex in use.
  ghost predicate SawInUse(trace: seq<State>, schedule: seq<(nat, Choice)>, j: nat, k: nat, t: nat)
    requires k <= |schedule| && |trace| == |schedule| + 1
  {
    exists i :: j < i < k && schedule[i].0 == t && trace[i].use != 0
  }

  // Where a call that began with `before` holds may be, and the holds it has by then.
  ghost predicate Serving(c: Choice, before: nat, th: Thread, inUse: bool) {
    match th.pc
    case Outside =>
      if c.CallUnlock? then th.nest == before - 1
      else th.nest == before + 1 || (c.CallTryLock? && before == 0 && th.nest == 0 && inUse)
    case CheckingOwner => c.CallLock? && th.nest == before
    case Waiting => c.CallLock? && th.nest == before
    case Entering => (c.CallLock? || c.CallTryLock?) && th.nest == before
    case Deepening => (c.CallLock? || c.CallTryLock?) && th.nest == before
    case Trying => c.CallTryLock? && th.nest == before
    case TryingAdd => c.CallTryLock? && th.nest == before && before > 0
    case TryingSwap => c.CallTryLock? && th.nest == before && before == 0
    case Unwinding => c.CallUnlock? && th.nest == before && before > 0
    case Disowning => c.CallUnlock? && th.nest == before - 1
    case Leaving(_) => c.CallUnlock? && th.nest == before - 1
    case Releasing => c.CallUnlock? && th.nest == before - 1
  }

  ghost predicate Serves(trace: seq<State>, schedule: seq<(nat, Choice)>, k: nat, t: nat)
    requires k <= |schedule| && |trace| == |schedule| + 1 && t < |trace[k].threads|
  {
    var j := LastCall(trace, schedule, k, t);
    if j.None? then trace[k].threads[t] == Thread(Outside, 0)
    else
      Serving(schedule[j.value].1, trace[j.value].threads[t].nest, trace[k].threads[t],
        SawInUse(trace, schedule, j.value, k, t))
  }

  lemma StepServes(s: State, t: nat, c: Choice, call: Choice, before: nat, inUse: bool)
    requires Inv(s) && t < |s.threads| && !Makes(s.threads[t], c)
    requires Serving(call, before, s.threads[t], inUse)
    ensures |Step(s, t, c).threads| == |s.threads|
    ensures Serving(call, before, Step(s, t, c).threads[t], inUse || s.use != 0)
  {
    hide Inv;
    OwnPart(s, t);
  }

  lemma OthersStay(s: State, t: nat, c: Choice, u: nat)
    requires t < |s.threads| && u < |s.threads| && u != t
    ensures |Step(s, t, c).threads| == |s.threads| && Step(s, t, c).threads[u] == s.threads[u]
  {
  }

  lemma IdleStays(s: State, t: nat, c: Choice)
    requires t < |s.threads| && s.threads[t].pc.Outside? && !Makes(s.threads[t], c)
    ensures Step(s, t, c) == s
  {
  }

  lemma SawInUseStep(trace: seq<State>, schedule: seq<(nat, Choice)>, j: nat, k: nat, t: nat)
    requires 0 < k <= |schedule| && |trace| == |schedule| + 1 && j < k - 1
    ensures SawInUse(trace, schedule, j, k, t) <==>
      SawInUse(trace, schedule, j, k - 1, t) || (schedule[k - 1].0 == t && trace[k - 1].use != 0)
  {
  }

  // Every moment of every call, in every interleaving.
  lemma {:induction false} EveryCallServed(trace: seq<State>, schedule: seq<(nat, Choice)>, k: nat, t: nat)
    requires Trace(trace, schedule) && k <= |schedule| && t < |trace[k].threads|
    ensures Serves(trace, schedule, k, t)
  {
    hide Serving, SawInUse, Inv;
    if k > 0 {
      var (u, c) := schedule[k - 1];
      var s := trace[k - 1];
      assert Follows(s, trace[k], schedule[k - 1]);
      EveryRunKeepsInv(trace, schedule, k - 1);
      StepInv(s, u, c);
      EveryCallServed(trace, schedule, k - 1, t);
      var j := LastCall(trace, schedule, k - 1, t);
      if u == t && Makes(s.threads[t], c) {
        CallServed(s, t, c, SawInUse(trace, schedule, k - 1, k, t));
      } else {
        hide Step, Makes;
        if j.Some? { SawInUseStep(trace, schedule, j.value, k, t); }
        if u != t {
          OthersStay(s, u, c, t);
        } else if j.None? {
          IdleStays(s, t, c);
        } else {
          StepServes(s, t, c, schedule[j.value].1, trace[j.value].threads[t].nest,
            SawInUse(trace, schedule, j.value, k - 1, t));
        }
      }
    }
  }

  lemma CallServed(s: State, t: nat, c: Choice, inUse: bool)
    requires t < |s.threads| && Makes(s.threads[t], c)
    ensures Serving(c, s.threads[t].nest, Step(s, t, c).threads[t], inUse)
  {
  }

  // A call that has returned: lock has made the nesting one deeper and unlock one less deep.
  // try_lock has made it one deeper, always so when the thread already held the mutex; otherwise it
  // may instead have found the mutex in use.
  lemma CallReturned(trace: seq<State>, schedule: seq<(nat, Choice)>, k: nat, t: nat)
    requires Trace(trace, schedule) && k <= |schedule|
    requires t < |trace[k].threads| && trace[k].threads[t].pc.Outside?
    requires LastCall(trace, schedule, k, t).Some?
    ensures
      var j, nest := LastCall(trace, schedule, k, t).value, trace[k].threads[t].nest;
      var call, before := schedule[j].1, trace[j].threads[t].nest;
      && (call.CallLock? ==> nest == before + 1)
      && (call.CallUnlock? ==> nest == before - 1)
      && (call.CallTryLock? && before > 0 ==> nest == before + 1)
      && (call.CallTryLock? && before == 0 ==> nest == 1 || (nest == 0 && SawInUse(trace, schedule, j, k, t)))
  {
    hide SawInUse;
    EveryCallServed(trace, schedule, k, t);
  }
}
