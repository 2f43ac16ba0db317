/**
 The event loop's pending-task list and its wakeup counter.  One thread owns the loop; any
 number of other threads queue tasks and request it to quit.  The eventfd is a counter that
 `Wakeup` increments and `OnWakeup` resets.  Each lock section, flag access and system call is
 one step.
 */
module EventLoop {

  type Tid = nat
  type Task = nat

  // Where the owner thread is.
  datatype LoopPc =
    | Outside                    // not inside Run
    | Testing                    // about to evaluate the while condition
    | Polling                    // inside Poll
    | Handling(wake: bool)       // dispatching channels; the wakeup channel is still to come or not
    | Swapping                   // ProcessPendingTasks: flag set, about to swap the list
    | Running(batch: seq<Task>)  // ProcessPendingTasks: running the swapped-out tasks

  // Another thread, or one between its update (a push or a quit) and its Wakeup.
  datatype Other = Free | Owing

  datatype State = State(
    running: bool,
    executing: bool,
    pending: seq<Task>,
    counter: nat,
    loop: LoopPc,
    ownerOwes: bool,             // the owner is between a push and its Wakeup
    others: map<Tid, Other>,
    fault: bool,                 // OnWakeup found nothing to read
    early: bool,                 // history: the owner queued outside Run, not yet swapped out
    queued: seq<Task>,           // history: every task, in the order of the pushes
    executed: seq<Task>)         // history: every task run, in order

  datatype Move =
    | OwnerQueue(task: Task) | OwnerQuit | OwnerRun | OwnerGo
    | OtherQueue(t: Tid, task: Task) | OtherQuit(t: Tid) | OtherGo(t: Tid)

  ghost predicate Init(s: State) {
    && !s.running && !s.executing && s.pending == [] && s.counter == 0 && s.loop == Outside
    && !s.ownerOwes && !s.fault && !s.early && s.queued == [] && s.executed == []
    && forall t :: t in s.others ==> s.others[t] == Free
  }

  function Push(s: State, task: Task): State {
    s.(pending := s.pending + [task], queued := s.queued + [task])
  }

  // The owner may call QueueTask and Quit where its own code runs: outside Run, in a channel's
  // handler and in a task.
  predicate OwnerCode(pc: LoopPc) {
    pc.Outside? || pc.Handling? || pc.Running?
  }

  function OwnerStep(s: State, m: Move): State {
    if s.ownerOwes then s.(counter := s.counter + 1, ownerOwes := false)
    else match m
      case OwnerQueue(task) =>
        if OwnerCode(s.loop)
        then Push(s, task).(ownerOwes := s.executing, early := s.early || s.loop.Outside?)
        else s
      case OwnerQuit => if OwnerCode(s.loop) then s.(running := false) else s
      case OwnerRun => if s.loop.Outside? && !s.running then s.(running := true, loop := Testing) else s
      case _ => LoopStep(s)
  }

  function LoopStep(s: State): State {
    match s.loop
    case Outside => s
    case Testing => s.(loop := if s.running then Polling else Outside)
    case Polling => s.(loop := Handling(s.counter > 0))
    case Handling(wake) =>
      if wake then s.(counter := 0, fault := s.fault || s.counter == 0, loop := Handling(false))
      else s.(executing := true, loop := Swapping)
    case Swapping => s.(pending := [], early := false, loop := Running(s.pending))
    case Running(batch) =>
      if batch == [] then s.(executing := false, loop := Testing)
      else s.(executed := s.executed + [batch[0]], loop := Running(batch[1..]))
  }

  function OtherStep(s: State, t: Tid, m: Move): State
    requires t in s.others
  {
    if s.others[t].Owing? then s.(counter := s.counter + 1, others := s.others[t := Free])
    else match m
      case OtherQueue(_, task) => Push(s, task).(others := s.others[t := Owing])
      case OtherQuit(_) => s.(running := false, others := s.others[t := Owing])
      case _ => s
  }

  function Step(s: State, m: Move): State {
    match m
    case OtherQueue(t, _) => if t in s.others then OtherStep(s, t, m) else s
    case OtherQuit(t) => if t in s.others then OtherStep(s, t, m) else s
    case OtherGo(t) => if t in s.others then OtherStep(s, t, m) else s
    case _ => OwnerStep(s, m)
  }

  // ---------------------------------------------------------------- what is claimed

  ghost predicate SomeoneOwes(s: State) {
    s.ownerOwes || exists t :: t in s.others && s.others[t] == Owing
  }

  // The next Poll will return at once, now or after an update in progress.
  ghost predicate WillWake(s: State) {
    s.counter > 0 || SomeoneOwes(s)
  }

  // A poll that has work to do, or a quit to notice, will not sleep.
  ghost predicate Covered(s: State) {
    s.loop.Polling? && (s.pending != [] || !s.running) ==> WillWake(s)
  }

  // The tasks the loop has taken out but not run yet.
  ghost function Batch(pc: LoopPc): seq<Task> {
    if pc.Running? then pc.batch else []
  }

  ghost predicate Inv(s: State) {
    && !s.fault
    && (s.executing <==> s.loop.Swapping? || s.loop.Running?)
    && (s.ownerOwes ==> s.loop.Running?)
    && (s.loop == Handling(true) ==> s.counter > 0)
    && (s.loop.Polling? && !s.running ==> WillWake(s))
    && (s.pending != [] && !s.loop.Handling? && !s.loop.Swapping? ==> WillWake(s) || s.early)
    && s.queued == s.executed + Batch(s.loop) + s.pending
  }

  lemma InitInv(s: State)
    requires Init(s)
    ensures Inv(s)
  {
  }

  // The owner's steps that leave the other threads alone: somebody owes afterwards if one of them
  // did, or the owner does.
  lemma SameOthers(s: State, s': State)
    requires s'.others == s.others
    ensures SomeoneOwes(s') <==> s'.ownerOwes || OthersOwe(s)
    ensures SomeoneOwes(s) <==> s.ownerOwes || OthersOwe(s)
  {
  }

  ghost predicate OthersOwe(s: State) { exists t :: t in s.others && s.others[t] == Owing }

  // The owner's calls, and its overdue write.
  lemma OwnerCallInv(s: State, m: Move)
    requires Inv(s) && (s.ownerOwes || m.OwnerQueue? || m.OwnerQuit? || m.OwnerRun?)
    ensures Inv(OwnerStep(s, m))
  {
    var s' := OwnerStep(s, m);
    SameOthers(s, s');
    hide SomeoneOwes, OthersOwe;
    assert m.OwnerQueue? ==>
      s.executed + Batch(s.loop) + s.pending + [m.task] == s.executed + Batch(s.loop) + (s.pending + [m.task]);
  }

  lemma PollInv(s: State)
    requires Inv(s) && !s.ownerOwes && (s.loop.Outside? || s.loop.Testing? || s.loop.Polling?)
    ensures Inv(LoopStep(s))
  {
    SameOthers(s, LoopStep(s));
    hide SomeoneOwes, OthersOwe;
  }

  lemma HandleInv(s: State)
    requires Inv(s) && !s.ownerOwes && s.loop.Handling?
    ensures Inv(LoopStep(s))
  {
    SameOthers(s, LoopStep(s));
    hide SomeoneOwes, OthersOwe;
  }

  lemma SwapInv(s: State)
    requires Inv(s) && !s.ownerOwes && s.loop.Swapping?
    ensures Inv(LoopStep(s))
  {
    SameOthers(s, LoopStep(s));
    hide SomeoneOwes, OthersOwe;
  }

  lemma RunInv(s: State)
    requires Inv(s) && !s.ownerOwes && s.loop.Running?
    ensures Inv(LoopStep(s))
  {
    SameOthers(s, LoopStep(s));
    hide SomeoneOwes, OthersOwe;
    if s.loop.batch != [] {
      var first, rest := s.loop.batch[0], s.loop.batch[1..];
      assert s.loop.batch == [first] + rest;
      assert s.executed + ([first] + rest) == s.executed + [first] + rest;
    }
  }

  lemma OwnerStepInv(s: State, m: Move)
    requires Inv(s)
    ensures Inv(OwnerStep(s, m))
  {
    if s.ownerOwes || m.OwnerQueue? || m.OwnerQuit? || m.OwnerRun? {
      OwnerCallInv(s, m);
    } else {
      hide Inv, LoopStep;
      match s.loop {
        case Handling(_) => HandleInv(s);
        case Swapping => SwapInv(s);
        case Running(_) => RunInv(s);
        case _ => PollInv(s);
      }
    }
  }

  lemma OtherStepInv(s: State, t: Tid, m: Move)
    requires Inv(s) && t in s.others
    ensures Inv(OtherStep(s, t, m))
  {
    var s' := OtherStep(s, t, m);
    assert s'.others[t] == Owing ==> SomeoneOwes(s');
    if SomeoneOwes(s) && !s.ownerOwes && s.others[t] != Owing {
      var u :| u in s.others && s.others[u] == Owing;
      assert u in s'.others && s'.others[u] == Owing;
    }
  }

  lemma StepInv(s: State, m: Move)
    requires Inv(s)
    ensures Inv(Step(s, m))
  {
    match m
    case OtherQueue(t, _) => if t in s.others { OtherStepInv(s, t, m); }
    case OtherQuit(t) => if t in s.others { OtherStepInv(s, t, m); }
    case OtherGo(t) => if t in s.others { OtherStepInv(s, t, m); }
    case _ => OwnerStepInv(s, m);
  }

  // ---------------------------------------------------------------- whole runs

  ghost predicate Trace(trace: seq<State>, moves: seq<Move>) {
    && |trace| == |moves| + 1 && Init(trace[0])
    && (forall k :: 0 <= k < |moves| ==> trace[k + 1] == Step(trace[k], moves[k]))
  }

  lemma {:induction false} EveryRunKeepsInv(trace: seq<State>, moves: seq<Move>, k: nat)
    requires Trace(trace, moves) && k <= |moves|
    ensures Inv(trace[k])
  {
    if k == 0 {
      InitInv(trace[0]);
    } else {
      EveryRunKeepsInv(trace, moves, k - 1);
      StepInv(trace[k - 1], moves[k - 1]);
    }
  }

  // The owner queues tasks only from handlers and tasks, never outside Run.
  ghost predicate NoEarlyQueue(trace: seq<State>, moves: seq<Move>)
    requires Trace(trace, moves)
  {
    forall k :: 0 <= k < |moves| && moves[k].OwnerQueue? ==> !trace[k].loop.Outside?
  }

  lemma {:induction false} NeverEarly(trace: seq<State>, moves: seq<Move>, k: nat)
    requires Trace(trace, moves) && NoEarlyQueue(trace, moves) && k <= |moves|
    ensures !trace[k].early
  {
    if k > 0 {
      NeverEarly(trace, moves, k - 1);
      assert trace[k] == Step(trace[k - 1], moves[k - 1]);
    }
  }

  // No lost wakeup: a poll with pending tasks or a requested quit is always going to return.
  lemma NoLostWakeup(trace: seq<State>, moves: seq<Move>, k: nat)
    requires Trace(trace, moves) && NoEarlyQueue(trace, moves) && k <= |moves|
    ensures Covered(trace[k])
  {
    EveryRunKeepsInv(trace, moves, k);
    NeverEarly(trace, moves, k);
  }

  // A poll with the flag down is always going to return; no condition needed.
  lemma NoLostQuit(trace: seq<State>, moves: seq<Move>, k: nat)
    requires Trace(trace, moves) && k <= |moves|
    requires trace[k].loop.Polling? && !trace[k].running
    ensures WillWake(trace[k])
  {
    EveryRunKeepsInv(trace, moves, k);
  }

  // The task of a QueueTask call that is really made in this state: by another thread that is not
  // about to write a wakeup, or by the owner's own code.
  ghost function Called(s: State, m: Move): seq<Task> {
    match m
    case OtherQueue(t, task) => if t in s.others && s.others[t].Free? then [task] else []
    case OwnerQueue(task) =>
      if !s.ownerOwes && (s.loop.Outside? || s.loop.Handling? || s.loop.Running?) then [task] else []
    case _ => []
  }

  // The tasks of all the calls made before state `k`, in their order.
  ghost function AllCalled(trace: seq<State>, moves: seq<Move>, k: nat): seq<Task>
    requires k <= |moves| && |trace| == |moves| + 1
  {
    if k == 0 then [] else AllCalled(trace, moves, k - 1) + Called(trace[k - 1], moves[k - 1])
  }

  lemma StepQueues(s: State, m: Move)
    ensures Step(s, m).queued == s.queued + Called(s, m)
  {
    assert s.queued + [] == s.queued;
    if m.OtherQueue? || m.OtherQuit? || m.OtherGo? {
      hide OwnerStep;
    } else {
      hide OtherStep;
    }
  }

  lemma {:induction false} QueuedIsCalled(trace: seq<State>, moves: seq<Move>, k: nat)
    requires Trace(trace, moves) && k <= |moves|
    ensures trace[k].queued == AllCalled(trace, moves, k)
  {
    hide Step, Called, Inv;
    if k == 0 {
      assert Init(trace[0]);
    } else {
      QueuedIsCalled(trace, moves, k - 1);
      StepQueues(trace[k - 1], moves[k - 1]);
      assert trace[k] == Step(trace[k - 1], moves[k - 1]);
    }
  }

  // The tasks of all the calls, in the order of the calls, are those run, those taken out and those
  // still pending; and the read in OnWakeup always finds the counter positive.
  lemma ExecutedIsPrefixOfQueued(trace: seq<State>, moves: seq<Move>, k: nat)
    requires Trace(trace, moves) && k <= |moves|
    ensures AllCalled(trace, moves, k) == trace[k].executed + Batch(trace[k].loop) + trace[k].pending
    ensures trace[k].queued == AllCalled(trace, moves, k) && trace[k].executed <= trace[k].queued
    ensures !trace[k].fault
  {
    EveryRunKeepsInv(trace, moves, k);
    QueuedIsCalled(trace, moves, k);
  }

  // ---------------------------------------------------------------- quits

  // A call of Quit that a thread really makes in this state.
  ghost predicate Quits(s: State, m: Move) {
    || (m.OtherQuit? && m.t in s.others && s.others[m.t] == Free)
    || (m.OwnerQuit? && !s.ownerOwes && OwnerCode(s.loop))
  }

  // Run returns in step `i`.
  ghost predicate Returns(trace: seq<State>, i: nat)
    requires i + 1 < |trace|
  {
    !trace[i].loop.Outside? && trace[i + 1].loop.Outside?
  }

  // Run has not returned before the state `k`; it may just have.
  ghost predicate BeforeReturn(trace: seq<State>, j: nat, k: nat)
    requires k < |trace|
  {
    forall i :: j <= i && i + 1 < k ==> !Returns(trace, i)
  }

  // Run returns exactly when the owner, owing no wakeup, goes on at the test and finds the flag down.
  lemma ReturnsIff(trace: seq<State>, moves: seq<Move>, i: nat)
    requires Trace(trace, moves) && i < |moves|
    ensures Returns(trace, i) <==> trace[i].loop.Testing? && !trace[i].running && moves[i] == OwnerGo
  {
    EveryRunKeepsInv(trace, moves, i);
    assert trace[i + 1] == Step(trace[i], moves[i]);
  }

  ghost predicate StillQuitting(s: State) { !s.running && Covered(s) }

  // From the quit at step `j` on, until Run next returns, the flag stays down and no poll sleeps.
  ghost predicate InForce(trace: seq<State>, j: nat) {
    forall k :: j < k < |trace| && BeforeReturn(trace, j, k) ==> StillQuitting(trace[k])
  }

  // What keeps the flag down: it is raised only outside Run, by OwnerRun.
  lemma {:induction false} QuitStays(trace: seq<State>, moves: seq<Move>, j: nat, k: nat)
    requires Trace(trace, moves) && j < k <= |moves| && Quits(trace[j], moves[j]) && BeforeReturn(trace, j, k)
    requires !trace[j].loop.Outside? || forall i :: j < i < k ==> moves[i] != OwnerRun
    ensures StillQuitting(trace[k])
    ensures trace[j].loop.Outside? ==> trace[k].loop.Outside?
    ensures !trace[j].loop.Outside? ==> !trace[k].loop.Outside? || Returns(trace, k - 1)
  {
    EveryRunKeepsInv(trace, moves, k - 1);
    EveryRunKeepsInv(trace, moves, k);
    assert trace[k] == Step(trace[k - 1], moves[k - 1]);
    if k > j + 1 {
      assert forall i :: j <= i && i + 1 < k - 1 ==> !Returns(trace, i);
      QuitStays(trace, moves, j, k - 1);
      assert !Returns(trace, k - 2);
    }
  }

  // A quit issued outside Run is overwritten by the next OwnerRun.
  lemma QuitOverwritten(trace: seq<State>, moves: seq<Move>, j: nat, k: nat)
    requires Trace(trace, moves) && j < k < |moves| && Quits(trace[j], moves[j]) && trace[j].loop.Outside?
    requires moves[k] == OwnerRun && forall i :: j < i < k ==> moves[i] != OwnerRun
    ensures trace[k + 1].running && BeforeReturn(trace, j, k + 1)
  {
    forall i | j < i <= k ensures trace[i].loop.Outside? && !trace[i].running { StaysOutside(trace, moves, j, i); }
    EveryRunKeepsInv(trace, moves, k);
    assert trace[k + 1] == Step(trace[k], moves[k]);
    assert forall i :: j <= i <= k ==> trace[i].loop.Outside?;
  }

  lemma {:induction false} StaysOutside(trace: seq<State>, moves: seq<Move>, j: nat, k: nat)
    requires Trace(trace, moves) && j < k <= |moves| && Quits(trace[j], moves[j]) && trace[j].loop.Outside?
    requires forall i :: j < i < k ==> moves[i] != OwnerRun
    ensures trace[k].loop.Outside? && !trace[k].running
  {
    if k > j + 1 { StaysOutside(trace, moves, j, k - 1); }
    EveryRunKeepsInv(trace, moves, k - 1);
    assert trace[k] == Step(trace[k - 1], moves[k - 1]);
  }

  // A quit is in force exactly when it was issued inside Run, or Run is not entered again.
  lemma QuitInForceIff(trace: seq<State>, moves: seq<Move>, j: nat)
    requires Trace(trace, moves) && j < |moves| && Quits(trace[j], moves[j])
    ensures InForce(trace, j) <==> !trace[j].loop.Outside? || forall i :: j < i < |moves| ==> moves[i] != OwnerRun
  {
    if !trace[j].loop.Outside? || forall i :: j < i < |moves| ==> moves[i] != OwnerRun {
      forall k | j < k < |trace| && BeforeReturn(trace, j, k) ensures StillQuitting(trace[k]) {
        QuitStays(trace, moves, j, k);
      }
    } else {
      var k := FirstRun(moves, j + 1);
      QuitOverwritten(trace, moves, j, k);
      assert !StillQuitting(trace[k + 1]);
    }
  }

  lemma {:induction false} FirstRun(moves: seq<Move>, j: nat) returns (k: nat)
    requires exists i :: j <= i < |moves| && moves[i] == OwnerRun
    ensures j <= k < |moves| && moves[k] == OwnerRun && forall i :: j <= i < k ==> moves[i] != OwnerRun
    decreases |moves| - j
  {
    if moves[j] == OwnerRun { k := j; } else { k := FirstRun(moves, j + 1); }
  }

  // The states of a loop with one other thread and nothing queued.
  ghost function Alone(running: bool, executing: bool, counter: nat, loop: LoopPc, other: Other): State {
    State(running, executing, [], counter, loop, false, map[1 := other], false, false, [], [])
  }

  lemma AloneStep(running: bool, counter: nat)
    ensures
      && Step(Alone(running, false, counter, Outside, Free), OtherQuit(1))
        == Alone(false, false, counter, Outside, Owing)
      && Step(Alone(running, false, counter, Outside, Owing), OtherGo(1))
        == Alone(running, false, counter + 1, Outside, Free)
      && Step(Alone(false, false, counter, Outside, Free), OwnerRun) == Alone(true, false, counter, Testing, Free)
  {
    assert map[1 := Free][1 := Owing] == map[1 := Owing] && map[1 := Owing][1 := Free] == map[1 := Free];
  }

  lemma AloneLoop(counter: nat)
    ensures
      && Step(Alone(true, false, counter, Testing, Free), OwnerGo) == Alone(true, false, counter, Polling, Free)
      && Step(Alone(true, false, 1, Polling, Free), OwnerGo) == Alone(true, false, 1, Handling(true), Free)
      && Step(Alone(true, false, 1, Handling(true), Free), OwnerGo) == Alone(true, false, 0, Handling(false), Free)
      && Step(Alone(true, false, 0, Handling(false), Free), OwnerGo) == Alone(true, true, 0, Swapping, Free)
      && Step(Alone(true, true, 0, Swapping, Free), OwnerGo) == Alone(true, true, 0, Running([]), Free)
      && Step(Alone(true, true, 0, Running([]), Free), OwnerGo) == Alone(true, false, 0, Testing, Free)
  {
  }

  // A run goes on by one step to `s`.
  lemma Extend(trace: seq<State>, moves: seq<Move>, m: Move, s: State) returns (trace': seq<State>, moves': seq<Move>)
    requires Trace(trace, moves) && s == Step(trace[|moves|], m)
    ensures Trace(trace', moves') && |moves'| == |moves| + 1 && trace'[|moves'|] == s
    ensures trace'[0] == trace[0] && moves'[0] == if moves == [] then m else moves[0]
  {
    hide Step;
    trace', moves' := trace + [s], moves + [m];
  }

  // A concrete run: another thread quits before Run is entered, and the poll sleeps all the same.
  lemma EarlyQuitSleeps()
    ensures exists trace, moves :: EarlyQuit(trace, moves)
  {
    var trace, moves := [Alone(false, false, 0, Outside, Free)], [];
    AloneStep(false, 0);
    AloneLoop(0);
    AloneLoop(1);
    assert Trace(trace, moves) && Quits(trace[0], OtherQuit(1));
    hide Step, Trace, Quits;
    trace, moves := Extend(trace, moves, OtherQuit(1), Alone(false, false, 0, Outside, Owing));
    trace, moves := Extend(trace, moves, OtherGo(1), Alone(false, false, 1, Outside, Free));
    trace, moves := Extend(trace, moves, OwnerRun, Alone(true, false, 1, Testing, Free));
    trace, moves := Extend(trace, moves, OwnerGo, Alone(true, false, 1, Polling, Free));
    trace, moves := Extend(trace, moves, OwnerGo, Alone(true, false, 1, Handling(true), Free));
    trace, moves := Extend(trace, moves, OwnerGo, Alone(true, false, 0, Handling(false), Free));
    trace, moves := Extend(trace, moves, OwnerGo, Alone(true, true, 0, Swapping, Free));
    trace, moves := Extend(trace, moves, OwnerGo, Alone(true, true, 0, Running([]), Free));
    trace, moves := Extend(trace, moves, OwnerGo, Alone(true, false, 0, Testing, Free));
    trace, moves := Extend(trace, moves, OwnerGo, Alone(true, false, 0, Polling, Free));
    assert EarlyQuit(trace, moves);
  }

  // A quit made in the first step is gone in the last state: the poll is to sleep.
  ghost predicate EarlyQuit(trace: seq<State>, moves: seq<Move>) {
    && Trace(trace, moves) && |moves| > 0 && Quits(trace[0], moves[0])
    && var s := trace[|moves|]; s.loop.Polling? && s.running && s.pending == [] && !WillWake(s)
  }

  // ---------------------------------------------------------------- early tasks

  // An update that ends with a write to the wakeup counter.
  ghost predicate Notifies(s: State, m: Move) {
    || ((m.OtherQueue? || m.OtherQuit?) && m.t in s.others && s.others[m.t] == Free)
    || (m.OwnerQueue? && !s.ownerOwes && s.executing && OwnerCode(s.loop))
  }

  // A task the owner queues outside Run, without a wakeup.
  ghost predicate QueuesEarly(s: State, m: Move) {
    m.OwnerQueue? && !s.ownerOwes && s.loop.Outside?
  }

  lemma OtherOwesAfter(s: State, t: Tid, m: Move)
    requires t in s.others
    ensures WillWake(OtherStep(s, t, m)) <==>
      WillWake(s) || (s.others[t] == Free && (m.OtherQueue? || m.OtherQuit?))
  {
    var s' := OtherStep(s, t, m);
    assert s'.others[t] == Owing ==> SomeoneOwes(s');
    if u :| u in s.others && u != t && s.others[u] == Owing { assert s'.others[u] == Owing; }
    if u :| u in s'.others && u != t && s'.others[u] == Owing { assert s.others[u] == Owing; }
  }

  lemma OwnerOwesAfter(s: State, m: Move)
    requires s.loop != Handling(true)
    ensures WillWake(OwnerStep(s, m)) <==>
      WillWake(s) || (m.OwnerQueue? && !s.ownerOwes && s.executing && OwnerCode(s.loop))
  {
    hide SomeoneOwes, OthersOwe, LoopStep;
    LoopKeeps(s);
    SameOthers(s, OwnerStep(s, m));
  }

  lemma LoopKeeps(s: State)
    requires s.loop != Handling(true)
    ensures var s' := LoopStep(s); s'.counter == s.counter && s'.ownerOwes == s.ownerOwes && s'.others == s.others
  {
  }

  lemma OwesAfter(s: State, m: Move)
    requires s.loop != Handling(true)
    ensures WillWake(Step(s, m)) <==> WillWake(s) || Notifies(s, m)
  {
    hide WillWake, OwnerStep, OtherStep;
    if m.OtherQueue? || m.OtherQuit? || m.OtherGo? {
      if m.t in s.others { OtherOwesAfter(s, m.t, m); }
    } else {
      OwnerOwesAfter(s, m);
    }
  }

  // As long as OnWakeup reads nothing, a wakeup is due exactly after an update that owes one.
  lemma {:induction false} WokenIff(trace: seq<State>, moves: seq<Move>, j: nat, k: nat)
    requires Trace(trace, moves) && j <= k <= |moves| && forall i :: j <= i < k ==> trace[i].loop != Handling(true)
    ensures WillWake(trace[k]) <==> WillWake(trace[j]) || exists i :: j <= i < k && Notifies(trace[i], moves[i])
  {
    if j < k {
      WokenIff(trace, moves, j, k - 1);
      OwesAfter(trace[k - 1], moves[k - 1]);
      assert trace[k] == Step(trace[k - 1], moves[k - 1]);
    }
  }

  lemma FilledStep(s: State, m: Move)
    requires (s.loop.Outside? || s.loop.Testing?) && !s.executing && !s.ownerOwes && !Notifies(s, m)
    ensures Step(s, m).pending == [] <==> s.pending == [] && !QueuesEarly(s, m)
  {
  }

  // Up to the first poll only early queueing and other threads fill the list.
  lemma {:induction false} FilledIff(trace: seq<State>, moves: seq<Move>, j: nat, k: nat)
    requires Trace(trace, moves) && j <= k <= |moves|
    requires forall i :: j <= i < k ==> trace[i].loop.Outside? || trace[i].loop.Testing?
    requires forall i :: j <= i < k ==> !Notifies(trace[i], moves[i])
    ensures trace[k].pending == [] <==>
      trace[j].pending == [] && forall i :: j <= i < k ==> !QueuesEarly(trace[i], moves[i])
  {
    hide Step, Notifies, QueuesEarly;
    if j < k {
      FilledIff(trace, moves, j, k - 1);
      EveryRunKeepsInv(trace, moves, k - 1);
      FilledStep(trace[k - 1], moves[k - 1]);
      assert trace[k] == Step(trace[k - 1], moves[k - 1]);
    }
  }

  // From a moment outside Run with the counter at zero and nobody owing, up to the first poll: it
  // is covered exactly when a thread has sent a wakeup since, or there is nothing to do.
  lemma FirstPollCoveredIff(trace: seq<State>, moves: seq<Move>, j: nat, k: nat)
    requires Trace(trace, moves) && j <= k <= |moves| && !WillWake(trace[j]) && trace[k].loop.Polling?
    requires forall i :: j <= i < k ==> trace[i].loop.Outside? || trace[i].loop.Testing?
    ensures Covered(trace[k]) <==>
      || (exists i :: j <= i < k && Notifies(trace[i], moves[i]))
      || (trace[j].pending == [] && forall i :: j <= i < k ==> !QueuesEarly(trace[i], moves[i]))
  {
    hide Step, Notifies, QueuesEarly, WillWake, Inv;
    WokenIff(trace, moves, j, k);
    if forall i :: j <= i < k ==> !Notifies(trace[i], moves[i]) {
      FilledIff(trace, moves, j, k);
      EveryRunKeepsInv(trace, moves, k);
      PollNoticed(trace[k]);
    }
  }

  lemma PollNoticed(s: State)
    requires Inv(s)
    ensures s.loop.Polling? && !s.running ==> WillWake(s)
  {
  }

  // The owner queues `tasks` before Run, then runs into its first poll.
  ghost function QueueAll(s: State, tasks: seq<Task>): State
    decreases |tasks|
  {
    if tasks == [] then s else QueueAll(Step(s, OwnerQueue(tasks[0])), tasks[1..])
  }

  ghost function FirstPoll(s: State, tasks: seq<Task>): State {
    Step(Step(QueueAll(s, tasks), OwnerRun), OwnerGo)
  }

  ghost predicate Quiet(s: State) {
    s.loop.Outside? && !s.running && !s.executing && !WillWake(s) && s.pending == []
  }

  lemma {:induction false} QueueAllOutside(s: State, tasks: seq<Task>)
    requires s.loop.Outside? && !s.running && !s.executing && !WillWake(s)
    ensures
      var s' := QueueAll(s, tasks);
      && s'.loop.Outside? && !s'.running && !s'.executing && !WillWake(s')
      && s'.pending == s.pending + tasks
    decreases |tasks|
  {
    if tasks != [] {
      var s1 := Step(s, OwnerQueue(tasks[0]));
      assert s1.others == s.others;
      QueueAllOutside(s1, tasks[1..]);
      assert s.pending + tasks == s.pending + [tasks[0]] + tasks[1..];
    }
  }

  // With nobody else moving: a loop started quietly polls with its tasks uncovered exactly when
  // the owner queued some first.
  lemma QuietStartCoveredIff(s: State, tasks: seq<Task>)
    requires Quiet(s)
    ensures FirstPoll(s, tasks).loop.Polling?
    ensures Covered(FirstPoll(s, tasks)) <==> tasks == []
  {
    QueueAllOutside(s, tasks);
    var s1 := QueueAll(s, tasks);
    assert Step(s1, OwnerRun).others == s1.others;
  }

  // A concrete run: one task queued before Run leaves the first poll asleep on it.
  lemma EarlyTaskSleeps()
    ensures exists trace, moves :: Trace(trace, moves) && !Covered(trace[|moves|])
  {
    var s0 := State(false, false, [], 0, Outside, false, map[], false, false, [], []);
    var moves := [OwnerQueue(7), OwnerRun, OwnerGo];
    var s1 := Step(s0, moves[0]);
    var s2 := Step(s1, moves[1]);
    var s3 := Step(s2, moves[2]);
    var trace := [s0, s1, s2, s3];
    assert Trace(trace, moves);
    assert s3.loop.Polling? && s3.pending == [7] && !WillWake(s3);
    assert !Covered(trace[|moves|]);
  }
}
