/** Interactive sign-in: a spawned login process waits for a code, and one stored handle says which process the next
    code is for.  The steps are the regions that hold the sign-in lock and the waits between them. */
module AuthSessions {

  datatype Option<+T> = None | Some(value: T)

  datatype Process = Process(alive: bool, codes: nat)

  datatype StartPc = ToStart | Awaiting(process: nat) | Dropping(process: nat) | Started

  datatype SubmitPc = ToClaim | Writing(process: nat) | Waiting(process: nat) | Cleaning(process: nat) | Submitted

  datatype Thread = Start(start: StartPc) | Submit(submit: SubmitPc) | Stop(done: bool)

  datatype State = State(processes: seq<Process>, handle: Option<nat>, threads: seq<Thread>)

  const INITIAL := State([], None, [])

  /** What a thread may meet: a login that cannot be spawned, output without the sign-in page, a pipe that breaks, a
      lock that cannot be had in time. */
  datatype Choice = Well | Badly

  datatype Action = Call(thread: Thread) | Step(thread_: nat, choice: Choice) | Exits(process: nat)

  predicate Fresh(t: Thread) {
    t in {Start(ToStart), Submit(ToClaim), Stop(false)}
  }

  predicate Over(t: Thread) {
    t in {Start(Started), Submit(Submitted), Stop(true)}
  }

  function Terminated(processes: seq<Process>, p: Option<nat>): seq<Process> {
    if p.Some? && p.value < |processes| then processes[p.value := processes[p.value].(alive := false)] else processes
  }

  predicate Alive(s: State, p: nat) {
    p < |s.processes| && s.processes[p].alive
  }

  /** The effect of one step of a thread: its new position, the processes, and the handle. */
  datatype Effect = Effect(moved: Thread, processes: seq<Process>, handle: Option<nat>)

  function StartEffect(s: State, pc: StartPc, choice: Choice): Effect {
    match pc
    case ToStart =>
      // tears the stored session down, spawns the login and stores it
      var left := Terminated(s.processes, s.handle);
      if choice.Well? then Effect(Start(Awaiting(|left|)), left + [Process(true, 0)], Some(|left|))
      else Effect(Start(Started), left, None)
    case Awaiting(p) =>
      if !Alive(s, p) || choice.Badly? then Effect(Start(Dropping(p)), s.processes, s.handle)
      else Effect(Start(Started), s.processes, s.handle)
    case Dropping(p) =>
      Effect(Start(Started), Terminated(s.processes, Some(p)), if s.handle == Some(p) then None else s.handle)
    case Started => Effect(Start(Started), s.processes, s.handle)
  }

  function SubmitEffect(s: State, pc: SubmitPc, choice: Choice): Effect {
    match pc
    case ToClaim =>
      if s.handle.None? || !Alive(s, s.handle.value) then Effect(Submit(Submitted), s.processes, s.handle)
      else Effect(Submit(Writing(s.handle.value)), s.processes, None)
    case Writing(p) =>
      if Alive(s, p) && choice.Well? then
        Effect(Submit(Waiting(p)), s.processes[p := s.processes[p].(codes := s.processes[p].codes + 1)], s.handle)
      else Effect(Submit(Cleaning(p)), s.processes, s.handle)
    case Waiting(p) => Effect(Submit(Cleaning(p)), s.processes, s.handle)
    case Cleaning(p) => Effect(Submit(Submitted), Terminated(s.processes, Some(p)), s.handle)
    case Submitted => Effect(Submit(Submitted), s.processes, s.handle)
  }

  function EffectOf(s: State, t: Thread, choice: Choice): Effect {
    match t
    case Start(pc) => StartEffect(s, pc, choice)
    case Submit(pc) => SubmitEffect(s, pc, choice)
    case Stop(done) =>
      if !done && choice.Well? then Effect(Stop(true), Terminated(s.processes, s.handle), None)
      else Effect(Stop(true), s.processes, s.handle)
  }

  predicate Enabled(s: State, a: Action) {
    match a
    case Call(t) => Fresh(t)
    case Step(i, _) => i < |s.threads| && !Over(s.threads[i])
    case Exits(p) => p < |s.processes|
  }

  function Next(s: State, a: Action): State
    requires Enabled(s, a)
  {
    match a
    case Call(t) => s.(threads := s.threads + [t])
    case Step(i, choice) =>
      var e := EffectOf(s, s.threads[i], choice);
      State(e.processes, e.handle, s.threads[i := e.moved])
    case Exits(p) => s.(processes := Terminated(s.processes, Some(p)))
  }

  predicate IsRun(states: seq<State>, actions: seq<Action>) {
    && |states| == |actions| + 1 && states[0] == INITIAL
    && forall i | 0 <= i < |actions| :: Enabled(states[i], actions[i]) && states[i + 1] == Next(states[i], actions[i])
  }

  // ---------------------------------------------------------------- who has a process

  /** The process an in-flight submit has claimed. */
  function ClaimOf(t: Thread): Option<nat> {
    match t
    case Submit(Writing(p)) => Some(p)
    case Submit(Waiting(p)) => Some(p)
    case Submit(Cleaning(p)) => Some(p)
    case _ => None
  }

  /** The process a start is about to terminate. */
  function DropOf(t: Thread): Option<nat> {
    if t.Start? && t.start.Dropping? then Some(t.start.process) else None
  }

  /** The process a thread knows of. */
  function ProcessOf(t: Thread): Option<nat> {
    if ClaimOf(t).Some? then ClaimOf(t)
    else if t.Start? && t.start.Awaiting? then Some(t.start.process)
    else DropOf(t)
  }

  predicate Claimed(s: State, p: nat) {
    exists i | 0 <= i < |s.threads| :: ClaimOf(s.threads[i]) == Some(p)
  }

  predicate Dropped(s: State, p: nat) {
    exists i | 0 <= i < |s.threads| :: DropOf(s.threads[i]) == Some(p)
  }

  predicate NamesExist(s: State) {
    && (s.handle.Some? ==> s.handle.value < |s.processes|)
    && forall i | 0 <= i < |s.threads| ::
         ProcessOf(s.threads[i]).Some? ==> ProcessOf(s.threads[i]).value < |s.processes|
  }

  /** A stored process is nobody else's and has not had a code. */
  predicate StoredIsUntouched(s: State) {
    s.handle.Some? ==>
      !Claimed(s, s.handle.value) && s.handle.value < |s.processes| && s.processes[s.handle.value].codes == 0
  }

  predicate ClaimsAreSingle(s: State) {
    forall i, j | 0 <= i < j < |s.threads| ::
      ClaimOf(s.threads[i]).Some? ==> ClaimOf(s.threads[j]) != ClaimOf(s.threads[i])
  }

  predicate Writes(t: Thread) {
    t.Submit? && t.submit.Writing?
  }

  predicate CodesAreSingle(s: State) {
    && (forall p | 0 <= p < |s.processes| :: s.processes[p].codes <= 1)
    && forall i | 0 <= i < |s.threads| && Writes(s.threads[i]) ::
         var p := s.threads[i].submit.process;
         p < |s.processes| && s.processes[p].codes == 0
  }

  /** A submit that waits for its process to finish has written the code. */
  predicate CodesAreWritten(s: State) {
    forall i | 0 <= i < |s.threads| && WaitsAfterWriting(s.threads[i]) ::
      var p := s.threads[i].submit.process;
      p < |s.processes| && s.processes[p].codes == 1
  }

  predicate WaitsAfterWriting(t: Thread) {
    t.Submit? && t.submit.Waiting?
  }

  predicate AccountedFor(s: State, p: nat) {
    s.handle == Some(p) || Claimed(s, p) || Dropped(s, p)
  }

  /** A live process is the stored one, claimed by a submit, or about to be dropped by its start. */
  predicate LiveOnesAreAccountedFor(s: State) {
    forall p | 0 <= p < |s.processes| && s.processes[p].alive :: AccountedFor(s, p)
  }

  predicate Inv(s: State) {
    && NamesExist(s) && StoredIsUntouched(s) && ClaimsAreSingle(s) && CodesAreSingle(s) && CodesAreWritten(s)
    && LiveOnesAreAccountedFor(s)
  }

  lemma {:induction false} EffectKeepsNames(s: State, t: Thread, choice: Choice)
    requires NamesExist(s) && (ProcessOf(t).Some? ==> ProcessOf(t).value < |s.processes|)
    ensures
      var e := EffectOf(s, t, choice);
      && |s.processes| <= |e.processes|
      && (ProcessOf(e.moved).Some? ==> ProcessOf(e.moved).value < |e.processes|)
      && (e.handle.Some? ==> e.handle.value < |e.processes|)
  {
  }

  lemma {:induction false} StepKeepsNames(s: State, a: Action)
    requires Inv(s) && Enabled(s, a)
    ensures NamesExist(Next(s, a)) && |s.processes| <= |Next(s, a).processes|
  {
    if a.Step? {
      EffectKeepsNames(s, s.threads[a.thread_], a.choice);
    }
  }

  lemma {:induction false} StepKeepsStored(s: State, a: Action)
    requires Inv(s) && Enabled(s, a)
    ensures StoredIsUntouched(Next(s, a))
  {
    var s' := Next(s, a);
    forall i | 0 <= i < |s'.threads| && s'.handle.Some?
      ensures ClaimOf(s'.threads[i]) != s'.handle
    {
      if i < |s.threads| {
        assert ProcessOf(s.threads[i]).Some? ==> ProcessOf(s.threads[i]).value < |s.processes|;
      }
    }
  }

  lemma {:induction false} StepKeepsClaims(s: State, a: Action)
    requires Inv(s) && Enabled(s, a)
    ensures ClaimsAreSingle(Next(s, a))
  {
  }

  /** A step adds a code only to the process it is writing to, which had none. */
  lemma {:induction false} EffectOnCodes(s: State, i: nat, choice: Choice, p: nat)
    requires Inv(s) && Enabled(s, Step(i, choice)) && p < |EffectOf(s, s.threads[i], choice).processes|
    ensures
      var codes := EffectOf(s, s.threads[i], choice).processes[p].codes;
      && (p >= |s.processes| ==> codes == 0)
      && (p < |s.processes| && codes != s.processes[p].codes ==>
        codes == 1 && Writes(s.threads[i]) && s.threads[i].submit.process == p && s.processes[p].codes == 0)
  {
  }

  lemma {:induction false} StepKeepsCodes(s: State, a: Action)
    requires Inv(s) && Enabled(s, a)
    ensures CodesAreSingle(Next(s, a))
  {
    var s' := Next(s, a);
    if a.Step? {
      StepKeepsNames(s, a);
      forall p | 0 <= p < |s'.processes|
        ensures s'.processes[p].codes <= 1
      {
        EffectOnCodes(s, a.thread_, a.choice, p);
      }
      forall i | 0 <= i < |s'.threads| && Writes(s'.threads[i])
        ensures s'.threads[i].submit.process < |s'.processes| && s'.processes[s'.threads[i].submit.process].codes == 0
      {
        StillUnwritten(s, a.thread_, a.choice, i);
      }
    }
  }

  lemma {:induction false} StillUnwritten(s: State, moved: nat, choice: Choice, i: nat)
    requires Inv(s) && Enabled(s, Step(moved, choice)) && i < |s.threads|
    requires Writes(Next(s, Step(moved, choice)).threads[i])
    ensures
      var s' := Next(s, Step(moved, choice));
      var p := s'.threads[i].submit.process;
      p < |s'.processes| && s'.processes[p].codes == 0
  {
    var s' := Next(s, Step(moved, choice));
    var p := s'.threads[i].submit.process;
    if i == moved {
      assert s.handle == Some(p);
    } else {
      assert s.threads[i] == s'.threads[i] && p < |s.processes| && s.processes[p].codes == 0;
      assert ClaimOf(s.threads[i]) != ClaimOf(s.threads[moved]) by {
        assert ClaimOf(s.threads[i]).Some?;
        if ClaimOf(s.threads[moved]).Some? {
          assert if i < moved then ClaimOf(s.threads[moved]) != ClaimOf(s.threads[i])
                 else ClaimOf(s.threads[i]) != ClaimOf(s.threads[moved]);
        }
      }
      StepKeepsNames(s, Step(moved, choice));
      EffectOnCodes(s, moved, choice, p);
    }
  }

  /** No step takes a code back. */
  lemma {:induction false} CodesStay(s: State, a: Action, p: nat)
    requires Inv(s) && Enabled(s, a) && p < |s.processes| && s.processes[p].codes == 1
    ensures p < |Next(s, a).processes| && Next(s, a).processes[p].codes == 1
  {
    if a.Step? {
      EffectOnCodes(s, a.thread_, a.choice, p);
    }
  }

  lemma {:induction false} StepKeepsWritten(s: State, a: Action)
    requires Inv(s) && Enabled(s, a)
    ensures CodesAreWritten(Next(s, a))
  {
    var s' := Next(s, a);
    forall i | 0 <= i < |s'.threads| && WaitsAfterWriting(s'.threads[i])
      ensures
        var p := s'.threads[i].submit.process;
        p < |s'.processes| && s'.processes[p].codes == 1
    {
      var p := s'.threads[i].submit.process;
      if i < |s.threads| && WaitsAfterWriting(s.threads[i]) {
        CodesStay(s, a, p);
      } else {
        assert Writes(s.threads[i]) && s.threads[i].submit.process == p;
      }
    }
  }

  lemma {:induction false} StoredIsAccounted(s: State, a: Action, p: nat)
    requires Inv(s) && Enabled(s, a) && s.handle == Some(p) && Alive(s, p) && Alive(Next(s, a), p)
    ensures AccountedFor(Next(s, a), p)
  {
    var s' := Next(s, a);
    if a.Step? && s'.handle != s.handle {
      assert ClaimOf(s'.threads[a.thread_]) == Some(p);
    }
  }

  lemma {:induction false} KnownIsAccounted(s: State, a: Action, p: nat, i: nat)
    requires Enabled(s, a) && i < |s.threads| && Alive(s, p) && Alive(Next(s, a), p)
    requires ClaimOf(s.threads[i]) == Some(p) || DropOf(s.threads[i]) == Some(p)
    ensures AccountedFor(Next(s, a), p)
  {
    var s' := Next(s, a);
    assert ClaimOf(s'.threads[i]) == Some(p) || DropOf(s'.threads[i]) == Some(p);
  }

  /** A process that a step spawns is the stored one. */
  lemma {:induction false} NewIsStored(s: State, a: Action, p: nat)
    requires Enabled(s, a) && |s.processes| <= p < |Next(s, a).processes|
    ensures Next(s, a).handle == Some(p)
  {
  }

  lemma {:induction false} StepAccounts(s: State, a: Action, p: nat)
    requires Inv(s) && Enabled(s, a) && p < |Next(s, a).processes| && Next(s, a).processes[p].alive
    ensures AccountedFor(Next(s, a), p)
  {
    if p < |s.processes| {
      assert s.processes[p].alive && AccountedFor(s, p);
      if s.handle == Some(p) {
        StoredIsAccounted(s, a, p);
      } else {
        var i :| 0 <= i < |s.threads| && (ClaimOf(s.threads[i]) == Some(p) || DropOf(s.threads[i]) == Some(p));
        KnownIsAccounted(s, a, p, i);
      }
    } else {
      NewIsStored(s, a, p);
    }
  }

  lemma {:induction false} StepKeepsInv(s: State, a: Action)
    requires Inv(s) && Enabled(s, a)
    ensures Inv(Next(s, a))
  {
    StepKeepsNames(s, a);
    StepKeepsStored(s, a);
    StepKeepsClaims(s, a);
    StepKeepsCodes(s, a);
    StepKeepsWritten(s, a);
    forall p | 0 <= p < |Next(s, a).processes| && Next(s, a).processes[p].alive
      ensures AccountedFor(Next(s, a), p)
    {
      StepAccounts(s, a, p);
    }
  }

  lemma {:induction false} InvHolds(states: seq<State>, actions: seq<Action>, i: nat)
    requires IsRun(states, actions) && i < |states|
    ensures Inv(states[i])
  {
    if i == 0 {
      assert states[0] == INITIAL;
    } else {
      InvHolds(states, actions, i - 1);
      StepKeepsInv(states[i - 1], actions[i - 1]);
    }
  }

  // ---------------------------------------------------------------- what every run keeps

  /** In every interleaving, no login process is ever sent a second code. */
  lemma {:induction false} OneCodePerProcess(states: seq<State>, actions: seq<Action>, i: nat, p: nat)
    requires IsRun(states, actions) && i < |states| && p < |states[i].processes|
    ensures states[i].processes[p].codes <= 1
  {
    InvHolds(states, actions, i);
  }

  /** And a submit that gets as far as waiting for its process has sent it exactly one. */
  lemma {:induction false} WaitingSubmitHasSentItsCode(
    states: seq<State>, actions: seq<Action>, i: nat, t: nat, p: nat)
    requires IsRun(states, actions) && i < |states| && t < |states[i].threads|
    requires states[i].threads[t] == Submit(Waiting(p))
    ensures p < |states[i].processes| && states[i].processes[p].codes == 1
    ensures ClaimedBefore(states, actions, i, t, p)
  {
    InvHolds(states, actions, i);
    SubmitWorksOnItsClaim(states, actions, i, t, p);
  }

  /** Nor is one process claimed by two submits. */
  lemma {:induction false} OneClaimPerProcess(states: seq<State>, actions: seq<Action>, i: nat, j: nat, k: nat)
    requires IsRun(states, actions) && i < |states| && j < |states[i].threads| && k < |states[i].threads|
    requires ClaimOf(states[i].threads[j]).Some? && ClaimOf(states[i].threads[j]) == ClaimOf(states[i].threads[k])
    ensures j == k
  {
    InvHolds(states, actions, i);
  }

  // ---------------------------------------------------------------- who may touch a session

  /** Thread `t` tears the stored session down and spawns process `p` in its place. */
  predicate Spawns(s: State, a: Action, t: nat, p: nat) {
    && a.Step? && a.thread_ == t && a.choice.Well?
    && t < |s.threads| && s.threads[t] == Start(ToStart) && p == |s.processes|
  }

  /** Thread `t` takes the stored process `p` over. */
  predicate Claims(s: State, a: Action, t: nat, p: nat) {
    && a.Step? && a.thread_ == t
    && t < |s.threads| && s.threads[t] == Submit(ToClaim) && s.handle == Some(p)
  }

  predicate OwnStart(t: Thread, p: nat) {
    t == Start(Awaiting(p)) || t == Start(Dropping(p))
  }

  predicate SpawnedBefore(states: seq<State>, actions: seq<Action>, i: nat, t: nat, p: nat)
    requires IsRun(states, actions) && i < |states|
  {
    exists n | 0 <= n < i :: Spawns(states[n], actions[n], t, p)
  }

  predicate ClaimedBefore(states: seq<State>, actions: seq<Action>, i: nat, t: nat, p: nat)
    requires IsRun(states, actions) && i < |states|
  {
    exists n | 0 <= n < i :: Claims(states[n], actions[n], t, p)
  }

  /** A start that waits for a process, or is about to drop it, is the one that spawned it. */
  lemma {:induction false} StartOwnsWhatItSpawned(states: seq<State>, actions: seq<Action>, i: nat, t: nat, p: nat)
    requires IsRun(states, actions) && i < |states| && t < |states[i].threads| && OwnStart(states[i].threads[t], p)
    ensures SpawnedBefore(states, actions, i, t, p)
  {
    if i > 0 {
      var s := states[i - 1];
      if t < |s.threads| && OwnStart(s.threads[t], p) {
        StartOwnsWhatItSpawned(states, actions, i - 1, t, p);
      } else {
        assert Spawns(s, actions[i - 1], t, p);
      }
    }
  }

  /** A submit works on the process it has claimed. */
  lemma {:induction false} SubmitWorksOnItsClaim(states: seq<State>, actions: seq<Action>, i: nat, t: nat, p: nat)
    requires IsRun(states, actions) && i < |states| && t < |states[i].threads|
    requires ClaimOf(states[i].threads[t]) == Some(p)
    ensures ClaimedBefore(states, actions, i, t, p)
  {
    if i > 0 {
      var s := states[i - 1];
      if t < |s.threads| && ClaimOf(s.threads[t]) == Some(p) {
        SubmitWorksOnItsClaim(states, actions, i - 1, t, p);
      } else {
        assert Claims(s, actions[i - 1], t, p);
      }
    }
  }

  /** The stored handle is changed by a start that begins after the session, a submit that claims it, a stop, or
      the session's own start when it drops it; by nobody else, in no interleaving. */
  lemma {:induction false} HandleIsChangedBy(states: seq<State>, actions: seq<Action>, i: nat, p: nat)
    requires IsRun(states, actions) && i < |actions|
    requires states[i].handle == Some(p) && states[i + 1].handle != Some(p)
    ensures actions[i].Step?
    ensures
      var t := actions[i].thread_;
      var before := states[i].threads[t];
      || before == Start(ToStart) || before == Stop(false)
      || Claims(states[i], actions[i], t, p)
      || (before == Start(Dropping(p)) && SpawnedBefore(states, actions, i, t, p))
  {
    if actions[i].Step? && states[i].threads[actions[i].thread_] == Start(Dropping(p)) {
      StartOwnsWhatItSpawned(states, actions, i, actions[i].thread_, p);
    }
  }

  /** A login process ends by itself, or while it is stored by a later start or a stop, or by its own start's drop,
      or by the submit that has claimed it. */
  lemma {:induction false} ProcessIsEndedBy(states: seq<State>, actions: seq<Action>, i: nat, p: nat)
    requires IsRun(states, actions) && i < |actions| && Alive(states[i], p) && !Alive(states[i + 1], p)
    ensures actions[i] == Exits(p) || actions[i].Step?
    ensures actions[i].Step? ==>
      var t := actions[i].thread_;
      var before := states[i].threads[t];
      || (states[i].handle == Some(p) && (before == Start(ToStart) || before == Stop(false)))
      || (before == Start(Dropping(p)) && SpawnedBefore(states, actions, i, t, p))
      || (before == Submit(Cleaning(p)) && ClaimedBefore(states, actions, i, t, p))
  {
    if actions[i].Step? {
      var t := actions[i].thread_;
      if states[i].threads[t] == Start(Dropping(p)) {
        StartOwnsWhatItSpawned(states, actions, i, t, p);
      } else if states[i].threads[t] == Submit(Cleaning(p)) {
        SubmitWorksOnItsClaim(states, actions, i, t, p);
      }
    }
  }

  predicate BegunStart(t: Thread) {
    t.Start? && t.start != ToStart
  }

  /** From its first step on a start knows of no process spawned later. */
  lemma {:induction false} StartKnowsOldProcesses(states: seq<State>, actions: seq<Action>, n: nat, i: nat, t: nat)
    requires IsRun(states, actions) && n < i < |states| && actions[n].Step? && actions[n].thread_ == t
    requires states[n].threads[t] == Start(ToStart)
    ensures t < |states[i].threads| && BegunStart(states[i].threads[t])
    ensures ProcessOf(states[i].threads[t]).Some? ==>
      ProcessOf(states[i].threads[t]).value < |states[n + 1].processes|
  {
    if i > n + 1 {
      StartKnowsOldProcesses(states, actions, n, i - 1, t);
    }
  }

  /** Once a start has taken its first step, none of its later steps clears the handle of a session stored since,
      or touches that session's process, in any interleaving. */
  lemma {:induction false} LateStartSparesNewerSession(
    states: seq<State>, actions: seq<Action>, n: nat, i: nat, t: nat, p: nat)
    requires IsRun(states, actions) && n < i < |actions|
    requires actions[n].Step? && actions[n].thread_ == t && states[n].threads[t] == Start(ToStart)
    requires actions[i].Step? && actions[i].thread_ == t
    requires |states[n + 1].processes| <= p < |states[i].processes|
    ensures states[i].handle == Some(p) ==> states[i + 1].handle == Some(p)
    ensures p < |states[i + 1].processes| && states[i + 1].processes[p] == states[i].processes[p]
  {
    StartKnowsOldProcesses(states, actions, n, i, t);
  }

  /** Every live process can be reached: it is stored, claimed by a submit that has yet to clean up after it, or
      about to be terminated by the start that spawned it. */
  lemma {:induction false} NoProcessIsOrphaned(states: seq<State>, actions: seq<Action>, i: nat, p: nat)
    requires IsRun(states, actions) && i < |states| && Alive(states[i], p)
    ensures AccountedFor(states[i], p)
  {
    InvHolds(states, actions, i);
  }

  /** So once stopping got hold of the lock and every call has returned, no login is left running. */
  lemma {:induction false} StoppingLeavesNothing(states: seq<State>, actions: seq<Action>, i: nat, p: nat)
    requires IsRun(states, actions) && i < |states|
    requires states[i].handle.None? && forall t <- states[i].threads :: Over(t)
    ensures !Alive(states[i], p)
  {
    InvHolds(states, actions, i);
    var s := states[i];
    forall k | 0 <= k < |s.threads|
      ensures ClaimOf(s.threads[k]).None? && DropOf(s.threads[k]).None?
    {
      assert s.threads[k] in s.threads;
    }
  }

  // ---------------------------------------------------------------- what the calls achieve

  /** The process given, if any, is ended; the others are as they were. */
  predicate EndsOnly(before: seq<Process>, after: seq<Process>, p: Option<nat>) {
    && |before| <= |after|
    && forall q | 0 <= q < |before| ::
         after[q] == if p == Some(q) then before[q].(alive := false) else before[q]
  }

  /** A start ends the session that was stored and stores a new one, unless the login cannot be spawned; it keeps
      waiting until the new process has shown its page, and drops the process if it does not. */
  lemma {:induction false} StartDoes(s: State, i: nat, choice: Choice)
    requires Inv(s) && i < |s.threads| && s.threads[i].Start? && s.threads[i] != Start(Started)
    ensures
      var s', p := Next(s, Step(i, choice)), |s.processes|;
      match s.threads[i].start
      case ToStart =>
        && EndsOnly(s.processes, s'.processes, s.handle)
        && if choice.Well? then
             && |s'.processes| == p + 1 && s'.processes[p] == Process(true, 0) && s'.handle == Some(p)
             && s'.threads == s.threads[i := Start(Awaiting(p))]
           else
             |s'.processes| == p && s'.handle == None && s'.threads == s.threads[i := Start(Started)]
      case Awaiting(q) =>
        var shown := Alive(s, q) && choice.Well?;
        s' == s.(threads := s.threads[i := Start(if shown then Started else Dropping(q))])
      case Dropping(q) =>
        && EndsOnly(s.processes, s'.processes, Some(q)) && |s'.processes| == p
        && s'.handle == (if s.handle == Some(q) then None else s.handle)
        && s'.threads == s.threads[i := Start(Started)]
      case _ => true
  {
  }

  /** A submit takes the stored session over if its process is alive, and does nothing otherwise; it writes its code to
      that process once, unless the pipe breaks, and in the end the process is gone either way. */
  lemma {:induction false} SubmitDoes(s: State, i: nat, choice: Choice)
    requires Inv(s) && i < |s.threads| && s.threads[i].Submit? && s.threads[i] != Submit(Submitted)
    ensures
      var s' := Next(s, Step(i, choice));
      match s.threads[i].submit
      case ToClaim =>
        if s.handle.Some? && Alive(s, s.handle.value) then
          s' == s.(handle := None, threads := s.threads[i := Submit(Writing(s.handle.value))])
        else
          s' == s.(threads := s.threads[i := Submit(Submitted)])
      case Writing(p) =>
        if Alive(s, p) && choice.Well? then
          s' == s.(processes := s.processes[p := Process(true, 1)], threads := s.threads[i := Submit(Waiting(p))])
        else
          s' == s.(threads := s.threads[i := Submit(Cleaning(p))])
      case Waiting(p) => s' == s.(threads := s.threads[i := Submit(Cleaning(p))])
      case Cleaning(p) =>
        && EndsOnly(s.processes, s'.processes, Some(p)) && |s'.processes| == |s.processes| && !Alive(s', p)
        && s'.handle == s.handle && s'.threads == s.threads[i := Submit(Submitted)]
      case _ => true
  {
    if s.threads[i].submit.Writing? {
      assert Writes(s.threads[i]);
    }
  }

  /** Stopping ends the stored session if it gets hold of the lock in time, and leaves everything alone if not. */
  lemma {:induction false} StopDoes(s: State, i: nat, choice: Choice)
    requires Inv(s) && i < |s.threads| && s.threads[i] == Stop(false)
    ensures
      var s' := Next(s, Step(i, choice));
      && s'.threads == s.threads[i := Stop(true)] && |s'.processes| == |s.processes|
      && if choice.Well? then s'.handle == None && EndsOnly(s.processes, s'.processes, s.handle)
         else s'.handle == s.handle && s'.processes == s.processes
  {
  }

  predicate Follows(states: seq<State>, actions: seq<Action>) {
    && |states| == |actions| + 1
    && forall i | 0 <= i < |actions| :: Enabled(states[i], actions[i]) && states[i + 1] == Next(states[i], actions[i])
  }

  /** A start that goes well leaves its new login stored and waiting for the code. */
  lemma {:induction false} StartStores(s: State, i: nat) returns (states: seq<State>)
    requires Inv(s) && i < |s.threads| && s.threads[i] == Start(ToStart)
    ensures Follows(states, [Step(i, Well), Step(i, Well)]) && states[0] == s && Inv(states[2])
    ensures
      var end, p := states[2], |s.processes|;
      && end.threads == s.threads[i := Start(Started)] && end.handle == Some(p)
      && |end.processes| == p + 1 && end.processes[p] == Process(true, 0)
      && EndsOnly(s.processes, end.processes, s.handle)
  {
    var step := Step(i, Well);
    StartDoes(s, i, Well);
    var started := Next(s, step);
    StepKeepsInv(s, step);
    StartDoes(started, i, Well);
    var end := Next(started, step);
    StepKeepsInv(started, step);
    states := [s, started, end];
  }

  /** A submit that goes well sends the stored login its one code and ends it. */
  lemma {:induction false} SubmitSends(s: State, j: nat, p: nat) returns (states: seq<State>)
    requires Inv(s) && j < |s.threads| && s.threads[j] == Submit(ToClaim) && s.handle == Some(p) && Alive(s, p)
    ensures Follows(states, [Step(j, Well), Step(j, Well), Step(j, Well), Step(j, Well)]) && states[0] == s
    ensures states[4] == State(s.processes[p := Process(false, 1)], None, s.threads[j := Submit(Submitted)])
  {
    var step := Step(j, Well);
    SubmitDoes(s, j, Well);
    var claimed := Next(s, step);
    StepKeepsInv(s, step);
    SubmitDoes(claimed, j, Well);
    var written := Next(claimed, step);
    StepKeepsInv(claimed, step);
    SubmitDoes(written, j, Well);
    var done := Next(written, step);
    StepKeepsInv(written, step);
    SubmitDoes(done, j, Well);
    var end := Next(done, step);
    assert end.processes == s.processes[p := Process(false, 1)];
    assert end.threads == s.threads[j := Submit(Submitted)];
    states := [s, claimed, written, done, end];
  }

  /** A sign-in that goes well, from any state of the service: the start stores a new session, the submit sends it the
      one code and ends it, and of the processes there were only the stored one has been ended. */
  lemma {:induction false} SignInSendsTheCode(s: State, i: nat, j: nat)
    returns (starting: seq<State>, submitting: seq<State>)
    requires Inv(s) && i < |s.threads| && j < |s.threads|
    requires s.threads[i] == Start(ToStart) && s.threads[j] == Submit(ToClaim)
    ensures Follows(starting, [Step(i, Well), Step(i, Well)]) && starting[0] == s
    ensures Follows(submitting, [Step(j, Well), Step(j, Well), Step(j, Well), Step(j, Well)])
    ensures submitting[0] == starting[2]
    ensures
      var end, p := submitting[4], |s.processes|;
      && end.threads == s.threads[i := Start(Started)][j := Submit(Submitted)] && end.handle == None
      && |end.processes| == p + 1 && end.processes[p] == Process(false, 1)
      && EndsOnly(s.processes, end.processes, s.handle)
  {
    starting := StartStores(s, i);
    submitting := SubmitSends(starting[2], j, |s.processes|);
  }
}
