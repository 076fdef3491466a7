/** What every interleaving of managed installs keeps. */
module InstallSafety {
  import opened InstallProtocol

  // ---------------------------------------------------------------- mutual exclusion and lock order

  predicate Exclusive(s: State) {
    forall i, j :: 0 <= i < j < |s.threads| ==> Held(s.threads[i]) !! Held(s.threads[j])
  }

  /** A step acquires at most the lock that the thread was waiting for, and new threads hold nothing. */
  lemma StepAcquiresWanted(s: State, t: Thread, choice: bool)
    ensures
      var e := EffectOf(s, t, choice);
      && (forall l <- Held(e.moved) :: l in Held(t) || Wants(t) == Some(l))
      && (forall u <- e.started :: Held(u) == {})
  {
  }

  lemma StepKeepsExclusive(s: State, a: Action)
    requires Exclusive(s) && Enabled(s, a)
    ensures Exclusive(Next(s, a))
  {
    var s' := Next(s, a);
    forall i, j | 0 <= i < j < |s'.threads|
      ensures Held(s'.threads[i]) !! Held(s'.threads[j])
    {
      if a.Step? {
        StepAcquiresWanted(s, s.threads[a.thread], a.choice);
      }
    }
  }

  /** Locks are only ever waited for upwards. */
  lemma WaitsUpwards(t: Thread)
    ensures Wants(t).Some? ==> forall h <- Held(t) :: Rank(h) < Rank(Wants(t).value)
  {
  }

  predicate Runnable(s: State, i: nat) {
    Enabled(s, Step(i, true))
  }

  /** No deadlock: behind every blocked thread there is one that can take a step. */
  lemma {:induction false} SomebodyCanRun(s: State, i: nat) returns (r: nat)
    requires i < |s.threads| && !Over(s.threads[i])
    ensures Runnable(s, r)
    decreases if Wants(s.threads[i]).Some? then 4 - Rank(Wants(s.threads[i]).value) else 0
  {
    if Runnable(s, i) {
      r := i;
    } else {
      var wanted := Wants(s.threads[i]).value;
      var j :| 0 <= j < |s.threads| && wanted in Held(s.threads[j]);
      WaitsUpwards(s.threads[j]);
      r := SomebodyCanRun(s, j);
    }
  }

  predicate WaitsFor(s: State, i: nat, j: nat) {
    && i < |s.threads| && j < |s.threads|
    && Wants(s.threads[i]).Some? && Wants(s.threads[i]).value in Held(s.threads[j])
  }

  /** Threads each waiting for a lock that the next one holds. */
  predicate WaitChain(s: State, chain: seq<nat>) {
    forall k :: 0 <= k < |chain| - 1 ==> WaitsFor(s, chain[k], chain[k + 1])
  }

  lemma {:induction false} RanksClimb(s: State, chain: seq<nat>)
    requires |chain| >= 2 && WaitChain(s, chain)
    ensures WaitsFor(s, chain[0], chain[1]) && WaitsFor(s, chain[|chain| - 2], chain[|chain| - 1])
    ensures forall h <- Held(s.threads[chain[0]]) ::
      Rank(h) < Rank(Wants(s.threads[chain[|chain| - 2]]).value)
    decreases |chain|
  {
    assert WaitsFor(s, chain[0], chain[1]);
    WaitsUpwards(s.threads[chain[0]]);
    if |chain| > 2 {
      assert WaitChain(s, chain[1..]) by {
        forall k | 0 <= k < |chain[1..]| - 1
          ensures WaitsFor(s, chain[1..][k], chain[1..][k + 1])
        {
          assert WaitsFor(s, chain[k + 1], chain[k + 2]);
        }
      }
      RanksClimb(s, chain[1..]);
    }
  }

  /** No chain of waiting threads closes into a circle. */
  lemma NoWaitCycle(s: State, chain: seq<nat>)
    requires |chain| >= 2 && WaitChain(s, chain)
    ensures chain[0] != chain[|chain| - 1]
  {
    RanksClimb(s, chain);
    assert WaitsFor(s, chain[|chain| - 2], chain[|chain| - 1]);
  }

  // ---------------------------------------------------------------- single flight

  /** The thread answers for the artifact's installing flag. */
  predicate Owns(t: Thread, a: Artifact) {
    match t
    case Caller(b, pc) =>
      b == a && (pc.WantEnsure? || pc.Ensuring? || pc.WantNotifier? || pc.SpawningNotifier?
                 || pc.AssigningHandle? || pc.WantDownload? || pc.SpawningDownload?)
    case Downloader(b, pc) => b == a && !pc.Ended?
    case Notifier(_) => false
  }

  ghost predicate SingleFlight(s: State) {
    && (forall i, a :: 0 <= i < |s.threads| && Owns(s.threads[i], a) ==> a in s.installing)
    && (forall i, j, a :: 0 <= i < j < |s.threads| && Owns(s.threads[i], a) ==> !Owns(s.threads[j], a))
  }

  /** Ownership starts at a cleared flag, is handed from the caller to its download thread, and ends with the
      flag. */
  lemma OwnershipMoves(s: State, t: Thread, choice: bool, a: Artifact)
    requires forall b :: Owns(t, b) ==> b in s.installing
    ensures
      var e := EffectOf(s, t, choice);
      && |e.started| <= 1
      && (Owns(e.moved, a) ==> Owns(t, a) || a !in s.installing)
      && (forall u <- e.started :: Owns(u, a) ==> Owns(t, a) && !Owns(e.moved, a))
      && (Owns(e.moved, a) || (exists u <- e.started :: Owns(u, a)) ==> a in e.installing)
      && (a in s.installing && a !in e.installing ==> Owns(t, a))
  {
  }

  lemma StepKeepsSingleFlight(s: State, a: Action)
    requires SingleFlight(s) && Enabled(s, a)
    ensures SingleFlight(Next(s, a))
  {
    var s' := Next(s, a);
    forall i, artifact | 0 <= i < |s'.threads| && Owns(s'.threads[i], artifact)
      ensures artifact in s'.installing
    {
      if a.Step? {
        OwnershipMoves(s, s.threads[a.thread], a.choice, artifact);
      }
    }
    forall i, j, artifact | 0 <= i < j < |s'.threads| && Owns(s'.threads[i], artifact)
      ensures !Owns(s'.threads[j], artifact)
    {
      if a.Step? {
        OwnershipMoves(s, s.threads[a.thread], a.choice, artifact);
      }
    }
  }

  // ---------------------------------------------------------------- no flag outlives its install

  /** While the group starts threads, somebody answers for every flag that is up. */
  ghost predicate FlagsAreOwned(s: State) {
    s.accepting ==> forall a <- s.installing :: exists i :: 0 <= i < |s.threads| && Owns(s.threads[i], a)
  }

  lemma StepKeepsOwned(s: State, a: Action)
    requires FlagsAreOwned(s) && Enabled(s, a)
    ensures FlagsAreOwned(Next(s, a))
  {
    var s' := Next(s, a);
    forall artifact | artifact in s'.installing && s'.accepting
      ensures exists i :: 0 <= i < |s'.threads| && Owns(s'.threads[i], artifact)
    {
      if artifact in s.installing {
        var i :| 0 <= i < |s.threads| && Owns(s.threads[i], artifact);
        if !Owns(s'.threads[i], artifact) {
          assert Owns(s'.threads[|s.threads|], artifact);
        }
      } else {
        assert Owns(s'.threads[a.thread], artifact);
      }
    }
  }

  // ---------------------------------------------------------------- the notifier

  predicate Undecided(t: Thread) {
    t.Notifier? && !t.notifier.Leaving? && !t.notifier.Dying? && !t.notifier.Gone?
  }

  /** The install has passed the step that ensures a notifier. */
  predicate PastEnsure(t: Thread) {
    match t
    case Caller(_, pc) => pc.WantDownload? || pc.SpawningDownload?
    case Downloader(_, pc) => !pc.Ended?
    case Notifier(_) => false
  }

  predicate Assigning(t: Thread, n: nat) {
    t.Caller? && t.caller == AssigningHandle(n)
  }

  predicate Live(s: State) {
    !s.stopping && s.accepting
  }

  /** The caller has found no notifier and is making one. */
  predicate Creating(pc: CallerPc) {
    pc.WantNotifier? || pc.SpawningNotifier? || pc.AssigningHandle?
  }

  /** The notifier has seen no tool being installed and still holds the lock that guards those flags. */
  predicate SawNoTool(pc: NotifierPc) {
    pc.WantVoice? || pc.ReadingVoice? || pc.Leaving?
  }

  predicate InLoop(t: Thread) {
    Undecided(t) || t == Notifier(Leaving)
  }

  /** The handle names a notifier that is still in its loop. */
  predicate HandleIsGood(s: State) {
    s.handle.Some? ==> s.handle.value < |s.threads| && InLoop(s.threads[s.handle.value])
  }

  /** Every notifier in its loop is named by the handle, or its creator is just about to store it. */
  predicate NotifiersAreNamed(s: State) {
    forall n :: 0 <= n < |s.threads| && InLoop(s.threads[n]) ==>
      s.handle == Some(n) || exists i :: 0 <= i < |s.threads| && Assigning(s.threads[i], n)
  }

  predicate CreatorsAreAlone(s: State) {
    forall i :: 0 <= i < |s.threads| && s.threads[i].Caller? && Creating(s.threads[i].caller) ==>
      && s.handle.None?
      && (s.threads[i].caller.AssigningHandle? ==>
            && s.threads[i].caller.notifier < |s.threads|
            && Undecided(s.threads[s.threads[i].caller.notifier]))
  }

  /** Holds while the service is live. */
  predicate HandleInv(s: State) {
    HandleIsGood(s) && NotifiersAreNamed(s) && CreatorsAreAlone(s)
  }

  ghost predicate NotifierInv(s: State) {
    && (forall i :: 0 <= i < |s.threads| && PastEnsure(s.threads[i]) ==>
          s.handle.Some? && s.handle.value < |s.threads| && Undecided(s.threads[s.handle.value]))
    && (forall n :: 0 <= n < |s.threads| && s.threads[n].Notifier? ==>
          SawNoTool(s.threads[n].notifier) ==> forall a <- s.installing :: a.Voice?)
  }

  ghost predicate Inv(s: State) {
    Exclusive(s) && SingleFlight(s) && FlagsAreOwned(s) && (Live(s) ==> HandleInv(s) && NotifierInv(s))
  }

  lemma OnlyHolder(s: State, i: nat, j: nat, l: Lock)
    requires Exclusive(s) && i < |s.threads| && j < |s.threads|
    requires l in Held(s.threads[i]) && l in Held(s.threads[j])
    ensures i == j
  {
  }

  /** A thread that has just been started is named by the one that started it. */
  lemma StartedIsNamed(s: State, i: nat, choice: bool)
    requires Live(s) && Enabled(s, Step(i, choice))
    ensures
      var s' := Next(s, Step(i, choice));
      |s'.threads| > |s.threads| && InLoop(s'.threads[|s.threads|]) ==> Assigning(s'.threads[i], |s.threads|)
  {
  }

  /** A notifier that was in its loop is named as it was, or by the handle once it has been stored. */
  lemma OldStaysNamed(s: State, i: nat, choice: bool, n: nat)
    requires Exclusive(s) && HandleInv(s) && Enabled(s, Step(i, choice)) && n < |s.threads|
    requires InLoop(Next(s, Step(i, choice)).threads[n])
    ensures
      var s' := Next(s, Step(i, choice));
      s'.handle == Some(n) || exists k :: 0 <= k < |s'.threads| && Assigning(s'.threads[k], n)
  {
    var s' := Next(s, Step(i, choice));
    assert InLoop(s.threads[n]);
    if s.handle != Some(n) {
      var k :| 0 <= k < |s.threads| && Assigning(s.threads[k], n);
      if Assigning(s.threads[i], n) {
        OnlyHolder(s, i, k, ProgressLock);
      } else {
        assert Assigning(s'.threads[k], n);
      }
    }
  }

  lemma StepKeepsNamed(s: State, i: nat, choice: bool)
    requires Exclusive(s) && HandleInv(s) && Live(s) && Enabled(s, Step(i, choice))
    ensures NotifiersAreNamed(Next(s, Step(i, choice)))
  {
    var s' := Next(s, Step(i, choice));
    forall n | 0 <= n < |s'.threads| && InLoop(s'.threads[n])
      ensures s'.handle == Some(n) || exists k :: 0 <= k < |s'.threads| && Assigning(s'.threads[k], n)
    {
      if n < |s.threads| {
        OldStaysNamed(s, i, choice, n);
      } else {
        StartedIsNamed(s, i, choice);
      }
    }
  }

  lemma StepKeepsHandleGood(s: State, i: nat, choice: bool)
    requires Exclusive(s) && HandleInv(s) && Live(s) && Enabled(s, Step(i, choice))
    ensures HandleIsGood(Next(s, Step(i, choice)))
  {
  }

  lemma CallerKeepsCreators(s: State, i: nat, choice: bool)
    requires Exclusive(s) && HandleInv(s) && Live(s) && Enabled(s, Step(i, choice)) && s.threads[i].Caller?
    ensures CreatorsAreAlone(Next(s, Step(i, choice)))
  {
    var s' := Next(s, Step(i, choice));
    forall k | 0 <= k < |s.threads| && k != i && s.threads[k].Caller? && Creating(s.threads[k].caller)
      ensures s'.handle.None?
    {
    }
  }

  lemma NotifierKeepsCreators(s: State, i: nat, choice: bool)
    requires Exclusive(s) && HandleInv(s) && Live(s) && Enabled(s, Step(i, choice)) && s.threads[i].Notifier?
    ensures CreatorsAreAlone(Next(s, Step(i, choice)))
  {
    var s' := Next(s, Step(i, choice));
    forall k | 0 <= k < |s.threads| && s.threads[k].Caller? && s.threads[k].caller.AssigningHandle?
      ensures ProgressLock !in Held(s.threads[i])
    {
    }
  }

  lemma StepKeepsHandle(s: State, i: nat, choice: bool)
    requires Exclusive(s) && HandleInv(s) && Live(s) && Enabled(s, Step(i, choice))
    ensures HandleInv(Next(s, Step(i, choice)))
  {
    StepKeepsNamed(s, i, choice);
    StepKeepsHandleGood(s, i, choice);
    match s.threads[i]
    case Caller(_, _) => CallerKeepsCreators(s, i, choice);
    case Notifier(_) => NotifierKeepsCreators(s, i, choice);
    case Downloader(_, _) => OtherKeepsHandle(s, Step(i, choice));
  }

  lemma OtherKeepsHandle(s: State, a: Action)
    requires HandleInv(s) && Live(s) && Enabled(s, a) && Live(Next(s, a))
    requires a.Step? ==> s.threads[a.thread].Downloader?
    ensures HandleInv(Next(s, a))
  {
    var s' := Next(s, a);
    forall n | 0 <= n < |s'.threads| && InLoop(s'.threads[n])
      ensures s'.handle == Some(n) || exists k :: 0 <= k < |s'.threads| && Assigning(s'.threads[k], n)
    {
      if s.handle != Some(n) {
        var k :| 0 <= k < |s.threads| && Assigning(s.threads[k], n);
        assert Assigning(s'.threads[k], n);
      }
    }
  }

  /** A caller that finds a notifier running at the ensure step finds one that has not decided to leave. */
  lemma EnsuredIsUndecided(s: State, i: nat)
    requires Exclusive(s) && HandleInv(s) && Live(s) && i < |s.threads|
    requires s.threads[i].Caller? && s.threads[i].caller.Ensuring?
    requires s.handle.Some? && Alive(s, s.handle.value)
    requires ProgressLock in Held(s.threads[i])
    ensures Undecided(s.threads[s.handle.value])
  {
    assert i != s.handle.value;
    if i < s.handle.value {
      assert Held(s.threads[i]) !! Held(s.threads[s.handle.value]);
    } else {
      assert Held(s.threads[s.handle.value]) !! Held(s.threads[i]);
    }
  }

  lemma CallerKeepsNotifier(s: State, i: nat, choice: bool)
    requires Exclusive(s) && HandleInv(s) && NotifierInv(s) && Live(s)
    requires Enabled(s, Step(i, choice)) && s.threads[i].Caller?
    ensures NotifierInv(Next(s, Step(i, choice)))
  {
    CallerMarksNoTool(s, i, choice);
    if s.threads[i].caller.Ensuring? && s.handle.Some? && Alive(s, s.handle.value) {
      EnsuredIsUndecided(s, i);
    }
  }

  /** While a notifier has seen no tool being installed, no caller marks one: it would need the same lock. */
  lemma CallerMarksNoTool(s: State, i: nat, choice: bool)
    requires Exclusive(s) && NotifierInv(s) && Enabled(s, Step(i, choice)) && s.threads[i].Caller?
    ensures forall n: nat | n < |s.threads| && s.threads[n].Notifier? && SawNoTool(s.threads[n].notifier) ::
      forall a <- Next(s, Step(i, choice)).installing :: a.Voice?
  {
    forall n: nat | n < |s.threads| && s.threads[n].Notifier? && SawNoTool(s.threads[n].notifier)
      ensures forall a <- Next(s, Step(i, choice)).installing :: a.Voice?
    {
      if ProgressLock in Held(s.threads[i]) {
        OnlyHolder(s, i, n, ProgressLock);
      }
    }
  }

  lemma NotifierKeepsNotifier(s: State, i: nat, choice: bool)
    requires Exclusive(s) && SingleFlight(s) && HandleInv(s) && NotifierInv(s) && Live(s)
    requires Enabled(s, Step(i, choice)) && s.threads[i].Notifier?
    ensures NotifierInv(Next(s, Step(i, choice)))
  {
    var s' := Next(s, Step(i, choice));
    forall k | 0 <= k < |s'.threads| && PastEnsure(s'.threads[k])
      ensures s'.handle.Some? && s'.handle.value < |s'.threads| && Undecided(s'.threads[s'.handle.value])
    {
      assert PastEnsure(s.threads[k]);
      var owned := s.threads[k].artifact;
      assert Owns(s.threads[k], owned) && owned in s.installing;
    }
  }

  lemma DownloaderKeepsNotifier(s: State, a: Action)
    requires NotifierInv(s) && Live(s) && Enabled(s, a) && Live(Next(s, a))
    requires a.Step? ==> s.threads[a.thread].Downloader?
    ensures NotifierInv(Next(s, a))
  {
  }

  lemma StepKeepsInv(s: State, a: Action)
    requires Inv(s) && Enabled(s, a)
    ensures Inv(Next(s, a))
  {
    StepKeepsExclusive(s, a);
    StepKeepsSingleFlight(s, a);
    StepKeepsOwned(s, a);
    if Live(Next(s, a)) {
      if a.Step? && s.threads[a.thread].Caller? {
        StepKeepsHandle(s, a.thread, a.choice);
        CallerKeepsNotifier(s, a.thread, a.choice);
      } else if a.Step? && s.threads[a.thread].Notifier? {
        StepKeepsHandle(s, a.thread, a.choice);
        NotifierKeepsNotifier(s, a.thread, a.choice);
      } else {
        OtherKeepsHandle(s, a);
        DownloaderKeepsNotifier(s, a);
      }
    }
  }

  lemma {:induction false} InvHolds(states: seq<State>, actions: seq<Action>, i: nat)
    requires IsRun(states, actions) && i < |states|
    ensures Inv(states[i])
  {
    if i > 0 {
      InvHolds(states, actions, i - 1);
      StepKeepsInv(states[i - 1], actions[i - 1]);
    }
  }

  // ---------------------------------------------------------------- the theorems

  /** Per artifact at most one thread is between setting the installing flag and clearing it, and the flag is
      up all that time. */
  lemma InstallsAreSingleFlight(states: seq<State>, actions: seq<Action>, n: nat, a: Artifact, i: nat, j: nat)
    requires IsRun(states, actions) && n < |states|
    requires i < |states[n].threads| && j < |states[n].threads|
    requires Owns(states[n].threads[i], a) && Owns(states[n].threads[j], a)
    ensures i == j && a in states[n].installing
  {
    InvHolds(states, actions, n);
  }

  /** While the group starts threads, an installing flag is up only as long as a caller or a download thread has
      yet to take it down: once the download has ended, the artifact can be installed again. */
  lemma FlagIsUpExactlyWhenOwned(states: seq<State>, actions: seq<Action>, n: nat, a: Artifact)
    requires IsRun(states, actions) && n < |states| && states[n].accepting
    ensures a in states[n].installing <==>
      exists i :: 0 <= i < |states[n].threads| && Owns(states[n].threads[i], a)
  {
    InvHolds(states, actions, n);
  }

  /** Nobody is at work on the artifact any more. */
  predicate Idle(t: Thread, a: Artifact) {
    match t
    case Caller(b, pc) =>
      b == a ==> pc.Arriving? || pc.WantEarlyCheck? || pc.EarlyCheck? || pc.Resolving? || pc.WantMark? || pc.Marking?
                 || pc.Returned?
    case Downloader(b, pc) => b == a ==> pc.Ended?
    case Notifier(_) => true
  }

  /** Then the flag is down, so that the next caller gets past the checks and marks the artifact. */
  lemma CanBeInstalledAgain(states: seq<State>, actions: seq<Action>, n: nat, a: Artifact)
    requires IsRun(states, actions) && n < |states| && states[n].accepting
    requires forall t <- states[n].threads :: Idle(t, a)
    ensures a !in states[n].installing
  {
    FlagIsUpExactlyWhenOwned(states, actions, n, a);
    var s := states[n];
    forall i | 0 <= i < |s.threads|
      ensures !Owns(s.threads[i], a)
    {
      assert s.threads[i] in s.threads;
    }
  }

  predicate Refused(t: Thread) {
    t.Caller? && (t.caller.Arriving? || t.caller.Returned?)
  }

  /** A call that has not got going when the service stops never does anything. */
  lemma {:induction false} StoppedServiceRefuses(states: seq<State>, actions: seq<Action>, n: nat, m: nat, i: nat)
    requires IsRun(states, actions) && n <= m < |states| && states[n].stopping
    requires i < |states[n].threads| && Refused(states[n].threads[i])
    ensures states[m].stopping && i < |states[m].threads| && Refused(states[m].threads[i])
    decreases m - n
  {
    if n < m {
      StoppedServiceRefuses(states, actions, n + 1, m, i);
    }
  }

  /** The thread downloads, verifies, stages or probes an artifact. */
  predicate Works(t: Thread) {
    && t.Downloader?
    && (t.downloader.Downloading? || t.downloader.WantReport? || t.downloader.Reporting?
        || t.downloader.WantProbe? || t.downloader.Probing?)
  }

  /** Over all tools and the voice bundle, at most one artifact is being downloaded, verified or staged. */
  lemma OneDownloadAtATime(states: seq<State>, actions: seq<Action>, n: nat, i: nat, j: nat)
    requires IsRun(states, actions) && n < |states|
    requires i < |states[n].threads| && j < |states[n].threads|
    requires Works(states[n].threads[i]) && Works(states[n].threads[j])
    ensures i == j
  {
    InvHolds(states, actions, n);
  }

  /** While the service is live, an install that has passed the ensure step has a notifier that has not decided
      to exit, from then until the install clears its flag. */
  lemma NoInstallLosesItsNotifier(states: seq<State>, actions: seq<Action>, n: nat, i: nat)
    requires IsRun(states, actions) && n < |states| && Live(states[n])
    requires i < |states[n].threads| && PastEnsure(states[n].threads[i])
    ensures exists k :: 0 <= k < |states[n].threads| && Undecided(states[n].threads[k])
  {
    InvHolds(states, actions, n);
  }

  lemma AtMostOneNotifier(states: seq<State>, actions: seq<Action>, n: nat, i: nat, j: nat)
    requires IsRun(states, actions) && n < |states| && Live(states[n])
    requires i < |states[n].threads| && j < |states[n].threads|
    requires Undecided(states[n].threads[i]) && Undecided(states[n].threads[j])
    ensures i == j
  {
    InvHolds(states, actions, n);
    NamedOnce(states[n], i, j);
  }

  lemma AssigningHolds(t: Thread, n: nat)
    requires Assigning(t, n)
    ensures ProgressLock in Held(t)
  {
  }

  lemma NamedOnce(s: State, i: nat, j: nat)
    requires Exclusive(s) && NotifiersAreNamed(s) && CreatorsAreAlone(s)
    requires i < |s.threads| && j < |s.threads| && InLoop(s.threads[i]) && InLoop(s.threads[j])
    ensures i == j
  {
    if s.handle.None? {
      var k: nat :| k < |s.threads| && Assigning(s.threads[k], i);
      var m: nat :| m < |s.threads| && Assigning(s.threads[m], j);
      AssigningHolds(s.threads[k], i);
      AssigningHolds(s.threads[m], j);
      OnlyHolder(s, k, m, ProgressLock);
    }
  }

  // ---------------------------------------------------------------- why a thread gives up

  /** Where a call gives up, and why: the service was stopping when it arrived; the artifact is being installed
      already, at the first look or when it is to be marked; nothing to install could be resolved; or the group starts
      no threads any more. */
  predicate GivesUp(s: State, a: Artifact, pc: CallerPc, resolved: bool) {
    match pc
    case Arriving => s.stopping
    case EarlyCheck => a in s.installing
    case Resolving => !resolved
    case Marking => a in s.installing
    case SpawningNotifier => !s.accepting
    case _ => false
  }

  /** A call returns without a download exactly when it has such a reason; otherwise it goes on, marks its artifact
      and no other, and in the end starts its download thread if the group still starts threads. */
  lemma CallReturnsExactlyWhen(s: State, i: nat, choice: bool)
    requires Enabled(s, Step(i, choice)) && s.threads[i].Caller?
    ensures
      var a, pc, s' := s.threads[i].artifact, s.threads[i].caller, Next(s, Step(i, choice));
      && s'.threads[i].Caller? && s'.threads[i].artifact == a
      && (s'.threads[i].caller.Returned? <==> GivesUp(s, a, pc, choice) || pc.SpawningDownload?)
      && (s'.installing == if pc.Marking? then s.installing + {a} else s.installing)
      && (pc.SpawningDownload? ==>
            s'.threads == s.threads[i := Caller(a, Returned)]
                          + if s.accepting then [Downloader(a, WantInstall)] else [])
      && (pc.Arriving? && !s.stopping ==>
            s'.threads[i].caller == if a.Tool? then WantEarlyCheck else WantMark)
  {
    if s.threads[i].caller.Marking? && s.threads[i].artifact in s.installing {
      assert s.installing + {s.threads[i].artifact} == s.installing;
    }
  }

  /** How far a call is from returning. */
  function StepsLeft(pc: CallerPc): nat {
    match pc
    case Arriving => 13
    case WantEarlyCheck => 12
    case EarlyCheck => 11
    case Resolving => 10
    case WantMark => 9
    case Marking => 8
    case WantEnsure => 7
    case Ensuring => 6
    case WantNotifier => 5
    case SpawningNotifier => 4
    case AssigningHandle(_) => 3
    case WantDownload => 2
    case SpawningDownload => 1
    case Returned => 0
  }

  /** Every step brings a call closer to its end. */
  lemma CallsComeToAnEnd(s: State, i: nat, choice: bool)
    requires Enabled(s, Step(i, choice)) && s.threads[i].Caller?
    ensures Next(s, Step(i, choice)).threads[i].Caller?
    ensures StepsLeft(Next(s, Step(i, choice)).threads[i].caller) < StepsLeft(s.threads[i].caller)
  {
  }

  /** The order of a download: it begins with the install lock, goes back and forth between its work, its reports and
      its probes, and ends, in success or failure, only after its flag has been cleared. */
  predicate DownloadOrder(before: DownloaderPc, after: DownloaderPc) {
    match before
    case WantInstall => after.Downloading?
    case Downloading => after.WantReport? || after.WantProbe?
    case WantReport => after.Reporting?
    case WantProbe => after.Probing?
    case Reporting => after.Downloading? || after.WantClear?
    case Probing => after.Downloading? || after.WantClear?
    case WantClear => after.Clearing?
    case Clearing => after.Ended?
    case Ended => false
  }

  lemma DownloadClearsItsFlagLast(s: State, i: nat, choice: bool)
    requires Enabled(s, Step(i, choice)) && s.threads[i].Downloader?
    ensures
      var a, pc, s' := s.threads[i].artifact, s.threads[i].downloader, Next(s, Step(i, choice));
      && s'.threads == s.threads[i := s'.threads[i]] && s'.handle == s.handle
      && s'.threads[i].Downloader? && s'.threads[i].artifact == a
      && DownloadOrder(pc, s'.threads[i].downloader)
      && s'.installing == if pc.Clearing? then s.installing - {a} else s.installing
  {
  }

  /** The notifier leaves its loop exactly when it wakes in a service that is stopping, when its group has begun to
      exit by the time it has pushed, or when neither a tool nor the voice bundle is being installed; it gives its
      handle up only in the last case. */
  lemma NotifierLeavesExactlyWhen(s: State, i: nat, choice: bool)
    requires Enabled(s, Step(i, choice)) && s.threads[i].Notifier?
    ensures
      var pc, s' := s.threads[i].notifier, Next(s, Step(i, choice));
      && s'.threads[i].Notifier? && s'.installing == s.installing && |s'.threads| == |s.threads|
      && (s'.threads[i].notifier.Dying? <==>
            (pc.Sleeping? && s.stopping) || (pc.Pushing? && !s.accepting) || pc.Leaving?)
      && (s'.threads[i].notifier.Leaving? <==> pc.ReadingVoice? && Voice !in s.installing)
      && (pc.Checking? ==>
            (s'.threads[i].notifier.WantVoice? <==> forall a <- s.installing :: a == Voice))
      && s'.handle == if pc.Leaving? then None else s.handle
  {
  }

  /** Once the service has been stopped, calls that arrive later never do anything. */
  lemma {:induction false} CallsAfterStopAreRefused(
    states: seq<State>, actions: seq<Action>, n: nat, m: nat, i: nat)
    requires IsRun(states, actions) && n < m < |states| && actions[n] == Stop
    requires |states[n].threads| <= i < |states[m].threads| && states[m].threads[i].Caller?
    ensures states[m].stopping && Refused(states[m].threads[i])
    decreases m
  {
    if m > n + 1 {
      StaysStopped(states, actions, n, m - 1);
      if i < |states[m - 1].threads| {
        CallsAfterStopAreRefused(states, actions, n, m - 1, i);
      }
    }
  }

  lemma {:induction false} StaysStopped(states: seq<State>, actions: seq<Action>, n: nat, m: nat)
    requires IsRun(states, actions) && n < m < |states|
    ensures actions[n] == Stop ==> states[m].stopping
    ensures actions[n] == Close ==> !states[m].accepting
    decreases m
  {
    if m > n + 1 {
      StaysStopped(states, actions, n, m - 1);
    }
  }

  /** And once the group has begun to exit, no download and no notifier is started. */
  lemma {:induction false} ClosedGroupStartsNothing(states: seq<State>, actions: seq<Action>, n: nat, m: nat, i: nat)
    requires IsRun(states, actions) && n < m < |states| && actions[n] == Close
    requires |states[n].threads| <= i < |states[m].threads|
    ensures states[m].threads[i].Caller?
    decreases m
  {
    if m > n + 1 {
      StaysStopped(states, actions, n, m - 1);
      if i < |states[m - 1].threads| {
        ClosedGroupStartsNothing(states, actions, n, m - 1, i);
      }
    }
  }
}
