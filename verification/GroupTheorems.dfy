/** Safety of concurrency groups over whole runs. */
module GroupTheorems {
  import opened Strands
  import opened ConcurrencyGroups
  import opened GroupRuns
  import opened GroupSafety
  import opened GroupInvariant

  /** The worlds a run passes through, and the step taken in each but the last. */
  predicate IsRun(worlds: seq<World>, actions: seq<Action>) {
    && |worlds| == |actions| + 1
    && forall i :: 0 <= i < |actions| ==>
         Ok(worlds[i]) && Enabled(worlds[i], actions[i]) && worlds[i + 1] == Next(worlds[i], actions[i])
  }

  predicate FullRun(worlds: seq<World>, actions: seq<Action>) {
    IsRun(worlds, actions) && worlds[0] == INITIAL
  }

  lemma {:induction false} InvHolds(worlds: seq<World>, actions: seq<Action>, i: nat)
    requires FullRun(worlds, actions) && i < |worlds|
    ensures Inv(worlds[i])
  {
    if i == 0 {
      assert GroupOk(INITIAL, 0);
    } else {
      InvHolds(worlds, actions, i - 1);
      StepKeepsInv(worlds[i - 1], actions[i - 1]);
    }
  }

  /** Once a group or one of its ancestors counts as failed, it stays so in every later world. */
  lemma {:induction false} DoomIsMonotone(worlds: seq<World>, actions: seq<Action>, i: nat, j: nat, g: nat)
    requires FullRun(worlds, actions) && i <= j < |worlds| && g < |worlds[i].groups|
    requires Ok(worlds[i]) && Doomed(worlds[i], Some(g))
    ensures Ok(worlds[j]) && g < |worlds[j].groups| && Doomed(worlds[j], Some(g))
    decreases j - i
  {
    if i < j {
      InvHolds(worlds, actions, i);
      DoomLasts(worlds[i], actions[i], Some(g));
      DoomIsMonotone(worlds, actions, i + 1, j, g);
    }
  }

  /** A failing strand that some check could have noticed makes the exit of its group fail, however many
      cleanups come in between. */
  lemma {:induction false} OwnFailureFailsTheExit(worlds: seq<World>, actions: seq<Action>, i: nat, j: nat, g: nat)
    requires FullRun(worlds, actions) && i <= j < |worlds| && g < |worlds[i].groups|
    requires Ok(worlds[i]) && GroupOk(worlds[i], g) && OwnFailing(worlds[i], worlds[i].groups[g])
    ensures g < |worlds[j].groups|
    ensures worlds[j].groups[g].phase == Exited ==> worlds[j].groups[g].exitFailure.Some?
    decreases j - i
  {
    InvHolds(worlds, actions, i);
    if i == j {
      assert GroupInv(worlds[i], g);
    } else {
      StepMoves(worlds[i], actions[i], g);
      InvHolds(worlds, actions, i + 1);
      assert GroupOk(worlds[i + 1], g);
      OwnFailureFailsTheExit(worlds, actions, i + 1, j, g);
    }
  }

  /** Nothing is registered with a group once its exit has begun. */
  lemma {:induction false} NothingStartsAfterExiting(
    worlds: seq<World>, actions: seq<Action>, i: nat, j: nat, g: nat)
    requires FullRun(worlds, actions) && i <= j < |worlds| && g < |worlds[i].groups|
    requires Closed(worlds[i].groups[g])
    ensures g < |worlds[j].groups|
    ensures
      var before, after := worlds[i].groups[g], worlds[j].groups[g];
      && Closed(after)
      && after.everThreads == before.everThreads && after.everProcesses == before.everProcesses
      && after.children == before.children
    decreases j - i
  {
    if i < j {
      InvHolds(worlds, actions, i);
      StepMoves(worlds[i], actions[i], g);
      NothingStartsAfterExiting(worlds, actions, i + 1, j, g);
    }
  }

  /** A group that was left without an exception has nothing running: every strand ever registered with it
      has ended, and none that it answers for is in its lists as failed. */
  lemma CleanExitLeavesNothingRunning(worlds: seq<World>, actions: seq<Action>, i: nat, g: nat)
    requires FullRun(worlds, actions) && i < |worlds| && g < |worlds[i].groups|
    requires worlds[i].groups[g].phase == Exited && worlds[i].groups[g].exitFailure.None?
    ensures Ok(worlds[i]) && GroupOk(worlds[i], g)
    ensures
      var left := worlds[i].groups[g];
      && (forall t <- left.everThreads + left.everProcesses :: !Running(t, worlds[i].strands))
      && (forall t <- left.everThreads + left.everProcesses :: !Failing(t, worlds[i].strands))
  {
    InvHolds(worlds, actions, i);
    assert GroupInv(worlds[i], g) && GroupOk(worlds[i], g);
  }

  /** A child phase that a call has noted down was the child's phase in some world before. */
  predicate WasSeen(worlds: seq<World>, i: nat, child: nat, phase: Phase)
    requires i < |worlds|
  {
    exists j :: 0 <= j <= i && child < |worlds[j].groups| && worlds[j].groups[child].phase == phase
  }

  predicate SeenHonestly(worlds: seq<World>, i: nat, seen: seq<(nat, Phase)>)
    requires i < |worlds|
  {
    forall s <- seen :: WasSeen(worlds, i, s.0, s.1)
  }

  function SeenBy(pc: Pc): seq<(nat, Phase)> {
    if pc.CheckingChildren? || pc.Finished? then pc.seen else []
  }

  lemma SeenGrowsHonestly(w: World, a: Action, c: nat)
    requires Ok(w) && Enabled(w, a) && c < |w.calls| && c < |Next(w, a).calls|
    ensures forall s <- SeenBy(Next(w, a).calls[c].pc) ::
      s in SeenBy(w.calls[c].pc) || (s.0 < |w.groups| && w.groups[s.0].phase == s.1)
  {
    assert CallOk(w, w.calls[c]);
    CallsKeep(w, a, c);
    if a.Advance? && a.call == c && w.calls[c].pc.CheckingChildren? && w.calls[c].pc.remaining != [] {
      assert w.calls[c].pc.remaining[0] < |w.groups|;
    }
  }

  lemma {:induction false} CallsSeeHonestly(worlds: seq<World>, actions: seq<Action>, i: nat, c: nat)
    requires FullRun(worlds, actions) && i < |worlds| && c < |worlds[i].calls|
    ensures SeenHonestly(worlds, i, SeenBy(worlds[i].calls[c].pc))
  {
    if i > 0 {
      var w := worlds[i - 1];
      InvHolds(worlds, actions, i - 1);
      if c < |w.calls| {
        CallsSeeHonestly(worlds, actions, i - 1, c);
        SeenGrowsHonestly(w, actions[i - 1], c);
        forall s <- SeenBy(worlds[i].calls[c].pc)
          ensures WasSeen(worlds, i, s.0, s.1)
        {
          if s in SeenBy(w.calls[c].pc) {
            assert WasSeen(worlds, i - 1, s.0, s.1);
          }
        }
      }
    }
  }

  predicate IsChild(w: World, child: nat, g: nat) {
    child < |w.groups| && w.groups[child].parent == Some(g)
  }

  /** A child made by a group is tracked by it until the child has exited. */
  lemma ChildrenAreTracked(worlds: seq<World>, actions: seq<Action>, i: nat, child: nat, g: nat)
    requires FullRun(worlds, actions) && i < |worlds| && g < |worlds[i].groups|
    requires IsChild(worlds[i], child, g)
    ensures child in worlds[i].groups[g].children || worlds[i].groups[child].phase == Exited
  {
    InvHolds(worlds, actions, i);
    assert TracksChildren(worlds[i], g);
  }

  /** When `__exit__` returns normally, every child that the group has ever made was, at some moment of the run,
      either exited or never entered. */
  lemma CleanExitSawChildrenClosed(worlds: seq<World>, actions: seq<Action>, i: nat, c: nat, child: nat)
    requires FullRun(worlds, actions) && i < |worlds| && c < |worlds[i].calls|
    requires worlds[i].calls[c].purpose.Leave?
    requires worlds[i].calls[c].pc.Finished? && worlds[i].calls[c].pc.outcome.Returned?
    requires worlds[i].calls[c].group < |worlds[i].groups|
    requires IsChild(worlds[i], child, worlds[i].calls[c].group)
    ensures worlds[i].groups[worlds[i].calls[c].group].exitFailure.None?
    ensures WasSeen(worlds, i, child, Exited) || WasSeen(worlds, i, child, Instantiated)
  {
    InvHolds(worlds, actions, i);
    var k := worlds[i].calls[c];
    assert CallInv(worlds[i], k);
    ChildrenAreTracked(worlds, actions, i, child, k.group);
    if child in worlds[i].groups[k.group].children {
      CallsSeeHonestly(worlds, actions, i, c);
      var s :| s in k.pc.seen && s.0 == child && Benign(s.1);
    }
  }

  /** A group of exceptions that an exit has raised names every strand that the group still tracks as failed, every
      strand ever registered that is still running, the body's exceptions, and every child that was open. */
  lemma ExitReportsEverything(worlds: seq<World>, actions: seq<Action>, i: nat, c: nat, parts: seq<Part>)
    requires FullRun(worlds, actions) && i < |worlds| && c < |worlds[i].calls|
    requires worlds[i].calls[c].purpose.Leave? && worlds[i].calls[c].pc.Finished?
    requires worlds[i].calls[c].pc.outcome == Threw(Grouped(parts))
    ensures worlds[i].calls[c].group < |worlds[i].groups|
    ensures
      var left, strands := worlds[i].groups[worlds[i].calls[c].group], worlds[i].strands;
      && (forall t <- left.threads + left.processes :: t.strand < |strands| && Failing(t, strands) ==>
            FromStrand(t.strand) in parts || Unfinished(t.strand) in parts)
      && (forall t <- left.everThreads + left.everProcesses :: t.strand < |strands| && Running(t, strands) ==>
            Unfinished(t.strand) in parts)
    ensures worlds[i].calls[c].purpose.body.Some? ==> HoldsBody(parts, worlds[i].calls[c].purpose.body.value)
    ensures forall child: nat :: IsChild(worlds[i], child, worlds[i].calls[c].group) ==>
      ChildStillOpen(child) in parts || WasSeen(worlds, i, child, Exited) || WasSeen(worlds, i, child, Instantiated)
  {
    InvHolds(worlds, actions, i);
    var w, k := worlds[i], worlds[i].calls[c];
    assert CallOk(w, k) && CallInv(w, k) && GroupOk(w, k.group) && GroupInv(w, k.group);
    CallsSeeHonestly(worlds, actions, i, c);
    forall child: nat | IsChild(w, child, k.group)
      ensures ChildStillOpen(child) in parts
              || WasSeen(worlds, i, child, Exited) || WasSeen(worlds, i, child, Instantiated)
    {
      ChildrenAreTracked(worlds, actions, i, child, k.group);
      if child in w.groups[k.group].children && ChildStillOpen(child) !in parts {
        var s :| s in k.pc.seen && s.0 == child && Benign(s.1);
      }
    }
  }

  // ---------------------------------------------------------------- two reads of an ancestor

  predicate FirstTest(g: Group) {
    g.phase == Exited && g.exitFailure.Some?
  }

  predicate SecondTest(g: Group) {
    g.phase in {Exiting, Active} && g.preExit.Some?
  }

  lemma {:induction false} PhaseOnlyAdvances(worlds: seq<World>, actions: seq<Action>, i: nat, j: nat, g: nat)
    requires FullRun(worlds, actions) && i <= j < |worlds| && g < |worlds[i].groups|
    ensures g < |worlds[j].groups|
    ensures Rank(worlds[i].groups[g].phase) <= Rank(worlds[j].groups[g].phase)
    ensures worlds[i].groups[g].preExit.Some? ==> worlds[j].groups[g].preExit.Some?
    decreases j - i
  {
    if i < j {
      InvHolds(worlds, actions, i);
      StepMoves(worlds[i], actions[i], g);
      PhaseOnlyAdvances(worlds, actions, i + 1, j, g);
    }
  }

  /** The two-read visit overlooks an ancestor that had already failed at the first read if and only if the
      ancestor's exit finished in between. */
  lemma VisitOverlooksExactlyWhen(worlds: seq<World>, actions: seq<Action>, i: nat, j: nat, g: nat)
    requires FullRun(worlds, actions) && i <= j < |worlds| && g < |worlds[i].groups|
    requires Fails(worlds[i].groups[g])
    ensures g < |worlds[j].groups|
    ensures !FirstTest(worlds[i].groups[g]) && !SecondTest(worlds[j].groups[g]) <==>
      worlds[i].groups[g].phase != Exited && worlds[j].groups[g].phase == Exited
  {
    PhaseOnlyAdvances(worlds, actions, i, j, g);
  }
}
