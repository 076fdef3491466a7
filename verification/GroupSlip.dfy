/** Runs in which the failure of a group is missed: the group finishes its exit between the two reads that a
    call below it makes of it. */
module GroupSlip {
  import opened Strands
  import opened ConcurrencyGroups
  import opened GroupRuns
  import opened GroupTheorems
  import opened GroupScripts

  // ---------------------------------------------------------------- a strand is started

  const READER := ATTEMPT.(pc := Rereading(0, []))

  lemma Slipped() returns (h: History, begun: nat)
    ensures begun < |h.worlds| && h.worlds[begun] == Family(Active, Child([]), SETUP + [NOTICER, ATTEMPT])
    ensures FullRun(h.worlds, h.actions)
    ensures RegisteredBelow(h.worlds[|h.actions|])
  {
    h, begun := Attempted();
    var left := LEAVER.(pc := Finished(Threw(RAISED), [(1, Active)]));
    h := RootLeaves(h, Child([]), SETUP + [NOTICER, READER]);
    var w := Family(Exited, Child([]), SETUP + [NOTICER, READER, left]);
    assert SETUP + [NOTICER, READER] + [left] == w.calls;
    assert At(w, 3, Rereading(0, [])).calls == w.calls;
    h := ChildOverlooksRoot(h, w, 3);
    h := Turn(h, w, 3, Deciding([]), Registering);
    h := RegisteredLate(h, w);
  }

  lemma RegisteredLate(h: History, w: World) returns (h': History)
    requires |w.groups| == 2 && w.groups[1] == Child([]) && |w.strands| == 1 && |w.calls| > 3
    requires w.calls[3].group == 1 && w.calls[3].purpose == StartThread(true)
    requires h.Reaches(At(w, 3, Registering))
    ensures FullRun(h'.worlds, h'.actions) && h.worlds <= h'.worlds
    ensures RegisteredBelow(h'.worlds[|h'.actions|])
  {
    var w' := At(w, 3, Registering);
    h' := Act(h, w', Advance(3, false), Next(w', Advance(3, false)));
  }

  /** The start attempt, call 3, has returned, and the child has its thread. */
  predicate RegisteredBelow(w: World) {
    && |w.calls| > 3 && w.calls[3].group == 1 && w.calls[3].pc == Finished(Returned, [])
    && |w.groups| == 2 && w.groups[1].parent == Some(0) && |w.groups[1].threads| == 1
  }

  lemma {:induction false} RootStaysDoomed(h: History, begun: nat, w: World)
    requires FullRun(h.worlds, h.actions) && begun < |h.worlds| && h.worlds[begun] == w
    requires |w.groups| > 0 && Fails(w.groups[0])
    ensures forall i :: begun <= i < |h.worlds| ==>
      Ok(h.worlds[i]) && 0 < |h.worlds[i].groups| && Doomed(h.worlds[i], Some(0))
  {
    forall i | begun <= i < |h.worlds|
      ensures Ok(h.worlds[i]) && 0 < |h.worlds[i].groups| && Doomed(h.worlds[i], Some(0))
    {
      InvHolds(h.worlds, h.actions, begun);
      DoomIsMonotone(h.worlds, h.actions, begun, i, 0);
    }
  }

  /** The documented promise that a failed ancestor stops every start below it does not hold for every
      interleaving: here the start attempt begins after the root has failed, the root is failed in every world
      from then on, and the attempt registers a running thread all the same. */
  lemma StartCanSlipPastFailedAncestor() returns (worlds: seq<World>, actions: seq<Action>, begun: nat)
    ensures FullRun(worlds, actions) && begun < |worlds|
    ensures |worlds[begun].calls| > 3 && worlds[begun].calls[3].pc == AboutToCheck([])
    ensures forall i :: begun <= i < |worlds| ==>
      Ok(worlds[i]) && 0 < |worlds[i].groups| && Doomed(worlds[i], Some(0))
    ensures RegisteredBelow(worlds[|actions|])
  {
    var h;
    h, begun := Slipped();
    worlds, actions := h.worlds, h.actions;
    RootStaysDoomed(h, begun, worlds[begun]);
  }

  // ---------------------------------------------------------------- a noticed failure is lost

  const INHERITED := Grouped([FromAncestor(NOTICED)])

  const REFUSED := ATTEMPT.(pc := Finished(Threw(INHERITED), []))

  const OLD_CALLS := SETUP + [NOTICER, REFUSED]

  /** The child, once it has noticed the root's failure. */
  function Noticing(phase: Phase): Group {
    Child([]).(phase := phase, preExit := Some(INHERITED))
  }

  const CHILD_LEAVER := Call(1, Leave(None), AboutToWait)

  /** The child's start attempt is refused because the root has failed. */
  lemma Inherited() returns (h: History)
    ensures h.Reaches(Family(Active, Noticing(Active), OLD_CALLS))
  {
    var begun;
    h, begun := Attempted();
    var w := Family(Active, Child([]), SETUP + [NOTICER, READER]);
    assert At(w, 3, Rereading(0, [])).calls == w.calls;
    assert [] + [FromAncestor(NOTICED)] == INHERITED.parts;
    h := Turn(h, w, 3, Rereading(0, []), Deciding(INHERITED.parts));
    h := Act(h, At(w, 3, Deciding(INHERITED.parts)), Advance(3, false), Family(Active, Noticing(Active), OLD_CALLS));
  }

  /** The child's exit makes its first read of the root. */
  lemma ChildBeginsToLeave() returns (h: History, noticed: nat)
    ensures noticed < |h.worlds| && h.worlds[noticed] == Family(Active, Noticing(Active), OLD_CALLS)
    ensures h.Reaches(Family(Active, Noticing(Exiting), OLD_CALLS + [CHILD_LEAVER.(pc := Rereading(0, []))]))
  {
    h := Inherited();
    noticed := |h.worlds| - 1;
    var w := Family(Active, Noticing(Exiting), OLD_CALLS + [CHILD_LEAVER]);
    h := Act(h, h.worlds[noticed], Begin(1, Leave(None)), w);
    assert At(w, 4, AboutToWait).calls == w.calls;
    h := Turn(h, w, 4, AboutToWait, TestingProcesses([], []));
    h := Turn(h, w, 4, TestingProcesses([], []), AwaitingThreads([], []));
    h := Turn(h, w, 4, AwaitingThreads([], []), AboutToCheck([]));
    h := ChildReadsRoot(h, w, 4);
    assert At(w, 4, Rereading(0, [])).calls == OLD_CALLS + [CHILD_LEAVER.(pc := Rereading(0, []))];
  }

  /** The child's exit ends with nothing to raise. */
  lemma ChildLeaves(h: History, w: World) returns (h': History)
    requires |w.groups| == 2 && w.groups[0].phase == Exited && w.groups[0].parent.None?
    requires w.groups[1] == Noticing(Exiting) && |w.calls| > 4 && w.calls[4] == CHILD_LEAVER
    requires h.Reaches(At(w, 4, Rereading(0, [])))
    ensures FullRun(h'.worlds, h'.actions) && h.worlds <= h'.worlds
    ensures |h'.worlds[|h'.actions|].groups| == 2
    ensures h'.worlds[|h'.actions|].groups[1] == Noticing(Exited)
  {
    h' := ChildOverlooksRoot(h, w, 4);
    h' := Turn(h', w, 4, Deciding([]), CheckingChildren([], [], []));
    var w' := At(w, 4, CheckingChildren([], [], []));
    h' := Act(h', w', Advance(4, false), Next(w', Advance(4, false)));
  }

  /** A group that counts as failed need not count as failed for good: here the child has noticed the failure
      of the root, which stays failed throughout, and is nevertheless left without an exception. */
  lemma NoticedFailureCanBeLost() returns (worlds: seq<World>, actions: seq<Action>, noticed: nat)
    ensures FullRun(worlds, actions) && noticed < |worlds|
    ensures forall i :: noticed <= i < |worlds| ==>
      Ok(worlds[i]) && 0 < |worlds[i].groups| && Doomed(worlds[i], Some(0))
    ensures
      && |worlds[noticed].groups| == 2 && worlds[noticed].groups[1].parent == Some(0)
      && worlds[noticed].groups[1].phase == Active && Fails(worlds[noticed].groups[1])
    ensures
      var last := worlds[|actions|];
      && |last.groups| == 2 && last.groups[1].phase == Exited && last.groups[1].exitFailure.None?
      && !Fails(last.groups[1])
  {
    var h;
    h, noticed := ChildBeginsToLeave();
    var left := LEAVER.(pc := Finished(Threw(RAISED), [(1, Exiting)]));
    var calls := OLD_CALLS + [CHILD_LEAVER.(pc := Rereading(0, []))];
    h := RootLeaves(h, Noticing(Exiting), calls);
    var w := Family(Exited, Noticing(Exiting), OLD_CALLS + [CHILD_LEAVER, left]);
    assert At(w, 4, Rereading(0, [])).calls == calls + [left];
    h := ChildLeaves(h, w);
    worlds, actions := h.worlds, h.actions;
    RootStaysDoomed(h, noticed, worlds[noticed]);
  }
}
