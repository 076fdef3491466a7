/** A run in which leaving a group raises a lone exception and leaves a strand running that nobody has reported: a
    checked process fails while the exit waits for it. */
module GroupEscape {
  import opened Strands
  import opened ConcurrencyGroups
  import opened GroupRuns
  import opened GroupTheorems
  import opened GroupScripts

  const PROCESS := Tracked(1, true)

  const BUSY := Strand(true, None)

  const STARTED := [Done(StartThread(true)), Done(StartProcess(true))]

  /** A group without parent or children that tracks a thread and a process. */
  function Lone(phase: Phase, exitFailure: Option<Raised>): Group {
    Group(None, phase, [WATCHED], [PROCESS], [], {WATCHED}, {PROCESS}, exitFailure, None)
  }

  lemma BothStarted() returns (h: History)
    ensures h.Reaches(World([Lone(Active, None)], [BUSY, BUSY], STARTED))
  {
    assert GroupOk(INITIAL, 0);
    h := History([INITIAL], []);
    var w := World([NEW_GROUP.(phase := Active)], [], []);
    h := Act(h, INITIAL, Enter(0), w);
    h := Begun(h, w, StartThread(true));
    assert [] + [WATCHED] == [WATCHED] && {} + {WATCHED} == {WATCHED};
    var w1 := World([Root(Active, [], None, None)], [BUSY], [Done(StartThread(true))]);
    h := Act(h, w.(calls := w.calls + [Call(0, StartThread(true), Registering)]), Advance(0, false), w1);
    h := Begun(h, w1, StartProcess(true));
    assert [] + [PROCESS] == [PROCESS] && {} + {PROCESS} == {PROCESS};
    h := Act(h, w1.(calls := w1.calls + [Call(0, StartProcess(true), Registering)]), Advance(1, false),
             World([Lone(Active, None)], [BUSY, BUSY], STARTED));
  }

  const ESCAPED := Bare(StrandOrigin(1), Ordinary)

  lemma Waiting() returns (h: History)
    ensures h.Reaches(World([Lone(Exiting, None)], [BUSY, BUSY],
                            STARTED + [LEAVER.(pc := AwaitingProcess(PROCESS, [], []))]))
  {
    h := BothStarted();
    var w := World([Lone(Exiting, None)], [BUSY, BUSY], STARTED + [LEAVER]);
    h := Act(h, World([Lone(Active, None)], [BUSY, BUSY], STARTED), Begin(0, Leave(None)), w);
    assert At(w, 2, AboutToWait).calls == w.calls && [PROCESS][1..] == [];
    h := Turn(h, w, 2, AboutToWait, TestingProcesses([PROCESS], []));
    h := Turn(h, w, 2, TestingProcesses([PROCESS], []), AwaitingProcess(PROCESS, [], []));
    assert At(w, 2, AwaitingProcess(PROCESS, [], [])).calls ==
      STARTED + [LEAVER.(pc := AwaitingProcess(PROCESS, [], []))];
  }

  /** Leaving a group need not raise a group of exceptions, and need not report a strand that it leaves running. */
  lemma ExitCanAbandonStrands() returns (worlds: seq<World>, actions: seq<Action>)
    ensures FullRun(worlds, actions)
    ensures
      var last := worlds[|actions|];
      && |last.groups| == 1 && last.groups[0].phase == Exited
      && last.groups[0].exitFailure == Some(Bare(StrandOrigin(1), Ordinary))
      && last.groups[0].threads == [Tracked(0, true)]
      && |last.strands| == 2 && last.strands[0].running
  {
    var h := Waiting();
    var calls := STARTED + [LEAVER.(pc := AwaitingProcess(PROCESS, [], []))];
    h := Act(h, World([Lone(Exiting, None)], [BUSY, BUSY], calls), StrandMoves(1, FAILED_STRAND),
             World([Lone(Exiting, None)], [BUSY, FAILED_STRAND], calls));
    h := Act(h, World([Lone(Exiting, None)], [BUSY, FAILED_STRAND], calls), Advance(2, false),
             World([Lone(Exited, Some(ESCAPED))], [BUSY, FAILED_STRAND],
                   STARTED + [LEAVER.(pc := Finished(Threw(ESCAPED), []))]));
    worlds, actions := h.worlds, h.actions;
  }
}
