/** Pieces of runs: how a tree of two groups gets into the states that the exceptional runs start from. */
module GroupScripts {
  import opened Strands
  import opened ConcurrencyGroups
  import opened GroupRuns
  import opened GroupSafety
  import opened GroupTheorems

  /** A run that reaches `world`. */
  datatype History = History(worlds: seq<World>, actions: seq<Action>) {
    ghost predicate Reaches(world: World) {
      FullRun(worlds, actions) && worlds[|actions|] == world && Ok(world)
    }
  }

  lemma Act(h: History, w: World, a: Action, w': World) returns (h': History)
    requires h.Reaches(w) && Enabled(w, a)
    requires var next := Next(w, a);
      next.groups == w'.groups && next.strands == w'.strands && next.calls == w'.calls
    ensures h'.Reaches(w') && h.worlds <= h'.worlds
  {
    NextOk(w, a);
    assert Next(w, a) == w';
    RunGrows(h.worlds, h.actions, a, w');
    h' := History(h.worlds + [w'], h.actions + [a]);
  }

  lemma RunGrows(worlds: seq<World>, actions: seq<Action>, a: Action, w: World)
    requires FullRun(worlds, actions) && Ok(worlds[|actions|]) && Enabled(worlds[|actions|], a)
    requires w == Next(worlds[|actions|], a)
    ensures FullRun(worlds + [w], actions + [a])
  {
    var longer, more := worlds + [w], actions + [a];
    forall i: nat | i < |more|
      ensures Takes(longer[i], more[i], longer[i + 1])
    {
      if i < |actions| {
        assert longer[i] == worlds[i] && more[i] == actions[i] && longer[i + 1] == worlds[i + 1];
      } else {
        assert longer[i] == worlds[i] && more[i] == a && longer[i + 1] == w;
      }
    }
  }

  predicate Takes(w: World, a: Action, after: World) {
    Ok(w) && Enabled(w, a) && after == Next(w, a)
  }

  function At(w: World, c: nat, pc: Pc): World
    requires c < |w.calls|
  {
    w.(calls := w.calls[c := w.calls[c].(pc := pc)])
  }

  /** Call `c` of `w` goes from one program counter to the next; nothing else changes. */
  lemma Turn(h: History, w: World, c: nat, before: Pc, after: Pc) returns (h': History)
    requires c < |w.calls| && h.Reaches(At(w, c, before)) && !before.Finished?
    requires CallOk(At(w, c, before), At(w, c, before).calls[c])
    requires EffectOf(At(w, c, before), At(w, c, before).calls[c], false) == Moves(after)
    ensures h'.Reaches(At(w, c, after)) && h.worlds <= h'.worlds
  {
    assert At(At(w, c, before), c, after).calls == At(w, c, after).calls;
    h' := Act(h, At(w, c, before), Advance(c, false), At(w, c, after));
  }

  /** A start attempt in a root group whose threads are fine gets past reading its strands. */
  lemma Asking(h: History, w: World, purpose: Purpose) returns (h': History)
    requires h.Reaches(w) && 0 < |w.groups| && w.groups[0].processes == []
    requires !purpose.Leave?
    requires |w.groups[0].threads| <= 1 && GroupOk(w, 0)
    requires forall t <- w.groups[0].threads :: !Failing(t, w.strands)
    ensures h'.Reaches(w.(calls := w.calls + [Call(0, purpose, ReadingProcesses([], []))]))
  {
    var c, threads := |w.calls|, w.groups[0].threads;
    var w' := w.(calls := w.calls + [Call(0, purpose, AboutToCheck([]))]);
    h' := Act(h, w, Begin(0, purpose), w');
    assert At(w', c, AboutToCheck([])) == w';
    h' := Turn(h', w', c, AboutToCheck([]), ReadingThreads(threads, [], []));
    if threads != [] {
      assert threads[1..] == [] && threads[0] in threads;
      h' := Turn(h', w', c, ReadingThreads(threads, [], []), ReadingThreads([], [], []));
    }
    h' := Turn(h', w', c, ReadingThreads([], [], []), ReadingProcesses([], []));
    assert At(w', c, ReadingProcesses([], [])).calls == w.calls + [Call(0, purpose, ReadingProcesses([], []))];
  }

  /** ... and runs through to registration. */
  lemma Begun(h: History, w: World, purpose: Purpose) returns (h': History)
    requires h.Reaches(w) && 0 < |w.groups| && w.groups[0].parent.None? && w.groups[0].processes == []
    requires !purpose.Leave?
    requires |w.groups[0].threads| <= 1 && GroupOk(w, 0)
    requires forall t <- w.groups[0].threads :: !Failing(t, w.strands)
    ensures h'.Reaches(w.(calls := w.calls + [Call(0, purpose, Registering)]))
  {
    var c := |w.calls|;
    h' := Asking(h, w, purpose);
    var w' := w.(calls := w.calls + [Call(0, purpose, ReadingProcesses([], []))]);
    assert At(w', c, ReadingProcesses([], [])) == w';
    h' := Turn(h', w', c, ReadingProcesses([], []), Walking(None, []));
    h' := Turn(h', w', c, Walking(None, []), Deciding([]));
    h' := Turn(h', w', c, Deciding([]), Registering);
    assert At(w', c, Registering).calls == w.calls + [Call(0, purpose, Registering)];
  }

  const WATCHED := Tracked(0, true)

  function Root(phase: Phase, children: seq<nat>, exitFailure: Option<Raised>, preExit: Option<Raised>): Group {
    Group(None, phase, [WATCHED], [], children, {WATCHED}, {}, exitFailure, preExit)
  }

  function Child(threads: seq<Tracked>): Group {
    Group(Some(0), Active, threads, [], [], set t <- threads, {}, None, None)
  }

  function Done(purpose: Purpose): Call {
    Call(0, purpose, Finished(Returned, []))
  }

  const NOTICED := Grouped([FromStrand(0)])

  const FAILED_STRAND := Strand(false, Some(Ordinary))

  const SETUP := [Done(StartThread(true)), Done(MakeChild)]

  /** The root starts a thread and makes a child, which is entered; the thread fails. */
  lemma SetUp() returns (h: History)
    ensures h.Reaches(World([Root(Active, [1], None, None), Child([])], [FAILED_STRAND], SETUP))
  {
    assert GroupOk(INITIAL, 0);
    h := History([INITIAL], []);
    var w := World([NEW_GROUP.(phase := Active)], [], []);
    h := Act(h, INITIAL, Enter(0), w);
    h := Begun(h, w, StartThread(true));
    assert w.groups[0].threads + [WATCHED] == [WATCHED] && w.groups[0].everThreads + {WATCHED} == {WATCHED};
    var w1 := World([Root(Active, [], None, None)], [Strand(true, None)], [Done(StartThread(true))]);
    h := Act(h, w.(calls := w.calls + [Call(0, StartThread(true), Registering)]), Advance(0, false), w1);
    h := Begun(h, w1, MakeChild);
    assert Open(w1, []) + [1] == [1];
    var w2 := World([Root(Active, [1], None, None), NEW_GROUP.(parent := Some(0))], [Strand(true, None)], SETUP);
    h := Act(h, w1.(calls := w1.calls + [Call(0, MakeChild, Registering)]), Advance(1, false), w2);
    assert Child([]) == NEW_GROUP.(parent := Some(0), phase := Active);
    var w3 := World([Root(Active, [1], None, None), Child([])], [Strand(true, None)], SETUP);
    h := Act(h, w2, Enter(1), w3);
    h := Act(h, w3, StrandMoves(0, FAILED_STRAND),
             World([Root(Active, [1], None, None), Child([])], [FAILED_STRAND], SETUP));
  }

  lemma ReadRootThreads(h: History, w: World, c: nat) returns (h': History)
    requires c < |w.calls| && w.calls[c].group == 0 && |w.groups| > 0 && w.strands == [FAILED_STRAND]
    requires w.groups[0].threads == [WATCHED] && w.groups[0].processes == []
    requires h.Reaches(At(w, c, AboutToCheck([])))
    ensures h'.Reaches(At(w, c, ReadingProcesses([], [FromStrand(0)]))) && h.worlds <= h'.worlds
  {
    var found: seq<Part> := [FromStrand(0)];
    assert [WATCHED][1..] == [] && [] + found == found;
    h' := Turn(h, w, c, AboutToCheck([]), ReadingThreads([WATCHED], [], []));
    h' := Turn(h', w, c, ReadingThreads([WATCHED], [], []), ReadingThreads([], [], found));
    h' := Turn(h', w, c, ReadingThreads([], [], found), ReadingProcesses([], found));
  }

  /** A call on the root reads its failed thread. */
  lemma CheckedRoot(h: History, w: World, c: nat) returns (h': History)
    requires c < |w.calls| && w.calls[c].group == 0 && |w.groups| > 0 && w.strands == [FAILED_STRAND]
    requires w.groups[0].threads == [WATCHED] && w.groups[0].processes == [] && w.groups[0].parent.None?
    requires h.Reaches(At(w, c, AboutToCheck([])))
    ensures h'.Reaches(At(w, c, Deciding([FromStrand(0)]))) && h.worlds <= h'.worlds
  {
    var found: seq<Part> := [FromStrand(0)];
    h' := ReadRootThreads(h, w, c);
    h' := Turn(h', w, c, ReadingProcesses([], found), Walking(None, found));
    h' := Turn(h', w, c, Walking(None, found), Deciding(found));
  }

  const NOTICER := Call(0, StartThread(true), Finished(Threw(NOTICED), []))

  /** A second start attempt in the root notices the failure. */
  lemma Notice() returns (h: History)
    ensures h.Reaches(World([Root(Active, [1], None, Some(NOTICED)), Child([])], [FAILED_STRAND], SETUP + [NOTICER]))
  {
    h := SetUp();
    var w := World([Root(Active, [1], None, None), Child([])], [FAILED_STRAND], SETUP);
    var w' := w.(calls := SETUP + [NOTICER.(pc := AboutToCheck([]))]);
    var found := [FromStrand(0)];
    h := Act(h, w, Begin(0, StartThread(true)), w');
    assert At(w', 2, AboutToCheck([])).calls == w'.calls;
    h := CheckedRoot(h, w', 2);
    h := Act(h, At(w', 2, Deciding(found)), Advance(2, false),
             World([Root(Active, [1], None, Some(NOTICED)), Child([])], [FAILED_STRAND], SETUP + [NOTICER]));
  }

  // ---------------------------------------------------------------- the root is left

  const LEAVER := Call(0, Leave(None), AboutToWait)

  const RAISED := Grouped([FromStrand(0), ChildStillOpen(1)])

  /** The root, whose thread has failed, is in `phase`. */
  function Family(phase: Phase, child: Group, calls: seq<Call>): World {
    var exitFailure := if phase == Exited then Some(RAISED) else None;
    World([Root(phase, [1], exitFailure, Some(NOTICED)), child], [FAILED_STRAND], calls)
  }

  lemma WaitedForThread(h: History, w: World, c: nat) returns (h': History)
    requires |w.groups| > 0 && c < |w.calls| && w.calls[c].group == 0 && w.calls[c].purpose.Leave?
    requires w.groups[0].threads == [WATCHED] && w.groups[0].processes == [] && w.strands == [FAILED_STRAND]
    requires h.Reaches(At(w, c, AboutToWait))
    ensures h'.Reaches(At(w, c, AboutToCheck([]))) && h.worlds <= h'.worlds
  {
    assert [WATCHED][1..] == [];
    h' := Turn(h, w, c, AboutToWait, TestingProcesses([], []));
    h' := Turn(h', w, c, TestingProcesses([], []), AwaitingThreads([WATCHED], []));
    h' := Turn(h', w, c, AwaitingThreads([WATCHED], []), AwaitingThreads([], []));
    h' := Turn(h', w, c, AwaitingThreads([], []), AboutToCheck([]));
  }

  lemma LookedAtChild(h: History, w: World, c: nat) returns (h': History)
    requires |w.groups| == 2 && c < |w.calls| && w.calls[c].group == 0 && w.calls[c].purpose == Leave(None)
    requires w.groups[0].children == [1] && !Benign(w.groups[1].phase)
    requires h.Reaches(At(w, c, Deciding([FromStrand(0)])))
    ensures h'.Reaches(At(w, c, CheckingChildren([], RAISED.parts, [(1, w.groups[1].phase)])))
    ensures h.worlds <= h'.worlds
  {
    var found: seq<Part> := [FromStrand(0)];
    var phase := w.groups[1].phase;
    assert [1 as nat][1..] == [] && found + [ChildStillOpen(1)] == RAISED.parts;
    assert [] + [(1 as nat, phase)] == [(1, phase)];
    h' := Turn(h, w, c, Deciding(found), CheckingChildren([1], found, []));
    h' := Turn(h', w, c, CheckingChildren([1], found, []), CheckingChildren([], RAISED.parts, [(1, phase)]));
  }

  /** From its entry to its exit's end, with the child still open. */
  lemma RootLeaves(h: History, child: Group, calls: seq<Call>) returns (h': History)
    requires h.Reaches(Family(Active, child, calls)) && !Benign(child.phase)
    ensures h.worlds <= h'.worlds
    ensures h'.Reaches(Family(Exited, child, calls + [LEAVER.(pc := Finished(Threw(RAISED), [(1, child.phase)]))]))
  {
    var c := |calls|;
    var w := Family(Exiting, child, calls + [LEAVER]);
    h' := Act(h, Family(Active, child, calls), Begin(0, Leave(None)), w);
    assert At(w, c, AboutToWait) == w;
    h' := WaitedForThread(h', w, c);
    h' := CheckedRoot(h', w, c);
    h' := LookedAtChild(h', w, c);
    var last := Family(Exited, child, calls + [LEAVER.(pc := Finished(Threw(RAISED), [(1, child.phase)]))]);
    h' := Act(h', At(w, c, CheckingChildren([], RAISED.parts, [(1, child.phase)])), Advance(c, false), last);
  }

  // ---------------------------------------------------------------- a call on the child

  /** A call on a child without strands makes its first read of the root. */
  lemma ChildReadsRoot(h: History, w: World, c: nat) returns (h': History)
    requires |w.groups| == 2 && c < |w.calls| && w.calls[c].group == 1 && w.groups[0].phase != Exited
    requires w.groups[1].threads == [] && w.groups[1].processes == [] && w.groups[1].parent == Some(0)
    requires h.Reaches(At(w, c, AboutToCheck([])))
    ensures h'.Reaches(At(w, c, Rereading(0, []))) && h.worlds <= h'.worlds
  {
    h' := Turn(h, w, c, AboutToCheck([]), ReadingThreads([], [], []));
    h' := Turn(h', w, c, ReadingThreads([], [], []), ReadingProcesses([], []));
    h' := Turn(h', w, c, ReadingProcesses([], []), Walking(Some(0), []));
    h' := Turn(h', w, c, Walking(Some(0), []), Rereading(0, []));
  }

  /** The second read finds the root exited, so that the call has nothing to raise. */
  lemma ChildOverlooksRoot(h: History, w: World, c: nat) returns (h': History)
    requires |w.groups| == 2 && c < |w.calls| && w.calls[c].group == 1
    requires w.groups[0].phase == Exited && w.groups[0].parent.None?
    requires h.Reaches(At(w, c, Rereading(0, [])))
    ensures h'.Reaches(At(w, c, Deciding([]))) && h.worlds <= h'.worlds
  {
    assert GroupOk(At(w, c, Rereading(0, [])), 0);
    h' := Turn(h, w, c, Rereading(0, []), Walking(None, []));
    h' := Turn(h', w, c, Walking(None, []), Deciding([]));
  }

  /** A start attempt in the child begins and makes its first read of the failed root. */
  const ATTEMPT := Call(1, StartThread(true), AboutToCheck([]))

  lemma Attempted() returns (h: History, begun: nat)
    ensures begun < |h.worlds| && h.worlds[begun] == Family(Active, Child([]), SETUP + [NOTICER, ATTEMPT])
    ensures h.Reaches(Family(Active, Child([]), SETUP + [NOTICER, ATTEMPT.(pc := Rereading(0, []))]))
  {
    h := Notice();
    var w := Family(Active, Child([]), SETUP + [NOTICER, ATTEMPT]);
    h := Act(h, Family(Active, Child([]), SETUP + [NOTICER]), Begin(1, StartThread(true)), w);
    begun := |h.worlds| - 1;
    assert At(w, 3, AboutToCheck([])).calls == w.calls;
    h := ChildReadsRoot(h, w, 3);
    assert At(w, 3, Rereading(0, [])).calls == SETUP + [NOTICER, ATTEMPT.(pc := Rereading(0, []))];
  }
}
