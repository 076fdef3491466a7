/** What registering, refusing and cleaning up do, that a failing strand refuses every start, and that nothing is raised
    without a cause. */
module GroupCauses {
  import opened Strands
  import opened ConcurrencyGroups
  import opened GroupRuns
  import opened GroupSafety
  import opened GroupInvariant
  import opened GroupTheorems

  // ---------------------------------------------------------------- what registering adds

  /** The group of the call tracks one strand more, which runs; no other group changes. */
  predicate StartsStrand(w: World, w': World, i: nat, checked: bool, isThread: bool)
    requires i < |w.groups|
  {
    var g, t := w.groups[i], Tracked(|w.strands|, checked);
    && w'.strands == w.strands + [Strand(true, None)]
    && |w'.groups| == |w.groups|
    && (forall j :: 0 <= j < |w.groups| && j != i ==> w'.groups[j] == w.groups[j])
    && (if isThread then
          w'.groups[i] == g.(threads := g.threads + [t], everThreads := g.everThreads + {t})
        else
          w'.groups[i] == g.(processes := g.processes + [t], everProcesses := g.everProcesses + {t}))
  }

  /** A new group hangs below the call's, which tracks it; no other group changes. */
  predicate AddsChild(w: World, w': World, i: nat)
    requires i < |w.groups|
  {
    var child := |w.groups|;
    && w'.strands == w.strands && |w'.groups| == child + 1
    && (forall j :: 0 <= j < child && j != i ==> w'.groups[j] == w.groups[j])
    && w'.groups[child] == Group(Some(i), Instantiated, [], [], [], {}, {}, None, None)
    && w'.groups[i] == w.groups[i].(children := w'.groups[i].children)
    && child in w'.groups[i].children
  }

  /** The last step of a start attempt, with everything that it does and does not change. */
  lemma RegisteringDoes(w: World, c: nat, refused: bool)
    requires Ok(w) && c < |w.calls| && w.calls[c].pc.Registering? && !w.calls[c].purpose.Leave?
    ensures w.calls[c].group < |w.groups|
    ensures
      var k, w' := w.calls[c], Next(w, Advance(c, refused));
      if w.groups[k.group].phase == Active && !refused then
        && w'.calls == w.calls[c := k.(pc := Finished(Returned, []))]
        && match k.purpose
           case StartThread(checked) => StartsStrand(w, w', k.group, checked, true)
           case StartProcess(checked) => StartsStrand(w, w', k.group, checked, false)
           case MakeChild => AddsChild(w, w', k.group)
      else
        && w'.groups == w.groups && w'.strands == w.strands
        && w'.calls[c].pc.Finished? && !w'.calls[c].pc.outcome.Returned?
  {
    var k := w.calls[c];
    assert CallOk(w, k) && GroupOk(w, k.group);
    var open := Open(w, w.groups[k.group].children);
    assert (open + [|w.groups|])[|open|] == |w.groups|;
  }

  /** And no other step of a start attempt registers anything: it returns exactly when it has registered. */
  lemma StartReturnsExactlyWhenRegistered(w: World, c: nat, refused: bool)
    requires Inv(w) && Enabled(w, Advance(c, refused)) && !w.calls[c].purpose.Leave?
    ensures
      var w' := Next(w, Advance(c, refused));
      && c < |w'.calls|
      && (w'.calls[c].pc.Finished? && w'.calls[c].pc.outcome.Returned?
          <==> |w'.strands| + |w'.groups| == |w.strands| + |w.groups| + 1)
      && (|w'.strands| + |w'.groups| == |w.strands| + |w.groups| ==> w'.strands == w.strands)
  {
    var k := w.calls[c];
    assert CallOk(w, k) && CallInv(w, k) && GroupOk(w, k.group);
  }

  /** With everything read, a start attempt that found failures notes and raises just these; in a shutdown it raises
      the shutdown besides, which is not noted; otherwise it goes on to register. */
  lemma DecidingDoes(w: World, c: nat, refused: bool)
    requires Ok(w) && c < |w.calls| && w.calls[c].pc.Deciding? && !w.calls[c].purpose.Leave?
    ensures w.calls[c].group < |w.groups|
    ensures
      var k, w' := w.calls[c], Next(w, Advance(c, refused));
      var g, found := w.groups[k.group], k.pc.parts;
      var shutdown := if refused then [ShuttingDown] else [];
      && w'.strands == w.strands
      && w'.groups == (if found == [] then w.groups
                       else w.groups[k.group := g.(preExit := Some(Grouped(found)))])
      && w'.calls == w.calls[c := k.(pc := if found == [] && !refused then Registering
                                           else Finished(Threw(Grouped(found + shutdown)), []))]
  {
    var k := w.calls[c];
    assert CallOk(w, k) && GroupOk(w, k.group);
    assert [] + [ShuttingDown] == [ShuttingDown];
    assert k.pc.parts + [] == k.pc.parts;
  }

  /** What a list looks like after a cleanup: what still runs, and the first eight failures of what has ended. */
  predicate CleanedList(after: seq<Tracked>, before: seq<Tracked>, strands: seq<Strand>)
    requires Known(before, strands)
  {
    && Known(after, strands)
    && StillRunning(after, strands) == StillRunning(before, strands)
    && EndedFailures(after, strands)
       == EndedFailures(before, strands)[..Min(8, |EndedFailures(before, strands)|)]
    && forall t <- after :: Running(t, strands) || Failing(t, strands)
  }

  /** A cleanup changes nothing but the two lists of its group. */
  lemma CleaningDoes(w: World, i: nat)
    requires Ok(w) && i < |w.groups|
    ensures GroupOk(w, i)
    ensures
      var g, w' := w.groups[i], Next(w, Cleanup(i));
      && i < |w'.groups|
      && CleanedList(w'.groups[i].threads, g.threads, w.strands)
      && CleanedList(w'.groups[i].processes, g.processes, w.strands)
      && w' == w.(groups := w.groups[i := g.(threads := w'.groups[i].threads,
                                             processes := w'.groups[i].processes)])
  {
    assert GroupOk(w, i);
    CleanupKeepsFirstFailures(w.groups[i].threads, w.strands, 0);
    CleanupKeepsFirstFailures(w.groups[i].processes, w.strands, 0);
  }

  /** What a lone exception is raised for: a checked process that fails while the exit waits for it, a thread with a
      fatal exception, an ancestor's fatal exception, or a fatal exception of the body. */
  predicate BareCause(w: World, k: Call, failure: Raised)
    requires Ok(w) && CallOk(w, k)
  {
    match k.pc
    case AwaitingProcess(t, _, _) =>
      assert t in Todo(k.pc);
      Failing(t, w.strands) && failure == Bare(StrandOrigin(t.strand), Ordinary)
    case AwaitingThreads(todo, _) => todo != [] && FatalStrand(todo[0], w.strands, failure)
    case ReadingThreads(todo, _, _) =>
      todo != [] && (assert todo[0] in Todo(k.pc); todo[0].checked) && FatalStrand(todo[0], w.strands, failure)
    case Walking(at, _) =>
      at.Some? && w.groups[at.value].phase == Exited && w.groups[at.value].exitFailure == Some(failure)
      && !IsOrdinary(failure)
    case Rereading(x, _) => w.groups[x].preExit == Some(failure) && !IsOrdinary(failure)
    case CheckingChildren(_, parts, _) => FromBody(failure) in parts && !IsOrdinary(failure)
    case _ => false
  }

  predicate FatalStrand(t: Tracked, strands: seq<Strand>, failure: Raised) {
    && t.strand < |strands| && strands[t.strand].failure == Some(Fatal)
    && failure == Bare(StrandOrigin(t.strand), Fatal)
  }

  /** No call raises a lone exception for anything else, nor spells it differently. */
  lemma BareIsRaisedFor(w: World, c: nat, refused: bool)
    requires Ok(w) && Enabled(w, Advance(c, refused))
    requires Next(w, Advance(c, refused)).calls[c].pc.Finished?
    ensures CallOk(w, w.calls[c])
    ensures
      var outcome := Next(w, Advance(c, refused)).calls[c].pc.outcome;
      outcome.Threw? && outcome.failure.Bare? ==> BareCause(w, w.calls[c], outcome.failure)
  {
    var k := w.calls[c];
    assert CallOk(w, k) && GroupOk(w, k.group);
    match k.pc
    case AwaitingProcess(t, _, _) => assert t in Todo(k.pc);
    case ReadingThreads(todo, _, _) =>
      if todo != [] {
        assert todo[0] in Todo(k.pc);
      }
    case _ =>
  }

  // ---------------------------------------------------------------- a failing strand of the group's own

  predicate SomeFailing(todo: seq<Tracked>, w: World)
    requires Known(todo, w.strands)
  {
    exists t <- todo :: Failing(t, w.strands)
  }

  /** The start attempt has read a failure of the group's own strands, or is about to. */
  predicate MeetsFailure(w: World, k: Call)
    requires Ok(w) && CallOk(w, k)
  {
    assert GroupOk(w, k.group);
    match k.pc
    case ReadingThreads(todo, processes, parts) =>
      assert Todo(k.pc) == todo + processes;
      parts != [] || exists t <- Todo(k.pc) :: Failing(t, w.strands)
    case ReadingProcesses(todo, parts) => parts != [] || SomeFailing(todo, w)
    case Walking(_, parts) => parts != []
    case Rereading(_, parts) => parts != []
    case Deciding(parts) => parts != []
    case Finished(outcome, _) => outcome.Threw?
    case AboutToCheck(parts) => OwnFailing(w, w.groups[k.group])
    case _ => false
  }

  lemma MeetingLasts(w: World, a: Action, k: Call)
    requires Inv(w) && Enabled(w, a) && CallOk(w, k) && MeetsFailure(w, k)
    requires Ok(Next(w, a)) && CallOk(Next(w, a), k)
    ensures MeetsFailure(Next(w, a), k)
  {
    var w' := Next(w, a);
    StepMoves(w, a, k.group);
    assert GroupOk(w, k.group) && GroupOk(w', k.group);
    forall t | t in Todo(k.pc) && Failing(t, w.strands)
      ensures Failing(t, w'.strands)
    {
    }
  }

  lemma MeetingAdvances(w: World, k: Call, refused: bool)
    requires Ok(w) && CallOk(w, k) && MeetsFailure(w, k) && !k.pc.Finished? && !k.purpose.Leave?
    ensures
      var effect := EffectOf(w, k, refused);
      && !effect.Registers? && !effect.EndsExit?
      && (effect.Moves? ==> CallOk(w, k.(pc := effect.pc)) && MeetsFailure(w, k.(pc := effect.pc)))
  {
    assert GroupOk(w, k.group);
    match k.pc
    case AboutToCheck(_) =>
      var g := w.groups[k.group];
      assert forall t <- g.threads :: t in g.threads + g.processes;
      assert forall t <- g.processes :: t in g.threads + g.processes;
    case ReadingThreads(todo, processes, _) =>
      if todo != [] {
        assert forall t <- todo + processes :: t == todo[0] || t in todo[1..] + processes;
      } else {
        assert [] + processes == processes;
      }
    case ReadingProcesses(todo, _) =>
      if todo != [] {
        assert forall t <- todo :: t == todo[0] || t in todo[1..];
      }
    case Rereading(x, _) => assert GroupOk(w, x);
    case _ =>
  }

  lemma MeetingContinues(w: World, a: Action, c: nat)
    requires Inv(w) && Enabled(w, a) && c < |w.calls| && CallOk(w, w.calls[c])
    requires !w.calls[c].purpose.Leave? && MeetsFailure(w, w.calls[c])
    ensures Ok(Next(w, a)) && c < |Next(w, a).calls| && CallOk(Next(w, a), Next(w, a).calls[c])
    ensures Next(w, a).calls[c].purpose == w.calls[c].purpose && MeetsFailure(Next(w, a), Next(w, a).calls[c])
  {
    NextOk(w, a);
    CallsKeep(w, a, c);
    var k, w' := w.calls[c], Next(w, a);
    assert CallOk(w', w'.calls[c]);
    if a.Advance? && a.call == c {
      MeetingAdvances(w, k, a.refused);
      var effect := EffectOf(w, k, a.refused);
      if effect.Moves? {
        MeetingLasts(w, a, k.(pc := effect.pc));
      }
    } else {
      MeetingLasts(w, a, k);
    }
  }

  /** A start attempt that begins while the group tracks a failing strand registers nothing and raises. */
  lemma {:induction false} StartAfterFailureIsRefused(
    worlds: seq<World>, actions: seq<Action>, i: nat, j: nat, c: nat)
    requires FullRun(worlds, actions) && i <= j < |worlds| && c < |worlds[i].calls|
    requires Ok(worlds[i]) && CallOk(worlds[i], worlds[i].calls[c])
    requires !worlds[i].calls[c].purpose.Leave? && MeetsFailure(worlds[i], worlds[i].calls[c])
    ensures c < |worlds[j].calls| && !worlds[j].calls[c].pc.Registering?
    ensures worlds[j].calls[c].pc.Finished? ==> worlds[j].calls[c].pc.outcome.Threw?
    decreases j - i
  {
    InvHolds(worlds, actions, i);
    if i < j {
      MeetingContinues(worlds[i], actions[i], c);
      StartAfterFailureIsRefused(worlds, actions, i + 1, j, c);
    }
  }

  // ---------------------------------------------------------------- nothing is raised without a cause

  predicate QuietStrands(tracked: set<Tracked>, strands: seq<Strand>, ended: bool) {
    forall t <- tracked ::
      && t.strand < |strands|
      && !Failing(t, strands) && strands[t.strand].failure != Some(Fatal) && (ended ==> !Running(t, strands))
  }

  /** No strand ever registered has failed and no ancestor has; and for an exit, nothing is running, the body has
      raised nothing and no child is open. */
  predicate NoCause(w: World, k: Call)
    requires Ok(w) && CallOk(w, k)
  {
    var g := w.groups[k.group];
    assert GroupOk(w, k.group);
    && QuietStrands(g.everThreads, w.strands, k.purpose.Leave?)
    && QuietStrands(g.everProcesses, w.strands, k.purpose.Leave?)
    && !Doomed(w, g.parent)
    && (k.purpose.Leave? ==> k.purpose.body.None? && forall c <- g.children :: Benign(w.groups[c].phase))
    && (!k.purpose.Leave? ==> g.phase == Active)
  }

  /** Nothing has been gathered, and nothing has been raised. */
  predicate Unspoilt(pc: Pc) {
    Parts(pc) == [] && !pc.AwaitingProcess? && (pc.Finished? ==> pc.outcome.Returned?)
  }

  /** The children that are still to be looked at belong to the group. */
  predicate LooksAtOwn(w: World, k: Call)
    requires Ok(w) && CallOk(w, k)
  {
    k.pc.CheckingChildren? ==> forall c <- k.pc.remaining :: c in w.groups[k.group].children
  }

  lemma WalkFindsNothing(w: World, k: Call, x: nat)
    requires Ok(w) && CallOk(w, k) && NoCause(w, k) && x < |w.groups|
    requires GroupOk(w, k.group) && OnPath(w, w.groups[k.group].parent, x)
    ensures !Fails(w.groups[x])
  {
    if Fails(w.groups[x]) {
      DoomReachesDown(w, w.groups[k.group].parent, x);
    }
  }

  lemma UnspoiltAdvances(w: World, k: Call)
    requires Ok(w) && CallOk(w, k) && CallInv(w, k) && NoCause(w, k) && Unspoilt(k.pc) && LooksAtOwn(w, k)
    requires !k.pc.Finished?
    ensures
      var effect := EffectOf(w, k, false);
      && !effect.NotesFailure?
      && (effect.EndsExit? ==> effect.raised.None?)
      && (effect.Moves? ==>
            && Unspoilt(effect.pc)
            && CallOk(w, k.(pc := effect.pc)) && LooksAtOwn(w, k.(pc := effect.pc)))
  {
    var g := w.groups[k.group];
    assert GroupOk(w, k.group);
    match k.pc
    case Walking(at, _) =>
      if at.Some? {
        WalkFindsNothing(w, k, at.value);
      }
    case Rereading(x, _) =>
      assert GroupOk(w, x);
      WalkFindsNothing(w, k, x);
    case TestingProcesses(todo, _) =>
      if todo != [] {
        assert todo[0] in g.everProcesses;
      }
    case AwaitingThreads(todo, _) =>
      if todo != [] {
        assert todo[0] in g.everThreads;
      }
    case ReadingThreads(todo, _, _) =>
      if todo != [] {
        assert todo[0] in g.everThreads;
      }
    case ReadingProcesses(todo, _) =>
      if todo != [] {
        assert todo[0] in g.everProcesses;
      }
    case _ =>
  }

  lemma UnspoiltContinues(w: World, a: Action, c: nat)
    requires Inv(w) && Enabled(w, a) && c < |w.calls| && CallOk(w, w.calls[c]) && a != Advance(c, true)
    requires NoCause(w, w.calls[c]) && Unspoilt(w.calls[c].pc) && LooksAtOwn(w, w.calls[c])
    ensures Ok(Next(w, a)) && c < |Next(w, a).calls| && CallOk(Next(w, a), Next(w, a).calls[c])
    ensures Unspoilt(Next(w, a).calls[c].pc) && LooksAtOwn(Next(w, a), Next(w, a).calls[c])
  {
    NextOk(w, a);
    CallsKeep(w, a, c);
    var k, w' := w.calls[c], Next(w, a);
    assert CallOk(w', w'.calls[c]) && CallInv(w, k);
    StepMoves(w, a, k.group);
    if a.Advance? && a.call == c {
      UnspoiltAdvances(w, k);
    }
  }

  /** As long as there is no cause, and nothing else stands against it: no shutdown, no launch that breaks. */
  predicate StaysQuiet(worlds: seq<World>, actions: seq<Action>, i: nat, j: nat, c: nat)
    requires IsRun(worlds, actions) && i <= j < |worlds|
  {
    forall n :: i <= n < j ==>
      && c < |worlds[n].calls| && Ok(worlds[n]) && CallOk(worlds[n], worlds[n].calls[c])
      && NoCause(worlds[n], worlds[n].calls[c]) && actions[n] != Advance(c, true)
  }

  /** A call that finds no cause to raise anything returns: an exit leaves the group clean, a start registers. */
  lemma {:induction false} QuietCallReturns(worlds: seq<World>, actions: seq<Action>, i: nat, j: nat, c: nat)
    requires FullRun(worlds, actions) && i <= j < |worlds| && c < |worlds[i].calls|
    requires Ok(worlds[i]) && CallOk(worlds[i], worlds[i].calls[c])
    requires Unspoilt(worlds[i].calls[c].pc) && LooksAtOwn(worlds[i], worlds[i].calls[c])
    requires StaysQuiet(worlds, actions, i, j, c)
    ensures c < |worlds[j].calls|
    ensures worlds[j].calls[c].pc.Finished? ==> worlds[j].calls[c].pc.outcome.Returned?
    decreases j - i
  {
    if i < j {
      InvHolds(worlds, actions, i);
      UnspoiltContinues(worlds[i], actions[i], c);
      QuietCallReturns(worlds, actions, i + 1, j, c);
    }
  }
}
