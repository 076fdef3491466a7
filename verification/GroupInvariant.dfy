/** The invariant of `GroupRuns` is kept by every step. */
module GroupInvariant {
  import opened Strands
  import opened ConcurrencyGroups
  import opened GroupRuns
  import opened GroupSafety

  // ---------------------------------------------------------------- groups

  lemma MemoryAges(tracked: seq<Tracked>, ever: set<Tracked>, before: seq<Strand>, after: seq<Strand>)
    requires Known(tracked, before) && KnownIn(ever, before) && TableAges(before, after)
    requires Remembers(tracked, ever, before)
    ensures Remembers(tracked, ever, after)
  {
    forall t <- ever | Failing(t, after)
      ensures exists u <- tracked :: Failing(u, after)
    {
      if t !in tracked {
        var u :| u in tracked && Failing(u, before);
        assert Failing(u, after);
      }
    }
  }

  lemma MemoryGrows(tracked: seq<Tracked>, ever: set<Tracked>, strands: seq<Strand>, t: Tracked)
    requires Known(tracked, strands) && KnownIn(ever, strands) && t.strand < |strands|
    requires Remembers(tracked, ever, strands) && !Failing(t, strands)
    ensures Remembers(tracked + [t], ever + {t}, strands)
  {
    assert (tracked + [t])[|tracked|] == t;
    assert forall u <- tracked :: u in tracked + [t];
  }

  lemma UntouchedGroup(w: World, a: Action, i: nat)
    requires Inv(w) && Enabled(w, a) && i < |w.groups|
    requires Next(w, a).groups[i] == w.groups[i]
    ensures Ok(Next(w, a)) && i < |Next(w, a).groups| && GroupInv(Next(w, a), i)
  {
    StepMoves(w, a, i);
    var g, w' := w.groups[i], Next(w, a);
    assert GroupOk(w, i) && GroupInv(w, i) && GroupOk(w', i);
    CauseLasts(w, a, i);
    MemoryAges(g.threads, g.everThreads, w.strands, w'.strands);
    MemoryAges(g.processes, g.everProcesses, w.strands, w'.strands);
  }

  lemma CleanedGroup(w: World, i: nat)
    requires Inv(w) && i < |w.groups|
    ensures Ok(Next(w, Cleanup(i))) && GroupInv(Next(w, Cleanup(i)), i)
  {
    var a := Cleanup(i);
    StepMoves(w, a, i);
    var g, w' := w.groups[i], Next(w, a);
    assert GroupOk(w, i) && GroupInv(w, i) && GroupOk(w', i);
    if g.preExit.Some? && !OwnFailing(w, g) {
      DoomLasts(w, a, g.parent);
    }
    CleanupRemembersFailure(g.threads, w.strands, 0);
    CleanupRemembersFailure(g.processes, w.strands, 0);
    KeptStaysKnown(g.threads, w.strands, 0);
    KeptStaysKnown(g.processes, w.strands, 0);
  }

  /** What caused a failure to be noticed, a strand of the group or a failed ancestor, does not go away. */
  lemma CauseLasts(w: World, a: Action, i: nat)
    requires Inv(w) && Enabled(w, a) && i < |w.groups| && Ok(Next(w, a)) && i < |Next(w, a).groups|
    requires GroupOk(w, i) && GroupOk(Next(w, a), i)
    ensures OwnFailing(w, w.groups[i]) || Doomed(w, w.groups[i].parent) ==>
      OwnFailing(Next(w, a), Next(w, a).groups[i]) || Doomed(Next(w, a), Next(w, a).groups[i].parent)
  {
    StepMoves(w, a, i);
    if Doomed(w, w.groups[i].parent) {
      DoomLasts(w, a, w.groups[i].parent);
    }
  }

  /** A group that only changes its phase, short of leaving. */
  lemma RephasedGroup(w: World, a: Action, i: nat)
    requires Inv(w) && Enabled(w, a) && i < |w.groups|
    requires a == Enter(i) || (a.Begin? && a.group == i && a.purpose.Leave?)
    ensures Ok(Next(w, a)) && GroupInv(Next(w, a), i)
  {
    StepMoves(w, a, i);
    var g, w' := w.groups[i], Next(w, a);
    assert GroupOk(w, i) && GroupInv(w, i) && GroupOk(w', i);
    if g.preExit.Some? && !OwnFailing(w, g) {
      DoomLasts(w, a, g.parent);
    }
  }

  /** A registration adds a running strand to one list, or a child, and changes nothing else of the group. */
  lemma RegisteringMemory(w: World, i: nat, purpose: Purpose)
    requires Inv(w) && i < |w.groups|
    ensures
      var g, w' := w.groups[i], Registered(w, i, purpose);
      && |w'.groups| >= |w.groups| && TableAges(w.strands, w'.strands)
      && Known(w'.groups[i].threads, w'.strands) && KnownIn(w'.groups[i].everThreads, w'.strands)
      && Known(w'.groups[i].processes, w'.strands) && KnownIn(w'.groups[i].everProcesses, w'.strands)
      && Remembers(w'.groups[i].threads, w'.groups[i].everThreads, w'.strands)
      && Remembers(w'.groups[i].processes, w'.groups[i].everProcesses, w'.strands)
      && w'.groups[i].phase == g.phase
      && w'.groups[i].preExit == g.preExit && w'.groups[i].exitFailure == g.exitFailure
  {
    var g, w' := w.groups[i], Registered(w, i, purpose);
    assert GroupOk(w, i) && GroupInv(w, i);
    MemoryAges(g.threads, g.everThreads, w.strands, w'.strands);
    MemoryAges(g.processes, g.everProcesses, w.strands, w'.strands);
    match purpose
    case StartThread(checked) =>
      MemoryGrows(g.threads, g.everThreads, w'.strands, Tracked(|w.strands|, checked));
    case StartProcess(checked) =>
      MemoryGrows(g.processes, g.everProcesses, w'.strands, Tracked(|w.strands|, checked));
    case _ =>
  }

  lemma RegisteringGroup(w: World, c: nat, refused: bool)
    requires Inv(w) && Enabled(w, Advance(c, refused))
    requires EffectOf(w, w.calls[c], refused).Registers?
    ensures Ok(Next(w, Advance(c, refused)))
    ensures w.calls[c].group < |w.groups| && GroupInv(Next(w, Advance(c, refused)), w.calls[c].group)
  {
    var a := Advance(c, refused);
    assert CallOk(w, w.calls[c]);
    var i := w.calls[c].group;
    StepMoves(w, a, i);
    RegisteringMemory(w, i, w.calls[c].purpose);
    assert GroupOk(Next(w, a), i);
    StillActiveGroup(w, a, i);
  }

  lemma StillActiveGroup(w: World, a: Action, i: nat)
    requires Inv(w) && Enabled(w, a) && Ok(Next(w, a)) && i < |w.groups| <= |Next(w, a).groups|
    requires
      var g, g', strands := w.groups[i], Next(w, a).groups[i], Next(w, a).strands;
      && GroupOk(Next(w, a), i)
      && Remembers(g'.threads, g'.everThreads, strands) && Remembers(g'.processes, g'.everProcesses, strands)
      && g.phase == g'.phase == Active && g'.preExit == g.preExit && g'.exitFailure == g.exitFailure
    ensures GroupInv(Next(w, a), i)
  {
    assert GroupOk(w, i) && GroupInv(w, i);
    CauseLasts(w, a, i);
  }

  lemma NoticingGroup(w: World, c: nat, refused: bool)
    requires Inv(w) && Enabled(w, Advance(c, refused))
    requires EffectOf(w, w.calls[c], refused).NotesFailure?
    ensures Ok(Next(w, Advance(c, refused)))
    ensures w.calls[c].group < |w.groups| && GroupInv(Next(w, Advance(c, refused)), w.calls[c].group)
  {
    var a := Advance(c, refused);
    assert CallOk(w, w.calls[c]);
    var i := w.calls[c].group;
    StepMoves(w, a, i);
    var g, w' := w.groups[i], Next(w, a);
    assert GroupOk(w, i) && GroupInv(w, i) && GroupOk(w', i) && CallInv(w, w.calls[c]);
    if Doomed(w, g.parent) {
      DoomLasts(w, a, g.parent);
    }
  }

  /** A group of exceptions that an exit raises settles everything. */
  lemma RaisedSettles(w: World, c: nat, refused: bool)
    requires Inv(w) && Enabled(w, Advance(c, refused))
    ensures
      var effect := EffectOf(w, w.calls[c], refused);
      assert CallOk(w, w.calls[c]) && GroupOk(w, w.calls[c].group);
      effect.EndsExit? && effect.raised.Some? && effect.raised.value.Grouped? ==>
        Settled(w, w.groups[w.calls[c].group], effect.raised.value.parts)
  {
    assert CallOk(w, w.calls[c]) && CallInv(w, w.calls[c]);
  }

  lemma LeavingGroup(w: World, c: nat, refused: bool)
    requires Inv(w) && Enabled(w, Advance(c, refused))
    requires EffectOf(w, w.calls[c], refused).EndsExit?
    ensures Ok(Next(w, Advance(c, refused)))
    ensures w.calls[c].group < |w.groups| && GroupInv(Next(w, Advance(c, refused)), w.calls[c].group)
  {
    var a := Advance(c, refused);
    assert CallOk(w, w.calls[c]);
    var i := w.calls[c].group;
    StepMoves(w, a, i);
    ExitReports(w, c, refused);
    RaisedSettles(w, c, refused);
    CauseLasts(w, a, i);
    assert GroupOk(w, i) && GroupInv(w, i) && GroupOk(Next(w, a), i);
  }

  lemma GroupKept(w: World, a: Action, i: nat)
    requires Inv(w) && Enabled(w, a)
    requires Ok(Next(w, a)) && i < |Next(w, a).groups|
    ensures GroupInv(Next(w, a), i)
  {
    var w' := Next(w, a);
    if i < |w.groups| {
      assert a.Advance? ==> CallOk(w, w.calls[a.call]);
      if w'.groups[i] == w.groups[i] {
        UntouchedGroup(w, a, i);
      } else if a.Cleanup? {
        CleanedGroup(w, i);
      } else if a.Advance? {
        if EffectOf(w, w.calls[a.call], a.refused).Registers? {
          RegisteringGroup(w, a.call, a.refused);
        } else if EffectOf(w, w.calls[a.call], a.refused).NotesFailure? {
          NoticingGroup(w, a.call, a.refused);
        } else {
          LeavingGroup(w, a.call, a.refused);
        }
      } else {
        RephasedGroup(w, a, i);
      }
    } else {
      assert GroupOk(w', i);
    }
  }

  // ---------------------------------------------------------------- children

  /** A step makes at most one group, for a call that makes a child. */
  lemma NewGroupIs(w: World, a: Action, c: nat)
    requires Ok(w) && Enabled(w, a) && |w.groups| <= c < |Next(w, a).groups|
    ensures c == |w.groups| && a.Advance? && CallOk(w, w.calls[a.call])
    ensures EffectOf(w, w.calls[a.call], a.refused).Registers? && w.calls[a.call].purpose.MakeChild?
    ensures Next(w, a).groups[c].parent == Some(w.calls[a.call].group)
    ensures c in Next(w, a).groups[w.calls[a.call].group].children
  {
    assert a.Advance?;
    assert CallOk(w, w.calls[a.call]);
    var i := w.calls[a.call].group;
    var g := w.groups[i];
    assert GroupOk(w, i);
    assert (Open(w, g.children) + [|w.groups|])[|Open(w, g.children)|] == |w.groups|;
  }

  /** A step changes the children of a group only by forgetting some that have exited and adding a new one. */
  lemma ChildrenMove(w: World, a: Action, i: nat)
    requires Inv(w) && Enabled(w, a) && i < |w.groups| && Ok(Next(w, a)) && i < |Next(w, a).groups|
    ensures forall c <- Next(w, a).groups[i].children ::
      c in w.groups[i].children || (c == |w.groups| < |Next(w, a).groups| && Next(w, a).groups[c].parent == Some(i))
    ensures forall c <- w.groups[i].children ::
      c in Next(w, a).groups[i].children || (c < |w.groups| && w.groups[c].phase == Exited)
  {
    assert GroupOk(w, i);
    OpenKeeps(w, w.groups[i].children);
    if a.Advance? {
      assert CallOk(w, w.calls[a.call]);
    }
  }

  lemma ChildrenStayTracked(w: World, a: Action, i: nat)
    requires Inv(w) && Enabled(w, a) && Ok(Next(w, a)) && i < |Next(w, a).groups|
    ensures TracksChildren(Next(w, a), i)
  {
    var w' := Next(w, a);
    NextOk(w, a);
    assert GroupOk(w', i);
    if i < |w.groups| {
      assert GroupOk(w, i) && TracksChildren(w, i);
      ChildrenMove(w, a, i);
      forall c | 0 <= c < |w'.groups| && w'.groups[c].parent == Some(i)
        ensures c in w'.groups[i].children || w'.groups[c].phase == Exited
      {
        if c < |w.groups| {
          StepMoves(w, a, c);
        } else {
          NewGroupIs(w, a, c);
        }
      }
      forall c | c in w'.groups[i].children
        ensures w'.groups[c].parent == Some(i)
      {
        if c in w.groups[i].children {
          StepMoves(w, a, c);
        }
      }
    } else {
      NewGroupHasNone(w, a, i);
    }
  }

  lemma NewGroupHasNone(w: World, a: Action, i: nat)
    requires Inv(w) && Enabled(w, a) && Ok(Next(w, a)) && |w.groups| <= i < |Next(w, a).groups|
    ensures TracksChildren(Next(w, a), i)
  {
    var w' := Next(w, a);
    NewGroupIs(w, a, i);
    assert GroupOk(w', i);
    forall c | 0 <= c < |w'.groups|
      ensures w'.groups[c].parent != Some(i)
    {
      assert GroupOk(w', c);
    }
  }

  // ---------------------------------------------------------------- calls

  lemma ProgressLasts(w: World, w': World, i: nat, pc: Pc)
    requires Ok(w) && Ok(w') && i < |w.groups| && i < |w'.groups|
    requires GroupMoves(w, w', i) && TableAges(w.strands, w'.strands)
    requires w.groups[i].phase == Exiting
    requires GroupOk(w, i) && GroupOk(w', i)
    requires ExitProgress(w, w.groups[i], pc)
    ensures ExitProgress(w', w'.groups[i], pc)
  {
  }

  /** Only the call that is leaving a group can end its exit. */
  lemma ExitIsPrivate(w: World, a: Action, c: nat)
    requires Inv(w) && Enabled(w, a) && c < |w.calls| && Ok(Next(w, a))
    requires Next(w, a).calls[c] == w.calls[c] && w.calls[c].purpose.Leave?
    ensures CallOk(w, w.calls[c]) && w.calls[c].group < |Next(w, a).groups|
    ensures Next(w, a).groups[w.calls[c].group].phase == w.groups[w.calls[c].group].phase
  {
    assert CallOk(w, w.calls[c]) && CallInv(w, w.calls[c]);
    if a.Advance? {
      assert CallOk(w, w.calls[a.call]) && CallInv(w, w.calls[a.call]);
      ExitReports(w, a.call, a.refused);
      if a.call == c {
        assert EffectOf(w, w.calls[c], a.refused).Moves?;
      }
    }
  }

  lemma UntouchedCall(w: World, a: Action, c: nat)
    requires Inv(w) && Enabled(w, a) && c < |w.calls| && Ok(Next(w, a))
    requires c < |Next(w, a).calls| && Next(w, a).calls[c] == w.calls[c]
    ensures CallOk(Next(w, a), w.calls[c]) && CallInv(Next(w, a), w.calls[c])
  {
    var k, w' := w.calls[c], Next(w, a);
    assert CallOk(w, k) && CallInv(w, k) && CallOk(w', w'.calls[c]);
    StepMoves(w, a, k.group);
    var g := w.groups[k.group];
    assert GroupOk(w, k.group) && GroupOk(w', k.group);
    if k.pc.Walking? && k.pc.at.Some? {
      PathLasts(w, a, g.parent, k.pc.at.value);
    }
    if k.pc.Rereading? {
      PathLasts(w, a, g.parent, k.pc.ancestor);
    }
    if k.purpose.Leave? {
      ExitIsPrivate(w, a, c);
      if !k.pc.Finished? {
        ProgressLasts(w, w', k.group, k.pc);
      }
    } else if Doomed(w, g.parent) {
      DoomLasts(w, a, g.parent);
    }
  }

  lemma {:induction false} PathGoesUp(w: World, from: Option<nat>, x: nat)
    requires Ok(w) && InTree(w, from) && OnPath(w, from, x) && x < |w.groups|
    ensures w.groups[x].parent.Some? ==> OnPath(w, from, w.groups[x].parent.value)
    decreases if from.Some? then from.value + 1 else 0
  {
    assert GroupOk(w, from.value) && GroupOk(w, x);
    if from.value != x {
      PathGoesUp(w, w.groups[from.value].parent, x);
    }
  }

  /** Whatever a starting call gathers has a lasting cause. */
  lemma GatheredForCause(w: World, c: nat, refused: bool)
    requires Inv(w) && Enabled(w, Advance(c, refused)) && !w.calls[c].purpose.Leave?
    ensures
      var k := w.calls[c];
      var effect := EffectOf(w, k, refused);
      assert CallOk(w, k) && GroupOk(w, k.group);
      effect.Moves? ==>
        && (Parts(effect.pc) != [] ==> OwnFailing(w, w.groups[k.group]) || Doomed(w, w.groups[k.group].parent))
        && (effect.pc.Walking? && effect.pc.at.Some? ==> OnPath(w, w.groups[k.group].parent, effect.pc.at.value))
        && (effect.pc.Rereading? ==> OnPath(w, w.groups[k.group].parent, effect.pc.ancestor))
  {
    var k := w.calls[c];
    assert CallOk(w, k) && CallInv(w, k);
    var g := w.groups[k.group];
    assert GroupOk(w, k.group) && GroupInv(w, k.group);
    match k.pc
    case Walking(at, parts) =>
      if at.Some? && Fails(w.groups[at.value]) {
        DoomReachesDown(w, g.parent, at.value);
      }
    case Rereading(ancestor, parts) =>
      PathGoesUp(w, g.parent, ancestor);
      if Fails(w.groups[ancestor]) {
        DoomReachesDown(w, g.parent, ancestor);
      }
    case _ =>
  }

  predicate Progresses(w: World, k: Call, effect: Effect)
    requires Ok(w) && CallOk(w, k)
  {
    assert GroupOk(w, k.group);
    && !effect.Registers? && !effect.NotesFailure?
    && (effect.Moves? ==> !effect.pc.Finished? && ExitProgress(w, w.groups[k.group], effect.pc))
  }

  lemma ExitWaits(w: World, k: Call, refused: bool)
    requires Ok(w) && CallOk(w, k) && CallInv(w, k) && k.purpose.Leave?
    requires k.pc.AboutToWait? || k.pc.TestingProcesses? || k.pc.AwaitingProcess? || k.pc.AwaitingThreads?
    ensures Progresses(w, k, EffectOf(w, k, refused))
  {
  }

  lemma ExitReads(w: World, k: Call, refused: bool)
    requires Ok(w) && CallOk(w, k) && CallInv(w, k) && k.purpose.Leave?
    requires k.pc.AboutToCheck? || k.pc.ReadingThreads? || k.pc.ReadingProcesses?
    ensures Progresses(w, k, EffectOf(w, k, refused))
  {
  }

  lemma ExitChecksChildren(w: World, k: Call, refused: bool)
    requires Ok(w) && CallOk(w, k) && CallInv(w, k) && k.purpose.Leave? && k.pc.CheckingChildren?
    ensures Progresses(w, k, EffectOf(w, k, refused))
  {
    assert GroupOk(w, k.group);
    var g, pc := w.groups[k.group], k.pc;
    if pc.remaining != [] {
      var next := EffectOf(w, k, refused).pc;
      forall child <- g.children
        ensures child in next.remaining || SeenBenign(child, next.seen) || ChildStillOpen(child) in next.parts
      {
        if SeenBenign(child, pc.seen) {
          var s :| s in pc.seen && s.0 == child && Benign(s.1);
          assert s in next.seen;
        } else if child == pc.remaining[0] {
          assert next.seen[|pc.seen|] == (child, w.groups[child].phase);
        }
      }
    }
  }

  lemma ExitAdvances(w: World, c: nat, refused: bool)
    requires Inv(w) && Enabled(w, Advance(c, refused)) && w.calls[c].purpose.Leave?
    ensures CallOk(w, w.calls[c]) && Progresses(w, w.calls[c], EffectOf(w, w.calls[c], refused))
  {
    var k := w.calls[c];
    assert CallOk(w, k) && CallInv(w, k);
    match k.pc
    case AboutToWait | TestingProcesses(_, _) | AwaitingProcess(_, _, _) | AwaitingThreads(_, _) =>
      ExitWaits(w, k, refused);
    case AboutToCheck(_) | ReadingThreads(_, _, _) | ReadingProcesses(_, _) =>
      ExitReads(w, k, refused);
    case CheckingChildren(_, _, _) =>
      ExitChecksChildren(w, k, refused);
    case _ =>
  }

  lemma ExitWalks(w: World, c: nat, refused: bool)
    requires Inv(w) && Enabled(w, Advance(c, refused))
    ensures
      var k := w.calls[c];
      var effect := EffectOf(w, k, refused);
      assert CallOk(w, k) && GroupOk(w, k.group);
      effect.Moves? ==>
        && (effect.pc.Walking? && effect.pc.at.Some? ==> OnPath(w, w.groups[k.group].parent, effect.pc.at.value))
        && (effect.pc.Rereading? ==> OnPath(w, w.groups[k.group].parent, effect.pc.ancestor))
  {
    var k := w.calls[c];
    assert CallOk(w, k) && CallInv(w, k) && GroupOk(w, k.group);
    if k.pc.Rereading? {
      PathGoesUp(w, w.groups[k.group].parent, k.pc.ancestor);
    }
  }

  lemma ReadsFollow(w: World, c: nat, refused: bool)
    requires Inv(w) && Enabled(w, Advance(c, refused)) && CallOk(w, w.calls[c])
    requires EffectOf(w, w.calls[c], refused).Moves?
    ensures TodoTracked(EffectOf(w, w.calls[c], refused).pc, w.groups[w.calls[c].group])
  {
    var k := w.calls[c];
    assert CallInv(w, k) && GroupOk(w, k.group) && GroupInv(w, k.group);
    assert ReadsTracked(w, k);
  }

  lemma AdvancedReads(w: World, c: nat, refused: bool)
    requires Inv(w) && Enabled(w, Advance(c, refused)) && Ok(Next(w, Advance(c, refused)))
    ensures CallOk(Next(w, Advance(c, refused)), Next(w, Advance(c, refused)).calls[c])
    ensures ReadsTracked(Next(w, Advance(c, refused)), Next(w, Advance(c, refused)).calls[c])
  {
    var k := w.calls[c];
    assert CallOk(w, k);
    assert CallOk(Next(w, Advance(c, refused)), Next(w, Advance(c, refused)).calls[c]);
    if EffectOf(w, k, refused).Moves? {
      ReadsFollow(w, c, refused);
    }
  }

  lemma AdvancedWalk(w: World, c: nat, refused: bool)
    requires Inv(w) && Enabled(w, Advance(c, refused)) && Ok(Next(w, Advance(c, refused)))
    requires CallOk(Next(w, Advance(c, refused)), Next(w, Advance(c, refused)).calls[c])
    ensures WalksUp(Next(w, Advance(c, refused)), Next(w, Advance(c, refused)).calls[c])
  {
    var a, k := Advance(c, refused), w.calls[c];
    assert CallOk(w, k) && CallInv(w, k);
    assert GroupOk(w, k.group) && GroupOk(Next(w, a), k.group);
    var effect := EffectOf(w, k, refused);
    var parent := w.groups[k.group].parent;
    StepMoves(w, a, k.group);
    if effect.Moves? {
      ExitWalks(w, c, refused);
      if effect.pc.Walking? && effect.pc.at.Some? {
        PathLasts(w, a, parent, effect.pc.at.value);
      }
      if effect.pc.Rereading? {
        PathLasts(w, a, parent, effect.pc.ancestor);
      }
    }
  }

  lemma ExitAnswers(w: World, c: nat, refused: bool)
    requires Inv(w) && Enabled(w, Advance(c, refused)) && w.calls[c].purpose.Leave?
    ensures
      var k := w.calls[c];
      var effect := EffectOf(w, k, refused);
      assert CallOk(w, k);
      && (effect.EndsExit? ==>
            AnsweredFor(w.groups[k.group], k.purpose.body, OutcomeOf(effect.raised), effect.seen))
      && (effect.Moves? && effect.pc.CheckingChildren? ==> ReportsBody(effect.pc.parts, k.purpose.body))
  {
    assert CallOk(w, w.calls[c]) && CallInv(w, w.calls[c]);
  }

  lemma AdvancedLeave(w: World, c: nat, refused: bool)
    requires Inv(w) && Enabled(w, Advance(c, refused)) && Ok(Next(w, Advance(c, refused)))
    requires CallOk(Next(w, Advance(c, refused)), Next(w, Advance(c, refused)).calls[c])
    requires w.calls[c].purpose.Leave?
    ensures LeaveInv(Next(w, Advance(c, refused)), Next(w, Advance(c, refused)).calls[c])
  {
    var a, k := Advance(c, refused), w.calls[c];
    assert CallOk(w, k) && CallInv(w, k);
    assert GroupOk(w, k.group) && GroupOk(Next(w, a), k.group);
    ExitReports(w, c, refused);
    ExitAnswers(w, c, refused);
    StepMoves(w, a, k.group);
    ExitAdvances(w, c, refused);
  }

  lemma EffectStaysStart(w: World, k: Call, refused: bool)
    requires Ok(w) && CallOk(w, k) && !k.pc.Finished? && !k.purpose.Leave? && !ForExits(k.pc)
    ensures EffectOf(w, k, refused).Moves? ==> !ForExits(EffectOf(w, k, refused).pc)
    ensures !EffectOf(w, k, refused).EndsExit?
  {
  }

  /** A call that is not an exit never comes to a step that only exits have. */
  lemma StartStaysStart(w: World, c: nat, refused: bool)
    requires Inv(w) && Enabled(w, Advance(c, refused)) && Ok(Next(w, Advance(c, refused)))
    requires !w.calls[c].purpose.Leave?
    ensures
      var k := Next(w, Advance(c, refused)).calls[c];
      && k.purpose == w.calls[c].purpose && k.group == w.calls[c].group
      && !ForExits(k.pc)
      && (EffectOf(w, w.calls[c], refused).Moves? || Parts(k.pc) == [])
  {
    assert CallOk(w, w.calls[c]) && CallInv(w, w.calls[c]);
    CallsKeep(w, Advance(c, refused), c);
    EffectStaysStart(w, w.calls[c], refused);
  }

  lemma AdvancedStart(w: World, c: nat, refused: bool)
    requires Inv(w) && Enabled(w, Advance(c, refused)) && Ok(Next(w, Advance(c, refused)))
    requires CallOk(Next(w, Advance(c, refused)), Next(w, Advance(c, refused)).calls[c])
    requires !w.calls[c].purpose.Leave?
    ensures StartInv(Next(w, Advance(c, refused)), Next(w, Advance(c, refused)).calls[c])
  {
    var a, k := Advance(c, refused), w.calls[c];
    StartStaysStart(w, c, refused);
    if EffectOf(w, k, refused).Moves? {
      assert GroupOk(w, k.group) && GroupOk(Next(w, a), k.group);
      GatheredForCause(w, c, refused);
      CauseLasts(w, a, k.group);
    }
  }

  lemma AdvancedCall(w: World, c: nat, refused: bool)
    requires Inv(w) && Enabled(w, Advance(c, refused)) && Ok(Next(w, Advance(c, refused)))
    ensures CallInv(Next(w, Advance(c, refused)), Next(w, Advance(c, refused)).calls[c])
  {
    AdvancedReads(w, c, refused);
    AdvancedWalk(w, c, refused);
    if w.calls[c].purpose.Leave? {
      AdvancedLeave(w, c, refused);
    } else {
      AdvancedStart(w, c, refused);
    }
  }

  lemma CallKept(w: World, a: Action, c: nat)
    requires Inv(w) && Enabled(w, a) && Ok(Next(w, a)) && c < |Next(w, a).calls|
    ensures CallInv(Next(w, a), Next(w, a).calls[c])
  {
    if a.Advance? && a.call == c {
      AdvancedCall(w, c, a.refused);
    } else if c < |w.calls| {
      UntouchedCall(w, a, c);
    } else {
      assert GroupOk(w, a.group) && GroupOk(Next(w, a), a.group);
    }
  }

  /** A group is left at most once. */
  lemma LeftOnce(w: World, a: Action, c: nat, d: nat)
    requires Inv(w) && Enabled(w, a) && Ok(Next(w, a)) && c < d < |Next(w, a).calls|
    requires Next(w, a).calls[c].purpose.Leave? && Next(w, a).calls[d].purpose.Leave?
    ensures Next(w, a).calls[c].group != Next(w, a).calls[d].group
  {
    assert c < |w.calls| && CallOk(w, w.calls[c]) && CallInv(w, w.calls[c]);
    CallsKeep(w, a, c);
    if d < |w.calls| {
      CallsKeep(w, a, d);
    }
  }

  lemma StepKeepsInv(w: World, a: Action)
    requires Inv(w) && Enabled(w, a)
    ensures Ok(Next(w, a)) && Inv(Next(w, a))
  {
    NextOk(w, a);
    var w' := Next(w, a);
    forall i | 0 <= i < |w'.groups|
      ensures GroupInv(w', i) && TracksChildren(w', i)
    {
      GroupKept(w, a, i);
      ChildrenStayTracked(w, a, i);
    }
    forall c | 0 <= c < |w'.calls|
      ensures CallInv(w', w'.calls[c])
    {
      CallKept(w, a, c);
    }
    forall c, d | 0 <= c < d < |w'.calls| && w'.calls[c].purpose.Leave? && w'.calls[d].purpose.Leave?
      ensures w'.calls[c].group != w'.calls[d].group
    {
      LeftOnce(w, a, c, d);
    }
  }
}
