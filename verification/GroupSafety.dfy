/** What every interleaving of a tree of concurrency groups keeps. */
module GroupSafety {
  import opened Strands
  import opened ConcurrencyGroups
  import opened GroupRuns

  // ---------------------------------------------------------------- small steps

  lemma OpenWithin(w: World, children: seq<nat>)
    requires Within(children, w)
    ensures Within(Open(w, children), w)
  {
    if children != [] {
      OpenWithin(w, children[1..]);
    }
  }

  /** Only children that have exited are forgotten when another is made. */
  lemma {:induction false} OpenKeeps(w: World, children: seq<nat>)
    requires Within(children, w)
    ensures forall c <- Open(w, children) :: c in children
    ensures forall c <- children :: c in Open(w, children) || (c < |w.groups| && w.groups[c].phase == Exited)
  {
    if children != [] {
      OpenKeeps(w, children[1..]);
      assert forall c <- children :: c == children[0] || c in children[1..];
      assert children[0] in children;
    }
  }

  lemma EffectOk(w: World, c: nat, refused: bool)
    requires Ok(w) && c < |w.calls| && !w.calls[c].pc.Finished?
    ensures var effect := EffectOf(w, w.calls[c], refused);
      && (effect.Moves? ==> CallOk(w, w.calls[c].(pc := effect.pc)))
      && (effect.EndsExit? ==> w.calls[c].purpose.Leave?
                               || w.calls[c].pc.CheckingChildren?)
  {
    var k := w.calls[c];
    assert CallOk(w, k) && GroupOk(w, k.group);
    assert k.pc.Rereading? ==> GroupOk(w, k.pc.ancestor);
  }

  lemma RegisteredOk(w: World, i: nat, purpose: Purpose)
    requires Ok(w) && i < |w.groups|
    ensures Ok(Registered(w, i, purpose))
  {
    var w' := Registered(w, i, purpose);
    assert GroupOk(w, i);
    OpenWithin(w, w.groups[i].children);
    forall j | 0 <= j < |w'.groups|
      ensures GroupOk(w', j)
    {
      assert j < |w.groups| ==> GroupOk(w, j);
    }
    forall c | 0 <= c < |w'.calls|
      ensures CallOk(w', w'.calls[c])
    {
      assert CallOk(w, w.calls[c]);
    }
  }

  lemma ActingOk(w: World, c: nat, effect: Effect)
    requires Ok(w) && c < |w.calls| && !effect.Registers?
    requires effect.Moves? ==> CallOk(w, w.calls[c].(pc := effect.pc))
    ensures Ok(After(w, c, effect))
  {
    var w' := After(w, c, effect);
    assert CallOk(w, w.calls[c]);
    forall i | 0 <= i < |w'.groups|
      ensures GroupOk(w', i)
    {
      assert GroupOk(w, i);
    }
    forall d | 0 <= d < |w'.calls|
      ensures CallOk(w', w'.calls[d])
    {
      assert CallOk(w, w.calls[d]);
    }
  }

  /** Replacing one call record keeps a world in order. */
  lemma RecallOk(w: World, c: nat, k: Call)
    requires Ok(w) && c < |w.calls| && CallOk(w, k)
    ensures Ok(w.(calls := w.calls[c := k]))
  {
    var w' := w.(calls := w.calls[c := k]);
    forall i | 0 <= i < |w'.groups|
      ensures GroupOk(w', i)
    {
      assert GroupOk(w, i);
    }
    forall d | 0 <= d < |w'.calls|
      ensures CallOk(w', w'.calls[d])
    {
      assert CallOk(w, w.calls[d]);
    }
  }

  lemma AdvanceOk(w: World, c: nat, refused: bool)
    requires Ok(w) && Enabled(w, Advance(c, refused))
    ensures Ok(Next(w, Advance(c, refused)))
  {
    var k := w.calls[c];
    assert CallOk(w, k);
    EffectOk(w, c, refused);
    var effect := EffectOf(w, k, refused);
    if effect.Registers? {
      RegisteredOk(w, k.group, k.purpose);
      RecallOk(Registered(w, k.group, k.purpose), c, k.(pc := Finished(Returned, [])));
    } else {
      ActingOk(w, c, effect);
    }
  }

  lemma NextOk(w: World, a: Action)
    requires Ok(w) && Enabled(w, a)
    ensures Ok(Next(w, a))
    ensures TableAges(w.strands, Next(w, a).strands)
    ensures |w.groups| <= |Next(w, a).groups| && |w.calls| <= |Next(w, a).calls|
  {
    if a.Advance? {
      AdvanceOk(w, a.call, a.refused);
    } else {
      var w' := Next(w, a);
      if a.Cleanup? {
        assert GroupOk(w, a.group);
        KeptStaysKnown(w.groups[a.group].threads, w.strands, 0);
        KeptStaysKnown(w.groups[a.group].processes, w.strands, 0);
      }
      forall i | 0 <= i < |w'.groups|
        ensures GroupOk(w', i)
      {
        assert GroupOk(w, i);
      }
      forall c | 0 <= c < |w'.calls|
        ensures CallOk(w', w'.calls[c])
      {
        assert c < |w.calls| ==> CallOk(w, w.calls[c]);
      }
    }
  }

  /** A call keeps its group and its purpose, and only its own steps move it. */
  lemma CallsKeep(w: World, a: Action, c: nat)
    requires Ok(w) && Enabled(w, a) && c < |w.calls|
    ensures c < |Next(w, a).calls|
    ensures Next(w, a).calls[c].group == w.calls[c].group && Next(w, a).calls[c].purpose == w.calls[c].purpose
    ensures Next(w, a).calls[c] == w.calls[c] || (a.Advance? && a.call == c)
  {
  }

  function Rank(phase: Phase): nat {
    match phase
    case Instantiated => 0
    case Active => 1
    case Exiting => 2
    case Exited => 3
  }

  predicate Closed(g: Group) {
    g.phase in {Exiting, Exited}
  }

  /** How one group may differ after a step. */
  predicate GroupMoves(w: World, w': World, i: nat)
    requires Ok(w) && Ok(w') && i < |w.groups| && i < |w'.groups|
  {
    var g, g' := w.groups[i], w'.groups[i];
    assert GroupOk(w, i) && GroupOk(w', i);
    && g'.parent == g.parent
    && Rank(g.phase) <= Rank(g'.phase)
    && (g'.phase == g.phase ==> g'.exitFailure == g.exitFailure)
    && (g'.phase == Exited && g.phase != Exited ==> g.phase == Exiting)
    && g.everThreads <= g'.everThreads && g.everProcesses <= g'.everProcesses
    && (Closed(g) ==>
          && g'.everThreads == g.everThreads && g'.everProcesses == g.everProcesses && g'.children == g.children
          && (forall t <- g'.threads :: t in g.threads) && (forall t <- g'.processes :: t in g.processes))
    && (g.preExit.Some? ==> g'.preExit.Some?)
    && (OwnFailing(w, g) ==> OwnFailing(w', g'))
    && (OwnFailing(w, g) && g.phase == Exiting && g'.phase == Exited ==> g'.exitFailure.Some?)
  }

  lemma FailureLasts(w: World, w': World, g: Group)
    requires Known(g.threads, w.strands) && Known(g.processes, w.strands)
    requires TableAges(w.strands, w'.strands)
    ensures OwnFailing(w, g) ==> OwnFailing(w', g)
  {
    forall t <- g.threads + g.processes | Failing(t, w.strands)
      ensures Failing(t, w'.strands)
    {
    }
    if t :| t in g.threads && Failing(t, w.strands) {
      assert t in g.threads + g.processes;
    } else if t :| t in g.processes && Failing(t, w.strands) {
      assert t in g.threads + g.processes;
    }
  }

  lemma CleanupMoves(w: World, i: nat)
    requires Inv(w) && i < |w.groups| && Ok(Next(w, Cleanup(i)))
    ensures GroupMoves(w, Next(w, Cleanup(i)), i)
  {
    var g := w.groups[i];
    assert GroupOk(w, i);
    CleanupRemembersFailure(g.threads, w.strands, 0);
    CleanupRemembersFailure(g.processes, w.strands, 0);
    KeptStaysKnown(g.threads, w.strands, 0);
    KeptStaysKnown(g.processes, w.strands, 0);
  }

  /** An exit that ends in a group with a failure of its own raises something. */
  lemma ExitReports(w: World, c: nat, refused: bool)
    requires Inv(w) && c < |w.calls| && !w.calls[c].pc.Finished?
    ensures
      var k := w.calls[c];
      var effect := EffectOf(w, k, refused);
      assert GroupOk(w, k.group);
      effect.EndsExit? ==>
        && k.purpose.Leave? && w.groups[k.group].phase == Exiting
        && (effect.raised.None? ==>
              && k.pc.CheckingChildren? && k.pc.parts == []
              && Settled(w, w.groups[k.group], [])
              && !OwnFailing(w, w.groups[k.group]) && k.purpose.body.None?
              && forall child <- w.groups[k.group].children :: SeenBenign(child, effect.seen))
  {
    assert CallInv(w, w.calls[c]);
    assert CallOk(w, w.calls[c]);
  }

  lemma RegisteringMoves(w: World, i: nat, purpose: Purpose, j: nat)
    requires Ok(w) && i < |w.groups| && j < |w.groups| && w.groups[i].phase == Active
    requires Ok(Registered(w, i, purpose))
    ensures GroupMoves(w, Registered(w, i, purpose), j)
  {
    var w' := Registered(w, i, purpose);
    assert GroupOk(w, j) && GroupOk(w', j);
    FailureLasts(w, w', w.groups[j]);
    if i == j {
      var g, g' := w.groups[i], w'.groups[i];
      assert forall t <- g.threads :: t in g'.threads;
      assert forall t <- g.processes :: t in g'.processes;
    }
  }

  lemma ActingMoves(w: World, c: nat, effect: Effect, i: nat)
    requires Ok(w) && c < |w.calls| && i < |w.groups| && !effect.Registers?
    requires Ok(After(w, c, effect))
    requires
      var g := w.groups[w.calls[c].group];
      assert CallOk(w, w.calls[c]) && GroupOk(w, w.calls[c].group);
      effect.EndsExit? ==> g.phase == Exiting && (OwnFailing(w, g) ==> effect.raised.Some?)
    ensures GroupMoves(w, After(w, c, effect), i)
  {
    assert GroupOk(w, i) && GroupOk(After(w, c, effect), i);
    assert CallOk(w, w.calls[c]);
  }

  lemma AdvanceMoves(w: World, c: nat, refused: bool, i: nat)
    requires Inv(w) && Enabled(w, Advance(c, refused)) && i < |w.groups|
    requires Ok(Next(w, Advance(c, refused)))
    ensures |w.groups| <= |Next(w, Advance(c, refused)).groups|
    ensures GroupMoves(w, Next(w, Advance(c, refused)), i)
  {
    var k := w.calls[c];
    assert CallOk(w, k);
    var effect := EffectOf(w, k, refused);
    if effect.Registers? {
      RegisteredOk(w, k.group, k.purpose);
      RegisteringMoves(w, k.group, k.purpose, i);
      SameGroupsMove(w, Registered(w, k.group, k.purpose), Next(w, Advance(c, refused)), i);
    } else {
      ExitReports(w, c, refused);
      ActingMoves(w, c, effect, i);
    }
  }

  lemma SameGroupsMove(w: World, w1: World, w2: World, i: nat)
    requires Ok(w) && Ok(w1) && Ok(w2) && i < |w.groups| && i < |w1.groups|
    requires w1.groups == w2.groups && w1.strands == w2.strands
    requires GroupMoves(w, w1, i)
    ensures GroupMoves(w, w2, i)
  {
    assert GroupOk(w, i) && GroupOk(w1, i) && GroupOk(w2, i);
  }

  lemma StepMoves(w: World, a: Action, i: nat)
    requires Inv(w) && Enabled(w, a) && i < |w.groups|
    ensures Ok(Next(w, a)) && |w.groups| <= |Next(w, a).groups|
    ensures TableAges(w.strands, Next(w, a).strands)
    ensures GroupMoves(w, Next(w, a), i)
  {
    NextOk(w, a);
    assert GroupOk(w, i);
    match a
    case Enter(_) =>
    case Cleanup(j) =>
      if i == j {
        CleanupMoves(w, i);
      }
    case StrandMoves(s, after) =>
      FailureLasts(w, Next(w, a), w.groups[i]);
    case Begin(_, _) =>
    case Advance(c, refused) =>
      AdvanceMoves(w, c, refused, i);
  }

  // ---------------------------------------------------------------- doom is for ever

  lemma {:induction false} DoomLasts(w: World, a: Action, i: Option<nat>)
    requires Inv(w) && Enabled(w, a) && InTree(w, i)
    requires Doomed(w, i)
    ensures Ok(Next(w, a)) && InTree(Next(w, a), i) && Doomed(Next(w, a), i)
    decreases if i.Some? then i.value + 1 else 0
  {
    StepMoves(w, a, i.value);
    var g, g' := w.groups[i.value], Next(w, a).groups[i.value];
    assert GroupOk(w, i.value) && GroupInv(w, i.value) && GroupOk(Next(w, a), i.value);
    if Doomed(w, g.parent) {
      DoomLasts(w, a, g.parent);
    } else {
      assert Fails(g);
      if g.phase != Exited {
        assert OwnFailing(w, g);
      }
      assert Fails(g');
    }
  }

  lemma {:induction false} PathLasts(w: World, a: Action, from: Option<nat>, x: nat)
    requires Inv(w) && Enabled(w, a) && InTree(w, from) && OnPath(w, from, x)
    ensures Ok(Next(w, a)) && InTree(Next(w, a), from) && OnPath(Next(w, a), from, x)
    decreases if from.Some? then from.value + 1 else 0
  {
    StepMoves(w, a, from.value);
    if from.value != x {
      assert GroupOk(w, from.value);
      PathLasts(w, a, w.groups[from.value].parent, x);
    }
  }

  lemma {:induction false} DoomReachesDown(w: World, from: Option<nat>, x: nat)
    requires Ok(w) && InTree(w, from) && OnPath(w, from, x) && x < |w.groups|
    requires Doomed(w, Some(x))
    ensures Doomed(w, from)
    decreases if from.Some? then from.value + 1 else 0
  {
    if from.value != x {
      assert GroupOk(w, from.value);
      DoomReachesDown(w, w.groups[from.value].parent, x);
    }
  }
}
