/** What a refused start attempt raises: the failure of the closest ancestor that its walk found failed. */
module GroupRefusals {
  import opened Strands
  import opened GroupRuns
  import opened GroupSafety
  import opened GroupTheorems
  import opened GroupCourse

  // ---------------------------------------------------------------- what a walk has seen

  /** Ancestor `x` failed the first test in no world up to `n` in which a first read could have been made. */
  ghost predicate ReadInVain(worlds: seq<World>, i: nat, n: nat, x: nat)
    requires n < |worlds|
  {
    exists m :: i <= m <= n && x < |worlds[m].groups| && !FirstTest(worlds[m].groups[x])
  }

  /** Both reads of `x` were made between worlds `i` and `j`, in this order, and found nothing. */
  ghost predicate Overlooked(worlds: seq<World>, i: nat, j: nat, x: nat)
    requires j < |worlds|
  {
    exists n :: i <= n <= j && x < |worlds[n].groups| && !SecondTest(worlds[n].groups[x]) && ReadInVain(worlds, i, n, x)
  }

  ghost predicate IsAncestor(w: World, g: nat, x: nat)
    requires Ok(w)
  {
    g < |w.groups| && (assert GroupOk(w, g); OnPath(w, w.groups[g].parent, x))
  }

  /** Every ancestor of `g` below `at` has been overlooked, and every one at all if `at` is none. */
  ghost predicate Passed(worlds: seq<World>, i: nat, j: nat, g: nat, at: Option<nat>)
    requires j < |worlds| && Ok(worlds[j])
  {
    forall x: nat :: IsAncestor(worlds[j], g, x) && (at.Some? ==> at.value < x) ==> Overlooked(worlds, i, j, x)
  }

  /** In world `n` the walk reads `failure` off an ancestor after overlooking all that are closer. */
  ghost predicate CaughtAt(worlds: seq<World>, i: nat, n: nat, g: nat, failure: Raised)
    requires n < |worlds| && Ok(worlds[n])
  {
    exists x: nat ::
      && IsAncestor(worlds[n], g, x) && x < |worlds[n].groups|
      && SeenFailure(worlds[n].groups[x]) == Some(failure)
      && Passed(worlds, i, n, g, Some(x))
  }

  ghost predicate Caught(worlds: seq<World>, i: nat, j: nat, g: nat, failure: Raised)
    requires j < |worlds|
  {
    exists n :: i <= n <= j && Ok(worlds[n]) && CaughtAt(worlds, i, n, g, failure)
  }

  ghost predicate AllCaught(worlds: seq<World>, i: nat, j: nat, g: nat, parts: seq<Part>)
    requires j < |worlds|
  {
    forall p <- parts :: p.FromAncestor? ==> Caught(worlds, i, j, g, p.failure)
  }

  /** A thread of the group had a fatal failure, which cannot be grouped. */
  ghost predicate FatalIn(w: World, g: nat, failure: Raised) {
    && g < |w.groups|
    && exists t <- w.groups[g].everThreads ::
         && t.strand < |w.strands| && t.checked && w.strands[t.strand].failure == Some(Fatal)
         && failure == Bare(StrandOrigin(t.strand), Fatal)
  }

  ghost predicate OwnFatal(worlds: seq<World>, i: nat, j: nat, g: nat, failure: Raised)
    requires j < |worlds|
  {
    exists n :: i <= n <= j && FatalIn(worlds[n], g, failure)
  }

  /** The ancestors' failures among `parts` are those of the closest; if there are none, all were overlooked. */
  ghost predicate Accounted(worlds: seq<World>, i: nat, j: nat, g: nat, parts: seq<Part>)
    requires j < |worlds| && Ok(worlds[j])
  {
    && AllCaught(worlds, i, j, g, parts)
    && (!HoldsAncestor(parts) ==> Passed(worlds, i, j, g, None))
  }

  ghost predicate AccountedFor(worlds: seq<World>, i: nat, j: nat, g: nat, outcome: Outcome)
    requires j < |worlds| && Ok(worlds[j])
  {
    if !outcome.Threw? then Passed(worlds, i, j, g, None)
    else if outcome.failure.Grouped? then Accounted(worlds, i, j, g, outcome.failure.parts)
    else OwnFatal(worlds, i, j, g, outcome.failure) || Caught(worlds, i, j, g, outcome.failure)
  }

  /** What is known in world `j` of a start attempt that began in world `i`. */
  ghost predicate Traced(worlds: seq<World>, i: nat, j: nat, k: Call)
    requires j < |worlds| && Ok(worlds[j])
  {
    match k.pc
    case Walking(at, parts) => !HoldsAncestor(parts) && Passed(worlds, i, j, k.group, at)
    case Rereading(x, parts) =>
      !HoldsAncestor(parts) && Passed(worlds, i, j, k.group, Some(x)) && ReadInVain(worlds, i, j, x)
    case Deciding(parts) => Accounted(worlds, i, j, k.group, parts)
    case Registering => Passed(worlds, i, j, k.group, None)
    case Finished(outcome, _) => AccountedFor(worlds, i, j, k.group, outcome)
    case _ => !HoldsAncestor(Parts(k.pc))
  }

  // ---------------------------------------------------------------- time passes

  lemma {:induction false} PathWas(w: World, a: Action, from: Option<nat>, x: nat)
    requires Inv(w) && Enabled(w, a) && InTree(w, from)
    requires Ok(Next(w, a)) && InTree(Next(w, a), from) && OnPath(Next(w, a), from, x)
    ensures OnPath(w, from, x)
    decreases if from.Some? then from.value + 1 else 0
  {
    StepMoves(w, a, from.value);
    if from.value != x {
      assert GroupOk(w, from.value) && GroupOk(Next(w, a), from.value);
      PathWas(w, a, w.groups[from.value].parent, x);
    }
  }

  lemma OverlookedLasts(worlds: seq<World>, i: nat, j: nat, x: nat)
    requires j + 1 < |worlds| && Overlooked(worlds, i, j, x)
    ensures Overlooked(worlds, i, j + 1, x)
  {
  }

  lemma PassedLasts(worlds: seq<World>, actions: seq<Action>, i: nat, j: nat, g: nat, at: Option<nat>)
    requires FullRun(worlds, actions) && j < |actions| && Ok(worlds[j]) && Passed(worlds, i, j, g, at)
    requires g < |worlds[j].groups|
    ensures Ok(worlds[j + 1]) && Passed(worlds, i, j + 1, g, at)
  {
    InvHolds(worlds, actions, j);
    StepMoves(worlds[j], actions[j], g);
    var w' := worlds[j + 1];
    forall x: nat | IsAncestor(w', g, x) && (at.Some? ==> at.value < x)
      ensures Overlooked(worlds, i, j + 1, x)
    {
      assert GroupOk(worlds[j], g) && GroupOk(worlds[j + 1], g);
      PathWas(worlds[j], actions[j], worlds[j].groups[g].parent, x);
      assert IsAncestor(worlds[j], g, x);
      OverlookedLasts(worlds, i, j, x);
    }
  }

  lemma CaughtLasts(worlds: seq<World>, i: nat, j: nat, g: nat, parts: seq<Part>)
    requires j + 1 < |worlds| && AllCaught(worlds, i, j, g, parts)
    ensures AllCaught(worlds, i, j + 1, g, parts)
  {
    forall p <- parts | p.FromAncestor?
      ensures Caught(worlds, i, j + 1, g, p.failure)
    {
      assert Caught(worlds, i, j, g, p.failure);
    }
  }

  lemma AccountLasts(worlds: seq<World>, actions: seq<Action>, i: nat, j: nat, g: nat, parts: seq<Part>)
    requires FullRun(worlds, actions) && j < |actions| && Ok(worlds[j]) && g < |worlds[j].groups|
    requires Accounted(worlds, i, j, g, parts)
    ensures Ok(worlds[j + 1]) && Accounted(worlds, i, j + 1, g, parts)
  {
    InvHolds(worlds, actions, j + 1);
    CaughtLasts(worlds, i, j, g, parts);
    if !HoldsAncestor(parts) {
      PassedLasts(worlds, actions, i, j, g, None);
    }
  }

  lemma TraceLasts(worlds: seq<World>, actions: seq<Action>, i: nat, j: nat, k: Call)
    requires FullRun(worlds, actions) && j < |actions| && Ok(worlds[j]) && k.group < |worlds[j].groups|
    requires Traced(worlds, i, j, k)
    ensures Ok(worlds[j + 1]) && Traced(worlds, i, j + 1, k)
  {
    InvHolds(worlds, actions, j + 1);
    match k.pc
    case Walking(at, parts) => PassedLasts(worlds, actions, i, j, k.group, at);
    case Rereading(x, parts) => PassedLasts(worlds, actions, i, j, k.group, Some(x));
    case Deciding(parts) => AccountLasts(worlds, actions, i, j, k.group, parts);
    case Registering => PassedLasts(worlds, actions, i, j, k.group, None);
    case Finished(outcome, _) =>
      if !outcome.Threw? {
        PassedLasts(worlds, actions, i, j, k.group, None);
      } else if outcome.failure.Grouped? {
        AccountLasts(worlds, actions, i, j, k.group, outcome.failure.parts);
      }
    case _ =>
  }

  // ---------------------------------------------------------------- the attempt's own steps

  lemma {:induction false} PathNests(w: World, from: Option<nat>, x: nat, y: nat)
    requires Ok(w) && InTree(w, from) && OnPath(w, from, x) && OnPath(w, from, y) && y < x && x < |w.groups|
    ensures GroupOk(w, x) && OnPath(w, w.groups[x].parent, y)
    decreases if from.Some? then from.value + 1 else 0
  {
    PathIsAbove(w, from, x);
    assert GroupOk(w, from.value);
    if from.value != x {
      PathNests(w, w.groups[from.value].parent, x, y);
    }
  }

  /** The parent is the first to be visited. */
  lemma NothingIsCloser(worlds: seq<World>, i: nat, j: nat, g: nat)
    requires j < |worlds| && Ok(worlds[j]) && g < |worlds[j].groups|
    ensures Passed(worlds, i, j, g, worlds[j].groups[g].parent)
  {
    var w := worlds[j];
    assert GroupOk(w, g);
    forall x: nat | IsAncestor(w, g, x)
      ensures w.groups[g].parent.Some? && x <= w.groups[g].parent.value
    {
      PathIsAbove(w, w.groups[g].parent, x);
    }
  }

  /** After a second read in vain of `x` its parent is next. */
  lemma WalkGoesOn(worlds: seq<World>, i: nat, j: nat, g: nat, x: nat)
    requires i <= j < |worlds| && Ok(worlds[j]) && IsAncestor(worlds[j], g, x) && x < |worlds[j].groups|
    requires Passed(worlds, i, j, g, Some(x)) && ReadInVain(worlds, i, j, x)
    requires !SecondTest(worlds[j].groups[x])
    ensures Passed(worlds, i, j, g, worlds[j].groups[x].parent)
  {
    var w := worlds[j];
    assert GroupOk(w, g) && GroupOk(w, x);
    forall y: nat | IsAncestor(w, g, y) && (w.groups[x].parent.Some? ==> w.groups[x].parent.value < y)
      ensures Overlooked(worlds, i, j, y)
    {
      if y < x {
        PathNests(w, w.groups[g].parent, x, y);
        PathIsAbove(w, w.groups[x].parent, y);
        assert false;
      }
    }
  }

  lemma FindingIsCatching(worlds: seq<World>, i: nat, j: nat, k: Call, x: nat, failure: Raised, parts: seq<Part>)
    requires i <= j < |worlds| && Ok(worlds[j]) && !k.purpose.Leave?
    requires IsAncestor(worlds[j], k.group, x) && x < |worlds[j].groups|
    requires SeenFailure(worlds[j].groups[x]) == Some(failure) && !HoldsAncestor(parts)
    requires Passed(worlds, i, j, k.group, Some(x))
    ensures Found(k.purpose, failure, parts).Moves?
    ensures Traced(worlds, i, j, k.(pc := Found(k.purpose, failure, parts).pc))
  {
    assert CaughtAt(worlds, i, j, k.group, failure);
    assert Caught(worlds, i, j, k.group, failure);
    var all := parts + [FromAncestor(failure)];
    assert all[|parts|] == FromAncestor(failure);
  }

  /** The steps before the walk. */
  lemma ReadingIsTraced(worlds: seq<World>, i: nat, j: nat, c: nat, refused: bool)
    requires i <= j < |worlds| && Inv(worlds[j]) && Enabled(worlds[j], Advance(c, refused))
    requires !worlds[j].calls[c].purpose.Leave? && Traced(worlds, i, j, worlds[j].calls[c])
    requires var pc := worlds[j].calls[c].pc; pc.AboutToCheck? || pc.ReadingThreads? || pc.ReadingProcesses?
    ensures var effect := EffectOf(worlds[j], worlds[j].calls[c], refused);
      effect.Moves? && Traced(worlds, i, j, worlds[j].calls[c].(pc := effect.pc))
  {
    var w, k := worlds[j], worlds[j].calls[c];
    assert CallOk(w, k) && CallInv(w, k);
    NothingIsCloser(worlds, i, j, k.group);
    if k.pc.ReadingThreads? && k.pc.todo != [] && Failing(k.pc.todo[0], w.strands) {
      var t := k.pc.todo[0];
      if w.strands[t.strand].failure.value.Fatal? {
        assert t in w.groups[k.group].everThreads;
        assert FatalIn(w, k.group, Bare(StrandOrigin(t.strand), Fatal));
      }
    }
  }

  lemma WalkingIsTraced(worlds: seq<World>, i: nat, j: nat, c: nat, refused: bool)
    requires i <= j < |worlds| && Inv(worlds[j]) && Enabled(worlds[j], Advance(c, refused))
    requires !worlds[j].calls[c].purpose.Leave? && Traced(worlds, i, j, worlds[j].calls[c])
    requires worlds[j].calls[c].pc.Walking? || worlds[j].calls[c].pc.Rereading?
    ensures var effect := EffectOf(worlds[j], worlds[j].calls[c], refused);
      effect.Moves? && Traced(worlds, i, j, worlds[j].calls[c].(pc := effect.pc))
  {
    var w, k := worlds[j], worlds[j].calls[c];
    assert CallOk(w, k) && CallInv(w, k);
    match k.pc
    case Walking(at, parts) =>
      if at.Some? {
        assert IsAncestor(w, k.group, at.value);
        if FirstTest(w.groups[at.value]) {
          FindingIsCatching(worlds, i, j, k, at.value, w.groups[at.value].exitFailure.value, parts);
        }
      }
    case Rereading(x, parts) =>
      assert IsAncestor(w, k.group, x);
      if SecondTest(w.groups[x]) {
        FindingIsCatching(worlds, i, j, k, x, w.groups[x].preExit.value, parts);
      } else {
        WalkGoesOn(worlds, i, j, k.group, x);
      }
  }

  lemma DecidingIsTraced(worlds: seq<World>, i: nat, j: nat, c: nat, refused: bool)
    requires i <= j < |worlds| && Inv(worlds[j]) && Enabled(worlds[j], Advance(c, refused))
    requires !worlds[j].calls[c].purpose.Leave? && Traced(worlds, i, j, worlds[j].calls[c])
    requires worlds[j].calls[c].pc.Deciding? || worlds[j].calls[c].pc.Registering?
    ensures c < |Next(worlds[j], Advance(c, refused)).calls|
    ensures Traced(worlds, i, j, Next(worlds[j], Advance(c, refused)).calls[c])
  {
    var k := worlds[j].calls[c];
    assert CallOk(worlds[j], k);
    if k.pc.Deciding? && HoldsAncestor(k.pc.parts) {
      HoldingMore(k.pc.parts, [ShuttingDown]);
    }
  }

  lemma StepIsTraced(worlds: seq<World>, i: nat, j: nat, a: Action, c: nat)
    requires i <= j < |worlds| && Inv(worlds[j]) && Enabled(worlds[j], a) && c < |worlds[j].calls|
    requires !worlds[j].calls[c].purpose.Leave? && Traced(worlds, i, j, worlds[j].calls[c])
    ensures c < |Next(worlds[j], a).calls|
    ensures Traced(worlds, i, j, Next(worlds[j], a).calls[c])
  {
    var w, k := worlds[j], worlds[j].calls[c];
    assert CallOk(w, k) && CallInv(w, k);
    CallsKeep(w, a, c);
    if a.Advance? && a.call == c {
      if k.pc.Walking? || k.pc.Rereading? {
        WalkingIsTraced(worlds, i, j, c, a.refused);
      } else if k.pc.Deciding? || k.pc.Registering? {
        DecidingIsTraced(worlds, i, j, c, a.refused);
      } else {
        ReadingIsTraced(worlds, i, j, c, a.refused);
      }
    }
  }

  lemma AttemptGoesOn(worlds: seq<World>, actions: seq<Action>, i: nat, j: nat, c: nat)
    requires FullRun(worlds, actions) && i <= j < |actions| && Ok(worlds[j]) && c < |worlds[j].calls|
    requires !worlds[j].calls[c].purpose.Leave? && Traced(worlds, i, j, worlds[j].calls[c])
    ensures Ok(worlds[j + 1]) && c < |worlds[j + 1].calls|
    ensures worlds[j + 1].calls[c].purpose == worlds[j].calls[c].purpose
    ensures worlds[j + 1].calls[c].group == worlds[j].calls[c].group
    ensures Traced(worlds, i, j + 1, worlds[j + 1].calls[c])
  {
    var w, a := worlds[j], actions[j];
    InvHolds(worlds, actions, j);
    assert CallOk(w, w.calls[c]);
    CallsKeep(w, a, c);
    StepIsTraced(worlds, i, j, a, c);
    TraceLasts(worlds, actions, i, j, Next(w, a).calls[c]);
  }

  lemma {:induction false} AttemptsAreTraced(worlds: seq<World>, actions: seq<Action>, i: nat, j: nat, c: nat)
    requires FullRun(worlds, actions) && i <= j < |worlds| && c < |worlds[i].calls|
    requires !worlds[i].calls[c].purpose.Leave? && worlds[i].calls[c].pc == AboutToCheck([])
    ensures Ok(worlds[j]) && c < |worlds[j].calls|
    ensures worlds[j].calls[c].purpose == worlds[i].calls[c].purpose
    ensures worlds[j].calls[c].group == worlds[i].calls[c].group
    ensures Traced(worlds, i, j, worlds[j].calls[c])
    decreases j - i
  {
    if i == j {
      InvHolds(worlds, actions, j);
    } else {
      AttemptsAreTraced(worlds, actions, i, j - 1, c);
      AttemptGoesOn(worlds, actions, i, j - 1, c);
    }
  }

  // ---------------------------------------------------------------- the theorems

  /** Whatever way a start attempt ends: an ancestor's failure that it raises is the one read off the closest
      ancestor that failed either test, and if it raises none, its two reads of every ancestor found nothing. */
  lemma RefusalNamesClosestFailure(worlds: seq<World>, actions: seq<Action>, i: nat, j: nat, c: nat)
    requires FullRun(worlds, actions) && i <= j < |worlds| && c < |worlds[i].calls| && c < |worlds[j].calls|
    requires !worlds[i].calls[c].purpose.Leave? && worlds[i].calls[c].pc == AboutToCheck([])
    requires worlds[j].calls[c].pc.Finished?
    ensures Ok(worlds[j]) && AccountedFor(worlds, i, j, worlds[i].calls[c].group, worlds[j].calls[c].pc.outcome)
  {
    AttemptsAreTraced(worlds, actions, i, j, c);
  }

  /** Below a failed ancestor, and unless one slips past it, a start attempt raises the failure of the closest
      ancestor found failed, wrapped in a group, or a fatal failure by itself. */
  lemma StartBelowFailureRaisesIt(worlds: seq<World>, actions: seq<Action>, i: nat, j: nat, c: nat)
    requires FullRun(worlds, actions) && i <= j < |worlds| && c < |worlds[i].calls| && c < |worlds[j].calls|
    requires !worlds[i].calls[c].purpose.Leave? && worlds[i].calls[c].pc == AboutToCheck([])
    requires worlds[i].calls[c].group < |worlds[i].groups| && Ok(worlds[i])
    requires Doomed(worlds[i], (assert GroupOk(worlds[i], worlds[i].calls[c].group);
                                worlds[i].groups[worlds[i].calls[c].group].parent))
    requires KeptCourse(worlds, actions, i, j, c) && worlds[j].calls[c].pc.Finished?
    ensures worlds[j].calls[c].pc.outcome.Threw?
    ensures
      var g, failure := worlds[i].calls[c].group, worlds[j].calls[c].pc.outcome.failure;
      if failure.Grouped? then
        exists f :: FromAncestor(f) in failure.parts && Caught(worlds, i, j, g, f)
      else
        OwnFatal(worlds, i, j, g, failure) || Caught(worlds, i, j, g, failure)
  {
    assert CallOk(worlds[i], worlds[i].calls[c]);
    StartBelowFailureIsRefused(worlds, actions, i, j, c);
    RefusalNamesClosestFailure(worlds, actions, i, j, c);
    var failure := worlds[j].calls[c].pc.outcome.failure;
    if failure.Grouped? {
      var p :| p in failure.parts && p.FromAncestor?;
      assert p == FromAncestor(p.failure);
    }
  }
}
