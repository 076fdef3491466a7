/** A call below a failed ancestor: how its walk up the parents finds the failure, and how it can miss it. */
module GroupCourse {
  import opened Strands
  import opened ConcurrencyGroups
  import opened GroupRuns
  import opened GroupSafety
  import opened GroupTheorems

  predicate HoldsAncestor(parts: seq<Part>) {
    exists p <- parts :: p.FromAncestor?
  }

  /** An ancestor's failure is reported, or a failure that cannot be grouped came first. */
  predicate Carries(failure: Raised) {
    failure.Bare? || HoldsAncestor(failure.parts)
  }

  /** The call will raise on account of an ancestor that has failed, unless the ancestor slips past it. */
  predicate OnCourse(w: World, k: Call)
    requires Ok(w) && CallOk(w, k)
  {
    assert GroupOk(w, k.group);
    match k.pc
    case Walking(at, _) => Doomed(w, at)
    case Rereading(x, _) =>
      assert GroupOk(w, x);
      || (Fails(w.groups[x]) && w.groups[x].phase != Exited)
      || Doomed(w, w.groups[x].parent)
    case Deciding(parts) => HoldsAncestor(parts)
    case CheckingChildren(_, parts, _) => HoldsAncestor(parts)
    case Registering => false
    case Finished(outcome, _) => outcome.Threw? && Carries(outcome.failure)
    case _ => Doomed(w, w.groups[k.group].parent)
  }

  /** An ancestor finishes its exit between the two reads a call makes of it. */
  predicate SlipsPast(w: World, a: Action, c: nat)
    requires Ok(w) && Enabled(w, a) && c < |w.calls|
  {
    && w.calls[c].pc.Rereading?
    && w.calls[c].pc.ancestor < |w.groups| && w.calls[c].pc.ancestor < |Next(w, a).groups|
    && w.groups[w.calls[c].pc.ancestor].phase != Exited
    && Next(w, a).groups[w.calls[c].pc.ancestor].phase == Exited
  }

  /** ... and nothing above that ancestor has failed. */
  predicate LosesCourse(w: World, a: Action, c: nat)
    requires Ok(w) && Enabled(w, a) && c < |w.calls|
  {
    && SlipsPast(w, a, c)
    && (NextOk(w, a);
        assert GroupOk(Next(w, a), w.calls[c].pc.ancestor);
        !Doomed(Next(w, a), Next(w, a).groups[w.calls[c].pc.ancestor].parent))
  }

  // ---------------------------------------------------------------- one step

  /** Other steps leave a call on course. */
  lemma CourseLasts(w: World, a: Action, k: Call)
    requires Inv(w) && Enabled(w, a) && CallOk(w, k) && OnCourse(w, k)
    requires Ok(Next(w, a)) && CallOk(Next(w, a), k)
    requires k.pc.Rereading? && w.groups[k.pc.ancestor].phase != Exited ==>
      Next(w, a).groups[k.pc.ancestor].phase != Exited
    ensures OnCourse(Next(w, a), k)
  {
    var w' := Next(w, a);
    assert GroupOk(w, k.group) && GroupOk(w', k.group);
    StepMoves(w, a, k.group);
    match k.pc
    case Walking(at, _) => DoomLasts(w, a, at);
    case Rereading(x, _) =>
      assert GroupOk(w, x) && GroupOk(w', x);
      StepMoves(w, a, x);
      if Doomed(w, w.groups[x].parent) {
        DoomLasts(w, a, w.groups[x].parent);
      }
    case Deciding(_) | CheckingChildren(_, _, _) | Registering | Finished(_, _) =>
    case _ => DoomLasts(w, a, w.groups[k.group].parent);
  }

  lemma HoldingMore(parts: seq<Part>, more: seq<Part>)
    requires HoldsAncestor(parts)
    ensures HoldsAncestor(parts + more)
  {
    var p :| p in parts && p.FromAncestor?;
    assert p in parts + more;
  }

  /** What the call's own step must do to keep it on course. */
  predicate KeepsCourse(w: World, k: Call, effect: Effect)
    requires Ok(w) && CallOk(w, k)
  {
    match effect
    case Moves(pc) => CallOk(w, k.(pc := pc)) && OnCourse(w, k.(pc := pc))
    case NotesFailure(parts, _) => HoldsAncestor(parts)
    case EndsExit(raised, _) => raised.Some? && Carries(raised.value)
    case Registers => false
  }

  lemma FindsFailure(w: World, k: Call, failure: Raised, parts: seq<Part>)
    requires Ok(w) && CallOk(w, k)
    ensures KeepsCourse(w, k, Found(k.purpose, failure, parts))
  {
    assert (parts + [FromAncestor(failure)])[|parts|].FromAncestor?;
  }

  lemma CourseWalks(w: World, k: Call, refused: bool)
    requires Ok(w) && CallOk(w, k) && OnCourse(w, k) && (k.pc.Walking? || k.pc.Rereading?)
    ensures KeepsCourse(w, k, EffectOf(w, k, refused))
  {
    assert GroupOk(w, k.group);
    match k.pc
    case Walking(at, parts) =>
      var a := w.groups[at.value];
      assert GroupOk(w, at.value);
      if FirstTest(a) {
        FindsFailure(w, k, a.exitFailure.value, parts);
      }
    case Rereading(x, parts) =>
      var a := w.groups[x];
      assert GroupOk(w, x);
      if SecondTest(a) {
        FindsFailure(w, k, a.preExit.value, parts);
      }
  }

  /** The call's own step keeps it on course, as far as the groups it can see now. */
  lemma CourseAdvances(w: World, k: Call, refused: bool)
    requires Ok(w) && CallOk(w, k) && OnCourse(w, k) && !k.pc.Finished?
    ensures KeepsCourse(w, k, EffectOf(w, k, refused))
  {
    assert GroupOk(w, k.group);
    match k.pc
    case Walking(_, _) | Rereading(_, _) =>
      CourseWalks(w, k, refused);
    case Deciding(parts) =>
      if k.purpose.Leave? && k.purpose.body.Some? {
        HoldingMore(parts, BodyParts(k.purpose.body.value));
      }
    case CheckingChildren(remaining, parts, _) =>
      if remaining != [] {
        HoldingMore(parts, [ChildStillOpen(remaining[0])]);
      }
    case _ =>
  }

  lemma AdvancesOnCourse(w: World, c: nat, refused: bool)
    requires Inv(w) && Enabled(w, Advance(c, refused)) && CallOk(w, w.calls[c]) && OnCourse(w, w.calls[c])
    requires Ok(Next(w, Advance(c, refused)))
    ensures CallOk(Next(w, Advance(c, refused)), Next(w, Advance(c, refused)).calls[c])
    ensures OnCourse(Next(w, Advance(c, refused)), Next(w, Advance(c, refused)).calls[c])
  {
    var a, k := Advance(c, refused), w.calls[c];
    var w', effect := Next(w, a), EffectOf(w, k, refused);
    assert CallOk(w', w'.calls[c]);
    CourseAdvances(w, k, refused);
    match effect
    case Moves(pc) =>
      assert w'.groups == w.groups;
      CourseLasts(w, a, k.(pc := pc));
    case NotesFailure(parts, _) => HoldingMore(parts, [ShuttingDown]);
    case EndsExit(_, _) =>
  }

  /** A call on course loses it in a step if and only if the ancestor it is reading slips past it and nothing
      above that ancestor has failed. */
  lemma CourseIsLostExactlyWhen(w: World, a: Action, c: nat)
    requires Inv(w) && Enabled(w, a) && c < |w.calls| && CallOk(w, w.calls[c]) && OnCourse(w, w.calls[c])
    ensures Ok(Next(w, a)) && c < |Next(w, a).calls| && CallOk(Next(w, a), Next(w, a).calls[c])
    ensures OnCourse(Next(w, a), Next(w, a).calls[c]) <==> !LosesCourse(w, a, c)
  {
    NextOk(w, a);
    var k, w' := w.calls[c], Next(w, a);
    assert CallOk(w', w'.calls[c]);
    if a.Advance? && a.call == c {
      AdvancesOnCourse(w, c, a.refused);
      OwnStepSlipsPastNothing(w, c, a.refused);
    } else if SlipsPast(w, a, c) {
      assert GroupOk(w', k.pc.ancestor);
    } else {
      CourseLasts(w, a, k);
    }
  }

  lemma OwnStepSlipsPastNothing(w: World, c: nat, refused: bool)
    requires Inv(w) && Enabled(w, Advance(c, refused))
    ensures !SlipsPast(w, Advance(c, refused), c)
  {
    var k := w.calls[c];
    assert CallOk(w, k) && CallInv(w, k);
    ExitReports(w, c, refused);
    if k.pc.Rereading? {
      assert GroupOk(w, k.group);
      PathIsAbove(w, w.groups[k.group].parent, k.pc.ancestor);
    }
  }

  lemma {:induction false} PathIsAbove(w: World, from: Option<nat>, x: nat)
    requires Ok(w) && InTree(w, from) && OnPath(w, from, x)
    ensures from.Some? && x <= from.value
    decreases if from.Some? then from.value + 1 else 0
  {
    if from.value != x {
      assert GroupOk(w, from.value);
      PathIsAbove(w, w.groups[from.value].parent, x);
    }
  }

  // ---------------------------------------------------------------- whole calls

  predicate KeptCourse(worlds: seq<World>, actions: seq<Action>, i: nat, j: nat, c: nat)
    requires IsRun(worlds, actions) && i <= j < |worlds|
  {
    forall n :: i <= n < j ==> c < |worlds[n].calls| ==> !LosesCourse(worlds[n], actions[n], c)
  }

  lemma {:induction false} StaysOnCourse(worlds: seq<World>, actions: seq<Action>, i: nat, j: nat, c: nat)
    requires FullRun(worlds, actions) && i <= j < |worlds| && c < |worlds[i].calls|
    requires Ok(worlds[i]) && CallOk(worlds[i], worlds[i].calls[c]) && OnCourse(worlds[i], worlds[i].calls[c])
    requires KeptCourse(worlds, actions, i, j, c)
    ensures Ok(worlds[j]) && c < |worlds[j].calls| && CallOk(worlds[j], worlds[j].calls[c])
    ensures OnCourse(worlds[j], worlds[j].calls[c])
    decreases j - i
  {
    if i < j {
      InvHolds(worlds, actions, i);
      CourseIsLostExactlyWhen(worlds[i], actions[i], c);
      StaysOnCourse(worlds, actions, i + 1, j, c);
    }
  }

  /** A start attempt that begins below a failed ancestor never registers anything and never returns normally,
      unless an ancestor finished its exit between the attempt's two reads of it and nothing above it failed. */
  lemma StartBelowFailureIsRefused(worlds: seq<World>, actions: seq<Action>, i: nat, j: nat, c: nat)
    requires FullRun(worlds, actions) && i <= j < |worlds| && c < |worlds[i].calls|
    requires Ok(worlds[i]) && CallOk(worlds[i], worlds[i].calls[c])
    requires !worlds[i].calls[c].purpose.Leave? && OnCourse(worlds[i], worlds[i].calls[c])
    requires KeptCourse(worlds, actions, i, j, c)
    ensures c < |worlds[j].calls|
    ensures !worlds[j].calls[c].pc.Registering?
    ensures worlds[j].calls[c].pc.Finished? ==>
      worlds[j].calls[c].pc.outcome.Threw? && Carries(worlds[j].calls[c].pc.outcome.failure)
  {
    StaysOnCourse(worlds, actions, i, j, c);
  }

  /** Likewise an exit that begins below a failed ancestor raises, and what it raises reports an ancestor's failure
      or cannot be grouped; it is what the group's own descendants see from then on. */
  lemma ExitBelowFailureReportsIt(worlds: seq<World>, actions: seq<Action>, i: nat, j: nat, c: nat)
    requires FullRun(worlds, actions) && i <= j < |worlds| && c < |worlds[i].calls|
    requires Ok(worlds[i]) && CallOk(worlds[i], worlds[i].calls[c])
    requires worlds[i].calls[c].purpose.Leave? && OnCourse(worlds[i], worlds[i].calls[c])
    requires KeptCourse(worlds, actions, i, j, c)
    ensures c < |worlds[j].calls| && worlds[j].calls[c].group < |worlds[j].groups|
    ensures worlds[j].calls[c].pc.Finished? ==>
      var outcome := worlds[j].calls[c].pc.outcome;
      && outcome.Threw? && Carries(outcome.failure)
      && SeenFailure(worlds[j].groups[worlds[j].calls[c].group]) == Some(outcome.failure)
  {
    StaysOnCourse(worlds, actions, i, j, c);
    PurposeStays(worlds, actions, i, j, c);
    InvHolds(worlds, actions, j);
    assert CallInv(worlds[j], worlds[j].calls[c]);
  }

  lemma {:induction false} PurposeStays(worlds: seq<World>, actions: seq<Action>, i: nat, j: nat, c: nat)
    requires FullRun(worlds, actions) && i <= j < |worlds| && c < |worlds[i].calls|
    ensures c < |worlds[j].calls| && worlds[j].calls[c].purpose == worlds[i].calls[c].purpose
    decreases j - i
  {
    if i < j {
      CallsKeep(worlds[i], actions[i], c);
      PurposeStays(worlds, actions, i + 1, j, c);
    }
  }
}
