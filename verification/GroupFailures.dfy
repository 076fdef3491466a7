/** How long a group that counts as failed for its descendants goes on counting as failed. */
module GroupFailures {
  import opened Strands
  import opened ConcurrencyGroups
  import opened GroupRuns
  import opened GroupSafety
  import opened GroupTheorems
  import opened GroupCourse

  predicate Leaves(k: Call, g: nat) {
    k.purpose.Leave? && k.group == g
  }

  // ---------------------------------------------------------------- exactly when the failure is lost

  /** The step ends the exit of `g` and the exit has gathered nothing. */
  predicate CleanlyLeft(w: World, a: Action, g: nat) {
    && a.Advance? && a.call < |w.calls| && Leaves(w.calls[a.call], g)
    && w.calls[a.call].pc.CheckingChildren?
    && w.calls[a.call].pc.remaining == [] && w.calls[a.call].pc.parts == []
  }

  lemma OnlyExitsEnd(w: World, a: Action, g: nat)
    requires Inv(w) && Enabled(w, a) && g < |w.groups| && Ok(Next(w, a)) && g < |Next(w, a).groups|
    requires w.groups[g].phase != Exited && Next(w, a).groups[g].phase == Exited
    ensures a.Advance? && Leaves(w.calls[a.call], g)
    ensures EffectOf(w, w.calls[a.call], a.refused).EndsExit?
    ensures Next(w, a).groups[g].exitFailure == EffectOf(w, w.calls[a.call], a.refused).raised
  {
    if a.Advance? {
      assert CallOk(w, w.calls[a.call]);
      ExitReports(w, a.call, a.refused);
    }
  }

  /** A group stops counting as failed in a step if and only if that step ends its exit and the exit has
      gathered nothing. */
  lemma FailureIsLostExactlyWhen(w: World, a: Action, g: nat)
    requires Inv(w) && Enabled(w, a) && g < |w.groups| && Fails(w.groups[g])
    ensures g < |Next(w, a).groups|
    ensures !Fails(Next(w, a).groups[g]) <==> CleanlyLeft(w, a, g)
  {
    StepMoves(w, a, g);
    if CleanlyLeft(w, a, g) {
      assert CallOk(w, w.calls[a.call]);
    } else if w.groups[g].phase != Exited && Next(w, a).groups[g].phase == Exited {
      OnlyExitsEnd(w, a, g);
      ExitReports(w, a.call, a.refused);
    }
  }

  /** Over a run: the failure is gone if and only if the group has been left without an exception. */
  lemma FailureIsGoneExactlyWhen(worlds: seq<World>, actions: seq<Action>, i: nat, j: nat, g: nat)
    requires FullRun(worlds, actions) && i <= j < |worlds| && g < |worlds[i].groups|
    requires Fails(worlds[i].groups[g])
    ensures g < |worlds[j].groups|
    ensures !Fails(worlds[j].groups[g]) <==>
      worlds[j].groups[g].phase == Exited && worlds[j].groups[g].exitFailure.None?
  {
    InvHolds(worlds, actions, i);
    assert GroupInv(worlds[i], g);
    PhaseOnlyAdvances(worlds, actions, i, j, g);
    if worlds[i].groups[g].phase == Exited {
      ExitedIsFinal(worlds, actions, i, j, g);
    }
  }

  lemma {:induction false} ExitedIsFinal(worlds: seq<World>, actions: seq<Action>, i: nat, j: nat, g: nat)
    requires FullRun(worlds, actions) && i <= j < |worlds| && g < |worlds[i].groups|
    requires worlds[i].groups[g].phase == Exited
    ensures g < |worlds[j].groups| && worlds[j].groups[g].phase == Exited
    ensures worlds[j].groups[g].exitFailure == worlds[i].groups[g].exitFailure
    decreases j - i
  {
    if i < j {
      InvHolds(worlds, actions, i);
      StepMoves(worlds[i], actions[i], g);
      ExitedIsFinal(worlds, actions, i + 1, j, g);
    }
  }

  // ---------------------------------------------------------------- when it lasts

  /** The call will not return normally: it has something to raise, or it is on course to. */
  predicate BoundToFail(w: World, k: Call)
    requires Ok(w) && CallOk(w, k)
  {
    || OnCourse(w, k)
    || Parts(k.pc) != []
    || (k.pc.Finished? && !k.pc.outcome.Returned?)
  }

  lemma GatheredAdvances(w: World, k: Call, refused: bool)
    requires Ok(w) && CallOk(w, k) && !k.pc.Finished? && Parts(k.pc) != []
    ensures
      var effect := EffectOf(w, k, refused);
      && !effect.Registers?
      && (effect.EndsExit? ==> effect.raised.Some?)
      && (effect.Moves? ==>
            Parts(effect.pc) != [] || (effect.pc.Finished? && !effect.pc.outcome.Returned?))
  {
  }

  lemma StaysBound(w: World, a: Action, c: nat)
    requires Inv(w) && Enabled(w, a) && c < |w.calls| && CallOk(w, w.calls[c])
    requires BoundToFail(w, w.calls[c]) && !LosesCourse(w, a, c)
    ensures Ok(Next(w, a)) && c < |Next(w, a).calls| && CallOk(Next(w, a), Next(w, a).calls[c])
    ensures BoundToFail(Next(w, a), Next(w, a).calls[c])
  {
    NextOk(w, a);
    CallsKeep(w, a, c);
    assert CallOk(Next(w, a), Next(w, a).calls[c]);
    if OnCourse(w, w.calls[c]) {
      CourseIsLostExactlyWhen(w, a, c);
    } else if a.Advance? && a.call == c {
      GatheredAdvances(w, w.calls[c], a.refused);
    }
  }

  /** A strand of the group keeps the failure alive, or every exit of the group is bound to fail. */
  predicate Secure(w: World, g: nat)
    requires Ok(w) && g < |w.groups|
  {
    assert GroupOk(w, g);
    || OwnFailing(w, w.groups[g])
    || w.groups[g].phase == Exited
    || forall c :: 0 <= c < |w.calls| && Leaves(w.calls[c], g) ==>
         (assert CallOk(w, w.calls[c]); BoundToFail(w, w.calls[c]))
  }

  /** While a group is active, a failure it has noticed is secure. */
  lemma SecureWhileActive(w: World, g: nat)
    requires Inv(w) && g < |w.groups| && w.groups[g].phase == Active
    ensures Secure(w, g)
  {
    assert GroupOk(w, g);
    forall c | 0 <= c < |w.calls|
      ensures !Leaves(w.calls[c], g)
    {
      assert CallInv(w, w.calls[c]);
    }
  }

  predicate NothingSlips(w: World, a: Action, g: nat)
    requires Ok(w) && Enabled(w, a)
  {
    forall c :: 0 <= c < |w.calls| && Leaves(w.calls[c], g) ==> !LosesCourse(w, a, c)
  }

  /** An exit that begins in a group with a noticed failure is bound to fail unless the group's own strands
      see to that. */
  lemma ExitBeginsBound(w: World, g: nat, purpose: Purpose)
    requires Inv(w) && Enabled(w, Begin(g, purpose)) && purpose.Leave? && Fails(w.groups[g])
    requires Ok(Next(w, Begin(g, purpose))) && GroupOk(w, g) && !OwnFailing(w, w.groups[g])
    ensures CallOk(Next(w, Begin(g, purpose)), Next(w, Begin(g, purpose)).calls[|w.calls|])
    ensures BoundToFail(Next(w, Begin(g, purpose)), Next(w, Begin(g, purpose)).calls[|w.calls|])
  {
    var a := Begin(g, purpose);
    assert GroupInv(w, g) && GroupOk(Next(w, a), g);
    DoomLasts(w, a, w.groups[g].parent);
  }

  lemma ExitsStayBound(w: World, a: Action, g: nat)
    requires Inv(w) && Enabled(w, a) && g < |w.groups| && Fails(w.groups[g]) && NothingSlips(w, a, g)
    requires GroupOk(w, g) && !OwnFailing(w, w.groups[g]) && w.groups[g].phase != Exited && Secure(w, g)
    ensures Ok(Next(w, a))
    ensures forall c :: 0 <= c < |Next(w, a).calls| && Leaves(Next(w, a).calls[c], g) ==>
      CallOk(Next(w, a), Next(w, a).calls[c]) && BoundToFail(Next(w, a), Next(w, a).calls[c])
  {
    NextOk(w, a);
    forall c | 0 <= c < |Next(w, a).calls| && Leaves(Next(w, a).calls[c], g)
      ensures CallOk(Next(w, a), Next(w, a).calls[c]) && BoundToFail(Next(w, a), Next(w, a).calls[c])
    {
      if c < |w.calls| {
        CallsKeep(w, a, c);
        assert CallOk(w, w.calls[c]);
        StaysBound(w, a, c);
      } else {
        ExitBeginsBound(w, g, a.purpose);
      }
    }
  }

  lemma FailureLastsAStep(w: World, a: Action, g: nat)
    requires Inv(w) && Enabled(w, a) && g < |w.groups| && Fails(w.groups[g]) && NothingSlips(w, a, g)
    requires Secure(w, g)
    ensures Ok(Next(w, a)) && g < |Next(w, a).groups|
    ensures Fails(Next(w, a).groups[g]) && Secure(Next(w, a), g)
  {
    StepMoves(w, a, g);
    FailureIsLostExactlyWhen(w, a, g);
    var w' := Next(w, a);
    assert GroupOk(w, g) && GroupOk(w', g);
    if !OwnFailing(w, w.groups[g]) && w.groups[g].phase != Exited {
      ExitsStayBound(w, a, g);
      assert !CleanlyLeft(w, a, g);
    }
  }

  predicate NothingSlipsPast(worlds: seq<World>, actions: seq<Action>, i: nat, j: nat, g: nat)
    requires IsRun(worlds, actions) && i <= j < |worlds|
  {
    forall n :: i <= n < j ==> NothingSlips(worlds[n], actions[n], g)
  }

  /** A group that counts as failed counts as failed in every later world, if a strand of its own keeps the
      failure alive or if nothing slips past the walk of its exit. */
  lemma {:induction false} FailureIsMonotone(worlds: seq<World>, actions: seq<Action>, i: nat, j: nat, g: nat)
    requires FullRun(worlds, actions) && i <= j < |worlds| && g < |worlds[i].groups|
    requires Ok(worlds[i]) && Fails(worlds[i].groups[g]) && Secure(worlds[i], g)
    requires
      || (assert GroupOk(worlds[i], g); OwnFailing(worlds[i], worlds[i].groups[g]))
      || NothingSlipsPast(worlds, actions, i, j, g)
    ensures g < |worlds[j].groups| && Fails(worlds[j].groups[g])
    decreases j - i
  {
    if i < j {
      InvHolds(worlds, actions, i);
      var w, a := worlds[i], actions[i];
      assert GroupOk(w, g);
      StepMoves(w, a, g);
      if OwnFailing(w, w.groups[g]) {
        FailureIsLostExactlyWhen(w, a, g);
        assert GroupOk(worlds[i + 1], g);
      } else {
        FailureLastsAStep(w, a, g);
      }
      FailureIsMonotone(worlds, actions, i + 1, j, g);
    }
  }

  /** What a group has noticed before it is left makes its exit fail, be it the failure of an ancestor,
      unless an ancestor slips past the walk of that exit. */
  lemma NoticedFailureFailsTheExit(worlds: seq<World>, actions: seq<Action>, i: nat, j: nat, g: nat)
    requires FullRun(worlds, actions) && i <= j < |worlds| && g < |worlds[i].groups|
    requires worlds[i].groups[g].phase == Active && worlds[i].groups[g].preExit.Some?
    requires NothingSlipsPast(worlds, actions, i, j, g)
    ensures g < |worlds[j].groups|
    ensures worlds[j].groups[g].phase == Exited ==> worlds[j].groups[g].exitFailure.Some?
  {
    InvHolds(worlds, actions, i);
    SecureWhileActive(worlds[i], g);
    FailureIsMonotone(worlds, actions, i, j, g);
  }
}
