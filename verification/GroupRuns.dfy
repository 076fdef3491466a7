/** A tree of concurrency groups under arbitrary interleaving.

    A call in progress (starting a strand, making a child group, leaving a group) is a record whose program
    counter says how far it got.  Each region the source runs under the group's lock is one step; so is each
    unlocked read of another object.  Cleanup may strike at any moment. */
module GroupRuns {
  import opened Strands
  import opened ConcurrencyGroups

  /** `everThreads` and `everProcesses` remember all registrations; nothing reads them. */
  datatype Group = Group(
    parent: Option<nat>,
    phase: Phase,
    threads: seq<Tracked>,
    processes: seq<Tracked>,
    children: seq<nat>,
    everThreads: set<Tracked>,
    everProcesses: set<Tracked>,
    exitFailure: Option<Raised>,
    preExit: Option<Raised>)

  datatype Purpose =
    | StartThread(checked: bool)
    | StartProcess(checked: bool)
    | MakeChild
    | Leave(body: Option<Raised>)

  /** How a call ended.  `Broke` stands for the error of a thread or process that could not be launched. */
  datatype Outcome = Returned | Threw(failure: Raised) | NotActive | Broke

  /** `parts` are the exceptions gathered so far; `seen` the child phases observed. */
  datatype Pc =
    | AboutToWait
    | TestingProcesses(todo: seq<Tracked>, parts: seq<Part>)
    | AwaitingProcess(current: Tracked, todo: seq<Tracked>, parts: seq<Part>)
    | AwaitingThreads(todo: seq<Tracked>, parts: seq<Part>)
    | AboutToCheck(parts: seq<Part>)
    | ReadingThreads(todo: seq<Tracked>, processes: seq<Tracked>, parts: seq<Part>)
    | ReadingProcesses(todo: seq<Tracked>, parts: seq<Part>)
    | Walking(at: Option<nat>, parts: seq<Part>)
    | Rereading(ancestor: nat, parts: seq<Part>)
    | Deciding(parts: seq<Part>)
    | CheckingChildren(remaining: seq<nat>, parts: seq<Part>, seen: seq<(nat, Phase)>)
    | Registering
    | Finished(outcome: Outcome, seen: seq<(nat, Phase)>)

  datatype Call = Call(group: nat, purpose: Purpose, pc: Pc)

  datatype World = World(groups: seq<Group>, strands: seq<Strand>, calls: seq<Call>)

  datatype Action =
    | Enter(group: nat)
    | Cleanup(group: nat)
    | StrandMoves(strand: nat, after: Strand)
    | Begin(group: nat, purpose: Purpose)
    | Advance(call: nat, refused: bool)

  const NEW_GROUP := Group(None, Instantiated, [], [], [], {}, {}, None, None)

  const INITIAL := World([NEW_GROUP], [], [])

  // ---------------------------------------------------------------- well-formed worlds

  predicate KnownIn(tracked: set<Tracked>, strands: seq<Strand>) {
    forall t <- tracked :: t.strand < |strands|
  }

  predicate GroupOk(w: World, i: nat)
    requires i < |w.groups|
  {
    var g := w.groups[i];
    && (g.parent.Some? ==> g.parent.value < i)
    && Known(g.threads, w.strands) && Known(g.processes, w.strands)
    && KnownIn(g.everThreads, w.strands) && KnownIn(g.everProcesses, w.strands)
    && Within(g.children, w)
  }

  predicate Within(children: seq<nat>, w: World) {
    forall i :: 0 <= i < |children| ==> children[i] < |w.groups|
  }

  /** The strands a program counter still has to look at. */
  function Todo(pc: Pc): seq<Tracked> {
    match pc
    case TestingProcesses(todo, _) => todo
    case AwaitingProcess(current, todo, _) => [current] + todo
    case AwaitingThreads(todo, _) => todo
    case ReadingThreads(todo, processes, _) => todo + processes
    case ReadingProcesses(todo, _) => todo
    case _ => []
  }

  function Parts(pc: Pc): seq<Part> {
    match pc
    case AboutToWait | Registering | Finished(_, _) => []
    case _ => pc.parts
  }

  predicate CallOk(w: World, k: Call) {
    && k.group < |w.groups|
    && Known(Todo(k.pc), w.strands)
    && (k.pc.Walking? && k.pc.at.Some? ==> k.pc.at.value < |w.groups|)
    && (k.pc.Rereading? ==> k.pc.ancestor < |w.groups|)
    && (k.pc.CheckingChildren? ==> Within(k.pc.remaining, w))
  }

  predicate Ok(w: World) {
    && (forall i :: 0 <= i < |w.groups| ==> GroupOk(w, i))
    && (forall c :: 0 <= c < |w.calls| ==> CallOk(w, w.calls[c]))
  }

  // ---------------------------------------------------------------- steps of a call

  /** What one step of a call does besides moving its program counter. */
  datatype Effect =
    | Moves(pc: Pc)
    | NotesFailure(parts: seq<Part>, shutDown: bool)
    | EndsExit(raised: Option<Raised>, seen: seq<(nat, Phase)>)
    | Registers

  /** A failure that cannot be grouped breaks out of whatever the call was doing. */
  function Escape(purpose: Purpose, failure: Raised): Effect {
    if purpose.Leave? then EndsExit(Some(failure), []) else Moves(Finished(Threw(failure), []))
  }

  function Found(purpose: Purpose, failure: Raised, parts: seq<Part>): Effect {
    if IsOrdinary(failure) then Moves(Deciding(parts + [FromAncestor(failure)])) else Escape(purpose, failure)
  }

  function SeenFailure(g: Group): Option<Raised> {
    FailureOf(g.phase, g.exitFailure, g.preExit)
  }

  function EffectOf(w: World, k: Call, refused: bool): Effect
    requires Ok(w) && CallOk(w, k) && !k.pc.Finished?
  {
    var g := w.groups[k.group];
    assert GroupOk(w, k.group);
    match k.pc
    case AboutToWait => Moves(TestingProcesses(g.processes, []))
    case TestingProcesses(todo, parts) =>
      if todo == [] then Moves(AwaitingThreads(g.threads, parts))
      else if Running(todo[0], w.strands) then Moves(AwaitingProcess(todo[0], todo[1..], parts))
      else Moves(TestingProcesses(todo[1..], parts))
    case AwaitingProcess(t, todo, parts) =>
      if Running(t, w.strands) then Moves(TestingProcesses(todo, parts + [Unfinished(t.strand)]))
      else if Failing(t, w.strands) then Escape(k.purpose, Bare(StrandOrigin(t.strand), Ordinary))
      else Moves(TestingProcesses(todo, parts))
    case AwaitingThreads(todo, parts) =>
      if todo == [] then Moves(AboutToCheck(parts))
      else if w.strands[todo[0].strand].failure == Some(Fatal) then
        Escape(k.purpose, Bare(StrandOrigin(todo[0].strand), Fatal))
      else
        Moves(AwaitingThreads(todo[1..],
                              if Running(todo[0], w.strands) then parts + [Unfinished(todo[0].strand)] else parts))
    case AboutToCheck(parts) => Moves(ReadingThreads(g.threads, g.processes, parts))
    case ReadingThreads(todo, processes, parts) =>
      if todo == [] then Moves(ReadingProcesses(processes, parts))
      else if !Failing(todo[0], w.strands) then Moves(ReadingThreads(todo[1..], processes, parts))
      else if w.strands[todo[0].strand].failure.value.Fatal? then
        Escape(k.purpose, Bare(StrandOrigin(todo[0].strand), Fatal))
      else Moves(ReadingThreads(todo[1..], processes, parts + [FromStrand(todo[0].strand)]))
    case ReadingProcesses(todo, parts) =>
      if todo == [] then Moves(Walking(g.parent, parts))
      else
        Moves(ReadingProcesses(todo[1..],
                               if Failing(todo[0], w.strands) then parts + [FromStrand(todo[0].strand)] else parts))
    case Walking(at, parts) =>
      if at.None? then Moves(Deciding(parts))
      else
        var a := w.groups[at.value];
        if a.phase == Exited && a.exitFailure.Some? then Found(k.purpose, a.exitFailure.value, parts)
        else Moves(Rereading(at.value, parts))
    case Rereading(ancestor, parts) =>
      var a := w.groups[ancestor];
      if a.phase in {Exiting, Active} && a.preExit.Some? then Found(k.purpose, a.preExit.value, parts)
      else Moves(Walking(a.parent, parts))
    case Deciding(parts) =>
      if k.purpose.Leave? then
        var all := if k.purpose.body.Some? then parts + BodyParts(k.purpose.body.value) else parts;
        Moves(CheckingChildren(g.children, all, []))
      else if parts != [] then NotesFailure(parts, refused)
      else if refused then Moves(Finished(Threw(Grouped([ShuttingDown])), []))
      else Moves(Registering)
    case CheckingChildren(remaining, parts, seen) =>
      if remaining == [] then EndsExit(ExitFailure(parts), seen)
      else
        var child := w.groups[remaining[0]].phase;
        Moves(CheckingChildren(
                remaining[1..],
                if child in {Exited, Instantiated} then parts else parts + [ChildStillOpen(remaining[0])],
                seen + [(remaining[0], child)]))
    case Registering =>
      if g.phase != Active then Moves(Finished(NotActive, []))
      else if refused then Moves(Finished(Broke, []))
      else Registers
  }

  function Open(w: World, children: seq<nat>): seq<nat>
    requires Within(children, w)
  {
    if children == [] then []
    else if w.groups[children[0]].phase == Exited then Open(w, children[1..])
    else [children[0]] + Open(w, children[1..])
  }

  function Registered(w: World, i: nat, purpose: Purpose): World
    requires Ok(w) && i < |w.groups|
  {
    var g := w.groups[i];
    assert GroupOk(w, i);
    match purpose
    case StartThread(checked) =>
      var t := Tracked(|w.strands|, checked);
      w.(strands := w.strands + [Strand(true, None)],
         groups := w.groups[i := g.(threads := g.threads + [t], everThreads := g.everThreads + {t})])
    case StartProcess(checked) =>
      var t := Tracked(|w.strands|, checked);
      w.(strands := w.strands + [Strand(true, None)],
         groups := w.groups[i := g.(processes := g.processes + [t], everProcesses := g.everProcesses + {t})])
    case MakeChild =>
      w.(groups := w.groups[i := g.(children := Open(w, g.children) + [|w.groups|])]
                   + [NEW_GROUP.(parent := Some(i))])
    case Leave(_) => w
  }

  function OutcomeOf(raised: Option<Raised>): Outcome {
    if raised.None? then Returned else Threw(raised.value)
  }

  function After(w: World, c: nat, effect: Effect): World
    requires Ok(w) && c < |w.calls|
  {
    var k := w.calls[c];
    var g := w.groups[k.group];
    match effect
    case Moves(pc) => w.(calls := w.calls[c := k.(pc := pc)])
    case NotesFailure(parts, shutDown) =>
      var raised := if shutDown then parts + [ShuttingDown] else parts;
      w.(groups := w.groups[k.group := g.(preExit := Some(Grouped(parts)))],
         calls := w.calls[c := k.(pc := Finished(Threw(Grouped(raised)), []))])
    case EndsExit(raised, seen) =>
      w.(groups := w.groups[k.group := g.(phase := Exited, exitFailure := raised)],
         calls := w.calls[c := k.(pc := Finished(OutcomeOf(raised), seen))])
    case Registers =>
      Registered(w, k.group, k.purpose).(calls := w.calls[c := k.(pc := Finished(Returned, []))])
  }

  predicate Enabled(w: World, a: Action) {
    match a
    case Enter(i) => i < |w.groups| && w.groups[i].phase == Instantiated
    case Cleanup(i) => i < |w.groups|
    case StrandMoves(s, after) => s < |w.strands| && Ages(w.strands[s], after)
    case Begin(i, purpose) => i < |w.groups| && (purpose.Leave? ==> w.groups[i].phase == Active)
    case Advance(c, _) => c < |w.calls| && !w.calls[c].pc.Finished?
  }

  function Next(w: World, a: Action): World
    requires Ok(w) && Enabled(w, a)
  {
    match a
    case Enter(i) => w.(groups := w.groups[i := w.groups[i].(phase := Active)])
    case Cleanup(i) =>
      var g := w.groups[i];
      assert GroupOk(w, i);
      w.(groups := w.groups[i := g.(threads := Kept(g.threads, w.strands, 0),
                                    processes := Kept(g.processes, w.strands, 0))])
    case StrandMoves(s, after) => w.(strands := w.strands[s := after])
    case Begin(i, purpose) =>
      if purpose.Leave? then
        w.(groups := w.groups[i := w.groups[i].(phase := Exiting)],
           calls := w.calls + [Call(i, purpose, AboutToWait)])
      else
        w.(calls := w.calls + [Call(i, purpose, AboutToCheck([]))])
    case Advance(c, refused) => After(w, c, EffectOf(w, w.calls[c], refused))
  }

  // ---------------------------------------------------------------- failure in a subtree

  predicate Fails(g: Group) {
    SeenFailure(g).Some?
  }

  predicate InTree(w: World, i: Option<nat>) {
    i.Some? ==> i.value < |w.groups|
  }

  /** The group, or one of its ancestors, counts as failed. */
  predicate Doomed(w: World, i: Option<nat>)
    requires Ok(w) && InTree(w, i)
    decreases if i.Some? then i.value + 1 else 0
  {
    i.Some? && (Fails(w.groups[i.value]) || (assert GroupOk(w, i.value); Doomed(w, w.groups[i.value].parent)))
  }

  predicate OnPath(w: World, from: Option<nat>, a: nat)
    requires Ok(w) && InTree(w, from)
    decreases if from.Some? then from.value + 1 else 0
  {
    from.Some? && (from.value == a || (assert GroupOk(w, from.value); OnPath(w, w.groups[from.value].parent, a)))
  }

  predicate OwnFailing(w: World, g: Group)
    requires Known(g.threads, w.strands) && Known(g.processes, w.strands)
  {
    || (exists t <- g.threads :: Failing(t, w.strands))
    || (exists t <- g.processes :: Failing(t, w.strands))
  }

  // ---------------------------------------------------------------- the invariant

  /** Every strand in the list has ended, is still to come, or has been reported as unfinished. */
  predicate Ended(tracked: seq<Tracked>, w: World, todo: seq<Tracked>, parts: seq<Part>)
    requires Known(tracked, w.strands)
  {
    forall t <- tracked :: !Running(t, w.strands) || t in todo || Unfinished(t.strand) in parts
  }

  /** Every failure that the group is answerable for is still to be read or has been reported; an unfinished strand
      may have failed since. */
  predicate Clean(tracked: seq<Tracked>, w: World, todo: seq<Tracked>, parts: seq<Part>)
    requires Known(tracked, w.strands)
  {
    forall t <- tracked ::
      !Failing(t, w.strands) || t in todo || FromStrand(t.strand) in parts || Unfinished(t.strand) in parts
  }

  predicate Benign(phase: Phase) {
    phase in {Exited, Instantiated}
  }

  predicate SeenBenign(child: nat, seen: seq<(nat, Phase)>) {
    exists s <- seen :: s.0 == child && Benign(s.1)
  }

  /** What an exit has established by the time it reaches `pc`. */
  predicate ExitProgress(w: World, g: Group, pc: Pc)
    requires Known(g.threads, w.strands) && Known(g.processes, w.strands)
  {
    match pc
    case AboutToWait => true
    case TestingProcesses(todo, parts) => Ended(g.processes, w, todo, parts)
    case AwaitingProcess(t, todo, parts) => Ended(g.processes, w, [t] + todo, parts)
    case AwaitingThreads(todo, parts) => Ended(g.processes, w, [], parts) && Ended(g.threads, w, todo, parts)
    case AboutToCheck(parts) => Ended(g.processes, w, [], parts) && Ended(g.threads, w, [], parts)
    case ReadingThreads(todo, processes, parts) =>
      && Ended(g.processes, w, [], parts) && Ended(g.threads, w, [], parts)
      && Clean(g.threads, w, todo, parts) && Clean(g.processes, w, processes, parts)
    case ReadingProcesses(todo, parts) =>
      && Ended(g.processes, w, [], parts) && Ended(g.threads, w, [], parts)
      && Clean(g.threads, w, [], parts) && Clean(g.processes, w, todo, parts)
    case Walking(_, parts) => Settled(w, g, parts)
    case Rereading(_, parts) => Settled(w, g, parts)
    case Deciding(parts) => Settled(w, g, parts)
    case CheckingChildren(remaining, parts, seen) =>
      && Settled(w, g, parts)
      && forall c <- g.children :: c in remaining || SeenBenign(c, seen) || ChildStillOpen(c) in parts
    case Registering => false
    case Finished(_, _) => true
  }

  predicate Settled(w: World, g: Group, parts: seq<Part>)
    requires Known(g.threads, w.strands) && Known(g.processes, w.strands)
  {
    && Ended(g.processes, w, [], parts) && Ended(g.threads, w, [], parts)
    && Clean(g.processes, w, [], parts) && Clean(g.threads, w, [], parts)
  }

  /** Registrations are remembered; a strand leaves the list only once it has ended; and while some
      registered strand is failing, a failing one is still in the list. */
  predicate Remembers(tracked: seq<Tracked>, ever: set<Tracked>, strands: seq<Strand>)
    requires Known(tracked, strands) && KnownIn(ever, strands)
  {
    && (forall t <- tracked :: t in ever)
    && (forall t <- ever :: t in tracked || !Running(t, strands))
    && (forall t <- ever :: Failing(t, strands) ==> exists u <- tracked :: Failing(u, strands))
  }

  predicate GroupInv(w: World, i: nat)
    requires Ok(w) && i < |w.groups|
  {
    var g := w.groups[i];
    assert GroupOk(w, i);
    && Remembers(g.threads, g.everThreads, w.strands)
    && Remembers(g.processes, g.everProcesses, w.strands)
    // a noticed failure has a cause that lasts
    && (g.preExit.Some? ==> OwnFailing(w, g) || Doomed(w, g.parent))
    && (g.exitFailure.Some? ==> g.phase == Exited)
    && (g.phase == Exited && g.exitFailure.None? ==> Settled(w, g, []))
    && (g.phase == Exited && g.exitFailure.Some? && g.exitFailure.value.Grouped? ==>
          Settled(w, g, g.exitFailure.value.parts))
  }

  /** A group tracks its children and no others, and forgets none that has not exited. */
  predicate TracksChildren(w: World, i: nat)
    requires Ok(w) && i < |w.groups|
  {
    assert GroupOk(w, i);
    && (forall c <- w.groups[i].children :: w.groups[c].parent == Some(i))
    && forall c :: 0 <= c < |w.groups| && w.groups[c].parent == Some(i) ==>
         c in w.groups[i].children || w.groups[c].phase == Exited
  }

  /** What a call still has to look at was tracked by its group at some time. */
  predicate TodoTracked(pc: Pc, g: Group) {
    match pc
    case TestingProcesses(todo, _) => InEver(todo, g.everProcesses)
    case AwaitingProcess(current, todo, _) => current in g.everProcesses && InEver(todo, g.everProcesses)
    case AwaitingThreads(todo, _) => InEver(todo, g.everThreads)
    case ReadingThreads(todo, processes, _) => InEver(todo, g.everThreads) && InEver(processes, g.everProcesses)
    case ReadingProcesses(todo, _) => InEver(todo, g.everProcesses)
    case _ => true
  }

  predicate InEver(todo: seq<Tracked>, ever: set<Tracked>) {
    forall t <- todo :: t in ever
  }

  predicate ReadsTracked(w: World, k: Call)
    requires Ok(w) && CallOk(w, k)
  {
    TodoTracked(k.pc, w.groups[k.group])
  }

  /** A walk is at an ancestor of the call's group. */
  predicate WalksUp(w: World, k: Call)
    requires Ok(w) && CallOk(w, k)
  {
    assert GroupOk(w, k.group);
    && (k.pc.Walking? && k.pc.at.Some? ==> OnPath(w, w.groups[k.group].parent, k.pc.at.value))
    && (k.pc.Rereading? ==> OnPath(w, w.groups[k.group].parent, k.pc.ancestor))
  }

  predicate LeaveInv(w: World, k: Call)
    requires Ok(w) && CallOk(w, k) && k.purpose.Leave?
  {
    var g := w.groups[k.group];
    assert GroupOk(w, k.group);
    && g.phase == (if k.pc.Finished? then Exited else Exiting)
    && ExitProgress(w, g, k.pc)
    && (k.pc.Finished? ==> k.pc.outcome == OutcomeOf(g.exitFailure))
    && (k.pc.CheckingChildren? ==> ReportsBody(k.pc.parts, k.purpose.body))
    && (k.pc.Finished? ==> AnsweredFor(g, k.purpose.body, k.pc.outcome, k.pc.seen))
  }

  predicate ReportsBody(parts: seq<Part>, body: Option<Raised>) {
    body.Some? ==> parts != [] && HoldsBody(parts, body.value)
  }

  /** What the end of an exit says of the body and of the children it has looked at. */
  predicate AnsweredFor(g: Group, body: Option<Raised>, outcome: Outcome, seen: seq<(nat, Phase)>) {
    match outcome
    case Returned => body.None? && forall c <- g.children :: SeenBenign(c, seen)
    case Threw(Grouped(parts)) =>
      ReportsBody(parts, body) && forall c <- g.children :: SeenBenign(c, seen) || ChildStillOpen(c) in parts
    case _ => true
  }

  /** Only exits wait for strands and look at children. */
  predicate ForExits(pc: Pc) {
    pc.AboutToWait? || pc.TestingProcesses? || pc.AwaitingProcess? || pc.AwaitingThreads? || pc.CheckingChildren?
  }

  predicate StartInv(w: World, k: Call)
    requires Ok(w) && CallOk(w, k)
  {
    var g := w.groups[k.group];
    assert GroupOk(w, k.group);
    && !ForExits(k.pc)
    && (Parts(k.pc) != [] ==> OwnFailing(w, g) || Doomed(w, g.parent))
  }

  predicate CallInv(w: World, k: Call)
    requires Ok(w) && CallOk(w, k)
  {
    && ReadsTracked(w, k)
    && WalksUp(w, k)
    && if k.purpose.Leave? then LeaveInv(w, k) else StartInv(w, k)
  }

  predicate Inv(w: World) {
    && Ok(w)
    && (forall i :: 0 <= i < |w.groups| ==> GroupInv(w, i) && TracksChildren(w, i))
    && (forall c :: 0 <= c < |w.calls| ==> CallInv(w, w.calls[c]))
    && (forall c, d :: 0 <= c < d < |w.calls| && w.calls[c].purpose.Leave? && w.calls[d].purpose.Leave? ==>
          w.calls[c].group != w.calls[d].group)
  }
}
