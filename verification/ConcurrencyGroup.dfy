/** One concurrency group, updated in place the way a single caller drives it.  `GroupRuns` takes the same
    specification functions to arbitrary interleavings over a whole tree of groups. */
module ConcurrencyGroups {
  import opened Strands

  datatype Phase = Instantiated | Active | Exiting | Exited

  /** The threads and processes themselves, and a clock that only waiting advances. */
  class StrandTable {
    var strands: seq<Strand>
    var clock: real

    constructor ()
      ensures strands == [] && clock == 0.0
    {
      strands, clock := [], 0.0;
    }

    /** Waits for at most `limit`; meanwhile any strand may fail or end. */
    method Await(limit: real)
      requires limit >= 0.0
      modifies this
      ensures |strands| == |old(strands)| && TableAges(old(strands), strands)
      ensures old(clock) <= clock <= old(clock) + limit
    {
      var elapsed: real := *;
      if elapsed < 0.0 || elapsed > limit {
        elapsed := limit;
      }
      clock := clock + elapsed;
      for i := 0 to |strands|
        invariant |strands| == |old(strands)| && TableAges(old(strands), strands)
        invariant old(clock) <= clock <= old(clock) + limit
        invariant forall k :: i <= k < |strands| ==> strands[k] == old(strands)[k]
      {
        var ends: bool, fails: bool, fatal: bool := *, *, *;
        if strands[i].running {
          var failure := if fails then Some(if fatal then Fatal else Ordinary) else strands[i].failure;
          strands := strands[i := Strand(!ends, failure)];
        }
      }
    }
  }

  /** A strand that is still running has been noted as unfinished. */
  predicate Reported(t: Tracked, parts: seq<Part>, strands: seq<Strand>) {
    t.strand < |strands| && (Running(t, strands) ==> Unfinished(t.strand) in parts)
  }

  predicate AllReported(tracked: seq<Tracked>, n: nat, parts: seq<Part>, strands: seq<Strand>)
    requires n <= |tracked|
  {
    forall k :: 0 <= k < n ==> Reported(tracked[k], parts, strands)
  }

  lemma StillReported(tracked: seq<Tracked>, n: nat, parts: seq<Part>, before: seq<Strand>, after: seq<Strand>)
    requires n <= |tracked| && AllReported(tracked, n, parts, before) && TableAges(before, after)
    ensures AllReported(tracked, n, parts, after)
  {
  }

  lemma ReportedGrows(tracked: seq<Tracked>, n: nat, parts: seq<Part>, p: Part, strands: seq<Strand>)
    requires n <= |tracked| && AllReported(tracked, n, parts, strands)
    ensures AllReported(tracked, n, parts + [p], strands)
  {
  }

  /** The first thread whose join re-raises a fatal exception, checked or not. */
  function FirstFatalJoin(threads: seq<Tracked>, strands: seq<Strand>): Option<Raised>
    requires Known(threads, strands)
  {
    if threads == [] then None
    else if strands[threads[0].strand].failure == Some(Fatal) then Some(Bare(StrandOrigin(threads[0].strand), Fatal))
    else FirstFatalJoin(threads[1..], strands)
  }

  predicate NoFatalBefore(threads: seq<Tracked>, i: nat, strands: seq<Strand>)
    requires Known(threads, strands) && i <= |threads|
  {
    forall k :: 0 <= k < i ==> strands[threads[k].strand].failure != Some(Fatal)
  }

  lemma {:induction false} FirstFatalJoinIs(threads: seq<Tracked>, i: nat, strands: seq<Strand>)
    requires Known(threads, strands) && i <= |threads|
    requires i < |threads| ==> strands[threads[i].strand].failure == Some(Fatal)
    ensures NoFatalBefore(threads, i, strands) ==>
      FirstFatalJoin(threads, strands) ==
        if i < |threads| then Some(Bare(StrandOrigin(threads[i].strand), Fatal)) else None
  {
    if i > 0 && NoFatalBefore(threads, i, strands) {
      assert forall k :: 0 <= k < i - 1 ==> threads[1..][k] == threads[k + 1];
      FirstFatalJoinIs(threads[1..], i - 1, strands);
    }
  }

  lemma {:induction false} FirstFatalJoinExists(threads: seq<Tracked>, strands: seq<Strand>)
    requires Known(threads, strands)
    ensures FirstFatalJoin(threads, strands).Some? <==>
      exists t <- threads :: strands[t.strand].failure == Some(Fatal)
  {
    if threads != [] {
      FirstFatalJoinExists(threads[1..], strands);
      assert forall u <- threads :: u == threads[0] || u in threads[1..];
      assert threads[0] in threads;
    }
  }

  function Larger(a: real, b: real): real {
    if a >= b then a else b
  }

  /** What a group's failure looks like to its descendants, if the group counts as failed. */
  function FailureOf(phase: Phase, exitFailure: Option<Raised>, preExit: Option<Raised>): Option<Raised> {
    if phase == Exited && exitFailure.Some? then exitFailure
    else if phase in {Exiting, Active} && preExit.Some? then preExit
    else None
  }

  class ConcurrencyGroup {
    const table: StrandTable
    const parent: ConcurrencyGroup?
    ghost const depth: nat

    var phase: Phase
    var threads: seq<Tracked>
    var processes: seq<Tracked>
    var children: seq<ConcurrencyGroup>
    var exitFailure: Option<Raised>
    var preExit: Option<Raised>

    ghost predicate Valid()
      reads this, table
    {
      Known(threads, table.strands) && Known(processes, table.strands)
    }

    /** The parent links end. */
    ghost predicate Rooted()
      decreases depth
    {
      parent == null || (parent.depth < depth && parent.Rooted())
    }

    ghost function Ancestors(): set<ConcurrencyGroup>
      requires Rooted()
      ensures this !in Ancestors()
      ensures forall a <- Ancestors() :: a.depth < depth
      decreases depth
    {
      if parent == null then {} else {parent} + parent.Ancestors()
    }

    constructor (table: StrandTable, parent: ConcurrencyGroup?)
      requires parent != null ==> parent.Rooted()
      ensures Rooted() && Valid() && this.table == table && this.parent == parent
      ensures phase == Instantiated && threads == processes == [] && children == []
      ensures exitFailure == None && preExit == None
    {
      this.table, this.parent := table, parent;
      this.depth := if parent == null then 0 else parent.depth + 1;
      phase, threads, processes, children := Instantiated, [], [], [];
      exitFailure, preExit := None, None;
    }

    method Enter() returns (ok: bool)
      modifies this`phase
      ensures ok == (old(phase) == Instantiated)
      ensures phase == if ok then Active else old(phase)
    {
      ok := phase == Instantiated;
      if ok {
        phase := Active;
      }
    }

    // -------------------------------------------------------------- failure of an ancestor

    ghost function SeenFailure(): Option<Raised>
      reads this
    {
      FailureOf(phase, exitFailure, preExit)
    }

    ghost function ClosestFailure(): Option<Raised>
      requires Rooted()
      reads Ancestors()
      decreases depth
    {
      if parent == null then None
      else if parent.SeenFailure().Some? then parent.SeenFailure()
      else parent.ClosestFailure()
    }

    method ClosestAncestorFailure() returns (failure: Option<Raised>)
      requires Rooted()
      ensures failure == ClosestFailure()
      ensures failure.Some? <==> exists a <- Ancestors() :: a.SeenFailure().Some?
    {
      ClosestFailureExists();
      var current := parent;
      while current != null
        invariant current != null ==> current.Rooted()
        invariant ClosestFailure() ==
          if current == null then None
          else if current.SeenFailure().Some? then current.SeenFailure()
          else current.ClosestFailure()
        decreases if current == null then -1 else current.depth
      {
        if current.phase == Exited && current.exitFailure.Some? {
          return current.exitFailure;
        }
        if (current.phase == Exiting || current.phase == Active) && current.preExit.Some? {
          return current.preExit;
        }
        current := current.parent;
      }
      failure := None;
    }

    lemma AncestorsAllocated()
      requires Rooted()
      ensures forall a <- Ancestors() :: allocated(a)
      decreases depth
    {
      if parent != null {
        parent.AncestorsAllocated();
      }
    }

    lemma ClosestFailureExists()
      requires Rooted()
      ensures ClosestFailure().Some? <==> exists a <- Ancestors() :: a.SeenFailure().Some?
      decreases depth
    {
      if parent != null {
        parent.ClosestFailureExists();
      }
    }

    // -------------------------------------------------------------- checking and cleaning

    method RaiseIfFailed() returns (raised: Option<Raised>)
      requires Valid() && Rooted()
      ensures raised == Collected(threads, processes, ClosestFailure(), table.strands)
    {
      AncestorsAllocated();
      var fatal, parts := FailuresAmong(threads, table.strands, true);
      if fatal.Some? {
        return Some(Bare(StrandOrigin(fatal.value), Fatal));
      }
      var _, processParts := FailuresAmong(processes, table.strands, false);
      parts := parts + processParts;
      assert parts + [] == parts;
      var ancestor := ClosestAncestorFailure();
      if ancestor.Some? {
        if !IsOrdinary(ancestor.value) {
          return ancestor;
        }
        parts := parts + [FromAncestor(ancestor.value)];
      }
      raised := if parts == [] then None else Some(Grouped(parts));
    }

    static method FailuresAmong(tracked: seq<Tracked>, strands: seq<Strand>, stopAtFatal: bool)
      returns (fatal: Option<nat>, parts: seq<Part>)
      requires Known(tracked, strands)
      ensures fatal == if stopAtFatal then FirstFatal(tracked, strands) else None
      ensures fatal.None? ==> parts == FailureParts(tracked, strands)
    {
      fatal, parts := None, [];
      for i := 0 to |tracked|
        invariant stopAtFatal ==> FirstFatal(tracked, strands) == FirstFatal(tracked[i..], strands)
        invariant FailureParts(tracked, strands) == parts + FailureParts(tracked[i..], strands)
      {
        FailuresFrom(tracked, strands, i, parts);
        var t := tracked[i];
        if t.checked && strands[t.strand].failure.Some? {
          if stopAtFatal && strands[t.strand].failure.value.Fatal? {
            return Some(t.strand), parts;
          }
          parts := parts + [FromStrand(t.strand)];
        }
      }
      assert tracked[|tracked|..] == [];
    }

    static lemma {:induction false} FailuresFrom(tracked: seq<Tracked>, strands: seq<Strand>, i: nat, parts: seq<Part>)
      requires Known(tracked, strands) && i < |tracked|
      ensures
        var t, rest := tracked[i], tracked[i + 1..];
        var fails := t.checked && strands[t.strand].failure.Some?;
        && parts + FailureParts(tracked[i..], strands)
           == (if fails then parts + [FromStrand(t.strand)] else parts) + FailureParts(rest, strands)
        && FirstFatal(tracked[i..], strands)
           == if fails && strands[t.strand].failure.value.Fatal? then Some(t.strand) else FirstFatal(rest, strands)
    {
      var t, rest := tracked[i], tracked[i + 1..];
      assert tracked[i..][0] == t && tracked[i..][1..] == rest;
      assert parts + ([FromStrand(t.strand)] + FailureParts(rest, strands))
          == parts + [FromStrand(t.strand)] + FailureParts(rest, strands);
      assert [] + FailureParts(rest, strands) == FailureParts(rest, strands);
    }

    /** The public check: remembers a grouped failure so that descendants see it too. */
    method RaiseIfFailedOrShuttingDown(shuttingDown: bool) returns (fine: bool)
      requires Valid() && Rooted()
      modifies this`preExit
      ensures
        var raised := Collected(threads, processes, old(ClosestFailure()), table.strands);
        && fine == (raised.None? && !shuttingDown)
        && preExit == if raised.Some? && raised.value.Grouped? then raised else old(preExit)
    {
      AncestorsAllocated();
      var raised := RaiseIfFailed();
      if raised.Some? && raised.value.Grouped? {
        preExit := raised;
      }
      fine := raised.None? && !shuttingDown;
    }

    method Cleanup()
      requires Valid()
      modifies this`threads, this`processes
      ensures Valid()
      ensures threads == Kept(old(threads), table.strands, 0)
      ensures processes == Kept(old(processes), table.strands, 0)
    {
      KeptStaysKnown(threads, table.strands, 0);
      KeptStaysKnown(processes, table.strands, 0);
      var keptThreads := KeptStrands(threads, table.strands);
      var keptProcesses := KeptStrands(processes, table.strands);
      threads, processes := keptThreads, keptProcesses;
    }

    static method KeptStrands(tracked: seq<Tracked>, strands: seq<Strand>) returns (kept: seq<Tracked>)
      requires Known(tracked, strands)
      ensures kept == Kept(tracked, strands, 0)
    {
      kept := [];
      var failed := 0;
      for i := 0 to |tracked|
        invariant failed <= MAX_FAILED_KEPT
        invariant kept + Kept(tracked[i..], strands, failed) == Kept(tracked, strands, 0)
      {
        KeptFrom(tracked, strands, i, kept, failed);
        var t := tracked[i];
        if strands[t.strand].running {
          kept := kept + [t];
        } else if t.checked && strands[t.strand].failure.Some? && failed < MAX_FAILED_KEPT {
          failed := failed + 1;
          kept := kept + [t];
        }
      }
    }

    static lemma {:induction false} KeptFrom(
      tracked: seq<Tracked>, strands: seq<Strand>, i: nat, kept: seq<Tracked>, failed: nat)
      requires Known(tracked, strands) && i < |tracked|
      ensures
        var t, rest := tracked[i], tracked[i + 1..];
        kept + Kept(tracked[i..], strands, failed)
        == if Running(t, strands) then kept + [t] + Kept(rest, strands, failed)
           else if Failing(t, strands) && failed < MAX_FAILED_KEPT then kept + [t] + Kept(rest, strands, failed + 1)
           else kept + Kept(rest, strands, failed)
    {
      var t, rest := tracked[i], tracked[i + 1..];
      assert tracked[i..][0] == t && tracked[i..][1..] == rest;
      assert kept + ([t] + Kept(rest, strands, failed)) == kept + [t] + Kept(rest, strands, failed);
      assert kept + ([t] + Kept(rest, strands, failed + 1)) == kept + [t] + Kept(rest, strands, failed + 1);
    }

    /** Starts a thread, unless the group must not; cleanup follows in every case. */
    method StartThread(checked: bool, shuttingDown: bool) returns (started: Option<nat>)
      requires Valid() && Rooted()
      modifies this`preExit, this`threads, this`processes, table
      ensures Valid() && table.clock == old(table.clock)
      ensures
        var raised := Collected(old(threads), old(processes), old(ClosestFailure()), old(table.strands));
        && started.Some? == (raised.None? && !shuttingDown && phase == Active)
        && preExit == if raised.Some? && raised.value.Grouped? then raised else old(preExit)
      ensures table.strands == old(table.strands) + if started.Some? then [Strand(true, None)] else []
      ensures started.Some? ==> started.value == |old(table.strands)|
      ensures
        var all := old(threads) + if started.Some? then [Tracked(started.value, checked)] else [];
        && Known(all, table.strands)
        && threads == Kept(all, table.strands, 0)
        && processes == Kept(old(processes), table.strands, 0)
    {
      AncestorsAllocated();
      var fine := RaiseIfFailedOrShuttingDown(shuttingDown);
      started := None;
      assert threads + [] == threads && table.strands + [] == table.strands;
      if fine && phase == Active {
        started := Some(|table.strands|);
        table.strands := table.strands + [Strand(true, None)];
        threads := threads + [Tracked(started.value, checked)];
      }
      Cleanup();
    }

    // -------------------------------------------------------------- leaving

    /** Waits for every tracked strand on one shared budget.  A checked process that fails while it is being
        waited for, and a thread that ended with a fatal exception, break out of the wait (`escaped`). */
    method WaitForAll(timeout: real) returns (escaped: Option<Raised>, parts: seq<Part>)
      requires Valid()
      modifies table
      ensures Valid() && |table.strands| == |old(table.strands)| && TableAges(old(table.strands), table.strands)
      ensures old(table.clock) <= table.clock <= old(table.clock) + Larger(0.0, timeout)
      ensures escaped.None? ==>
        forall t <- threads + processes :: Running(t, table.strands) ==> Unfinished(t.strand) in parts
      ensures escaped.Some? ==>
        ProcessEscapes(escaped.value, old(table.strands)) || NamesFatal(escaped.value, threads, table.strands)
      ensures AllNamed(parts, old(table.strands))
      ensures NoneRunning(old(table.strands)) ==>
        parts == [] && escaped == FirstFatalJoin(threads, table.strands)
    {
      var start := table.clock;
      escaped, parts := WaitForProcesses(start, timeout);
      if escaped.Some? {
        return;
      }
      escaped, parts := WaitForThreads(start, timeout, parts, old(table.strands));
    }

    /** No tracked strand was running. */
    ghost predicate NoneRunning(strands: seq<Strand>)
      reads this
    {
      forall t <- threads + processes :: t.strand < |strands| && !Running(t, strands)
    }

    /** One of the tracked strands, which was running before. */
    ghost predicate NamesUnfinished(p: Part, before: seq<Strand>)
      reads this
    {
      p.Unfinished? && exists t <- threads + processes ::
        t.strand == p.strand && t.strand < |before| && Running(t, before)
    }

    ghost predicate AllNamed(parts: seq<Part>, before: seq<Strand>)
      reads this
    {
      forall p <- parts :: NamesUnfinished(p, before)
    }

    lemma NamedGrows(parts: seq<Part>, t: Tracked, before: seq<Strand>)
      requires AllNamed(parts, before) && t in threads + processes && t.strand < |before| && Running(t, before)
      ensures AllNamed(parts + [Unfinished(t.strand)], before)
    {
      assert NamesUnfinished(Unfinished(t.strand), before);
    }

    /** A checked process that was running before has ended and failed since. */
    ghost predicate ProcessEscapes(failure: Raised, before: seq<Strand>)
      requires Valid()
      reads this, table
    {
      exists t <- processes ::
        && t.strand < |before| && Running(t, before)
        && !Running(t, table.strands) && Failing(t, table.strands)
        && failure == Bare(StrandOrigin(t.strand), Ordinary)
    }

    method WaitForProcesses(start: real, timeout: real) returns (escaped: Option<Raised>, parts: seq<Part>)
      requires Valid() && start <= table.clock <= start + Larger(0.0, timeout)
      modifies table
      ensures Valid() && |table.strands| == |old(table.strands)| && TableAges(old(table.strands), table.strands)
      ensures old(table.clock) <= table.clock <= start + Larger(0.0, timeout)
      ensures escaped.Some? ==> ProcessEscapes(escaped.value, old(table.strands))
      ensures escaped.None? ==> forall t <- processes :: Running(t, table.strands) ==> Unfinished(t.strand) in parts
      ensures AllNamed(parts, old(table.strands))
      ensures NoneRunning(old(table.strands)) ==> escaped.None? && parts == []
    {
      escaped, parts := None, [];
      for i := 0 to |processes|
        invariant |table.strands| == |old(table.strands)| && TableAges(old(table.strands), table.strands)
        invariant old(table.clock) <= table.clock <= start + Larger(0.0, timeout)
        invariant AllReported(processes, i, parts, table.strands)
        invariant AllNamed(parts, old(table.strands))
        invariant NoneRunning(old(table.strands)) ==> parts == []
      {
        var t := processes[i];
        assert t in threads + processes;
        if table.strands[t.strand].running {
          NamedGrows(parts, t, old(table.strands));
          ghost var waiting := table.strands;
          table.Await(Remaining(start, table.clock, timeout));
          StillReported(processes, i, parts, waiting, table.strands);
          if table.strands[t.strand].running {
            ReportedGrows(processes, i, parts, Unfinished(t.strand), table.strands);
            parts := parts + [Unfinished(t.strand)];
            waiting := table.strands;
            table.Await(0.0);  // the kill may or may not land
            StillReported(processes, i + 1, parts, waiting, table.strands);
          } else if t.checked && table.strands[t.strand].failure.Some? {
            return Some(Bare(StrandOrigin(t.strand), Ordinary)), parts;
          }
        }
      }
    }

    method WaitForThreads(start: real, timeout: real, late: seq<Part>, ghost before: seq<Strand>)
      returns (escaped: Option<Raised>, parts: seq<Part>)
      requires Valid() && start <= table.clock <= start + Larger(0.0, timeout)
      requires forall t <- processes :: Running(t, table.strands) ==> Unfinished(t.strand) in late
      requires |before| == |table.strands| && TableAges(before, table.strands)
      requires AllNamed(late, before)
      modifies table
      ensures Valid() && |table.strands| == |old(table.strands)| && TableAges(old(table.strands), table.strands)
      ensures old(table.clock) <= table.clock <= start + Larger(0.0, timeout)
      ensures escaped.Some? ==> NamesFatal(escaped.value, threads, table.strands)
      ensures escaped.None? ==>
        forall t <- threads + processes :: Running(t, table.strands) ==> Unfinished(t.strand) in parts
      ensures AllNamed(parts, before)
      ensures NoneRunning(old(table.strands)) ==>
        parts == late && escaped == FirstFatalJoin(threads, table.strands)
    {
      escaped, parts := None, late;
      for i := 0 to |threads|
        invariant |table.strands| == |old(table.strands)| && TableAges(old(table.strands), table.strands)
        invariant old(table.clock) <= table.clock <= start + Larger(0.0, timeout)
        invariant AllReported(processes, |processes|, parts, table.strands)
        invariant AllReported(threads, i, parts, table.strands)
        invariant AllNamed(parts, before)
        invariant NoneRunning(old(table.strands)) ==> parts == late && NoFatalBefore(threads, i, table.strands)
      {
        var t := threads[i];
        assert t in threads + processes;
        ghost var waiting := table.strands;
        table.Await(Remaining(start, table.clock, timeout));
        StillReported(processes, |processes|, parts, waiting, table.strands);
        StillReported(threads, i, parts, waiting, table.strands);
        if table.strands[t.strand].failure == Some(Fatal) {
          FirstFatalJoinIs(threads, i, table.strands);
          return Some(Bare(StrandOrigin(t.strand), Fatal)), parts;
        }
        if table.strands[t.strand].running {
          NamedGrows(parts, t, before);
          ReportedGrows(processes, |processes|, parts, Unfinished(t.strand), table.strands);
          ReportedGrows(threads, i, parts, Unfinished(t.strand), table.strands);
          parts := parts + [Unfinished(t.strand)];
        }
      }
      FirstFatalJoinIs(threads, |threads|, table.strands);
    }

    static function Remaining(start: real, now: real, timeout: real): (r: real)
      ensures r >= 0.0 && (now >= start ==> now + r <= Larger(start + timeout, now))
    {
      Larger(0.0, timeout - (now - start))
    }

    /** Adds the children that are neither exited nor untouched. */
    method ChildrenStillOpen(parts: seq<Part>) returns (all: seq<Part>)
      ensures forall p <- parts :: p in all
      ensures forall i :: 0 <= i < |children| && children[i].phase !in {Exited, Instantiated} ==>
        ChildStillOpen(i) in all
      ensures all == [] <==> parts == [] && forall child <- children :: child.phase in {Exited, Instantiated}
      ensures forall p <- all :: p in parts || NamesOpenChild(p)
    {
      all := parts;
      for i := 0 to |children|
        invariant forall p <- parts :: p in all
        invariant forall k :: 0 <= k < i && children[k].phase !in {Exited, Instantiated} ==> ChildStillOpen(k) in all
        invariant all == [] <==> parts == [] && forall k :: 0 <= k < i ==> children[k].phase in {Exited, Instantiated}
        invariant forall p <- all :: p in parts || NamesOpenChild(p)
      {
        if children[i].phase != Exited && children[i].phase != Instantiated {
          all := all + [ChildStillOpen(i)];
        }
      }
    }

    ghost predicate NamesOpenChild(p: Part)
      reads this, children
    {
      p.ChildStillOpen? && p.child < |children| && children[p.child].phase !in {Exited, Instantiated}
    }

    /** Everything a group has to answer for when it is left: failed and unfinished strands, a failed ancestor and the
        body's own exceptions. */
    ghost predicate Reports(parts: seq<Part>, body: Option<Raised>, ancestor: Option<Raised>)
      requires Valid()
      reads this, table
    {
      && (forall t <- threads + processes :: Failing(t, table.strands) ==> FromStrand(t.strand) in parts)
      && (forall t <- threads + processes :: Running(t, table.strands) ==> Unfinished(t.strand) in parts)
      && (ancestor.Some? ==> FromAncestor(ancestor.value) in parts)
      && (body.Some? ==> HoldsBody(parts, body.value))
    }

    /** The part is about a strand, an ancestor or the body that the group has to answer for. */
    ghost predicate Answers(p: Part, body: Option<Raised>, ancestor: Option<Raised>, before: seq<Strand>)
      requires Valid()
      reads this, table
    {
      || NamesFailure(p, threads, table.strands)
      || NamesFailure(p, processes, table.strands)
      || NamesUnfinished(p, before)
      || (ancestor.Some? && p == FromAncestor(ancestor.value))
      || (body.Some? && IsBodyPart(p, body.value))
    }

    /** And children that are neither exited nor untouched. */
    ghost predicate ReportsChildren(parts: seq<Part>)
      reads this, children
    {
      forall i :: 0 <= i < |children| && children[i].phase !in {Exited, Instantiated} ==> ChildStillOpen(i) in parts
    }

    /** There is nothing to answer for. */
    ghost predicate Clear(body: Option<Raised>, ancestor: Option<Raised>)
      requires Valid()
      reads this, table
    {
      && body.None? && ancestor.None?
      && forall t <- threads + processes :: !Running(t, table.strands) && !Failing(t, table.strands)
    }

    ghost predicate ChildrenClosed()
      reads this, children
    {
      forall child <- children :: child.phase in {Exited, Instantiated}
    }

    /** What the exit gathers after its waits, children aside. */
    method Gather(body: Option<Raised>, late: seq<Part>, ghost ancestor: Option<Raised>, ghost before: seq<Strand>)
      returns (bare: Option<Raised>, parts: seq<Part>)
      requires Valid() && Rooted() && ancestor == ClosestFailure()
      requires forall t <- threads + processes :: Running(t, table.strands) ==> Unfinished(t.strand) in late
      requires AllNamed(late, before)
      ensures bare.Some? <==> FatalAmong(threads, table.strands) || FatalRaised(ancestor)
      ensures bare.Some? ==>
        && bare.value.Bare?
        && (NamesFatal(bare.value, threads, table.strands) || (FatalRaised(ancestor) && bare == ancestor))
      ensures bare.None? ==> Reports(parts, body, ancestor) && (parts == [] ==> Clear(body, ancestor))
      ensures bare.None? ==> forall p <- parts :: Answers(p, body, ancestor, before)
      ensures late == [] && Clear(body, ancestor) ==> bare.None? && parts == []
    {
      AncestorsAllocated();
      CheckRaisesExactlyOnFailure(threads, processes, ancestor, table.strands);
      CheckRaisesBareExactlyWhen(threads, processes, ancestor, table.strands);
      EveryFailureCollected(threads, processes, ancestor, table.strands);
      NothingElseCollected(threads, processes, ancestor, table.strands);
      var failure := RaiseIfFailed();
      if failure.Some? && failure.value.Bare? {
        return failure, [];
      }
      bare, parts := None, late;
      if failure.Some? {
        parts := parts + failure.value.parts;
      }
      if body.Some? {
        parts := parts + BodyParts(body.value);
      }
    }

    /** An exception that cannot be grouped: of a thread, of the closest failed ancestor or among the body's. */
    ghost predicate Ungroupable(body: Option<Raised>, ancestor: Option<Raised>)
      requires Valid()
      reads this, table
    {
      FirstFatalJoin(threads, table.strands).Some? || FatalRaised(ancestor) || FatalBody(body)
    }

    /** Nothing is raised only if there is nothing to answer for, and a group of exceptions reports all there is and
        nothing else. */
    ghost predicate RaisesAll(
      raised: Option<Raised>, body: Option<Raised>, ancestor: Option<Raised>, before: seq<Strand>)
      requires Valid()
      reads this, table, children
    {
      && (raised.None? ==> Clear(body, ancestor) && ChildrenClosed())
      && (raised.Some? && raised.value.Grouped? ==>
            && Reports(raised.value.parts, body, ancestor) && ReportsChildren(raised.value.parts)
            && forall p <- raised.value.parts :: Answers(p, body, ancestor, before) || NamesOpenChild(p))
    }

    /** The lone exception is one that the group has come across. */
    ghost predicate ComesFromSomewhere(
      failure: Raised, body: Option<Raised>, ancestor: Option<Raised>, before: seq<Strand>)
      requires Valid()
      reads this, table
    {
      || ProcessEscapes(failure, before)
      || NamesFatal(failure, threads, table.strands)
      || (FatalRaised(ancestor) && ancestor == Some(failure))
      || (body.Some? && IsBodyPart(FromBody(failure), body.value) && !IsOrdinary(failure))
    }

    /** A lone exception is raised if something cannot be grouped, and only then or if a process failed while it
        was waited for, which takes a strand that was running. */
    ghost predicate RaisesBareForCause(
      raised: Option<Raised>, body: Option<Raised>, ancestor: Option<Raised>, before: seq<Strand>)
      requires Valid()
      reads this, table
    {
      var bare := raised.Some? && raised.value.Bare?;
      && (FatalAmong(threads, table.strands) || FatalRaised(ancestor) || FatalBody(body) ==> bare)
      && (bare ==> ComesFromSomewhere(raised.value, body, ancestor, before))
      && (NoneRunning(before) ==> (bare <==> Ungroupable(body, ancestor)))
    }

    /** With nothing running, a fatal thread's exception comes first, and a fatal exception of the body is raised
        as it is when neither a thread nor an ancestor has failed fatally. */
    ghost predicate RaisesFirstFatal(
      raised: Option<Raised>, body: Option<Raised>, ancestor: Option<Raised>, before: seq<Strand>)
      requires Valid()
      reads this, table
    {
      var joined := FirstFatalJoin(threads, table.strands);
      NoneRunning(before) ==>
        && (joined.Some? ==> raised == joined)
        && (joined.None? && FatalRaised(ancestor) ==> raised == ancestor)
        && (joined.None? && !FatalRaised(ancestor) && body.Some? && body.value.Bare? && body.value.severity.Fatal? ==>
              raised == body)
    }

    /** Waits, gathers and raises. */
    method SettleUp(body: Option<Raised>, timeout: real) returns (raised: Option<Raised>)
      requires Valid() && Rooted()
      modifies table
      ensures Valid() && table.clock <= old(table.clock) + Larger(0.0, timeout)
      ensures RaisesAll(raised, body, old(ClosestFailure()), old(table.strands))
      ensures RaisesBareForCause(raised, body, old(ClosestFailure()), old(table.strands))
      ensures RaisesFirstFatal(raised, body, old(ClosestFailure()), old(table.strands))
      ensures NoneRunning(old(table.strands)) && !Ungroupable(body, old(ClosestFailure()))
        && Clear(body, old(ClosestFailure())) && ChildrenClosed()
        ==> raised.None?
    {
      AncestorsAllocated();
      ghost var ancestor := ClosestFailure();
      var escaped, late := WaitForAll(timeout);
      FirstFatalJoinExists(threads, table.strands);
      if escaped.Some? {
        return escaped;
      }
      var bare, gathered := Gather(body, late, ancestor, old(table.strands));
      if bare.Some? {
        return bare;
      }
      FatalAnswersAreTheBodys(gathered, body, ancestor, old(table.strands));
      var parts := ChildrenStillOpen(gathered);
      raised := ExitFailure(parts);
    }

    /** Among what is gathered only exceptions of the body can be fatal. */
    lemma FatalAnswersAreTheBodys(
      parts: seq<Part>, body: Option<Raised>, ancestor: Option<Raised>, before: seq<Strand>)
      requires Valid() && Reports(parts, body, ancestor)
      requires forall p <- parts :: Answers(p, body, ancestor, before)
      ensures HasFatal(parts) <==> FatalBody(body)
      ensures forall p <- parts :: p.FromBody? ==> body.Some? && IsBodyPart(p, body.value)
    {
    }

    /** Leaves the group; with nothing running and nothing to answer for nothing is raised. */
    method Exit(body: Option<Raised>, timeout: real) returns (raised: Option<Raised>)
      requires Valid() && Rooted()
      requires this !in children
      modifies this`phase, this`exitFailure, table
      ensures phase == Exited && exitFailure == (if raised.Some? then raised else old(exitFailure))
      ensures Valid() && table.clock <= old(table.clock) + Larger(0.0, timeout)
      ensures RaisesAll(raised, body, old(ClosestFailure()), old(table.strands))
      ensures RaisesBareForCause(raised, body, old(ClosestFailure()), old(table.strands))
      ensures RaisesFirstFatal(raised, body, old(ClosestFailure()), old(table.strands))
      ensures NoneRunning(old(table.strands)) && !Ungroupable(body, old(ClosestFailure()))
        && Clear(body, old(ClosestFailure())) && ChildrenClosed()
        ==> raised.None?
    {
      AncestorsAllocated();
      phase := Exiting;
      raised := SettleUp(body, timeout);
      if raised.Some? {
        exitFailure := raised;
      }
      phase := Exited;
    }
  }

  /** One of the parts is an exception of the body that cannot be grouped. */
  predicate HasFatal(parts: seq<Part>) {
    exists p <- parts :: p.FromBody? && !IsOrdinary(p.failure)
  }

  /** The first such part. */
  predicate IsFirstFatal(parts: seq<Part>, i: nat)
    requires i < |parts|
  {
    && parts[i].FromBody? && !IsOrdinary(parts[i].failure)
    && forall k | 0 <= k < i :: parts[k].FromBody? ==> IsOrdinary(parts[k].failure)
  }

  predicate FatalRaised(failure: Option<Raised>) {
    failure.Some? && !IsOrdinary(failure.value)
  }

  predicate FatalBody(body: Option<Raised>) {
    && body.Some?
    && (if body.value.Bare? then body.value.severity.Fatal? else HasFatal(body.value.parts))
  }

  /** A group of exceptions from the body is taken apart; anything else it raised is one exception. */
  predicate IsBodyPart(p: Part, body: Raised) {
    if body.Grouped? && body.parts != [] then p in body.parts else p == FromBody(body)
  }

  predicate HoldsBody(parts: seq<Part>, body: Raised) {
    && (body.Bare? ==> FromBody(body) in parts)
    && (body.Grouped? ==> forall p <- body.parts :: p in parts)
  }

  /** The exceptions that the body of the `with` block adds to the group's own. */
  function BodyParts(failure: Raised): (r: seq<Part>)
    ensures r != [] && HoldsBody(r, failure) && forall p <- r :: IsBodyPart(p, failure)
  {
    if failure.Grouped? && failure.parts != [] then failure.parts else [FromBody(failure)]
  }

  /** One fatal exception among the parts is raised by itself; otherwise they are raised as a group. */
  function ExitFailure(parts: seq<Part>): (r: Option<Raised>)
    ensures r.Some? <==> parts != []
    ensures r.Some? && r.value.Grouped? ==> r.value.parts == parts
    ensures r.Some? && r.value.Bare? <==> HasFatal(parts)
    ensures r.Some? && r.value.Bare? ==> FromBody(r.value) in parts && !IsOrdinary(r.value)
    ensures r.Some? && r.value.Bare? ==>
      exists i: nat | i < |parts| :: IsFirstFatal(parts, i) && parts[i].failure == r.value
  {
    if parts == [] then None
    else
      var fatal := FirstFatalPart(parts);
      if fatal.Some? then fatal else Some(Grouped(parts))
  }

  function FirstFatalPart(parts: seq<Part>): (r: Option<Raised>)
    ensures r.Some? ==> r.value.Bare? && !IsOrdinary(r.value) && FromBody(r.value) in parts
    ensures r.Some? <==> HasFatal(parts)
    ensures r.Some? ==> exists i: nat | i < |parts| :: IsFirstFatal(parts, i) && parts[i].failure == r.value
  {
    if parts == [] then None
    else if parts[0].FromBody? && !IsOrdinary(parts[0].failure) then
      assert IsFirstFatal(parts, 0);
      Some(parts[0].failure)
    else
      var r := FirstFatalPart(parts[1..]);
      assert forall i: nat | i < |parts| - 1 && IsFirstFatal(parts[1..], i) :: IsFirstFatal(parts, i + 1);
      r
  }
}
