/** Threads and processes ("strands") as a concurrency group sees them, and the exceptions they turn into.

    A strand is known by its index in a table.  Its entry only ever moves forward: a running strand may
    record a failure and may end; an ended strand never changes again. */
module Strands {

  datatype Option<+T> = None | Some(value: T)

  /** `Fatal` is an exception that is not an `Exception` in Python's sense (say, `SystemExit`). */
  datatype Severity = Ordinary | Fatal

  /** `failure` is a thread's unsuppressed exception, or the fact that a process's return code is
      neither 0 nor None. */
  datatype Strand = Strand(running: bool, failure: Option<Severity>)

  /** An entry of a group's tracking list. */
  datatype Tracked = Tracked(strand: nat, checked: bool)

  /** What travels inside a raised exception group. */
  datatype Part =
    | FromStrand(strand: nat)
    | FromAncestor(failure: Raised)
    | Unfinished(strand: nat)
    | FromBody(failure: Raised)
    | ChildStillOpen(child: nat)
    | ShuttingDown

  datatype Origin = StrandOrigin(strand: nat) | BodyOrigin(id: nat)

  /** An exception group, or a lone exception that escaped the grouping. */
  datatype Raised = Grouped(parts: seq<Part>) | Bare(origin: Origin, severity: Severity)

  predicate IsOrdinary(failure: Raised) {
    failure.Grouped? || failure.severity.Ordinary?
  }

  const MAX_FAILED_KEPT: nat := 8

  predicate Known(tracked: seq<Tracked>, table: seq<Strand>) {
    forall t <- tracked :: t.strand < |table|
  }

  /** How one strand may change while nobody is looking. */
  predicate Ages(before: Strand, after: Strand) {
    && (!before.running ==> after == before)
    && (before.failure.Some? ==> after.failure.Some?)
  }

  predicate TableAges(before: seq<Strand>, after: seq<Strand>) {
    && |before| <= |after|
    && forall i :: 0 <= i < |before| ==> Ages(before[i], after[i])
  }

  predicate Running(t: Tracked, table: seq<Strand>)
    requires t.strand < |table|
  {
    table[t.strand].running
  }

  /** A failure the group is answerable for. */
  predicate Failing(t: Tracked, table: seq<Strand>)
    requires t.strand < |table|
  {
    t.checked && table[t.strand].failure.Some?
  }

  // ---------------------------------------------------------------- cleanup

  /** The tracking list after cleanup: running strands stay, and of the ended ones only the first
      `MAX_FAILED_KEPT` answerable failures, `failed` of which have been seen already. */
  function Kept(tracked: seq<Tracked>, table: seq<Strand>, failed: nat): seq<Tracked>
    requires Known(tracked, table)
  {
    if tracked == [] then []
    else
      var t := tracked[0];
      if Running(t, table) then
        [t] + Kept(tracked[1..], table, failed)
      else if Failing(t, table) && failed < MAX_FAILED_KEPT then
        [t] + Kept(tracked[1..], table, failed + 1)
      else
        Kept(tracked[1..], table, failed)
  }

  function EndedFailures(tracked: seq<Tracked>, table: seq<Strand>): seq<Tracked>
    requires Known(tracked, table)
  {
    if tracked == [] then []
    else
      var rest := EndedFailures(tracked[1..], table);
      if !Running(tracked[0], table) && Failing(tracked[0], table) then [tracked[0]] + rest else rest
  }

  function StillRunning(tracked: seq<Tracked>, table: seq<Strand>): seq<Tracked>
    requires Known(tracked, table)
  {
    if tracked == [] then []
    else
      var rest := StillRunning(tracked[1..], table);
      if Running(tracked[0], table) then [tracked[0]] + rest else rest
  }

  function Min(a: int, b: int): int {
    if a <= b then a else b
  }

  lemma {:induction false} KeptStaysKnown(tracked: seq<Tracked>, table: seq<Strand>, failed: nat)
    requires Known(tracked, table)
    ensures forall t <- Kept(tracked, table, failed) :: t in tracked
    ensures Known(Kept(tracked, table, failed), table)
  {
    if tracked != [] {
      KeptStaysKnown(tracked[1..], table, failed);
      KeptStaysKnown(tracked[1..], table, failed + 1);
    }
  }

  /** Cleanup keeps every running strand and the first min(8, n) answerable failures, in order, and nothing else. */
  lemma {:induction false} CleanupKeepsFirstFailures(tracked: seq<Tracked>, table: seq<Strand>, failed: nat)
    requires Known(tracked, table) && failed <= MAX_FAILED_KEPT
    ensures Known(Kept(tracked, table, failed), table)
    ensures
      var failures := EndedFailures(tracked, table);
      EndedFailures(Kept(tracked, table, failed), table) == failures[..Min(MAX_FAILED_KEPT - failed, |failures|)]
    ensures StillRunning(Kept(tracked, table, failed), table) == StillRunning(tracked, table)
    ensures forall t <- Kept(tracked, table, failed) :: Running(t, table) || Failing(t, table)
  {
    KeptStaysKnown(tracked, table, failed);
    if tracked != [] {
      var t, rest := tracked[0], tracked[1..];
      if !Running(t, table) && Failing(t, table) && failed < MAX_FAILED_KEPT {
        CleanupKeepsFirstFailures(rest, table, failed + 1);
        assert Kept(tracked, table, failed)[1..] == Kept(rest, table, failed + 1);
      } else {
        CleanupKeepsFirstFailures(rest, table, failed);
        if Running(t, table) {
          assert Kept(tracked, table, failed)[1..] == Kept(rest, table, failed);
        }
      }
    }
  }

  /** A failure among the tracked strands is never forgotten altogether, and a strand is dropped only
      once it has ended. */
  lemma {:induction false} CleanupRemembersFailure(tracked: seq<Tracked>, table: seq<Strand>, failed: nat)
    requires Known(tracked, table)
    ensures Known(Kept(tracked, table, failed), table)
    ensures forall t <- tracked :: t in Kept(tracked, table, failed) || !Running(t, table)
    ensures failed == 0 && (exists t <- tracked :: Failing(t, table)) ==>
      exists t <- Kept(tracked, table, failed) :: Failing(t, table)
  {
    KeptStaysKnown(tracked, table, failed);
    if tracked != [] {
      var t, rest := tracked[0], tracked[1..];
      CleanupRemembersFailure(rest, table, failed);
      CleanupRemembersFailure(rest, table, failed + 1);
      assert forall u <- tracked :: u == t || u in rest;
      if failed == 0 && Failing(t, table) {
        assert Kept(tracked, table, failed)[0] == t;
      }
    }
  }

  // ---------------------------------------------------------------- collecting failures

  /** The first thread failure that is not an ordinary exception; re-raising it cannot be caught. */
  function FirstFatal(threads: seq<Tracked>, table: seq<Strand>): (r: Option<nat>)
    requires Known(threads, table)
  {
    if threads == [] then None
    else if Failing(threads[0], table) && table[threads[0].strand].failure.value.Fatal? then Some(threads[0].strand)
    else FirstFatal(threads[1..], table)
  }

  function FailureParts(tracked: seq<Tracked>, table: seq<Strand>): seq<Part>
    requires Known(tracked, table)
  {
    if tracked == [] then []
    else
      (if Failing(tracked[0], table) then [FromStrand(tracked[0].strand)] else [])
      + FailureParts(tracked[1..], table)
  }

  /** What a check of a group raises, given its lists and what its closest failed ancestor raised. */
  function Collected(threads: seq<Tracked>, processes: seq<Tracked>, ancestor: Option<Raised>, table: seq<Strand>)
    : Option<Raised>
    requires Known(threads, table) && Known(processes, table)
  {
    var fatal := FirstFatal(threads, table);
    if fatal.Some? then Some(Bare(StrandOrigin(fatal.value), Fatal))
    else if ancestor.Some? && !IsOrdinary(ancestor.value) then ancestor
    else
      var parts := FailureParts(threads, table) + FailureParts(processes, table)
                   + (if ancestor.Some? then [FromAncestor(ancestor.value)] else []);
      if parts == [] then None else Some(Grouped(parts))
  }

  lemma {:induction false} PartsComeFromFailures(tracked: seq<Tracked>, table: seq<Strand>)
    requires Known(tracked, table)
    ensures FailureParts(tracked, table) != [] <==> exists t <- tracked :: Failing(t, table)
    ensures FirstFatal(tracked, table).Some? ==> exists t <- tracked :: Failing(t, table)
  {
    if tracked != [] {
      PartsComeFromFailures(tracked[1..], table);
      assert forall u <- tracked :: u == tracked[0] || u in tracked[1..];
      assert tracked[0] in tracked;
    }
  }

  /** A thread whose fatal failure the group is answerable for. */
  predicate FatalAmong(threads: seq<Tracked>, table: seq<Strand>)
    requires Known(threads, table)
  {
    exists t <- threads :: t.checked && table[t.strand].failure == Some(Fatal)
  }

  lemma {:induction false} FirstFatalIsFatal(threads: seq<Tracked>, table: seq<Strand>)
    requires Known(threads, table)
    ensures FirstFatal(threads, table).Some? <==> FatalAmong(threads, table)
  {
    if threads != [] {
      FirstFatalIsFatal(threads[1..], table);
      assert forall u <- threads :: u == threads[0] || u in threads[1..];
      assert threads[0] in threads;
    }
  }

  /** What a check raises cannot be grouped exactly when a thread or the closest failed ancestor failed fatally. */
  lemma CheckRaisesBareExactlyWhen(
    threads: seq<Tracked>, processes: seq<Tracked>, ancestor: Option<Raised>, table: seq<Strand>)
    requires Known(threads, table) && Known(processes, table)
    ensures
      var raised := Collected(threads, processes, ancestor, table);
      raised.Some? && raised.value.Bare? <==>
        FatalAmong(threads, table) || (ancestor.Some? && !IsOrdinary(ancestor.value))
  {
    FirstFatalIsFatal(threads, table);
  }

  /** A check raises exactly when some tracked strand is answerable for a failure or an ancestor failed. */
  lemma CheckRaisesExactlyOnFailure(
    threads: seq<Tracked>, processes: seq<Tracked>, ancestor: Option<Raised>, table: seq<Strand>)
    requires Known(threads, table) && Known(processes, table)
    ensures Collected(threads, processes, ancestor, table).Some? <==>
      || (exists t <- threads :: Failing(t, table))
      || (exists t <- processes :: Failing(t, table))
      || ancestor.Some?
  {
    PartsComeFromFailures(threads, table);
    PartsComeFromFailures(processes, table);
  }

  lemma {:induction false} FailurePartsHas(tracked: seq<Tracked>, table: seq<Strand>)
    requires Known(tracked, table)
    ensures forall t <- tracked :: Failing(t, table) ==> FromStrand(t.strand) in FailureParts(tracked, table)
  {
    if tracked != [] {
      FailurePartsHas(tracked[1..], table);
      assert forall u <- tracked :: u == tracked[0] || u in tracked[1..];
    }
  }

  /** A group of exceptions that a check raises reports every failure there is. */
  lemma {:induction false} EveryFailureCollected(
    threads: seq<Tracked>, processes: seq<Tracked>, ancestor: Option<Raised>, table: seq<Strand>)
    requires Known(threads, table) && Known(processes, table)
    ensures
      var raised := Collected(threads, processes, ancestor, table);
      raised.Some? && raised.value.Grouped? ==>
        && raised.value.parts != []
        && (forall t <- threads + processes :: Failing(t, table) ==> FromStrand(t.strand) in raised.value.parts)
        && (ancestor.Some? ==> FromAncestor(ancestor.value) in raised.value.parts)
  {
    FailurePartsHas(threads, table);
    FailurePartsHas(processes, table);
  }

  /** The part reports the failure of one of the strands. */
  predicate NamesFailure(p: Part, tracked: seq<Tracked>, table: seq<Strand>)
    requires Known(tracked, table)
  {
    p.FromStrand? && exists t <- tracked :: t.strand == p.strand && Failing(t, table)
  }

  lemma {:induction false} FailurePartsOnly(tracked: seq<Tracked>, table: seq<Strand>)
    requires Known(tracked, table)
    ensures forall p <- FailureParts(tracked, table) :: NamesFailure(p, tracked, table)
  {
    if tracked != [] {
      FailurePartsOnly(tracked[1..], table);
      assert tracked[0] in tracked;
      forall p | p in FailureParts(tracked, table)
        ensures NamesFailure(p, tracked, table)
      {
        if p in FailureParts(tracked[1..], table) {
          var t :| t in tracked[1..] && t.strand == p.strand && Failing(t, table);
          assert t in tracked;
        }
      }
    }
  }

  /** A thread has failed fatally and `failure` is its exception. */
  predicate NamesFatal(failure: Raised, threads: seq<Tracked>, table: seq<Strand>)
    requires Known(threads, table)
  {
    exists t <- threads ::
      table[t.strand].failure == Some(Fatal) && failure == Bare(StrandOrigin(t.strand), Fatal)
  }

  lemma {:induction false} FirstFatalNames(threads: seq<Tracked>, table: seq<Strand>)
    requires Known(threads, table)
    ensures var fatal := FirstFatal(threads, table);
      fatal.Some? ==> NamesFatal(Bare(StrandOrigin(fatal.value), Fatal), threads, table)
  {
    if threads != [] {
      FirstFatalNames(threads[1..], table);
      assert forall u <- threads[1..] :: u in threads;
      assert threads[0] in threads;
    }
  }

  /** A check raises nothing that did not happen: a group holds failures of the strands and of the closest failed
      ancestor only, and a lone exception is a thread's or that ancestor's. */
  lemma NothingElseCollected(
    threads: seq<Tracked>, processes: seq<Tracked>, ancestor: Option<Raised>, table: seq<Strand>)
    requires Known(threads, table) && Known(processes, table)
    ensures
      var raised := Collected(threads, processes, ancestor, table);
      && (raised.Some? && raised.value.Bare? ==> NamesFatal(raised.value, threads, table) || raised == ancestor)
      && (raised.Some? && raised.value.Grouped? ==> forall p <- raised.value.parts ::
            || NamesFailure(p, threads, table) || NamesFailure(p, processes, table)
            || (ancestor.Some? && p == FromAncestor(ancestor.value)))
  {
    FailurePartsOnly(threads, table);
    FailurePartsOnly(processes, table);
    FirstFatalNames(threads, table);
  }
}
