/** The directory of one managed tool as the installer changes it: every change is one atomic step (a directory
    created, a tree removed, a rename), and the journal keeps the directory as it was after each of them, so that
    a crash is a return to some state of the journal. */
module ToolDirectories {
  import opened VersionSlots

  /** Which binary is in use: the managed one, or a configured one, which may lie inside a version slot. */
  datatype Mode = Managed(recommended: string) | Configured(slot: Option<string>)

  datatype Distribution = Distribution(text: string, rank: int, checksum: nat)

  /** `WriteFails` stands for an error of the file system, which is not one of the download's own. */
  datatype Download = Fetched(content: nat) | Unreachable | WriteFails

  datatype Probe = Parsed | Unparsed | ProcessFails | ProbeRaises

  /** What the network, the tool's own staging code, its binary and the file system answer during one install. */
  datatype Environment = Environment(
    download: Download,
    stopped: bool,
    staged: Option<bool>,
    leavesDirectory: bool,
    probe: Probe,
    renames: bool)

  datatype Outcome = Success(text: string) | Failure | Raised

  function ActiveIn(slots: seq<Slot>, mode: Mode): Option<string> {
    match mode
    case Managed(recommended) => Resolved(slots, recommended)
    case Configured(slot) => slot
  }

  /** The directory a cleanup leaves behind. */
  function Tidy(entries: seq<Entry>, keep: nat, mode: Mode): seq<Entry> {
    CleanedUp(entries, keep, ActiveIn(Slots(entries), mode))
  }

  predicate AllTrusted(slots: seq<Slot>, digest: nat -> nat) {
    forall s <- slots :: s.probed && digest(s.content) == s.pinned
  }

  predicate Sound(entries: seq<Entry>, digest: nat -> nat) {
    Distinct(Slots(entries)) && AllTrusted(Slots(entries), digest)
  }

  /** Every one of `slots` is present in `entries`. */
  ghost predicate Holds(entries: seq<Entry>, slots: set<Slot>) {
    forall s <- slots :: s in Slots(entries)
  }

  ghost predicate AllHold(states: seq<seq<Entry>>, slots: set<Slot>) {
    forall k | 0 <= k < |states| :: Holds(states[k], slots)
  }

  lemma {:induction false} AllHoldConcat(a: seq<seq<Entry>>, b: seq<seq<Entry>>, slots: set<Slot>)
    requires AllHold(a, slots) && AllHold(b, slots)
    ensures AllHold(a + b, slots)
  {
  }

  lemma {:induction false} StillHold(states: seq<seq<Entry>>, fuller: seq<Entry>, entries: seq<Entry>)
    requires AllHold(states, SlotSet(fuller)) && SlotSet(entries) <= SlotSet(fuller)
    ensures AllHold(states + [entries], SlotSet(entries))
  {
  }

  lemma {:induction false} AllHoldShrinks(states: seq<seq<Entry>>, fuller: seq<Entry>, entries: seq<Entry>)
    requires AllHold(states, SlotSet(fuller)) && SlotSet(entries) <= SlotSet(fuller)
    ensures AllHold(states, SlotSet(entries))
  {
  }

  lemma {:induction false} Regroup(a: seq<seq<Entry>>, b: seq<seq<Entry>>, c: seq<seq<Entry>>)
    ensures a + b + c == a + (b + c)
  {
  }

  lemma {:induction false} PrefixGrows(entries: seq<Entry>, i: nat)
    requires i < |entries|
    ensures entries[..i + 1] == entries[..i] + [entries[i]]
  {
  }

  lemma {:induction false} WholePrefix(entries: seq<Entry>)
    ensures entries[..|entries|] == entries
  {
  }

  /** None of the temporary directories among the first `i` entries listed is left. */
  ghost predicate TempsGone(entries: seq<Entry>, listing: seq<Entry>, i: nat)
    requires i <= |listing|
  {
    forall e <- entries :: e in listing && (e.Temp? ==> e !in listing[..i])
  }

  lemma {:induction false} FiveSteps(a: seq<seq<Entry>>, first: seq<Entry>, inner: seq<seq<Entry>>, next: seq<Entry>,
                                     last: seq<Entry>)
    ensures a + [first] + inner + [next] + [last] == a + ([first] + inner + [next, last])
  {
  }

  ghost function SlotSet(entries: seq<Entry>): set<Slot> {
    set s <- Slots(entries)
  }

  /** The versions there both before and after, other than the one being installed. */
  ghost function Others(before: seq<Entry>, after: seq<Entry>, text: string): set<Slot> {
    set s | s in Slots(before) && s in Slots(after) && s.text != text
  }

  // ---------------------------------------------------------------- what one install comes to

  function StagedSlot(distribution: Distribution, env: Environment): Slot
    requires env.download.Fetched? && env.staged.Some?
  {
    Slot(distribution.text, distribution.rank, env.staged.value, distribution.checksum, env.download.content,
         env.probe == Parsed)
  }

  predicate Verified(distribution: Distribution, digest: nat -> nat, env: Environment) {
    env.download.Fetched? && digest(env.download.content) == distribution.checksum && !env.stopped
  }

  /** The install gets as far as replacing the version's slot. */
  predicate Activates(distribution: Distribution, digest: nat -> nat, env: Environment) {
    Verified(distribution, digest, env) && env.staged.Some? && env.probe == Parsed
  }

  function OutcomeOf(distribution: Distribution, digest: nat -> nat, env: Environment): Outcome {
    if env.download.WriteFails? then Raised
    else if !Verified(distribution, digest, env) || env.staged.None? then Failure
    else match env.probe
      case Parsed => if env.renames then Success(distribution.text) else Raised
      case ProbeRaises => Raised
      case _ => Failure
  }

  function EntriesAfter(before: seq<Entry>, distribution: Distribution, digest: nat -> nat, keep: nat, mode: Mode,
                        env: Environment): seq<Entry>
  {
    if !Activates(distribution, digest, env) then before
    else if env.renames then Tidy(Activated(before, StagedSlot(distribution, env)), keep, mode)
    else Without(before, distribution.text)
  }

  /** The directory while the download is staged. */
  function Staging(entries: seq<Entry>, id: nat, env: Environment): seq<Entry> {
    if env.staged.Some? || env.leavesDirectory then entries + [Temp(id)] else entries
  }

  /** The staged tree moved into its slot. */
  function Renamed(entries: seq<Entry>, slot: Slot, stagingId: nat): seq<Entry> {
    WithoutTemp(Without(entries, slot.text), stagingId) + [Version(slot)]
  }

  function ActivatedFrom(entries: seq<Entry>, distribution: Distribution, stagingId: nat, keep: nat, mode: Mode,
                         env: Environment): seq<Entry>
    requires env.download.Fetched? && env.staged.Some?
  {
    if env.renames then Tidy(Renamed(entries, StagedSlot(distribution, env), stagingId), keep, mode)
    else Without(entries, distribution.text)
  }

  function StagedAndActivated(entries: seq<Entry>, distribution: Distribution, stagingId: nat, keep: nat, mode: Mode,
                              digest: nat -> nat, env: Environment): seq<Entry>
    requires Verified(distribution, digest, env)
  {
    var staging := Staging(entries, stagingId, env);
    if env.staged.Some? && env.probe == Parsed then
      ActivatedFrom(staging, distribution, stagingId, keep, mode, env)
    else staging
  }

  lemma {:induction false} RenameIsSound(entries: seq<Entry>, slot: Slot, stagingId: nat, digest: nat -> nat)
    requires Sound(entries, digest) && slot.probed && digest(slot.content) == slot.pinned
    ensures Sound(Renamed(entries, slot, stagingId), digest)
    ensures Slots(Renamed(entries, slot, stagingId)) == Slots(Activated(entries, slot))
  {
    SoundWithout(entries, slot.text, digest);
    WithoutTempKeepsSlots(Without(entries, slot.text), stagingId);
    SlotsConcat(WithoutTemp(Without(entries, slot.text), stagingId), [Version(slot)]);
    SlotsConcat(Without(entries, slot.text), [Version(slot)]);
    ActivationKeepsDistinct(entries, slot);
    ActivatedSlots(entries, slot);
    SurvivorsAre(Slots(entries), {slot.text});
  }

  lemma {:induction false} SoundWithout(entries: seq<Entry>, text: string, digest: nat -> nat)
    requires Sound(entries, digest)
    ensures Sound(Without(entries, text), digest)
    ensures Holds(entries, SlotSet(Without(entries, text)))
    ensures forall s :: s in Slots(entries) && s.text != text ==> s in Slots(Without(entries, text))
  {
    WithoutSurvives(entries, text);
    SurvivingKeepsDistinct(Slots(entries), {text});
    SurvivorsAre(Slots(entries), {text});
  }

  /** Replacing one slot keeps all the others at every moment. */
  lemma {:induction false} MovingHolds(entries: seq<Entry>, slot: Slot, stagingId: nat)
    ensures
      var others := set s | s in SlotSet(entries) && s.text != slot.text;
      && Holds(Without(entries, slot.text), others)
      && Holds(Renamed(entries, slot, stagingId), others)
  {
    WithoutSurvives(entries, slot.text);
    SurvivorsAre(Slots(entries), {slot.text});
    WithoutTempKeepsSlots(Without(entries, slot.text), stagingId);
    SlotsConcat(WithoutTemp(Without(entries, slot.text), stagingId), [Version(slot)]);
  }

  lemma {:induction false} SlotsSnoc(entries: seq<Entry>, i: nat)
    requires i < |entries|
    ensures Slots(entries[..i + 1]) == Slots(entries[..i]) + if entries[i].Version? then [entries[i].slot] else []
  {
    assert entries[..i + 1] == entries[..i] + [entries[i]];
    SlotsConcat(entries[..i], [entries[i]]);
    assert Slots([entries[i]]) == if entries[i].Version? then [entries[i].slot] else [];
  }

  lemma {:induction false} BinariesConcat(a: seq<Slot>, b: seq<Slot>)
    ensures Binaries(a + b) == Binaries(a) + Binaries(b)
  {
    if a == [] {
      assert a + b == b;
    } else {
      assert (a + b)[0] == a[0] && (a + b)[1..] == a[1..] + b;
      BinariesConcat(a[1..], b);
      var head, kept, more := if a[0].hasBinary then [a[0]] else [], Binaries(a[1..]), Binaries(b);
      assert head + (kept + more) == head + kept + more;
    }
  }

  lemma {:induction false} WithoutTempThenTemps(entries: seq<Entry>, id: nat)
    ensures WithoutTemps(WithoutTemp(entries, id)) == WithoutTemps(entries)
  {
    if entries != [] {
      WithoutTempThenTemps(entries[1..], id);
      var kept := WithoutTemp(entries[1..], id);
      assert ([entries[0]] + kept)[1..] == kept;
      assert WithoutTemp(entries, id) == if entries[0] == Temp(id) then kept else [entries[0]] + kept;
      assert WithoutTemps(entries) == if entries[0].Temp? then WithoutTemps(entries[1..])
                                      else [entries[0]] + WithoutTemps(entries[1..]);
    }
  }

  lemma {:induction false} NoTempsLeft(entries: seq<Entry>)
    requires forall e <- entries :: !e.Temp?
    ensures WithoutTemps(entries) == entries
  {
    if entries != [] {
      NoTempsLeft(entries[1..]);
    }
  }

  lemma {:induction false} AbsentTemp(entries: seq<Entry>, id: nat)
    requires Temp(id) !in entries
    ensures WithoutTemp(entries, id) == entries
  {
    if entries != [] {
      AbsentTemp(entries[1..], id);
    }
  }

  lemma {:induction false} TempConcat(a: seq<Entry>, b: seq<Entry>, id: nat)
    ensures WithoutTemp(a + b, id) == WithoutTemp(a, id) + WithoutTemp(b, id)
  {
    if a == [] {
      assert a + b == b;
    } else {
      assert (a + b)[0] == a[0] && (a + b)[1..] == a[1..] + b;
      TempConcat(a[1..], b, id);
      var head, kept, more := if a[0] == Temp(id) then [] else [a[0]], WithoutTemp(a[1..], id), WithoutTemp(b, id);
      assert head + (kept + more) == head + kept + more;
    }
  }

  /** A temporary directory that was created can be removed without a trace. */
  lemma {:induction false} TempComesAndGoes(entries: seq<Entry>, id: nat)
    requires Temp(id) !in entries
    ensures WithoutTemp(entries + [Temp(id)], id) == entries
    ensures Slots(entries + [Temp(id)]) == Slots(entries)
  {
    TempConcat(entries, [Temp(id)], id);
    AbsentTemp(entries, id);
    SlotsConcat(entries, [Temp(id)]);
    assert Slots([Temp(id)]) == [];
    assert WithoutTemp([Temp(id)], id) == [];
  }

  lemma {:induction false} BothTempsGo(entries: seq<Entry>, downloadId: nat, stagingId: nat, env: Environment)
    requires downloadId != stagingId && Temp(downloadId) !in entries && Temp(stagingId) !in entries
    ensures
      WithoutTemp(WithoutTemp(Staging(entries + [Temp(downloadId)], stagingId, env), downloadId), stagingId) == entries
  {
    TempComesAndGoes(entries, downloadId);
    TempComesAndGoes(entries, stagingId);
    TempConcat(entries + [Temp(downloadId)], [Temp(stagingId)], downloadId);
    AbsentTemp([Temp(stagingId)], downloadId);
    AbsentTemp(entries, stagingId);
  }

  lemma {:induction false} WithoutConcat(a: seq<Entry>, b: seq<Entry>, text: string)
    ensures Without(a + b, text) == Without(a, text) + Without(b, text)
  {
    if a == [] {
      assert a + b == b;
    } else {
      assert (a + b)[0] == a[0] && (a + b)[1..] == a[1..] + b;
      WithoutConcat(a[1..], b, text);
      var head := if a[0].Version? && a[0].slot.text == text then [] else [a[0]];
      var kept, more := Without(a[1..], text), Without(b, text);
      assert head + (kept + more) == head + kept + more;
    }
  }

  lemma {:induction false} WithoutAdds(entries: seq<Entry>, text: string)
    ensures forall e <- Without(entries, text) :: e in entries
  {
    if entries != [] {
      WithoutAdds(entries[1..], text);
    }
  }

  lemma {:induction false} TempsConcat(a: seq<Entry>, b: seq<Entry>)
    ensures WithoutTemps(a + b) == WithoutTemps(a) + WithoutTemps(b)
  {
    if a == [] {
      assert a + b == b;
    } else {
      assert (a + b)[0] == a[0] && (a + b)[1..] == a[1..] + b;
      TempsConcat(a[1..], b);
      var head, kept, more := if a[0].Temp? then [] else [a[0]], WithoutTemps(a[1..]), WithoutTemps(b);
      assert head + (kept + more) == head + kept + more;
    }
  }

  lemma {:induction false} WithoutDuringStaging(
      entries: seq<Entry>, downloadId: nat, stagingId: nat, text: string, env: Environment)
    ensures Without(Staging(entries + [Temp(downloadId)], stagingId, env), text)
         == Staging(Without(entries, text) + [Temp(downloadId)], stagingId, env)
  {
    WithoutConcat(entries, [Temp(downloadId)], text);
    WithoutConcat(entries + [Temp(downloadId)], [Temp(stagingId)], text);
    assert Without([Temp(downloadId)], text) == [Temp(downloadId)];
    assert Without([Temp(stagingId)], text) == [Temp(stagingId)];
  }

  /** Cleanup comes to the same whatever temporary directories lie about. */
  lemma {:induction false} TidyIgnoresTemps(a: seq<Entry>, b: seq<Entry>, keep: nat, mode: Mode)
    requires WithoutTemps(a) == WithoutTemps(b)
    ensures Tidy(a, keep, mode) == Tidy(b, keep, mode)
  {
    WithoutTempsKeepsSlots(a);
    WithoutTempsKeepsSlots(b);
  }

  lemma {:induction false} PrunedAdds(entries: seq<Entry>, doomed: seq<Slot>, active: Option<string>)
    ensures forall e <- Pruned(entries, doomed, active) :: e in entries
    decreases |doomed|
  {
    if doomed != [] {
      WithoutAdds(entries, doomed[0].text);
      PrunedAdds(if active == Some(doomed[0].text) then entries else Without(entries, doomed[0].text),
                 doomed[1..], active);
    }
  }

  lemma {:induction false} TidyLeavesNoTemps(entries: seq<Entry>, keep: nat, mode: Mode)
    ensures forall e <- Tidy(entries, keep, mode) :: e in entries && !e.Temp?
  {
    WithoutTempsKeepsSlots(entries);
    PrunedAdds(WithoutTemps(entries), Doomed(Slots(entries), keep), ActiveIn(Slots(entries), mode));
  }

  /** What is in the directory when the temporary directories are about to be removed. */
  function BeforeRemoval(entries: seq<Entry>, distribution: Distribution, digest: nat -> nat, stagingId: nat,
                         keep: nat, mode: Mode, env: Environment): seq<Entry>
  {
    if Verified(distribution, digest, env) then
      StagedAndActivated(entries, distribution, stagingId, keep, mode, digest, env)
    else entries
  }

  lemma {:induction false} InstallLeaves(
      before: seq<Entry>, distribution: Distribution, digest: nat -> nat, downloadId: nat,
      stagingId: nat, keep: nat, mode: Mode, env: Environment)
    requires downloadId != stagingId && Temp(downloadId) !in before && Temp(stagingId) !in before
    ensures
      var staged := BeforeRemoval(before + [Temp(downloadId)], distribution, digest, stagingId, keep, mode, env);
      WithoutTemp(WithoutTemp(staged, downloadId), stagingId)
      == EntriesAfter(before, distribution, digest, keep, mode, env)
  {
    TempComesAndGoes(before, downloadId);
    AbsentTemp(before, stagingId);
    BothTempsGo(before, downloadId, stagingId, env);
    if Activates(distribution, digest, env) {
      WithoutAdds(before, distribution.text);
      if env.renames {
        RenameThenTidy(before, StagedSlot(distribution, env), downloadId, stagingId, keep, mode, env);
      } else {
        WithoutDuringStaging(before, downloadId, stagingId, distribution.text, env);
        BothTempsGo(Without(before, distribution.text), downloadId, stagingId, env);
      }
    }
  }

  lemma {:induction false} RenameThenTidy(
      before: seq<Entry>, slot: Slot, downloadId: nat, stagingId: nat, keep: nat, mode: Mode,
      env: Environment)
    requires downloadId != stagingId && Temp(downloadId) !in before && Temp(stagingId) !in before
    requires env.staged.Some?
    ensures
      var tidy := Tidy(Renamed(Staging(before + [Temp(downloadId)], stagingId, env), slot, stagingId), keep, mode);
      tidy == Tidy(Activated(before, slot), keep, mode)
      && WithoutTemp(WithoutTemp(tidy, downloadId), stagingId) == tidy
  {
    var left := Without(before, slot.text);
    var staging := Staging(before + [Temp(downloadId)], stagingId, env);
    var renamed := Renamed(staging, slot, stagingId);
    WithoutAdds(before, slot.text);
    WithoutDuringStaging(before, downloadId, stagingId, slot.text, env);
    TempComesAndGoes(left + [Temp(downloadId)], stagingId);
    assert renamed == left + [Temp(downloadId)] + [Version(slot)];
    TempsConcat(left + [Temp(downloadId)], [Version(slot)]);
    TempsConcat(left, [Temp(downloadId)]);
    TempsConcat(left, [Version(slot)]);
    assert WithoutTemps([Temp(downloadId)]) == [];
    TidyIgnoresTemps(renamed, Activated(before, slot), keep, mode);
    var tidy := Tidy(renamed, keep, mode);
    TidyLeavesNoTemps(renamed, keep, mode);
    AbsentTemp(tidy, downloadId);
    AbsentTemp(tidy, stagingId);
  }

  /** After a successful install of the recommended version, with its binary where it is looked for, it is the
      one that resolves. */
  lemma {:induction false} SuccessResolves(
      before: seq<Entry>, distribution: Distribution, digest: nat -> nat, keep: nat, env: Environment)
    requires OutcomeOf(distribution, digest, env).Success? && env.staged == Some(true)
    ensures
      var after := EntriesAfter(before, distribution, digest, keep, Managed(distribution.text), env);
      Resolved(Slots(after), distribution.text) == Some(distribution.text)
  {
    InstalledVersionResolves(before, StagedSlot(distribution, env), keep);
  }

  predicate Installed(entries: seq<Entry>, text: string) {
    exists s <- Slots(entries) :: s.text == text
  }

  /** An install that does not succeed leaves the version slots as they were, unless a verified, staged and probed
      tree could not be renamed after the old tree of that version had been removed. */
  lemma {:induction false} UnsuccessfulKeepsSlotsExactlyWhen(
      before: seq<Entry>, distribution: Distribution, digest: nat -> nat,
      keep: nat, mode: Mode, env: Environment)
    requires !OutcomeOf(distribution, digest, env).Success?
    ensures
      Slots(EntriesAfter(before, distribution, digest, keep, mode, env)) == Slots(before)
      <==> !(Activates(distribution, digest, env) && !env.renames && Installed(before, distribution.text))
  {
    WithoutSurvives(before, distribution.text);
    SurvivorsAre(Slots(before), {distribution.text});
    if !Installed(before, distribution.text) {
      AllSurvive(Slots(before), {distribution.text});
    }
  }

  lemma {:induction false} AllSurvive(slots: seq<Slot>, gone: set<string>)
    requires forall s <- slots :: s.text !in gone
    ensures Surviving(slots, gone) == slots
  {
    if slots != [] {
      AllSurvive(slots[1..], gone);
    }
  }

  /** The versions that are there at every moment of an install: all of them unless the slot's tree is being
      replaced, and in any case all the others that are there before and after. */
  ghost function HeldDuring(before: seq<Entry>, after: seq<Entry>, distribution: Distribution, digest: nat -> nat,
                            env: Environment): set<Slot>
  {
    if Activates(distribution, digest, env) then Others(before, after, distribution.text) else SlotSet(before)
  }

  lemma {:induction false} RemovalKeepsSlots(staged: seq<Entry>, downloadId: nat, stagingId: nat)
    ensures Slots(WithoutTemp(staged, downloadId)) == Slots(staged)
    ensures Slots(WithoutTemp(WithoutTemp(staged, downloadId), stagingId)) == Slots(staged)
  {
    WithoutTempKeepsSlots(staged, downloadId);
    WithoutTempKeepsSlots(WithoutTemp(staged, downloadId), stagingId);
  }

  lemma {:induction false} StepsHold(
      before: seq<Entry>, inner: seq<seq<Entry>>, staged: seq<Entry>, distribution: Distribution,
      digest: nat -> nat, downloadId: nat, stagingId: nat, env: Environment)
    requires Temp(downloadId) !in before
    requires AllHold(inner, HeldDuring(before + [Temp(downloadId)], staged, distribution, digest, env))
    requires !Activates(distribution, digest, env) ==> Slots(staged) == Slots(before)
    ensures
      var removed := WithoutTemp(staged, downloadId);
      var after := WithoutTemp(removed, stagingId);
      AllHold([before + [Temp(downloadId)]] + inner + [removed, after],
              HeldDuring(before, after, distribution, digest, env))
  {
    TempComesAndGoes(before, downloadId);
    RemovalKeepsSlots(staged, downloadId, stagingId);
    var removed := WithoutTemp(staged, downloadId);
    var after := WithoutTemp(removed, stagingId);
    var held := HeldDuring(before, after, distribution, digest, env);
    assert held == HeldDuring(before + [Temp(downloadId)], staged, distribution, digest, env);
    AllHoldConcat([before + [Temp(downloadId)]], inner, held);
    AllHoldConcat([before + [Temp(downloadId)]] + inner, [removed, after], held);
  }

  /** Which versions cleanup leaves, and that the binary in use is among them. */
  lemma {:induction false} TidyLeaves(entries: seq<Entry>, keep: nat, mode: Mode)
    requires Distinct(Slots(entries))
    ensures mode.Managed? ==>
      Resolved(Slots(Tidy(entries, keep, mode)), mode.recommended) == Resolved(Slots(entries), mode.recommended)
    ensures mode.Configured? && mode.slot.Some? ==>
      forall s <- Slots(entries) :: s.text == mode.slot.value ==> s in Slots(Tidy(entries, keep, mode))
    ensures forall i | 0 <= i < |Slots(entries)| ::
      var s := Slots(entries)[i];
      s in Slots(Tidy(entries, keep, mode)) <==>
        || Outranking(Slots(entries), i, |Slots(entries)|) < keep
        || (mode.Managed? && Resolved(Slots(entries), mode.recommended) == Some(s.text))
        || (mode.Configured? && mode.slot == Some(s.text))
    ensures forall e <- Tidy(entries, keep, mode) :: e in entries && !e.Temp?
  {
    var slots, active := Slots(entries), ActiveIn(Slots(entries), mode);
    TidyLeavesNoTemps(entries, keep, mode);
    if mode.Managed? {
      CleanupKeepsResolution(entries, keep, mode.recommended);
    }
    forall i | 0 <= i < |slots|
      ensures slots[i] in Slots(Tidy(entries, keep, mode)) <==>
        Outranking(slots, i, |slots|) < keep || active == Some(slots[i].text)
    {
      SurvivesExactlyWhen(entries, keep, active, i);
    }
  }

  /** The outcome in terms of what the network, the tool and the file system have answered. */
  lemma {:induction false} OutcomeMeans(distribution: Distribution, digest: nat -> nat, env: Environment)
    ensures
      var outcome := OutcomeOf(distribution, digest, env);
      var staged := && env.download.Fetched? && digest(env.download.content) == distribution.checksum
                    && !env.stopped && env.staged.Some?;
      && (outcome.Success? <==> staged && env.probe.Parsed? && env.renames)
      && (outcome.Success? ==> outcome.text == distribution.text)
      && (outcome.Raised? <==>
            || env.download.WriteFails?
            || (staged && (env.probe.ProbeRaises? || (env.probe.Parsed? && !env.renames))))
  {
  }

  lemma {:induction false} InstalledIs(
      before: seq<Entry>, distribution: Distribution, digest: nat -> nat, keep: nat, mode: Mode, env: Environment)
    ensures OutcomeOf(distribution, digest, env) == Failure ==>
      EntriesAfter(before, distribution, digest, keep, mode, env) == before
    ensures OutcomeOf(distribution, digest, env).Success? ==>
      forall s <- Slots(EntriesAfter(before, distribution, digest, keep, mode, env)) :: s.text == distribution.text ==>
        s.content == env.download.content && s.pinned == distribution.checksum && s.hasBinary == env.staged.value
    ensures OutcomeOf(distribution, digest, env).Success? && env.staged.value && mode == Managed(distribution.text) ==>
      Resolved(Slots(EntriesAfter(before, distribution, digest, keep, mode, env)), distribution.text)
      == Some(distribution.text)
  {
    if OutcomeOf(distribution, digest, env).Success? {
      var slot := StagedSlot(distribution, env);
      var installed := Activated(before, slot);
      ActivatedSlots(before, slot);
      SurvivorsAre(Slots(before), {slot.text});
      TidyLeavesNoTemps(installed, keep, mode);
      EntriesAre(installed, "");
      EntriesAre(Tidy(installed, keep, mode), "");
      if env.staged.value && mode == Managed(distribution.text) {
        SuccessResolves(before, distribution, digest, keep, env);
      }
    }
  }

  /** A version slot whose probe and checksum were right. */
  predicate Trusted(s: Slot, digest: nat -> nat) {
    s.probed && digest(s.content) == s.pinned
  }

  class ToolDirectory {
    var entries: seq<Entry>
    ghost var journal: seq<seq<Entry>>
    const digest: nat -> nat

    ghost predicate Valid()
      reads this
    {
      && journal != [] && journal[|journal| - 1] == entries
      && forall k | 0 <= k < |journal| :: Sound(journal[k], digest)
    }

    constructor (digest: nat -> nat)
      ensures Valid() && entries == [] && this.digest == digest
    {
      this.digest := digest;
      entries := [];
      journal := [[]];
    }

    /** One atomic change of the directory. */
    method Become(next: seq<Entry>)
      requires Valid() && Sound(next, digest)
      modifies this
      ensures Valid() && entries == next && journal == old(journal) + [next]
    {
      entries := next;
      journal := journal + [next];
    }

    method FindManagedBinary(recommended: string) returns (found: Option<string>)
      ensures found == Resolved(Slots(entries), recommended)
    {
      if HasBinary(Slots(entries), recommended) {
        return Some(recommended);
      }
      var versions: seq<Slot> := [];
      for i := 0 to |entries|
        invariant versions == Binaries(Slots(entries[..i]))
      {
        SlotsSnoc(entries, i);
        if entries[i].Version? {
          BinariesConcat(Slots(entries[..i]), [entries[i].slot]);
          assert Binaries([entries[i].slot]) == if entries[i].slot.hasBinary then [entries[i].slot] else [];
          if entries[i].slot.hasBinary {
            versions := versions + [entries[i].slot];
          }
        } else {
          assert Slots(entries[..i + 1]) == Slots(entries[..i]);
        }
      }
      assert entries[..|entries|] == entries;
      if versions == [] {
        return None;
      }
      return Some(NewestFirst(versions)[0].text);
    }

    method ResolveBinary(mode: Mode) returns (active: Option<string>)
      ensures active == ActiveIn(Slots(entries), mode)
    {
      match mode
      case Managed(recommended) =>
        active := FindManagedBinary(recommended);
      case Configured(slot) =>
        active := slot;
    }

    method RemoveTemp(id: nat)
      requires Valid()
      modifies this
      ensures Valid() && entries == WithoutTemp(old(entries), id)
      ensures journal == old(journal) + [entries]
      ensures Slots(entries) == Slots(old(entries)) && WithoutTemps(entries) == WithoutTemps(old(entries))
      ensures forall e :: e in entries <==> e in old(entries) && e != Temp(id)
    {
      WithoutTempKeepsSlots(entries, id);
      WithoutTempThenTemps(entries, id);
      Become(WithoutTemp(entries, id));
    }

    method RemoveVersion(text: string)
      requires Valid()
      modifies this
      ensures Valid() && entries == Without(old(entries), text)
      ensures journal == old(journal) + [entries]
      ensures SlotSet(entries) <= SlotSet(old(entries))
    {
      SoundWithout(entries, text, digest);
      Become(Without(entries, text));
    }

    method RemoveTemps() returns (ghost steps: seq<seq<Entry>>)
      requires Valid()
      modifies this
      ensures Valid() && entries == WithoutTemps(old(entries)) && journal == old(journal) + steps
      ensures AllHold(steps, SlotSet(old(entries)))
    {
      var listing := entries;
      steps := [];
      for i := 0 to |listing|
        invariant Valid() && WithoutTemps(entries) == WithoutTemps(listing) && Slots(entries) == Slots(listing)
        invariant TempsGone(entries, listing, i)
        invariant journal == old(journal) + steps && AllHold(steps, SlotSet(listing))
      {
        if listing[i].Temp? {
          ghost var fuller := entries;
          RemoveTemp(listing[i].id);
          StillHold(steps, fuller, entries);
          steps := steps + [entries];
        }
        PrefixGrows(listing, i);
      }
      WholePrefix(listing);
      NoTempsLeft(entries);
    }

    method VersionDirectories() returns (versions: seq<Slot>)
      ensures versions == Slots(entries)
    {
      versions := [];
      for i := 0 to |entries|
        invariant versions == Slots(entries[..i])
      {
        SlotsSnoc(entries, i);
        if entries[i].Version? {
          versions := versions + [entries[i].slot];
        }
      }
      assert entries[..|entries|] == entries;
    }

    /** Retention: temporary directories go, then the versions beyond the newest `keep`, save the active one.
        Whatever is left in the end was there all along. */
    method CleanupOldVersions(keep: nat, mode: Mode) returns (ghost steps: seq<seq<Entry>>)
      requires Valid()
      modifies this
      ensures Valid() && entries == Tidy(old(entries), keep, mode) && journal == old(journal) + steps
      ensures AllHold(steps, SlotSet(entries))
      ensures mode.Managed? ==>
        Resolved(Slots(entries), mode.recommended) == Resolved(Slots(old(entries)), mode.recommended)
      ensures mode.Configured? && mode.slot.Some? ==>
        forall s <- Slots(old(entries)) :: s.text == mode.slot.value ==> s in Slots(entries)
      ensures forall i | 0 <= i < |Slots(old(entries))| ::
        var s := Slots(old(entries))[i];
        s in Slots(entries) <==>
          || Outranking(Slots(old(entries)), i, |Slots(old(entries))|) < keep
          || (mode.Managed? && Resolved(Slots(old(entries)), mode.recommended) == Some(s.text))
          || (mode.Configured? && mode.slot == Some(s.text))
      ensures forall e <- entries :: e in old(entries) && !e.Temp?
    {
      TidyLeaves(entries, keep, mode);
      WithoutTempsKeepsSlots(entries);
      steps := RemoveTemps();
      var versions := VersionDirectories();
      if |versions| <= keep {
        return;
      }
      versions := NewestFirst(versions);
      var active := ResolveBinary(mode);
      ghost var pruning := Prune(versions[keep..], active);
      AllHoldShrinks(steps, old(entries), entries);
      AllHoldConcat(steps, pruning, SlotSet(entries));
      Regroup(old(journal), steps, pruning);
      steps := steps + pruning;
    }

    method Prune(doomed: seq<Slot>, active: Option<string>) returns (ghost steps: seq<seq<Entry>>)
      requires Valid()
      modifies this
      ensures Valid() && entries == Pruned(old(entries), doomed, active) && journal == old(journal) + steps
      ensures AllHold(steps, SlotSet(entries)) && SlotSet(entries) <= SlotSet(old(entries))
    {
      steps := [];
      for i := 0 to |doomed|
        invariant Valid() && Pruned(entries, doomed[i..], active) == Pruned(old(entries), doomed, active)
        invariant journal == old(journal) + steps && AllHold(steps, SlotSet(entries))
        invariant SlotSet(entries) <= SlotSet(old(entries))
      {
        assert doomed[i..][0] == doomed[i] && doomed[i..][1..] == doomed[i + 1..];
        if active != Some(doomed[i].text) {
          ghost var fuller := entries;
          RemoveVersion(doomed[i].text);
          StillHold(steps, fuller, entries);
          steps := steps + [entries];
        }
      }
    }

    /** Start-up after a crash, which may have left the directory in any state it has been in. */
    method Restart(left: seq<Entry>, keep: nat, mode: Mode)
      requires Valid() && left in journal
      modifies this
      ensures Valid() && entries == Tidy(left, keep, mode)
      ensures mode.Managed? ==>
        Resolved(Slots(entries), mode.recommended) == Resolved(Slots(left), mode.recommended)
      ensures mode.Configured? && mode.slot.Some? ==>
        forall s <- Slots(left) :: s.text == mode.slot.value ==> s in Slots(entries)
      ensures forall i | 0 <= i < |Slots(left)| ::
        var s := Slots(left)[i];
        s in Slots(entries) <==>
          || Outranking(Slots(left), i, |Slots(left)|) < keep
          || (mode.Managed? && Resolved(Slots(left), mode.recommended) == Some(s.text))
          || (mode.Configured? && mode.slot == Some(s.text))
      ensures forall e <- entries :: e in left && !e.Temp?
    {
      Become(left);
      ghost var removals := RemoveTemps();
      WithoutTempsKeepsSlots(left);
      NoTempsLeft(entries);
      ghost var cleanup := CleanupOldVersions(keep, mode);
      TidyLeaves(left, keep, mode);
    }

    /** The install proper, between the creation of the download's directory and its removal. */
    method InstallInTemps(
        distribution: Distribution, downloadId: nat, stagingId: nat, keep: nat, mode: Mode, env: Environment)
      returns (outcome: Outcome, ghost steps: seq<seq<Entry>>)
      requires Valid()
      requires downloadId != stagingId && Temp(downloadId) !in entries && Temp(stagingId) !in entries
      modifies this
      ensures Valid() && journal == old(journal) + steps
      ensures outcome == OutcomeOf(distribution, digest, env)
      ensures entries == EntriesAfter(old(entries), distribution, digest, keep, mode, env)
      ensures AllHold(steps, HeldDuring(old(entries), entries, distribution, digest, env))
    {
      TempComesAndGoes(entries, downloadId);
      Become(entries + [Temp(downloadId)]);
      ghost var inner;
      outcome, inner := StageIfVerified(distribution, stagingId, keep, mode, env);
      ghost var staged := entries;
      RemoveTemp(downloadId);
      RemoveTemp(stagingId);
      InstallLeaves(old(entries), distribution, digest, downloadId, stagingId, keep, mode, env);
      steps := [old(entries) + [Temp(downloadId)]] + inner
             + [WithoutTemp(staged, downloadId), WithoutTemp(WithoutTemp(staged, downloadId), stagingId)];
      StepsHold(old(entries), inner, staged, distribution, digest, downloadId, stagingId, env);
      FiveSteps(old(journal), old(entries) + [Temp(downloadId)], inner, WithoutTemp(staged, downloadId), entries);
    }

    /** One install, from the resolved distribution to the answer.  `downloadId` and `stagingId` name the two
        temporary directories.  A failure leaves the directory as it was and never touches a version slot on the
        way; and no crash in between can lose a version that the install keeps. */
    method DownloadVerifyStage(
        distribution: Distribution, downloadId: nat, stagingId: nat, keep: nat, mode: Mode, env: Environment)
      returns (outcome: Outcome, ghost steps: seq<seq<Entry>>)
      requires Valid()
      requires downloadId != stagingId && Temp(downloadId) !in entries && Temp(stagingId) !in entries
      modifies this
      ensures Valid() && journal == old(journal) + steps
      ensures entries == EntriesAfter(old(entries), distribution, digest, keep, mode, env)
      // when it succeeds, raises and fails,
      ensures outcome == OutcomeOf(distribution, digest, env)
      ensures
        var staged := && env.download.Fetched? && digest(env.download.content) == distribution.checksum
                      && !env.stopped && env.staged.Some?;
        && (outcome.Success? <==> staged && env.probe.Parsed? && env.renames)
        && (outcome.Raised? <==>
              || env.download.WriteFails?
              || (staged && (env.probe.ProbeRaises? || (env.probe.Parsed? && !env.renames))))
      ensures outcome == Failure ==> entries == old(entries)
      // what is installed then,
      ensures outcome.Success? ==>
        && outcome.text == distribution.text
        && forall s <- Slots(entries) :: s.text == distribution.text ==>
             s.content == env.download.content && s.pinned == distribution.checksum && s.hasBinary == env.staged.value
      ensures outcome.Success? && env.staged.value && mode == Managed(distribution.text) ==>
        Resolved(Slots(entries), distribution.text) == Some(distribution.text)
      // and what is there at every moment
      ensures forall k, s | 0 <= k < |steps| && s in Slots(steps[k]) :: Trusted(s, digest)
      ensures forall k, s | 0 <= k < |steps| && s in Slots(old(entries)) ::
        (outcome == Failure || (s.text != distribution.text && s in Slots(entries))) ==> s in Slots(steps[k])
    {
      outcome, steps := InstallInTemps(distribution, downloadId, stagingId, keep, mode, env);
      OutcomeMeans(distribution, digest, env);
      InstalledIs(old(entries), distribution, digest, keep, mode, env);
      StepsMean(old(journal), steps, old(entries), entries, distribution, env);
    }

    lemma StepsMean(
        before: seq<seq<Entry>>, steps: seq<seq<Entry>>, was: seq<Entry>, is_: seq<Entry>, distribution: Distribution,
        env: Environment)
      requires Valid() && journal == before + steps
      requires AllHold(steps, HeldDuring(was, is_, distribution, digest, env))
      ensures forall k, s | 0 <= k < |steps| && s in Slots(steps[k]) :: Trusted(s, digest)
      ensures forall k, s | 0 <= k < |steps| && s in Slots(was) ::
        (OutcomeOf(distribution, digest, env) == Failure || (s.text != distribution.text && s in Slots(is_))) ==>
          s in Slots(steps[k])
    {
      forall k | 0 <= k < |steps|
        ensures Sound(steps[k], digest)
      {
        assert journal[|before| + k] == steps[k];
      }
    }

    method StageIfVerified(
        distribution: Distribution, stagingId: nat, keep: nat, mode: Mode, env: Environment)
      returns (outcome: Outcome, ghost steps: seq<seq<Entry>>)
      requires Valid() && Temp(stagingId) !in entries
      modifies this
      ensures Valid() && journal == old(journal) + steps
      ensures outcome == OutcomeOf(distribution, digest, env)
      ensures entries == BeforeRemoval(old(entries), distribution, digest, stagingId, keep, mode, env)
      ensures AllHold(steps, HeldDuring(old(entries), entries, distribution, digest, env))
      ensures !Activates(distribution, digest, env) ==> Slots(entries) == Slots(old(entries))
    {
      if env.download.WriteFails? {
        return Raised, [];
      }
      if !Verified(distribution, digest, env) {
        return Failure, [];
      }
      TempComesAndGoes(entries, stagingId);
      outcome, steps := StageAndActivate(distribution, stagingId, keep, mode, env);
    }

    method StageAndActivate(
        distribution: Distribution, stagingId: nat, keep: nat, mode: Mode, env: Environment)
      returns (outcome: Outcome, ghost steps: seq<seq<Entry>>)
      requires Valid() && Temp(stagingId) !in entries && Verified(distribution, digest, env)
      modifies this
      ensures Valid() && journal == old(journal) + steps
      ensures outcome == OutcomeOf(distribution, digest, env)
      ensures entries == StagedAndActivated(old(entries), distribution, stagingId, keep, mode, digest, env)
      ensures AllHold(steps, HeldDuring(old(entries), entries, distribution, digest, env))
    {
      steps := Stage(stagingId, env);
      outcome := Failure;
      if env.staged.None? {
        return;
      }
      match env.probe
      case Unparsed =>
      case ProcessFails =>
      case ProbeRaises =>
        outcome := Raised;
      case Parsed =>
        ghost var others := Others(old(entries), ActivatedFrom(entries, distribution, stagingId, keep, mode, env),
                                   distribution.text);
        ghost var staging := steps;
        outcome, steps := Activate(distribution, stagingId, keep, mode, env);
        AllHoldConcat(staging, steps, others);
        Regroup(old(journal), staging, steps);
        steps := staging + steps;
    }

    /** The tool's own staging code, which may leave its directory behind when it fails. */
    method Stage(stagingId: nat, env: Environment) returns (ghost steps: seq<seq<Entry>>)
      requires Valid() && Temp(stagingId) !in entries
      modifies this
      ensures Valid() && journal == old(journal) + steps
      ensures entries == Staging(old(entries), stagingId, env) && Slots(entries) == Slots(old(entries))
      ensures AllHold(steps, SlotSet(old(entries)))
    {
      steps := [];
      if env.staged.Some? || env.leavesDirectory {
        TempComesAndGoes(entries, stagingId);
        Become(entries + [Temp(stagingId)]);
        steps := [entries];
      }
    }

    method Activate(
        distribution: Distribution, stagingId: nat, keep: nat, mode: Mode, env: Environment)
      returns (outcome: Outcome, ghost steps: seq<seq<Entry>>)
      requires Valid() && Activates(distribution, digest, env)
      modifies this
      ensures Valid() && journal == old(journal) + steps
      ensures outcome == if env.renames then Success(distribution.text) else Raised
      ensures entries == ActivatedFrom(old(entries), distribution, stagingId, keep, mode, env)
      ensures AllHold(steps, Others(old(entries), entries, distribution.text))
    {
      var moved;
      moved, steps := MoveIntoSlot(StagedSlot(distribution, env), stagingId, env.renames);
      if !moved {
        return Raised, steps;
      }
      ghost var cleanup := CleanupOldVersions(keep, mode);
      ghost var others := Others(old(entries), entries, distribution.text);
      assert others <= SlotSet(entries);
      AllHoldConcat(steps, cleanup, others);
      Regroup(old(journal), steps, cleanup);
      return Success(distribution.text), steps + cleanup;
    }

    /** The old tree of the slot is removed, then the staged one renamed into its place: in between, the slot is
        not there, and if the rename fails it stays away. */
    method MoveIntoSlot(slot: Slot, stagingId: nat, renames: bool)
      returns (moved: bool, ghost steps: seq<seq<Entry>>)
      requires Valid() && slot.probed && digest(slot.content) == slot.pinned
      modifies this
      ensures Valid() && moved == renames && journal == old(journal) + steps
      ensures entries == if moved then Renamed(old(entries), slot, stagingId) else Without(old(entries), slot.text)
      ensures AllHold(steps, set s | s in SlotSet(old(entries)) && s.text != slot.text)
    {
      SoundWithout(entries, slot.text, digest);
      RenameIsSound(entries, slot, stagingId, digest);
      MovingHolds(entries, slot, stagingId);
      Become(Without(entries, slot.text));
      steps := [entries];
      if renames {
        Become(WithoutTemp(entries, stagingId) + [Version(slot)]);
        steps := steps + [entries];
      }
      return renames, steps;
    }
  }
}
