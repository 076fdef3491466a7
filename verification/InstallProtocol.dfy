/** Managed installs under interleaving: install callers, download threads and the shared progress notifier,
    with every lock acquisition and every region under a lock as a step of its own. */
module InstallProtocol {

  datatype Option<+T> = None | Some(value: T)

  /** A managed tool, or the voice-models bundle with its separate installer. */
  datatype Artifact = Tool(id: nat) | Voice

  datatype Lock = InstallLock | ProgressLock | VoiceLock | GroupLock

  /** The order in which locks may be nested. */
  function Rank(l: Lock): nat {
    match l
    case InstallLock => 0
    case ProgressLock => 1
    case VoiceLock => 2
    case GroupLock => 3
  }

  /** The lock that guards an artifact's installing flag. */
  function FlagLock(a: Artifact): Lock {
    if a.Tool? then ProgressLock else VoiceLock
  }

  /** `Want…` waits for a lock; the name that follows it is the region the lock guards. */
  datatype CallerPc =
    | Arriving | WantEarlyCheck | EarlyCheck | Resolving
    | WantMark | Marking
    | WantEnsure | Ensuring | WantNotifier | SpawningNotifier | AssigningHandle(notifier: nat)
    | WantDownload | SpawningDownload
    | Returned

  datatype DownloaderPc =
    | WantInstall | Downloading | WantReport | Reporting | WantProbe | Probing
    | WantClear | Clearing | Ended

  /** `Leaving` has decided to exit and is about to clear the handle; `Dying` is alive but past its loop. */
  datatype NotifierPc =
    | Sleeping | WantCheck | Checking | WantVoice | ReadingVoice | Leaving | Pushing
    | Dying | Gone

  datatype Thread =
    | Caller(artifact: Artifact, caller: CallerPc)
    | Downloader(artifact: Artifact, downloader: DownloaderPc)
    | Notifier(notifier: NotifierPc)

  /** `accepting` says that the concurrency group still starts threads. */
  datatype State = State(
    installing: set<Artifact>,
    handle: Option<nat>,
    stopping: bool,
    accepting: bool,
    threads: seq<Thread>)

  datatype Action = Arrive(artifact: Artifact) | Stop | Close | Step(thread: nat, choice: bool)

  const INITIAL := State({}, None, false, true, [])

  function Held(t: Thread): set<Lock> {
    match t
    case Caller(a, pc) => (
      match pc
      case EarlyCheck | Ensuring | WantNotifier | AssigningHandle(_) => {ProgressLock}
      case Marking => {FlagLock(a)}
      case SpawningNotifier => {ProgressLock, GroupLock}
      case SpawningDownload => {GroupLock}
      case _ => {})
    case Downloader(a, pc) => (
      match pc
      case Downloading | WantReport | WantProbe => {InstallLock}
      case Reporting => {InstallLock, FlagLock(a)}
      case Probing => {InstallLock, GroupLock}
      case Clearing => {FlagLock(a)}
      case _ => {})
    case Notifier(pc) => (
      match pc
      case Checking | WantVoice | Leaving => {ProgressLock}
      case ReadingVoice => {ProgressLock, VoiceLock}
      case _ => {})
  }

  function Wants(t: Thread): Option<Lock> {
    match t
    case Caller(a, pc) => (
      match pc
      case WantEarlyCheck | WantEnsure => Some(ProgressLock)
      case WantMark => Some(FlagLock(a))
      case WantNotifier | WantDownload => Some(GroupLock)
      case _ => None)
    case Downloader(a, pc) => (
      match pc
      case WantInstall => Some(InstallLock)
      case WantReport | WantClear => Some(FlagLock(a))
      case WantProbe => Some(GroupLock)
      case _ => None)
    case Notifier(pc) => (
      match pc
      case WantCheck => Some(ProgressLock)
      case WantVoice => Some(VoiceLock)
      case _ => None)
  }

  predicate Over(t: Thread) {
    match t
    case Caller(_, pc) => pc.Returned?
    case Downloader(_, pc) => pc.Ended?
    case Notifier(pc) => pc.Gone?
  }

  predicate Free(s: State, l: Lock) {
    forall i :: 0 <= i < |s.threads| ==> l !in Held(s.threads[i])
  }

  predicate Enabled(s: State, a: Action) {
    match a
    case Arrive(_) | Stop | Close => true
    case Step(i, _) =>
      && i < |s.threads| && !Over(s.threads[i])
      && (Wants(s.threads[i]).Some? ==> Free(s, Wants(s.threads[i]).value))
  }

  predicate Alive(s: State, n: nat) {
    n < |s.threads| && s.threads[n].Notifier? && !s.threads[n].notifier.Gone?
  }

  /** What a step does: the thread moves on, may start another, and may change the shared fields. */
  datatype Effect = Effect(moved: Thread, started: seq<Thread>, installing: set<Artifact>, handle: Option<nat>)

  function CallerEffect(s: State, a: Artifact, pc: CallerPc, choice: bool): Effect {
    var here := Effect(Caller(a, pc), [], s.installing, s.handle);
    match pc
    case Arriving =>
      // refused during shutdown; a tool checks early whether it is already being installed
      here.(moved := Caller(a, if s.stopping then Returned else if a.Tool? then WantEarlyCheck else WantMark))
    case WantEarlyCheck => here.(moved := Caller(a, EarlyCheck))
    case EarlyCheck => here.(moved := Caller(a, if a in s.installing then Returned else Resolving))
    case Resolving => here.(moved := Caller(a, if choice then WantMark else Returned))
    case WantMark => here.(moved := Caller(a, Marking))
    case Marking =>
      if a in s.installing then here.(moved := Caller(a, Returned))
      else here.(moved := Caller(a, WantEnsure), installing := s.installing + {a})
    case WantEnsure => here.(moved := Caller(a, Ensuring))
    case Ensuring =>
      here.(moved := Caller(a, if s.handle.Some? && Alive(s, s.handle.value) then WantDownload else WantNotifier))
    case WantNotifier => here.(moved := Caller(a, SpawningNotifier))
    case SpawningNotifier =>
      if s.accepting then here.(moved := Caller(a, AssigningHandle(|s.threads|)), started := [Notifier(Sleeping)])
      else here.(moved := Caller(a, Returned))
    case AssigningHandle(n) => here.(moved := Caller(a, WantDownload), handle := Some(n))
    case WantDownload => here.(moved := Caller(a, SpawningDownload))
    case SpawningDownload =>
      here.(moved := Caller(a, Returned), started := if s.accepting then [Downloader(a, WantInstall)] else [])
    case Returned => here
  }

  /** `choice` decides whether the download reports or probes next, and whether it goes on. */
  function DownloaderEffect(s: State, a: Artifact, pc: DownloaderPc, choice: bool): Effect {
    var here := Effect(Downloader(a, pc), [], s.installing, s.handle);
    match pc
    case WantInstall => here.(moved := Downloader(a, Downloading))
    case Downloading => here.(moved := Downloader(a, if choice then WantReport else WantProbe))
    case WantReport => here.(moved := Downloader(a, Reporting))
    case Reporting => here.(moved := Downloader(a, if choice then Downloading else WantClear))
    case WantProbe => here.(moved := Downloader(a, Probing))
    case Probing => here.(moved := Downloader(a, if choice then Downloading else WantClear))
    case WantClear => here.(moved := Downloader(a, Clearing))
    case Clearing => here.(moved := Downloader(a, Ended), installing := s.installing - {a})
    case Ended => here
  }

  function NotifierEffect(s: State, pc: NotifierPc): Effect {
    var here := Effect(Notifier(pc), [], s.installing, s.handle);
    match pc
    case Sleeping => here.(moved := Notifier(if s.stopping then Dying else WantCheck))
    case WantCheck => here.(moved := Notifier(Checking))
    case Checking => here.(moved := Notifier(if exists a <- s.installing :: a.Tool? then Pushing else WantVoice))
    case WantVoice => here.(moved := Notifier(ReadingVoice))
    case ReadingVoice => here.(moved := Notifier(if Voice in s.installing then Pushing else Leaving))
    case Leaving => here.(moved := Notifier(Dying), handle := None)
    case Pushing => here.(moved := Notifier(if s.accepting then Sleeping else Dying))
    case Dying => here.(moved := Notifier(Gone))
    case Gone => here
  }

  function EffectOf(s: State, t: Thread, choice: bool): Effect {
    match t
    case Caller(a, pc) => CallerEffect(s, a, pc, choice)
    case Downloader(a, pc) => DownloaderEffect(s, a, pc, choice)
    case Notifier(pc) => NotifierEffect(s, pc)
  }

  function Next(s: State, a: Action): State
    requires Enabled(s, a)
  {
    match a
    case Arrive(artifact) => s.(threads := s.threads + [Caller(artifact, Arriving)])
    case Stop => s.(stopping := true)
    case Close => s.(accepting := false)
    case Step(i, choice) =>
      var e := EffectOf(s, s.threads[i], choice);
      s.(threads := s.threads[i := e.moved] + e.started, installing := e.installing, handle := e.handle)
  }

  predicate IsRun(states: seq<State>, actions: seq<Action>) {
    && |states| == |actions| + 1
    && states[0] == INITIAL
    && forall i :: 0 <= i < |actions| ==> Enabled(states[i], actions[i]) && states[i + 1] == Next(states[i], actions[i])
  }
}
