/** Staging built artifacts in S3 and publishing them from there. */
module Publication {

  datatype Target = LinuxX64 | LinuxArm64 | MacArm64

  datatype Stage = Built | Rc | Stable | Dev

  /** A path as its segments; on the wire they are joined by slashes. */
  type Path = seq<string>

  datatype ArtifactFile = ArtifactFile(input: Path, outputs: seq<Path>)

  /** What a build is known by. `pedantic` is the version as Electron spells it. */
  datatype Build = Build(version: string, pedantic: string, sha: string, pipeline: string)

  const TARGETS := [LinuxX64, LinuxArm64, MacArm64]

  predicate NonBlocking(target: Target) {
    target == LinuxArm64
  }

  function FilesOf(target: Target, build: Build): seq<ArtifactFile> {
    match target
    case LinuxX64 => [
        ArtifactFile(["AppImage", "x64", "Sculptor.AppImage"],
                     [["AppImage", "x64", "Sculptor.AppImage"],
                      ["AppImage", "x64", "Sculptor-" + build.version + ".AppImage"]]),
        ArtifactFile(["AppImage", "x64", "latest-linux.yml"], [["AppImage", "x64", "latest-linux.yml"]])]
    case LinuxArm64 => [
        ArtifactFile(["AppImage", "arm64", "Sculptor.AppImage"],
                     [["AppImage", "arm64", "Sculptor.AppImage"],
                      ["AppImage", "arm64", "Sculptor-" + build.version + ".AppImage"]]),
        ArtifactFile(["AppImage", "arm64", "latest-linux-arm64.yml"],
                     [["AppImage", "arm64", "latest-linux-arm64.yml"]])]
    case MacArm64 => [
        ArtifactFile(["Sculptor.dmg"], [["Sculptor.dmg"], ["Sculptor-" + build.version + ".dmg"]]),
        ArtifactFile(["zip", "darwin", "arm64", "Sculptor-darwin-arm64-" + build.pedantic + ".zip"],
                     [["zip", "darwin", "arm64", "Sculptor-darwin-arm64-" + build.pedantic + ".zip"]]),
        ArtifactFile(["zip", "darwin", "arm64", "latest-mac.yml"], [["zip", "darwin", "arm64", "latest-mac.yml"]])]
  }

  function BuiltPrefix(build: Build): Path {
    ["s3:", "", "imbue-sculptor-builds", "slim", build.sha]
  }

  function DevPrefix(build: Build): Path {
    ["s3:", "", "imbue-sculptor-builds", "slim-dev", build.sha, build.pipeline]
  }

  function InputPrefix(stage: Stage, build: Build): Path {
    match stage
    case Built => ["..", "dist"]
    case Rc => BuiltPrefix(build)
    case Stable => BuiltPrefix(build)
    case Dev => DevPrefix(build)
  }

  function OutputPrefix(stage: Stage, build: Build): Path {
    match stage
    case Built => BuiltPrefix(build)
    case Rc => ["s3:", "", "imbue-sculptor-releases", "slim-rc"]
    case Stable => ["s3:", "", "imbue-sculptor-releases", "slim"]
    case Dev => ["s3:", "", "imbue-sculptor-releases", "slim-dev", build.version]
  }

  function Placed(file: ArtifactFile, stage: Stage, build: Build): ArtifactFile {
    ArtifactFile(InputPrefix(stage, build) + file.input,
                 seq(|file.outputs|, i requires 0 <= i < |file.outputs| =>
                   OutputPrefix(stage, build) + file.outputs[i]))
  }

  function PlacedAll(files: seq<ArtifactFile>, stage: Stage, build: Build): seq<ArtifactFile> {
    seq(|files|, i requires 0 <= i < |files| => Placed(files[i], stage, build))
  }

  /** The files of a target with their places in a stage. */
  function ArtifactsFor(target: Target, stage: Stage, build: Build): seq<ArtifactFile> {
    PlacedAll(FilesOf(target, build), stage, build)
  }

  // ---------------------------------------------------------------- joining and splitting paths

  function Join(path: Path): string {
    if path == [] then ""
    else if |path| == 1 then path[0]
    else path[0] + "/" + Join(path[1..])
  }

  predicate EndsWith(s: string, suffix: string) {
    |suffix| <= |s| && s[|s| - |suffix|..] == suffix
  }

  predicate StartsWith(s: string, prefix: string) {
    |prefix| <= |s| && s[..|prefix|] == prefix
  }

  /** What comes after the first occurrence of the separator, or everything if there is none. */
  function AfterFirst(s: string, separator: string): string {
    var rest := Occurrence(s, separator);
    if rest.Some? then rest.value else s
  }

  datatype Option<+T> = None | Some(value: T)

  function Occurrence(s: string, separator: string): Option<string> {
    if StartsWith(s, separator) then Some(s[|separator|..])
    else if s == "" then None
    else Occurrence(s[1..], separator)
  }

  predicate NoSlash(s: string) {
    '/' !in s
  }

  /** The segments after the first one, the last excepted, that ends in `word`. */
  function Cut(path: Path, word: string): Option<Path> {
    if |path| <= 1 then None
    else if EndsWith(path[0], word) then Some(path[1..])
    else Cut(path[1..], word)
  }

  /** Inside one segment the separator is found only at the very end of the segment. */
  lemma {:induction false} OccurrenceInSegment(segment: string, rest: string, word: string)
    requires NoSlash(segment) && NoSlash(word)
    ensures Occurrence(segment + "/" + rest, word + "/")
         == if EndsWith(segment, word) then Some(rest) else Occurrence(rest, word + "/")
    decreases |segment|
  {
    var s := segment + "/" + rest;
    StartsAtSegment(segment, rest, word);
    if segment == word {
      assert s[|word + "/"|..] == rest;
    } else if segment == "" {
      assert s[1..] == rest;
    } else {
      assert s[1..] == segment[1..] + "/" + rest;
      OccurrenceInSegment(segment[1..], rest, word);
      SuffixOfTail(segment, word);
    }
  }

  lemma {:induction false} StartsAtSegment(segment: string, rest: string, word: string)
    requires NoSlash(segment) && NoSlash(word)
    ensures StartsWith(segment + "/" + rest, word + "/") <==> segment == word
  {
    var s, separator := segment + "/" + rest, word + "/";
    StartsPointwise(s, separator);
    if |word| < |segment| {
      assert separator[|word|] == '/' && s[|word|] == segment[|word|] && segment[|word|] in segment;
    } else if |segment| < |word| {
      assert s[|segment|] == '/' && separator[|segment|] == word[|segment|] && word[|segment|] in word;
    } else {
      assert s[..|separator|] == segment + "/";
      assert (segment + "/")[..|word|] == segment && separator[..|word|] == word;
    }
  }

  lemma {:induction false} StartsPointwise(s: string, prefix: string)
    ensures StartsWith(s, prefix) <==> |prefix| <= |s| && forall i | 0 <= i < |prefix| :: s[i] == prefix[i]
  {
    if |prefix| <= |s| {
      assert forall i | 0 <= i < |prefix| :: s[..|prefix|][i] == s[i];
    }
  }

  lemma {:induction false} SuffixOfTail(s: string, suffix: string)
    requires s != ""
    ensures EndsWith(s, suffix) <==> s == suffix || EndsWith(s[1..], suffix)
  {
    if |suffix| < |s| {
      assert s[1..][|s[1..]| - |suffix|..] == s[|s| - |suffix|..];
    }
  }

  lemma {:induction false} NoneInLast(segment: string, word: string)
    requires NoSlash(segment)
    ensures Occurrence(segment, word + "/").None?
    decreases |segment|
  {
    StartsPointwise(segment, word + "/");
    assert (word + "/")[|word|] == '/';
    if |word| < |segment| {
      assert segment[|word|] in segment;
    }
    if segment != "" {
      NoneInLast(segment[1..], word);
    }
  }

  /** Splitting a joined path once at a word and a slash cuts it after the first segment that ends in the word. */
  lemma {:induction false} SplittingCuts(path: Path, word: string)
    requires path != [] && NoSlash(word) && forall segment <- path :: NoSlash(segment)
    ensures AfterFirst(Join(path), word + "/")
         == if Cut(path, word).Some? then Join(Cut(path, word).value) else Join(path)
  {
    OccurrenceIsCut(path, word);
  }

  lemma {:induction false} OccurrenceIsCut(path: Path, word: string)
    requires path != [] && NoSlash(word) && forall segment <- path :: NoSlash(segment)
    ensures Occurrence(Join(path), word + "/")
         == if Cut(path, word).Some? then Some(Join(Cut(path, word).value)) else None
    decreases |path|
  {
    if |path| == 1 {
      NoneInLast(path[0], word);
    } else {
      OccurrenceInSegment(path[0], Join(path[1..]), word);
      OccurrenceIsCut(path[1..], word);
    }
  }

  lemma {:induction false} JoinConcat(a: Path, b: Path)
    requires a != [] && b != []
    ensures Join(a + b) == Join(a) + "/" + Join(b)
    decreases |a|
  {
    assert (a + b)[0] == a[0] && (a + b)[1..] == a[1..] + b;
    if |a| > 1 {
      JoinConcat(a[1..], b);
    } else {
      assert (a + b)[1..] == b;
    }
  }

  // ---------------------------------------------------------------- staging and looking up

  /** Where the dev staging puts a file: its place in the built stage with everything up to the commit replaced. */
  function DevDestination(built: Path, build: Build): string {
    Join(DevPrefix(build)) + "/" + AfterFirst(Join(built), build.sha + "/")
  }

  /** The commit's name is not how an earlier segment of the built prefix ends; a full hash never is. */
  predicate Telling(sha: string) {
    && !EndsWith("s3:", sha) && !EndsWith("", sha) && !EndsWith("imbue-sculptor-builds", sha) && !EndsWith("slim", sha)
  }

  /** The place of the segment the split cuts after. */
  function CutPlace(sha: string): nat {
    if EndsWith("s3:", sha) then 0
    else if EndsWith("", sha) then 1
    else if EndsWith("imbue-sculptor-builds", sha) then 2
    else if EndsWith("slim", sha) then 3
    else 4
  }

  lemma {:induction false} CutOfBuilt(file: Path, build: Build)
    requires file != []
    ensures Cut(BuiltPrefix(build) + file, build.sha) == Some((BuiltPrefix(build) + file)[CutPlace(build.sha) + 1..])
  {
    var path := BuiltPrefix(build) + file;
    assert path[0] == "s3:" && path[1] == "" && path[2] == "imbue-sculptor-builds" && path[3] == "slim";
    assert path[4] == build.sha && EndsWith(build.sha, build.sha);
    CutAt(path, build.sha, CutPlace(build.sha));
  }

  lemma {:induction false} CutAt(path: Path, word: string, i: nat)
    requires i + 1 < |path| && forall k | 0 <= k < i :: !EndsWith(path[k], word)
    ensures EndsWith(path[i], word) ==> Cut(path, word) == Some(path[i + 1..])
    decreases i
  {
    if i > 0 {
      assert !EndsWith(path[0], word);
      CutAt(path[1..], word, i - 1);
      assert path[1..][i..] == path[i + 1..];
    }
  }

  lemma {:induction false} LongerJoin(front: Path, file: Path)
    requires front != [] && file != []
    ensures |Join(front + file)| > |Join(file)|
  {
    JoinConcat(front, file);
  }

  /** What staging keeps of a file's place: what follows the segment the split cuts after. */
  lemma {:induction false} StagedAt(file: Path, build: Build)
    requires file != [] && (forall segment <- file :: NoSlash(segment)) && NoSlash(build.sha)
    ensures
      DevDestination(BuiltPrefix(build) + file, build)
      == Join(DevPrefix(build)) + "/" + Join(BuiltPrefix(build)[CutPlace(build.sha) + 1..] + file)
  {
    var place, prefix := CutPlace(build.sha), BuiltPrefix(build);
    BuiltIsClean(file, build);
    SplittingCuts(prefix + file, build.sha);
    CutOfBuilt(file, build);
    RestOfConcat(prefix, file, place + 1);
  }

  lemma {:induction false} RestOfConcat(front: Path, file: Path, n: nat)
    requires n <= |front|
    ensures (front + file)[n..] == front[n..] + file
  {
  }

  lemma {:induction false} BuiltIsClean(file: Path, build: Build)
    requires (forall segment <- file :: NoSlash(segment)) && NoSlash(build.sha)
    ensures forall segment <- BuiltPrefix(build) + file :: NoSlash(segment)
  {
    forall segment <- BuiltPrefix(build)
      ensures NoSlash(segment)
    {
    }
  }

  /** Publishing a dev build looks for a file exactly where staging has put it, if and only if the commit's name is
      not the ending of one of the segments before it. */
  lemma {:induction false} DevLookupFindsStagedExactlyWhen(file: Path, build: Build)
    requires file != [] && (forall segment <- file :: NoSlash(segment)) && NoSlash(build.sha)
    ensures DevDestination(BuiltPrefix(build) + file, build) == Join(InputPrefix(Dev, build) + file)
       <==> Telling(build.sha)
  {
    var rest := BuiltPrefix(build)[CutPlace(build.sha) + 1..];
    StagedAt(file, build);
    JoinConcat(DevPrefix(build), file);
    if Telling(build.sha) {
      assert rest + file == file;
    } else {
      LongerJoin(rest, file);
    }
  }

  /** Where the snapshot of a build puts one file. */
  function Destination(isDev: bool, output: Path, build: Build): string {
    if isDev then DevDestination(output, build) else Join(output)
  }

  function DestinationsOf(isDev: bool, file: ArtifactFile, build: Build): seq<string> {
    seq(|file.outputs|, i requires 0 <= i < |file.outputs| => Destination(isDev, file.outputs[i], build))
  }

  function Destinations(isDev: bool, files: seq<ArtifactFile>, build: Build): seq<string> {
    if files == [] then []
    else Destinations(isDev, files[..|files| - 1], build) + DestinationsOf(isDev, files[|files| - 1], build)
  }

  /** Stages the files a machine has just built; a dev build needs its pipeline's number. */
  method SnapshotBuildArtifacts(target: Target, isDev: bool, build: Build) returns (staged: bool, written: seq<string>)
    ensures staged <==> !(isDev && build.pipeline == "")
    ensures written == if staged then Destinations(isDev, ArtifactsFor(target, Built, build), build) else []
  {
    if isDev && build.pipeline == "" {
      return false, [];
    }
    var files := ArtifactsFor(target, Built, build);
    written := [];
    for i := 0 to |files|
      invariant written == Destinations(isDev, files[..i], build)
    {
      assert files[..i + 1][..i] == files[..i];
      var copied := SnapshotFile(isDev, files[i], build);
      written := written + copied;
    }
    assert files[..|files|] == files;
    staged := true;
  }

  method SnapshotFile(isDev: bool, file: ArtifactFile, build: Build) returns (copied: seq<string>)
    ensures copied == DestinationsOf(isDev, file, build)
  {
    copied := [];
    for j := 0 to |file.outputs|
      invariant |copied| == j && forall k | 0 <= k < j :: copied[k] == Destination(isDev, file.outputs[k], build)
    {
      copied := copied + [Destination(isDev, file.outputs[j], build)];
    }
  }

  lemma {:induction false} FirstDestinationWritten(isDev: bool, files: seq<ArtifactFile>, build: Build, i: nat)
    requires i < |files| && files[i].outputs != []
    ensures Destination(isDev, files[i].outputs[0], build) in Destinations(isDev, files, build)
    decreases |files|
  {
    if i == |files| - 1 {
      assert DestinationsOf(isDev, files[i], build)[0] == Destination(isDev, files[i].outputs[0], build);
    } else {
      FirstDestinationWritten(isDev, files[..|files| - 1], build, i);
    }
  }

  predicate Clean(path: Path) {
    path != [] && forall segment <- path :: NoSlash(segment)
  }

  lemma {:induction false} FilesAreClean(target: Target, build: Build)
    requires NoSlash(build.version) && NoSlash(build.pedantic)
    ensures forall file <- FilesOf(target, build) :: Clean(file.input)
  {
  }

  lemma {:induction false} FirstPlaced(file: ArtifactFile, build: Build)
    requires file.outputs != [] && file.outputs[0] == file.input
    ensures
      var outputs := Placed(file, Built, build).outputs;
      outputs != [] && outputs[0] == BuiltPrefix(build) + file.input
  {
    assert OutputPrefix(Built, build) == BuiltPrefix(build);
    assert |Placed(file, Built, build).outputs| == |file.outputs|;
  }

  /** Every source that publishing looks up is a path that the snapshot of the same build has written. */
  lemma {:induction false} LookupsFindSnapshots(target: Target, stage: Stage, build: Build, i: nat)
    requires stage != Built && i < |FilesOf(target, build)|
    requires NoSlash(build.version) && NoSlash(build.pedantic) && NoSlash(build.sha) && Telling(build.sha)
    ensures Join(ArtifactsFor(target, stage, build)[i].input)
         in Destinations(stage == Dev, ArtifactsFor(target, Built, build), build)
  {
    var file, files := FilesOf(target, build)[i], ArtifactsFor(target, Built, build);
    assert file in FilesOf(target, build);
    FilesAreClean(target, build);
    InputIsFirstOutput(target, build);
    FirstPlaced(file, build);
    assert files[i] == Placed(file, Built, build);
    FirstDestinationWritten(stage == Dev, files, build, i);
    if stage == Dev {
      DevLookupFindsStagedExactlyWhen(file.input, build);
    }
  }

  // ---------------------------------------------------------------- publishing

  datatype Copy = Copy(source: Path, destination: Path)

  /** Every copy of one artifact file. */
  function CopiesOf(file: ArtifactFile): seq<Copy> {
    seq(|file.outputs|, i requires 0 <= i < |file.outputs| => Copy(file.input, file.outputs[i]))
  }

  function AllCopies(files: seq<ArtifactFile>): seq<Copy> {
    if files == [] then [] else AllCopies(files[..|files| - 1]) + CopiesOf(files[|files| - 1])
  }

  /** The stages a version is published to. */
  function StagesFor(isDev: bool, isPrerelease: bool): seq<Stage> {
    if isDev then [Dev] else if isPrerelease then [Rc] else [Rc, Stable]
  }

  /** All files of a target in the given stages. */
  function Wanted(target: Target, stages: seq<Stage>, build: Build): seq<ArtifactFile> {
    if stages == [] then []
    else Wanted(target, stages[..|stages| - 1], build) + ArtifactsFor(target, stages[|stages| - 1], build)
  }

  predicate Complete(files: seq<ArtifactFile>, objects: set<Path>) {
    forall file <- files :: file.input in objects
  }

  /** What is to be copied: the complete targets whole, the others not at all. */
  function PublishedCopies(targets: seq<Target>, stages: seq<Stage>, build: Build, objects: set<Path>): seq<Copy> {
    if targets == [] then []
    else
      var wanted := Wanted(targets[|targets| - 1], stages, build);
      PublishedCopies(targets[..|targets| - 1], stages, build, objects)
      + if Complete(wanted, objects) then AllCopies(wanted) else []
  }

  /** Publishing works by reading back what the first output path of the built stage was written as. */
  lemma {:induction false} InputIsFirstOutput(target: Target, build: Build)
    ensures forall file <- FilesOf(target, build) :: file.outputs != [] && file.outputs[0] == file.input
  {
  }

  /** A required target whose sources are not all there. */
  predicate Blocks(target: Target, files: seq<ArtifactFile>, objects: set<Path>) {
    !NonBlocking(target) && !Complete(files, objects)
  }

  /** Checks the sources of every target: a required one that is incomplete blocks the whole publication, the
      others are dropped wholesale when they are. */
  method Review(wanted: seq<seq<ArtifactFile>>, objects: set<Path>)
    returns (blocked: bool, kept: seq<seq<ArtifactFile>>)
    requires |wanted| == |TARGETS|
    ensures |kept| == |wanted|
    ensures blocked <==> exists k | 0 <= k < |wanted| :: Blocks(TARGETS[k], wanted[k], objects)
    ensures forall k | 0 <= k < |wanted| ::
      kept[k] == if NonBlocking(TARGETS[k]) && !Complete(wanted[k], objects) then [] else wanted[k]
  {
    blocked, kept := false, [];
    for i := 0 to |wanted|
      invariant |kept| == i
      invariant blocked <==> exists k | 0 <= k < i :: Blocks(TARGETS[k], wanted[k], objects)
      invariant forall k | 0 <= k < i ::
        kept[k] == if NonBlocking(TARGETS[k]) && !Complete(wanted[k], objects) then [] else wanted[k]
    {
      var missing := exists file: ArtifactFile <- wanted[i] :: file.input !in objects;
      if !missing {
        kept := kept + [wanted[i]];
      } else if NonBlocking(TARGETS[i]) {
        kept := kept + [[]];
      } else {
        assert Blocks(TARGETS[i], wanted[i], objects);
        blocked, kept := true, kept + [wanted[i]];
      }
    }
  }

  /** Development files are told apart by their pipeline, without which there is nothing to publish. */
  predicate Addressable(stage: Stage, build: Build) {
    stage == Dev ==> build.pipeline != ""
  }

  lemma {:induction false} StagesAreAddressable(isDev: bool, isPrerelease: bool, build: Build)
    ensures (forall stage <- StagesFor(isDev, isPrerelease) :: Addressable(stage, build))
            <==> (isDev ==> build.pipeline != "")
  {
    var stages := StagesFor(isDev, isPrerelease);
    if isDev {
      assert stages[0] == Dev && stages[0] in stages;
      assert Addressable(Dev, build) <==> build.pipeline != "";
    } else {
      assert forall stage <- stages :: stage == Rc || stage == Stable;
    }
  }

  /** The publish command with its checks on; an error of any kind publishes nothing. */
  method PublishBuildArtifacts(isDev: bool, isPrerelease: bool, build: Build, objects: set<Path>)
    returns (published: bool, copies: seq<Copy>)
    ensures published <==>
      && (isDev ==> build.pipeline != "")
      && forall k | 0 <= k < |TARGETS| ::
           !Blocks(TARGETS[k], Wanted(TARGETS[k], StagesFor(isDev, isPrerelease), build), objects)
    ensures published <==>
      && (isDev ==> build.pipeline != "")
      && AllThere(LinuxX64, isDev, build, objects) && AllThere(MacArm64, isDev, build, objects)
    ensures copies
         == if published then PublishedCopies(TARGETS, StagesFor(isDev, isPrerelease), build, objects) else []
  {
    var stages := StagesFor(isDev, isPrerelease);
    StagesAreAddressable(isDev, isPrerelease, build);
    PublishedExactlyWhen(isDev, isPrerelease, build, objects);
    var collected, wanted := Collect(stages, build);
    if !collected {
      return false, [];
    }
    var blocked, kept := Review(wanted, objects);
    if blocked {
      return false, [];
    }
    published := true;
    copies := CopyAll(stages, build, objects, wanted, kept);
  }

  /** Copies the targets that are left one after the other. */
  method CopyAll(stages: seq<Stage>, build: Build, objects: set<Path>, wanted: seq<seq<ArtifactFile>>,
                 kept: seq<seq<ArtifactFile>>)
    returns (copies: seq<Copy>)
    requires |wanted| == |kept| == |TARGETS|
    requires forall k | 0 <= k < |TARGETS| ::
      && wanted[k] == Wanted(TARGETS[k], stages, build)
      && !Blocks(TARGETS[k], wanted[k], objects)
      && kept[k] == if NonBlocking(TARGETS[k]) && !Complete(wanted[k], objects) then [] else wanted[k]
    ensures copies == PublishedCopies(TARGETS, stages, build, objects)
  {
    copies := [];
    for k := 0 to |TARGETS|
      invariant copies == PublishedCopies(TARGETS[..k], stages, build, objects)
    {
      assert !Blocks(TARGETS[k], wanted[k], objects);
      PublishedNext(k, stages, build, objects);
      copies := copies + AllCopies(kept[k]);
    }
    assert TARGETS[..|TARGETS|] == TARGETS;
  }

  lemma {:induction false} PublishedNext(k: nat, stages: seq<Stage>, build: Build, objects: set<Path>)
    requires k < |TARGETS|
    ensures PublishedCopies(TARGETS[..k + 1], stages, build, objects)
         == PublishedCopies(TARGETS[..k], stages, build, objects)
            + if Complete(Wanted(TARGETS[k], stages, build), objects) then AllCopies(Wanted(TARGETS[k], stages, build))
              else []
  {
    assert TARGETS[..k + 1][..k] == TARGETS[..k];
  }

  method Collect(stages: seq<Stage>, build: Build) returns (collected: bool, artifacts: seq<seq<ArtifactFile>>)
    ensures collected <==> forall stage <- stages :: Addressable(stage, build)
    ensures collected ==> |artifacts| == |TARGETS|
    ensures collected ==> forall k | 0 <= k < |TARGETS| :: artifacts[k] == Wanted(TARGETS[k], stages, build)
  {
    artifacts := [[], [], []];
    for s := 0 to |stages|
      invariant forall i | 0 <= i < s :: Addressable(stages[i], build)
      invariant |artifacts| == |TARGETS|
      invariant forall k | 0 <= k < |TARGETS| :: artifacts[k] == Wanted(TARGETS[k], stages[..s], build)
    {
      assert stages[..s + 1][..s] == stages[..s];
      if stages[s] == Dev && build.pipeline == "" {
        assert !Addressable(stages[s], build) && stages[s] in stages;
        return false, [];
      }
      artifacts := seq(3, k requires 0 <= k < 3 && |artifacts| == 3 =>
        artifacts[k] + ArtifactsFor(TARGETS[k], stages[s], build));
    }
    assert stages[..|stages|] == stages;
    collected := true;
  }

  /** The copy belongs to a target whose sources are all there. */
  predicate Offers(target: Target, copy: Copy, stages: seq<Stage>, build: Build, objects: set<Path>) {
    Complete(Wanted(target, stages, build), objects) && copy in AllCopies(Wanted(target, stages, build))
  }

  /** All or nothing, target by target: a copy is made exactly when all sources of its target are there. */
  lemma {:induction false} TargetsAreWhole(stages: seq<Stage>, build: Build, objects: set<Path>, target: Target)
    ensures forall copy ::
      Offers(target, copy, stages, build, objects) ==> copy in PublishedCopies(TARGETS, stages, build, objects)
    ensures forall copy <- PublishedCopies(TARGETS, stages, build, objects) ::
      exists t <- TARGETS :: Offers(t, copy, stages, build, objects)
  {
    PublishedCopiesAre(TARGETS, stages, build, objects);
    assert target in TARGETS by {
      assert TARGETS[0] == LinuxX64 && TARGETS[1] == LinuxArm64 && TARGETS[2] == MacArm64;
    }
  }

  lemma {:induction false} PublishedCopiesAre(targets: seq<Target>, stages: seq<Stage>, build: Build,
                                              objects: set<Path>)
    ensures forall copy :: copy in PublishedCopies(targets, stages, build, objects) <==>
      exists t <- targets :: Offers(t, copy, stages, build, objects)
  {
    if targets != [] {
      var before, last := targets[..|targets| - 1], targets[|targets| - 1];
      PublishedCopiesAre(before, stages, build, objects);
      forall copy
        ensures copy in PublishedCopies(targets, stages, build, objects) <==>
          exists t <- targets :: Offers(t, copy, stages, build, objects)
      {
        assert (exists t <- targets :: Offers(t, copy, stages, build, objects)) <==>
          (exists t <- before :: Offers(t, copy, stages, build, objects)) || Offers(last, copy, stages, build, objects);
      }
    }
  }

  // ---------------------------------------------------------------- where the copies go

  /** A place in the bucket of releases, and one in the bucket of builds. */
  function Released(area: seq<string>, file: Path): Path {
    ["s3:", "", "imbue-sculptor-releases"] + area + file
  }

  function Staged(area: seq<string>, file: Path): Path {
    ["s3:", "", "imbue-sculptor-builds"] + area + file
  }

  lemma {:induction false} AllCopiesAre(files: seq<ArtifactFile>, copy: Copy)
    ensures copy in AllCopies(files) <==>
      exists file <- files :: copy.source == file.input && copy.destination in file.outputs
  {
    if files != [] {
      var before, last := files[..|files| - 1], files[|files| - 1];
      AllCopiesAre(before, copy);
      assert forall file :: file in files <==> file in before || file == last;
      if copy.source == last.input && copy.destination in last.outputs {
        var i :| 0 <= i < |last.outputs| && last.outputs[i] == copy.destination;
        assert CopiesOf(last)[i] == copy;
      }
    }
  }

  lemma {:induction false} WantedAre(target: Target, stages: seq<Stage>, build: Build, file: ArtifactFile)
    ensures file in Wanted(target, stages, build) <==>
      exists stage <- stages :: file in ArtifactsFor(target, stage, build)
  {
    if stages != [] {
      var before, last := stages[..|stages| - 1], stages[|stages| - 1];
      WantedAre(target, before, build, file);
      assert forall stage :: stage in stages <==> stage in before || stage == last;
    }
  }

  /** The copy takes one of the target's files in one of its outputs from the place of the stage to its release. */
  predicate Takes(copy: Copy, file: ArtifactFile, output: Path, stage: Stage, build: Build) {
    && output in file.outputs
    && copy == Copy(InputPrefix(stage, build) + file.input, OutputPrefix(stage, build) + output)
  }

  lemma {:induction false} CopyTakes(target: Target, stages: seq<Stage>, build: Build, copy: Copy)
    returns (stage: Stage, file: ArtifactFile, output: Path)
    requires copy in AllCopies(Wanted(target, stages, build))
    ensures stage in stages && file in FilesOf(target, build) && Takes(copy, file, output, stage, build)
  {
    AllCopiesAre(Wanted(target, stages, build), copy);
    var placed :| placed in Wanted(target, stages, build)
      && copy.source == placed.input && copy.destination in placed.outputs;
    stage, file := WantedIsPlaced(target, stages, build, placed);
    var k :| 0 <= k < |file.outputs| && placed.outputs[k] == copy.destination;
    output := file.outputs[k];
  }

  lemma {:induction false} TakenIsCopied(
    target: Target, stages: seq<Stage>, build: Build, stage: Stage, file: ArtifactFile, output: Path, copy: Copy)
    requires stage in stages && file in FilesOf(target, build) && Takes(copy, file, output, stage, build)
    ensures copy in AllCopies(Wanted(target, stages, build))
  {
    var placed := Placed(file, stage, build);
    PlacedIsWanted(target, stages, build, stage, file);
    var k :| 0 <= k < |file.outputs| && file.outputs[k] == output;
    assert placed.outputs[k] == copy.destination;
    AllCopiesAre(Wanted(target, stages, build), copy);
  }

  /** Nothing strays: a development build goes from its own pipeline's files to its own version's directory, a
      pre-release to the candidates only, a final release to the candidates and the stable files, and each copy is
      one of the target's files under one of the names it is to have. */
  lemma {:induction false} CopiesStayInPlace(
    isDev: bool, isPrerelease: bool, target: Target, build: Build, copy: Copy)
    requires copy in AllCopies(Wanted(target, StagesFor(isDev, isPrerelease), build))
    ensures exists file, output | file in FilesOf(target, build) && output in file.outputs ::
      if isDev then
        && copy.source == Staged(["slim-dev", build.sha, build.pipeline], file.input)
        && copy.destination == Released(["slim-dev", build.version], output)
      else
        && copy.source == Staged(["slim", build.sha], file.input)
        && (copy.destination == Released(["slim-rc"], output)
            || (!isPrerelease && copy.destination == Released(["slim"], output)))
  {
    var stage, file, output := CopyTakes(target, StagesFor(isDev, isPrerelease), build, copy);
    PlacesAre(stage, build, file.input, output);
  }

  lemma {:induction false} PlacesAre(stage: Stage, build: Build, input: Path, output: Path)
    ensures stage == Dev ==>
      && InputPrefix(stage, build) + input == Staged(["slim-dev", build.sha, build.pipeline], input)
      && OutputPrefix(stage, build) + output == Released(["slim-dev", build.version], output)
    ensures stage == Rc || stage == Stable ==>
      InputPrefix(stage, build) + input == Staged(["slim", build.sha], input)
    ensures stage == Rc ==> OutputPrefix(stage, build) + output == Released(["slim-rc"], output)
    ensures stage == Stable ==> OutputPrefix(stage, build) + output == Released(["slim"], output)
  {
  }

  /** Nothing is missing: every file of the target is copied under every name it is to have, a final release to both
      places. */
  lemma {:induction false} EveryOutputIsCopied(
    isDev: bool, isPrerelease: bool, target: Target, build: Build, file: ArtifactFile, output: Path)
    requires file in FilesOf(target, build) && output in file.outputs
    ensures
      var copies := AllCopies(Wanted(target, StagesFor(isDev, isPrerelease), build));
      var built := Staged(["slim", build.sha], file.input);
      && (isDev ==> Copy(Staged(["slim-dev", build.sha, build.pipeline], file.input),
                         Released(["slim-dev", build.version], output)) in copies)
      && (!isDev ==> Copy(built, Released(["slim-rc"], output)) in copies)
      && (!isDev && !isPrerelease ==> Copy(built, Released(["slim"], output)) in copies)
  {
    var stages := StagesFor(isDev, isPrerelease);
    forall stage | stage in stages
      ensures Copy(InputPrefix(stage, build) + file.input, OutputPrefix(stage, build) + output)
           in AllCopies(Wanted(target, stages, build))
    {
      TakenIsCopied(target, stages, build, stage, file, output,
                    Copy(InputPrefix(stage, build) + file.input, OutputPrefix(stage, build) + output));
    }
    PlacesAre(Dev, build, file.input, output);
    PlacesAre(Rc, build, file.input, output);
    PlacesAre(Stable, build, file.input, output);
    assert isDev ==> stages[0] == Dev;
    assert !isDev ==> stages[0] == Rc;
    assert !isDev && !isPrerelease ==> stages[1] == Stable;
  }

  // ---------------------------------------------------------------- what is published, by the objects that are there

  /** All files of the target have been staged by this build. */
  predicate AllThere(target: Target, isDev: bool, build: Build, objects: set<Path>) {
    forall file <- FilesOf(target, build) ::
      Staged(if isDev then ["slim-dev", build.sha, build.pipeline] else ["slim", build.sha], file.input) in objects
  }

  lemma {:induction false} PlacedIsWanted(
    target: Target, stages: seq<Stage>, build: Build, stage: Stage, file: ArtifactFile)
    requires stage in stages && file in FilesOf(target, build)
    ensures Placed(file, stage, build) in Wanted(target, stages, build)
  {
    var i :| 0 <= i < |FilesOf(target, build)| && FilesOf(target, build)[i] == file;
    assert ArtifactsFor(target, stage, build)[i] == Placed(file, stage, build);
    WantedAre(target, stages, build, Placed(file, stage, build));
  }

  lemma {:induction false} WantedIsPlaced(target: Target, stages: seq<Stage>, build: Build, placed: ArtifactFile)
    returns (stage: Stage, file: ArtifactFile)
    requires placed in Wanted(target, stages, build)
    ensures stage in stages && file in FilesOf(target, build) && placed == Placed(file, stage, build)
  {
    WantedAre(target, stages, build, placed);
    stage :| stage in stages && placed in ArtifactsFor(target, stage, build);
    var i :| 0 <= i < |FilesOf(target, build)| && ArtifactsFor(target, stage, build)[i] == placed;
    file := FilesOf(target, build)[i];
  }

  /** Whichever stages a build goes to, they read its files from the same place. */
  lemma {:induction false} SourcePlace(isDev: bool, isPrerelease: bool, stage: Stage, build: Build, input: Path)
    requires stage in StagesFor(isDev, isPrerelease)
    ensures InputPrefix(stage, build) + input
         == Staged(if isDev then ["slim-dev", build.sha, build.pipeline] else ["slim", build.sha], input)
  {
    PlacesAre(stage, build, input, input);
  }

  lemma {:induction false} CompleteExactlyWhen(
    target: Target, isDev: bool, isPrerelease: bool, build: Build, objects: set<Path>)
    ensures Complete(Wanted(target, StagesFor(isDev, isPrerelease), build), objects)
            <==> AllThere(target, isDev, build, objects)
  {
    var stages := StagesFor(isDev, isPrerelease);
    if Complete(Wanted(target, stages, build), objects) {
      forall file <- FilesOf(target, build)
        ensures InputPrefix(stages[0], build) + file.input in objects
      {
        PlacedIsWanted(target, stages, build, stages[0], file);
      }
      forall file <- FilesOf(target, build) {
        SourcePlace(isDev, isPrerelease, stages[0], build, file.input);
      }
    }
    if AllThere(target, isDev, build, objects) {
      forall placed <- Wanted(target, stages, build)
        ensures placed.input in objects
      {
        var stage, file := WantedIsPlaced(target, stages, build, placed);
        SourcePlace(isDev, isPrerelease, stage, build, file.input);
      }
    }
  }

  /** The publication goes ahead exactly when this build has staged everything for the two targets that are required,
      whatever the third one lacks; a development build also needs its pipeline. */
  lemma {:induction false} PublishedExactlyWhen(isDev: bool, isPrerelease: bool, build: Build, objects: set<Path>)
    ensures (forall k | 0 <= k < |TARGETS| ::
               !Blocks(TARGETS[k], Wanted(TARGETS[k], StagesFor(isDev, isPrerelease), build), objects))
            <==> AllThere(LinuxX64, isDev, build, objects) && AllThere(MacArm64, isDev, build, objects)
  {
    forall target
      ensures Complete(Wanted(target, StagesFor(isDev, isPrerelease), build), objects)
              <==> AllThere(target, isDev, build, objects)
    {
      CompleteExactlyWhen(target, isDev, isPrerelease, build, objects);
    }
    assert TARGETS[0] == LinuxX64 && TARGETS[1] == LinuxArm64 && TARGETS[2] == MacArm64;
  }

  /** What is copied for a target, in one word: everything if all its files are there, and nothing otherwise. */
  lemma {:induction false} PublishedTargetsAre(
    isDev: bool, isPrerelease: bool, target: Target, build: Build, objects: set<Path>, copy: Copy)
    requires copy in AllCopies(Wanted(target, StagesFor(isDev, isPrerelease), build))
    ensures AllThere(target, isDev, build, objects) ==>
      copy in PublishedCopies(TARGETS, StagesFor(isDev, isPrerelease), build, objects)
    ensures copy in PublishedCopies(TARGETS, StagesFor(isDev, isPrerelease), build, objects) ==>
      exists t <- TARGETS ::
        && AllThere(t, isDev, build, objects)
        && copy in AllCopies(Wanted(t, StagesFor(isDev, isPrerelease), build))
  {
    var stages := StagesFor(isDev, isPrerelease);
    TargetsAreWhole(stages, build, objects, target);
    CompleteExactlyWhen(target, isDev, isPrerelease, build, objects);
    if copy in PublishedCopies(TARGETS, stages, build, objects) {
      var t :| t in TARGETS && Offers(t, copy, stages, build, objects);
      CompleteExactlyWhen(t, isDev, isPrerelease, build, objects);
    }
  }

  /** The installer comes first and is published under its own name and, beside it, under one with the version; the
      manifest the updater reads comes last. */
  lemma {:induction false} InstallerIsVersioned(target: Target, build: Build)
    ensures
      var files := FilesOf(target, build);
      var installer, manifest := files[0], files[|files| - 1];
      var name, versioned :=
        if target == MacArm64 then "Sculptor.dmg" else "Sculptor.AppImage",
        "Sculptor-" + build.version + if target == MacArm64 then ".dmg" else ".AppImage";
      && installer.input != [] && installer.input[|installer.input| - 1] == name
      && installer.outputs == [installer.input, installer.input[|installer.input| - 1 := versioned]]
      && manifest.input != [] && StartsWith(manifest.input[|manifest.input| - 1], "latest-")
      && manifest.outputs == [manifest.input]
  {
    var files := FilesOf(target, build);
    match target
    case LinuxX64 =>
      assert files[1].input[2] == "latest-linux.yml" && "latest-linux.yml"[..7] == "latest-";
      assert files[0].outputs[1] == files[0].input[2 := "Sculptor-" + build.version + ".AppImage"];
    case LinuxArm64 =>
      assert files[1].input[2] == "latest-linux-arm64.yml" && "latest-linux-arm64.yml"[..7] == "latest-";
      assert files[0].outputs[1] == files[0].input[2 := "Sculptor-" + build.version + ".AppImage"];
    case MacArm64 =>
      assert files[2].input[3] == "latest-mac.yml" && "latest-mac.yml"[..7] == "latest-";
      assert files[0].outputs[1] == files[0].input[0 := "Sculptor-" + build.version + ".dmg"];
  }
}
